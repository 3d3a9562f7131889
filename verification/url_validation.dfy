/** The two URL validators of Services/UrlShortenerService.cs. The .NET URI
    library is foreign code: it enters as a `UriLibrary` value whose
    functions are left uninterpreted. */
module UrlValidation {
  import opened Wrappers

  /** The part of a parsed `System.Uri` the validators read. `Uri.Scheme`
      is already lower-cased by the library. */
  datatype ParsedUri = ParsedUri(scheme: string)

  /** The library calls the validators make:
      - `tryCreateAbsolute(s)` is `Uri.TryCreate(s, UriKind.Absolute, out uri)`,
        `None` when it returns false;
      - `escapeUriStringThrows(s)` holds when `Uri.EscapeUriString(s)` throws. */
  datatype UriLibrary = UriLibrary(
    tryCreateAbsolute: string -> Option<ParsedUri>,
    escapeUriStringThrows: string -> bool)

  /** `Uri.UriSchemeHttp` and `Uri.UriSchemeHttps`. */
  const UriSchemeHttp: string := "http"
  const UriSchemeHttps: string := "https"

  /** `char.IsWhiteSpace`: the Unicode space, line and paragraph separators
      and the control characters U+0009-U+000D and U+0085. */
  predicate IsWhiteSpace(c: char) {
    || c == ' ' || ('\t' <= c <= '\r') || c == '\U{85}' || c == '\U{A0}'
    || c == '\U{1680}' || ('\U{2000}' <= c <= '\U{200A}') || c == '\U{2028}'
    || c == '\U{2029}' || c == '\U{202F}' || c == '\U{205F}' || c == '\U{3000}'
  }

  /** `string.IsNullOrWhiteSpace` on a non-null string: every character is
      white space (so the empty string counts as blank). */
  predicate IsBlank(s: string) {
    forall i | 0 <= i < |s| :: IsWhiteSpace(s[i])
  }

  /** Every character is in the ASCII range, i.e. none is above 127. */
  predicate IsAscii(s: string) {
    forall i | 0 <= i < |s| :: s[i] as int <= 127
  }

  /** The source's exception for non-ASCII characters; it admits none. */
  function IsValidNonAsciiInUrl(c: char): (allowed: bool)
    ensures !allowed
  {
    false
  }

  /** The `foreach (char c in url)` scan from position `from` on: it stops
      with false at the first character above 127 that `accept` does not
      admit, and returns true when it reaches the end. */
  function ScanChars(url: string, from: nat, accept: char -> bool): (ok: bool)
    requires from <= |url|
    ensures ok <==> forall j | from <= j < |url| :: url[j] as int <= 127 || accept(url[j])
    decreases |url| - from
  {
    if from == |url| then true
    else if url[from] as int > 127 && !accept(url[from]) then false
    else ScanChars(url, from + 1, accept)
  }

  /** `IsValidUrl`: the gate every new short link must pass. The `catch`
      around the escape call and the scan turns a throwing
      `EscapeUriString` into a rejection. */
  function IsValidUrl(lib: UriLibrary, url: string): (valid: bool)
    ensures valid <==>
      && !IsBlank(url)
      && lib.tryCreateAbsolute(url).Some?
      && lib.tryCreateAbsolute(url).value.scheme in {UriSchemeHttp, UriSchemeHttps}
      && !lib.escapeUriStringThrows(url)
      && IsAscii(url)
  {
    if IsBlank(url) then false
    else match lib.tryCreateAbsolute(url)
      case None => false
      case Some(uri) =>
        if uri.scheme != UriSchemeHttp && uri.scheme != UriSchemeHttps then false
        else if lib.escapeUriStringThrows(url) then false
        else ScanChars(url, 0, IsValidNonAsciiInUrl)
  }

  /** `IsUrlValidForRedirect`: the re-check made before every redirect. It
      does not look at the scheme and does not call the escape routine. */
  function IsUrlValidForRedirect(lib: UriLibrary, url: string): (valid: bool)
    ensures valid <==>
      && !IsBlank(url)
      && lib.tryCreateAbsolute(url).Some?
      && IsAscii(url)
  {
    if IsBlank(url) then false
    else match lib.tryCreateAbsolute(url)
      case None => false
      case Some(_) => ScanChars(url, 0, c => false)
  }

  /** Any URL accepted at creation can later be redirected to (under the
      same URI library). */
  lemma CreationValidImpliesRedirectValid(lib: UriLibrary, url: string)
    requires IsValidUrl(lib, url)
    ensures IsUrlValidForRedirect(lib, url)
  {
  }

  /** The converse fails: redirect validity ignores the scheme, so an
      absolute `ftp` URL passes the redirect check but not creation. */
  lemma RedirectValidDoesNotImplyCreationValid()
    ensures exists lib: UriLibrary, url: string ::
      IsUrlValidForRedirect(lib, url) && !IsValidUrl(lib, url)
  {
    var lib := UriLibrary(s => Some(ParsedUri("ftp")), s => false);
    var url := "ftp://x.com";
    assert !IsWhiteSpace(url[0]);
    assert IsUrlValidForRedirect(lib, url);
    assert !IsValidUrl(lib, url);
  }

  /** Any character above 127 rejects a URL under both validators, whatever
      the URI library says. */
  lemma NonAsciiRejected(lib: UriLibrary, url: string, i: nat)
    requires i < |url| && url[i] as int > 127
    ensures !IsValidUrl(lib, url) && !IsUrlValidForRedirect(lib, url)
  {
  }
}
