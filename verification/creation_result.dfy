/** `ShortUrlCreationResult` of Models/Results/ShortUrlCreationResult.cs.
    The class has a private constructor and three factories, so every value
    is one of three shapes; the datatype below has exactly those shapes and
    the class's four properties become functions on it. */
module CreationResults {
  import opened Wrappers
  import opened Models

  /** `ShortUrlCreationError`; `NoError` is its `None` member. */
  datatype CreationError = NoError | InvalidUrlFormat | DuplicateUrl

  /** The three factories `Success`, `InvalidUrl` and `Duplicate`. */
  datatype CreationResult =
    | Success(created: ShortUrl)
    | InvalidUrl(submittedUrl: string)
    | Duplicate(submittedUrl: string)
  {
    /** The `Succeeded` property. */
    predicate Succeeded() {
      Success?
    }

    /** The `Error` property. */
    function Error(): (e: CreationError) {
      match this
      case Success(_) => NoError
      case InvalidUrl(_) => InvalidUrlFormat
      case Duplicate(_) => DuplicateUrl
    }

    /** The `ShortUrl` property; `None` is `null`. */
    function ShortUrl(): (u: Option<ShortUrl>) {
      if Success? then Some(created) else Option.None
    }

    /** The `OriginalUrl` property. */
    function OriginalUrl(): (url: string) {
      if Success? then created.originalUrl else submittedUrl
    }
  }

  /** What each factory sets its four properties to. */
  lemma FactoryProperties(s: ShortUrl, url: string)
    ensures var r := Success(s);
      r.Succeeded() && r.Error() == NoError && r.ShortUrl() == Some(s) && r.OriginalUrl() == s.originalUrl
    ensures var r := InvalidUrl(url);
      !r.Succeeded() && r.Error() == InvalidUrlFormat && r.ShortUrl().None? && r.OriginalUrl() == url
    ensures var r := Duplicate(url);
      !r.Succeeded() && r.Error() == DuplicateUrl && r.ShortUrl().None? && r.OriginalUrl() == url
  {
  }

  /** Since only the factories build results, `Succeeded`, `Error == None`
      and a non-null `ShortUrl` always agree, and the failure is determined
      by its error code. */
  lemma ResultConsistency(r: CreationResult)
    ensures r.Succeeded() <==> r.Error() == NoError
    ensures r.Error() == NoError <==> r.ShortUrl().Some?
    ensures r.Error() == InvalidUrlFormat <==> r == InvalidUrl(r.OriginalUrl())
    ensures r.Error() == DuplicateUrl <==> r == Duplicate(r.OriginalUrl())
  {
  }
}
