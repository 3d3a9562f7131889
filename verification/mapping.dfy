/** Extensions/ShortUrlMappingExtensions.cs: entity to DTO / view-model
    mapping and the public short-link string. */
module Mapping {
  import opened Wrappers
  import opened Models

  /** `ShortUrlSummaryDto`; `createdDate` carries the timestamp that the
      source formats as text. */
  datatype SummaryDto = SummaryDto(
    id: int,
    originalUrl: string,
    shortCode: string,
    shortUrl: string,
    createdBy: string,
    createdDate: int,
    clickCount: nat)

  /** `ShortUrlDetailsViewModel`. */
  datatype DetailsViewModel = DetailsViewModel(
    originalUrl: string,
    shortUrl: string,
    shortCode: string,
    createdBy: string,
    createdDate: int,
    clickCount: nat)

  /** `ArgumentNullException.ThrowIfNull(entity)`. */
  datatype MappingError = NullEntity

  /** The route segment in front of every code. */
  const RedirectSegment: string := "/r/"

  /** `$"{baseUrl}/r/{code}"`. */
  function ShortUrlFor(baseUrl: string, code: string): (s: string)
    ensures |s| == |baseUrl| + |RedirectSegment| + |code|
    ensures s[..|baseUrl| + |RedirectSegment|] == baseUrl + RedirectSegment
  {
    baseUrl + RedirectSegment + code
  }

  /** The code a short link points at, if the link has the expected prefix. */
  function CodeFromShortUrl(baseUrl: string, s: string): (code: Option<string>)
    ensures code.Some? <==> baseUrl + RedirectSegment <= s
  {
    var prefix := baseUrl + RedirectSegment;
    if prefix <= s then Some(s[|prefix|..]) else None
  }

  /** Stripping `baseUrl + "/r/"` from a short link gives back its code. */
  lemma ShortUrlRoundTrip(baseUrl: string, code: string)
    ensures CodeFromShortUrl(baseUrl, ShortUrlFor(baseUrl, code)) == Some(code)
  {
    var s := ShortUrlFor(baseUrl, code);
    assert s == (baseUrl + RedirectSegment) + code;
    assert s[|baseUrl + RedirectSegment|..] == code;
  }

  /** Every string that parses as a short link is the link of its code. */
  lemma ShortUrlParsedIsBuilt(baseUrl: string, s: string)
    requires CodeFromShortUrl(baseUrl, s).Some?
    ensures s == ShortUrlFor(baseUrl, CodeFromShortUrl(baseUrl, s).value)
  {
    var prefix := baseUrl + RedirectSegment;
    assert s == s[..|prefix|] + s[|prefix|..];
  }

  /** Under one base URL, distinct codes give distinct short links. */
  lemma ShortUrlInjective(baseUrl: string, c1: string, c2: string)
    requires ShortUrlFor(baseUrl, c1) == ShortUrlFor(baseUrl, c2)
    ensures c1 == c2
  {
    ShortUrlRoundTrip(baseUrl, c1);
    ShortUrlRoundTrip(baseUrl, c2);
  }

  /** `entity.CreatedBy?.UserName ?? string.Empty`. */
  function CreatorName(e: ShortUrl): (name: string)
    ensures e.createdBy.Some? && e.createdBy.value.userName.Some? ==> name == e.createdBy.value.userName.value
    ensures (e.createdBy.None? || e.createdBy.value.userName.None?) ==> name == ""
  {
    match e.createdBy
    case None => ""
    case Some(u) => u.userName.GetOr("")
  }

  /** `ToSummaryDto`: field-for-field copy plus the short link; `CreatedBy`
      prefers the override, then the creator's user name, then "". */
  function ToSummaryDto(entity: Option<ShortUrl>, baseUrl: string, createdByOverride: Option<string>)
    : (r: Result<SummaryDto, MappingError>)
    ensures entity.None? <==> r == Err(NullEntity)
    ensures r.Ok? ==>
      var e, d := entity.value, r.value;
      && d.id == e.id && d.originalUrl == e.originalUrl && d.shortCode == e.shortCode
      && d.clickCount == e.clickCount && d.createdDate == e.createdDate
      && CodeFromShortUrl(baseUrl, d.shortUrl) == Some(e.shortCode)
      && (createdByOverride.Some? ==> d.createdBy == createdByOverride.value)
      && (createdByOverride.None? ==> d.createdBy == CreatorName(e))
  {
    match entity
    case None => Err(NullEntity)
    case Some(e) =>
      ShortUrlRoundTrip(baseUrl, e.shortCode);
      Ok(SummaryDto(
        e.id, e.originalUrl, e.shortCode, ShortUrlFor(baseUrl, e.shortCode),
        createdByOverride.GetOr(CreatorName(e)), e.createdDate, e.clickCount))
  }

  /** `ToDetailsViewModel`: the same copy without id, never overriding the
      creator's name. */
  function ToDetailsViewModel(entity: Option<ShortUrl>, baseUrl: string)
    : (r: Result<DetailsViewModel, MappingError>)
    ensures entity.None? <==> r == Err(NullEntity)
    ensures r.Ok? ==>
      var e, v := entity.value, r.value;
      && v.originalUrl == e.originalUrl && v.shortCode == e.shortCode
      && v.clickCount == e.clickCount && v.createdDate == e.createdDate
      && CodeFromShortUrl(baseUrl, v.shortUrl) == Some(e.shortCode)
      && v.createdBy == CreatorName(e)
  {
    match entity
    case None => Err(NullEntity)
    case Some(e) =>
      ShortUrlRoundTrip(baseUrl, e.shortCode);
      Ok(DetailsViewModel(
        e.originalUrl, ShortUrlFor(baseUrl, e.shortCode), e.shortCode,
        CreatorName(e), e.createdDate, e.clickCount))
  }
}
