/** The decision logic of Controllers/Api/ShortUrlsApiController.cs: which
    result each outcome of the service becomes. User lookup and role
    membership are inputs (`user`, `isAdmin`); `modelStateValid` is the
    outcome of model binding and annotation validation. */
module ShortUrlsApi {
  import opened Wrappers
  import opened Models
  import opened UrlValidation
  import opened CreationResults
  import opened Registry
  import opened Listing
  import opened Mapping

  /** The `IActionResult`s the two actions return. */
  datatype ApiResponse =
    | ValidationProblem
    | Unauthorized
    | BadRequest
    | Conflict
    | InternalServerError
    | OkSummary(dto: SummaryDto)
    | NotFound
    | Forbid
    | NoContent

  /** The HTTP status each result carries. A `Forbid` result carries none:
      the authentication handler decides how to answer it. */
  function StatusCode(resp: ApiResponse): (code: Option<int>)
    ensures code.None? <==> resp.Forbid?
    ensures code.Some? ==> 200 <= code.value < 600
  {
    match resp
    case ValidationProblem => Some(400)
    case Unauthorized => Some(401)
    case BadRequest => Some(400)
    case Conflict => Some(409)
    case InternalServerError => Some(500)
    case OkSummary(_) => Some(200)
    case NotFound => Some(404)
    case Forbid => Option.None
    case NoContent => Some(204)
  }

  /** The `switch` on `creationResult.Error` for a failed creation. */
  function FailureResponse(error: CreationError): (resp: ApiResponse)
    ensures error == InvalidUrlFormat <==> StatusCode(resp) == Some(400)
    ensures error == DuplicateUrl <==> StatusCode(resp) == Some(409)
    ensures error == NoError <==> StatusCode(resp) == Some(500)
  {
    match error
    case InvalidUrlFormat => BadRequest
    case DuplicateUrl => Conflict
    case NoError => InternalServerError
  }

  /** `CreateAsync`. */
  function Create(
    st: Store, lib: UriLibrary, modelStateValid: bool, user: Option<AppUser>,
    url: string, now: int, candidates: seq<string>, baseUrl: string): (r: Step<ApiResponse>)
    requires GeneratorOutputs(candidates)
    requires modelStateValid && user.Some? && IsValidUrl(lib, url) && !HasUrl(st, url) ==>
      exists i | 0 <= i < |candidates| :: !HasCode(st, candidates[i])
    ensures !modelStateValid ==> r == Step(ValidationProblem, st)
    ensures modelStateValid && user.None? ==> r == Step(Unauthorized, st)
    ensures r.result.BadRequest? <==> modelStateValid && user.Some? && !IsValidUrl(lib, url)
    ensures r.result.Conflict? <==> modelStateValid && user.Some? && IsValidUrl(lib, url) && HasUrl(st, url)
    ensures r.result.OkSummary? <==> modelStateValid && user.Some? && IsValidUrl(lib, url) && !HasUrl(st, url)
    ensures !r.result.InternalServerError?
    ensures !r.result.OkSummary? ==> r.store == st
    ensures r.result.OkSummary? ==> r.store == CreateShortUrl(st, lib, url, user.value.id, now, candidates).store
    ensures r.result.OkSummary? ==>
      && |r.store.entries| == |st.entries| + 1
      && var e := r.store.entries[|st.entries|];
      && e.originalUrl == url && e.createdById == user.value.id
      && r.result.dto.shortCode == e.shortCode
      && r.result.dto.originalUrl == e.originalUrl
      && r.result.dto.id == e.id
      && r.result.dto.createdDate == now
      && r.result.dto.clickCount == 0
      && CodeFromShortUrl(baseUrl, r.result.dto.shortUrl) == Some(e.shortCode)
      && r.result.dto.createdBy == user.value.userName.GetOr("")
    ensures Valid(st) ==> Valid(r.store)
  {
    if !modelStateValid then Step(ValidationProblem, st)
    else if user.None? then Step(Unauthorized, st)
    else
      var created := CreateShortUrl(st, lib, url, user.value.id, now, candidates);
      if !created.result.Succeeded() then Step(FailureResponse(created.result.Error()), created.store)
      else
        var dto := ToSummaryDto(created.result.ShortUrl(), baseUrl, user.value.userName);
        Step(OkSummary(dto.value), created.store)
  }

  /** `DeleteAsync`: an unknown id is reported before any permission
      decision; a refusal from the service becomes `Forbid`. */
  function Delete(st: Store, user: Option<AppUser>, isAdmin: bool, id: int): (r: Step<ApiResponse>)
    ensures user.None? ==> r == Step(Unauthorized, st)
    ensures user.Some? && !HasId(st, id) ==> r == Step(NotFound, st)
    ensures r.result.NoContent? <==>
      user.Some? && HasId(st, id) && CanDelete(GetById(st, id).value, user.value.id, isAdmin)
    ensures r.result.Forbid? <==>
      user.Some? && HasId(st, id) && !CanDelete(GetById(st, id).value, user.value.id, isAdmin)
    ensures !r.result.NoContent? ==> r.store == st
    ensures r.result.NoContent? ==> r.store == DeleteUrl(st, id, user.value.id, isAdmin).store
    ensures Valid(st) && r.result.NoContent? ==> !HasId(r.store, id)
    ensures Valid(st) ==> Valid(r.store)
  {
    if user.None? then Step(Unauthorized, st)
    else if GetById(st, id).None? then Step(NotFound, st)
    else
      var deleted := DeleteUrl(st, id, user.value.id, isAdmin);
      if !deleted.result then Step(Forbid, deleted.store)
      else Step(NoContent, deleted.store)
  }

  /** `GetAllAsync` (and the MVC `GetAllUrls` payload, which has the same
      fields): every entry, newest first, as a summary. */
  function ListPayload(st: Store, baseUrl: string): (payload: seq<SummaryDto>)
    ensures |payload| == |st.entries|
    ensures forall k | 0 <= k < |payload| ::
      var e := GetAllUrls(st)[k];
      && payload[k].id == e.id && payload[k].shortCode == e.shortCode
      && payload[k].originalUrl == e.originalUrl && payload[k].clickCount == e.clickCount
      && payload[k].shortUrl == ShortUrlFor(baseUrl, e.shortCode)
      && payload[k].createdDate == e.createdDate
      && payload[k].createdBy == CreatorName(e)
      && (e.createdById in st.users ==> payload[k].createdBy == st.users[e.createdById].userName.GetOr(""))
      && (e.createdById !in st.users ==> payload[k].createdBy == "")
    ensures forall i, j | 0 <= i < j < |payload| :: payload[i].createdDate >= payload[j].createdDate
  {
    var all := GetAllUrls(st);
    assert forall k | 0 <= k < |all| :: all[k] in all;
    seq(|all|, k requires 0 <= k < |all| => ToSummaryDto(Some(all[k]), baseUrl, Option.None).value)
  }
}
