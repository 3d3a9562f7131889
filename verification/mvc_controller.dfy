/** The decision logic of Controllers/ShortUrlController.cs: `Redirect`,
    `CreateShortUrl` and `Delete`, with their responses as abstract
    outcomes. User lookup and role membership are inputs. */
module ShortUrlController {
  import opened Wrappers
  import opened Models
  import opened UrlValidation
  import opened CreationResults
  import opened Registry
  import opened Listing
  import opened Mapping

  /** What `Redirect` answers: 404, the "InvalidUrl" view carrying the
      code and the entry id (so the page can offer deletion), or a
      redirect to the stored URL. */
  datatype RedirectOutcome =
    | NotFound
    | InvalidUrlView(shortCode: string, urlId: int)
    | RedirectTo(destination: string)

  /** `Redirect(shortCode)`: look up, re-validate, count the click, redirect. */
  function Redirect(st: Store, lib: UriLibrary, code: string): (r: Step<RedirectOutcome>)
    ensures !HasCode(st, code) ==> r == Step(NotFound, st)
    ensures HasCode(st, code) && !IsUrlValidForRedirect(lib, GetByShortCode(st, code).value.originalUrl) ==>
      r == Step(InvalidUrlView(code, GetByShortCode(st, code).value.id), st)
    ensures r.result.RedirectTo? <==>
      HasCode(st, code) && IsUrlValidForRedirect(lib, GetByShortCode(st, code).value.originalUrl)
    ensures r.result.RedirectTo? ==> r.result.destination == GetByShortCode(st, code).value.originalUrl
    ensures r.store.nextId == st.nextId && |r.store.entries| == |st.entries| && r.store.users == st.users
    ensures Valid(st) ==>
      forall i | 0 <= i < |st.entries| ::
        r.store.entries[i] ==
          if r.result.RedirectTo? && st.entries[i].shortCode == code
          then WithOneMoreClick(st.entries[i]) else st.entries[i]
    ensures Valid(st) ==> Valid(r.store)
  {
    match GetByShortCode(st, code)
    case None => Step(NotFound, st)
    case Some(url) =>
      if !IsUrlValidForRedirect(lib, url.originalUrl) then Step(InvalidUrlView(code, url.id), st)
      else Step(RedirectTo(url.originalUrl), IncrementClickCount(st, code))
  }

  /** The JSON messages `CreateShortUrl` and `Delete` can send. */
  datatype Message =
    | InvalidFormatMessage
    | UserNotFoundMessage
    | AlreadyExistsMessage
    | InvalidCharactersMessage
    | DeleteRefusedMessage

  const InvalidFormatText: string := "Invalid URL format. Please enter a valid URL (e.g., https://example.com)"
  const UserNotFoundText: string := "User not found."
  const AlreadyExistsText: string := "This URL already exists."
  const InvalidCharactersText: string :=
    "Invalid URL. URL contains invalid characters or is not properly formatted. Please use only ASCII characters in the URL (e.g., https://example.com)."
  const DeleteRefusedText: string := "Unable to delete URL. You may not have permission."

  /** The text each message carries in the JSON reply. */
  function MessageText(m: Message): (text: string) {
    match m
    case InvalidFormatMessage => InvalidFormatText
    case UserNotFoundMessage => UserNotFoundText
    case AlreadyExistsMessage => AlreadyExistsText
    case InvalidCharactersMessage => InvalidCharactersText
    case DeleteRefusedMessage => DeleteRefusedText
  }

  /** Distinct messages carry distinct texts, so a client can tell every
      failure apart from the text alone. */
  lemma MessageTextInjective(a: Message, b: Message)
    ensures MessageText(a) == MessageText(b) <==> a == b
  {
    if a != b {
      assert |MessageText(a)| != |MessageText(b)|;
    }
  }

  /** `Json(new { success = … })`: a failure message, the created link, or
      the bare success of a deletion. */
  datatype JsonReply =
    | Failed(message: Message)
    | CreatedLink(data: SummaryDto)
    | Deleted

  /** How a failed creation is explained. */
  type Explain = (Store, string, CreationResult) -> Message

  /** As written: the controller does not look at the result's error but
      searches the full listing for the submitted URL. */
  function ExplainByListing(st: Store, url: string, result: CreationResult): (m: Message)
    ensures m == AlreadyExistsMessage <==> HasUrl(st, url)
    ensures m == AlreadyExistsMessage || m == InvalidCharactersMessage
  {
    var all := GetAllUrls(st);
    if exists k | 0 <= k < |all| :: all[k].originalUrl == url then
      assert HasUrl(st, url) by {
        var k :| 0 <= k < |all| && all[k].originalUrl == url;
        assert all[k] in all;
      }
      AlreadyExistsMessage
    else
      assert !HasUrl(st, url) by {
        forall k | 0 <= k < |st.entries|
          ensures st.entries[k].originalUrl != url
        {
          assert IncludeCreator(st, st.entries[k]) in all;
        }
      }
      InvalidCharactersMessage
  }

  /** As intended: the message follows the error the service reported. */
  function ExplainByError(st: Store, url: string, result: CreationResult): (m: Message)
    ensures result.Error() == DuplicateUrl ==> m == AlreadyExistsMessage
    ensures result.Error() != DuplicateUrl ==> m == InvalidCharactersMessage
  {
    if result.Error() == DuplicateUrl then AlreadyExistsMessage else InvalidCharactersMessage
  }

  /** `CreateShortUrl`, parameterised by how a failure is explained. The
      blank check happens before the service is reached. */
  function CreateShortUrlWith(
    explain: Explain, st: Store, lib: UriLibrary, modelStateValid: bool, user: Option<AppUser>,
    url: string, now: int, candidates: seq<string>, baseUrl: string): (r: Step<JsonReply>)
    requires GeneratorOutputs(candidates)
    requires modelStateValid && user.Some? && IsValidUrl(lib, url) && !HasUrl(st, url) ==>
      exists i | 0 <= i < |candidates| :: !HasCode(st, candidates[i])
    ensures !modelStateValid || IsBlank(url) ==> r == Step(Failed(InvalidFormatMessage), st)
    ensures modelStateValid && !IsBlank(url) && user.None? ==> r == Step(Failed(UserNotFoundMessage), st)
    ensures r.result.CreatedLink? <==>
      modelStateValid && user.Some? && IsValidUrl(lib, url) && !HasUrl(st, url)
    ensures !r.result.CreatedLink? ==> r.store == st
    ensures r.result.CreatedLink? ==> r.store == Registry.CreateShortUrl(st, lib, url, user.value.id, now, candidates).store
    ensures r.result.CreatedLink? ==>
      && |r.store.entries| == |st.entries| + 1
      && var e := r.store.entries[|st.entries|];
      && e.originalUrl == url && e.createdById == user.value.id
      && r.result.data.id == e.id
      && r.result.data.shortCode == e.shortCode
      && r.result.data.originalUrl == e.originalUrl
      && r.result.data.createdDate == now
      && r.result.data.shortUrl == ShortUrlFor(baseUrl, e.shortCode)
      && r.result.data.createdBy == user.value.userName.GetOr("")
      && r.result.data.clickCount == 0
    ensures Valid(st) ==> Valid(r.store)
  {
    if !modelStateValid || IsBlank(url) then Step(Failed(InvalidFormatMessage), st)
    else if user.None? then Step(Failed(UserNotFoundMessage), st)
    else
      var created := Registry.CreateShortUrl(st, lib, url, user.value.id, now, candidates);
      if !created.result.Succeeded() then
        Step(Failed(explain(created.store, url, created.result)), created.store)
      else
        var e := created.result.created;
        var dto := ToSummaryDto(Some(e), baseUrl, Some(user.value.userName.GetOr("")));
        ShortUrlParsedIsBuilt(baseUrl, dto.value.shortUrl);
        Step(CreatedLink(dto.value), created.store)
  }

  /** `CreateShortUrl` as written: "already exists" exactly when the
      submitted URL is in the store, whatever the service reported. */
  function CreateShortUrl(
    st: Store, lib: UriLibrary, modelStateValid: bool, user: Option<AppUser>,
    url: string, now: int, candidates: seq<string>, baseUrl: string): (r: Step<JsonReply>)
    requires GeneratorOutputs(candidates)
    requires modelStateValid && user.Some? && IsValidUrl(lib, url) && !HasUrl(st, url) ==>
      exists i | 0 <= i < |candidates| :: !HasCode(st, candidates[i])
    ensures r.result == Failed(AlreadyExistsMessage) <==>
      modelStateValid && !IsBlank(url) && user.Some? && HasUrl(st, url)
    ensures r.result == Failed(InvalidCharactersMessage) <==>
      modelStateValid && !IsBlank(url) && user.Some? && !IsValidUrl(lib, url) && !HasUrl(st, url)
  {
    CreateShortUrlWith(ExplainByListing, st, lib, modelStateValid, user, url, now, candidates, baseUrl)
  }

  /** `CreateShortUrl` with the message taken from the service's error:
      "already exists" exactly for `DuplicateUrl`, "invalid" exactly for
      `InvalidUrlFormat`. */
  function CreateShortUrlByError(
    st: Store, lib: UriLibrary, modelStateValid: bool, user: Option<AppUser>,
    url: string, now: int, candidates: seq<string>, baseUrl: string): (r: Step<JsonReply>)
    requires GeneratorOutputs(candidates)
    requires modelStateValid && user.Some? && IsValidUrl(lib, url) && !HasUrl(st, url) ==>
      exists i | 0 <= i < |candidates| :: !HasCode(st, candidates[i])
    ensures r.result == Failed(AlreadyExistsMessage) <==>
      modelStateValid && !IsBlank(url) && user.Some? &&
      Registry.CreateShortUrl(st, lib, url, user.value.id, now, candidates).result.Duplicate?
    ensures r.result == Failed(InvalidCharactersMessage) <==>
      modelStateValid && !IsBlank(url) && user.Some? &&
      Registry.CreateShortUrl(st, lib, url, user.value.id, now, candidates).result.InvalidUrl?
  {
    CreateShortUrlWith(ExplainByError, st, lib, modelStateValid, user, url, now, candidates, baseUrl)
  }

  /** `Delete(id)`: the admin role becomes the service's elevated flag and
      a false answer becomes the refusal message. */
  function Delete(st: Store, user: Option<AppUser>, isAdmin: bool, id: int): (r: Step<JsonReply>)
    ensures user.None? ==> r == Step(Failed(UserNotFoundMessage), st)
    ensures user.Some? ==>
      (r.result == Deleted <==> DeleteUrl(st, id, user.value.id, isAdmin).result)
    ensures user.Some? ==>
      (r.result == Failed(DeleteRefusedMessage) <==> !DeleteUrl(st, id, user.value.id, isAdmin).result)
    ensures user.Some? ==> r.store == DeleteUrl(st, id, user.value.id, isAdmin).store
    ensures Valid(st) ==> Valid(r.store)
  {
    if user.None? then Step(Failed(UserNotFoundMessage), st)
    else
      var deleted := DeleteUrl(st, id, user.value.id, isAdmin);
      if !deleted.result then Step(Failed(DeleteRefusedMessage), deleted.store)
      else Step(Deleted, deleted.store)
  }
}
