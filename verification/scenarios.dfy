/** Properties of sequences of operations: what the registry, the resolver
    and the controllers promise across calls. */
module Scenarios {
  import opened Wrappers
  import opened Models
  import opened UrlValidation
  import opened CreationResults
  import opened Registry
  import ShortUrlController
  import ShortUrlsApi
  import Listing

  /** Submitting the same valid URL twice: the first call succeeds, the
      second is rejected as a duplicate without touching the store, and the
      store holds exactly one entry for the URL. */
  lemma CreateTwiceGivesDuplicate(
    st: Store, lib: UriLibrary, url: string, user1: string, user2: string,
    now1: int, now2: int, c1: seq<string>, c2: seq<string>)
    requires Valid(st) && IsValidUrl(lib, url) && !HasUrl(st, url)
    requires GeneratorOutputs(c1) && GeneratorOutputs(c2)
    requires exists i | 0 <= i < |c1| :: !HasCode(st, c1[i])
    ensures var first := CreateShortUrl(st, lib, url, user1, now1, c1);
      && first.result.Succeeded()
      && HasUrl(first.store, url)
      && var second := CreateShortUrl(first.store, lib, url, user2, now2, c2);
      && second == Step(Duplicate(url), first.store)
      && exists i | 0 <= i < |second.store.entries| ::
           && second.store.entries[i].originalUrl == url
           && forall j | 0 <= j < |second.store.entries| && second.store.entries[j].originalUrl == url :: j == i
  {
    var first := CreateShortUrl(st, lib, url, user1, now1, c1);
    var s1 := first.store;
    var n := |st.entries|;
    assert s1.entries[n].originalUrl == url;
    forall j | 0 <= j < |s1.entries| && s1.entries[j].originalUrl == url
      ensures j == n
    {
      UniqueIndexes(s1, j, n);
    }
  }

  /** A created link is found again by its code and by its id. */
  lemma CreatedLinkIsFound(
    st: Store, lib: UriLibrary, url: string, userId: string, now: int, candidates: seq<string>)
    requires Valid(st) && GeneratorOutputs(candidates)
    requires IsValidUrl(lib, url) && !HasUrl(st, url) ==>
      exists i | 0 <= i < |candidates| :: !HasCode(st, candidates[i])
    ensures var created := CreateShortUrl(st, lib, url, userId, now, candidates);
      created.result.Succeeded() ==>
        var e := created.result.created;
        && GetByShortCode(created.store, e.shortCode) == Some(IncludeCreator(created.store, e))
        && GetById(created.store, e.id) == Some(IncludeCreator(created.store, e))
        && (userId in st.users ==> GetById(created.store, e.id).value.createdBy == Some(st.users[userId]))
  {
    var created := CreateShortUrl(st, lib, url, userId, now, candidates);
    if created.result.Succeeded() {
      var n := |st.entries|;
      assert created.store.entries[n] == created.result.created;
      EntryDeterminedByKeys(created.store, n);
    }
  }

  /** The listing shows a link created by a known user under that user's
      name, as the creator loaded by `GetAllUrlsAsync` supplies it. */
  lemma CreatedLinkListedWithCreator(
    st: Store, lib: UriLibrary, url: string, user: AppUser, now: int, candidates: seq<string>, baseUrl: string)
    requires Valid(st) && GeneratorOutputs(candidates)
    requires user.id in st.users && st.users[user.id] == user
    requires IsValidUrl(lib, url) && !HasUrl(st, url) ==>
      exists i | 0 <= i < |candidates| :: !HasCode(st, candidates[i])
    ensures var created := CreateShortUrl(st, lib, url, user.id, now, candidates);
      created.result.Succeeded() ==>
        var payload := ShortUrlsApi.ListPayload(created.store, baseUrl);
        exists k | 0 <= k < |payload| ::
          && payload[k].id == created.result.created.id
          && payload[k].originalUrl == url
          && payload[k].createdBy == user.userName.GetOr("")
  {
    var created := CreateShortUrl(st, lib, url, user.id, now, candidates);
    if created.result.Succeeded() {
      var st' := created.store;
      var n := |st.entries|;
      var all := Listing.GetAllUrls(st');
      assert st'.entries[n] == created.result.created;
      var loaded := IncludeCreator(st', st'.entries[n]);
      assert loaded in all;
      var k :| 0 <= k < |all| && all[k] == loaded;
      var payload := ShortUrlsApi.ListPayload(st', baseUrl);
      assert payload[k].id == loaded.id && payload[k].originalUrl == url;
      assert payload[k].createdBy == user.userName.GetOr("");
    }
  }

  /** After a successful deletion the id is no longer found; after a
      refused one the entry is still there, unchanged. */
  lemma DeletedLinkIsGone(st: Store, id: int, userId: string, isAdmin: bool)
    requires Valid(st)
    ensures var deleted := DeleteUrl(st, id, userId, isAdmin);
      && (deleted.result ==> GetById(deleted.store, id).None?)
      && (!deleted.result ==> GetById(deleted.store, id) == GetById(st, id))
  {
  }

  /** A lookup after `IncrementClickCountAsync` sees the count one higher
      and every other field as before. */
  lemma IncrementSeenByLookup(st: Store, code: string)
    requires Valid(st) && HasCode(st, code)
    ensures var before := GetByShortCode(st, code).value;
      GetByShortCode(IncrementClickCount(st, code), code) == Some(WithOneMoreClick(before))
  {
    var i :| 0 <= i < |st.entries| && st.entries[i].shortCode == code;
    var st' := IncrementClickCount(st, code);
    EntryDeterminedByKeys(st, i);
    assert st'.entries[i] == WithOneMoreClick(st.entries[i]);
    EntryDeterminedByKeys(st', i);
  }

  /** The store after `k` requests for the same short link. */
  function RedirectTimes(st: Store, lib: UriLibrary, code: string, k: nat): (st': Store)
    decreases k
  {
    if k == 0 then st
    else ShortUrlController.Redirect(RedirectTimes(st, lib, code, k - 1), lib, code).store
  }

  /** One request for a stored, redirect-valid link adds one click to it. */
  lemma RedirectCountsOnce(st: Store, lib: UriLibrary, code: string, i: nat)
    requires Valid(st) && i < |st.entries|
    requires st.entries[i].shortCode == code
    requires IsUrlValidForRedirect(lib, st.entries[i].originalUrl)
    ensures var step := ShortUrlController.Redirect(st, lib, code);
      && step.result == ShortUrlController.RedirectTo(st.entries[i].originalUrl)
      && Valid(step.store)
      && |step.store.entries| == |st.entries|
      && step.store.entries[i] == WithOneMoreClick(st.entries[i])
  {
    EntryDeterminedByKeys(st, i);
  }

  /** `k` requests for a stored, redirect-valid link add exactly `k` clicks
      to that entry and change nothing else about it. */
  lemma {:induction false} ClicksAccumulate(st: Store, lib: UriLibrary, code: string, i: nat, k: nat)
    requires Valid(st) && i < |st.entries|
    requires st.entries[i].shortCode == code
    requires IsUrlValidForRedirect(lib, st.entries[i].originalUrl)
    ensures var st' := RedirectTimes(st, lib, code, k);
      && Valid(st')
      && |st'.entries| == |st.entries|
      && st'.entries[i] == st.entries[i].(clickCount := st.entries[i].clickCount + k)
    decreases k
  {
    if k > 0 {
      ClicksAccumulate(st, lib, code, i, k - 1);
      RedirectCountsOnce(RedirectTimes(st, lib, code, k - 1), lib, code, i);
    }
  }

  /** A freshly created link redirects to its URL and its count becomes 1. */
  lemma FreshLinkRedirects(
    st: Store, lib: UriLibrary, url: string, userId: string, now: int, candidates: seq<string>)
    requires Valid(st) && IsValidUrl(lib, url) && !HasUrl(st, url)
    requires GeneratorOutputs(candidates)
    requires exists i | 0 <= i < |candidates| :: !HasCode(st, candidates[i])
    ensures var created := CreateShortUrl(st, lib, url, userId, now, candidates);
      && created.result.Succeeded()
      && var code := created.result.created.shortCode;
      && var resolved := ShortUrlController.Redirect(created.store, lib, code);
      && resolved.result == ShortUrlController.RedirectTo(url)
      && resolved.store.entries[|st.entries|].clickCount == 1
  {
    var created := CreateShortUrl(st, lib, url, userId, now, candidates);
    var s1 := created.store;
    var n := |st.entries|;
    CreationValidImpliesRedirectValid(lib, url);
    EntryDeterminedByKeys(s1, n);
    assert s1.entries[n] == created.result.created;
  }

  /** A stored URL with a character above 127 is never redirected to and
      its counter does not move. */
  lemma NonAsciiStoredUrlIsNotRedirected(st: Store, lib: UriLibrary, i: nat, c: nat)
    requires Valid(st) && i < |st.entries|
    requires c < |st.entries[i].originalUrl| && st.entries[i].originalUrl[c] as int > 127
    ensures var e := st.entries[i];
      ShortUrlController.Redirect(st, lib, e.shortCode) ==
        Step(ShortUrlController.InvalidUrlView(e.shortCode, e.id), st)
  {
    EntryDeterminedByKeys(st, i);
    NonAsciiRejected(lib, st.entries[i].originalUrl, c);
  }

  /** When every stored URL would still pass creation validation, the
      controller's listing search agrees with the service's error. */
  lemma ListingExplanationAgreesOnCleanStore(
    st: Store, lib: UriLibrary, user: AppUser, url: string, now: int, candidates: seq<string>, baseUrl: string)
    requires GeneratorOutputs(candidates)
    requires IsValidUrl(lib, url) && !HasUrl(st, url) ==>
      exists i | 0 <= i < |candidates| :: !HasCode(st, candidates[i])
    requires forall k | 0 <= k < |st.entries| :: IsValidUrl(lib, st.entries[k].originalUrl)
    ensures ShortUrlController.CreateShortUrl(st, lib, true, Some(user), url, now, candidates, baseUrl)
         == ShortUrlController.CreateShortUrlByError(st, lib, true, Some(user), url, now, candidates, baseUrl)
  {
    if HasUrl(st, url) {
      var k :| 0 <= k < |st.entries| && st.entries[k].originalUrl == url;
      assert IsValidUrl(lib, url);
    }
  }

  /** The example of the finding below: a stored URL with a non-ASCII
      character, and a URI library that parses anything as an http URL. */
  const ExampleUrl: string := "http://\U{E9}.com"
  const ExampleLib: UriLibrary := UriLibrary(s => Some(ParsedUri("http")), s => false)
  const ExampleStore: Store := Store([ShortUrl(1, ExampleUrl, "ABC123", 0, "owner", None, 0)], 2, map[])
  const ExampleUser: AppUser := AppUser("user-1", Some("tester"))

  /** Submitting that URL again: the service answers `InvalidUrlFormat`,
      but the controller's listing search says the URL "already exists";
      explaining by the service's error says "invalid". */
  lemma ListingExplanationMisreportsStoredInvalidUrl()
    ensures Valid(ExampleStore)
    ensures HasUrl(ExampleStore, ExampleUrl) && !IsValidUrl(ExampleLib, ExampleUrl)
    ensures CreateShortUrl(ExampleStore, ExampleLib, ExampleUrl, ExampleUser.id, 0, []).result == InvalidUrl(ExampleUrl)
    ensures ShortUrlController.CreateShortUrl(ExampleStore, ExampleLib, true, Some(ExampleUser), ExampleUrl, 0, [], "").result
         == ShortUrlController.Failed(ShortUrlController.AlreadyExistsMessage)
    ensures ShortUrlController.CreateShortUrlByError(ExampleStore, ExampleLib, true, Some(ExampleUser), ExampleUrl, 0, [], "").result
         == ShortUrlController.Failed(ShortUrlController.InvalidCharactersMessage)
  {
    assert ExampleStore.entries[0].originalUrl == ExampleUrl;
    assert !IsWhiteSpace(ExampleUrl[0]);
    NonAsciiRejected(ExampleLib, ExampleUrl, 7);
  }
}
