/** The short-link registry: the store and the operations of
    Services/UrlShortenerService.cs over it. Each operation returns its
    answer together with the store it leaves behind. */
module Registry {
  import opened Wrappers
  import opened Models
  import opened ShortCodes
  import opened UrlValidation
  import opened CreationResults

  /** The `ShortUrls` table (its rows in insertion order and the next value
      of the identity column) together with the `AspNetUsers` table, keyed
      by user id, that `CreatedById` points into. The user table belongs to
      ASP.NET Identity: the operations here only read it. */
  datatype Store = Store(entries: seq<ShortUrl>, nextId: int, users: map<string, AppUser>)

  /** An operation's answer and the store after it. */
  datatype Step<+T> = Step(result: T, store: Store)

  /** The table's constraints: the identity key and the unique indexes on
      `ShortCode` and `OriginalUrl`. Ids handed out so far are below
      `nextId` and identity values start at 1. */
  predicate Valid(st: Store) {
    && st.nextId >= 1
    && (forall i | 0 <= i < |st.entries| :: 0 < st.entries[i].id < st.nextId)
    && (forall i, j | 0 <= i < j < |st.entries| ::
          && st.entries[i].id != st.entries[j].id
          && st.entries[i].shortCode != st.entries[j].shortCode
          && st.entries[i].originalUrl != st.entries[j].originalUrl)
  }

  /** The link table as first created, next to a given user table. */
  function EmptyStore(users: map<string, AppUser>): (st: Store)
    ensures Valid(st) && |st.entries| == 0 && st.users == users
  {
    Store([], 1, users)
  }

  /** `Include(u => u.CreatedBy)`: a row as a query with the include returns
      it, with the navigation property loaded from the user table. A row
      whose creator is not in the table reads with no creator. */
  function IncludeCreator(st: Store, row: ShortUrl): (e: ShortUrl)
    ensures e.(createdBy := row.createdBy) == row
    ensures e.createdBy.Some? <==> row.createdById in st.users
    ensures e.createdBy.Some? ==> e.createdBy.value == st.users[row.createdById]
  {
    row.(createdBy := if row.createdById in st.users then Some(st.users[row.createdById]) else None)
  }

  predicate HasCode(st: Store, code: string) {
    exists i | 0 <= i < |st.entries| :: st.entries[i].shortCode == code
  }

  predicate HasUrl(st: Store, url: string) {
    exists i | 0 <= i < |st.entries| :: st.entries[i].originalUrl == url
  }

  predicate HasId(st: Store, id: int) {
    exists i | 0 <= i < |st.entries| :: st.entries[i].id == id
  }

  /** The scan behind `FirstOrDefaultAsync` and `FindAsync`: the first
      position, from `from` on, whose entry satisfies `p`. */
  function FirstIndex(s: seq<ShortUrl>, p: ShortUrl -> bool, from: nat): (r: Option<nat>)
    requires from <= |s|
    ensures r.None? <==> forall k | from <= k < |s| :: !p(s[k])
    ensures r.Some? ==> from <= r.value < |s| && p(s[r.value])
    ensures r.Some? ==> forall k | from <= k < r.value :: !p(s[k])
    decreases |s| - from
  {
    if from == |s| then None
    else if p(s[from]) then Some(from)
    else FirstIndex(s, p, from + 1)
  }

  function IndexOfCode(st: Store, code: string): (r: Option<nat>) {
    FirstIndex(st.entries, (e: ShortUrl) => e.shortCode == code, 0)
  }

  function IndexOfId(st: Store, id: int): (r: Option<nat>) {
    FirstIndex(st.entries, (e: ShortUrl) => e.id == id, 0)
  }

  function IndexOfUrl(st: Store, url: string): (r: Option<nat>) {
    FirstIndex(st.entries, (e: ShortUrl) => e.originalUrl == url, 0)
  }

  /** Under the unique indexes a position is determined by its code, url or id. */
  lemma UniqueIndexes(st: Store, i: nat, j: nat)
    requires Valid(st) && i < |st.entries| && j < |st.entries|
    ensures st.entries[i].shortCode == st.entries[j].shortCode ==> i == j
    ensures st.entries[i].originalUrl == st.entries[j].originalUrl ==> i == j
    ensures st.entries[i].id == st.entries[j].id ==> i == j
  {
  }

  /** In a valid store no other entry shares a position's code, url or id. */
  lemma EntryDeterminedByKeys(st: Store, i: nat)
    requires i < |st.entries|
    ensures Valid(st) ==> forall e | e in st.entries && e.shortCode == st.entries[i].shortCode :: e == st.entries[i]
    ensures Valid(st) ==> forall e | e in st.entries && e.originalUrl == st.entries[i].originalUrl :: e == st.entries[i]
    ensures Valid(st) ==> forall e | e in st.entries && e.id == st.entries[i].id :: e == st.entries[i]
  {
    if Valid(st) {
      forall e | e in st.entries
        ensures e.shortCode == st.entries[i].shortCode ==> e == st.entries[i]
        ensures e.originalUrl == st.entries[i].originalUrl ==> e == st.entries[i]
        ensures e.id == st.entries[i].id ==> e == st.entries[i]
      {
        var j :| 0 <= j < |st.entries| && st.entries[j] == e;
        UniqueIndexes(st, i, j);
      }
    }
  }

  /** `GetByShortCodeAsync`: the entry holding `code` with its creator
      loaded, or null. */
  function GetByShortCode(st: Store, code: string): (r: Option<ShortUrl>)
    ensures r.Some? <==> HasCode(st, code)
    ensures r.Some? ==> r.value.shortCode == code
    ensures r.Some? ==> exists e | e in st.entries :: r.value == IncludeCreator(st, e)
    ensures Valid(st) ==> forall e | e in st.entries && e.shortCode == code :: r == Some(IncludeCreator(st, e))
  {
    match IndexOfCode(st, code)
    case None => None
    case Some(i) =>
      EntryDeterminedByKeys(st, i);
      Some(IncludeCreator(st, st.entries[i]))
  }

  /** `GetByIdAsync`: the entry with primary key `id` with its creator
      loaded, or null. */
  function GetById(st: Store, id: int): (r: Option<ShortUrl>)
    ensures r.Some? <==> HasId(st, id)
    ensures r.Some? ==> r.value.id == id
    ensures r.Some? ==> exists e | e in st.entries :: r.value == IncludeCreator(st, e)
    ensures Valid(st) ==> forall e | e in st.entries && e.id == id :: r == Some(IncludeCreator(st, e))
  {
    match IndexOfId(st, id)
    case None => None
    case Some(i) =>
      EntryDeterminedByKeys(st, i);
      Some(IncludeCreator(st, st.entries[i]))
  }

  /** The successive outputs of `GenerateShortCode` tried by the retry loop. */
  predicate GeneratorOutputs(candidates: seq<string>) {
    forall i | 0 <= i < |candidates| :: IsShortCode(candidates[i])
  }

  /** The `do { … } while (AnyAsync(ShortCode == shortCode))` loop: the first
      candidate no entry holds. The loop only ends when such a candidate
      comes up, hence the precondition. */
  function FirstFreeCode(st: Store, candidates: seq<string>): (code: string)
    requires exists i | 0 <= i < |candidates| :: !HasCode(st, candidates[i])
    ensures !HasCode(st, code)
    ensures exists i | 0 <= i < |candidates| :: candidates[i] == code && forall k | 0 <= k < i :: HasCode(st, candidates[k])
  {
    if !HasCode(st, candidates[0]) then candidates[0]
    else
      var rest := FirstFreeCode(st, candidates[1..]);
      assert forall i | 0 <= i < |candidates| - 1 :: candidates[1..][i] == candidates[i + 1];
      rest
  }

  /** `CreateShortUrlAsync`. Validation comes first (the null return at
      line 23 becomes `InvalidUrl`), then the duplicate check (the null
      return at line 32 becomes `Duplicate`), then the retry loop over the
      generator's outputs; the store assigns the next identity value. */
  function CreateShortUrl(st: Store, lib: UriLibrary, url: string, userId: string, now: int, candidates: seq<string>)
    : (r: Step<CreationResult>)
    requires GeneratorOutputs(candidates)
    requires IsValidUrl(lib, url) && !HasUrl(st, url) ==>
      exists i | 0 <= i < |candidates| :: !HasCode(st, candidates[i])
    ensures !IsValidUrl(lib, url) ==> r == Step(InvalidUrl(url), st)
    ensures IsValidUrl(lib, url) && HasUrl(st, url) ==> r == Step(Duplicate(url), st)
    ensures r.result.Succeeded() <==> IsValidUrl(lib, url) && !HasUrl(st, url)
    ensures r.store.users == st.users
    ensures r.result.Success? ==>
      var e := r.result.created;
      && r.store.entries == st.entries + [e]
      && r.store.nextId == st.nextId + 1
      && e.id == st.nextId
      && e.originalUrl == url
      && e.createdById == userId
      && e.createdDate == now
      && e.createdBy.None?
      && e.clickCount == 0
      && IsShortCode(e.shortCode)
      && e.shortCode in candidates
      && !HasCode(st, e.shortCode)
    ensures Valid(st) ==> Valid(r.store)
  {
    if !IsValidUrl(lib, url) then Step(InvalidUrl(url), st)
    else if IndexOfUrl(st, url).Some? then Step(Duplicate(url), st)
    else
      var code := FirstFreeCode(st, candidates);
      var e := NewShortUrl(url, code, userId, now).(id := st.nextId);
      var st' := st.(entries := st.entries + [e], nextId := st.nextId + 1);
      assert Valid(st) ==> Valid(st') by {
        if Valid(st) {
          AppendFreshKeepsValid(st, e);
        }
      }
      Step(Success(e), st')
  }

  /** Appending an entry whose code, url and id are all new, with the id
      just handed out, keeps the table's constraints. */
  lemma AppendFreshKeepsValid(st: Store, e: ShortUrl)
    requires Valid(st)
    requires !HasCode(st, e.shortCode) && !HasUrl(st, e.originalUrl)
    requires e.id == st.nextId
    ensures Valid(st.(entries := st.entries + [e], nextId := st.nextId + 1))
  {
    var s' := st.entries + [e];
    forall i, j | 0 <= i < j < |s'|
      ensures s'[i].id != s'[j].id && s'[i].shortCode != s'[j].shortCode && s'[i].originalUrl != s'[j].originalUrl
    {
      if j == |st.entries| {
        assert s'[i] == st.entries[i];
      }
    }
  }

  /** Deletion rights: an administrator may delete any entry, anyone else
      only the entries they created. */
  predicate CanDelete(e: ShortUrl, userId: string, isAdmin: bool) {
    isAdmin || e.createdById == userId
  }

  /** `s` without position `i`. */
  function RemoveAt(s: seq<ShortUrl>, i: nat): (r: seq<ShortUrl>)
    requires i < |s|
    ensures |r| == |s| - 1
    ensures forall k | 0 <= k < i :: r[k] == s[k]
    ensures forall k | i <= k < |r| :: r[k] == s[k + 1]
  {
    s[..i] + s[i + 1..]
  }

  /** `DeleteUrlAsync`: false for an unknown id, false when the caller may
      not delete the entry, otherwise removes exactly that entry. */
  function DeleteUrl(st: Store, id: int, userId: string, isAdmin: bool): (r: Step<bool>)
    ensures !HasId(st, id) ==> r == Step(false, st)
    ensures r.result <==> HasId(st, id) && CanDelete(GetById(st, id).value, userId, isAdmin)
    ensures !r.result ==> r.store == st
    ensures r.store.users == st.users
    ensures r.result ==>
      && r.store.nextId == st.nextId
      && exists i | 0 <= i < |st.entries| :: st.entries[i].id == id && r.store.entries == RemoveAt(st.entries, i)
    ensures Valid(st) && r.result ==>
      && !HasId(r.store, id)
      && forall e :: e in r.store.entries <==> e in st.entries && e.id != id
    ensures Valid(st) ==> Valid(r.store)
  {
    match IndexOfId(st, id)
    case None => Step(false, st)
    case Some(i) =>
      if !isAdmin && st.entries[i].createdById != userId then Step(false, st)
      else
        var st' := st.(entries := RemoveAt(st.entries, i));
        assert Valid(st) ==>
          && Valid(st')
          && !HasId(st', id)
          && forall e :: e in st'.entries <==> e in st.entries && e.id != id
        by {
          if Valid(st) { RemoveKeepsValid(st, i); }
        }
        Step(true, st')
  }

  /** Removing one position keeps the table's constraints, and leaves
      exactly the entries whose id differs from the removed one. */
  lemma RemoveKeepsValid(st: Store, i: nat)
    requires Valid(st) && i < |st.entries|
    ensures Valid(st.(entries := RemoveAt(st.entries, i)))
    ensures !HasId(st.(entries := RemoveAt(st.entries, i)), st.entries[i].id)
    ensures forall e :: e in RemoveAt(st.entries, i) <==> e in st.entries && e.id != st.entries[i].id
  {
    var s := st.entries;
    var r := RemoveAt(s, i);
    forall a, b | 0 <= a < b < |r|
      ensures r[a].id != r[b].id && r[a].shortCode != r[b].shortCode && r[a].originalUrl != r[b].originalUrl
    {
      var a' := if a < i then a else a + 1;
      var b' := if b < i then b else b + 1;
      assert r[a] == s[a'] && r[b] == s[b'] && a' < b';
    }
    forall k | 0 <= k < |r|
      ensures r[k].id != s[i].id
    {
      var k' := if k < i then k else k + 1;
      assert r[k] == s[k'];
      UniqueIndexes(st, i, k');
    }
    forall e
      ensures e in r <==> e in s && e.id != s[i].id
    {
      if e in s && e.id != s[i].id {
        var k :| 0 <= k < |s| && s[k] == e;
        assert k != i;
        if k < i { assert r[k] == e; } else { assert r[k - 1] == e; }
      }
    }
  }

  /** `IncrementClickCountAsync`: the entry holding `code` gains one click;
      nothing else changes, and an unknown code changes nothing. */
  function IncrementClickCount(st: Store, code: string): (st': Store)
    ensures !HasCode(st, code) ==> st' == st
    ensures st'.nextId == st.nextId && |st'.entries| == |st.entries| && st'.users == st.users
    ensures forall i | 0 <= i < |st.entries| && st.entries[i].shortCode != code :: st'.entries[i] == st.entries[i]
    ensures Valid(st) ==>
      forall i | 0 <= i < |st.entries| && st.entries[i].shortCode == code ::
        st'.entries[i] == WithOneMoreClick(st.entries[i])
    ensures Valid(st) ==> Valid(st')
  {
    match IndexOfCode(st, code)
    case None => st
    case Some(i) =>
      var st' := st.(entries := st.entries[i := WithOneMoreClick(st.entries[i])]);
      assert Valid(st) ==> forall j | 0 <= j < |st.entries| && st.entries[j].shortCode == code :: j == i by {
        if Valid(st) {
          forall j | 0 <= j < |st.entries| && st.entries[j].shortCode == code
            ensures j == i
          {
            UniqueIndexes(st, i, j);
          }
        }
      }
      st'
  }
}
