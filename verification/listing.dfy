/** `GetAllUrlsAsync`: every entry, newest first. */
module Listing {
  import opened Models
  import opened Registry

  /** Ordered by `CreatedDate`, descending. */
  predicate NewestFirst(s: seq<ShortUrl>) {
    forall i, j | 0 <= i < j < |s| :: s[i].createdDate >= s[j].createdDate
  }

  /** Places `e` before the first entry not newer than it. */
  function InsertNewestFirst(e: ShortUrl, s: seq<ShortUrl>): (r: seq<ShortUrl>)
    requires NewestFirst(s)
    ensures NewestFirst(r)
    ensures multiset(r) == multiset(s) + multiset{e}
    ensures forall k | 0 <= k < |r| :: r[k] == e || r[k] in s
  {
    if |s| == 0 then [e]
    else if e.createdDate >= s[0].createdDate then
      ConsKeepsNewestFirst(e, s);
      [e] + s
    else
      var rest := InsertNewestFirst(e, s[1..]);
      InsertBehindHead(e, s, rest);
      [s[0]] + rest
  }

  /** The recursive case of the insertion: `e` went into the tail, so the
      head stays in front. */
  lemma InsertBehindHead(e: ShortUrl, s: seq<ShortUrl>, rest: seq<ShortUrl>)
    requires |s| > 0 && NewestFirst(s) && e.createdDate < s[0].createdDate
    requires NewestFirst(rest)
    requires multiset(rest) == multiset(s[1..]) + multiset{e}
    requires forall k | 0 <= k < |rest| :: rest[k] == e || rest[k] in s[1..]
    ensures NewestFirst([s[0]] + rest)
    ensures multiset([s[0]] + rest) == multiset(s) + multiset{e}
    ensures forall k | 0 <= k < |[s[0]] + rest| :: ([s[0]] + rest)[k] == e || ([s[0]] + rest)[k] in s
  {
    assert s == [s[0]] + s[1..];
    forall k | 0 <= k < |rest|
      ensures s[0].createdDate >= rest[k].createdDate
    {
      if rest[k] != e {
        var m :| 0 <= m < |s[1..]| && s[1..][m] == rest[k];
        assert s[m + 1] == rest[k];
      }
    }
    ConsKeepsNewestFirst(s[0], rest);
  }

  /** An entry no older than any entry of a newest-first list can go in front. */
  lemma ConsKeepsNewestFirst(x: ShortUrl, s: seq<ShortUrl>)
    requires NewestFirst(s)
    requires forall k | 0 <= k < |s| :: x.createdDate >= s[k].createdDate
    ensures NewestFirst([x] + s)
  {
    var r := [x] + s;
    forall i, j | 0 <= i < j < |r|
      ensures r[i].createdDate >= r[j].createdDate
    {
      assert r[j] == s[j - 1];
      if i > 0 { assert r[i] == s[i - 1]; }
    }
  }

  /** Insertion sort of `s` into newest-first order. */
  function SortNewestFirst(s: seq<ShortUrl>): (r: seq<ShortUrl>)
    ensures NewestFirst(r)
    ensures multiset(r) == multiset(s)
  {
    if |s| == 0 then []
    else
      assert s == [s[0]] + s[1..];
      InsertNewestFirst(s[0], SortNewestFirst(s[1..]))
  }

  /** The table's rows as a query with `Include(u => u.CreatedBy)` returns
      them, in table order. */
  function LoadedEntries(st: Store): (r: seq<ShortUrl>)
    ensures |r| == |st.entries|
    ensures forall k | 0 <= k < |r| :: r[k] == IncludeCreator(st, st.entries[k])
  {
    seq(|st.entries|, k requires 0 <= k < |st.entries| => IncludeCreator(st, st.entries[k]))
  }

  /** `GetAllUrlsAsync`: a permutation of the stored entries, each with its
      creator loaded, newest first. */
  function GetAllUrls(st: Store): (r: seq<ShortUrl>)
    ensures NewestFirst(r)
    ensures multiset(r) == multiset(LoadedEntries(st))
    ensures |r| == |st.entries|
    ensures forall e :: e in r <==> exists k | 0 <= k < |st.entries| :: e == IncludeCreator(st, st.entries[k])
  {
    var loaded := LoadedEntries(st);
    var r := SortNewestFirst(loaded);
    assert forall e :: e in r <==> e in multiset(r);
    assert forall e :: e in loaded <==> e in multiset(loaded);
    assert |r| == |multiset(r)| == |multiset(loaded)| == |loaded|;
    r
  }
}
