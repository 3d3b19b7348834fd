/** Following `next_before` from page to page. */
module PageWalk {
  import opened Nostr
  import opened Newest
  import opened Sorting
  import opened Paging

  /** Pages got one after the other, each continuing before the cursor of the last. */
  predicate IsWalk(pages: seq<seq<Event>>, messages: set<Event>, start: Option<U64>, limit: nat) {
    && pages != [] && IsNewest(pages[0], Upto(messages, start), limit)
    && forall i :: 0 <= i < |pages| - 1 ==>
         pages[i] != [] && IsNewest(pages[i + 1], Upto(messages, Some(Cursor(pages[i]))), limit)
  }

  /** The last page is empty, so there is no cursor to follow. */
  predicate IsFinished(pages: seq<seq<Event>>) {
    pages != [] && pages[|pages| - 1] == []
  }

  predicate AllPositive(messages: set<Event>) {
    forall e :: e in messages ==> e.createdAt > 0
  }

  lemma CursorIsLeast(page: seq<Event>, all: set<Event>, limit: nat)
    requires page != [] && IsNewest(page, all, limit)
    ensures forall e :: e in page ==> e.createdAt >= Cursor(page)
  {
    hide IdLe;
    forall e | e in page ensures e.createdAt >= Cursor(page) {
      var i :| 0 <= i < |page| && page[i] == e;
      assert i < |page| - 1 ==> Before(page[i], page[|page| - 1]);
    }
  }

  lemma PagesAreMessages(pages: seq<seq<Event>>, messages: set<Event>, start: Option<U64>, limit: nat, i: nat)
    requires IsWalk(pages, messages, start, limit) && i < |pages|
    ensures forall e :: e in pages[i] ==> e in messages
    ensures IsDistinct(pages[i]) && IsSorted(Before, pages[i])
    ensures forall e :: i > 0 && e in pages[i] ==>
      pages[i - 1] != [] && e.createdAt <= (if Cursor(pages[i - 1]) == 0 then 0 else Cursor(pages[i - 1]) - 1)
  {
    hide Before;
    if i > 0 { assert pages[i - 1] != [] && IsNewest(pages[i], Upto(messages, Some(Cursor(pages[i - 1]))), limit); }
  }

  lemma PageBounds(pages: seq<seq<Event>>, messages: set<Event>, start: Option<U64>, limit: nat, i: nat)
    requires IsWalk(pages, messages, start, limit) && i < |pages| && pages[i] != []
    ensures forall e :: e in pages[i] ==> e.createdAt >= Cursor(pages[i])
  {
    hide IsNewest;
    if i == 0 {
      CursorIsLeast(pages[0], Upto(messages, start), limit);
    } else {
      assert pages[i - 1] != [];
      CursorIsLeast(pages[i], Upto(messages, Some(Cursor(pages[i - 1]))), limit);
    }
  }

  /** Everything on a later page is older than every earlier cursor; in particular
      cursors strictly decrease. */
  lemma {:induction false} LaterIsOlder(pages: seq<seq<Event>>, messages: set<Event>, start: Option<U64>, limit: nat,
                                        i: nat, j: nat)
    requires IsWalk(pages, messages, start, limit) && AllPositive(messages) && i < j < |pages|
    ensures pages[i] != []
    ensures forall e :: e in pages[j] ==> e.createdAt < Cursor(pages[i])
    ensures pages[j] != [] ==> Cursor(pages[j]) < Cursor(pages[i])
    decreases j
  {
    hide IsWalk;
    PagesAreMessages(pages, messages, start, limit, j);
    assert pages[j - 1] != [] by { WalkGoesOn(pages, messages, start, limit, j - 1); }
    PagesAreMessages(pages, messages, start, limit, j - 1);
    assert Cursor(pages[j - 1]) > 0 by { assert pages[j - 1][|pages[j - 1]| - 1] in pages[j - 1]; }
    if i < j - 1 { LaterIsOlder(pages, messages, start, limit, i, j - 1); }
    if pages[j] != [] { assert pages[j][|pages[j]| - 1] in pages[j]; }
  }

  lemma WalkGoesOn(pages: seq<seq<Event>>, messages: set<Event>, start: Option<U64>, limit: nat, i: nat)
    requires IsWalk(pages, messages, start, limit) && i < |pages| - 1
    ensures pages[i] != [] && IsNewest(pages[i + 1], Upto(messages, Some(Cursor(pages[i]))), limit)
  {
  }

  /** No message is returned twice. */
  lemma NothingTwice(pages: seq<seq<Event>>, messages: set<Event>, start: Option<U64>, limit: nat, i: nat, j: nat, e: Event)
    requires IsWalk(pages, messages, start, limit) && AllPositive(messages) && i < j < |pages| && e in pages[i]
    ensures e !in pages[j]
  {
    hide IsWalk;
    LaterIsOlder(pages, messages, start, limit, i, j);
    PageBounds(pages, messages, start, limit, i);
  }

  /** So a walk takes at most one page per message and an empty one. */
  lemma WalkIsShort(pages: seq<seq<Event>>, messages: set<Event>, start: Option<U64>, limit: nat)
    requires IsWalk(pages, messages, start, limit) && AllPositive(messages)
    ensures |pages| <= |messages| + 1
  {
    var n := |pages| - 1;
    FirstsCount(pages, messages, start, limit, n);
    Smaller(Firsts(pages, n), messages);
  }

  /** The first message of each of the first `n` pages. */
  function Firsts(pages: seq<seq<Event>>, n: nat): set<Event>
    requires n <= |pages| && forall i :: 0 <= i < n ==> pages[i] != []
  {
    if n == 0 then {} else Firsts(pages, n - 1) + {pages[n - 1][0]}
  }

  predicate IsEarlier(pages: seq<seq<Event>>, n: nat, e: Event) {
    exists i :: 0 <= i < n && i < |pages| && e in pages[i]
  }

  lemma {:induction false} FirstsCount(pages: seq<seq<Event>>, messages: set<Event>, start: Option<U64>, limit: nat, n: nat)
    requires IsWalk(pages, messages, start, limit) && AllPositive(messages) && n < |pages|
    ensures forall i :: 0 <= i < n ==> pages[i] != []
    ensures |Firsts(pages, n)| == n && Firsts(pages, n) <= messages
    ensures forall e :: e in Firsts(pages, n) ==> IsEarlier(pages, n, e)
  {
    hide IsWalk, AllPositive, IsEarlier, IsNewest;
    if n > 0 {
      var m := n - 1;
      FirstsCount(pages, messages, start, limit, m);
      WalkGoesOn(pages, messages, start, limit, m);
      PagesAreMessages(pages, messages, start, limit, m);
      NotEarlier(pages, messages, start, limit, m);
      forall e | e in Firsts(pages, n) ensures IsEarlier(pages, n, e) { EarlierGrows(pages, m, e); }
    }
  }

  lemma EarlierGrows(pages: seq<seq<Event>>, m: nat, e: Event)
    requires m < |pages| && (IsEarlier(pages, m, e) || e in pages[m])
    ensures IsEarlier(pages, m + 1, e)
  {
  }

  lemma NotEarlier(pages: seq<seq<Event>>, messages: set<Event>, start: Option<U64>, limit: nat, m: nat)
    requires IsWalk(pages, messages, start, limit) && AllPositive(messages) && m < |pages| && pages[m] != []
    ensures !IsEarlier(pages, m, pages[m][0])
  {
    hide IsWalk, AllPositive;
    var e := pages[m][0];
    if i :| 0 <= i < m && i < |pages| && e in pages[i] {
      NothingTwice(pages, messages, start, limit, i, m, e);
    }
  }

  // ----- Exactly when nothing is missed -----------------------------------------------

  function Slice(s: seq<Event>, a: nat, n: nat): seq<Event> {
    if a >= |s| then [] else Take(s[a..], n)
  }

  /** The message that ends the `m`th full page shares its second with the next one. */
  predicate SplitsAt(s: seq<Event>, limit: nat, m: nat) {
    1 <= m && 1 <= m * limit < |s| && s[m * limit - 1].createdAt == s[m * limit].createdAt
  }

  predicate IsListing(s: seq<Event>, messages: set<Event>) {
    IsDistinct(s) && IsSorted(Before, s) && Elements(s) == messages
  }

  lemma UptoIsSuffix(s: seq<Event>, messages: set<Event>, a: nat)
    requires IsListing(s, messages) && AllPositive(messages)
    requires 1 <= a <= |s| && (a < |s| ==> s[a].createdAt != s[a - 1].createdAt)
    ensures Upto(messages, Some(s[a - 1].createdAt)) == Elements(s[a..])
  {
    var c := s[a - 1].createdAt;
    assert s[a - 1] in Elements(s);
    forall i, j | 0 <= i < j < |s| ensures s[i].createdAt >= s[j].createdAt {
      hide IdLe;
      assert Before(s[i], s[j]);
    }
    hide Before;
    forall e ensures e in Upto(messages, Some(c)) <==> e in Elements(s[a..]) {
      if e in Upto(messages, Some(c)) {
        assert e in Elements(s);
        var i :| 0 <= i < |s| && s[i] == e;
        assert i >= a;
        assert s[a..][i - a] == e;
      }
      if e in Elements(s[a..]) {
        var i :| 0 <= i < |s| - a && s[a..][i] == e;
        assert s[a + i] == e && e in Elements(s);
      }
    }
  }

  lemma SuffixIsListing(s: seq<Event>, a: nat)
    requires IsDistinct(s) && IsSorted(Before, s) && a <= |s|
    ensures IsDistinct(s[a..]) && IsSorted(Before, s[a..]) && Elements(s[a..]) <= Elements(s)
  {
    hide Before;
  }

  lemma NewestOfSuffix(s: seq<Event>, messages: set<Event>, a: nat, limit: nat, page: seq<Event>)
    requires IsListing(s, messages) && IdsIdentify(messages) && a <= |s|
    requires IsNewest(page, Elements(s[a..]), limit)
    ensures page == Take(s[a..], limit)
  {
    hide Before, IsNewest, IdsIdentify;
    SuffixIsListing(s, a);
    PrefixIsNewest(s[a..], limit);
    assert IdsIdentify(Elements(s[a..])) by { SubsetIds(messages, Elements(s[a..])); }
    NewestIsUnique(page, Take(s[a..], limit), Elements(s[a..]), limit);
  }

  /** Until the first split, the pages are consecutive slices of the whole list. */
  lemma {:induction false} PagesAreSlices(pages: seq<seq<Event>>, s: seq<Event>, messages: set<Event>, limit: nat, i: nat)
    requires IsWalk(pages, messages, None, limit) && IsListing(s, messages)
    requires AllPositive(messages) && IdsIdentify(messages) && 1 <= limit && i < |pages|
    requires forall m :: 1 <= m <= i ==> !SplitsAt(s, limit, m)
    ensures pages[i] == Slice(s, i * limit, limit)
  {
    hide IsNewest, IdsIdentify, AllPositive, Before;
    if i == 0 {
      assert s[0..] == s;
      NewestOfSuffix(s, messages, 0, limit, pages[0]);
    } else {
      var a := (i - 1) * limit;
      assert a + limit == i * limit;
      PagesAreSlices(pages, s, messages, limit, i - 1);
      WalkGoesOn(pages, messages, None, limit, i - 1);
      var end := if a + limit < |s| then a + limit else |s|;
      assert Cursor(pages[i - 1]) == s[end - 1].createdAt;
      assert !SplitsAt(s, limit, i);
      UptoIsSuffix(s, messages, end);
      NewestOfSuffix(s, messages, end, limit, pages[i]);
    }
  }

  lemma SliceHolds(s: seq<Event>, a: nat, limit: nat, k: nat)
    requires a <= k < |s| && k < a + limit
    ensures s[k] in Slice(s, a, limit)
  {
    assert s[a..][k - a] == s[k];
    if |s| - a > limit { assert s[a..][..limit][k - a] == s[k]; }
  }

  lemma SliceLacks(s: seq<Event>, a: nat, limit: nat, k: nat)
    requires IsDistinct(s) && k < |s| && a + limit <= k
    ensures s[k] !in Slice(s, a, limit)
  {
    forall i | 0 <= i < |Slice(s, a, limit)| ensures Slice(s, a, limit)[i] != s[k] {
      assert Slice(s, a, limit)[i] == s[a + i];
    }
  }

  lemma {:induction false} PageNumber(k: nat, limit: nat)
    requires limit >= 1
    ensures (k / limit) * limit <= k < (k / limit) * limit + limit
  {
  }

  predicate IsReturned(pages: seq<seq<Event>>, e: Event) {
    exists i :: 0 <= i < |pages| && e in pages[i]
  }

  lemma UnsplitIsReturned(pages: seq<seq<Event>>, s: seq<Event>, messages: set<Event>, limit: nat, k: nat)
    requires IsWalk(pages, messages, None, limit) && IsFinished(pages) && IsListing(s, messages)
    requires AllPositive(messages) && IdsIdentify(messages) && 1 <= limit && k < |s|
    requires forall m :: !SplitsAt(s, limit, m)
    ensures IsReturned(pages, s[k])
  {
    hide IsWalk, IsListing, SplitsAt;
    var n := |pages| - 1;
    PagesAreSlices(pages, s, messages, limit, n);
    var i := k / limit;
    PageNumber(k, limit);
    if i >= n {
      assert n * limit <= i * limit by { MulMono(n, i, limit); }
      SomethingThere(s, n * limit, limit);
      assert false;
    }
    PagesAreSlices(pages, s, messages, limit, i);
    SliceHolds(s, i * limit, limit, k);
  }

  lemma SomethingThere(s: seq<Event>, a: nat, limit: nat)
    requires a < |s| && limit >= 1
    ensures Slice(s, a, limit) != []
  {
  }

  lemma MulMono(a: nat, b: nat, c: nat)
    requires a <= b
    ensures a * c <= b * c
  {
  }

  /** The page that ends at the first split is there, and so is one after it. */
  lemma SplitPageIsThere(pages: seq<seq<Event>>, s: seq<Event>, messages: set<Event>, limit: nat, m: nat)
    requires IsWalk(pages, messages, None, limit) && IsFinished(pages) && IsListing(s, messages)
    requires AllPositive(messages) && IdsIdentify(messages) && 1 <= limit
    requires SplitsAt(s, limit, m) && forall k :: 1 <= k < m ==> !SplitsAt(s, limit, k)
    ensures m < |pages| && pages[m - 1] != [] && Cursor(pages[m - 1]) == s[m * limit].createdAt
  {
    WalkNeedsMore(pages, s, messages, limit, m);
    var a, end := SplitIs(s, limit, m);
    hide *;
    SliceAt(pages, s, messages, limit, m - 1, a);
    SliceBeforeSplit(s, a, end, limit);
  }

  lemma SplitIs(s: seq<Event>, limit: nat, m: nat) returns (a: nat, end: nat)
    requires SplitsAt(s, limit, m)
    ensures 1 <= m && a == (m - 1) * limit && end == m * limit && a + limit == end && 0 < end < |s|
    ensures s[end - 1].createdAt == s[end].createdAt
  {
    a, end := (m - 1) * limit, m * limit;
  }

  lemma SliceAt(pages: seq<seq<Event>>, s: seq<Event>, messages: set<Event>, limit: nat, i: nat, a: nat)
    requires IsWalk(pages, messages, None, limit) && IsListing(s, messages)
    requires AllPositive(messages) && IdsIdentify(messages) && 1 <= limit && i < |pages| && a == i * limit
    requires forall m :: 1 <= m <= i ==> !SplitsAt(s, limit, m)
    ensures pages[i] == Slice(s, a, limit)
  {
    hide *;
    PagesAreSlices(pages, s, messages, limit, i);
  }

  /** A walk cannot have finished before the page with the split. */
  lemma WalkNeedsMore(pages: seq<seq<Event>>, s: seq<Event>, messages: set<Event>, limit: nat, m: nat)
    requires IsWalk(pages, messages, None, limit) && IsFinished(pages) && IsListing(s, messages)
    requires AllPositive(messages) && IdsIdentify(messages) && 1 <= limit
    requires SplitsAt(s, limit, m) && forall k :: 1 <= k < m ==> !SplitsAt(s, limit, k)
    ensures m < |pages|
  {
    var _, end := SplitIs(s, limit, m);
    hide IsWalk, IsListing, SplitsAt, IdsIdentify, AllPositive, Slice;
    var last := |pages| - 1;
    if last < m {
      var at := last * limit;
      MulMono(last, m, limit);
      SliceAt(pages, s, messages, limit, last, at);
      SomethingThere(s, at, limit);
      assert false;
    }
  }

  lemma SliceBeforeSplit(s: seq<Event>, a: nat, end: nat, limit: nat)
    requires a + limit == end < |s| && limit >= 1 && s[end - 1].createdAt == s[end].createdAt
    ensures Slice(s, a, limit) != [] && Cursor(Slice(s, a, limit)) == s[end].createdAt
  {
  }

  /** The first message after the first split is never returned. */
  lemma SplitIsMissed(pages: seq<seq<Event>>, s: seq<Event>, messages: set<Event>, limit: nat, m: nat)
    requires IsWalk(pages, messages, None, limit) && IsFinished(pages) && IsListing(s, messages)
    requires AllPositive(messages) && IdsIdentify(messages) && 1 <= limit
    requires SplitsAt(s, limit, m) && forall k :: 1 <= k < m ==> !SplitsAt(s, limit, k)
    ensures !IsReturned(pages, s[m * limit])
  {
    SplitPageIsThere(pages, s, messages, limit, m);
    var _, end := SplitIs(s, limit, m);
    assert IsDistinct(s);
    hide IsWalk, IsListing, SplitsAt, IsNewest, IdsIdentify, AllPositive, Slice;
    forall j | 0 <= j < |pages| ensures s[end] !in pages[j] {
      if j < m {
        var a := j * limit;
        SliceAt(pages, s, messages, limit, j, a);
        NextSlice(j, m, limit);
        SliceLacks(s, a, limit, end);
      } else {
        LaterIsOlder(pages, messages, None, limit, m - 1, j);
      }
    }
  }

  lemma NextSlice(j: nat, m: nat, limit: nat)
    requires j < m
    ensures j * limit + limit <= m * limit
  {
    MulMono(j + 1, m, limit);
    assert (j + 1) * limit == j * limit + limit;
  }

  lemma {:induction false} FirstSplit(s: seq<Event>, limit: nat, m: nat) returns (first: nat)
    requires SplitsAt(s, limit, m)
    ensures SplitsAt(s, limit, first) && forall k :: 1 <= k < first ==> !SplitsAt(s, limit, k)
  {
    first := m;
    if k :| 1 <= k < m && SplitsAt(s, limit, k) { first := FirstSplit(s, limit, k); }
  }

  /** A finished walk returns every message exactly when no page boundary falls
      between two messages of the same second. */
  lemma WalkIsCompleteIff(pages: seq<seq<Event>>, s: seq<Event>, messages: set<Event>, limit: nat)
    requires IsWalk(pages, messages, None, limit) && IsFinished(pages) && IsListing(s, messages)
    requires AllPositive(messages) && IdsIdentify(messages) && 1 <= limit
    ensures (forall e :: e in messages ==> IsReturned(pages, e)) <==> (forall m :: !SplitsAt(s, limit, m))
  {
    hide IsWalk, SplitsAt, IsReturned, IsFinished;
    if forall m :: !SplitsAt(s, limit, m) {
      forall e | e in messages ensures IsReturned(pages, e) {
        assert e in Elements(s);
        var k :| 0 <= k < |s| && s[k] == e;
        UnsplitIsReturned(pages, s, messages, limit, k);
      }
    } else {
      var m :| SplitsAt(s, limit, m);
      var first := FirstSplit(s, limit, m);
      SplitIsMissed(pages, s, messages, limit, first);
      SplitInside(s, limit, first);
      assert s[first * limit] in Elements(s);
    }
  }

  lemma SplitInside(s: seq<Event>, limit: nat, m: nat)
    requires SplitsAt(s, limit, m)
    ensures 0 <= m * limit < |s|
  {
  }

  lemma SplitShares(s: seq<Event>, messages: set<Event>, limit: nat, m: nat) returns (a: Event, b: Event)
    requires IsListing(s, messages) && SplitsAt(s, limit, m)
    ensures a in messages && b in messages && a != b && a.createdAt == b.createdAt
  {
    a, b := s[m * limit - 1], s[m * limit];
    assert a in Elements(s) && b in Elements(s);
  }

  /** In particular when no two messages share a second. */
  lemma DistinctSecondsAreComplete(pages: seq<seq<Event>>, s: seq<Event>, messages: set<Event>, limit: nat)
    requires IsWalk(pages, messages, None, limit) && IsFinished(pages) && IsListing(s, messages)
    requires AllPositive(messages) && IdsIdentify(messages) && 1 <= limit
    requires forall a, b :: a in messages && b in messages && a.createdAt == b.createdAt ==> a == b
    ensures forall e :: e in messages ==> IsReturned(pages, e)
  {
    hide IsWalk, IsReturned, IsFinished, Before;
    forall m: nat ensures !SplitsAt(s, limit, m) {
      if SplitsAt(s, limit, m) {
        var a, b := SplitShares(s, messages, limit, m);
        assert false;
      }
    }
    WalkIsCompleteIff(pages, s, messages, limit);
  }

  // ----- Exactly when it ends -----------------------------------------------------------

  lemma {:induction false} ListingExists(messages: set<Event>) returns (s: seq<Event>)
    ensures IsListing(s, messages)
  {
    if messages == {} {
      s := [];
    } else {
      hide Before, Insert;
      var e :| e in messages;
      s := ListingExists(messages - {e});
      BeforeIsOrder();
      assert e !in Elements(s);
      InsertSorted(Before, e, s);
      InsertDistinct(Before, e, s);
      assert Elements(Insert(Before, e, s)) == messages by {
        forall x ensures x in Elements(Insert(Before, e, s)) <==> x in messages {
          assert x in Insert(Before, e, s) <==> x == e || x in Elements(s);
        }
      }
      s := Insert(Before, e, s);
    }
  }

  /** With positive seconds a walk can be followed to its end from any cursor. */
  lemma {:induction false} WalkExists(messages: set<Event>, start: Option<U64>, limit: nat) returns (pages: seq<seq<Event>>)
    requires AllPositive(messages) && limit >= 1
    ensures IsWalk(pages, messages, start, limit) && IsFinished(pages)
    decreases |Upto(messages, start)|
  {
    hide Before;
    var all := Upto(messages, start);
    var s := ListingExists(all);
    PrefixIsNewest(s, limit);
    var page := Take(s, limit);
    if page == [] {
      pages := [page];
    } else {
      var c := page[|page| - 1];
      assert c in all && c !in Upto(messages, Some(Cursor(page)));
      assert Upto(messages, Some(Cursor(page))) <= all - {c};
      Smaller(Upto(messages, Some(Cursor(page))), all - {c});
      var rest := WalkExists(messages, Some(Cursor(page)), limit);
      pages := [page] + rest;
      forall i | 0 <= i < |pages| - 1
        ensures pages[i] != [] && IsNewest(pages[i + 1], Upto(messages, Some(Cursor(pages[i]))), limit)
      {
        if i > 0 { WalkGoesOn(rest, messages, Some(Cursor(page)), limit, i - 1); }
      }
    }
  }

  /** A message of second zero is asked for again and again. */
  lemma ZeroNeverEnds(pages: seq<seq<Event>>, messages: set<Event>, limit: nat, z: Event)
    requires limit >= 1 && IsWalk(pages, messages, None, limit) && z in messages && z.createdAt == 0
    ensures !IsFinished(pages)
  {
    hide Before;
    var n := |pages| - 1;
    if n > 0 {
      WalkGoesOn(pages, messages, None, limit, n - 1);
      NewestOfSome(pages[n], Upto(messages, Some(Cursor(pages[n - 1]))), limit, z);
    } else {
      NewestOfSome(pages[0], messages, limit, z);
    }
  }

  lemma NewestOfSome(page: seq<Event>, all: set<Event>, limit: nat, z: Event)
    requires limit >= 1 && IsNewest(page, all, limit) && z in all
    ensures page != []
  {
  }

  /** The cursor cannot go below second zero, so a walk has an end exactly when no
      message has that second. */
  lemma WalkEndsIff(messages: set<Event>, limit: nat)
    requires limit >= 1
    ensures (exists pages :: IsWalk(pages, messages, None, limit) && IsFinished(pages)) <==> AllPositive(messages)
  {
    if AllPositive(messages) {
      var pages := WalkExists(messages, None, limit);
    } else {
      var z :| z in messages && z.createdAt == 0;
      forall pages | IsWalk(pages, messages, None, limit) ensures !IsFinished(pages) {
        ZeroNeverEnds(pages, messages, limit, z);
      }
    }
  }
}
