/** Finding out which kinds of events somebody has stored, page by page, and which kinds
    that can miss. */
module Discovery {
  import opened Nostr
  import opened Newest
  import opened Sorting

  const PAGE := 500
  const MAX_PAGES := 200

  function KindsOf(events: set<Event>): set<nat> {
    set e | e in events :: e.kind
  }

  function UpTo(all: set<Event>, until: Option<U64>): set<Event> {
    set e | e in all && (until.Some? ==> e.createdAt <= until.value)
  }

  /** An answer to "the newest `limit`", with ties broken in any way. */
  predicate IsPage(r: seq<Event>, all: set<Event>, limit: nat) {
    && IsDistinct(r) && |r| <= limit && Elements(r) <= all
    && forall e :: e in all && e !in r ==> |r| == limit && forall f :: f in r ==> e.createdAt <= f.createdAt
  }

  lemma {:induction false} NewestExists(all: set<Event>) returns (e: Event)
    requires all != {}
    ensures e in all && forall f :: f in all ==> f.createdAt <= e.createdAt
    decreases |all|
  {
    e :| e in all;
    if all != {e} {
      assert all - {e} != {} by { assert all == (all - {e}) + {e}; }
      var x := NewestExists(all - {e});
      if x.createdAt > e.createdAt { e := x; }
    }
  }

  /** The newest, and the rest. */
  predicate IsNewestPart(r: seq<Event>, rest: set<Event>, all: set<Event>) {
    && rest == all - Elements(r) && IsDistinct(r) && Elements(r) <= all
    && forall e, f :: e in rest && f in r ==> e.createdAt <= f.createdAt
  }

  lemma NothingAsked(all: set<Event>)
    ensures IsNewestPart([], all, all)
  {
  }

  lemma PartGrows(r: seq<Event>, rest: set<Event>, all: set<Event>, e: Event)
    requires IsNewestPart(r, rest, all) && e in rest && forall f :: f in rest ==> f.createdAt <= e.createdAt
    ensures IsNewestPart(r + [e], rest - {e}, all)
  {
    SnocElements(r, e);
    assert e !in r;
  }

  lemma PartIsPage(r: seq<Event>, rest: set<Event>, all: set<Event>, limit: nat)
    requires IsNewestPart(r, rest, all) && |r| <= limit && (rest == {} || |r| == limit)
    ensures IsPage(r, all, limit)
  {
    forall e | e in all && e !in r ensures e in rest {
      assert e !in Elements(r);
    }
  }

  method Query(all: set<Event>, limit: nat) returns (r: seq<Event>)
    ensures IsPage(r, all, limit)
  {
    hide *;
    r := [];
    var rest := all;
    NothingAsked(all);
    while rest != {} && |r| < limit
      invariant IsNewestPart(r, rest, all) && |r| <= limit
      decreases |rest|
    {
      ghost var witness_ := NewestExists(rest);
      var e :| e in rest && forall f :: f in rest ==> f.createdAt <= e.createdAt;
      PartGrows(r, rest, all, e);
      r := r + [e];
      rest := rest - {e};
    }
    PartIsPage(r, rest, all, limit);
  }

  function Min(a: U64, b: U64): U64 {
    if a <= b then a else b
  }

  /** The oldest second on a page. */
  function OldestOf(page: seq<Event>): U64 {
    if page == [] then 0
    else if |page| == 1 then page[0].createdAt
    else Min(OldestOf(page[..|page| - 1]), page[|page| - 1].createdAt)
  }

  lemma {:induction false} OldestMeans(page: seq<Event>)
    requires page != []
    ensures forall e :: e in page ==> e.createdAt >= OldestOf(page)
    ensures exists e :: e in page && e.createdAt == OldestOf(page)
  {
    if |page| == 1 {
      assert page[0] in page;
    } else {
      var n := |page| - 1;
      OldestMeans(page[..n]);
      assert page[n] in page;
      forall e | e in page ensures e.createdAt >= OldestOf(page) {
        if e != page[n] { assert e in page[..n]; }
      }
      if OldestOf(page) == OldestOf(page[..n]) {
        var e :| e in page[..n] && e.createdAt == OldestOf(page[..n]);
        assert e in page;
      }
    }
  }

  /** A full page that does not reach the very first second is followed by another. */
  predicate Continues(page: seq<Event>) {
    |page| == PAGE && OldestOf(page) > 0
  }

  /** The bound of page `i`: nothing at first, then strictly below the page before. */
  function Bound(pages: seq<seq<Event>>, i: nat): Option<U64>
    requires i <= |pages|
  {
    if i == 0 then None
    else if OldestOf(pages[i - 1]) == 0 then Some(0)
    else Some(OldestOf(pages[i - 1]) - 1)
  }

  predicate IsChain(all: set<Event>, pages: seq<seq<Event>>) {
    forall i :: 0 <= i < |pages| ==> IsPage(pages[i], UpTo(all, Bound(pages, i)), PAGE)
  }

  /** One whole discovery: pages one below the other until one ends it, or the cap. */
  predicate IsDiscovery(all: set<Event>, pages: seq<seq<Event>>) {
    && 0 < |pages| <= MAX_PAGES && IsChain(all, pages)
    && (forall i :: 0 <= i < |pages| - 1 ==> Continues(pages[i]))
    && (|pages| < MAX_PAGES ==> !Continues(pages[|pages| - 1]))
  }

  function Found(pages: seq<seq<Event>>): set<Event> {
    set i, e | 0 <= i < |pages| && e in pages[i] :: e
  }

  /** Page through somebody's events, newest first, and collect the kinds: exactly those
      of the events found, never one that is not there, and all but those that the page
      bounds allow to be missed. */
  method AuthorKindsInScope(all: set<Event>) returns (kinds: set<nat>, ghost pages: seq<seq<Event>>)
    ensures IsDiscovery(all, pages) && kinds == KindsOf(Found(pages))
    ensures kinds <= KindsOf(all) && (IsDiscoverable(all) ==> kinds == KindsOf(all))
    ensures forall k :: k in KindsOf(all) - kinds ==> MayMissKind(all, k)
  {
    hide UpTo, IsPage, KindsOf, Found, IsChain, Bound, IsDiscovery, OldestOf, Elements, IsDiscoverable, MayMissKind;
    kinds, pages := {}, [];
    NothingFound();
    NoChain(all);
    var until: Option<U64> := None;
    for page := 0 to MAX_PAGES
      invariant |pages| == page && IsChain(all, pages) && kinds == KindsOf(Found(pages))
      invariant forall i :: 0 <= i < |pages| ==> Continues(pages[i])
      invariant until == Bound(pages, page) && (page == MAX_PAGES ==> IsDiscovery(all, pages))
    {
      var events := Query(UpTo(all, until), PAGE);
      var oldest := None;
      kinds, oldest := ReadPage(kinds, events);
      FoundMore(pages, events);
      ChainGrows(all, pages, events);
      DiscoveryGrows(all, pages, events);
      pages := pages + [events];
      if |events| < PAGE || oldest.value == 0 {
        DiscoveryMeans(all, pages);
        return;
      }
      until := Some(oldest.value - 1);
    }
    DiscoveryMeans(all, pages);
  }

  lemma DiscoveryMeans(all: set<Event>, pages: seq<seq<Event>>)
    requires IsDiscovery(all, pages)
    ensures KindsOf(Found(pages)) <= KindsOf(all)
    ensures forall k :: k in KindsOf(all) - KindsOf(Found(pages)) ==> MayMissKind(all, k)
    ensures IsDiscoverable(all) ==> KindsOf(Found(pages)) == KindsOf(all)
  {
    hide *;
    FoundAreThere(all, pages);
    KindsInside(Found(pages), all);
    forall k | k in KindsOf(all) - KindsOf(Found(pages)) ensures MayMissKind(all, k) {
      KindAmong(Found(pages), all, k);
      MissedIsCrowdedOut(all, pages, OfKind(all, k));
      MayMissKindIs(all, k);
    }
    FoundAllIff(all, pages);
  }

  lemma KindsInside(a: set<Event>, b: set<Event>)
    requires a <= b
    ensures KindsOf(a) <= KindsOf(b)
  {
  }

  lemma NoChain(all: set<Event>)
    ensures IsChain(all, []) && Bound([], 0) == None
  {
  }

  /** One page more: the discovery ends with it, at its end or at the cap, or goes on. */
  lemma DiscoveryGrows(all: set<Event>, pages: seq<seq<Event>>, events: seq<Event>)
    requires |pages| < MAX_PAGES && (forall i :: 0 <= i < |pages| ==> Continues(pages[i]))
    requires IsChain(all, pages + [events]) && |events| <= PAGE
    ensures |events| < PAGE || OldestOf(events) == 0 || |pages| + 1 == MAX_PAGES ==> IsDiscovery(all, pages + [events])
    ensures |events| == PAGE && OldestOf(events) > 0 ==>
      && (forall i :: 0 <= i < |pages + [events]| ==> Continues((pages + [events])[i]))
      && Bound(pages + [events], |pages| + 1) == Some(OldestOf(events) - 1)
  {
    hide OldestOf, IsChain;
    var more := pages + [events];
    assert more[|pages|] == events;
    assert forall i :: 0 <= i < |pages| ==> more[i] == pages[i];
  }

  lemma NothingFound()
    ensures Found([]) == {} && KindsOf({}) == {}
  {
  }

  lemma ChainAt(all: set<Event>, pages: seq<seq<Event>>, i: nat)
    requires IsChain(all, pages) && i < |pages|
    ensures IsPage(pages[i], UpTo(all, Bound(pages, i)), PAGE)
  {
    hide IsPage, UpTo;
  }

  lemma BoundGrows(pages: seq<seq<Event>>, events: seq<Event>, i: nat)
    requires i <= |pages|
    ensures Bound(pages + [events], i) == Bound(pages, i)
  {
    hide OldestOf;
    assert i > 0 ==> (pages + [events])[i - 1] == pages[i - 1];
  }

  lemma ChainGrows(all: set<Event>, pages: seq<seq<Event>>, events: seq<Event>)
    requires IsChain(all, pages) && IsPage(events, UpTo(all, Bound(pages, |pages|)), PAGE)
    ensures IsChain(all, pages + [events]) && |events| <= PAGE
  {
    assert |events| <= PAGE;
    hide UpTo, IsPage, Bound;
    var more := pages + [events];
    forall i | 0 <= i < |more| ensures IsPage(more[i], UpTo(all, Bound(more, i)), PAGE) {
      hide *;
      BoundGrows(pages, events, i);
      if i < |pages| { ChainAt(all, pages, i); }
    }
  }

  lemma FoundMore(pages: seq<seq<Event>>, events: seq<Event>)
    ensures Found(pages + [events]) == Found(pages) + Elements(events)
    ensures KindsOf(Found(pages + [events])) == KindsOf(Found(pages)) + KindsOf(Elements(events))
  {
    var more := pages + [events];
    forall e ensures e in Found(more) <==> e in Found(pages) + Elements(events) {
      if e in Found(pages) {
        var i :| 0 <= i < |pages| && e in pages[i];
        assert e in more[i];
      }
      if e in events { assert e in more[|pages|]; }
    }
    KindsUnion(Found(pages), Elements(events));
  }

  lemma KindsUnion(a: set<Event>, b: set<Event>)
    ensures KindsOf(a + b) == KindsOf(a) + KindsOf(b)
  {
    forall k | k in KindsOf(a) + KindsOf(b) ensures k in KindsOf(a + b) {
      var e :| (e in a || e in b) && e.kind == k;
      assert e in a + b;
    }
  }

  /** The kinds of a page, and its oldest second. */
  method ReadPage(kinds: set<nat>, events: seq<Event>) returns (more: set<nat>, oldest: Option<U64>)
    ensures more == kinds + KindsOf(Elements(events))
    ensures oldest == if events == [] then None else Some(OldestOf(events))
  {
    hide KindsOf;
    NothingFound();
    assert Elements(events[..0]) == {};
    more, oldest := kinds, None;
    for i := 0 to |events|
      invariant more == kinds + KindsOf(Elements(events[..i]))
      invariant oldest == if i == 0 then None else Some(OldestOf(events[..i]))
    {
      var e := events[i];
      assert events[..i + 1] == events[..i] + [e] && events[..i + 1][..i] == events[..i];
      SnocElements(events[..i], e);
      KindsOfMore(Elements(events[..i]), e);
      more := more + {e.kind};
      oldest := if oldest.Some? && oldest.value <= e.createdAt then oldest else Some(e.createdAt);
    }
    assert events[..|events|] == events;
  }

  lemma SnocElements<X>(s: seq<X>, x: X)
    ensures Elements(s + [x]) == Elements(s) + {x}
  {
  }

  lemma KindsOfMore(a: set<Event>, e: Event)
    ensures KindsOf(a + {e}) == KindsOf(a) + {e.kind}
  {
    KindsUnion(a, {e});
    assert KindsOf({e}) == {e.kind};
  }

  // ----- What discovery misses ------------------------------------------------------------

  /** A full page ended inside the second of an event that it left out. */
  predicate IsSkipped(pages: seq<seq<Event>>, e: Event) {
    exists i :: 0 <= i < |pages| && |pages[i]| == PAGE && e !in pages[i] && e.createdAt == OldestOf(pages[i])
  }

  /** The page cap was reached before the event's second. */
  predicate IsBeyondCap(pages: seq<seq<Event>>, e: Event) {
    |pages| == MAX_PAGES && Continues(pages[MAX_PAGES - 1]) && e.createdAt < OldestOf(pages[MAX_PAGES - 1])
  }

  lemma OnPage(all: set<Event>, pages: seq<seq<Event>>, i: nat, e: Event)
    requires IsChain(all, pages) && i < |pages| && e in pages[i]
    ensures e in all && e.createdAt >= OldestOf(pages[i])
    ensures Bound(pages, i).Some? ==> e.createdAt <= Bound(pages, i).value
  {
    hide Bound;
    assert IsPage(pages[i], UpTo(all, Bound(pages, i)), PAGE);
    assert e in Elements(pages[i]);
    OldestMeans(pages[i]);
  }

  /** Every page is strictly older than the ones before. */
  lemma {:induction false} LaterIsOlder(all: set<Event>, pages: seq<seq<Event>>, i: nat, j: nat, e: Event)
    requires IsDiscovery(all, pages) && i < j < |pages| && e in pages[j]
    ensures e.createdAt < OldestOf(pages[i])
  {
    hide UpTo, IsPage;
    OnPage(all, pages, j, e);
    assert Continues(pages[j - 1]);
    if i < j - 1 {
      OldestMeans(pages[j - 1]);
      var f :| f in pages[j - 1] && f.createdAt == OldestOf(pages[j - 1]);
      LaterIsOlder(all, pages, i, j - 1, f);
    }
  }

  lemma MissedIsNotFound(all: set<Event>, pages: seq<seq<Event>>, e: Event, j: nat)
    requires IsDiscovery(all, pages) && j < |pages| && e in pages[j]
    ensures !IsSkipped(pages, e) && !IsBeyondCap(pages, e)
  {
    hide UpTo, IsPage, OldestOf;
    OnPage(all, pages, j, e);
    forall i | 0 <= i < |pages| && |pages[i]| == PAGE && e !in pages[i] ensures e.createdAt != OldestOf(pages[i]) {
      if i < j {
        LaterIsOlder(all, pages, i, j, e);
      } else {
        OldestMeans(pages[i]);
        var f :| f in pages[i] && f.createdAt == OldestOf(pages[i]);
        LaterIsOlder(all, pages, j, i, f);
      }
    }
    if |pages| == MAX_PAGES && j < MAX_PAGES - 1 && Continues(pages[MAX_PAGES - 1]) {
      OldestMeans(pages[MAX_PAGES - 1]);
      var f :| f in pages[MAX_PAGES - 1] && f.createdAt == OldestOf(pages[MAX_PAGES - 1]);
      LaterIsOlder(all, pages, j, MAX_PAGES - 1, f);
    }
  }

  /** What a page leaves out is no newer than what is on it, and then the page is full. */
  lemma LeftOut(page: seq<Event>, some: set<Event>, e: Event)
    requires IsPage(page, some, PAGE) && e in some && e !in page
    ensures |page| == PAGE && e.createdAt <= OldestOf(page)
  {
    hide OldestOf;
    OldestMeans(page);
  }

  lemma NotOnPage(pages: seq<seq<Event>>, i: nat, e: Event)
    requires e !in Found(pages) && i < |pages|
    ensures e !in pages[i]
  {
  }

  lemma SkippedAt(pages: seq<seq<Event>>, i: nat, e: Event)
    requires i < |pages| && |pages[i]| == PAGE && e !in pages[i] && e.createdAt == OldestOf(pages[i])
    ensures IsSkipped(pages, e)
  {
    hide OldestOf;
  }

  lemma LeftForLater(all: set<Event>, pages: seq<seq<Event>>, i: nat, e: Event)
    requires IsDiscovery(all, pages) && i < |pages| && |pages[i]| == PAGE && e in all && e.createdAt < OldestOf(pages[i])
    ensures e in UpTo(all, Bound(pages, i + 1))
    ensures i == |pages| - 1 ==> IsBeyondCap(pages, e)
  {
    hide OldestOf, IsChain;
    assert Bound(pages, i + 1) == Some(OldestOf(pages[i]) - 1);
    if i == |pages| - 1 { assert Continues(pages[i]); }
  }

  lemma {:induction false} NotFoundIsMissed(all: set<Event>, pages: seq<seq<Event>>, e: Event, i: nat)
    requires IsDiscovery(all, pages) && e in all && e !in Found(pages) && i < |pages|
    requires e in UpTo(all, Bound(pages, i))
    ensures IsSkipped(pages, e) || IsBeyondCap(pages, e)
    decreases |pages| - i
  {
    hide *;
    NotOnPage(pages, i, e);
    DiscoveryIsChain(all, pages);
    ChainAt(all, pages, i);
    LeftOut(pages[i], UpTo(all, Bound(pages, i)), e);
    if e.createdAt == OldestOf(pages[i]) {
      SkippedAt(pages, i, e);
    } else {
      LeftForLater(all, pages, i, e);
      if i < |pages| - 1 { NotFoundIsMissed(all, pages, e, i + 1); }
    }
  }

  /** An event is on no page exactly when a full page ended inside its second without it,
      or the cap came first. */
  lemma EventMissedIff(all: set<Event>, pages: seq<seq<Event>>, e: Event)
    requires IsDiscovery(all, pages) && e in all
    ensures e !in Found(pages) <==> IsSkipped(pages, e) || IsBeyondCap(pages, e)
  {
    if e in Found(pages) {
      var j :| 0 <= j < |pages| && e in pages[j];
      MissedIsNotFound(all, pages, e, j);
    } else {
      assert e in UpTo(all, Bound(pages, 0));
      NotFoundIsMissed(all, pages, e, 0);
    }
  }

  lemma FoundAreThere(all: set<Event>, pages: seq<seq<Event>>)
    requires IsDiscovery(all, pages)
    ensures Found(pages) <= all
  {
    forall e | e in Found(pages) ensures e in all {
      var i :| 0 <= i < |pages| && e in pages[i];
      OnPage(all, pages, i, e);
    }
  }

  lemma FoundSnoc(pages: seq<seq<Event>>, n: nat)
    requires 0 < n <= |pages|
    ensures Found(pages[..n]) == Found(pages[..n - 1]) + Elements(pages[n - 1])
  {
    assert pages[..n] == pages[..n - 1] + [pages[n - 1]];
    FoundMore(pages[..n - 1], pages[n - 1]);
  }

  lemma FoundOn(pages: seq<seq<Event>>, n: nat, e: Event) returns (i: nat)
    requires n <= |pages| && e in Found(pages[..n])
    ensures i < n && e in pages[i]
  {
    i :| 0 <= i < n && e in pages[..n][i];
  }

  lemma ElementsAreIn<X>(s: seq<X>, x: X)
    requires x in Elements(s)
    ensures x in s
  {
  }

  lemma PageIsDistinct(page: seq<Event>, some: set<Event>)
    requires IsPage(page, some, PAGE)
    ensures |Elements(page)| == |page|
  {
    DistinctCount(page);
  }

  lemma DiscoveryIsChain(all: set<Event>, pages: seq<seq<Event>>)
    requires IsDiscovery(all, pages)
    ensures IsChain(all, pages)
  {
  }

  // ----- Levels -----------------------------------------------------------------------------

  function Newer(r: set<Event>, e: Event): set<Event> {
    set f | f in r && f.createdAt > e.createdAt
  }

  function NoOlder(r: set<Event>, e: Event): set<Event> {
    set f | f in r && f.createdAt >= e.createdAt
  }

  /** What lies below a page, however ties on it are broken: the events with a page of
      strictly newer ones above them. */
  function Deeper(r: set<Event>): set<Event> {
    set e | e in r && |Newer(r, e)| >= PAGE
  }

  /** What is left to discover before page `i`; the seconds alone decide. */
  function Rest(all: set<Event>, i: nat): set<Event> {
    if i == 0 then all else Deeper(Rest(all, i - 1))
  }

  lemma PageHas(p: seq<Event>, r: set<Event>, e: Event)
    requires IsPage(p, r, PAGE) && e in r && e !in p
    ensures |p| == PAGE && Elements(p) <= NoOlder(r, e) - {e} && |NoOlder(r, e)| > PAGE
  {
    DistinctCount(p);
    assert Elements(p) <= NoOlder(r, e) - {e};
    Smaller(Elements(p), NoOlder(r, e) - {e});
    assert NoOlder(r, e) == (NoOlder(r, e) - {e}) + {e};
  }

  lemma PageLacks(p: seq<Event>, r: set<Event>, e: Event)
    requires IsPage(p, r, PAGE) && e in p
    ensures e in r && |Newer(r, e)| < PAGE
  {
    assert e in Elements(p);
    DistinctCount(p);
    assert Newer(r, e) <= Elements(p) - {e};
    Smaller(Newer(r, e), Elements(p) - {e});
    assert Elements(p) == (Elements(p) - {e}) + {e};
  }

  lemma BelowPage(p: seq<Event>, r: set<Event>, e: Event)
    requires IsPage(p, r, PAGE) && |p| == PAGE && e in r
    ensures e.createdAt < OldestOf(p) <==> e in Deeper(r)
  {
    OldestMeans(p);
    DistinctCount(p);
    if e.createdAt < OldestOf(p) {
      assert Elements(p) <= Newer(r, e);
      Smaller(Elements(p), Newer(r, e));
    } else {
      var o :| o in p && o.createdAt == OldestOf(p);
      PageLacks(p, r, o);
      assert Newer(r, e) <= Newer(r, o);
      Smaller(Newer(r, e), Newer(r, o));
    }
  }

  lemma NothingDeeper(r: set<Event>)
    requires |r| < PAGE || forall e :: e in r ==> e.createdAt >= 0 && |Newer(r, e)| < PAGE
    ensures Deeper(r) == {}
  {
    forall e | e in r ensures |Newer(r, e)| < PAGE {
      assert Newer(r, e) <= r;
      Smaller(Newer(r, e), r);
    }
  }

  /** The pages before `i` all continue: page `i` is asked of exactly what is left. */
  lemma {:induction false} AskedOfRest(all: set<Event>, pages: seq<seq<Event>>, i: nat)
    requires IsChain(all, pages) && i <= |pages| && forall j :: 0 <= j < i ==> Continues(pages[j])
    ensures UpTo(all, Bound(pages, i)) == Rest(all, i)
  {
    hide *;
    if i == 0 {
      RestStarts(all, pages);
    } else {
      AskedOfRest(all, pages, i - 1);
      ChainAt(all, pages, i - 1);
      AskedNext(all, pages, i);
    }
  }

  lemma RestStarts(all: set<Event>, pages: seq<seq<Event>>)
    ensures Rest(all, 0) == all == UpTo(all, Bound(pages, 0))
  {
    hide Deeper;
  }

  lemma BoundBelow(all: set<Event>, pages: seq<seq<Event>>, i: nat)
    requires 0 < i <= |pages| && Continues(pages[i - 1])
    ensures |pages[i - 1]| == PAGE && pages[i - 1] != []
    ensures forall e :: e in UpTo(all, Bound(pages, i)) <==> e in all && e.createdAt < OldestOf(pages[i - 1])
  {
    hide OldestOf;
  }

  lemma AskedNext(all: set<Event>, pages: seq<seq<Event>>, i: nat)
    requires IsChain(all, pages) && 0 < i <= |pages| && Continues(pages[i - 1])
    requires IsPage(pages[i - 1], Rest(all, i - 1), PAGE) && UpTo(all, Bound(pages, i - 1)) == Rest(all, i - 1)
    ensures UpTo(all, Bound(pages, i)) == Rest(all, i)
  {
    hide *;
    var p, r := pages[i - 1], Rest(all, i - 1);
    RestUnfolds(all, i);
    BoundBelow(all, pages, i);
    DeeperInside(r);
    RestInside(all, i - 1);
    forall e | e in all ensures e.createdAt < OldestOf(p) <==> e in Deeper(r) {
      if e in r { BelowPage(p, r, e); } else { NotBelow(all, pages, i - 1, e); }
    }
  }

  lemma RestUnfolds(all: set<Event>, i: nat)
    requires i > 0
    ensures Rest(all, i) == Deeper(Rest(all, i - 1))
  {
  }

  lemma DeeperInside(r: set<Event>)
    ensures Deeper(r) <= r
  {
  }

  lemma {:induction false} RestInside(all: set<Event>, i: nat)
    ensures Rest(all, i) <= all
  {
    hide Deeper;
    if i > 0 {
      RestInside(all, i - 1);
      DeeperInside(Rest(all, i - 1));
    }
  }

  lemma {:induction false} RestFalls(all: set<Event>, i: nat, j: nat)
    requires i <= j
    ensures Rest(all, j) <= Rest(all, i)
  {
    hide Deeper;
    if i < j {
      RestFalls(all, i, j - 1);
      DeeperInside(Rest(all, j - 1));
    }
  }

  lemma NotBelow(all: set<Event>, pages: seq<seq<Event>>, i: nat, e: Event)
    requires IsChain(all, pages) && i < |pages| && pages[i] != [] && e in all && e !in UpTo(all, Bound(pages, i))
    ensures e.createdAt >= OldestOf(pages[i])
  {
    OldestMeans(pages[i]);
    var o :| o in pages[i] && o.createdAt == OldestOf(pages[i]);
    OnPage(all, pages, i, o);
  }

  /** Every page of a discovery is one of what is left, and it ends only where nothing is
      left or the cap is reached. */
  lemma PageOfRest(all: set<Event>, pages: seq<seq<Event>>, i: nat)
    requires IsDiscovery(all, pages)
    ensures i < |pages| ==> IsPage(pages[i], Rest(all, i), PAGE)
    ensures |pages| <= i < MAX_PAGES ==> Rest(all, i) == {}
  {
    hide Rest, Deeper, IsPage, OldestOf, UpTo, Bound;
    if i < |pages| {
      DiscoveryIsChain(all, pages);
      AskedOfRest(all, pages, i);
      ChainAt(all, pages, i);
    } else if i < MAX_PAGES {
      EndsWithNothing(all, pages);
      RestFalls(all, |pages|, i);
    }
  }

  lemma EndsWithNothing(all: set<Event>, pages: seq<seq<Event>>)
    requires IsDiscovery(all, pages) && |pages| < MAX_PAGES
    ensures Rest(all, |pages|) == {}
  {
    var last := |pages| - 1;
    AskedOfRest(all, pages, last);
    ChainAt(all, pages, last);
    hide IsChain, Rest, Deeper, OldestOf, UpTo, Bound;
    var p, r := pages[last], Rest(all, last);
    RestUnfolds(all, |pages|);
    if |p| < PAGE {
      assert Elements(p) == r;
      DistinctCount(p);
      NothingDeeper(r);
    } else {
      hide IsPage;
      DeeperInside(r);
      forall e | e in r ensures e !in Deeper(r) { BelowPage(p, r, e); }
    }
  }

  // ----- What can be missed ---------------------------------------------------------------------

  /** Before every page, each of these events that is left has a page of others left that
      are no older. */
  predicate MayMiss(all: set<Event>, lost: set<Event>) {
    forall i :: 0 <= i < MAX_PAGES ==> IsCrowdedOut(Rest(all, i), lost)
  }

  predicate IsCrowdedOut(r: set<Event>, lost: set<Event>) {
    forall e :: e in r && e in lost ==> |NoOlder(r, e) - lost| >= PAGE
  }

  lemma MissedIsCrowdedOut(all: set<Event>, pages: seq<seq<Event>>, lost: set<Event>)
    requires IsDiscovery(all, pages) && Found(pages) !! lost
    ensures MayMiss(all, lost)
  {
    forall i | 0 <= i < MAX_PAGES ensures IsCrowdedOut(Rest(all, i), lost) {
      hide Rest, IsPage, IsDiscovery, NoOlder;
      PageOfRest(all, pages, i);
      forall e | e in Rest(all, i) && e in lost ensures |NoOlder(Rest(all, i), e) - lost| >= PAGE {
        var p := pages[i];
        PageApart(pages, i, lost);
        PageHas(p, Rest(all, i), e);
        assert Elements(p) <= NoOlder(Rest(all, i), e) - lost;
        Smaller(Elements(p), NoOlder(Rest(all, i), e) - lost);
        PageIsDistinct(p, Rest(all, i));
      }
    }
  }

  lemma PageApart(pages: seq<seq<Event>>, i: nat, lost: set<Event>)
    requires i < |pages| && Found(pages) !! lost
    ensures Elements(pages[i]) !! lost
  {
    assert Elements(pages[i]) <= Found(pages);
  }

  lemma {:induction false} SomePage(r: set<Event>) returns (p: seq<Event>)
    ensures IsPage(p, r, PAGE)
    decreases |r|
  {
    p := Top(r, PAGE);
  }

  lemma {:induction false} Top(r: set<Event>, n: nat) returns (p: seq<Event>)
    ensures IsPage(p, r, n)
  {
    if n == 0 || r == {} {
      p := [];
    } else {
      var e := NewestExists(r);
      var q := Top(r - {e}, n - 1);
      p := [e] + q;
      PushTop(r, e, q, n);
    }
  }

  lemma PushTop(r: set<Event>, e: Event, q: seq<Event>, n: nat)
    requires n > 0 && e in r && (forall f :: f in r ==> f.createdAt <= e.createdAt) && IsPage(q, r - {e}, n - 1)
    ensures IsPage([e] + q, r, n)
  {
    var p := [e] + q;
    forall i, j | 0 <= i < j < |p| ensures p[i] != p[j] {
      assert p[j] == q[j - 1] && q[j - 1] in Elements(q);
      if i > 0 { assert p[i] == q[i - 1]; }
    }
    assert Elements(p) == {e} + Elements(q);
    forall g | g in r && g !in p ensures |p| == n && forall f :: f in p ==> g.createdAt <= f.createdAt {
      assert p[0] == e;
      assert forall f :: f in q ==> f in p by { forall f | f in q ensures f in p { InTail(e, q, f); } }
      assert g in r - {e} && g !in q;
    }
  }

  lemma InTail(e: Event, q: seq<Event>, f: Event)
    requires f in q
    ensures f in [e] + q
  {
  }

  /** The newest page of the others is a page of all. */
  lemma AvoidingPage(r: set<Event>, lost: set<Event>) returns (p: seq<Event>)
    requires IsCrowdedOut(r, lost)
    ensures IsPage(p, r, PAGE) && Elements(p) !! lost
  {
    p := SomePage(r - lost);
    DistinctCount(p);
    forall e | e in r && e !in p ensures |p| == PAGE && forall f :: f in p ==> e.createdAt <= f.createdAt {
      if e in lost {
        CrowdIsNewest(r, lost, p, e);
      } else {
        assert e in r - lost;
      }
    }
  }

  lemma CrowdIsNewest(r: set<Event>, lost: set<Event>, p: seq<Event>, e: Event)
    requires IsPage(p, r - lost, PAGE) && |NoOlder(r, e) - lost| >= PAGE
    ensures |p| == PAGE && forall f :: f in p ==> e.createdAt <= f.createdAt
  {
    var crowd := NoOlder(r, e) - lost;
    DistinctCount(p);
    if crowd <= Elements(p) {
      Smaller(crowd, Elements(p));
      SameSize(crowd, Elements(p));
      forall f | f in p ensures e.createdAt <= f.createdAt { assert f in Elements(p); }
    } else {
      var g :| g in crowd && g !in Elements(p);
      assert g in r - lost && g !in p;
    }
  }

  lemma SameSize<X>(a: set<X>, b: set<X>)
    requires a <= b && |a| >= |b|
    ensures a == b
  {
    if a != b {
      var x :| x in b && x !in a;
      assert a <= b - {x};
      Smaller(a, b - {x});
    }
  }

  lemma {:induction false} GoOnMissing(all: set<Event>, lost: set<Event>, pages: seq<seq<Event>>)
    returns (done: seq<seq<Event>>)
    requires MayMiss(all, lost) && |pages| < MAX_PAGES && IsChain(all, pages)
    requires (forall i :: 0 <= i < |pages| ==> Continues(pages[i])) && Found(pages) !! lost
    ensures IsDiscovery(all, done) && Found(done) !! lost
    decreases MAX_PAGES - |pages|
  {
    hide Rest, IsPage, IsDiscovery, NoOlder, Continues, IsChain, UpTo, Bound, IsCrowdedOut, Found, Elements;
    var n := |pages|;
    assert IsCrowdedOut(Rest(all, n), lost);
    AskedOfRest(all, pages, n);
    var p := AvoidingPage(Rest(all, n), lost);
    FoundMore(pages, p);
    ChainGrows(all, pages, p);
    DiscoveryGrows(all, pages, p);
    done := pages + [p];
    if |p| == PAGE && OldestOf(p) > 0 && n + 1 < MAX_PAGES { done := GoOnMissing(all, lost, done); }
  }

  /** Some discovery, breaking ties its own way, misses all of these events exactly when
      at every level each of them is crowded out. */
  lemma MayMissIff(all: set<Event>, lost: set<Event>)
    ensures (exists pages :: IsDiscovery(all, pages) && Found(pages) !! lost) <==> MayMiss(all, lost)
  {
    hide IsDiscovery, Found, MayMiss;
    if pages :| IsDiscovery(all, pages) && Found(pages) !! lost {
      MissedIsCrowdedOut(all, pages, lost);
    }
    if MayMiss(all, lost) {
      NothingFound();
      NoChain(all);
      var pages := GoOnMissing(all, lost, []);
    }
  }

  function OfKind(all: set<Event>, k: nat): set<Event> {
    set e | e in all && e.kind == k
  }

  predicate MayMissKind(all: set<Event>, k: nat) {
    MayMiss(all, OfKind(all, k))
  }

  /** A kind can be missed exactly when at every level each event of that kind has a page
      of events of other kinds above it or in its second; a condition on what is stored. */
  lemma KindMayBeMissedIff(all: set<Event>, k: nat)
    ensures (exists pages :: IsDiscovery(all, pages) && k !in KindsOf(Found(pages))) <==> MayMissKind(all, k)
  {
    hide *;
    MayMissIff(all, OfKind(all, k));
    MayMissKindIs(all, k);
    forall pages | IsDiscovery(all, pages) ensures k !in KindsOf(Found(pages)) <==> Found(pages) !! OfKind(all, k) {
      FoundAreThere(all, pages);
      KindAmong(Found(pages), all, k);
    }
  }

  lemma MayMissKindIs(all: set<Event>, k: nat)
    ensures MayMissKind(all, k) <==> MayMiss(all, OfKind(all, k))
  {
    hide MayMiss;
  }

  lemma KindAmong(found: set<Event>, all: set<Event>, k: nat)
    requires found <= all
    ensures k !in KindsOf(found) <==> found !! OfKind(all, k)
  {
    if k in KindsOf(found) {
      var e :| e in found && e.kind == k;
      assert e in OfKind(all, k);
    } else {
      forall e | e in found ensures e !in OfKind(all, k) { assert e.kind in KindsOf(found); }
    }
  }

  // ----- When everything is found -------------------------------------------------------------------

  /** The end of the `m`th page, counting all events newest first, falls inside a second. */
  predicate Splits(all: set<Event>, m: nat) {
    exists e :: e in all && |Newer(all, e)| < m * PAGE < |NoOlder(all, e)|
  }

  /** Few enough for the page cap, and no page ends inside a second. */
  predicate IsDiscoverable(all: set<Event>) {
    && |all| <= MAX_PAGES * PAGE
    && forall m: nat :: 0 < m < MAX_PAGES ==> !Splits(all, m)
  }

  lemma Older(all: set<Event>, e: Event, f: Event)
    requires f.createdAt <= e.createdAt
    ensures Newer(all, e) <= Newer(all, f) && NoOlder(all, e) <= NoOlder(all, f)
    ensures |Newer(all, e)| <= |Newer(all, f)|
  {
    Smaller(Newer(all, e), Newer(all, f));
  }

  lemma {:induction false} OldestExists(all: set<Event>) returns (e: Event)
    requires all != {}
    ensures e in all && forall f :: f in all ==> f.createdAt >= e.createdAt
    decreases |all|
  {
    e :| e in all;
    if all != {e} {
      assert all - {e} != {} by { assert all == (all - {e}) + {e}; }
      var x := OldestExists(all - {e});
      if x.createdAt < e.createdAt { e := x; }
    }
  }

  /** The events that fewer than `n` strictly newer ones stand above. */
  predicate IsTop(top: set<Event>, all: set<Event>, n: nat) {
    top <= all && forall e :: e in all ==> (e in top <==> |Newer(all, e)| < n)
  }

  /** If no second straddles rank `n`, and there is something below, they are exactly `n`. */
  lemma TopCount(all: set<Event>, top: set<Event>, n: nat)
    requires IsTop(top, all, n) && top != all
    requires forall e :: e in all ==> !(|Newer(all, e)| < n < |NoOlder(all, e)|)
    ensures |top| == n
  {
    assert top <= all;
    hide *;
    var below := all - top;
    assert top + below == all;
    var e := NewestExists(below);
    TopAt(all, top, n, e);
    TopIsNewer(all, top, n, e);
    NewerOutside(all, top, e);
    assert Newer(all, e) == top;
    if top != {} {
      var f := OldestExists(top);
      TopAt(all, top, n, f);
      TopIsNoOlder(all, top, n, f);
    }
  }

  lemma TopAt(all: set<Event>, top: set<Event>, n: nat, e: Event)
    requires IsTop(top, all, n) && e in all
    ensures e in top <==> |Newer(all, e)| < n
  {
    hide Newer;
  }

  lemma TopIsNoOlder(all: set<Event>, top: set<Event>, n: nat, f: Event)
    requires IsTop(top, all, n) && f in top && forall g :: g in top ==> g.createdAt >= f.createdAt
    ensures NoOlder(all, f) == top && f in all
  {
    hide Newer;
    forall g | g in NoOlder(all, f) ensures g in top { Older(all, g, f); }
  }

  lemma NewerOutside(all: set<Event>, top: set<Event>, e: Event)
    requires e in all && forall f :: f in all - top ==> f.createdAt <= e.createdAt
    ensures Newer(all, e) <= top
  {
    forall f | f in Newer(all, e) ensures f in top { assert f !in all - top; }
  }

  lemma TopIsNewer(all: set<Event>, top: set<Event>, n: nat, e: Event)
    requires IsTop(top, all, n) && e in all && e !in top
    ensures top <= Newer(all, e)
  {
    forall f | f in top ensures f in Newer(all, e) {
      if f.createdAt <= e.createdAt { Older(all, e, f); }
    }
  }

  /** Below the top, ranks are counted from there. */
  lemma RankBelow(all: set<Event>, top: set<Event>, n: nat, e: Event)
    requires IsTop(top, all, n) && e in all && e !in top
    ensures |Newer(all, e)| == |top| + |Newer(all - top, e)|
    ensures |NoOlder(all, e)| == |top| + |NoOlder(all - top, e)|
  {
    TopIsNewer(all, top, n, e);
    assert Newer(all, e) == top + Newer(all - top, e);
    assert NoOlder(all, e) == top + NoOlder(all - top, e);
    DisjointCount(top, Newer(all - top, e));
    DisjointCount(top, NoOlder(all - top, e));
  }

  /** As long as no page ends inside a second, the levels are the ranks. */
  lemma {:induction false} LevelIs(all: set<Event>, i: nat)
    requires forall m: nat :: 0 < m <= i ==> !Splits(all, m)
    ensures IsTop(all - Rest(all, i), all, i * PAGE)
    ensures Rest(all, i) != {} ==> |all - Rest(all, i)| == i * PAGE
  {
    hide Splits, Newer, NoOlder;
    RestInside(all, i);
    if i == 0 {
      assert all - Rest(all, 0) == {};
    } else {
      LevelIs(all, i - 1);
      RestInside(all, i - 1);
      NextLevel(all, i);
      if Rest(all, i) != {} {
        UnsplitMeans(all, i);
        TopCount(all, all - Rest(all, i), i * PAGE);
      }
    }
  }

  lemma UnsplitMeans(all: set<Event>, m: nat)
    ensures !Splits(all, m) <==> forall e :: e in all ==> !(|Newer(all, e)| < m * PAGE < |NoOlder(all, e)|)
  {
    hide Newer, NoOlder;
  }

  lemma NextLevel(all: set<Event>, i: nat)
    requires i > 0 && Rest(all, i - 1) <= all && Rest(all, i) <= all
    requires IsTop(all - Rest(all, i - 1), all, (i - 1) * PAGE)
    requires Rest(all, i - 1) != {} ==> |all - Rest(all, i - 1)| == (i - 1) * PAGE
    ensures IsTop(all - Rest(all, i), all, i * PAGE)
  {
    var r := Rest(all, i - 1);
    RestUnfolds(all, i);
    hide Rest, Newer, NoOlder;
    assert all - (all - r) == r;
    assert (i - 1) * PAGE + PAGE == i * PAGE;
    forall e | e in all ensures e in Rest(all, i) <==> |Newer(all, e)| >= i * PAGE {
      if e in r { RankBelow(all, all - r, (i - 1) * PAGE, e); }
    }
  }

  lemma PageIndex(n: nat) returns (i: nat)
    ensures i * PAGE <= n < (i + 1) * PAGE
  {
    i := n / PAGE;
  }

  lemma NewerAreFewer(all: set<Event>, e: Event)
    requires e in all
    ensures |Newer(all, e)| < |all| && |NoOlder(all, e)| <= |all| && |Newer(all, e)| < |NoOlder(all, e)|
  {
    assert Newer(all, e) <= all - {e};
    Smaller(Newer(all, e), all - {e});
    Smaller(NoOlder(all, e), all);
    assert all == (all - {e}) + {e};
    assert Newer(all, e) <= NoOlder(all, e) - {e};
    Smaller(Newer(all, e), NoOlder(all, e) - {e});
    assert NoOlder(all, e) == (NoOlder(all, e) - {e}) + {e};
  }

  lemma DiscoverableIsFound(all: set<Event>, pages: seq<seq<Event>>, e: Event)
    requires IsDiscovery(all, pages) && IsDiscoverable(all) && e in all
    ensures e in Found(pages)
  {
    hide IsDiscovery, Found, Rest, Newer, NoOlder, Splits, IsPage;
    var i := PageIndex(|Newer(all, e)|);
    NewerAreFewer(all, e);
    assert i < MAX_PAGES;
    LevelIs(all, i);
    RestInside(all, i);
    var r := Rest(all, i);
    assert e in r;
    RankBelow(all, all - r, i * PAGE, e);
    assert all - (all - r) == r;
    assert (i + 1) * PAGE == i * PAGE + PAGE;
    if i + 1 < MAX_PAGES { UnsplitMeans(all, i + 1); }
    assert |NoOlder(r, e)| <= PAGE;
    PageOfRest(all, pages, i);
    if e !in pages[i] { PageHas(pages[i], r, e); }
    OnPageIsFound(pages, i, e);
  }

  lemma OnPageIsFound(pages: seq<seq<Event>>, i: nat, e: Event)
    requires i < |pages| && e in pages[i]
    ensures e in Found(pages)
  {
  }

  lemma {:induction false} FoundAtMost(all: set<Event>, pages: seq<seq<Event>>, n: nat)
    requires IsDiscovery(all, pages) && n <= |pages|
    ensures |Found(pages[..n])| <= n * PAGE
  {
    hide IsDiscovery, Found, Elements;
    if n == 0 {
      NothingFound();
      assert pages[..0] == [];
    } else {
      FoundAtMost(all, pages, n - 1);
      FoundSnoc(pages, n);
      PageIsShort(all, pages, n - 1);
      UnionCount(Found(pages[..n - 1]), Elements(pages[n - 1]));
    }
  }

  lemma PageIsShort(all: set<Event>, pages: seq<seq<Event>>, i: nat)
    requires IsDiscovery(all, pages) && i < |pages|
    ensures |Elements(pages[i])| <= PAGE
  {
    hide IsDiscovery, Elements;
    PageOfRest(all, pages, i);
    PageIsDistinct(pages[i], Rest(all, i));
  }

  lemma UnionCount<X>(a: set<X>, b: set<X>)
    ensures |a + b| <= |a| + |b|
  {
    assert a + b == a + (b - a);
    DisjointCount(a, b - a);
    Smaller(b - a, b);
  }

  lemma {:induction false} LeastSplit(all: set<Event>, m: nat) returns (least: nat)
    requires 0 < m && Splits(all, m)
    ensures 0 < least <= m && Splits(all, least) && forall k: nat :: 0 < k < least ==> !Splits(all, k)
  {
    hide Splits;
    least := m;
    if k: nat :| 0 < k < m && Splits(all, k) { least := LeastSplit(all, k); }
  }

  lemma SplitSecond(all: set<Event>, m: nat) returns (e: Event)
    requires 0 < m && Splits(all, m) && forall k: nat :: 0 < k < m ==> !Splits(all, k)
    ensures e in Rest(all, m - 1) && |Newer(Rest(all, m - 1), e)| < PAGE < |NoOlder(Rest(all, m - 1), e)|
  {
    e :| e in all && |Newer(all, e)| < m * PAGE < |NoOlder(all, e)|;
    var i := m - 1;
    LevelIs(all, i);
    RestInside(all, i);
    hide Newer, NoOlder, Rest, Splits;
    var r := Rest(all, i);
    assert m * PAGE == i * PAGE + PAGE;
    if e !in r {
      assert |Newer(all, e)| < i * PAGE;
      if i > 0 { UnsplitMeans(all, i); }
      assert false;
    }
    assert all - (all - r) == r;
    RankBelow(all, all - r, i * PAGE, e);
  }

  /** What a page leaves out in its last second is on no other page. */
  lemma SplitIsMissed(all: set<Event>, pages: seq<seq<Event>>, i: nat, e: Event) returns (g: Event)
    requires IsDiscovery(all, pages) && i < MAX_PAGES
    requires e in Rest(all, i) && |Newer(Rest(all, i), e)| < PAGE < |NoOlder(Rest(all, i), e)|
    ensures g in all && g !in Found(pages)
  {
    hide IsDiscovery, Rest, NoOlder, Deeper, IsPage;
    PageOfRest(all, pages, i);
    var r, p := Rest(all, i), pages[i];
    PageIsDistinct(p, r);
    PageIsShort(all, pages, i);
    if NoOlder(r, e) <= Elements(p) {
      Smaller(NoOlder(r, e), Elements(p));
      assert false;
    }
    g :| g in NoOlder(r, e) && g !in Elements(p);
    NoOlderMeans(r, e, g);
    RestInside(all, i);
    assert g !in p;
    forall j | 0 <= j < |pages| ensures g !in pages[j] {
      if g in pages[j] {
        PageOfRest(all, pages, j);
        PageLacks(pages[j], Rest(all, j), g);
        if j < i {
          RestUnfolds(all, j + 1);
          NotDeeper(Rest(all, j), g);
          RestFalls(all, j + 1, i);
        } else if j > i {
          RestUnfolds(all, i + 1);
          RestFalls(all, i + 1, j);
          Older(r, g, e);
          NotDeeper(r, g);
        }
      }
    }
    NowhereIsNotFound(pages, g);
  }

  lemma NoOlderMeans(r: set<Event>, e: Event, g: Event)
    ensures g in NoOlder(r, e) <==> g in r && g.createdAt >= e.createdAt
  {
  }

  lemma NotDeeper(r: set<Event>, e: Event)
    requires |Newer(r, e)| < PAGE
    ensures e !in Deeper(r)
  {
    hide Newer;
  }

  lemma NowhereIsNotFound(pages: seq<seq<Event>>, e: Event)
    requires forall j :: 0 <= j < |pages| ==> e !in pages[j]
    ensures e !in Found(pages)
  {
  }

  /** However ties are broken, a discovery finds everything exactly when there are at most
      100,000 events and no multiple of 500, counting them newest first, falls inside a
      second. */
  lemma FoundAllIff(all: set<Event>, pages: seq<seq<Event>>)
    requires IsDiscovery(all, pages)
    ensures Found(pages) == all <==> IsDiscoverable(all)
  {
    hide IsDiscovery, Found, Splits;
    FoundAreThere(all, pages);
    if IsDiscoverable(all) {
      forall e | e in all ensures e in Found(pages) { DiscoverableIsFound(all, pages, e); }
    } else if Found(pages) == all {
      DiscoveryIsShort(all, pages);
      assert pages[..|pages|] == pages;
      FoundAtMost(all, pages, |pages|);
      var m: nat :| 0 < m < MAX_PAGES && Splits(all, m);
      var least := LeastSplit(all, m);
      var e := SplitSecond(all, least);
      var g := SplitIsMissed(all, pages, least - 1, e);
      assert false;
    }
  }

  lemma DiscoveryIsShort(all: set<Event>, pages: seq<seq<Event>>)
    requires IsDiscovery(all, pages)
    ensures |pages| * PAGE <= MAX_PAGES * PAGE
  {
    hide IsChain;
  }

  /** In particular when no two events share a second. */
  lemma DistinctSecondsAreDiscoverable(all: set<Event>)
    requires forall a, b :: a in all && b in all && a.createdAt == b.createdAt ==> a == b
    ensures IsDiscoverable(all) <==> |all| <= MAX_PAGES * PAGE
  {
    hide Newer, NoOlder;
    forall m: nat ensures !Splits(all, m) {
      forall e | e in all ensures |NoOlder(all, e)| == |Newer(all, e)| + 1 {
        assert NoOlder(all, e) == Newer(all, e) + {e} by { AloneInItsSecond(all, e); }
        NewerAreFewer(all, e);
      }
    }
  }

  lemma AloneInItsSecond(all: set<Event>, e: Event)
    requires e in all && forall a :: a in all && a.createdAt == e.createdAt ==> a == e
    ensures NoOlder(all, e) == Newer(all, e) + {e}
  {
  }

  /** An author whose kinds are not all found: more than a page of events, all of one
      second and each of its own kind. */
  lemma OneSecondMissesAKind(all: set<Event>, pages: seq<seq<Event>>, second: U64) returns (k: nat)
    requires IsDiscovery(all, pages) && |all| > PAGE
    requires forall e :: e in all ==> e.createdAt == second
    requires forall a, b :: a in all && b in all && a.kind == b.kind ==> a == b
    ensures k in KindsOf(all) && k !in KindsOf(Found(pages))
  {
    hide IsDiscovery, Found, IsDiscoverable, KindsOf;
    OneSecondSplits(all, second);
    FoundAllIff(all, pages);
    FoundAreThere(all, pages);
    var e :| e in all && e !in Found(pages);
    k := e.kind;
    OnlyOfItsKind(all, Found(pages), e);
  }

  lemma OneSecondSplits(all: set<Event>, second: U64)
    requires |all| > PAGE && forall e :: e in all ==> e.createdAt == second
    ensures !IsDiscoverable(all)
  {
    var e :| e in all;
    assert Newer(all, e) == {} && NoOlder(all, e) == all;
    assert Splits(all, 1);
  }

  lemma OnlyOfItsKind(all: set<Event>, found: set<Event>, e: Event)
    requires found <= all && e in all && e !in found && forall a :: a in all && a.kind == e.kind ==> a == e
    ensures e.kind in KindsOf(all) && e.kind !in KindsOf(found)
  {
  }
}
