/** What the first answer about a group holds, and what a reader who continues it through
    the message pages gets to see. */
module Bootstrap {
  import opened Nostr
  import opened GroupModel
  import opened Newest
  import opened Sorting
  import opened Paging
  import opened PageWalk

  datatype Summary = Summary(events: seq<Event>, nextBefore: Option<U64>)

  function BootstrapLimit(requested: Option<U64>, recentPerGroup: U64): (limit: nat)
    ensures limit >= 1
    ensures forall n: U64 :: requested == Some(n) && 1 <= n <= recentPerGroup ==> limit == n
    ensures requested.None? || requested.value > recentPerGroup ==> limit == if recentPerGroup == 0 then 1 else recentPerGroup
    ensures requested == Some(0) ==> limit == 1
  {
    var wanted: nat := match requested case None => recentPerGroup case Some(n) => n;
    var capped := if wanted < recentPerGroup then wanted else recentPerGroup;
    if capped < 1 then 1 else capped
  }

  /** The recent events of the entry that a reader is shown first. */
  function Shown(g: Option<GroupState>, r: Reader, recent: seq<Event>, limit: nat): seq<Event> {
    Take(Visible(g, r, recent), limit)
  }

  /** One group's part of the answer: its visible state events and the first of its visible
      recent ones; the cursor is the second of the last of these. */
  method SummarizeGroup(g: Option<GroupState>, r: Reader, states: seq<Event>, recent: seq<Event>, requested: Option<U64>,
                        recentPerGroup: U64) returns (summary: Option<Summary>)
    ensures var shown := Shown(g, r, recent, BootstrapLimit(requested, recentPerGroup));
      && (summary.Some? <==>
            && g.Some?
            && (!g.value.meta.fields.isPrivate || r.pubkey in g.value.members || r.pubkey == r.relay || r.pubkey in r.admins)
            && (Visible(g, r, states) != [] || shown != []))
      && (summary.Some? ==>
            && summary.value.events == Visible(g, r, states) + shown
            && summary.value.nextBefore == if shown == [] then None else Some(Cursor(shown)))
  {
    if !CanReadGroup(g, r) { return None; }
    var events := Visible(g, r, states);
    var first := Take(Visible(g, r, recent), BootstrapLimit(requested, recentPerGroup));
    var nextBefore := if first == [] then None else Some(Cursor(first));
    events := events + first;
    if events == [] { return None; }
    summary := Some(Summary(events, nextBefore));
  }

  // ----- Continuing ---------------------------------------------------------------------

  lemma {:induction false} VisibleSorted(g: Option<GroupState>, r: Reader, events: seq<Event>)
    requires IsSorted(Before, events)
    ensures IsSorted(Before, Visible(g, r, events))
  {
    hide Before, CanSeeEvent;
    if events != [] {
      var n := |events| - 1;
      var v := Visible(g, r, events[..n]);
      VisibleSorted(g, r, events[..n]);
      forall i | 0 <= i < |v| ensures Before(v[i], events[n]) {
        assert v[i] in events[..n];
        var j :| 0 <= j < n && events[..n][j] == v[i];
        assert Before(events[j], events[n]);
      }
    }
  }

  /** A message newer than the cursor is among those shown. */
  lemma NewerIsShown(g: Option<GroupState>, r: Reader, recent: seq<Event>, content: set<Event>, n: nat, limit: nat, e: Event)
    requires CanReadGroup(g, r) && IsNewest(recent, content, n) && e in content && e.kind in MESSAGE_KINDS && limit >= 1
    requires var shown := Shown(g, r, recent, limit); shown != [] && e.createdAt > Cursor(shown)
    ensures e in Shown(g, r, recent, limit)
  {
    hide CanReadGroup, CanSeeEvent;
    var v := Visible(g, r, recent);
    var shown := Shown(g, r, recent, limit);
    var last := shown[|shown| - 1];
    VisibleSorted(g, r, recent);
    MessagesAreShown(g, r, e);
    assert last == v[|shown| - 1] && last in v;
    assert e !in recent ==> Before(last, e);
    assert e in v;
    var i :| 0 <= i < |v| && v[i] == e;
    assert forall j :: |shown| <= j < |v| ==> Before(last, v[j]);
    assert shown[i] == e;
  }

  lemma WalkInside(pages: seq<seq<Event>>, messages: set<Event>, b: U64, limit: nat)
    requires IsWalk(pages, messages, Some(b), limit) && AllPositive(messages)
    ensures IsWalk(pages, Upto(messages, Some(b)), None, limit)
  {
    var inside := Upto(messages, Some(b));
    hide IsNewest;
    forall i | 0 <= i < |pages| - 1
      ensures pages[i] != [] && IsNewest(pages[i + 1], Upto(inside, Some(Cursor(pages[i]))), limit)
    {
      WalkGoesOn(pages, messages, Some(b), limit, i);
      CursorInside(pages, messages, b, limit, i);
      assert Upto(inside, Some(Cursor(pages[i]))) == Upto(messages, Some(Cursor(pages[i])));
    }
  }

  lemma CursorInside(pages: seq<seq<Event>>, messages: set<Event>, b: U64, limit: nat, i: nat)
    requires IsWalk(pages, messages, Some(b), limit) && AllPositive(messages) && i < |pages| && pages[i] != []
    ensures Cursor(pages[i]) <= (if b == 0 then 0 else b - 1)
  {
    hide IsNewest;
    FirstInside(pages, messages, b, limit);
    if i > 0 {
      LaterIsOlder(pages, messages, Some(b), limit, 0, i);
      var e := pages[i][|pages[i]| - 1];
      assert e in pages[i];
      assert pages[0][|pages[0]| - 1] in pages[0];
    }
  }

  lemma FirstInside(pages: seq<seq<Event>>, messages: set<Event>, b: U64, limit: nat)
    requires IsWalk(pages, messages, Some(b), limit)
    ensures forall e :: e in pages[0] ==> e.createdAt <= (if b == 0 then 0 else b - 1)
    ensures pages[0] != [] ==> Cursor(pages[0]) <= (if b == 0 then 0 else b - 1)
  {
    if pages[0] != [] { assert pages[0][|pages[0]| - 1] in pages[0]; }
  }

  lemma UptoKeeps(messages: set<Event>, b: Option<U64>)
    requires AllPositive(messages) && IdsIdentify(messages)
    ensures AllPositive(Upto(messages, b)) && IdsIdentify(Upto(messages, b)) && Upto(messages, b) <= messages
  {
  }

  /** Reading the first answer and then the pages from its cursor gives every message
      exactly when none of the last second shown was left out of the first answer, and no
      page boundary below splits a second. */
  lemma BootstrapIsCompleteIff(g: Option<GroupState>, r: Reader, recent: seq<Event>, content: set<Event>, n: nat, limit: nat,
                               messages: set<Event>, pages: seq<seq<Event>>, s: seq<Event>, pageLimit: nat)
    requires CanReadGroup(g, r) && IsNewest(recent, content, n) && limit >= 1 && pageLimit >= 1
    requires messages == set e | e in content && e.kind in MESSAGE_KINDS
    requires AllPositive(messages) && IdsIdentify(messages) && Shown(g, r, recent, limit) != []
    requires var b := Some(Cursor(Shown(g, r, recent, limit)));
      IsWalk(pages, messages, b, pageLimit) && IsFinished(pages) && IsListing(s, Upto(messages, b))
    ensures var shown := Shown(g, r, recent, limit);
      (forall e :: e in messages ==> e in shown || IsReturned(pages, e)) <==>
      (forall e :: e in messages && e.createdAt == Cursor(shown) ==> e in shown) && (forall m :: !SplitsAt(s, pageLimit, m))
  {
    hide CanReadGroup, Shown, IsWalk, IsFinished, IsListing, SplitsAt, IsNewest, IsReturned;
    var shown := Shown(g, r, recent, limit);
    var b := Cursor(shown);
    var below := Upto(messages, Some(b));
    UptoKeeps(messages, Some(b));
    WalkInside(pages, messages, b, pageLimit);
    WalkIsCompleteIff(pages, s, below, pageLimit);
    forall e | e in messages
      ensures e.createdAt > b ==> e in shown
      ensures e.createdAt == b ==> !IsReturned(pages, e)
      ensures e.createdAt < b <==> e in below
      ensures e.createdAt < b ==> e !in shown
    {
      if e.createdAt > b { NewerIsShown(g, r, recent, content, n, limit, e); }
      if e.createdAt == b { AtCursorIsNotReturned(pages, messages, b, pageLimit, e); }
      if e in shown { ShownIsNoOlder(g, r, recent, content, n, limit, e); }
    }
  }

  lemma AtCursorIsNotReturned(pages: seq<seq<Event>>, messages: set<Event>, b: U64, limit: nat, e: Event)
    requires IsWalk(pages, messages, Some(b), limit) && AllPositive(messages) && e in messages && e.createdAt == b
    ensures !IsReturned(pages, e)
  {
    hide IsWalk;
    forall i | 0 <= i < |pages| ensures e !in pages[i] {
      FirstInside(pages, messages, b, limit);
      if i > 0 { LaterIsOlder(pages, messages, Some(b), limit, 0, i); }
    }
  }

  lemma ShownIsNoOlder(g: Option<GroupState>, r: Reader, recent: seq<Event>, content: set<Event>, n: nat, limit: nat,
                       e: Event)
    requires IsNewest(recent, content, n) && e in Shown(g, r, recent, limit)
    ensures e.createdAt >= Cursor(Shown(g, r, recent, limit))
  {
    hide CanSeeEvent;
    VisibleSorted(g, r, recent);
    var shown := Shown(g, r, recent, limit);
    var i :| 0 <= i < |shown| && shown[i] == e;
    assert i < |shown| - 1 ==> Before(shown[i], shown[|shown| - 1]);
  }
}
