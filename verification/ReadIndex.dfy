/** The read index: per group, the newest state event of each kind and a bounded
    list of recent content, kept up to date event by event. */
module ReadIndex {
  import opened Nostr
  import opened Newest
  import opened Sorting
  import GroupModel
  import Wording

  const INDEXED_KINDS: set<nat> := {9, 11, 7, 5, DELETE_EVENT_9005, CREATE_9007, CREATE_INVITE_9009}

  function Max(a: nat, b: nat): nat {
    if a < b then b else a
  }

  /** At least one event is kept whatever the setting says. */
  function Cap(limit: U64): (cap: nat)
    ensures cap == limit || (limit == 0 && cap == 1)
  {
    Max(limit, 1)
  }

  /** How many stored events a rebuild asks for. */
  function RebuildLimit(limit: U64): (most: nat)
    ensures 1 <= most < U64_SIZE && (limit > 0 && 4 * limit < U64_SIZE ==> most == 4 * limit)
    ensures 4 * limit >= U64_SIZE ==> most == U64_SIZE - 1
  {
    Max(if 4 * limit < U64_SIZE then 4 * limit else U64_SIZE - 1, 1)
  }

  datatype Entry = Entry(state: seq<Event>, recent: seq<Event>, highWater: nat)

  const EMPTY := Entry([], [], 0)

  // ----- Recent content ------------------------------------------------------------

  function WithoutId(s: seq<Event>, id: EventId): (r: seq<Event>)
    ensures forall e :: e in r <==> e in s && e.id != id
  {
    if s == [] then []
    else WithoutId(s[..|s| - 1], id) + (if s[|s| - 1].id != id then [s[|s| - 1]] else [])
  }

  function AddRecent(recent: seq<Event>, e: Event, n: nat): seq<Event> {
    Take(Sort(Before, WithoutId(recent, e.id) + [e]), n)
  }

  lemma {:induction false} WithoutIdDistinct(s: seq<Event>, id: EventId)
    requires IsDistinct(s)
    ensures IsDistinct(WithoutId(s, id))
  {
    if s != [] {
      WithoutIdDistinct(s[..|s| - 1], id);
      WithoutLast(s);
      assert s[|s| - 1] !in s[..|s| - 1];
    }
  }

  /** One more event keeps the list the newest `n`, now of one event more. */
  lemma AddRecentKeepsNewest(recent: seq<Event>, all: set<Event>, e: Event, n: nat)
    requires n >= 1 && IsNewest(recent, all, n) && IdsIdentify(all + {e})
    ensures IsNewest(AddRecent(recent, e, n), all + {e}, n)
  {
    hide Before;
    var found := WithoutId(recent, e.id) + [e];
    WithoutIdDistinct(recent, e.id);
    SortedPrefixIsNewest(found, n);
    forall f | f in Elements(found) ensures f in recent || f == e {}
    forall f | f in recent || f == e ensures f in Elements(found) {}
    AddToNewest(recent, all, e, n, AddRecent(recent, e, n));
  }

  lemma AddToNewest(recent: seq<Event>, all: set<Event>, e: Event, n: nat, r: seq<Event>)
    requires n >= 1 && IsNewest(recent, all, n)
    requires IsNewest(r, Elements(recent) + {e}, n)
    ensures IsNewest(r, all + {e}, n)
  {
    hide Before;
    BeforeIsOrder();
    forall x | x in all + {e} && x !in r ensures |r| == n && forall f :: f in r ==> Before(f, x) {
      if x !in Elements(recent) + {e} {
        DistinctCount(recent);
        DistinctCount(r);
        if |r| < n {
          assert Elements(recent) <= Elements(r);
          Smaller(Elements(recent), Elements(r));
        }
        forall f | f in r ensures Before(f, x) {
          if f !in Elements(recent) {
            var y := SomeLeftOut(recent, e, r);
            assert Before(f, y) && Before(y, x);
          }
        }
      }
    }
  }

  /** When the new event makes it in, an old one may have to go. */
  lemma SomeLeftOut(recent: seq<Event>, e: Event, r: seq<Event>) returns (y: Event)
    requires IsDistinct(recent) && IsDistinct(r) && |r| <= |recent| && e in r && e !in recent
    ensures y in recent && y !in r
  {
    DistinctCount(recent);
    DistinctCount(r);
    if Elements(recent) <= Elements(r) {
      assert Elements(recent) <= Elements(r) - {e};
      Smaller(Elements(recent), Elements(r) - {e});
      assert false;
    }
    y :| y in Elements(recent) && y !in Elements(r);
  }

  function FoldRecent(recent: seq<Event>, es: seq<Event>, n: nat): seq<Event> {
    if es == [] then recent else AddRecent(FoldRecent(recent, es[..|es| - 1], n), es[|es| - 1], n)
  }

  /** The bounded list equals the simple thing: after any events, in any order and
      with repetitions, it is the newest `n` of all of them. */
  lemma {:induction false} FoldKeepsNewest(recent: seq<Event>, all: set<Event>, es: seq<Event>, n: nat)
    requires n >= 1 && IsNewest(recent, all, n) && IdsIdentify(all + Elements(es))
    ensures IsNewest(FoldRecent(recent, es, n), all + Elements(es), n)
  {
    hide IsNewest, AddRecent;
    if es == [] {
      assert all + Elements(es) == all;
    } else {
      var init, e := es[..|es| - 1], es[|es| - 1];
      assert Elements(es) == Elements(init) + {e};
      FoldKeepsNewest(recent, all, init, n);
      AddRecentKeepsNewest(FoldRecent(recent, init, n), all + Elements(init), e, n);
      assert all + Elements(init) + {e} == all + Elements(es);
    }
  }

  // ----- State events -----------------------------------------------------------------

  predicate StateLe(a: Event, b: Event) {
    a.kind < b.kind || (a.kind == b.kind && a.createdAt <= b.createdAt)
  }

  function WithoutKind(s: seq<Event>, kind: nat): (r: seq<Event>)
    ensures forall e :: e in r <==> e in s && e.kind != kind
  {
    if s == [] then []
    else WithoutKind(s[..|s| - 1], kind) + (if s[|s| - 1].kind != kind then [s[|s| - 1]] else [])
  }

  predicate HasNewer(s: seq<Event>, e: Event) {
    exists i :: 0 <= i < |s| && s[i].kind == e.kind && s[i].createdAt > e.createdAt
  }

  function AddState(s: seq<Event>, e: Event): seq<Event> {
    if HasNewer(s, e) then s else Sort(StateLe, WithoutKind(s, e.kind) + [e])
  }

  function FoldState(s: seq<Event>, es: seq<Event>): seq<Event> {
    if es == [] then s else AddState(FoldState(s, es[..|es| - 1]), es[|es| - 1])
  }

  /** One event of each kind: among those applied, a newest one, and of several
      equally new the last that came. */
  predicate IsLatest(e: Event, applied: seq<Event>) {
    exists i :: 0 <= i < |applied| && applied[i] == e && forall j :: 0 <= j < |applied| && applied[j].kind == e.kind ==>
      applied[j].createdAt <= e.createdAt && (j > i ==> applied[j].createdAt < e.createdAt)
  }

  predicate KindsAscend(s: seq<Event>) {
    forall i, j :: 0 <= i < j < |s| ==> s[i].kind < s[j].kind
  }

  predicate IsStateOf(s: seq<Event>, applied: seq<Event>) {
    && KindsAscend(s)
    && (forall e :: e in s ==> IsLatest(e, applied))
    && (forall e :: e in applied ==> exists f :: f in s && f.kind == e.kind)
  }

  lemma StateLeIsOrder()
    ensures IsTotal(StateLe) && IsTransitive(StateLe)
  {
  }

  lemma {:induction false} WithoutKindAscends(s: seq<Event>, kind: nat)
    requires KindsAscend(s)
    ensures KindsAscend(WithoutKind(s, kind))
  {
    if s != [] {
      var n := |s| - 1;
      var r := WithoutKind(s[..n], kind);
      WithoutKindAscends(s[..n], kind);
      forall i | 0 <= i < |r| ensures r[i].kind < s[n].kind {
        var j :| 0 <= j < n && s[..n][j] == r[i];
        assert s[j].kind < s[n].kind;
      }
    }
  }

  lemma SortAscends(s: seq<Event>)
    requires forall i, j :: 0 <= i < j < |s| ==> s[i].kind != s[j].kind
    ensures KindsAscend(Sort(StateLe, s))
  {
    assert IsDistinct(s);
    StateLeIsOrder();
    SortSorted(StateLe, s);
    SortDistinct(StateLe, s);
    hide Sort;
    var r := Sort(StateLe, s);
    forall i, j | 0 <= i < j < |r| ensures r[i].kind < r[j].kind {
      KindsDiffer(s, r[i], r[j]);
      assert StateLe(r[i], r[j]);
    }
  }

  lemma KindsDiffer(s: seq<Event>, a: Event, b: Event)
    requires forall i, j :: 0 <= i < j < |s| ==> s[i].kind != s[j].kind
    requires a in s && b in s && a != b
    ensures a.kind != b.kind
  {
    var x :| 0 <= x < |s| && s[x] == a;
    var y :| 0 <= y < |s| && s[y] == b;
  }

  lemma LatestStays(e: Event, applied: seq<Event>, f: Event)
    requires IsLatest(e, applied) && (f.kind == e.kind ==> f.createdAt < e.createdAt)
    ensures IsLatest(e, applied + [f])
  {
    var i :| 0 <= i < |applied| && applied[i] == e && forall j :: 0 <= j < |applied| && applied[j].kind == e.kind ==>
      applied[j].createdAt <= e.createdAt && (j > i ==> applied[j].createdAt < e.createdAt);
    assert (applied + [f])[i] == e;
  }

  lemma AddStateKeepsLatest(s: seq<Event>, applied: seq<Event>, e: Event)
    requires IsStateOf(s, applied)
    ensures IsStateOf(AddState(s, e), applied + [e])
  {
    hide *;
    if HasNewer(s, e) {
      NewerStays(s, e);
      HeldIsNewer(s, applied, e);
    } else {
      KindsStillAscend(s, applied, e);
      forall f | f in AddState(s, e) ensures IsLatest(f, applied + [e]) { StillLatest(s, applied, e, f); }
      forall x | x in applied + [e] ensures IsHeld(AddState(s, e), x) { StillHeld(s, applied, e, x); }
      StateIf(AddState(s, e), applied + [e]);
    }
  }

  lemma NewerStays(s: seq<Event>, e: Event)
    requires HasNewer(s, e)
    ensures AddState(s, e) == s
  {
  }

  lemma StateIf(s: seq<Event>, applied: seq<Event>)
    requires KindsAscend(s) && (forall e :: e in s ==> IsLatest(e, applied)) && forall e :: e in applied ==> IsHeld(s, e)
    ensures IsStateOf(s, applied)
  {
    hide IsLatest, KindsAscend;
  }

  lemma KindsStillAscend(s: seq<Event>, applied: seq<Event>, e: Event)
    requires IsStateOf(s, applied) && !HasNewer(s, e)
    ensures KindsAscend(AddState(s, e))
  {
    hide IsLatest, StateLe;
    WithoutKindAscends(s, e.kind);
    SortAscends(WithoutKind(s, e.kind) + [e]);
  }

  lemma StillLatest(s: seq<Event>, applied: seq<Event>, e: Event, f: Event)
    requires IsStateOf(s, applied) && !HasNewer(s, e) && f in AddState(s, e)
    ensures IsLatest(f, applied + [e])
  {
    hide IsLatest, StateLe;
    NewcomerIsLatest(s, applied, e);
    if f != e { LatestStays(f, applied, e); }
  }

  predicate IsHeld(r: seq<Event>, x: Event) {
    exists f :: f in r && f.kind == x.kind
  }

  lemma StillHeld(s: seq<Event>, applied: seq<Event>, e: Event, x: Event)
    requires IsStateOf(s, applied) && !HasNewer(s, e) && x in applied + [e]
    ensures IsHeld(AddState(s, e), x)
  {
    hide IsLatest, StateLe;
    var r := AddState(s, e);
    if x.kind == e.kind {
      assert e in r;
    } else {
      var f :| f in s && f.kind == x.kind;
      assert f in r;
    }
  }

  lemma HeldIsNewer(s: seq<Event>, applied: seq<Event>, e: Event)
    requires IsStateOf(s, applied) && HasNewer(s, e)
    ensures IsStateOf(s, applied + [e])
  {
    hide IsLatest;
    var k :| 0 <= k < |s| && s[k].kind == e.kind && s[k].createdAt > e.createdAt;
    forall f | f in s ensures IsLatest(f, applied + [e]) {
      var j :| 0 <= j < |s| && s[j] == f;
      assert f.kind == e.kind ==> j == k;
      LatestStays(f, applied, e);
    }
    assert s[k] in s;
  }

  lemma NewcomerIsLatest(s: seq<Event>, applied: seq<Event>, e: Event)
    requires IsStateOf(s, applied) && !HasNewer(s, e)
    ensures IsLatest(e, applied + [e])
  {
    forall j | 0 <= j < |applied| && applied[j].kind == e.kind ensures applied[j].createdAt <= e.createdAt {
      assert applied[j] in applied;
      var f :| f in s && f.kind == applied[j].kind;
      var k :| 0 <= k < |s| && s[k] == f;
    }
    assert (applied + [e])[|applied|] == e;
  }

  /** After any state events in any order: one per kind, ascending by kind, each the
      newest of its kind. */
  lemma {:induction false} FoldKeepsLatest(applied: seq<Event>)
    ensures IsStateOf(FoldState([], applied), applied)
  {
    hide AddState, IsStateOf;
    if applied == [] {
      assert IsStateOf([], []) by { NothingHeld(); }
    } else {
      var n := |applied| - 1;
      FoldKeepsLatest(applied[..n]);
      AddStateKeepsLatest(FoldState([], applied[..n]), applied[..n], applied[n]);
      assert applied[..n] + [applied[n]] == applied;
    }
  }

  lemma NothingHeld()
    ensures IsStateOf([], [])
  {
  }

  // ----- The entry of one group --------------------------------------------------------

  function ApplyState(x: Entry, e: Event): Entry {
    Entry(AddState(x.state, e), x.recent, Max(x.highWater, e.createdAt))
  }

  function ApplyRecent(x: Entry, e: Event, limit: U64): Entry {
    Entry(x.state, AddRecent(x.recent, e, Cap(limit)), Max(x.highWater, e.createdAt))
  }

  /** What a rebuild makes of the two queries' answers. */
  function Load(states: seq<Event>, content: seq<Event>, limit: U64): Entry {
    Entry(FoldState([], states), FoldRecent([], content, Cap(limit)), MaxSecs(states + content))
  }

  function MaxSecs(es: seq<Event>): nat {
    if es == [] then 0 else Max(MaxSecs(es[..|es| - 1]), es[|es| - 1].createdAt)
  }

  lemma {:induction false} MaxSecsMeans(es: seq<Event>)
    ensures forall e :: e in es ==> e.createdAt <= MaxSecs(es)
    ensures es != [] ==> exists e :: e in es && e.createdAt == MaxSecs(es)
  {
    if es != [] {
      var n := |es| - 1;
      MaxSecsMeans(es[..n]);
      forall e | e in es ensures e.createdAt <= MaxSecs(es) {
        if e != es[n] { assert e in es[..n]; }
      }
      if MaxSecs(es) == es[n].createdAt {
        assert es[n] in es;
      } else {
        var e :| e in es[..n] && e.createdAt == MaxSecs(es[..n]);
        assert e in es;
      }
    }
  }

  class IndexedGroup {
    var stateEvents: seq<Event>
    var recentEvents: seq<Event>
    var highWater: nat

    function View(): Entry
      reads this
    {
      Entry(stateEvents, recentEvents, highWater)
    }

    constructor ()
      ensures View() == EMPTY
    {
      stateEvents, recentEvents, highWater := [], [], 0;
    }

    method ApplyStateEvent(e: Event)
      modifies this
      ensures View() == ApplyState(old(View()), e)
    {
      highWater := Max(highWater, e.createdAt);
      if HasNewer(stateEvents, e) { return; }
      stateEvents := WithoutKind(stateEvents, e.kind);
      stateEvents := stateEvents + [e];
      stateEvents := Sort(StateLe, stateEvents);
    }

    method ApplyRecentEvent(e: Event, limit: U64)
      modifies this
      ensures View() == ApplyRecent(old(View()), e, limit)
    {
      highWater := Max(highWater, e.createdAt);
      recentEvents := WithoutId(recentEvents, e.id);
      recentEvents := recentEvents + [e];
      recentEvents := Sort(Before, recentEvents);
      recentEvents := Take(recentEvents, Cap(limit));
    }

    static method LoadGroup(states: seq<Event>, content: seq<Event>, limit: U64) returns (x: IndexedGroup)
      ensures fresh(x) && x.View() == Load(states, content, limit)
    {
      hide FoldState, FoldRecent, MaxSecs, AddState, AddRecent, Max, Cap;
      FoldNothing();
      x := new IndexedGroup();
      for i := 0 to |states|
        invariant x.View() == Entry(FoldState([], states[..i]), [], MaxSecs(states[..i]))
      {
        FoldOneMore(states, [], i, limit);
        x.ApplyStateEvent(states[i]);
      }
      assert states[..|states|] == states == states + content[..0];
      for i := 0 to |content|
        invariant x.View() ==
          Entry(FoldState([], states), FoldRecent([], content[..i], Cap(limit)), MaxSecs(states + content[..i]))
      {
        FoldOneMore(content, states, i, limit);
        x.ApplyRecentEvent(content[i], limit);
      }
      assert content[..|content|] == content;
    }
  }

  lemma FoldNothing()
    ensures FoldState([], []) == [] && MaxSecs([]) == 0 && forall n :: FoldRecent([], [], n) == []
  {
  }

  lemma FoldOneMore(es: seq<Event>, before: seq<Event>, i: nat, limit: U64)
    requires i < |es|
    ensures FoldState([], es[..i + 1]) == AddState(FoldState([], es[..i]), es[i])
    ensures FoldRecent([], es[..i + 1], Cap(limit)) == AddRecent(FoldRecent([], es[..i], Cap(limit)), es[i], Cap(limit))
    ensures MaxSecs(before + es[..i + 1]) == Max(MaxSecs(before + es[..i]), es[i].createdAt)
    ensures before == [] ==> MaxSecs(es[..i + 1]) == Max(MaxSecs(es[..i]), es[i].createdAt)
  {
    hide AddState, AddRecent, Cap;
    assert es[..i + 1][..i] == es[..i];
    assert (before + es[..i + 1])[..|before| + i] == before + es[..i];
  }

  // ----- The entries of all groups -------------------------------------------------------

  type Entries = map<(GroupModel.Scope, string), Entry>

  function EntryOf(entries: Entries, key: (GroupModel.Scope, string)): Entry {
    if key in entries then entries[key] else EMPTY
  }

  /** Where a saved event goes: to the entry of the group it names, made if need be. */
  function Route(entries: Entries, scope: GroupModel.Scope, e: Event, limit: U64): Entries {
    match GroupIdOf(e)
    case None => entries
    case Some(id) =>
      if IsStateKind(e.kind) then entries[(scope, id) := ApplyState(EntryOf(entries, (scope, id)), e)]
      else if e.kind in INDEXED_KINDS then entries[(scope, id) := ApplyRecent(EntryOf(entries, (scope, id)), e, limit)]
      else entries
  }

  /** A saved state event goes to the entry of the group its first `d` names; a message,
      reaction, deletion, creation or invite to that of its first `h`; nothing else goes
      anywhere. */
  lemma RouteMeans(entries: Entries, scope: GroupModel.Scope, e: Event, limit: U64, name: string)
    ensures e.kind in {39000, 39001, 39002, 39003} && Wording.Says(e.tags, D, name) ==>
      Route(entries, scope, e, limit) == entries[(scope, name) := ApplyState(EntryOf(entries, (scope, name)), e)]
    ensures e.kind in {5, 7, 9, 11, 9005, 9007, 9009} && Wording.Says(e.tags, H, name) ==>
      Route(entries, scope, e, limit) == entries[(scope, name) := ApplyRecent(EntryOf(entries, (scope, name)), e, limit)]
    ensures e.kind !in {5, 7, 9, 11, 9005, 9007, 9009, 39000, 39001, 39002, 39003} ==>
      Route(entries, scope, e, limit) == entries
    ensures (forall n :: !Wording.Says(e.tags, D, n) && !Wording.Says(e.tags, H, n)) ==>
      Route(entries, scope, e, limit) == entries
  {
    hide ApplyState, ApplyRecent, EntryOf, Wording.Says;
    Wording.SaysIff(e.tags, D);
    Wording.SaysIff(e.tags, H);
  }

  class ObeliskIndex {
    var entries: map<(GroupModel.Scope, string), IndexedGroup>

    ghost predicate Valid()
      reads this
    {
      forall k, l :: k in entries && l in entries && k != l ==> entries[k] != entries[l]
    }

    ghost function View(): Entries
      reads this, entries.Values
    {
      map key | key in entries :: entries[key].View()
    }

    constructor ()
      ensures Valid() && View() == map[]
    {
      entries := map[];
    }

    method EntryOrDefault(key: (GroupModel.Scope, string)) returns (x: IndexedGroup)
      requires Valid()
      modifies this`entries
      ensures Valid() && key in entries && entries[key] == x && x.View() == EntryOf(old(View()), key)
      ensures View() == old(View())[key := EntryOf(old(View()), key)]
      ensures x in old(entries.Values) || fresh(x)
      ensures fresh(entries.Values - old(entries.Values))
    {
      hide IndexedGroup.View;
      if key !in entries {
        x := new IndexedGroup();
        entries := entries[key := x];
      } else {
        x := entries[key];
      }
    }

    method ApplySavedEvent(scope: GroupModel.Scope, e: Event, limit: U64)
      requires Valid()
      modifies this, entries.Values
      ensures Valid() && View() == Route(old(View()), scope, e, limit)
      ensures fresh(entries.Values - old(entries.Values))
    {
      hide ApplyState, ApplyRecent, IndexedGroup.View, GroupIdOf, IsStateKind, EntryOf;
      var id := GroupIdOf(e);
      if id.None? || !(IsStateKind(e.kind) || e.kind in INDEXED_KINDS) { return; }
      var key := (scope, id.value);
      var x := EntryOrDefault(key);
      Apply(key, x, e, limit);
    }

    method Apply(key: (GroupModel.Scope, string), x: IndexedGroup, e: Event, limit: U64)
      requires Valid() && key in entries && entries[key] == x
      modifies x
      ensures Valid() && entries == old(entries)
      ensures View() == old(View())[key :=
        if IsStateKind(e.kind) then ApplyState(old(x.View()), e) else ApplyRecent(old(x.View()), e, limit)]
    {
      hide ApplyState, ApplyRecent, IndexedGroup.View, IsStateKind;
      if IsStateKind(e.kind) {
        x.ApplyStateEvent(e);
      } else {
        x.ApplyRecentEvent(e, limit);
      }
    }
  }

  // ----- Ranks ---------------------------------------------------------------------------

  /** The events of a set that stand before one of them. */
  function Newer(all: set<Event>, e: Event): set<Event> {
    set f | f in all && f != e && Before(f, e)
  }

  lemma PrefixIsNewer(r: seq<Event>, all: set<Event>, n: nat, i: nat)
    requires IdsIdentify(all) && IsNewest(r, all, n) && i < |r|
    ensures Newer(all, r[i]) == Elements(r[..i])
  {
    hide Before;
    forall f | f in Newer(all, r[i]) ensures f in r[..i] {
      assert r[i] in r;
      if f !in r { BeforeEachOther(all, r[i], f); }
      var j :| 0 <= j < |r| && r[j] == f;
      if j > i { BeforeEachOther(all, r[i], f); }
      assert r[..i][j] == f;
    }
    forall f | f in r[..i] ensures f in Newer(all, r[i]) {
      var j :| 0 <= j < i && r[..i][j] == f;
      assert r[j] == f && f in r;
    }
  }

  /** An event is among the newest `n` exactly when fewer than `n` stand before it. */
  lemma NewestByRank(r: seq<Event>, all: set<Event>, n: nat, e: Event)
    requires IdsIdentify(all) && IsNewest(r, all, n) && e in all
    ensures e in r <==> |Newer(all, e)| < n
  {
    hide Before;
    if e in r {
      var i :| 0 <= i < |r| && r[i] == e;
      PrefixIsNewer(r, all, n, i);
      assert IsDistinct(r[..i]);
      DistinctCount(r[..i]);
    } else {
      DistinctCount(r);
      assert Elements(r) <= Newer(all, e);
      Smaller(Elements(r), Newer(all, e));
    }
  }

  lemma Overlap(r: seq<Event>, known: set<Event>, t: seq<Event>, stored: set<Event>, n: nat, e: Event)
    requires IdsIdentify(known + stored) && IsNewest(r, known, n) && IsNewest(t, stored, n)
    requires Elements(t) <= known && Elements(r) <= stored && e in t
    ensures e in r
  {
    hide Before;
    if e !in r {
      DistinctCount(r);
      DistinctCount(t);
      assert e in Elements(t);
      if Elements(r) <= Elements(t) {
        assert Elements(r) <= Elements(t) - {e};
        Smaller(Elements(r), Elements(t) - {e});
        assert false;
      }
      var f :| f in Elements(r) && f !in Elements(t);
      BeforeEachOther(known + stored, e, f);
    }
  }

  /** Two newest lists are the same exactly when each is drawn from the other's set. */
  lemma SameNewestIff(r: seq<Event>, known: set<Event>, t: seq<Event>, stored: set<Event>, n: nat)
    requires IdsIdentify(known + stored) && IsNewest(r, known, n) && IsNewest(t, stored, n)
    ensures r == t <==> Elements(t) <= known && Elements(r) <= stored
  {
    hide Before;
    if Elements(t) <= known && Elements(r) <= stored {
      forall e | e in t ensures e in r { Overlap(r, known, t, stored, n, e); }
      forall e | e in r ensures e in t {
        assert stored + known == known + stored;
        Overlap(t, stored, r, known, n, e);
      }
      SortedIsUnique(r, t, known + stored);
    }
  }

  // ----- The index while the relay runs --------------------------------------------------

  /** One group's entry; the indexed content of the group that is stored; what of it the
      entry has been told, by the last rebuild or since; and the state events and all
      events it has been told. */
  datatype Live = Live(entry: Entry, stored: set<Event>, known: set<Event>, states: seq<Event>, seen: seq<Event>)

  const UNUSED := Live(EMPTY, {}, {}, [], [])

  /** `StoreOnly` is content stored without a word to the index: before the group was
      managed, or under the name of another group. */
  datatype Op =
    | SaveState(e: Event)
    | SaveContent(e: Event)
    | StoreOnly(e: Event)
    | DeleteContent(gone: set<Event>)
    | RebuildFrom(states: seq<Event>, content: seq<Event>)

  function StepLive(x: Live, op: Op, limit: U64): Live {
    match op
    case SaveState(e) => x.(entry := ApplyState(x.entry, e), states := x.states + [e], seen := x.seen + [e])
    case SaveContent(e) =>
      x.(entry := ApplyRecent(x.entry, e, limit), stored := x.stored + {e}, known := x.known + {e}, seen := x.seen + [e])
    case StoreOnly(e) => x.(stored := x.stored + {e})
    case DeleteContent(gone) => x.(stored := x.stored - gone)
    case RebuildFrom(states, content) =>
      Live(Load(states, content, limit), x.stored, Elements(content), states, states + content)
  }

  /** A rebuild is given the newest stored content, in whatever order. */
  ghost predicate MayHappen(x: Live, op: Op, limit: U64) {
    match op
    case RebuildFrom(_, content) =>
      exists q :: IsNewest(q, x.stored, RebuildLimit(limit)) && Elements(content) == Elements(q)
    case _ => true
  }

  ghost predicate IsLiveRun(xs: seq<Live>, ops: seq<Op>, limit: U64) {
    && |xs| == |ops| + 1 && xs[0] == UNUSED
    && forall n :: 0 <= n < |ops| ==> MayHappen(xs[n], ops[n], limit) && xs[n + 1] == StepLive(xs[n], ops[n], limit)
  }

  predicate KeepsIds(all: set<Event>, op: Op) {
    op.SaveContent? || op.StoreOnly? ==> op.e in all
  }

  /** The entry is true to what it has been told. */
  predicate Agrees(x: Live, limit: U64) {
    && IsNewest(x.entry.recent, x.known, Cap(limit))
    && IsStateOf(x.entry.state, x.states)
    && x.entry.highWater == MaxSecs(x.seen)
    && (forall e :: e in x.states ==> e in x.seen)
    && (forall e :: e in x.entry.recent ==> e in x.seen)
  }

  predicate Among(x: Live, all: set<Event>) {
    x.stored <= all && x.known <= all
  }

  /** A rebuild asks for enough: what it folds is the newest of all that is stored. */
  lemma RebuildSeesEnough(stored: set<Event>, q: seq<Event>, content: seq<Event>, limit: U64)
    requires IdsIdentify(stored) && IsNewest(q, stored, RebuildLimit(limit)) && Elements(content) == Elements(q)
    ensures IsNewest(FoldRecent([], content, Cap(limit)), Elements(content), Cap(limit))
    ensures IsNewest(FoldRecent([], content, Cap(limit)), stored, Cap(limit))
  {
    hide AddRecent, FoldRecent;
    assert Elements(q) <= stored;
    assert {} + Elements(content) == Elements(q);
    SubsetIds(stored, Elements(q));
    FoldKeepsNewest([], {}, content, Cap(limit));
    NewestOfNewest(FoldRecent([], content, Cap(limit)), q, stored, Cap(limit), RebuildLimit(limit));
  }

  lemma {:induction false} FoldHolds(es: seq<Event>, n: nat)
    ensures forall e :: e in FoldRecent([], es, n) ==> e in es
  {
    if es != [] {
      var init := es[..|es| - 1];
      FoldHolds(init, n);
      hide FoldRecent, Sort;
      assert FoldRecent([], es, n) == AddRecent(FoldRecent([], init, n), es[|es| - 1], n) by { FoldSnoc(es, n); }
      forall e | e in FoldRecent([], es, n) ensures e in es {
        assert e in FoldRecent([], init, n) || e == es[|es| - 1];
      }
    }
  }

  lemma FoldSnoc(es: seq<Event>, n: nat)
    requires es != []
    ensures FoldRecent([], es, n) == AddRecent(FoldRecent([], es[..|es| - 1], n), es[|es| - 1], n)
  {
  }

  lemma MaxSecsSnoc(es: seq<Event>, e: Event)
    ensures MaxSecs(es + [e]) == Max(MaxSecs(es), e.createdAt)
  {
    assert (es + [e])[..|es|] == es;
  }

  lemma StepKeepsAgreement(x: Live, op: Op, limit: U64, all: set<Event>)
    requires Agrees(x, limit) && Among(x, all) && IdsIdentify(all) && KeepsIds(all, op) && MayHappen(x, op, limit)
    ensures Agrees(StepLive(x, op, limit), limit) && Among(StepLive(x, op, limit), all)
  {
    hide IsNewest, IsStateOf, AddState, MaxSecs, FoldRecent, FoldState;
    match op
    case SaveState(e) =>
      AddStateKeepsLatest(x.entry.state, x.states, e);
      MaxSecsSnoc(x.seen, e);
    case SaveContent(e) =>
      MaxSecsSnoc(x.seen, e);
      SubsetIds(all, x.known + {e});
      AddRecentKeepsNewest(x.entry.recent, x.known, e, Cap(limit));
    case StoreOnly(_) =>
    case DeleteContent(_) =>
    case RebuildFrom(states, content) =>
      var q :| IsNewest(q, x.stored, RebuildLimit(limit)) && Elements(content) == Elements(q);
      NewestAreIn(q, x.stored, RebuildLimit(limit));
      SubsetIds(all, x.stored);
      RebuildSeesEnough(x.stored, q, content, limit);
      FoldKeepsLatest(states);
      FoldHolds(content, Cap(limit));
  }

  lemma NewestAreIn(r: seq<Event>, all: set<Event>, n: nat)
    requires IsNewest(r, all, n)
    ensures Elements(r) <= all
  {
  }

  lemma {:induction false} RunKeepsAgreement(xs: seq<Live>, ops: seq<Op>, limit: U64, all: set<Event>)
    requires IsLiveRun(xs, ops, limit)
    requires IdsIdentify(all) && forall n :: 0 <= n < |ops| ==> KeepsIds(all, ops[n])
    ensures Agrees(xs[|ops|], limit) && Among(xs[|ops|], all)
  {
    if ops == [] {
      NothingHeld();
    } else {
      hide StepLive, Agrees, MayHappen, IdsIdentify;
      var n := |ops| - 1;
      assert IsLiveRun(xs[..n + 1], ops[..n], limit);
      RunKeepsAgreement(xs[..n + 1], ops[..n], limit, all);
      StepKeepsAgreement(xs[n], ops[n], limit, all);
    }
  }

  /** The stored events that count have all been told to the entry, and those of the
      told ones that count are still stored: an event counts as long as fewer than the
      cap of its set stand before it. */
  predicate IsCovered(x: Live, limit: U64) {
    && (forall e :: e in x.stored && |Newer(x.stored, e)| < Cap(limit) ==> e in x.known)
    && (forall e :: e in x.known && |Newer(x.known, e)| < Cap(limit) ==> e in x.stored)
  }

  lemma NewestInside(r: seq<Event>, all: set<Event>, n: nat, other: set<Event>)
    requires IdsIdentify(all) && IsNewest(r, all, n)
    ensures Elements(r) <= other <==> forall e :: e in all && |Newer(all, e)| < n ==> e in other
  {
    forall e | e in all ensures e in Elements(r) <==> |Newer(all, e)| < n {
      NewestByRank(r, all, n, e);
    }
    hide Newer;
    NewestAreIn(r, all, n);
    if !(Elements(r) <= other) {
      var e :| e in Elements(r) && e !in other;
      assert e in all && |Newer(all, e)| < n;
    }
  }

  /** The list kept event by event is what a rebuild at that moment would make, whatever
      came before, exactly when the store and what the index has been told cover each
      other. */
  lemma LiveEqualsRebuildIff(xs: seq<Live>, ops: seq<Op>, limit: U64, all: set<Event>, states: seq<Event>,
                             content: seq<Event>)
    requires IsLiveRun(xs, ops, limit)
    requires IdsIdentify(all) && forall n :: 0 <= n < |ops| ==> KeepsIds(all, ops[n])
    requires MayHappen(xs[|ops|], RebuildFrom(states, content), limit)
    ensures xs[|ops|].entry.recent == Load(states, content, limit).recent <==> IsCovered(xs[|ops|], limit)
  {
    hide IsNewest, FoldRecent, IsStateOf, Newer;
    RunKeepsAgreement(xs, ops, limit, all);
    var x := xs[|ops|];
    hide IsLiveRun;
    var q :| IsNewest(q, x.stored, RebuildLimit(limit)) && Elements(content) == Elements(q);
    SubsetIds(all, x.stored);
    SubsetIds(all, x.known);
    SubsetIds(all, x.known + x.stored);
    RebuildSeesEnough(x.stored, q, content, limit);
    var t := FoldRecent([], content, Cap(limit));
    SameNewestIff(x.entry.recent, x.known, t, x.stored, Cap(limit));
    NewestInside(t, x.stored, Cap(limit), x.known);
    NewestInside(x.entry.recent, x.known, Cap(limit), x.stored);
  }

  predicate IsPlainOp(op: Op) {
    !op.StoreOnly? && !op.DeleteContent?
  }

  /** `m` operations in, the index had just been rebuilt or nothing had happened, and
      since then nothing has been deleted or stored without telling it. */
  predicate IsPlainSince(ops: seq<Op>, m: nat) {
    && m <= |ops| && (m > 0 ==> ops[m - 1].RebuildFrom?)
    && forall n :: m <= n < |ops| ==> IsPlainOp(ops[n])
  }

  lemma PlainStepKeepsNewest(x: Live, op: Op, limit: U64, all: set<Event>)
    requires Among(x, all) && IdsIdentify(all) && KeepsIds(all, op) && MayHappen(x, op, limit)
    requires op.RebuildFrom? || (IsPlainOp(op) && IsNewest(x.entry.recent, x.stored, Cap(limit)))
    ensures var y := StepLive(x, op, limit); IsNewest(y.entry.recent, y.stored, Cap(limit))
  {
    hide IsNewest, AddState, MaxSecs, FoldRecent, FoldState;
    match op
    case SaveState(_) =>
    case SaveContent(e) =>
      SubsetIds(all, x.stored + {e});
      AddRecentKeepsNewest(x.entry.recent, x.stored, e, Cap(limit));
    case RebuildFrom(_, content) =>
      var q :| IsNewest(q, x.stored, RebuildLimit(limit)) && Elements(content) == Elements(q);
      SubsetIds(all, x.stored);
      RebuildSeesEnough(x.stored, q, content, limit);
    case _ =>
  }

  lemma {:induction false} PlainRunKeepsNewest(xs: seq<Live>, ops: seq<Op>, limit: U64, all: set<Event>, m: nat)
    requires IsLiveRun(xs, ops, limit) && IsPlainSince(ops, m)
    requires IdsIdentify(all) && forall n :: 0 <= n < |ops| ==> KeepsIds(all, ops[n])
    ensures var x := xs[|ops|]; IsNewest(x.entry.recent, x.stored, Cap(limit))
  {
    if ops != [] {
      hide StepLive, MayHappen, IdsIdentify, IsNewest, Among, Agrees;
      var n := |ops| - 1;
      assert IsLiveRun(xs[..n + 1], ops[..n], limit);
      RunKeepsAgreement(xs[..n + 1], ops[..n], limit, all);
      if m <= n { PlainRunKeepsNewest(xs[..n + 1], ops[..n], limit, all, m); }
      PlainStepKeepsNewest(xs[n], ops[n], limit, all);
    }
  }

  /** In particular whenever, since the last rebuild, nothing was deleted and nothing
      stored without telling the index. */
  lemma LiveEqualsRebuild(xs: seq<Live>, ops: seq<Op>, limit: U64, all: set<Event>, m: nat, states: seq<Event>,
                          content: seq<Event>)
    requires IsLiveRun(xs, ops, limit) && IsPlainSince(ops, m)
    requires IdsIdentify(all) && forall n :: 0 <= n < |ops| ==> KeepsIds(all, ops[n])
    requires MayHappen(xs[|ops|], RebuildFrom(states, content), limit)
    ensures xs[|ops|].entry.recent == Load(states, content, limit).recent
  {
    hide IsNewest, FoldRecent, IsStateOf, Agrees;
    RunKeepsAgreement(xs, ops, limit, all);
    PlainRunKeepsNewest(xs, ops, limit, all, m);
    var x := xs[|ops|];
    var q :| IsNewest(q, x.stored, RebuildLimit(limit)) && Elements(content) == Elements(q);
    SubsetIds(all, x.stored);
    RebuildSeesEnough(x.stored, q, content, limit);
    NewestIsUnique(x.entry.recent, FoldRecent([], content, Cap(limit)), x.stored, Cap(limit));
  }

  /** The input that shows it: a message stored before its group was managed, and then
      the 9007 that the relay makes the group with.  The list holds the 9007 alone; a
      rebuild finds both. */
  lemma UnindexedIsMissed(message: Event, creation: Event, limit: U64, states: seq<Event>, content: seq<Event>)
    requires message.id != creation.id && limit >= 2
    requires var x := StepLive(StepLive(UNUSED, StoreOnly(message), limit), SaveContent(creation), limit);
      MayHappen(x, RebuildFrom(states, content), limit)
    ensures var x := StepLive(StepLive(UNUSED, StoreOnly(message), limit), SaveContent(creation), limit);
      && x.entry.recent == [creation] && message in x.stored
      && message in Load(states, content, limit).recent && !IsCovered(x, limit)
  {
    hide FoldRecent, Before;
    var x := StepLive(StepLive(UNUSED, StoreOnly(message), limit), SaveContent(creation), limit);
    OnlyOne(creation, Cap(limit));
    assert x.stored == {message, creation} && x.known == {creation};
    var q :| IsNewest(q, x.stored, RebuildLimit(limit)) && Elements(content) == Elements(q);
    RebuildSeesEnough(x.stored, q, content, limit);
    assert Newer(x.stored, message) <= {creation};
    Smaller(Newer(x.stored, message), {creation});
    NewestByRank(FoldRecent([], content, Cap(limit)), x.stored, Cap(limit), message);
  }

  lemma OnlyOne(e: Event, n: nat)
    requires n >= 1
    ensures AddRecent([], e, n) == [e]
  {
    assert [] + [e] == [e] && [e][..0] == [];
    assert Sort(Before, [e]) == [e];
  }

  /** An event with two `h` tags is indexed under the first name alone, though a rebuild
      finds it under both. */
  lemma SecondNameIsNotIndexed(entries: Entries, scope: GroupModel.Scope, e: Event, a: string, b: string, limit: U64)
    requires e.kind in INDEXED_KINDS && e.tags == [Tag(H, [a]), Tag(H, [b])] && a != b
    ensures EntryOf(Route(entries, scope, e, limit), (scope, b)) == EntryOf(entries, (scope, b))
    ensures exists t :: t in e.tags && t.kind == H && t.Content() == Some(b)
  {
    hide ApplyRecent;
    assert e.tags[0] == Tag(H, [a]) && e.tags[1] == Tag(H, [b]) && e.tags[1] in e.tags && [a][0] == a && [b][0] == b;
    assert GroupIdOf(e) == Some(a);
  }

  // ----- State events, kept and rebuilt ---------------------------------------------------

  /** For every event of `a`, `b` has one of its kind that is no older. */
  predicate IsMatchedBy(a: seq<Event>, b: seq<Event>) {
    forall e :: e in a ==> exists f :: f in b && f.kind == e.kind && f.createdAt >= e.createdAt
  }

  ghost predicate SecondsIdentify(a: seq<Event>, b: seq<Event>) {
    forall e, f :: (e in a || e in b) && (f in a || f in b) && e.kind == f.kind && e.createdAt == f.createdAt ==> e == f
  }

  lemma LatestMeans(e: Event, applied: seq<Event>)
    requires IsLatest(e, applied)
    ensures e in applied && forall f :: f in applied && f.kind == e.kind ==> f.createdAt <= e.createdAt
  {
  }

  lemma MatchOf(a: seq<Event>, b: seq<Event>, e: Event) returns (f: Event)
    requires IsMatchedBy(a, b) && e in a
    ensures f in b && f.kind == e.kind && f.createdAt >= e.createdAt
  {
    f :| f in b && f.kind == e.kind && f.createdAt >= e.createdAt;
  }

  lemma HeldOf(s: seq<Event>, a: seq<Event>, e: Event) returns (f: Event)
    requires IsStateOf(s, a) && e in a
    ensures f in s && f in a && f.kind == e.kind && f.createdAt >= e.createdAt
  {
    hide IsLatest, KindsAscend;
    f :| f in s && f.kind == e.kind;
    LatestMeans(f, a);
  }

  lemma HeldIsNewest(s: seq<Event>, a: seq<Event>, e: Event, f: Event)
    requires IsStateOf(s, a) && e in s && f in a && f.kind == e.kind
    ensures e in a && f.createdAt <= e.createdAt
  {
    hide IsLatest, KindsAscend;
    LatestMeans(e, a);
  }

  lemma StateIn(s: seq<Event>, a: seq<Event>, t: seq<Event>, b: seq<Event>, e: Event)
    requires IsStateOf(s, a) && IsStateOf(t, b) && SecondsIdentify(a, b) && IsMatchedBy(a, b) && IsMatchedBy(b, a) && e in s
    ensures e in t
  {
    hide IsMatchedBy, IsStateOf;
    HeldIsIn(s, a, e);
    var f := MatchOf(a, b, e);
    var g := HeldOf(t, b, f);
    var h := MatchOf(b, a, g);
    HeldIsNewest(s, a, e, h);
    assert e == g;
  }

  lemma NoElements<X>(s: seq<X>)
    ensures Elements(s) == {} <==> s == []
  {
    if s != [] { assert s[0] in Elements(s); }
  }

  lemma {:induction false} AscendingIsUnique(s: seq<Event>, t: seq<Event>)
    requires KindsAscend(s) && KindsAscend(t) && Elements(s) == Elements(t)
    ensures s == t
  {
    NoElements(s);
    NoElements(t);
    if s != [] {
      var m, n := |s| - 1, |t| - 1;
      assert s[m] in Elements(t) && t[n] in Elements(s);
      var i :| 0 <= i < |t| && t[i] == s[m];
      var j :| 0 <= j < |s| && s[j] == t[n];
      assert s[m] == t[n];
      AscendingIsDistinct(s);
      AscendingIsDistinct(t);
      WithoutLast(s);
      WithoutLast(t);
      AscendingIsUnique(s[..m], t[..n]);
    }
  }

  lemma AscendingIsDistinct(s: seq<Event>)
    requires KindsAscend(s)
    ensures IsDistinct(s)
  {
    forall i, j | 0 <= i < j < |s| ensures s[i] != s[j] { assert s[i].kind < s[j].kind; }
  }

  /** Where seconds tell the events of one kind apart, two histories leave the same state
      events exactly when neither has anything newer of some kind. */
  lemma SameStateIff(s: seq<Event>, a: seq<Event>, t: seq<Event>, b: seq<Event>)
    requires IsStateOf(s, a) && IsStateOf(t, b) && SecondsIdentify(a, b)
    ensures s == t <==> IsMatchedBy(a, b) && IsMatchedBy(b, a)
  {
    hide IsLatest, KindsAscend;
    if IsMatchedBy(a, b) && IsMatchedBy(b, a) {
      forall e | e in s ensures e in t { StateIn(s, a, t, b, e); }
      forall e | e in t ensures e in s { StateIn(t, b, s, a, e); }
      assert Elements(s) == Elements(t);
      AscendingIsUnique(s, t);
    } else if s == t {
      HeldMatches(s, a, b);
      HeldMatches(s, b, a);
      assert false;
    }
  }

  lemma HeldMatches(s: seq<Event>, a: seq<Event>, b: seq<Event>)
    requires IsStateOf(s, a) && IsStateOf(s, b)
    ensures IsMatchedBy(a, b)
  {
    hide IsStateOf;
    forall e | e in a ensures exists f :: f in b && f.kind == e.kind && f.createdAt >= e.createdAt {
      var f := HeldOf(s, a, e);
      HeldIsIn(s, b, f);
    }
  }

  lemma HeldIsIn(s: seq<Event>, b: seq<Event>, f: Event)
    requires IsStateOf(s, b) && f in s
    ensures f in b
  {
    hide IsLatest, KindsAscend;
    LatestMeans(f, b);
  }

  /** So the state events kept are those a rebuild would keep exactly when the store has
      for every kind one as new as any applied, and none newer. */
  lemma LiveStatesEqualRebuildIff(xs: seq<Live>, ops: seq<Op>, limit: U64, all: set<Event>, states: seq<Event>,
                                  content: seq<Event>)
    requires IsLiveRun(xs, ops, limit)
    requires IdsIdentify(all) && forall n :: 0 <= n < |ops| ==> KeepsIds(all, ops[n])
    requires SecondsIdentify(xs[|ops|].states, states)
    ensures xs[|ops|].entry.state == Load(states, content, limit).state <==>
      IsMatchedBy(xs[|ops|].states, states) && IsMatchedBy(states, xs[|ops|].states)
  {
    hide IsNewest, FoldRecent, FoldState, IsStateOf, SecondsIdentify, IsMatchedBy;
    RunKeepsAgreement(xs, ops, limit, all);
    var x := xs[|ops|];
    FoldKeepsLatest(states);
    SameStateIff(x.entry.state, x.states, FoldState([], states), states);
  }

  /** Without that the order decides: of two in the same second the last told is kept. */
  lemma SameSecondKeepsLast(a: Event, b: Event)
    requires a.kind == b.kind && a.createdAt == b.createdAt
    ensures FoldState([], [a, b]) == [b]
  {
    hide AddState;
    assert [a, b][..1] == [a] && [a][..0] == [];
    assert FoldState([], [a]) == AddState([], a);
    AloneOfItsKind([], a);
    AloneOfItsKind([a], b);
  }

  lemma AloneOfItsKind(s: seq<Event>, e: Event)
    requires s == [] || (|s| == 1 && s[0].kind == e.kind && s[0].createdAt <= e.createdAt)
    ensures AddState(s, e) == [e]
  {
    assert WithoutKind(s, e.kind) == [] && [] + [e] == [e] && [e][..0] == [];
    assert Sort(StateLe, [e]) == [e];
  }

  /** `highWater` bounds everything held, and is the second of something seen. */
  lemma HighWaterIsExact(x: Live, limit: U64)
    requires Agrees(x, limit)
    ensures forall e :: e in x.entry.recent || e in x.entry.state ==> e.createdAt <= x.entry.highWater
    ensures x.seen != [] ==> exists e :: e in x.seen && e.createdAt == x.entry.highWater
  {
    MaxSecsMeans(x.seen);
    forall e | e in x.entry.state ensures e in x.states {
      var i :| 0 <= i < |x.states| && x.states[i] == e;
    }
  }
}
