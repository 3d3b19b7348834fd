/** Pruning and wiping what one person has stored. */
module Retention {
  import opened Nostr
  import opened Discovery
  import opened GroupModel
  import opened Newest
  import opened Relay
  import opened Sorting

  /** What keeps a group's identity and is never deleted here. */
  const NEVER_PRUNE_KINDS: set<nat> :=
    {9000, 9001, 9002, 9003, 9004, 9005, 9006, 9007, 9008, 9009, 9010, 9011, 39000, 39001, 39002, 39003}

  datatype Attribution = Author | Recipient

  datatype Selection =
    Selection(key: PublicKey, attribution: Attribution, kinds: set<nat>, since: Option<U64>, until: Option<U64>)

  predicate Concerns(key: PublicKey, attribution: Attribution, e: Event) {
    match attribution
    case Author => e.pubkey == key
    case Recipient => exists t :: t in e.tags && t.kind == P && t.Content() == Some(key)
  }

  predicate Selects(f: Selection, e: Event) {
    && e.kind in f.kinds && Concerns(f.key, f.attribution, e)
    && (f.since.Some? ==> f.since.value <= e.createdAt) && (f.until.Some? ==> e.createdAt <= f.until.value)
  }

  function Selected(store: set<Stored>, f: Selection, scope: Scope): set<Stored> {
    set s | s in store && s.scope == scope && Selects(f, s.e)
  }

  function Doomed(store: set<Stored>, f: Selection, scopes: set<Scope>): set<Stored> {
    set s | s in store && s.scope in scopes && Selects(f, s.e)
  }

  function Unprotected(kinds: set<nat>): set<nat> {
    set k | k in kinds && k !in NEVER_PRUNE_KINDS
  }

  lemma DoomedMore(store: set<Stored>, f: Selection, done: set<Scope>, scope: Scope)
    requires scope !in done
    ensures Doomed(store, f, done + {scope}) == Doomed(store, f, done) + Selected(store, f, scope)
    ensures Doomed(store, f, done) !! Selected(store, f, scope)
    ensures Selected(store - Doomed(store, f, done), f, scope) == Selected(store, f, scope)
  {
    hide Selects;
  }

  // ----- Counts ---------------------------------------------------------------------

  /** Totals are 64-bit and saturate. */
  function Saturated(n: nat): (s: U64)
    ensures s <= n && (n < 0x1_0000_0000_0000_0000 ==> s == n) && (s < n ==> s == 0xFFFF_FFFF_FFFF_FFFF)
  {
    if n < U64_SIZE then n else U64_SIZE - 1
  }

  lemma SaturatedSum(m: nat, n: nat)
    ensures Saturated(Saturated(m) + n) == Saturated(m + n)
  {
  }

  lemma Conserved<X>(before: set<X>, gone: set<X>)
    requires gone <= before
    ensures |before| == |before - gone| + |gone| && before - (before - gone) == gone
  {
    assert before == (before - gone) + gone;
    DisjointCount(before - gone, gone);
    assert before - (before - gone) == gone;
  }

  /** The scopes that are done before the database first fails. */
  function Served(scopes: seq<Scope>, failsAt: Option<nat>): (served: seq<Scope>)
    ensures served <= scopes
  {
    if failsAt.Some? && failsAt.value < |scopes| then scopes[..failsAt.value] else scopes
  }

  /** The part of the database these operations touch. */
  class Database {
    var store: set<Stored>

    constructor (store: set<Stored>)
      ensures this.store == store
    {
      this.store := store;
    }

    /** `scopes` lists each scope once; a query or a deletion may fail at one of them.  A
        dry run counts what a real run deletes: of the named kinds the unprotected, by or to
        that key, in that time.  Nothing else goes, what has gone when the database fails is
        that of the scopes before, and before is after plus what was deleted. */
    method PruneEvents(keyText: string, attribution: Attribution, kinds: set<nat>, since: Option<U64>, until: Option<U64>,
                       dryRun: bool, scopes: seq<Scope>, failsAt: Option<nat>) returns (total: Option<U64>)
      requires IsDistinct(scopes)
      modifies this
      ensures total.Some? <==> ParseKey(keyText).Some? && (Unprotected(kinds) == {} || Served(scopes, failsAt) == scopes)
      ensures total.Some? ==>
        var f := Selection(keyText, attribution, Unprotected(kinds), since, until);
        total.value == Saturated(|Doomed(old(store), f, Elements(scopes))|)
      ensures total.Some? && !dryRun ==> total.value == Saturated(|old(store) - store|)
      ensures store <= old(store) && |old(store)| == |store| + |old(store) - store|
      ensures forall s :: s in old(store) ==> (s !in store <==>
        && !dryRun && ParseKey(keyText).Some? && s.scope in Served(scopes, failsAt)
        && s.e.kind in kinds && s.e.kind !in NEVER_PRUNE_KINDS
        && (if attribution.Author? then s.e.pubkey == keyText
            else exists t :: t in s.e.tags && t.kind == P && t.values != [] && t.values[0] == keyText)
        && (since.Some? ==> since.value <= s.e.createdAt) && (until.Some? ==> s.e.createdAt <= until.value))
    {
      hide *;
      NothingGoes(store);
      if ParseKey(keyText).None? { return None; }
      var targets := Unprotected(kinds);
      var f := Selection(ParseKey(keyText).value, attribution, targets, since, until);
      ghost var served := Served(scopes, failsAt);
      ServedIs(scopes, failsAt);
      DoomedMeans(store, f.key, attribution, kinds, since, until, served);
      if targets == {} {
        NothingSelected(store, f, Elements(scopes));
        NothingSelected(store, f, Elements(served));
        return Some(Saturated(0));
      }
      total := PruneScopes(f, dryRun, scopes, failsAt);
    }

    /** Scope after scope, until the database fails. */
    method PruneScopes(f: Selection, dryRun: bool, scopes: seq<Scope>, failsAt: Option<nat>) returns (total: Option<U64>)
      requires IsDistinct(scopes)
      modifies this
      ensures total.Some? <==> Served(scopes, failsAt) == scopes
      ensures total.Some? ==> total.value == Saturated(|Doomed(old(store), f, Elements(scopes))|)
      ensures store == if dryRun then old(store) else old(store) - Doomed(old(store), f, Elements(Served(scopes, failsAt)))
    {
      hide *;
      ghost var served := Served(scopes, failsAt);
      ServedIs(scopes, failsAt);
      NothingDoomed(store, f);
      NoElements<Scope>(scopes);
      var sum := Saturated(0);
      for i := 0 to |scopes|
        invariant i <= |served|
        invariant sum == Saturated(|Doomed(old(store), f, Elements(scopes[..i]))|)
        invariant store == if dryRun then old(store) else old(store) - Doomed(old(store), f, Elements(scopes[..i]))
      {
        if failsAt == Some(i) { return None; }
        var found := Selected(store, f, scopes[i]);
        PruneScope(old(store), f, scopes, i, dryRun);
        if found != {} {
          sum := Saturated(sum + |found|);
          if !dryRun { store := store - found; }
        }
      }
      assert scopes[..|scopes|] == scopes;
      total := Some(sum);
    }

    /** Delete what somebody wrote in the given scopes: the named kinds, or every kind
        found there; never the protected ones.  Of one kind in one scope all go or none;
        in the scopes done what stays of that author is protected, or not named, or of a
        kind that page bounds allow discovery to miss. */
    method DeleteUserEvents(keyText: string, kinds: Option<set<nat>>, scopes: seq<Scope>, failsAt: Option<nat>)
      returns (total: Option<U64>)
      requires IsDistinct(scopes)
      modifies this
      ensures total.Some? <==> ParseKey(keyText).Some? && Served(scopes, failsAt) == scopes
      ensures total.Some? ==> total.value == Saturated(|old(store) - store|)
      ensures store <= old(store) && |old(store)| == |store| + |old(store) - store|
      ensures forall s :: s in old(store) - store ==>
        && s.e.pubkey == keyText && s.scope in Served(scopes, failsAt) && s.e.kind !in NEVER_PRUNE_KINDS
        && (kinds.Some? ==> s.e.kind in kinds.value)
      ensures ParseKey(keyText).Some? ==>
        forall s :: s in store && s.scope in Served(scopes, failsAt) && s.e.pubkey == keyText ==>
          || s.e.kind in NEVER_PRUNE_KINDS
          || (if kinds.Some? then s.e.kind !in kinds.value
              else MayMissKind(AuthoredIn(old(store), keyText, s.scope), s.e.kind))
      ensures forall s, t :: s in old(store) - store && t in old(store) && IsLike(t, s) ==> t !in store
    {
      hide *;
      NothingGoes(store);
      if ParseKey(keyText).None? { return None; }
      var key := ParseKey(keyText).value;
      ServedIs(scopes, failsAt);
      ghost var targets;
      total, targets := WipeScopes(key, kinds, scopes, failsAt);
      WipeMeans(old(store), key, kinds, Served(scopes, failsAt), targets);
    }

    /** Scope after scope, until the database fails; `targets` are the kinds chosen in each. */
    method WipeScopes(key: PublicKey, kinds: Option<set<nat>>, scopes: seq<Scope>, failsAt: Option<nat>)
      returns (total: Option<U64>, ghost targets: map<Scope, set<nat>>)
      requires IsDistinct(scopes)
      modifies this
      ensures total.Some? <==> Served(scopes, failsAt) == scopes
      ensures AreChosen(targets, kinds, old(store), key, Served(scopes, failsAt))
      ensures store == old(store) - Wiped(old(store), key, targets)
      ensures total.Some? ==> total.value == Saturated(|Wiped(old(store), key, targets)|)
    {
      hide *;
      ghost var served := Served(scopes, failsAt);
      ServedIs(scopes, failsAt);
      NothingWiped(old(store), key);
      NothingChosen(kinds, store, key, scopes);
      targets := map[];
      var sum := Saturated(0);
      for i := 0 to |scopes|
        invariant i <= |served| && AreChosen(targets, kinds, old(store), key, scopes[..i])
        invariant store == old(store) - Wiped(old(store), key, targets)
        invariant sum == Saturated(|Wiped(old(store), key, targets)|)
      {
        if failsAt == Some(i) { return None, targets; }
        var scope := scopes[i];
        ScopeIsNew(targets, kinds, old(store), key, scopes, i);
        WipedElsewhere(old(store), key, targets, scope);
        var chosen := ChooseKinds(kinds, AuthoredIn(store, key, scope));
        var found := Selected(store, Selection(key, Author, chosen, None, None), scope);
        WipeScope(old(store), key, targets, scope, chosen);
        ChosenMore(targets, kinds, old(store), key, scopes, i, chosen);
        targets := targets[scope := chosen];
        sum := Saturated(sum + |found|);
        store := store - found;
      }
      assert scopes[..|scopes|] == scopes;
      total := Some(sum);
    }
  }

  lemma ServedIs(scopes: seq<Scope>, failsAt: Option<nat>)
    ensures var served := Served(scopes, failsAt);
      && (failsAt.Some? && failsAt.value < |scopes| ==> served == scopes[..failsAt.value] && served != scopes)
      && (failsAt.None? || failsAt.value >= |scopes| ==> served == scopes)
  {
  }

  /** Of the same author, kind and scope. */
  predicate IsLike(t: Stored, s: Stored) {
    t.scope == s.scope && t.e.pubkey == s.e.pubkey && t.e.kind == s.e.kind
  }

  /** One scope more: what is found there is counted, and on a real run goes. */
  lemma PruneScope(store: set<Stored>, f: Selection, scopes: seq<Scope>, i: nat, dryRun: bool)
    requires IsDistinct(scopes) && i < |scopes|
    ensures var before, after := Doomed(store, f, Elements(scopes[..i])), Doomed(store, f, Elements(scopes[..i + 1]));
      var found := Selected(if dryRun then store else store - before, f, scopes[i]);
      && Saturated(|after|) == Saturated(Saturated(|before|) + |found|)
      && store - before - found == store - after && (found == {} ==> after == before)
  {
    hide Selects, Doomed, Selected, Elements, Saturated;
    var before := Doomed(store, f, Elements(scopes[..i]));
    ElementsSnoc(scopes, i);
    DoomedMore(store, f, Elements(scopes[..i]), scopes[i]);
    var found := Selected(store, f, scopes[i]);
    DisjointCount(before, found);
    WithoutBoth(store, before, found);
    SaturatedSum(|before|, |found|);
  }

  lemma ConcernsIs(key: PublicKey, attribution: Attribution, e: Event)
    ensures Concerns(key, attribution, e) <==>
      if attribution.Author? then e.pubkey == key
      else exists t :: t in e.tags && t.kind == P && t.values != [] && t.values[0] == key
  {
  }

  lemma DoomedMeans(store: set<Stored>, key: PublicKey, attribution: Attribution, kinds: set<nat>,
                    since: Option<U64>, until: Option<U64>, scopes: seq<Scope>)
    ensures var doomed := Doomed(store, Selection(key, attribution, Unprotected(kinds), since, until), Elements(scopes));
      && doomed <= store && |store| == |store - doomed| + |doomed| && store - (store - doomed) == doomed
      && forall s :: s in store ==> (s in doomed <==>
           && s.scope in scopes && s.e.kind in kinds && s.e.kind !in NEVER_PRUNE_KINDS
           && (if attribution.Author? then s.e.pubkey == key
               else exists t :: t in s.e.tags && t.kind == P && t.values != [] && t.values[0] == key)
           && (since.Some? ==> since.value <= s.e.createdAt) && (until.Some? ==> s.e.createdAt <= until.value))
  {
    forall e ensures Concerns(key, attribution, e) <==>
      if attribution.Author? then e.pubkey == key
      else exists t :: t in e.tags && t.kind == P && t.values != [] && t.values[0] == key
    {
      ConcernsIs(key, attribution, e);
    }
    hide Concerns;
    Conserved(store, Doomed(store, Selection(key, attribution, Unprotected(kinds), since, until), Elements(scopes)));
  }

  lemma NothingGoes<X>(store: set<X>)
    ensures store - store == {} && |store| == |store| + |store - store|
  {
    assert store - store == {};
  }

  /** The kinds to delete of what somebody wrote in one scope. */
  predicate AreTargets(chosen: set<nat>, kinds: Option<set<nat>>, authored: set<Event>) {
    && chosen !! NEVER_PRUNE_KINDS
    && (kinds.Some? ==> chosen == Unprotected(kinds.value))
    && (kinds.None? ==>
          forall k :: k in KindsOf(authored) && k !in NEVER_PRUNE_KINDS && k !in chosen ==> MayMissKind(authored, k))
  }

  /** In each of the scopes some kinds are chosen. */
  predicate AreChosen(targets: map<Scope, set<nat>>, kinds: Option<set<nat>>, store: set<Stored>, key: PublicKey,
                      scopes: seq<Scope>) {
    && targets.Keys == Elements(scopes)
    && forall scope :: scope in targets ==> AreTargets(targets[scope], kinds, AuthoredIn(store, key, scope))
  }

  lemma NothingChosen(kinds: Option<set<nat>>, store: set<Stored>, key: PublicKey, scopes: seq<Scope>)
    ensures AreChosen(map[], kinds, store, key, scopes[..0])
  {
  }

  lemma ScopeIsNew(targets: map<Scope, set<nat>>, kinds: Option<set<nat>>, store: set<Stored>, key: PublicKey,
                   scopes: seq<Scope>, i: nat)
    requires IsDistinct(scopes) && i < |scopes| && AreChosen(targets, kinds, store, key, scopes[..i])
    ensures scopes[i] !in targets
  {
    hide AreTargets, AuthoredIn;
    ElementsSnoc(scopes, i);
  }

  lemma ChosenMore(targets: map<Scope, set<nat>>, kinds: Option<set<nat>>, store: set<Stored>, key: PublicKey,
                   scopes: seq<Scope>, i: nat, chosen: set<nat>)
    requires IsDistinct(scopes) && i < |scopes| && AreChosen(targets, kinds, store, key, scopes[..i])
    requires AreTargets(chosen, kinds, AuthoredIn(store, key, scopes[i]))
    ensures AreChosen(targets[scopes[i] := chosen], kinds, store, key, scopes[..i + 1])
  {
    hide AreTargets, AuthoredIn;
    ElementsSnoc(scopes, i);
  }

  method ChooseKinds(kinds: Option<set<nat>>, authored: set<Event>) returns (chosen: set<nat>)
    ensures AreTargets(chosen, kinds, authored)
  {
    hide IsDiscoverable, KindsOf, IsDiscovery, MayMissKind;
    if kinds.Some? { return Unprotected(kinds.value); }
    var discovered, pages := AuthorKindsInScope(authored);
    chosen := Unprotected(discovered);
  }

  lemma NothingDoomed(store: set<Stored>, f: Selection)
    ensures Doomed(store, f, {}) == {} && store - {} == store
  {
  }

  lemma NoElements<X>(s: seq<X>)
    ensures Elements(s[..0]) == {}
  {
  }

  lemma NothingWiped(store: set<Stored>, key: PublicKey)
    ensures Wiped(store, key, map[]) == {} && store - {} == store
  {
  }

  lemma WithoutBoth<X>(all: set<X>, a: set<X>, b: set<X>)
    ensures all - a - b == all - (a + b)
  {
  }

  lemma ElementsSnoc<X>(s: seq<X>, i: nat)
    requires i < |s| && IsDistinct(s)
    ensures Elements(s[..i + 1]) == Elements(s[..i]) + {s[i]} && s[i] !in Elements(s[..i])
  {
    assert s[..i + 1] == s[..i] + [s[i]];
  }

  lemma NothingSelected(store: set<Stored>, f: Selection, scopes: set<Scope>)
    requires f.kinds == {}
    ensures Doomed(store, f, scopes) == {} && store - {} == store
  {
  }

  // ----- What a wipe takes and leaves -----------------------------------------------------

  predicate IsWiped(s: Stored, key: PublicKey, targets: map<Scope, set<nat>>) {
    s.scope in targets && s.e.pubkey == key && s.e.kind in targets[s.scope]
  }

  function Wiped(store: set<Stored>, key: PublicKey, targets: map<Scope, set<nat>>): set<Stored> {
    set s | s in store && IsWiped(s, key, targets)
  }

  lemma WipedElsewhere(store: set<Stored>, key: PublicKey, targets: map<Scope, set<nat>>, scope: Scope)
    requires scope !in targets
    ensures AuthoredIn(store - Wiped(store, key, targets), key, scope) == AuthoredIn(store, key, scope)
  {
    forall e ensures e in AuthoredIn(store - Wiped(store, key, targets), key, scope) <==> e in AuthoredIn(store, key, scope) {
      if e in AuthoredIn(store, key, scope) {
        var s :| s in store && s.scope == scope && s.e.pubkey == key && s.e == e;
        assert s in store - Wiped(store, key, targets);
      }
    }
  }

  lemma WipedMore(store: set<Stored>, key: PublicKey, targets: map<Scope, set<nat>>, scope: Scope, chosen: set<nat>)
    requires scope !in targets
    ensures var found := Selected(store - Wiped(store, key, targets), Selection(key, Author, chosen, None, None), scope);
      && Wiped(store, key, targets[scope := chosen]) == Wiped(store, key, targets) + found
      && |Wiped(store, key, targets[scope := chosen])| == |Wiped(store, key, targets)| + |found|
  {
    var found := Selected(store - Wiped(store, key, targets), Selection(key, Author, chosen, None, None), scope);
    assert Wiped(store, key, targets[scope := chosen]) == Wiped(store, key, targets) + found;
    DisjointCount(Wiped(store, key, targets), found);
  }

  /** One scope more: what is found there is counted and goes. */
  lemma WipeScope(store: set<Stored>, key: PublicKey, targets: map<Scope, set<nat>>, scope: Scope, chosen: set<nat>)
    requires scope !in targets
    ensures var before, after := Wiped(store, key, targets), Wiped(store, key, targets[scope := chosen]);
      var found := Selected(store - before, Selection(key, Author, chosen, None, None), scope);
      && Saturated(|after|) == Saturated(Saturated(|before|) + |found|)
      && store - before - found == store - after
  {
    hide *;
    var before := Wiped(store, key, targets);
    var found := Selected(store - before, Selection(key, Author, chosen, None, None), scope);
    WipedMore(store, key, targets, scope, chosen);
    WithoutBoth(store, before, found);
    SaturatedSum(|before|, |found|);
  }

  lemma WipeMeans(store: set<Stored>, key: PublicKey, kinds: Option<set<nat>>, scopes: seq<Scope>,
                  targets: map<Scope, set<nat>>)
    requires AreChosen(targets, kinds, store, key, scopes)
    ensures var wiped := Wiped(store, key, targets);
      && wiped <= store && |store| == |store - wiped| + |wiped| && store - (store - wiped) == wiped
      && (forall s :: s in wiped ==>
            && s.e.pubkey == key && s.scope in scopes && s.e.kind !in NEVER_PRUNE_KINDS
            && (kinds.Some? ==> s.e.kind in kinds.value))
      && (forall s :: s in store - wiped && s.scope in scopes && s.e.pubkey == key ==>
            || s.e.kind in NEVER_PRUNE_KINDS
            || (if kinds.Some? then s.e.kind !in kinds.value else MayMissKind(AuthoredIn(store, key, s.scope), s.e.kind)))
      && (forall s, t :: s in wiped && t in store && IsLike(t, s) ==> t in wiped)
  {
    hide MayMissKind, AuthoredIn, KindsOf;
    var wiped := Wiped(store, key, targets);
    Conserved(store, wiped);
    forall s | s in store - wiped && s.scope in scopes && s.e.pubkey == key
      ensures || s.e.kind in NEVER_PRUNE_KINDS
              || (if kinds.Some? then s.e.kind !in kinds.value else MayMissKind(AuthoredIn(store, key, s.scope), s.e.kind))
    {
      assert s.scope in targets;
      WrittenKind(store, key, s);
    }
  }

  lemma WrittenKind(store: set<Stored>, key: PublicKey, s: Stored)
    requires s in store && s.e.pubkey == key
    ensures s.e.kind in KindsOf(AuthoredIn(store, key, s.scope))
  {
    assert s.e in AuthoredIn(store, key, s.scope);
  }

  function AuthoredIn(store: set<Stored>, key: PublicKey, scope: Scope): set<Event> {
    set s | s in store && s.scope == scope && s.e.pubkey == key :: s.e
  }
}
