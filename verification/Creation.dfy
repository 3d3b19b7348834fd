/** What becomes of an event at the door: which group it makes, which group answers it,
    and what is stored of events that no group answers. */
module Creation {
  import opened Nostr
  import opened GroupModel
  import opened GroupLaws
  import opened Printing
  import opened World
  import opened Relay
  import opened Wording
  import opened Edits
  import Acceptance
  import Metadata

  // ----- Making a group --------------------------------------------------------------------

  predicate IsFirstGroupTag(tags: seq<Tag>, i: nat) {
    i < |tags| && tags[i].kind in {H, D} && forall j :: 0 <= j < i ==> tags[j].kind !in {H, D}
  }

  /** The id a 9007 gives its group: what its first `h` or `d` tag carries. */
  predicate Calls(tags: seq<Tag>, id: string) {
    exists i :: 0 <= i < |tags| && IsFirstGroupTag(tags, i) && tags[i].values != [] && tags[i].values[0] == id
  }

  lemma {:induction false} FirstGroupTagDecides(tags: seq<Tag>)
    ensures forall i: nat :: IsFirstGroupTag(tags, i) ==> FirstGroupTag(tags) == tags[i].Content()
    ensures FirstGroupTag(tags).Some? ==> exists i: nat :: IsFirstGroupTag(tags, i)
  {
    if tags != [] {
      FirstGroupTagDecides(tags[1..]);
      if tags[0].kind in {H, D} {
        assert IsFirstGroupTag(tags, 0);
      } else {
        forall i: nat | IsFirstGroupTag(tags, i) ensures FirstGroupTag(tags) == tags[i].Content() {
          assert IsFirstGroupTag(tags[1..], i - 1);
        }
        if FirstGroupTag(tags).Some? {
          var i: nat :| IsFirstGroupTag(tags[1..], i);
          assert IsFirstGroupTag(tags, i + 1);
        }
      }
    }
  }

  lemma CallsIff(tags: seq<Tag>)
    ensures forall id :: Calls(tags, id) <==> FirstGroupTag(tags) == Some(id)
  {
    FirstGroupTagDecides(tags);
  }

  predicate IsStoredUnder(s: Stored, scope: Scope, h: string) {
    s.scope == scope && CarriesH(s.e, h)
  }

  predicate IsUnused(st: RelayState, scope: Scope, h: string) {
    && (forall s :: s in st.store ==> !IsStoredUnder(s, scope, h))
    && (forall p :: p in st.puts ==> !(p.scope == scope && p.group == h))
  }

  predicate HasTombstone(st: RelayState, scope: Scope, h: string) {
    exists s :: s in st.store && IsStoredUnder(s, scope, h) && s.e.kind == 9008
  }

  lemma UnusedIs(st: RelayState, scope: Scope, h: string)
    ensures NothingStored(st, (scope, h)) <==> IsUnused(st, scope, h)
    ensures WasGroupDeleted(st.store, (scope, h)) <==> HasTombstone(st, scope, h)
  {
    hide CarriesH;
    var key := (scope, h);
    forall s | s in st.store && IsStoredUnder(s, scope, h) ensures s.e in Query(st.store, key) {}
    forall p | p in st.puts && p.scope == scope && p.group == h ensures p in PutsFor(st.puts, key) {}
    if IsUnused(st, scope, h) {
      assert Query(st.store, key) == {} && PutsFor(st.puts, key) == {};
    }
  }

  /** A 9007 makes a group exactly when its first `h` names one that is neither managed nor
      deleted, its first `h` or `d` gives an id, and nobody has written there before, unless
      the relay itself sends it. */
  lemma CreationAcceptedIff(st: RelayState, scope: Scope, e: Event, now: U64, admitted: bool, cfg: Config)
    requires e.kind == CREATE_9007
    ensures Dispatch(st, scope, e, now, admitted, cfg).result.Accepted? <==>
      && admitted
      && exists h :: Says(e.tags, H, h) && (scope, h) !in st.groups && !HasTombstone(st, scope, h)
           && (IsUnused(st, scope, h) || e.pubkey == cfg.relay) && exists id :: Calls(e.tags, id) && id != ""
  {
    hide CreatedGroup, StateEvents, Participants, Query, WasGroupDeleted, NothingStored, Says, Calls, HasTombstone, IsUnused,
         DeleteGroup, ToGroup;
    SaysIff(e.tags, H);
    CallsIff(e.tags);
    if GroupIdOf(e).Some? {
      var h := GroupIdOf(e).value;
      UnusedIs(st, scope, h);
      assert Says(e.tags, H, h);
    }
    if FirstGroupTag(e.tags).Some? { assert Calls(e.tags, FirstGroupTag(e.tags).value); }
  }

  /** Kinds that say nothing about who takes part. */
  const REQUEST_KINDS: set<nat> :=
    {9000, 9001, 9002, 9005, 9006, 9007, 9009, 9021, 9022, 28934, 39000, 39001, 39002, 39003}

  predicate WroteBefore(st: RelayState, scope: Scope, h: string, k: PublicKey) {
    exists s :: s in st.store && IsStoredUnder(s, scope, h) && s.e.pubkey == k && s.e.kind !in REQUEST_KINDS
  }

  /** The new group: its sender is the only admin, who wrote there before are members, and
      the metadata are what the tags make of a closed, restricted and private group that
      has only its id for a name. */
  ghost predicate IsMadeBy(g: GroupState, st: RelayState, scope: Scope, e: Event, h: string, id: string, cfg: Config) {
    && g.id == id && g.scope == scope && g.joinRequests == {} && g.invites == map[]
    && (forall k :: k in g.members <==> k == e.pubkey || WroteBefore(st, scope, h, k))
    && (forall k :: k in g.members ==> g.members[k] == if k == e.pubkey then {Admin} else {Member})
    && MetaFollows(Metadata.Meta(Metadata.Fields(id, None, None, None, None, None, false, true, true, true, false), map[]),
                   g.meta, e.tags, cfg.forcePublic)
  }

  lemma CreationMeans(st: RelayState, scope: Scope, e: Event, now: U64, cfg: Config, h: string, id: string)
    requires e.kind == CREATE_9007 && Dispatch(st, scope, e, now, true, cfg).result.Accepted?
    requires Says(e.tags, H, h) && Calls(e.tags, id)
    ensures var x := Dispatch(st, scope, e, now, true, cfg).st.groups;
      && (scope, h) !in st.groups && (scope, h) in x && x == st.groups[(scope, h) := x[(scope, h)]]
      && IsMadeBy(x[(scope, h)], st, scope, e, h, id, cfg)
  {
    hide CreatedGroup, StateEvents, Participants, Query, WasGroupDeleted, NothingStored, Says, Calls, IsMadeBy,
         DeleteGroup, ToGroup;
    SaysIff(e.tags, H);
    CallsIff(e.tags);
    MadeIs(st, scope, e, h, id, cfg);
  }

  lemma MadeIs(st: RelayState, scope: Scope, e: Event, h: string, id: string, cfg: Config)
    ensures IsMadeBy(CreatedGroup(e, id, scope, Participants(Query(st.store, (scope, h))), cfg), st, scope, e, h, id, cfg)
  {
    hide Metadata.ApplyTags, ForcePublic, MetaFollows, WroteBefore, Participants, Query;
    ApplyFollows(Metadata.FreshMeta(id), e.tags, cfg.forcePublic);
    forall k ensures k in Participants(Query(st.store, (scope, h))) <==> WroteBefore(st, scope, h, k) {
      ParticipantsAre(st, scope, h, k);
    }
  }

  lemma ParticipantsAre(st: RelayState, scope: Scope, h: string, k: PublicKey)
    ensures k in Participants(Query(st.store, (scope, h))) <==> WroteBefore(st, scope, h, k)
  {
    hide CarriesH;
    if WroteBefore(st, scope, h, k) {
      var s :| s in st.store && IsStoredUnder(s, scope, h) && s.e.pubkey == k && s.e.kind !in REQUEST_KINDS;
      assert s.e in Query(st.store, (scope, h));
    }
  }

  // ----- Who answers -----------------------------------------------------------------------

  /** Which group an event names: by its first `d` if its kind is addressable, else by its
      first `h`. */
  predicate IsFor(e: Event, name: string) {
    Says(e.tags, if 30000 <= e.kind < 40000 then D else H, name)
  }

  lemma ForIff(e: Event)
    ensures forall name :: IsFor(e, name) <==> GroupIdOf(e) == Some(name)
  {
    hide Says;
    SaysIff(e.tags, D);
    SaysIff(e.tags, H);
  }

  /** The requests that only a managed group answers. */
  const GROUP_REQUESTS: set<nat> := {9000, 9001, 9002, 9005, 9006, 9009, 9021, 9022}

  /** Kinds that are about no group, whatever `h` they carry. */
  const FREE_KINDS: set<nat> :=
    {5, 375, 443, 1059, 1984, 3079, 3080, 7374, 7375, 7376, 9321, 10009, 10019, 17375, 28934, 32390}

  /** An event that names no managed group is stored as it is, unless it is a request, a
      9008 without an `h`, or a state event with one. */
  lemma UnmanagedIsStoredIff(st: RelayState, scope: Scope, e: Event, now: U64, cfg: Config)
    requires e.kind != CREATE_9007 && forall name :: IsFor(e, name) ==> (scope, name) !in st.groups
    ensures var o := Dispatch(st, scope, e, now, true, cfg);
      && o.st == st && (o.result.Accepted? ==> o.result.cmds == [SaveSigned(e, scope)])
      && (o.result.Refused? <==>
            || e.kind in GROUP_REQUESTS || (e.kind == 9008 && !HasTag(e.tags, H))
            || (e.kind in {39000, 39001, 39002, 39003} && HasTag(e.tags, H)))
  {
    hide HasTag, GroupIdOf, IsFor;
    ForIff(e);
    assert !IsManaged(st, scope, e);
  }

  /** In a managed group the requests and whatever else carries an `h` and is not free are
      for the group to answer; a 9008 of an editor removes it, with its tombstone stored
      last; the rest is stored as it is. */
  lemma ManagedAnswers(st: RelayState, scope: Scope, e: Event, now: U64, cfg: Config, name: string)
    requires IsFor(e, name) && (scope, name) in st.groups
    ensures var o, key := Dispatch(st, scope, e, now, true, cfg), (scope, name);
      var g := st.groups[key];
      if e.kind == 9007 then o.result.Refused? && o.st == st
      else if e.kind == 9008 then
        && (o.result.Accepted? <==> Acceptance.IsEditor(g, e.pubkey, cfg.relay))
        && o.st == (if o.result.Accepted? then st.(groups := st.groups - {key}) else st)
        && (o.result.Accepted? ==>
              o.result.cmds == [Delete(Filter(None, Some(g.id), None), g.scope),
                                Delete(Filter(None, None, Some(g.id)), g.scope), SaveSigned(e, g.scope)])
      else if e.kind in GROUP_REQUESTS || (HasTag(e.tags, H) && e.kind !in FREE_KINDS) then
        var answer := Handle(g, e, now, cfg);
        o.st == st.(groups := st.groups[key := answer.g]) && o.result == answer.result
      else o.st == st && o.result == Accepted([SaveSigned(e, scope)])
  {
    hide HasTag, GroupIdOf, IsFor, Handle, CreatedGroup, StateEvents, WasGroupDeleted, NothingStored;
    ForIff(e);
    assert KeyOf(scope, e) == Some((scope, name)) && IsManaged(st, scope, e);
  }
}
