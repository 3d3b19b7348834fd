/** What one event can do to the whole relay: deletions reach only the deleting
    group's events, groups do not see each other's events, and a deleted group
    stays deleted as long as events name one group each. */
module RelayLaws {
  import opened Nostr
  import opened GroupModel
  import opened GroupLaws
  import opened Printing
  import opened World
  import opened Relay
  import Metadata
  import WorldLaws

  // ----- What a step stores and removes ---------------------------------------------

  predicate OnlySaves(cmds: seq<Command>, e: Event, scope: Scope) {
    && (forall c :: c in cmds ==> c.Generate? || c == SaveSigned(e, scope))
    && (cmds != [] ==> SaveSigned(e, scope) in cmds)
  }

  lemma {:induction false} RunSaves(store: set<Stored>, cmds: seq<Command>, e: Event, scope: Scope)
    requires forall c :: c in cmds ==> c.Generate? || c == SaveSigned(e, scope)
    ensures RunAll(store, cmds) == if SaveSigned(e, scope) in cmds then store + {Stored(scope, e)} else store
  {
    if cmds != [] {
      var n := |cmds| - 1;
      RunSaves(store, cmds[..n], e, scope);
      assert SaveSigned(e, scope) in cmds <==> SaveSigned(e, scope) in cmds[..n] || cmds[n] == SaveSigned(e, scope);
      assert cmds[n] in cmds;
    }
  }

  /** Every answer of a group other than the one to a 9005 only saves the event. */
  lemma HandleOnlySaves(g: GroupState, e: Event, now: U64, cfg: Config)
    requires e.kind != DELETE_EVENT_9005
    ensures var o := Handle(g, e, now, cfg); o.result.Accepted? ==> OnlySaves(o.result.cmds, e, g.scope)
  {
    hide AdminsOf, AddMembers, RemoveNamed, CheckRoles, AssignRoles, ParsedMembers, TagsOf, Metadata.ApplyTags,
         InviteOf, CodeOf, ForcePublic;
  }

  /** The stored events a 9005 or 9008 answered by `g` removes. */
  predicate Removes(g: GroupState, e: Event, s: Stored) {
    && s.scope == g.scope
    && ((e.kind == DELETE_EVENT_9005 && s.e.id in EventIds(e.tags) && CarriesH(s.e, g.id)) ||
        (e.kind == DELETE_GROUP_9008 && (CarriesH(s.e, g.id) || CarriesD(s.e, g.id))))
  }

  function Removed(st: RelayState, scope: Scope, e: Event): set<Stored> {
    if IsManaged(st, scope, e) then set s | s in st.store && Removes(st.groups[KeyOf(scope, e).value], e, s) else {}
  }

  /** The group filed under a key lives in that key's scope, has an admin, and so on. */
  predicate WellFiled(st: RelayState) {
    forall key :: key in st.groups ==> st.groups[key].scope == key.0 && Inv(st.groups[key])
  }

  lemma RunDeletes(store: set<Stored>, a: Filter, b: Filter, e: Event, scope: Scope)
    ensures RunAll(store, [Delete(a, scope), SaveSigned(e, scope)])
      == (set s | s in store && !(s.scope == scope && Matches(a, s.e))) + {Stored(scope, e)}
    ensures RunAll(store, [Delete(a, scope), Delete(b, scope), SaveSigned(e, scope)])
      == (set s | s in store && !(s.scope == scope && (Matches(a, s.e) || Matches(b, s.e)))) + {Stored(scope, e)}
  {
    hide Matches;
    var x, y, z := Delete(a, scope), Delete(b, scope), SaveSigned(e, scope);
    assert [x][..0] == [] && [x, z][..1] == [x] && [x, y][..1] == [x] && [x, y, z][..2] == [x, y];
    assert RunAll(store, [x]) == Run(store, x);
  }

  /** The store after an accepted event: what was there, less what a 9005 or 9008
      of a managed group removes, and the event itself. */
  lemma StepStores(st: RelayState, scope: Scope, e: Event, now: U64, admitted: bool, cfg: Config)
    requires WellFiled(st)
    ensures var o := Dispatch(st, scope, e, now, admitted, cfg);
      var after := StepRelay(st, scope, e, now, admitted, cfg).store;
      && (o.result.Refused? ==> after == st.store)
      && (o.result.Accepted? && o.result.cmds == [] ==> after == st.store)
      && (o.result.Accepted? && o.result.cmds != [] ==>
            after == st.store - Removed(st, scope, e) + {Stored(scope, e)})
  {
    var o := Dispatch(st, scope, e, now, admitted, cfg);
    hide RunAll, Removed, Dispatch, OnlySaves, Inv;
    NothingRemoved(st, scope, e);
    DispatchSavesOrDeletes(st, scope, e, now, admitted, cfg);
    if o.result.Accepted? {
      if !IsManaged(st, scope, e) || e.kind !in {DELETE_EVENT_9005, DELETE_GROUP_9008} {
        OnlySavesMeans(o.result.cmds, e, scope);
        RunSaves(st.store, o.result.cmds, e, scope);
      } else if e.kind == DELETE_EVENT_9005 {
        DeleteStores(st, scope, e, now, cfg);
      } else {
        GroupDeletionStores(st, scope, e);
      }
    }
  }

  lemma OnlySavesMeans(cmds: seq<Command>, e: Event, scope: Scope)
    requires OnlySaves(cmds, e, scope)
    ensures forall c :: c in cmds ==> c.Generate? || c == SaveSigned(e, scope)
    ensures cmds != [] ==> SaveSigned(e, scope) in cmds
  {
  }

  lemma OnlySavesOne(e: Event, scope: Scope)
    ensures OnlySaves([SaveSigned(e, scope)], e, scope)
  {
    assert SaveSigned(e, scope) == [SaveSigned(e, scope)][0];
  }

  lemma OnlySavesEmitted(e: Event, g: GroupState, cfg: Config)
    ensures OnlySaves(StateEvents(g, e, cfg), e, g.scope)
  {
    hide AdminsOf;
    assert SaveSigned(e, g.scope) == StateEvents(g, e, cfg)[0];
  }

  /** Apart from a 9005 or 9008 of a managed group, an event only gets saved. */
  lemma DispatchSavesOrDeletes(st: RelayState, scope: Scope, e: Event, now: U64, admitted: bool, cfg: Config)
    requires WellFiled(st)
    ensures var o := Dispatch(st, scope, e, now, admitted, cfg);
      && o.st.store == st.store
      && (o.result.Accepted? ==>
            if !IsManaged(st, scope, e) || e.kind !in {DELETE_EVENT_9005, DELETE_GROUP_9008} then
              OnlySaves(o.result.cmds, e, scope)
            else
              var g := st.groups[KeyOf(scope, e).value];
              if e.kind == DELETE_EVENT_9005 then o.result == Handle(g, e, now, cfg).result
              else
                && CanEdit(g, e.pubkey, cfg.relay)
                && o.result.cmds == [Delete(Filter(None, Some(g.id), None), g.scope),
                                     Delete(Filter(None, None, Some(g.id)), g.scope), SaveSigned(e, g.scope)])
  {
    hide Handle, CreatedGroup, StateEvents, Inv, OnlySaves, Participants, WasGroupDeleted, CanEdit;
    OnlySavesOne(e, scope);
    if IsManaged(st, scope, e) && e.kind != DELETE_EVENT_9005 {
      HandleOnlySaves(st.groups[KeyOf(scope, e).value], e, now, cfg);
    }
    var id := FirstGroupTag(e.tags);
    if id.Some? && GroupIdOf(e).Some? {
      var g := CreatedGroup(e, id.value, scope, Participants(Query(st.store, (scope, GroupIdOf(e).value))), cfg);
      CreatedScope(e, id.value, scope, Participants(Query(st.store, (scope, GroupIdOf(e).value))), cfg);
      OnlySavesEmitted(e, g, cfg);
    }
  }

  lemma NothingRemoved(st: RelayState, scope: Scope, e: Event)
    ensures !IsManaged(st, scope, e) || e.kind !in {DELETE_EVENT_9005, DELETE_GROUP_9008} ==>
      Removed(st, scope, e) == {} && st.store - Removed(st, scope, e) == st.store
  {
  }

  lemma DeleteStores(st: RelayState, scope: Scope, e: Event, now: U64, cfg: Config)
    requires WellFiled(st) && IsManaged(st, scope, e) && e.kind == DELETE_EVENT_9005
    ensures var o := Handle(st.groups[KeyOf(scope, e).value], e, now, cfg);
      o.result.Accepted? ==>
        o.result.cmds != [] && RunAll(st.store, o.result.cmds) == st.store - Removed(st, scope, e) + {Stored(scope, e)}
  {
    hide RunAll, Inv, EventIds, CarriesH, CarriesD, AdminsOf;
    var g := st.groups[KeyOf(scope, e).value];
    var f := Filter(Some(EventIds(e.tags)), Some(g.id), None);
    RunDeletes(st.store, f, f, e, g.scope);
  }

  lemma GroupDeletionStores(st: RelayState, scope: Scope, e: Event)
    requires WellFiled(st) && IsManaged(st, scope, e) && e.kind == DELETE_GROUP_9008
    ensures var g := st.groups[KeyOf(scope, e).value];
      RunAll(st.store, [Delete(Filter(None, Some(g.id), None), g.scope),
                        Delete(Filter(None, None, Some(g.id)), g.scope),
                        SaveSigned(e, g.scope)])
      == st.store - Removed(st, scope, e) + {Stored(scope, e)}
  {
    hide RunAll, CarriesH, CarriesD, Inv;
    var g := st.groups[KeyOf(scope, e).value];
    RunDeletes(st.store, Filter(None, Some(g.id), None), Filter(None, None, Some(g.id)), e, g.scope);
  }

  /** A stored event disappears only by a 9005 or 9008 that an editor of a managed
      group signed, and only if it carries that group's id: in `h`, or, for a
      9008, in `d`. */
  lemma DeletionIsLocal(st: RelayState, scope: Scope, e: Event, now: U64, admitted: bool, cfg: Config, s: Stored)
    requires WellFiled(st) && s in st.store
    ensures s !in StepRelay(st, scope, e, now, admitted, cfg).store ==>
      && IsManaged(st, scope, e) && s.scope == scope
      && var g := st.groups[KeyOf(scope, e).value];
      && CanEdit(g, e.pubkey, cfg.relay)
      && ((e.kind == DELETE_EVENT_9005 && s.e.id in EventIds(e.tags) && CarriesH(s.e, g.id)) ||
          (e.kind == DELETE_GROUP_9008 && (CarriesH(s.e, g.id) || CarriesD(s.e, g.id))))
  {
    hide RunAll, Inv, EventIds, CarriesH, CarriesD, Dispatch, CanEdit, GroupIdOf, StepRelay;
    StepStores(st, scope, e, now, admitted, cfg);
    DeletionIsByEditor(st, scope, e, now, admitted, cfg);
  }

  /** Letting somebody in leaves a 9000 about it. */
  lemma {:induction false} PutIsSigned(puts: set<Put>, cmds: seq<Command>, now: U64, group: string,
                                       members: Members, scope: Scope, k: PublicKey)
    requires Generate(PutUsers(group, members), scope) in cmds && k in members
    requires forall c :: c in cmds ==> !c.Delete?
    ensures Put(scope, group, PUT_ID(now, group, k, Admin in members[k])) in RunPuts(puts, cmds, now)
  {
    var n := |cmds| - 1;
    assert cmds[n] in cmds;
    if cmds[n] != Generate(PutUsers(group, members), scope) {
      PutIsSigned(puts, cmds[..n], now, group, members, scope, k);
    }
  }

  lemma SavingDeletesNothing(cmds: seq<Command>, e: Event, scope: Scope)
    requires OnlySaves(cmds, e, scope)
    ensures forall c :: c in cmds ==> !c.Delete?
  {
  }

  lemma DispatchKeepsPuts(st: RelayState, scope: Scope, e: Event, now: U64, admitted: bool, cfg: Config)
    ensures Dispatch(st, scope, e, now, admitted, cfg).st.puts == st.puts
  {
    hide Handle, CreatedGroup, StateEvents, Participants, WasGroupDeleted, CanEdit, Query;
  }

  lemma DeleteCommands(g: GroupState, e: Event, now: U64, cfg: Config)
    requires e.kind == DELETE_EVENT_9005 && Handle(g, e, now, cfg).result.Accepted?
    ensures Handle(g, e, now, cfg).result.cmds ==
      [Delete(Filter(Some(EventIds(e.tags)), Some(g.id), None), g.scope), SaveSigned(e, g.scope)]
  {
    hide EventIds, AdminsOf;
  }

  /** The 9000s a command has the relay sign. */
  predicate Signs(c: Command, now: U64, p: Put) {
    && c.Generate? && c.emission.PutUsers? && p.scope == c.scope && p.group == c.emission.group
    && exists k :: k in c.emission.members && p.id == PUT_ID(now, p.group, k, Admin in c.emission.members[k])
  }

  lemma {:induction false} RunPutsSigns(puts: set<Put>, cmds: seq<Command>, now: U64, p: Put)
    requires forall c :: c in cmds ==> !c.Delete?
    ensures p in RunPuts(puts, cmds, now) <==> p in puts || exists c :: c in cmds && Signs(c, now, p)
  {
    hide Signs;
    if cmds != [] {
      var n := |cmds| - 1;
      assert cmds[n] in cmds;
      hide RunPut;
      RunPutsSigns(puts, cmds[..n], now, p);
      RunPutSigns(RunPuts(puts, cmds[..n], now), cmds[n], now, p);
      assert forall c :: c in cmds <==> c in cmds[..n] || c == cmds[n];
    }
  }

  lemma RunPutSigns(puts: set<Put>, c: Command, now: U64, p: Put)
    requires !c.Delete?
    ensures p in RunPut(puts, c, now) <==> p in puts || Signs(c, now, p)
  {
    if c.Generate? && c.emission.PutUsers? {
      var m := c.emission.members;
      if k :| k in m && p == Put(c.scope, c.emission.group, PUT_ID(now, c.emission.group, k, Admin in m[k])) {
        assert Signs(c, now, p);
      }
    }
  }

  predicate RemovesPut(g: GroupState, e: Event, p: Put) {
    p.scope == g.scope && p.group == g.id && (e.kind == DELETE_EVENT_9005 ==> p.id in EventIds(e.tags))
  }

  /** The relay's own 9000s after an accepted event: what was there and what it has the
      relay sign, less what a 9005 or 9008 of a managed group reaches. */
  lemma StepPuts(st: RelayState, scope: Scope, e: Event, now: U64, admitted: bool, cfg: Config, p: Put)
    requires WellFiled(st)
    ensures var o := Dispatch(st, scope, e, now, admitted, cfg);
      var after := StepRelay(st, scope, e, now, admitted, cfg).puts;
      && (o.result.Refused? ==> after == st.puts)
      && (o.result.Accepted? && !(IsManaged(st, scope, e) && e.kind in {DELETE_EVENT_9005, DELETE_GROUP_9008}) ==>
            (p in after <==> p in st.puts || exists c :: c in o.result.cmds && Signs(c, now, p)))
      && (o.result.Accepted? && IsManaged(st, scope, e) && e.kind in {DELETE_EVENT_9005, DELETE_GROUP_9008} ==>
            var g := st.groups[KeyOf(scope, e).value];
            (p in after <==> p in st.puts && !RemovesPut(g, e, p)))
  {
    DispatchSavesOrDeletes(st, scope, e, now, admitted, cfg);
    DispatchKeepsPuts(st, scope, e, now, admitted, cfg);
    hide RunAll, RunPuts, Inv, EventIds, Dispatch, CanEdit, OnlySaves, GroupIdOf, Handle, Signs, RunPut, Reaches;
    var o := Dispatch(st, scope, e, now, admitted, cfg);
    if o.result.Accepted? {
      if !IsManaged(st, scope, e) || e.kind !in {DELETE_EVENT_9005, DELETE_GROUP_9008} {
        SavingDeletesNothing(o.result.cmds, e, scope);
        RunPutsSigns(st.puts, o.result.cmds, now, p);
      } else if e.kind == DELETE_EVENT_9005 {
        DeleteReachesPuts(st, scope, e, now, cfg, p);
      } else {
        AdmittedOrRefused(st, scope, e, now, admitted, cfg);
        GroupDeletionTakesPuts(st, scope, e, now, cfg);
      }
    }
  }

  /** A 9000 the relay signed disappears the same way: only by a 9005 that names it or a
      9008, from an editor of the managed group whose id it carries. */
  lemma PutDeletionIsLocal(st: RelayState, scope: Scope, e: Event, now: U64, admitted: bool, cfg: Config, p: Put)
    requires WellFiled(st) && p in st.puts
    ensures p !in StepRelay(st, scope, e, now, admitted, cfg).puts ==>
      && IsManaged(st, scope, e) && p.scope == scope
      && var g := st.groups[KeyOf(scope, e).value];
      && CanEdit(g, e.pubkey, cfg.relay) && p.group == g.id
      && ((e.kind == DELETE_EVENT_9005 && p.id in EventIds(e.tags)) || e.kind == DELETE_GROUP_9008)
  {
    hide *;
    StepPuts(st, scope, e, now, admitted, cfg, p);
    DeletionIsByEditor(st, scope, e, now, admitted, cfg);
    if IsManaged(st, scope, e) { RemovesPutMeans(st, scope, e, p); }
  }

  lemma RemovesPutMeans(st: RelayState, scope: Scope, e: Event, p: Put)
    requires WellFiled(st) && IsManaged(st, scope, e)
    ensures var g := st.groups[KeyOf(scope, e).value];
      RemovesPut(g, e, p) <==> p.scope == scope && p.group == g.id && (e.kind == DELETE_EVENT_9005 ==> p.id in EventIds(e.tags))
  {
    hide EventIds, Inv;
  }

  lemma DeletionIsByEditor(st: RelayState, scope: Scope, e: Event, now: U64, admitted: bool, cfg: Config)
    requires WellFiled(st)
    ensures Dispatch(st, scope, e, now, admitted, cfg).result.Accepted? && IsManaged(st, scope, e) ==>
      e.kind in {DELETE_EVENT_9005, DELETE_GROUP_9008} ==> CanEdit(st.groups[KeyOf(scope, e).value], e.pubkey, cfg.relay)
  {
    hide RunAll, Inv, EventIds, Dispatch, CanEdit, OnlySaves, KeyOf, Handle;
    DispatchSavesOrDeletes(st, scope, e, now, admitted, cfg);
    if IsManaged(st, scope, e) && e.kind == DELETE_EVENT_9005 && Dispatch(st, scope, e, now, admitted, cfg).result.Accepted? {
      AcceptedDeleteIsByEditor(st.groups[KeyOf(scope, e).value], e, now, cfg);
    }
  }

  lemma DeleteReachesPuts(st: RelayState, scope: Scope, e: Event, now: U64, cfg: Config, p: Put)
    requires WellFiled(st) && IsManaged(st, scope, e) && e.kind == DELETE_EVENT_9005
    requires Handle(st.groups[KeyOf(scope, e).value], e, now, cfg).result.Accepted?
    ensures var g := st.groups[KeyOf(scope, e).value];
      p in RunPuts(st.puts, Handle(g, e, now, cfg).result.cmds, now) <==> p in st.puts && !RemovesPut(g, e, p)
  {
    hide Inv, EventIds, GroupIdOf, Handle, RunPuts;
    var g := st.groups[KeyOf(scope, e).value];
    DeleteCommands(g, e, now, cfg);
    UnfoldTwoPuts(st.puts, Delete(Filter(Some(EventIds(e.tags)), Some(g.id), None), g.scope), SaveSigned(e, g.scope), now);
  }

  lemma AdmittedOrRefused(st: RelayState, scope: Scope, e: Event, now: U64, admitted: bool, cfg: Config)
    ensures Dispatch(st, scope, e, now, admitted, cfg).result.Accepted? ==> admitted
  {
    hide Create, DeleteGroup, ToGroup;
  }

  lemma UnfoldTwoPuts(puts: set<Put>, a: Command, b: Command, now: U64)
    ensures RunPuts(puts, [a, b], now) == RunPut(RunPut(puts, a, now), b, now)
  {
    hide RunPut;
    assert [a][..0] == [] && [a, b][..1] == [a];
    assert RunPuts(puts, [a], now) == RunPut(puts, a, now);
  }

  /** An accepted 9008 takes with it every 9000 the relay signed for that id. */
  lemma GroupDeletionTakesPuts(st: RelayState, scope: Scope, e: Event, now: U64, cfg: Config)
    requires WellFiled(st) && IsManaged(st, scope, e) && e.kind == DELETE_GROUP_9008
    requires Dispatch(st, scope, e, now, true, cfg).result.Accepted?
    ensures var g := st.groups[KeyOf(scope, e).value];
      StepRelay(st, scope, e, now, true, cfg).puts == set p | p in st.puts && !(p.scope == scope && p.group == g.id)
  {
    DispatchSavesOrDeletes(st, scope, e, now, true, cfg);
    DispatchKeepsPuts(st, scope, e, now, true, cfg);
    hide RunAll, Inv, Dispatch, CanEdit, OnlySaves, GroupIdOf;
    var g := st.groups[KeyOf(scope, e).value];
    var a, b := Delete(Filter(None, Some(g.id), None), g.scope), Delete(Filter(None, None, Some(g.id)), g.scope);
    var c := SaveSigned(e, g.scope);
    UnfoldPuts(st.puts, a, b, c, now);
  }

  lemma UnfoldPuts(puts: set<Put>, a: Command, b: Command, c: Command, now: U64)
    ensures RunPuts(puts, [a, b, c], now) == RunPut(RunPut(RunPut(puts, a, now), b, now), c, now)
  {
    hide RunPut;
    assert [a][..0] == [] && [a, b][..1] == [a] && [a, b, c][..2] == [a, b];
    assert RunPuts(puts, [a], now) == RunPut(puts, a, now);
  }

  lemma AcceptedDeleteIsByEditor(g: GroupState, e: Event, now: U64, cfg: Config)
    requires e.kind == DELETE_EVENT_9005 && Handle(g, e, now, cfg).result.Accepted?
    ensures CanEdit(g, e.pubkey, cfg.relay) && Handle(g, e, now, cfg).result.cmds != []
  {
    hide EventIds, AdminsOf;
  }

  // ----- Creation and the group invariant ----------------------------------------------

  lemma CreatedIsSound(e: Event, id: string, scope: Scope, participants: set<PublicKey>, cfg: Config)
    ensures Inv(CreatedGroup(e, id, scope, participants, cfg))
  {
    hide Metadata.ApplyTags, ForcePublic, Metadata.Valid;
    assert e.pubkey in AdminsOf(CreatedMembers(e.pubkey, participants));
    FreshIsValid(id);
    Metadata.ApplyKeepsValid(Metadata.FreshMeta(id), e.tags);
    ForcingKeepsValid(Metadata.ApplyTags(Metadata.FreshMeta(id), e.tags), cfg.forcePublic);
  }

  lemma FreshIsValid(id: string)
    ensures Metadata.Valid(Metadata.FreshMeta(id))
  {
  }

  /** Whatever events arrive, tidy or not, every group has an admin and nobody in it
      is also waiting to join. */
  lemma StepKeepsWellFiled(st: RelayState, scope: Scope, e: Event, now: U64, admitted: bool, cfg: Config)
    requires WellFiled(st)
    ensures WellFiled(StepRelay(st, scope, e, now, admitted, cfg))
  {
    StepGroups(st, scope, e, now, admitted, cfg);
    hide Inv, Handle, CreatedGroup, StepRelay, Participants;
    if IsManaged(st, scope, e) { HandleLaws(st.groups[KeyOf(scope, e).value], e, now, cfg); }
    if KeyOf(scope, e).Some? {
      var id, participants := FirstGroupTag(e.tags), Participants(Query(st.store, KeyOf(scope, e).value));
      if id.Some? {
        CreatedIsSound(e, id.value, scope, participants, cfg);
        CreatedScope(e, id.value, scope, participants, cfg);
      }
    }
  }

  /** The four things an event can do to the map of groups: nothing, make one,
      remove one, or let one answer; all at the event's own key. */
  lemma StepGroups(st: RelayState, scope: Scope, e: Event, now: U64, admitted: bool, cfg: Config)
    ensures var groups := StepRelay(st, scope, e, now, admitted, cfg).groups;
      || groups == st.groups
      || (KeyOf(scope, e).Some? &&
          var key := KeyOf(scope, e).value;
          || (key in st.groups && e.kind == DELETE_GROUP_9008 && groups == st.groups - {key} &&
              Dispatch(st, scope, e, now, admitted, cfg).result.Accepted?)
          || (key in st.groups && e.kind != DELETE_GROUP_9008
              && groups == st.groups[key := Handle(st.groups[key], e, now, cfg).g])
          || (key !in st.groups && e.kind == CREATE_9007 && FirstGroupTag(e.tags).Some? && !WasGroupDeleted(st.store, key) &&
              groups == st.groups[key := CreatedGroup(e, FirstGroupTag(e.tags).value, scope,
                                                      Participants(Query(st.store, key)), cfg)]))
  {
    hide Handle, CreatedGroup, RunAll, StateEvents, Participants, WasGroupDeleted, CanEdit;
  }

  lemma CreatedScope(e: Event, id: string, scope: Scope, participants: set<PublicKey>, cfg: Config)
    ensures CreatedGroup(e, id, scope, participants, cfg).scope == scope
    ensures CreatedGroup(e, id, scope, participants, cfg).id == id
  {
  }

  // ----- Tidy events ---------------------------------------------------------------------

  predicate OneH(tags: seq<Tag>) {
    forall i, j :: 0 <= i < j < |tags| ==> !(tags[i].kind == H && tags[j].kind == H)
  }

  /** One `h` tag at most; a 9007 names the same group whichever way it is read; and
      a 9008 carries no `d` tag. */
  predicate Tidy(e: Event) {
    && OneH(e.tags)
    && (e.kind == CREATE_9007 ==> FirstGroupTag(e.tags) == FindContent(e.tags, H))
    && (e.kind == DELETE_GROUP_9008 ==> !HasTag(e.tags, D))
  }

  lemma {:induction false} OneHMeans(tags: seq<Tag>, id: string)
    requires OneH(tags)
    ensures (exists t :: t in tags && t.kind == H && t.Content() == Some(id)) <==> FindContent(tags, H) == Some(id)
  {
    if tags != [] {
      OneHMeans(tags[1..], id);
      if tags[0].kind == H {
        forall t | t in tags[1..] ensures t.kind != H {
          var j :| 0 <= j < |tags| - 1 && tags[1..][j] == t;
          assert tags[j + 1] == t;
        }
        assert FindContent(tags, H) == Some(id) ==> tags[0] in tags;
      } else {
        if FindContent(tags, H) == Some(id) {
          var t :| t in tags[1..] && t.kind == H && t.Content() == Some(id);
          assert t in tags;
        }
      }
    }
  }

  lemma CarriesOnlyItsH(e: Event, id: string)
    requires OneH(e.tags)
    ensures CarriesH(e, id) <==> FindContent(e.tags, H) == Some(id)
  {
    OneHMeans(e.tags, id);
  }

  lemma KeyIsCarried(scope: Scope, e: Event)
    requires !IsAddressable(e.kind) && KeyOf(scope, e).Some?
    ensures CarriesH(e, KeyOf(scope, e).value.1)
  {
    FoundIsCarried(e.tags, H, KeyOf(scope, e).value.1);
  }

  lemma QueryMeans(store: set<Stored>, key: Key, e: Event)
    ensures e in Query(store, key) <==> Stored(key.0, e) in store && CarriesH(e, key.1)
  {
    if e in Query(store, key) {
      var s :| s in store && s.scope == key.0 && CarriesH(s.e, key.1) && s.e == e;
      assert s == Stored(key.0, e);
    }
    if Stored(key.0, e) in store && CarriesH(e, key.1) {
      var s := Stored(key.0, e);
      assert s.e in Query(store, key);
    }
  }

  // ----- Deletion is final -----------------------------------------------------------------

  /** Gone, with the 9008 that says so still stored. */
  ghost predicate Buried(st: RelayState, key: Key) {
    key !in st.groups && WasGroupDeleted(st.store, key)
  }

  predicate IsTombstone(s: Stored, key: Key) {
    s.scope == key.0 && s.e.kind == DELETE_GROUP_9008 && CarriesH(s.e, key.1)
  }

  lemma TombstonesMean(store: set<Stored>, key: Key)
    ensures WasGroupDeleted(store, key) <==> exists s :: s in store && IsTombstone(s, key)
  {
    hide CarriesH;
    if WasGroupDeleted(store, key) {
      var e :| e in Query(store, key) && e.kind == DELETE_GROUP_9008;
      QueryMeans(store, key, e);
      assert IsTombstone(Stored(key.0, e), key);
    }
    if s :| s in store && IsTombstone(s, key) {
      assert s == Stored(key.0, s.e);
      QueryMeans(store, key, s.e);
    }
  }

  /** A buried key can only come back through its own 9007, and that is refused. */
  lemma BuriedIsNotCreated(st: RelayState, scope: Scope, e: Event, now: U64, admitted: bool, cfg: Config, key: Key)
    requires Buried(st, key)
    ensures key !in StepRelay(st, scope, e, now, admitted, cfg).groups
  {
    StepGroups(st, scope, e, now, admitted, cfg);
    hide StepRelay, WasGroupDeleted, CreatedGroup, Handle, Participants;
  }

  /** What undoes the burial of a key: an admitted 9005 or 9008 in the same scope, from
      an editor of the group that answers it, that reaches every tombstone of the key.
      A 9005 reaches those it names that carry the group's id in `h`, a 9008 those that
      carry it in `h` or `d`; and a 9008 must not be a tombstone of the key itself. */
  ghost predicate Undoes(st: RelayState, scope: Scope, e: Event, admitted: bool, cfg: Config, key: Key) {
    && admitted && scope == key.0 && IsManaged(st, scope, e)
    && var g := st.groups[KeyOf(scope, e).value];
    && CanEdit(g, e.pubkey, cfg.relay)
    && ((e.kind == DELETE_EVENT_9005 &&
         forall s :: s in st.store && IsTombstone(s, key) ==> s.e.id in EventIds(e.tags) && CarriesH(s.e, g.id)) ||
        (e.kind == DELETE_GROUP_9008 && !CarriesH(e, key.1) &&
         forall s :: s in st.store && IsTombstone(s, key) ==> CarriesH(s.e, g.id) || CarriesD(s.e, g.id)))
  }

  lemma EditorMayDelete(g: GroupState, e: Event, now: U64, cfg: Config)
    requires e.kind == DELETE_EVENT_9005 && EventIds(e.tags) != {} && CanEdit(g, e.pubkey, cfg.relay)
    ensures Handle(g, e, now, cfg).result.Accepted? && Handle(g, e, now, cfg).result.cmds != []
  {
    hide EventIds, AdminsOf;
  }

  /** The events that delete: accepted exactly when an editor of the group sends them. */
  lemma DeletionIsAccepted(st: RelayState, scope: Scope, e: Event, now: U64, cfg: Config)
    requires IsManaged(st, scope, e) && CanEdit(st.groups[KeyOf(scope, e).value], e.pubkey, cfg.relay)
    requires e.kind == DELETE_GROUP_9008 || (e.kind == DELETE_EVENT_9005 && EventIds(e.tags) != {})
    ensures var o := Dispatch(st, scope, e, now, true, cfg); o.result.Accepted? && o.result.cmds != []
  {
    hide EventIds, Handle, CanEdit, KeyOf;
    if e.kind == DELETE_EVENT_9005 { EditorMayDelete(st.groups[KeyOf(scope, e).value], e, now, cfg); }
  }

  lemma UndoingReaches(st: RelayState, scope: Scope, e: Event, admitted: bool, cfg: Config, key: Key, s: Stored)
    requires WellFiled(st) && Undoes(st, scope, e, admitted, cfg, key)
    ensures s in st.store && IsTombstone(s, key) ==> s in Removed(st, scope, e)
    ensures !IsTombstone(Stored(scope, e), key)
  {
    hide Inv, EventIds, CarriesH, CarriesD, CanEdit, GroupIdOf;
  }

  lemma TombstonesGoIff(st: RelayState, scope: Scope, e: Event, now: U64, admitted: bool, cfg: Config, key: Key, s0: Stored)
    requires WellFiled(st) && s0 in st.store && IsTombstone(s0, key)
    ensures var after := StepRelay(st, scope, e, now, admitted, cfg).store;
      (forall s :: s in after ==> !IsTombstone(s, key)) <==> Undoes(st, scope, e, admitted, cfg, key)
  {
    hide Inv, EventIds, CarriesH, CarriesD, Dispatch, CanEdit, KeyOf, StepRelay, OnlySaves;
    var after := StepRelay(st, scope, e, now, admitted, cfg).store;
    StepStores(st, scope, e, now, admitted, cfg);
    DispatchSavesOrDeletes(st, scope, e, now, admitted, cfg);
    NothingRemoved(st, scope, e);
    if Undoes(st, scope, e, admitted, cfg, key) {
      assert e.kind == DELETE_EVENT_9005 ==> s0.e.id in EventIds(e.tags);
      DeletionIsAccepted(st, scope, e, now, cfg);
      forall s | s in after ensures !IsTombstone(s, key) {
        UndoingReaches(st, scope, e, admitted, cfg, key, s);
        hide *;
        assert s == Stored(scope, e) || (s in st.store && s !in Removed(st, scope, e));
      }
    } else if forall s :: s in after ==> !IsTombstone(s, key) {
      assert s0 !in after;
      DeletionIsLocal(st, scope, e, now, admitted, cfg, s0);
      NotAdmittedStoresNothing(st, scope, e, now, admitted, cfg);
      forall s | s in st.store && IsTombstone(s, key) ensures s in Removed(st, scope, e) { assert s !in after; }
      assert false;
    }
  }

  lemma NotAdmittedStoresNothing(st: RelayState, scope: Scope, e: Event, now: U64, admitted: bool, cfg: Config)
    ensures !admitted ==> StepRelay(st, scope, e, now, admitted, cfg) == st
  {
    hide Create, DeleteGroup, ToGroup, RunAll;
  }

  /** A burial is undone by the next event exactly when that event is one of those. */
  lemma BuriedStaysBuriedIff(st: RelayState, scope: Scope, e: Event, now: U64, admitted: bool, cfg: Config, key: Key)
    requires WellFiled(st) && Buried(st, key)
    ensures !Buried(StepRelay(st, scope, e, now, admitted, cfg), key) <==> Undoes(st, scope, e, admitted, cfg, key)
  {
    hide StepRelay, WasGroupDeleted, IsTombstone, WellFiled, Undoes;
    BuriedIsNotCreated(st, scope, e, now, admitted, cfg, key);
    TombstonesMean(st.store, key);
    TombstonesMean(StepRelay(st, scope, e, now, admitted, cfg).store, key);
    var s :| s in st.store && IsTombstone(s, key);
    TombstonesGoIff(st, scope, e, now, admitted, cfg, key, s);
  }

  // ----- The invariant of tidy runs ------------------------------------------------------------

  /** A group is filed under its own id, a deleted id is not in use, and only
      managed groups have stored invites and join requests. */
  ghost predicate Orderly(st: RelayState) {
    && WellFiled(st)
    && (forall key :: key in st.groups ==> st.groups[key].id == key.1 && !WasGroupDeleted(st.store, key))
    && (forall s :: s in st.store ==> Tidy(s.e))
    && (forall s :: s in st.store && s.e.kind in {JOIN_9021, CREATE_INVITE_9009} ==> IsManaged(st, s.scope, s.e))
  }

  lemma NothingIsWellFiled()
    ensures WellFiled(EMPTY_RELAY)
  {
  }

  /** Runs start from an empty relay. */
  lemma NothingIsOrderly()
    ensures Orderly(EMPTY_RELAY)
  {
  }

  /** A tombstone of a tidy run is out of every other group's reach. */
  lemma TidyStepKeepsBuried(st: RelayState, scope: Scope, e: Event, now: U64, admitted: bool, cfg: Config, key: Key)
    requires Orderly(st) && Buried(st, key)
    ensures Buried(StepRelay(st, scope, e, now, admitted, cfg), key)
  {
    hide StepRelay, Dispatch, WasGroupDeleted, Inv, CarriesH, Participants, CanEdit, EventIds;
    TombstonesMean(st.store, key);
    var s :| s in st.store && IsTombstone(s, key);
    CarriesOnlyItsH(s.e, key.1);
    if IsManaged(st, scope, e) { CarriesOnlyItsH(s.e, st.groups[KeyOf(scope, e).value].id); }
    BuriedStaysBuriedIff(st, scope, e, now, admitted, cfg, key);
  }

  /** The group and its stored invites and requests go together, and the tombstone
      comes after the deletions, so that it outlives them. */
  lemma AcceptedDeletionBuries(st: RelayState, scope: Scope, e: Event, now: U64, admitted: bool, cfg: Config)
    requires WellFiled(st) && e.kind == DELETE_GROUP_9008 && IsManaged(st, scope, e)
    requires Dispatch(st, scope, e, now, admitted, cfg).result.Accepted?
    ensures Buried(StepRelay(st, scope, e, now, admitted, cfg), KeyOf(scope, e).value)
  {
    hide RunAll, Removed, WasGroupDeleted, Inv, CarriesH;
    StepStores(st, scope, e, now, admitted, cfg);
    KeyIsCarried(scope, e);
    var store := StepRelay(st, scope, e, now, admitted, cfg).store;
    assert IsTombstone(Stored(scope, e), KeyOf(scope, e).value);
    TombstonesMean(store, KeyOf(scope, e).value);
  }

  lemma RequestsNeedAGroup(st: RelayState, scope: Scope, e: Event, now: U64, admitted: bool, cfg: Config)
    ensures var o := Dispatch(st, scope, e, now, admitted, cfg);
      e.kind in {JOIN_9021, CREATE_INVITE_9009} && o.result.Accepted? ==> IsManaged(st, scope, e)
  {
    hide Handle, CreatedGroup, StateEvents, Participants, WasGroupDeleted, CanEdit;
  }

  lemma IdsStayTheirOwn(st: RelayState, scope: Scope, e: Event, now: U64, admitted: bool, cfg: Config, key: Key)
    requires Orderly(st) && Tidy(e) && key in StepRelay(st, scope, e, now, admitted, cfg).groups
    ensures StepRelay(st, scope, e, now, admitted, cfg).groups[key].id == key.1
  {
    hide StepRelay, Dispatch, WasGroupDeleted, Inv, CarriesH, Participants, Handle, CreatedGroup, OneH, Query;
    StepGroups(st, scope, e, now, admitted, cfg);
    if IsManaged(st, scope, e) {
      HandleLaws(st.groups[KeyOf(scope, e).value], e, now, cfg);
    } else if KeyOf(scope, e).Some? && FirstGroupTag(e.tags).Some? {
      CreatedScope(e, FirstGroupTag(e.tags).value, scope, Participants(Query(st.store, KeyOf(scope, e).value)), cfg);
    }
  }

  lemma GroupsStayUndeleted(st: RelayState, scope: Scope, e: Event, now: U64, admitted: bool, cfg: Config, key: Key)
    requires Orderly(st) && Tidy(e) && key in StepRelay(st, scope, e, now, admitted, cfg).groups
    ensures !WasGroupDeleted(StepRelay(st, scope, e, now, admitted, cfg).store, key)
  {
    hide StepRelay, Dispatch, WasGroupDeleted, Inv, CarriesH, Participants, Handle, CreatedGroup, Removed, OneH, Query;
    StepGroups(st, scope, e, now, admitted, cfg);
    StepStores(st, scope, e, now, admitted, cfg);
    var store := StepRelay(st, scope, e, now, admitted, cfg).store;
    TombstonesMean(store, key);
    TombstonesMean(st.store, key);
    if s :| s in store && IsTombstone(s, key) {
      CarriesOnlyItsH(s.e, key.1);
      if s !in st.store && key in st.groups {
        AcceptedDeletionBuries(st, scope, e, now, admitted, cfg);
      }
      assert false;
    }
  }

  lemma RequestsStayManaged(st: RelayState, scope: Scope, e: Event, now: U64, admitted: bool, cfg: Config, s: Stored)
    requires Orderly(st) && s in StepRelay(st, scope, e, now, admitted, cfg).store
    requires s.e.kind in {JOIN_9021, CREATE_INVITE_9009}
    ensures IsManaged(StepRelay(st, scope, e, now, admitted, cfg), s.scope, s.e)
  {
    hide StepRelay, Dispatch, WasGroupDeleted, Inv, CarriesH, CarriesD, Participants, Handle, CreatedGroup, OneH, Tidy;
    StepGroups(st, scope, e, now, admitted, cfg);
    StepStores(st, scope, e, now, admitted, cfg);
    RequestsNeedAGroup(st, scope, e, now, admitted, cfg);
    KeyIsCarried(s.scope, s.e);
    if e.kind == DELETE_GROUP_9008 && KeyOf(scope, e) == KeyOf(s.scope, s.e) && s in st.store {
      DispatchSavesOrDeletes(st, scope, e, now, admitted, cfg);
      assert s in Removed(st, scope, e);
    }
  }

  lemma StepKeepsOrderly(st: RelayState, scope: Scope, e: Event, now: U64, admitted: bool, cfg: Config)
    requires Orderly(st) && Tidy(e)
    ensures Orderly(StepRelay(st, scope, e, now, admitted, cfg))
  {
    hide StepRelay, Dispatch, WasGroupDeleted, WellFiled, Tidy, Removed, IsManaged;
    var st' := StepRelay(st, scope, e, now, admitted, cfg);
    StepKeepsWellFiled(st, scope, e, now, admitted, cfg);
    StepStores(st, scope, e, now, admitted, cfg);
    forall key | key in st'.groups ensures st'.groups[key].id == key.1 && !WasGroupDeleted(st'.store, key) {
      IdsStayTheirOwn(st, scope, e, now, admitted, cfg, key);
      GroupsStayUndeleted(st, scope, e, now, admitted, cfg, key);
    }
    forall s | s in st'.store && s.e.kind in {JOIN_9021, CREATE_INVITE_9009} ensures IsManaged(st', s.scope, s.e) {
      RequestsStayManaged(st, scope, e, now, admitted, cfg, s);
    }
  }

  // ----- Runs -------------------------------------------------------------------------------------

  datatype Arrival = Arrival(scope: Scope, e: Event, now: U64, admitted: bool)

  function StepOn(st: RelayState, a: Arrival, cfg: Config): RelayState {
    StepRelay(st, a.scope, a.e, a.now, a.admitted, cfg)
  }

  ghost predicate IsRelayRun(sts: seq<RelayState>, arrivals: seq<Arrival>, cfg: Config) {
    && |sts| == |arrivals| + 1
    && forall n :: 0 <= n < |arrivals| ==> sts[n + 1] == StepOn(sts[n], arrivals[n], cfg)
  }

  predicate AllTidy(arrivals: seq<Arrival>) {
    forall n :: 0 <= n < |arrivals| ==> Tidy(arrivals[n].e)
  }

  lemma RunStep(sts: seq<RelayState>, arrivals: seq<Arrival>, cfg: Config, n: nat)
    requires IsRelayRun(sts, arrivals, cfg) && n < |arrivals|
    ensures |sts| == |arrivals| + 1 && sts[n + 1] == StepOn(sts[n], arrivals[n], cfg)
    ensures var a := arrivals[n]; sts[n + 1] == StepRelay(sts[n], a.scope, a.e, a.now, a.admitted, cfg)
    ensures AllTidy(arrivals) ==> Tidy(arrivals[n].e)
  {
    hide StepRelay, Tidy;
  }

  /** Over every run of arbitrary events from an empty relay, every group has an
      admin and nobody in a group is also waiting to join it. */
  lemma {:induction false} EveryGroupStaysSound(sts: seq<RelayState>, arrivals: seq<Arrival>, cfg: Config, n: nat)
    requires IsRelayRun(sts, arrivals, cfg) && n < |sts| && sts[0] == EMPTY_RELAY
    ensures WellFiled(sts[n])
  {
    hide StepRelay, Tidy, Orderly, Buried, WellFiled, Dispatch;
    NothingIsWellFiled();
    if n > 0 {
      RunStep(sts, arrivals, cfg, n - 1);
      EveryGroupStaysSound(sts, arrivals, cfg, n - 1);
      StepKeepsWellFiled(sts[n - 1], arrivals[n - 1].scope, arrivals[n - 1].e, arrivals[n - 1].now,
                         arrivals[n - 1].admitted, cfg);
    }
  }

  lemma {:induction false} RunStaysOrderly(sts: seq<RelayState>, arrivals: seq<Arrival>, cfg: Config, n: nat)
    requires IsRelayRun(sts, arrivals, cfg) && AllTidy(arrivals) && n < |sts| && Orderly(sts[0])
    ensures Orderly(sts[n])
  {
    hide StepRelay, Tidy, Orderly, Buried, WellFiled, Dispatch;
    if n > 0 {
      RunStep(sts, arrivals, cfg, n - 1);
      RunStaysOrderly(sts, arrivals, cfg, n - 1);
      StepKeepsOrderly(sts[n - 1], arrivals[n - 1].scope, arrivals[n - 1].e, arrivals[n - 1].now,
                       arrivals[n - 1].admitted, cfg);
    }
  }

  lemma {:induction false} RunKeepsBuried(sts: seq<RelayState>, arrivals: seq<Arrival>, cfg: Config, key: Key,
                                          m: nat, n: nat)
    requires IsRelayRun(sts, arrivals, cfg) && AllTidy(arrivals) && m <= n < |sts| && Orderly(sts[0])
    requires Buried(sts[m], key)
    ensures Buried(sts[n], key)
  {
    hide StepRelay, Tidy, Orderly, Buried, WellFiled, Dispatch;
    if m < n {
      RunStep(sts, arrivals, cfg, n - 1);
      RunKeepsBuried(sts, arrivals, cfg, key, m, n - 1);
      RunStaysOrderly(sts, arrivals, cfg, n - 1);
      TidyStepKeepsBuried(sts[n - 1], arrivals[n - 1].scope, arrivals[n - 1].e, arrivals[n - 1].now,
                          arrivals[n - 1].admitted, cfg, key);
    }
  }

  /** Deletion is final: once a 9008 has been accepted, no later run of tidy events
      puts that group back. */
  lemma DeletedStaysDeleted(sts: seq<RelayState>, arrivals: seq<Arrival>, cfg: Config, m: nat, n: nat)
    requires IsRelayRun(sts, arrivals, cfg) && AllTidy(arrivals) && Orderly(sts[0])
    requires m < n < |sts| && arrivals[m].e.kind == DELETE_GROUP_9008
    requires var a := arrivals[m];
      IsManaged(sts[m], a.scope, a.e) && Dispatch(sts[m], a.scope, a.e, a.now, a.admitted, cfg).result.Accepted?
    ensures KeyOf(arrivals[m].scope, arrivals[m].e).value !in sts[n].groups
  {
    var a := arrivals[m];
    RunStaysOrderly(sts, arrivals, cfg, m);
    AcceptedDeletionBuries(sts[m], a.scope, a.e, a.now, a.admitted, cfg);
    RunKeepsBuried(sts, arrivals, cfg, KeyOf(a.scope, a.e).value, m + 1, n);
  }
}
