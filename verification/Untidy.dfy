/** What events that name two groups can do, each with the events that do it: bring a
    deleted group back, by a 9007 or by a 9008, and take another group's published
    lists over. */
module Untidy {
  import opened Nostr
  import opened GroupModel
  import opened GroupLaws
  import opened Printing
  import opened World
  import opened Relay
  import opened RelayLaws
  import opened RelayWorlds
  import Metadata
  import WorldLaws
  import Startup

  lemma NothingCarries(st: RelayState, key: Key)
    requires NothingStored(st, key)
    ensures !WasGroupDeleted(st.store, key) && Query(st.store, key) == {}
  {
    hide Query;
  }

  // ----- Reading two tags --------------------------------------------------------------

  lemma DThenH(e: Event, x: string, y: string)
    requires e.tags == [Tag(D, [x]), Tag(H, [y])] && !IsAddressable(e.kind)
    ensures HasTag(e.tags, H) && GroupIdOf(e) == Some(y) && FirstGroupTag(e.tags) == Some(x)
    ensures FindContent(e.tags, H) == Some(y)
  {
    assert e.tags[0] == Tag(D, [x]) && e.tags[1..] == [Tag(H, [y])] && [x][0] == x && [y][0] == y;
    assert e.tags[1].kind == H;
    assert FindContent(e.tags[1..], H) == Some(y);
  }

  lemma HThenD(e: Event, x: string, y: string)
    requires e.tags == [Tag(H, [x]), Tag(D, [y])] && !IsAddressable(e.kind)
    ensures HasTag(e.tags, H) && HasTag(e.tags, D) && GroupIdOf(e) == Some(x) && CarriesD(e, y)
    ensures forall z :: CarriesH(e, z) <==> z == x
  {
    assert e.tags[0].kind == H && e.tags[1].kind == D;
    assert Tag(D, [y]) in e.tags && Tag(D, [y]).Content() == Some(y) && Tag(H, [x]).Content() == Some(x);
  }

  lemma OnlyH(e: Event, x: string)
    requires e.tags == [Tag(H, [x])] && !IsAddressable(e.kind)
    ensures HasTag(e.tags, H) && GroupIdOf(e) == Some(x) && FirstGroupTag(e.tags) == Some(x)
    ensures forall z :: CarriesH(e, z) <==> z == x
  {
    assert e.tags[0].kind == H && Tag(H, [x]) in e.tags && Tag(H, [x]).Content() == Some(x);
  }

  // ----- Making and deleting ---------------------------------------------------------------

  /** Anybody may make a group where nothing is stored. */
  lemma MadeWhereNothingIs(st: RelayState, scope: Scope, name: string, id: string, e: Event, now: U64, cfg: Config)
    requires (scope, name) !in st.groups && NothingStored(st, (scope, name)) && id != ""
    requires e.kind == CREATE_9007 && GroupIdOf(e) == Some(name) && FirstGroupTag(e.tags) == Some(id)
    ensures var g := CreatedGroup(e, id, scope, {}, cfg);
      && StepRelay(st, scope, e, now, true, cfg).groups == st.groups[(scope, name) := g]
      && Dispatch(st, scope, e, now, true, cfg).result == Accepted(StateEvents(g, e, cfg))
      && g.id == id && g.IsAdmin(e.pubkey)
  {
    hide RunAll, Query, StateEvents, FirstGroupTag, FindContent, HasTag, WasGroupDeleted;
    NothingCarries(st, (scope, name));
    var a := Arrival(scope, e, now, true);
    CreationIsAcceptedIff(st, a, cfg);
    assert Participants(Query(st.store, (scope, name))) == {};
    DispatchIs(st, scope, e, now, true, cfg);
    CreatedLists(e, id, scope, {}, cfg);
    assert e.pubkey in AdminsOf(CreatedGroup(e, id, scope, {}, cfg).members);
  }

  /** An admin may delete a group: it goes, and with it all that carries its id. */
  lemma DeletedByAdmin(st: RelayState, scope: Scope, name: string, e: Event, now: U64, cfg: Config)
    requires WellFiled(st) && (scope, name) in st.groups && st.groups[(scope, name)].IsAdmin(e.pubkey)
    requires e.kind == DELETE_GROUP_9008 && GroupIdOf(e) == Some(name)
    ensures var st', id := StepRelay(st, scope, e, now, true, cfg), st.groups[(scope, name)].id;
      && st'.groups == st.groups - {(scope, name)}
      && (forall s :: s in st'.store <==>
            s == Stored(scope, e) || (s in st.store && !(s.scope == scope && (CarriesH(s.e, id) || CarriesD(s.e, id)))))
      && st'.puts == set p | p in st.puts && !(p.scope == scope && p.group == id)
  {
    hide RunAll, RunPuts, Query, Inv, GroupIdOf, CarriesH, CarriesD, HasTag;
    StepStores(st, scope, e, now, true, cfg);
    DeletionIsAccepted(st, scope, e, now, cfg);
    GroupDeletionTakesPuts(st, scope, e, now, cfg);
  }

  // ----- Deletions undone ----------------------------------------------------------------------

  /** A 9007 whose `d` tag comes before its `h` tag files a group under one name and
      gives it the other as id.  Deleting that group deletes the tombstone of the
      group it only pretends to be, and that one can be created again. */
  lemma UntidyCreationUnburies(st: RelayState, scope: Scope, x: string, y: string, author: PublicKey, now: U64, cfg: Config,
                               id1: EventId, id2: EventId, id3: EventId)
    requires WellFiled(st) && Buried(st, (scope, x)) && x != "" && x != y
    requires (scope, y) !in st.groups && NothingStored(st, (scope, y))
    ensures var mixed := Event(id1, author, CREATE_9007, now, [Tag(D, [x]), Tag(H, [y])]);
      var delete := Event(id2, author, DELETE_GROUP_9008, now, [Tag(H, [y])]);
      var again := Event(id3, author, CREATE_9007, now, [Tag(H, [x])]);
      var st1 := StepRelay(st, scope, mixed, now, true, cfg);
      var st2 := StepRelay(st1, scope, delete, now, true, cfg);
      var st3 := StepRelay(st2, scope, again, now, true, cfg);
      && !Tidy(mixed) && !Buried(st2, (scope, x))
      && (scope, x) !in st2.groups && (scope, x) in st3.groups
  {
    hide WasGroupDeleted, StepRelay, Query, Inv, CreatedGroup, StateEvents, OneH, FirstGroupTag, GroupIdOf, HasTag, CarriesH,
         CarriesD, Dispatch, FindContent;
    var mixed := Event(id1, author, CREATE_9007, now, [Tag(D, [x]), Tag(H, [y])]);
    var delete := Event(id2, author, DELETE_GROUP_9008, now, [Tag(H, [y])]);
    var again := Event(id3, author, CREATE_9007, now, [Tag(H, [x])]);
    var st1 := StepRelay(st, scope, mixed, now, true, cfg);
    DThenH(mixed, x, y);
    MadeWhereNothingIs(st, scope, y, x, mixed, now, cfg);
    StepKeepsWellFiled(st, scope, mixed, now, true, cfg);
    OnlyH(delete, y);
    DeletedByAdmin(st1, scope, y, delete, now, cfg);
    var st2 := StepRelay(st1, scope, delete, now, true, cfg);
    forall e ensures e !in Query(st2.store, (scope, x)) { QueryMeans(st2.store, (scope, x), e); }
    assert NothingStored(st2, (scope, x));
    NothingCarries(st2, (scope, x));
    OnlyH(again, x);
    MadeWhereNothingIs(st2, scope, x, x, again, now, cfg);
  }

  /** A 9008 that also carries another group's id in `d` leaves a tombstone which goes
      with that other group.  When the other group is deleted in its turn, anybody may
      make the first one again. */
  lemma ForeignDUnburies(st: RelayState, scope: Scope, x: string, y: string, a: PublicKey, b: PublicKey, now: U64, cfg: Config,
                         id1: EventId, id2: EventId, again: Event)
    requires WellFiled(st) && x != y && x != "" && (scope, x) in st.groups && (scope, y) in st.groups
    requires st.groups[(scope, x)].id == x && st.groups[(scope, x)].IsAdmin(a)
    requires st.groups[(scope, y)].id == y && st.groups[(scope, y)].IsAdmin(b)
    requires again.kind == CREATE_9007 && again.tags == [Tag(H, [x])]
    ensures var first := Event(id1, a, DELETE_GROUP_9008, now, [Tag(H, [x]), Tag(D, [y])]);
      var second := Event(id2, b, DELETE_GROUP_9008, now, [Tag(H, [y])]);
      var st1 := StepRelay(st, scope, first, now, true, cfg);
      var st2 := StepRelay(st1, scope, second, now, true, cfg);
      && !Tidy(first) && Buried(st1, (scope, x)) && !Buried(st2, (scope, x))
      && (scope, x) in StepRelay(st2, scope, again, now, true, cfg).groups
  {
    hide WasGroupDeleted, StepRelay, Query, Inv, CreatedGroup, StateEvents, OneH, FirstGroupTag, GroupIdOf, HasTag, CarriesH,
         CarriesD, Dispatch, FindContent;
    var first := Event(id1, a, DELETE_GROUP_9008, now, [Tag(H, [x]), Tag(D, [y])]);
    var second := Event(id2, b, DELETE_GROUP_9008, now, [Tag(H, [y])]);
    var st1 := StepRelay(st, scope, first, now, true, cfg);
    HThenD(first, x, y);
    DeletedByAdmin(st, scope, x, first, now, cfg);
    assert IsTombstone(Stored(scope, first), (scope, x));
    TombstonesMean(st1.store, (scope, x));
    StepKeepsWellFiled(st, scope, first, now, true, cfg);
    OnlyH(second, y);
    DeletedByAdmin(st1, scope, y, second, now, cfg);
    var st2 := StepRelay(st1, scope, second, now, true, cfg);
    forall e ensures e !in Query(st2.store, (scope, x)) { QueryMeans(st2.store, (scope, x), e); }
    assert NothingStored(st2, (scope, x));
    NothingCarries(st2, (scope, x));
    OnlyH(again, x);
    MadeWhereNothingIs(st2, scope, x, x, again, now, cfg);
  }

  // ----- A group taken over ----------------------------------------------------------------------

  /** The same kind of 9007 sent while the group it pretends to be is managed: accepted
      from anybody, it leaves that group as it is and prints its sender as the only
      member and the only admin under that group's id. */
  lemma CreationTakesOver(st: RelayState, pubs: Publications, scope: Scope, x: string, y: string, mixed: Event,
                          now: U64, cfg: Config)
    requires WellFiled(st) && (scope, x) in st.groups && x != "" && x != y
    requires (scope, y) !in st.groups && NothingStored(st, (scope, y))
    requires mixed.kind == CREATE_9007 && mixed.tags == [Tag(D, [x]), Tag(H, [y])]
    ensures var a := Arrival(scope, mixed, now, true);
      && (scope, x) in StepOn(st, a, cfg).groups
      && StepOn(st, a, cfg).groups[(scope, x)] == st.groups[(scope, x)]
      && Last(PublishOn(st, pubs, a, cfg), (scope, x)).keys == Some({mixed.pubkey})
      && Last(PublishOn(st, pubs, a, cfg), (scope, x)).admins == Some({mixed.pubkey})
  {
    hide StepRelay, Query, Inv, CreatedGroup, StateEvents, FirstGroupTag, GroupIdOf, PrintAll, Last, PrintsItself, Dispatch,
         PublishAll;
    DThenH(mixed, x, y);
    MadeWhereNothingIs(st, scope, y, x, mixed, now, cfg);
    var g := CreatedGroup(mixed, x, scope, {}, cfg);
    CreatedScope(mixed, x, scope, {}, cfg);
    CreatedLists(mixed, x, scope, {}, cfg);
    CreationPrints(g, mixed, cfg);
    PrintsItselfOnly(StateEvents(g, mixed, cfg), g);
    OwnPrints(pubs, StateEvents(g, mixed, cfg), (scope, x));
    assert g.members.Keys == {mixed.pubkey};
    StateEventsPublish(g, mixed, cfg, Last(pubs, (scope, x)));
  }

  /** A restart that reads no more than what the relay itself published then makes that
      sender the only member and the only admin of the group. */
  lemma RestartHandsOver(st: RelayState, pubs: Publications, scope: Scope, x: string, y: string, mixed: Event,
                         now: U64, cfg: Config, us: seq<UnsignedEvent>, order: seq<Event>)
    requires WellFiled(st) && (scope, x) in st.groups && x != "" && x != y
    requires (scope, y) !in st.groups && NothingStored(st, (scope, y))
    requires mixed.kind == CREATE_9007 && mixed.tags == [Tag(D, [x]), Tag(H, [y])]
    requires var a := Arrival(scope, mixed, now, true);
      (scope, x) in StepOn(st, a, cfg).groups && us != [] &&
      IsRestart(WorldOf(StepOn(st, a, cfg), PublishOn(st, pubs, a, cfg), (scope, x)), us, {}, order, cfg)
    ensures var g := Rebuild(us, order, scope, cfg);
      g.members.Keys == {mixed.pubkey} && AdminsOf(g.members) == {mixed.pubkey}
  {
    hide StepOn, PublishOn, Inv, Rebuild, IsRestart, Last, Concerning, Startup.ClaimedKeys, Startup.ClaimedAdmins, AdminsOf,
         Query;
    var a := Arrival(scope, mixed, now, true);
    CreationTakesOver(st, pubs, scope, x, y, mixed, now, cfg);
    NoClaims();
    WorldLaws.RestartReads(WorldOf(StepOn(st, a, cfg), PublishOn(st, pubs, a, cfg), (scope, x)), us, {}, order, cfg);
  }

  /** If the sender then deletes the group it has made, what is published under the other's
      id goes with it, though that group is still there as it was. */
  lemma DeletionErases(st: RelayState, pubs: Publications, scope: Scope, x: string, y: string, mixed: Event, delete: Event,
                       now: U64, cfg: Config)
    requires WellFiled(st) && (scope, x) in st.groups && x != "" && x != y
    requires (scope, y) !in st.groups && NothingStored(st, (scope, y))
    requires mixed.kind == CREATE_9007 && mixed.tags == [Tag(D, [x]), Tag(H, [y])]
    requires delete.kind == DELETE_GROUP_9008 && delete.tags == [Tag(H, [y])] && delete.pubkey == mixed.pubkey
    ensures var a, b := Arrival(scope, mixed, now, true), Arrival(scope, delete, now, true);
      var st1, pubs1 := StepOn(st, a, cfg), PublishOn(st, pubs, a, cfg);
      var st2, pubs2 := StepOn(st1, b, cfg), PublishOn(st1, pubs1, b, cfg);
      && (scope, x) in st2.groups && st2.groups[(scope, x)] == st.groups[(scope, x)]
      && Last(pubs2, (scope, x)) == NOTHING
      && forall e :: e in Query(st2.store, (scope, x)) ==> e == delete
  {
    hide StepRelay, Query, Inv, CreatedGroup, StateEvents, FirstGroupTag, GroupIdOf, PublishOn, Last, CarriesH, CarriesD,
         Dispatch, HasTag, FindContent;
    var a, b := Arrival(scope, mixed, now, true), Arrival(scope, delete, now, true);
    var st1, pubs1 := StepOn(st, a, cfg), PublishOn(st, pubs, a, cfg);
    DThenH(mixed, x, y);
    MadeWhereNothingIs(st, scope, y, x, mixed, now, cfg);
    StepKeepsWellFiled(st, scope, mixed, now, true, cfg);
    OnlyH(delete, y);
    DeletedByAdmin(st1, scope, y, delete, now, cfg);
    DeletionIsAccepted(st1, scope, delete, now, cfg);
    CreatedScope(mixed, x, scope, {}, cfg);
    DeletionPrints(st1, scope, delete, now, true, cfg, pubs1);
    forall e | e in Query(StepOn(st1, b, cfg).store, (scope, x)) ensures e == delete {
      QueryMeans(StepOn(st1, b, cfg).store, (scope, x), e);
    }
  }

  /** After that no restart leaves the group an admin, unless somebody claims to be one. */
  lemma RestartLosesAdmins(st: RelayState, pubs: Publications, key: Key, cfg: Config, us: seq<UnsignedEvent>,
                           claims: set<UnsignedEvent>, order: seq<Event>)
    requires key in st.groups && Last(pubs, key) == NOTHING && us != []
    requires IsRestart(WorldOf(st, pubs, key), us, claims, order, cfg)
    ensures Inv(Rebuild(us, order, st.groups[key].scope, cfg)) <==> Startup.ClaimedAdmins(claims) != {}
  {
    hide Rebuild, IsRestart, Last, Concerning, Startup.ClaimedAdmins, Inv;
    WorldLaws.RestartLeavesAdminIff(WorldOf(st, pubs, key), us, claims, order, cfg);
    assert {} + Startup.ClaimedAdmins(claims) == Startup.ClaimedAdmins(claims);
  }

  // ----- What the relay's own 9000s prevent -----------------------------------------------------

  /** Making a group leaves 9000s under the id it was given, so nobody but the relay can
      file another group where such an id points to.  That stops a second 9007 of this
      kind whose `h` is the `d` of the first. */
  lemma SignedPutsStopCreation(st: RelayState, scope: Scope, y: string, z: string, x: string, first: Event, second: Event,
                               now: U64, later: U64, cfg: Config)
    requires (scope, y) !in st.groups && NothingStored(st, (scope, y)) && z != "" && z != y
    requires first.kind == CREATE_9007 && first.tags == [Tag(D, [z]), Tag(H, [y])]
    requires second.kind == CREATE_9007 && second.tags == [Tag(D, [x]), Tag(H, [z])] && second.pubkey != cfg.relay
    ensures var st1 := StepRelay(st, scope, first, now, true, cfg);
      && Dispatch(st1, scope, second, later, true, cfg).result.Refused?
      && StepRelay(st1, scope, second, later, true, cfg) == st1
  {
    hide RunAll, RunPuts, Query, CreatedGroup, StateEvents, FirstGroupTag, GroupIdOf, WasGroupDeleted, FindContent, HasTag;
    DThenH(first, z, y);
    DThenH(second, x, z);
    MadeWhereNothingIs(st, scope, y, z, first, now, cfg);
    var g := CreatedGroup(first, z, scope, {}, cfg);
    CreatedScope(first, z, scope, {}, cfg);
    CreationSigns(st.puts, g, first, now, cfg);
    var p := Put(scope, z, PUT_ID(now, z, first.pubkey, true));
    assert p in PutsFor(StepRelay(st, scope, first, now, true, cfg).puts, (scope, z));
  }

  lemma CreationSigns(puts: set<Put>, g: GroupState, e: Event, now: U64, cfg: Config)
    requires g.IsAdmin(e.pubkey)
    ensures Put(g.scope, g.id, PUT_ID(now, g.id, e.pubkey, true)) in RunPuts(puts, StateEvents(g, e, cfg), now)
  {
    hide RunPuts, AdminsOf;
    assert StateEvents(g, e, cfg)[3] == Generate(PutUsers(g.id, g.members), g.scope);
    PutIsSigned(puts, StateEvents(g, e, cfg), now, g.id, g.members, g.scope, e.pubkey);
  }

  lemma NoClaims()
    ensures Startup.ClaimedKeys({}) == {} && Startup.ClaimedAdmins({}) == {}
  {
    forall k: PublicKey ensures k !in Startup.ClaimedKeys({}) && k !in Startup.ClaimedAdmins({}) { Startup.ClaimsMean({}, k); }
  }
}
