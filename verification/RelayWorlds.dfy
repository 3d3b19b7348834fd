/** Each group inside the relay lives the life `World` describes, undisturbed by
    the others, and the lists the relay has signed about it stay accurate, as long
    as no event files a group under one name and calls it by another. */
module RelayWorlds {
  import opened Nostr
  import opened GroupModel
  import opened GroupLaws
  import opened Printing
  import opened World
  import opened Relay
  import opened RelayLaws
  import Metadata
  import WorldLaws
  import InviteLaws

  // ----- What the relay has published ------------------------------------------------

  /** The lists and the metadata last signed about each id.  Addressable storage keeps
      one of a kind per `d` tag, which is the id printed, whatever key the printing
      group is filed under. */
  type Publications = map<Key, Published>

  const NOTHING := Published(None, None, None)

  function Last(pubs: Publications, key: Key): Published {
    if key in pubs then pubs[key] else NOTHING
  }

  /** The id whose publications a command writes or deletes; what the relay signs
      about itself carries `d` and no `h`. */
  function Target(c: Command): Option<Key> {
    match c
    case SaveSigned(_, _) => None
    case Generate(emission, scope) => Some((scope, emission.group))
    case Delete(f, scope) => if f.d.Some? then Some((scope, f.d.value)) else None
  }

  function Print(pubs: Publications, c: Command): Publications {
    match Target(c)
    case None => pubs
    case Some(key) => if c.Delete? then pubs - {key} else pubs[key := Publish(Last(pubs, key), c)]
  }

  function PrintAll(pubs: Publications, cmds: seq<Command>): Publications {
    if cmds == [] then pubs else Print(PrintAll(pubs, cmds[..|cmds| - 1]), cmds[|cmds| - 1])
  }

  function PublishOn(st: RelayState, pubs: Publications, a: Arrival, cfg: Config): Publications {
    match Dispatch(st, a.scope, a.e, a.now, a.admitted, cfg).result
    case Refused(_) => pubs
    case Accepted(cmds) => PrintAll(pubs, cmds)
  }

  lemma {:induction false} Untouched(pubs: Publications, cmds: seq<Command>, key: Key)
    requires forall c :: c in cmds ==> Target(c) != Some(key)
    ensures Last(PrintAll(pubs, cmds), key) == Last(pubs, key)
  {
    hide Publish;
    if cmds != [] {
      assert cmds[|cmds| - 1] in cmds;
      Untouched(pubs, cmds[..|cmds| - 1], key);
    }
  }

  /** Commands that print about one id and delete nothing published. */
  predicate PrintsOnly(cmds: seq<Command>, key: Key) {
    forall c :: c in cmds ==> (c.Generate? ==> Target(c) == Some(key)) && (c.Delete? ==> c.filter.d.None?)
  }

  lemma {:induction false} OwnPrints(pubs: Publications, cmds: seq<Command>, key: Key)
    requires PrintsOnly(cmds, key)
    ensures Last(PrintAll(pubs, cmds), key) == PublishAll(Last(pubs, key), cmds)
  {
    if cmds != [] {
      assert cmds[|cmds| - 1] in cmds;
      OwnPrints(pubs, cmds[..|cmds| - 1], key);
    }
  }

  lemma OthersUntouched(pubs: Publications, cmds: seq<Command>, key: Key, other: Key)
    requires PrintsOnly(cmds, key) && other != key
    ensures Last(PrintAll(pubs, cmds), other) == Last(pubs, other)
  {
    Untouched(pubs, cmds, other);
  }

  // ----- What a group prints ----------------------------------------------------------

  /** A group prints under its own id, and the lists of the state it is left in. */
  predicate PrintsItself(cmds: seq<Command>, g: GroupState) {
    && PrintsOnly(cmds, (g.scope, g.id))
    && (forall c :: c in cmds && c.Generate? && c.emission.AdminList? ==> c.emission.admins == AdminsOf(g.members))
    && (forall c :: c in cmds && c.Generate? && c.emission.MemberList? ==> c.emission.keys == g.members.Keys)
  }

  lemma AdminListPrints(g: GroupState, before: seq<Command>, after: seq<Command>)
    requires PrintsItself(before, g) && PrintsItself(after, g)
    ensures var o := WithAdminList(g, before, after); o.result.Accepted? ==> PrintsItself(o.result.cmds, g)
  {
    hide AdminsOf;
  }

  lemma MembershipPrints(g: GroupState, e: Event)
    ensures var o := WithMembership(g, e); o.g == g && (o.result.Accepted? ==> PrintsItself(o.result.cmds, g))
  {
    hide AdminsOf;
    AdminListPrints(g, [SaveSigned(e, g.scope), Generate(PutUsers(g.id, g.members), g.scope)], [MemberListOf(g)]);
  }

  predicate PrintsWell(g: GroupState, o: Outcome) {
    && o.g.id == g.id && o.g.scope == g.scope
    && (o.result.Accepted? ==> PrintsItself(o.result.cmds, o.g))
  }

  lemma ListsPrintWell(g: GroupState, e: Event, now: U64, cfg: Config)
    ensures PrintsWell(g, PutUser(g, e, cfg)) && PrintsWell(g, RemoveUser(g, e, cfg))
  {
    hide PrintsItself, AdminsOf, RemoveNamed, TagsOf;
    match AddMembers(g.members, g.joinRequests, ParsedMembers(TagsOf(e.tags, P))) {
      case NotAdded(_) =>
      case Added(m, j) => ShortAnswersPrint(g.(members := m, joinRequests := j), e);
    }
    match RemoveNamed(AdminsOf(g.members), Removing(g.members, g.joinRequests, false), TagsOf(e.tags, P)) {
      case Stopped(_) =>
      case Removing(m, j, _) => ShortAnswersPrint(g.(members := m, joinRequests := j), e);
    }
  }

  lemma ShortAnswersPrint(g: GroupState, e: Event)
    ensures PrintsItself([SaveSigned(e, g.scope)], g) && PrintsItself([SaveSigned(e, g.scope), MemberListOf(g)], g)
    ensures var o := WithAdminList(g, [SaveSigned(e, g.scope)], [MemberListOf(g)]);
      o.g == g && (o.result.Accepted? ==> PrintsItself(o.result.cmds, g))
    ensures PrintsItself([], g)
  {
    hide AdminsOf;
    AdminListPrints(g, [SaveSigned(e, g.scope)], [MemberListOf(g)]);
  }

  lemma LongerAnswersPrint(g: GroupState, e: Event, ids: set<EventId>, cfg: Config)
    ensures PrintsItself([SaveSigned(e, g.scope), Generate(RoleList(g.id), g.scope), MemberListOf(g)], g)
    ensures PrintsItself([Delete(Filter(Some(ids), Some(g.id), None), g.scope), SaveSigned(e, g.scope)], g)
    ensures PrintsItself([SaveSigned(e, g.scope), Generate(MetadataEvent(g.id, g.meta, cfg.relayUrl), g.scope),
                          Generate(RoleList(g.id), g.scope)], g)
  {
    hide AdminsOf;
  }

  lemma RequestsPrintWell(g: GroupState, e: Event, now: U64, cfg: Config)
    ensures PrintsWell(g, JoinRequest(g, e, now)) && PrintsWell(g, LeaveRequest(g, e)) && PrintsWell(g, Content(g, e))
  {
    hide PrintsItself, AdminsOf, WithMembership, WithAdminList, AddMembers;
    ShortAnswersPrint(g, e);
    ShortAnswersPrint(g.(joinRequests := g.joinRequests + {e.pubkey}), e);
    var left := g.(joinRequests := g.joinRequests - {e.pubkey});
    ShortAnswersPrint(left, e);
    ShortAnswersPrint(left.(members := g.members - {e.pubkey}), e);
    MembershipPrints(Admit(g, e.pubkey, {Member}), e);
    var code := CodeOf(e);
    if code.Some? && code.value in g.invites {
      var invite := g.invites[code.value];
      var used := g.invites[code.value := invite.MarkUsed(e.pubkey, e.createdAt)];
      MembershipPrints(Admit(g.(invites := used), e.pubkey, invite.roles), e);
    }
    match AddMembers(g.members, g.joinRequests, [Named(e.pubkey, {Member})])
    case NotAdded(_) =>
    case Added(m, j) => MembershipPrints(g.(members := m, joinRequests := j), e);
  }

  lemma EditsPrintWell(g: GroupState, e: Event, cfg: Config)
    ensures PrintsWell(g, EditMetadata(g, e, cfg)) && PrintsWell(g, CreateInvite(g, e, cfg))
  {
    hide PrintsItself, AdminsOf, ForcePublic, InviteOf;
    LongerAnswersPrint(EditMetadata(g, e, cfg).g, e, {}, cfg);
    ShortAnswersPrint(CreateInvite(g, e, cfg).g, e);
  }

  lemma DeletesPrintWell(g: GroupState, e: Event, cfg: Config)
    ensures PrintsWell(g, DeleteEvent(g, e, cfg)) && PrintsWell(g, SetRoles(g, e, cfg))
  {
    hide PrintsItself, AdminsOf, TagsOf, CheckRoles, AssignRoles, EventIds, WithoutInvites;
    LongerAnswersPrint(DeleteEvent(g, e, cfg).g, e, EventIds(e.tags), cfg);
    LongerAnswersPrint(SetRoles(g, e, cfg).g, e, {}, cfg);
  }

  /** Whatever a group answers, it prints about itself only, and truly. */
  lemma HandlePrints(g: GroupState, e: Event, now: U64, cfg: Config)
    ensures PrintsWell(g, Handle(g, e, now, cfg))
  {
    hide PrintsItself, PutUser, RemoveUser, EditMetadata, DeleteEvent, SetRoles, CreateInvite, JoinRequest,
         LeaveRequest, Content, HasAccess;
    ListsPrintWell(g, e, now, cfg);
    RequestsPrintWell(g, e, now, cfg);
    EditsPrintWell(g, e, cfg);
    DeletesPrintWell(g, e, cfg);
  }

  lemma CreationPrints(g: GroupState, e: Event, cfg: Config)
    ensures PrintsItself(StateEvents(g, e, cfg), g)
  {
    hide AdminsOf;
  }

  predicate PrintsAdmins(cmds: seq<Command>) {
    exists c :: c in cmds && c.Generate? && c.emission.AdminList?
  }

  predicate PrintsMembers(cmds: seq<Command>) {
    exists c :: c in cmds && c.Generate? && c.emission.MemberList?
  }

  lemma {:induction false} PrintedLists(p: Published, cmds: seq<Command>, g: GroupState)
    requires PrintsItself(cmds, g)
    ensures PublishAll(p, cmds).admins == if PrintsAdmins(cmds) then Some(AdminsOf(g.members)) else p.admins
    ensures PublishAll(p, cmds).keys == if PrintsMembers(cmds) then Some(g.members.Keys) else p.keys
  {
    hide AdminsOf;
    if cmds != [] {
      var n := |cmds| - 1;
      PrintedLists(p, cmds[..n], g);
      assert cmds[n] in cmds;
      assert PrintsAdmins(cmds) <==> PrintsAdmins(cmds[..n]) || (cmds[n].Generate? && cmds[n].emission.AdminList?);
      assert PrintsMembers(cmds) <==> PrintsMembers(cmds[..n]) || (cmds[n].Generate? && cmds[n].emission.MemberList?);
    }
  }

  lemma StateEventsPublish(g: GroupState, e: Event, cfg: Config, before: Published)
    ensures PublishAll(before, StateEvents(g, e, cfg)) == Snapshot(g)
  {
    hide AdminsOf;
    var a, b := SaveSigned(e, g.scope), Generate(MetadataEvent(g.id, g.meta, cfg.relayUrl), g.scope);
    var c := Generate(RoleList(g.id), g.scope);
    var d, x, y := Generate(PutUsers(g.id, g.members), g.scope), AdminListOf(g), MemberListOf(g);
    WorldLaws.Unfold(before, {}, a, b, c, d);
    assert [a, b, c, d, x][..4] == [a, b, c, d];
    assert [a, b, c, d, x, y][..5] == [a, b, c, d, x];
  }

  // ----- What dispatch comes to --------------------------------------------------------

  lemma DispatchIs(st: RelayState, scope: Scope, e: Event, now: U64, admitted: bool, cfg: Config)
    ensures var o := Dispatch(st, scope, e, now, admitted, cfg);
      || (o.st == st && o.result.Refused?)
      || (o.st == st && o.result.cmds == [SaveSigned(e, scope)] &&
          (IsManaged(st, scope, e) ==> !IsAbout(e, KeyOf(scope, e).value.1)))
      || (KeyOf(scope, e).Some? &&
          var key := KeyOf(scope, e).value;
          || (key in st.groups && e.kind == DELETE_GROUP_9008 && o.st.groups == st.groups - {key} && o.result.Accepted?)
          || (key in st.groups && e.kind != DELETE_GROUP_9008 &&
              o.st.groups == st.groups[key := Handle(st.groups[key], e, now, cfg).g] &&
              o.result == Handle(st.groups[key], e, now, cfg).result)
          || (key !in st.groups && e.kind == CREATE_9007 && FirstGroupTag(e.tags).Some? && FirstGroupTag(e.tags).value != "" &&
              var g := CreatedGroup(e, FirstGroupTag(e.tags).value, scope, Participants(Query(st.store, key)), cfg);
              o.st.groups == st.groups[key := g] && o.result == Accepted(StateEvents(g, e, cfg))))
  {
    hide Handle, CreatedGroup, StateEvents, Participants, WasGroupDeleted, CanEdit, Query;
  }

  lemma DeletionPrints(st: RelayState, scope: Scope, e: Event, now: U64, admitted: bool, cfg: Config, pubs: Publications)
    requires WellFiled(st) && IsManaged(st, scope, e) && e.kind == DELETE_GROUP_9008
    requires Dispatch(st, scope, e, now, admitted, cfg).result.Accepted?
    ensures var g := st.groups[KeyOf(scope, e).value];
      var pubs' := PublishOn(st, pubs, Arrival(scope, e, now, admitted), cfg);
      && Last(pubs', (g.scope, g.id)) == NOTHING
      && forall other :: other != (g.scope, g.id) ==> Last(pubs', other) == Last(pubs, other)
  {
    hide Inv, Dispatch, CanEdit, OnlySaves;
    DispatchSavesOrDeletes(st, scope, e, now, admitted, cfg);
    var g := st.groups[KeyOf(scope, e).value];
    var a, b := Delete(Filter(None, Some(g.id), None), g.scope), Delete(Filter(None, None, Some(g.id)), g.scope);
    var c := SaveSigned(e, g.scope);
    UnfoldPrints(pubs, a, b, c);
    assert Print(pubs, a) == pubs && Print(pubs, b) == pubs - {(g.scope, g.id)};
  }

  lemma UnfoldPrints(pubs: Publications, a: Command, b: Command, c: Command)
    ensures PrintAll(pubs, [a, b, c]) == Print(Print(Print(pubs, a), b), c)
  {
    hide Print;
    assert [a][..0] == [] && [a, b][..1] == [a] && [a, b, c][..2] == [a, b];
    assert PrintAll(pubs, [a]) == Print(pubs, a);
  }

  /** The state a key's event leaves a group in, and what is then printed about each id. */
  lemma AnswerPrints(st: RelayState, a: Arrival, cfg: Config)
    requires WellFiled(st) && KeyOf(a.scope, a.e).Some?
    requires KeyOf(a.scope, a.e).value in Dispatch(st, a.scope, a.e, a.now, a.admitted, cfg).st.groups
    requires Dispatch(st, a.scope, a.e, a.now, a.admitted, cfg).result.Accepted?
    ensures var key, o := KeyOf(a.scope, a.e).value, Dispatch(st, a.scope, a.e, a.now, a.admitted, cfg);
      && o.st.groups[key].scope == key.0 && PrintsItself(o.result.cmds, o.st.groups[key])
  {
    hide Dispatch, Handle, CreatedGroup, StateEvents, Participants, Query, PrintsItself, Inv, FirstGroupTag, GroupIdOf;
    var key, o := KeyOf(a.scope, a.e).value, Dispatch(st, a.scope, a.e, a.now, a.admitted, cfg);
    DispatchIs(st, a.scope, a.e, a.now, a.admitted, cfg);
    if key in st.groups {
      HandlePrints(st.groups[key], a.e, a.now, cfg);
    } else if FirstGroupTag(a.e.tags).Some? {
      var id, people := FirstGroupTag(a.e.tags).value, Participants(Query(st.store, key));
      CreatedScope(a.e, id, a.scope, people, cfg);
      CreationPrints(CreatedGroup(a.e, id, a.scope, people, cfg), a.e, cfg);
    }
    ShortAnswersPrint(o.st.groups[key], a.e);
  }

  // ----- When the published lists of a group stay accurate ----------------------------

  /** What the last 39001 and 39002 list is who is admin and who is member. */
  predicate ListsAccurate(g: GroupState, p: Published) {
    p.keys == Some(g.members.Keys) && p.admins == Some(AdminsOf(g.members))
  }

  lemma RolesListAccurateIff(g: GroupState, p: Published, e: Event, cfg: Config)
    requires ListsAccurate(g, p) && SetRoles(g, e, cfg).result.Accepted?
    ensures var o := SetRoles(g, e, cfg);
      ListsAccurate(o.g, PublishAll(p, o.result.cmds)) <==> WorldLaws.KeepsAdmins(g, e, {})
  {
    hide AdminsOf, PublishAll, StoreAll, AssignRoles, CheckRoles, WorldLaws.KeepsAdmins, ParseMember;
    var tags := TagsOf(e.tags, P);
    WorldLaws.OtherRecords(g, e, cfg, p, {});
    ChecksPassIff(AdminsOf(g.members), tags);
    AssigningKeepsKeys(g.members, tags);
    WorldLaws.AssigningKeepsAdminsIff(g, e, {});
    assert AdminsOf(g.members) + {} == AdminsOf(g.members);
  }

  /** A group keeps its own lists accurate, except by a 9006 that changes somebody's
      standing. */
  lemma OwnListsAccurateIff(g: GroupState, p: Published, e: Event, now: U64, cfg: Config)
    requires Inv(g) && ListsAccurate(g, p)
    ensures var o := Handle(g, e, now, cfg);
      && (o.result.Refused? ==> o.g == g)
      && (o.result.Accepted? ==>
            (ListsAccurate(o.g, PublishAll(p, o.result.cmds)) <==>
             (e.kind == SET_ROLES_9006 ==> WorldLaws.KeepsAdmins(g, e, {}))))
  {
    hide PutUser, RemoveUser, JoinRequest, LeaveRequest, Content, CreateInvite, DeleteEvent, EditMetadata,
         SetRoles, AdminsOf, Inv, PublishAll, StoreAll, WorldLaws.KeepsAdmins, HasAccess, Matches, EventIds;
    HandleLaws(g, e, now, cfg);
    if e.kind == SET_ROLES_9006 {
      if Handle(g, e, now, cfg).result.Accepted? { RolesListAccurateIff(g, p, e, cfg); }
    } else {
      WorldLaws.PutUserRecords(g, e, cfg, p, {});
      WorldLaws.RemoveUserRecords(g, e, cfg, p, {});
      WorldLaws.LeaveRequestRecords(g, e, p, {});
      WorldLaws.JoinRequestRecords(g, e, now, p, {});
      WorldLaws.ContentRecords(g, e, p, {});
      WorldLaws.OtherRecords(g, e, cfg, p, {});
      WorldLaws.HandleTouches(g, e, now, cfg);
    }
  }

  /** Another group of the scope, made or answering under this group's id, prints a
      list that is not this group's, or is deleted and its lists with it; or the group
      itself carries out a 9006 that changes somebody's standing. */
  ghost predicate Misprints(st: RelayState, a: Arrival, cfg: Config, key: Key) {
    var o := Dispatch(st, a.scope, a.e, a.now, a.admitted, cfg);
    && key in st.groups && o.result.Accepted? && KeyOf(a.scope, a.e).Some?
    && var other := KeyOf(a.scope, a.e).value;
    if other == key then a.e.kind == SET_ROLES_9006 && !WorldLaws.KeepsAdmins(st.groups[key], a.e, {})
    else
      && other.0 == key.0
      && if other in o.st.groups then
           o.st.groups[other].id == key.1 && PrintsAnother(o.result.cmds, o.st.groups[other], st.groups[key])
         else other in st.groups && st.groups[other].id == key.1
  }

  predicate PrintsAnother(cmds: seq<Command>, printed: GroupState, g: GroupState) {
    || (PrintsMembers(cmds) && printed.members.Keys != g.members.Keys)
    || (PrintsAdmins(cmds) && AdminsOf(printed.members) != AdminsOf(g.members))
  }

  lemma SavingPrintsNothing(pubs: Publications, e: Event, scope: Scope)
    ensures PrintAll(pubs, [SaveSigned(e, scope)]) == pubs
  {
    assert [SaveSigned(e, scope)][..0] == [];
  }

  lemma OwnAnswerAccurateIff(st: RelayState, pubs: Publications, a: Arrival, cfg: Config, key: Key)
    requires WellFiled(st) && key in st.groups && key in StepOn(st, a, cfg).groups && KeyOf(a.scope, a.e) == Some(key)
    requires st.groups[key].id == key.1 && ListsAccurate(st.groups[key], Last(pubs, key))
    ensures ListsAccurate(StepOn(st, a, cfg).groups[key], Last(PublishOn(st, pubs, a, cfg), key)) <==>
      !Misprints(st, a, cfg, key)
  {
    hide Dispatch, Handle, CreatedGroup, StateEvents, Participants, Query, Inv, FirstGroupTag, RunAll, PrintAll, Last,
         ListsAccurate, WorldLaws.KeepsAdmins, PublishAll;
    DispatchIs(st, a.scope, a.e, a.now, a.admitted, cfg);
    OwnListsAccurateIff(st.groups[key], Last(pubs, key), a.e, a.now, cfg);
    HandlePrints(st.groups[key], a.e, a.now, cfg);
    SavingPrintsNothing(pubs, a.e, a.scope);
    var o := Handle(st.groups[key], a.e, a.now, cfg);
    if o.result.Accepted? { OwnPrints(pubs, o.result.cmds, key); }
  }

  lemma PrintedAboutOther(pubs: Publications, cmds: seq<Command>, printed: GroupState, g: GroupState, key: Key)
    requires PrintsItself(cmds, printed) && AdminsOf(g.members) != {} && ListsAccurate(g, Last(pubs, key))
    ensures ListsAccurate(g, Last(PrintAll(pubs, cmds), key)) <==>
      !((printed.scope, printed.id) == key && PrintsAnother(cmds, printed, g))
  {
    hide PrintsAdmins, PrintsMembers, AdminsOf, PrintAll, Last, PublishAll;
    if (printed.scope, printed.id) == key {
      OwnPrints(pubs, cmds, key);
      PrintedLists(Last(pubs, key), cmds, printed);
    } else {
      OthersUntouched(pubs, cmds, (printed.scope, printed.id), key);
    }
  }

  lemma OtherAnswerAccurateIff(st: RelayState, pubs: Publications, a: Arrival, cfg: Config, key: Key)
    requires WellFiled(st) && key in st.groups && KeyOf(a.scope, a.e) != Some(key)
    requires ListsAccurate(st.groups[key], Last(pubs, key))
    ensures key in StepOn(st, a, cfg).groups && StepOn(st, a, cfg).groups[key] == st.groups[key]
    ensures ListsAccurate(st.groups[key], Last(PublishOn(st, pubs, a, cfg), key)) <==> !Misprints(st, a, cfg, key)
  {
    hide Dispatch, Handle, CreatedGroup, StateEvents, Participants, Query, FirstGroupTag, GroupIdOf, RunAll, PrintAll, Last,
         PrintsAnother, PrintsItself, Metadata.Valid, AdminsOf;
    DispatchIs(st, a.scope, a.e, a.now, a.admitted, cfg);
    SavingPrintsNothing(pubs, a.e, a.scope);
    var o := Dispatch(st, a.scope, a.e, a.now, a.admitted, cfg);
    if o.result.Accepted? && KeyOf(a.scope, a.e).Some? {
      var other := KeyOf(a.scope, a.e).value;
      if other in o.st.groups {
        AnswerPrints(st, a, cfg);
        PrintedAboutOther(pubs, o.result.cmds, o.st.groups[other], st.groups[key], key);
      } else if other in st.groups {
        DeletionPrints(st, a.scope, a.e, a.now, a.admitted, cfg, pubs);
      }
    }
  }

  /** Whatever event comes, and whatever odd groups there are: the published lists of a
      group that is filed under its own id stay accurate exactly when no misprint
      happens. */
  lemma AccurateAfterIff(st: RelayState, pubs: Publications, a: Arrival, cfg: Config, key: Key)
    requires WellFiled(st) && key in st.groups && key in StepOn(st, a, cfg).groups
    requires st.groups[key].id == key.1 && ListsAccurate(st.groups[key], Last(pubs, key))
    ensures ListsAccurate(StepOn(st, a, cfg).groups[key], Last(PublishOn(st, pubs, a, cfg), key)) <==>
      !Misprints(st, a, cfg, key)
  {
    hide StepOn, PublishOn, Misprints, ListsAccurate, WellFiled, Last;
    if KeyOf(a.scope, a.e) == Some(key) {
      OwnAnswerAccurateIff(st, pubs, a, cfg, key);
    } else {
      OtherAnswerAccurateIff(st, pubs, a, cfg, key);
    }
  }

  // ----- The one event that takes lists over -------------------------------------------

  predicate WellNamed(st: RelayState) {
    forall key :: key in st.groups ==> st.groups[key].id == key.1
  }

  /** An acceptable 9007 that files a group elsewhere in the scope, calls it by the name
      of this one, and makes other members or another admin. */
  ghost predicate TakesOver(st: RelayState, a: Arrival, cfg: Config, key: Key) {
    && a.admitted && a.e.kind == CREATE_9007 && a.scope == key.0
    && FirstGroupTag(a.e.tags) == Some(key.1) && key.1 != "" && KeyOf(a.scope, a.e).Some?
    && var other := KeyOf(a.scope, a.e).value;
    && other !in st.groups && !WasGroupDeleted(st.store, other)
    && (NothingStored(st, other) || a.e.pubkey == cfg.relay)
    && key in st.groups
    && var g := st.groups[key];
       ({a.e.pubkey} + Participants(Query(st.store, other)) != g.members.Keys || {a.e.pubkey} != AdminsOf(g.members))
  }

  lemma CreatedLists(e: Event, id: string, scope: Scope, participants: set<PublicKey>, cfg: Config)
    ensures var g := CreatedGroup(e, id, scope, participants, cfg);
      && g.members.Keys == {e.pubkey} + participants && AdminsOf(g.members) == {e.pubkey}
      && PrintsMembers(StateEvents(g, e, cfg)) && PrintsAdmins(StateEvents(g, e, cfg))
  {
    var g := CreatedGroup(e, id, scope, participants, cfg);
    assert AdminsOf(g.members) == {e.pubkey};
    hide AdminsOf, CreatedGroup;
    var cmds := StateEvents(g, e, cfg);
    assert cmds[4] == AdminListOf(g) && cmds[5] == MemberListOf(g);
    assert cmds[4] in cmds && cmds[5] in cmds;
  }

  /** Where every group is filed under its own id, the only event that makes the lists of
      another group wrong is such a 9007. */
  lemma TakeoverIsTheOnlyMisprint(st: RelayState, a: Arrival, cfg: Config, key: Key)
    requires WellFiled(st) && WellNamed(st) && key in st.groups && a.e.kind != SET_ROLES_9006
    ensures Misprints(st, a, cfg, key) <==> TakesOver(st, a, cfg, key)
  {
    hide Handle, CreatedGroup, StateEvents, Participants, Query, FirstGroupTag, GroupIdOf, PrintsMembers, PrintsAdmins, Inv,
         AdminsOf, WasGroupDeleted, Dispatch, WorldLaws.KeepsAdmins;
    DispatchIs(st, a.scope, a.e, a.now, a.admitted, cfg);
    if KeyOf(a.scope, a.e).Some? {
      var other := KeyOf(a.scope, a.e).value;
      if other in st.groups {
        HandleLaws(st.groups[other], a.e, a.now, cfg);
      } else if FirstGroupTag(a.e.tags).Some? {
        var id, people := FirstGroupTag(a.e.tags).value, Participants(Query(st.store, other));
        CreatedScope(a.e, id, a.scope, people, cfg);
        CreatedLists(a.e, id, a.scope, people, cfg);
        CreationIsAcceptedIff(st, a, cfg);
      }
    }
  }

  lemma CreationIsAcceptedIff(st: RelayState, a: Arrival, cfg: Config)
    requires !IsManaged(st, a.scope, a.e) && KeyOf(a.scope, a.e).Some? && FirstGroupTag(a.e.tags).Some?
    ensures var key, o := KeyOf(a.scope, a.e).value, Dispatch(st, a.scope, a.e, a.now, a.admitted, cfg);
      key in o.st.groups <==>
        && a.admitted && a.e.kind == CREATE_9007 && FirstGroupTag(a.e.tags).value != ""
        && !WasGroupDeleted(st.store, key) && (NothingStored(st, key) || a.e.pubkey == cfg.relay)
    ensures var key, o := KeyOf(a.scope, a.e).value, Dispatch(st, a.scope, a.e, a.now, a.admitted, cfg);
      key in o.st.groups ==>
        var g := CreatedGroup(a.e, FirstGroupTag(a.e.tags).value, a.scope, Participants(Query(st.store, key)), cfg);
        o.st.groups[key] == g && o.result == Accepted(StateEvents(g, a.e, cfg))
  {
    hide Handle, CreatedGroup, StateEvents, Participants, Query, FirstGroupTag, WasGroupDeleted, CanEdit;
  }

  // ----- Commands seen by one group -----------------------------------------------------

  /** What the store holds about one name. */
  function Concerning(store: set<Stored>, key: Key): set<Event> {
    set s | s in store && s.scope == key.0 && Concerns(s.e, key.1) :: s.e
  }

  lemma ConcerningMeans(store: set<Stored>, key: Key, e: Event)
    ensures e in Concerning(store, key) <==> Stored(key.0, e) in store && Concerns(e, key.1)
  {
    hide Concerns;
    if e in Concerning(store, key) {
      var s :| s in store && s.scope == key.0 && Concerns(s.e, key.1) && s.e == e;
      assert s == Stored(key.0, e);
    }
    if Stored(key.0, e) in store && Concerns(e, key.1) {
      var s := Stored(key.0, e);
      assert s.e in Concerning(store, key);
    }
  }

  predicate OwnCommand(c: Command, key: Key) {
    match c
    case SaveSigned(e, scope) => scope == key.0 && Concerns(e, key.1)
    case Delete(f, scope) => scope == key.0
    case Generate(_, _) => true
  }

  lemma RunOwn(store: set<Stored>, c: Command, key: Key)
    requires OwnCommand(c, key)
    ensures Concerning(Run(store, c), key) == Store(Concerning(store, key), c)
  {
    hide Concerns, Matches, Concerning;
    forall e ensures e in Concerning(Run(store, c), key) <==> e in Store(Concerning(store, key), c) {
      ConcerningMeans(Run(store, c), key, e);
      ConcerningMeans(store, key, e);
    }
  }

  lemma {:induction false} RunAllOwn(store: set<Stored>, cmds: seq<Command>, key: Key)
    requires forall c :: c in cmds ==> OwnCommand(c, key)
    ensures Concerning(RunAll(store, cmds), key) == StoreAll(Concerning(store, key), cmds)
  {
    hide Run, Store, Concerning, OwnCommand;
    if cmds != [] {
      var n := |cmds| - 1;
      RunAllOwn(store, cmds[..n], key);
      assert cmds[n] in cmds;
      RunOwn(RunAll(store, cmds[..n]), cmds[n], key);
    }
  }

  lemma HandleCommandsAreOwn(g: GroupState, e: Event, now: U64, cfg: Config, key: Key)
    requires g.scope == key.0 && Concerns(e, key.1)
    ensures var o := Handle(g, e, now, cfg);
      o.result.Accepted? ==> forall c :: c in o.result.cmds ==> OwnCommand(c, key)
  {
    hide Concerns;
    if e.kind == DELETE_EVENT_9005 {
      hide AdminsOf, EventIds;
    } else {
      HandleOnlySaves(g, e, now, cfg);
      hide Handle;
    }
  }

  // ----- One group's life ------------------------------------------------------------------

  /** The world of one group inside the relay. */
  function WorldOf(st: RelayState, pubs: Publications, key: Key): World
    requires key in st.groups
  {
    World(key.1, st.groups[key], Last(pubs, key), Concerning(st.store, key))
  }

  predicate IsFor(a: Arrival, key: Key) {
    a.admitted && a.scope == key.0 && IsAbout(a.e, key.1)
  }

  /** An arrival as the group sees it: an event to answer, or whatever became of the
      store and of what is published meanwhile. */
  function InputOf(st: RelayState, pubs: Publications, a: Arrival, cfg: Config, key: Key): (i: Input)
    ensures !i.Restart?
  {
    if IsFor(a, key) then Signed(a.e, a.now)
    else
      var before, after := Concerning(st.store, key), Concerning(StepOn(st, a, cfg).store, key);
      Elsewhere(after - before, before - after, Last(PublishOn(st, pubs, a, cfg), key))
  }

  lemma ManagedEventIsAGroupStep(st: RelayState, pubs: Publications, a: Arrival, cfg: Config, key: Key)
    requires WellFiled(st) && key in st.groups && st.groups[key].id == key.1 && IsFor(a, key)
    ensures var st' := StepOn(st, a, cfg);
      && key in st'.groups
      && WorldOf(st', PublishOn(st, pubs, a, cfg), key) == Step(WorldOf(st, pubs, key), InputOf(st, pubs, a, cfg, key), cfg)
  {
    hide Handle, Inv, HasTag, Concerning, RunAll, StoreAll, PublishAll, PrintAll, Last, IsGroupRequest, CarriesH;
    var g := st.groups[key];
    assert Concerns(a.e, key.1) && KeyOf(a.scope, a.e) == Some(key);
    HandleCommandsAreOwn(g, a.e, a.now, cfg, key);
    HandlePrints(g, a.e, a.now, cfg);
    var o := Handle(g, a.e, a.now, cfg);
    assert Dispatch(st, a.scope, a.e, a.now, true, cfg) == ToGroup(st, a.scope, a.e, a.now, cfg);
    if o.result.Accepted? {
      RunAllOwn(st.store, o.result.cmds, key);
      OwnPrints(pubs, o.result.cmds, key);
    }
  }

  /** A tidy arrival the group does not answer touches neither it nor its lists. */
  lemma OtherArrivalsPass(st: RelayState, pubs: Publications, a: Arrival, cfg: Config, key: Key)
    requires WellFiled(st) && WellNamed(st) && Tidy(a.e) && key in st.groups && !IsFor(a, key)
    requires key in StepOn(st, a, cfg).groups
    ensures StepOn(st, a, cfg).groups[key] == st.groups[key]
    ensures Last(PublishOn(st, pubs, a, cfg), key) == Last(pubs, key)
  {
    hide Handle, CreatedGroup, StateEvents, Participants, Query, FirstGroupTag, Inv, RunAll, PrintAll, Last, PrintsItself,
         WasGroupDeleted, OneH, HasTag, IsGroupRequest, CanEdit, FindContent;
    SavingPrintsNothing(pubs, a.e, a.scope);
    if KeyOf(a.scope, a.e) == Some(key) {
    } else if KeyOf(a.scope, a.e).Some? {
      hide Dispatch;
      var other, o := KeyOf(a.scope, a.e).value, Dispatch(st, a.scope, a.e, a.now, a.admitted, cfg);
      DispatchIs(st, a.scope, a.e, a.now, a.admitted, cfg);
      if o.result.Accepted? {
        if other in o.st.groups {
          AnswerPrints(st, a, cfg);
          AnswererIsNamed(st, a, cfg);
          PrintsItselfOnly(o.result.cmds, o.st.groups[other]);
          OthersUntouched(pubs, o.result.cmds, other, key);
        } else if other in st.groups {
          DeletionPrints(st, a.scope, a.e, a.now, a.admitted, cfg, pubs);
        }
      }
    }
  }

  lemma PrintsItselfOnly(cmds: seq<Command>, g: GroupState)
    requires PrintsItself(cmds, g)
    ensures PrintsOnly(cmds, (g.scope, g.id))
  {
  }

  lemma AnswererIsNamed(st: RelayState, a: Arrival, cfg: Config)
    requires WellFiled(st) && WellNamed(st) && Tidy(a.e)
    ensures WellNamed(Dispatch(st, a.scope, a.e, a.now, a.admitted, cfg).st)
  {
    hide Dispatch, Handle, CreatedGroup, StateEvents, Participants, Query, FirstGroupTag, Inv, OneH, HasTag, FindContent;
    DispatchIs(st, a.scope, a.e, a.now, a.admitted, cfg);
    if KeyOf(a.scope, a.e).Some? {
      var key := KeyOf(a.scope, a.e).value;
      if key in st.groups { HandleLaws(st.groups[key], a.e, a.now, cfg); }
      if FirstGroupTag(a.e.tags).Some? {
        CreatedScope(a.e, FirstGroupTag(a.e.tags).value, a.scope, Participants(Query(st.store, key)), cfg);
      }
    }
  }

  /** Only its own events change a group that stays. */
  lemma OtherArrivalsKeepGroup(st: RelayState, a: Arrival, cfg: Config, key: Key)
    requires key in st.groups && !IsFor(a, key) && key in StepOn(st, a, cfg).groups
    ensures StepOn(st, a, cfg).groups[key] == st.groups[key]
  {
    hide Handle, CreatedGroup, StateEvents, Participants, Query, FirstGroupTag, RunAll, RunPuts, WasGroupDeleted, HasTag,
         IsGroupRequest, CanEdit, FindContent;
  }

  /** Whatever event arrives, tidy or not, for this group, for another or for none: what
      becomes of a group that is filed under its own id and still there afterwards, of what
      is published about that id and of what the store holds about it, is one step of its
      own world. */
  lemma EveryArrivalIsAGroupStep(st: RelayState, pubs: Publications, a: Arrival, cfg: Config, key: Key)
    requires WellFiled(st) && key in st.groups && st.groups[key].id == key.1 && key in StepOn(st, a, cfg).groups
    ensures MayStep(WorldOf(st, pubs, key), InputOf(st, pubs, a, cfg, key), cfg)
    ensures WorldOf(StepOn(st, a, cfg), PublishOn(st, pubs, a, cfg), key)
         == Step(WorldOf(st, pubs, key), InputOf(st, pubs, a, cfg, key), cfg)
    ensures StepOn(st, a, cfg).groups[key].id == key.1
  {
    hide StepOn, PublishOn, Concerning, Concerns, Handle, Last, WellFiled, IsAbout;
    if IsFor(a, key) {
      ManagedEventIsAGroupStep(st, pubs, a, cfg, key);
      NameStays(WorldOf(st, pubs, key), a.e, a.now, cfg);
    } else {
      OtherArrivalsKeepGroup(st, a, cfg, key);
      var before, after := Concerning(st.store, key), Concerning(StepOn(st, a, cfg).store, key);
      assert before - (before - after) + (after - before) == after;
      forall e | e in after - before ensures Concerns(e, key.1) { ConcerningMeans(StepOn(st, a, cfg).store, key, e); }
    }
  }

  lemma NameStays(w: World, e: Event, now: U64, cfg: Config)
    ensures Step(w, Signed(e, now), cfg).g.id == w.g.id
  {
    hide Handle, PublishAll, StoreAll, PrintsItself;
    HandlePrints(w.g, e, now, cfg);
  }

  // ----- How a life begins ---------------------------------------------------------------------

  lemma TidyKey(scope: Scope, e: Event, id: string)
    requires OneH(e.tags) && !IsAddressable(e.kind) && Concerns(e, id)
    ensures KeyOf(scope, e) == Some((scope, id))
  {
    if CarriesH(e, id) { CarriesOnlyItsH(e, id); }
  }

  lemma WhatIsCreated(st: RelayState, pubs: Publications, a: Arrival, cfg: Config, key: Key)
    requires WellFiled(st) && Tidy(a.e) && key !in st.groups && key in StepOn(st, a, cfg).groups
    ensures KeyOf(a.scope, a.e) == Some(key) && a.e.kind == CREATE_9007 && key.1 != ""
    ensures var g := StepOn(st, a, cfg).groups[key];
      && g == CreatedGroup(a.e, key.1, key.0, Participants(Query(st.store, key)), cfg)
      && g.id == key.1 && g.scope == key.0
      && Last(PublishOn(st, pubs, a, cfg), key) == Snapshot(g)
  {
    hide Dispatch, Handle, CreatedGroup, StateEvents, Participants, Query, FirstGroupTag, Inv, OneH, HasTag, FindContent,
         RunAll, PrintAll, Last, PrintsItself, Snapshot, PublishAll;
    DispatchIs(st, a.scope, a.e, a.now, a.admitted, cfg);
    var people := Participants(Query(st.store, key));
    var g := CreatedGroup(a.e, key.1, key.0, people, cfg);
    CreatedScope(a.e, key.1, key.0, people, cfg);
    CreationPrints(g, a.e, cfg);
    PrintsItselfOnly(StateEvents(g, a.e, cfg), g);
    OwnPrints(pubs, StateEvents(g, a.e, cfg), key);
    StateEventsPublish(g, a.e, cfg, Last(pubs, key));
  }

  /** Nothing is stored about a new group's invites or join requests. */
  lemma NothingAskedYet(st: RelayState, a: Arrival, cfg: Config, key: Key, f: Event)
    requires Orderly(st) && key !in st.groups && a.e.kind == CREATE_9007
    requires f in Concerning(StepOn(st, a, cfg).store, key)
    ensures Concerns(f, key.1) && f.kind !in {JOIN_9021, CREATE_INVITE_9009}
  {
    hide StepRelay, Concerning, Tidy, Inv, Concerns, WasGroupDeleted, OneH, Dispatch, Removed, HasTag;
    StepStores(st, a.scope, a.e, a.now, a.admitted, cfg);
    ConcerningMeans(StepOn(st, a, cfg).store, key, f);
    if f.kind in {JOIN_9021, CREATE_INVITE_9009} {
      assert Stored(key.0, f) in st.store && IsManaged(st, key.0, f);
      TidyMeansOneH(f);
      TidyKey(key.0, f, key.1);
      assert false;
    }
  }

  /** An accepted 9007 starts a group's life the way every run theorem about one
      group assumes, with its sender as an admin and everything about it published. */
  lemma CreationStartsAGroup(st: RelayState, pubs: Publications, a: Arrival, cfg: Config, key: Key)
    requires Orderly(st) && Tidy(a.e) && key !in st.groups && key in StepOn(st, a, cfg).groups
    ensures StepOn(st, a, cfg).groups[key].IsAdmin(a.e.pubkey)
    ensures IsStart(WorldOf(StepOn(st, a, cfg), PublishOn(st, pubs, a, cfg), key), cfg)
  {
    WhatIsCreated(st, pubs, a, cfg, key);
    hide StepOn, PublishOn, Last, Concerning, Metadata.ApplyTags, ForcePublic, Participants, Tidy, Concerns,
         Snapshot, WellFiled, WasGroupDeleted;
    forall f | f in Concerning(StepOn(st, a, cfg).store, key)
      ensures Concerns(f, key.1) && f.kind !in {JOIN_9021, CREATE_INVITE_9009}
    {
      NothingAskedYet(st, a, cfg, key, f);
    }
  }

  lemma TidyMeansOneH(e: Event)
    requires Tidy(e)
    ensures OneH(e.tags)
  {
  }

  // ----- Published lists over whole runs ---------------------------------------------------------

  ghost predicate AllInSync(st: RelayState, pubs: Publications, cfg: Config) {
    forall key :: key in st.groups ==> WorldLaws.InSync(WorldOf(st, pubs, key), cfg)
  }

  lemma StepKeepsAllInSync(st: RelayState, pubs: Publications, a: Arrival, cfg: Config)
    requires Orderly(st) && Tidy(a.e) && AllInSync(st, pubs, cfg) && a.e.kind != SET_ROLES_9006
    ensures AllInSync(StepOn(st, a, cfg), PublishOn(st, pubs, a, cfg), cfg)
  {
    hide StepOn, PublishOn, Concerning, Last, Tidy, WorldLaws.InSync, IsStart, Step, MayStep, IsFor, WasGroupDeleted, WellFiled;
    forall key | key in StepOn(st, a, cfg).groups
      ensures WorldLaws.InSync(WorldOf(StepOn(st, a, cfg), PublishOn(st, pubs, a, cfg), key), cfg)
    {
      if key in st.groups {
        OrderlyNames(st);
        EveryArrivalIsAGroupStep(st, pubs, a, cfg, key);
        ElsewherePasses(st, pubs, a, cfg, key);
        WorldLaws.StepKeepsSync(WorldOf(st, pubs, key), InputOf(st, pubs, a, cfg, key), cfg);
      } else {
        CreationStartsAGroup(st, pubs, a, cfg, key);
        WorldLaws.StartsInSync(WorldOf(StepOn(st, a, cfg), PublishOn(st, pubs, a, cfg), key), cfg);
      }
    }
  }

  lemma NothingToSync(pubs: Publications, cfg: Config)
    ensures AllInSync(EMPTY_RELAY, pubs, cfg)
  {
  }

  ghost predicate ArePublications(sts: seq<RelayState>, pubs: seq<Publications>, arrivals: seq<Arrival>, cfg: Config) {
    && |pubs| == |sts| == |arrivals| + 1 && pubs[0] == map[]
    && forall n :: 0 <= n < |arrivals| ==> pubs[n + 1] == PublishOn(sts[n], pubs[n], arrivals[n], cfg)
  }

  /** From an empty relay, over every run of tidy events but 9006s: for every group the
      last 39002 about its id lists exactly its members, the last 39001 its admins. */
  lemma {:induction false} ListsStayAccurate(sts: seq<RelayState>, pubs: seq<Publications>, arrivals: seq<Arrival>,
                                             cfg: Config, n: nat)
    requires IsRelayRun(sts, arrivals, cfg) && ArePublications(sts, pubs, arrivals, cfg) && AllTidy(arrivals)
    requires n < |sts| && sts[0] == EMPTY_RELAY
    requires forall i :: 0 <= i < |arrivals| ==> arrivals[i].e.kind != SET_ROLES_9006
    ensures AllInSync(sts[n], pubs[n], cfg)
  {
    hide AllInSync, StepRelay, PublishOn, Tidy, Orderly, StepOn;
    NothingToSync(pubs[0], cfg);
    if n > 0 {
      RunStep(sts, arrivals, cfg, n - 1);
      NothingIsOrderly();
      RunStaysOrderly(sts, arrivals, cfg, n - 1);
      ListsStayAccurate(sts, pubs, arrivals, cfg, n - 1);
      StepKeepsAllInSync(sts[n - 1], pubs[n - 1], arrivals[n - 1], cfg);
    }
  }

  // ----- A group's life is a run of its world ------------------------------------------------------

  /** Made by arrival `m` and still there after arrival `n`. */
  predicate Lives(sts: seq<RelayState>, key: Key, m: nat, n: nat) {
    m < n < |sts| && key !in sts[m].groups && forall i :: m < i <= n ==> key in sts[i].groups
  }

  function LifeOf(sts: seq<RelayState>, pubs: seq<Publications>, key: Key, m: nat, n: nat): (ws: seq<World>)
    requires Lives(sts, key, m, n) && |pubs| == |sts|
    ensures |ws| == n - m && forall i :: m < i <= n ==> ws[i - m - 1] == WorldOf(sts[i], pubs[i], key)
  {
    seq(n - m, i requires 0 <= i < n - m => WorldOf(sts[m + 1 + i], pubs[m + 1 + i], key))
  }

  function InputsOf(sts: seq<RelayState>, pubs: seq<Publications>, arrivals: seq<Arrival>, cfg: Config, key: Key,
                    m: nat, n: nat): (inputs: seq<Input>)
    requires m < n < |sts| == |arrivals| + 1 && |pubs| == |sts|
    ensures |inputs| == n - m - 1
    ensures forall i :: m < i < n ==> inputs[i - m - 1] == InputOf(sts[i], pubs[i], arrivals[i], cfg, key)
  {
    seq(n - m - 1, i requires 0 <= i < n - m - 1 => InputOf(sts[m + 1 + i], pubs[m + 1 + i], arrivals[m + 1 + i], cfg, key))
  }

  lemma {:induction false} NameOverLife(sts: seq<RelayState>, pubs: seq<Publications>, arrivals: seq<Arrival>, cfg: Config,
                                        key: Key, m: nat, n: nat, i: nat)
    requires IsRelayRun(sts, arrivals, cfg) && ArePublications(sts, pubs, arrivals, cfg) && sts[0] == EMPTY_RELAY
    requires Lives(sts, key, m, n) && sts[m + 1].groups[key].id == key.1 && m < i <= n
    ensures sts[i].groups[key].id == key.1 && WellFiled(sts[i])
    decreases i
  {
    hide StepRelay, StepOn, PublishOn, WellFiled, InputOf, WorldOf, Step, MayStep;
    EveryGroupStaysSound(sts, arrivals, cfg, i);
    if i > m + 1 {
      NameOverLife(sts, pubs, arrivals, cfg, key, m, n, i - 1);
      RunStep(sts, arrivals, cfg, i - 1);
      EveryArrivalIsAGroupStep(sts[i - 1], pubs[i - 1], arrivals[i - 1], cfg, key);
    }
  }

  /** Seen from any one group made under its own name, a run of arbitrary events from an
      empty relay is a run of that group's world.  So what is proved about runs of one
      world holds of every such group of the relay. */
  lemma GroupLifeIsARun(sts: seq<RelayState>, pubs: seq<Publications>, arrivals: seq<Arrival>, cfg: Config, key: Key,
                        m: nat, n: nat)
    requires IsRelayRun(sts, arrivals, cfg) && ArePublications(sts, pubs, arrivals, cfg) && sts[0] == EMPTY_RELAY
    requires Lives(sts, key, m, n) && sts[m + 1].groups[key].id == key.1
    ensures IsRun(LifeOf(sts, pubs, key, m, n), InputsOf(sts, pubs, arrivals, cfg, key, m, n), cfg)
  {
    hide StepOn, StepRelay, PublishOn, IsStart, InputOf, MayStep, Step, WorldOf, WellFiled;
    var ws, inputs := LifeOf(sts, pubs, key, m, n), InputsOf(sts, pubs, arrivals, cfg, key, m, n);
    forall i | 0 <= i < |inputs| ensures MayStep(ws[i], inputs[i], cfg) && ws[i + 1] == Step(ws[i], inputs[i], cfg) {
      var j := m + 1 + i;
      assert ws[i] == WorldOf(sts[j], pubs[j], key) && ws[i + 1] == WorldOf(sts[j + 1], pubs[j + 1], key);
      assert inputs[i] == InputOf(sts[j], pubs[j], arrivals[j], cfg, key);
      RunStep(sts, arrivals, cfg, j);
      NameOverLife(sts, pubs, arrivals, cfg, key, m, n, j);
      EveryArrivalIsAGroupStep(sts[j], pubs[j], arrivals[j], cfg, key);
    }
  }

  /** Over tidy events, it begins the way the run theorems about one group assume, and
      nobody else prints or deletes under its name. */
  lemma TidyLifeIsUndisturbed(sts: seq<RelayState>, pubs: seq<Publications>, arrivals: seq<Arrival>, cfg: Config, key: Key,
                              m: nat, n: nat)
    requires IsRelayRun(sts, arrivals, cfg) && ArePublications(sts, pubs, arrivals, cfg) && AllTidy(arrivals)
    requires sts[0] == EMPTY_RELAY && Lives(sts, key, m, n)
    ensures sts[m + 1].groups[key].id == key.1
    ensures IsStart(LifeOf(sts, pubs, key, m, n)[0], cfg)
    ensures IsUndisturbed(LifeOf(sts, pubs, key, m, n), InputsOf(sts, pubs, arrivals, cfg, key, m, n))
  {
    hide StepOn, StepRelay, PublishOn, Tidy, Orderly, IsStart, WorldOf, IsFor, Concerning, WellFiled;
    var ws, inputs := LifeOf(sts, pubs, key, m, n), InputsOf(sts, pubs, arrivals, cfg, key, m, n);
    NothingIsOrderly();
    RunStaysOrderly(sts, arrivals, cfg, m);
    RunStaysOrderly(sts, arrivals, cfg, m + 1);
    OrderlyNames(sts[m + 1]);
    RunStep(sts, arrivals, cfg, m);
    CreationStartsAGroup(sts[m], pubs[m], arrivals[m], cfg, key);
    assert ws[0] == WorldOf(sts[m + 1], pubs[m + 1], key);
    forall i | 0 <= i < |inputs| && inputs[i].Elsewhere? ensures inputs[i].pub == ws[i].pub {
      var j := m + 1 + i;
      assert ws[i] == WorldOf(sts[j], pubs[j], key) && inputs[i] == InputOf(sts[j], pubs[j], arrivals[j], cfg, key);
      RunStep(sts, arrivals, cfg, j);
      RunStaysOrderly(sts, arrivals, cfg, j);
      OrderlyNames(sts[j]);
      ElsewherePasses(sts[j], pubs[j], arrivals[j], cfg, key);
    }
  }

  lemma ElsewherePasses(st: RelayState, pubs: Publications, a: Arrival, cfg: Config, key: Key)
    requires WellFiled(st) && WellNamed(st) && Tidy(a.e) && key in st.groups && key in StepOn(st, a, cfg).groups
    ensures var i := InputOf(st, pubs, a, cfg, key); i.Elsewhere? ==> i.pub == WorldOf(st, pubs, key).pub
  {
    hide StepOn, PublishOn, Tidy, WellFiled, IsFor, Concerning, Last;
    if !IsFor(a, key) { OtherArrivalsPass(st, pubs, a, cfg, key); }
  }

  lemma OrderlyNames(st: RelayState)
    requires Orderly(st)
    ensures WellFiled(st) && WellNamed(st)
  {
    hide WellFiled, WasGroupDeleted, IsManaged;
  }

  // ----- Invites, for every group of the relay ------------------------------------------------------

  lemma CarriesDMeansTag(e: Event, id: string)
    requires CarriesD(e, id)
    ensures HasTag(e.tags, D)
  {
    var t :| t in e.tags && t.kind == D;
    var i :| 0 <= i < |e.tags| && e.tags[i] == t;
  }

  lemma RequestIsFor(a: Arrival, key: Key)
    requires a.admitted && KeyOf(a.scope, a.e) == Some(key) && IsGroupRequest(a.e.kind)
    ensures IsFor(a, key)
  {
    hide HasTag, FindContent;
  }

  /** Other groups leave the invites and join requests of a group in the store, unless
      they are deleted and one of those carries their id in `d`. */
  lemma OthersKeepJoins(st: RelayState, pubs: Publications, a: Arrival, cfg: Config, key: Key)
    requires Orderly(st) && Tidy(a.e) && key in st.groups && key in StepOn(st, a, cfg).groups && !IsFor(a, key)
    requires a.e.kind == DELETE_GROUP_9008 ==>
      forall f :: f in Concerning(st.store, key) && f.kind in {JOIN_9021, CREATE_INVITE_9009} ==> !HasTag(f.tags, D)
    ensures KeepsJoins(WorldOf(st, pubs, key), InputOf(st, pubs, a, cfg, key))
  {
    hide StepRelay, Last, Concerning, Concerns, CarriesH, CarriesD, HasTag, Dispatch, IsAbout, EventIds, CanEdit, Removed,
         WasGroupDeleted, Tidy, Inv, OneH;
    var after := StepOn(st, a, cfg).store;
    forall f | f in Concerning(after, key) - Concerning(st.store, key) ensures f.kind !in {JOIN_9021, CREATE_INVITE_9009} {
      ConcerningMeans(after, key, f);
      ConcerningMeans(st.store, key, f);
      StepStores(st, a.scope, a.e, a.now, a.admitted, cfg);
      NotAdmittedStoresNothing(st, a.scope, a.e, a.now, a.admitted, cfg);
      TidyMeansOneH(a.e);
      if f.kind in {JOIN_9021, CREATE_INVITE_9009} {
        TidyKey(a.scope, a.e, key.1);
        RequestIsFor(a, key);
        assert false;
      }
    }
    forall f | f in Concerning(st.store, key) - Concerning(after, key) ensures f.kind !in {JOIN_9021, CREATE_INVITE_9009} {
      ConcerningMeans(after, key, f);
      ConcerningMeans(st.store, key, f);
      NotAdmittedStoresNothing(st, a.scope, a.e, a.now, a.admitted, cfg);
      if f.kind in {JOIN_9021, CREATE_INVITE_9009} {
        RequestIsNotReached(st, a, cfg, key, f);
        assert false;
      }
    }
  }

  lemma RequestIsNotReached(st: RelayState, a: Arrival, cfg: Config, key: Key, f: Event)
    requires Orderly(st) && Tidy(a.e) && key in st.groups && key in StepOn(st, a, cfg).groups && !IsFor(a, key)
    requires Stored(key.0, f) in st.store && Concerns(f, key.1) && f.kind in {JOIN_9021, CREATE_INVITE_9009}
    requires a.e.kind == DELETE_GROUP_9008 ==> !HasTag(f.tags, D)
    ensures Stored(key.0, f) in StepOn(st, a, cfg).store
  {
    hide StepRelay, Concerns, CarriesH, CarriesD, HasTag, Dispatch, IsAbout, EventIds, CanEdit, Removed,
         WasGroupDeleted, Tidy, Inv, OneH, GroupIdOf;
    if Stored(key.0, f) !in StepOn(st, a, cfg).store {
      DeletionIsLocal(st, a.scope, a.e, a.now, a.admitted, cfg, Stored(key.0, f));
      NotAdmittedStoresNothing(st, a.scope, a.e, a.now, a.admitted, cfg);
      TidyMeansOneH(f);
      TidyKey(key.0, f, key.1);
      var other := KeyOf(a.scope, a.e).value;
      if CarriesH(f, other.1) {
        OneHMeansKey(key.0, f, other.1);
        assert other == key;
        if a.e.kind == DELETE_EVENT_9005 {
          RequestIsFor(a, key);
        } else {
          StepGroupsDeletes(st, a, cfg, key);
        }
      } else {
        CarriesDMeansTag(f, other.1);
      }
      assert false;
    }
  }

  lemma OneHMeansKey(scope: Scope, e: Event, id: string)
    requires OneH(e.tags) && !IsAddressable(e.kind) && CarriesH(e, id)
    ensures KeyOf(scope, e) == Some((scope, id))
  {
    CarriesOnlyItsH(e, id);
  }

  /** If a 9008 for a group changes the store, the group goes. */
  lemma StepGroupsDeletes(st: RelayState, a: Arrival, cfg: Config, key: Key)
    requires WellFiled(st) && key in st.groups && KeyOf(a.scope, a.e) == Some(key) && a.e.kind == DELETE_GROUP_9008
    ensures StepOn(st, a, cfg).store != st.store ==> key !in StepOn(st, a, cfg).groups
  {
    hide RunAll, CanEdit, FindContent, Inv, HasTag;
  }

  /** For every group that a tidy run of the relay makes, and over its whole life, as long
      as its stored requests are neither repeated nor deleted: a restart brings no spent
      invite back, and forgets no pending request unless its sender is a member again. */
  lemma NoGroupRevivesInvites(sts: seq<RelayState>, pubs: seq<Publications>, arrivals: seq<Arrival>, cfg: Config, key: Key,
                              m: nat, n: nat, us: seq<UnsignedEvent>, claims: set<UnsignedEvent>, order: seq<Event>,
                              e: Event, now: U64)
    requires IsRelayRun(sts, arrivals, cfg) && ArePublications(sts, pubs, arrivals, cfg) && AllTidy(arrivals)
    requires sts[0] == EMPTY_RELAY && Lives(sts, key, m, n)
    requires forall i :: m < i < n ==>
      KeepsJoins(WorldOf(sts[i], pubs[i], key), InputOf(sts[i], pubs[i], arrivals[i], cfg, key))
    requires us != [] && IsRestart(WorldOf(sts[n], pubs[n], key), us, claims, order, cfg)
    requires FirstGroupTag(us[0].tags) == Some(key.1)
    requires Stored(key.0, e) in sts[n].store && Concerns(e, key.1)
    requires InviteLaws.IsInvite(e) && (e.createdAt >= INVITE_LIMITS_SINCE || InviteLaws.StatesLimits(e))
    ensures var live, back := sts[n].groups[key], Rebuild(us, order, key.0, cfg);
      && back.invites.Keys == live.invites.Keys
      && CodeOf(e).Some? && CodeOf(e).value in live.invites
      && back.invites[CodeOf(e).value].uses >= live.invites[CodeOf(e).value].uses
      && (back.invites[CodeOf(e).value].CanUseAt(now) ==> live.invites[CodeOf(e).value].CanUseAt(now))
      && live.joinRequests - back.members.Keys <= back.joinRequests
  {
    var ws, inputs := LifeOf(sts, pubs, key, m, n), InputsOf(sts, pubs, arrivals, cfg, key, m, n);
    hide *;
    TidyLifeIsUndisturbed(sts, pubs, arrivals, cfg, key, m, n);
    GroupLifeIsARun(sts, pubs, arrivals, cfg, key, m, n);
    WorldLaws.UndisturbedKeepsAdmins(ws, inputs, cfg);
    LifeEnds(sts, pubs, arrivals, cfg, key, m, n);
    LifeKeepsJoins(sts, pubs, arrivals, cfg, key, m, n);
    ConcerningMeans(sts[n].store, key, e);
    InviteLaws.RestartRevivesNothing(ws, inputs, cfg, us, claims, order, e, now);
  }

  lemma LifeEnds(sts: seq<RelayState>, pubs: seq<Publications>, arrivals: seq<Arrival>, cfg: Config, key: Key,
                 m: nat, n: nat)
    requires IsRelayRun(sts, arrivals, cfg) && ArePublications(sts, pubs, arrivals, cfg) && AllTidy(arrivals)
    requires sts[0] == EMPTY_RELAY && Lives(sts, key, m, n)
    ensures var ws, inputs := LifeOf(sts, pubs, key, m, n), InputsOf(sts, pubs, arrivals, cfg, key, m, n);
      && |ws| == |inputs| + 1 && ws[|inputs|] == WorldOf(sts[n], pubs[n], key)
    ensures var w := WorldOf(sts[n], pubs[n], key);
      && w.name == key.1 && w.g == sts[n].groups[key] && w.g.scope == key.0 && w.hist == Concerning(sts[n].store, key)
  {
    hide StepOn, PublishOn, Tidy, InputOf, Concerning, Last;
    NothingIsOrderly();
    RunStaysOrderly(sts, arrivals, cfg, n);
  }

  lemma LifeKeepsJoins(sts: seq<RelayState>, pubs: seq<Publications>, arrivals: seq<Arrival>, cfg: Config, key: Key,
                       m: nat, n: nat)
    requires IsRelayRun(sts, arrivals, cfg) && ArePublications(sts, pubs, arrivals, cfg) && Lives(sts, key, m, n)
    requires forall i :: m < i < n ==>
      KeepsJoins(WorldOf(sts[i], pubs[i], key), InputOf(sts[i], pubs[i], arrivals[i], cfg, key))
    ensures var ws, inputs := LifeOf(sts, pubs, key, m, n), InputsOf(sts, pubs, arrivals, cfg, key, m, n);
      |ws| == |inputs| + 1 && KeepsAllJoins(ws, inputs)
  {
    hide StepOn, PublishOn, InputOf, WorldOf, KeepsJoins;
    var ws, inputs := LifeOf(sts, pubs, key, m, n), InputsOf(sts, pubs, arrivals, cfg, key, m, n);
    forall i | 0 <= i < |inputs| ensures KeepsJoins(ws[i], inputs[i]) {
      var j := m + 1 + i;
      assert ws[i] == WorldOf(sts[j], pubs[j], key) && inputs[i] == InputOf(sts[j], pubs[j], arrivals[j], cfg, key);
    }
  }
}
