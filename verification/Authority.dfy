/** Who can get into a group, out of it, and in and out of its administration, over
    all events at once. */
module Authority {
  import opened Nostr
  import opened GroupModel
  import opened GroupLaws
  import Metadata
  import WorldLaws

  /** What a 9000 or 9006 says about the members it names. */
  function NamedIn(e: Event): seq<Named> {
    ParsedMembers(TagsOf(e.tags, P))
  }

  /** The invite a 9021 may use. */
  predicate HasUsableInvite(g: GroupState, e: Event, now: U64) {
    CodeOf(e).Some? && CodeOf(e).value in g.invites && g.invites[CodeOf(e).value].CanUseAt(now)
  }

  predicate IsContent(kind: nat) {
    kind !in {ADD_USER_9000, REMOVE_USER_9001, EDIT_METADATA_9002, DELETE_EVENT_9005, SET_ROLES_9006,
              CREATE_INVITE_9009, JOIN_9021, LEAVE_9022}
  }

  /** The events only an admin of the group or the relay itself can have accepted. */
  predicate NeedsEditor(kind: nat) {
    kind in {ADD_USER_9000, REMOVE_USER_9001, EDIT_METADATA_9002, DELETE_EVENT_9005, SET_ROLES_9006, CREATE_INVITE_9009}
  }

  lemma AcceptedIsByEditor(g: GroupState, e: Event, now: U64, cfg: Config)
    requires NeedsEditor(e.kind) && Handle(g, e, now, cfg).result.Accepted?
    ensures e.pubkey == cfg.relay || g.IsAdmin(e.pubkey)
  {
    hide AdminsOf, TagsOf, ParsedMembers, AddNamed, RemoveNamed, CheckRoles, AssignRoles, Metadata.ApplyTags,
         InviteOf, EventIds;
  }

  // ----- In ------------------------------------------------------------------------

  /** The only three ways in: being named by an admin's 9000, one's own 9021, into an
      open group or with a usable invite, and writing in an open group. */
  predicate LetsIn(g: GroupState, e: Event, now: U64, k: PublicKey) {
    || (e.kind == ADD_USER_9000 && Names(NamedIn(e), k))
    || (e.kind == JOIN_9021 && k == e.pubkey && (g.meta.fields.closed ==> HasUsableInvite(g, e, now)))
    || (IsContent(e.kind) && k == e.pubkey && !g.meta.fields.closed)
  }

  lemma WaysIn(g: GroupState, e: Event, now: U64, cfg: Config, k: PublicKey)
    requires Inv(g) && k !in g.members
    ensures var o := Handle(g, e, now, cfg);
      k in o.g.members <==> o.result.Accepted? && LetsIn(g, e, now, k)
  {
    hide PutUser, RemoveUser, SetRoles, JoinRequest, LeaveRequest, Content, EditMetadata, CreateInvite, DeleteEvent, Inv,
         Names, NamedIn, HasUsableInvite, HasAccess;
    HandleLaws(g, e, now, cfg);
    if Handle(g, e, now, cfg).result.Accepted? {
      AddsNamed(g, e, cfg, k);
      RemovesNamed(g, e, cfg, k);
      RolesKeepMembers(g, e, cfg);
      JoinLetsIn(g, e, now, k);
      LeaveLetsOut(g, e, k);
      ContentLetsIn(g, e, k);
      RestKeepMembers(g, e, cfg);
    }
  }

  lemma AddsNamed(g: GroupState, e: Event, cfg: Config, k: PublicKey)
    requires Inv(g)
    ensures var o := PutUser(g, e, cfg);
      && (o.result.Refused? ==> o.g == g)
      && (o.result.Accepted? ==>
            && (k in o.g.members <==> k in g.members || Names(NamedIn(e), k))
            && (k in o.g.members ==> o.g.members[k] == if Names(NamedIn(e), k) then LastRoles(NamedIn(e), k) else g.members[k]))
  {
    PutUserLaws(g, e, cfg);
    hide AdminsOf, TagsOf, ParsedMembers, Names, LastRoles;
    if AddNamed(g.members, NamedIn(e)).Some? { AddingMeans(g.members, NamedIn(e), k); }
  }

  lemma RemovesNamed(g: GroupState, e: Event, cfg: Config, k: PublicKey)
    requires Inv(g)
    ensures var o := RemoveUser(g, e, cfg);
      && (o.result.Refused? ==> o.g == g)
      && (o.result.Accepted? ==> o.g == g.(members := g.members - TaggedKeys(TagsOf(e.tags, P))))
  {
    hide AdminsOf, TagsOf, TaggedKeys, AllParse, WithAdminList, RemoveNamed;
    RemoveUserLaws(g, e, cfg);
    if CanEdit(g, e.pubkey, cfg.relay) { RemoveAcceptedIff(g, e, cfg); }
  }

  lemma RolesKeepMembers(g: GroupState, e: Event, cfg: Config)
    requires Inv(g)
    ensures var o := SetRoles(g, e, cfg); o.g.members.Keys == g.members.Keys && (o.result.Refused? ==> o.g == g)
  {
    SetRolesLaws(g, e, cfg);
  }

  lemma RestKeepMembers(g: GroupState, e: Event, cfg: Config)
    requires Inv(g)
    ensures EditMetadata(g, e, cfg).g.members == g.members
    ensures CreateInvite(g, e, cfg).g.members == g.members && DeleteEvent(g, e, cfg).g.members == g.members
  {
    hide Inv, EditMetadata, CreateInvite, DeleteEvent;
    EditMetadataLaws(g, e, cfg);
    InvitesLaws(g, e, cfg);
  }

  function RolesOnJoining(g: GroupState, e: Event): set<Role> {
    if g.meta.fields.closed && CodeOf(e).Some? && CodeOf(e).value in g.invites then g.invites[CodeOf(e).value].roles
    else {Member}
  }

  lemma JoinLetsIn(g: GroupState, e: Event, now: U64, k: PublicKey)
    requires Inv(g)
    ensures var o := JoinRequest(g, e, now);
      && (o.result.Refused? ==> o.g == g)
      && (k != e.pubkey && k in o.g.members ==> k in g.members && o.g.members[k] == g.members[k])
      && (k in g.members ==> k in o.g.members && o.g.members[k] == g.members[k])
      && (e.pubkey !in g.members && o.result.Accepted? ==>
            && (e.pubkey in o.g.members <==> (g.meta.fields.closed ==> HasUsableInvite(g, e, now)))
            && (e.pubkey in o.g.members ==> o.g.members[e.pubkey] == RolesOnJoining(g, e)))
  {
    JoinRequestLaws(g, e, now);
    hide Inv, AdminsOf, CodeOf;
  }

  lemma LeaveLetsOut(g: GroupState, e: Event, k: PublicKey)
    requires Inv(g)
    ensures var o := LeaveRequest(g, e);
      && (o.result.Refused? ==> o.g == g)
      && (o.result.Accepted? ==> o.g.members == g.members - {e.pubkey})
  {
    LeaveRequestLaws(g, e);
    hide Inv, AdminsOf;
    if e.pubkey !in g.members { assert g.members - {e.pubkey} == g.members; }
  }

  lemma ContentLetsIn(g: GroupState, e: Event, k: PublicKey)
    requires Inv(g)
    ensures var o := Content(g, e);
      && (o.result.Refused? ==> o.g == g)
      && (k != e.pubkey && k in o.g.members ==> k in g.members && o.g.members[k] == g.members[k])
      && (k in g.members ==> k in o.g.members && o.g.members[k] == g.members[k])
      && (e.pubkey !in g.members && o.result.Accepted? ==>
            && (e.pubkey in o.g.members <==> !g.meta.fields.closed)
            && (e.pubkey in o.g.members ==> o.g.members[e.pubkey] == {Member}))
  {
    ContentLaws(g, e);
    hide Inv, AdminsOf;
    if e.pubkey !in g.members { AddOne(g.members, Named(e.pubkey, {Member})); }
  }

  // ----- Out -----------------------------------------------------------------------

  /** The only two ways out: being named by an admin's 9001, and one's own 9022. */
  predicate LetsOut(e: Event, k: PublicKey) {
    || (e.kind == REMOVE_USER_9001 && k in TaggedKeys(TagsOf(e.tags, P)))
    || (e.kind == LEAVE_9022 && k == e.pubkey)
  }

  lemma WaysOut(g: GroupState, e: Event, now: U64, cfg: Config, k: PublicKey)
    requires Inv(g) && k in g.members
    ensures var o := Handle(g, e, now, cfg);
      k !in o.g.members <==> o.result.Accepted? && LetsOut(e, k)
  {
    hide PutUser, RemoveUser, SetRoles, JoinRequest, LeaveRequest, Content, EditMetadata, CreateInvite, DeleteEvent, Inv,
         Names, NamedIn, LastRoles, TaggedKeys;
    AddsNamed(g, e, cfg, k);
    RemovesNamed(g, e, cfg, k);
    RolesKeepMembers(g, e, cfg);
    JoinLetsIn(g, e, now, k);
    LeaveLetsOut(g, e, k);
    ContentLetsIn(g, e, k);
    RestKeepMembers(g, e, cfg);
  }

  // ----- Up and down ---------------------------------------------------------------

  /** Standing only changes by an admin's 9000 or 9006 that names the member, by an
      invite whose entry gives the role, or with membership. */
  predicate SaysAdmin(g: GroupState, e: Event, now: U64, k: PublicKey) {
    || (e.kind == ADD_USER_9000 && Names(NamedIn(e), k) && Admin in LastRoles(NamedIn(e), k))
    || (e.kind == SET_ROLES_9006 && k in g.members && Names(NamedIn(e), k) && Admin in LastRoles(NamedIn(e), k))
    || (e.kind == JOIN_9021 && k == e.pubkey && k !in g.members && g.meta.fields.closed && HasUsableInvite(g, e, now) &&
        Admin in g.invites[CodeOf(e).value].roles)
  }

  predicate SaysNotAdmin(e: Event, k: PublicKey) {
    || (e.kind in {ADD_USER_9000, SET_ROLES_9006} && Names(NamedIn(e), k) && Admin !in LastRoles(NamedIn(e), k))
    || LetsOut(e, k)
  }

  lemma RolesAreAssigned(g: GroupState, e: Event, cfg: Config, k: PublicKey)
    requires Inv(g) && k in g.members && SetRoles(g, e, cfg).result.Accepted?
    ensures var o := SetRoles(g, e, cfg);
      k in o.g.members && o.g.members[k] == if Names(NamedIn(e), k) then LastRoles(NamedIn(e), k) else g.members[k]
  {
    var tags := TagsOf(e.tags, P);
    hide AdminsOf, TagsOf, Names, LastRoles, CheckRoles, AssignRoles;
    ChecksPassIff(AdminsOf(g.members), tags);
    assert AllParse(tags);
    WorldLaws.AssigningMeans(g.members, tags, k);
  }

  lemma WaysUp(g: GroupState, e: Event, now: U64, cfg: Config, k: PublicKey)
    requires Inv(g) && !g.IsAdmin(k)
    ensures var o := Handle(g, e, now, cfg);
      o.g.IsAdmin(k) <==> o.result.Accepted? && SaysAdmin(g, e, now, k)
  {
    hide PutUser, RemoveUser, SetRoles, JoinRequest, LeaveRequest, Content, EditMetadata, CreateInvite, DeleteEvent, Inv,
         Names, NamedIn, LastRoles, TaggedKeys, CodeOf;
    AddsNamed(g, e, cfg, k);
    RemovesNamed(g, e, cfg, k);
    RolesKeepMembers(g, e, cfg);
    if k in g.members && SetRoles(g, e, cfg).result.Accepted? { RolesAreAssigned(g, e, cfg, k); }
    JoinLetsIn(g, e, now, k);
    LeaveLetsOut(g, e, k);
    ContentLetsIn(g, e, k);
    RestKeepMembers(g, e, cfg);
  }

  lemma WaysDown(g: GroupState, e: Event, now: U64, cfg: Config, k: PublicKey)
    requires Inv(g) && g.IsAdmin(k)
    ensures var o := Handle(g, e, now, cfg);
      !o.g.IsAdmin(k) <==> o.result.Accepted? && SaysNotAdmin(e, k)
  {
    hide PutUser, RemoveUser, SetRoles, JoinRequest, LeaveRequest, Content, EditMetadata, CreateInvite, DeleteEvent, Inv,
         Names, NamedIn, LastRoles, TaggedKeys, HasUsableInvite;
    AddsNamed(g, e, cfg, k);
    RemovesNamed(g, e, cfg, k);
    RolesKeepMembers(g, e, cfg);
    if SetRoles(g, e, cfg).result.Accepted? { RolesAreAssigned(g, e, cfg, k); }
    JoinLetsIn(g, e, now, k);
    LeaveLetsOut(g, e, k);
    ContentLetsIn(g, e, k);
    RestKeepMembers(g, e, cfg);
  }
}
