/** Runs of one group: the invariant, what is published, and restarts. */
module WorldLaws {
  import opened Nostr
  import opened Text
  import opened Sorting
  import opened GroupModel
  import opened GroupLaws
  import opened Printing
  import opened World
  import Metadata
  import Startup

  // ----- What an accepted event stores and publishes ---------------------------

  lemma Unfold(p: Published, h: set<Event>, a: Command, b: Command, c: Command, d: Command)
    ensures PublishAll(p, []) == p && StoreAll(h, []) == h
    ensures PublishAll(p, [a]) == Publish(p, a) && StoreAll(h, [a]) == Store(h, a)
    ensures PublishAll(p, [a, b]) == Publish(Publish(p, a), b) && StoreAll(h, [a, b]) == Store(Store(h, a), b)
    ensures PublishAll(p, [a, b, c]) == Publish(Publish(Publish(p, a), b), c)
    ensures StoreAll(h, [a, b, c]) == Store(Store(Store(h, a), b), c)
    ensures PublishAll(p, [a, b, c, d]) == Publish(Publish(Publish(Publish(p, a), b), c), d)
    ensures StoreAll(h, [a, b, c, d]) == Store(Store(Store(Store(h, a), b), c), d)
  {
    hide Publish, Store;
    assert [a][..0] == [];
    assert [a, b][..1] == [a];
    assert PublishAll(p, [a]) == Publish(p, a) && StoreAll(h, [a]) == Store(h, a);
    assert [a, b, c][..2] == [a, b];
    assert PublishAll(p, [a, b]) == Publish(Publish(p, a), b) && StoreAll(h, [a, b]) == Store(Store(h, a), b);
    assert [a, b, c, d][..3] == [a, b, c];
  }

  /** The state the published lists are in after `cmds`, and the stored history. */
  predicate Records(cmds: seq<Command>, p: Published, h: set<Event>, p': Published, h': set<Event>) {
    PublishAll(p, cmds) == p' && StoreAll(h, cmds) == h'
  }

  lemma Join3<X>(a: X, b: X, c: X)
    ensures [a] + [b] + [c] == [a, b, c]
  {
  }

  lemma WithAdminListRecords(g: GroupState, e: Event, p: Published, h: set<Event>)
    ensures var o := WithAdminList(g, [SaveSigned(e, g.scope)], [MemberListOf(g)]);
      o.result.Accepted? ==>
        Records(o.result.cmds, p, h, p.(admins := Some(AdminsOf(g.members)), keys := Some(g.members.Keys)), h + {e})
  {
    hide PublishAll, StoreAll, AdminsOf;
    Unfold(p, h, SaveSigned(e, g.scope), AdminListOf(g), MemberListOf(g), MemberListOf(g));
    Join3(SaveSigned(e, g.scope), AdminListOf(g), MemberListOf(g));
  }

  lemma WithMembershipRecords(g: GroupState, e: Event, p: Published, h: set<Event>)
    ensures var o := WithMembership(g, e);
      o.result.Accepted? ==>
        Records(o.result.cmds, p, h, p.(admins := Some(AdminsOf(g.members)), keys := Some(g.members.Keys)), h + {e})
  {
    var save, puts := SaveSigned(e, g.scope), Generate(PutUsers(g.id, g.members), g.scope);
    Unfold(p, h, save, puts, AdminListOf(g), MemberListOf(g));
    assert [save, puts] + [AdminListOf(g)] + [MemberListOf(g)] == [save, puts, AdminListOf(g), MemberListOf(g)];
  }

  /** What an accepted event, other than a 9006, a 9002 or a 9005, records.  An
      admin list is not always printed, but where it was accurate it stays so. */
  predicate RecordsMembers(g: GroupState, e: Event, o: Outcome, p: Published, h: set<Event>) {
    o.result.Accepted? ==>
      var p' := PublishAll(p, o.result.cmds);
      && p'.admins in {p.admins, Some(AdminsOf(o.g.members))} && p'.meta == p.meta
      && StoreAll(h, o.result.cmds) == (if o.result.cmds == [] then h else h + {e})
      && (p.keys == Some(g.members.Keys) ==> p'.keys == Some(o.g.members.Keys))
      && (p.admins == Some(AdminsOf(g.members)) ==> p'.admins == Some(AdminsOf(o.g.members)))
  }

  lemma DisjointMinus<X>(a: set<X>, b: set<X>)
    requires a * b == {}
    ensures a - b == a
  {
    assert forall x :: x in a && x in b ==> x in a * b;
  }

  lemma PutUserRecords(g: GroupState, e: Event, cfg: Config, p: Published, h: set<Event>)
    ensures RecordsMembers(g, e, PutUser(g, e, cfg), p, h)
  {
    hide AdminsOf, PublishAll, StoreAll;
    match AddMembers(g.members, g.joinRequests, ParsedMembers(TagsOf(e.tags, P)))
    case NotAdded(_) =>
    case Added(m, j) => WithAdminListRecords(g.(members := m, joinRequests := j), e, p, h);
  }

  lemma RemoveUserRecords(g: GroupState, e: Event, cfg: Config, p: Published, h: set<Event>)
    requires Inv(g)
    ensures RecordsMembers(g, e, RemoveUser(g, e, cfg), p, h)
  {
    hide RemoveNamed, TaggedKeys;
    var keys := TaggedKeys(TagsOf(e.tags, P));
    RemovingMeans(g.members, g.joinRequests, TagsOf(e.tags, P));
    var g' := g.(members := g.members - keys);
    WithAdminListRecords(g', e, p, h);
    Unfold(p, h, SaveSigned(e, g.scope), MemberListOf(g'), MemberListOf(g'), MemberListOf(g'));
    assert AdminsOf(g'.members) == AdminsOf(g.members) - keys;
    if AdminsOf(g.members) * keys == {} {
      DisjointMinus(AdminsOf(g.members), keys);
    }
  }

  lemma LeaveRequestRecords(g: GroupState, e: Event, p: Published, h: set<Event>)
    ensures RecordsMembers(g, e, LeaveRequest(g, e), p, h)
  {
    var g' := g.(members := g.members - {e.pubkey}, joinRequests := g.joinRequests - {e.pubkey});
    WithAdminListRecords(g', e, p, h);
    Unfold(p, h, SaveSigned(e, g.scope), MemberListOf(g'), MemberListOf(g'), MemberListOf(g'));
    AdminsAfterRemove(g.members, e.pubkey);
    if !g.IsAdmin(e.pubkey) { assert AdminsOf(g'.members) == AdminsOf(g.members); }
  }

  lemma JoinRequestRecords(g: GroupState, e: Event, now: U64, p: Published, h: set<Event>)
    ensures RecordsMembers(g, e, JoinRequest(g, e, now), p, h)
  {
    hide AdminsOf;
    WithMembershipRecords(Admit(g, e.pubkey, {Member}), e, p, h);
    var code := CodeOf(e);
    if code.Some? && code.value in g.invites {
      var invite := g.invites[code.value];
      var used := g.invites[code.value := invite.MarkUsed(e.pubkey, e.createdAt)];
      WithMembershipRecords(Admit(g.(invites := used), e.pubkey, invite.roles), e, p, h);
    }
    Unfold(p, h, SaveSigned(e, g.scope), SaveSigned(e, g.scope), SaveSigned(e, g.scope), SaveSigned(e, g.scope));
  }

  lemma ContentRecords(g: GroupState, e: Event, p: Published, h: set<Event>)
    ensures RecordsMembers(g, e, Content(g, e), p, h)
  {
    hide AdminsOf;
    Unfold(p, h, SaveSigned(e, g.scope), SaveSigned(e, g.scope), SaveSigned(e, g.scope), SaveSigned(e, g.scope));
    match AddMembers(g.members, g.joinRequests, [Named(e.pubkey, {Member})])
    case NotAdded(_) =>
    case Added(m, j) => WithMembershipRecords(g.(members := m, joinRequests := j), e, p, h);
  }

  lemma OtherRecords(g: GroupState, e: Event, cfg: Config, p: Published, h: set<Event>)
    ensures var o := EditMetadata(g, e, cfg);
      o.result.Accepted? ==> Records(o.result.cmds, p, h, p.(meta := Some(o.g.meta)), h + {e})
    ensures var o := SetRoles(g, e, cfg);
      o.result.Accepted? ==> Records(o.result.cmds, p, h, p.(keys := Some(o.g.members.Keys)), h + {e})
    ensures var o := CreateInvite(g, e, cfg);
      o.result.Accepted? ==> Records(o.result.cmds, p, h, p, h + {e})
    ensures var o := DeleteEvent(g, e, cfg);
      o.result.Accepted? ==>
        Records(o.result.cmds, p, h, p,
                (set f | f in h && !Matches(Filter(Some(EventIds(e.tags)), Some(g.id), None), f)) + {e})
  {
    hide AdminsOf, Metadata.ApplyTags, CheckRoles, AssignRoles, Matches;
    var save := SaveSigned(e, g.scope);
    var meta := ForcePublic(Metadata.ApplyTags(g.meta, e.tags), cfg.forcePublic);
    Unfold(p, h, save, Generate(MetadataEvent(g.id, meta, cfg.relayUrl), g.scope),
           Generate(RoleList(g.id), g.scope), save);
    var g' := g.(members := AssignRoles(g.members, TagsOf(e.tags, P)));
    Unfold(p, h, save, Generate(RoleList(g.id), g.scope), MemberListOf(g'), save);
    Unfold(p, h, Delete(Filter(Some(EventIds(e.tags)), Some(g.id), None), g.scope), save, save, save);
  }

  // ----- The run invariant -------------------------------------------------------

  /** The group invariant holds and the member list last published is exactly the
      members; the admin list is exactly the admins as long as no 9006 came. */
  predicate InSync(w: World, cfg: Config) {
    && w.g.id == w.name != "" && Inv(w.g) && w.pub.meta.Some? && Metadata.Valid(w.pub.meta.value)
    && w.pub.keys == Some(w.g.members.Keys) && w.pub.admins == Some(AdminsOf(w.g.members))
    && MetaInSync(w, cfg)
  }

  /** The metadata is what was last published, or what startup makes of that. */
  predicate MetaInSync(w: World, cfg: Config)
    requires w.pub.meta.Some?
  {
    || w.g.meta.fields == w.pub.meta.value.fields
    || w.g.meta.fields == Restarted(w.name, w.pub.meta.value, cfg)
  }

  function Restarted(id: string, m: Metadata.Meta, cfg: Config): Metadata.Fields {
    ForcePublic(Metadata.Reloaded(Metadata.FreshMeta(id), m, cfg.relayUrl), cfg.forcePublic).fields
  }

  /** All three state events are published, and the claims of others list nobody new, tell
      nothing new and name the group first. */
  ghost predicate IsHarmless(w: World, claims: set<UnsignedEvent>, cfg: Config) {
    && Startup.ListNobodyNew(claims, Listed(w.pub.admins), Listed(w.pub.keys))
    && w.pub.meta.Some? && w.pub.admins.Some? && w.pub.keys.Some?
    && Startup.TellNothingNew(claims, Metadata.Reloaded(Metadata.FreshMeta(w.name), w.pub.meta.value, cfg.relayUrl).fields)
    && (forall u :: u in claims ==> FirstGroupTag(u.tags) == Some(w.name))
  }

  lemma SignedKeepsSync(w: World, e: Event, now: U64, cfg: Config)
    requires InSync(w, cfg) && e.kind != SET_ROLES_9006
    ensures InSync(Step(w, Signed(e, now), cfg), cfg)
  {
    hide PutUser, RemoveUser, JoinRequest, LeaveRequest, Content, CreateInvite, DeleteEvent, EditMetadata,
         SetRoles, AdminsOf, Metadata.Valid, PublishAll, StoreAll, Restarted, ForcePublic;
    HandleLaws(w.g, e, now, cfg);
    PutUserRecords(w.g, e, cfg, w.pub, w.hist);
    RemoveUserRecords(w.g, e, cfg, w.pub, w.hist);
    LeaveRequestRecords(w.g, e, w.pub, w.hist);
    JoinRequestRecords(w.g, e, now, w.pub, w.hist);
    ContentRecords(w.g, e, w.pub, w.hist);
    OtherRecords(w.g, e, cfg, w.pub, w.hist);
    HandleTouches(w.g, e, now, cfg);
  }

  /** Only a 9002 touches the metadata, and so on for the other parts. */
  lemma OthersTouch(g: GroupState, e: Event, cfg: Config)
    ensures EditMetadata(g, e, cfg).g == g.(meta := EditMetadata(g, e, cfg).g.meta)
    ensures DeleteEvent(g, e, cfg).g == g.(invites := DeleteEvent(g, e, cfg).g.invites)
    ensures CreateInvite(g, e, cfg).g == g.(invites := CreateInvite(g, e, cfg).g.invites)
  {
    hide Metadata.ApplyTags, AdminsOf, InviteOf, WithoutInvites, EventIds, CodeOf;
  }

  lemma HandleTouches(g: GroupState, e: Event, now: U64, cfg: Config)
    requires Inv(g)
    ensures var o := Handle(g, e, now, cfg);
      && (o.g.meta != g.meta ==> e.kind == EDIT_METADATA_9002)
      && (e.kind in {EDIT_METADATA_9002, CREATE_INVITE_9009, DELETE_EVENT_9005} ==> o.g.members == g.members)
      && (e.kind !in {CREATE_INVITE_9009, DELETE_EVENT_9005, JOIN_9021} ==> o.g.invites == g.invites)
      && (e.kind != JOIN_9021 ==> o.g.joinRequests <= g.joinRequests)
  {
    hide PutUser, RemoveUser, SetRoles, JoinRequest, LeaveRequest, Content, EditMetadata, DeleteEvent, CreateInvite,
         HasAccess, Inv;
    OthersTouch(g, e, cfg);
    PutUserLaws(g, e, cfg);
    RemoveUserLaws(g, e, cfg);
    SetRolesLaws(g, e, cfg);
    JoinRequestLaws(g, e, now);
    LeaveRequestLaws(g, e);
    ContentLaws(g, e);
  }

  // ----- Restarts ------------------------------------------------------------------

  /** Replaying history changes neither members nor metadata, and never makes a
      member somebody who asks to join. */
  lemma {:induction false} ReplayKeeps(g: GroupState, order: seq<Event>)
    ensures var r := Replay(g, order);
      && r == g.(joinRequests := r.joinRequests, invites := r.invites)
      && (g.joinRequests !! g.members.Keys ==> r.joinRequests !! g.members.Keys)
  {
    hide InviteOf, RolesNamed;
    if order != [] { ReplayKeeps(g, order[..|order| - 1]); }
  }

  lemma OwnList(w: World, a: UnsignedEvent, b: UnsignedEvent, c: UnsignedEvent, cfg: Config)
    requires ArePublished(w, a, b, c, cfg)
    ensures Startup.ListsOf(OwnEvents(w.pub, a, b, c), Listed(w.pub.admins), Listed(w.pub.keys))
  {
    hide Startup.Lists, Startup.Grants, IsAdminList, IsMemberList, IsMetadata, Metadata.Valid;
    var own := OwnEvents(w.pub, a, b, c);
    forall k: PublicKey
      ensures (exists u :: u in own && Startup.Lists(u, k)) <==> k in Listed(w.pub.keys) + Listed(w.pub.admins)
      ensures (exists u :: u in own && Startup.Promotes(u, k)) <==> k in Listed(w.pub.admins)
    {
      if w.pub.admins.Some? { Startup.AdminListMeans(a, w.name, w.pub.admins.value, k); }
      if w.pub.keys.Some? { Startup.MemberListMeans(b, w.name, w.pub.keys.value, k); }
      if w.pub.meta.Some? { Startup.MetadataListsNobody(c, w.name, w.pub.meta.value, cfg.relayUrl, k); }
      assert w.pub.admins.Some? ==> a in own;
      assert w.pub.keys.Some? ==> b in own;
    }
  }

  /** What a restart makes of whatever is still published and claimed, accurate or not. */
  lemma RestartReads(w: World, us: seq<UnsignedEvent>, claims: set<UnsignedEvent>, order: seq<Event>, cfg: Config)
    requires us != [] && IsRestart(w, us, claims, order, cfg)
    ensures var g := Rebuild(us, order, w.g.scope, cfg);
      && g.scope == w.g.scope && g.id == LoadState(us, w.g.scope).id
      && g.members.Keys == Listed(w.pub.keys) + Listed(w.pub.admins) + Startup.ClaimedKeys(claims)
      && AdminsOf(g.members) == Listed(w.pub.admins) + Startup.ClaimedAdmins(claims)
      && g.joinRequests !! g.members.Keys && Metadata.Valid(g.meta)
      && g.meta.fields == ForcePublic(LoadState(us, w.g.scope).meta, cfg.forcePublic).fields
  {
    hide LoadState, Replay, Startup.ClaimedKeys, Startup.ClaimedAdmins, AdminsOf, ArePublished, Startup.ListsOf, OwnEvents,
         Metadata.Valid, IsReplayOrder, AreStoredClaims, Listed;
    var a, b, c :| ArePublished(w, a, b, c, cfg) && Elements(us) == OwnEvents(w.pub, a, b, c) + claims;
    OwnList(w, a, b, c, cfg);
    Startup.StartupMembersOf(us, w.g.scope, OwnEvents(w.pub, a, b, c), claims, Listed(w.pub.admins), Listed(w.pub.keys));
    var loaded := LoadState(us, w.g.scope);
    ReplayKeeps(loaded, order);
    LoadedIsFresh(us, w.g.scope);
    LoadedMetaIsValid(us, w.g.scope);
    ForcingKeepsValid(loaded.meta, cfg.forcePublic);
  }

  /** A restart leaves the group with an admin, and so with its invariant, exactly when
      an admin is still published or claimed. */
  lemma RestartLeavesAdminIff(w: World, us: seq<UnsignedEvent>, claims: set<UnsignedEvent>, order: seq<Event>, cfg: Config)
    requires us != [] && IsRestart(w, us, claims, order, cfg)
    ensures Inv(Rebuild(us, order, w.g.scope, cfg)) <==> LeavesAdmin(w, claims)
  {
    hide Rebuild, IsRestart, AdminsOf, Metadata.Valid, Startup.ClaimedAdmins, Startup.ClaimedKeys, Listed;
    RestartReads(w, us, claims, order, cfg);
  }

  lemma LoadedIsFresh(us: seq<UnsignedEvent>, scope: Scope)
    requires us != []
    ensures var g := LoadState(us, scope); g.joinRequests == {} && g.invites == map[] && g.scope == scope
    ensures LoadState(us, scope).id == FromEvent(us[0], scope).id
  {
    hide LoadAll, Metadata.ApplyTags, FirstGroupTag;
    Startup.LoadingKeeps(FromEvent(us[0], scope), us);
  }

  /** Whatever is read first, if it names the group first the group keeps its name. */
  lemma FirstNames(w: World, us: seq<UnsignedEvent>, claims: set<UnsignedEvent>, order: seq<Event>, cfg: Config)
    requires us != [] && w.name != "" && IsRestart(w, us, claims, order, cfg)
    requires forall u :: u in claims ==> FirstGroupTag(u.tags) == Some(w.name)
    ensures FirstGroupTag(us[0].tags) == Some(w.name)
  {
    hide FirstGroupTag, Metadata.Valid, Metadata.IsMetadataEvent, IsReplayOrder, AreStoredClaims, IsAdminList, IsMemberList;
    var a, b, c :| ArePublished(w, a, b, c, cfg) && Elements(us) == OwnEvents(w.pub, a, b, c) + claims;
    assert us[0] in Elements(us);
    if w.pub.meta.Some? && us[0] == c {
      MetadataNamesItsGroup(c, w.g.scope, w.name, w.pub.meta.value, cfg.relayUrl);
    } else if w.pub.admins.Some? && us[0] == a {
      ListNamesItsGroup(a, w.name, w.pub.admins.value);
    } else if w.pub.keys.Some? && us[0] == b {
      ListNamesItsGroup(b, w.name, w.pub.keys.value);
    }
  }

  lemma ListNamesItsGroup(u: UnsignedEvent, id: string, s: set<PublicKey>)
    requires IsAdminList(u, id, s) || IsMemberList(u, id, s)
    ensures FirstGroupTag(u.tags) == Some(id)
  {
    assert u.tags[0] == Tag(D, [id]);
  }

  /** A restart restores members and admins exactly when the state events others have
      stored list nobody new. */
  lemma RestartRestoresMembersIff(w: World, us: seq<UnsignedEvent>, claims: set<UnsignedEvent>, order: seq<Event>,
                                  cfg: Config)
    requires InSync(w, cfg) && us != [] && IsRestart(w, us, claims, order, cfg)
    ensures var g := Rebuild(us, order, w.g.scope, cfg);
      g.members.Keys == w.g.members.Keys && AdminsOf(g.members) == AdminsOf(w.g.members) <==>
      Startup.ListNobodyNew(claims, AdminsOf(w.g.members), w.g.members.Keys)
  {
    hide Rebuild, IsRestart, Startup.ClaimedKeys, Startup.ClaimedAdmins, AdminsOf, MetaInSync;
    RestartReads(w, us, claims, order, cfg);
    AdminsAreMembers(w.g.members);
  }

  /** A restart on harmless claims keeps everything that was in sync so. */
  lemma RestartRebuilds(w: World, us: seq<UnsignedEvent>, claims: set<UnsignedEvent>, order: seq<Event>, cfg: Config)
    requires InSync(w, cfg) && us != [] && IsRestart(w, us, claims, order, cfg) && IsHarmless(w, claims, cfg)
    ensures var g := Rebuild(us, order, w.g.scope, cfg);
      && InSync(w.(g := g), cfg) && g.id == w.g.id && g.scope == w.g.scope
      && g.members.Keys == w.g.members.Keys && AdminsOf(g.members) == AdminsOf(w.g.members)
      && g.meta.fields == Restarted(w.name, w.pub.meta.value, cfg)
  {
    hide Rebuild, LoadState, Startup.ClaimedKeys, Startup.ClaimedAdmins, AdminsOf, Metadata.Valid, ArePublished,
         IsReplayOrder, AreStoredClaims, Startup.TellNothingNew, Metadata.Reloaded;
    RestartReads(w, us, claims, order, cfg);
    RestartRestoresMembersIff(w, us, claims, order, cfg);
    FirstNames(w, us, claims, order, cfg);
    Startup.NameComesBackIff(us, w.g.scope, w.name);
    FullReading(w, us, claims, order, cfg);
    AdminsAreMembers(w.g.members);
    ForcedFields(LoadState(us, w.g.scope).meta, Metadata.Reloaded(Metadata.FreshMeta(w.name), w.pub.meta.value, cfg.relayUrl),
                 cfg);
  }

  /** While all three are published, claims that tell nothing new leave the metadata. */
  lemma FullReading(w: World, us: seq<UnsignedEvent>, claims: set<UnsignedEvent>, order: seq<Event>, cfg: Config)
    requires us != [] && IsRestart(w, us, claims, order, cfg)
    requires w.pub.admins.Some? && w.pub.keys.Some? && w.pub.meta.Some?
    requires var r := Metadata.Reloaded(Metadata.FreshMeta(w.name), w.pub.meta.value, cfg.relayUrl).fields;
      Startup.TellNothingNew(claims, r)
    ensures LoadState(us, w.g.scope).meta.fields ==
      Metadata.Reloaded(Metadata.FreshMeta(w.name), w.pub.meta.value, cfg.relayUrl).fields
  {
    hide LoadState, Metadata.Valid, IsReplayOrder, AreStoredClaims, Startup.TellNothingNew, Metadata.Reloaded, IsAdminList,
         IsMemberList, IsMetadata;
    var a, b, c :| ArePublished(w, a, b, c, cfg) && Elements(us) == OwnEvents(w.pub, a, b, c) + claims;
    assert OwnEvents(w.pub, a, b, c) == {a, b, c};
    Startup.MetadataComesBack(us, w.g.scope, a, b, c, claims, w.name, w.pub.meta.value, cfg.relayUrl, w.pub.admins.value,
                              w.pub.keys.value);
  }

  lemma ForcedFields(m: Metadata.Meta, n: Metadata.Meta, cfg: Config)
    requires m.fields == n.fields
    ensures ForcePublic(m, cfg.forcePublic).fields == ForcePublic(n, cfg.forcePublic).fields
  {
  }

  lemma {:induction false} LoadedMetaIsValid(us: seq<UnsignedEvent>, scope: Scope)
    requires us != []
    ensures Metadata.Valid(LoadState(us, scope).meta)
  {
    Metadata.ApplyKeepsValid(Metadata.FreshMeta(FromEvent(us[0], scope).id), us[0].tags);
    LoadAllMetaIsValid(FromEvent(us[0], scope), us);
  }

  lemma {:induction false} LoadAllMetaIsValid(g: GroupState, us: seq<UnsignedEvent>)
    requires Metadata.Valid(g.meta)
    ensures Metadata.Valid(LoadAll(g, us).meta)
  {
    hide Metadata.ApplyTags, LoadMembers, Metadata.Valid;
    if us != [] {
      LoadAllMetaIsValid(g, us[..|us| - 1]);
      Metadata.ApplyKeepsValid(LoadAll(g, us[..|us| - 1]).meta, us[|us| - 1].tags);
    }
  }

  lemma StartsInSync(w: World, cfg: Config)
    requires IsStart(w, cfg)
    ensures InSync(w, cfg)
  {
    hide Metadata.ApplyTags, ForcePublic;
    hide Concerns;
    var e, participants :| w.g == CreatedGroup(e, w.g.id, w.g.scope, participants, cfg);
    assert e.pubkey in AdminsOf(w.g.members);
    Metadata.ApplyKeepsValid(Metadata.FreshMeta(w.g.id), e.tags);
    ForcingKeepsValid(Metadata.ApplyTags(Metadata.FreshMeta(w.g.id), e.tags), cfg.forcePublic);
  }

  /** No 9006, and no restart that reads more than harmless claims. */
  ghost predicate IsPlain(ws: seq<World>, inputs: seq<Input>, cfg: Config)
    requires |ws| == |inputs| + 1
  {
    forall n :: 0 <= n < |inputs| ==>
      !SetsRoles(inputs[n]) && (inputs[n].Restart? ==> IsHarmless(ws[n], inputs[n].claims, cfg))
  }

  lemma PlainShortens(ws: seq<World>, inputs: seq<Input>, cfg: Config)
    requires |ws| == |inputs| + 1 && inputs != [] && IsPlain(ws, inputs, cfg)
    ensures var n := |inputs| - 1;
      && IsPlain(ws[..n + 1], inputs[..n], cfg) && !SetsRoles(inputs[n])
      && (inputs[n].Restart? ==> IsHarmless(ws[n], inputs[n].claims, cfg))
  {
    hide SetsRoles, IsHarmless;
  }

  /** Over every run from creation that has no 9006, in which nobody else prints or deletes
      under the group's name and restarts read harmless claims only: somebody is admin,
      nobody is both in and waiting, and what the store would rebuild is exactly the
      members and admins the group has. */
  lemma {:induction false} RunStaysInSync(ws: seq<World>, inputs: seq<Input>, cfg: Config)
    requires IsRun(ws, inputs, cfg) && IsStart(ws[0], cfg) && IsUndisturbed(ws, inputs)
    requires IsPlain(ws, inputs, cfg)
    ensures InSync(ws[|inputs|], cfg)
  {
    var start := ws[0];
    hide *;
    if inputs == [] {
      StartsInSync(start, cfg);
    } else {
      var n := |inputs| - 1;
      RunShortens(ws, inputs, cfg);
      PlainShortens(ws, inputs, cfg);
      RunStaysInSync(ws[..n + 1], inputs[..n], cfg);
      StepKeepsSync(ws[n], inputs[n], cfg);
    }
  }

  lemma StepKeepsSync(w: World, i: Input, cfg: Config)
    requires InSync(w, cfg) && MayStep(w, i, cfg) && !SetsRoles(i)
    requires i.Restart? ==> IsHarmless(w, i.claims, cfg)
    requires i.Elsewhere? ==> i.pub == w.pub
    ensures InSync(Step(w, i, cfg), cfg)
  {
    hide Rebuild, Handle, IsRestart, IsHarmless, Inv, AdminsOf, MetaInSync;
    match i
    case Signed(e, now) => SignedKeepsSync(w, e, now, cfg);
    case Elsewhere(stored, gone, _) => StoreDoesNotMatter(w, w.hist - gone + stored, cfg);
    case Restart(us, claims, order) => RestartRebuilds(w, us, claims, order, cfg);
  }

  lemma StoreDoesNotMatter(w: World, hist: set<Event>, cfg: Config)
    requires InSync(w, cfg)
    ensures InSync(w.(hist := hist), cfg)
  {
  }

  /** What survives every run whose restarts leave an admin, 9006s, claims and what others
      print or delete under this name included. */
  predicate Sound(w: World) {
    Inv(w.g)
  }

  lemma StepKeepsSound(w: World, i: Input, cfg: Config)
    requires Sound(w) && MayStep(w, i, cfg)
    ensures Sound(Step(w, i, cfg)) <==> (i.Restart? ==> LeavesAdmin(w, i.claims))
  {
    hide Handle, PublishAll, StoreAll, Inv, IsRestart, Rebuild, LeavesAdmin;
    match i
    case Elsewhere(_, _, _) =>
    case Signed(e, now) => HandleLaws(w.g, e, now, cfg);
    case Restart(us, claims, order) => RestartLeavesAdminIff(w, us, claims, order, cfg);
  }

  lemma StartsSound(w: World, cfg: Config)
    requires IsStart(w, cfg)
    ensures Sound(w) && HasPublishedAdmin(w)
  {
    hide IsStart, MetaInSync;
    StartsInSync(w, cfg);
  }

  /** Every group reached from its creation by any run of events and restarts, whatever
      others claim about it, print or delete under its name, has an admin, and nobody in it
      is also waiting to join, as long as each restart still finds an admin published or
      claimed; and the first that does not breaks this. */
  lemma {:induction false} RunKeepsInvariant(ws: seq<World>, inputs: seq<Input>, cfg: Config)
    requires IsRun(ws, inputs, cfg) && IsStart(ws[0], cfg) && RestartsLeaveAdmins(ws, inputs)
    ensures Sound(ws[|inputs|])
  {
    var start := ws[0];
    hide *;
    if inputs == [] {
      StartsSound(start, cfg);
    } else {
      var n := |inputs| - 1;
      RunShortens(ws, inputs, cfg);
      RunKeepsInvariant(ws[..n + 1], inputs[..n], cfg);
      StepKeepsSound(ws[n], inputs[n], cfg);
    }
  }

  predicate HasPublishedAdmin(w: World) {
    w.pub.admins.Some? && w.pub.admins.value != {}
  }

  lemma SignedPublishesAdmin(w: World, e: Event, now: U64, cfg: Config)
    requires Sound(w) && HasPublishedAdmin(w)
    ensures HasPublishedAdmin(Step(w, Signed(e, now), cfg))
  {
    hide PutUser, RemoveUser, JoinRequest, LeaveRequest, Content, CreateInvite, DeleteEvent, EditMetadata,
         SetRoles, AdminsOf, Metadata.Valid, PublishAll, StoreAll;
    HandleLaws(w.g, e, now, cfg);
    PutUserRecords(w.g, e, cfg, w.pub, w.hist);
    RemoveUserRecords(w.g, e, cfg, w.pub, w.hist);
    LeaveRequestRecords(w.g, e, w.pub, w.hist);
    JoinRequestRecords(w.g, e, now, w.pub, w.hist);
    ContentRecords(w.g, e, w.pub, w.hist);
    OtherRecords(w.g, e, cfg, w.pub, w.hist);
  }

  /** Where nobody else prints or deletes under the name that is always so: on any claims,
      9006s included, every restart leaves an admin. */
  lemma {:induction false} UndisturbedKeepsAdmins(ws: seq<World>, inputs: seq<Input>, cfg: Config)
    requires IsRun(ws, inputs, cfg) && IsStart(ws[0], cfg) && IsUndisturbed(ws, inputs)
    ensures Sound(ws[|inputs|]) && HasPublishedAdmin(ws[|inputs|]) && RestartsLeaveAdmins(ws, inputs)
  {
    var start := ws[0];
    hide *;
    if inputs == [] {
      StartsSound(start, cfg);
      NoRestarts(ws, inputs, cfg);
    } else {
      var n := |inputs| - 1;
      RunShortens(ws, inputs, cfg);
      UndisturbedKeepsAdmins(ws[..n + 1], inputs[..n], cfg);
      StepPublishesAdmin(ws[n], inputs[n], cfg);
      OneMoreRestart(ws, inputs);
    }
  }

  lemma NoRestarts(ws: seq<World>, inputs: seq<Input>, cfg: Config)
    requires IsRun(ws, inputs, cfg) && inputs == []
    ensures RestartsLeaveAdmins(ws, inputs)
  {
  }

  lemma OneMoreRestart(ws: seq<World>, inputs: seq<Input>)
    requires |ws| == |inputs| + 1 && inputs != [] && RestartsLeaveAdmins(ws[..|inputs|], inputs[..|inputs| - 1])
    requires var n := |inputs| - 1; inputs[n].Restart? ==> LeavesAdmin(ws[n], inputs[n].claims)
    ensures RestartsLeaveAdmins(ws, inputs)
  {
    hide LeavesAdmin;
    var n := |inputs| - 1;
    forall k | 0 <= k < |inputs| && inputs[k].Restart? ensures LeavesAdmin(ws[k], inputs[k].claims) {
      if k < n { assert inputs[..n][k] == inputs[k] && ws[..n + 1][k] == ws[k]; }
    }
  }

  lemma StepPublishesAdmin(w: World, i: Input, cfg: Config)
    requires Sound(w) && HasPublishedAdmin(w) && MayStep(w, i, cfg) && (i.Elsewhere? ==> i.pub == w.pub)
    ensures Sound(Step(w, i, cfg)) && HasPublishedAdmin(Step(w, i, cfg))
    ensures i.Restart? ==> LeavesAdmin(w, i.claims)
  {
    hide Handle, Rebuild, IsRestart, Startup.ClaimedAdmins, Inv;
    assert i.Restart? ==> LeavesAdmin(w, i.claims) by {
      var k :| k in w.pub.admins.value;
      if i.Restart? { assert k in Listed(w.pub.admins) + Startup.ClaimedAdmins(i.claims); }
    }
    StepKeepsSound(w, i, cfg);
    if i.Signed? { SignedPublishesAdmin(w, i.e, i.now, cfg); }
  }

  // ----- Why 9006 is different -------------------------------------------------------

  lemma {:induction false} AssigningMeans(m: Members, tags: seq<Tag>, k: PublicKey)
    requires AllParse(tags) && k in m
    ensures AssignRoles(m, tags).Keys == m.Keys
    ensures var names := ParsedMembers(tags);
      AssignRoles(m, tags)[k] == if Names(names, k) then LastRoles(names, k) else m[k]
  {
    AssigningKeepsKeys(m, tags);
    if tags != [] {
      AllParseSnoc(tags);
      AssigningMeans(m, tags[..|tags| - 1], k);
      AssigningKeepsKeys(m, tags[..|tags| - 1]);
      NamesSnoc(ParsedMembers(tags), k);
    }
  }

  /** Once the 9006 is carried out, the admins are those of before and the claimed. */
  predicate KeepsAdmins(g: GroupState, e: Event, claimed: set<PublicKey>) {
    var names := ParsedMembers(TagsOf(e.tags, P));
    && (forall k :: k in g.members && Names(names, k) ==>
          (Admin in LastRoles(names, k) <==> g.IsAdmin(k) || k in claimed))
    && (forall k :: k in claimed ==> g.IsAdmin(k) || (k in g.members && Names(names, k)))
  }

  lemma AssigningKeepsAdminsIff(g: GroupState, e: Event, claimed: set<PublicKey>)
    requires AllParse(TagsOf(e.tags, P))
    ensures AdminsOf(AssignRoles(g.members, TagsOf(e.tags, P))) == AdminsOf(g.members) + claimed <==>
      KeepsAdmins(g, e, claimed)
  {
    hide ParsedMembers, Names, LastRoles, TagsOf, AllParse, AssignRoles;
    var tags := TagsOf(e.tags, P);
    var names := ParsedMembers(tags);
    var after := AdminsOf(AssignRoles(g.members, tags));
    AssigningKeepsKeys(g.members, tags);
    forall k | k in g.members
      ensures k in after <==> (if Names(names, k) then Admin in LastRoles(names, k) else g.IsAdmin(k))
    {
      AssigningMeans(g.members, tags, k);
    }
    assert forall k :: k in after ==> k in g.members;
    if KeepsAdmins(g, e, claimed) {
      assert forall k :: k in after <==> k in AdminsOf(g.members) + claimed;
    } else if k :| k in g.members && Names(names, k) && !(Admin in LastRoles(names, k) <==> g.IsAdmin(k) || k in claimed) {
      assert k in AdminsOf(g.members) + claimed <==> k !in after;
    } else {
      var k :| k in claimed && !g.IsAdmin(k) && !(k in g.members && Names(names, k));
      assert k in AdminsOf(g.members) + claimed && k !in after;
    }
  }

  /** A 9006 prints the member list but no admin list, so a restart after it brings
      the right admins back exactly when it turned the admins of before into just
      those and the claimed; without claims, when it changed nobody's standing. */
  lemma RestartAfterSetRoles(w: World, e: Event, now: U64, us: seq<UnsignedEvent>, claims: set<UnsignedEvent>,
                             order: seq<Event>, cfg: Config)
    requires InSync(w, cfg) && e.kind == SET_ROLES_9006 && Handle(w.g, e, now, cfg).result.Accepted?
    requires us != [] && IsRestart(Step(w, Signed(e, now), cfg), us, claims, order, cfg)
    ensures var after := Step(w, Signed(e, now), cfg);
      var g := Rebuild(us, order, w.g.scope, cfg);
      && g.members.Keys == after.g.members.Keys + Startup.ClaimedKeys(claims)
      && (AdminsOf(g.members) == AdminsOf(after.g.members) <==> KeepsAdmins(w.g, e, Startup.ClaimedAdmins(claims)))
  {
    hide *;
    SetRolesStep(w, e, now, cfg);
    RestartReads(Step(w, Signed(e, now), cfg), us, claims, order, cfg);
    AssigningKeepsAdminsIff(w.g, e, Startup.ClaimedAdmins(claims));
    AdminsAreMembers(w.g.members);
  }

  lemma SetRolesStep(w: World, e: Event, now: U64, cfg: Config)
    requires InSync(w, cfg) && e.kind == SET_ROLES_9006 && Handle(w.g, e, now, cfg).result.Accepted?
    ensures var after := Step(w, Signed(e, now), cfg);
      && AllParse(TagsOf(e.tags, P)) && after.g.scope == w.g.scope
      && after.g.members == AssignRoles(w.g.members, TagsOf(e.tags, P)) && after.g.members.Keys == w.g.members.Keys
      && Listed(after.pub.keys) == w.g.members.Keys && Listed(after.pub.admins) == AdminsOf(w.g.members)
  {
    hide PublishAll, StoreAll, CheckRoles, AssignRoles, AdminsOf;
    var tags := TagsOf(e.tags, P);
    assert Handle(w.g, e, now, cfg) == SetRoles(w.g, e, cfg);
    OtherRecords(w.g, e, cfg, w.pub, w.hist);
    ChecksPassIff(AdminsOf(w.g.members), tags);
    AssigningKeepsKeys(w.g.members, tags);
  }

  lemma AdminsAreMembers(m: Members)
    ensures AdminsOf(m) <= m.Keys
  {
  }

  // ----- Why claims must be looked at ------------------------------------------------

  /** The 39001 somebody signs about itself. */
  predicate ClaimsAdmin(e: Event, name: string) {
    && e.kind == ADMINS_39001
    && e.tags == [Tag(H, [name]), Tag(D, [name]), Tag(P, [e.pubkey, "admin"])]
  }

  lemma TagUnfolds(t: Tag, rest: seq<Tag>, kind: TagKind)
    ensures FindContent([t] + rest, kind) == if t.kind == kind then t.Content() else FindContent(rest, kind)
    ensures TagsOf([t] + rest, kind) == (if t.kind == kind then [t] else []) + TagsOf(rest, kind)
    ensures FirstGroupTag([t] + rest) == if t.kind in {H, D} then t.Content() else FirstGroupTag(rest)
    ensures HasTag([t] + rest, t.kind)
  {
    var tags := [t] + rest;
    assert tags[0] == t && tags[1..] == rest;
  }

  lemma ClaimTags(h: Tag, d: Tag, p: Tag)
    requires h.kind == H && d.kind == D && p.kind == P
    ensures var tags := [h, d, p];
      HasTag(tags, H) && FindContent(tags, D) == d.Content() && FirstGroupTag(tags) == h.Content() && TagsOf(tags, P) == [p]
  {
    hide FindContent, FirstGroupTag, HasTag;
    assert [h, d, p] == [h] + [d, p] && [d, p] == [d] + [p] && [p] == [p] + [];
    TagUnfolds(h, [d, p], D);
    TagUnfolds(h, [d, p], P);
    TagUnfolds(d, [p], D);
    TagUnfolds(d, [p], P);
    TagUnfolds(p, [], P);
  }

  lemma ParsedOne(p: Tag, n: Named)
    requires ParseMember(p) == Some(n)
    ensures n in ParsedMembers([p])
  {
    hide ParseMember;
    assert [p][..0] == [];
    assert ParsedMembers([p]) == [n];
  }

  lemma ParsedAdmin(k: PublicKey)
    ensures ParseMember(Tag(P, [k, "admin"])) == Some(Named(k, RolesIn(["admin"])))
  {
    hide RolesIn;
    var t := Tag(P, [k, "admin"]);
    assert t.values[0] == k && t.values[1..] == ["admin"] && ParseKey(t.values[0]) == Some(k);
  }

  lemma ClaimMeans(e: Event, name: string)
    requires ClaimsAdmin(e, name)
    ensures IsAbout(e, name) && IsClaim(e, name)
    ensures Startup.Lists(Unsigned(e), e.pubkey) && Startup.Promotes(Unsigned(e), e.pubkey)
  {
    var p := Tag(P, [e.pubkey, "admin"]);
    hide HasTag, FindContent, FirstGroupTag, TagsOf, ParsedMembers, ParseMember, RolesIn;
    ClaimTags(Tag(H, [name]), Tag(D, [name]), p);
    AdminRole();
    ParsedAdmin(e.pubkey);
    ParsedOne(p, Named(e.pubkey, RolesIn(["admin"])));
  }

  lemma AdminIsPlain()
    ensures Trim("admin") == "admin" && Lower("admin") == "admin"
  {
    hide *;
    AdminLetters("admin");
    TrimSolid("admin");
    LowerSolid("admin");
  }

  lemma AdminRole()
    ensures Admin in RolesIn(["admin"])
  {
    var s := ["admin"];
    AdminIsPlain();
    hide Trim, Lower;
    assert ParseRole(s[0]) == Admin;
  }

  /** The input that shows it: a member of a group without broadcast signs an admin
      list naming itself.  It is stored as content, the live admins stay the same, and
      any restart that reads it makes its sender admin. */
  lemma MemberPromotesItself(w: World, e: Event, now: U64, us: seq<UnsignedEvent>, claims: set<UnsignedEvent>,
                             order: seq<Event>, cfg: Config)
    requires InSync(w, cfg) && ClaimsAdmin(e, w.name)
    requires e.pubkey in w.g.members && !w.g.IsAdmin(e.pubkey) && !w.g.meta.fields.broadcast
    requires var after := Step(w, Signed(e, now), cfg);
      us != [] && Unsigned(e) in claims && IsRestart(after, us, claims, order, cfg)
    ensures var after := Step(w, Signed(e, now), cfg);
      && MayStep(w, Signed(e, now), cfg) && e in after.hist && after.g == w.g
      && !after.g.IsAdmin(e.pubkey) && Rebuild(us, order, w.g.scope, cfg).IsAdmin(e.pubkey)
  {
    hide *;
    ClaimMeans(e, w.name);
    ClaimIsStored(w, e, now, cfg);
    var after := Step(w, Signed(e, now), cfg);
    RestartReads(after, us, claims, order, cfg);
    Startup.ClaimsMean(claims, e.pubkey);
    AdminsMean(Rebuild(us, order, w.g.scope, cfg), e.pubkey);
    MayStepSigned(w, e, now, cfg);
  }

  lemma AdminsMean(g: GroupState, k: PublicKey)
    ensures g.IsAdmin(k) <==> k in AdminsOf(g.members)
  {
  }

  lemma MayStepSigned(w: World, e: Event, now: U64, cfg: Config)
    ensures MayStep(w, Signed(e, now), cfg) <==> IsAbout(e, w.name)
  {
    hide IsAbout;
  }

  lemma ClaimIsStored(w: World, e: Event, now: U64, cfg: Config)
    requires ClaimsAdmin(e, w.name) && e.pubkey in w.g.members && !w.g.IsAdmin(e.pubkey) && !w.g.meta.fields.broadcast
    ensures var after := Step(w, Signed(e, now), cfg); after.g == w.g && e in after.hist && after.name == w.name
  {
    hide PublishAll, StoreAll;
    assert Handle(w.g, e, now, cfg) == Outcome(w.g, Accepted([SaveSigned(e, w.g.scope)]));
    var save := SaveSigned(e, w.g.scope);
    Unfold(w.pub, w.hist, save, save, save, save);
  }
}
