/** What an accepted event does to the group, read off its tags, and what it has the relay
    store and sign. */
module Effects {
  import opened Nostr
  import opened Text
  import opened GroupModel
  import opened GroupLaws
  import opened Wording
  import opened Acceptance
  import opened Edits
  import opened Printing
  import opened World
  import Authority
  import Metadata
  import WorldLaws

  // ----- 9000, 9001, 9006 -----------------------------------------------------------------

  /** The roles somebody has after the tags: those of the last tag about it, or as before. */
  ghost predicate RolesFollow(m: Members, x: Members, tags: seq<Tag>, k: PublicKey)
    requires k in x
  {
    && (forall i: nat :: IsLastMention(tags, i, k) ==> IsRolesOf(x[k], tags[i]))
    && (!IsMentioned(tags, k) ==> k in m && x[k] == m[k])
  }

  /** An admin is who is last given a role that reads "admin". */
  lemma RolesFollowAdmin(m: Members, x: Members, tags: seq<Tag>, k: PublicKey, i: nat)
    requires k in x && RolesFollow(m, x, tags, k) && IsLastMention(tags, i, k)
    ensures Admin in x[k] <==> exists j :: 1 <= j < |tags[i].values| && Reads(tags[i].values[j], "admin")
  {
    hide Reads;
    assert Admin in x[k] <==> Gives(tags[i], Admin);
    if Gives(tags[i], Admin) {
      var j :| 1 <= j < |tags[i].values| && IsRole(tags[i].values[j], Admin);
      assert Reads(tags[i].values[j], "admin");
    }
    if j :| 1 <= j < |tags[i].values| && Reads(tags[i].values[j], "admin") { assert IsRole(tags[i].values[j], Admin); }
  }

  lemma FollowsNamed(m: Members, x: Members, tags: seq<Tag>, k: PublicKey)
    requires k in x && (GroupLaws.Names(NamedOf(tags), k) || k in m)
    requires x[k] == if GroupLaws.Names(NamedOf(tags), k) then LastRoles(NamedOf(tags), k) else m[k]
    ensures RolesFollow(m, x, tags, k)
  {
    hide NamedOf, LastRoles, GroupLaws.Names, IsRolesOf, IsMentioned, IsLastMention;
    NamedMean(tags, k);
  }

  /** After an accepted 9000 exactly the old and the named keys are members, each named one
      with the roles of the last tag about it, and no named key is waiting any more. */
  lemma PutMeans(g: GroupState, e: Event, now: U64, cfg: Config, k: PublicKey)
    requires Inv(g) && e.kind == ADD_USER_9000 && Handle(g, e, now, cfg).result.Accepted?
    ensures var x := Handle(g, e, now, cfg).g;
      && x == g.(members := x.members, joinRequests := x.joinRequests)
      && (k in x.members <==> k in g.members || IsMentioned(e.tags, k))
      && (k in x.members ==> RolesFollow(g.members, x.members, e.tags, k))
      && (k in x.joinRequests <==> k in g.joinRequests && !IsMentioned(e.tags, k))
  {
    hide ParsedMembers, TagsOf, AddNamed, AdminsOf, LastRoles, GroupLaws.Names, RolesFollow, IsMentioned, KeysOf;
    var x := Handle(g, e, now, cfg).g;
    var names := NamedOf(e.tags);
    AddingMeans(g.members, names, k);
    KeysAreNames(names, k);
    NamedMean(e.tags, k);
    if k in x.members { FollowsNamed(g.members, x.members, e.tags, k); }
  }

  /** After an accepted 9006 the members are the same, each named one with the roles of the
      last tag about it. */
  lemma RolesMean(g: GroupState, e: Event, now: U64, cfg: Config, k: PublicKey)
    requires Inv(g) && e.kind == SET_ROLES_9006 && Handle(g, e, now, cfg).result.Accepted?
    ensures var x := Handle(g, e, now, cfg).g;
      && x == g.(members := x.members) && x.members.Keys == g.members.Keys
      && (k in x.members ==> RolesFollow(g.members, x.members, e.tags, k))
  {
    hide ParsedMembers, TagsOf, AssignRoles, CheckRoles, AdminsOf, LastRoles, GroupLaws.Names, RolesFollow, AllParse,
         AllWellFormed, SparesSoleAdmin;
    var x := Handle(g, e, now, cfg).g;
    AssigningKeepsKeys(g.members, TagsOf(e.tags, P));
    ChecksIff(g.members, e.tags);
    AllParseIff(e.tags);
    if k in g.members {
      AssignedIs(g.members, e.tags, k);
      FollowsNamed(g.members, x.members, e.tags, k);
    }
  }

  /** After an accepted 9001 exactly the named keys are gone. */
  lemma RemovalMeans(g: GroupState, e: Event, now: U64, cfg: Config, k: PublicKey)
    requires Inv(g) && e.kind == REMOVE_USER_9001 && Handle(g, e, now, cfg).result.Accepted?
    ensures var x := Handle(g, e, now, cfg).g;
      && x == g.(members := x.members)
      && (k in x.members <==> k in g.members && !IsMentioned(e.tags, k))
      && (k in x.members ==> x.members[k] == g.members[k])
  {
    hide TagsOf, AllParse, TaggedKeys, RemoveUser, IsMentioned, Inv;
    assert Handle(g, e, now, cfg) == RemoveUser(g, e, cfg);
    RemovalByEditor(g, e, cfg);
    RemoveAcceptedIff(g, e, cfg);
    TaggedAreMentioned(e.tags, k);
  }

  lemma RemovalByEditor(g: GroupState, e: Event, cfg: Config)
    requires RemoveUser(g, e, cfg).result.Accepted?
    ensures CanEdit(g, e.pubkey, cfg.relay)
  {
    hide RemoveNamed, TagsOf, AdminsOf;
  }

  // ----- 9002 and 9005 -----------------------------------------------------------------------

  /** After an accepted 9002 every field of the metadata is what the tags say. */
  lemma EditMeans(g: GroupState, e: Event, now: U64, cfg: Config)
    requires e.kind == EDIT_METADATA_9002 && Handle(g, e, now, cfg).result.Accepted?
    ensures var o := Handle(g, e, now, cfg);
      && o.g == g.(meta := o.g.meta) && MetaFollows(g.meta, o.g.meta, e.tags, cfg.forcePublic)
      && Generate(MetadataEvent(g.id, o.g.meta, cfg.relayUrl), g.scope) in o.result.cmds
  {
    hide Metadata.ApplyTags, ForcePublic, MetaFollows;
    ApplyFollows(g.meta, e.tags, cfg.forcePublic);
    assert Handle(g, e, now, cfg) == EditMetadata(g, e, cfg);
    assert EditMetadata(g, e, cfg).result.cmds[1] ==
      Generate(MetadataEvent(g.id, EditMetadata(g, e, cfg).g.meta, cfg.relayUrl), g.scope);
  }

  /** After an accepted 9005 the invites made by the named events are gone, and so are those
      of the stored events named that carry the group's `h`. */
  lemma DeletionMeans(g: GroupState, e: Event, now: U64, cfg: Config)
    requires e.kind == DELETE_EVENT_9005 && Handle(g, e, now, cfg).result.Accepted?
    ensures var o := Handle(g, e, now, cfg);
      && o.g == g.(invites := o.g.invites)
      && (forall c :: c in o.g.invites <==> c in g.invites && !NamesId(e.tags, g.invites[c].eventId))
      && (forall c :: c in o.g.invites ==> o.g.invites[c] == g.invites[c])
      && exists ids :: (forall id :: id in ids <==> NamesId(e.tags, id)) &&
           o.result.cmds == [Delete(Filter(Some(ids), Some(g.id), None), g.scope), SaveSigned(e, g.scope)]
  {
    hide EventIds, NamesId;
    forall id ensures id in EventIds(e.tags) <==> NamesId(e.tags, id) { EventIdsAre(e.tags, id); }
  }

  // ----- 9009 -----------------------------------------------------------------------------------

  /** Until when an invite works: what the first `expiration` tag says if that is a number
      of 64 bits, or else thirty days from its making. */
  ghost predicate StatesExpiry(e: Event, n: U64) {
    exists v :: Says(e.tags, Expiration, v) && IsNumeral(v, n)
  }

  ghost predicate IsExpiry(e: Event, n: U64) {
    || StatesExpiry(e, n)
    || (n == (e.createdAt + 2_592_000) % U64_SIZE && forall m: U64 :: !StatesExpiry(e, m))
  }

  /** How often a reusable one works: what the first `max_uses` tag says if that is a
      positive number of 32 bits, or else a hundred times. */
  ghost predicate StatesCeiling(e: Event, n: U32) {
    n > 0 && exists v :: Says(e.tags, MaxUses, v) && IsNumeral(v, n)
  }

  ghost predicate IsCeiling(e: Event, n: U32) {
    StatesCeiling(e, n) || (n == 100 && forall m: U32 :: !StatesCeiling(e, m))
  }

  lemma ExpiryIs(e: Event)
    ensures forall n: U64 :: StatesExpiry(e, n) <==> ExpiryOf(e, false) == Some(n)
    ensures ExpiryOf(e, true).Some? && IsExpiry(e, ExpiryOf(e, true).value)
  {
    hide ParseUnsigned, IsNumeral, Says, FindContent;
    SaysIff(e.tags, Expiration);
    forall n: U64 ensures StatesExpiry(e, n) <==> ExpiryOf(e, false) == Some(n) {
      if FindContent(e.tags, Expiration).Some? {
        var v := FindContent(e.tags, Expiration).value;
        ParsedIff(v, U64_SIZE - 1, n);
        assert Says(e.tags, Expiration, v);
      }
    }
  }

  lemma ExpiryIff(e: Event, n: U64)
    ensures IsExpiry(e, n) <==> ExpiryOf(e, true) == Some(n)
  {
    hide ParseUnsigned, FindContent, StatesExpiry;
    ExpiryIs(e);
    assert ExpiryOf(e, true) == if ExpiryOf(e, false).Some? then ExpiryOf(e, false)
      else Some((e.createdAt + 2_592_000) % U64_SIZE);
  }

  lemma CeilingIs(e: Event)
    ensures forall n: U32 :: StatesCeiling(e, n) <==> MaxUsesOf(e, false) == Some(n)
    ensures MaxUsesOf(e, true).Some? && IsCeiling(e, MaxUsesOf(e, true).value)
  {
    hide ParseUnsigned, IsNumeral, Says, FindContent;
    SaysIff(e.tags, MaxUses);
    forall n: U32 ensures StatesCeiling(e, n) <==> MaxUsesOf(e, false) == Some(n) {
      if FindContent(e.tags, MaxUses).Some? {
        var v := FindContent(e.tags, MaxUses).value;
        ParsedIff(v, U32_MAX, n);
        assert Says(e.tags, MaxUses, v);
      }
    }
  }

  /** The unused invite for plain members that a 9009 describes. */
  ghost predicate IsInviteFor(v: Invite, e: Event) {
    && v.eventId == e.id && v.roles == {Member} && v.uses == 0 && v.redeemedBy == None
    && (v.reusable <==> exists t :: t in e.tags && t.kind == Reusable)
    && v.expiresAt.Some? && IsExpiry(e, v.expiresAt.value)
    && (if v.reusable then v.maxUses.Some? && IsCeiling(e, v.maxUses.value) else v.maxUses == None)
  }

  /** After an accepted 9009 there is one invite more, under the code of the first `code`
      tag, with the limits its tags state. */
  lemma InviteMeans(g: GroupState, e: Event, now: U64, cfg: Config)
    requires e.kind == CREATE_INVITE_9009 && Handle(g, e, now, cfg).result.Accepted?
    ensures var x := Handle(g, e, now, cfg).g;
      exists code :: Says(e.tags, Code, code) && code !in g.invites && code in x.invites &&
        x == g.(invites := g.invites[code := x.invites[code]]) && IsInviteFor(x.invites[code], e)
  {
    hide InviteOf, Says, IsInviteFor;
    SaysIff(e.tags, Code);
    InviteIs(e);
    assert Says(e.tags, Code, CodeOf(e).value);
  }

  lemma InviteIs(e: Event)
    ensures IsInviteFor(InviteOf(e, {Member}, true), e)
  {
    hide ExpiryOf, MaxUsesOf, IsExpiry, IsCeiling, HasTag;
    ExpiryIs(e);
    CeilingIs(e);
    ReusableIs(e.tags);
  }

  lemma ReusableIs(tags: seq<Tag>)
    ensures HasTag(tags, Reusable) <==> exists t :: t in tags && t.kind == Reusable
  {
    if HasTag(tags, Reusable) {
      var i :| 0 <= i < |tags| && tags[i].kind == Reusable;
      assert tags[i] in tags;
    }
  }

  /** The roles an invite gets by replay: what the first strings of its `role` tags say. */
  predicate NamesRole(tags: seq<Tag>, r: Role) {
    exists t :: t in tags && t.kind == RoleName && t.values != [] && IsRole(t.values[0], r)
  }

  lemma RolesNamedAre(tags: seq<Tag>, r: Role)
    ensures r in RolesNamed(tags) <==> NamesRole(tags, r)
  {
    hide ParseRole, IsRole, TagsOf;
    forall t ensures t in TagsOf(tags, RoleName) <==> t in tags && t.kind == RoleName { TagsOfHas(tags, RoleName, t); }
    forall s: string ensures ParseRole(s) == r <==> IsRole(s, r) { RoleIs(s, r); }
    if r in RolesNamed(tags) {
      var t :| t in TagsOf(tags, RoleName) && t.values != [] && r == ParseRole(t.values[0]);
      assert IsRole(t.values[0], r);
    }
  }

  /** The unused invite that replay makes of a stored 9009: limits of its own it always has,
      the usual ones only since 1789776000. */
  ghost predicate IsReplayedFor(v: Invite, e: Event) {
    && v.eventId == e.id && v.uses == 0 && v.redeemedBy == None && (forall r :: r in v.roles <==> NamesRole(e.tags, r))
    && (v.reusable <==> exists t :: t in e.tags && t.kind == Reusable)
    && (match v.expiresAt
        case Some(n) => StatesExpiry(e, n) || (e.createdAt >= 1_789_776_000 && IsExpiry(e, n))
        case None => e.createdAt < 1_789_776_000 && forall n: U64 :: !StatesExpiry(e, n))
    && (match v.maxUses
        case Some(n) => v.reusable && (StatesCeiling(e, n) || (e.createdAt >= 1_789_776_000 && IsCeiling(e, n)))
        case None => v.reusable ==> e.createdAt < 1_789_776_000 && forall n: U32 :: !StatesCeiling(e, n))
  }

  /** Replaying a 9009 puts its invite under the code of its first `code` tag, whatever was
      there; without such a code nothing happens. */
  lemma ReplayedInviteMeans(g: GroupState, e: Event)
    ensures (forall code :: !Says(e.tags, Code, code)) ==> LoadInvite(g, e) == g
    ensures forall code :: Says(e.tags, Code, code) ==>
      var x := LoadInvite(g, e);
      code in x.invites && x == g.(invites := g.invites[code := x.invites[code]]) && IsReplayedFor(x.invites[code], e)
  {
    hide InviteOf, Says, IsReplayedFor, RolesNamed;
    SaysIff(e.tags, Code);
    if CodeOf(e).Some? {
      assert Says(e.tags, Code, CodeOf(e).value);
      ReplayedIs(e);
    }
  }

  lemma ReplayedIs(e: Event)
    ensures IsReplayedFor(InviteOf(e, RolesNamed(e.tags), e.createdAt >= INVITE_LIMITS_SINCE), e)
  {
    hide ExpiryOf, MaxUsesOf, IsExpiry, IsCeiling, HasTag, StatesExpiry, StatesCeiling, RolesNamed, NamesRole;
    ExpiryIs(e);
    CeilingIs(e);
    ReusableIs(e.tags);
    forall r ensures r in RolesNamed(e.tags) <==> NamesRole(e.tags, r) { RolesNamedAre(e.tags, r); }
  }

  // ----- 9021, 9022 and content ------------------------------------------------------------------

  /** Neither late nor used up. */
  predicate IsUsable(v: Invite, now: U64) {
    && (v.expiresAt.Some? ==> now <= v.expiresAt.value) && (v.maxUses.Some? ==> v.uses < v.maxUses.value)
    && (v.reusable || v.redeemedBy == None)
  }

  /** The request names, in its first `code` tag, an invite that can be used. */
  predicate Redeems(g: GroupState, e: Event, now: U64, code: string) {
    Says(e.tags, Code, code) && code in g.invites && IsUsable(g.invites[code], now)
  }

  /** An accepted 9021 lets its sender in as a plain member if the group is open, on the
      terms of the invite if it redeems one, and otherwise makes it wait. */
  lemma JoinMeans(g: GroupState, e: Event, now: U64, cfg: Config)
    requires Inv(g) && e.kind == JOIN_9021 && e.pubkey !in g.members
    ensures var x, k := Handle(g, e, now, cfg).g, e.pubkey;
      && (!g.meta.fields.closed ==>
            x == g.(members := g.members[k := {Member}], joinRequests := g.joinRequests - {k}))
      && (forall code :: g.meta.fields.closed && Redeems(g, e, now, code) ==>
            var v := g.invites[code];
            x == g.(members := g.members[k := v.roles], joinRequests := g.joinRequests - {k},
                    invites := g.invites[code := Used(v, k, e.createdAt)]))
      && (g.meta.fields.closed && (forall code :: !Redeems(g, e, now, code)) ==>
            x == g.(joinRequests := g.joinRequests + {k}))
  {
    hide JoinRequest, Inv, IsUsable, CodeOf, Redeems;
    assert Handle(g, e, now, cfg).g == JoinRequest(g, e, now).g;
    JoinCases(g, e, now);
    forall code ensures Redeems(g, e, now, code) <==>
      CodeOf(e) == Some(code) && code in g.invites && IsUsable(g.invites[code], now)
    {
      RedeemsIff(g, e, now, code);
    }
  }

  lemma RedeemsIff(g: GroupState, e: Event, now: U64, code: string)
    ensures Redeems(g, e, now, code) <==>
      CodeOf(e) == Some(code) && code in g.invites && IsUsable(g.invites[code], now)
  {
    hide Says, IsUsable;
    SaysIff(e.tags, Code);
  }

  lemma JoinCases(g: GroupState, e: Event, now: U64)
    requires e.pubkey !in g.members
    ensures var x, k := JoinRequest(g, e, now).g, e.pubkey;
      x == if !g.meta.fields.closed then g.(members := g.members[k := {Member}], joinRequests := g.joinRequests - {k})
        else if CodeOf(e).Some? && CodeOf(e).value in g.invites && IsUsable(g.invites[CodeOf(e).value], now) then
          var v := g.invites[CodeOf(e).value];
          g.(members := g.members[k := v.roles], joinRequests := g.joinRequests - {k},
             invites := g.invites[CodeOf(e).value := Used(v, k, e.createdAt)])
        else g.(joinRequests := g.joinRequests + {k})
  {
    hide CodeOf, AdminsOf;
  }

  /** One use more, up to the largest number of 32 bits; a single-use one is spent on who
      used it. */
  function Used(v: Invite, k: PublicKey, at: U64): Invite {
    Invite(v.eventId, v.roles, v.reusable, if v.reusable then v.redeemedBy else Some((k, at)), v.expiresAt,
           if v.uses == 0xFFFF_FFFF then v.uses else v.uses + 1, v.maxUses)
  }

  /** An accepted 9022 takes its sender out, of the members and of those who wait. */
  lemma LeaveMeans(g: GroupState, e: Event, now: U64, cfg: Config)
    requires Inv(g) && e.kind == LEAVE_9022 && Handle(g, e, now, cfg).result.Accepted?
    ensures Handle(g, e, now, cfg).g ==
      g.(members := g.members - {e.pubkey}, joinRequests := g.joinRequests - {e.pubkey})
  {
    hide AdminsOf;
    if e.pubkey !in g.members { assert g.members - {e.pubkey} == g.members; }
  }

  /** Accepted content makes its sender a member of an open group and changes nothing else. */
  lemma ContentMeans(g: GroupState, e: Event, now: U64, cfg: Config)
    requires Inv(g) && Authority.IsContent(e.kind) && Handle(g, e, now, cfg).result.Accepted?
    ensures Handle(g, e, now, cfg).g ==
      if !g.meta.fields.closed && e.pubkey !in g.members then
        g.(members := g.members[e.pubkey := {Member}], joinRequests := g.joinRequests - {e.pubkey})
      else g
  {
    hide AdminsOf;
    if e.pubkey !in g.members { AddOne(g.members, Named(e.pubkey, {Member})); }
  }

  // ----- After the time of an invite ---------------------------------------------------------------

  /** A run of signed events over one live group. */
  predicate IsGroupRun(gs: seq<GroupState>, es: seq<Event>, times: seq<U64>, cfg: Config) {
    && |gs| == |es| + 1 && |times| == |es|
    && forall n :: 0 <= n < |es| ==> gs[n + 1] == Handle(gs[n], es[n], times[n], cfg).g
  }

  predicate WorksUntil(g: GroupState, code: string, id: EventId, n: U64) {
    code in g.invites && g.invites[code].eventId == id ==> g.invites[code].expiresAt == Some(n)
  }

  lemma StepKeepsExpiry(g: GroupState, f: Event, now: U64, cfg: Config, e: Event, code: string, n: U64)
    requires Inv(g) && WorksUntil(g, code, e.id, n) && (f.id == e.id ==> f == e) && IsExpiry(e, n)
    ensures Inv(Handle(g, f, now, cfg).g) && WorksUntil(Handle(g, f, now, cfg).g, code, e.id, n)
  {
    hide Handle, Inv, Says, IsExpiry, NamesId, IsUsable, Redeems, IsInviteFor;
    var o := Handle(g, f, now, cfg);
    HandleLaws(g, f, now, cfg);
    WorldLaws.HandleTouches(g, f, now, cfg);
    if o.result.Accepted? && f.kind == CREATE_INVITE_9009 {
      InviteMeans(g, f, now, cfg);
      var c :| Says(f.tags, Code, c) && c !in g.invites && c in o.g.invites &&
        o.g == g.(invites := g.invites[c := o.g.invites[c]]) && IsInviteFor(o.g.invites[c], f);
      EntryExpires(o.g.invites[c], f, e, n);
    } else if o.result.Accepted? && f.kind == DELETE_EVENT_9005 {
      DeletionMeans(g, f, now, cfg);
    } else if o.result.Accepted? && f.kind == JOIN_9021 {
      JoinAcceptedIff(g, f, now, cfg);
      JoinMeans(g, f, now, cfg);
      if c :| Redeems(g, f, now, c) { assert Says(f.tags, Code, c) && c in g.invites by { RedeemsNames(g, f, now, c); } }
    }
  }

  lemma RedeemsNames(g: GroupState, f: Event, now: U64, c: string)
    requires Redeems(g, f, now, c)
    ensures Says(f.tags, Code, c) && c in g.invites
  {
  }

  lemma EntryExpires(v: Invite, f: Event, e: Event, n: U64)
    requires IsInviteFor(v, f) && (f.id == e.id ==> f == e) && IsExpiry(e, n)
    ensures v.eventId == e.id ==> v.expiresAt == Some(n)
  {
    hide IsExpiry, IsCeiling;
    if v.eventId == e.id {
      ExpiryIff(e, n);
      ExpiryIff(e, v.expiresAt.value);
    }
  }

  lemma {:induction false} ExpiryStays(gs: seq<GroupState>, es: seq<Event>, times: seq<U64>, cfg: Config,
                                       e: Event, code: string, n: U64)
    requires IsGroupRun(gs, es, times, cfg) && Inv(gs[0]) && WorksUntil(gs[0], code, e.id, n) && IsExpiry(e, n)
    requires forall i :: 0 <= i < |es| && es[i].id == e.id ==> es[i] == e
    ensures Inv(gs[|es|]) && WorksUntil(gs[|es|], code, e.id, n)
  {
    if es != [] {
      hide Inv, Handle, IsExpiry, WorksUntil;
      var m := |es| - 1;
      assert IsGroupRun(gs[..m + 1], es[..m], times[..m], cfg);
      ExpiryStays(gs[..m + 1], es[..m], times[..m], cfg, e, code, n);
      StepKeepsExpiry(gs[m], es[m], times[m], cfg, e, code, n);
    }
  }

  /** However the group has lived since an accepted 9009: as long as its invite is there, no
      9021 later than its tags say lets anybody into the closed group by that code. */
  lemma NobodyJoinsLate(before: GroupState, e: Event, made: U64, gs: seq<GroupState>, es: seq<Event>, times: seq<U64>,
                        cfg: Config, code: string, n: U64, r: Event, now: U64)
    requires Inv(before) && e.kind == CREATE_INVITE_9009 && Handle(before, e, made, cfg).result.Accepted?
    requires Says(e.tags, Code, code) && IsExpiry(e, n)
    requires IsGroupRun(gs, es, times, cfg) && gs[0] == Handle(before, e, made, cfg).g
    requires forall i :: 0 <= i < |es| && es[i].id == e.id ==> es[i] == e
    requires var g := gs[|es|];
      g.meta.fields.closed && code in g.invites && g.invites[code].eventId == e.id && r.pubkey !in g.members
    requires r.kind == JOIN_9021 && Says(r.tags, Code, code) && now > n
    ensures var g := gs[|es|]; Handle(g, r, now, cfg).g == g.(joinRequests := g.joinRequests + {r.pubkey})
  {
    hide Inv, Handle, IsExpiry, Says, IsInviteFor;
    var g := gs[|es|];
    HandleLaws(before, e, made, cfg);
    InviteMeans(before, e, made, cfg);
    var c :| Says(e.tags, Code, c) && c !in before.invites && c in gs[0].invites &&
      gs[0] == before.(invites := before.invites[c := gs[0].invites[c]]) && IsInviteFor(gs[0].invites[c], e);
    SaysOne(e.tags, Code, c, code);
    EntryExpires(gs[0].invites[c], e, e, n);
    ExpiryStays(gs, es, times, cfg, e, code, n);
    forall c ensures !Redeems(g, r, now, c) {
      if Redeems(g, r, now, c) { SaysOne(r.tags, Code, c, code); }
    }
    JoinMeans(g, r, now, cfg);
  }

  lemma SaysOne(tags: seq<Tag>, kind: TagKind, v: string, w: string)
    requires Says(tags, kind, v) && Says(tags, kind, w)
    ensures v == w
  {
    hide Says;
    SaysIff(tags, kind);
  }

  // ----- What is stored and signed -------------------------------------------------------------------

  /** Whose own event lets it in. */
  predicate LetsSenderIn(g: GroupState, x: GroupState, e: Event) {
    (e.kind == JOIN_9021 || Authority.IsContent(e.kind)) && e.pubkey !in g.members && e.pubkey in x.members
  }

  predicate Deletes(cmds: seq<Command>) {
    exists c :: c in cmds && c.Delete?
  }

  predicate SignsMetadata(cmds: seq<Command>) {
    exists c :: c in cmds && c.Generate? && c.emission.MetadataEvent?
  }

  predicate SignsRoles(cmds: seq<Command>) {
    exists c :: c in cmds && c.Generate? && c.emission.RoleList?
  }

  predicate SignsPuts(cmds: seq<Command>) {
    exists c :: c in cmds && c.Generate? && c.emission.PutUsers?
  }

  predicate StoresOnly(cmds: seq<Command>, e: Event, scope: Scope) {
    forall c :: c in cmds && c.SaveSigned? ==> c == SaveSigned(e, scope)
  }

  /** Every accepted event is stored, but for a 9022 of somebody who was not in; only a
      9005 has anything deleted, and the relay signs the metadata of a 9002, the roles of
      a 9002 or 9006 and, when somebody lets itself in, the 9000s. */
  lemma AcceptedIsStored(g: GroupState, e: Event, now: U64, cfg: Config)
    requires Inv(g) && Handle(g, e, now, cfg).result.Accepted?
    ensures var o := Handle(g, e, now, cfg);
      && (SaveSigned(e, g.scope) in o.result.cmds <==> e.kind == LEAVE_9022 ==> e.pubkey in g.members)
      && StoresOnly(o.result.cmds, e, g.scope)
      && (Deletes(o.result.cmds) <==> e.kind == DELETE_EVENT_9005)
      && (SignsMetadata(o.result.cmds) <==> e.kind == EDIT_METADATA_9002)
      && (SignsRoles(o.result.cmds) <==> e.kind in {EDIT_METADATA_9002, SET_ROLES_9006})
      && (SignsPuts(o.result.cmds) <==> LetsSenderIn(g, o.g, e))
  {
    hide PutUser, RemoveUser, EditMetadata, DeleteEvent, SetRoles, CreateInvite, JoinRequest, LeaveRequest, Content, Inv,
         HasAccess, StoresOnly, Deletes, SignsMetadata, SignsRoles, SignsPuts;
    PutAnswer(g, e, cfg);
    RemovalAnswer(g, e, cfg);
    EditAnswers(g, e, cfg);
    RolesAnswer(g, e, cfg);
    JoinAnswer(g, e, now);
    LeaveAnswer(g, e);
    ContentAnswer(g, e);
  }

  /** The commands of an answer, by what kinds of them there are. */
  predicate IsAnswer(o: Outcome, e: Event, scope: Scope, saves: bool, deletes: bool, metadata: bool, roles: bool, puts: bool) {
    o.result.Accepted? ==>
      && (SaveSigned(e, scope) in o.result.cmds <==> saves) && StoresOnly(o.result.cmds, e, scope)
      && (Deletes(o.result.cmds) <==> deletes) && (SignsMetadata(o.result.cmds) <==> metadata)
      && (SignsRoles(o.result.cmds) <==> roles) && (SignsPuts(o.result.cmds) <==> puts)
  }

  lemma ListsOnly(e: Event, scope: Scope, a: Command, b: Command, o: Outcome)
    requires a.Generate? && a.emission.AdminList? && b.Generate? && b.emission.MemberList?
    ensures o.result.Accepted? && o.result.cmds == [SaveSigned(e, scope), a, b] ==>
      IsAnswer(o, e, scope, true, false, false, false, false)
    ensures o.result.Accepted? && o.result.cmds == [SaveSigned(e, scope), b] ==>
      IsAnswer(o, e, scope, true, false, false, false, false)
  {
  }

  lemma PutAnswer(g: GroupState, e: Event, cfg: Config)
    requires Inv(g)
    ensures IsAnswer(PutUser(g, e, cfg), e, g.scope, true, false, false, false, false)
  {
    hide AdminsOf, ParsedMembers, TagsOf, AddMembers, IsAnswer;
    var o := PutUser(g, e, cfg);
    if o.result.Accepted? { assert o.result.cmds == [SaveSigned(e, g.scope), AdminListOf(o.g), MemberListOf(o.g)]; }
    if o.result.Refused? { RefusedAnswer(o, e, g.scope, true, false); }
    ListsOnly(e, g.scope, AdminListOf(o.g), MemberListOf(o.g), o);
  }

  lemma RemovalAnswer(g: GroupState, e: Event, cfg: Config)
    requires Inv(g)
    ensures IsAnswer(RemoveUser(g, e, cfg), e, g.scope, true, false, false, false, false)
  {
    hide AdminsOf, TagsOf, RemoveNamed, IsAnswer;
    var o := RemoveUser(g, e, cfg);
    if o.result.Accepted? && |o.result.cmds| != 2 {
      assert o.result.cmds == [SaveSigned(e, g.scope), AdminListOf(o.g), MemberListOf(o.g)];
    }
    if o.result.Refused? { RefusedAnswer(o, e, g.scope, true, false); }
    ListsOnly(e, g.scope, AdminListOf(o.g), MemberListOf(o.g), o);
  }

  lemma EditAnswers(g: GroupState, e: Event, cfg: Config)
    ensures IsAnswer(EditMetadata(g, e, cfg), e, g.scope, true, false, true, true, false)
    ensures IsAnswer(DeleteEvent(g, e, cfg), e, g.scope, true, true, false, false, false)
    ensures IsAnswer(CreateInvite(g, e, cfg), e, g.scope, true, false, false, false, false)
  {
    hide Metadata.ApplyTags, ForcePublic, EventIds, WithoutInvites, CodeOf, InviteOf;
    var meta, deletion := EditMetadata(g, e, cfg).result, DeleteEvent(g, e, cfg).result;
    if meta.Accepted? { assert meta.cmds[1].emission.MetadataEvent? && meta.cmds[2].emission.RoleList?; }
    if deletion.Accepted? { assert deletion.cmds[0].Delete?; }
  }

  lemma RolesAnswer(g: GroupState, e: Event, cfg: Config)
    ensures IsAnswer(SetRoles(g, e, cfg), e, g.scope, true, false, false, true, false)
  {
    hide AdminsOf, TagsOf, CheckRoles, AssignRoles;
    var o := SetRoles(g, e, cfg).result;
    if o.Accepted? { assert o.cmds[1].emission.RoleList?; }
  }

  lemma MembershipAnswer(g: GroupState, e: Event)
    ensures IsAnswer(WithMembership(g, e), e, g.scope, true, false, false, false, true)
  {
    hide AdminsOf;
    var o := WithMembership(g, e).result;
    if o.Accepted? {
      assert o.cmds == [SaveSigned(e, g.scope), Generate(PutUsers(g.id, g.members), g.scope), AdminListOf(g), MemberListOf(g)];
      assert o.cmds[1].emission.PutUsers?;
    }
  }

  lemma SaveAnswer(o: Outcome, e: Event, scope: Scope)
    requires o.result == Accepted([SaveSigned(e, scope)])
    ensures IsAnswer(o, e, scope, true, false, false, false, false)
  {
  }

  lemma JoinAnswer(g: GroupState, e: Event, now: U64)
    requires Inv(g)
    ensures var o := JoinRequest(g, e, now);
      IsAnswer(o, e, g.scope, true, false, false, false, e.pubkey !in g.members && e.pubkey in o.g.members)
  {
    hide AdminsOf, CodeOf, IsAnswer, WithMembership, Inv;
    var o := JoinRequest(g, e, now);
    JoinByMembership(g, e, now);
    if e.pubkey in g.members {
      RefusedAnswer(o, e, g.scope, true, false);
    } else if e.pubkey !in o.g.members {
      SaveAnswer(o, e, g.scope);
    } else {
      MembershipAnswer(o.g, e);
    }
  }

  lemma RefusedAnswer(o: Outcome, e: Event, scope: Scope, saves: bool, puts: bool)
    requires o.result.Refused?
    ensures IsAnswer(o, e, scope, saves, false, false, false, puts)
  {
  }

  lemma MembershipIs(g: GroupState, e: Event)
    ensures WithMembership(g, e).g == g
  {
    hide AdminsOf;
  }

  /** Who gets in by its own 9021 is answered with the membership. */
  lemma JoinByMembership(g: GroupState, e: Event, now: U64)
    ensures var o := JoinRequest(g, e, now);
      && o.g.scope == g.scope
      && (e.pubkey in g.members ==> o.result.Refused?)
      && (e.pubkey !in g.members && e.pubkey !in o.g.members ==> o.result == Accepted([SaveSigned(e, g.scope)]))
      && (e.pubkey !in g.members && e.pubkey in o.g.members ==> o == WithMembership(o.g, e))
  {
    hide AdminsOf, CodeOf, WithMembership;
    MembershipIs(Admit(g, e.pubkey, {Member}), e);
    var code := CodeOf(e);
    if code.Some? && code.value in g.invites {
      var v := g.invites[code.value];
      MembershipIs(Admit(g.(invites := g.invites[code.value := v.MarkUsed(e.pubkey, e.createdAt)]), e.pubkey, v.roles), e);
    }
  }

  lemma LeaveAnswer(g: GroupState, e: Event)
    ensures var o := LeaveRequest(g, e);
      IsAnswer(o, e, g.scope, e.pubkey in g.members, false, false, false, false)
  {
    hide AdminsOf, IsAnswer;
    var o := LeaveRequest(g, e);
    ListsOnly(e, g.scope, AdminListOf(o.g), MemberListOf(o.g), o);
    if e.pubkey !in g.members { NothingAnswered(o, e, g.scope); }
    if o.result.Refused? { RefusedAnswer(o, e, g.scope, e.pubkey in g.members, false); }
  }

  lemma NothingAnswered(o: Outcome, e: Event, scope: Scope)
    requires o.result == Accepted([])
    ensures IsAnswer(o, e, scope, false, false, false, false, false)
  {
  }

  /** Who gets in by its own content is answered with the membership. */
  lemma ContentByMembership(g: GroupState, e: Event)
    ensures var o := Content(g, e);
      && o.g.scope == g.scope
      && (o.result.Accepted? && (e.pubkey in g.members || e.pubkey !in o.g.members) ==>
            o.result == Accepted([SaveSigned(e, g.scope)]))
      && (o.result.Accepted? && e.pubkey !in g.members && e.pubkey in o.g.members ==> o == WithMembership(o.g, e))
  {
    hide AdminsOf, WithMembership;
    if e.pubkey !in g.members {
      AddOne(g.members, Named(e.pubkey, {Member}));
      match AddMembers(g.members, g.joinRequests, [Named(e.pubkey, {Member})])
      case NotAdded(_) =>
      case Added(m, j) => MembershipIs(g.(members := m, joinRequests := j), e);
    }
  }

  lemma ContentAnswer(g: GroupState, e: Event)
    requires Inv(g)
    ensures var o := Content(g, e);
      IsAnswer(o, e, g.scope, true, false, false, false, e.pubkey !in g.members && e.pubkey in o.g.members)
  {
    hide AdminsOf, IsAnswer, WithMembership, AddMembers, Inv;
    var o := Content(g, e);
    ContentByMembership(g, e);
    if o.result.Refused? {
      RefusedAnswer(o, e, g.scope, true, e.pubkey !in g.members && e.pubkey in o.g.members);
    } else if e.pubkey in g.members || e.pubkey !in o.g.members {
      SaveAnswer(o, e, g.scope);
    } else {
      MembershipAnswer(o.g, e);
    }
  }

  /** A 9000 the relay signs about a member reads back as one that makes it a plain member,
      or an admin if it is one, of the group it is about. */
  lemma PutEventMeans(id: string, k: PublicKey, roles: set<Role>)
    ensures var u := PutUserEvent(id, k, roles);
      && u.kind == 9000 && Says(u.tags, H, id) && IsLastMention(u.tags, 0, k)
      && (forall x :: IsMentioned(u.tags, x) ==> x == k)
      && forall r :: Gives(u.tags[0], r) <==> r == if Admin in roles then Admin else Member
  {
    var u := PutUserEvent(id, k, roles);
    var word := if Admin in roles then "admin" else "member";
    hide IsRole;
    assert u.tags[0].values == [k, word] && IsFirst(u.tags, 1, H) && u.tags[1].values == [id];
    forall r ensures Gives(u.tags[0], r) <==> IsRole(word, r) {
      if IsRole(word, r) { assert u.tags[0].values[1] == word; }
    }
    PlainWords(word);
  }

  predicate OffersRole(tags: seq<Tag>, w: string) {
    exists t :: t in tags && t.kind == RoleName && t.values != [] && t.values[0] == w
  }

  /** The 39003 is about its group and offers the roles an admin may give. */
  lemma RoleListMeans(id: string)
    ensures var u := RoleListEvent(id);
      && u.kind == 39003 && Says(u.tags, D, id)
      && forall w :: OffersRole(u.tags, w) <==> w in {"admin", "member", ""}
  {
    var u := RoleListEvent(id);
    assert IsFirst(u.tags, 0, D) && u.tags[0].values == [id];
    assert u.tags == [u.tags[0], ROLE_TAGS[0], ROLE_TAGS[1], ROLE_TAGS[2]];
    assert ROLE_TAGS[0] in u.tags && ROLE_TAGS[1] in u.tags && ROLE_TAGS[2] in u.tags;
  }

  lemma PlainWords(word: string)
    requires word == "admin" || word == "member"
    ensures forall r :: IsRole(word, r) <==> r == if word == "admin" then Admin else Member
  {
    hide Trim, Lower, IsRole;
    assert word[0] in {'a', 'm'} && word[|word| - 1] in {'n', 'r'};
    TrimSolid(word);
    LowerSolid(word);
    forall r ensures IsRole(word, r) <==> ParseRole(word) == r { RoleIs(word, r); }
  }
}
