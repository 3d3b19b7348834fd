/** Which events a group accepts: for every kind the exact condition, on the group's flags
    and members and on the tags of the event. */
module Acceptance {
  import opened Nostr
  import opened GroupModel
  import opened GroupLaws
  import opened Wording
  import Authority
  import Metadata
  import WorldLaws

  /** Somebody is admin, and nobody else. */
  ghost predicate IsSoleAdmin(m: Members, k: PublicKey) {
    IsAdminIn(m, k) && forall x :: IsAdminIn(m, x) ==> x == k
  }

  predicate IsAdminIn(m: Members, k: PublicKey) {
    k in m && Admin in m[k]
  }

  /** The relay, or an admin of the group. */
  predicate IsEditor(g: GroupState, k: PublicKey, relay: PublicKey) {
    k == relay || (k in g.members && Admin in g.members[k])
  }

  lemma SoleAdminIff(m: Members, k: PublicKey)
    ensures AdminsOf(m) == {k} <==> IsSoleAdmin(m, k)
    ensures |AdminsOf(m)| == 1 && k in AdminsOf(m) <==> IsSoleAdmin(m, k)
  {
    assert forall x :: x in AdminsOf(m) <==> IsAdminIn(m, x);
    if |AdminsOf(m)| == 1 && k in AdminsOf(m) { OnlyElement(AdminsOf(m), k); }
  }

  // ----- Content -------------------------------------------------------------------------

  /** Who may post: anybody in a group that is neither closed, nor restricted, nor a
      broadcast; members of a closed or restricted one, and the relay in a closed one;
      only admins in a broadcast. */
  lemma ContentAcceptedIff(g: GroupState, e: Event, now: U64, cfg: Config)
    requires Inv(g) && Authority.IsContent(e.kind)
    ensures Handle(g, e, now, cfg).result.Accepted? <==>
      && (e.pubkey == cfg.relay || !g.meta.fields.closed || e.pubkey in g.members)
      && (g.meta.fields.broadcast ==> e.pubkey in g.members && Admin in g.members[e.pubkey])
      && (g.meta.fields.restricted ==> e.pubkey in g.members)
  {
    ContentLaws(g, e);
    hide AdminsOf;
    if e.pubkey !in g.members {
      AddOne(g.members, Named(e.pubkey, {Member}));
      PlainMemberKeepsAdmins(g.members, e.pubkey);
    }
  }

  lemma PlainMemberKeepsAdmins(m: Members, k: PublicKey)
    requires AdminsOf(m) != {} && k !in m
    ensures AdminsOf(m[k := {Member}]) != {}
  {
    var a :| a in AdminsOf(m);
    assert a in AdminsOf(m[k := {Member}]);
  }

  // ----- Requests of editors --------------------------------------------------------------

  lemma EditAcceptedIff(g: GroupState, e: Event, now: U64, cfg: Config)
    requires e.kind == EDIT_METADATA_9002
    ensures Handle(g, e, now, cfg).result.Accepted? <==> IsEditor(g, e.pubkey, cfg.relay)
  {
    hide Metadata.ApplyTags, ForcePublic;
  }

  /** An invite needs a code of sixteen characters at least that no invite has yet. */
  lemma InviteAcceptedIff(g: GroupState, e: Event, now: U64, cfg: Config)
    requires e.kind == CREATE_INVITE_9009
    ensures Handle(g, e, now, cfg).result.Accepted? <==>
      && IsEditor(g, e.pubkey, cfg.relay)
      && exists code :: Says(e.tags, Code, code) && |code| >= 16 && code !in g.invites
  {
    hide InviteOf, Says;
    SaysIff(e.tags, Code);
    if CodeOf(e).Some? { assert Says(e.tags, Code, CodeOf(e).value); }
  }

  /** A stored event may be deleted by naming it. */
  predicate NamesId(tags: seq<Tag>, id: EventId) {
    IsHex64(id) && exists t :: t in tags && t.kind == E && t.values != [] && t.values[0] == id
  }

  lemma EventIdsAre(tags: seq<Tag>, id: EventId)
    ensures id in EventIds(tags) <==> NamesId(tags, id)
  {
    hide IsHex64;
  }

  lemma DeletionAcceptedIff(g: GroupState, e: Event, now: U64, cfg: Config)
    requires e.kind == DELETE_EVENT_9005
    ensures Handle(g, e, now, cfg).result.Accepted? <==>
      IsEditor(g, e.pubkey, cfg.relay) && exists id :: NamesId(e.tags, id)
  {
    hide EventIds, NamesId, WithoutInvites;
    forall id ensures id in EventIds(e.tags) <==> NamesId(e.tags, id) { EventIdsAre(e.tags, id); }
    if EventIds(e.tags) != {} {
      var id :| id in EventIds(e.tags);
      assert NamesId(e.tags, id);
    }
  }

  // ----- 9000 ---------------------------------------------------------------------------------

  /** Who is admin once the first `i` tags have been walked: by the last word on them, and
      without one as before. */
  predicate IsAdminAfter(m: Members, tags: seq<Tag>, i: nat, k: PublicKey)
    requires i <= |tags|
  {
    if IsMentioned(tags[..i], k) then exists j :: 0 <= j < i && IsLastMention(tags[..i], j, k) && Gives(tags[j], Admin)
    else IsAdminIn(m, k)
  }

  /** The tag takes the role from the only admin of that moment. */
  ghost predicate Demotes(m: Members, tags: seq<Tag>, i: nat)
    requires i < |tags|
  {
    && tags[i].kind == P && IsWellFormed(tags[i]) && !Gives(tags[i], Admin)
    && forall k :: IsAdminAfter(m, tags, i, k) <==> k == tags[i].values[0]
  }

  lemma PutAcceptedIff(g: GroupState, e: Event, now: U64, cfg: Config)
    requires Inv(g) && e.kind == ADD_USER_9000
    ensures Handle(g, e, now, cfg).result.Accepted? <==>
      IsEditor(g, e.pubkey, cfg.relay) && forall i :: 0 <= i < |e.tags| ==> !Demotes(g.members, e.tags, i)
  {
    hide ParsedMembers, TagsOf, AddNamed, AdminsOf, Demotes, KeysOf;
    AddedIff(g.members, e.tags);
    AddingKeepsAnAdmin(g.members, NamedOf(e.tags));
  }

  lemma {:induction false} LastMention(tags: seq<Tag>, k: PublicKey) returns (i: nat)
    requires IsMentioned(tags, k)
    ensures IsLastMention(tags, i, k)
  {
    hide Mentions;
    var n := |tags| - 1;
    if Mentions(tags[n], k) {
      i := n;
    } else {
      MentionedSnoc(tags, k);
      i := LastMention(tags[..n], k);
    }
  }

  lemma AdminAfterIs(m: Members, tags: seq<Tag>, k: PublicKey)
    requires AddNamed(m, NamedOf(tags)).Some?
    ensures k in AdminsOf(AddNamed(m, NamedOf(tags)).value) <==> IsAdminAfter(m, tags, |tags|, k)
  {
    hide NamedOf, Gives, Mentions, LastRoles, GroupLaws.Names;
    assert tags[..|tags|] == tags;
    AddingMeans(m, NamedOf(tags), k);
    NamedMean(tags, k);
    if IsMentioned(tags, k) {
      var i := LastMention(tags, k);
      assert forall j: nat :: IsLastMention(tags, j, k) ==> j == i;
    }
  }

  lemma PrefixDemotes(m: Members, tags: seq<Tag>, i: nat)
    requires i < |tags| - 1
    ensures Demotes(m, tags, i) <==> Demotes(m, tags[..|tags| - 1], i)
  {
    hide Gives, IsLastMention, IsMentioned;
    var n := |tags| - 1;
    assert tags[..n][..i] == tags[..i] && tags[..n][i] == tags[i];
    assert forall j :: 0 <= j < i ==> tags[..n][j] == tags[j];
    forall k ensures IsAdminAfter(m, tags, i, k) <==> IsAdminAfter(m, tags[..n], i, k) {}
  }

  lemma {:induction false} AddedIff(m: Members, tags: seq<Tag>)
    ensures AddNamed(m, NamedOf(tags)).Some? <==> forall i :: 0 <= i < |tags| ==> !Demotes(m, tags, i)
  {
    hide *;
    if tags == [] {
      NothingAdded(m);
    } else {
      var n := |tags| - 1;
      AddedIff(m, tags[..n]);
      forall i | 0 <= i < n ensures Demotes(m, tags, i) <==> Demotes(m, tags[..n], i) { PrefixDemotes(m, tags, i); }
      if AddNamed(m, NamedOf(tags[..n])).Some? { AddsOneMore(m, tags); } else { StaysRefused(m, tags); }
    }
  }

  lemma NothingAdded(m: Members)
    ensures AddNamed(m, NamedOf([])) == Some(m)
  {
  }

  lemma StaysRefused(m: Members, tags: seq<Tag>)
    requires tags != [] && AddNamed(m, NamedOf(tags[..|tags| - 1])).None?
    ensures AddNamed(m, NamedOf(tags)).None?
  {
    hide NamedOf, ParseMember;
    NamedSnoc(tags);
    var more := NamedOf(tags);
    var before := NamedOf(tags[..|tags| - 1]);
    if more != before { assert more[..|more| - 1] == before; }
  }

  lemma AddsOneMore(m: Members, tags: seq<Tag>)
    requires tags != [] && AddNamed(m, NamedOf(tags[..|tags| - 1])).Some?
    ensures AddNamed(m, NamedOf(tags)).Some? <==> !Demotes(m, tags, |tags| - 1)
  {
    hide *;
    var n := |tags| - 1;
    var before := NamedOf(tags[..n]);
    NamedSnoc(tags);
    MemberIs(tags[n]);
    forall k ensures k in AdminsOf(AddNamed(m, before).value) <==> IsAdminAfter(m, tags, n, k) {
      AdminAfterIs(m, tags[..n], k);
      PrefixAdmin(m, tags, k);
    }
    DemotesIs(m, tags, n);
    if tags[n].kind == P && ParseMember(tags[n]).Some? {
      LastOneAdded(m, before, ParseMember(tags[n]).value);
    } else {
      assert before + [] == before;
    }
  }

  lemma DemotesIs(m: Members, tags: seq<Tag>, i: nat)
    requires i < |tags|
    ensures Demotes(m, tags, i) <==>
      && tags[i].kind == P && IsWellFormed(tags[i]) && !Gives(tags[i], Admin)
      && forall k :: IsAdminAfter(m, tags, i, k) <==> k == tags[i].values[0]
  {
    hide Gives, IsAdminAfter;
  }

  lemma LastOneAdded(m: Members, before: seq<Named>, n: Named)
    requires AddNamed(m, before).Some?
    ensures AddNamed(m, before + [n]).Some? <==>
      Admin in n.roles || !forall a :: a in AdminsOf(AddNamed(m, before).value) <==> a == n.key
  {
    assert (before + [n])[..|before|] == before;
    LastDemotes(AddNamed(m, before).value, n.key);
  }

  lemma LastDemotes(x: Members, k: PublicKey)
    ensures k in x && |AdminsOf(x)| == 1 && Admin in x[k] <==> forall a :: a in AdminsOf(x) <==> a == k
  {
    if k in x && |AdminsOf(x)| == 1 && Admin in x[k] { OnlyElement(AdminsOf(x), k); }
    if forall a :: a in AdminsOf(x) <==> a == k { assert AdminsOf(x) == {k}; }
  }

  lemma PrefixAdmin(m: Members, tags: seq<Tag>, k: PublicKey)
    requires tags != []
    ensures IsAdminAfter(m, tags[..|tags| - 1], |tags| - 1, k) <==> IsAdminAfter(m, tags, |tags| - 1, k)
  {
    hide Gives, IsLastMention, IsMentioned;
    var n := |tags| - 1;
    assert tags[..n][..n] == tags[..n];
  }

  // ----- 9001 and 9006 -------------------------------------------------------------------------

  lemma RemovalAcceptedIff(g: GroupState, e: Event, now: U64, cfg: Config)
    requires Inv(g) && e.kind == REMOVE_USER_9001
    ensures Handle(g, e, now, cfg).result.Accepted? <==>
      && IsEditor(g, e.pubkey, cfg.relay) && AllWellFormed(e.tags)
      && exists k :: IsAdminIn(g.members, k) && !IsMentioned(e.tags, k)
  {
    hide ParseMember, TagsOf, AllParse, TaggedKeys, RemoveNamed, IsMentioned, AllWellFormed;
    var tags := TagsOf(e.tags, P);
    AllParseIff(e.tags);
    forall k ensures k in TaggedKeys(tags) <==> IsMentioned(e.tags, k) { TaggedAreMentioned(e.tags, k); }
    if CanEdit(g, e.pubkey, cfg.relay) {
      RemoveAcceptedIff(g, e, cfg);
      if AdminsOf(g.members) - TaggedKeys(tags) != {} {
        var k :| k in AdminsOf(g.members) - TaggedKeys(tags);
        assert IsAdminIn(g.members, k) && !IsMentioned(e.tags, k);
      }
      if k :| IsAdminIn(g.members, k) && !IsMentioned(e.tags, k) { assert k in AdminsOf(g.members) - TaggedKeys(tags); }
    }
  }

  /** A 9006 may not take the role from the only admin, not even to give it to another. */
  ghost predicate SparesSoleAdmin(m: Members, tags: seq<Tag>) {
    forall t :: t in tags && t.kind == P ==> Spares(m, t)
  }

  ghost predicate Spares(m: Members, t: Tag) {
    IsWellFormed(t) && IsSoleAdmin(m, t.values[0]) ==> Gives(t, Admin)
  }

  lemma RolesAcceptedIff(g: GroupState, e: Event, now: U64, cfg: Config)
    requires Inv(g) && e.kind == SET_ROLES_9006
    ensures Handle(g, e, now, cfg).result.Accepted? <==>
      && IsEditor(g, e.pubkey, cfg.relay) && AllWellFormed(e.tags) && SparesSoleAdmin(g.members, e.tags)
      && exists k :: k in g.members && IsAdminAfter(g.members, e.tags, |e.tags|, k)
  {
    hide ParseMember, TagsOf, CheckRoles, AssignRoles, IsAdminAfter, AllWellFormed, SparesSoleAdmin, AdminsOf;
    ChecksIff(g.members, e.tags);
    if AllWellFormed(e.tags) { AssignedAdmins(g.members, e.tags); }
  }

  lemma MayAssignIff(m: Members, t: Tag)
    ensures MayAssign(AdminsOf(m), t) <==> IsWellFormed(t) && Spares(m, t)
  {
    hide ParseMember, AdminsOf, Gives, IsHex64, IsSoleAdmin;
    MemberIs(t);
    if IsWellFormed(t) { SoleAdminIff(m, ParseMember(t).value.key); }
  }

  lemma ChecksIff(m: Members, tags: seq<Tag>)
    ensures CheckRoles(AdminsOf(m), TagsOf(tags, P)).None? <==> AllWellFormed(tags) && SparesSoleAdmin(m, tags)
  {
    hide ParseMember, TagsOf, CheckRoles, AdminsOf, IsWellFormed, Spares, MayAssign;
    var ps := TagsOf(tags, P);
    ChecksPassIff(AdminsOf(m), ps);
    forall t ensures MayAssign(AdminsOf(m), t) <==> IsWellFormed(t) && Spares(m, t) { MayAssignIff(m, t); }
    forall t ensures t in ps <==> t in tags && t.kind == P { TagsOfHas(tags, P, t); }
  }

  lemma AssignedAdmins(m: Members, tags: seq<Tag>)
    requires AllWellFormed(tags)
    ensures AdminsOf(AssignRoles(m, TagsOf(tags, P))) != {} <==> exists k :: k in m && IsAdminAfter(m, tags, |tags|, k)
  {
    hide AssignRoles, TagsOf, IsAdminAfter, AllWellFormed;
    var x := AssignRoles(m, TagsOf(tags, P));
    AssigningKeepsKeys(m, TagsOf(tags, P));
    forall k | k in m ensures k in AdminsOf(x) <==> IsAdminAfter(m, tags, |tags|, k) { AssignedAdmin(m, tags, k); }
    if AdminsOf(x) != {} {
      var k :| k in AdminsOf(x);
      assert k in m && IsAdminAfter(m, tags, |tags|, k);
    }
  }

  lemma AssignedIs(m: Members, tags: seq<Tag>, k: PublicKey)
    requires AllParse(TagsOf(tags, P)) && k in m
    ensures var x, names := AssignRoles(m, TagsOf(tags, P)), NamedOf(tags);
      k in x && x[k] == if GroupLaws.Names(names, k) then LastRoles(names, k) else m[k]
  {
    hide AssignRoles, AllParse, TagsOf, ParsedMembers, GroupLaws.Names;
    WorldLaws.AssigningMeans(m, TagsOf(tags, P), k);
  }

  lemma AssignedAdmin(m: Members, tags: seq<Tag>, k: PublicKey)
    requires AllWellFormed(tags) && k in m
    ensures var x := AssignRoles(m, TagsOf(tags, P)); k in x && (Admin in x[k] <==> IsAdminAfter(m, tags, |tags|, k))
  {
    hide AssignRoles, NamedOf, Gives, Mentions, LastRoles, GroupLaws.Names, AllWellFormed, AllParse;
    assert tags[..|tags|] == tags;
    AllParseIff(tags);
    AssignedIs(m, tags, k);
    NamedMean(tags, k);
    if IsMentioned(tags, k) {
      var i := LastMention(tags, k);
      assert forall j: nat :: IsLastMention(tags, j, k) ==> j == i;
    }
  }

  // ----- Joining and leaving -----------------------------------------------------------------------

  /** Anybody outside may ask to join, whatever comes of it. */
  lemma JoinAcceptedIff(g: GroupState, e: Event, now: U64, cfg: Config)
    requires Inv(g) && e.kind == JOIN_9021
    ensures Handle(g, e, now, cfg).result.Accepted? <==> e.pubkey !in g.members
  {
    JoinRequestLaws(g, e, now);
    hide CodeOf;
  }

  /** Anybody may leave but the only admin. */
  lemma LeaveAcceptedIff(g: GroupState, e: Event, now: U64, cfg: Config)
    requires Inv(g) && e.kind == LEAVE_9022
    ensures Handle(g, e, now, cfg).result.Accepted? <==> !IsSoleAdmin(g.members, e.pubkey)
  {
    LeaveRequestLaws(g, e);
    SoleAdminIff(g.members, e.pubkey);
  }
}
