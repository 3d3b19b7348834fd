/** What every event keeps, and what a refused event leaves alone. */
module GroupLaws {
  import opened Nostr
  import opened GroupModel
  import Metadata

  /** What holds of every managed group: somebody can administer it, nobody both
      is a member and asks to become one, and its metadata is well formed. */
  predicate Inv(g: GroupState) {
    AdminsOf(g.members) != {} && g.members.Keys !! g.joinRequests && Metadata.Valid(g.meta)
  }

  // ----- Admin sets ----------------------------------------------------------

  lemma AnotherElement<X>(s: set<X>, x: X)
    requires x in s && |s| != 1
    ensures s - {x} != {}
  {
    assert s == (s - {x}) + {x};
  }

  lemma OnlyElement<X>(s: set<X>, x: X)
    requires x in s && |s| == 1
    ensures s == {x}
  {
    assert s == (s - {x}) + {x};
    assert |s - {x}| == 0;
  }

  lemma AdminsAfterPut(m: Members, k: PublicKey, roles: set<Role>)
    ensures AdminsOf(m[k := roles]) == if Admin in roles then AdminsOf(m) + {k} else AdminsOf(m) - {k}
  {
  }

  lemma AdminsAfterRemove(m: Members, k: PublicKey)
    ensures AdminsOf(m - {k}) == AdminsOf(m) - {k}
  {
  }

  // ----- 9000 ----------------------------------------------------------------

  predicate Names(names: seq<Named>, k: PublicKey) {
    exists i :: 0 <= i < |names| && names[i].key == k
  }

  /** The roles the last entry about `k` gives it. */
  function LastRoles(names: seq<Named>, k: PublicKey): set<Role>
    requires Names(names, k)
  {
    var n := names[|names| - 1];
    if n.key == k then n.roles
    else
      assert Names(names[..|names| - 1], k) by {
        var i :| 0 <= i < |names| && names[i].key == k;
        assert names[..|names| - 1][i].key == k;
      }
      LastRoles(names[..|names| - 1], k)
  }

  lemma NamesSnoc(names: seq<Named>, k: PublicKey)
    requires names != []
    ensures Names(names, k) <==> Names(names[..|names| - 1], k) || names[|names| - 1].key == k
  {
    if Names(names, k) {
      var i :| 0 <= i < |names| && names[i].key == k;
      if i < |names| - 1 { assert names[..|names| - 1][i].key == k; }
    }
    if Names(names[..|names| - 1], k) {
      var i :| 0 <= i < |names| - 1 && names[..|names| - 1][i].key == k;
      assert names[i].key == k;
    }
  }

  /** A 9000 never costs a group its last admin, in whatever order it names keys. */
  lemma {:induction false} AddingKeepsAnAdmin(m: Members, names: seq<Named>)
    requires AdminsOf(m) != {}
    ensures AddNamed(m, names).Some? ==> AdminsOf(AddNamed(m, names).value) != {}
  {
    if names != [] {
      var init := names[..|names| - 1];
      AddingKeepsAnAdmin(m, init);
      if AddNamed(m, names).Some? {
        var x := AddNamed(m, init).value;
        var n := names[|names| - 1];
        AdminsAfterPut(x, n.key, n.roles);
        if Admin !in n.roles && n.key in AdminsOf(x) { AnotherElement(AdminsOf(x), n.key); }
      }
    }
  }

  /** What an accepted 9000 does: the named keys become members with the roles
      last given to them, and everybody else keeps theirs. */
  lemma {:induction false} AddingMeans(m: Members, names: seq<Named>, k: PublicKey)
    requires AddNamed(m, names).Some?
    ensures var x := AddNamed(m, names).value;
      && (k in x <==> k in m || Names(names, k))
      && (k in x ==> x[k] == if Names(names, k) then LastRoles(names, k) else m[k])
  {
    if names != [] {
      AddingMeans(m, names[..|names| - 1], k);
      NamesSnoc(names, k);
    }
  }

  lemma KeysAreNames(names: seq<Named>, k: PublicKey)
    ensures k in KeysOf(names) <==> Names(names, k)
  {
  }

  /** With an admin to begin with, a 9000 is refused exactly when some prefix of
      it would take the role away from the only admin of that moment. */
  predicate DemotesSoleAdmin(m: Members, names: seq<Named>, i: nat)
    requires i < |names|
  {
    match AddNamed(m, names[..i])
    case None => false
    case Some(x) => AdminsOf(x) == {names[i].key} && Admin !in names[i].roles
  }

  lemma {:induction false} AddRefusedIff(m: Members, names: seq<Named>)
    ensures AddNamed(m, names).None? <==> exists i :: 0 <= i < |names| && DemotesSoleAdmin(m, names, i)
  {
    if names != [] {
      var n := |names| - 1;
      var init := names[..n];
      AddRefusedIff(m, init);
      forall i | 0 <= i < n ensures DemotesSoleAdmin(m, names, i) == DemotesSoleAdmin(m, init, i) {
        assert init[..i] == names[..i];
      }
      if AddNamed(m, init).Some? {
        var x := AddNamed(m, init).value;
        if names[n].key in AdminsOf(x) && |AdminsOf(x)| == 1 { OnlyElement(AdminsOf(x), names[n].key); }
        assert AddNamed(m, names).None? <==> DemotesSoleAdmin(m, names, n);
      }
    }
  }

  lemma PutUserLaws(g: GroupState, e: Event, cfg: Config)
    requires Inv(g)
    ensures var o := PutUser(g, e, cfg);
      && Inv(o.g) && o.g == g.(members := o.g.members, joinRequests := o.g.joinRequests)
      && o.g.joinRequests <= g.joinRequests
      && (o.result.Refused? ==> o.g == g)
  {
    var names := ParsedMembers(TagsOf(e.tags, P));
    AddingKeepsAnAdmin(g.members, names);
    if AddNamed(g.members, names).Some? {
      forall k ensures !(k in AddNamed(g.members, names).value && k in g.joinRequests - KeysOf(names)) {
        AddingMeans(g.members, names, k);
        KeysAreNames(names, k);
      }
    }
  }

  // ----- 9001 ----------------------------------------------------------------

  predicate AllParse(tags: seq<Tag>) {
    forall i :: 0 <= i < |tags| ==> ParseMember(tags[i]).Some?
  }

  /** The keys named by the well-formed tags. */
  function TaggedKeys(tags: seq<Tag>): set<PublicKey> {
    set i | 0 <= i < |tags| && ParseMember(tags[i]).Some? :: ParseMember(tags[i]).value.key
  }

  lemma TaggedKeysSnoc(tags: seq<Tag>)
    requires tags != []
    ensures var last := ParseMember(tags[|tags| - 1]);
      TaggedKeys(tags) == TaggedKeys(tags[..|tags| - 1]) + (if last.Some? then {last.value.key} else {})
  {
    var n := |tags| - 1;
    forall k | k in TaggedKeys(tags[..n]) ensures k in TaggedKeys(tags) {
      var i :| 0 <= i < n && ParseMember(tags[..n][i]).Some? && ParseMember(tags[..n][i]).value.key == k;
      assert tags[i] == tags[..n][i];
    }
    forall k | k in TaggedKeys(tags) && (ParseMember(tags[n]).Some? ==> k != ParseMember(tags[n]).value.key)
      ensures k in TaggedKeys(tags[..n])
    {
      var i :| 0 <= i < |tags| && ParseMember(tags[i]).Some? && ParseMember(tags[i]).value.key == k;
      assert tags[i] == tags[..n][i];
    }
  }

  lemma AllParseSnoc(tags: seq<Tag>)
    requires tags != []
    ensures AllParse(tags) <==> AllParse(tags[..|tags| - 1]) && ParseMember(tags[|tags| - 1]).Some?
  {
    hide ParseMember;
    assert forall i :: 0 <= i < |tags| - 1 ==> tags[..|tags| - 1][i] == tags[i];
  }

  lemma RemoveStep(m: Members, keys: set<PublicKey>, k: PublicKey)
    ensures k in m - keys ==> (m - keys) - {k} == m - (keys + {k})
    ensures k !in m - keys ==> m - keys == m - (keys + {k})
    ensures AdminsOf(m) * (keys + {k}) != {} <==>
      AdminsOf(m) * keys != {} || (k in m - keys && Admin in m[k])
  {
    assert AdminsOf(m) * (keys + {k}) == AdminsOf(m) * keys + AdminsOf(m) * {k};
    if k in m && Admin in m[k] { assert k in AdminsOf(m) * {k}; }
  }

  /** What a walk over these tags must have come to. */
  predicate IsRemoval(r: Removal, m: Members, j: set<PublicKey>, tags: seq<Tag>) {
    && (r.Removing? <==> AllParse(tags) && (|AdminsOf(m)| == 1 ==> AdminsOf(m) * TaggedKeys(tags) == {}))
    && (r.Removing? ==>
          && r.members == m - TaggedKeys(tags) && r.joinRequests == j
          && (r.removedAdmins <==> AdminsOf(m) * TaggedKeys(tags) != {}))
  }

  /** The walk over a 9001: it stops on a malformed tag or on the only admin, and
      otherwise takes exactly the named keys away. */
  lemma {:induction false} RemovingMeans(m: Members, j: set<PublicKey>, tags: seq<Tag>)
    requires m.Keys !! j
    ensures IsRemoval(RemoveNamed(AdminsOf(m), Removing(m, j, false), tags), m, j, tags)
  {
    if tags == [] {
      assert m - {} == m;
    } else {
      hide ParseMember, AllParse, TaggedKeys, AdminsOf, IsRemoval;
      RemovingMeans(m, j, tags[..|tags| - 1]);
      RemovesOneMore(m, j, tags);
    }
  }

  lemma RemovesOneMore(m: Members, j: set<PublicKey>, tags: seq<Tag>)
    requires m.Keys !! j && tags != []
    requires IsRemoval(RemoveNamed(AdminsOf(m), Removing(m, j, false), tags[..|tags| - 1]), m, j, tags[..|tags| - 1])
    ensures IsRemoval(RemoveNamed(AdminsOf(m), Removing(m, j, false), tags), m, j, tags)
  {
    hide ParseMember, AllParse, TaggedKeys, AdminsOf;
    var n := |tags| - 1;
    var admins, keys := AdminsOf(m), TaggedKeys(tags[..n]);
    TaggedKeysSnoc(tags);
    AllParseSnoc(tags);
    var r := RemoveNamed(admins, Removing(m, j, false), tags[..n]);
    if r.Removing? && ParseMember(tags[n]).Some? {
      var k := ParseMember(tags[n]).value.key;
      RemoveStep(m, keys, k);
      MeetsOneMore(admins, keys, k);
      if k in r.members { assert j - {k} == j; }
    }
  }

  lemma MeetsOneMore(admins: set<PublicKey>, keys: set<PublicKey>, k: PublicKey)
    ensures admins * (keys + {k}) == {} <==> admins * keys == {} && k !in admins
  {
    assert admins * (keys + {k}) == admins * keys + admins * {k};
    if k in admins { assert k in admins * {k}; }
  }

  /** A 9001 from somebody entitled to send it is accepted exactly when every
      `p` tag is well formed and some admin is not named. */
  lemma RemoveAcceptedIff(g: GroupState, e: Event, cfg: Config)
    requires Inv(g) && CanEdit(g, e.pubkey, cfg.relay)
    ensures var tags := TagsOf(e.tags, P);
      && (RemoveUser(g, e, cfg).result.Accepted? <==>
            AllParse(tags) && AdminsOf(g.members) - TaggedKeys(tags) != {})
      && (RemoveUser(g, e, cfg).result.Accepted? ==>
            RemoveUser(g, e, cfg).g == g.(members := g.members - TaggedKeys(tags)))
  {
    var tags := TagsOf(e.tags, P);
    var keys := TaggedKeys(tags);
    RemovingMeans(g.members, g.joinRequests, tags);
    var r := RemoveNamed(AdminsOf(g.members), Removing(g.members, g.joinRequests, false), tags);
    assert AdminsOf(g.members - keys) == AdminsOf(g.members) - keys;
    if |AdminsOf(g.members)| == 1 {
      var a :| a in AdminsOf(g.members);
      OnlyElement(AdminsOf(g.members), a);
    }
  }

  lemma RemoveUserLaws(g: GroupState, e: Event, cfg: Config)
    requires Inv(g)
    ensures var o := RemoveUser(g, e, cfg);
      && Inv(o.g) && o.g == g.(members := o.g.members) && (o.result.Refused? ==> o.g == g)
  {
    RemovingMeans(g.members, g.joinRequests, TagsOf(e.tags, P));
  }

  // ----- 9006 ----------------------------------------------------------------

  /** A `p` tag of a 9006 names a key, and does not demote the only admin. */
  predicate MayAssign(admins: set<PublicKey>, t: Tag) {
    && ParseMember(t).Some?
    && !(admins == {ParseMember(t).value.key} && Admin !in ParseMember(t).value.roles)
  }

  lemma ChecksOneMore(admins: set<PublicKey>, tags: seq<Tag>)
    requires tags != []
    ensures CheckRoles(admins, tags).None? <==>
      CheckRoles(admins, tags[..|tags| - 1]).None? && MayAssign(admins, tags[|tags| - 1])
  {
    hide ParseMember;
    var p := ParseMember(tags[|tags| - 1]);
    if p.Some? && |admins| == 1 && p.value.key in admins { OnlyElement(admins, p.value.key); }
  }

  lemma {:induction false} ChecksPassIff(admins: set<PublicKey>, tags: seq<Tag>)
    ensures CheckRoles(admins, tags).None? <==> forall i :: 0 <= i < |tags| ==> MayAssign(admins, tags[i])
  {
    hide MayAssign;
    if tags != [] {
      var n := |tags| - 1;
      hide CheckRoles;
      ChecksPassIff(admins, tags[..n]);
      ChecksOneMore(admins, tags);
      assert forall i :: 0 <= i < n ==> tags[..n][i] == tags[i];
    }
  }

  /** Changing roles neither adds nor removes members. */
  lemma {:induction false} AssigningKeepsKeys(m: Members, tags: seq<Tag>)
    ensures AssignRoles(m, tags).Keys == m.Keys
  {
    if tags != [] { AssigningKeepsKeys(m, tags[..|tags| - 1]); }
  }

  lemma SetRolesLaws(g: GroupState, e: Event, cfg: Config)
    requires Inv(g)
    ensures var o := SetRoles(g, e, cfg);
      && Inv(o.g) && o.g == g.(members := o.g.members) && o.g.members.Keys == g.members.Keys
      && (o.result.Refused? ==> o.g == g)
  {
    AssigningKeepsKeys(g.members, TagsOf(e.tags, P));
  }

  // ----- 9021, 9022, content -------------------------------------------------

  lemma JoinRequestLaws(g: GroupState, e: Event, now: U64)
    requires Inv(g)
    ensures var o := JoinRequest(g, e, now);
      && Inv(o.g) && o.g == g.(members := o.g.members, joinRequests := o.g.joinRequests, invites := o.g.invites)
      && (o.result.Refused? ==> o.g == g)
  {
    AdminsAfterPut(g.members, e.pubkey, {Member});
    if e.pubkey !in g.members {
      assert e.pubkey !in AdminsOf(g.members);
      var code := CodeOf(e);
      if code.Some? && code.value in g.invites {
        AdminsAfterPut(g.members, e.pubkey, g.invites[code.value].roles);
      }
    }
  }

  lemma LeaveRequestLaws(g: GroupState, e: Event)
    requires Inv(g)
    ensures var o := LeaveRequest(g, e);
      && Inv(o.g) && o.g == g.(members := o.g.members, joinRequests := o.g.joinRequests)
      && o.g.joinRequests <= g.joinRequests
      && (o.result.Refused? ==> o.g == g)
  {
    AdminsAfterRemove(g.members, e.pubkey);
    if g.IsAdmin(e.pubkey) {
      assert e.pubkey in AdminsOf(g.members);
      if |AdminsOf(g.members)| != 1 { AnotherElement(AdminsOf(g.members), e.pubkey); }
      assert g.joinRequests - {e.pubkey} == g.joinRequests;
    } else {
      assert e.pubkey !in AdminsOf(g.members);
    }
  }

  lemma AddOne(m: Members, n: Named)
    requires n.key !in m
    ensures AddNamed(m, [n]) == Some(m[n.key := n.roles])
    ensures KeysOf([n]) == {n.key}
  {
    assert [n][..0] == [];
    assert [n][0].key in KeysOf([n]);
  }

  lemma ContentLaws(g: GroupState, e: Event)
    requires Inv(g)
    ensures var o := Content(g, e);
      && Inv(o.g) && o.g == g.(members := o.g.members, joinRequests := o.g.joinRequests)
      && o.g.joinRequests <= g.joinRequests
      && (o.result.Refused? ==> o.g == g)
  {
    if e.pubkey !in g.members {
      AddOne(g.members, Named(e.pubkey, {Member}));
      AdminsAfterPut(g.members, e.pubkey, {Member});
      assert e.pubkey !in AdminsOf(g.members);
    }
  }

  // ----- Every event -----------------------------------------------------------

  /** Every event keeps the invariant and the group's identity, and one that is
      refused leaves the whole group as it was. */
  lemma HandleLaws(g: GroupState, e: Event, now: U64, cfg: Config)
    requires Inv(g)
    ensures var o := Handle(g, e, now, cfg);
      && Inv(o.g) && o.g.id == g.id && o.g.scope == g.scope
      && (o.result.Refused? ==> o.g == g)
  {
    hide PutUser, RemoveUser, SetRoles, JoinRequest, LeaveRequest, Content, EditMetadata, DeleteEvent, CreateInvite, Inv,
         HasAccess;
    PutUserLaws(g, e, cfg);
    RemoveUserLaws(g, e, cfg);
    SetRolesLaws(g, e, cfg);
    JoinRequestLaws(g, e, now);
    LeaveRequestLaws(g, e);
    ContentLaws(g, e);
    EditMetadataLaws(g, e, cfg);
    InvitesLaws(g, e, cfg);
  }

  lemma EditMetadataLaws(g: GroupState, e: Event, cfg: Config)
    requires Inv(g)
    ensures var o := EditMetadata(g, e, cfg);
      Inv(o.g) && o.g == g.(meta := o.g.meta) && (o.result.Refused? ==> o.g == g)
  {
    hide Metadata.ApplyTags, Metadata.Valid, AdminsOf, ForcePublic;
    Metadata.ApplyKeepsValid(g.meta, e.tags);
    ForcingKeepsValid(Metadata.ApplyTags(g.meta, e.tags), cfg.forcePublic);
  }

  lemma InvitesLaws(g: GroupState, e: Event, cfg: Config)
    requires Inv(g)
    ensures var o := CreateInvite(g, e, cfg);
      Inv(o.g) && o.g == g.(invites := o.g.invites) && (o.result.Refused? ==> o.g == g)
    ensures var o := DeleteEvent(g, e, cfg);
      Inv(o.g) && o.g == g.(invites := o.g.invites) && (o.result.Refused? ==> o.g == g)
  {
    hide AdminsOf, InviteOf, WithoutInvites, EventIds, CodeOf;
  }

  lemma ForcingKeepsValid(m: Metadata.Meta, force: bool)
    requires Metadata.Valid(m)
    ensures Metadata.Valid(ForcePublic(m, force))
  {
  }

  /** Without the invariant a refusal can leave a trace, in exactly two ways: the
      only admin asks to leave while it also has a join request pending, or
      somebody is let in by a 9021 into a group that has no admin. */
  predicate LeavesATrace(g: GroupState, e: Event, now: U64) {
    || (e.kind == LEAVE_9022 && AdminsOf(g.members) == {e.pubkey} && e.pubkey in g.joinRequests)
    || (e.kind == JOIN_9021 && AdminsOf(g.members) == {} && e.pubkey !in g.members &&
        (g.meta.fields.closed ==>
           && CodeOf(e).Some? && CodeOf(e).value in g.invites
           && g.invites[CodeOf(e).value].CanUseAt(now) && Admin !in g.invites[CodeOf(e).value].roles))
  }

  lemma WhenARefusalLeavesATrace(g: GroupState, e: Event, now: U64, cfg: Config)
    ensures var o := Handle(g, e, now, cfg);
      o.result.Refused? && o.g != g <==> LeavesATrace(g, e, now)
  {
    hide Metadata.ApplyTags;
    if e.kind == JOIN_9021 {
      assert Handle(g, e, now, cfg) == JoinRequest(g, e, now);
      JoinTrace(g, e, now);
    } else if e.kind == LEAVE_9022 {
      assert Handle(g, e, now, cfg) == LeaveRequest(g, e);
      LeaveTrace(g, e);
    } else {
      OthersLeaveNoTrace(g, e, now, cfg);
    }
  }

  lemma JoinTrace(g: GroupState, e: Event, now: U64)
    requires e.kind == JOIN_9021
    ensures var o := JoinRequest(g, e, now);
      o.result.Refused? && o.g != g <==> LeavesATrace(g, e, now)
  {
    if e.pubkey !in g.members {
      assert e.pubkey !in AdminsOf(g.members);
      AdminsAfterPut(g.members, e.pubkey, {Member});
      assert g.members[e.pubkey := {Member}] != g.members;
      var code := CodeOf(e);
      if code.Some? && code.value in g.invites {
        var roles := g.invites[code.value].roles;
        AdminsAfterPut(g.members, e.pubkey, roles);
        assert e.pubkey in g.members[e.pubkey := roles];
      }
    }
  }

  lemma LeaveTrace(g: GroupState, e: Event)
    requires e.kind == LEAVE_9022
    ensures var o := LeaveRequest(g, e);
      o.result.Refused? && o.g != g <==> LeavesATrace(g, e, 0)
  {
    AdminsAfterRemove(g.members, e.pubkey);
    if g.IsAdmin(e.pubkey) {
      assert e.pubkey in AdminsOf(g.members);
      if |AdminsOf(g.members)| == 1 {
        OnlyElement(AdminsOf(g.members), e.pubkey);
      } else {
        AnotherElement(AdminsOf(g.members), e.pubkey);
      }
    } else {
      assert e.pubkey !in AdminsOf(g.members);
    }
  }

  lemma OthersLeaveNoTrace(g: GroupState, e: Event, now: U64, cfg: Config)
    requires e.kind != JOIN_9021 && e.kind != LEAVE_9022
    ensures var o := Handle(g, e, now, cfg); o.result.Refused? ==> o.g == g
  {
    hide AdminsOf, AddNamed, RemoveNamed, CheckRoles, AssignRoles, ParsedMembers, TagsOf, EventIds, Metadata.ApplyTags;
  }
}
