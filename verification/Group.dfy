/** The group as the relay keeps it: one object whose fields each handler updates
    in place.  Every method is tied to the function in `GroupModel` that says
    what the event means; `State()` is the value the object stands for. */
module GroupObject {
  import opened Nostr
  import opened GroupModel
  import opened Printing
  import Relay
  import Sorting
  import World
  import Metadata

  predicate DistinctKinds(s: seq<Tag>) {
    forall i, j :: 0 <= i < j < |s| ==> s[i].kind != s[j].kind
  }

  /** The tags of a list filed under their kinds; of two of one kind the last counts. */
  function ByKind(s: seq<Tag>): map<TagKind, Tag> {
    if s == [] then map[] else ByKind(s[..|s| - 1])[s[|s| - 1].kind := s[|s| - 1]]
  }

  lemma {:induction false} ByKindMeans(s: seq<Tag>, k: TagKind)
    requires DistinctKinds(s)
    ensures k in ByKind(s) <==> exists i :: 0 <= i < |s| && s[i].kind == k
    ensures forall i :: 0 <= i < |s| && s[i].kind == k ==> k in ByKind(s) && ByKind(s)[k] == s[i]
    ensures k in ByKind(s) ==> ByKind(s)[k] in s && ByKind(s)[k].kind == k
  {
    if s != [] {
      var n := |s| - 1;
      var front := s[..n];
      assert DistinctKinds(front);
      ByKindMeans(front, k);
      assert ByKind(s) == ByKind(front)[s[n].kind := s[n]];
      hide *;
      assert forall i :: 0 <= i < n ==> s[i] == front[i];
      if k in ByKind(front) {
        var i :| 0 <= i < n && front[i].kind == k;
        assert s[i].kind == k;
      }
    }
  }

  lemma DistinctEnumerates(s: seq<Tag>)
    requires DistinctKinds(s)
    ensures Metadata.Enumerates(s, ByKind(s))
  {
    forall i | 0 <= i < |s| ensures s[i].kind in ByKind(s) && ByKind(s)[s[i].kind] == s[i] {
      ByKindMeans(s, s[i].kind);
    }
    forall k | k in ByKind(s) ensures ByKind(s)[k] in s { ByKindMeans(s, k); }
  }

  /** The tags whose kind is not being replaced. */
  function Retain(s: seq<Tag>, found: map<TagKind, Tag>): (r: seq<Tag>)
    ensures forall t :: t in r <==> t in s && t.kind !in found
  {
    if s == [] then []
    else
      var r := Retain(s[..|s| - 1], found);
      if s[|s| - 1].kind in found then r else r + [s[|s| - 1]]
  }

  lemma {:induction false} RetainDistinct(s: seq<Tag>, found: map<TagKind, Tag>)
    requires DistinctKinds(s)
    ensures DistinctKinds(Retain(s, found))
  {
    if s != [] {
      var n := |s| - 1;
      RetainDistinct(s[..n], found);
      forall i | 0 <= i < |Retain(s[..n], found)| ensures Retain(s[..n], found)[i].kind != s[n].kind {
        var t := Retain(s[..n], found)[i];
        var j :| 0 <= j < n && s[..n][j] == t;
        assert s[j].kind != s[n].kind;
      }
    }
  }

  lemma ByKindUnion(s: seq<Tag>, old': seq<Tag>, found: map<TagKind, Tag>)
    requires DistinctKinds(s) && DistinctKinds(old')
    requires forall k :: k in found ==> found[k].kind == k
    requires forall t :: t in s <==> (t in old' && t.kind !in found) || (t.kind in found && found[t.kind] == t)
    ensures ByKind(s) == ByKind(old') + found
  {
    forall k ensures k in ByKind(s) <==> k in ByKind(old') + found
      ensures k in ByKind(s) ==> ByKind(s)[k] == (ByKind(old') + found)[k]
    {
      ByKindMeans(s, k);
      ByKindMeans(old', k);
      if k in found { assert found[k] in s; }
      if k in ByKind(old') && k !in found { assert ByKind(old')[k] in s; }
    }
  }

  /** What a handler gives back: the commands to run, or why not. */
  datatype Reply = Ok(cmds: seq<StoreCommand>) | Err(error: Error)

  ghost predicate Answers(r: Reply, result: Result) {
    match result
    case Refused(error) => r == Err(error)
    case Accepted(cmds) => r.Ok? && SpellsAll(r.cmds, cmds)
  }

  lemma AnswersOne(c: StoreCommand, a: Command)
    requires SpellsCommand([c], a)
    ensures SpellsAll([c], [a])
  {
    SpellsMore([], [], [c], a);
    assert [] + [c] == [c] && [] + [a] == [a];
  }

  lemma SpellsOneMore(cs: seq<StoreCommand>, todo: seq<Command>, u: UnsignedEvent, emission: Emission, scope: Scope)
    requires SpellsAll(cs, todo) && Spells([u], emission)
    ensures SpellsAll(cs + [SaveUnsignedEvent(u, scope)], todo + [Generate(emission, scope)])
  {
    assert Saves([u], scope) == [SaveUnsignedEvent(u, scope)];
    SpellsMore(cs, todo, [SaveUnsignedEvent(u, scope)], Generate(emission, scope));
  }

  class Group {
    var id: string
    var scope: Scope
    var fields: Metadata.Fields
    var unknownTags: seq<Tag>
    var members: Members
    var joinRequests: set<PublicKey>
    var invites: map<string, Invite>

    ghost predicate Valid()
      reads this
    {
      DistinctKinds(unknownTags)
    }

    ghost function State(): GroupState
      reads this
    {
      GroupState(id, scope, Metadata.Meta(fields, ByKind(unknownTags)), members, joinRequests, invites)
    }

    /** A group with no members yet and fresh metadata. */
    constructor (id: string, scope: Scope)
      ensures Valid()
      ensures State() == GroupState(id, scope, Metadata.FreshMeta(id), map[], {}, map[])
    {
      this.id := id;
      this.scope := scope;
      this.fields := Metadata.FreshFields(id);
      this.unknownTags := [];
      this.members := map[];
      this.joinRequests := {};
      this.invites := map[];
    }

    // ----- Metadata ------------------------------------------------------------

    method ApplyTags(tags: seq<Tag>)
      requires Valid()
      modifies this`fields, this`unknownTags
      ensures Valid()
      ensures State() == old(State()).(meta := Metadata.ApplyTags(old(State()).meta, tags))
    {
      hide Metadata.Settle, Metadata.Overlay, Metadata.TextTag, Metadata.AccessTag, Metadata.UnknownTag,
           Metadata.WriteTag, DistinctKinds, ByKind;
      var found: map<TagKind, Tag>, access := map[], Metadata.NO_EDIT.access;
      var i := 0;
      Metadata.OverlayNothing(fields);
      while i < |tags|
        invariant 0 <= i <= |tags|
        invariant fields == Metadata.Overlay(old(fields), Metadata.EditOf(tags[..i]))
        invariant Valid() && unknownTags == old(unknownTags)
        invariant access == Metadata.EditOf(tags[..i]).access && found == Metadata.EditOf(tags[..i]).found
      {
        var t := tags[i];
        assert tags[..i + 1][..i] == tags[..i];
        Metadata.OverlayStep(old(fields), Metadata.EditOf(tags[..i]), t);
        fields := Metadata.WriteTag(fields, t);
        access := Metadata.AccessTag(access, t);
        found := Metadata.UnknownTag(found, t);
        i := i + 1;
      }
      assert tags[..i] == tags;
      fields := Metadata.Settle(fields, access);
      Metadata.EditKeepsValid(tags);
      ReplaceUnknown(found);
    }

    /** Drop the unknown tags that were mentioned again and append the new ones, in
        whatever order the hash map gives them. */
    method ReplaceUnknown(found: map<TagKind, Tag>)
      requires Valid() && forall k :: k in found ==> found[k].kind == k
      modifies this`unknownTags
      ensures Valid() && ByKind(unknownTags) == ByKind(old(unknownTags)) + found
    {
      ghost var kept := Retain(unknownTags, found);
      RetainDistinct(unknownTags, found);
      unknownTags := Retain(unknownTags, found);
      var rest := found.Keys;
      while rest != {}
        invariant rest <= found.Keys
        invariant DistinctKinds(unknownTags)
        invariant forall t :: t in unknownTags <==> t in kept || (t.kind in found.Keys - rest && found[t.kind] == t)
      {
        var k :| k in rest;
        unknownTags := unknownTags + [found[k]];
        rest := rest - {k};
      }
      ByKindUnion(unknownTags, old(unknownTags), found);
    }

    // ----- Printing ------------------------------------------------------------

    method GenerateMetadataEvent(url: string) returns (u: UnsignedEvent)
      requires Valid()
      ensures Spells([u], MetadataEvent(id, State().meta, url))
    {
      hide ByKind, DistinctKinds;
      DistinctEnumerates(unknownTags);
      u := UnsignedEvent(METADATA_39000, Metadata.MetadataTags(id, fields, unknownTags, url));
      assert Metadata.Enumerates(unknownTags, State().meta.unknown);
      assert Metadata.IsMetadataEvent(u.tags, id, State().meta, url);
    }

    /** One `p` tag per member, in the order the hash map happens to have. */
    method GenerateMembersEvent() returns (u: UnsignedEvent)
      ensures Spells([u], MemberList(id, members.Keys))
    {
      var tags := [Tag(D, [id])];
      ghost var order: seq<PublicKey> := [];
      var rest := members.Keys;
      while rest != {}
        invariant rest <= members.Keys && IsOrderOf(order, members.Keys - rest)
        invariant tags == ListTags(id, order, MEMBER_ROLES)
      {
        var k :| k in rest;
        tags := tags + [KeyTag(k, MEMBER_ROLES)];
        order := order + [k];
        rest := rest - {k};
      }
      assert members.Keys - rest == members.Keys;
      u := UnsignedEvent(MEMBERS_39002, tags);
    }

    /** One `p` tag per admin, or nothing when there is none to list. */
    method GenerateAdminsEvent() returns (u: Option<UnsignedEvent>)
      ensures u.None? <==> AdminsOf(members) == {}
      ensures u.Some? ==> Spells([u.value], AdminList(id, AdminsOf(members)))
    {
      var tags := [Tag(D, [id])];
      ghost var order: seq<PublicKey> := [];
      var rest := members.Keys;
      while rest != {}
        invariant rest <= members.Keys && IsOrderOf(order, AdminsOf(members) - rest)
        invariant tags == ListTags(id, order, ADMIN_ROLES)
      {
        var k :| k in rest;
        if Admin in members[k] {
          tags := tags + [KeyTag(k, ADMIN_ROLES)];
          order := order + [k];
        }
        rest := rest - {k};
      }
      assert AdminsOf(members) - rest == AdminsOf(members);
      if |tags| <= 1 {
        assert order == [];
        assert forall k :: k in AdminsOf(members) ==> k in order;
        u := None;
      } else {
        assert order[0] in AdminsOf(members);
        u := Some(UnsignedEvent(ADMINS_39001, tags));
      }
    }

    /** A 9000 for every member, in the order the hash map happens to have. */
    method GeneratePutUserEvents() returns (us: seq<UnsignedEvent>)
      ensures Spells(us, PutUsers(id, members))
    {
      us := [];
      ghost var order: seq<PublicKey> := [];
      var rest := members.Keys;
      while rest != {}
        invariant rest <= members.Keys && IsOrderOf(order, members.Keys - rest)
        invariant us == PutUserEvents(id, members, order)
      {
        var k :| k in rest;
        us := us + [PutUserEvent(id, k, members[k])];
        order := order + [k];
        rest := rest - {k};
      }
      assert members.Keys - rest == members.Keys;
    }

    method SaveAll(us: seq<UnsignedEvent>) returns (cs: seq<StoreCommand>)
      ensures cs == Saves(us, scope)
    {
      cs := [];
      for i := 0 to |us|
        invariant cs == Saves(us[..i], scope)
      {
        cs := cs + [SaveUnsignedEvent(us[i], scope)];
      }
      assert us[..|us|] == us;
    }

    /** The accepted event itself, then an admin list if asked for, then a member list. */
    method ReplyWithLists(e: Event, withAdmins: bool) returns (r: Reply)
      ensures withAdmins ==> Answers(r, WithAdminList(State(), [SaveSigned(e, scope)], [MemberListOf(State())]).result)
      ensures !withAdmins ==> Answers(r, Accepted([SaveSigned(e, scope), MemberListOf(State())]))
    {
      hide SpellsAll, Spells;
      var cs := [SaveSignedEvent(e, scope)];
      ghost var todo := [SaveSigned(e, scope)];
      AnswersOne(cs[0], todo[0]);
      if withAdmins {
        var admins := GenerateAdminsEvent();
        if admins.None? { return Err(NoAdmin); }
        SpellsOneMore(cs, todo, admins.value, AdminList(id, AdminsOf(members)), scope);
        cs, todo := cs + [SaveUnsignedEvent(admins.value, scope)], todo + [AdminListOf(State())];
      }
      var list := GenerateMembersEvent();
      SpellsOneMore(cs, todo, list, MemberList(id, members.Keys), scope);
      r := Ok(cs + [SaveUnsignedEvent(list, scope)]);
      assert !withAdmins ==> todo + [MemberListOf(State())] == [SaveSigned(e, scope), MemberListOf(State())];
    }

    /** The accepted event, a 9000 per member, and both lists. */
    method ReplyWithMembership(e: Event) returns (r: Reply)
      ensures Answers(r, WithMembership(State(), e).result)
    {
      hide SpellsAll, Spells;
      var cs := [SaveSignedEvent(e, scope)];
      AnswersOne(cs[0], SaveSigned(e, scope));
      var puts := GeneratePutUserEvents();
      var saves := SaveAll(puts);
      assert SpellsCommand(saves, Generate(PutUsers(id, members), scope));
      SpellsMore(cs, [SaveSigned(e, scope)], saves, Generate(PutUsers(id, members), scope));
      ghost var todo := [SaveSigned(e, scope)] + [Generate(PutUsers(id, members), scope)];
      cs := cs + saves;
      var admins := GenerateAdminsEvent();
      if admins.None? { return Err(NoAdmin); }
      SpellsOneMore(cs, todo, admins.value, AdminList(id, AdminsOf(members)), scope);
      cs, todo := cs + [SaveUnsignedEvent(admins.value, scope)], todo + [AdminListOf(State())];
      var list := GenerateMembersEvent();
      SpellsOneMore(cs, todo, list, MemberList(id, members.Keys), scope);
      r := Ok(cs + [SaveUnsignedEvent(list, scope)]);
      assert todo == [SaveSigned(e, scope), Generate(PutUsers(id, members), scope)] + [AdminListOf(State())];
    }

    /** Everything about a group that has just been made. */
    method ReplyWithState(e: Event, cfg: Config) returns (r: Reply)
      requires Valid() && AdminsOf(State().members) != {}
      ensures Answers(r, Accepted(Relay.StateEvents(State(), e, cfg)))
    {
      hide SpellsAll, Spells, AdminsOf;
      var cs := [SaveSignedEvent(e, scope)];
      AnswersOne(cs[0], SaveSigned(e, scope));
      ghost var todo := [SaveSigned(e, scope)];
      var meta := GenerateMetadataEvent(cfg.relayUrl);
      SpellsOneMore(cs, todo, meta, MetadataEvent(id, State().meta, cfg.relayUrl), scope);
      cs := cs + [SaveUnsignedEvent(meta, scope)];
      todo := todo + [Generate(MetadataEvent(id, State().meta, cfg.relayUrl), scope)];
      RoleListSpells(id);
      SpellsOneMore(cs, todo, RoleListEvent(id), RoleList(id), scope);
      cs, todo := cs + [SaveUnsignedEvent(RoleListEvent(id), scope)], todo + [Generate(RoleList(id), scope)];
      var puts := GeneratePutUserEvents();
      var saves := SaveAll(puts);
      assert SpellsCommand(saves, Generate(PutUsers(id, members), scope));
      SpellsMore(cs, todo, saves, Generate(PutUsers(id, members), scope));
      cs, todo := cs + saves, todo + [Generate(PutUsers(id, members), scope)];
      var admins := GenerateAdminsEvent();
      SpellsOneMore(cs, todo, admins.value, AdminList(id, AdminsOf(members)), scope);
      cs, todo := cs + [SaveUnsignedEvent(admins.value, scope)], todo + [AdminListOf(State())];
      var list := GenerateMembersEvent();
      SpellsOneMore(cs, todo, list, MemberList(id, members.Keys), scope);
      r := Ok(cs + [SaveUnsignedEvent(list, scope)]);
      assert todo + [MemberListOf(State())] == Relay.StateEvents(State(), e, cfg);
    }

    // ----- Membership ------------------------------------------------------------

    /** Insert the named members one by one, undoing everything when an admin would
        be the last to lose the role. */
    method AddMembers(names: seq<Named>) returns (err: Option<Error>)
      modifies this`members, this`joinRequests
      ensures match GroupModel.AddMembers(old(members), old(joinRequests), names)
        case NotAdded(x) => err == Some(x) && members == old(members) && joinRequests == old(joinRequests)
        case Added(m, j) => err == None && members == m && joinRequests == j
    {
      hide AdminsOf;
      var snapshot := (members, joinRequests);
      for i := 0 to |names|
        invariant AddNamed(old(members), names[..i]) == Some(members)
        invariant joinRequests == old(joinRequests) - KeysOf(names[..i])
      {
        var n := names[i];
        assert names[..i + 1][..i] == names[..i];
        KeysOfSnoc(names[..i + 1]);
        joinRequests := joinRequests - {n.key};
        if n.key in members && |AdminsOf(members)| == 1 && Admin in members[n.key] && Admin !in n.roles {
          AddNamedStops(old(members), names, i + 1);
          members, joinRequests := snapshot.0, snapshot.1;
          return Some(LastAdmin);
        }
        members := members[n.key := n.roles];
      }
      assert names[..|names|] == names;
      if AdminsOf(members) == {} {
        members, joinRequests := snapshot.0, snapshot.1;
        return Some(NoAdmin);
      }
      err := None;
    }

    predicate MayEdit(k: PublicKey, relay: PublicKey)
      reads this
    {
      k == relay || (k in members && Admin in members[k])
    }

    method AddMembersFromEvent(e: Event, cfg: Config) returns (r: Reply)
      requires Valid()
      modifies this`members, this`joinRequests
      ensures Valid() && State() == PutUser(old(State()), e, cfg).g
      ensures Answers(r, PutUser(old(State()), e, cfg).result)
    {
      hide AdminsOf, ByKind, DistinctKinds, GroupModel.AddMembers, ParsedMembers, TagsOf, SpellsAll, WithAdminList;
      if !MayEdit(e.pubkey, cfg.relay) { return Err(NotAuthorized); }
      var err := AddMembers(ParsedMembers(TagsOf(e.tags, P)));
      if err.Some? { return Err(err.value); }
      WithAdminListKeeps(State(), [SaveSigned(e, scope)], [MemberListOf(State())]);
      r := ReplyWithLists(e, true);
    }

    /** Remove the named members one by one, up to the first reason to stop. */
    method RemoveNamedMembers(tags: seq<Tag>) returns (err: Option<Error>, removedAdmins: bool)
      modifies this`members, this`joinRequests
      ensures match RemoveNamed(AdminsOf(old(members)), Removing(old(members), old(joinRequests), false), tags)
        case Stopped(x) => err == Some(x)
        case Removing(m, j, removed) => err == None && members == m && joinRequests == j && removedAdmins == removed
    {
      hide AdminsOf, ParseMember;
      var admins := AdminsOf(members);
      ghost var start := Removing(members, joinRequests, false);
      removedAdmins := false;
      for i := 0 to |tags|
        invariant RemoveNamed(admins, start, tags[..i]) == Removing(members, joinRequests, removedAdmins)
      {
        assert tags[..i + 1][..i] == tags[..i];
        var parsed := ParseMember(tags[i]);
        if parsed.None? {
          RemovalStops(admins, start, tags, i + 1, MalformedMember);
          return Some(MalformedMember), removedAdmins;
        }
        var k := parsed.value.key;
        if |admins| == 1 && k in admins {
          RemovalStops(admins, start, tags, i + 1, LastAdmin);
          return Some(LastAdmin), removedAdmins;
        }
        if k in members {
          removedAdmins := removedAdmins || Admin in members[k];
          members, joinRequests := members - {k}, joinRequests - {k};
        }
      }
      assert tags[..|tags|] == tags;
      err := None;
    }

    /** Any reason to stop undoes the whole walk. */
    method RemoveMembers(e: Event, cfg: Config) returns (r: Reply)
      requires Valid()
      modifies this`members, this`joinRequests
      ensures Valid() && State() == RemoveUser(old(State()), e, cfg).g
      ensures Answers(r, RemoveUser(old(State()), e, cfg).result)
    {
      hide AdminsOf, ByKind, DistinctKinds, TagsOf, SpellsAll, WithAdminList, RemoveNamed;
      if !MayEdit(e.pubkey, cfg.relay) { return Err(NotAuthorized); }
      var snapshot := (members, joinRequests);
      var err, removedAdmins := RemoveNamedMembers(TagsOf(e.tags, P));
      if err.Some? {
        members, joinRequests := snapshot.0, snapshot.1;
        return Err(err.value);
      }
      if AdminsOf(members) == {} {
        members, joinRequests := snapshot.0, snapshot.1;
        return Err(NoAdmin);
      }
      WithAdminListKeeps(State(), [SaveSigned(e, scope)], [MemberListOf(State())]);
      r := ReplyWithLists(e, removedAdmins);
    }

    /** The first pass over the tags, before anything is changed. */
    method CheckAllRoles(admins: set<PublicKey>, tags: seq<Tag>) returns (err: Option<Error>)
      ensures err == CheckRoles(admins, tags)
      ensures err.None? ==> forall j :: 0 <= j < |tags| ==> ParseMember(tags[j]).Some?
    {
      hide ParseMember;
      for i := 0 to |tags|
        invariant CheckRoles(admins, tags[..i]).None?
        invariant forall j :: 0 <= j < i ==> ParseMember(tags[j]).Some?
      {
        assert tags[..i + 1][..i] == tags[..i];
        var parsed := ParseMember(tags[i]);
        if parsed.None? {
          ChecksStop(admins, tags, i + 1);
          return Some(MalformedMember);
        }
        if |admins| == 1 && parsed.value.key in admins && Admin !in parsed.value.roles {
          ChecksStop(admins, tags, i + 1);
          return Some(LastAdmin);
        }
      }
      assert tags[..|tags|] == tags;
      err := None;
    }

    /** The accepted event, the role list and the member list; no admin list. */
    method ReplyWithRoles(e: Event) returns (r: Reply)
      ensures Answers(r, Accepted([SaveSigned(e, scope), Generate(RoleList(id), scope), MemberListOf(State())]))
    {
      hide AdminsOf, SpellsAll;
      RoleListSpells(id);
      var list := GenerateMembersEvent();
      var roles := RoleListEvent(id);
      AnswersOne(SaveSignedEvent(e, scope), SaveSigned(e, scope));
      SpellsOneMore([SaveSignedEvent(e, scope)], [SaveSigned(e, scope)], roles, RoleList(id), scope);
      SpellsOneMore([SaveSignedEvent(e, scope)] + [SaveUnsignedEvent(roles, scope)],
                    [SaveSigned(e, scope)] + [Generate(RoleList(id), scope)], list, MemberList(id, members.Keys), scope);
      r := Ok([SaveSignedEvent(e, scope)] + [SaveUnsignedEvent(roles, scope)] + [SaveUnsignedEvent(list, scope)]);
      assert [SaveSigned(e, scope)] + [Generate(RoleList(id), scope)] + [MemberListOf(State())]
          == [SaveSigned(e, scope), Generate(RoleList(id), scope), MemberListOf(State())];
    }

    /** First look every tag over, then assign the roles, then check the result. */
    method SetRolesFromEvent(e: Event, cfg: Config) returns (r: Reply)
      requires Valid()
      modifies this`members
      ensures Valid() && State() == SetRoles(old(State()), e, cfg).g
      ensures Answers(r, SetRoles(old(State()), e, cfg).result)
    {
      hide AdminsOf, ByKind, DistinctKinds, ParseMember, TagsOf, SpellsAll;
      if !MayEdit(e.pubkey, cfg.relay) { return Err(NotAuthorized); }
      var admins, snapshot := AdminsOf(members), members;
      var tags := TagsOf(e.tags, P);
      var err := CheckAllRoles(admins, tags);
      if err.Some? { return Err(err.value); }
      for i := 0 to |tags|
        invariant members == AssignRoles(snapshot, tags[..i])
      {
        assert tags[..i + 1][..i] == tags[..i];
        var n := ParseMember(tags[i]).value;
        if n.key in members { members := members[n.key := n.roles]; }
      }
      assert tags[..|tags|] == tags;
      if AdminsOf(members) == {} {
        members := snapshot;
        return Err(NoAdmin);
      }
      r := ReplyWithRoles(e);
    }

    method JoinRequestFromEvent(e: Event, now: U64) returns (r: Reply)
      requires Valid()
      modifies this`members, this`joinRequests, this`invites
      ensures Valid() && State() == JoinRequest(old(State()), e, now).g
      ensures Answers(r, JoinRequest(old(State()), e, now).result)
    {
      hide AdminsOf, ByKind, DistinctKinds, CodeOf, SpellsAll, WithMembership;
      if e.pubkey in members { return Err(AlreadyMember); }
      if !fields.closed {
        members, joinRequests := members[e.pubkey := {Member}], joinRequests - {e.pubkey};
        WithMembershipKeeps(State(), e);
        r := ReplyWithMembership(e);
        return;
      }
      var code := CodeOf(e);
      if code.Some? && code.value in invites && invites[code.value].CanUseAt(now) {
        var invite := invites[code.value];
        invites := invites[code.value := invite.MarkUsed(e.pubkey, e.createdAt)];
        members, joinRequests := members[e.pubkey := invite.roles], joinRequests - {e.pubkey};
        WithMembershipKeeps(State(), e);
        r := ReplyWithMembership(e);
      } else {
        joinRequests := joinRequests + {e.pubkey};
        AnswersOne(SaveSignedEvent(e, scope), SaveSigned(e, scope));
        r := Ok([SaveSignedEvent(e, scope)]);
      }
    }

    method LeaveRequestFromEvent(e: Event) returns (r: Reply)
      requires Valid()
      modifies this`members, this`joinRequests
      ensures Valid() && State() == LeaveRequest(old(State()), e).g
      ensures Answers(r, LeaveRequest(old(State()), e).result)
    {
      hide AdminsOf, ByKind, DistinctKinds, WithAdminList;
      joinRequests := joinRequests - {e.pubkey};
      var isAdmin := e.pubkey in members && Admin in members[e.pubkey];
      if isAdmin && |AdminsOf(members)| == 1 { return Err(LastAdmin); }
      if e.pubkey !in members { return Ok([]); }
      members := members - {e.pubkey};
      WithAdminListKeeps(State(), [SaveSigned(e, scope)], [MemberListOf(State())]);
      r := ReplyWithLists(e, isAdmin);
    }

    method HandleGroupContent(e: Event) returns (r: Reply)
      requires Valid()
      modifies this`members, this`joinRequests
      ensures Valid() && State() == Content(old(State()), e).g
      ensures Answers(r, Content(old(State()), e).result)
    {
      hide AdminsOf, ByKind, DistinctKinds, SpellsAll, WithMembership, GroupModel.AddMembers;
      var isMember := e.pubkey in members;
      var isAdmin := isMember && Admin in members[e.pubkey];
      if fields.broadcast && !isAdmin && e.kind !in {JOIN_9021, LEAVE_9022} { return Err(BroadcastOnly); }
      if fields.restricted && !isMember { return Err(RestrictedGroup); }
      if !fields.closed && !isMember {
        var err := AddMembers([Named(e.pubkey, {Member})]);
        if err.Some? { return Err(err.value); }
        WithMembershipKeeps(State(), e);
        r := ReplyWithMembership(e);
      } else {
        AnswersOne(SaveSignedEvent(e, scope), SaveSigned(e, scope));
        r := Ok([SaveSignedEvent(e, scope)]);
      }
    }

    // ----- Metadata, invites and deletions -------------------------------------------

    method SetMetadata(e: Event, cfg: Config) returns (r: Reply)
      requires Valid()
      modifies this`fields, this`unknownTags
      ensures Valid() && State() == EditMetadata(old(State()), e, cfg).g
      ensures Answers(r, EditMetadata(old(State()), e, cfg).result)
    {
      hide AdminsOf, ByKind, DistinctKinds, SpellsAll, Spells, Metadata.ApplyTags;
      if !MayEdit(e.pubkey, cfg.relay) { return Err(NotAuthorized); }
      ApplyTags(e.tags);
      if cfg.forcePublic { fields := fields.(isPrivate := false, hidden := false); }
      var printed := GenerateMetadataEvent(cfg.relayUrl);
      var roles := RoleListEvent(id);
      MetadataAnswer(id, State().meta, scope, e, printed, cfg.relayUrl);
      r := Ok([SaveSignedEvent(e, scope)] + [SaveUnsignedEvent(printed, scope)] + [SaveUnsignedEvent(roles, scope)]);
    }

    method CreateInviteFromEvent(e: Event, cfg: Config) returns (r: Reply)
      requires Valid()
      modifies this`invites
      ensures Valid() && State() == CreateInvite(old(State()), e, cfg).g
      ensures Answers(r, CreateInvite(old(State()), e, cfg).result)
    {
      hide ByKind, DistinctKinds, SpellsAll, InviteOf, CodeOf;
      if !MayEdit(e.pubkey, cfg.relay) { return Err(NotAuthorized); }
      var code := CodeOf(e);
      if code.None? { return Err(NoCode); }
      if code.value in invites { return Err(DuplicateCode); }
      if |code.value| < MIN_INVITE_CODE_LEN { return Err(ShortCode); }
      invites := invites[code.value := InviteOf(e, {Member}, true)];
      AnswersOne(SaveSignedEvent(e, scope), SaveSigned(e, scope));
      r := Ok([SaveSignedEvent(e, scope)]);
    }

    /** Forget the invites whose 9009 is deleted, and ask the store to delete. */
    method DeleteEventRequest(e: Event, cfg: Config) returns (r: Reply)
      requires Valid()
      modifies this`invites
      ensures Valid() && State() == DeleteEvent(old(State()), e, cfg).g
      ensures Answers(r, DeleteEvent(old(State()), e, cfg).result)
    {
      hide ByKind, DistinctKinds, SpellsAll, EventIds;
      var ids := EventIds(e.tags);
      if ids == {} { return Err(NoEventIds); }
      if !MayEdit(e.pubkey, cfg.relay) { return Err(NotAuthorized); }
      var codes := set c | c in invites && invites[c].eventId in ids;
      while codes != {}
        invariant forall c :: c in codes ==> c in old(invites) && old(invites)[c].eventId in ids
        invariant forall c :: c in invites <==> c in old(invites) && (c in codes || old(invites)[c].eventId !in ids)
        invariant forall c :: c in invites ==> invites[c] == old(invites)[c]
      {
        var c :| c in codes;
        invites, codes := invites - {c}, codes - {c};
      }
      assert invites == WithoutInvites(old(invites), ids);
      var filter := Filter(Some(ids), Some(id), None);
      AnswersOne(DeleteEvents(filter, scope), Delete(filter, scope));
      SpellsMore([DeleteEvents(filter, scope)], [Delete(filter, scope)],
                 [SaveSignedEvent(e, scope)], SaveSigned(e, scope));
      r := Ok([DeleteEvents(filter, scope)] + [SaveSignedEvent(e, scope)]);
      assert [Delete(filter, scope)] + [SaveSigned(e, scope)] == [Delete(filter, scope), SaveSigned(e, scope)];
    }

    // ----- Startup ---------------------------------------------------------------------

    method ReplyWithGroupDeletion(e: Event) returns (r: Reply)
      ensures Answers(r, Accepted([Delete(Filter(None, Some(id), None), scope), Delete(Filter(None, None, Some(id)), scope),
                                   SaveSigned(e, scope)]))
    {
      hide SpellsAll;
      var byH, byD := Filter(None, Some(id), None), Filter(None, None, Some(id));
      AnswersOne(DeleteEvents(byH, scope), Delete(byH, scope));
      SpellsMore([DeleteEvents(byH, scope)], [Delete(byH, scope)], [DeleteEvents(byD, scope)], Delete(byD, scope));
      var cs := [DeleteEvents(byH, scope)] + [DeleteEvents(byD, scope)];
      ghost var todo := [Delete(byH, scope)] + [Delete(byD, scope)];
      SpellsMore(cs, todo, [SaveSignedEvent(e, scope)], SaveSigned(e, scope));
      r := Ok(cs + [SaveSignedEvent(e, scope)]);
      assert todo + [SaveSigned(e, scope)] == [Delete(byH, scope), Delete(byD, scope), SaveSigned(e, scope)];
    }

    /** Merge a stored membership list into the members. */
    method LoadMembersFromEvent(u: UnsignedEvent)
      requires Valid()
      modifies this`members
      ensures Valid() && State() == old(State()).(members := LoadMembers(old(members), u))
    {
      hide ParsedMembers, TagsOf, ByKind, DistinctKinds;
      var names := ParsedMembers(TagsOf(u.tags, P));
      for i := 0 to |names|
        invariant members == LoadEntries(old(members), u.kind, names[..i])
      {
        assert names[..i + 1][..i] == names[..i];
        members := LoadEntry(members, u.kind, names[i]);
      }
      assert names[..|names|] == names;
    }

    /** Count the use of the code a stored 9021 names, and queue its sender. */
    method LoadJoinRequestFromEvent(e: Event)
      requires Valid()
      modifies this`invites, this`joinRequests
      ensures Valid() && State() == World.LoadJoin(old(State()), e)
    {
      hide CodeOf, ByKind, DistinctKinds;
      var code := CodeOf(e);
      if code.Some? && code.value in invites {
        invites := invites[code.value := invites[code.value].MarkUsed(e.pubkey, e.createdAt)];
      }
      if e.pubkey !in members { joinRequests := joinRequests + {e.pubkey}; }
    }

    method LoadInviteFromEvent(e: Event)
      requires Valid()
      modifies this`invites
      ensures Valid() && State() == World.LoadInvite(old(State()), e)
    {
      hide CodeOf, InviteOf, ByKind, DistinctKinds;
      var code := CodeOf(e);
      if code.Some? {
        invites := invites[code.value :=
          InviteOf(e, World.RolesNamed(e.tags), e.createdAt >= INVITE_LIMITS_SINCE)];
      }
    }

    /** Rebuild a group from the state events the query returned for it, in the order
        it returned them, and then from its history, sorted. */
    static method Startup(us: seq<UnsignedEvent>, found: seq<Event>, scope: Scope, cfg: Config) returns (g: Group)
      requires us != []
      ensures fresh(g) && g.Valid()
      ensures g.State() == World.Rebuild(us, Sorting.Sort(World.ReplayLe, found), scope, cfg)
    {
      hide ByKind, DistinctKinds, LoadMembers, Metadata.ApplyTags, World.LoadJoin, World.LoadInvite, Sorting.Sort;
      var first := FirstGroupTag(us[0].tags);
      g := new Group(if first.Some? then first.value else "", scope);
      if first.Some? { g.ApplyTags(us[0].tags); }
      for i := 0 to |us|
        invariant fresh(g) && g.Valid() && g.State() == LoadAll(FromEvent(us[0], scope), us[..i])
      {
        assert us[..i + 1][..i] == us[..i];
        if us[i].kind == METADATA_39000 {
          g.ApplyTags(us[i].tags);
        } else if us[i].kind in {ADMINS_39001, MEMBERS_39002} {
          g.LoadMembersFromEvent(us[i]);
        }
      }
      assert us[..|us|] == us;
      var order := Sorting.Sort(World.ReplayLe, found);
      for i := 0 to |order|
        invariant fresh(g) && g.Valid() && g.State() == World.Replay(LoadState(us, scope), order[..i])
      {
        assert order[..i + 1][..i] == order[..i];
        if order[i].kind == JOIN_9021 {
          g.LoadJoinRequestFromEvent(order[i]);
        } else if order[i].kind == CREATE_INVITE_9009 {
          g.LoadInviteFromEvent(order[i]);
        }
      }
      assert order[..|order|] == order;
      if cfg.forcePublic { g.fields := g.fields.(isPrivate := false, hidden := false); }
    }

    // ----- One event -------------------------------------------------------------------

    /** Check access, then dispatch on the kind. */
    method HandleEvent(e: Event, now: U64, cfg: Config) returns (r: Reply)
      requires Valid()
      modifies this`fields, this`unknownTags, this`members, this`joinRequests, this`invites
      ensures Valid() && State() == Handle(old(State()), e, now, cfg).g
      ensures Answers(r, Handle(old(State()), e, now, cfg).result)
    {
      hide AdminsOf, ByKind, DistinctKinds, PutUser, RemoveUser, EditMetadata, DeleteEvent, SetRoles, CreateInvite,
           JoinRequest, LeaveRequest, Content, SpellsAll;
      if e.pubkey != cfg.relay && e.kind != LEAVE_9022 && e.kind != JOIN_9021 && fields.closed && e.pubkey !in members {
        return Err(NotAMember);
      }
      if e.kind == ADD_USER_9000 { r := AddMembersFromEvent(e, cfg); }
      else if e.kind == REMOVE_USER_9001 { r := RemoveMembers(e, cfg); }
      else if e.kind == EDIT_METADATA_9002 { r := SetMetadata(e, cfg); }
      else if e.kind == DELETE_EVENT_9005 { r := DeleteEventRequest(e, cfg); }
      else if e.kind == SET_ROLES_9006 { r := SetRolesFromEvent(e, cfg); }
      else if e.kind == CREATE_INVITE_9009 { r := CreateInviteFromEvent(e, cfg); }
      else if e.kind == JOIN_9021 { r := JoinRequestFromEvent(e, now); }
      else if e.kind == LEAVE_9022 { r := LeaveRequestFromEvent(e); }
      else { r := HandleGroupContent(e); }
    }
  }

  /** The spelling of the answer to a 9002. */
  lemma MetadataAnswer(id: string, m: Metadata.Meta, scope: Scope, e: Event, printed: UnsignedEvent, url: string)
    requires Spells([printed], MetadataEvent(id, m, url))
    ensures SpellsAll([SaveSignedEvent(e, scope)] + [SaveUnsignedEvent(printed, scope)]
                      + [SaveUnsignedEvent(RoleListEvent(id), scope)],
                      [SaveSigned(e, scope), Generate(MetadataEvent(id, m, url), scope), Generate(RoleList(id), scope)])
  {
    hide Spells, SpellsAll;
    var save, meta := SaveSigned(e, scope), MetadataEvent(id, m, url);
    AnswersOne(SaveSignedEvent(e, scope), save);
    RoleListSpells(id);
    SpellsOneMore([SaveSignedEvent(e, scope)], [save], printed, meta, scope);
    SpellsOneMore([SaveSignedEvent(e, scope)] + [SaveUnsignedEvent(printed, scope)],
                  [save] + [Generate(meta, scope)], RoleListEvent(id), RoleList(id), scope);
    assert [save] + [Generate(meta, scope)] + [Generate(RoleList(id), scope)]
        == [save, Generate(meta, scope), Generate(RoleList(id), scope)];
  }

  lemma RoleListSpells(id: string)
    ensures Spells([RoleListEvent(id)], RoleList(id))
  {
  }

  lemma WithMembershipKeeps(g: GroupState, e: Event)
    ensures WithMembership(g, e).g == g
  {
  }

  lemma {:induction false} RemovalStops(admins: set<PublicKey>, start: Removal, tags: seq<Tag>, i: nat, err: Error)
    requires i <= |tags| && RemoveNamed(admins, start, tags[..i]) == Stopped(err)
    ensures RemoveNamed(admins, start, tags) == Stopped(err)
    decreases |tags|
  {
    hide ParseMember;
    if i == |tags| {
      assert tags[..i] == tags;
    } else {
      var init := tags[..|tags| - 1];
      assert init[..i] == tags[..i];
      RemovalStops(admins, start, init, i, err);
    }
  }

  lemma {:induction false} ChecksStop(admins: set<PublicKey>, tags: seq<Tag>, i: nat)
    requires i <= |tags| && CheckRoles(admins, tags[..i]).Some?
    ensures CheckRoles(admins, tags) == CheckRoles(admins, tags[..i])
    decreases |tags|
  {
    hide ParseMember;
    if i == |tags| {
      assert tags[..i] == tags;
    } else {
      var init := tags[..|tags| - 1];
      assert init[..i] == tags[..i];
      ChecksStop(admins, init, i);
    }
  }

  lemma WithAdminListKeeps(g: GroupState, before: seq<Command>, after: seq<Command>)
    ensures WithAdminList(g, before, after).g == g
  {
  }

  lemma KeysOfSnoc(names: seq<Named>)
    requires names != []
    ensures KeysOf(names) == KeysOf(names[..|names| - 1]) + {names[|names| - 1].key}
  {
    var n := |names| - 1;
    assert names[n].key in KeysOf(names);
    forall k | k in KeysOf(names[..n]) ensures k in KeysOf(names) {
      var i :| 0 <= i < n && names[..n][i].key == k;
      assert names[i].key == k;
    }
    forall k | k in KeysOf(names) && k != names[n].key ensures k in KeysOf(names[..n]) {
      var i :| 0 <= i < |names| && names[i].key == k;
      assert names[..n][i].key == k;
    }
  }

  /** Once a walk has stopped it stays stopped. */
  lemma {:induction false} AddNamedStops(m: Members, names: seq<Named>, i: nat)
    requires i <= |names| && AddNamed(m, names[..i]).None?
    ensures AddNamed(m, names).None?
    decreases |names|
  {
    if i == |names| {
      assert names[..i] == names;
    } else {
      var init := names[..|names| - 1];
      assert init[..i] == names[..i];
      AddNamedStops(m, init, i);
    }
  }
}
