/** How the events a group signs itself are spelt out as tags, and how stored state
    events are read back. */
module Printing {
  import opened Nostr
  import opened Text
  import opened GroupModel
  import Metadata

  datatype UnsignedEvent = UnsignedEvent(kind: nat, tags: seq<Tag>)

  datatype StoreCommand =
    | SaveSignedEvent(event: Event, scope: Scope)
    | SaveUnsignedEvent(unsigned: UnsignedEvent, scope: Scope)
    | DeleteEvents(filter: Filter, scope: Scope)

  // ----- Printing ------------------------------------------------------------

  /** `order` lists the elements of `s`, each once.  Hash maps and sets are walked
      in no particular order, so nothing below may depend on which. */
  ghost predicate IsOrderOf(order: seq<PublicKey>, s: set<PublicKey>) {
    (forall i, j :: 0 <= i < j < |order| ==> order[i] != order[j]) &&
    (forall k :: k in s <==> k in order)
  }

  function KeyTag(k: PublicKey, roles: seq<string>): Tag {
    Tag(P, [k] + roles)
  }

  function KeyTags(order: seq<PublicKey>, roles: seq<string>): seq<Tag> {
    seq(|order|, i requires 0 <= i < |order| => KeyTag(order[i], roles))
  }

  function ListTags(id: string, order: seq<PublicKey>, roles: seq<string>): seq<Tag> {
    [Tag(D, [id])] + KeyTags(order, roles)
  }

  const ADMIN_ROLES: seq<string> := ["Admin"]
  const MEMBER_ROLES: seq<string> := []

  ghost predicate IsAdminList(u: UnsignedEvent, id: string, admins: set<PublicKey>) {
    u.kind == ADMINS_39001 &&
    exists order :: IsOrderOf(order, admins) && u.tags == ListTags(id, order, ADMIN_ROLES)
  }

  ghost predicate IsMemberList(u: UnsignedEvent, id: string, keys: set<PublicKey>) {
    u.kind == MEMBERS_39002 &&
    exists order :: IsOrderOf(order, keys) && u.tags == ListTags(id, order, MEMBER_ROLES)
  }

  ghost predicate IsMetadata(u: UnsignedEvent, id: string, m: Metadata.Meta, url: string) {
    u.kind == METADATA_39000 && Metadata.IsMetadataEvent(u.tags, id, m, url)
  }

  const ROLE_TAGS: seq<Tag> :=
    [Tag(RoleName, ["admin", "Can edit metadata and manage users"]),
     Tag(RoleName, ["member", "Regular group member"]),
     Tag(RoleName, ["", "Custom role"])]

  function RoleListEvent(id: string): UnsignedEvent {
    UnsignedEvent(ROLES_39003, [Tag(D, [id])] + ROLE_TAGS)
  }

  function PutUserEvent(id: string, k: PublicKey, roles: set<Role>): UnsignedEvent {
    UnsignedEvent(ADD_USER_9000, [Tag(P, [k, if Admin in roles then "admin" else "member"]), Tag(H, [id])])
  }

  function PutUserEvents(id: string, members: Members, order: seq<PublicKey>): seq<UnsignedEvent>
    requires forall k :: k in order ==> k in members
  {
    seq(|order|, i requires 0 <= i < |order| => PutUserEvent(id, order[i], members[order[i]]))
  }

  /** `us` spells out one emission. */
  ghost predicate Spells(us: seq<UnsignedEvent>, e: Emission) {
    match e
    case PutUsers(id, members) =>
      exists order :: IsOrderOf(order, members.Keys) && us == PutUserEvents(id, members, order)
    case AdminList(id, admins) => |us| == 1 && IsAdminList(us[0], id, admins)
    case MemberList(id, keys) => |us| == 1 && IsMemberList(us[0], id, keys)
    case MetadataEvent(id, m, url) => |us| == 1 && IsMetadata(us[0], id, m, url)
    case RoleList(id) => us == [RoleListEvent(id)]
  }

  function Saves(us: seq<UnsignedEvent>, scope: Scope): seq<StoreCommand> {
    seq(|us|, i requires 0 <= i < |us| => SaveUnsignedEvent(us[i], scope))
  }

  ghost predicate SpellsCommand(cs: seq<StoreCommand>, c: Command) {
    match c
    case SaveSigned(e, scope) => cs == [SaveSignedEvent(e, scope)]
    case Delete(f, scope) => cs == [DeleteEvents(f, scope)]
    case Generate(emission, scope) => exists us :: Spells(us, emission) && cs == Saves(us, scope)
  }

  /** `cs` spells out the commands `todo`, one after the other. */
  ghost predicate SpellsAll(cs: seq<StoreCommand>, todo: seq<Command>)
    decreases |todo|
  {
    if todo == [] then cs == []
    else exists n :: 0 <= n <= |cs| && SpellsAll(cs[..n], todo[..|todo| - 1]) && SpellsCommand(cs[n..], todo[|todo| - 1])
  }

  lemma SpellsMore(cs: seq<StoreCommand>, todo: seq<Command>, ds: seq<StoreCommand>, a: Command)
    requires SpellsAll(cs, todo) && SpellsCommand(ds, a)
    ensures SpellsAll(cs + ds, todo + [a])
  {
    assert (cs + ds)[..|cs|] == cs && (cs + ds)[|cs|..] == ds;
    assert (todo + [a])[..|todo|] == todo;
  }

  // ----- Reading a membership list -------------------------------------------

  /** One entry of a stored list: 39002 entries add the Member role, 39001 entries
      (and any other) merge in the roles they carry. */
  function LoadEntry(m: Members, kind: nat, n: Named): Members {
    var had := if n.key in m then m[n.key] else {};
    m[n.key := had + if kind == MEMBERS_39002 then {Member} else n.roles]
  }

  function LoadEntries(m: Members, kind: nat, names: seq<Named>): Members {
    if names == [] then m
    else LoadEntry(LoadEntries(m, kind, names[..|names| - 1]), kind, names[|names| - 1])
  }

  function LoadMembers(m: Members, u: UnsignedEvent): Members {
    LoadEntries(m, u.kind, ParsedMembers(TagsOf(u.tags, P)))
  }

  lemma AdminSpelling()
    ensures RolesIn(ADMIN_ROLES) == {Admin}
  {
    AdminReads();
    hide ParseRole;
    assert ADMIN_ROLES[0] == "Admin" && ParseRole(ADMIN_ROLES[0]) == Admin;
    assert forall i :: 0 <= i < |ADMIN_ROLES| ==> ParseRole(ADMIN_ROLES[i]) == Admin;
  }

  lemma AdminReads()
    ensures ParseRole("Admin") == Admin
  {
    hide Trim, Lower, IsWhite;
    AdminLetters("Admin");
    TrimSolid("Admin");
    LowerAdmin("Admin", "admin");
  }

  lemma AdminLetters(s: string)
    requires s == "Admin" || s == "admin"
    ensures s != "" && !IsWhite(s[0]) && !IsWhite(s[|s| - 1])
    ensures s == "admin" ==> forall i :: 0 <= i < |s| ==> !('A' <= s[i] <= 'Z')
  {
    assert |s| == 5 && s[0] in {'A', 'a'} && s[4] == 'n';
  }

  lemma LowerAdmin(s: string, l: string)
    requires s == "Admin" && l == "admin"
    ensures Lower(s) == l
  {
    assert s[1..] == l[1..];
    forall i | 0 <= i < 5 ensures Lower(s)[i] == l[i] {
      if i > 0 { assert s[i] == s[1..][i - 1] == l[1..][i - 1] == l[i]; }
    }
  }

  function Entries(order: seq<PublicKey>, roles: set<Role>): seq<Named> {
    seq(|order|, i requires 0 <= i < |order| => Named(order[i], roles))
  }

  function EntryRoles(roles: seq<string>): set<Role> {
    if roles == [] then {Member} else RolesIn(roles)
  }

  lemma {:induction false} KeyTagsArePTags(order: seq<PublicKey>, roles: seq<string>)
    ensures TagsOf(KeyTags(order, roles), P) == KeyTags(order, roles)
  {
    if order != [] {
      KeyTagsArePTags(order[1..], roles);
      assert KeyTags(order, roles)[1..] == KeyTags(order[1..], roles);
    }
  }

  lemma {:induction false} ParsedKeyTags(order: seq<PublicKey>, roles: seq<string>)
    ensures ParsedMembers(KeyTags(order, roles)) == Entries(order, EntryRoles(roles))
  {
    if order != [] {
      var n := |order| - 1;
      ParsedKeyTags(order[..n], roles);
      assert KeyTags(order, roles)[..n] == KeyTags(order[..n], roles);
      assert KeyTag(order[n], roles).values[1..] == roles;
      assert ParseMember(KeyTag(order[n], roles)) == Some(Named(order[n], EntryRoles(roles)));
      assert Entries(order, EntryRoles(roles)) ==
        Entries(order[..n], EntryRoles(roles)) + [Named(order[n], EntryRoles(roles))];
    }
  }

  lemma ParsedList(id: string, order: seq<PublicKey>, roles: seq<string>)
    ensures ParsedMembers(TagsOf(ListTags(id, order, roles), P)) == Entries(order, EntryRoles(roles))
  {
    assert ListTags(id, order, roles)[1..] == KeyTags(order, roles);
    KeyTagsArePTags(order, roles);
    ParsedKeyTags(order, roles);
  }

  /** Loading a list of distinct keys gives each of them the list's roles on top
      of what it had. */
  lemma {:induction false} LoadingMeans(m: Members, kind: nat, order: seq<PublicKey>, roles: set<Role>, k: PublicKey)
    requires kind == MEMBERS_39002 ==> roles == {Member}
    ensures var x := LoadEntries(m, kind, Entries(order, roles));
      && (k in x <==> k in m || k in order)
      && (k in x ==> x[k] == (if k in m then m[k] else {}) + (if k in order then roles else {}))
  {
    if order != [] {
      var n := |order| - 1;
      LoadingMeans(m, kind, order[..n], roles, k);
      assert Entries(order, roles)[..n] == Entries(order[..n], roles);
      assert k in order <==> k in order[..n] || k == order[n];
    }
  }

  // ----- Rebuilding a group from its three state events ----------------------

  /** A group as the first event about it creates it. */
  function FromEvent(u: UnsignedEvent, scope: Scope): GroupState {
    var id := match FirstGroupTag(u.tags) case Some(i) => i case None => "";
    GroupState(id, scope,
               if FirstGroupTag(u.tags).Some? then Metadata.ApplyTags(Metadata.FreshMeta(id), u.tags)
               else Metadata.FreshMeta(id),
               map[], {}, map[])
  }

  /** The content of the first `h` or `d` tag, whichever comes first. */
  function FirstGroupTag(tags: seq<Tag>): Option<string> {
    if tags == [] then None
    else if tags[0].kind in {H, D} then tags[0].Content()
    else FirstGroupTag(tags[1..])
  }

  function LoadOne(g: GroupState, u: UnsignedEvent): GroupState {
    if u.kind == METADATA_39000 then g.(meta := Metadata.ApplyTags(g.meta, u.tags))
    else if u.kind == ADMINS_39001 || u.kind == MEMBERS_39002 then g.(members := LoadMembers(g.members, u))
    else g
  }

  /** Fold the stored state events of one group, in the order the query gave them. */
  function LoadAll(g: GroupState, us: seq<UnsignedEvent>): GroupState {
    if us == [] then g else LoadOne(LoadAll(g, us[..|us| - 1]), us[|us| - 1])
  }

  function LoadState(us: seq<UnsignedEvent>, scope: Scope): GroupState
    requires us != []
  {
    LoadAll(FromEvent(us[0], scope), us)
  }

  /** The membership the two lists stand for. */
  function ListedMembers(admins: set<PublicKey>, keys: set<PublicKey>): Members {
    map k | k in keys + admins :: (if k in admins then {Admin} else {}) + (if k in keys then {Member} else {})
  }

  lemma LoadAdminList(m: Members, u: UnsignedEvent, id: string, admins: set<PublicKey>, k: PublicKey)
    requires IsAdminList(u, id, admins)
    ensures var x := LoadMembers(m, u);
      && (k in x <==> k in m || k in admins)
      && (k in x ==> x[k] == (if k in m then m[k] else {}) + (if k in admins then {Admin} else {}))
  {
    var order :| IsOrderOf(order, admins) && u.tags == ListTags(id, order, ADMIN_ROLES);
    ParsedList(id, order, ADMIN_ROLES);
    AdminSpelling();
    LoadingMeans(m, u.kind, order, {Admin}, k);
  }

  lemma LoadMemberList(m: Members, u: UnsignedEvent, id: string, keys: set<PublicKey>, k: PublicKey)
    requires IsMemberList(u, id, keys)
    ensures var x := LoadMembers(m, u);
      && (k in x <==> k in m || k in keys)
      && (k in x ==> x[k] == (if k in m then m[k] else {}) + (if k in keys then {Member} else {}))
  {
    var order :| IsOrderOf(order, keys) && u.tags == ListTags(id, order, MEMBER_ROLES);
    ParsedList(id, order, MEMBER_ROLES);
    LoadingMeans(m, u.kind, order, {Member}, k);
  }

  /** Reading the two lists back, in either order, rebuilds exactly the membership
      they stand for. */
  lemma ListsRebuildMembers(a: UnsignedEvent, b: UnsignedEvent, id: string, admins: set<PublicKey>, keys: set<PublicKey>)
    requires IsAdminList(a, id, admins) && IsMemberList(b, id, keys)
    ensures LoadMembers(LoadMembers(map[], a), b) == ListedMembers(admins, keys)
    ensures LoadMembers(LoadMembers(map[], b), a) == ListedMembers(admins, keys)
    ensures ListedMembers(admins, keys).Keys == keys + admins && AdminsOf(ListedMembers(admins, keys)) == admins
  {
    hide LoadMembers, IsAdminList, IsMemberList;
    var ab, ba := LoadMembers(LoadMembers(map[], a), b), LoadMembers(LoadMembers(map[], b), a);
    forall k ensures k in ab <==> k in keys + admins ensures k in ba <==> k in keys + admins
      ensures k in keys + admins ==> ab[k] == ba[k] == ListedMembers(admins, keys)[k]
    {
      LoadAdminList(map[], a, id, admins, k);
      LoadMemberList(LoadMembers(map[], a), b, id, keys, k);
      LoadMemberList(map[], b, id, keys, k);
      LoadAdminList(LoadMembers(map[], b), a, id, admins, k);
    }
  }

  /** A membership list that is the first event seen leaves the metadata fresh,
      apart from one stray `p` tag kept among the unknown ones. */
  lemma {:induction false} ListsLeaveFieldsAlone(id: string, order: seq<PublicKey>, roles: seq<string>)
    ensures var e := Metadata.EditOf(ListTags(id, order, roles));
      && e.texts == Metadata.NO_EDIT.texts && e.access == Metadata.NO_EDIT.access
      && e.found.Keys <= {P}
    decreases |order|
  {
    var tags := ListTags(id, order, roles);
    if order == [] {
      assert tags == [Tag(D, [id])];
      Metadata.EditOne(Metadata.NO_EDIT, Tag(D, [id]));
    } else {
      var n := |order| - 1;
      ListsLeaveFieldsAlone(id, order[..n], roles);
      assert tags[..|tags| - 1] == ListTags(id, order[..n], roles);
      assert tags[|tags| - 1] == KeyTag(order[n], roles);
    }
  }

  /** What the metadata is before the 39000 event is folded in. */
  lemma FromEventIsFresh(u: UnsignedEvent, scope: Scope, id: string, s: set<PublicKey>)
    requires IsAdminList(u, id, s) || IsMemberList(u, id, s)
    ensures var g := FromEvent(u, scope);
      g.id == id && Metadata.IsFresh(g.meta) && g.meta.unknown.Keys <= {P}
  {
    var roles := if u.kind == ADMINS_39001 then ADMIN_ROLES else MEMBER_ROLES;
    var order :| IsOrderOf(order, s) && u.tags == ListTags(id, order, roles);
    ListsLeaveFieldsAlone(id, order, roles);
    assert u.tags[0] == Tag(D, [id]);
  }

  lemma MetadataNamesItsGroup(u: UnsignedEvent, scope: Scope, id: string, m: Metadata.Meta, url: string)
    requires IsMetadata(u, id, m, url)
    ensures FirstGroupTag(u.tags) == Some(id)
  {
    var v :| Metadata.Enumerates(v, m.unknown) && u.tags == Metadata.MetadataTags(id, m.fields, v, url);
    assert u.tags[0] == Tag(D, [id]);
  }
}
