/** One NIP-29 group as a value, and what each signed event does to it.  The
    class `Group` does the same in place; the laws are proved about these
    functions. */
module GroupModel {
  import opened Nostr
  import opened Text
  import Metadata

  // ----- Roles and members -------------------------------------------------

  datatype Role = Admin | Member | Custom(name: string)

  function ParseRole(s: string): Role {
    match Lower(Trim(s))
    case "" => Member
    case "admin" => Admin
    case "member" => Member
    case other => Custom(other)
  }

  type Members = map<PublicKey, set<Role>>

  function AdminsOf(m: Members): set<PublicKey> {
    set k | k in m && Admin in m[k]
  }

  /** A key named by a `p` tag, with the roles the tag gives it. */
  datatype Named = Named(key: PublicKey, roles: set<Role>)

  function RolesIn(values: seq<string>): set<Role> {
    set i | 0 <= i < |values| :: ParseRole(values[i])
  }

  function ParseMember(t: Tag): Option<Named> {
    if t.values == [] then None
    else match ParseKey(t.values[0])
      case None => None
      case Some(k) => Some(Named(k, if |t.values| == 1 then {Member} else RolesIn(t.values[1..])))
  }

  /** The well-formed ones among some tags; the malformed are skipped. */
  function ParsedMembers(tags: seq<Tag>): seq<Named> {
    if tags == [] then []
    else
      var rest := ParsedMembers(tags[..|tags| - 1]);
      match ParseMember(tags[|tags| - 1])
      case None => rest
      case Some(n) => rest + [n]
  }

  function KeysOf(names: seq<Named>): set<PublicKey> {
    set i | 0 <= i < |names| :: names[i].key
  }

  // ----- Invites -----------------------------------------------------------

  const MIN_INVITE_CODE_LEN := 16
  const DEFAULT_INVITE_TTL_SECS: nat := 60 * 60 * 24 * 30
  const DEFAULT_INVITE_MAX_USES: U32 := 100
  const INVITE_LIMITS_SINCE: U64 := 1_789_776_000

  datatype Invite = Invite(
    eventId: EventId,
    roles: set<Role>,
    reusable: bool,
    redeemedBy: Option<(PublicKey, U64)>,
    expiresAt: Option<U64>,
    uses: U32,
    maxUses: Option<U32>)
  {
    predicate IsExpired(now: U64) {
      expiresAt.Some? && now > expiresAt.value
    }

    predicate CanUseAt(now: U64) {
      !IsExpired(now) && (maxUses.Some? ==> uses < maxUses.value) && (reusable || redeemedBy.None?)
    }

    /** Saturating, as the counter is a 32-bit word. */
    function MarkUsed(key: PublicKey, at: U64): Invite {
      this.(uses := if uses < U32_MAX then uses + 1 else U32_MAX,
            redeemedBy := if reusable then redeemedBy else Some((key, at)))
    }
  }

  function CodeOf(e: Event): Option<string> {
    FindContent(e.tags, Code)
  }

  function ExpiryOf(e: Event, withDefaults: bool): Option<U64> {
    var explicit := match FindContent(e.tags, Expiration)
      case None => None
      case Some(v) => ParseUnsigned(v, U64_SIZE - 1);
    if explicit.Some? then Some(explicit.value)
    else if withDefaults then Some((e.createdAt + DEFAULT_INVITE_TTL_SECS) % U64_SIZE)
    else None
  }

  function MaxUsesOf(e: Event, withDefaults: bool): Option<U32> {
    var explicit := match FindContent(e.tags, MaxUses)
      case None => None
      case Some(v) => ParseUnsigned(v, U32_MAX);
    if explicit.Some? && explicit.value > 0 then Some(explicit.value)
    else if withDefaults then Some(DEFAULT_INVITE_MAX_USES)
    else None
  }

  /** The unused invite a 9009 event describes. */
  function InviteOf(e: Event, roles: set<Role>, withDefaults: bool): Invite {
    var reusable := HasTag(e.tags, Reusable);
    Invite(e.id, roles, reusable, None, ExpiryOf(e, withDefaults), 0,
           if reusable then MaxUsesOf(e, withDefaults) else None)
  }

  // ----- The group ---------------------------------------------------------

  datatype Scope = DefaultScope | NamedScope(name: string)

  datatype GroupState = GroupState(
    id: string,
    scope: Scope,
    meta: Metadata.Meta,
    members: Members,
    joinRequests: set<PublicKey>,
    invites: map<string, Invite>)
  {
    predicate IsAdmin(k: PublicKey) {
      k in members && Admin in members[k]
    }
  }

  datatype Config = Config(relay: PublicKey, relayUrl: string, forcePublic: bool)

  datatype Error =
    | NotFound | AlreadyExists | WasDeleted | OnlyRelayMayMigrate | NotAdmitted
    | NotAMember | NotAuthorized | MalformedMember | LastAdmin | NoAdmin
    | AlreadyMember | BroadcastOnly | RestrictedGroup
    | NoCode | DuplicateCode | ShortCode | NoEventIds

  /** Events the relay signs itself, before they are spelt out as tags.  One
      `PutUsers` stands for one kind 9000 event per member. */
  datatype Emission =
    | PutUsers(group: string, members: Members)
    | AdminList(group: string, admins: set<PublicKey>)
    | MemberList(group: string, keys: set<PublicKey>)
    | MetadataEvent(group: string, meta: Metadata.Meta, url: string)
    | RoleList(group: string)

  /** Which stored events a deletion reaches. */
  datatype Filter = Filter(ids: Option<set<EventId>>, h: Option<string>, d: Option<string>)

  datatype Command =
    | SaveSigned(event: Event, scope: Scope)
    | Generate(emission: Emission, scope: Scope)
    | Delete(filter: Filter, scope: Scope)

  datatype Result = Accepted(cmds: seq<Command>) | Refused(error: Error)

  /** The group as an event leaves it, refused or not, and the answer. */
  datatype Outcome = Outcome(g: GroupState, result: Result)

  function AdminListOf(g: GroupState): Command {
    Generate(AdminList(g.id, AdminsOf(g.members)), g.scope)
  }

  function MemberListOf(g: GroupState): Command {
    Generate(MemberList(g.id, g.members.Keys), g.scope)
  }

  /** Answer with `before`, an admin list and `after`; printing an admin list
      fails when there is no admin, whatever has already happened to `g`. */
  function WithAdminList(g: GroupState, before: seq<Command>, after: seq<Command>): Outcome {
    if AdminsOf(g.members) == {} then Outcome(g, Refused(NoAdmin))
    else Outcome(g, Accepted(before + [AdminListOf(g)] + after))
  }

  function WithMembership(g: GroupState, e: Event): Outcome {
    WithAdminList(g, [SaveSigned(e, g.scope), Generate(PutUsers(g.id, g.members), g.scope)], [MemberListOf(g)])
  }

  // ----- 9000 --------------------------------------------------------------

  function AddNamed(m: Members, names: seq<Named>): Option<Members> {
    if names == [] then Some(m)
    else
      var n := names[|names| - 1];
      match AddNamed(m, names[..|names| - 1])
      case None => None
      case Some(x) =>
        if n.key in x && |AdminsOf(x)| == 1 && Admin in x[n.key] && Admin !in n.roles then None
        else Some(x[n.key := n.roles])
  }

  datatype Added = Added(members: Members, joinRequests: set<PublicKey>) | NotAdded(error: Error)

  function AddMembers(m: Members, j: set<PublicKey>, names: seq<Named>): Added {
    match AddNamed(m, names)
    case None => NotAdded(LastAdmin)
    case Some(x) => if AdminsOf(x) == {} then NotAdded(NoAdmin) else Added(x, j - KeysOf(names))
  }

  predicate CanEdit(g: GroupState, k: PublicKey, relay: PublicKey) {
    k == relay || g.IsAdmin(k)
  }

  function PutUser(g: GroupState, e: Event, cfg: Config): Outcome {
    if !CanEdit(g, e.pubkey, cfg.relay) then Outcome(g, Refused(NotAuthorized))
    else
      match AddMembers(g.members, g.joinRequests, ParsedMembers(TagsOf(e.tags, P)))
      case NotAdded(err) => Outcome(g, Refused(err))
      case Added(m, j) =>
        var g' := g.(members := m, joinRequests := j);
        WithAdminList(g', [SaveSigned(e, g.scope)], [MemberListOf(g')])
  }

  // ----- 9001 --------------------------------------------------------------

  datatype Removal =
    | Removing(members: Members, joinRequests: set<PublicKey>, removedAdmins: bool)
    | Stopped(error: Error)

  /** Walk the `p` tags; `admins` is the admin set before the walk began. */
  function RemoveNamed(admins: set<PublicKey>, start: Removal, tags: seq<Tag>): Removal {
    if tags == [] then start
    else
      match RemoveNamed(admins, start, tags[..|tags| - 1])
      case Stopped(err) => Stopped(err)
      case Removing(m, j, removed) =>
        match ParseMember(tags[|tags| - 1])
        case None => Stopped(MalformedMember)
        case Some(n) =>
          if |admins| == 1 && n.key in admins then Stopped(LastAdmin)
          else if n.key !in m then Removing(m, j, removed)
          else Removing(m - {n.key}, j - {n.key}, removed || Admin in m[n.key])
  }

  function RemoveUser(g: GroupState, e: Event, cfg: Config): Outcome {
    if !CanEdit(g, e.pubkey, cfg.relay) then Outcome(g, Refused(NotAuthorized))
    else
      match RemoveNamed(AdminsOf(g.members), Removing(g.members, g.joinRequests, false), TagsOf(e.tags, P))
      case Stopped(err) => Outcome(g, Refused(err))
      case Removing(m, j, removedAdmins) =>
        if AdminsOf(m) == {} then Outcome(g, Refused(NoAdmin))
        else
          var g' := g.(members := m, joinRequests := j);
          if removedAdmins then WithAdminList(g', [SaveSigned(e, g.scope)], [MemberListOf(g')])
          else Outcome(g', Accepted([SaveSigned(e, g.scope), MemberListOf(g')]))
  }

  // ----- 9002 --------------------------------------------------------------

  function ForcePublic(m: Metadata.Meta, force: bool): Metadata.Meta {
    if force then m.(fields := m.fields.(isPrivate := false, hidden := false)) else m
  }

  function EditMetadata(g: GroupState, e: Event, cfg: Config): Outcome {
    if !CanEdit(g, e.pubkey, cfg.relay) then Outcome(g, Refused(NotAuthorized))
    else
      var meta := ForcePublic(Metadata.ApplyTags(g.meta, e.tags), cfg.forcePublic);
      Outcome(g.(meta := meta),
              Accepted([SaveSigned(e, g.scope), Generate(MetadataEvent(g.id, meta, cfg.relayUrl), g.scope),
                        Generate(RoleList(g.id), g.scope)]))
  }

  // ----- 9005 --------------------------------------------------------------

  function WithoutInvites(invites: map<string, Invite>, ids: set<EventId>): map<string, Invite> {
    map c | c in invites && invites[c].eventId !in ids :: invites[c]
  }

  function DeleteEvent(g: GroupState, e: Event, cfg: Config): Outcome {
    var ids := EventIds(e.tags);
    if ids == {} then Outcome(g, Refused(NoEventIds))
    else if !CanEdit(g, e.pubkey, cfg.relay) then Outcome(g, Refused(NotAuthorized))
    else
      Outcome(g.(invites := WithoutInvites(g.invites, ids)),
              Accepted([Delete(Filter(Some(ids), Some(g.id), None), g.scope), SaveSigned(e, g.scope)]))
  }

  // ----- 9006 --------------------------------------------------------------

  function CheckRoles(admins: set<PublicKey>, tags: seq<Tag>): Option<Error> {
    if tags == [] then None
    else
      var before := CheckRoles(admins, tags[..|tags| - 1]);
      if before.Some? then before
      else match ParseMember(tags[|tags| - 1])
        case None => Some(MalformedMember)
        case Some(n) =>
          if |admins| == 1 && n.key in admins && Admin !in n.roles then Some(LastAdmin) else None
  }

  function AssignRoles(m: Members, tags: seq<Tag>): Members {
    if tags == [] then m
    else
      var x := AssignRoles(m, tags[..|tags| - 1]);
      match ParseMember(tags[|tags| - 1])
      case None => x
      case Some(n) => if n.key in x then x[n.key := n.roles] else x
  }

  function SetRoles(g: GroupState, e: Event, cfg: Config): Outcome {
    if !CanEdit(g, e.pubkey, cfg.relay) then Outcome(g, Refused(NotAuthorized))
    else
      var tags := TagsOf(e.tags, P);
      match CheckRoles(AdminsOf(g.members), tags)
      case Some(err) => Outcome(g, Refused(err))
      case None =>
        var g' := g.(members := AssignRoles(g.members, tags));
        if AdminsOf(g'.members) == {} then Outcome(g, Refused(NoAdmin))
        else
          Outcome(g', Accepted([SaveSigned(e, g.scope), Generate(RoleList(g.id), g.scope), MemberListOf(g')]))
  }

  // ----- 9009 --------------------------------------------------------------

  function CreateInvite(g: GroupState, e: Event, cfg: Config): Outcome {
    if !CanEdit(g, e.pubkey, cfg.relay) then Outcome(g, Refused(NotAuthorized))
    else match CodeOf(e)
      case None => Outcome(g, Refused(NoCode))
      case Some(code) =>
        if code in g.invites then Outcome(g, Refused(DuplicateCode))
        else if |code| < MIN_INVITE_CODE_LEN then Outcome(g, Refused(ShortCode))
        else
          Outcome(g.(invites := g.invites[code := InviteOf(e, {Member}, true)]),
                  Accepted([SaveSigned(e, g.scope)]))
  }

  // ----- 9021, 9022, content ----------------------------------------------

  function Admit(g: GroupState, k: PublicKey, roles: set<Role>): GroupState {
    g.(members := g.members[k := roles], joinRequests := g.joinRequests - {k})
  }

  function JoinRequest(g: GroupState, e: Event, now: U64): Outcome {
    if e.pubkey in g.members then Outcome(g, Refused(AlreadyMember))
    else if !g.meta.fields.closed then WithMembership(Admit(g, e.pubkey, {Member}), e)
    else
      var code := CodeOf(e);
      if code.Some? && code.value in g.invites && g.invites[code.value].CanUseAt(now) then
        var invite := g.invites[code.value];
        var used := g.invites[code.value := invite.MarkUsed(e.pubkey, e.createdAt)];
        WithMembership(Admit(g.(invites := used), e.pubkey, invite.roles), e)
      else
        Outcome(g.(joinRequests := g.joinRequests + {e.pubkey}), Accepted([SaveSigned(e, g.scope)]))
  }

  function LeaveRequest(g: GroupState, e: Event): Outcome {
    var g0 := g.(joinRequests := g.joinRequests - {e.pubkey});
    var wasAdmin := g.IsAdmin(e.pubkey);
    if wasAdmin && |AdminsOf(g.members)| == 1 then Outcome(g0, Refused(LastAdmin))
    else if e.pubkey !in g.members then Outcome(g0, Accepted([]))
    else
      var g' := g0.(members := g.members - {e.pubkey});
      if wasAdmin then WithAdminList(g', [SaveSigned(e, g.scope)], [MemberListOf(g')])
      else Outcome(g', Accepted([SaveSigned(e, g.scope), MemberListOf(g')]))
  }

  function Content(g: GroupState, e: Event): Outcome {
    if g.meta.fields.broadcast && !g.IsAdmin(e.pubkey) && e.kind != JOIN_9021 && e.kind != LEAVE_9022 then
      Outcome(g, Refused(BroadcastOnly))
    else if g.meta.fields.restricted && e.pubkey !in g.members then Outcome(g, Refused(RestrictedGroup))
    else if !g.meta.fields.closed && e.pubkey !in g.members then
      match AddMembers(g.members, g.joinRequests, [Named(e.pubkey, {Member})])
      case NotAdded(err) => Outcome(g, Refused(err))
      case Added(m, j) => WithMembership(g.(members := m, joinRequests := j), e)
    else Outcome(g, Accepted([SaveSigned(e, g.scope)]))
  }

  // ----- One event, one group ----------------------------------------------

  /** Non-members of a closed group may only ask to join or leave. */
  predicate HasAccess(g: GroupState, e: Event, relay: PublicKey) {
    e.pubkey == relay || e.kind == LEAVE_9022 || e.kind == JOIN_9021 ||
    !g.meta.fields.closed || e.pubkey in g.members
  }

  function Handle(g: GroupState, e: Event, now: U64, cfg: Config): Outcome {
    if !HasAccess(g, e, cfg.relay) then Outcome(g, Refused(NotAMember))
    else if e.kind == ADD_USER_9000 then PutUser(g, e, cfg)
    else if e.kind == REMOVE_USER_9001 then RemoveUser(g, e, cfg)
    else if e.kind == EDIT_METADATA_9002 then EditMetadata(g, e, cfg)
    else if e.kind == DELETE_EVENT_9005 then DeleteEvent(g, e, cfg)
    else if e.kind == SET_ROLES_9006 then SetRoles(g, e, cfg)
    else if e.kind == CREATE_INVITE_9009 then CreateInvite(g, e, cfg)
    else if e.kind == JOIN_9021 then JoinRequest(g, e, now)
    else if e.kind == LEAVE_9022 then LeaveRequest(g, e)
    else Content(g, e)
  }
}
