/** One managed group together with what the store holds about it: the newest state
    events the relay signed, and the events of others that concern it.  Runs mix
    client events, changes to the store made elsewhere, and restarts, and a restart
    rebuilds the group from the store. */
module World {
  import opened Nostr
  import opened GroupModel
  import opened GroupLaws
  import opened Printing
  import opened Sorting
  import Startup
  import Metadata

  /** What the newest 39000, 39001 and 39002 the relay signed under a name say, as far as
      they are still stored. */
  datatype Published = Published(meta: Option<Metadata.Meta>, admins: Option<set<PublicKey>>, keys: Option<set<PublicKey>>)

  function Listed(keys: Option<set<PublicKey>>): set<PublicKey> {
    match keys
    case None => {}
    case Some(ks) => ks
  }

  /** `name` is what the group is filed under; its own id differs only in a group that
      has been made or read back under another. */
  datatype World = World(name: string, g: GroupState, pub: Published, hist: set<Event>)

  // ----- The store -------------------------------------------------------------

  predicate CarriesH(e: Event, id: string) {
    exists t :: t in e.tags && t.kind == H && t.Content() == Some(id)
  }

  predicate CarriesD(e: Event, id: string) {
    exists t :: t in e.tags && t.kind == D && t.Content() == Some(id)
  }

  /** Stored events about a name: by an `h` tag, or as an addressable event's `d`. */
  predicate Concerns(e: Event, name: string) {
    CarriesH(e, name) || GroupIdOf(e) == Some(name)
  }

  /** A state event about the name that the relay did not sign.  Startup reads it all
      the same. */
  predicate IsClaim(e: Event, name: string) {
    e.kind in {METADATA_39000, ADMINS_39001, MEMBERS_39002} && GroupIdOf(e) == Some(name)
  }

  function Unsigned(e: Event): UnsignedEvent {
    UnsignedEvent(e.kind, e.tags)
  }

  predicate Matches(f: Filter, e: Event) {
    && (f.ids.Some? ==> e.id in f.ids.value)
    && (f.h.Some? ==> CarriesH(e, f.h.value))
    && (f.d.Some? ==> CarriesD(e, f.d.value))
  }

  /** The store keeps one copy of an event however often it is saved. */
  function Store(hist: set<Event>, c: Command): set<Event> {
    match c
    case SaveSigned(e, _) => hist + {e}
    case Delete(f, _) => set e | e in hist && !Matches(f, e)
    case Generate(_, _) => hist
  }

  function StoreAll(hist: set<Event>, cmds: seq<Command>): set<Event> {
    if cmds == [] then hist else Store(StoreAll(hist, cmds[..|cmds| - 1]), cmds[|cmds| - 1])
  }

  function Publish(p: Published, c: Command): Published {
    match c
    case Generate(AdminList(_, admins), _) => p.(admins := Some(admins))
    case Generate(MemberList(_, keys), _) => p.(keys := Some(keys))
    case Generate(MetadataEvent(_, meta, _), _) => p.(meta := Some(meta))
    case _ => p
  }

  function PublishAll(p: Published, cmds: seq<Command>): Published {
    if cmds == [] then p else Publish(PublishAll(p, cmds[..|cmds| - 1]), cmds[|cmds| - 1])
  }

  // ----- Replay ------------------------------------------------------------------

  function LoadJoin(g: GroupState, e: Event): GroupState {
    var code := CodeOf(e);
    var g' := if code.Some? && code.value in g.invites then
        g.(invites := g.invites[code.value := g.invites[code.value].MarkUsed(e.pubkey, e.createdAt)])
      else g;
    if e.pubkey in g.members then g' else g'.(joinRequests := g'.joinRequests + {e.pubkey})
  }

  function RolesNamed(tags: seq<Tag>): set<Role> {
    set t | t in TagsOf(tags, RoleName) && t.values != [] :: ParseRole(t.values[0])
  }

  function LoadInvite(g: GroupState, e: Event): GroupState {
    match CodeOf(e)
    case None => g
    case Some(code) =>
      g.(invites := g.invites[code := InviteOf(e, RolesNamed(e.tags), e.createdAt >= INVITE_LIMITS_SINCE)])
  }

  function LoadHistoric(g: GroupState, e: Event): GroupState {
    if e.kind == JOIN_9021 then LoadJoin(g, e)
    else if e.kind == CREATE_INVITE_9009 then LoadInvite(g, e)
    else g
  }

  function Replay(g: GroupState, order: seq<Event>): GroupState {
    if order == [] then g else LoadHistoric(Replay(g, order[..|order| - 1]), order[|order| - 1])
  }

  predicate IsHistoric(e: Event) {
    e.kind in {CREATE_9007, JOIN_9021, CREATE_INVITE_9009}
  }

  /** `order` lists the stored 9007s, 9009s and 9021s, each once, invites first. */
  ghost predicate IsReplayOrder(order: seq<Event>, hist: set<Event>) {
    && (forall i, j :: 0 <= i < j < |order| ==> order[i] != order[j])
    && (forall e :: e in order <==> e in hist && IsHistoric(e))
    && (forall i, j :: 0 <= i < j < |order| && order[j].kind == CREATE_INVITE_9009 ==>
          order[i].kind == CREATE_INVITE_9009)
  }

  /** The order startup sorts history into: invites first, then by time. */
  predicate ReplayLe(a: Event, b: Event) {
    var x, y := a.kind != CREATE_INVITE_9009, b.kind != CREATE_INVITE_9009;
    if x == y then a.createdAt <= b.createdAt else y
  }

  /** Invites among themselves, and the others among themselves, are oldest first. */
  predicate IsByTime(order: seq<Event>) {
    forall i, j :: 0 <= i < j < |order| && (order[i].kind == 9009 <==> order[j].kind == 9009) ==>
      order[i].createdAt <= order[j].createdAt
  }

  /** However the query returns the history, sorting it gives a replay order, by time. */
  lemma SortingGivesReplayOrder(found: seq<Event>, hist: set<Event>)
    requires IsDistinct(found) && forall e :: e in found <==> e in hist && IsHistoric(e)
    ensures IsReplayOrder(Sort(ReplayLe, found), hist)
    ensures IsByTime(Sort(ReplayLe, found))
  {
    SortDistinct(ReplayLe, found);
    SortSorted(ReplayLe, found);
  }

  // ----- Steps ---------------------------------------------------------------------

  /** `Elsewhere` is what the store gains and loses by events that other groups answer,
      or none, and what is published under this name afterwards: another group may
      print or delete there too. */
  datatype Input =
    | Signed(e: Event, now: U64)
    | Elsewhere(stored: set<Event>, gone: set<Event>, pub: Published)
    | Restart(us: seq<UnsignedEvent>, claims: set<UnsignedEvent>, order: seq<Event>)

  function Rebuild(us: seq<UnsignedEvent>, order: seq<Event>, scope: Scope, cfg: Config): GroupState
    requires us != []
  {
    var g := Replay(LoadState(us, scope), order);
    g.(meta := ForcePublic(g.meta, cfg.forcePublic))
  }

  /** A group prints under its own id. */
  function Step(w: World, i: Input, cfg: Config): World
    requires i.Restart? ==> i.us != []
  {
    match i
    case Signed(e, now) =>
      var o := Handle(w.g, e, now, cfg);
      (match o.result
       case Refused(_) => w.(g := o.g)
       case Accepted(cmds) =>
         World(w.name, o.g, if w.g.id == w.name then PublishAll(w.pub, cmds) else w.pub, StoreAll(w.hist, cmds)))
    case Elsewhere(stored, gone, pub) => w.(hist := w.hist - gone + stored, pub := pub)
    case Restart(us, _, order) => w.(g := Rebuild(us, order, w.g.scope, cfg))
  }

  /** The event names this group, and is one the group itself answers. */
  predicate IsAbout(e: Event, name: string) {
    && GroupIdOf(e) == Some(name) && e.kind != CREATE_9007 && e.kind != DELETE_GROUP_9008
    && (IsGroupRequest(e.kind) || (e.kind !in NON_GROUP_KINDS && HasTag(e.tags, H)))
  }

  /** What is published, spelt out: `a` the 39001, `b` the 39002, `c` the 39000, each if
      there is one. */
  ghost predicate ArePublished(w: World, a: UnsignedEvent, b: UnsignedEvent, c: UnsignedEvent, cfg: Config) {
    && (w.pub.admins.Some? ==> IsAdminList(a, w.name, w.pub.admins.value))
    && (w.pub.keys.Some? ==> IsMemberList(b, w.name, w.pub.keys.value))
    && (w.pub.meta.Some? ==> IsMetadata(c, w.name, w.pub.meta.value, cfg.relayUrl) && Metadata.Valid(w.pub.meta.value))
  }

  function OwnEvents(p: Published, a: UnsignedEvent, b: UnsignedEvent, c: UnsignedEvent): set<UnsignedEvent> {
    (if p.admins.Some? then {a} else {}) + (if p.keys.Some? then {b} else {}) + (if p.meta.Some? then {c} else {})
  }

  /** The claims are among those stored: newer ones of the same sender replace older. */
  predicate AreStoredClaims(w: World, claims: set<UnsignedEvent>) {
    forall u :: u in claims ==> exists e :: e in w.hist && IsClaim(e, w.name) && Unsigned(e) == u
  }

  /** Startup reads, in any order, some spelling of what is published and the claims of
      others. */
  ghost predicate IsReading(w: World, us: seq<UnsignedEvent>, claims: set<UnsignedEvent>, cfg: Config) {
    && AreStoredClaims(w, claims)
    && (exists a, b, c :: ArePublished(w, a, b, c, cfg) && Elements(us) == OwnEvents(w.pub, a, b, c) + claims)
  }

  /** And then the history. */
  ghost predicate IsRestart(w: World, us: seq<UnsignedEvent>, claims: set<UnsignedEvent>, order: seq<Event>, cfg: Config) {
    IsReplayOrder(order, w.hist) && IsReading(w, us, claims, cfg)
  }

  /** Somebody is admin after a restart on these claims. */
  predicate LeavesAdmin(w: World, claims: set<UnsignedEvent>) {
    Listed(w.pub.admins) + Startup.ClaimedAdmins(claims) != {}
  }

  /** Every restart of the run leaves somebody admin. */
  predicate RestartsLeaveAdmins(ws: seq<World>, inputs: seq<Input>)
    requires |ws| == |inputs| + 1
  {
    forall n :: 0 <= n < |inputs| && inputs[n].Restart? ==> LeavesAdmin(ws[n], inputs[n].claims)
  }

  /** Nobody else prints or deletes anything under this name. */
  predicate IsUndisturbed(ws: seq<World>, inputs: seq<Input>)
    requires |ws| == |inputs| + 1
  {
    forall n :: 0 <= n < |inputs| && inputs[n].Elsewhere? ==> inputs[n].pub == ws[n].pub
  }

  /** A 9021 that the store already holds is not sent again, and no stored 9021 or
      9009 is deleted behind the group's back: what replay cannot make up for. */
  predicate KeepsJoins(w: World, i: Input) {
    match i
    case Signed(e, _) =>
      && (e.kind == JOIN_9021 ==> e !in w.hist)
      && (e.kind == DELETE_EVENT_9005 ==> forall f :: f in w.hist && f.kind == JOIN_9021 ==> f.id !in EventIds(e.tags))
    case Elsewhere(stored, gone, _) => forall e :: e in stored + gone ==> e.kind !in {JOIN_9021, CREATE_INVITE_9009}
    case Restart(us, _, _) => us != [] && FirstGroupTag(us[0].tags) == Some(w.name)
  }

  predicate KeepsAllJoins(ws: seq<World>, inputs: seq<Input>)
    requires |ws| == |inputs| + 1
  {
    forall n :: 0 <= n < |inputs| ==> KeepsJoins(ws[n], inputs[n])
  }

  ghost predicate MayStep(w: World, i: Input, cfg: Config) {
    match i
    case Signed(e, _) => IsAbout(e, w.name)
    case Elsewhere(stored, _, _) => forall e :: e in stored ==> Concerns(e, w.name)
    case Restart(us, claims, order) => us != [] && IsRestart(w, us, claims, order, cfg)
  }

  /** `ws` is a run over `inputs`. */
  ghost predicate IsRun(ws: seq<World>, inputs: seq<Input>, cfg: Config) {
    && |ws| == |inputs| + 1
    && forall n :: 0 <= n < |inputs| ==>
         MayStep(ws[n], inputs[n], cfg) && ws[n + 1] == Step(ws[n], inputs[n], cfg)
  }

  predicate SetsRoles(i: Input) {
    i.Signed? && i.e.kind == SET_ROLES_9006
  }

  /** A run without its last step. */
  lemma RunShortens(ws: seq<World>, inputs: seq<Input>, cfg: Config)
    requires IsRun(ws, inputs, cfg) && inputs != []
    ensures var n := |inputs| - 1;
      && |ws| == n + 2 && ws[..n + 1][0] == ws[0] && IsRun(ws[..n + 1], inputs[..n], cfg)
      && MayStep(ws[n], inputs[n], cfg) && ws[n + 1] == Step(ws[n], inputs[n], cfg)
      && (IsUndisturbed(ws, inputs) ==>
            IsUndisturbed(ws[..n + 1], inputs[..n]) && (inputs[n].Elsewhere? ==> inputs[n].pub == ws[n].pub))
      && (RestartsLeaveAdmins(ws, inputs) ==>
            RestartsLeaveAdmins(ws[..n + 1], inputs[..n]) && (inputs[n].Restart? ==> LeavesAdmin(ws[n], inputs[n].claims)))
      && (KeepsAllJoins(ws, inputs) ==> KeepsAllJoins(ws[..n + 1], inputs[..n]) && KeepsJoins(ws[n], inputs[n]))
  {
    hide MayStep, Step, LeavesAdmin, KeepsJoins;
  }

  // ----- The start -------------------------------------------------------------------

  function CreatedMembers(creator: PublicKey, participants: set<PublicKey>): Members {
    map k | k in {creator} + participants :: if k == creator then {Admin} else {Member}
  }

  /** The group a 9007 makes, with everybody who already wrote in it as members. */
  function CreatedGroup(e: Event, id: string, scope: Scope, participants: set<PublicKey>, cfg: Config): GroupState {
    GroupState(id, scope, ForcePublic(Metadata.ApplyTags(Metadata.FreshMeta(id), e.tags), cfg.forcePublic),
               CreatedMembers(e.pubkey, participants), {}, map[])
  }

  function Snapshot(g: GroupState): Published {
    Published(Some(g.meta), Some(AdminsOf(g.members)), Some(g.members.Keys))
  }

  /** Just after creation everything is published under the group's name, and what was
      stored before the group was managed holds neither invites nor join requests. */
  ghost predicate IsStart(w: World, cfg: Config) {
    && w.name == w.g.id && w.name != ""
    && (exists e, participants :: w.g == CreatedGroup(e, w.g.id, w.g.scope, participants, cfg))
    && w.pub == Snapshot(w.g)
    && (forall e :: e in w.hist ==> Concerns(e, w.name) && e.kind !in {JOIN_9021, CREATE_INVITE_9009})
  }
}
