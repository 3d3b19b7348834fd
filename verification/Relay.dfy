/** All groups of the relay and what its store holds under their `h` tags: creation,
    deletion, and the dispatch that decides which group, if any, answers. */
module Relay {
  import opened Nostr
  import opened GroupModel
  import opened Printing
  import opened World
  import Metadata

  type Key = (Scope, string)

  datatype Stored = Stored(scope: Scope, e: Event)

  /** A stored 9000 that the relay signed itself: it carries the group's id in `h`, and no
      `d` tag. */
  datatype Put = Put(scope: Scope, group: string, id: EventId)

  /** `store` holds what clients signed, `puts` the 9000s the relay signed.  Its state
      events carry no `h`; they are kept per id, as what is published. */
  datatype RelayState = RelayState(groups: map<Key, GroupState>, store: set<Stored>, puts: set<Put>)

  const EMPTY_RELAY := RelayState(map[], {}, {})

  /** The id of a 9000 is a hash of what it says and when it was signed. */
  const PUT_ID: (U64, string, PublicKey, bool) -> EventId

  datatype RelayOutcome = RelayOutcome(st: RelayState, result: Result)

  // ----- The store -------------------------------------------------------------

  function Run(store: set<Stored>, c: Command): set<Stored> {
    match c
    case SaveSigned(e, scope) => store + {Stored(scope, e)}
    case Delete(f, scope) => set s | s in store && !(s.scope == scope && Matches(f, s.e))
    case Generate(_, _) => store
  }

  function RunAll(store: set<Stored>, cmds: seq<Command>): set<Stored> {
    if cmds == [] then store else Run(RunAll(store, cmds[..|cmds| - 1]), cmds[|cmds| - 1])
  }

  predicate Reaches(f: Filter, p: Put) {
    (f.ids.Some? ==> p.id in f.ids.value) && (f.h.Some? ==> f.h.value == p.group) && f.d.None?
  }

  function RunPut(puts: set<Put>, c: Command, now: U64): set<Put> {
    match c
    case SaveSigned(_, _) => puts
    case Delete(f, scope) => set p | p in puts && !(p.scope == scope && Reaches(f, p))
    case Generate(PutUsers(group, members), scope) =>
      puts + (set k | k in members :: Put(scope, group, PUT_ID(now, group, k, Admin in members[k])))
    case Generate(_, _) => puts
  }

  function RunPuts(puts: set<Put>, cmds: seq<Command>, now: U64): set<Put> {
    if cmds == [] then puts else RunPut(RunPuts(puts, cmds[..|cmds| - 1], now), cmds[|cmds| - 1], now)
  }

  /** What of it clients signed, of all that a query for one group's `h` tag returns. */
  function Query(store: set<Stored>, key: Key): set<Event> {
    set s | s in store && s.scope == key.0 && CarriesH(s.e, key.1) :: s.e
  }

  // ----- Creation and deletion --------------------------------------------------

  predicate WasGroupDeleted(store: set<Stored>, key: Key) {
    exists e :: e in Query(store, key) && e.kind == DELETE_GROUP_9008
  }

  /** Everybody who wrote there before.  9000s are management events, so the relay is not
      one of them. */
  function Participants(previous: set<Event>): set<PublicKey> {
    set e | e in previous && !IsManagementKind(e.kind) :: e.pubkey
  }

  /** What of it the relay signed. */
  function PutsFor(puts: set<Put>, key: Key): set<Put> {
    set p | p in puts && p.scope == key.0 && p.group == key.1
  }

  /** No event is stored with this `h`, from clients or from the relay. */
  predicate NothingStored(st: RelayState, key: Key) {
    Query(st.store, key) == {} && PutsFor(st.puts, key) == {}
  }

  function StateEvents(g: GroupState, e: Event, cfg: Config): seq<Command> {
    [SaveSigned(e, g.scope), Generate(MetadataEvent(g.id, g.meta, cfg.relayUrl), g.scope),
     Generate(RoleList(g.id), g.scope), Generate(PutUsers(g.id, g.members), g.scope),
     AdminListOf(g), MemberListOf(g)]
  }

  /** The key comes from the `h` tag, the group's own id from the first `h` or `d`. */
  function Create(st: RelayState, scope: Scope, e: Event, cfg: Config): RelayOutcome {
    match GroupIdOf(e)
    case None => RelayOutcome(st, Refused(NotFound))
    case Some(h) =>
      var key := (scope, h);
      var id := FirstGroupTag(e.tags);
      if key in st.groups then RelayOutcome(st, Refused(AlreadyExists))
      else if WasGroupDeleted(st.store, key) then RelayOutcome(st, Refused(WasDeleted))
      else if id.None? || id.value == "" then RelayOutcome(st, Refused(NotFound))
      else if !NothingStored(st, key) && e.pubkey != cfg.relay then RelayOutcome(st, Refused(OnlyRelayMayMigrate))
      else
        var g := CreatedGroup(e, id.value, scope, Participants(Query(st.store, key)), cfg);
        RelayOutcome(st.(groups := st.groups[key := g]), Accepted(StateEvents(g, e, cfg)))
  }

  /** The group a signed event is about, by its `h` (or `d`) tag. */
  function KeyOf(scope: Scope, e: Event): Option<Key> {
    match GroupIdOf(e)
    case None => None
    case Some(h) => Some((scope, h))
  }

  predicate IsManaged(st: RelayState, scope: Scope, e: Event) {
    KeyOf(scope, e).Some? && KeyOf(scope, e).value in st.groups
  }

  function DeleteGroup(st: RelayState, scope: Scope, e: Event, cfg: Config): RelayOutcome {
    if !IsManaged(st, scope, e) then RelayOutcome(st, Refused(NotFound))
    else
      var key := KeyOf(scope, e).value;
      var g := st.groups[key];
      if !CanEdit(g, e.pubkey, cfg.relay) then RelayOutcome(st, Refused(NotAuthorized))
      else
        RelayOutcome(st.(groups := st.groups - {key}),
                     Accepted([Delete(Filter(None, Some(g.id), None), g.scope),
                               Delete(Filter(None, None, Some(g.id)), g.scope),
                               SaveSigned(e, g.scope)]))
  }

  // ----- One event ---------------------------------------------------------------

  function ToGroup(st: RelayState, scope: Scope, e: Event, now: U64, cfg: Config): RelayOutcome {
    if !IsManaged(st, scope, e) then RelayOutcome(st, Refused(NotFound))
    else
      var key := KeyOf(scope, e).value;
      var o := Handle(st.groups[key], e, now, cfg);
      RelayOutcome(st.(groups := st.groups[key := o.g]), o.result)
  }

  /** `admitted` is the answer of the admission checks that come first: block list,
      whitelist and rate limits. */
  function Dispatch(st: RelayState, scope: Scope, e: Event, now: U64, admitted: bool, cfg: Config): RelayOutcome {
    if !admitted then RelayOutcome(st, Refused(NotAdmitted))
    else if HasTag(e.tags, H) && !IsManagementKind(e.kind) && !IsManaged(st, scope, e) then
      RelayOutcome(st, Accepted([SaveSigned(e, scope)]))
    else if e.kind == CREATE_9007 then Create(st, scope, e, cfg)
    else if e.kind == DELETE_GROUP_9008 then DeleteGroup(st, scope, e, cfg)
    else if IsGroupRequest(e.kind) || (e.kind !in NON_GROUP_KINDS && HasTag(e.tags, H)) then
      ToGroup(st, scope, e, now, cfg)
    else RelayOutcome(st, Accepted([SaveSigned(e, scope)]))
  }

  /** One event handled and its commands run. */
  function StepRelay(st: RelayState, scope: Scope, e: Event, now: U64, admitted: bool, cfg: Config): RelayState {
    var o := Dispatch(st, scope, e, now, admitted, cfg);
    match o.result
    case Refused(_) => o.st
    case Accepted(cmds) => o.st.(store := RunAll(o.st.store, cmds), puts := RunPuts(o.st.puts, cmds, now))
  }
}
