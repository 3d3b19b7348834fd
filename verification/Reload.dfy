/** A restart of the whole relay: one query per scope, the events folded into groups by
    the id each of them names, and what that makes of groups that were deleted. */
module Reload {
  import opened Nostr
  import opened Sorting
  import opened GroupModel
  import opened GroupLaws
  import opened Printing
  import opened World
  import opened Relay
  import opened RelayLaws
  import opened RelayWorlds
  import Metadata
  import Startup
  import WorldLaws
  import Wording

  // ----- The loader -------------------------------------------------------------------

  /** A stored 39000, 39001 or 39002 and the scope it was found in. */
  datatype Loaded = Loaded(scope: Scope, u: UnsignedEvent)

  function NamedKey(l: Loaded): Option<Key> {
    match FindContent(l.u.tags, D)
    case None => None
    case Some(id) => Some((l.scope, id))
  }

  /** The first event about an id makes the group, and every event is then folded in. */
  function LoadInto(groups: map<Key, GroupState>, l: Loaded): map<Key, GroupState> {
    match NamedKey(l)
    case None => groups
    case Some(key) => groups[key := LoadOne(if key in groups then groups[key] else FromEvent(l.u, l.scope), l.u)]
  }

  function LoadRelay(ls: seq<Loaded>): map<Key, GroupState> {
    if ls == [] then map[] else LoadInto(LoadRelay(ls[..|ls| - 1]), ls[|ls| - 1])
  }

  /** The events about one id, in the order they were read. */
  function About(ls: seq<Loaded>, key: Key): seq<UnsignedEvent> {
    if ls == [] then []
    else About(ls[..|ls| - 1], key) + (if NamedKey(ls[|ls| - 1]) == Some(key) then [ls[|ls| - 1].u] else [])
  }

  lemma LoadStateSnoc(us: seq<UnsignedEvent>, u: UnsignedEvent, scope: Scope)
    ensures LoadState(us + [u], scope) == LoadOne(if us == [] then FromEvent(u, scope) else LoadState(us, scope), u)
  {
    hide LoadOne, FromEvent;
    var more := us + [u];
    assert more[..|us|] == us && more[|us|] == u;
    if us != [] { assert more[0] == us[0]; }
    assert LoadAll(FromEvent(more[0], scope), more) == LoadOne(LoadAll(FromEvent(more[0], scope), us), u);
  }

  /** Folding all events at once is folding those about each id by themselves: there is a
      group for an id exactly when some event names it, and it is the group that startup
      makes of just those. */
  lemma {:induction false} LoadRelayIs(ls: seq<Loaded>, key: Key)
    ensures key in LoadRelay(ls) <==> About(ls, key) != []
    ensures key in LoadRelay(ls) ==> LoadRelay(ls)[key] == LoadState(About(ls, key), key.0)
  {
    hide LoadOne, FromEvent, LoadState, NamedKey;
    if ls != [] {
      var n := |ls| - 1;
      LoadRelayIs(ls[..n], key);
      if NamedKey(ls[n]) == Some(key) {
        NamedScope(ls[n], key);
        LoadStateSnoc(About(ls[..n], key), ls[n].u, key.0);
      } else {
        assert About(ls[..n], key) + [] == About(ls[..n], key);
      }
    }
  }

  lemma NamedScope(l: Loaded, key: Key)
    requires NamedKey(l) == Some(key)
    ensures l.scope == key.0
  {
  }

  // ----- What is read ---------------------------------------------------------------------

  /** What the store holds about a name, whether or not a group is filed under it. */
  function WorldFor(st: RelayState, pubs: Publications, key: Key): World {
    var g := if key in st.groups then st.groups[key]
             else GroupState(key.1, key.0, Metadata.FreshMeta(key.1), map[], {}, map[]);
    World(key.1, g, Last(pubs, key), Concerning(st.store, key))
  }

  /** Of every signer and kind, one claim is read. */
  predicate ReadsEverySigner(w: World, claims: set<UnsignedEvent>) {
    forall e :: e in w.hist && IsClaim(e, w.name) ==> ReadsOneLike(w, claims, e)
  }

  predicate ReadsOneLike(w: World, claims: set<UnsignedEvent>, e: Event) {
    exists f :: f in w.hist && IsClaim(f, w.name) && f.kind == e.kind && f.pubkey == e.pubkey && Unsigned(f) in claims
  }

  lemma OneLike(w: World, claims: set<UnsignedEvent>, e: Event) returns (f: Event)
    requires ReadsEverySigner(w, claims) && e in w.hist && IsClaim(e, w.name)
    ensures f in w.hist && IsClaim(f, w.name) && f.kind == e.kind && f.pubkey == e.pubkey && Unsigned(f) in claims
  {
    hide IsClaim, Unsigned;
    assert ReadsOneLike(w, claims, e);
    f :| f in w.hist && IsClaim(f, w.name) && f.kind == e.kind && f.pubkey == e.pubkey && Unsigned(f) in claims;
  }

  lemma StoredClaim(w: World, claims: set<UnsignedEvent>, u: UnsignedEvent) returns (e: Event)
    requires AreStoredClaims(w, claims) && u in claims
    ensures e in w.hist && IsClaim(e, w.name) && Unsigned(e) == u
  {
    hide IsClaim, Unsigned;
    e :| e in w.hist && IsClaim(e, w.name) && Unsigned(e) == u;
  }

  /** The queries of a restart return, for every id, what the relay has published about it
      and the claims of others. */
  ghost predicate IsReload(st: RelayState, pubs: Publications, ls: seq<Loaded>, cfg: Config) {
    forall key: Key :: IsReadFor(WorldFor(st, pubs, key), About(ls, key), cfg)
  }

  ghost predicate IsReadFor(w: World, us: seq<UnsignedEvent>, cfg: Config) {
    exists claims :: IsReading(w, us, claims, cfg) && ReadsEverySigner(w, claims)
  }

  /** Somebody has a 39000, 39001 or 39002 stored that names the key in `d`. */
  predicate IsClaimed(st: RelayState, key: Key) {
    exists s :: s in st.store && IsClaimOn(s, key)
  }

  predicate IsClaimOn(s: Stored, key: Key) {
    s.scope == key.0 && s.e.kind in {39000, 39001, 39002} && Wording.Says(s.e.tags, D, key.1)
  }

  lemma NothingPublishedMeans(p: Published, a: UnsignedEvent, b: UnsignedEvent, c: UnsignedEvent)
    ensures OwnEvents(p, a, b, c) == {} <==> p == NOTHING
  {
    if p.admins.Some? { assert a in OwnEvents(p, a, b, c); }
    if p.keys.Some? { assert b in OwnEvents(p, a, b, c); }
    if p.meta.Some? { assert c in OwnEvents(p, a, b, c); }
  }

  lemma NothingRead(us: seq<UnsignedEvent>)
    ensures Elements(us) == {} <==> us == []
  {
    if us != [] { assert us[0] in Elements(us); }
  }

  /** After a restart there is a group under a key exactly when the relay still has a state
      event about that id published, or somebody has one stored that names it in `d`. */
  lemma ManagedAfterRestartIff(st: RelayState, pubs: Publications, ls: seq<Loaded>, cfg: Config, key: Key)
    requires IsReload(st, pubs, ls, cfg)
    ensures key in LoadRelay(ls) <==> Last(pubs, key) != NOTHING || IsClaimed(st, key)
  {
    hide *;
    LoadRelayIs(ls, key);
    ReadingIsFor(st, pubs, ls, cfg, key);
    ReadIff(WorldFor(st, pubs, key), About(ls, key), cfg);
    WorldForIs(st, pubs, key);
    ClaimedMeans(st, key);
  }

  lemma ReadingIsFor(st: RelayState, pubs: Publications, ls: seq<Loaded>, cfg: Config, key: Key)
    requires IsReload(st, pubs, ls, cfg)
    ensures IsReadFor(WorldFor(st, pubs, key), About(ls, key), cfg)
  {
    hide WorldFor, IsReadFor, About;
  }

  lemma WorldForIs(st: RelayState, pubs: Publications, key: Key)
    ensures var w := WorldFor(st, pubs, key); w.name == key.1 && w.pub == Last(pubs, key) && w.hist == Concerning(st.store, key)
    ensures key in st.groups ==> WorldFor(st, pubs, key) == WorldOf(st, pubs, key)
  {
    hide Last, Concerning;
  }

  lemma ClaimedMeans(st: RelayState, key: Key)
    ensures IsClaimed(st, key) <==> exists e :: e in Concerning(st.store, key) && IsClaim(e, key.1)
  {
    hide Concerning, IsClaim, IsClaimOn;
    forall e ensures e in Concerning(st.store, key) && IsClaim(e, key.1) <==>
      Stored(key.0, e) in st.store && IsClaimOn(Stored(key.0, e), key)
    {
      ConcerningMeans(st.store, key, e);
      ClaimOnMeans(e, key);
    }
    if IsClaimed(st, key) {
      var s :| s in st.store && IsClaimOn(s, key);
      ClaimScope(s, key);
      assert s == Stored(key.0, s.e);
    }
  }

  lemma ClaimScope(s: Stored, key: Key)
    requires IsClaimOn(s, key)
    ensures s.scope == key.0
  {
  }

  lemma ClaimOnMeans(e: Event, key: Key)
    ensures IsClaimOn(Stored(key.0, e), key) <==> IsClaim(e, key.1)
    ensures IsClaim(e, key.1) ==> Concerns(e, key.1)
  {
    hide Wording.Says, CarriesH;
    Wording.SaysIff(e.tags, D);
  }

  lemma ClaimsAreRead(w: World, claims: set<UnsignedEvent>)
    requires AreStoredClaims(w, claims) && ReadsEverySigner(w, claims)
    ensures claims != {} <==> exists e :: e in w.hist && IsClaim(e, w.name)
  {
    hide *;
    if u :| u in claims { var e := StoredClaim(w, claims, u); }
    if e :| e in w.hist && IsClaim(e, w.name) { var f := OneLike(w, claims, e); }
  }

  lemma ReadIff(w: World, us: seq<UnsignedEvent>, cfg: Config)
    requires IsReadFor(w, us, cfg)
    ensures us != [] <==> w.pub != NOTHING || exists e :: e in w.hist && IsClaim(e, w.name)
  {
    hide ArePublished, OwnEvents, IsClaim, Unsigned, Elements, AreStoredClaims, ReadsEverySigner;
    var claims :| IsReading(w, us, claims, cfg) && ReadsEverySigner(w, claims);
    var a, b, c :| ArePublished(w, a, b, c, cfg) && Elements(us) == OwnEvents(w.pub, a, b, c) + claims;
    NothingPublishedMeans(w.pub, a, b, c);
    NothingRead(us);
    ClaimsAreRead(w, claims);
  }

  /** For a group that is managed, what the whole restart reads and makes is what a restart
      of its own world does. */
  lemma ReloadIsRestart(st: RelayState, pubs: Publications, ls: seq<Loaded>, cfg: Config, key: Key, order: seq<Event>)
    requires IsReload(st, pubs, ls, cfg) && key in st.groups && key in LoadRelay(ls)
    requires IsReplayOrder(order, Concerning(st.store, key))
    ensures exists claims :: IsRestart(WorldOf(st, pubs, key), About(ls, key), claims, order, cfg)
    ensures About(ls, key) != [] && LoadRelay(ls)[key] == LoadState(About(ls, key), key.0)
  {
    hide LoadRelay, About, Last, Concerning, IsReading, IsReplayOrder, LoadState, WorldFor, IsReload;
    LoadRelayIs(ls, key);
    ReadingIsFor(st, pubs, ls, cfg, key);
    WorldForIs(st, pubs, key);
    var claims :| IsReading(WorldFor(st, pubs, key), About(ls, key), claims, cfg) &&
      ReadsEverySigner(WorldFor(st, pubs, key), claims);
    assert IsRestart(WorldOf(st, pubs, key), About(ls, key), claims, order, cfg);
  }

  // ----- Deleted groups -------------------------------------------------------------------------

  /** Over tidy runs nothing is published about an id without a group. */
  lemma {:induction false} UnmanagedIsUnpublished(sts: seq<RelayState>, pubs: seq<Publications>, arrivals: seq<Arrival>,
                                                  cfg: Config, key: Key, n: nat)
    requires IsRelayRun(sts, arrivals, cfg) && ArePublications(sts, pubs, arrivals, cfg) && AllTidy(arrivals)
    requires sts[0] == EMPTY_RELAY && n < |sts|
    ensures key !in sts[n].groups ==> Last(pubs[n], key) == NOTHING
  {
    hide StepRelay, StepOn, PublishOn, Tidy, Orderly, WellFiled;
    if n > 0 {
      UnmanagedIsUnpublished(sts, pubs, arrivals, cfg, key, n - 1);
      NothingIsOrderly();
      RunStaysOrderly(sts, arrivals, cfg, n - 1);
      OrderlyNames(sts[n - 1]);
      RunStep(sts, arrivals, cfg, n - 1);
      StepKeepsUnpublished(sts[n - 1], pubs[n - 1], arrivals[n - 1], cfg, key);
    }
  }

  lemma StepKeepsUnpublished(st: RelayState, pubs: Publications, a: Arrival, cfg: Config, key: Key)
    requires WellFiled(st) && WellNamed(st) && Tidy(a.e) && (key !in st.groups ==> Last(pubs, key) == NOTHING)
    ensures key !in StepOn(st, a, cfg).groups ==> Last(PublishOn(st, pubs, a, cfg), key) == NOTHING
  {
    hide Handle, CreatedGroup, StateEvents, Participants, Query, Inv, RunAll, RunPuts, PrintAll, Last, PrintsItself,
         WasGroupDeleted, OneH, HasTag, IsGroupRequest, CanEdit, FindContent, FirstGroupTag, Dispatch;
    SavingPrintsNothing(pubs, a.e, a.scope);
    DispatchIs(st, a.scope, a.e, a.now, a.admitted, cfg);
    AnswererIsNamed(st, a, cfg);
    var o := Dispatch(st, a.scope, a.e, a.now, a.admitted, cfg);
    if o.result.Accepted? && KeyOf(a.scope, a.e).Some? {
      var other := KeyOf(a.scope, a.e).value;
      if other in o.st.groups {
        AnswerPrints(st, a, cfg);
        PrintsItselfOnly(o.result.cmds, o.st.groups[other]);
        if other != key { OthersUntouched(pubs, o.result.cmds, other, key); }
      } else if other in st.groups {
        DeletionPrints(st, a.scope, a.e, a.now, a.admitted, cfg, pubs);
      }
    }
  }

  /** A deletion and restarts: over every tidy run after an accepted 9008, a restart puts
      the group back exactly when somebody has since stored a state event that names it in
      `d`; up to a restart nothing does. */
  lemma DeletedComesBackIff(sts: seq<RelayState>, pubs: seq<Publications>, arrivals: seq<Arrival>, cfg: Config, m: nat, n: nat,
                            ls: seq<Loaded>)
    requires IsRelayRun(sts, arrivals, cfg) && ArePublications(sts, pubs, arrivals, cfg) && AllTidy(arrivals)
    requires sts[0] == EMPTY_RELAY && m < n < |sts| && arrivals[m].e.kind == DELETE_GROUP_9008
    requires var a := arrivals[m];
      IsManaged(sts[m], a.scope, a.e) && Dispatch(sts[m], a.scope, a.e, a.now, a.admitted, cfg).result.Accepted?
    requires IsReload(sts[n], pubs[n], ls, cfg)
    ensures var key := KeyOf(arrivals[m].scope, arrivals[m].e).value;
      && key !in sts[n].groups
      && (key in LoadRelay(ls) <==> IsClaimed(sts[n], key))
  {
    hide StepRelay, StepOn, PublishOn, Tidy, Orderly, Dispatch, KeyOf, LoadRelay, IsReload, IsClaimed, Last;
    var key := KeyOf(arrivals[m].scope, arrivals[m].e).value;
    NothingIsOrderly();
    DeletedStaysDeleted(sts, arrivals, cfg, m, n);
    UnmanagedIsUnpublished(sts, pubs, arrivals, cfg, key, n);
    ManagedAfterRestartIff(sts[n], pubs[n], ls, cfg, key);
  }

  /** The 39001 somebody signs about itself, with no `h`. */
  predicate ClaimsGroup(claim: Event, name: string) {
    && claim.kind == ADMINS_39001
    && claim.tags == [Tag(D, [name]), Tag(P, [claim.pubkey, "admin"])]
  }

  /** Anybody can: a 39001 that names a deleted group in `d` and carries no `h` is stored as
      it is, and a restart then makes that group with its sender as an admin. */
  lemma ClaimRevives(st: RelayState, pubs: Publications, key: Key, claim: Event, now: U64, cfg: Config, ls: seq<Loaded>)
    requires key !in st.groups && ClaimsGroup(claim, key.1)
    requires forall e :: e in Concerning(st.store, key) && e.kind == ADMINS_39001 ==> e.pubkey != claim.pubkey
    requires var a := Arrival(key.0, claim, now, true);
      IsReload(StepOn(st, a, cfg), PublishOn(st, pubs, a, cfg), ls, cfg)
    ensures var st' := StepOn(st, Arrival(key.0, claim, now, true), cfg);
      && st' == st.(store := st.store + {Stored(key.0, claim)})
      && key in LoadRelay(ls) && LoadRelay(ls)[key].IsAdmin(claim.pubkey)
  {
    hide *;
    var a := Arrival(key.0, claim, now, true);
    var st', pubs' := StepOn(st, a, cfg), PublishOn(st, pubs, a, cfg);
    ClaimIsSaved(st, key, claim, now, cfg);
    ClaimMeans(claim, key.1);
    ConcerningMeans(st'.store, key, claim);
    ClaimedMeans(st', key);
    ManagedAfterRestartIff(st', pubs', ls, cfg, key);
    LoadRelayIs(ls, key);
    ReadingIsFor(st', pubs', ls, cfg, key);
    WorldForIs(st', pubs', key);
    forall e | e in Concerning(st'.store, key) && e.kind == ADMINS_39001 && e.pubkey == claim.pubkey ensures e == claim {
      ConcerningMeans(st'.store, key, e);
      ConcerningMeans(st.store, key, e);
    }
    ReadMakesAdmin(WorldFor(st', pubs', key), About(ls, key), claim, key.0, cfg);
  }

  lemma ReadMakesAdmin(w: World, us: seq<UnsignedEvent>, claim: Event, scope: Scope, cfg: Config)
    requires us != [] && IsReadFor(w, us, cfg) && claim in w.hist && ClaimsGroup(claim, w.name)
    requires forall e :: e in w.hist && e.kind == ADMINS_39001 && e.pubkey == claim.pubkey ==> e == claim
    ensures LoadState(us, scope).IsAdmin(claim.pubkey)
  {
    hide ArePublished, OwnEvents, IsClaim, Unsigned, Elements, AreStoredClaims, ClaimsGroup, LoadState, Startup.ClaimedAdmins,
         Startup.ClaimedKeys, AdminsOf, Listed, Startup.Promotes, Startup.ListsOf, ReadsEverySigner;
    ClaimMeans(claim, w.name);
    var claims :| IsReading(w, us, claims, cfg) && ReadsEverySigner(w, claims);
    var f := OneLike(w, claims, claim);
    var a, b, c :| ArePublished(w, a, b, c, cfg) && Elements(us) == OwnEvents(w.pub, a, b, c) + claims;
    WorldLaws.OwnList(w, a, b, c, cfg);
    Startup.StartupMembersOf(us, scope, OwnEvents(w.pub, a, b, c), claims, Listed(w.pub.admins), Listed(w.pub.keys));
    Startup.ClaimsMean(claims, claim.pubkey);
    WorldLaws.AdminsMean(LoadState(us, scope), claim.pubkey);
  }

  lemma ClaimMeans(claim: Event, name: string)
    requires ClaimsGroup(claim, name)
    ensures claim.kind == ADMINS_39001 && Concerns(claim, name) && IsClaim(claim, name) && !HasTag(claim.tags, H)
    ensures Startup.Promotes(Unsigned(claim), claim.pubkey)
  {
    var d, p := Tag(D, [name]), Tag(P, [claim.pubkey, "admin"]);
    hide FindContent, HasTag, ParsedMembers, ParseMember, RolesIn, FirstGroupTag;
    assert [d, p] == [d] + [p] && [p] == [p] + [];
    WorldLaws.TagUnfolds(d, [p], D);
    WorldLaws.TagUnfolds(d, [p], P);
    WorldLaws.TagUnfolds(p, [], P);
    NoTagH(d, p);
    WorldLaws.AdminRole();
    WorldLaws.ParsedAdmin(claim.pubkey);
    WorldLaws.ParsedOne(p, Named(claim.pubkey, RolesIn(["admin"])));
  }

  lemma NoTagH(d: Tag, p: Tag)
    requires d.kind == D && p.kind == P
    ensures !HasTag([d, p], H)
  {
  }

  lemma ClaimIsSaved(st: RelayState, key: Key, claim: Event, now: U64, cfg: Config)
    requires key !in st.groups && ClaimsGroup(claim, key.1)
    ensures StepOn(st, Arrival(key.0, claim, now, true), cfg) == st.(store := st.store + {Stored(key.0, claim)})
  {
    hide ClaimsGroup, Dispatch, RunAll, RunPuts;
    ClaimAnswer(st, key, claim, now, cfg);
    OneSave(st, claim, key.0, now);
  }

  lemma ClaimAnswer(st: RelayState, key: Key, claim: Event, now: U64, cfg: Config)
    requires ClaimsGroup(claim, key.1)
    ensures Dispatch(st, key.0, claim, now, true, cfg) == RelayOutcome(st, Accepted([SaveSigned(claim, key.0)]))
  {
    hide HasTag, ClaimsGroup, Create, DeleteGroup, ToGroup, IsManaged, RunAll, RunPuts;
    ClaimMeans(claim, key.1);
  }

  lemma OneSave(st: RelayState, e: Event, scope: Scope, now: U64)
    ensures RunAll(st.store, [SaveSigned(e, scope)]) == st.store + {Stored(scope, e)}
    ensures RunPuts(st.puts, [SaveSigned(e, scope)], now) == st.puts
  {
    hide Matches, Reaches;
    var save := SaveSigned(e, scope);
    assert [save][..0] == [];
    assert RunAll(st.store, []) == st.store && RunPuts(st.puts, [], now) == st.puts;
  }
}
