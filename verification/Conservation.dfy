/** Invites in a live group: every use admits one key, and no limit is passed. */
module Conservation {
  import opened Nostr
  import opened GroupModel
  import opened GroupLaws
  import Metadata

  /** A key let in by an invite, and the time at which that happened. */
  datatype Admission = Admission(key: PublicKey, at: U64)

  /** For each current invite entry, the keys it admitted. */
  type Log = map<string, seq<Admission>>

  /** Somebody outside a closed group asked to join and is inside afterwards. */
  predicate LetIn(g: GroupState, e: Event, g': GroupState) {
    e.kind == JOIN_9021 && g.meta.fields.closed && e.pubkey !in g.members && e.pubkey in g'.members
  }

  /** What an observer notes who sees the group before and after an event: entries
      that appear start empty, entries that go take their record with them, and
      whoever is let in is noted under the code the request named. */
  function Observe(log: Log, g: GroupState, e: Event, now: U64, g': GroupState): Log {
    var kept := map c | c in g'.invites :: if c in log then log[c] else [];
    if LetIn(g, e, g') && CodeOf(e).Some? && CodeOf(e).value in kept then
      kept[CodeOf(e).value := kept[CodeOf(e).value] + [Admission(e.pubkey, now)]]
    else kept
  }

  /** An invite entry agrees with the admissions noted for it. */
  predicate Agrees(v: Invite, admitted: seq<Admission>) {
    && v.uses == |admitted|
    && (v.reusable ==> v.maxUses.Some? && v.uses <= v.maxUses.value)
    && (!v.reusable ==>
          && |admitted| <= 1
          && (v.redeemedBy.Some? <==> |admitted| == 1)
          && (v.redeemedBy.Some? ==> v.redeemedBy.value.0 == admitted[0].key))
    && v.expiresAt.Some?
    && (forall i :: 0 <= i < |admitted| ==> admitted[i].at <= v.expiresAt.value)
  }

  predicate Conserved(g: GroupState, log: Log) {
    log.Keys == g.invites.Keys && forall c :: c in g.invites ==> Agrees(g.invites[c], log[c])
  }

  lemma NewInviteAgrees(e: Event)
    ensures Agrees(InviteOf(e, {Member}, true), [])
  {
  }

  lemma UseAgrees(v: Invite, admitted: seq<Admission>, key: PublicKey, at: U64, now: U64)
    requires Agrees(v, admitted) && v.CanUseAt(now)
    ensures Agrees(v.MarkUsed(key, at), admitted + [Admission(key, now)])
  {
  }

  lemma JoinConserves(g: GroupState, log: Log, e: Event, now: U64)
    requires Conserved(g, log) && e.kind == JOIN_9021
    ensures Conserved(JoinRequest(g, e, now).g, Observe(log, g, e, now, JoinRequest(g, e, now).g))
  {
    hide Agrees, CodeOf, AdminsOf;
    var code := CodeOf(e);
    if e.pubkey !in g.members && g.meta.fields.closed && code.Some? && code.value in g.invites
      && g.invites[code.value].CanUseAt(now)
    {
      UseAgrees(g.invites[code.value], log[code.value], e.pubkey, e.createdAt, now);
    }
  }

  lemma OtherConserves(g: GroupState, log: Log, e: Event, now: U64, g': GroupState)
    requires Conserved(g, log) && !LetIn(g, e, g')
    requires forall c :: c in g'.invites ==> c in g.invites && g'.invites[c] == g.invites[c]
    ensures Conserved(g', Observe(log, g, e, now, g'))
  {
    hide Agrees;
  }

  lemma InviteConserves(g: GroupState, log: Log, e: Event, now: U64, cfg: Config)
    requires Conserved(g, log) && e.kind == CREATE_INVITE_9009
    ensures Conserved(CreateInvite(g, e, cfg).g, Observe(log, g, e, now, CreateInvite(g, e, cfg).g))
  {
    hide Agrees, CodeOf, InviteOf;
    NewInviteAgrees(e);
  }

  /** Every signed event keeps the account. */
  lemma HandleConserves(g: GroupState, log: Log, e: Event, now: U64, cfg: Config)
    requires Inv(g) && Conserved(g, log)
    ensures Conserved(Handle(g, e, now, cfg).g, Observe(log, g, e, now, Handle(g, e, now, cfg).g))
  {
    hide PutUser, RemoveUser, SetRoles, JoinRequest, LeaveRequest, Content, EditMetadata, CreateInvite,
         AdminsOf, Inv, Conserved, Observe, EventIds;
    var g' := Handle(g, e, now, cfg).g;
    if !HasAccess(g, e, cfg.relay) {
      OtherConserves(g, log, e, now, g);
    } else if e.kind == JOIN_9021 {
      JoinConserves(g, log, e, now);
    } else if e.kind == CREATE_INVITE_9009 {
      InviteConserves(g, log, e, now, cfg);
    } else {
      PutUserLaws(g, e, cfg);
      RemoveUserLaws(g, e, cfg);
      SetRolesLaws(g, e, cfg);
      LeaveRequestLaws(g, e);
      ContentLaws(g, e);
      EditKeepsInvites(g, e, cfg);
      OtherConserves(g, log, e, now, g');
    }
  }

  lemma EditKeepsInvites(g: GroupState, e: Event, cfg: Config)
    ensures EditMetadata(g, e, cfg).g.invites == g.invites
  {
    hide Metadata.ApplyTags;
  }

  /** A run of signed events over one live group, seen by the observer. */
  predicate IsObservedRun(gs: seq<GroupState>, logs: seq<Log>, es: seq<Event>, times: seq<U64>, cfg: Config) {
    && |gs| == |logs| == |es| + 1 && |times| == |es|
    && forall n :: 0 <= n < |es| ==>
         && gs[n + 1] == Handle(gs[n], es[n], times[n], cfg).g
         && logs[n + 1] == Observe(logs[n], gs[n], es[n], times[n], gs[n + 1])
  }

  /** Over any run of signed events: each invite's count of uses is the number of
      keys it admitted, a reusable one stays within its ceiling, a single-use one
      admits at most one key and remembers it, and nobody is admitted late. */
  lemma {:induction false} RunConserves(gs: seq<GroupState>, logs: seq<Log>, es: seq<Event>, times: seq<U64>, cfg: Config)
    requires IsObservedRun(gs, logs, es, times, cfg)
    requires Inv(gs[0]) && gs[0].invites == map[] && logs[0] == map[]
    ensures Inv(gs[|es|]) && Conserved(gs[|es|], logs[|es|])
  {
    if es != [] {
      hide Inv, Conserved, Handle, Observe;
      var n := |es| - 1;
      assert IsObservedRun(gs[..n + 1], logs[..n + 1], es[..n], times[..n], cfg);
      RunConserves(gs[..n + 1], logs[..n + 1], es[..n], times[..n], cfg);
      HandleLaws(gs[n], es[n], times[n], cfg);
      HandleConserves(gs[n], logs[n], es[n], times[n], cfg);
    }
  }
}
