/** Invites across restarts: replaying the stored history never brings a spent
    invite back to life. */
module InviteLaws {
  import opened Nostr
  import opened GroupModel
  import opened GroupLaws
  import opened Printing
  import opened World
  import opened WorldLaws
  import opened Sorting
  import Metadata
  import Startup

  /** The stored join requests that name an invite code. */
  function Joins(hist: set<Event>, code: string): set<Event> {
    set e | e in hist && e.kind == JOIN_9021 && CodeOf(e) == Some(code)
  }

  predicate IsInvite(e: Event) {
    e.kind == CREATE_INVITE_9009
  }

  /** The limits of the entry are the stated ones, and the default ones where `defaults`
      says so. */
  predicate HasLimits(v: Invite, e: Event, defaults: bool) {
    v.expiresAt == InviteOf(e, {}, defaults).expiresAt && v.maxUses == InviteOf(e, {}, defaults).maxUses
  }

  /** `v` is an entry made from the 9009 `e`, when it came or by replay. */
  predicate Describes(v: Invite, e: Event) {
    && v.eventId == e.id && v.reusable == HasTag(e.tags, Reusable)
    && (HasLimits(v, e, true) || HasLimits(v, e, e.createdAt >= INVITE_LIMITS_SINCE))
  }

  /** How the stored history accounts for the invites and the pending requests. */
  ghost predicate Recorded(g: GroupState, hist: set<Event>) {
    && (forall e :: e in hist && e.kind in {JOIN_9021, CREATE_INVITE_9009} ==> CarriesH(e, g.id))
    && (forall c :: c in g.invites ==> exists e :: e in hist && IsInvite(e) && CodeOf(e) == Some(c))
    && (forall e, f :: e in hist && f in hist && IsInvite(e) && IsInvite(f) && CodeOf(e) == CodeOf(f) ==> e == f)
    && (forall e :: e in hist && IsInvite(e) ==>
          CodeOf(e).Some? && CodeOf(e).value in g.invites && Describes(g.invites[CodeOf(e).value], e))
    && (forall c :: c in g.invites ==>
          && g.invites[c].uses <= |Joins(hist, c)|
          && (g.invites[c].redeemedBy.Some? ==> Joins(hist, c) != {}))
    && (forall k :: k in g.joinRequests ==> exists e :: e in hist && e.kind == JOIN_9021 && e.pubkey == k)
  }

  // ----- Replay --------------------------------------------------------------------

  function Capped(n: nat): U32 {
    if n <= U32_MAX then n else U32_MAX
  }

  /** What replaying the events `seen`, in any admissible order, has made of the
      invites of a group that had none. */
  ghost predicate Counted(invites: map<string, Invite>, seen: set<Event>) {
    && (forall c :: c in invites ==> exists e :: e in seen && IsInvite(e) && CodeOf(e) == Some(c))
    && (forall e :: e in seen && IsInvite(e) && CodeOf(e).Some? ==>
          && CodeOf(e).value in invites && Describes(invites[CodeOf(e).value], e)
          && HasLimits(invites[CodeOf(e).value], e, e.createdAt >= INVITE_LIMITS_SINCE))
    && (forall c :: c in invites ==>
          && invites[c].uses == Capped(|Joins(seen, c)|)
          && (invites[c].redeemedBy.Some? <==> !invites[c].reusable && Joins(seen, c) != {}))
  }

  /** Everybody whose 9021 was seen and who is not a member waits. */
  ghost predicate Waiting(g: GroupState, members: Members, seen: set<Event>) {
    && g.members == members
    && (forall k :: k in g.joinRequests <==>
          k !in members && exists e :: e in seen && e.kind == JOIN_9021 && e.pubkey == k)
  }

  ghost predicate Replayed(g: GroupState, members: Members, seen: set<Event>) {
    Counted(g.invites, seen) && Waiting(g, members, seen)
  }

  lemma JoinsPlus(hist: set<Event>, e: Event, c: string)
    ensures Joins(hist + {e}, c) ==
      if e.kind == JOIN_9021 && CodeOf(e) == Some(c) then Joins(hist, c) + {e} else Joins(hist, c)
    ensures e !in hist && e.kind == JOIN_9021 && CodeOf(e) == Some(c) ==>
      |Joins(hist + {e}, c)| == |Joins(hist, c)| + 1
  {
    hide CodeOf;
    if e !in hist { assert e !in Joins(hist, c); }
  }

  lemma CountUse(invites: map<string, Invite>, seen: set<Event>, e: Event, code: string)
    requires Counted(invites, seen) && e !in seen && e.kind == JOIN_9021 && CodeOf(e) == Some(code)
    requires code in invites
    ensures Counted(invites[code := invites[code].MarkUsed(e.pubkey, e.createdAt)], seen + {e})
  {
    hide CodeOf, Describes, HasLimits, Joins;
    var marked := invites[code := invites[code].MarkUsed(e.pubkey, e.createdAt)];
    DescribesAfterUse(invites, e);
    forall c | c in marked
      ensures marked[c].uses == Capped(|Joins(seen + {e}, c)|)
      ensures marked[c].redeemedBy.Some? <==> !marked[c].reusable && Joins(seen + {e}, c) != {}
    {
      JoinsPlus(seen, e, c);
    }
    assert forall f :: f in seen + {e} && IsInvite(f) ==> f in seen;
  }

  lemma CountNothing(invites: map<string, Invite>, seen: set<Event>, e: Event)
    requires Counted(invites, seen) && !IsInvite(e)
    requires e.kind == JOIN_9021 ==> CodeOf(e).None? || CodeOf(e).value !in invites
    ensures Counted(invites, seen + {e})
  {
    hide CodeOf, Describes, HasLimits, Joins;
    forall c | c in invites ensures Joins(seen + {e}, c) == Joins(seen, c) { JoinsPlus(seen, e, c); }
  }

  lemma ReplayJoin(g: GroupState, members: Members, seen: set<Event>, e: Event)
    requires Replayed(g, members, seen) && e !in seen && e.kind == JOIN_9021
    ensures Replayed(LoadJoin(g, e), members, seen + {e})
  {
    hide CodeOf, Counted;
    if CodeOf(e).Some? && CodeOf(e).value in g.invites {
      CountUse(g.invites, seen, e, CodeOf(e).value);
    } else {
      CountNothing(g.invites, seen, e);
    }
  }

  lemma DescribesAfterUse(invites: map<string, Invite>, e: Event)
    ensures forall c, f :: c in invites && Describes(invites[c], f) ==>
      Describes(invites[c].MarkUsed(e.pubkey, e.createdAt), f)
    ensures forall c, f, b :: c in invites && HasLimits(invites[c], f, b) ==>
      HasLimits(invites[c].MarkUsed(e.pubkey, e.createdAt), f, b)
  {
    hide InviteOf;
  }

  lemma ReplayInvite(g: GroupState, members: Members, seen: set<Event>, e: Event)
    requires Replayed(g, members, seen) && e !in seen && IsInvite(e)
    requires forall f :: f in seen ==> IsInvite(f) && CodeOf(f) != CodeOf(e)
    ensures Replayed(LoadInvite(g, e), members, seen + {e})
  {
    hide CodeOf, Describes, HasLimits, InviteOf, RolesNamed, Joins;
    NoJoins(seen, e);
    NewInviteDescribes(e, RolesNamed(e.tags));
  }

  lemma NoJoins(seen: set<Event>, e: Event)
    requires IsInvite(e) && forall f :: f in seen ==> IsInvite(f)
    ensures forall c :: Joins(seen + {e}, c) == {} && Joins(seen, c) == {}
  {
    hide CodeOf;
  }

  lemma NewInviteDescribes(e: Event, roles: set<Role>)
    ensures var v := InviteOf(e, roles, e.createdAt >= INVITE_LIMITS_SINCE); v.uses == 0 && v.redeemedBy.None?
    ensures Describes(InviteOf(e, roles, e.createdAt >= INVITE_LIMITS_SINCE), e)
    ensures Describes(InviteOf(e, roles, true), e) && HasLimits(InviteOf(e, roles, true), e, true)
    ensures HasLimits(InviteOf(e, roles, e.createdAt >= INVITE_LIMITS_SINCE), e, e.createdAt >= INVITE_LIMITS_SINCE)
  {
  }

  /** The store never holds two 9009s for one code, as `Recorded` says. */
  predicate OneInvitePerCode(hist: set<Event>) {
    forall e, f :: e in hist && f in hist && IsInvite(e) && IsInvite(f) && CodeOf(e) == CodeOf(f) ==> e == f
  }

  ghost predicate GoodPrefix(order: seq<Event>) {
    && (forall i, j :: 0 <= i < j < |order| ==> order[i] != order[j])
    && (forall i, j :: 0 <= i < j < |order| && IsInvite(order[j]) ==> IsInvite(order[i]))
    && OneInvitePerCode(Elements(order))
  }

  lemma {:induction false} ReplayMeans(g: GroupState, order: seq<Event>)
    requires GoodPrefix(order) && g.invites == map[] && g.joinRequests == {}
    ensures Replayed(Replay(g, order), g.members, Elements(order))
  {
    if order != [] {
      var n := |order| - 1;
      var e := order[n];
      var init := order[..n];
      assert Elements(order) == Elements(init) + {e};
      assert e !in Elements(init);
      GoodInit(order);
      hide *;
      ReplayMeans(g, init);
      ReplayOne(Replay(g, init), g.members, Elements(init), e);
      ReplaySnoc(g, order);
    } else {
      hide CodeOf;
    }
  }

  lemma ReplaySnoc(g: GroupState, order: seq<Event>)
    requires order != []
    ensures Replay(g, order) == LoadHistoric(Replay(g, order[..|order| - 1]), order[|order| - 1])
  {
  }

  lemma GoodInit(order: seq<Event>)
    requires GoodPrefix(order) && order != []
    ensures var init, e := order[..|order| - 1], order[|order| - 1];
      && GoodPrefix(init)
      && (IsInvite(e) ==> forall f :: f in Elements(init) ==> IsInvite(f) && CodeOf(f) != CodeOf(e))
  {
    hide CodeOf;
    var init, e := order[..|order| - 1], order[|order| - 1];
    assert Elements(order) == Elements(init) + {e};
  }

  lemma ReplayOne(g: GroupState, members: Members, seen: set<Event>, e: Event)
    requires Replayed(g, members, seen) && e !in seen
    requires IsInvite(e) ==> forall f :: f in seen ==> IsInvite(f) && CodeOf(f) != CodeOf(e)
    ensures Replayed(LoadHistoric(g, e), members, seen + {e})
  {
    hide Replayed, CodeOf, LoadInvite, LoadJoin;
    if e.kind == JOIN_9021 {
      ReplayJoin(g, members, seen, e);
    } else if IsInvite(e) {
      ReplayInvite(g, members, seen, e);
    } else {
      ReplayOther(g, members, seen, e);
    }
  }

  lemma ReplayOther(g: GroupState, members: Members, seen: set<Event>, e: Event)
    requires Replayed(g, members, seen) && e.kind != JOIN_9021 && !IsInvite(e)
    ensures Replayed(g, members, seen + {e})
  {
    hide CodeOf, Counted;
    CountNothing(g.invites, seen, e);
  }

  // ----- A restart accounts for everything the live group did ----------------------

  /** The part of the store replay reads. */
  function Historic(hist: set<Event>): set<Event> {
    set e | e in hist && IsHistoric(e)
  }

  lemma OrderIsGood(order: seq<Event>, hist: set<Event>)
    requires IsReplayOrder(order, hist) && OneInvitePerCode(hist)
    ensures GoodPrefix(order) && Elements(order) == Historic(hist)
    ensures forall c :: Joins(Elements(order), c) == Joins(hist, c)
  {
    hide CodeOf;
    assert Elements(order) == Historic(hist);
    forall c ensures Joins(Elements(order), c) == Joins(hist, c) {
    }
  }

  /** What replay makes of a history that accounts for a live group. */
  lemma ReplayOfRecorded(g: GroupState, hist: set<Event>, loaded: GroupState, order: seq<Event>)
    requires Recorded(g, hist) && IsReplayOrder(order, hist)
    requires loaded.id == g.id && loaded.invites == map[] && loaded.joinRequests == {}
    ensures var r := Replay(loaded, order);
      && r.id == g.id && Recorded(r, hist) && r.invites.Keys == g.invites.Keys
      && (g.joinRequests !! loaded.members.Keys ==> g.joinRequests <= r.joinRequests)
      && (forall c :: c in g.invites ==>
            && r.invites[c].uses == Capped(|Joins(hist, c)|)
            && r.invites[c].uses >= g.invites[c].uses
            && r.invites[c].eventId == g.invites[c].eventId && r.invites[c].reusable == g.invites[c].reusable
            && (!r.invites[c].reusable && g.invites[c].redeemedBy.Some? ==> r.invites[c].redeemedBy.Some?))
  {
    hide CodeOf, Describes, HasLimits, CarriesH, Replay, Joins, IsReplayOrder, Historic, Elements;
    OrderIsGood(order, hist);
    ReplayMeans(loaded, order);
    ReplayKeeps(loaded, order);
    var r := Replay(loaded, order);
    HistoricMeans(hist);
    forall c | c in g.invites
      ensures c in r.invites && r.invites[c].eventId == g.invites[c].eventId
      ensures r.invites[c].reusable == g.invites[c].reusable
    {
      var e :| e in hist && IsInvite(e) && CodeOf(e) == Some(c);
      assert e in Elements(order);
      SameEvent(r.invites[c], g.invites[c], e);
    }
  }

  lemma HistoricMeans(hist: set<Event>)
    ensures forall e :: e in Historic(hist) <==> e in hist && IsHistoric(e)
  {
  }

  lemma SameEvent(v: Invite, w: Invite, e: Event)
    requires Describes(v, e) && Describes(w, e)
    ensures v.eventId == w.eventId && v.reusable == w.reusable
    ensures e.createdAt >= INVITE_LIMITS_SINCE || StatesLimits(e) ==> v.expiresAt == w.expiresAt && v.maxUses == w.maxUses
  {
    LimitsAgreeIff(e);
    hide InviteOf;
  }

  /** The 9009 says itself when it expires and, if it is reusable, how often. */
  predicate StatesLimits(e: Event) {
    ExpiryOf(e, false).Some? && (HasTag(e.tags, Reusable) ==> MaxUsesOf(e, false).Some?)
  }

  lemma LimitsAgreeIff(e: Event)
    ensures HasLimits(InviteOf(e, {}, false), e, true) <==> StatesLimits(e)
  {
  }

  /** A spent invite stays spent: whatever replay brings back as usable at `now`
      was usable in the live group too, for every invite made since limits are
      applied or that states its own; its limits are the same and its uses no fewer. */
  lemma SpentStaysSpent(g: GroupState, hist: set<Event>, loaded: GroupState, order: seq<Event>, e: Event, now: U64)
    requires Recorded(g, hist) && IsReplayOrder(order, hist)
    requires loaded.id == g.id && loaded.invites == map[] && loaded.joinRequests == {}
    requires e in hist && IsInvite(e) && (e.createdAt >= INVITE_LIMITS_SINCE || StatesLimits(e))
    ensures CodeOf(e).Some? && CodeOf(e).value in g.invites && CodeOf(e).value in Replay(loaded, order).invites
    ensures var live, replayed := g.invites[CodeOf(e).value], Replay(loaded, order).invites[CodeOf(e).value];
      && replayed.uses >= live.uses
      && replayed.expiresAt == live.expiresAt && replayed.maxUses == live.maxUses
      && (replayed.CanUseAt(now) ==> live.CanUseAt(now))
  {
    hide CodeOf, Describes, HasLimits, CarriesH, Replay, Joins;
    ReplayOfRecorded(g, hist, loaded, order);
    SameEvent(Replay(loaded, order).invites[CodeOf(e).value], g.invites[CodeOf(e).value], e);
  }

  /** For an invite that came in since the last restart, replay brings the limits back
      exactly then: an older 9009 without limits of its own loses the default ones. */
  lemma LimitsComeBackIff(g: GroupState, hist: set<Event>, loaded: GroupState, order: seq<Event>, e: Event)
    requires Recorded(g, hist) && IsReplayOrder(order, hist)
    requires loaded.id == g.id && loaded.invites == map[] && loaded.joinRequests == {}
    requires e in hist && IsInvite(e) && CodeOf(e).Some? && CodeOf(e).value in g.invites
    requires HasLimits(g.invites[CodeOf(e).value], e, true)
    ensures CodeOf(e).value in Replay(loaded, order).invites
    ensures var live, replayed := g.invites[CodeOf(e).value], Replay(loaded, order).invites[CodeOf(e).value];
      replayed.expiresAt == live.expiresAt && replayed.maxUses == live.maxUses <==>
      e.createdAt >= INVITE_LIMITS_SINCE || StatesLimits(e)
  {
    hide CodeOf, Describes, CarriesH, Replay, Joins, IsReplayOrder, Historic, InviteOf, StatesLimits;
    ReplayOfRecorded(g, hist, loaded, order);
    OrderIsGood(order, hist);
    ReplayMeans(loaded, order);
    HistoricMeans(hist);
    assert e in Elements(order);
    LimitsAgreeIff(e);
  }

  // ----- Every step keeps the account -------------------------------------------------

  /** Storing an event that is neither an invite nor a join request. */
  lemma RecordPlain(g: GroupState, g': GroupState, hist: set<Event>, e: Event)
    requires Recorded(g, hist) && !IsInvite(e) && e.kind != JOIN_9021
    requires g'.id == g.id && g'.invites == g.invites && g'.joinRequests <= g.joinRequests
    ensures Recorded(g', hist) && Recorded(g', hist + {e})
  {
    hide CodeOf, Describes, HasLimits, CarriesH, Joins;
    forall c ensures Joins(hist + {e}, c) == Joins(hist, c) { JoinsPlus(hist, e, c); }
  }

  lemma RecordInvite(g: GroupState, hist: set<Event>, e: Event)
    requires Recorded(g, hist) && IsInvite(e) && CarriesH(e, g.id)
    requires CodeOf(e).Some? && CodeOf(e).value !in g.invites
    ensures Recorded(g.(invites := g.invites[CodeOf(e).value := InviteOf(e, {Member}, true)]), hist + {e})
  {
    hide CodeOf, Describes, HasLimits, CarriesH, Joins, InviteOf;
    NewInviteDescribes(e, {Member});
    FreshInvite(e, {Member});
    forall c ensures Joins(hist + {e}, c) == Joins(hist, c) { JoinsPlus(hist, e, c); }
  }

  lemma FreshInvite(e: Event, roles: set<Role>)
    ensures InviteOf(e, roles, true).uses == 0 && InviteOf(e, roles, true).redeemedBy.None?
  {
  }

  /** Storing a join request that uses no invite. */
  lemma RecordJoin(g: GroupState, g': GroupState, hist: set<Event>, e: Event)
    requires Recorded(g, hist) && e.kind == JOIN_9021 && CarriesH(e, g.id)
    requires g'.id == g.id && g'.invites == g.invites && g'.joinRequests <= g.joinRequests + {e.pubkey}
    ensures Recorded(g', hist + {e})
  {
    hide CodeOf, Describes, HasLimits, CarriesH, Joins;
    forall c ensures Joins(hist, c) <= Joins(hist + {e}, c) && |Joins(hist, c)| <= |Joins(hist + {e}, c)| {
      MoreJoins(hist, e, c);
    }
    forall k | k in g'.joinRequests ensures exists f :: f in hist + {e} && f.kind == JOIN_9021 && f.pubkey == k {
      if k in g.joinRequests {
        var f :| f in hist && f.kind == JOIN_9021 && f.pubkey == k;
        assert f in hist + {e};
      } else {
        assert e in hist + {e};
      }
    }
  }

  lemma MoreJoins(hist: set<Event>, e: Event, c: string)
    ensures Joins(hist, c) <= Joins(hist + {e}, c) && |Joins(hist, c)| <= |Joins(hist + {e}, c)|
  {
    hide CodeOf;
    JoinsPlus(hist, e, c);
    if e in hist { assert hist + {e} == hist; }
  }

  /** Storing a join request that redeems an invite, for the first time. */
  lemma RecordRedemption(g: GroupState, g': GroupState, hist: set<Event>, e: Event)
    requires Recorded(g, hist) && e.kind == JOIN_9021 && CarriesH(e, g.id) && e !in hist
    requires CodeOf(e).Some? && CodeOf(e).value in g.invites
    requires g'.id == g.id && g'.joinRequests <= g.joinRequests
    requires g'.invites == g.invites[CodeOf(e).value := g.invites[CodeOf(e).value].MarkUsed(e.pubkey, e.createdAt)]
    ensures Recorded(g', hist + {e})
  {
    hide CodeOf, Describes, HasLimits, CarriesH, Joins;
    DescribesAfterUse(g.invites, e);
    forall c | c in g'.invites
      ensures g'.invites[c].uses <= |Joins(hist + {e}, c)|
      ensures g'.invites[c].redeemedBy.Some? ==> Joins(hist + {e}, c) != {}
    {
      MoreJoins(hist, e, c);
      JoinsPlus(hist, e, c);
    }
    assert forall k :: k in g'.joinRequests ==> k in g.joinRequests;
  }

  function Remaining(hist: set<Event>, ids: set<EventId>, id: string): set<Event> {
    set f | f in hist && !Matches(Filter(Some(ids), Some(id), None), f)
  }

  /** Deleting events that are not join requests. */
  lemma RecordDeletion(g: GroupState, hist: set<Event>, ids: set<EventId>)
    requires Recorded(g, hist) && forall f :: f in hist && f.kind == JOIN_9021 ==> f.id !in ids
    ensures Recorded(g.(invites := WithoutInvites(g.invites, ids)), Remaining(hist, ids, g.id))
  {
    hide CodeOf, CarriesH, Joins, HasTag, InviteOf;
    var rest := Remaining(hist, ids, g.id);
    assert forall f :: f in hist && f.kind in {JOIN_9021, CREATE_INVITE_9009} ==> (f in rest <==> f.id !in ids);
    forall c ensures Joins(rest, c) == Joins(hist, c) { JoinsAmong(rest, hist, c); }
    forall k | k in g.joinRequests ensures exists f :: f in rest && f.kind == JOIN_9021 && f.pubkey == k {
      var f :| f in hist && f.kind == JOIN_9021 && f.pubkey == k;
      assert f in rest;
    }
  }

  lemma JoinsAmong(rest: set<Event>, hist: set<Event>, c: string)
    requires rest <= hist && forall f :: f in hist && f.kind == JOIN_9021 ==> f in rest
    ensures Joins(rest, c) == Joins(hist, c)
  {
    hide CodeOf;
  }

  lemma AboutCarriesH(e: Event, name: string)
    requires IsAbout(e, name) && !IsAddressable(e.kind)
    ensures CarriesH(e, name)
  {
    FoundIsCarried(e.tags, H, name);
  }

  lemma SignedKeepsRecord(w: World, e: Event, now: U64, cfg: Config)
    requires Sound(w) && w.g.id == w.name && Recorded(w.g, w.hist) && IsAbout(e, w.name) && KeepsJoins(w, Signed(e, now))
    ensures var w' := Step(w, Signed(e, now), cfg); Recorded(w'.g, w'.hist)
  {
    hide PutUser, RemoveUser, LeaveRequest, Content, EditMetadata, SetRoles, AdminsOf, Inv, PublishAll, StoreAll,
         Recorded, CarriesH, EventIds, IsAbout;
    if !IsAddressable(e.kind) { AboutCarriesH(e, w.name); }
    HandleLaws(w.g, e, now, cfg);
    HandleTouches(w.g, e, now, cfg);
    if Handle(w.g, e, now, cfg).result.Accepted? {
      if e.kind == JOIN_9021 {
        JoinKeepsRecord(w, e, now, cfg);
      } else if e.kind == CREATE_INVITE_9009 {
        assert Handle(w.g, e, now, cfg) == CreateInvite(w.g, e, cfg);
        OtherRecords(w.g, e, cfg, w.pub, w.hist);
        RecordInvite(w.g, w.hist, e);
      } else if e.kind == DELETE_EVENT_9005 {
        DeleteKeepsRecord(w, e, now, cfg);
      } else {
        PlainKeepsRecord(w, e, now, cfg);
      }
    }
  }

  lemma JoinKeepsRecord(w: World, e: Event, now: U64, cfg: Config)
    requires Recorded(w.g, w.hist) && CarriesH(e, w.g.id) && e !in w.hist && e.kind == JOIN_9021
    requires Handle(w.g, e, now, cfg).result.Accepted?
    ensures var w' := Step(w, Signed(e, now), cfg); Recorded(w'.g, w'.hist)
  {
    hide AdminsOf, PublishAll, StoreAll, Recorded, CarriesH, WithMembership;
    assert Handle(w.g, e, now, cfg) == JoinRequest(w.g, e, now);
    JoinRequestRecords(w.g, e, now, w.pub, w.hist);
    var g' := JoinRequest(w.g, e, now).g;
    MembershipKeepsGroup(w.g, e, now);
    var code := CodeOf(e);
    if w.g.meta.fields.closed && code.Some? && code.value in w.g.invites && w.g.invites[code.value].CanUseAt(now) {
      RecordRedemption(w.g, g', w.hist, e);
    } else {
      RecordJoin(w.g, g', w.hist, e);
    }
  }

  /** What a 9021 does to the group, leaving the emitted events aside. */
  lemma MembershipKeepsGroup(g: GroupState, e: Event, now: U64)
    ensures forall h: GroupState :: WithMembership(h, e).g == h
    ensures JoinRequest(g, e, now).result.Accepted? ==> JoinRequest(g, e, now).result.cmds != []
  {
  }

  lemma DeleteKeepsRecord(w: World, e: Event, now: U64, cfg: Config)
    requires Recorded(w.g, w.hist) && KeepsJoins(w, Signed(e, now)) && e.kind == DELETE_EVENT_9005
    requires Handle(w.g, e, now, cfg).result.Accepted?
    ensures var w' := Step(w, Signed(e, now), cfg); Recorded(w'.g, w'.hist)
  {
    hide AdminsOf, PublishAll, StoreAll, Recorded, CarriesH, EventIds;
    var ids := EventIds(e.tags);
    assert Handle(w.g, e, now, cfg) == DeleteEvent(w.g, e, cfg);
    OtherRecords(w.g, e, cfg, w.pub, w.hist);
    RecordDeletion(w.g, w.hist, ids);
    var g' := w.g.(invites := WithoutInvites(w.g.invites, ids));
    RecordPlain(g', g', Remaining(w.hist, ids, w.g.id), e);
  }

  lemma PlainKeepsRecord(w: World, e: Event, now: U64, cfg: Config)
    requires Sound(w) && Recorded(w.g, w.hist)
    requires e.kind !in {JOIN_9021, CREATE_INVITE_9009, DELETE_EVENT_9005}
    requires Handle(w.g, e, now, cfg).result.Accepted?
    ensures var w' := Step(w, Signed(e, now), cfg); Recorded(w'.g, w'.hist)
  {
    hide PutUser, RemoveUser, LeaveRequest, Content, EditMetadata, SetRoles, AdminsOf, PublishAll, StoreAll,
         Recorded, CarriesH, Inv;
    HandleLaws(w.g, e, now, cfg);
    HandleTouches(w.g, e, now, cfg);
    PutUserRecords(w.g, e, cfg, w.pub, w.hist);
    RemoveUserRecords(w.g, e, cfg, w.pub, w.hist);
    LeaveRequestRecords(w.g, e, w.pub, w.hist);
    ContentRecords(w.g, e, w.pub, w.hist);
    OtherRecords(w.g, e, cfg, w.pub, w.hist);
    RecordPlain(w.g, Handle(w.g, e, now, cfg).g, w.hist, e);
  }

  lemma RestartKeepsRecord(w: World, us: seq<UnsignedEvent>, claims: set<UnsignedEvent>, order: seq<Event>, cfg: Config)
    requires Sound(w) && w.g.id == w.name != "" && Recorded(w.g, w.hist)
    requires us != [] && FirstGroupTag(us[0].tags) == Some(w.name) && IsRestart(w, us, claims, order, cfg)
    ensures Recorded(Rebuild(us, order, w.g.scope, cfg), w.hist)
    ensures Rebuild(us, order, w.g.scope, cfg).id == w.name
  {
    hide Recorded, IsReplayOrder, LoadState, Inv, AreStoredClaims, FirstGroupTag;
    LoadedIsFresh(us, w.g.scope);
    Startup.NameComesBackIff(us, w.g.scope, w.name);
    ReplayOfRecorded(w.g, w.hist, LoadState(us, w.g.scope), order);
    SameAccount(Replay(LoadState(us, w.g.scope), order), Rebuild(us, order, w.g.scope, cfg), w.hist);
  }

  /** Other groups' events that are neither join requests nor invites. */
  lemma ElsewhereKeepsRecord(g: GroupState, hist: set<Event>, stored: set<Event>, gone: set<Event>)
    requires Recorded(g, hist) && forall e :: e in stored + gone ==> e.kind !in {JOIN_9021, CREATE_INVITE_9009}
    ensures Recorded(g, hist - gone + stored)
  {
    hide CodeOf, Describes, HasLimits, CarriesH, Joins;
    var rest := hist - gone + stored;
    assert forall e: Event :: e.kind in {JOIN_9021, CREATE_INVITE_9009} ==> (e in rest <==> e in hist);
    forall c ensures Joins(rest, c) == Joins(hist, c) { SameJoins(rest, hist, c); }
    forall k | k in g.joinRequests ensures exists e :: e in rest && e.kind == JOIN_9021 && e.pubkey == k {
      var e :| e in hist && e.kind == JOIN_9021 && e.pubkey == k;
      assert e in rest;
    }
    forall c | c in g.invites ensures exists e :: e in rest && IsInvite(e) && CodeOf(e) == Some(c) {
      var e :| e in hist && IsInvite(e) && CodeOf(e) == Some(c);
      assert e in rest;
    }
  }

  lemma SameJoins(rest: set<Event>, hist: set<Event>, c: string)
    requires forall e: Event :: e.kind == JOIN_9021 ==> (e in rest <==> e in hist)
    ensures Joins(rest, c) == Joins(hist, c)
  {
    hide CodeOf;
  }

  lemma SameAccount(g: GroupState, g': GroupState, hist: set<Event>)
    requires Recorded(g, hist) && g'.id == g.id && g'.invites == g.invites && g'.joinRequests == g.joinRequests
    ensures Recorded(g', hist)
  {
    hide CodeOf, Describes, HasLimits, CarriesH, Joins;
  }

  lemma StartsRecorded(w: World, cfg: Config)
    requires IsStart(w, cfg)
    ensures w.g.id == w.name != "" && Recorded(w.g, w.hist)
  {
    hide CodeOf, CarriesH, Metadata.ApplyTags;
  }

  /** Over every run from creation, 9006s, restarts on any claims and whatever others print
      included, in which no stored join request is lost or sent twice, the group keeps its
      name and restarts leave an admin, the stored history accounts for its invites. */
  lemma {:induction false} RunStaysRecorded(ws: seq<World>, inputs: seq<Input>, cfg: Config)
    requires IsRun(ws, inputs, cfg) && IsStart(ws[0], cfg) && RestartsLeaveAdmins(ws, inputs) && KeepsAllJoins(ws, inputs)
    ensures var w := ws[|inputs|]; Sound(w) && w.g.id == w.name != "" && Recorded(w.g, w.hist)
  {
    var start := ws[0];
    hide *;
    RunKeepsInvariant(ws, inputs, cfg);
    if inputs == [] {
      StartsRecorded(start, cfg);
    } else {
      var n := |inputs| - 1;
      RunShortens(ws, inputs, cfg);
      RunStaysRecorded(ws[..n + 1], inputs[..n], cfg);
      StepKeepsRecord(ws[n], inputs[n], cfg);
    }
  }

  lemma StepKeepsRecord(w: World, i: Input, cfg: Config)
    requires Sound(w) && w.g.id == w.name != "" && Recorded(w.g, w.hist) && MayStep(w, i, cfg) && KeepsJoins(w, i)
    ensures var w' := Step(w, i, cfg); w'.g.id == w'.name && w'.name == w.name && Recorded(w'.g, w'.hist)
  {
    hide Recorded, Inv, Handle, Rebuild, IsRestart, IsAbout;
    match i
    case Signed(e, now) =>
      HandleLaws(w.g, e, now, cfg);
      SignedKeepsRecord(w, e, now, cfg);
    case Elsewhere(stored, gone, _) => ElsewhereKeepsRecord(w.g, w.hist, stored, gone);
    case Restart(us, claims, order) => RestartKeepsRecord(w, us, claims, order, cfg);
  }

  /** The two together: at the end of any such run a restart brings no spent invite
      back, and forgets no pending request unless its sender is a member again. */
  lemma RestartRevivesNothing(ws: seq<World>, inputs: seq<Input>, cfg: Config,
                              us: seq<UnsignedEvent>, claims: set<UnsignedEvent>, order: seq<Event>, e: Event, now: U64)
    requires IsRun(ws, inputs, cfg) && IsStart(ws[0], cfg) && RestartsLeaveAdmins(ws, inputs) && KeepsAllJoins(ws, inputs)
    requires us != [] && IsRestart(ws[|inputs|], us, claims, order, cfg)
    requires FirstGroupTag(us[0].tags) == Some(ws[|inputs|].name)
    requires e in ws[|inputs|].hist && IsInvite(e) && (e.createdAt >= INVITE_LIMITS_SINCE || StatesLimits(e))
    ensures var live, back := ws[|inputs|].g, Rebuild(us, order, ws[|inputs|].g.scope, cfg);
      && back.invites.Keys == live.invites.Keys
      && CodeOf(e).Some? && CodeOf(e).value in live.invites
      && back.invites[CodeOf(e).value].uses >= live.invites[CodeOf(e).value].uses
      && (back.invites[CodeOf(e).value].CanUseAt(now) ==> live.invites[CodeOf(e).value].CanUseAt(now))
      && live.joinRequests - back.members.Keys <= back.joinRequests
  {
    var w := ws[|inputs|];
    hide Recorded, LoadState, Inv, IsRun, IsStart, Replay, IsReplayOrder, KeepsJoins, CodeOf, AreStoredClaims, FirstGroupTag;
    RunStaysRecorded(ws, inputs, cfg);
    LoadedIsFresh(us, w.g.scope);
    Startup.NameComesBackIff(us, w.g.scope, w.name);
    var loaded := LoadState(us, w.g.scope);
    SpentStaysSpent(w.g, w.hist, loaded, order, e, now);
    ReplayOfRecorded(w.g, w.hist, loaded, order);
    RequestsComeBack(w.g, w.hist, loaded, order);
    ReplayKeeps(loaded, order);
  }

  /** Two groups that agree on everything but the order of unspecified choices. */
  predicate SameGroup(g: GroupState, h: GroupState) {
    && g.scope == h.scope && g.members == h.members && g.joinRequests == h.joinRequests
    && g.invites.Keys == h.invites.Keys
    && (forall c :: c in g.invites ==>
          && g.invites[c].uses == h.invites[c].uses && g.invites[c].eventId == h.invites[c].eventId
          && g.invites[c].reusable == h.invites[c].reusable
          && (g.invites[c].redeemedBy.Some? <==> h.invites[c].redeemedBy.Some?))
  }

  /** Startup does not depend on the order events come out of the store: members with
      their roles, requests and invites are the same, and so are name and metadata when
      the claims of others tell nothing new.  So a second restart right after a first
      changes nothing. */
  lemma RestartIsDeterminate(w: World, us: seq<UnsignedEvent>, claims: set<UnsignedEvent>, order: seq<Event>,
                             us': seq<UnsignedEvent>, order': seq<Event>, cfg: Config)
    requires OneInvitePerCode(w.hist) && w.name != ""
    requires us != [] && IsRestart(w, us, claims, order, cfg)
    requires us' != [] && IsReplayOrder(order', w.hist) && Elements(us') == Elements(us)
    ensures var g, h := Rebuild(us, order, w.g.scope, cfg), Rebuild(us', order', w.g.scope, cfg);
      && SameGroup(g, h)
      && (IsHarmless(w, claims, cfg) ==> g.id == h.id && g.meta.fields == h.meta.fields)
  {
    hide LoadState, Replay, IsReplayOrder, AreStoredClaims, Startup.ArePublished, IsHarmless;
    LoadedIsFresh(us, w.g.scope);
    LoadedIsFresh(us', w.g.scope);
    RolesAreTheSame(us, us', w.g.scope);
    ReplaysAgree(LoadState(us, w.g.scope), LoadState(us', w.g.scope), w.hist, order, order');
    ReplayKeeps(LoadState(us, w.g.scope), order);
    ReplayKeeps(LoadState(us', w.g.scope), order');
    if IsHarmless(w, claims, cfg) { HarmlessAgree(w, us, claims, order, us', order', cfg); }
  }

  lemma HarmlessAgree(w: World, us: seq<UnsignedEvent>, claims: set<UnsignedEvent>, order: seq<Event>,
                      us': seq<UnsignedEvent>, order': seq<Event>, cfg: Config)
    requires w.name != "" && us != [] && IsRestart(w, us, claims, order, cfg) && IsHarmless(w, claims, cfg)
    requires us' != [] && IsReplayOrder(order', w.hist) && Elements(us') == Elements(us)
    ensures LoadState(us, w.g.scope).id == LoadState(us', w.g.scope).id
    ensures LoadState(us, w.g.scope).meta.fields == LoadState(us', w.g.scope).meta.fields
  {
    hide LoadState, IsReplayOrder, AreStoredClaims, Startup.ArePublished, Startup.TellNothingNew, Startup.ListNobodyNew,
         Metadata.Reloaded, FirstGroupTag;
    FullReading(w, us, claims, order, cfg);
    FullReading(w, us', claims, order', cfg);
    FirstNames(w, us, claims, order, cfg);
    FirstNames(w, us', claims, order', cfg);
    Startup.NameComesBackIff(us, w.g.scope, w.name);
    Startup.NameComesBackIff(us', w.g.scope, w.name);
  }

  /** Roles add up, so their order does not matter either. */
  lemma RolesAreTheSame(us: seq<UnsignedEvent>, us': seq<UnsignedEvent>, scope: Scope)
    requires us != [] && us' != [] && Elements(us) == Elements(us')
    ensures LoadState(us, scope).members == LoadState(us', scope).members
  {
    hide LoadAll, Startup.Lists, Startup.Grants;
    assert forall u :: (u in us <==> u in Elements(us)) && (u in us' <==> u in Elements(us'));
    var m, n := LoadState(us, scope).members, LoadState(us', scope).members;
    forall k ensures k in m <==> k in n ensures k in m && k in n ==> m[k] == n[k] {
      Startup.RolesAddUp(FromEvent(us[0], scope), us, k, Admin);
      Startup.RolesAddUp(FromEvent(us'[0], scope), us', k, Admin);
      if k in m && k in n {
        forall r ensures r in m[k] <==> r in n[k] {
          Startup.RolesAddUp(FromEvent(us[0], scope), us, k, r);
          Startup.RolesAddUp(FromEvent(us'[0], scope), us', k, r);
        }
      }
    }
  }

  lemma ReplaysAgree(g: GroupState, h: GroupState, hist: set<Event>, order: seq<Event>, order': seq<Event>)
    requires OneInvitePerCode(hist) && IsReplayOrder(order, hist) && IsReplayOrder(order', hist)
    requires g.members == h.members
    requires g.invites == map[] == h.invites && g.joinRequests == {} == h.joinRequests
    ensures var r, r' := Replay(g, order), Replay(h, order');
      && r.joinRequests == r'.joinRequests && r.invites.Keys == r'.invites.Keys
      && (forall c :: c in r.invites ==>
            && r.invites[c].uses == r'.invites[c].uses && r.invites[c].eventId == r'.invites[c].eventId
            && r.invites[c].reusable == r'.invites[c].reusable
            && (r.invites[c].redeemedBy.Some? <==> r'.invites[c].redeemedBy.Some?))
  {
    hide CodeOf, Describes, HasLimits, Joins, Replay;
    OrderIsGood(order, hist);
    OrderIsGood(order', hist);
    ReplayMeans(g, order);
    ReplayMeans(h, order');
    var r, r' := Replay(g, order), Replay(h, order');
    forall c | c in r.invites
      ensures c in r'.invites && r.invites[c].eventId == r'.invites[c].eventId
        && r.invites[c].reusable == r'.invites[c].reusable
    {
      var e :| e in Elements(order) && IsInvite(e) && CodeOf(e) == Some(c);
      SameEvent(r.invites[c], r'.invites[c], e);
    }
    forall c | c in r'.invites ensures c in r.invites {
      var e :| e in Elements(order) && IsInvite(e) && CodeOf(e) == Some(c);
    }
  }

  lemma RequestsComeBack(g: GroupState, hist: set<Event>, loaded: GroupState, order: seq<Event>)
    requires Recorded(g, hist) && IsReplayOrder(order, hist)
    requires loaded.invites == map[] && loaded.joinRequests == {}
    ensures g.joinRequests - loaded.members.Keys <= Replay(loaded, order).joinRequests
  {
    hide CodeOf, Describes, HasLimits, CarriesH, Joins, Counted;
    OrderIsGood(order, hist);
    ReplayMeans(loaded, order);
    forall k | k in g.joinRequests - loaded.members.Keys ensures k in Replay(loaded, order).joinRequests {
      var e :| e in hist && e.kind == JOIN_9021 && e.pubkey == k;
      assert e in Elements(order);
    }
  }

  /** Why a repeated 9021 must be excluded: the store keeps one copy, so an invite
      whose count was exact is counted as often by replay exactly when the request
      that redeems it was not stored before. */
  lemma RepeatedJoinIsForgotten(w: World, e: Event, now: U64, cfg: Config, loaded: GroupState, order: seq<Event>)
    requires Recorded(w.g, w.hist) && IsAbout(e, w.name) && e.kind == JOIN_9021
    requires e.pubkey !in w.g.members && w.g.meta.fields.closed && AdminsOf(w.g.members) != {}
    requires CodeOf(e).Some? && CodeOf(e).value in w.g.invites && w.g.invites[CodeOf(e).value].CanUseAt(now)
    requires w.g.invites[CodeOf(e).value].uses == |Joins(w.hist, CodeOf(e).value)| < U32_MAX
    requires loaded.invites == map[] && loaded.joinRequests == {}
    requires IsReplayOrder(order, Step(w, Signed(e, now), cfg).hist)
    ensures var w' := Step(w, Signed(e, now), cfg);
      && CodeOf(e).value in w'.g.invites && CodeOf(e).value in Replay(loaded, order).invites
      && (Replay(loaded, order).invites[CodeOf(e).value].uses >= w'.g.invites[CodeOf(e).value].uses <==> e !in w.hist)
  {
    hide CodeOf, Describes, HasLimits, CarriesH, Joins, Step, Replay, IsReplayOrder, GroupIdOf, HasTag, AdminsOf;
    var code := CodeOf(e).value;
    RedemptionCounts(w, e, now, cfg);
    var w' := Step(w, Signed(e, now), cfg);
    StillOneInvite(w.hist, e);
    var f :| f in w.hist && IsInvite(f) && CodeOf(f) == Some(code);
    ReplayedUses(loaded, order, w'.hist, f);
    hide Recorded, IsAbout, OneInvitePerCode;
    JoinsPlus(w.hist, e, code);
    if e in w.hist { assert w.hist + {e} == w.hist; }
  }

  /** Replay counts every stored request once. */
  lemma ReplayedUses(loaded: GroupState, order: seq<Event>, hist: set<Event>, f: Event)
    requires loaded.invites == map[] && loaded.joinRequests == {}
    requires IsReplayOrder(order, hist) && OneInvitePerCode(hist) && f in hist && IsInvite(f) && CodeOf(f).Some?
    ensures var invites := Replay(loaded, order).invites;
      CodeOf(f).value in invites && invites[CodeOf(f).value].uses == Capped(|Joins(hist, CodeOf(f).value)|)
  {
    hide CodeOf, Describes, HasLimits, Joins, Replay, IsReplayOrder, Elements;
    OrderIsGood(order, hist);
    ReplayMeans(loaded, order);
    HistoricMeans(hist);
  }

  lemma RedemptionCounts(w: World, e: Event, now: U64, cfg: Config)
    requires e.kind == JOIN_9021 && e.pubkey !in w.g.members && w.g.meta.fields.closed && AdminsOf(w.g.members) != {}
    requires CodeOf(e).Some? && CodeOf(e).value in w.g.invites && w.g.invites[CodeOf(e).value].CanUseAt(now)
    requires w.g.invites[CodeOf(e).value].uses < U32_MAX
    ensures var w' := Step(w, Signed(e, now), cfg);
      && w'.hist == w.hist + {e} && CodeOf(e).value in w'.g.invites
      && w'.g.invites[CodeOf(e).value].uses == w.g.invites[CodeOf(e).value].uses + 1
  {
    hide CodeOf, StoreAll, PublishAll, AdminsOf;
    assert Handle(w.g, e, now, cfg) == JoinRequest(w.g, e, now);
    JoinRequestRecords(w.g, e, now, w.pub, w.hist);
    MembershipKeepsGroup(w.g, e, now);
    StillHasAdmin(w.g, e.pubkey, w.g.invites[CodeOf(e).value].roles);
  }

  lemma StillOneInvite(hist: set<Event>, e: Event)
    requires OneInvitePerCode(hist) && !IsInvite(e)
    ensures OneInvitePerCode(hist + {e})
  {
    hide CodeOf;
  }

  lemma StillHasAdmin(g: GroupState, k: PublicKey, roles: set<Role>)
    requires AdminsOf(g.members) != {} && k !in g.members
    ensures AdminsOf(g.members[k := roles]) != {}
  {
    AdminsAfterPut(g.members, k, roles);
    assert k !in AdminsOf(g.members);
  }
}
