/** Who may read a group, and the cursor-paged walk through its messages. */
module Paging {
  import opened Nostr
  import opened GroupModel
  import opened Newest
  import opened Sorting

  const MESSAGE_KINDS: set<nat> := {9, 11}

  // ----- Visibility ---------------------------------------------------------------

  datatype Reader = Reader(pubkey: PublicKey, relay: PublicKey, admins: set<PublicKey>) {
    predicate IsRelayAdmin() {
      pubkey == relay || pubkey in admins
    }
  }

  predicate CanReadGroup(g: Option<GroupState>, r: Reader) {
    g.Some? && (!g.value.meta.fields.isPrivate || r.IsRelayAdmin() || r.pubkey in g.value.members)
  }

  /** The group's own answer for somebody who may not even be authenticated. */
  function GroupShows(g: GroupState, authed: Option<PublicKey>, relay: PublicKey, e: Event): Option<bool> {
    var open := if IsStateKind(e.kind)
      then !g.meta.fields.hidden && (e.kind == METADATA_39000 || !g.meta.fields.isPrivate)
      else !g.meta.fields.isPrivate;
    if open then Some(true)
    else match authed
      case None => None
      case Some(k) =>
        Some(k == relay || k == e.pubkey || g.IsAdmin(k) || (k in g.members && e.kind != CREATE_INVITE_9009))
  }

  predicate CanSeeEvent(g: Option<GroupState>, r: Reader, e: Event) {
    r.IsRelayAdmin() || (g.Some? && GroupShows(g.value, Some(r.pubkey), r.relay, e) == Some(true))
  }

  /** Whoever may read the group sees all of it, but for two things: the state events
      of a hidden group, unless one is in it, and a private group's invite codes,
      unless one is admin; one's own events excepted. */
  lemma WhatReadersSee(g: Option<GroupState>, r: Reader, e: Event)
    requires CanReadGroup(g, r)
    ensures CanSeeEvent(g, r, e) <==>
      || r.IsRelayAdmin() || r.pubkey == e.pubkey || g.value.IsAdmin(r.pubkey)
      || (!(IsStateKind(e.kind) && g.value.meta.fields.hidden && r.pubkey !in g.value.members)
          && !(e.kind == CREATE_INVITE_9009 && g.value.meta.fields.isPrivate))
  {
  }

  /** Whoever may not read it sees its own events, and of a group that is not hidden the
      metadata; of an id without a group only the relay and its admins see anything. */
  lemma WhatOutsidersSee(g: Option<GroupState>, r: Reader, e: Event)
    requires !CanReadGroup(g, r)
    ensures CanSeeEvent(g, r, e) <==>
      if g.None? then r.pubkey == r.relay || r.pubkey in r.admins
      else r.pubkey == e.pubkey || (e.kind == 39000 && !g.value.meta.fields.hidden)
  {
  }

  /** Of the messages of others a managed group shows all to who may read it and none to
      anybody else. */
  lemma ReadersSeeMessages(g: Option<GroupState>, r: Reader, e: Event)
    requires g.Some? && e.kind in {9, 11} && e.pubkey != r.pubkey
    ensures CanSeeEvent(g, r, e) <==> CanReadGroup(g, r)
  {
    if CanReadGroup(g, r) { WhatReadersSee(g, r, e); } else { WhatOutsidersSee(g, r, e); }
  }

  /** Somebody who has not said who it is sees what every stranger sees, and is asked to
      say so for the rest. */
  lemma StrangersSee(g: GroupState, relay: PublicKey, e: Event, k: PublicKey)
    requires k != relay && k != e.pubkey && k !in g.members
    ensures GroupShows(g, None, relay, e) == if GroupShows(g, Some(k), relay, e) == Some(true) then Some(true) else None
  {
  }

  function Visible(g: Option<GroupState>, r: Reader, events: seq<Event>): (v: seq<Event>)
    ensures forall e :: e in v <==> e in events && CanSeeEvent(g, r, e)
  {
    if events == [] then []
    else
      var last := events[|events| - 1];
      Visible(g, r, events[..|events| - 1]) + (if CanSeeEvent(g, r, last) then [last] else [])
  }

  /** The filter drops no message once the group can be read. */
  lemma {:induction false} FilterDropsNothing(g: Option<GroupState>, r: Reader, events: seq<Event>)
    requires CanReadGroup(g, r) && forall e :: e in events ==> e.kind in MESSAGE_KINDS
    ensures Visible(g, r, events) == events
  {
    if events != [] {
      var n := |events| - 1;
      assert events[n] in events;
      MessagesAreShown(g, r, events[n]);
      FilterDropsNothing(g, r, events[..n]);
      hide CanSeeEvent;
      assert events[..n] + [events[n]] == events;
    }
  }

  lemma MessagesAreShown(g: Option<GroupState>, r: Reader, e: Event)
    requires CanReadGroup(g, r) && e.kind in MESSAGE_KINDS
    ensures CanSeeEvent(g, r, e)
  {
    WhatReadersSee(g, r, e);
  }

  // ----- One page --------------------------------------------------------------------

  datatype Page = Page(events: seq<Event>, nextBefore: Option<U64>)

  /** How many messages a page may have: fifty unless asked otherwise, at least one. */
  function PageLimit(requested: Option<U64>, maxPageLimit: U64): (limit: nat)
    ensures 1 <= limit < U64_SIZE
    ensures forall n: U64 :: requested == Some(n) && 1 <= n <= maxPageLimit ==> limit == n
    ensures requested.Some? && requested.value > maxPageLimit && maxPageLimit >= 1 ==> limit == maxPageLimit
    ensures requested.None? && maxPageLimit >= 1 ==> limit == if maxPageLimit < 50 then maxPageLimit else 50
    ensures requested == Some(0) || maxPageLimit == 0 ==> limit == 1
  {
    var wanted: nat := match requested case None => 50 case Some(n) => n;
    var capped := if wanted < maxPageLimit then wanted else maxPageLimit;
    if capped < 1 then 1 else capped
  }

  /** Twice as many are asked for, in case some are not for this reader to see. */
  function FetchLimit(limit: nat): (most: nat)
    ensures most == limit + limit || (most == U64_SIZE - 1 && limit + limit > most)
  {
    if 2 * limit < U64_SIZE then 2 * limit else U64_SIZE - 1
  }

  /** The stored messages a request with this cursor asks for. */
  function Upto(messages: set<Event>, before: Option<U64>): set<Event> {
    match before
    case None => messages
    case Some(b) => set e | e in messages && e.createdAt <= (if b == 0 then 0 else b - 1)
  }

  /** A page is continued before the second of its last message. */
  function Cursor(page: seq<Event>): U64
    requires page != []
  {
    page[|page| - 1].createdAt
  }

  /** `found` is what the query answered.  Readable is what is public, or what one is a
      member of, or anything for the relay and its admins. */
  method MessagesForGroup(g: Option<GroupState>, r: Reader, found: seq<Event>, requested: Option<U64>, maxPageLimit: U64)
    returns (page: Option<Page>)
    ensures page.Some? <==>
      && g.Some?
      && (!g.value.meta.fields.isPrivate || r.pubkey in g.value.members || r.pubkey == r.relay || r.pubkey in r.admins)
    ensures page.Some? ==>
      page.value.events == Take(Sort(Before, Visible(g, r, found)), PageLimit(requested, maxPageLimit))
    ensures page.Some? && page.value.events == [] ==> page.value.nextBefore == None
    ensures page.Some? && page.value.events != [] ==> page.value.nextBefore == Some(Cursor(page.value.events))
  {
    if !CanReadGroup(g, r) { return None; }
    var events := Visible(g, r, found);
    events := Sort(Before, events);
    events := Take(events, PageLimit(requested, maxPageLimit));
    page := Some(Page(events, if events == [] then None else Some(Cursor(events))));
  }

  /** The page is the newest of what was asked for. */
  lemma PageIsNewest(g: Option<GroupState>, r: Reader, messages: set<Event>, before: Option<U64>, found: seq<Event>,
                     q: seq<Event>, limit: nat)
    requires CanReadGroup(g, r) && 1 <= limit < U64_SIZE && IdsIdentify(messages)
    requires forall e :: e in messages ==> e.kind in MESSAGE_KINDS
    requires IsNewest(q, Upto(messages, before), FetchLimit(limit))
    requires IsDistinct(found) && Elements(found) == Elements(q)
    ensures IsNewest(Take(Sort(Before, Visible(g, r, found)), limit), Upto(messages, before), limit)
  {
    hide Sort, Take, CanReadGroup, CanSeeEvent, Before;
    forall e | e in found ensures e.kind in MESSAGE_KINDS { assert e in Elements(q); }
    FilterDropsNothing(g, r, found);
    SortedPrefixIsNewest(found, limit);
    NewestOfNewest(Take(Sort(Before, found), limit), q, Upto(messages, before), limit, FetchLimit(limit));
  }
}
