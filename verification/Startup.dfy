/** What startup makes of the state events it finds: the three the relay published
    last, and whatever 39000, 39001 and 39002 events others have stored under the
    group's name.  The query does not ask who signed them. */
module Startup {
  import opened Nostr
  import opened GroupModel
  import opened Printing
  import opened Sorting
  import Metadata

  // ----- Members ---------------------------------------------------------------

  /** The event is a membership list with an entry for `k`. */
  predicate Lists(u: UnsignedEvent, k: PublicKey) {
    u.kind in {ADMINS_39001, MEMBERS_39002} && exists n :: n in ParsedMembers(TagsOf(u.tags, P)) && n.key == k
  }

  /** The event is a membership list with an entry that gives `k` the role: a 39001
      gives what its entry says, a 39002 membership. */
  predicate Grants(u: UnsignedEvent, k: PublicKey, r: Role) {
    || (u.kind == ADMINS_39001 && exists n :: n in ParsedMembers(TagsOf(u.tags, P)) && n.key == k && r in n.roles)
    || (u.kind == MEMBERS_39002 && r == Member && Lists(u, k))
  }

  predicate Promotes(u: UnsignedEvent, k: PublicKey) {
    Grants(u, k, Admin)
  }

  predicate HasRole(m: Members, k: PublicKey, r: Role) {
    k in m && r in m[k]
  }

  lemma {:induction false} EntriesMean(m: Members, kind: nat, names: seq<Named>, k: PublicKey, r: Role)
    ensures var x := LoadEntries(m, kind, names);
      && (k in x <==> k in m || exists n :: n in names && n.key == k)
      && (HasRole(x, k, r) <==>
            (HasRole(m, k, r) ||
             exists n :: n in names && n.key == k && (if kind == MEMBERS_39002 then r == Member else r in n.roles)))
  {
    if names != [] {
      var init, last := names[..|names| - 1], names[|names| - 1];
      EntriesMean(m, kind, init, k, r);
      assert forall n :: n in names <==> n in init || n == last;
    }
  }

  lemma LoadOneAddsUp(g: GroupState, u: UnsignedEvent, k: PublicKey, r: Role)
    ensures var x := LoadOne(g, u).members;
      && (k in x <==> k in g.members || Lists(u, k))
      && (HasRole(x, k, r) <==> HasRole(g.members, k, r) || Grants(u, k, r))
  {
    hide LoadEntries, ParsedMembers, TagsOf, Metadata.ApplyTags;
    EntriesMean(g.members, u.kind, ParsedMembers(TagsOf(u.tags, P)), k, r);
  }

  /** Lists add up: whoever some list names is a member, and has every role that some
      list gives, in whatever order they come. */
  lemma {:induction false} RolesAddUp(g: GroupState, us: seq<UnsignedEvent>, k: PublicKey, r: Role)
    ensures var x := LoadAll(g, us).members;
      && (k in x <==> k in g.members || exists u :: u in us && Lists(u, k))
      && (HasRole(x, k, r) <==> HasRole(g.members, k, r) || exists u :: u in us && Grants(u, k, r))
  {
    if us != [] {
      hide Lists, Grants, LoadOne, HasRole;
      var init, last := us[..|us| - 1], us[|us| - 1];
      RolesAddUp(g, init, k, r);
      LoadOneAddsUp(LoadAll(g, init), last, k, r);
      assert forall u :: u in us <==> u in init || u == last;
    }
  }

  lemma AdminListMeans(a: UnsignedEvent, id: string, admins: set<PublicKey>, k: PublicKey)
    requires IsAdminList(a, id, admins)
    ensures (Lists(a, k) <==> k in admins) && (Promotes(a, k) <==> k in admins)
  {
    hide LoadEntries, ParsedMembers, TagsOf;
    LoadAdminList(map[], a, id, admins, k);
    EntriesMean(map[], a.kind, ParsedMembers(TagsOf(a.tags, P)), k, Admin);
  }

  lemma MemberListMeans(b: UnsignedEvent, id: string, keys: set<PublicKey>, k: PublicKey)
    requires IsMemberList(b, id, keys)
    ensures (Lists(b, k) <==> k in keys) && !Promotes(b, k)
  {
    hide LoadEntries, ParsedMembers, TagsOf;
    LoadMemberList(map[], b, id, keys, k);
    EntriesMean(map[], b.kind, ParsedMembers(TagsOf(b.tags, P)), k, Admin);
  }

  lemma RelayListsMean(a: UnsignedEvent, b: UnsignedEvent, id: string, admins: set<PublicKey>,
                       keys: set<PublicKey>, k: PublicKey)
    requires IsAdminList(a, id, admins) && IsMemberList(b, id, keys)
    ensures (Lists(a, k) <==> k in admins) && (Promotes(a, k) <==> k in admins)
    ensures (Lists(b, k) <==> k in keys) && !Promotes(b, k)
  {
    hide IsAdminList, IsMemberList, Lists, Grants;
    AdminListMeans(a, id, admins, k);
    MemberListMeans(b, id, keys, k);
  }

  /** `us` is what the query returns: the published three and the claims of others. */
  ghost predicate IsRead(us: seq<UnsignedEvent>, a: UnsignedEvent, b: UnsignedEvent, c: UnsignedEvent,
                         claims: set<UnsignedEvent>) {
    Elements(us) == {a, b, c} + claims
  }

  /** The newest 39001, 39002 and 39000 the relay signed for this group. */
  ghost predicate ArePublished(a: UnsignedEvent, b: UnsignedEvent, c: UnsignedEvent, id: string, m: Metadata.Meta,
                               url: string, admins: set<PublicKey>, keys: set<PublicKey>) {
    IsAdminList(a, id, admins) && IsMemberList(b, id, keys) && IsMetadata(c, id, m, url) && Metadata.Valid(m)
  }

  function ClaimedKeys(claims: set<UnsignedEvent>): set<PublicKey> {
    set u, n | u in claims && u.kind in {ADMINS_39001, MEMBERS_39002} && n in ParsedMembers(TagsOf(u.tags, P)) :: n.key
  }

  function ClaimedAdmins(claims: set<UnsignedEvent>): set<PublicKey> {
    set u, n | u in claims && u.kind == ADMINS_39001 && n in ParsedMembers(TagsOf(u.tags, P)) && Admin in n.roles :: n.key
  }

  lemma ClaimsMean(claims: set<UnsignedEvent>, k: PublicKey)
    ensures k in ClaimedKeys(claims) <==> exists u :: u in claims && Lists(u, k)
    ensures k in ClaimedAdmins(claims) <==> exists u :: u in claims && Promotes(u, k)
  {
    hide ParsedMembers, TagsOf;
    if u :| u in claims && Lists(u, k) {
      var n :| n in ParsedMembers(TagsOf(u.tags, P)) && n.key == k;
      assert n.key in ClaimedKeys(claims);
    }
    if u :| u in claims && Promotes(u, k) {
      var n :| n in ParsedMembers(TagsOf(u.tags, P)) && n.key == k && Admin in n.roles;
      assert n.key in ClaimedAdmins(claims);
    }
  }

  /** What the relay's own among the events read list and promote. */
  ghost predicate ListsOf(own: set<UnsignedEvent>, admins: set<PublicKey>, keys: set<PublicKey>) {
    forall k: PublicKey ::
      && ((exists u :: u in own && Lists(u, k)) <==> k in keys + admins)
      && ((exists u :: u in own && Promotes(u, k)) <==> k in admins)
  }

  /** Exactly who is in and who is admin after startup, whatever of the relay's own is
      still stored. */
  lemma StartupMembersOf(us: seq<UnsignedEvent>, scope: Scope, own: set<UnsignedEvent>, claims: set<UnsignedEvent>,
                         admins: set<PublicKey>, keys: set<PublicKey>)
    requires us != [] && Elements(us) == own + claims && ListsOf(own, admins, keys)
    ensures var x := LoadState(us, scope).members;
      && x.Keys == keys + admins + ClaimedKeys(claims)
      && AdminsOf(x) == admins + ClaimedAdmins(claims)
  {
    hide LoadAll, Lists, Grants, ClaimedKeys, ClaimedAdmins, Elements;
    var x := LoadState(us, scope).members;
    assert forall u :: u in us <==> u in own || u in claims by { ReadMeans(us, own, claims); }
    forall k ensures k in x <==> k in keys + admins + ClaimedKeys(claims)
      ensures HasRole(x, k, Admin) <==> k in admins + ClaimedAdmins(claims)
    {
      RolesAddUp(FromEvent(us[0], scope), us, k, Admin);
      ClaimsMean(claims, k);
    }
  }

  lemma ReadMeans(us: seq<UnsignedEvent>, own: set<UnsignedEvent>, claims: set<UnsignedEvent>)
    requires Elements(us) == own + claims
    ensures forall u :: u in us <==> u in own || u in claims
  {
    assert forall u :: u in us <==> u in Elements(us);
  }

  lemma AllThreeList(a: UnsignedEvent, b: UnsignedEvent, c: UnsignedEvent, id: string, m: Metadata.Meta, url: string,
                     admins: set<PublicKey>, keys: set<PublicKey>)
    requires ArePublished(a, b, c, id, m, url, admins, keys)
    ensures ListsOf({a, b, c}, admins, keys)
  {
    hide Lists, Grants, IsAdminList, IsMemberList, IsMetadata, Metadata.Valid;
    forall k: PublicKey
      ensures (exists u :: u in {a, b, c} && Lists(u, k)) <==> k in keys + admins
      ensures (exists u :: u in {a, b, c} && Promotes(u, k)) <==> k in admins
    {
      RelayListsMean(a, b, id, admins, keys, k);
      MetadataListsNobody(c, id, m, url, k);
      assert a in {a, b, c} && b in {a, b, c};
    }
  }

  lemma StartupMembers(us: seq<UnsignedEvent>, scope: Scope, a: UnsignedEvent, b: UnsignedEvent, c: UnsignedEvent,
                       claims: set<UnsignedEvent>, id: string, m: Metadata.Meta, url: string,
                       admins: set<PublicKey>, keys: set<PublicKey>)
    requires us != [] && IsRead(us, a, b, c, claims) && ArePublished(a, b, c, id, m, url, admins, keys)
    ensures var x := LoadState(us, scope).members;
      && x.Keys == keys + admins + ClaimedKeys(claims)
      && AdminsOf(x) == admins + ClaimedAdmins(claims)
  {
    hide ArePublished, ListsOf, LoadState, ClaimedKeys, ClaimedAdmins, AdminsOf;
    AllThreeList(a, b, c, id, m, url, admins, keys);
    StartupMembersOf(us, scope, {a, b, c}, claims, admins, keys);
  }

  lemma MetadataListsNobody(c: UnsignedEvent, id: string, m: Metadata.Meta, url: string, k: PublicKey)
    requires IsMetadata(c, id, m, url)
    ensures !Lists(c, k) && !Promotes(c, k)
  {
    hide ParsedMembers, TagsOf;
  }

  /** The claims name nobody who is not listed, and make nobody admin who is not. */
  predicate ListNobodyNew(claims: set<UnsignedEvent>, admins: set<PublicKey>, keys: set<PublicKey>) {
    ClaimedKeys(claims) <= keys + admins && ClaimedAdmins(claims) <= admins
  }

  /** Startup rebuilds the published membership exactly when the claims of others
      list nobody new. */
  lemma MembersComeBackIff(us: seq<UnsignedEvent>, scope: Scope, a: UnsignedEvent, b: UnsignedEvent, c: UnsignedEvent,
                           claims: set<UnsignedEvent>, id: string, m: Metadata.Meta, url: string,
                           admins: set<PublicKey>, keys: set<PublicKey>)
    requires us != [] && IsRead(us, a, b, c, claims) && ArePublished(a, b, c, id, m, url, admins, keys)
    ensures var x := LoadState(us, scope).members;
      x.Keys == keys + admins && AdminsOf(x) == admins <==> ListNobodyNew(claims, admins, keys)
  {
    hide LoadState, ArePublished, IsRead, ClaimedKeys, ClaimedAdmins, AdminsOf;
    StartupMembers(us, scope, a, b, c, claims, id, m, url, admins, keys);
  }

  // ----- The name ------------------------------------------------------------------

  /** The group comes back under its own id exactly when the event that happens to be
      read first names it first. */
  lemma NameComesBackIff(us: seq<UnsignedEvent>, scope: Scope, id: string)
    requires us != [] && id != ""
    ensures LoadState(us, scope).id == id <==> FirstGroupTag(us[0].tags) == Some(id)
  {
    hide FirstGroupTag;
    LoadingKeeps(FromEvent(us[0], scope), us);
  }

  lemma {:induction false} LoadingKeeps(g: GroupState, us: seq<UnsignedEvent>)
    ensures var r := LoadAll(g, us); r == g.(meta := r.meta, members := r.members)
  {
    hide LoadMembers, Metadata.ApplyTags;
    if us != [] { LoadingKeeps(g, us[..|us| - 1]); }
  }

  // ----- Metadata --------------------------------------------------------------------

  /** The fields after the 39000s among some events. */
  function FieldsAfter(f: Metadata.Fields, us: seq<UnsignedEvent>): Metadata.Fields {
    if us == [] then f
    else
      var before, u := FieldsAfter(f, us[..|us| - 1]), us[|us| - 1];
      if u.kind == METADATA_39000 then Metadata.OnTop(before, u.tags) else before
  }

  /** What the event read first, whatever its kind, makes of a fresh group. */
  function FirstFields(u: UnsignedEvent): Metadata.Fields {
    match FirstGroupTag(u.tags)
    case None => Metadata.FreshFields("")
    case Some(id) => Metadata.OnTop(Metadata.FreshFields(id), u.tags)
  }

  lemma {:induction false} LoadingFields(g: GroupState, us: seq<UnsignedEvent>)
    ensures LoadAll(g, us).meta.fields == FieldsAfter(g.meta.fields, us)
  {
    hide LoadMembers, Metadata.EditOf, Metadata.Settle, Metadata.Overlay;
    if us != [] { LoadingFields(g, us[..|us| - 1]); }
  }

  lemma StartupFields(us: seq<UnsignedEvent>, scope: Scope)
    requires us != []
    ensures LoadState(us, scope).meta.fields == FieldsAfter(FirstFields(us[0]), us)
  {
    LoadingFields(FromEvent(us[0], scope), us);
    hide LoadAll, FieldsAfter, FirstGroupTag, Metadata.EditOf, Metadata.Settle, Metadata.Overlay;
  }

  /** Another event read before the published one leaves nothing behind: no text the
      group has not got, and no `hidden` that nothing clears later. */
  predicate LeavesNoTrace(u: UnsignedEvent, claims: set<UnsignedEvent>, r: Metadata.Fields) {
    && Metadata.IsUnmarked(FirstFields(u), r)
    && (Metadata.LeavesHidden(r) && FirstFields(u).hidden ==> IsCleared(claims))
  }

  predicate IsCleared(claims: set<UnsignedEvent>) {
    exists v :: v in claims && v.kind == METADATA_39000 && Metadata.EditOf(v.tags).access.sawPublic
  }

  /** Every other 39000 tells nothing new, and every other list, which counts only
      when it is read first, leaves no trace. */
  ghost predicate TellNothingNew(claims: set<UnsignedEvent>, r: Metadata.Fields) {
    forall u :: u in claims ==>
      if u.kind == METADATA_39000 then Metadata.TellsNothingNew(r, u.tags) else LeavesNoTrace(u, claims, r)
  }

  /** How far the fields are on their way to the published ones. */
  predicate OnTheWay(f: Metadata.Fields, r: Metadata.Fields, published: bool, cleared: bool) {
    && Metadata.IsUnmarked(f, r)
    && (Metadata.LeavesHidden(r) && cleared ==> !f.hidden)
    && (published ==> f == r || (Metadata.LeavesHidden(r) && f == r.(hidden := true)))
  }

  lemma StepOnTheWay(f: Metadata.Fields, r: Metadata.Fields, published: bool, cleared: bool, u: UnsignedEvent,
                     c: UnsignedEvent, id: string, m: Metadata.Meta, url: string)
    requires r == Metadata.Reloaded(Metadata.FreshMeta(id), m, url).fields && IsMetadata(c, id, m, url) && Metadata.Valid(m)
    requires OnTheWay(f, r, published, cleared) && u.kind == METADATA_39000
    requires u == c || Metadata.TellsNothingNew(r, u.tags)
    ensures OnTheWay(Metadata.OnTop(f, u.tags), r, published || u == c,
                     cleared || Metadata.EditOf(u.tags).access.sawPublic)
  {
    hide Metadata.OnTop, Metadata.EditOf, Metadata.IsUnmarked, Metadata.IsMetadataEvent, Metadata.Valid,
         Metadata.Reloaded;
    if u == c {
      Metadata.PublishedOverrides(f, m, id, url, c.tags);
      PublishedClears(r, c, id, m, url);
    } else {
      Metadata.NothingNewKeeps(f, r, u.tags);
    }
  }

  /** When the published event clears `hidden` it does not leave it alone. */
  lemma PublishedClears(r: Metadata.Fields, c: UnsignedEvent, id: string, m: Metadata.Meta, url: string)
    requires r == Metadata.Reloaded(Metadata.FreshMeta(id), m, url).fields && IsMetadata(c, id, m, url) && Metadata.Valid(m)
    ensures Metadata.LeavesHidden(r) ==> !Metadata.EditOf(c.tags).access.sawPublic
  {
    var u :| Metadata.Enumerates(u, m.unknown) && c.tags == Metadata.MetadataTags(id, m.fields, u, url);
    Metadata.EditOfPrinted(id, m, u, url);
  }

  predicate HasCleared(us: seq<UnsignedEvent>) {
    exists u :: u in us && u.kind == METADATA_39000 && Metadata.EditOf(u.tags).access.sawPublic
  }

  lemma {:induction false} FoldOnTheWay(f: Metadata.Fields, r: Metadata.Fields, start: bool, us: seq<UnsignedEvent>,
                                        c: UnsignedEvent, id: string, m: Metadata.Meta, url: string)
    requires r == Metadata.Reloaded(Metadata.FreshMeta(id), m, url).fields && IsMetadata(c, id, m, url) && Metadata.Valid(m)
    requires OnTheWay(f, r, false, start)
    requires forall u :: u in us && u.kind == METADATA_39000 ==> u == c || Metadata.TellsNothingNew(r, u.tags)
    ensures OnTheWay(FieldsAfter(f, us), r, c in us, start || HasCleared(us))
  {
    hide OnTheWay, Metadata.OnTop, Metadata.EditOf, Metadata.IsUnmarked, Metadata.IsMetadataEvent, Metadata.Valid,
         Metadata.Reloaded;
    if us != [] {
      var init, last := us[..|us| - 1], us[|us| - 1];
      FoldOnTheWay(f, r, start, init, c, id, m, url);
      assert forall u :: u in us <==> u in init || u == last;
      if last.kind == METADATA_39000 {
        StepOnTheWay(FieldsAfter(f, init), r, c in init, start || HasCleared(init), last, c, id, m, url);
      }
    }
  }

  /** In whatever order the events are read, the published metadata comes back. */
  lemma MetadataComesBack(us: seq<UnsignedEvent>, scope: Scope, a: UnsignedEvent, b: UnsignedEvent, c: UnsignedEvent,
                          claims: set<UnsignedEvent>, id: string, m: Metadata.Meta, url: string,
                          admins: set<PublicKey>, keys: set<PublicKey>)
    requires us != [] && IsRead(us, a, b, c, claims) && ArePublished(a, b, c, id, m, url, admins, keys)
    requires TellNothingNew(claims, Metadata.Reloaded(Metadata.FreshMeta(id), m, url).fields)
    ensures LoadState(us, scope).meta.fields == Metadata.Reloaded(Metadata.FreshMeta(id), m, url).fields
  {
    var r := Metadata.Reloaded(Metadata.FreshMeta(id), m, url).fields;
    StartupFields(us, scope);
    hide LoadState, Metadata.OnTop, Metadata.EditOf, Metadata.IsUnmarked, Metadata.Valid, Metadata.Reloaded,
         FieldsAfter, FirstFields, Metadata.IsMetadataEvent, IsAdminList, IsMemberList;
    assert forall u :: u in us <==> u in {a, b, c} + claims by { assert forall u :: u in us <==> u in Elements(us); }
    FirstOnTheWay(us[0], scope, a, b, c, claims, id, m, url, admins, keys);
    FoldOnTheWay(FirstFields(us[0]), r, !FirstFields(us[0]).hidden, us, c, id, m, url);
    if Metadata.LeavesHidden(r) && FirstFields(us[0]).hidden {
      assert IsCleared(claims) by { FirstIsCleared(us[0], a, b, c, claims, id, m, url, admins, keys); }
      var v :| v in claims && v.kind == METADATA_39000 && Metadata.EditOf(v.tags).access.sawPublic;
      assert v in us;
      assert HasCleared(us);
    }
    assert c in us;
  }

  lemma FirstOnTheWay(u: UnsignedEvent, scope: Scope, a: UnsignedEvent, b: UnsignedEvent, c: UnsignedEvent,
                      claims: set<UnsignedEvent>, id: string, m: Metadata.Meta, url: string,
                      admins: set<PublicKey>, keys: set<PublicKey>)
    requires u in {a, b, c} + claims && ArePublished(a, b, c, id, m, url, admins, keys)
    requires TellNothingNew(claims, Metadata.Reloaded(Metadata.FreshMeta(id), m, url).fields)
    ensures OnTheWay(FirstFields(u), Metadata.Reloaded(Metadata.FreshMeta(id), m, url).fields, false, !FirstFields(u).hidden)
    ensures u in {a, b, c} || u.kind == METADATA_39000 ==>
      Metadata.LeavesHidden(Metadata.Reloaded(Metadata.FreshMeta(id), m, url).fields) ==> !FirstFields(u).hidden
  {
    var r := Metadata.Reloaded(Metadata.FreshMeta(id), m, url).fields;
    hide Metadata.EditOf, Metadata.Valid, Metadata.Reloaded, Metadata.IsMetadataEvent, IsAdminList, IsMemberList,
         Metadata.Settle, Metadata.Overlay;
    if u == a || u == b {
      FromEventIsFresh(u, scope, id, if u == a then admins else keys);
    } else if u == c {
      MetadataNamesItsGroup(c, scope, id, m, url);
      Metadata.PublishedOverrides(Metadata.FreshFields(id), m, id, url, c.tags);
    } else if u.kind == METADATA_39000 && FirstGroupTag(u.tags).Some? {
      Metadata.NothingNewKeeps(Metadata.FreshFields(FirstGroupTag(u.tags).value), r, u.tags);
    }
  }

  lemma FirstIsCleared(u: UnsignedEvent, a: UnsignedEvent, b: UnsignedEvent, c: UnsignedEvent,
                       claims: set<UnsignedEvent>, id: string, m: Metadata.Meta, url: string,
                       admins: set<PublicKey>, keys: set<PublicKey>)
    requires u in {a, b, c} + claims && ArePublished(a, b, c, id, m, url, admins, keys)
    requires TellNothingNew(claims, Metadata.Reloaded(Metadata.FreshMeta(id), m, url).fields)
    requires Metadata.LeavesHidden(Metadata.Reloaded(Metadata.FreshMeta(id), m, url).fields) && FirstFields(u).hidden
    ensures IsCleared(claims)
  {
    FirstOnTheWay(u, DefaultScope, a, b, c, claims, id, m, url, admins, keys);
    hide FirstFields, IsCleared, Metadata.EditOf, Metadata.Valid, Metadata.Reloaded, IsAdminList, IsMemberList, IsMetadata,
         Metadata.IsUnmarked, Metadata.TellsNothingNew;
  }

  // ----- ... and only then -------------------------------------------------------------

  lemma {:induction false} SomeOrder(events: set<UnsignedEvent>) returns (us: seq<UnsignedEvent>)
    ensures Elements(us) == events && IsDistinct(us)
  {
    if events == {} {
      us := [];
    } else {
      var u :| u in events;
      var rest := SomeOrder(events - {u});
      assert u !in Elements(rest);
      us := rest + [u];
      assert Elements(us) == Elements(rest) + {u};
    }
  }

  lemma {:induction false} MarksStay(f: Metadata.Fields, us: seq<UnsignedEvent>, r: Metadata.Fields)
    ensures !Metadata.IsUnmarked(f, r) ==> !Metadata.IsUnmarked(FieldsAfter(f, us), r)
    ensures f.hidden && !HasCleared(us) ==> FieldsAfter(f, us).hidden
  {
    hide Metadata.OnTop, Metadata.EditOf, Metadata.IsUnmarked;
    if us != [] {
      var init, last := us[..|us| - 1], us[|us| - 1];
      MarksStay(f, init, r);
      Metadata.TextsStay(FieldsAfter(f, init), last.tags, r);
      assert forall u :: u in us <==> u in init || u == last;
    }
  }

  /** A claim that tells something new, read last, has its say. */
  lemma LastWordCounts(u: UnsignedEvent, others: seq<UnsignedEvent>, scope: Scope, r: Metadata.Fields)
    requires u.kind == METADATA_39000 && !Metadata.TellsNothingNew(r, u.tags)
    ensures LoadState(others + [u], scope).meta.fields != r
  {
    hide Metadata.OnTop, LoadState;
    StartupFields(others + [u], scope);
    assert (others + [u])[..|others|] == others;
    Metadata.OnTopTwice(FieldsAfter(FirstFields((others + [u])[0]), others), u.tags);
  }

  /** A list that leaves a trace, read first, leaves it. */
  lemma FirstTraceStays(u: UnsignedEvent, us: seq<UnsignedEvent>, scope: Scope, a: UnsignedEvent, b: UnsignedEvent,
                        c: UnsignedEvent, claims: set<UnsignedEvent>, id: string, m: Metadata.Meta, url: string,
                        admins: set<PublicKey>, keys: set<PublicKey>)
    requires us != [] && us[0] == u && IsRead(us, a, b, c, claims) && ArePublished(a, b, c, id, m, url, admins, keys)
    requires !LeavesNoTrace(u, claims, Metadata.Reloaded(Metadata.FreshMeta(id), m, url).fields)
    ensures LoadState(us, scope).meta.fields != Metadata.Reloaded(Metadata.FreshMeta(id), m, url).fields
  {
    var r := Metadata.Reloaded(Metadata.FreshMeta(id), m, url).fields;
    assert Metadata.IsUnmarked(r, r);
    hide Metadata.Reloaded, LoadState, FirstFields, FieldsAfter, Metadata.EditOf, Metadata.IsMetadataEvent, Metadata.Valid,
         Metadata.IsUnmarked, IsAdminList, IsMemberList;
    StartupFields(us, scope);
    MarksStay(FirstFields(u), us, r);
    if Metadata.IsUnmarked(FirstFields(u), r) {
      PublishedClears(r, c, id, m, url);
      assert forall v :: v in us <==> v in {a, b, c} + claims by { assert forall v :: v in us <==> v in Elements(us); }
    }
  }

  /** Startup brings the published metadata back, however the events are ordered,
      exactly when the claims of others tell nothing new. */
  lemma MetadataComesBackIff(scope: Scope, a: UnsignedEvent, b: UnsignedEvent, c: UnsignedEvent,
                             claims: set<UnsignedEvent>, id: string, m: Metadata.Meta, url: string,
                             admins: set<PublicKey>, keys: set<PublicKey>)
    requires ArePublished(a, b, c, id, m, url, admins, keys)
    ensures var r := Metadata.Reloaded(Metadata.FreshMeta(id), m, url).fields;
      && (TellNothingNew(claims, r) ==>
            forall us :: us != [] && IsRead(us, a, b, c, claims) ==> LoadState(us, scope).meta.fields == r)
      && (!TellNothingNew(claims, r) ==>
            exists us :: us != [] && IsRead(us, a, b, c, claims) && IsDistinct(us) && LoadState(us, scope).meta.fields != r)
  {
    var r := Metadata.Reloaded(Metadata.FreshMeta(id), m, url).fields;
    hide Metadata.Reloaded, LoadState, ArePublished, Metadata.TellsNothingNew, LeavesNoTrace;
    if TellNothingNew(claims, r) {
      forall us | us != [] && IsRead(us, a, b, c, claims) ensures LoadState(us, scope).meta.fields == r {
        MetadataComesBack(us, scope, a, b, c, claims, id, m, url, admins, keys);
      }
    } else {
      var u :| u in claims &&
        !(if u.kind == METADATA_39000 then Metadata.TellsNothingNew(r, u.tags) else LeavesNoTrace(u, claims, r));
      var others := SomeOrder({a, b, c} + claims - {u});
      assert u !in Elements(others);
      if u.kind == METADATA_39000 {
        var us := others + [u];
        LastWordCounts(u, others, scope, r);
        assert Elements(us) == Elements(others) + {u} == {a, b, c} + claims;
        assert IsRead(us, a, b, c, claims) && IsDistinct(us);
      } else {
        var us := [u] + others;
        assert Elements(us) == {u} + Elements(others) == {a, b, c} + claims;
        assert IsRead(us, a, b, c, claims) && IsDistinct(us);
        FirstTraceStays(u, us, scope, a, b, c, claims, id, m, url, admins, keys);
      }
    }
  }
}
