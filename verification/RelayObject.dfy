/** The map of all groups as the relay keeps it, updated in place: which group
    answers an event, and the creation and deletion of groups. */
module RelayObject {
  import opened Nostr
  import opened GroupModel
  import opened Printing
  import opened GroupObject
  import GroupLaws
  import Metadata
  import Relay
  import World

  class Groups {
    var groups: map<Relay.Key, Group>

    /** No two keys share a group. */
    ghost predicate Valid()
      reads this, groups.Values
    {
      && (forall key :: key in groups ==> groups[key].Valid())
      && (forall k, l :: k in groups && l in groups && k != l ==> groups[k] != groups[l])
    }

    ghost function View(): map<Relay.Key, GroupState>
      reads this, groups.Values
    {
      map key | key in groups :: groups[key].State()
    }

    constructor ()
      ensures Valid() && View() == map[]
    {
      groups := map[];
    }

    // ----- Creation ------------------------------------------------------------

    /** A new group with its creator as admin and earlier participants as members. */
    method MakeGroup(e: Event, id: string, scope: Scope, participants: set<PublicKey>, cfg: Config) returns (g: Group)
      ensures fresh(g) && g.Valid()
      ensures g.State() == World.CreatedGroup(e, id, scope, participants, cfg)
    {
      g := new Group(id, scope);
      g.ApplyTags(e.tags);
      g.members := map[e.pubkey := {Admin}];
      if cfg.forcePublic {
        g.fields := g.fields.(isPrivate := false, hidden := false);
      }
      AddParticipants(g, e.pubkey, participants);
    }

    /** Everybody who wrote before becomes a member, unless already the creator. */
    method AddParticipants(g: Group, creator: PublicKey, participants: set<PublicKey>)
      requires g.Valid() && g.members == map[creator := {Admin}] && g.joinRequests == {}
      modifies g`members, g`joinRequests
      ensures g.Valid() && g.State() == old(g.State()).(members := World.CreatedMembers(creator, participants))
    {
      hide AdminsOf, Metadata.ApplyTags, ByKind, DistinctKinds;
      var rest := participants;
      assert g.members == World.CreatedMembers(creator, participants - rest) by { assert participants - rest == {}; }
      while rest != {}
        invariant rest <= participants && g.joinRequests == {}
        invariant g.members == World.CreatedMembers(creator, participants - rest)
      {
        var k :| k in rest;
        if k != creator {
          CreatedMembersStep(creator, participants - rest, k);
          var err := g.AddMembers([Named(k, {Member})]);
        } else {
          CreatorIsThere(creator, participants - rest);
        }
        assert participants - (rest - {k}) == participants - rest + {k};
        rest := rest - {k};
      }
      assert participants - rest == participants;
    }

    lemma CreatorIsThere(creator: PublicKey, done: set<PublicKey>)
      ensures World.CreatedMembers(creator, done + {creator}) == World.CreatedMembers(creator, done)
    {
    }

    /** One more participant: a plain member, if it is not there yet. */
    lemma CreatedMembersStep(creator: PublicKey, done: set<PublicKey>, k: PublicKey)
      requires k != creator && k !in done
      ensures GroupModel.AddMembers(World.CreatedMembers(creator, done), {}, [Named(k, {Member})])
        == Added(World.CreatedMembers(creator, done + {k}), {})
    {
      var m := World.CreatedMembers(creator, done);
      GroupLaws.AddOne(m, Named(k, {Member}));
      assert m[k := {Member}] == World.CreatedMembers(creator, done + {k});
      assert creator in AdminsOf(m[k := {Member}]);
    }

    method Insert(key: Relay.Key, g: Group)
      requires Valid() && g.Valid() && key !in groups && g !in groups.Values
      modifies this`groups
      ensures Valid() && View() == old(View())[key := g.State()] && groups.Values == old(groups.Values) + {g}
    {
      hide Group.State, Group.Valid;
      ghost var before := groups;
      groups := groups[key := g];
      assert groups[key] == g;
      assert forall x :: x in before.Values ==> exists k :: k in before && before[k] == x && groups[k] == x;
    }

    method Remove(key: Relay.Key)
      requires Valid() && key in groups
      modifies this`groups
      ensures Valid() && View() == old(View()) - {key} && groups.Values <= old(groups.Values)
    {
      hide Group.State, Group.Valid;
      groups := groups - {key};
    }

    lemma ViewIs()
      ensures View().Keys == groups.Keys && forall key :: key in groups ==> View()[key] == groups[key].State()
    {
      hide Group.State;
    }

    /** `store` and `puts` are what the database holds at the time. */
    method HandleGroupCreate(e: Event, scope: Scope, store: set<Relay.Stored>, puts: set<Relay.Put>, cfg: Config)
      returns (r: Reply)
      requires Valid()
      modifies this`groups
      ensures Valid() && fresh(groups.Values - old(groups.Values))
      ensures var o := Relay.Create(Relay.RelayState(old(View()), store, puts), scope, e, cfg);
        View() == o.st.groups && Answers(r, o.result)
    {
      hide World.CreatedGroup, Relay.StateEvents, SpellsAll, Relay.Participants, Relay.WasGroupDeleted, Relay.Query,
           Relay.PutsFor, Group.State, Group.Valid, FirstGroupTag, GroupIdOf, View, AdminsOf;
      ViewIs();
      var groupId := GroupIdOf(e);
      if groupId.None? { return Err(NotFound); }
      var key := (scope, groupId.value);
      if key in groups { return Err(AlreadyExists); }
      if Relay.WasGroupDeleted(store, key) { return Err(WasDeleted); }
      var previous := Relay.Query(store, key);
      var id := FirstGroupTag(e.tags);
      if id.None? || id.value == "" { return Err(NotFound); }
      if (previous != {} || Relay.PutsFor(puts, key) != {}) && e.pubkey != cfg.relay { return Err(OnlyRelayMayMigrate); }
      var participants := Relay.Participants(previous);
      var g := MakeGroup(e, id.value, scope, participants, cfg);
      Insert(key, g);
      CreatorIsAdmin(e, id.value, scope, participants, cfg);
      r := g.ReplyWithState(e, cfg);
    }

    lemma CreatorIsAdmin(e: Event, id: string, scope: Scope, participants: set<PublicKey>, cfg: Config)
      ensures AdminsOf(World.CreatedGroup(e, id, scope, participants, cfg).members) != {}
    {
      assert e.pubkey in AdminsOf(World.CreatedMembers(e.pubkey, participants));
    }

    // ----- Deletion --------------------------------------------------------------

    method HandleDeleteGroup(e: Event, scope: Scope, store: set<Relay.Stored>, puts: set<Relay.Put>, cfg: Config)
      returns (r: Reply)
      requires Valid()
      modifies this`groups
      ensures Valid() && groups.Values <= old(groups.Values)
      ensures var o := Relay.DeleteGroup(Relay.RelayState(old(View()), store, puts), scope, e, cfg);
        View() == o.st.groups && Answers(r, o.result)
    {
      hide SpellsAll, Group.Valid, Relay.KeyOf, ByKind, View;
      ViewIs();
      var key := Relay.KeyOf(scope, e);
      if key.None? || key.value !in groups { return Err(NotFound); }
      var g := groups[key.value];
      if !g.MayEdit(e.pubkey, cfg.relay) { return Err(NotAuthorized); }
      r := g.ReplyWithGroupDeletion(e);
      Remove(key.value);
    }

    // ----- Dispatch ----------------------------------------------------------------

    /** Let the group the event names answer it, if there is one. */
    method ToGroup(e: Event, scope: Scope, now: U64, store: set<Relay.Stored>, puts: set<Relay.Put>, cfg: Config)
      returns (r: Reply)
      requires Valid()
      modifies groups.Values
      ensures Valid()
      ensures var o := Relay.ToGroup(Relay.RelayState(old(View()), store, puts), scope, e, now, cfg);
        View() == o.st.groups && Answers(r, o.result)
    {
      hide SpellsAll, Group.Valid, Group.State, Relay.KeyOf, Handle;
      var key := Relay.KeyOf(scope, e);
      if key.None? || key.value !in groups { return Err(NotFound); }
      r := groups[key.value].HandleEvent(e, now, cfg);
    }

    method SaveOnly(e: Event, scope: Scope) returns (r: Reply)
      ensures Answers(r, Accepted([SaveSigned(e, scope)]))
    {
      AnswersOne(SaveSignedEvent(e, scope), SaveSigned(e, scope));
      r := Ok([SaveSignedEvent(e, scope)]);
    }

    /** One event, as the relay answers it: what `Dispatch` says, in place. */
    method HandleEvent(e: Event, scope: Scope, now: U64, admitted: bool, store: set<Relay.Stored>,
                       puts: set<Relay.Put>, cfg: Config)
      returns (r: Reply)
      requires Valid()
      modifies this, groups.Values
      ensures Valid() && fresh(groups.Values - old(groups.Values))
      ensures var o := Relay.Dispatch(Relay.RelayState(old(View()), store, puts), scope, e, now, admitted, cfg);
        View() == o.st.groups && Answers(r, o.result)
    {
      hide SpellsAll, Handle, Relay.Create, Relay.DeleteGroup, Relay.ToGroup, Relay.KeyOf, HasTag, IsManagementKind,
           IsGroupRequest;
      if !admitted { return Err(NotAdmitted); }
      var key := Relay.KeyOf(scope, e);
      assert key.Some? && key.value in groups <==> Relay.IsManaged(Relay.RelayState(View(), store, puts), scope, e);
      if HasTag(e.tags, H) && !IsManagementKind(e.kind) && !(key.Some? && key.value in groups) {
        r := SaveOnly(e, scope);
      } else if e.kind == CREATE_9007 {
        r := HandleGroupCreate(e, scope, store, puts, cfg);
      } else if e.kind == DELETE_GROUP_9008 {
        r := HandleDeleteGroup(e, scope, store, puts, cfg);
      } else if IsGroupRequest(e.kind) || (e.kind !in NON_GROUP_KINDS && HasTag(e.tags, H)) {
        r := ToGroup(e, scope, now, store, puts, cfg);
      } else {
        r := SaveOnly(e, scope);
      }
    }
  }
}
