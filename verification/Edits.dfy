/** What a list of tags does to a group's metadata, read off the tags: for every field the
    last tag that speaks of it, for the two implied flags which tags occur. */
module Edits {
  import opened Nostr
  import opened GroupModel
  import opened Metadata

  // ----- The tag that counts -----------------------------------------------------------

  /** The last tag of a kind that carries a string. */
  predicate IsLastText(tags: seq<Tag>, i: nat, kind: TagKind) {
    && i < |tags| && tags[i].kind == kind && tags[i].values != []
    && forall j :: i < j < |tags| && tags[j].kind == kind ==> tags[j].values == []
  }

  /** The last tag that is of one of two kinds. */
  predicate IsLastOf(tags: seq<Tag>, i: nat, a: TagKind, b: TagKind) {
    && i < |tags| && (tags[i].kind == a || tags[i].kind == b)
    && forall j :: i < j < |tags| ==> tags[j].kind != a && tags[j].kind != b
  }

  /** A text is what that tag says, or as before when there is none. */
  ghost predicate TextFollows(before: Option<string>, after: Option<string>, tags: seq<Tag>, kind: TagKind) {
    && (forall i: nat :: IsLastText(tags, i, kind) ==> after == Some(tags[i].values[0]))
    && ((forall t :: t in tags && t.kind == kind ==> t.values == []) ==> after == before)
  }

  /** A flag is on or off by the last of its two tags, or as before when there is none. */
  ghost predicate FlagFollows(before: bool, after: bool, tags: seq<Tag>, on: TagKind, off: TagKind) {
    && (forall i: nat :: IsLastOf(tags, i, on, off) ==> after == (tags[i].kind == on))
    && (!HasTag(tags, on) && !HasTag(tags, off) ==> after == before)
  }

  /** Kinds that the relay does not read are kept as they come. */
  predicate IsKept(kind: TagKind) {
    && kind !in {D, UpperD, H, UpperH, Name, About, Picture, Banner, Parent, Private, Public, Hidden, Restricted, Open,
                 Closed, Broadcast, NonBroadcast}
    && (kind == T ==> !T_IS_PROMOTED)
  }

  /** Of a kept kind the last tag stays. */
  ghost predicate KeptFollows(before: map<TagKind, Tag>, after: map<TagKind, Tag>, tags: seq<Tag>, kind: TagKind) {
    && (forall i: nat :: IsKept(kind) && IsLastOf(tags, i, kind, kind) ==> kind in after && after[kind] == tags[i])
    && (!IsKept(kind) || !HasTag(tags, kind) ==>
          (kind in after <==> kind in before) && (kind in after ==> after[kind] == before[kind]))
  }

  predicate SetsAccess(tags: seq<Tag>) {
    HasTag(tags, Private) || HasTag(tags, Public)
  }

  /** Setting access closes a closed group to strangers, and only `open` lifts that. */
  predicate IsRestrictedAfter(before: Fields, tags: seq<Tag>) {
    || HasTag(tags, Restricted)
    || (if SetsAccess(tags) then !HasTag(tags, Open) && (before.restricted || HasTag(tags, Closed)) else before.restricted)
  }

  /** Setting access hides a private group unless it asks to be restricted instead, and
      only `public` lifts that. */
  predicate IsHiddenAfter(before: Fields, isPrivate: bool, tags: seq<Tag>) {
    || HasTag(tags, Hidden)
    || (if SetsAccess(tags) then (isPrivate && !HasTag(tags, Restricted)) || (before.hidden && !HasTag(tags, Public))
        else before.hidden)
  }

  ghost predicate TextsFollow(before: Fields, after: Fields, tags: seq<Tag>) {
    && TextFollows(Some(before.name), Some(after.name), tags, Name)
    && TextFollows(before.about, after.about, tags, About) && TextFollows(before.picture, after.picture, tags, Picture)
    && TextFollows(before.banner, after.banner, tags, Banner) && TextFollows(before.parent, after.parent, tags, Parent)
    && (if T_IS_PROMOTED then TextFollows(before.channelKind, after.channelKind, tags, T)
        else after.channelKind == before.channelKind)
  }

  /** A relay may force its groups public: then they are neither private nor hidden. */
  ghost predicate FlagsFollow(before: Fields, after: Fields, tags: seq<Tag>, force: bool) {
    && FlagFollows(before.closed, after.closed, tags, Closed, Open)
    && FlagFollows(before.broadcast, after.broadcast, tags, Broadcast, NonBroadcast)
    && (force ==> !after.isPrivate && !after.hidden)
    && (!force ==> FlagFollows(before.isPrivate, after.isPrivate, tags, Private, Public))
    && (after.restricted <==> IsRestrictedAfter(before, tags))
    && (!force ==> (after.hidden <==> IsHiddenAfter(before, after.isPrivate, tags)))
  }

  ghost predicate MetaFollows(before: Meta, after: Meta, tags: seq<Tag>, force: bool) {
    && TextsFollow(before.fields, after.fields, tags) && FlagsFollow(before.fields, after.fields, tags, force)
    && forall kind :: KeptFollows(before.unknown, after.unknown, tags, kind)
  }

  // ----- Texts ----------------------------------------------------------------------------

  function TextOf(x: Texts, kind: TagKind): Option<string> {
    match kind
    case Name => x.name
    case About => x.about
    case Picture => x.picture
    case Banner => x.banner
    case Parent => x.parent
    case T => if T_IS_PROMOTED then x.channelKind else None
    case _ => None
  }

  predicate IsText(kind: TagKind) {
    kind in {Name, About, Picture, Banner, Parent} || (kind == T && T_IS_PROMOTED)
  }

  lemma TextStep(x: Texts, t: Tag, kind: TagKind)
    requires IsText(kind)
    ensures TextOf(TextTag(x, t), kind) == if t.kind == kind then Or(t.Content(), TextOf(x, kind)) else TextOf(x, kind)
  {
  }

  lemma {:induction false} TextIsLast(tags: seq<Tag>, kind: TagKind)
    requires IsText(kind)
    ensures forall i: nat :: IsLastText(tags, i, kind) ==> TextOf(EditOf(tags).texts, kind) == Some(tags[i].values[0])
    ensures TextOf(EditOf(tags).texts, kind).None? <==> forall t :: t in tags && t.kind == kind ==> t.values == []
  {
    hide TextOf, TextTag, AccessTag, UnknownTag, IsText;
    if tags == [] {
      NoTexts(kind);
    } else {
      var n := |tags| - 1;
      TextIsLast(tags[..n], kind);
      TextStep(EditOf(tags[..n]).texts, tags[n], kind);
      LastTextSnoc(tags, kind);
    }
  }

  lemma NoTexts(kind: TagKind)
    ensures TextOf(EditOf([]).texts, kind) == None
  {
  }

  lemma LastTextSnoc(tags: seq<Tag>, kind: TagKind)
    requires tags != []
    ensures var n := |tags| - 1;
      && (forall i: nat :: IsLastText(tags, i, kind) ==>
            if i == n then tags[n].kind == kind && tags[n].values != []
            else IsLastText(tags[..n], i, kind) && tags[..n][i] == tags[i] && (tags[n].kind == kind ==> tags[n].values == []))
      && ((forall t :: t in tags && t.kind == kind ==> t.values == []) <==>
            && (forall t :: t in tags[..n] && t.kind == kind ==> t.values == [])
            && (tags[n].kind == kind ==> tags[n].values == []))
  {
    var n := |tags| - 1;
    assert tags == tags[..n] + [tags[n]];
  }

  // ----- Flags ----------------------------------------------------------------------------

  function FlagOf(a: Access, on: TagKind): Option<bool> {
    match on
    case Private => a.isPrivate
    case Closed => a.closed
    case Broadcast => a.broadcast
    case _ => None
  }

  predicate IsFlag(on: TagKind, off: TagKind) {
    (on == Private && off == Public) || (on == Closed && off == Open) || (on == Broadcast && off == NonBroadcast)
  }

  lemma FlagStep(a: Access, t: Tag, on: TagKind, off: TagKind)
    requires IsFlag(on, off)
    ensures FlagOf(AccessTag(a, t), on) ==
      if t.kind == on then Some(true) else if t.kind == off then Some(false) else FlagOf(a, on)
  {
  }

  lemma {:induction false} FlagIsLast(tags: seq<Tag>, on: TagKind, off: TagKind)
    requires IsFlag(on, off)
    ensures forall i: nat :: IsLastOf(tags, i, on, off) ==> FlagOf(EditOf(tags).access, on) == Some(tags[i].kind == on)
    ensures FlagOf(EditOf(tags).access, on).None? <==> !HasTag(tags, on) && !HasTag(tags, off)
  {
    hide FlagOf, TextTag, AccessTag, UnknownTag, HasTag;
    if tags == [] {
      NoFlags(on);
      NoTags();
    } else {
      var n := |tags| - 1;
      FlagIsLast(tags[..n], on, off);
      FlagStep(EditOf(tags[..n]).access, tags[n], on, off);
      LastOfSnoc(tags, on, off);
      assert tags == tags[..n] + [tags[n]];
      HasTagSnoc(tags[..n], tags[n], on);
      HasTagSnoc(tags[..n], tags[n], off);
    }
  }

  lemma NoFlags(on: TagKind)
    ensures FlagOf(EditOf([]).access, on) == None
  {
  }

  lemma LastOfSnoc(tags: seq<Tag>, a: TagKind, b: TagKind)
    requires tags != []
    ensures var n := |tags| - 1;
      forall i: nat :: IsLastOf(tags, i, a, b) ==>
        if i == n then tags[n].kind == a || tags[n].kind == b
        else IsLastOf(tags[..n], i, a, b) && tags[..n][i] == tags[i] && tags[n].kind != a && tags[n].kind != b
  {
  }

  // ----- Kept tags -------------------------------------------------------------------------

  lemma KeptIsUnknown(kind: TagKind)
    ensures IsKept(kind) <==> IsUnknownKind(kind)
  {
  }

  lemma {:induction false} FoundLast(tags: seq<Tag>, kind: TagKind)
    ensures kind in EditOf(tags).found <==> IsKept(kind) && HasTag(tags, kind)
    ensures forall i: nat :: IsKept(kind) && IsLastOf(tags, i, kind, kind) ==>
      kind in EditOf(tags).found && EditOf(tags).found[kind] == tags[i]
  {
    hide TextTag, AccessTag, IsUnknownKind, IsKept, HasTag;
    KeptIsUnknown(kind);
    if tags == [] {
      NoTags();
    } else {
      var n := |tags| - 1;
      FoundLast(tags[..n], kind);
      LastOfSnoc(tags, kind, kind);
      assert tags == tags[..n] + [tags[n]];
      HasTagSnoc(tags[..n], tags[n], kind);
    }
  }

  // ----- An edit -----------------------------------------------------------------------------

  /** Applying tags does exactly what the tags say. */
  lemma ApplyFollows(m: Meta, tags: seq<Tag>, force: bool)
    ensures MetaFollows(m, ForcePublic(ApplyTags(m, tags), force), tags, force)
  {
    hide *;
    TextsAre(m, tags, force);
    FlagsAre(m, tags, force);
    KeptAre(m, tags, force);
    FollowsIf(m, ForcePublic(ApplyTags(m, tags), force), tags, force);
  }

  lemma FollowsIf(m: Meta, n: Meta, tags: seq<Tag>, force: bool)
    requires TextsFollow(m.fields, n.fields, tags) && FlagsFollow(m.fields, n.fields, tags, force)
    requires forall kind :: KeptFollows(m.unknown, n.unknown, tags, kind)
    ensures MetaFollows(m, n, tags, force)
  {
    hide TextsFollow, FlagsFollow, KeptFollows;
  }

  function FieldOf(f: Fields, kind: TagKind): Option<string> {
    match kind
    case Name => Some(f.name)
    case About => f.about
    case Picture => f.picture
    case Banner => f.banner
    case Parent => f.parent
    case _ => f.channelKind
  }

  lemma FieldIs(m: Meta, tags: seq<Tag>, force: bool, kind: TagKind)
    requires IsText(kind)
    ensures FieldOf(ForcePublic(ApplyTags(m, tags), force).fields, kind) ==
      Or(TextOf(EditOf(tags).texts, kind), FieldOf(m.fields, kind))
  {
    hide EditOf;
  }

  lemma TextIs(m: Meta, tags: seq<Tag>, force: bool, kind: TagKind)
    requires IsText(kind)
    ensures TextFollows(FieldOf(m.fields, kind), FieldOf(ForcePublic(ApplyTags(m, tags), force).fields, kind), tags, kind)
  {
    hide EditOf, IsLastText, FieldOf, TextOf, ApplyTags, ForcePublic;
    TextIsLast(tags, kind);
    FieldIs(m, tags, force, kind);
  }

  lemma TextsAre(m: Meta, tags: seq<Tag>, force: bool)
    ensures TextsFollow(m.fields, ForcePublic(ApplyTags(m, tags), force).fields, tags)
  {
    hide TextFollows, ApplyTags, ForcePublic;
    TextIs(m, tags, force, Name);
    TextIs(m, tags, force, About);
    TextIs(m, tags, force, Picture);
    TextIs(m, tags, force, Banner);
    TextIs(m, tags, force, Parent);
    if T_IS_PROMOTED { TextIs(m, tags, force, T); } else { ChannelStays(m, tags, force); }
  }

  lemma ChannelStays(m: Meta, tags: seq<Tag>, force: bool)
    requires !T_IS_PROMOTED
    ensures ForcePublic(ApplyTags(m, tags), force).fields.channelKind == m.fields.channelKind
  {
    hide EditOf;
    NoChannel(tags);
  }

  lemma {:induction false} NoChannel(tags: seq<Tag>)
    requires !T_IS_PROMOTED
    ensures EditOf(tags).texts.channelKind == None
  {
    hide AccessTag, UnknownTag;
    if tags != [] { NoChannel(tags[..|tags| - 1]); }
  }

  lemma FlagFields(m: Meta, tags: seq<Tag>, force: bool)
    ensures var f, a := ForcePublic(ApplyTags(m, tags), force).fields, EditOf(tags).access;
      && f.closed == OrElse(FlagOf(a, Closed), m.fields.closed)
      && f.broadcast == OrElse(FlagOf(a, Broadcast), m.fields.broadcast)
      && (!force ==> f.isPrivate == OrElse(FlagOf(a, Private), m.fields.isPrivate))
  {
    hide EditOf;
  }

  lemma FlagIs(before: bool, tags: seq<Tag>, on: TagKind, off: TagKind)
    requires IsFlag(on, off)
    ensures FlagFollows(before, OrElse(FlagOf(EditOf(tags).access, on), before), tags, on, off)
  {
    hide EditOf, FlagOf, IsLastOf, HasTag, IsFlag;
    FlagIsLast(tags, on, off);
  }

  lemma FlagsAre(m: Meta, tags: seq<Tag>, force: bool)
    ensures FlagsFollow(m.fields, ForcePublic(ApplyTags(m, tags), force).fields, tags, force)
  {
    hide *;
    FlagFields(m, tags, force);
    FlagPairs();
    FlagIs(m.fields.closed, tags, Closed, Open);
    FlagIs(m.fields.broadcast, tags, Broadcast, NonBroadcast);
    FlagIs(m.fields.isPrivate, tags, Private, Public);
    ImpliedFlags(m, tags, force);
    FlagsFollowIf(m.fields, ForcePublic(ApplyTags(m, tags), force).fields, tags, force);
  }

  lemma FlagPairs()
    ensures IsFlag(Closed, Open) && IsFlag(Broadcast, NonBroadcast) && IsFlag(Private, Public)
  {
  }

  lemma ImpliedFlags(m: Meta, tags: seq<Tag>, force: bool)
    ensures var f := ForcePublic(ApplyTags(m, tags), force).fields;
      && (force ==> !f.isPrivate && !f.hidden) && (f.restricted <==> IsRestrictedAfter(m.fields, tags))
      && (!force ==> (f.hidden <==> IsHiddenAfter(m.fields, f.isPrivate, tags)))
  {
    hide EditOf, HasTag;
    EditSeesTags(tags);
  }

  lemma FlagsFollowIf(before: Fields, after: Fields, tags: seq<Tag>, force: bool)
    requires FlagFollows(before.closed, after.closed, tags, Closed, Open)
    requires FlagFollows(before.broadcast, after.broadcast, tags, Broadcast, NonBroadcast)
    requires force ==> !after.isPrivate && !after.hidden
    requires !force ==> FlagFollows(before.isPrivate, after.isPrivate, tags, Private, Public)
    requires after.restricted <==> IsRestrictedAfter(before, tags)
    requires !force ==> (after.hidden <==> IsHiddenAfter(before, after.isPrivate, tags))
    ensures FlagsFollow(before, after, tags, force)
  {
    hide FlagFollows, IsRestrictedAfter, IsHiddenAfter;
  }

  lemma KeptAre(m: Meta, tags: seq<Tag>, force: bool)
    ensures forall kind :: KeptFollows(m.unknown, ForcePublic(ApplyTags(m, tags), force).unknown, tags, kind)
  {
    hide EditOf, IsLastOf, HasTag, IsKept;
    forall kind ensures KeptFollows(m.unknown, ForcePublic(ApplyTags(m, tags), force).unknown, tags, kind) {
      FoundLast(tags, kind);
    }
  }
}
