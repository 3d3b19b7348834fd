/** Group metadata: folding an event's tags into it, printing it as a kind 39000
    event, and reading that event back at startup. */
module Metadata {
  import opened Nostr

  /** Whether the tag library files `t` under named kinds, so that it sets
      `channelKind`, or under single letters, so that it is kept as an unknown
      tag.  Everything below holds either way. */
  const T_IS_PROMOTED: bool

  datatype Fields = Fields(
    name: string,
    about: Option<string>,
    picture: Option<string>,
    banner: Option<string>,
    parent: Option<string>,
    channelKind: Option<string>,
    hidden: bool,
    isPrivate: bool,
    restricted: bool,
    closed: bool,
    broadcast: bool)

  /** `unknown` maps each unrecognised tag kind to the tag that was seen last. */
  datatype Meta = Meta(fields: Fields, unknown: map<TagKind, Tag>)

  function FreshFields(name: string): Fields {
    Fields(name, None, None, None, None, None, false, true, true, true, false)
  }

  function FreshMeta(name: string): Meta {
    Meta(FreshFields(name), map[])
  }

  predicate IsUnknownKind(k: TagKind) {
    match k
    case D | UpperD | H | UpperH => false
    case Name | About | Picture | Banner | Parent => false
    case Private | Public | Hidden | Restricted | Open | Closed | Broadcast | NonBroadcast => false
    case T => !T_IS_PROMOTED
    case _ => true
  }

  predicate Valid(m: Meta) {
    (forall k :: k in m.unknown ==> IsUnknownKind(k) && m.unknown[k].kind == k) &&
    (m.fields.channelKind.Some? ==> T_IS_PROMOTED)
  }

  // ----- What a list of tags asks for ---------------------------------------

  /** The edit a list of tags amounts to, whatever it is applied to: for each
      field the last value written, if any, and which access tags occurred. */
  datatype Texts = Texts(
    name: Option<string>,
    about: Option<string>,
    picture: Option<string>,
    banner: Option<string>,
    parent: Option<string>,
    channelKind: Option<string>)

  datatype Access = Access(
    isPrivate: Option<bool>,
    closed: Option<bool>,
    broadcast: Option<bool>,
    hidden: bool,
    restricted: bool,
    sawOpen: bool,
    sawClosed: bool,
    sawPublic: bool)

  datatype Edit = Edit(texts: Texts, access: Access, found: map<TagKind, Tag>)

  const NO_EDIT: Edit :=
    Edit(Texts(None, None, None, None, None, None),
         Access(None, None, None, false, false, false, false, false), map[])

  function Or<X>(a: Option<X>, b: Option<X>): Option<X> {
    if a.Some? then a else b
  }

  function OrElse<X>(a: Option<X>, b: X): X {
    if a.Some? then a.value else b
  }

  function TextTag(x: Texts, t: Tag): Texts {
    match t.kind
    case Name => x.(name := Or(t.Content(), x.name))
    case About => x.(about := Or(t.Content(), x.about))
    case Picture => x.(picture := Or(t.Content(), x.picture))
    case Banner => x.(banner := Or(t.Content(), x.banner))
    case Parent => x.(parent := Or(t.Content(), x.parent))
    case T => if T_IS_PROMOTED then x.(channelKind := Or(t.Content(), x.channelKind)) else x
    case _ => x
  }

  function AccessTag(a: Access, t: Tag): Access {
    match t.kind
    case Private => a.(isPrivate := Some(true))
    case Public => a.(isPrivate := Some(false), sawPublic := true)
    case Hidden => a.(hidden := true)
    case Restricted => a.(restricted := true)
    case Open => a.(closed := Some(false), sawOpen := true)
    case Closed => a.(closed := Some(true), sawClosed := true)
    case Broadcast => a.(broadcast := Some(true))
    case NonBroadcast => a.(broadcast := Some(false))
    case _ => a
  }

  function UnknownTag(found: map<TagKind, Tag>, t: Tag): map<TagKind, Tag> {
    if IsUnknownKind(t.kind) then found[t.kind := t] else found
  }

  function EditTag(e: Edit, t: Tag): Edit {
    Edit(TextTag(e.texts, t), AccessTag(e.access, t), UnknownTag(e.found, t))
  }

  function EditFrom(e: Edit, tags: seq<Tag>): Edit {
    if tags == [] then e else EditTag(EditFrom(e, tags[..|tags| - 1]), tags[|tags| - 1])
  }

  function EditOf(tags: seq<Tag>): Edit {
    EditFrom(NO_EDIT, tags)
  }

  /** The fields an edit writes while the tags are walked. */
  function Overlay(f: Fields, e: Edit): Fields {
    var x, a := e.texts, e.access;
    Fields(OrElse(x.name, f.name), Or(x.about, f.about), Or(x.picture, f.picture),
           Or(x.banner, f.banner), Or(x.parent, f.parent), Or(x.channelKind, f.channelKind),
           f.hidden, OrElse(a.isPrivate, f.isPrivate), f.restricted,
           OrElse(a.closed, f.closed), OrElse(a.broadcast, f.broadcast))
  }

  /** The two access flags an edit may raise by implication but lower only by an
      explicit tag, decided once all tags have been seen. */
  function Settle(f: Fields, a: Access): Fields {
    if a.isPrivate.Some? then
      f.(hidden := a.hidden || (f.isPrivate && !a.restricted) || (f.hidden && !a.sawPublic),
         restricted := a.restricted || (a.sawClosed && !a.sawOpen) || (f.restricted && !a.sawOpen))
    else
      f.(hidden := f.hidden || a.hidden, restricted := f.restricted || a.restricted)
  }

  function ApplyTags(m: Meta, tags: seq<Tag>): Meta {
    var e := EditOf(tags);
    Meta(Settle(Overlay(m.fields, e), e.access), m.unknown + e.found)
  }

  // ----- Printing ----------------------------------------------------------

  function OptionalTag(kind: TagKind, value: Option<string>): seq<Tag> {
    match value
    case None => []
    case Some(v) => [Tag(kind, [v])]
  }

  function FlagTag(kind: TagKind, on: bool): seq<Tag> {
    if on then [Tag(kind, [])] else []
  }

  function AccessTags(f: Fields): seq<Tag> {
    [Tag(if f.isPrivate then Private else Public, []), Tag(if f.closed then Closed else Open, [])]
  }

  function TextTags(f: Fields): seq<Tag> {
    OptionalTag(About, f.about) + OptionalTag(Picture, f.picture) +
    OptionalTag(Banner, f.banner) + OptionalTag(Parent, f.parent) +
    OptionalTag(T, f.channelKind)
  }

  /** The tags of a kind 39000 event whose unknown tags come out in the order `u`. */
  function MetadataTags(id: string, f: Fields, u: seq<Tag>, url: string): seq<Tag> {
    [Tag(D, [id]), Tag(Name, [f.name])] + AccessTags(f) + TextTags(f) +
    FlagTag(Hidden, f.hidden) + FlagTag(Restricted, f.restricted) + u +
    [Tag(OriginalRelay, [url]), Tag(if f.broadcast then Broadcast else NonBroadcast, [])]
  }

  /** `u` lists the tags of `m`, each kind once, in some order. */
  ghost predicate Enumerates(u: seq<Tag>, m: map<TagKind, Tag>) {
    (forall i, j :: 0 <= i < j < |u| ==> u[i].kind != u[j].kind) &&
    (forall i :: 0 <= i < |u| ==> u[i].kind in m && m[u[i].kind] == u[i]) &&
    (forall k :: k in m ==> m[k] in u)
  }

  ghost predicate IsMetadataEvent(tags: seq<Tag>, id: string, m: Meta, url: string) {
    exists u :: Enumerates(u, m.unknown) && tags == MetadataTags(id, m.fields, u, url)
  }

  // ----- Reading tags back ---------------------------------------------------

  lemma {:induction false} EditConcat(e: Edit, a: seq<Tag>, b: seq<Tag>)
    ensures EditFrom(e, a + b) == EditFrom(EditFrom(e, a), b)
    decreases |b|
  {
    hide EditTag;
    if b == [] {
      assert a + b == a;
    } else {
      var n := |b| - 1;
      assert (a + b)[..|a| + n] == a + b[..n];
      assert (a + b)[|a| + n] == b[n];
      EditConcat(e, a, b[..n]);
    }
  }

  lemma EditOne(e: Edit, t: Tag)
    ensures EditFrom(e, [t]) == EditTag(e, t)
  {
    assert [t][..0] == [];
  }

  lemma EditTwo(e: Edit, t: Tag, u: Tag)
    ensures EditFrom(e, [t, u]) == EditTag(EditTag(e, t), u)
  {
    hide EditTag;
    assert [t, u][..1] == [t];
    EditOne(e, t);
  }

  lemma EditOptional(e: Edit, kind: TagKind, v: Option<string>)
    ensures EditFrom(e, OptionalTag(kind, v)) == if v.Some? then EditTag(e, Tag(kind, [v.value])) else e
  {
    hide EditTag;
    if v.Some? { assert [Tag(kind, [v.value])][..0] == []; }
  }

  lemma EditFlag(e: Edit, kind: TagKind, on: bool)
    ensures EditFrom(e, FlagTag(kind, on)) == if on then EditTag(e, Tag(kind, [])) else e
  {
    hide EditTag;
    if on { assert [Tag(kind, [])][..0] == []; }
  }

  lemma EditUnknownTag(e: Edit, t: Tag)
    requires IsUnknownKind(t.kind)
    ensures EditTag(e, t) == e.(found := e.found[t.kind := t])
  {
  }

  ghost predicate KeyedByKind(m: map<TagKind, Tag>) {
    forall k :: k in m ==> m[k].kind == k
  }

  lemma EnumeratesInit(u: seq<Tag>, m: map<TagKind, Tag>, n: nat)
    requires Enumerates(u, m) && KeyedByKind(m) && |u| == n + 1
    ensures Enumerates(u[..n], m - {u[n].kind})
  {
    var rest := m - {u[n].kind};
    forall x | x in rest ensures rest[x] in u[..n] {
      var i :| 0 <= i < |u| && u[i] == m[x];
      assert u[i].kind == x;
      assert u[..n][i] == rest[x];
    }
  }

  lemma EmptyEnumeration(m: map<TagKind, Tag>, k: TagKind)
    requires Enumerates([], m)
    ensures k !in m
  {
  }

  lemma PutBack(base: map<TagKind, Tag>, m: map<TagKind, Tag>, k: TagKind)
    requires k in m
    ensures base + m == (base + (m - {k}))[k := m[k]]
  {
  }

  /** Unknown tags touch nothing but `found`, whatever order they come in. */
  lemma {:induction false} EditUnknown(e: Edit, u: seq<Tag>, m: map<TagKind, Tag>)
    requires Enumerates(u, m) && KeyedByKind(m)
    requires forall k :: k in m ==> IsUnknownKind(k)
    ensures EditFrom(e, u) == e.(found := e.found + m)
  {
    hide EditTag, IsUnknownKind;
    if u == [] {
      assert m == map[] by {
        forall k ensures k !in m { EmptyEnumeration(m, k); }
      }
      assert e.found + m == e.found;
    } else {
      var n := |u| - 1;
      var rest := m - {u[n].kind};
      EnumeratesInit(u, m, n);
      EditUnknown(e, u[..n], rest);
      EditUnknownTag(EditFrom(e, u[..n]), u[n]);
      PutBack(e.found, m, u[n].kind);
    }
  }

  lemma EditAbout(e: Edit, v: Option<string>)
    ensures EditFrom(e, OptionalTag(About, v)) == e.(texts := e.texts.(about := Or(v, e.texts.about)))
  { hide EditFrom; EditOptional(e, About, v); }

  lemma EditPicture(e: Edit, v: Option<string>)
    ensures EditFrom(e, OptionalTag(Picture, v)) == e.(texts := e.texts.(picture := Or(v, e.texts.picture)))
  { hide EditFrom; EditOptional(e, Picture, v); }

  lemma EditBanner(e: Edit, v: Option<string>)
    ensures EditFrom(e, OptionalTag(Banner, v)) == e.(texts := e.texts.(banner := Or(v, e.texts.banner)))
  { hide EditFrom; EditOptional(e, Banner, v); }

  lemma EditParent(e: Edit, v: Option<string>)
    ensures EditFrom(e, OptionalTag(Parent, v)) == e.(texts := e.texts.(parent := Or(v, e.texts.parent)))
  { hide EditFrom; EditOptional(e, Parent, v); }

  lemma EditChannel(e: Edit, v: Option<string>)
    requires v.Some? ==> T_IS_PROMOTED
    ensures EditFrom(e, OptionalTag(T, v)) == e.(texts := e.texts.(channelKind := Or(v, e.texts.channelKind)))
  { hide EditFrom; EditOptional(e, T, v); }

  lemma EditText(e: Edit, f: Fields)
    requires f.channelKind.Some? ==> T_IS_PROMOTED
    requires e.texts == Texts(e.texts.name, None, None, None, None, None)
    ensures EditFrom(e, TextTags(f)) ==
      e.(texts := Texts(e.texts.name, f.about, f.picture, f.banner, f.parent, f.channelKind))
  {
    hide EditFrom, OptionalTag;
    var a, b, c, d := OptionalTag(About, f.about), OptionalTag(Picture, f.picture),
                      OptionalTag(Banner, f.banner), OptionalTag(Parent, f.parent);
    EditConcat(e, a + b + c + d, OptionalTag(T, f.channelKind));
    EditConcat(e, a + b + c, d);
    EditConcat(e, a + b, c);
    EditConcat(e, a, b);
    EditAbout(e, f.about);
    EditPicture(EditFrom(e, a), f.picture);
    EditBanner(EditFrom(e, a + b), f.banner);
    EditParent(EditFrom(e, a + b + c), f.parent);
    EditChannel(EditFrom(e, a + b + c + d), f.channelKind);
  }

  lemma EditHeader(id: string, f: Fields)
    ensures EditOf([Tag(D, [id]), Tag(Name, [f.name])] + AccessTags(f)) ==
      Edit(Texts(Some(f.name), None, None, None, None, None),
           Access(Some(f.isPrivate), Some(f.closed), None, false, false, !f.closed, f.closed, !f.isPrivate),
           map[])
  {
    hide EditFrom;
    var access := AccessTags(f);
    var head := [Tag(D, [id]), Tag(Name, [f.name])];
    EditConcat(NO_EDIT, head, access);
    EditTwo(NO_EDIT, head[0], head[1]);
    EditTwo(EditFrom(NO_EDIT, head), access[0], access[1]);
  }

  lemma EditTail(e: Edit, url: string, broadcast: bool)
    ensures EditFrom(e, [Tag(OriginalRelay, [url]), Tag(if broadcast then Broadcast else NonBroadcast, [])]) ==
      e.(access := e.access.(broadcast := Some(broadcast)),
         found := e.found[OriginalRelay := Tag(OriginalRelay, [url])])
  {
    hide EditFrom;
    EditTwo(e, Tag(OriginalRelay, [url]), Tag(if broadcast then Broadcast else NonBroadcast, []));
  }

  /** The edit a printed kind 39000 event amounts to. */
  lemma EditOfPrinted(id: string, m: Meta, u: seq<Tag>, url: string)
    requires Valid(m) && Enumerates(u, m.unknown)
    ensures EditOf(MetadataTags(id, m.fields, u, url)) ==
      Edit(Texts(Some(m.fields.name), m.fields.about, m.fields.picture, m.fields.banner,
                 m.fields.parent, m.fields.channelKind),
           Access(Some(m.fields.isPrivate), Some(m.fields.closed), Some(m.fields.broadcast),
                  m.fields.hidden, m.fields.restricted,
                  !m.fields.closed, m.fields.closed, !m.fields.isPrivate),
           m.unknown[OriginalRelay := Tag(OriginalRelay, [url])])
  {
    hide EditFrom, EditTag, AccessTags, TextTags, FlagTag;
    var f := m.fields;
    var head := [Tag(D, [id]), Tag(Name, [f.name])] + AccessTags(f);
    var tail := [Tag(OriginalRelay, [url]), Tag(if f.broadcast then Broadcast else NonBroadcast, [])];
    var text := head + TextTags(f);
    var withHidden := text + FlagTag(Hidden, f.hidden);
    var withFlags := withHidden + FlagTag(Restricted, f.restricted);
    EditConcat(NO_EDIT, withFlags + u, tail);
    EditConcat(NO_EDIT, withFlags, u);
    EditConcat(NO_EDIT, withHidden, FlagTag(Restricted, f.restricted));
    EditConcat(NO_EDIT, text, FlagTag(Hidden, f.hidden));
    EditConcat(NO_EDIT, head, TextTags(f));
    EditHeader(id, f);
    EditText(EditFrom(NO_EDIT, head), f);
    EditFlags(EditFrom(NO_EDIT, text), f);
    var e := EditFrom(NO_EDIT, withFlags);
    EditUnknown(e, u, m.unknown);
    assert e.found + m.unknown == m.unknown;
    EditTail(EditFrom(e, u), url, f.broadcast);
  }

  lemma EditFlags(e: Edit, f: Fields)
    requires !e.access.hidden && !e.access.restricted
    ensures EditFrom(EditFrom(e, FlagTag(Hidden, f.hidden)), FlagTag(Restricted, f.restricted)) ==
      e.(access := e.access.(hidden := f.hidden, restricted := f.restricted))
  {
    hide EditFrom;
    EditFlag(e, Hidden, f.hidden);
    EditFlag(e.(access := e.access.(hidden := f.hidden)), Restricted, f.restricted);
  }

  // ----- Restart closure ---------------------------------------------------

  /** What a kind 39000 event printed from `m` becomes when read back into a
      group whose flags are still fresh: everything is kept except that
      `restricted` and `hidden` are raised by implication. */
  function Reloaded(base: Meta, m: Meta, url: string): Meta {
    Meta(m.fields.(restricted := m.fields.restricted || m.fields.closed,
                   hidden := m.fields.hidden || (m.fields.isPrivate && !m.fields.restricted)),
         base.unknown + m.unknown[OriginalRelay := Tag(OriginalRelay, [url])])
  }

  /** `base` has the fields a group has before any metadata event reached it. */
  predicate IsFresh(base: Meta) {
    base.fields == FreshFields(base.fields.name)
  }

  lemma RestartClosure(base: Meta, m: Meta, id: string, url: string, tags: seq<Tag>)
    requires IsFresh(base) && Valid(m) && IsMetadataEvent(tags, id, m, url)
    ensures ApplyTags(base, tags) == Reloaded(base, m, url)
  {
    hide EditOf;
    var u :| Enumerates(u, m.unknown) && tags == MetadataTags(id, m.fields, u, url);
    EditOfPrinted(id, m, u, url);
  }

  /** Printing and reading back a reloaded group changes nothing more. */
  lemma SecondRestart(base: Meta, m: Meta, id: string, url: string, tags: seq<Tag>)
    requires IsFresh(base) && base.unknown == map[]
    requires Valid(m) && IsMetadataEvent(tags, id, Reloaded(base, m, url), url)
    ensures Valid(Reloaded(base, m, url))
    ensures ApplyTags(base, tags) == Reloaded(base, m, url)
  {
    hide *;
    ReloadedAgain(base, m, url);
    RestartClosure(base, Reloaded(base, m, url), id, url, tags);
  }

  lemma ReloadedAgain(base: Meta, m: Meta, url: string)
    requires IsFresh(base) && base.unknown == map[] && Valid(m)
    ensures Valid(Reloaded(base, m, url)) && Reloaded(base, Reloaded(base, m, url), url) == Reloaded(base, m, url)
  {
    var r := Reloaded(base, m, url);
    assert r.unknown[OriginalRelay := Tag(OriginalRelay, [url])] == r.unknown;
  }

  /** The loader applies the first metadata event it meets twice; any event
      applied twice in a row is the same as applied once. */
  lemma ApplyTwice(m: Meta, tags: seq<Tag>)
    ensures ApplyTags(ApplyTags(m, tags), tags) == ApplyTags(m, tags)
  {
    hide EditOf;
    assert m.unknown + EditOf(tags).found + EditOf(tags).found == m.unknown + EditOf(tags).found;
  }

  // ----- Metadata events that are not the relay's own ------------------------

  /** The fields after an event's tags; unknown tags play no part in them. */
  function OnTop(f: Fields, tags: seq<Tag>): Fields {
    var e := EditOf(tags);
    Settle(Overlay(f, e), e.access)
  }

  lemma OnTopTwice(f: Fields, tags: seq<Tag>)
    ensures OnTop(OnTop(f, tags), tags) == OnTop(f, tags)
  {
    hide EditOf;
  }

  /** Applied to the published metadata, the event changes no field. */
  predicate TellsNothingNew(r: Fields, tags: seq<Tag>) {
    OnTop(r, tags) == r
  }

  /** A published event that says private but not hidden leaves `hidden` as it was. */
  predicate LeavesHidden(r: Fields) {
    r.isPrivate && !r.hidden
  }

  /** What the published event neither writes nor clears is not set. */
  predicate IsUnmarked(f: Fields, r: Fields) {
    && (r.about.None? ==> f.about.None?) && (r.picture.None? ==> f.picture.None?)
    && (r.banner.None? ==> f.banner.None?) && (r.parent.None? ==> f.parent.None?)
    && (r.channelKind.None? ==> f.channelKind.None?)
  }

  /** The published 39000 overrides everything else. */
  lemma PublishedOverrides(f: Fields, m: Meta, id: string, url: string, tags: seq<Tag>)
    requires Valid(m) && IsMetadataEvent(tags, id, m, url)
    ensures var r := Reloaded(FreshMeta(id), m, url).fields;
      && (OnTop(f, tags) == r <==> IsUnmarked(f, r) && (LeavesHidden(r) ==> !f.hidden))
      && OnTop(f, tags).(about := r.about, picture := r.picture, banner := r.banner, parent := r.parent,
                         channelKind := r.channelKind, hidden := r.hidden) == r
      && (IsUnmarked(f, r) ==> IsUnmarked(OnTop(f, tags), r) && OnTop(f, tags).(hidden := r.hidden) == r)
      && (LeavesHidden(r) ==> OnTop(f, tags).hidden == f.hidden)
      && (!LeavesHidden(r) ==> OnTop(f, tags).hidden == r.hidden)
  {
    hide EditOf;
    var u :| Enumerates(u, m.unknown) && tags == MetadataTags(id, m.fields, u, url);
    EditOfPrinted(id, m, u, url);
  }

  /** Once set, an optional text is only ever replaced. */
  lemma TextsStay(f: Fields, tags: seq<Tag>, r: Fields)
    ensures !IsUnmarked(f, r) ==> !IsUnmarked(OnTop(f, tags), r)
    ensures f.hidden && !EditOf(tags).access.sawPublic ==> OnTop(f, tags).hidden
  {
    hide EditOf;
  }

  lemma NothingNewKeeps(f: Fields, r: Fields, tags: seq<Tag>)
    requires TellsNothingNew(r, tags)
    ensures IsUnmarked(f, r) ==> IsUnmarked(OnTop(f, tags), r)
    ensures LeavesHidden(r) && !f.hidden ==> !OnTop(f, tags).hidden
    ensures LeavesHidden(r) && EditOf(tags).access.sawPublic ==> !OnTop(f, tags).hidden
    ensures LeavesHidden(r) && f == r.(hidden := true) ==> OnTop(f, tags) in {r, f}
  {
    hide EditOf;
    EditSeesTags(tags);
  }

  // ----- Walking the tags of an event over a group's fields -----------------

  /** What one tag writes at once; the two access flags wait until the end. */
  function WriteText(f: Fields, t: Tag): Fields {
    match t.kind
    case Name => f.(name := OrElse(t.Content(), f.name))
    case About => f.(about := Or(t.Content(), f.about))
    case Picture => f.(picture := Or(t.Content(), f.picture))
    case Banner => f.(banner := Or(t.Content(), f.banner))
    case Parent => f.(parent := Or(t.Content(), f.parent))
    case T => if T_IS_PROMOTED then f.(channelKind := Or(t.Content(), f.channelKind)) else f
    case _ => f
  }

  function WriteAccess(f: Fields, t: Tag): Fields {
    match t.kind
    case Private => f.(isPrivate := true)
    case Public => f.(isPrivate := false)
    case Open => f.(closed := false)
    case Closed => f.(closed := true)
    case Broadcast => f.(broadcast := true)
    case NonBroadcast => f.(broadcast := false)
    case _ => f
  }

  function WriteTag(f: Fields, t: Tag): Fields {
    WriteAccess(WriteText(f, t), t)
  }

  lemma OverlayNothing(f: Fields)
    ensures Overlay(f, NO_EDIT) == f
  {
  }

  lemma OverlayText(f: Fields, e: Edit, t: Tag)
    ensures WriteText(Overlay(f, e), t) == Overlay(f, e.(texts := TextTag(e.texts, t)))
  {
    hide OrElse;
    match t.kind
    case Name => OrElseAgain(t.Content(), e.texts.name, f.name);
    case _ =>
  }

  lemma OrElseAgain<X>(a: Option<X>, b: Option<X>, c: X)
    ensures OrElse(a, OrElse(b, c)) == OrElse(Or(a, b), c)
  {
  }

  lemma OverlayAccess(f: Fields, e: Edit, t: Tag)
    ensures WriteAccess(Overlay(f, e), t) == Overlay(f, e.(access := AccessTag(e.access, t)))
  {
    hide Or, OrElse;
    match t.kind
    case Private => OrElseSome(true, f.isPrivate);
    case Public => OrElseSome(false, f.isPrivate);
    case Open => OrElseSome(false, f.closed);
    case Closed => OrElseSome(true, f.closed);
    case Broadcast => OrElseSome(true, f.broadcast);
    case NonBroadcast => OrElseSome(false, f.broadcast);
    case _ =>
  }

  lemma OrElseSome<X>(x: X, y: X)
    ensures OrElse(Some(x), y) == x
  {
  }

  lemma OverlayIgnoresUnknown(f: Fields, e: Edit, found: map<TagKind, Tag>)
    ensures Overlay(f, e.(found := found)) == Overlay(f, e)
  {
  }

  /** Writing tag by tag is the same as collecting the edit and laying it over. */
  lemma OverlayStep(f: Fields, e: Edit, t: Tag)
    ensures WriteTag(Overlay(f, e), t) == Overlay(f, EditTag(e, t))
  {
    hide WriteText, WriteAccess, TextTag, AccessTag, UnknownTag, Overlay;
    OverlayText(f, e, t);
    OverlayAccess(f, e.(texts := TextTag(e.texts, t)), t);
    OverlayIgnoresUnknown(f, Edit(TextTag(e.texts, t), AccessTag(e.access, t), e.found), UnknownTag(e.found, t));
  }

  // ----- Any run of edits ----------------------------------------------------

  function EditRun(m: Meta, edits: seq<seq<Tag>>): Meta {
    if edits == [] then m else ApplyTags(EditRun(m, edits[..|edits| - 1]), edits[|edits| - 1])
  }

  function Flatten(edits: seq<seq<Tag>>): seq<Tag> {
    if edits == [] then [] else Flatten(edits[..|edits| - 1]) + edits[|edits| - 1]
  }

  lemma HasTagSnoc(tags: seq<Tag>, t: Tag, k: TagKind)
    ensures HasTag(tags + [t], k) <==> HasTag(tags, k) || t.kind == k
  {
    if HasTag(tags, k) {
      var i :| 0 <= i < |tags| && tags[i].kind == k;
      assert (tags + [t])[i].kind == k;
    }
    if t.kind == k { assert (tags + [t])[|tags|].kind == k; }
  }

  /** What an edit records about access is exactly which access tags it has. */
  lemma {:induction false} EditSeesTags(tags: seq<Tag>)
    ensures var a := EditOf(tags).access;
      && (a.sawOpen <==> HasTag(tags, Open)) && (a.sawClosed <==> HasTag(tags, Closed))
      && (a.sawPublic <==> HasTag(tags, Public)) && (a.hidden <==> HasTag(tags, Hidden))
      && (a.restricted <==> HasTag(tags, Restricted))
      && (a.isPrivate.Some? <==> HasTag(tags, Private) || HasTag(tags, Public))
  {
    hide TextTag, UnknownTag, HasTag, AccessTag;
    if tags == [] {
      NoTags();
    } else {
      var n := |tags| - 1;
      EditSeesTags(tags[..n]);
      assert tags == tags[..n] + [tags[n]];
      AccessSeesTag(EditOf(tags[..n]).access, tags[n]);
      HasTagSnoc(tags[..n], tags[n], Open);
      HasTagSnoc(tags[..n], tags[n], Closed);
      HasTagSnoc(tags[..n], tags[n], Public);
      HasTagSnoc(tags[..n], tags[n], Private);
      HasTagSnoc(tags[..n], tags[n], Hidden);
      HasTagSnoc(tags[..n], tags[n], Restricted);
    }
  }

  lemma AccessSeesTag(a: Access, t: Tag)
    ensures var b := AccessTag(a, t);
      && b.sawOpen == (a.sawOpen || t.kind == Open) && b.sawClosed == (a.sawClosed || t.kind == Closed)
      && b.sawPublic == (a.sawPublic || t.kind == Public) && b.hidden == (a.hidden || t.kind == Hidden)
      && b.restricted == (a.restricted || t.kind == Restricted)
      && b.isPrivate.Some? == (a.isPrivate.Some? || t.kind == Private || t.kind == Public)
  {
  }

  lemma NoTags()
    ensures forall k :: !HasTag([], k)
  {
  }

  /** The last `private` or `public` tag says private. */
  predicate EndsPrivate(tags: seq<Tag>) {
    exists i :: 0 <= i < |tags| && tags[i].kind == Private && forall j :: i < j < |tags| ==> tags[j].kind != Public
  }

  lemma EndsPrivateSnoc(tags: seq<Tag>, t: Tag)
    ensures EndsPrivate(tags + [t]) <==> t.kind == Private || (t.kind != Public && EndsPrivate(tags))
  {
    var more := tags + [t];
    if t.kind == Private { assert more[|tags|].kind == Private; }
    if t.kind != Public && EndsPrivate(tags) {
      var i :| 0 <= i < |tags| && tags[i].kind == Private && forall j :: i < j < |tags| ==> tags[j].kind != Public;
      assert more[i].kind == Private && forall j :: i < j < |more| ==> more[j].kind != Public;
    }
    if EndsPrivate(more) {
      var i :| 0 <= i < |more| && more[i].kind == Private && forall j :: i < j < |more| ==> more[j].kind != Public;
      if i < |tags| {
        assert more[|tags|].kind != Public;
        assert tags[i].kind == Private && forall j :: i < j < |tags| ==> tags[j] == more[j];
      }
    }
  }

  lemma {:induction false} EditEndsPrivate(tags: seq<Tag>)
    ensures EditOf(tags).access.isPrivate == Some(true) <==> EndsPrivate(tags)
  {
    hide TextTag, UnknownTag, EndsPrivate;
    if tags == [] {
      assert !EndsPrivate([]) by { NothingEndsPrivate(); }
    } else {
      var n := |tags| - 1;
      EditEndsPrivate(tags[..n]);
      assert tags == tags[..n] + [tags[n]];
      EndsPrivateSnoc(tags[..n], tags[n]);
    }
  }

  lemma NothingEndsPrivate()
    ensures !EndsPrivate([])
  {
  }

  /** Exactly when one edit lowers `restricted` or `hidden`. */
  lemma WhenAnEditLowers(m: Meta, tags: seq<Tag>)
    ensures m.fields.restricted && !ApplyTags(m, tags).fields.restricted <==>
      && m.fields.restricted && HasTag(tags, Open) && !HasTag(tags, Restricted)
      && (HasTag(tags, Private) || HasTag(tags, Public))
    ensures m.fields.hidden && !ApplyTags(m, tags).fields.hidden <==>
      && m.fields.hidden && HasTag(tags, Public) && !HasTag(tags, Hidden)
      && (EndsPrivate(tags) ==> HasTag(tags, Restricted))
  {
    hide EditOf, HasTag, EndsPrivate;
    EditSeesTags(tags);
    EditEndsPrivate(tags);
  }

  /** Over any run of edits the flags fall only on an edit that opens the group. */
  lemma {:induction false} FlagsFallOnlyWhenOpened(m: Meta, edits: seq<seq<Tag>>)
    ensures m.fields.restricted && (forall i :: 0 <= i < |edits| ==> !HasTag(edits[i], Open))
      ==> EditRun(m, edits).fields.restricted
    ensures m.fields.hidden && (forall i :: 0 <= i < |edits| ==> !HasTag(edits[i], Public))
      ==> EditRun(m, edits).fields.hidden
  {
    hide ApplyTags, HasTag;
    if edits != [] {
      var n := |edits| - 1;
      FlagsFallOnlyWhenOpened(m, edits[..n]);
      WhenAnEditLowers(EditRun(m, edits[..n]), edits[n]);
    }
  }

  /** An edit collects, for each unknown kind it mentions, the last tag of that kind. */
  lemma {:induction false} FoundIsLast(tags: seq<Tag>, k: TagKind)
    ensures k in EditOf(tags).found <==> IsUnknownKind(k) && TagsOf(tags, k) != []
    ensures k in EditOf(tags).found ==>
      EditOf(tags).found[k] == TagsOf(tags, k)[|TagsOf(tags, k)| - 1]
  {
    hide TextTag, AccessTag, IsUnknownKind;
    if tags != [] {
      var n := |tags| - 1;
      FoundIsLast(tags[..n], k);
      TagsOfSnoc(tags, k);
      hide TagsOf;
    }
  }

  lemma TagsOfSnoc(tags: seq<Tag>, k: TagKind)
    requires tags != []
    ensures var n := |tags| - 1;
      TagsOf(tags, k) == TagsOf(tags[..n], k) + if tags[n].kind == k then [tags[n]] else []
  {
    var n := |tags| - 1;
    assert tags == tags[..n] + [tags[n]];
    TagsOfConcat(tags[..n], [tags[n]], k);
    assert TagsOf([tags[n]], k) == if tags[n].kind == k then [tags[n]] else [];
  }

  lemma {:induction false} FoundFrom(e: Edit, tags: seq<Tag>)
    ensures EditFrom(e, tags).found == e.found + EditOf(tags).found
  {
    hide TextTag, AccessTag, IsUnknownKind;
    if tags == [] {
      assert e.found + map[] == e.found;
    } else {
      var n := |tags| - 1;
      FoundFrom(e, tags[..n]);
    }
  }

  /** Over any run of edits, the unknown tags are the last-writer-wins map of all
      unknown tags applied. */
  lemma {:induction false} UnknownIsLastWriter(m: Meta, edits: seq<seq<Tag>>)
    ensures EditRun(m, edits).unknown == m.unknown + EditOf(Flatten(edits)).found
  {
    hide EditTag, Settle, Overlay;
    if edits == [] {
      assert m.unknown + map[] == m.unknown;
    } else {
      var n := |edits| - 1;
      var before := Flatten(edits[..n]);
      UnknownIsLastWriter(m, edits[..n]);
      EditConcat(NO_EDIT, before, edits[n]);
      FoundFrom(EditOf(before), edits[n]);
      assert m.unknown + EditOf(before).found + EditOf(edits[n]).found
          == m.unknown + (EditOf(before).found + EditOf(edits[n]).found);
    }
  }

  lemma {:induction false} EditKeepsValid(tags: seq<Tag>)
    ensures var e := EditOf(tags);
      && (forall k :: k in e.found ==> IsUnknownKind(k) && e.found[k].kind == k)
      && (e.texts.channelKind.Some? ==> T_IS_PROMOTED)
  {
    hide AccessTag, IsUnknownKind;
    if tags != [] {
      EditKeepsValid(tags[..|tags| - 1]);
    }
  }

  lemma ApplyKeepsValid(m: Meta, tags: seq<Tag>)
    requires Valid(m)
    ensures Valid(ApplyTags(m, tags))
  {
    hide EditOf;
    EditKeepsValid(tags);
  }
}
