/** The wire vocabulary shared by every other module: keys, tags, signed events,
    event kinds and filters.  Signatures are abstract: an `Event` is one whose
    signature has been checked. */
module Nostr {

  datatype Option<+T> = None | Some(value: T)

  const U32_MAX: nat := 0xFFFF_FFFF
  const U64_SIZE: nat := 0x1_0000_0000_0000_0000

  type U32 = n: int | 0 <= n <= U32_MAX
  type U64 = n: int | 0 <= n < U64_SIZE

  // ----- Keys and ids ------------------------------------------------------

  predicate IsLowerHex(c: char) {
    '0' <= c <= '9' || 'a' <= c <= 'f'
  }

  /** Public keys are 32 bytes, spelt as 64 lower-case hex digits. */
  predicate IsHex64(s: string) {
    |s| == 64 && forall i :: 0 <= i < |s| ==> IsLowerHex(s[i])
  }

  type PublicKey = s: string | IsHex64(s)
    witness seq(64, _ => '0')

  type EventId = string

  function ParseKey(s: string): (r: Option<PublicKey>)
    ensures forall k: PublicKey :: r == Some(k) <==> s == k
  {
    if IsHex64(s) then Some(s) else None
  }

  // ----- Tags --------------------------------------------------------------

  /** The kind of a tag: its first string, with the ones the relay reads by
      name listed out.  Kinds are equal exactly when those strings are. */
  datatype TagKind =
    | D | UpperD | H | UpperH | P | E | T
    | Name | About | Picture | Banner | Parent
    | Private | Public | Hidden | Restricted | Open | Closed | Broadcast | NonBroadcast
    | Code | Reusable | RoleName | Expiration | MaxUses | OriginalRelay
    | Other(text: string)

  /** A tag: its kind and the strings after it. */
  datatype Tag = Tag(kind: TagKind, values: seq<string>) {
    function Content(): Option<string> {
      if |values| > 0 then Some(values[0]) else None
    }
  }

  predicate HasTag(tags: seq<Tag>, kind: TagKind) {
    exists i :: 0 <= i < |tags| && tags[i].kind == kind
  }

  /** The first tag of a kind decides, even when it carries no content. */
  function FindContent(tags: seq<Tag>, kind: TagKind): Option<string> {
    if tags == [] then None
    else if tags[0].kind == kind then tags[0].Content()
    else FindContent(tags[1..], kind)
  }

  lemma {:induction false} FoundIsCarried(tags: seq<Tag>, kind: TagKind, id: string)
    requires FindContent(tags, kind) == Some(id)
    ensures exists t :: t in tags && t.kind == kind && t.Content() == Some(id)
  {
    if tags[0].kind != kind { FoundIsCarried(tags[1..], kind, id); }
  }

  /** The tags of one kind, in order. */
  function TagsOf(tags: seq<Tag>, kind: TagKind): (r: seq<Tag>)
    ensures forall i :: 0 <= i < |r| ==> r[i].kind == kind && r[i] in tags
  {
    if tags == [] then []
    else if tags[0].kind == kind then [tags[0]] + TagsOf(tags[1..], kind)
    else TagsOf(tags[1..], kind)
  }

  lemma TagsOfConcat(a: seq<Tag>, b: seq<Tag>, kind: TagKind)
    ensures TagsOf(a + b, kind) == TagsOf(a, kind) + TagsOf(b, kind)
  {
    if a == [] {
      assert a + b == b;
    } else {
      assert (a + b)[1..] == a[1..] + b;
      TagsOfConcat(a[1..], b, kind);
    }
  }

  // ----- Events ------------------------------------------------------------

  datatype Event = Event(id: EventId, pubkey: PublicKey, kind: nat, createdAt: U64, tags: seq<Tag>)

  /** The ids named by the well-formed `e` tags of an event. */
  function EventIds(tags: seq<Tag>): set<EventId> {
    set t | t in tags && t.kind == E && |t.values| > 0 && IsHex64(t.values[0]) :: t.values[0]
  }

  const DELETION_5: nat := 5
  const ADD_USER_9000: nat := 9000
  const REMOVE_USER_9001: nat := 9001
  const EDIT_METADATA_9002: nat := 9002
  const DELETE_EVENT_9005: nat := 9005
  const SET_ROLES_9006: nat := 9006
  const CREATE_9007: nat := 9007
  const DELETE_GROUP_9008: nat := 9008
  const CREATE_INVITE_9009: nat := 9009
  const JOIN_9021: nat := 9021
  const LEAVE_9022: nat := 9022
  const CLAIM_28934: nat := 28934
  const METADATA_39000: nat := 39000
  const ADMINS_39001: nat := 39001
  const MEMBERS_39002: nat := 39002
  const ROLES_39003: nat := 39003

  predicate IsStateKind(k: nat) {
    k in {METADATA_39000, ADMINS_39001, MEMBERS_39002, ROLES_39003}
  }

  /** Kinds that need a managed group.  9008 is deliberately not among them. */
  predicate IsManagementKind(k: nat) {
    IsStateKind(k) ||
    k in {CREATE_9007, ADD_USER_9000, REMOVE_USER_9001, EDIT_METADATA_9002, DELETE_EVENT_9005,
          SET_ROLES_9006, CREATE_INVITE_9009, JOIN_9021, LEAVE_9022, CLAIM_28934}
  }

  const NON_GROUP_KINDS: set<nat> :=
    {10009, 1984, 28934, 17375, 375, 7375, 7376, 7374, 10019, 9321, 1059, 443, 5, 3079, 3080, 32390}

  /** The requests each handled by a function of its own. */
  predicate IsGroupRequest(kind: nat) {
    kind in {EDIT_METADATA_9002, JOIN_9021, LEAVE_9022, SET_ROLES_9006, ADD_USER_9000, REMOVE_USER_9001,
             DELETE_EVENT_9005, CREATE_INVITE_9009}
  }

  predicate IsAddressable(k: nat) {
    30000 <= k < 40000
  }

  /** Which group an event is about: `d` for addressable kinds, `h` otherwise. */
  function GroupIdOf(e: Event): Option<string> {
    FindContent(e.tags, if IsAddressable(e.kind) then D else H)
  }

  // ----- Numbers in tags ---------------------------------------------------

  function Digits(s: string): Option<nat> {
    if s == [] then Some(0)
    else if !('0' <= s[|s| - 1] <= '9') then None
    else match Digits(s[..|s| - 1])
      case None => None
      case Some(n) => Some(10 * n + (s[|s| - 1] as int - '0' as int))
  }

  /** Decimal digits with an optional leading plus sign, bounded by `max`. */
  function ParseUnsigned(s: string, max: nat): (r: Option<nat>)
    ensures r.Some? ==> r.value <= max
  {
    var digits := if |s| > 0 && s[0] == '+' then s[1..] else s;
    if digits == [] then None
    else match Digits(digits)
      case None => None
      case Some(n) => if n <= max then Some(n) else None
  }
}
