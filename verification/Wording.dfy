/** What the strings and tags of an event say, read off them directly: words and role
    names, decimal numbers, which keys are named, and which tag of a kind counts. */
module Wording {
  import opened Nostr
  import opened Text
  import opened GroupModel
  import opened GroupLaws
  import Metadata

  // ----- Words --------------------------------------------------------------------

  predicate IsBlank(s: string) {
    forall i :: 0 <= i < |s| ==> IsWhite(s[i])
  }

  predicate IsSolid(s: string) {
    s != "" && !IsWhite(s[0]) && !IsWhite(s[|s| - 1])
  }

  /** `w` is `s` with its ASCII capitals made small. */
  predicate Folds(s: string, w: string) {
    && |s| == |w|
    && forall i :: 0 <= i < |s| ==> w[i] as int == s[i] as int + (if 'A' <= s[i] <= 'Z' then 32 else 0)
  }

  /** Blanks, then the word in any mixture of cases, then blanks. */
  predicate Reads(s: string, w: string) {
    exists i, j :: 0 <= i <= j <= |s| && IsReading(s, w, i, j)
  }

  predicate IsReading(s: string, w: string, i: nat, j: nat)
    requires i <= j <= |s|
  {
    IsBlank(s[..i]) && IsBlank(s[j..]) && IsSolid(s[i..j]) && Folds(s[i..j], w)
  }

  lemma LowerFolds(s: string, w: string)
    ensures Folds(s, w) <==> w == Lower(s)
  {
    assert forall i :: 0 <= i < |s| ==> Lower(s)[i] as int == s[i] as int + (if 'A' <= s[i] <= 'Z' then 32 else 0);
  }

  lemma TrimStartIs(s: string) returns (i: nat)
    ensures i <= |s| && TrimStart(s) == s[i..] && IsBlank(s[..i]) && (i < |s| ==> !IsWhite(s[i]))
  {
    hide IsWhite, TrimStart;
    var t := TrimStart(s);
    i := |s| - |t|;
    if t != [] { assert t[0] == s[i]; }
  }

  lemma TrimEndIs(s: string) returns (j: nat)
    ensures j <= |s| && TrimEnd(s) == s[..j] && IsBlank(s[j..]) && (j > 0 ==> !IsWhite(s[j - 1]))
  {
    hide IsWhite, TrimEnd;
    var t := TrimEnd(s);
    j := |t|;
    if t != [] { assert t[j - 1] == s[j - 1]; }
  }

  lemma TrimIs(s: string) returns (i: nat, j: nat)
    ensures i <= j <= |s| && Trim(s) == s[i..j] && IsBlank(s[..i]) && IsBlank(s[j..])
    ensures Trim(s) != "" ==> IsSolid(s[i..j])
    ensures Trim(s) == "" <==> IsBlank(s)
  {
    hide IsWhite, TrimStart, TrimEnd, IsBlank;
    i := TrimStartIs(s);
    var n := TrimEndIs(s[i..]);
    j := i + n;
    assert s[i..][..n] == s[i..j] && s[i..][n..] == s[j..];
    if n > 0 { assert s[i..][n - 1] == s[j - 1]; }
    BlankIs(s, i, j);
  }

  lemma BlankIs(s: string, i: nat, j: nat)
    requires i <= j <= |s| && IsBlank(s[..i]) && IsBlank(s[j..]) && (i < j ==> !IsWhite(s[i]))
    ensures IsBlank(s) <==> i == j
  {
    hide IsWhite;
    if i == j { assert s == s[..i] + s[i..]; }
  }

  /** The blanks around a word are the ones that trimming takes. */
  lemma OneCore(s: string, i: nat, j: nat, k: nat, l: nat)
    requires i <= j <= |s| && k <= l <= |s|
    requires IsBlank(s[..i]) && IsBlank(s[j..]) && IsSolid(s[i..j])
    requires IsBlank(s[..k]) && IsBlank(s[l..]) && IsSolid(s[k..l])
    ensures i == k && j == l
  {
    CoreIsOutside(s, i, j, k, l);
    CoreIsOutside(s, k, l, i, j);
  }

  lemma CoreIsOutside(s: string, i: nat, j: nat, k: nat, l: nat)
    requires i <= j <= |s| && k <= |s| && l <= |s| && IsSolid(s[i..j]) && IsBlank(s[..k]) && IsBlank(s[l..])
    ensures k <= i && j <= l
  {
    hide IsWhite;
    assert !IsWhite(s[i]) && !IsWhite(s[j - 1]);
    forall x | 0 <= x < k ensures IsWhite(s[x]) { assert s[..k][x] == s[x]; }
    forall x | l <= x < |s| ensures IsWhite(s[x]) { assert s[l..][x - l] == s[x]; }
  }

  lemma ReadsIff(s: string, w: string)
    ensures Reads(s, w) <==> w != "" && Lower(Trim(s)) == w
    ensures Lower(Trim(s)) == "" <==> IsBlank(s)
  {
    hide IsWhite, Lower, Folds, IsBlank, IsSolid, Trim;
    var i, j := TrimIs(s);
    LowerFolds(Trim(s), w);
    LowerLength(Trim(s));
    if Reads(s, w) {
      var k, l :| 0 <= k <= l <= |s| && IsReading(s, w, k, l);
      SolidIsNotBlank(s, k, l);
      OneCore(s, i, j, k, l);
      FoldLength(s[k..l], w);
    }
    if w != "" && Lower(Trim(s)) == w { assert IsReading(s, w, i, j); }
  }

  lemma LowerLength(s: string)
    ensures |Lower(s)| == |s|
  {
  }

  lemma FoldLength(s: string, w: string)
    requires IsSolid(s) && Folds(s, w)
    ensures w != ""
  {
  }

  lemma SolidIsNotBlank(s: string, k: nat, l: nat)
    requires k <= l <= |s| && IsSolid(s[k..l])
    ensures !IsBlank(s)
  {
    hide IsWhite;
    assert s[k..l][0] == s[k];
  }

  // ----- Roles --------------------------------------------------------------------

  predicate IsRole(s: string, r: Role) {
    match r
    case Admin => Reads(s, "admin")
    case Member => IsBlank(s) || Reads(s, "member")
    case Custom(w) => w != "admin" && w != "member" && Reads(s, w)
  }

  /** What a role string says, on the letters of the string. */
  lemma RoleIs(s: string, r: Role)
    ensures ParseRole(s) == r <==> IsRole(s, r)
  {
    hide Trim, Lower, IsBlank, Reads;
    ReadsIff(s, "admin");
    ReadsIff(s, "member");
    if r.Custom? { ReadsIff(s, r.name); }
  }

  // ----- Named keys ------------------------------------------------------------------

  /** A `p` tag that names the key. */
  predicate Mentions(t: Tag, k: PublicKey) {
    t.kind == P && t.values != [] && t.values[0] == k
  }

  predicate IsMentioned(tags: seq<Tag>, k: PublicKey) {
    exists i :: 0 <= i < |tags| && Mentions(tags[i], k)
  }

  predicate IsLastMention(tags: seq<Tag>, i: nat, k: PublicKey) {
    i < |tags| && Mentions(tags[i], k) && forall j :: i < j < |tags| ==> !Mentions(tags[j], k)
  }

  /** The role strings after the key; with none, a plain member. */
  predicate Gives(t: Tag, r: Role) {
    if |t.values| <= 1 then r == Member else exists j :: 1 <= j < |t.values| && IsRole(t.values[j], r)
  }

  predicate IsWellFormed(t: Tag) {
    t.values != [] && IsHex64(t.values[0])
  }

  lemma RolesInMean(values: seq<string>, r: Role)
    ensures r in RolesIn(values) <==> exists j :: 0 <= j < |values| && IsRole(values[j], r)
  {
    hide ParseRole, IsRole;
    forall j | 0 <= j < |values| ensures ParseRole(values[j]) == r <==> IsRole(values[j], r) { RoleIs(values[j], r); }
    if r in RolesIn(values) {
      var j :| 0 <= j < |values| && r == ParseRole(values[j]);
      assert IsRole(values[j], r);
    }
  }

  lemma MemberIs(t: Tag)
    ensures ParseMember(t).Some? <==> IsWellFormed(t)
    ensures ParseMember(t).Some? ==>
      ParseMember(t).value.key == t.values[0] && forall r :: r in ParseMember(t).value.roles <==> Gives(t, r)
  {
    hide RolesIn, IsRole, IsHex64;
    KeyIs(t);
    if IsWellFormed(t) && |t.values| > 1 {
      var roles := t.values[1..];
      forall r ensures r in RolesIn(roles) <==> Gives(t, r) {
        RolesInMean(roles, r);
        if Gives(t, r) {
          var j :| 1 <= j < |t.values| && IsRole(t.values[j], r);
          assert roles[j - 1] == t.values[j];
        }
        if j :| 0 <= j < |roles| && IsRole(roles[j], r) { assert t.values[j + 1] == roles[j]; }
      }
    }
  }

  lemma KeyIs(t: Tag)
    ensures t.values != [] ==> ParseKey(t.values[0]) == if IsHex64(t.values[0]) then Some(t.values[0]) else None
  {
  }

  function NamedOf(tags: seq<Tag>): seq<Named> {
    ParsedMembers(TagsOf(tags, P))
  }

  lemma NamedSnoc(tags: seq<Tag>)
    requires tags != []
    ensures var n := |tags| - 1;
      NamedOf(tags) == NamedOf(tags[..n]) +
        (if tags[n].kind == P && ParseMember(tags[n]).Some? then [ParseMember(tags[n]).value] else [])
  {
    hide ParseMember, TagsOf;
    var n := |tags| - 1;
    Metadata.TagsOfSnoc(tags, P);
    if tags[n].kind == P {
      var all := TagsOf(tags, P);
      assert all[..|all| - 1] == TagsOf(tags[..n], P) && all[|all| - 1] == tags[n];
    } else {
      assert TagsOf(tags, P) == TagsOf(tags[..n], P);
    }
  }

  lemma MentionedSnoc(tags: seq<Tag>, k: PublicKey)
    requires tags != []
    ensures IsMentioned(tags, k) <==> IsMentioned(tags[..|tags| - 1], k) || Mentions(tags[|tags| - 1], k)
  {
    hide Mentions;
    var n := |tags| - 1;
    if IsMentioned(tags, k) {
      var i :| 0 <= i < |tags| && Mentions(tags[i], k);
      if i < n { assert tags[..n][i] == tags[i]; }
    }
    if IsMentioned(tags[..n], k) {
      var i :| 0 <= i < n && Mentions(tags[..n][i], k);
      assert tags[i] == tags[..n][i];
    }
  }

  /** The keys a list of tags names, and the roles of the last tag about each. */
  lemma {:induction false} NamedMean(tags: seq<Tag>, k: PublicKey)
    ensures GroupLaws.Names(NamedOf(tags), k) <==> IsMentioned(tags, k)
    ensures forall i: nat :: IsLastMention(tags, i, k) ==>
      GroupLaws.Names(NamedOf(tags), k) && IsRolesOf(LastRoles(NamedOf(tags), k), tags[i])
  {
    hide ParseMember, NamedOf, LastRoles, IsHex64, IsRolesOf, GroupLaws.Names;
    if tags == [] {
      NobodyNamed(k);
    } else {
      var n := |tags| - 1;
      NamedMean(tags[..n], k);
      NamedSnoc(tags);
      MentionedSnoc(tags, k);
      MemberIs(tags[n]);
      OneMoreNamed(tags, k);
      forall i: nat | IsLastMention(tags, i, k)
        ensures GroupLaws.Names(NamedOf(tags), k) && IsRolesOf(LastRoles(NamedOf(tags), k), tags[i])
      {
        if i < n { assert IsLastMention(tags[..n], i, k); }
      }
    }
  }

  ghost predicate IsRolesOf(roles: set<Role>, t: Tag) {
    forall r :: r in roles <==> Gives(t, r)
  }

  lemma NobodyNamed(k: PublicKey)
    ensures NamedOf([]) == [] && !GroupLaws.Names([], k)
  {
  }

  lemma OneMoreNamed(tags: seq<Tag>, k: PublicKey)
    requires tags != []
    ensures var n := |tags| - 1;
      && (GroupLaws.Names(NamedOf(tags), k) <==> GroupLaws.Names(NamedOf(tags[..n]), k) || Mentions(tags[n], k))
      && (Mentions(tags[n], k) ==> GroupLaws.Names(NamedOf(tags), k) && IsRolesOf(LastRoles(NamedOf(tags), k), tags[n]))
      && (!Mentions(tags[n], k) && GroupLaws.Names(NamedOf(tags), k) ==>
            GroupLaws.Names(NamedOf(tags[..n]), k) && LastRoles(NamedOf(tags), k) == LastRoles(NamedOf(tags[..n]), k))
  {
    hide ParseMember, NamedOf, IsHex64, Gives;
    var n := |tags| - 1;
    var before := NamedOf(tags[..n]);
    NamedSnoc(tags);
    MemberIs(tags[n]);
    if tags[n].kind == P && ParseMember(tags[n]).Some? {
      var more := NamedOf(tags);
      assert more[..|more| - 1] == before;
      NamesSnoc(more, k);
    } else {
      assert NamedOf(tags) == before;
    }
  }

  lemma {:induction false} TagsOfHas(tags: seq<Tag>, kind: TagKind, t: Tag)
    ensures t in TagsOf(tags, kind) <==> t in tags && t.kind == kind
  {
    if tags != [] {
      TagsOfHas(tags[1..], kind, t);
      assert tags == [tags[0]] + tags[1..];
    }
  }

  /** Every `p` tag names a key. */
  predicate AllWellFormed(tags: seq<Tag>) {
    forall t :: t in tags && t.kind == P ==> IsWellFormed(t)
  }

  lemma AllParseIff(tags: seq<Tag>)
    ensures AllParse(TagsOf(tags, P)) <==> AllWellFormed(tags)
  {
    hide ParseMember, IsWellFormed;
    var ps := TagsOf(tags, P);
    forall t | t in tags && t.kind == P ensures t in ps { TagsOfHas(tags, P, t); }
    forall t ensures ParseMember(t).Some? <==> IsWellFormed(t) { MemberIs(t); }
  }

  lemma TaggedAreMentioned(tags: seq<Tag>, k: PublicKey)
    ensures k in TaggedKeys(TagsOf(tags, P)) <==> IsMentioned(tags, k)
  {
    hide ParseMember, TagsOf;
    var ps := TagsOf(tags, P);
    if k in TaggedKeys(ps) {
      var i :| 0 <= i < |ps| && ParseMember(ps[i]).Some? && ParseMember(ps[i]).value.key == k;
      MemberIs(ps[i]);
      TagsOfHas(tags, P, ps[i]);
      var j :| 0 <= j < |tags| && tags[j] == ps[i];
      assert Mentions(tags[j], k);
    }
    if IsMentioned(tags, k) {
      var j :| 0 <= j < |tags| && Mentions(tags[j], k);
      MemberIs(tags[j]);
      TagsOfHas(tags, P, tags[j]);
      var i :| 0 <= i < |ps| && ps[i] == tags[j];
    }
  }

  // ----- Which tag counts ----------------------------------------------------------------

  predicate IsFirst(tags: seq<Tag>, i: nat, kind: TagKind) {
    i < |tags| && tags[i].kind == kind && forall j :: 0 <= j < i ==> tags[j].kind != kind
  }

  /** The first tag of a kind decides; an empty one says nothing. */
  lemma {:induction false} FirstDecides(tags: seq<Tag>, kind: TagKind)
    ensures forall i: nat :: IsFirst(tags, i, kind) ==> FindContent(tags, kind) == tags[i].Content()
    ensures FindContent(tags, kind).Some? ==> exists i: nat :: IsFirst(tags, i, kind)
  {
    if tags != [] {
      FirstDecides(tags[1..], kind);
      if tags[0].kind == kind {
        assert IsFirst(tags, 0, kind);
      } else {
        forall i: nat | IsFirst(tags, i, kind) ensures FindContent(tags, kind) == tags[i].Content() {
          assert IsFirst(tags[1..], i - 1, kind);
        }
        if FindContent(tags, kind).Some? {
          var i: nat :| IsFirst(tags[1..], i, kind);
          assert IsFirst(tags, i + 1, kind);
        }
      }
    }
  }

  /** The string the first tag of a kind carries. */
  predicate Says(tags: seq<Tag>, kind: TagKind, v: string) {
    exists i :: 0 <= i < |tags| && IsFirst(tags, i, kind) && tags[i].values != [] && tags[i].values[0] == v
  }

  lemma SaysIff(tags: seq<Tag>, kind: TagKind)
    ensures forall v :: Says(tags, kind, v) <==> FindContent(tags, kind) == Some(v)
  {
    FirstDecides(tags, kind);
  }

  // ----- Numbers ----------------------------------------------------------------------------

  function Decimal(n: nat): string {
    if n < 10 then ['0' + n as char] else Decimal(n / 10) + ['0' + (n % 10) as char]
  }

  function Zeros(z: nat): string {
    seq(z, _ => '0')
  }

  /** The number in decimal, perhaps after zeros and a plus sign. */
  ghost predicate IsNumeral(s: string, n: nat) {
    exists z: nat :: s == Zeros(z) + Decimal(n) || s == "+" + (Zeros(z) + Decimal(n))
  }

  lemma DecimalStarts(n: nat)
    ensures Decimal(n) != "" && '0' <= Decimal(n)[0] <= '9'
  {
  }

  lemma {:induction false} DigitsOf(z: nat, n: nat)
    ensures Digits(Zeros(z) + Decimal(n)) == Some(n)
    decreases n
  {
    var s := Zeros(z) + Decimal(n);
    if n < 10 {
      ZeroDigits(z);
      assert s[..|s| - 1] == Zeros(z);
    } else {
      DigitsOf(z, n / 10);
      assert s[..|s| - 1] == Zeros(z) + Decimal(n / 10);
    }
  }

  lemma {:induction false} ZeroDigits(z: nat)
    ensures Digits(Zeros(z)) == Some(0)
  {
    if z > 0 {
      ZeroDigits(z - 1);
      assert Zeros(z)[..z - 1] == Zeros(z - 1);
    }
  }

  lemma {:induction false} DigitsAre(s: string) returns (z: nat)
    requires s != "" && Digits(s).Some?
    ensures s == Zeros(z) + Decimal(Digits(s).value)
  {
    var n := |s| - 1;
    var d := s[n] as int - '0' as int;
    assert s == s[..n] + [s[n]];
    if n == 0 {
      z := 0;
      assert Digits(s) == Some(d);
    } else {
      z := DigitsAre(s[..n]);
      var m := Digits(s[..n]).value;
      if m == 0 {
        assert Zeros(z) + "0" == Zeros(z + 1);
        z := z + 1;
      } else {
        assert (10 * m + d) / 10 == m && (10 * m + d) % 10 == d;
      }
    }
  }

  /** What is read as a number is a numeral of one within bounds, and nothing else is. */
  lemma ParsedIff(s: string, max: nat, n: nat)
    ensures ParseUnsigned(s, max) == Some(n) <==> n <= max && IsNumeral(s, n)
  {
    hide Digits, Decimal, Zeros;
    var signed := |s| > 0 && s[0] == '+';
    var digits := if signed then s[1..] else s;
    if ParseUnsigned(s, max) == Some(n) {
      var z := DigitsAre(digits);
      if signed { assert s == "+" + digits; }
    }
    if n <= max && IsNumeral(s, n) {
      var z: nat :| s == Zeros(z) + Decimal(n) || s == "+" + (Zeros(z) + Decimal(n));
      DigitsOf(z, n);
      NoPlus(z, n);
      assert digits == Zeros(z) + Decimal(n);
    }
  }

  lemma NoPlus(z: nat, n: nat)
    ensures var s := Zeros(z) + Decimal(n); s != "" && s[0] != '+'
  {
    DecimalStarts(n);
    if z > 0 { assert (Zeros(z) + Decimal(n))[0] == '0'; } else { assert Zeros(z) + Decimal(n) == Decimal(n); }
  }
}
