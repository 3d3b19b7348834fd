/** Writing a setting and reading it back. */
module SettingsLaws {
  import opened Nostr
  import opened Text
  import opened Settings

  // ----- Trimming ------------------------------------------------------------------

  predicate AllWhite(s: string) {
    forall i :: 0 <= i < |s| ==> IsWhite(s[i])
  }

  lemma {:induction false} TrimStartOver(w: string, s: string)
    requires AllWhite(w)
    ensures TrimStart(w + s) == TrimStart(s)
  {
    hide IsWhite;
    if w == "" {
      assert w + s == s;
    } else {
      assert (w + s)[1..] == w[1..] + s;
      TrimStartOver(w[1..], s);
    }
  }

  lemma {:induction false} TrimEndAfter(a: string, b: string)
    requires a != "" && !IsWhite(a[|a| - 1])
    ensures TrimEnd(a + b) == a + TrimEnd(b)
  {
    hide IsWhite;
    if b == "" {
      assert a + b == a;
    } else {
      var n := |b| - 1;
      assert (a + b)[..|a + b| - 1] == a + b[..n];
      TrimEndAfter(a, b[..n]);
    }
  }

  lemma TrimStartSolid(s: string)
    requires s == "" || !IsWhite(s[0])
    ensures TrimStart(s) == s
  {
  }

  /** It does not matter which end is trimmed first. */
  lemma {:induction false} TrimSwap(s: string)
    ensures TrimStart(TrimEnd(s)) == TrimEnd(TrimStart(s))
    decreases |s|
  {
    hide IsWhite;
    if s != "" && IsWhite(s[0]) {
      TrimSwap(s[1..]);
      TrimEndTail(s);
    } else if s != "" {
      TrimEndAfter([s[0]], s[1..]);
      assert [s[0]] + s[1..] == s;
    }
  }

  lemma TrimEndUnfolds(s: string)
    requires s != ""
    ensures TrimEnd(s) == if IsWhite(s[|s| - 1]) then TrimEnd(s[..|s| - 1]) else s
  {
    hide IsWhite;
  }

  lemma TrimStartUnfolds(s: string)
    requires s != ""
    ensures TrimStart(s) == if IsWhite(s[0]) then TrimStart(s[1..]) else s
  {
    hide IsWhite;
  }

  lemma {:induction false} TrimEndTail(s: string)
    requires s != "" && IsWhite(s[0])
    ensures TrimStart(TrimEnd(s)) == TrimStart(TrimEnd(s[1..]))
  {
    hide *;
    var n := |s| - 1;
    TrimEndUnfolds(s);
    if n > 0 {
      TrimEndUnfolds(s[1..]);
      assert s[1..][n - 1] == s[n];
      if IsWhite(s[n]) {
        assert s[..n][1..] == s[1..][..n - 1];
        TrimEndTail(s[..n]);
      } else {
        TrimStartUnfolds(s);
      }
    } else {
      assert s[..n] == s[1..] == "";
    }
  }

  lemma TrimAgain(v: string)
    ensures Trim(TrimEnd(" " + v)) == Trim(v)
  {
    hide *;
    OneBlank();
    TrimIs(v);
    TrimIs(TrimEnd(" " + v));
    TrimSwap(" " + v);
    TrimStartOver(" ", v);
    TrimEndSolid(TrimStart(v));
  }

  lemma OneBlank()
    ensures AllWhite(" ")
  {
  }

  lemma TrimIs(s: string)
    ensures Trim(s) == TrimEnd(TrimStart(s))
  {
    hide TrimStart, TrimEnd;
  }

  lemma TrimEndSolid(s: string)
    ensures TrimEnd(TrimEnd(s)) == TrimEnd(s)
  {
    hide IsWhite;
  }

  // ----- Names and lines --------------------------------------------------------------

  /** Settings names: no blanks and no colons, and not a comment. */
  predicate IsName(n: string) {
    n != "" && n[0] != '#' && forall i :: 0 <= i < |n| ==> !IsWhite(n[i]) && n[i] != ':'
  }

  lemma OtherKey(s: string, key: string, r: string, other: string)
    requires IsName(key) && IsName(other) && s == key + ":" + r
    ensures other <= s && ":" <= TrimStart(s[|other|..]) <==> other == key
  {
    hide IsWhite;
    assert s[|key|] == ':' && s[..|key|] == key;
    if other == key {
      assert s[|other|..] == ":" + r;
      ColonIsSolid();
      TrimStartSolid(":" + r);
    } else if other <= s {
      assert other == s[..|other|];
      assert forall i :: 0 <= i < |other| ==> other[i] == s[i];
      if |other| < |key| {
        assert s[|other|..][0] == key[|other|];
        TrimStartSolid(s[|other|..]);
      }
    }
  }

  lemma ColonIsSolid()
    ensures !IsWhite(':') && IsWhite(' ') && !IsWhite('#')
  {
  }

  /** A line of the form `key: …` is about that key and no other. */
  lemma KeyLineMentions(l: string, key: string, other: string)
    requires IsName(key) && IsName(other) && IsKeyLine(l, key)
    ensures Mentions(l, other) <==> other == key
  {
    var r := TrimStart(l)[|key| + 1..];
    assert TrimStart(l) == key + ":" + r;
    ColonIsSolid();
    hide IsWhite;
    TrimEndAfter(key + ":", r);
    OtherKey(Trim(l), key, TrimEnd(r), other);
  }

  lemma SpellOut(w: string, key: string, value: string)
    requires key != ""
    ensures w + key + ": " + value == w + (key + ": " + value)
    ensures key + ":" <= key + ": " + value && (key + ": " + value)[0] == key[0]
    ensures |w + (key + ": " + value)| - |key + ": " + value| == |w|
    ensures (w + (key + ": " + value))[..|w|] == w
  {
  }

  lemma WrittenLine(w: string, key: string, value: string)
    requires IsName(key) && AllWhite(w)
    ensures TrimStart(w + key + ": " + value) == key + ": " + value
    ensures IsKeyLine(w + key + ": " + value, key)
    ensures Indent(w + key + ": " + value) == Utf8Size(w)
  {
    hide IsWhite, TrimStart, AllWhite, Utf8Size;
    var s := key + ": " + value;
    SpellOut(w, key, value);
    TrimStartOver(w, s);
    TrimStartSolid(s);
  }

  lemma AfterKey(l: string, key: string, r: string)
    requires IsName(key) && TrimStart(l) == key + ":" + r
    ensures Mentions(l, key) && TrimStart(Trim(l)[|key|..])[1..] == TrimEnd(r)
  {
    hide *;
    ColonIsSolid();
    StartsWithKey(l, key, r);
    KeyLineMentions(l, key, key);
    TrimIs(l);
    ColonIsLast(key);
    TrimEndAfter(key + ":", r);
    var t := TrimEnd(r);
    AfterTheColon(key, t);
    TrimStartSolid(":" + t);
  }

  lemma StartsWithKey(l: string, key: string, r: string)
    requires TrimStart(l) == key + ":" + r
    ensures IsKeyLine(l, key)
  {
    hide TrimStart;
  }

  lemma ColonIsLast(key: string)
    ensures key + ":" != "" && (key + ":")[|key + ":"| - 1] == ':'
  {
  }

  lemma AfterTheColon(key: string, t: string)
    ensures (key + ":" + t)[|key|..] == ":" + t && (":" + t)[0] == ':' && (":" + t)[1..] == t
  {
  }

  /** A written line reads as the cleaned value. */
  lemma WrittenLineReads(w: string, key: string, value: string)
    requires IsName(key) && AllWhite(w)
    ensures ReadLine(w + key + ": " + value, key) == if Clean(value) == "" then None else Some(Clean(value))
  {
    hide *;
    WrittenLine(w, key, value);
    assert key + ": " + value == key + ":" + (" " + value);
    AfterKey(w + key + ": " + value, key, " " + value);
    CleanAgain(value);
    ReadLineIs(w + key + ": " + value, key);
  }

  lemma ReadLineIs(l: string, key: string)
    requires Mentions(l, key)
    ensures |TrimStart(Trim(l)[|key|..])| > 0
    ensures ReadLine(l, key) ==
      var value := Clean(TrimStart(Trim(l)[|key|..])[1..]); if value == "" then None else Some(value)
  {
    hide Clean;
  }

  lemma CleanAgain(value: string)
    ensures Clean(TrimEnd(" " + value)) == Clean(value)
  {
    hide TrimChar;
    TrimAgain(value);
  }

  /** Plain text comes back as it is, quoted or not. */
  lemma CleanIsIdentity(v: string)
    requires v != "" && !IsWhite(v[0]) && !IsWhite(v[|v| - 1]) && '"' !in v && '\'' !in v
    ensures Clean(v) == v && Clean("\"" + v + "\"") == v
  {
    assert Trim(v) == v;
    assert v[0] in v && v[|v| - 1] in v;
    assert TrimChar('"', v) == v && TrimChar('\'', v) == v;
    var q := "\"" + v + "\"";
    assert !IsWhite('"');
    assert Trim(q) == q;
    assert q[1..] == v + "\"" && (v + "\"")[..|v|] == v;
    assert TrimChar('"', q) == TrimChar('"', q[1..]);
    assert TrimChar('"', v + "\"") == TrimChar('"', v);
  }

  // ----- Text and lines ----------------------------------------------------------------

  predicate IsPlain(l: string) {
    '\n' !in l && (l != "" ==> l[|l| - 1] != '\r')
  }

  predicate ArePlain(ls: seq<string>) {
    forall i :: 0 <= i < |ls| ==> IsPlain(ls[i])
  }

  lemma {:induction false} BreakAfter(l: string, rest: string)
    requires '\n' !in l
    ensures BreakAt(l + "\n" + rest) == |l|
  {
    var s := l + "\n" + rest;
    var n := BreakAt(s);
    assert s[|l|] == '\n';
    assert forall i :: 0 <= i < |l| ==> s[i] == l[i] && l[i] in l;
    assert forall i :: 0 <= i < n ==> s[..n][i] == s[i] && s[i] != '\n';
  }

  lemma {:induction false} LinesOfUnlines(ls: seq<string>)
    requires ls != [] && ArePlain(ls)
    ensures Lines(Unlines(ls)) == ls
  {
    hide IsPlain;
    assert IsPlain(ls[0]);
    PlainMeans(ls[0]);
    if |ls| == 1 {
      LinesCons(ls[0], "");
      assert ls[0] + "\n" + "" == Unlines(ls);
    } else {
      LinesOfUnlines(ls[1..]);
      assert Unlines(ls) == ls[0] + "\n" + Unlines(ls[1..]);
      LinesCons(ls[0], Unlines(ls[1..]));
    }
  }

  lemma PlainMeans(l: string)
    requires IsPlain(l)
    ensures '\n' !in l && StripReturn(l) == l
  {
  }

  lemma LinesCons(l: string, rest: string)
    requires '\n' !in l && StripReturn(l) == l
    ensures Lines(l + "\n" + rest) == [l] + Lines(rest)
  {
    hide StripReturn;
    var s := l + "\n" + rest;
    BreakAfter(l, rest);
    assert s[..|l|] == l && s[|l| + 1..] == rest;
  }

  // ----- Block laws on lines --------------------------------------------------------------

  predicate NoSpacedColon(ls: seq<string>, key: string) {
    forall i :: 0 <= i < |ls| && Mentions(ls[i], key) ==> IsKeyLine(ls[i], key)
  }

  lemma {:induction false} FirstValueAt(ls: seq<string>, key: string, k: nat)
    requires k < |ls| && ReadLine(ls[k], key).Some? && forall i :: 0 <= i < k ==> ReadLine(ls[i], key).None?
    ensures FirstValue(ls, key) == ReadLine(ls[k], key)
  {
    hide ReadLine;
    if k > 0 { FirstValueAt(ls[1..], key, k - 1); }
  }

  /** Only lines that are not about the key changed. */
  lemma {:induction false} FirstValueSame(a: seq<string>, b: seq<string>, key: string)
    requires |a| == |b|
    requires forall i :: 0 <= i < |a| ==> ReadLine(a[i], key) == ReadLine(b[i], key)
    ensures FirstValue(a, key) == FirstValue(b, key)
  {
    hide ReadLine;
    if a != [] { FirstValueSame(a[1..], b[1..], key); }
  }

  lemma {:induction false} FirstValueAppend(a: seq<string>, l: string, key: string)
    requires ReadLine(l, key).None?
    ensures FirstValue(a + [l], key) == FirstValue(a, key)
  {
    hide ReadLine;
    if a == [] {
      assert a + [l] == [l];
      assert [l][1..] == [];
    } else {
      assert (a + [l])[1..] == a[1..] + [l];
      FirstValueAppend(a[1..], l, key);
    }
  }

  lemma NotAName(block: string, key: string, value: string)
    requires IsName(block)
    ensures block + ":" != key + ": " + value
  {
    hide IsWhite;
    var s, t := block + ":", key + ": " + value;
    assert t[|key|] == ':' && t[|key| + 1] == ' ';
    assert forall i :: 0 <= i < |block| ==> s[i] == block[i];
  }

  lemma NamesDiffer(a: string, b: string)
    requires a != b
    ensures a + ":" != b + ":"
  {
    assert (a + ":")[..|a|] == a && (b + ":")[..|b|] == b;
  }

  /** What is known about the line a block write puts in. */
  lemma BlockLineMeans(key: string, value: string)
    requires IsName(key)
    ensures var l := BlockLine(key, value);
      && IsKeyLine(l, key) && !EndsBlock(l)
      && (forall block :: IsName(block) ==> !IsHeader(l, block))
      && (forall other :: IsName(other) && other != key ==> ReadLine(l, other).None?)
      && ReadLine(l, key) == if Clean(value) == "" then None else Some(Clean(value))
  {
    var l := BlockLine(key, value);
    FourSpaces();
    WrittenLine("    ", key, value);
    WrittenLineReads("    ", key, value);
    ColonIsSolid();
    hide IsWhite, Clean, TrimChar;
    forall block | IsName(block) ensures !IsHeader(l, block) { NotAName(block, key, value); }
    forall other | IsName(other) && other != key ensures ReadLine(l, other).None? { KeyLineMentions(l, key, other); }
  }

  lemma FourSpaces()
    ensures AllWhite("    ") && Utf8Size("    ") == 4
    ensures AllWhite("  ") && Utf8Size("  ") == 2
  {
    assert "    "[1..] == "   " && "   "[1..] == "  " && "  "[1..] == " " && " "[1..] == "";
  }

  /** The lines between a header and an end, with line `k` replaced, or one more when `k`
      is the end. */
  function WithLine(all: seq<string>, h: nat, end: nat, k: nat, l: string): seq<string>
    requires h < k <= end <= |all|
  {
    if k < end then all[h + 1..end][k - h - 1 := l] else all[h + 1..end] + [l]
  }

  lemma WithLineIs(all: seq<string>, h: nat, end: nat, k: nat, l: string)
    requires h < k <= end <= |all|
    ensures WithLine(all, h, end, k, l) == if k < end then all[h + 1..end][k - h - 1 := l] else all[h + 1..end] + [l]
  {
  }

  /** The body of the written block: one line replaced, or one added at the end. */
  lemma WrittenBody(ls: seq<string>, block: string, key: string, value: string)
    requires IsName(block) && IsName(key)
    ensures var all, h := WithHeader(ls, block), HeaderSpot(ls, block);
      var end := BlockEnd(all, h + 1);
      var k := KeyAt(all, key, h + 1, end);
      Body(UpsertBlock(ls, block, key, value), block) == Some(WithLine(all, h, end, k, BlockLine(key, value)))
  {
    hide *;
    var all, h := WithHeader(ls, block), HeaderSpot(ls, block);
    BlockLineMeans(key, value);
    HeaderIsThere(ls, block);
    var l := BlockLine(key, value);
    var end := BlockEnd(all, h + 1);
    var k := KeyAt(all, key, h + 1, end);
    UpsertIs(ls, block, key, value);
    WithLineIs(all, h, end, k, l);
    if k < end {
      BodyAfterReplace(all, block, h, end, k, l);
    } else {
      BodyAfterInsert(all, block, h, end, l);
    }
  }

  lemma UpsertIs(ls: seq<string>, block: string, key: string, value: string)
    ensures var all, h := WithHeader(ls, block), HeaderSpot(ls, block);
      var end := BlockEnd(all, h + 1);
      var k := KeyAt(all, key, h + 1, end);
      var l := BlockLine(key, value);
      UpsertBlock(ls, block, key, value) == if k < end then all[k := l] else InsertAt(all, end, l)
  {
    hide WithHeader, HeaderSpot, BlockEnd, KeyAt, BlockLine;
  }

  /** The body of a block is between its header and the first line that ends it. */
  predicate HasBody(b: seq<string>, block: string, h: nat, end: nat) {
    && h < end <= |b| && IsHeader(b[h], block) && (forall i :: 0 <= i < h ==> !IsHeader(b[i], block))
    && (forall i :: h < i < end ==> !EndsBlock(b[i])) && (end < |b| ==> EndsBlock(b[end]))
  }

  lemma BodyAfterReplace(all: seq<string>, block: string, h: nat, end: nat, k: nat, l: string)
    requires HasBody(all, block, h, end) && h < k < end && !EndsBlock(l)
    ensures Body(all[k := l], block) == Some(all[h + 1..end][k - h - 1 := l])
  {
    hide IsHeader, EndsBlock, Body;
    BodyIs(all[k := l], block, h, end);
    assert all[k := l][h + 1..end] == all[h + 1..end][k - h - 1 := l];
  }

  lemma BodyAfterInsert(all: seq<string>, block: string, h: nat, end: nat, l: string)
    requires HasBody(all, block, h, end) && !EndsBlock(l)
    ensures Body(InsertAt(all, end, l), block) == Some(all[h + 1..end] + [l])
  {
    hide IsHeader, EndsBlock, Body;
    BodyIs(InsertAt(all, end, l), block, h, end + 1);
    assert InsertAt(all, end, l)[h + 1..end + 1] == all[h + 1..end] + [l];
  }

  lemma BodyIs(b: seq<string>, block: string, h: nat, end: nat)
    requires HasBody(b, block, h, end)
    ensures Body(b, block) == Some(b[h + 1..end])
  {
    hide IsHeader, EndsBlock, First;
  }

  lemma HeaderIsThere(ls: seq<string>, block: string)
    requires IsName(block)
    ensures var all, h := WithHeader(ls, block), HeaderSpot(ls, block);
      HasBody(all, block, h, BlockEnd(all, h + 1))
  {
    hide *;
    HeaderLineMeans(block);
    HeaderAdded(ls, block);
    HeaderSpotIs(ls, block);
    var all, h := WithHeader(ls, block), HeaderSpot(ls, block);
    HasBodyMeans(all, block, h, BlockEnd(all, h + 1));
  }

  lemma HeaderSpotIs(ls: seq<string>, block: string)
    requires IsHeader("  " + block + ":", block)
    ensures var all, h := WithHeader(ls, block), HeaderSpot(ls, block);
      IsHeader(all[h], block) && (forall i :: 0 <= i < h ==> !IsHeader(all[i], block))
  {
    hide IsHeader, First, IsKeyLine;
  }

  lemma HasBodyMeans(b: seq<string>, block: string, h: nat, end: nat)
    requires h < end <= |b| && IsHeader(b[h], block) && (forall i :: 0 <= i < h ==> !IsHeader(b[i], block))
    requires (forall i :: h < i < end ==> !EndsBlock(b[i])) && (end < |b| ==> EndsBlock(b[end]))
    ensures HasBody(b, block, h, end)
  {
    hide IsHeader, EndsBlock;
  }

  lemma HeaderLineMeans(block: string)
    requires IsName(block)
    ensures IsHeader("  " + block + ":", block) && EndsBlock("  " + block + ":")
    ensures forall other :: IsName(other) && other != block ==> !IsHeader("  " + block + ":", other)
  {
    var s, l := block + ":", "  " + block + ":";
    HeaderText(block);
    assert TrimStart(l) == s;
    forall other | IsName(other) && other != block ensures !IsHeader(l, other) { NamesDiffer(other, block); }
    ColonIsSolid();
    assert s[0] == block[0];
    hide IsWhite, TrimStart, TrimEnd;
    assert EndsBlock(l);
  }

  lemma HeaderText(block: string)
    requires IsName(block)
    ensures var l := "  " + block + ":"; TrimStart(l) == Trim(l) == block + ":" && Indent(l) == 2
  {
    FourSpaces();
    ColonIsSolid();
    hide IsWhite;
    var s := block + ":";
    assert "  " + block + ":" == "  " + s;
    TrimStartOver("  ", s);
    TrimStartSolid(s);
    TrimEndAfter(s, "");
    assert s + "" == s;
    assert ("  " + s)[..2] == "  ";
  }

  /** A header has no value of its own. */
  lemma HeaderSaysNothing(block: string, key: string)
    requires IsName(block) && IsName(key)
    ensures ReadLine("  " + block + ":", key).None?
  {
    var l := "  " + block + ":";
    HeaderText(block);
    assert block + ":" + "" == block + ":";
    KeyLineMentions(l, block, key);
    hide IsWhite, Mentions;
    if key == block { AfterKey(l, key, ""); }
  }

  /** Reading a block entry after writing it gives the value, cleaned. */
  lemma ReadAfterBlockWrite(ls: seq<string>, block: string, key: string, value: string)
    requires IsName(block) && IsName(key) && Clean(value) != "" && NoSpacedColon(ls, key)
    ensures ReadBlock(UpsertBlock(ls, block, key, value), block, key) == Some(Clean(value))
  {
    hide *;
    BlockLineMeans(key, value);
    WrittenBody(ls, block, key, value);
    var all, h := WithHeader(ls, block), HeaderSpot(ls, block);
    var end := BlockEnd(all, h + 1);
    var k := KeyAt(all, key, h + 1, end);
    WithLineIs(all, h, end, k, BlockLine(key, value));
    var body := Body(UpsertBlock(ls, block, key, value), block).value;
    forall j | 0 <= j < k - h - 1 ensures ReadLine(body[j], key).None? {
      assert body[j] == all[h + 1 + j];
      NotAboutKey(ls, block, key, body[j]);
    }
    FirstValueAt(body, key, k - h - 1);
    BlockReads(UpsertBlock(ls, block, key, value), block, key);
  }

  lemma BlockReads(ls: seq<string>, block: string, key: string)
    requires Body(ls, block).Some?
    ensures ReadBlock(ls, block, key) == FirstValue(Body(ls, block).value, key)
  {
  }

  lemma NotAboutKey(ls: seq<string>, block: string, key: string, l: string)
    requires IsName(block) && IsName(key) && NoSpacedColon(ls, key) && l in WithHeader(ls, block) && !IsKeyLine(l, key)
    ensures ReadLine(l, key).None?
  {
    HeaderSaysNothing(block, key);
    hide IsKeyLine, Mentions, Clean, IsName, WithHeader;
    InWithHeader(ls, block, l);
  }

  lemma InWithHeader(ls: seq<string>, block: string, l: string)
    requires l in WithHeader(ls, block)
    ensures l in ls || l == "  " + block + ":"
  {
    hide First, IsHeader, IsKeyLine;
  }

  // ----- What a block write leaves alone ---------------------------------------------------

  /** Headers of a block are indented by two at most. */
  predicate IsShallow(ls: seq<string>, block: string) {
    forall i :: 0 <= i < |ls| && IsHeader(ls[i], block) ==> Indent(ls[i]) <= 2
  }

  predicate HasShallowWebsocket(ls: seq<string>) {
    forall i :: 0 <= i < |ls| && IsKeyLine(ls[i], "websocket") ==> Indent(ls[i]) <= 2
  }

  lemma HeaderEnds(l: string, block: string)
    requires IsName(block) && IsHeader(l, block) && Indent(l) <= 2
    ensures EndsBlock(l)
  {
    ColonIsSolid();
    assert block + ":" + "" == block + ":" && (block + ":")[0] == block[0];
    hide IsWhite;
    TrimEndAfter(block + ":", "");
  }

  lemma WebsocketEnds(l: string)
    requires IsKeyLine(l, "websocket") && Indent(l) <= 2
    ensures EndsBlock(l)
  {
    ColonIsSolid();
    KeyLineIsNoComment(l, "websocket");
    hide Trim, Indent;
  }

  lemma KeyLineIsNoComment(l: string, key: string)
    requires IsKeyLine(l, key) && key != "" && key[0] != '#'
    ensures Trim(l) != "" && !("#" <= Trim(l))
  {
    hide *;
    var r := AfterColon(l, key);
    ColonIsSolid();
    TrimEndAfter(key + ":", r);
    TrimIs(l);
    assert (key + ":" + TrimEnd(r))[0] == key[0];
  }

  lemma AfterColon(l: string, key: string) returns (r: string)
    requires IsKeyLine(l, key)
    ensures TrimStart(l) == key + ":" + r
  {
    r := TrimStart(l)[|key| + 1..];
  }

  lemma InsertKeepsBody(a: seq<string>, p: nat, l: string, other: string)
    requires p <= |a| && !IsHeader(l, other)
    requires var h := HeaderAt(a, other);
      h == |a| || p <= h || p > BlockEnd(a, h + 1) || (p == BlockEnd(a, h + 1) && EndsBlock(l))
    ensures Body(InsertAt(a, p, l), other) == Body(a, other)
  {
    hide IsHeader, EndsBlock, First, Body;
    var h := HeaderAt(a, other);
    var b := InsertAt(a, p, l);
    if h == |a| {
      NoBody(a, other);
      assert forall i :: 0 <= i < |b| ==> b[i] == if i < p then a[i] else if i == p then l else a[i - 1];
      NoBody(b, other);
    } else {
      var end := BlockEnd(a, h + 1);
      BodyIs(a, other, h, end);
      if p <= h { InsertBefore(a, p, l, other, h, end); } else { InsertAfter(a, p, l, other, h, end); }
    }
  }

  lemma InsertedLines(a: seq<string>, p: nat, l: string)
    requires p <= |a|
    ensures var b := InsertAt(a, p, l);
      |b| == |a| + 1 && b[p] == l && (forall i :: 0 <= i < p ==> b[i] == a[i]) && (forall i :: p < i < |b| ==> b[i] == a[i - 1])
  {
  }

  lemma InsertBefore(a: seq<string>, p: nat, l: string, other: string, h: nat, end: nat)
    requires HasBody(a, other, h, end) && p <= h && !IsHeader(l, other)
    ensures Body(InsertAt(a, p, l), other) == Some(a[h + 1..end])
  {
    hide IsHeader, EndsBlock, Body;
    var b := InsertAt(a, p, l);
    hide InsertAt;
    InsertedLines(a, p, l);
    BodyIs(b, other, h + 1, end + 1);
    assert b[h + 2..end + 1] == a[h + 1..end];
  }

  lemma InsertAfter(a: seq<string>, p: nat, l: string, other: string, h: nat, end: nat)
    requires HasBody(a, other, h, end) && end <= p <= |a| && (p == end ==> EndsBlock(l))
    ensures Body(InsertAt(a, p, l), other) == Some(a[h + 1..end])
  {
    hide IsHeader, EndsBlock, Body;
    var b := InsertAt(a, p, l);
    assert forall i :: 0 <= i < p ==> b[i] == a[i];
    assert b[p] == l;
    BodyIs(b, other, h, end);
    assert b[h + 1..end] == a[h + 1..end];
  }

  lemma NoBody(a: seq<string>, other: string)
    requires forall i :: 0 <= i < |a| ==> !IsHeader(a[i], other)
    ensures Body(a, other).None?
  {
    hide IsHeader, EndsBlock, First;
  }

  lemma ReplaceKeepsBody(a: seq<string>, k: nat, l: string, other: string)
    requires k < |a| && !IsHeader(a[k], other) && !IsHeader(l, other) && !EndsBlock(a[k]) && !EndsBlock(l)
    requires var h := HeaderAt(a, other); h == |a| || k < h || k >= BlockEnd(a, h + 1)
    ensures Body(a[k := l], other) == Body(a, other)
  {
    hide IsHeader, EndsBlock, First, Body;
    var h := HeaderAt(a, other);
    var b := a[k := l];
    if h == |a| {
      NoBody(a, other);
      NoBody(b, other);
    } else {
      var end := BlockEnd(a, h + 1);
      BodyIs(a, other, h, end);
      BodyIs(b, other, h, end);
      assert b[h + 1..end] == a[h + 1..end];
    }
  }

  /** Two blocks with shallow headers do not overlap. */
  lemma BlocksAreApart(a: seq<string>, block: string, h: nat, other: string)
    requires IsName(block) && IsName(other) && block != other
    requires h < |a| && IsHeader(a[h], block) && IsShallow(a, block) && IsShallow(a, other)
    ensures var h' := HeaderAt(a, other);
      h' == |a| || (h < h' && BlockEnd(a, h + 1) <= h') || (h' < h && BlockEnd(a, h' + 1) <= h)
  {
    var h' := HeaderAt(a, other);
    HeaderEnds(a[h], block);
    if h' < |a| { HeaderEnds(a[h'], other); }
    if h' == h { NamesDiffer(block, other); }
    hide EndsBlock, First, Indent;
  }

  /** Adding the header cuts no other block in two. */
  lemma HeaderKeepsBodies(ls: seq<string>, block: string, other: string)
    requires IsName(block) && IsName(other) && block != other && HasShallowWebsocket(ls)
    requires IsShallow(ls, block) && IsShallow(ls, other)
    ensures Body(WithHeader(ls, block), other) == Body(ls, other)
    ensures IsShallow(WithHeader(ls, block), block) && IsShallow(WithHeader(ls, block), other)
  {
    var l, w := "  " + block + ":", WebsocketAt(ls);
    HeaderLineMeans(block);
    HeaderText(block);
    if w < |ls| { WebsocketEnds(ls[w]); }
    hide IsHeader, EndsBlock, First, Body, Indent, IsKeyLine, IsShallow, InsertAt;
    if HeaderAt(ls, block) == |ls| {
      InsertKeepsBody(ls, w, l, other);
      InsertKeepsShallow(ls, w, l, block);
      InsertKeepsShallow(ls, w, l, other);
    }
  }

  lemma InsertKeepsShallow(ls: seq<string>, w: nat, l: string, block: string)
    requires w <= |ls| && Indent(l) <= 2 && IsShallow(ls, block)
    ensures IsShallow(InsertAt(ls, w, l), block)
  {
    hide IsHeader, Indent;
    var b := InsertAt(ls, w, l);
    assert forall i :: 0 <= i < |b| ==> b[i] == if i < w then ls[i] else if i == w then l else ls[i - 1];
  }

  lemma HeaderStands(ls: seq<string>, block: string)
    requires IsName(block)
    ensures IsHeader(WithHeader(ls, block)[HeaderSpot(ls, block)], block)
  {
    HeaderIsThere(ls, block);
    hide WithHeader, HeaderSpot, IsHeader, BlockEnd, HeaderAt;
  }

  lemma InsideIsNoHeader(all: seq<string>, k: nat, other: string)
    requires IsName(other) && IsShallow(all, other) && k < |all| && !EndsBlock(all[k])
    ensures !IsHeader(all[k], other)
  {
    hide IsHeader, EndsBlock, Indent, IsName;
    if IsHeader(all[k], other) { HeaderEnds(all[k], other); }
  }

  lemma WriteKeepsBody(ls: seq<string>, block: string, key: string, value: string, other: string)
    requires IsName(block) && IsName(key) && IsName(other) && block != other
    requires IsShallow(ls, block) && IsShallow(ls, other) && HasShallowWebsocket(ls)
    ensures Body(UpsertBlock(ls, block, key, value), other) == Body(ls, other)
  {
    hide *;
    HeaderKeepsBodies(ls, block, other);
    BlockLineMeans(key, value);
    HeaderStands(ls, block);
    UpsertIs(ls, block, key, value);
    var all, h := WithHeader(ls, block), HeaderSpot(ls, block);
    BlocksAreApart(all, block, h, other);
    var end := BlockEnd(all, h + 1);
    var k := KeyAt(all, key, h + 1, end);
    if k < end {
      InsideIsNoHeader(all, k, other);
      ReplaceKeepsBody(all, k, BlockLine(key, value), other);
    } else {
      InsertKeepsBody(all, end, BlockLine(key, value), other);
    }
  }

  lemma WriteKeepsSiblings(ls: seq<string>, block: string, key: string, value: string, other: string)
    requires IsName(block) && IsName(key) && IsName(other) && key != other && HasShallowWebsocket(ls)
    ensures ReadBlock(UpsertBlock(ls, block, key, value), block, other) == ReadBlock(ls, block, other)
  {
    hide *;
    BlockLineMeans(key, value);
    WrittenBody(ls, block, key, value);
    HeaderIsThere(ls, block);
    var l := BlockLine(key, value);
    var all, h := WithHeader(ls, block), HeaderSpot(ls, block);
    var end := BlockEnd(all, h + 1);
    var k := KeyAt(all, key, h + 1, end);
    var body := all[h + 1..end];
    WithLineIs(all, h, end, k, l);
    BlockReads(UpsertBlock(ls, block, key, value), block, other);
    if k < end {
      KeyLineMentions(all[k], key, other);
      UnmentionedReads(all[k], other);
      FirstValueSame(body, body[k - h - 1 := l], other);
    } else {
      FirstValueAppend(body, l, other);
    }
    OldBody(ls, block, other);
  }

  lemma UnmentionedReads(l: string, key: string)
    requires !Mentions(l, key)
    ensures ReadLine(l, key).None?
  {
  }

  /** Before the write the block read the same, be it that there was none. */
  lemma OldBody(ls: seq<string>, block: string, other: string)
    requires IsName(block) && HasShallowWebsocket(ls)
    ensures var all, h := WithHeader(ls, block), HeaderSpot(ls, block);
      ReadBlock(ls, block, other) == FirstValue(all[h + 1..BlockEnd(all, h + 1)], other)
  {
    hide IsHeader, EndsBlock, Indent, IsKeyLine, First, IsName, HeaderAt, WebsocketAt, BlockEnd, FirstValue, InsertAt,
         HasShallowWebsocket;
    if HeaderAt(ls, block) == |ls| {
      NewBlockIsEmpty(ls, "  " + block + ":", other);
    } else {
      Settings.BodyIs(ls, block);
    }
  }

  lemma NewBlockIsEmpty(ls: seq<string>, header: string, other: string)
    requires HasShallowWebsocket(ls)
    ensures var all, w := InsertAt(ls, WebsocketAt(ls), header), WebsocketAt(ls);
      w < |all| && BlockEnd(all, w + 1) == w + 1 && FirstValue(all[w + 1..BlockEnd(all, w + 1)], other) == None
  {
    var w := WebsocketAt(ls);
    if w < |ls| { WebsocketEnds(ls[w]); }
    hide IsHeader, EndsBlock, Indent, IsKeyLine, First, WebsocketAt, BlockEnd;
    var all := InsertAt(ls, w, header);
    assert w < |ls| ==> all[w + 1] == ls[w];
    assert all[w + 1..w + 1] == [];
  }

  /** Writing one block entry changes no other entry of any block, as long as block
      headers and the `websocket:` line are indented by two at most. */
  lemma BlockWriteKeepsOthers(ls: seq<string>, block: string, key: string, value: string, block': string, key': string)
    requires IsName(block) && IsName(key) && IsName(block') && IsName(key') && (block, key) != (block', key')
    requires IsShallow(ls, block) && IsShallow(ls, block') && HasShallowWebsocket(ls)
    ensures ReadBlock(UpsertBlock(ls, block, key, value), block', key') == ReadBlock(ls, block', key')
  {
    hide *;
    if block == block' {
      WriteKeepsSiblings(ls, block, key, value, key');
    } else {
      WriteKeepsBody(ls, block, key, value, block');
      SameBodyReads(UpsertBlock(ls, block, key, value), ls, block', key');
    }
  }

  lemma SameBodyReads(a: seq<string>, b: seq<string>, block: string, key: string)
    requires Body(a, block) == Body(b, block)
    ensures ReadBlock(a, block, key) == ReadBlock(b, block, key)
  {
  }

  // ----- The same on file contents -----------------------------------------------------------

  /** Every line of the file reads back as itself. */
  predicate IsSettled(contents: string) {
    ArePlain(Lines(contents))
  }

  lemma WrittenLinesArePlain(ls: seq<string>, block: string, key: string, value: string)
    requires ArePlain(ls) && IsName(block) && IsName(key) && IsPlain(value)
    ensures var r := UpsertBlock(ls, block, key, value); ArePlain(r) && r != []
  {
    hide *;
    LinesWrittenArePlain(block, key, value);
    HeaderAdded(ls, block);
    var l := BlockLine(key, value);
    var all, h := WithHeader(ls, block), HeaderSpot(ls, block);
    var end := BlockEnd(all, h + 1);
    InsertKeepsPlain(ls, WebsocketAt(ls), "  " + block + ":");
    InsertKeepsPlain(all, end, l);
    UpsertIs(ls, block, key, value);
    if KeyAt(all, key, h + 1, end) < end { ReplaceKeepsPlain(all, KeyAt(all, key, h + 1, end), l); }
  }

  lemma HeaderAdded(ls: seq<string>, block: string)
    ensures WithHeader(ls, block) in {ls, InsertAt(ls, WebsocketAt(ls), "  " + block + ":")}
  {
    hide First, IsKeyLine, IsHeader, InsertAt;
  }

  lemma InsertKeepsPlain(ls: seq<string>, n: nat, l: string)
    requires n <= |ls| && ArePlain(ls) && IsPlain(l)
    ensures ArePlain(InsertAt(ls, n, l)) && InsertAt(ls, n, l) != []
  {
    hide IsPlain;
    var r := InsertAt(ls, n, l);
    assert forall i :: 0 <= i < |r| ==> r[i] == if i < n then ls[i] else if i == n then l else ls[i - 1];
  }

  lemma ReplaceKeepsPlain(ls: seq<string>, n: nat, l: string)
    requires n < |ls| && ArePlain(ls) && IsPlain(l)
    ensures ArePlain(ls[n := l]) && ls[n := l] != []
  {
    hide IsPlain;
  }

  lemma LinesWrittenArePlain(block: string, key: string, value: string)
    requires IsName(block) && IsName(key) && IsPlain(value)
    ensures IsPlain("  " + block + ":") && IsPlain(BlockLine(key, value)) && IsPlain(FlatLine(key, value))
  {
    assert IsWhite('\n');
    assert forall n: string :: IsName(n) ==> '\n' !in n;
    hide IsWhite, IsName;
  }

  /** Another entry, of a block whose headers are shallow. */
  predicate IsOther(ls: seq<string>, block: string, key: string, block': string, key': string) {
    IsName(block') && IsName(key') && (block', key') != (block, key) && IsShallow(ls, block')
  }

  lemma OtherMeans(ls: seq<string>, block: string, key: string, block': string, key': string)
    requires IsOther(ls, block, key, block', key')
    ensures IsName(block') && IsName(key') && (block', key') != (block, key) && IsShallow(ls, block')
  {
  }

  /** The file law: what was written for a block entry is read back, every other
      entry reads as it did. */
  lemma BlockLens(contents: string, block: string, key: string, value: string)
    requires IsSettled(contents) && IsName(block) && IsName(key) && IsPlain(value) && Clean(value) != ""
    requires NoSpacedColon(Lines(contents), key)
    ensures var next := Lines(Unlines(UpsertBlock(Lines(contents), block, key, value)));
      && ReadBlock(next, block, key) == Some(Clean(value))
      && (IsShallow(Lines(contents), block) && HasShallowWebsocket(Lines(contents)) ==>
            forall block', key' :: IsOther(Lines(contents), block, key, block', key') ==>
              ReadBlock(next, block', key') == ReadBlock(Lines(contents), block', key'))
  {
    var ls := Lines(contents);
    hide *;
    SettledMeans(contents);
    WrittenLinesArePlain(ls, block, key, value);
    LinesOfUnlines(UpsertBlock(ls, block, key, value));
    ReadAfterBlockWrite(ls, block, key, value);
    if IsShallow(ls, block) && HasShallowWebsocket(ls) {
      forall block', key' | IsOther(ls, block, key, block', key')
        ensures ReadBlock(UpsertBlock(ls, block, key, value), block', key') == ReadBlock(ls, block', key')
      {
        OtherMeans(ls, block, key, block', key');
        BlockWriteKeepsOthers(ls, block, key, value, block', key');
      }
    }
  }

  lemma SettledMeans(contents: string)
    ensures IsSettled(contents) <==> ArePlain(Lines(contents))
  {
  }
}
