/** What a line of the settings file says, whoever wrote it, and where new lines go. */
module YamlLines {
  import opened Nostr
  import opened Text
  import opened Settings
  import opened SettingsLaws

  // ----- One line ------------------------------------------------------------------------

  /** A value as people write it: bare, or in one pair of quotes. */
  predicate IsQuoted(s: string, v: string) {
    s == v || s == "\"" + v + "\"" || s == "'" + v + "'"
  }

  predicate IsPlainValue(v: string) {
    v != "" && !IsWhite(v[0]) && !IsWhite(v[|v| - 1]) && '"' !in v && '\'' !in v
  }

  lemma Regroup(a: string, b: string, c: string)
    ensures a + b + c == a + (b + c)
  {
  }

  lemma EmptyEnd(a: string)
    ensures a + "" == a
  {
  }

  lemma EmptyStart(a: string)
    ensures "" + a == a
  {
  }

  lemma TrimmedStart(w: string, s: string, x: string)
    requires AllWhite(w) && s != "" && !IsWhite(s[0])
    ensures TrimStart(w + s + x) == s + x
  {
    hide *;
    Regroup(w, s, x);
    TrimStartOver(w, s + x);
    StartSolid(s, x);
    TrimStartSolid(s + x);
  }

  lemma TrimmedEnd(w: string, s: string, x: string)
    requires AllWhite(x) && s != "" && !IsWhite(s[|s| - 1])
    ensures TrimEnd(w + s + x) == w + s
  {
    hide *;
    EndSolid(w, s);
    TrimEndAfter(w + s, x);
    NothingAfter(x);
    EmptyEnd(w + s);
  }

  lemma Trimmed(w: string, s: string, x: string)
    requires AllWhite(w) && AllWhite(x) && s != "" && !IsWhite(s[0]) && !IsWhite(s[|s| - 1])
    ensures Trim(w + s + x) == s
  {
    hide *;
    TrimIs(w + s + x);
    TrimmedStart(w, s, x);
    TrimmedEnd("", s, x);
    EmptyStart(s);
  }

  lemma StartSolid(s: string, x: string)
    requires s != "" && !IsWhite(s[0])
    ensures (s + x) != "" && !IsWhite((s + x)[0])
  {
    hide IsWhite;
  }

  lemma EndSolid(w: string, s: string)
    requires s != "" && !IsWhite(s[|s| - 1])
    ensures (w + s) != "" && !IsWhite((w + s)[|w + s| - 1])
  {
    hide IsWhite;
  }

  lemma {:induction false} NothingAfter(x: string)
    requires AllWhite(x)
    ensures TrimEnd(x) == ""
  {
    hide IsWhite;
    if x != "" { NothingAfter(x[..|x| - 1]); }
  }

  lemma QuotedIsSolid(s: string, v: string)
    requires IsPlainValue(v) && IsQuoted(s, v)
    ensures s != "" && !IsWhite(s[0]) && !IsWhite(s[|s| - 1])
  {
    assert !IsWhite('"') && !IsWhite('\'');
    hide IsWhite;
  }

  lemma CleanQuoted(s: string, v: string)
    requires IsPlainValue(v) && IsQuoted(s, v)
    ensures Clean(s) == v
  {
    hide *;
    PlainIsIdentity(v);
    if s == "'" + v + "'" { SingleQuoted(v); }
    assert IsQuoted(s, v);
    QuotedCases(s, v);
  }

  lemma PlainIsIdentity(v: string)
    requires IsPlainValue(v)
    ensures Clean(v) == v && Clean("\"" + v + "\"") == v
  {
    hide Clean, IsWhite;
    CleanIsIdentity(v);
  }

  lemma QuotedCases(s: string, v: string)
    requires IsQuoted(s, v)
    ensures s == v || s == "\"" + v + "\"" || s == "'" + v + "'"
  {
  }

  lemma SingleQuoted(v: string)
    requires IsPlainValue(v)
    ensures Clean("'" + v + "'") == v
  {
    hide *;
    var q := "'" + v + "'";
    QuotedIs(v);
    QuotedIsSolid(q, v);
    EmptyIsWhite();
    Trimmed("", q, "");
    EmptyStart(q);
    EmptyEnd(q);
    CleanIs(q);
    QuotesGo(v);
  }

  lemma QuotedIs(v: string)
    ensures IsQuoted("'" + v + "'", v)
  {
  }

  lemma CleanIs(s: string)
    ensures Clean(s) == TrimChar('\'', TrimChar('"', Trim(s)))
  {
    hide TrimChar, Trim;
  }

  lemma QuotesGo(v: string)
    requires IsPlainValue(v)
    ensures TrimChar('\'', TrimChar('"', "'" + v + "'")) == v
  {
    var q := "'" + v + "'";
    assert v[0] in v && v[|v| - 1] in v;
    hide IsWhite;
    assert q[|q| - 1] == '\'' && TrimChar('"', q) == q;
    assert q[1..] == v + "'" && (v + "'")[..|v|] == v;
    assert TrimChar('\'', q) == TrimChar('\'', q[1..]);
    assert TrimChar('\'', v + "'") == TrimChar('\'', v) == v;
  }

  /** A line `key: value`, with blanks anywhere around and the value quoted or not, says
      that value of the key. */
  lemma LineReads(a: string, key: string, b: string, c: string, s: string, d: string, v: string)
    requires IsName(key) && AllWhite(a) && AllWhite(b) && AllWhite(c) && AllWhite(d) && IsPlainValue(v) && IsQuoted(s, v)
    ensures ReadLine(a + key + b + ":" + c + s + d, key) == Some(v)
  {
    hide *;
    var l := a + key + b + ":" + c + s + d;
    var core := key + (b + ":" + c + s);
    assert l == a + core + d;
    QuotedIsSolid(s, v);
    NameIsSolid(key, b + ":" + c + s);
    EndSolid(key + (b + ":" + c), s);
    assert core == key + (b + ":" + c) + s;
    Trimmed(a, core, d);
    AfterName(key, b + ":" + c + s);
    ColonIsSolid();
    var rest := ":" + (c + s);
    assert b + ":" + c + s == b + rest;
    TrimStartOver(b, rest);
    ColonFirst(c + s);
    TrimStartSolid(rest);
    MentionsIs(l, key, core, b + rest, rest);
    ReadLineIs(l, key);
    BlanksBefore(c, s);
    CleanQuoted(s, v);
    ValueIsThere(v);
  }

  lemma ValueIsThere(v: string)
    requires IsPlainValue(v)
    ensures v != ""
  {
  }

  lemma MentionsIs(l: string, key: string, core: string, after: string, rest: string)
    requires Trim(l) == core && key <= core && core[|key|..] == after && TrimStart(after) == rest && ":" <= rest
    ensures Mentions(l, key)
  {
  }

  lemma ColonFirst(t: string)
    ensures ":" <= ":" + t && (":" + t)[0] == ':' && (":" + t)[1..] == t
  {
  }

  lemma NameIsSolid(key: string, r: string)
    requires IsName(key)
    ensures key + r != "" && !IsWhite((key + r)[0])
  {
    hide IsWhite;
  }

  lemma AfterName(key: string, r: string)
    ensures key <= key + r && (key + r)[|key|..] == r
  {
  }

  lemma BlanksBefore(c: string, s: string)
    requires AllWhite(c) && s != "" && !IsWhite(s[0]) && !IsWhite(s[|s| - 1])
    ensures Clean(c + s) == Clean(s)
  {
    hide *;
    EmptyIsWhite();
    Trimmed(c, s, "");
    Trimmed("", s, "");
    EmptyEnd(c + s);
    EmptyStart(s);
    EmptyEnd(s);
    CleanByTrim(c + s, s);
  }

  lemma CleanByTrim(a: string, b: string)
    requires Trim(a) == Trim(b)
    ensures Clean(a) == Clean(b)
  {
    hide Trim, TrimChar;
  }

  /** A comment says nothing. */
  lemma CommentReads(a: string, r: string, key: string)
    requires IsName(key) && AllWhite(a)
    ensures ReadLine(a + "#" + r, key) == None
  {
    hide *;
    ColonIsSolid();
    assert a + "#" + r == a + ("#" + r);
    assert "#" + r != "" && ("#" + r)[0] == '#' && "#" != "" && "#"[|"#"| - 1] == '#';
    TrimIs(a + "#" + r);
    TrimStartOver(a, "#" + r);
    TrimStartSolid("#" + r);
    TrimEndAfter("#", r);
    NotMentioned(a + "#" + r, key, TrimEnd(r));
  }

  lemma NotMentioned(l: string, key: string, t: string)
    requires IsName(key) && Trim(l) == "#" + t
    ensures ReadLine(l, key) == None
  {
    hide IsWhite, Trim, Clean;
    assert key[0] != ("#" + t)[0];
  }

  // ----- Where a block ends ---------------------------------------------------------------

  /** A blank line ends no block, and another ends it exactly when two blanks or fewer come
      before something that is no comment. */
  lemma EndsBlockIff(n: nat, r: string)
    requires r == "" || !IsWhite(r[0])
    ensures EndsBlock(seq(n, _ => ' ') + r) <==> r != "" && n <= 2 && r[0] != '#'
  {
    hide *;
    var l := seq(n, _ => ' ') + r;
    IndentIs(n, r);
    EndsBlockIs(l);
    TrimIs(l);
    EmptyIsWhite();
    if r == "" {
      NothingAfter(r);
    } else {
      FirstStays(r);
    }
  }

  lemma EmptyIsWhite()
    ensures AllWhite("")
  {
  }

  lemma EndsBlockIs(l: string)
    ensures EndsBlock(l) <==> Trim(l) != "" && Indent(l) <= 2 && Trim(l)[0] != '#'
  {
    hide Trim, Indent;
  }

  lemma IndentIs(n: nat, r: string)
    requires r == "" || !IsWhite(r[0])
    ensures var l := seq(n, _ => ' ') + r; TrimStart(l) == r && Indent(l) == n
  {
    var w: string := seq(n, _ => ' ');
    assert AllWhite(w);
    hide IsWhite, AllWhite, TrimStart, Utf8Size;
    TrimStartOver(w, r);
    TrimStartSolid(r);
    BlanksAreBytes(n);
    assert (w + r)[..|w + r| - |r|] == w;
  }

  lemma FirstStays(r: string)
    requires r != "" && !IsWhite(r[0])
    ensures TrimEnd(r) != "" && TrimEnd(r)[0] == r[0]
  {
    hide IsWhite, TrimEnd;
    assert [r[0]] + r[1..] == r;
    TrimEndAfter([r[0]], r[1..]);
  }

  lemma {:induction false} BlanksAreBytes(n: nat)
    ensures Utf8Size(seq(n, _ => ' ')) == n
  {
    if n > 0 {
      var w: string := seq(n, _ => ' ');
      assert w[1..] == seq(n - 1, _ => ' ');
      BlanksAreBytes(n - 1);
    }
  }

  // ----- Which line and which file counts --------------------------------------------------

  /** The first line that says something of the key. */
  predicate IsDeciding(ls: seq<string>, key: string, i: nat) {
    i < |ls| && ReadLine(ls[i], key).Some? && forall j :: 0 <= j < i ==> ReadLine(ls[j], key).None?
  }

  lemma {:induction false} FirstLineDecides(ls: seq<string>, key: string)
    ensures forall i: nat :: IsDeciding(ls, key, i) ==> FirstValue(ls, key) == ReadLine(ls[i], key)
    ensures (forall i :: 0 <= i < |ls| ==> ReadLine(ls[i], key).None?) ==> FirstValue(ls, key) == None
  {
    hide ReadLine;
    if ls != [] {
      FirstLineDecides(ls[1..], key);
      forall i: nat | IsDeciding(ls, key, i) ensures FirstValue(ls, key) == ReadLine(ls[i], key) {
        if i > 0 { assert IsDeciding(ls[1..], key, i - 1); }
      }
    }
  }

  /** The first file that has a value. */
  predicate IsDecidingFile(files: seq<Option<string>>, read: seq<string> -> Option<string>, i: nat) {
    i < |files| && Has(files[i], read) && forall j :: 0 <= j < i ==> !Has(files[j], read)
  }

  predicate Has(file: Option<string>, read: seq<string> -> Option<string>) {
    file.Some? && read(Lines(file.value)).Some?
  }

  /** The first file that has a value decides, the local one being first; without any the
      default stands. */
  lemma {:induction false} FirstFileDecides(files: seq<Option<string>>, read: seq<string> -> Option<string>, otherwise: string)
    ensures forall i: nat :: IsDecidingFile(files, read, i) ==>
      Has(files[i], read) && FromFiles(files, read, otherwise) == read(Lines(files[i].value)).value
    ensures (forall i :: 0 <= i < |files| ==> !Has(files[i], read)) ==> FromFiles(files, read, otherwise) == otherwise
  {
    hide Lines, Has;
    if files != [] {
      FirstFileDecides(files[1..], read, otherwise);
      FilesUnfold(files, read, otherwise);
      forall i: nat | IsDecidingFile(files, read, i)
        ensures Has(files[i], read) && files[i].Some? && read(Lines(files[i].value)).Some? &&
          FromFiles(files, read, otherwise) == read(Lines(files[i].value)).value
      {
        HasMeans(files[i], read);
        if i > 0 { assert IsDecidingFile(files[1..], read, i - 1); }
      }
    }
  }

  lemma HasMeans(file: Option<string>, read: seq<string> -> Option<string>)
    ensures Has(file, read) <==> file.Some? && read(Lines(file.value)).Some?
  {
  }

  lemma FilesUnfold(files: seq<Option<string>>, read: seq<string> -> Option<string>, otherwise: string)
    requires files != []
    ensures Has(files[0], read) ==>
      && files[0].Some? && read(Lines(files[0].value)).Some?
      && FromFiles(files, read, otherwise) == read(Lines(files[0].value)).value
    ensures !Has(files[0], read) ==> FromFiles(files, read, otherwise) == FromFiles(files[1..], read, otherwise)
  {
    hide Lines;
  }

  // ----- Where a new line goes ----------------------------------------------------------------

  /** One line more, before the first that begins with `websocket:`, or at the end. */
  predicate GoesBeforeWebsocket(before: seq<string>, after: seq<string>, l: string) {
    exists n :: 0 <= n <= |before| && IsInserted(before, after, l, n)
  }

  predicate IsInserted(before: seq<string>, after: seq<string>, l: string, n: nat)
    requires n <= |before|
  {
    && after == before[..n] + [l] + before[n..]
    && (n < |before| ==> "websocket:" <= TrimStart(before[n]))
    && forall i :: 0 <= i < n ==> !("websocket:" <= TrimStart(before[i]))
  }

  /** A setting that is not there yet goes before `websocket:`, and so does the header of a
      block that is not there yet. */
  lemma NewLinesGoBeforeWebsocket(ls: seq<string>, key: string, value: string, block: string)
    ensures (forall l :: l in ls ==> !(key + ":" <= TrimStart(l))) ==>
      GoesBeforeWebsocket(ls, UpsertFlat(ls, key, value), "  " + key + ": " + value)
    ensures (forall l :: l in ls ==> TrimStart(l) != block + ":") ==>
      GoesBeforeWebsocket(ls, WithHeader(ls, block), "  " + block + ":")
  {
    hide TrimStart, First;
    var n := WebsocketAt(ls);
    assert "websocket" + ":" == "websocket:";
    if forall l :: l in ls ==> !(key + ":" <= TrimStart(l)) {
      assert IsInserted(ls, UpsertFlat(ls, key, value), "  " + key + ": " + value, n);
    }
    if forall l :: l in ls ==> TrimStart(l) != block + ":" {
      assert HeaderAt(ls, block) == |ls|;
      assert IsInserted(ls, WithHeader(ls, block), "  " + block + ":", n);
    }
  }
}
