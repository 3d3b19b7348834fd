/** The settings file as the console reads and rewrites it, line by line. */
module Settings {
  import opened Nostr
  import opened Text

  // ----- Lines -------------------------------------------------------------------

  function BreakAt(s: string): (n: nat)
    ensures n <= |s| && '\n' !in s[..n] && (n < |s| ==> s[n] == '\n')
  {
    if s == "" || s[0] == '\n' then 0
    else
      var n := BreakAt(s[1..]);
      assert s[..n + 1] == [s[0]] + s[1..][..n];
      n + 1
  }

  function StripReturn(l: string): string {
    if l != "" && l[|l| - 1] == '\r' then l[..|l| - 1] else l
  }

  /** Lines end with a line feed, perhaps after a carriage return; the last need not. */
  function Lines(s: string): seq<string> {
    var n := BreakAt(s);
    if s == "" then [] else if n == |s| then [s] else [StripReturn(s[..n])] + Lines(s[n + 1..])
  }

  function Join(ls: seq<string>): string {
    if ls == [] then "" else if |ls| == 1 then ls[0] else ls[0] + "\n" + Join(ls[1..])
  }

  function Unlines(ls: seq<string>): string {
    Join(ls) + "\n"
  }

  function Utf8Len(c: char): nat {
    if c < '\U{80}' then 1 else if c < '\U{800}' then 2 else if c < '\U{10000}' then 3 else 4
  }

  function Utf8Size(s: string): nat {
    if s == "" then 0 else Utf8Len(s[0]) + Utf8Size(s[1..])
  }

  /** Leading white space, in bytes. */
  function Indent(l: string): nat {
    Utf8Size(l[..|l| - |TrimStart(l)|])
  }

  predicate IsBlank(l: string) {
    TrimStart(l) == ""
  }

  /** The first line in a range with a property, or the end of the range. */
  function First(p: string -> bool, ls: seq<string>, start: nat, end: nat): (n: nat)
    requires start <= end <= |ls|
    ensures start <= n <= end && (forall i :: start <= i < n ==> !p(ls[i])) && (n < end ==> p(ls[n]))
    decreases end - start
  {
    if start == end || p(ls[start]) then start else First(p, ls, start + 1, end)
  }

  // ----- What a line says ------------------------------------------------------------

  function TrimChar(c: char, s: string): string
    decreases |s|
  {
    if s != "" && s[0] == c then TrimChar(c, s[1..])
    else if s != "" && s[|s| - 1] == c then TrimChar(c, s[..|s| - 1])
    else s
  }

  /** A value as it is read: without outer blanks, then double, then single quotes. */
  function Clean(s: string): string {
    TrimChar('\'', TrimChar('"', Trim(s)))
  }

  /** The line begins with the key and, perhaps after blanks, a colon. */
  predicate Mentions(l: string, key: string) {
    key <= Trim(l) && ":" <= TrimStart(Trim(l)[|key|..])
  }

  /** A line with an empty value is passed over like one that is not about the key. */
  function ReadLine(l: string, key: string): Option<string> {
    if !Mentions(l, key) then None
    else
      var value := Clean(TrimStart(Trim(l)[|key|..])[1..]);
      if value == "" then None else Some(value)
  }

  function FirstValue(ls: seq<string>, key: string): Option<string> {
    if ls == [] then None
    else if ReadLine(ls[0], key).Some? then ReadLine(ls[0], key)
    else FirstValue(ls[1..], key)
  }

  // ----- Blocks ------------------------------------------------------------------------

  predicate IsHeader(l: string, block: string) {
    TrimStart(l) == block + ":"
  }

  /** The first solid line indented no further than a header ends a block. */
  predicate EndsBlock(l: string) {
    Trim(l) != "" && Indent(l) <= 2 && !("#" <= Trim(l))
  }

  predicate IsKeyLine(l: string, key: string) {
    key + ":" <= TrimStart(l)
  }

  function HeaderAt(ls: seq<string>, block: string): (n: nat)
    ensures n <= |ls| && (forall i :: 0 <= i < n ==> !IsHeader(ls[i], block)) && (n < |ls| ==> IsHeader(ls[n], block))
  {
    First(l => IsHeader(l, block), ls, 0, |ls|)
  }

  function BlockEnd(ls: seq<string>, start: nat): (n: nat)
    requires start <= |ls|
    ensures start <= n <= |ls| && (forall i :: start <= i < n ==> !EndsBlock(ls[i])) && (n < |ls| ==> EndsBlock(ls[n]))
  {
    First(EndsBlock, ls, start, |ls|)
  }

  function WebsocketAt(ls: seq<string>): (n: nat)
    ensures n <= |ls| && (n < |ls| ==> IsKeyLine(ls[n], "websocket"))
    ensures forall i :: 0 <= i < n ==> !IsKeyLine(ls[i], "websocket")
  {
    First(l => IsKeyLine(l, "websocket"), ls, 0, |ls|)
  }

  function KeyAt(ls: seq<string>, key: string, start: nat, end: nat): (n: nat)
    requires start <= end <= |ls|
    ensures start <= n <= end && (forall i :: start <= i < n ==> !IsKeyLine(ls[i], key))
    ensures n < end ==> IsKeyLine(ls[n], key)
  {
    First(l => IsKeyLine(l, key), ls, start, end)
  }

  /** The lines of a block, without its header. */
  function Body(ls: seq<string>, block: string): Option<seq<string>> {
    var h := HeaderAt(ls, block);
    if h == |ls| then None else Some(ls[h + 1..BlockEnd(ls, h + 1)])
  }

  function ReadBlock(ls: seq<string>, block: string, key: string): Option<string> {
    match Body(ls, block)
    case None => None
    case Some(body) => FirstValue(body, key)
  }

  function InsertAt(ls: seq<string>, n: nat, l: string): (r: seq<string>)
    requires n <= |ls|
    ensures |r| == |ls| + 1
  {
    ls[..n] + [l] + ls[n..]
  }

  function BlockLine(key: string, value: string): string {
    "    " + key + ": " + value
  }

  /** The file with a header for the block, added if there was none. */
  function WithHeader(ls: seq<string>, block: string): seq<string> {
    if HeaderAt(ls, block) < |ls| then ls else InsertAt(ls, WebsocketAt(ls), "  " + block + ":")
  }

  function HeaderSpot(ls: seq<string>, block: string): (h: nat)
    ensures h < |WithHeader(ls, block)|
  {
    if HeaderAt(ls, block) < |ls| then HeaderAt(ls, block) else WebsocketAt(ls)
  }

  function UpsertBlock(ls: seq<string>, block: string, key: string, value: string): seq<string> {
    var all, h := WithHeader(ls, block), HeaderSpot(ls, block);
    var end := BlockEnd(all, h + 1);
    var k := KeyAt(all, key, h + 1, end);
    if k < end then all[k := BlockLine(key, value)] else InsertAt(all, end, BlockLine(key, value))
  }

  // ----- Flat keys ----------------------------------------------------------------------

  function FlatLine(key: string, value: string): string {
    "  " + key + ": " + value
  }

  predicate IsDeeper(l: string, indent: nat) {
    !IsBlank(l) && Indent(l) > indent
  }

  /** What is left after the lines nested under a key of that indent. */
  function Nested(ls: seq<string>, indent: nat): (n: nat)
    ensures n <= |ls| && (forall i :: 0 <= i < n ==> IsDeeper(ls[i], indent)) && (n < |ls| ==> !IsDeeper(ls[n], indent))
  {
    First(l => !IsDeeper(l, indent), ls, 0, |ls|)
  }

  /** Every line of the key is rewritten, and what it owned dropped. */
  function Rewrite(ls: seq<string>, key: string, line: string): seq<string>
    decreases |ls|
  {
    if ls == [] then []
    else if IsKeyLine(ls[0], key) then [line] + Rewrite(ls[1..][Nested(ls[1..], Indent(ls[0]))..], key, line)
    else [ls[0]] + Rewrite(ls[1..], key, line)
  }

  predicate HasKey(ls: seq<string>, key: string) {
    exists i :: 0 <= i < |ls| && IsKeyLine(ls[i], key)
  }

  function UpsertFlat(ls: seq<string>, key: string, value: string): seq<string> {
    var line := FlatLine(key, value);
    if HasKey(ls, key) then Rewrite(ls, key, line) else InsertAt(ls, WebsocketAt(ls), line)
  }

  // ----- The code ---------------------------------------------------------------------------

  /** Of all lines, `rest` is still to be rewritten and `lines` is what came of the others. */
  ghost predicate IsRewriting(all: seq<string>, rest: seq<string>, lines: seq<string>, found: bool, key: string,
                              replacement: string) {
    && |rest| <= |all| && rest == all[|all| - |rest|..]
    && (found <==> exists i :: 0 <= i < |all| - |rest| && IsKeyLine(all[i], key))
    && lines + Rewrite(rest, key, replacement) == Rewrite(all, key, replacement)
    && (!found ==> lines == all[..|all| - |rest|])
  }

  lemma MoveOne<X>(a: seq<X>, x: X, b: seq<X>)
    ensures a + ([x] + b) == a + [x] + b
  {
  }

  lemma RewriteUnfolds(rest: seq<string>, key: string, replacement: string)
    requires rest != []
    ensures Rewrite(rest, key, replacement) ==
      if IsKeyLine(rest[0], key) then
        [replacement] + Rewrite(rest[1..][Nested(rest[1..], Indent(rest[0]))..], key, replacement)
      else [rest[0]] + Rewrite(rest[1..], key, replacement)
  {
    hide IsKeyLine, Nested, Indent;
  }

  lemma RewritesKey(all: seq<string>, rest: seq<string>, lines: seq<string>, found: bool, key: string, replacement: string)
    requires IsRewriting(all, rest, lines, found, key, replacement) && rest != [] && IsKeyLine(rest[0], key)
    ensures IsRewriting(all, rest[1..][Nested(rest[1..], Indent(rest[0]))..], lines + [replacement], true, key, replacement)
  {
    hide IsKeyLine, IsDeeper, Indent, First, Rewrite, Nested;
    var n := |all| - |rest|;
    var skipped := Nested(rest[1..], Indent(rest[0]));
    assert all[n] == rest[0];
    assert rest[1..][skipped..] == all[n + 1 + skipped..];
    RewriteUnfolds(rest, key, replacement);
    MoveOne(lines, replacement, Rewrite(rest[1..][skipped..], key, replacement));
  }

  lemma RewritesOther(all: seq<string>, rest: seq<string>, lines: seq<string>, found: bool, key: string, replacement: string)
    requires IsRewriting(all, rest, lines, found, key, replacement) && rest != [] && !IsKeyLine(rest[0], key)
    ensures IsRewriting(all, rest[1..], lines + [rest[0]], found, key, replacement)
  {
    hide IsKeyLine, Nested, Indent, Rewrite;
    var n := |all| - |rest|;
    assert all[n] == rest[0] && rest[1..] == all[n + 1..];
    assert all[..n] + [all[n]] == all[..n + 1];
    RewriteUnfolds(rest, key, replacement);
    MoveOne(lines, rest[0], Rewrite(rest[1..], key, replacement));
  }

  lemma RewritingStarts(all: seq<string>, key: string, replacement: string)
    ensures IsRewriting(all, all, [], false, key, replacement)
  {
    hide Rewrite, IsKeyLine;
    assert [] + Rewrite(all, key, replacement) == Rewrite(all, key, replacement);
  }

  lemma RewritingEnds(all: seq<string>, lines: seq<string>, found: bool, key: string, replacement: string)
    requires IsRewriting(all, [], lines, found, key, replacement)
    ensures lines == Rewrite(all, key, replacement) && (found <==> HasKey(all, key)) && (!found ==> lines == all)
  {
    hide IsKeyLine;
    assert lines + [] == lines && all[..|all|] == all;
  }

  method UpsertRelayValue(contents: string, key: string, value: string) returns (next: string)
    ensures next == Unlines(UpsertFlat(Lines(contents), key, value))
  {
    hide Nested, IsDeeper, Indent, IsKeyLine, First, Lines, FlatLine, IsRewriting, Rewrite, HasKey;
    var replacement := FlatLine(key, value);
    var found := false;
    var lines: seq<string> := [];
    var rest := Lines(contents);
    ghost var all := rest;
    RewritingStarts(all, key, replacement);
    while rest != []
      invariant IsRewriting(all, rest, lines, found, key, replacement)
      decreases |rest|
    {
      var line := rest[0];
      if IsKeyLine(line, key) {
        RewritesKey(all, rest, lines, found, key, replacement);
        lines := lines + [replacement];
        found := true;
        rest := SkipNested(rest[1..], Indent(line));
      } else {
        RewritesOther(all, rest, lines, found, key, replacement);
        lines := lines + [line];
        rest := rest[1..];
      }
    }
    RewritingEnds(all, lines, found, key, replacement);
    if !found { lines := InsertAt(lines, WebsocketAt(lines), replacement); }
    next := Join(lines) + "\n";
  }

  /** Drop the nested block a key used to own. */
  method SkipNested(lines: seq<string>, indent: nat) returns (rest: seq<string>)
    ensures rest == lines[Nested(lines, indent)..]
  {
    hide First, IsDeeper;
    rest := lines;
    ghost var n := 0;
    while rest != [] && IsDeeper(rest[0], indent)
      invariant n <= |lines| && rest == lines[n..]
      invariant forall i :: 0 <= i < n ==> IsDeeper(lines[i], indent)
      decreases |rest|
    {
      rest := rest[1..];
      n := n + 1;
    }
  }

  method UpsertBlockValue(contents: string, block: string, key: string, value: string) returns (next: string)
    ensures next == Unlines(UpsertBlock(Lines(contents), block, key, value))
  {
    hide First, IsKeyLine, IsHeader, EndsBlock, Lines, BlockLine, Join, HeaderAt, WebsocketAt, BlockEnd, KeyAt;
    var lines := Lines(contents);
    var start := HeaderAt(lines, block);
    if start == |lines| {
      start := WebsocketAt(lines);
      lines := InsertAt(lines, start, "  " + block + ":");
    }
    var end := BlockEnd(lines, start + 1);
    var replacement := BlockLine(key, value);
    var found := false;
    var i := start + 1;
    while i < end
      invariant start + 1 <= i <= end
      invariant forall j :: start + 1 <= j < i ==> !IsKeyLine(lines[j], key)
    {
      if IsKeyLine(lines[i], key) {
        lines := lines[i := replacement];
        found := true;
        break;
      }
      i := i + 1;
    }
    if !found { lines := InsertAt(lines, end, replacement); }
    next := Join(lines) + "\n";
  }

  /** The files in order, local before default; one that cannot be read is skipped. */
  function FromFiles(files: seq<Option<string>>, read: seq<string> -> Option<string>, otherwise: string): string {
    if files == [] then otherwise
    else if files[0].Some? && read(Lines(files[0].value)).Some? then read(Lines(files[0].value)).value
    else FromFiles(files[1..], read, otherwise)
  }

  lemma FirstValueFrom(ls: seq<string>, i: nat, key: string)
    requires i < |ls|
    ensures FirstValue(ls[i..], key) ==
      if ReadLine(ls[i], key).Some? then ReadLine(ls[i], key) else FirstValue(ls[i + 1..], key)
  {
    hide ReadLine;
    assert ls[i..][0] == ls[i] && ls[i..][1..] == ls[i + 1..];
  }

  lemma NothingMore(ls: seq<string>, key: string)
    ensures FirstValue(ls[|ls|..], key) == None && ls[0..] == ls
  {
  }

  lemma FromFilesAt(files: seq<Option<string>>, read: seq<string> -> Option<string>, otherwise: string, f: nat)
    requires f < |files|
    ensures FromFiles(files[f..], read, otherwise) ==
      if files[f].Some? && read(Lines(files[f].value)).Some? then read(Lines(files[f].value)).value
      else FromFiles(files[f + 1..], read, otherwise)
  {
    hide Lines;
    assert files[f..][0] == files[f] && files[f..][1..] == files[f + 1..];
  }

  lemma NoFiles(files: seq<Option<string>>, read: seq<string> -> Option<string>, otherwise: string)
    ensures FromFiles(files[|files|..], read, otherwise) == otherwise && files[0..] == files
  {
  }

  method ReadYamlScalar(files: seq<Option<string>>, key: string, otherwise: string) returns (value: string)
    ensures value == FromFiles(files, ls => FirstValue(ls, key), otherwise)
  {
    hide First, IsHeader, EndsBlock, Lines, ReadLine, FirstValue, FromFiles;
    var read := ls => FirstValue(ls, key);
    NoFiles(files, read, otherwise);
    var f := 0;
    while f < |files|
      invariant f <= |files| && FromFiles(files, read, otherwise) == FromFiles(files[f..], read, otherwise)
    {
      FromFilesAt(files, read, otherwise, f);
      if files[f].Some? {
        var lines := Lines(files[f].value);
        NothingMore(lines, key);
        var i := 0;
        while i < |lines|
          invariant i <= |lines| && FirstValue(lines, key) == FirstValue(lines[i..], key)
        {
          FirstValueFrom(lines, i, key);
          var value := ReadLine(lines[i], key);
          if value.Some? { return value.value; }
          i := i + 1;
        }
      }
      f := f + 1;
    }
    value := otherwise;
  }

  /** The lines of a block are those after its header up to the one that ends it. */
  lemma BodyIs(lines: seq<string>, block: string)
    ensures HeaderAt(lines, block) < |lines| ==>
      Body(lines, block) == Some(lines[HeaderAt(lines, block) + 1..BlockEnd(lines, HeaderAt(lines, block) + 1)])
  {
    hide HeaderAt, BlockEnd, FirstValue;
  }

  method ReadBlockScalar(files: seq<Option<string>>, block: string, key: string, otherwise: string) returns (value: string)
    ensures value == FromFiles(files, ls => ReadBlock(ls, block, key), otherwise)
  {
    hide First, IsHeader, EndsBlock, Lines, ReadLine, FirstValue, FromFiles, HeaderAt, BlockEnd;
    var read := ls => ReadBlock(ls, block, key);
    NoFiles(files, read, otherwise);
    var f := 0;
    while f < |files|
      invariant f <= |files| && FromFiles(files, read, otherwise) == FromFiles(files[f..], read, otherwise)
    {
      FromFilesAt(files, read, otherwise, f);
      if files[f].Some? {
        var lines := Lines(files[f].value);
        var start := HeaderAt(lines, block);
        if start < |lines| {
          var i := start + 1;
          BodyIs(lines, block);
          ghost var body := Body(lines, block).value;
          NothingMore(body, key);
          while i < |lines| && !EndsBlock(lines[i])
            invariant start + 1 <= i <= start + 1 + |body|
            invariant FirstValue(body, key) == FirstValue(body[i - start - 1..], key)
          {
            ghost var j := i - start - 1;
            assert j < |body| && body[j] == lines[i];
            FirstValueFrom(body, j, key);
            var value := ReadLine(lines[i], key);
            if value.Some? { return value.value; }
            i := i + 1;
          }
          assert i - start - 1 == |body|;
        }
      }
      f := f + 1;
    }
    value := otherwise;
  }
}
