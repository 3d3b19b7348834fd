/** Writing a flat setting: what is read back, what survives, and doing it twice. */
module FlatLaws {
  import opened Nostr
  import opened Text
  import opened Settings
  import opened SettingsLaws

  lemma FlatLineMeans(key: string, value: string)
    requires IsName(key)
    ensures var l := FlatLine(key, value);
      && IsKeyLine(l, key) && Indent(l) == 2 && !IsBlank(l)
      && ReadLine(l, key) == if Clean(value) == "" then None else Some(Clean(value))
  {
    FourSpaces();
    WrittenLine("  ", key, value);
    WrittenLineReads("  ", key, value);
  }

  // ----- Reading back ------------------------------------------------------------------

  /** Where the lines before are not about the key, a rewritten line is read first. */
  lemma {:induction false} RewriteReads(ls: seq<string>, key: string, line: string)
    requires HasKey(ls, key) && NoSpacedColon(ls, key) && ReadLine(line, key).Some?
    ensures FirstValue(Rewrite(ls, key, line), key) == ReadLine(line, key)
  {
    hide IsKeyLine, ReadLine, Nested, Indent, Mentions;
    if !IsKeyLine(ls[0], key) {
      UnmentionedReads(ls[0], key);
      TailHasKey(ls, key);
      RewriteReads(ls[1..], key, line);
    }
  }

  lemma TailHasKey(ls: seq<string>, key: string)
    requires HasKey(ls, key) && !IsKeyLine(ls[0], key)
    ensures HasKey(ls[1..], key)
  {
    hide IsKeyLine;
    var i :| 0 <= i < |ls| && IsKeyLine(ls[i], key);
    assert ls[1..][i - 1] == ls[i];
  }

  lemma ReadAfterFlatWrite(ls: seq<string>, key: string, value: string)
    requires IsName(key) && Clean(value) != "" && NoSpacedColon(ls, key)
    ensures FirstValue(UpsertFlat(ls, key, value), key) == Some(Clean(value))
  {
    FlatLineMeans(key, value);
    hide IsKeyLine, ReadLine, Clean, FlatLine, Rewrite, Mentions, First, IsName;
    var line := FlatLine(key, value);
    if HasKey(ls, key) {
      RewriteReads(ls, key, line);
    } else {
      var w := WebsocketAt(ls);
      var r := InsertAt(ls, w, line);
      forall i | 0 <= i < w ensures ReadLine(r[i], key).None? {
        assert r[i] == ls[i];
        UnmentionedReads(ls[i], key);
      }
      FirstValueAt(r, key, w);
    }
  }

  // ----- What survives -------------------------------------------------------------------

  /** The line is in a block of the key: only deeper lines lie between it and a line
      of the key at or before it. */
  predicate IsOwned(ls: seq<string>, key: string, i: nat)
    requires i < |ls|
  {
    exists h :: 0 <= h <= i && Owns(ls, key, h, i)
  }

  predicate Owns(ls: seq<string>, key: string, h: nat, i: nat)
    requires h <= i < |ls|
  {
    IsKeyLine(ls[h], key) && forall j :: h < j <= i ==> IsDeeper(ls[j], Indent(ls[h]))
  }

  /** The lines from `i` on that are in no block of the key, in order. */
  function Others(ls: seq<string>, key: string, i: nat): seq<string>
    requires i <= |ls|
    decreases |ls| - i
  {
    if i == |ls| then [] else (if IsOwned(ls, key, i) then [] else [ls[i]]) + Others(ls, key, i + 1)
  }

  function WithoutKey(ls: seq<string>, key: string): seq<string> {
    if ls == [] then []
    else (if IsKeyLine(ls[0], key) then [] else [ls[0]]) + WithoutKey(ls[1..], key)
  }

  /** No block that began earlier reaches this line. */
  predicate IsClear(ls: seq<string>, key: string, i: nat)
    requires i <= |ls|
  {
    i == |ls| || forall h :: 0 <= h < i ==> !Owns(ls, key, h, i)
  }

  lemma ClearMeans(ls: seq<string>, key: string, i: nat)
    requires i < |ls| && IsClear(ls, key, i)
    ensures IsOwned(ls, key, i) <==> IsKeyLine(ls[i], key)
  {
    hide IsKeyLine, IsDeeper, Indent;
    if IsKeyLine(ls[i], key) { assert Owns(ls, key, i, i); }
    if IsOwned(ls, key, i) {
      var h :| 0 <= h <= i && Owns(ls, key, h, i);
    }
  }

  lemma ClearNext(ls: seq<string>, key: string, i: nat)
    requires i < |ls| && IsClear(ls, key, i) && !IsKeyLine(ls[i], key)
    ensures IsClear(ls, key, i + 1)
  {
    hide IsKeyLine, IsDeeper, Indent;
    var n := i + 1;
    if n < |ls| {
      forall h | 0 <= h < n ensures !Owns(ls, key, h, n) { OwnsBefore(ls, key, h, i, n); }
    }
  }

  lemma OwnsBefore(ls: seq<string>, key: string, h: nat, i: nat, n: nat)
    requires h <= i <= n < |ls|
    ensures Owns(ls, key, h, n) ==> Owns(ls, key, h, i)
  {
    hide IsKeyLine, IsDeeper, Indent;
  }

  /** Past a block of the key the way is clear again. */
  lemma ClearAfterBlock(ls: seq<string>, key: string, i: nat, n: nat)
    requires i < |ls| && IsClear(ls, key, i) && IsKeyLine(ls[i], key) && n == Nested(ls[i + 1..], Indent(ls[i]))
    ensures IsClear(ls, key, i + 1 + n)
    ensures forall j :: i <= j < i + 1 + n ==> IsOwned(ls, key, j)
  {
    hide IsKeyLine, Indent, First;
    var next := i + 1 + n;
    assert forall j :: i < j < next ==> ls[j] == ls[i + 1..][j - i - 1];
    forall j | i <= j < next ensures IsOwned(ls, key, j) { assert Owns(ls, key, i, j); }
    if next < |ls| {
      assert !IsDeeper(ls[next], Indent(ls[i])) by { assert ls[next] == ls[i + 1..][n]; }
      assert forall h :: i < h < next ==> IsDeeper(ls[h], Indent(ls[i]));
      forall h | 0 <= h < next ensures !Owns(ls, key, h, next) {
        if h <= i { OwnsBefore(ls, key, h, i, next); }
      }
    }
  }

  lemma {:induction false} OwnedRunIsSkipped(ls: seq<string>, key: string, i: nat, n: nat)
    requires i <= n <= |ls| && forall j :: i <= j < n ==> IsOwned(ls, key, j)
    ensures Others(ls, key, i) == Others(ls, key, n)
    decreases n - i
  {
    hide IsOwned;
    if i < n { OwnedRunIsSkipped(ls, key, i + 1, n); }
  }

  lemma {:induction false} RewriteKeepsOthers(ls: seq<string>, key: string, line: string, i: nat)
    requires i <= |ls| && IsClear(ls, key, i) && IsKeyLine(line, key)
    ensures WithoutKey(Rewrite(ls[i..], key, line), key) == Others(ls, key, i)
    decreases |ls| - i
  {
    hide IsKeyLine, IsOwned, IsClear, Indent, First, IsDeeper;
    if i < |ls| {
      ClearMeans(ls, key, i);
      assert ls[i..][1..] == ls[i + 1..];
      if IsKeyLine(ls[i], key) {
        var n := Nested(ls[i + 1..], Indent(ls[i]));
        ClearAfterBlock(ls, key, i, n);
        assert ls[i + 1..][n..] == ls[i + 1 + n..];
        RewriteKeepsOthers(ls, key, line, i + 1 + n);
        OwnedRunIsSkipped(ls, key, i, i + 1 + n);
        WithoutKeyCons(line, Rewrite(ls[i + 1 + n..], key, line), key);
      } else {
        ClearNext(ls, key, i);
        RewriteKeepsOthers(ls, key, line, i + 1);
        WithoutKeyCons(ls[i], Rewrite(ls[i + 1..], key, line), key);
      }
    }
  }

  lemma WithoutKeyCons(l: string, rest: seq<string>, key: string)
    ensures WithoutKey([l] + rest, key) == (if IsKeyLine(l, key) then [] else [l]) + WithoutKey(rest, key)
  {
    assert ([l] + rest)[1..] == rest;
  }

  lemma {:induction false} WithoutKeyInsert(ls: seq<string>, key: string, line: string, w: nat)
    requires w <= |ls| && IsKeyLine(line, key)
    ensures WithoutKey(InsertAt(ls, w, line), key) == WithoutKey(ls, key)
  {
    hide IsKeyLine;
    if w == 0 {
      assert InsertAt(ls, 0, line) == [line] + ls;
      WithoutKeyCons(line, ls, key);
    } else {
      assert InsertAt(ls, w, line) == [ls[0]] + InsertAt(ls[1..], w - 1, line);
      WithoutKeyInsert(ls[1..], key, line, w - 1);
      WithoutKeyCons(ls[0], InsertAt(ls[1..], w - 1, line), key);
    }
  }

  lemma {:induction false} NothingOwned(ls: seq<string>, key: string, i: nat)
    requires !HasKey(ls, key) && i <= |ls|
    ensures WithoutKey(ls[i..], key) == Others(ls, key, i)
    decreases |ls| - i
  {
    hide IsKeyLine, IsDeeper, Indent;
    if i < |ls| {
      assert !IsOwned(ls, key, i);
      assert ls[i..][1..] == ls[i + 1..];
      NothingOwned(ls, key, i + 1);
    }
  }

  /** The lines outside the blocks of the key survive, all of them and in order. */
  lemma OthersSurvive(ls: seq<string>, key: string, value: string)
    requires IsName(key)
    ensures WithoutKey(UpsertFlat(ls, key, value), key) == Others(ls, key, 0)
  {
    FlatLineMeans(key, value);
    hide IsKeyLine, FlatLine, Rewrite, First, IsName, IsOwned, ReadLine, Clean, Indent, IsBlank;
    assert ls[0..] == ls;
    if HasKey(ls, key) {
      RewriteKeepsOthers(ls, key, FlatLine(key, value), 0);
    } else {
      NothingOwned(ls, key, 0);
      WithoutKeyInsert(ls, key, FlatLine(key, value), WebsocketAt(ls));
    }
  }

  // ----- Twice is once ----------------------------------------------------------------------

  /** Lines of the key are indented by two at most. */
  predicate IsShallowKey(ls: seq<string>, key: string) {
    forall i :: 0 <= i < |ls| && IsKeyLine(ls[i], key) ==> Indent(ls[i]) <= 2
  }

  /** Every line of the key is `line`, and nothing deeper follows it. */
  predicate IsWritten(r: seq<string>, key: string, line: string) {
    forall i :: 0 <= i < |r| && IsKeyLine(r[i], key) ==> r[i] == line && (i + 1 < |r| ==> !IsDeeper(r[i + 1], 2))
  }

  lemma {:induction false} WrittenIsFixed(r: seq<string>, key: string, line: string)
    requires IsWritten(r, key, line) && Indent(line) == 2
    ensures Rewrite(r, key, line) == r
  {
    hide IsKeyLine, Indent, IsDeeper;
    if r != [] {
      WrittenIsFixed(r[1..], key, line);
      if IsKeyLine(r[0], key) {
        assert Nested(r[1..], 2) == 0 by { NothingNested(r[1..]); }
        assert r[1..][0..] == r[1..];
      }
    }
  }

  lemma NothingNested(r: seq<string>)
    requires r != [] ==> !IsDeeper(r[0], 2)
    ensures Nested(r, 2) == 0
  {
    hide IsDeeper;
  }

  lemma {:induction false} RewriteIsWritten(ls: seq<string>, key: string, line: string)
    requires IsShallowKey(ls, key) && IsKeyLine(line, key) && Indent(line) == 2
    ensures var r := Rewrite(ls, key, line);
      IsWritten(r, key, line) && (r != [] ==> ls != [] && (r[0] == line || r[0] == ls[0]))
    decreases |ls|
  {
    hide IsKeyLine, Indent, First;
    if ls != [] {
      if IsKeyLine(ls[0], key) {
        var n := Nested(ls[1..], Indent(ls[0]));
        var rest := ls[1..][n..];
        assert forall i :: 0 <= i < |rest| ==> rest[i] == ls[1 + n + i];
        RewriteIsWritten(rest, key, line);
        var r := Rewrite(rest, key, line);
        if r != [] { assert rest[0] == ls[1..][n] && !IsDeeper(rest[0], Indent(ls[0])); }
        WrittenCons(line, r, key, line);
      } else {
        RewriteIsWritten(ls[1..], key, line);
        WrittenCons(ls[0], Rewrite(ls[1..], key, line), key, line);
      }
    }
  }

  lemma WrittenCons(l: string, r: seq<string>, key: string, line: string)
    requires IsWritten(r, key, line)
    requires IsKeyLine(l, key) ==> l == line && (r != [] ==> !IsDeeper(r[0], 2))
    ensures IsWritten([l] + r, key, line)
  {
    hide IsKeyLine, IsDeeper;
  }

  /** With the lines of the key and of `websocket:` indented by two at most, writing
      the same value again changes nothing. */
  lemma FlatWriteTwice(ls: seq<string>, key: string, value: string)
    requires IsName(key) && IsShallowKey(ls, key) && HasShallowWebsocket(ls)
    ensures var once := UpsertFlat(ls, key, value); UpsertFlat(once, key, value) == once
  {
    FlatLineMeans(key, value);
    var line := FlatLine(key, value);
    hide IsKeyLine, FlatLine, Rewrite, First, IsName, ReadLine, Clean, Indent, Nested;
    var once := UpsertFlat(ls, key, value);
    if HasKey(ls, key) {
      RewriteIsWritten(ls, key, line);
      RewriteHasKey(ls, key, line);
    } else {
      InsertIsWritten(ls, key, line);
    }
    WrittenIsFixed(once, key, line);
  }

  lemma InsertIsWritten(ls: seq<string>, key: string, line: string)
    requires !HasKey(ls, key) && HasShallowWebsocket(ls) && IsKeyLine(line, key) && Indent(line) == 2
    ensures var r := InsertAt(ls, WebsocketAt(ls), line); IsWritten(r, key, line) && HasKey(r, key)
  {
    hide IsKeyLine, First, Indent;
    var w := WebsocketAt(ls);
    var r := InsertAt(ls, w, line);
    assert r[w] == line;
    assert forall i :: 0 <= i < |r| ==> r[i] == if i < w then ls[i] else if i == w then line else ls[i - 1];
  }

  lemma {:induction false} RewriteHasKey(ls: seq<string>, key: string, line: string)
    requires HasKey(ls, key) && IsKeyLine(line, key)
    ensures HasKey(Rewrite(ls, key, line), key)
  {
    hide IsKeyLine, Nested, Indent;
    var r := Rewrite(ls, key, line);
    if IsKeyLine(ls[0], key) {
      assert r[0] == line;
    } else {
      TailHasKey(ls, key);
      RewriteHasKey(ls[1..], key, line);
      var i :| 0 <= i < |r| - 1 && IsKeyLine(Rewrite(ls[1..], key, line)[i], key);
      assert r[i + 1] == Rewrite(ls[1..], key, line)[i];
    }
  }

  // ----- No orphans ----------------------------------------------------------------------------

  /** The indent of the next solid line. */
  function NextIndent(ls: seq<string>): Option<nat> {
    if ls == [] then None else if IsBlank(ls[0]) then NextIndent(ls[1..]) else Some(Indent(ls[0]))
  }

  /** `q` is deeper than the key at `h`, and so is every solid line between them. */
  predicate Reaches(ls: seq<string>, key: string, h: nat, q: nat)
    requires h < q < |ls|
  {
    && IsKeyLine(ls[h], key) && IsDeeper(ls[q], Indent(ls[h]))
    && forall j :: h < j < q ==> IsBlank(ls[j]) || IsDeeper(ls[j], Indent(ls[h]))
  }

  /** No block of the key has a blank line inside. */
  predicate NoBlankInside(ls: seq<string>, key: string) {
    forall h, q :: 0 <= h < q < |ls| && Reaches(ls, key, h, q) ==> forall j :: h < j < q ==> !IsBlank(ls[j])
  }

  /** No line of the key is followed by a child of its own. */
  predicate HasNoChild(r: seq<string>, key: string) {
    forall p :: 0 <= p < |r| && IsKeyLine(r[p], key) ==> (NextIndent(r[p + 1..]).Some? ==> NextIndent(r[p + 1..]).value <= 2)
  }

  lemma {:induction false} NextIndentMeans(ls: seq<string>) returns (q: nat)
    requires NextIndent(ls).Some?
    ensures q < |ls| && !IsBlank(ls[q]) && Indent(ls[q]) == NextIndent(ls).value && forall j :: 0 <= j < q ==> IsBlank(ls[j])
  {
    hide IsBlank, Indent;
    if IsBlank(ls[0]) {
      var p := NextIndentMeans(ls[1..]);
      q := p + 1;
      assert forall j :: 1 <= j < q ==> ls[j] == ls[1..][j - 1];
    } else {
      q := 0;
    }
  }

  lemma BlankEndsBlock(ls: seq<string>, key: string, h: nat, p: nat, q: nat)
    requires h < p < q < |ls| && NoBlankInside(ls, key) && IsKeyLine(ls[h], key) && IsBlank(ls[p])
    requires forall j :: h < j < q ==> IsBlank(ls[j]) || IsDeeper(ls[j], Indent(ls[h]))
    ensures !IsDeeper(ls[q], Indent(ls[h]))
  {
    hide IsKeyLine, IsBlank, Indent, IsDeeper;
    assert IsDeeper(ls[q], Indent(ls[h])) == Reaches(ls, key, h, q);
  }

  /** What follows a dropped block is not deeper than the key was. */
  lemma AfterBlockIsOuter(ls: seq<string>, key: string)
    requires ls != [] && IsKeyLine(ls[0], key) && NoBlankInside(ls, key)
    ensures var rest := ls[1..][Nested(ls[1..], Indent(ls[0]))..];
      NextIndent(rest).Some? ==> NextIndent(rest).value <= Indent(ls[0])
  {
    hide IsKeyLine, IsBlank, Indent, First;
    var n := Nested(ls[1..], Indent(ls[0]));
    var rest := ls[1..][n..];
    assert forall i :: 0 <= i < n ==> ls[1 + i] == ls[1..][i];
    assert forall i :: 0 <= i < |rest| ==> rest[i] == ls[1 + n + i];
    if NextIndent(rest).Some? {
      var q := NextIndentMeans(rest);
      var all := 1 + n + q;
      assert forall j :: 1 + n <= j < all ==> ls[j] == rest[j - 1 - n];
      assert ls[all] == rest[q] && ls[1 + n] == rest[0] == ls[1..][n];
      if q > 0 { BlankEndsBlock(ls, key, 0, 1 + n, all); }
    }
  }

  lemma {:induction false} RewriteNextIndent(ls: seq<string>, key: string, line: string)
    requires (NextIndent(ls).Some? ==> NextIndent(ls).value <= 2) && IsKeyLine(line, key) && Indent(line) == 2
    ensures var r := Rewrite(ls, key, line); NextIndent(r).Some? ==> NextIndent(r).value <= 2
    decreases |ls|
  {
    hide IsKeyLine, Indent, Nested, IsBlank;
    if ls != [] {
      KeyLineIsSolidIf(line, key);
      if IsKeyLine(ls[0], key) {
        assert Rewrite(ls, key, line)[0] == line;
      } else if IsBlank(ls[0]) {
        RewriteNextIndent(ls[1..], key, line);
      }
    }
  }

  lemma KeyLineIsSolidIf(l: string, key: string)
    ensures IsKeyLine(l, key) ==> !IsBlank(l)
  {
  }

  lemma {:induction false} RewriteLeavesNoChild(ls: seq<string>, key: string, line: string)
    requires NoBlankInside(ls, key) && IsShallowKey(ls, key) && IsKeyLine(line, key) && Indent(line) == 2
    ensures HasNoChild(Rewrite(ls, key, line), key)
    decreases |ls|
  {
    hide IsKeyLine, Indent, Nested, IsBlank, NoBlankInside;
    if ls != [] {
      if IsKeyLine(ls[0], key) {
        var n := Nested(ls[1..], Indent(ls[0]));
        var rest := ls[1..][n..];
        assert rest == ls[1 + n..];
        AfterBlockIsOuter(ls, key);
        SuffixHasNoBlank(ls, key, 1 + n);
        RewriteLeavesNoChild(rest, key, line);
        RewriteNextIndent(rest, key, line);
        NoChildCons(line, Rewrite(rest, key, line), key);
      } else {
        SuffixHasNoBlank(ls, key, 1);
        RewriteLeavesNoChild(ls[1..], key, line);
        NoChildCons(ls[0], Rewrite(ls[1..], key, line), key);
      }
    }
  }

  lemma SuffixHasNoBlank(ls: seq<string>, key: string, n: nat)
    requires n <= |ls| && NoBlankInside(ls, key)
    ensures NoBlankInside(ls[n..], key)
  {
    hide IsKeyLine, Indent, IsBlank, IsDeeper;
    var s := ls[n..];
    assert forall j :: n <= j < |ls| ==> ls[j] == s[j - n];
    forall h, q | 0 <= h < q < |s| && Reaches(s, key, h, q) ensures forall j :: h < j < q ==> !IsBlank(s[j]) {
      assert Reaches(ls, key, n + h, n + q);
      assert forall j :: h < j < q ==> s[j] == ls[n + j];
    }
  }

  lemma NoChildCons(l: string, r: seq<string>, key: string)
    requires HasNoChild(r, key)
    requires IsKeyLine(l, key) ==> (NextIndent(r).Some? ==> NextIndent(r).value <= 2)
    ensures HasNoChild([l] + r, key)
  {
    hide IsKeyLine, NextIndent;
    var s := [l] + r;
    forall p | 0 <= p < |s| && IsKeyLine(s[p], key)
      ensures NextIndent(s[p + 1..]).Some? ==> NextIndent(s[p + 1..]).value <= 2
    {
      assert s[p + 1..] == r[p..];
      if p > 0 { assert r[p - 1] == s[p]; } else { assert r[0..] == r; }
    }
  }

  lemma WebsocketNext(ls: seq<string>, w: nat)
    requires w < |ls| && IsKeyLine(ls[w], "websocket") && Indent(ls[w]) <= 2
    ensures NextIndent(ls[w..]).Some? && NextIndent(ls[w..]).value <= 2
  {
    KeyLineIsSolidIf(ls[w], "websocket");
    assert ls[w..][0] == ls[w];
  }

  /** A block without blank lines inside goes with its key: after the write no line
      of the key has a child left under it. */
  lemma NoOrphanIsLeft(ls: seq<string>, key: string, value: string)
    requires IsName(key) && IsShallowKey(ls, key) && HasShallowWebsocket(ls) && NoBlankInside(ls, key)
    ensures HasNoChild(UpsertFlat(ls, key, value), key)
  {
    FlatLineMeans(key, value);
    var line := FlatLine(key, value);
    hide IsKeyLine, FlatLine, Rewrite, First, IsName, ReadLine, Clean, Indent, NoBlankInside, HasNoChild;
    if HasKey(ls, key) {
      RewriteLeavesNoChild(ls, key, line);
    } else {
      InsertHasNoChild(ls, key, line);
    }
  }

  lemma InsertHasNoChild(ls: seq<string>, key: string, line: string)
    requires !HasKey(ls, key) && HasShallowWebsocket(ls)
    ensures HasNoChild(InsertAt(ls, WebsocketAt(ls), line), key)
  {
    hide IsKeyLine, First, Indent, NextIndent;
    var w := WebsocketAt(ls);
    var r := InsertAt(ls, w, line);
    assert forall i :: 0 <= i < |r| ==> r[i] == if i < w then ls[i] else if i == w then line else ls[i - 1];
    assert r[w + 1..] == ls[w..];
    if w < |ls| { WebsocketNext(ls, w); } else { NothingNext(); }
  }

  lemma NothingNext()
    ensures NextIndent([]).None?
  {
  }

  // ----- The same on file contents -----------------------------------------------------------

  lemma {:induction false} RewriteIsPlain(ls: seq<string>, key: string, line: string)
    requires ArePlain(ls) && IsPlain(line)
    ensures ArePlain(Rewrite(ls, key, line)) && (ls != [] ==> Rewrite(ls, key, line) != [])
    decreases |ls|
  {
    hide IsPlain, IsKeyLine, Indent, First;
    if ls != [] {
      var n := Nested(ls[1..], Indent(ls[0]));
      RewriteIsPlain(ls[1..], key, line);
      RewriteIsPlain(ls[1..][n..], key, line);
    }
  }

  lemma FlatWriteIsPlain(ls: seq<string>, key: string, value: string)
    requires ArePlain(ls) && IsName(key) && IsPlain(value)
    ensures ArePlain(UpsertFlat(ls, key, value)) && UpsertFlat(ls, key, value) != []
  {
    LinesWrittenArePlain(key, key, value);
    hide IsPlain, FlatLine, IsName, Rewrite, IsKeyLine, InsertAt, First, ArePlain;
    RewriteIsPlain(ls, key, FlatLine(key, value));
    InsertKeepsPlain(ls, WebsocketAt(ls), FlatLine(key, value));
  }

  /** The file law for a flat key: it reads back, the other lines survive in order,
      and under the indent assumption a second write changes nothing. */
  lemma FlatLens(contents: string, key: string, value: string)
    requires IsSettled(contents) && IsName(key) && IsPlain(value)
    ensures var ls := Lines(contents);
      var next := Unlines(UpsertFlat(ls, key, value));
      && (Clean(value) != "" && NoSpacedColon(ls, key) ==> FirstValue(Lines(next), key) == Some(Clean(value)))
      && WithoutKey(Lines(next), key) == Others(ls, key, 0)
      && (IsShallowKey(ls, key) && HasShallowWebsocket(ls) ==> Unlines(UpsertFlat(Lines(next), key, value)) == next)
  {
    var ls := Lines(contents);
    hide *;
    SettledMeans(contents);
    FlatWriteIsPlain(ls, key, value);
    LinesOfUnlines(UpsertFlat(ls, key, value));
    OthersSurvive(ls, key, value);
    if Clean(value) != "" && NoSpacedColon(ls, key) { ReadAfterFlatWrite(ls, key, value); }
    if IsShallowKey(ls, key) && HasShallowWebsocket(ls) { FlatWriteTwice(ls, key, value); }
  }
}
