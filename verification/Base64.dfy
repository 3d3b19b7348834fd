/** The base64 decoder of the HTTP authorization header, and the two encodings of
    RFC 4648 it inverts: section 4 and, with `-` and `_`, section 5. */
module Base64 {
  import opened Nostr

  type Byte = b: int | 0 <= b < 256

  /** Six bits. */
  type Sextet = v: int | 0 <= v < 64

  const PAD: Byte := '=' as int

  // ----- The alphabets -------------------------------------------------------------

  function Value(c: Byte): Option<Sextet> {
    if 'A' as int <= c <= 'Z' as int then Some(c - 'A' as int)
    else if 'a' as int <= c <= 'z' as int then Some(c - 'a' as int + 26)
    else if '0' as int <= c <= '9' as int then Some(c - '0' as int + 52)
    else if c == '+' as int || c == '-' as int then Some(62)
    else if c == '/' as int || c == '_' as int then Some(63)
    else None
  }

  function Symbol(v: Sextet, urlSafe: bool): Byte {
    if v < 26 then v + 'A' as int
    else if v < 52 then v - 26 + 'a' as int
    else if v < 62 then v - 52 + '0' as int
    else if v == 62 then (if urlSafe then '-' as int else '+' as int)
    else (if urlSafe then '_' as int else '/' as int)
  }

  lemma SymbolHasValue(v: Sextet, urlSafe: bool)
    ensures Value(Symbol(v, urlSafe)) == Some(v) && Symbol(v, urlSafe) != PAD
  {
  }

  // ----- Decoding --------------------------------------------------------------------

  /** How many bits can be waiting for the next byte. */
  type Bits = n: int | n in {0, 2, 4, 6}
    witness 0

  /** Two to the power of the number of bits. */
  function Size(bits: Bits): nat {
    if bits == 0 then 1 else if bits == 2 then 4 else if bits == 4 then 16 else 64
  }

  function Prepend(out: seq<Byte>, rest: Option<seq<Byte>>): Option<seq<Byte>> {
    match rest
    case None => None
    case Some(r) => Some(out + r)
  }

  /** The bytes still to come, with `bits` bits left over so far.  Shifting by six
      and adding six bits is multiplying by 64 and adding. */
  function DecodeFrom(buffer: nat, bits: Bits, input: seq<Byte>): Option<seq<Byte>>
    requires buffer < Size(bits)
    decreases |input|
  {
    if input == [] || input[0] == PAD then Some([])
    else match Value(input[0])
      case None => None
      case Some(v) =>
        var wide := buffer * 64 + v;
        if bits == 0 then DecodeFrom(wide, 6, input[1..])
        else
          var left: Bits := bits - 2;
          Prepend([wide / Size(left)], DecodeFrom(wide % Size(left), left, input[1..]))
  }

  function Decode(input: seq<Byte>): Option<seq<Byte>> {
    DecodeFrom(0, 0, input)
  }

  /** The loop keeps the buffer below two to the `bits`, so the byte taken from it
      always fits, and 32 bits are plenty. */
  method DecodeBase64(input: seq<Byte>) returns (output: Option<seq<Byte>>)
    ensures output == Decode(input)
  {
    hide DecodeFrom, Value;
    var out: seq<Byte> := [];
    var buffer, bits := 0, 0;
    var i := 0;
    PrependNothing(Decode(input));
    assert input[0..] == input;
    while i < |input| && input[i] != PAD
      invariant i <= |input| && bits in {0, 2, 4, 6} && 0 <= buffer < Size(bits)
      invariant Decode(input) == Prepend(out, DecodeFrom(buffer, bits, input[i..]))
    {
      var value := Value(input[i]);
      assert input[i..][0] == input[i];
      DecodeStops(buffer, bits, input[i..]);
      if value.None? { return None; }
      ghost var before := (out, buffer, bits);
      buffer := buffer * 64 + value.value;
      assert buffer <= U32_MAX;
      bits := bits + 6;
      if bits >= 8 {
        bits := bits - 8;
        out := out + [buffer / Size(bits)];
        buffer := buffer % Size(bits);
      }
      assert input[i..][1..] == input[i + 1..];
      DecodeStep(before.0, before.1, before.2, input[i..]);
      i := i + 1;
    }
    DecodeStops(buffer, bits, input[i..]);
    assert out + [] == out;
    output := Some(out);
  }

  lemma DecodeStops(buffer: nat, bits: Bits, input: seq<Byte>)
    requires buffer < Size(bits)
    ensures input == [] || input[0] == PAD ==> DecodeFrom(buffer, bits, input) == Some([])
    ensures input != [] && input[0] != PAD && Value(input[0]).None? ==> DecodeFrom(buffer, bits, input) == None
  {
  }

  lemma PrependNothing(rest: Option<seq<Byte>>)
    ensures Prepend([], rest) == rest
  {
    if rest.Some? { assert [] + rest.value == rest.value; }
  }

  /** One symbol more. */
  lemma DecodeStep(out: seq<Byte>, buffer: nat, bits: Bits, input: seq<Byte>)
    requires buffer < Size(bits) && input != [] && input[0] != PAD && Value(input[0]).Some?
    ensures var wide := buffer * 64 + Value(input[0]).value;
      if bits == 0 then
        wide < 64 && Prepend(out, DecodeFrom(buffer, bits, input)) == Prepend(out, DecodeFrom(wide, 6, input[1..]))
      else
        && wide / Size(bits - 2) < 256 && wide % Size(bits - 2) < Size(bits - 2)
        && Prepend(out, DecodeFrom(buffer, bits, input)) ==
             Prepend(out + [wide / Size(bits - 2)], DecodeFrom(wide % Size(bits - 2), bits - 2, input[1..]))
  {
    var wide := buffer * 64 + Value(input[0]).value;
    if bits > 0 {
      match DecodeFrom(wide % Size(bits - 2), bits - 2, input[1..])
      case None =>
      case Some(r) => assert out + ([wide / Size(bits - 2)] + r) == out + [wide / Size(bits - 2)] + r;
    }
  }

  // ----- Encoding ----------------------------------------------------------------------

  function Padding(n: nat, padded: bool): seq<Byte> {
    if padded then seq(n, _ => PAD) else []
  }

  /** Three bytes make four symbols; one or two at the end make two or three. */
  function Encode(bytes: seq<Byte>, urlSafe: bool, padded: bool): seq<Byte> {
    if bytes == [] then []
    else if |bytes| == 1 then
      [Symbol(bytes[0] / 4, urlSafe), Symbol(bytes[0] % 4 * 16, urlSafe)] + Padding(2, padded)
    else if |bytes| == 2 then
      [Symbol(bytes[0] / 4, urlSafe), Symbol(bytes[0] % 4 * 16 + bytes[1] / 16, urlSafe),
       Symbol(bytes[1] % 16 * 4, urlSafe)] + Padding(1, padded)
    else
      [Symbol(bytes[0] / 4, urlSafe), Symbol(bytes[0] % 4 * 16 + bytes[1] / 16, urlSafe),
       Symbol(bytes[1] % 16 * 4 + bytes[2] / 64, urlSafe), Symbol(bytes[2] % 64, urlSafe)]
      + Encode(bytes[3..], urlSafe, padded)
  }

  lemma DecodeSymbol(buffer: nat, bits: Bits, v: Sextet, urlSafe: bool, rest: seq<Byte>)
    requires buffer < Size(bits)
    ensures var input := [Symbol(v, urlSafe)] + rest;
      var wide := buffer * 64 + v;
      if bits == 0 then
        wide < 64 && DecodeFrom(buffer, bits, input) == DecodeFrom(wide, 6, rest)
      else
        && wide / Size(bits - 2) < 256
        && DecodeFrom(buffer, bits, input) ==
             Prepend([wide / Size(bits - 2)], DecodeFrom(wide % Size(bits - 2), bits - 2, rest))
  {
    SymbolHasValue(v, urlSafe);
    hide Symbol, Value;
    var input := [Symbol(v, urlSafe)] + rest;
    assert input[1..] == rest && input[0] == Symbol(v, urlSafe);
  }

  lemma PaddingEnds(buffer: nat, bits: Bits, n: nat, padded: bool)
    requires buffer < Size(bits)
    ensures DecodeFrom(buffer, bits, Padding(n, padded)) == Some([])
  {
    if padded && n > 0 { assert Padding(n, padded)[0] == PAD; }
  }

  /** Two symbols carry a byte and four bits of the next. */
  lemma DecodeTwo(b0: Byte, high: nat, urlSafe: bool, rest: seq<Byte>)
    requires high < 16
    ensures DecodeFrom(0, 0, [Symbol(b0 / 4, urlSafe), Symbol(b0 % 4 * 16 + high, urlSafe)] + rest)
      == Prepend([b0], DecodeFrom(high, 4, rest))
  {
    hide Symbol, DecodeFrom;
    var x, y := b0 / 4, b0 % 4 * 16 + high;
    assert [Symbol(x, urlSafe), Symbol(y, urlSafe)] + rest == [Symbol(x, urlSafe)] + ([Symbol(y, urlSafe)] + rest);
    DecodeSymbol(0, 0, x, urlSafe, [Symbol(y, urlSafe)] + rest);
    DecodeSymbol(x, 6, y, urlSafe, rest);
    assert x * 64 + y == 16 * b0 + high;
  }

  /** The third adds the rest of that byte and two bits of the one after. */
  lemma DecodeThird(b1: Byte, high: nat, urlSafe: bool, rest: seq<Byte>)
    requires high < 4
    ensures DecodeFrom(b1 / 16, 4, [Symbol(b1 % 16 * 4 + high, urlSafe)] + rest) == Prepend([b1], DecodeFrom(high, 2, rest))
  {
    hide Symbol, DecodeFrom;
    DecodeSymbol(b1 / 16, 4, b1 % 16 * 4 + high, urlSafe, rest);
    assert b1 / 16 * 64 + (b1 % 16 * 4 + high) == 4 * b1 + high;
  }

  lemma DecodeFourth(b2: Byte, urlSafe: bool, rest: seq<Byte>)
    ensures DecodeFrom(b2 / 64, 2, [Symbol(b2 % 64, urlSafe)] + rest) == Prepend([b2], DecodeFrom(0, 0, rest))
  {
    hide Symbol, DecodeFrom;
    DecodeSymbol(b2 / 64, 2, b2 % 64, urlSafe, rest);
    assert b2 / 64 * 64 + b2 % 64 == b2;
  }

  lemma DecodeGroup(b0: Byte, b1: Byte, b2: Byte, urlSafe: bool, rest: seq<Byte>)
    ensures DecodeFrom(0, 0, [Symbol(b0 / 4, urlSafe), Symbol(b0 % 4 * 16 + b1 / 16, urlSafe),
                              Symbol(b1 % 16 * 4 + b2 / 64, urlSafe), Symbol(b2 % 64, urlSafe)] + rest)
      == Prepend([b0, b1, b2], DecodeFrom(0, 0, rest))
  {
    hide Symbol, DecodeFrom, Prepend;
    var s0, s1 := Symbol(b0 / 4, urlSafe), Symbol(b0 % 4 * 16 + b1 / 16, urlSafe);
    var s2, s3 := Symbol(b1 % 16 * 4 + b2 / 64, urlSafe), Symbol(b2 % 64, urlSafe);
    DecodeTwo(b0, b1 / 16, urlSafe, [s2] + ([s3] + rest));
    DecodeThird(b1, b2 / 64, urlSafe, [s3] + rest);
    DecodeFourth(b2, urlSafe, rest);
    assert [s0, s1, s2, s3] + rest == [s0, s1] + ([s2] + ([s3] + rest));
    PrependMore([b1], [b2], DecodeFrom(0, 0, rest));
    PrependMore([b0], [b1] + [b2], DecodeFrom(0, 0, rest));
    assert [b0] + ([b1] + [b2]) == [b0, b1, b2];
  }

  lemma PrependMore(a: seq<Byte>, b: seq<Byte>, rest: Option<seq<Byte>>)
    ensures Prepend(a, Prepend(b, rest)) == Prepend(a + b, rest)
  {
    if rest.Some? { assert a + (b + rest.value) == a + b + rest.value; }
  }

  lemma DecodePair(b0: Byte, b1: Byte, urlSafe: bool, padded: bool)
    ensures DecodeFrom(0, 0, [Symbol(b0 / 4, urlSafe), Symbol(b0 % 4 * 16 + b1 / 16, urlSafe),
                              Symbol(b1 % 16 * 4, urlSafe)] + Padding(1, padded))
      == Some([b0, b1])
  {
    hide Symbol, DecodeFrom, Padding;
    var s0, s1, s2 := Symbol(b0 / 4, urlSafe), Symbol(b0 % 4 * 16 + b1 / 16, urlSafe), Symbol(b1 % 16 * 4, urlSafe);
    DecodeTwo(b0, b1 / 16, urlSafe, [s2] + Padding(1, padded));
    DecodeThird(b1, 0, urlSafe, Padding(1, padded));
    PaddingEnds(0, 2, 1, padded);
    assert [s0, s1, s2] + Padding(1, padded) == [s0, s1] + ([s2] + Padding(1, padded));
    assert [b0] + ([b1] + []) == [b0, b1];
  }

  /** Decoding inverts both encodings, padded or not, for all byte strings. */
  lemma {:induction false} DecodeInverts(bytes: seq<Byte>, urlSafe: bool, padded: bool)
    ensures Decode(Encode(bytes, urlSafe, padded)) == Some(bytes)
  {
    hide Symbol, Padding;
    if bytes == [] {
    } else if |bytes| == 1 {
      DecodeTwo(bytes[0], 0, urlSafe, Padding(2, padded));
      PaddingEnds(0, 4, 2, padded);
      hide DecodeFrom;
      assert [bytes[0]] + [] == bytes;
    } else if |bytes| == 2 {
      DecodePair(bytes[0], bytes[1], urlSafe, padded);
      hide DecodeFrom;
      assert [bytes[0], bytes[1]] == bytes;
    } else {
      DecodeInverts(bytes[3..], urlSafe, padded);
      DecodeGroup(bytes[0], bytes[1], bytes[2], urlSafe, Encode(bytes[3..], urlSafe, padded));
      hide DecodeFrom;
      assert [bytes[0], bytes[1], bytes[2]] + bytes[3..] == bytes;
    }
  }

  // ----- What is refused -----------------------------------------------------------------

  /** A symbol outside both alphabets, before any padding. */
  predicate IsBadAt(input: seq<Byte>, i: nat) {
    i < |input| && Value(input[i]).None? && forall j :: 0 <= j <= i ==> input[j] != PAD
  }

  /** Decoding fails exactly on those; whatever follows the padding is ignored. */
  lemma {:induction false} DecodeFailsIff(buffer: nat, bits: Bits, input: seq<Byte>)
    requires buffer < Size(bits)
    ensures DecodeFrom(buffer, bits, input).None? <==> exists i :: IsBadAt(input, i)
    decreases |input|
  {
    hide Value;
    if input != [] && input[0] != PAD {
      if Value(input[0]).None? {
        assert IsBadAt(input, 0);
      } else {
        var wide := buffer * 64 + Value(input[0]).value;
        var left: Bits := if bits == 0 then 6 else bits - 2;
        DecodeFailsIff(if bits == 0 then wide else wide % Size(left), left, input[1..]);
        BadShifts(input);
      }
    }
  }

  lemma BadShifts(input: seq<Byte>)
    requires input != [] && input[0] != PAD && Value(input[0]).Some?
    ensures (exists i :: IsBadAt(input, i)) <==> (exists i :: IsBadAt(input[1..], i))
  {
    hide Value;
    if i: nat :| IsBadAt(input, i) {
      assert forall j :: 0 <= j <= i - 1 ==> input[1..][j] == input[j + 1];
      assert IsBadAt(input[1..], i - 1);
    }
    if i: nat :| IsBadAt(input[1..], i) {
      assert forall j :: 1 <= j <= i + 1 ==> input[j] == input[1..][j - 1];
      assert input[i + 1] == input[1..][i];
      assert IsBadAt(input, i + 1);
    }
  }
}
