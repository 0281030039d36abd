/**
 * The base 64 encoding of section 4 of RFC 4648 (alphabet of Table 1, '=' padding), as
 * Python's `base64.b64encode` produces it, with the decoder that undoes it.
 */
module Base64 {
  import opened Wrappers

  type Byte = b: int | 0 <= b < 256
  type Sextet = v: int | 0 <= v < 64

  const PadChar: char := '='

  /** Table 1 of RFC 4648: A-Z, a-z, 0-9, '+', '/'. */
  function CharOf(v: Sextet): char {
    if v < 26 then ('A' as int + v) as char
    else if v < 52 then ('a' as int + (v - 26)) as char
    else if v < 62 then ('0' as int + (v - 52)) as char
    else if v == 62 then '+'
    else '/'
  }

  predicate IsAlphabetChar(c: char) {
    'A' <= c <= 'Z' || 'a' <= c <= 'z' || '0' <= c <= '9' || c == '+' || c == '/'
  }

  /** The inverse of Table 1; None for characters outside the alphabet. */
  function ValueOf(c: char): (r: Option<Sextet>)
    ensures r.Some? <==> IsAlphabetChar(c)
    ensures r.Some? ==> CharOf(r.value) == c
  {
    if 'A' <= c <= 'Z' then Some(c as int - 'A' as int)
    else if 'a' <= c <= 'z' then Some(c as int - 'a' as int + 26)
    else if '0' <= c <= '9' then Some(c as int - '0' as int + 52)
    else if c == '+' then Some(62)
    else if c == '/' then Some(63)
    else None
  }

  lemma ValueOfCharOf(v: Sextet)
    ensures IsAlphabetChar(CharOf(v)) && ValueOf(CharOf(v)) == Some(v)
  {
  }

  /** Three input octets make four sextets, most significant bits first. */
  function EncodeQuantum(b0: Byte, b1: Byte, b2: Byte): string {
    [CharOf(b0 / 4), CharOf((b0 % 4) * 16 + b1 / 16), CharOf((b1 % 16) * 4 + b2 / 64), CharOf(b2 % 64)]
  }

  /** The whole encoding: full quanta, then a final quantum of one or two octets padded with '='. */
  function Encode(b: seq<Byte>): (s: string)
    ensures |s| == 4 * ((|b| + 2) / 3)
    ensures forall i :: 0 <= i < |s| ==> IsAlphabetChar(s[i]) || s[i] == PadChar
    decreases |b|
  {
    if |b| == 0 then []
    else if |b| == 1 then [CharOf(b[0] / 4), CharOf((b[0] % 4) * 16), PadChar, PadChar]
    else if |b| == 2 then [CharOf(b[0] / 4), CharOf((b[0] % 4) * 16 + b[1] / 16), CharOf((b[1] % 16) * 4), PadChar]
    else EncodeQuantum(b[0], b[1], b[2]) + Encode(b[3..])
  }

  /** Four alphabet characters back to three octets. */
  function DecodeFull(c0: Sextet, c1: Sextet, c2: Sextet, c3: Sextet): seq<Byte> {
    [c0 * 4 + c1 / 16, (c1 % 16) * 16 + c2 / 4, (c2 % 4) * 64 + c3]
  }

  /** One quantum of four characters; only the last quantum may end in padding. */
  function DecodeQuantum(q: string, last: bool): Option<seq<Byte>>
    requires |q| == 4
  {
    var v0, v1, v2, v3 := ValueOf(q[0]), ValueOf(q[1]), ValueOf(q[2]), ValueOf(q[3]);
    if v0.None? || v1.None? then None
    else if last && q[2] == PadChar && q[3] == PadChar then Some([v0.value * 4 + v1.value / 16])
    else if v2.None? then None
    else if last && q[3] == PadChar then Some([v0.value * 4 + v1.value / 16, (v1.value % 16) * 16 + v2.value / 4])
    else if v3.None? then None
    else Some(DecodeFull(v0.value, v1.value, v2.value, v3.value))
  }

  function Decode(s: string): Option<seq<Byte>>
    decreases |s|
  {
    if s == [] then Some([])
    else if |s| < 4 then None
    else
      match DecodeQuantum(s[..4], |s| == 4)
      case None => None
      case Some(head) =>
        match Decode(s[4..])
        case None => None
        case Some(tail) => Some(head + tail)
  }

  /** Splitting an octet at bit 2 or bit 4 and joining the parts again loses nothing. */
  lemma OctetSplits(b0: Byte, b1: Byte, b2: Byte)
    ensures (b0 / 4) * 4 + ((b0 % 4) * 16 + b1 / 16) / 16 == b0
    ensures (((b0 % 4) * 16 + b1 / 16) % 16) * 16 + ((b1 % 16) * 4 + b2 / 64) / 4 == b1
    ensures (((b1 % 16) * 4 + b2 / 64) % 4) * 64 + b2 % 64 == b2
  {
    var hi0, lo0 := b0 / 4, b0 % 4;
    var hi1, lo1 := b1 / 16, b1 % 16;
    var hi2, lo2 := b2 / 64, b2 % 64;
    assert 0 <= hi1 < 16 && 0 <= hi2 < 4;
    var c1 := lo0 * 16 + hi1;
    assert c1 / 16 == lo0 && c1 % 16 == hi1;
    var c2 := lo1 * 4 + hi2;
    assert c2 / 4 == lo1 && c2 % 4 == hi2;
  }

  lemma DecodeUnpadded(c0: Sextet, c1: Sextet, c2: Sextet, c3: Sextet, last: bool)
    ensures DecodeQuantum([CharOf(c0), CharOf(c1), CharOf(c2), CharOf(c3)], last) == Some(DecodeFull(c0, c1, c2, c3))
  {
    ValueOfCharOf(c0);
    ValueOfCharOf(c1);
    ValueOfCharOf(c2);
    ValueOfCharOf(c3);
  }

  lemma QuantumRoundTrip(b0: Byte, b1: Byte, b2: Byte, last: bool)
    ensures DecodeQuantum(EncodeQuantum(b0, b1, b2), last) == Some([b0, b1, b2])
  {
    DecodeUnpadded(b0 / 4, (b0 % 4) * 16 + b1 / 16, (b1 % 16) * 4 + b2 / 64, b2 % 64, last);
    OctetSplits(b0, b1, b2);
  }

  lemma DecodeOnePadded(c0: Sextet, c1: Sextet, c2: Sextet)
    ensures DecodeQuantum([CharOf(c0), CharOf(c1), CharOf(c2), PadChar], true) == Some([c0 * 4 + c1 / 16, (c1 % 16) * 16 + c2 / 4])
  {
    ValueOfCharOf(c0);
    ValueOfCharOf(c1);
    ValueOfCharOf(c2);
  }

  lemma DecodeTwoPadded(c0: Sextet, c1: Sextet)
    ensures DecodeQuantum([CharOf(c0), CharOf(c1), PadChar, PadChar], true) == Some([c0 * 4 + c1 / 16])
  {
    ValueOfCharOf(c0);
    ValueOfCharOf(c1);
  }

  /** A text of exactly one quantum decodes as that last quantum. */
  lemma DecodeSingle(q: string)
    requires |q| == 4
    ensures Decode(q) == DecodeQuantum(q, true)
  {
    assert q[..4] == q && q[4..] == [];
    match DecodeQuantum(q, true)
    case None =>
    case Some(head) => assert head + [] == head;
  }

  lemma RoundTripOne(b0: Byte)
    ensures Decode(Encode([b0])) == Some([b0])
  {
    DecodeSingle(Encode([b0]));
    DecodeTwoPadded(b0 / 4, (b0 % 4) * 16);
    OctetSplits(b0, 0, 0);
  }

  lemma RoundTripTwo(b0: Byte, b1: Byte)
    ensures Decode(Encode([b0, b1])) == Some([b0, b1])
  {
    DecodeSingle(Encode([b0, b1]));
    DecodeOnePadded(b0 / 4, (b0 % 4) * 16 + b1 / 16, (b1 % 16) * 4);
    OctetSplits(b0, b1, 0);
  }

  /** Decoding reads the leading quantum, then the rest. */
  lemma DecodeLeading(q: string, rest: string)
    requires |q| == 4
    ensures Decode(q + rest) ==
      match DecodeQuantum(q, rest == [])
      case None => None
      case Some(head) =>
        match Decode(rest)
        case None => None
        case Some(tail) => Some(head + tail)
  {
    var s := q + rest;
    assert s[..4] == q && s[4..] == rest;
  }

  lemma SplitThree<T>(b: seq<T>)
    requires |b| >= 3
    ensures b == [b[0], b[1], b[2]] + b[3..]
  {
  }

  lemma RoundTripStep(b: seq<Byte>)
    requires |b| >= 3
    requires Decode(Encode(b[3..])) == Some(b[3..])
    ensures Decode(Encode(b)) == Some(b)
  {
    var head: seq<Byte> := [b[0], b[1], b[2]];
    var q := EncodeQuantum(b[0], b[1], b[2]);
    var rest := Encode(b[3..]);
    assert Encode(b) == q + rest;
    QuantumRoundTrip(b[0], b[1], b[2], rest == []);
    assert DecodeQuantum(q, rest == []) == Some(head);
    DecodeLeading(q, rest);
    assert Decode(q + rest) == Some(head + b[3..]);
    SplitThree(b);
  }

  /** Decoding an encoding gives back the octets. */
  lemma {:induction false} DecodeEncode(b: seq<Byte>)
    ensures Decode(Encode(b)) == Some(b)
    decreases |b|
  {
    if |b| == 0 {
    } else if |b| == 1 {
      assert b == [b[0]];
      RoundTripOne(b[0]);
    } else if |b| == 2 {
      assert b == [b[0], b[1]];
      RoundTripTwo(b[0], b[1]);
    } else {
      DecodeEncode(b[3..]);
      RoundTripStep(b);
    }
  }

  /** Only the empty input encodes to the empty text. */
  lemma EncodeEmptyIff(b: seq<Byte>)
    ensures Encode(b) == [] <==> b == []
  {
  }
}
