/**
  * The "base64" encoding of section 4 of RFC 4648 (alphabet A-Z a-z 0-9 + /,
  * padding with '='), as Go's `base64.StdEncoding` writes it: one unbroken
  * string, no line breaks. Decode is the strict decoder of the same section:
  * it accepts exactly the canonical encodings, so it rejects a length that
  * is not a multiple of four, bytes outside the alphabet, misplaced padding and
  * non-zero pad bits (section 3.5).
  */
module Base64 {
  import opened Bytes
  import opened Wrappers

  /** The character of a 6-bit value (Table 1 of RFC 4648). */
  function Char(i: int): (c: byte)
    requires 0 <= i < 64
  {
    if i < 26 then (65 + i) as byte        // 'A'..'Z'
    else if i < 52 then (71 + i) as byte   // 'a'..'z'
    else if i < 62 then (i - 4) as byte    // '0'..'9'
    else if i == 62 then 43                // '+'
    else 47                                // '/'
  }

  /** '=' */
  const Pad: byte := 61

  predicate InAlphabet(c: byte) {
    65 <= c <= 90 || 97 <= c <= 122 || 48 <= c <= 57 || c == 43 || c == 47
  }

  /** The 6-bit value of an alphabet character: the inverse of Char. */
  function Index(c: byte): (i: int)
    requires InAlphabet(c)
    ensures 0 <= i < 64 && Char(i) == c
  {
    if 65 <= c <= 90 then c as int - 65
    else if 97 <= c <= 122 then c as int - 71
    else if 48 <= c <= 57 then c as int + 4
    else if c == 43 then 62
    else 63
  }

  lemma IndexOfChar(i: int)
    requires 0 <= i < 64
    ensures InAlphabet(Char(i)) && Index(Char(i)) == i && Char(i) != Pad
  {
  }

  /** Three bytes become four characters. */
  function EncodeGroup(a: byte, b: byte, c: byte): seq<byte> {
    [Char(a as int / 4), Char(a as int % 4 * 16 + b as int / 16),
     Char(b as int % 16 * 4 + c as int / 64), Char(c as int % 64)]
  }

  /** A final two bytes become three characters and one pad. */
  function EncodeTwo(a: byte, b: byte): seq<byte> {
    [Char(a as int / 4), Char(a as int % 4 * 16 + b as int / 16), Char(b as int % 16 * 4), Pad]
  }

  /** A final single byte becomes two characters and two pads. */
  function EncodeOne(a: byte): seq<byte> {
    [Char(a as int / 4), Char(a as int % 4 * 16), Pad, Pad]
  }

  function Encode(b: seq<byte>): (r: seq<byte>)
    ensures |r| == (|b| + 2) / 3 * 4
    decreases |b|
  {
    if |b| == 0 then []
    else if |b| == 1 then EncodeOne(b[0])
    else if |b| == 2 then EncodeTwo(b[0], b[1])
    else EncodeGroup(b[0], b[1], b[2]) + Encode(b[3..])
  }

  function DecodeGroup(c0: byte, c1: byte, c2: byte, c3: byte): Option<seq<byte>> {
    if InAlphabet(c0) && InAlphabet(c1) && InAlphabet(c2) && InAlphabet(c3) then
      var i0, i1, i2, i3 := Index(c0), Index(c1), Index(c2), Index(c3);
      Some([(i0 * 4 + i1 / 16) as byte, (i1 % 16 * 16 + i2 / 4) as byte, (i2 % 4 * 64 + i3) as byte])
    else None
  }

  /** The last group of four characters, which may carry padding. */
  function DecodeLast(c0: byte, c1: byte, c2: byte, c3: byte): Option<seq<byte>> {
    if c2 == Pad && c3 == Pad then
      if InAlphabet(c0) && InAlphabet(c1) && Index(c1) % 16 == 0 then
        Some([(Index(c0) * 4 + Index(c1) / 16) as byte])
      else None
    else if c3 == Pad then
      if InAlphabet(c0) && InAlphabet(c1) && InAlphabet(c2) && Index(c2) % 4 == 0 then
        var i0, i1, i2 := Index(c0), Index(c1), Index(c2);
        Some([(i0 * 4 + i1 / 16) as byte, (i1 % 16 * 16 + i2 / 4) as byte])
      else None
    else DecodeGroup(c0, c1, c2, c3)
  }

  function Decode(s: seq<byte>): (r: Option<seq<byte>>)
    ensures r.Some? ==> |s| == (|r.value| + 2) / 3 * 4
    decreases |s|
  {
    if |s| == 0 then Some([])
    else if |s| < 4 then None
    else if |s| == 4 then DecodeLast(s[0], s[1], s[2], s[3])
    else match DecodeGroup(s[0], s[1], s[2], s[3])
      case None => None
      case Some(g) =>
        match Decode(s[4..])
        case None => None
        case Some(rest) => Some(g + rest)
  }

  lemma DivMod4(q: int, r: int) requires 0 <= r < 4 ensures (q * 4 + r) / 4 == q && (q * 4 + r) % 4 == r {}
  lemma DivMod16(q: int, r: int) requires 0 <= r < 16 ensures (q * 16 + r) / 16 == q && (q * 16 + r) % 16 == r {}
  lemma DivMod64(q: int, r: int) requires 0 <= r < 64 ensures (q * 64 + r) / 64 == q && (q * 64 + r) % 64 == r {}

  /** Three bytes split into four 6-bit values come back together. */
  lemma Unpack(a: int, b: int, c: int)
    requires 0 <= a < 256 && 0 <= b < 256 && 0 <= c < 256
    ensures var i0, i1, i2, i3 := a / 4, a % 4 * 16 + b / 16, b % 16 * 4 + c / 64, c % 64;
      0 <= i0 < 64 && 0 <= i1 < 64 && 0 <= i2 < 64 && 0 <= i3 < 64 &&
      i0 * 4 + i1 / 16 == a && i1 % 16 * 16 + i2 / 4 == b && i2 % 4 * 64 + i3 == c &&
      i1 % 16 == b / 16 && i2 % 4 == c / 64
  {
    DivMod16(a % 4, b / 16);
    DivMod4(b % 16, c / 64);
  }

  lemma GroupRoundTrip(a: byte, b: byte, c: byte)
    ensures DecodeGroup(EncodeGroup(a, b, c)[0], EncodeGroup(a, b, c)[1],
                        EncodeGroup(a, b, c)[2], EncodeGroup(a, b, c)[3]) == Some([a, b, c])
  {
    var i0, i1, i2, i3 := a as int / 4, a as int % 4 * 16 + b as int / 16, b as int % 16 * 4 + c as int / 64, c as int % 64;
    Unpack(a as int, b as int, c as int);
    IndexOfChar(i0); IndexOfChar(i1); IndexOfChar(i2); IndexOfChar(i3);
  }

  lemma TwoRoundTrip(a: byte, b: byte)
    ensures DecodeLast(EncodeTwo(a, b)[0], EncodeTwo(a, b)[1], EncodeTwo(a, b)[2], EncodeTwo(a, b)[3]) == Some([a, b])
  {
    var i0, i1, i2 := a as int / 4, a as int % 4 * 16 + b as int / 16, b as int % 16 * 4;
    Unpack(a as int, b as int, 0);
    IndexOfChar(i0); IndexOfChar(i1); IndexOfChar(i2);
  }

  lemma OneRoundTrip(a: byte)
    ensures DecodeLast(EncodeOne(a)[0], EncodeOne(a)[1], EncodeOne(a)[2], EncodeOne(a)[3]) == Some([a])
  {
    var i0, i1 := a as int / 4, a as int % 4 * 16;
    Unpack(a as int, 0, 0);
    IndexOfChar(i0); IndexOfChar(i1);
  }

  /** Decoding undoes encoding: section 4 of RFC 4648 read in both directions. */
  lemma {:induction false} DecodeEncode(b: seq<byte>)
    ensures Decode(Encode(b)) == Some(b)
    decreases |b|
  {
    if |b| == 1 {
      var s := EncodeOne(b[0]);
      assert Encode(b) == s;
      OneRoundTrip(b[0]);
      assert Decode(s) == DecodeLast(s[0], s[1], s[2], s[3]);
      assert b == [b[0]];
    } else if |b| == 2 {
      var s := EncodeTwo(b[0], b[1]);
      assert Encode(b) == s;
      TwoRoundTrip(b[0], b[1]);
      assert Decode(s) == DecodeLast(s[0], s[1], s[2], s[3]);
      assert b == [b[0], b[1]];
    } else if |b| >= 3 {
      DecodeEncodeGroup(b);
    }
  }

  lemma {:induction false} DecodeEncodeGroup(b: seq<byte>)
    requires |b| >= 3
    ensures Decode(Encode(b)) == Some(b)
    decreases |b|, 0
  {
    var g, t := EncodeGroup(b[0], b[1], b[2]), Encode(b[3..]);
    var s := Encode(b);
    assert s == g + t;
    assert s[..4] == g && s[4..] == t;
    GroupRoundTrip(b[0], b[1], b[2]);
    if |b| == 3 {
      assert t == [];
      assert s == g;
      IndexOfChar(b[2] as int % 64);
      assert Decode(s) == DecodeLast(g[0], g[1], g[2], g[3]);
      assert b == [b[0], b[1], b[2]];
    } else {
      DecodeEncode(b[3..]);
      assert DecodeGroup(s[0], s[1], s[2], s[3]) == Some([b[0], b[1], b[2]]);
      assert [b[0], b[1], b[2]] + b[3..] == b;
    }
  }

  /** Four 6-bit values packed into three bytes unpack to the same values. */
  lemma Regroup(i0: int, i1: int, i2: int, i3: int)
    requires 0 <= i0 < 64 && 0 <= i1 < 64 && 0 <= i2 < 64 && 0 <= i3 < 64
    ensures var x0, x1, x2 := i0 * 4 + i1 / 16, i1 % 16 * 16 + i2 / 4, i2 % 4 * 64 + i3;
      0 <= x0 < 256 && 0 <= x1 < 256 && 0 <= x2 < 256 &&
      x0 / 4 == i0 && x0 % 4 * 16 + x1 / 16 == i1 && x1 % 16 * 4 + x2 / 64 == i2 && x2 % 64 == i3
  {
    DivMod4(i0, i1 / 16);
    DivMod16(i1 % 16, i2 / 4);
    DivMod64(i2 % 4, i3);
  }

  lemma GroupCanonical(c0: byte, c1: byte, c2: byte, c3: byte)
    requires DecodeGroup(c0, c1, c2, c3).Some?
    ensures var x := DecodeGroup(c0, c1, c2, c3).value;
      |x| == 3 && EncodeGroup(x[0], x[1], x[2]) == [c0, c1, c2, c3]
  {
    Regroup(Index(c0), Index(c1), Index(c2), Index(c3));
  }

  lemma LastCanonical(c0: byte, c1: byte, c2: byte, c3: byte)
    requires DecodeLast(c0, c1, c2, c3).Some?
    ensures var x := DecodeLast(c0, c1, c2, c3).value;
      1 <= |x| <= 3 && Encode(x) == [c0, c1, c2, c3]
  {
    if c2 == Pad && c3 == Pad {
      LastOneCanonical(c0, c1);
    } else if c3 == Pad {
      LastTwoCanonical(c0, c1, c2);
    } else {
      var x := DecodeLast(c0, c1, c2, c3).value;
      GroupCanonical(c0, c1, c2, c3);
      assert Encode(x) == EncodeGroup(x[0], x[1], x[2]) + Encode(x[3..]);
    }
  }

  lemma LastOneCanonical(c0: byte, c1: byte)
    requires DecodeLast(c0, c1, Pad, Pad).Some?
    ensures var x := DecodeLast(c0, c1, Pad, Pad).value;
      |x| == 1 && Encode(x) == [c0, c1, Pad, Pad]
  {
    var x := DecodeLast(c0, c1, Pad, Pad).value;
    Regroup(Index(c0), Index(c1), 0, 0);
    assert Encode(x) == EncodeOne(x[0]);
  }

  lemma LastTwoCanonical(c0: byte, c1: byte, c2: byte)
    requires c2 != Pad && DecodeLast(c0, c1, c2, Pad).Some?
    ensures var x := DecodeLast(c0, c1, c2, Pad).value;
      |x| == 2 && Encode(x) == [c0, c1, c2, Pad]
  {
    var x := DecodeLast(c0, c1, c2, Pad).value;
    Regroup(Index(c0), Index(c1), Index(c2), 0);
    assert Encode(x) == EncodeTwo(x[0], x[1]);
  }

  lemma DecodeLonger(s: seq<byte>)
    requires |s| > 4 && Decode(s).Some?
    ensures DecodeGroup(s[0], s[1], s[2], s[3]).Some? && Decode(s[4..]).Some?
    ensures Decode(s).value == DecodeGroup(s[0], s[1], s[2], s[3]).value + Decode(s[4..]).value
  {
  }

  /** Every string the strict decoder accepts is the encoding of what it
      decodes to, so Encode and Decode are inverse bijections. */
  lemma {:induction false} EncodeDecode(s: seq<byte>)
    requires Decode(s).Some?
    ensures Encode(Decode(s).value) == s
    decreases |s|
  {
    if |s| == 4 {
      LastCanonical(s[0], s[1], s[2], s[3]);
      assert s == [s[0], s[1], s[2], s[3]];
    } else if |s| > 4 {
      EncodeDecodeGroup(s);
    }
  }

  lemma {:induction false} EncodeDecodeGroup(s: seq<byte>)
    requires |s| > 4 && Decode(s).Some?
    ensures Encode(Decode(s).value) == s
    decreases |s|, 0
  {
    DecodeLonger(s);
    var g := DecodeGroup(s[0], s[1], s[2], s[3]).value;
    var rest := Decode(s[4..]).value;
    GroupCanonical(s[0], s[1], s[2], s[3]);
    EncodeDecode(s[4..]);
    var b := g + rest;
    assert b[0] == g[0] && b[1] == g[1] && b[2] == g[2] && b[3..] == rest;
    assert Encode(b) == EncodeGroup(b[0], b[1], b[2]) + Encode(b[3..]);
    assert Encode(b) == [s[0], s[1], s[2], s[3]] + s[4..];
    assert [s[0], s[1], s[2], s[3]] + s[4..] == s;
  }

  /** The encoding is ASCII-safe: base64 characters and padding only. */
  lemma {:induction false} EncodeAlphabet(b: seq<byte>)
    ensures forall i | 0 <= i < |Encode(b)| :: InAlphabet(Encode(b)[i]) || Encode(b)[i] == Pad
    decreases |b|
  {
    if |b| >= 3 {
      EncodeAlphabet(b[3..]);
      var g := EncodeGroup(b[0], b[1], b[2]);
      assert Encode(b) == g + Encode(b[3..]);
      IndexOfChar(b[0] as int / 4);
      IndexOfChar(b[0] as int % 4 * 16 + b[1] as int / 16);
      IndexOfChar(b[1] as int % 16 * 4 + b[2] as int / 64);
      IndexOfChar(b[2] as int % 64);
    } else if |b| == 2 {
      IndexOfChar(b[0] as int / 4);
      IndexOfChar(b[0] as int % 4 * 16 + b[1] as int / 16);
      IndexOfChar(b[1] as int % 16 * 4);
    } else if |b| == 1 {
      IndexOfChar(b[0] as int / 4);
      IndexOfChar(b[0] as int % 4 * 16);
    }
  }

  lemma EncodeNoLineBreak(b: seq<byte>)
    ensures NoLineBreak(Encode(b))
  {
    EncodeAlphabet(b);
    var e := Encode(b);
    forall i | 0 <= i < |e| ensures e[i] != CR && e[i] != LF {
    }
  }
}
