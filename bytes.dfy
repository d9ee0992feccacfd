/**
  * Go strings are byte strings: `[]byte(s)` is the identity on their contents.
  * This module gives the byte type, the conversion of the ASCII literals the
  * model writes, and the two library helpers of package strings that the
  * message builder uses (`strings.HasPrefix` is Dafny's prefix test `<=`).
  */
module Bytes {
  newtype byte = b: int | 0 <= b < 256

  /** The bytes of a literal. Every literal of this model is ASCII, so the
      reduction modulo 256 never changes a character code. */
  function Ascii(s: string): (r: seq<byte>)
    ensures |r| == |s|
  {
    seq(|s|, i requires 0 <= i < |s| => (s[i] as int % 256) as byte)
  }

  lemma AsciiAt(s: string, i: int)
    requires 0 <= i < |s|
    ensures Ascii(s)[i] as int == s[i] as int % 256
  {
  }

  const CR: byte := 13
  const LF: byte := 10
  const CRLF: seq<byte> := [CR, LF]

  /** A header value can carry `s` on one line: no CR and no LF byte in it. */
  predicate NoLineBreak(s: seq<byte>) {
    CR !in s && LF !in s
  }

  lemma AsciiNoLineBreak(s: string)
    requires forall i | 0 <= i < |s| :: s[i] as int < 128 && s[i] != '\r' && s[i] != '\n'
    ensures NoLineBreak(Ascii(s))
  {
    var r := Ascii(s);
    forall i | 0 <= i < |r| ensures r[i] != CR && r[i] != LF {
      AsciiAt(s, i);
    }
  }

  /** `strings.Join(xs, sep)`: the elements in order, `sep` between neighbours. */
  function Join(xs: seq<seq<byte>>, sep: seq<byte>): (r: seq<byte>)
    decreases |xs|
  {
    if xs == [] then []
    else if |xs| == 1 then xs[0]
    else xs[0] + sep + Join(xs[1..], sep)
  }

  lemma {:induction false} JoinNoLineBreak(xs: seq<seq<byte>>, sep: seq<byte>)
    requires NoLineBreak(sep)
    requires forall i | 0 <= i < |xs| :: NoLineBreak(xs[i])
    ensures NoLineBreak(Join(xs, sep))
    decreases |xs|
  {
    if |xs| > 1 {
      JoinNoLineBreak(xs[1..], sep);
      assert Join(xs, sep) == xs[0] + sep + Join(xs[1..], sep);
    }
  }
}
