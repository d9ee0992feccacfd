/**
  * A reader for what the message builder writes: header fields up to the
  * blank line, and a multipart body split at its delimiters. It is the
  * partner of the rendering functions of module Mime: every entity and every
  * multipart body is read back as the fields and parts it was made of, as long
  * as no field line breaks early and no part contains the delimiter.
  */
module MimeReader {
  import opened Bytes
  import opened Wrappers
  import opened Mime

  const Colon: byte := 58
  const Space: byte := 32

  /** The position of the first `x` in `s`, or |s| when there is none. */
  function IndexOf(s: seq<byte>, x: byte): (k: nat)
    ensures k <= |s| && x !in s[..k]
    ensures k < |s| ==> s[k] == x
    decreases |s|
  {
    if s == [] || s[0] == x then 0
    else
      var k := IndexOf(s[1..], x);
      assert s[..k + 1] == [s[0]] + s[1..][..k];
      1 + k
  }

  lemma IndexOfAfter(a: seq<byte>, x: byte, b: seq<byte>)
    requires x !in a
    ensures IndexOf(a + [x] + b, x) == |a|
  {
    var s := a + [x] + b;
    assert s[|a|] == x;
  }

  /** Splits off the first line: the bytes before the first CR, which must
      be followed by LF. */
  function ReadLine(s: seq<byte>): (r: Option<(seq<byte>, seq<byte>)>)
    ensures r.Some? ==> CR !in r.value.0 && s == r.value.0 + CRLF + r.value.1
  {
    var k := IndexOf(s, CR);
    if k + 1 < |s| && s[k + 1] == LF then
      assert s == s[..k] + CRLF + s[k + 2..];
      Some((s[..k], s[k + 2..]))
    else None
  }

  lemma ReadLineOf(line: seq<byte>, rest: seq<byte>)
    requires CR !in line
    ensures ReadLine(line + CRLF + rest) == Some((line, rest))
  {
    var s := line + CRLF + rest;
    assert s == line + [CR] + ([LF] + rest);
    IndexOfAfter(line, CR, [LF] + rest);
    assert s[..|line|] == line;
    assert s[|line| + 2..] == rest;
  }

  // ---------------------------------------------------------------------------
  // Header fields

  /** A field that fits on its own line: the name holds no colon, and neither
      name nor value holds a line break. */
  predicate FieldOk(f: Field) {
    Colon !in f.name && NoLineBreak(f.name) && NoLineBreak(f.value)
  }

  /** A field name written as an ASCII literal without colon or line break. */
  lemma AsciiFieldName(s: string)
    requires forall i | 0 <= i < |s| :: s[i] as int < 128 && s[i] != ':' && s[i] != '\r' && s[i] != '\n'
    ensures Colon !in Ascii(s) && NoLineBreak(Ascii(s))
  {
    var r := Ascii(s);
    forall i | 0 <= i < |r| ensures r[i] != Colon && r[i] != CR && r[i] != LF {
      AsciiAt(s, i);
    }
  }

  /** One field line without its CRLF: the name up to the first colon, a
      space, the value. */
  function ParseField(line: seq<byte>): (r: Option<Field>)
    ensures r.Some? ==> Colon !in r.value.name && line == r.value.name + ColonSpace + r.value.value
  {
    var k := IndexOf(line, Colon);
    if k + 1 < |line| && line[k + 1] == Space then
      assert line == line[..k] + ColonSpace + line[k + 2..];
      Some(Field(line[..k], line[k + 2..]))
    else None
  }

  lemma ParseFieldLine(f: Field)
    requires Colon !in f.name
    ensures ParseField(f.name + ColonSpace + f.value) == Some(f)
  {
    var line := f.name + ColonSpace + f.value;
    assert line == f.name + [Colon] + ([Space] + f.value);
    IndexOfAfter(f.name, Colon, [Space] + f.value);
    assert line[..|f.name|] == f.name;
    assert line[|f.name| + 1] == Space;
    assert line[|f.name| + 2..] == f.value;
  }

  lemma FieldLinesCons(f: Field, fs: seq<Field>)
    ensures FieldLines([f] + fs) == FieldLine(f) + FieldLines(fs)
  {
    assert ([f] + fs)[1..] == fs;
  }

  /** An entity with one more field: that field's line comes first. */
  lemma EntityCons(f: Field, fs: seq<Field>, content: seq<byte>)
    ensures Entity([f] + fs, content) == (f.name + ColonSpace + f.value) + CRLF + Entity(fs, content)
  {
    FieldLinesCons(f, fs);
    AppendAssoc4(f.name + ColonSpace + f.value, CRLF, FieldLines(fs), CRLF + content);
  }

  lemma AppendAssoc4(a: seq<byte>, b: seq<byte>, c: seq<byte>, d: seq<byte>)
    ensures (a + b + c) + d == a + b + (c + d)
  {
  }

  /** Reads an entity: field lines up to the blank line, then the content.
      Whatever it accepts is an entity made of what it returns. */
  function ParseEntity(s: seq<byte>): (r: Option<(seq<Field>, seq<byte>)>)
    ensures r.Some? ==> s == Entity(r.value.0, r.value.1)
    decreases |s|
  {
    match ReadLine(s)
    case None => None
    case Some((line, rest)) =>
      if line == [] then Some(([], rest))
      else
        match ParseField(line)
        case None => None
        case Some(f) =>
          match ParseEntity(rest)
          case None => None
          case Some(res) =>
            EntityCons(f, res.0, res.1);
            Some(([f] + res.0, res.1))
  }

  /** Every entity whose fields fit on their lines is read back exactly. */
  lemma {:induction false} EntityRoundTrip(fs: seq<Field>, content: seq<byte>)
    requires forall i | 0 <= i < |fs| :: FieldOk(fs[i])
    ensures ParseEntity(Entity(fs, content)) == Some((fs, content))
    decreases |fs|
  {
    if fs == [] {
      ReadLineOf([], content);
    } else {
      var f := fs[0];
      assert FieldOk(f);
      var line := f.name + ColonSpace + f.value;
      assert fs == [f] + fs[1..];
      EntityCons(f, fs[1..], content);
      ReadLineOf(line, Entity(fs[1..], content));
      ParseFieldLine(f);
      EntityRoundTrip(fs[1..], content);
    }
  }

  // ---------------------------------------------------------------------------
  // Multipart bodies

  predicate OccursAt(pat: seq<byte>, s: seq<byte>, i: nat) {
    i + |pat| <= |s| && s[i..i + |pat|] == pat
  }

  lemma OccursShift(pat: seq<byte>, s: seq<byte>)
    requires s != []
    ensures forall i: nat | 1 <= i :: OccursAt(pat, s, i) <==> OccursAt(pat, s[1..], i - 1)
  {
    forall i: nat | 1 <= i ensures OccursAt(pat, s, i) <==> OccursAt(pat, s[1..], i - 1) {
      if i + |pat| <= |s| {
        assert s[1..][i - 1..i - 1 + |pat|] == s[i..i + |pat|];
      }
    }
  }

  /** The first position at which `pat` occurs in `s`, if any. */
  function Find(pat: seq<byte>, s: seq<byte>): (r: Option<nat>)
    ensures r.Some? ==> OccursAt(pat, s, r.value)
    ensures forall i: nat | i < (if r.Some? then r.value else |s| + 1) :: !OccursAt(pat, s, i)
    decreases |s|
  {
    if |s| < |pat| then None
    else if s[0..|pat|] == pat then Some(0)
    else
      OccursShift(pat, s);
      match Find(pat, s[1..])
      case None => None
      case Some(k) => Some(k + 1)
  }

  /** `pat` does not occur in `p`, not even overlapping the `pat` that
      follows it. */
  predicate Free(pat: seq<byte>, p: seq<byte>) {
    forall i | 0 <= i < |p| :: !OccursAt(pat, p + pat, i)
  }

  lemma FindFirst(pat: seq<byte>, p: seq<byte>, rest: seq<byte>)
    requires Free(pat, p)
    ensures Find(pat, p + pat + rest) == Some(|p|)
  {
    var s := p + pat + rest;
    assert s[|p|..|p| + |pat|] == pat;
    assert OccursAt(pat, s, |p|);
    forall i | 0 <= i < |p| ensures !OccursAt(pat, s, i) {
      assert !OccursAt(pat, p + pat, i);
      if i + |pat| <= |p + pat| {
        assert s[i..i + |pat|] == (p + pat)[i..i + |pat|];
      }
    }
  }

  /** The end of a multipart body after its first part: the later parts, the
      close delimiter and the epilogue. */
  function Remainder(b: seq<byte>, parts: seq<seq<byte>>, epilogue: Option<seq<byte>>): seq<byte>
    requires |parts| > 0
  {
    parts[0] + Encapsulations(b, parts[1..]) + CloseDelimiter(b) + Epilogue(epilogue)
  }

  lemma MultipartRemainder(b: seq<byte>, parts: seq<seq<byte>>, epilogue: Option<seq<byte>>)
    requires |parts| > 0
    ensures MultipartBody(b, parts, epilogue) == DashBoundary(b) + CRLF + Remainder(b, parts, epilogue)
  {
  }

  /** Reads the parts of a multipart body after its opening line: each part
      runs up to the next delimiter, which is followed by CRLF before another
      part and by "--" at the close; after the close comes nothing, or CRLF
      and the epilogue. */
  function ReadParts(b: seq<byte>, s: seq<byte>): (r: Option<(seq<seq<byte>>, Option<seq<byte>>)>)
    ensures r.Some? ==> |r.value.0| > 0 && s == Remainder(b, r.value.0, r.value.1)
    decreases |s|
  {
    var d := Delimiter(b);
    match Find(d, s)
    case None => None
    case Some(k) =>
      var after := s[k + |d|..];
      if |after| >= 2 && after[..2] == CRLF then
        match ReadParts(b, after[2..])
        case None => None
        case Some(res) =>
          SplitAt(s, k, d, CRLF);
          RemainderPrepend(b, s[..k], res.0, res.1);
          Some(([s[..k]] + res.0, res.1))
      else if |after| >= 2 && after[..2] == Hyphens then
        var tail := after[2..];
        SplitAt(s, k, d, Hyphens);
        if tail == [] then
          RemainderSingle(b, s[..k], None);
          Some(([s[..k]], None))
        else if |tail| >= 2 && tail[..2] == CRLF then
          assert tail == CRLF + tail[2..];
          RemainderSingle(b, s[..k], Some(tail[2..]));
          Some(([s[..k]], Some(tail[2..])))
        else None
      else None
  }

  /** `s` cut at a known occurrence of `d` followed by `m`. */
  lemma SplitAt(s: seq<byte>, k: nat, d: seq<byte>, m: seq<byte>)
    requires OccursAt(d, s, k)
    requires |s[k + |d|..]| >= |m| && s[k + |d|..][..|m|] == m
    ensures s == s[..k] + d + (m + s[k + |d|..][|m|..])
  {
    var after := s[k + |d|..];
    assert after == m + after[|m|..];
    assert s == s[..k] + s[k..k + |d|] + after;
  }

  lemma RemainderPrepend(b: seq<byte>, p: seq<byte>, ps: seq<seq<byte>>, epilogue: Option<seq<byte>>)
    requires |ps| > 0
    ensures Remainder(b, [p] + ps, epilogue) == p + Delimiter(b) + (CRLF + Remainder(b, ps, epilogue))
  {
    RemainderCons(b, [p] + ps, epilogue);
    assert ([p] + ps)[1..] == ps;
  }

  lemma RemainderSingle(b: seq<byte>, p: seq<byte>, epilogue: Option<seq<byte>>)
    ensures Remainder(b, [p], epilogue) == p + Delimiter(b) + (Hyphens + Epilogue(epilogue))
  {
    assert [p][1..] == [];
  }

  /** Reads a multipart body with boundary `b`: its parts and its epilogue. */
  function ReadMultipart(b: seq<byte>, s: seq<byte>): (r: Option<(seq<seq<byte>>, Option<seq<byte>>)>)
    ensures r.Some? ==> |r.value.0| > 0 && s == MultipartBody(b, r.value.0, r.value.1)
  {
    var opening := DashBoundary(b) + CRLF;
    if |s| >= |opening| && s[..|opening|] == opening then
      match ReadParts(b, s[|opening|..])
      case None => None
      case Some(res) =>
        assert s == opening + s[|opening|..];
        MultipartRemainder(b, res.0, res.1);
        Some(res)
    else None
  }

  lemma RemainderCons(b: seq<byte>, parts: seq<seq<byte>>, epilogue: Option<seq<byte>>)
    requires |parts| > 1
    ensures Remainder(b, parts, epilogue) == parts[0] + Delimiter(b) + (CRLF + Remainder(b, parts[1..], epilogue))
  {
    assert parts[1..][1..] == parts[2..];
  }

  /** The last part: its delimiter is the close delimiter. */
  lemma ReadLastPart(b: seq<byte>, p: seq<byte>, epilogue: Option<seq<byte>>)
    requires Free(Delimiter(b), p)
    ensures ReadParts(b, p + Delimiter(b) + (Hyphens + Epilogue(epilogue))) == Some(([p], epilogue))
  {
    var d := Delimiter(b);
    var rest := Hyphens + Epilogue(epilogue);
    var s := p + d + rest;
    FindFirst(d, p, rest);
    assert s[..|p|] == p;
    assert s[|p| + |d|..] == rest;
    assert rest[0] == 45;
    assert rest[..2] == Hyphens;
    assert rest[2..] == Epilogue(epilogue);
    match epilogue
    case None =>
    case Some(e) =>
      assert (CRLF + e)[..2] == CRLF;
      assert (CRLF + e)[2..] == e;
  }

  /** A part followed by another: its delimiter is followed by CRLF. */
  lemma ReadInnerPart(b: seq<byte>, p: seq<byte>, later: seq<byte>)
    requires Free(Delimiter(b), p)
    ensures ReadParts(b, p + Delimiter(b) + (CRLF + later)) ==
            match ReadParts(b, later)
            case None => None
            case Some(res) => Some(([p] + res.0, res.1))
  {
    var d := Delimiter(b);
    var rest := CRLF + later;
    var s := p + d + rest;
    FindFirst(d, p, rest);
    assert s[..|p|] == p;
    assert s[|p| + |d|..] == rest;
    assert rest[..2] == CRLF;
    assert rest[2..] == later;
  }

  /** Every body whose parts do not contain the delimiter is read back
      exactly. */
  lemma {:induction false} ReadPartsRoundTrip(b: seq<byte>, parts: seq<seq<byte>>, epilogue: Option<seq<byte>>)
    requires |parts| > 0 && BoundaryFresh(b, parts)
    ensures ReadParts(b, Remainder(b, parts, epilogue)) == Some((parts, epilogue))
    decreases |parts|
  {
    assert Free(Delimiter(b), parts[0]);
    if |parts| > 1 {
      ReadPartsRoundTrip(b, parts[1..], epilogue);
      ReadPartsCons(b, parts, epilogue);
    } else {
      ReadPartsLast(b, parts, epilogue);
    }
  }

  lemma ReadPartsCons(b: seq<byte>, parts: seq<seq<byte>>, epilogue: Option<seq<byte>>)
    requires |parts| > 1 && Free(Delimiter(b), parts[0])
    requires ReadParts(b, Remainder(b, parts[1..], epilogue)) == Some((parts[1..], epilogue))
    ensures ReadParts(b, Remainder(b, parts, epilogue)) == Some((parts, epilogue))
  {
    RemainderCons(b, parts, epilogue);
    ReadInnerPart(b, parts[0], Remainder(b, parts[1..], epilogue));
    assert [parts[0]] + parts[1..] == parts;
  }

  lemma ReadPartsLast(b: seq<byte>, parts: seq<seq<byte>>, epilogue: Option<seq<byte>>)
    requires |parts| == 1 && Free(Delimiter(b), parts[0])
    ensures ReadParts(b, Remainder(b, parts, epilogue)) == Some((parts, epilogue))
  {
    RemainderSingle(b, parts[0], epilogue);
    assert [parts[0]] == parts;
    ReadLastPart(b, parts[0], epilogue);
    assert [parts[0]] == parts;
  }

  lemma MultipartRoundTrip(b: seq<byte>, parts: seq<seq<byte>>, epilogue: Option<seq<byte>>)
    requires |parts| > 0 && BoundaryFresh(b, parts)
    ensures ReadMultipart(b, MultipartBody(b, parts, epilogue)) == Some((parts, epilogue))
  {
    var s := MultipartBody(b, parts, epilogue);
    var opening := DashBoundary(b) + CRLF;
    MultipartRemainder(b, parts, epilogue);
    assert s[..|opening|] == opening;
    assert s[|opening|..] == Remainder(b, parts, epilogue);
    ReadPartsRoundTrip(b, parts, epilogue);
  }

  /** No part holds the delimiter of boundary `b`. */
  predicate BoundaryFresh(b: seq<byte>, parts: seq<seq<byte>>) {
    forall i | 0 <= i < |parts| :: Free(Delimiter(b), parts[i])
  }

  /** Reads an entity whose content is a multipart body with boundary `b`:
      its fields, its parts and its epilogue. */
  function ReadMultipartEntity(b: seq<byte>, s: seq<byte>): (r: Option<(seq<Field>, seq<seq<byte>>, Option<seq<byte>>)>)
    ensures r.Some? ==> |r.value.1| > 0 && s == Entity(r.value.0, MultipartBody(b, r.value.1, r.value.2))
  {
    match ParseEntity(s)
    case None => None
    case Some((fs, content)) =>
      match ReadMultipart(b, content)
      case None => None
      case Some((parts, epilogue)) => Some((fs, parts, epilogue))
  }

  lemma MultipartEntityRoundTrip(fs: seq<Field>, b: seq<byte>, parts: seq<seq<byte>>, epilogue: Option<seq<byte>>)
    requires forall i | 0 <= i < |fs| :: FieldOk(fs[i])
    requires |parts| > 0 && BoundaryFresh(b, parts)
    ensures ReadMultipartEntity(b, Entity(fs, MultipartBody(b, parts, epilogue))) == Some((fs, parts, epilogue))
  {
    EntityRoundTrip(fs, MultipartBody(b, parts, epilogue));
    MultipartRoundTrip(b, parts, epilogue);
  }
}
