/**
  * MIME entities and multipart bodies (RFC 2045, RFC 2046 section 5.1.1), and
  * a model of Go's `mime/multipart.Writer` writing into a shared
  * `bytes.Buffer`.
  *
  * The rendering functions give the RFC form of a body; the Writer class gives
  * the byte-by-byte behaviour of the Go writer. Without preamble and
  * transport padding, RFC 2046 section 5.1.1 reads
  *   multipart-body := dash-boundary CRLF body-part *encapsulation
  *                     close-delimiter [CRLF epilogue]
  *   encapsulation  := delimiter CRLF body-part
  *   delimiter      := CRLF dash-boundary,  dash-boundary := "--" boundary
  *   close-delimiter := delimiter "--"
  */
module Mime {
  import opened Bytes
  import opened Wrappers

  /** One header field `name: value`. */
  datatype Field = Field(name: seq<byte>, value: seq<byte>)

  const ColonSpace: seq<byte> := [58, 32]
  const Hyphens: seq<byte> := [45, 45]

  function FieldLine(f: Field): seq<byte> {
    f.name + ColonSpace + f.value + CRLF
  }

  function FieldLines(fs: seq<Field>): seq<byte>
    decreases |fs|
  {
    if fs == [] then [] else FieldLine(fs[0]) + FieldLines(fs[1..])
  }

  /** An entity: its header fields, the blank line, its content. */
  function Entity(fs: seq<Field>, content: seq<byte>): seq<byte> {
    FieldLines(fs) + CRLF + content
  }

  function DashBoundary(b: seq<byte>): seq<byte> {
    Hyphens + b
  }

  function Delimiter(b: seq<byte>): seq<byte> {
    CRLF + DashBoundary(b)
  }

  function CloseDelimiter(b: seq<byte>): seq<byte> {
    Delimiter(b) + Hyphens
  }

  function Encapsulations(b: seq<byte>, parts: seq<seq<byte>>): seq<byte>
    decreases |parts|
  {
    if parts == [] then [] else Delimiter(b) + CRLF + parts[0] + Encapsulations(b, parts[1..])
  }

  lemma EncapsulationsSingle(b: seq<byte>, part: seq<byte>)
    ensures Encapsulations(b, [part]) == Delimiter(b) + CRLF + part
  {
    assert [part][1..] == [];
    assert Encapsulations(b, []) == [];
  }

  /** A multipart body holding `parts` in order. `epilogue` is None when the
      close delimiter is the last thing in the body, Some(e) when it is
      followed by CRLF and the epilogue e. */
  function MultipartBody(b: seq<byte>, parts: seq<seq<byte>>, epilogue: Option<seq<byte>>): seq<byte>
    requires |parts| > 0
  {
    DashBoundary(b) + CRLF + parts[0] + Encapsulations(b, parts[1..]) + CloseDelimiter(b) + Epilogue(epilogue)
  }

  /** What follows the close delimiter. */
  function Epilogue(epilogue: Option<seq<byte>>): seq<byte> {
    match epilogue
    case None => []
    case Some(e) => CRLF + e
  }

  /** The line that opens a part: the dash-boundary for the first part of a
      body, a delimiter (CRLF first) for each later one. */
  function Opening(b: seq<byte>, first: bool): seq<byte> {
    if first then DashBoundary(b) else Delimiter(b)
  }

  /** What `multipart.Writer.CreatePart` writes before a part's content: the
      dash-boundary for the first part, a full delimiter for a later one, then
      the header fields and the blank line. */
  function PartHeader(b: seq<byte>, first: bool, fs: seq<Field>): seq<byte> {
    Opening(b, first) + CRLF + FieldLines(fs) + CRLF
  }

  /** `bytes.Buffer`: writing to it never fails and only appends. */
  class Buffer {
    var data: seq<byte>

    constructor ()
      ensures data == []
    {
      data := [];
    }

    method Write(s: seq<byte>)
      modifies this
      ensures data == old(data) + s
    {
      data := data + s;
    }
  }

  /** `multipart.Writer` over a Buffer. `hasPart` is Go's `lastpart != nil`:
      the first part opens with the dash-boundary alone, every later part with
      a full delimiter. A part's own `Write` forwards to the buffer, so the
      model writes part contents with `out.Write`. */
  class Writer {
    const out: Buffer
    const boundary: seq<byte>
    var hasPart: bool

    /** `multipart.NewWriter`; the random boundary is an input. */
    constructor (out: Buffer, boundary: seq<byte>)
      ensures this.out == out && this.boundary == boundary && !hasPart
    {
      this.out := out;
      this.boundary := boundary;
      hasPart := false;
    }

    /** `CreatePart`: the opening delimiter, the header fields, the blank line. */
    method CreatePart(header: seq<Field>)
      modifies this, out
      ensures hasPart
      ensures out.data == old(out.data) + PartHeader(boundary, !old(hasPart), header)
    {
      out.Write(Opening(boundary, !hasPart) + CRLF + FieldLines(header) + CRLF);
      hasPart := true;
    }

    /** `Close`: the close delimiter and CRLF, whether or not a part was made. */
    method Close()
      modifies this, out
      ensures !hasPart
      ensures out.data == old(out.data) + (CloseDelimiter(boundary) + CRLF)
    {
      out.Write(CloseDelimiter(boundary) + CRLF);
      hasPart := false;
    }
  }
}
