/**
  * The message builder and sender of package gosmtpmail (smtp_email.go).
  *
  * `CreateEmailMessage` is the imperative builder: it appends the header block
  * and the MIME parts to one buffer through two multipart writers, as the Go
  * function does, and is proved to return exactly `EmailMessage`, the message
  * in its RFC 2046 form. `EmailSender` builds the envelope recipient list and
  * hands the message to the SMTP transport, which is an input.
  *
  * The random boundaries of the two multipart writers, the outcome of reading
  * the attachment file and `mime.TypeByExtension` are inputs too.
  */
module SmtpEmail {
  import opened Bytes
  import opened Wrappers
  import opened Mime
  import Base64
  import FilePath

  /** `EmailConfig`, fixed for the whole call. */
  datatype EmailConfig = EmailConfig(
    emailAddress: seq<byte>,
    password: seq<byte>,
    host: seq<byte>,
    port: seq<byte>,
    senderName: seq<byte>,
    replyTo: seq<byte>,
    attachmentPathPrefix: seq<byte>,
    bccAddressToSendCopy: seq<byte>)

  /** What `os.ReadFile(attachmentPath)` returns. */
  datatype ReadResult = Contents(bytes: seq<byte>) | ReadError(cause: seq<byte>)

  /** The errors `createEmailMessage` returns. */
  datatype BuildError =
    | InvalidAttachmentPath(prefix: seq<byte>)   // "attachment path must start with: " + prefix
    | EmptyBody                                  // "neither body nor htmlBody provided"
    | AttachmentRead(cause: seq<byte>)           // the error of os.ReadFile

  // ---------------------------------------------------------------------------
  // encodeHeader: an RFC 2047 section 4.1 "B" encoded-word in charset UTF-8

  const WordStart: seq<byte> := Ascii("=?UTF-8?B?")
  const WordEnd: seq<byte> := Ascii("?=")

  /** The encoded-word carries `s` (Go's `[]byte(s)` is `s` itself) as base64
      between the `=?UTF-8?B?` and `?=` delimiters, on one line. */
  function EncodeHeader(s: seq<byte>): (r: seq<byte>)
    ensures |r| >= |WordStart| + |WordEnd|
    ensures r[..|WordStart|] == WordStart && r[|r| - |WordEnd|..] == WordEnd
    ensures NoLineBreak(r)
  {
    var e := Base64.Encode(s);
    Base64.EncodeNoLineBreak(s);
    AsciiNoLineBreak("=?UTF-8?B?");
    AsciiNoLineBreak("?=");
    WordStart + e + WordEnd
  }

  /** The decoding side of an encoded-word of this form. */
  function DecodeEncodedWord(w: seq<byte>): Option<seq<byte>> {
    if |w| >= |WordStart| + |WordEnd| && w[..|WordStart|] == WordStart && w[|w| - |WordEnd|..] == WordEnd
    then Base64.Decode(w[|WordStart|..|w| - |WordEnd|])
    else None
  }

  /** Decoding an encoded header gives back the original bytes. */
  lemma EncodedWordRoundTrip(s: seq<byte>)
    ensures DecodeEncodedWord(EncodeHeader(s)) == Some(s)
  {
    var w := EncodeHeader(s);
    Base64.DecodeEncode(s);
    assert w[|WordStart|..|w| - |WordEnd|] == Base64.Encode(s);
  }

  /** Every encoded-word this decoder accepts is the encoding of its result. */
  lemma EncodedWordCanonical(w: seq<byte>)
    requires DecodeEncodedWord(w).Some?
    ensures EncodeHeader(DecodeEncodedWord(w).value) == w
  {
    var e := w[|WordStart|..|w| - |WordEnd|];
    var x := DecodeEncodedWord(w).value;
    assert x == Base64.Decode(e).value;
    Base64.EncodeDecode(e);
    assert w == WordStart + e + WordEnd by {
      assert w == w[..|WordStart|] + e + w[|w| - |WordEnd|..];
    }
    assert EncodeHeader(x) == WordStart + Base64.Encode(x) + WordEnd;
  }

  // ---------------------------------------------------------------------------
  // The parts of the message

  const ContentType: seq<byte> := Ascii("Content-Type")
  const ContentDisposition: seq<byte> := Ascii("Content-Disposition")
  const ContentTransferEncoding: seq<byte> := Ascii("Content-Transfer-Encoding")
  const TextPlain: seq<byte> := Ascii("text/plain; charset=UTF-8")
  const TextHtml: seq<byte> := Ascii("text/html; charset=UTF-8")

  /** The header block: six fields, each on its own CRLF-terminated line. */
  function HeaderFields(cfg: EmailConfig, subject: seq<byte>, to: seq<seq<byte>>, boundary: seq<byte>): seq<Field> {
    [Field(Ascii("MIME-Version"), Ascii("1.0")),
     Field(Ascii("From"), EncodeHeader(cfg.senderName) + Ascii(" <") + cfg.emailAddress + Ascii(">")),
     Field(Ascii("To"), Join(to, Ascii(", "))),
     Field(Ascii("Subject"), EncodeHeader(subject)),
     Field(Ascii("Reply-To"), cfg.replyTo),
     Field(ContentType, Ascii("multipart/mixed; boundary=") + boundary)]
  }

  function HeaderBlock(cfg: EmailConfig, subject: seq<byte>, to: seq<seq<byte>>, boundary: seq<byte>): seq<byte> {
    FieldLines(HeaderFields(cfg, subject, to, boundary)) + CRLF
  }

  function PlainPart(body: seq<byte>): seq<byte> {
    Entity([Field(ContentType, TextPlain)], body)
  }

  function HtmlPart(htmlBody: seq<byte>): seq<byte> {
    Entity([Field(ContentType, TextHtml)], htmlBody)
  }

  function AlternativeField(altBoundary: seq<byte>): Field {
    Field(ContentType, Ascii("multipart/alternative; boundary=") + altBoundary)
  }

  /** The multipart/alternative section: plain first, HTML second. */
  function AlternativePart(altBoundary: seq<byte>, body: seq<byte>, htmlBody: seq<byte>, epilogue: Option<seq<byte>>): seq<byte> {
    Entity([AlternativeField(altBoundary)], MultipartBody(altBoundary, [PlainPart(body), HtmlPart(htmlBody)], epilogue))
  }

  /** The extension-to-type registry `mime.TypeByExtension` consults. */
  type MimeTypes = map<seq<byte>, seq<byte>>

  /** `mime.TypeByExtension`: the registered type, or the empty string when
      the extension has none. */
  function TypeByExtension(types: MimeTypes, ext: seq<byte>): (t: seq<byte>)
    ensures ext !in types ==> t == []
  {
    if ext in types then types[ext] else []
  }

  /** The attachment's header fields, in the order `CreatePart` writes them
      (sorted by name). */
  function AttachmentFields(path: seq<byte>, types: MimeTypes): seq<Field> {
    [Field(ContentDisposition, Ascii("attachment; filename=\"") + FilePath.Base(path) + Ascii("\"")),
     Field(ContentTransferEncoding, Ascii("base64")),
     Field(ContentType, TypeByExtension(types, FilePath.Ext(path)))]
  }

  function AttachmentPart(path: seq<byte>, contents: seq<byte>, types: MimeTypes): seq<byte> {
    Entity(AttachmentFields(path, types), Base64.Encode(contents))
  }

  /** The prefix an attachment path must start with. */
  function PathPrefix(cfg: EmailConfig): seq<byte> {
    cfg.attachmentPathPrefix + Ascii("/")
  }

  predicate PathAllowed(cfg: EmailConfig, attachmentPath: seq<byte>) {
    attachmentPath == [] || PathPrefix(cfg) <= attachmentPath
  }

  /** The first part of the outer body: the alternative section when both
      bodies are given, otherwise the one that is. When an attachment follows
      the alternative section, Go writes the outer dash-boundary straight
      after the CRLF that ends the alternative close delimiter, so that CRLF
      serves as the start of the outer delimiter and the alternative body has
      no epilogue; otherwise it has an empty one. */
  function FirstPart(altBoundary: seq<byte>, body: seq<byte>, htmlBody: seq<byte>, attached: bool): seq<byte> {
    if body != [] && htmlBody != [] then
      AlternativePart(altBoundary, body, htmlBody, if attached then None else Some([]))
    else if body != [] then PlainPart(body)
    else HtmlPart(htmlBody)
  }

  /** The message `createEmailMessage` returns, in RFC 2046 form: the header
      block, then a multipart/mixed body whose first part is the body section
      and whose second part, if any, is the attachment. */
  function EmailMessage(cfg: EmailConfig, subject: seq<byte>, body: seq<byte>, htmlBody: seq<byte>,
                        attachmentPath: seq<byte>, to: seq<seq<byte>>, boundary: seq<byte>, altBoundary: seq<byte>,
                        file: ReadResult, types: MimeTypes): Result<seq<byte>, BuildError>
  {
    if !PathAllowed(cfg, attachmentPath) then Err(InvalidAttachmentPath(PathPrefix(cfg)))
    else if body == [] && htmlBody == [] then Err(EmptyBody)
    else if attachmentPath != [] && file.ReadError? then Err(AttachmentRead(file.cause))
    else
      Ok(Entity(HeaderFields(cfg, subject, to, boundary),
                MultipartBody(boundary, MessageParts(body, htmlBody, attachmentPath, altBoundary, file, types), Some([]))))
  }

  /** The parts of the multipart/mixed body: the body section, then the
      attachment when there is one. */
  function MessageParts(body: seq<byte>, htmlBody: seq<byte>, attachmentPath: seq<byte>, altBoundary: seq<byte>,
                        file: ReadResult, types: MimeTypes): (parts: seq<seq<byte>>)
    requires attachmentPath != [] ==> file.Contents?
    ensures |parts| == (if attachmentPath == [] then 1 else 2)
  {
    var first := FirstPart(altBoundary, body, htmlBody, attachmentPath != []);
    if attachmentPath == [] then [first] else [first, AttachmentPart(attachmentPath, file.bytes, types)]
  }

  // ---------------------------------------------------------------------------
  // createEmailMessage

  /** The bytes Go writes straight into the buffer to open the alternative
      section (smtp_email.go line 104), bypassing the outer writer. */
  function AlternativeOpening(boundary: seq<byte>, altBoundary: seq<byte>): seq<byte> {
    DashBoundary(boundary) + CRLF + FieldLines([AlternativeField(altBoundary)]) + CRLF
  }

  /** What the body step leaves after the header block: the first part of
      the outer body, opened with the outer dash-boundary. After the
      alternative section, the CRLF that ends its close delimiter. */
  function BodySection(boundary: seq<byte>, altBoundary: seq<byte>, body: seq<byte>, htmlBody: seq<byte>): seq<byte> {
    if body != [] && htmlBody != [] then
      DashBoundary(boundary) + CRLF + AlternativePart(altBoundary, body, htmlBody, None) + CRLF
    else if body != [] then DashBoundary(boundary) + CRLF + PlainPart(body)
    else DashBoundary(boundary) + CRLF + HtmlPart(htmlBody)
  }

  /** What the attachment step appends: the attachment part with its opening.
      After the alternative section the outer writer has made no part yet, so
      it opens with the dash-boundary alone. */
  function AttachmentSection(boundary: seq<byte>, first: bool, attachmentPath: seq<byte>, contents: seq<byte>,
                             types: MimeTypes): seq<byte> {
    Opening(boundary, first) + CRLF + AttachmentPart(attachmentPath, contents, types)
  }

  /** Builds the message into one buffer, step by step, as the Go function
      does; the result is the message `EmailMessage` describes. */
  method CreateEmailMessage(cfg: EmailConfig, subject: seq<byte>, body: seq<byte>, htmlBody: seq<byte>,
                            attachmentPath: seq<byte>, to: seq<seq<byte>>, boundary: seq<byte>, altBoundary: seq<byte>,
                            file: ReadResult, types: MimeTypes)
    returns (r: Result<seq<byte>, BuildError>)
    ensures r == EmailMessage(cfg, subject, body, htmlBody, attachmentPath, to, boundary, altBoundary, file, types)
  {
    var prefix := PathPrefix(cfg);
    if attachmentPath != [] && !(prefix <= attachmentPath) {
      return Err(InvalidAttachmentPath(prefix));
    }

    var buf := new Buffer();
    var writer := new Writer(buf, boundary);

    var headers := HeaderBlock(cfg, subject, to, writer.boundary);
    buf.Write(headers);

    var written := WriteBodySection(writer, altBoundary, body, htmlBody);
    if !written {
      return Err(EmptyBody);
    }
    ghost var head := headers + BodySection(boundary, altBoundary, body, htmlBody);
    assert buf.data == head;

    if attachmentPath != [] {
      if file.ReadError? {
        return Err(AttachmentRead(file.cause));
      }
      var attachment := file.bytes;
      WriteAttachmentPart(writer, attachmentPath, attachment, types);
      assert buf.data == head + AttachmentSection(boundary, body != [] && htmlBody != [], attachmentPath, file.bytes, types);
    }

    writer.Close();
    r := Ok(buf.data);
    MessageAssembled(cfg, subject, body, htmlBody, attachmentPath, to, boundary, altBoundary, file, types);
  }

  /** Lines 100-159: the body section, or nothing when both bodies are empty
      (the caller then fails with the empty-body error). Only the alternative
      section leaves the outer writer without a part. */
  method WriteBodySection(writer: Writer, altBoundary: seq<byte>, body: seq<byte>, htmlBody: seq<byte>) returns (written: bool)
    requires !writer.hasPart
    modifies writer, writer.out
    ensures written <==> body != [] || htmlBody != []
    ensures written ==> writer.out.data == old(writer.out.data) + BodySection(writer.boundary, altBoundary, body, htmlBody)
    ensures written ==> (writer.hasPart <==> !(body != [] && htmlBody != []))
    ensures !written ==> writer.out.data == old(writer.out.data) && writer.hasPart == old(writer.hasPart)
  {
    if body != [] && htmlBody != [] {
      WriteAlternativeSection(writer.out, writer.boundary, altBoundary, body, htmlBody);
    } else if body != [] {
      WriteTextPart(writer, TextPlain, body);
    } else if htmlBody != [] {
      WriteTextPart(writer, TextHtml, htmlBody);
    } else {
      return false;
    }
    return true;
  }

  /** Lines 102-133: the alternative section, opened by hand on the outer
      boundary and written through its own writer on the same buffer. */
  method WriteAlternativeSection(buf: Buffer, boundary: seq<byte>, altBoundary: seq<byte>, body: seq<byte>, htmlBody: seq<byte>)
    modifies buf
    ensures buf.data == old(buf.data) + (DashBoundary(boundary) + CRLF + AlternativePart(altBoundary, body, htmlBody, None) + CRLF)
  {
    ghost var start := buf.data;
    var altWriter := new Writer(buf, altBoundary);
    buf.Write(AlternativeOpening(boundary, altWriter.boundary));
    ghost var written := AlternativeOpening(boundary, altBoundary);
    assert buf.data == start + written;
    altWriter.CreatePart([Field(ContentType, TextPlain)]);
    AppendAssoc(start, written, PartHeader(altBoundary, true, [Field(ContentType, TextPlain)]));
    written := written + PartHeader(altBoundary, true, [Field(ContentType, TextPlain)]);
    assert buf.data == start + written;
    buf.Write(body);
    AppendAssoc(start, written, body);
    written := written + body;
    assert buf.data == start + written;
    altWriter.CreatePart([Field(ContentType, TextHtml)]);
    AppendAssoc(start, written, PartHeader(altBoundary, false, [Field(ContentType, TextHtml)]));
    written := written + PartHeader(altBoundary, false, [Field(ContentType, TextHtml)]);
    assert buf.data == start + written;
    buf.Write(htmlBody);
    AppendAssoc(start, written, htmlBody);
    written := written + htmlBody;
    assert buf.data == start + written;
    altWriter.Close();
    AppendAssoc(start, written, CloseDelimiter(altBoundary) + CRLF);
    written := written + (CloseDelimiter(altBoundary) + CRLF);
    assert buf.data == start + written;
    AlternativeSectionWritten(boundary, altBoundary, body, htmlBody);
  }

  /** Lines 136-145 and 148-157: one text part through the outer writer. */
  method WriteTextPart(writer: Writer, mediaType: seq<byte>, content: seq<byte>)
    requires !writer.hasPart
    modifies writer, writer.out
    ensures writer.hasPart
    ensures writer.out.data == old(writer.out.data) + (DashBoundary(writer.boundary) + CRLF + Entity([Field(ContentType, mediaType)], content))
  {
    writer.CreatePart([Field(ContentType, mediaType)]);
    writer.out.Write(content);
    PartWritten(old(writer.out.data), PartHeader(writer.boundary, true, [Field(ContentType, mediaType)]), content,
                DashBoundary(writer.boundary), FieldLines([Field(ContentType, mediaType)]));
  }

  /** Lines 168-180: the attachment part, its contents in base64. */
  method WriteAttachmentPart(writer: Writer, attachmentPath: seq<byte>, contents: seq<byte>, types: MimeTypes)
    modifies writer, writer.out
    ensures writer.hasPart
    ensures writer.out.data == old(writer.out.data)
      + AttachmentSection(writer.boundary, !old(writer.hasPart), attachmentPath, contents, types)
  {
    var attachmentHeader := AttachmentFields(attachmentPath, types);
    ghost var first := !writer.hasPart;
    writer.CreatePart(attachmentHeader);
    var encoded := Base64.Encode(contents);
    writer.out.Write(encoded);
    PartWritten(old(writer.out.data), PartHeader(writer.boundary, first, attachmentHeader), encoded,
                Opening(writer.boundary, first), FieldLines(attachmentHeader));
  }

  /** The bytes the builder leaves in the buffer are the message. */
  lemma MessageAssembled(cfg: EmailConfig, subject: seq<byte>, body: seq<byte>, htmlBody: seq<byte>,
                         attachmentPath: seq<byte>, to: seq<seq<byte>>, boundary: seq<byte>, altBoundary: seq<byte>,
                         file: ReadResult, types: MimeTypes)
    requires PathAllowed(cfg, attachmentPath) && (body != [] || htmlBody != [])
    requires attachmentPath != [] ==> file.Contents?
    ensures var head := HeaderBlock(cfg, subject, to, boundary) + BodySection(boundary, altBoundary, body, htmlBody);
      EmailMessage(cfg, subject, body, htmlBody, attachmentPath, to, boundary, altBoundary, file, types)
      == Ok(if attachmentPath == [] then head + (CloseDelimiter(boundary) + CRLF)
            else head + AttachmentSection(boundary, body != [] && htmlBody != [], attachmentPath, file.bytes, types)
                 + (CloseDelimiter(boundary) + CRLF))
  {
    var hb := HeaderBlock(cfg, subject, to, boundary);
    var cd := CloseDelimiter(boundary);
    var first := FirstPart(altBoundary, body, htmlBody, attachmentPath != []);
    var m := Entity(HeaderFields(cfg, subject, to, boundary),
                    MultipartBody(boundary, if attachmentPath == [] then [first] else [first, AttachmentPart(attachmentPath, file.bytes, types)], Some([])));
    assert EmailMessage(cfg, subject, body, htmlBody, attachmentPath, to, boundary, altBoundary, file, types) == Ok(m);
    if attachmentPath == [] {
      BodyOnlyAssembled(hb, boundary, altBoundary, body, htmlBody);
    } else {
      BodyAttachedAssembled(hb, boundary, altBoundary, body, htmlBody, AttachmentPart(attachmentPath, file.bytes, types));
    }
  }

  lemma BodyOnlyAssembled(hb: seq<byte>, boundary: seq<byte>, altBoundary: seq<byte>, body: seq<byte>, htmlBody: seq<byte>)
    requires body != [] || htmlBody != []
    ensures hb + MultipartBody(boundary, [FirstPart(altBoundary, body, htmlBody, false)], Some([]))
         == hb + BodySection(boundary, altBoundary, body, htmlBody) + (CloseDelimiter(boundary) + CRLF)
  {
    var first := FirstPart(altBoundary, body, htmlBody, false);
    var s := DashBoundary(boundary) + CRLF;
    assert [first][1..] == [];
    assert Encapsulations(boundary, []) == [];
    if body != [] && htmlBody != [] {
      AlternativeEpilogue(altBoundary, body, htmlBody);
      AlternativeOnly(hb, s, AlternativePart(altBoundary, body, htmlBody, None), CRLF, CloseDelimiter(boundary));
    } else {
      SingleOnly(hb, s, first, CRLF, CloseDelimiter(boundary));
    }
  }

  lemma BodyAttachedAssembled(hb: seq<byte>, boundary: seq<byte>, altBoundary: seq<byte>, body: seq<byte>, htmlBody: seq<byte>, a: seq<byte>)
    requires body != [] || htmlBody != []
    ensures var alternative := body != [] && htmlBody != [];
      hb + MultipartBody(boundary, [FirstPart(altBoundary, body, htmlBody, true), a], Some([]))
      == hb + BodySection(boundary, altBoundary, body, htmlBody) + (Opening(boundary, alternative) + CRLF + a)
         + (CloseDelimiter(boundary) + CRLF)
  {
    var first := FirstPart(altBoundary, body, htmlBody, true);
    assert [first, a][1..] == [a];
    EncapsulationsSingle(boundary, a);
    assert Encapsulations(boundary, []) == [];
    if body != [] && htmlBody != [] {
      AlternativeAttached(hb, DashBoundary(boundary), CRLF, first, a, CloseDelimiter(boundary));
    } else {
      SingleAttached(hb, DashBoundary(boundary) + CRLF, first, Delimiter(boundary) + CRLF, a, CRLF, CloseDelimiter(boundary));
    }
  }

  // Associativity shapes of the message, over plain sequences.

  lemma SingleOnly(hb: seq<byte>, s: seq<byte>, p: seq<byte>, c: seq<byte>, cd: seq<byte>)
    ensures hb + (s + p) + (cd + c) == hb + (s + p + [] + cd + (c + []))
  {
  }

  lemma SingleAttached(hb: seq<byte>, s: seq<byte>, p: seq<byte>, d: seq<byte>, a: seq<byte>, c: seq<byte>, cd: seq<byte>)
    ensures hb + (s + p) + (d + a) + (cd + c) == hb + (s + p + (d + a + []) + cd + (c + []))
  {
  }

  lemma AlternativeOnly(hb: seq<byte>, s: seq<byte>, x: seq<byte>, c: seq<byte>, cd: seq<byte>)
    ensures hb + (s + x + c) + (cd + c) == hb + (s + (x + c) + [] + cd + (c + []))
  {
  }

  lemma AlternativeAttached(hb: seq<byte>, db: seq<byte>, c: seq<byte>, x: seq<byte>, a: seq<byte>, cd: seq<byte>)
    ensures hb + (db + c + x + c) + (db + c + a) + (cd + c) == hb + (db + c + x + (c + db + c + a + []) + cd + (c + []))
  {
  }

  lemma AppendAssoc(a: seq<byte>, b: seq<byte>, c: seq<byte>)
    ensures a + b + c == a + (b + c)
  {
  }

  /** A part as the writer leaves it: its header from `CreatePart`, then its
      content, is the opening line and the entity. */
  lemma PartWritten(start: seq<byte>, header: seq<byte>, content: seq<byte>, opening: seq<byte>, fields: seq<byte>)
    requires header == opening + CRLF + fields + CRLF
    ensures start + header + content == start + (opening + CRLF + (fields + CRLF + content))
  {
  }

  lemma AlternativeSectionWritten(boundary: seq<byte>, altBoundary: seq<byte>, body: seq<byte>, htmlBody: seq<byte>)
    ensures AlternativeOpening(boundary, altBoundary) + PartHeader(altBoundary, true, [Field(ContentType, TextPlain)]) + body
            + PartHeader(altBoundary, false, [Field(ContentType, TextHtml)]) + htmlBody + (CloseDelimiter(altBoundary) + CRLF)
         == DashBoundary(boundary) + CRLF + AlternativePart(altBoundary, body, htmlBody, None) + CRLF
  {
    var fa, fp, fh := FieldLines([AlternativeField(altBoundary)]), FieldLines([Field(ContentType, TextPlain)]), FieldLines([Field(ContentType, TextHtml)]);
    var da, db, dl, cd := DashBoundary(boundary), DashBoundary(altBoundary), Delimiter(altBoundary), CloseDelimiter(altBoundary);
    var p, h := PlainPart(body), HtmlPart(htmlBody);
    EncapsulationsSingle(altBoundary, h);
    assert [p, h][1..] == [h];
    assert MultipartBody(altBoundary, [p, h], None) == db + CRLF + p + (dl + CRLF + h) + cd + [];
    AlternativeShape(da, fa, db, fp, body, dl, fh, htmlBody, cd, CRLF);
  }

  lemma AlternativeShape(da: seq<byte>, fa: seq<byte>, db: seq<byte>, fp: seq<byte>, b: seq<byte>,
                         dl: seq<byte>, fh: seq<byte>, h: seq<byte>, cd: seq<byte>, c: seq<byte>)
    ensures (da + c + fa + c) + (db + c + fp + c) + b + (dl + c + fh + c) + h + (cd + c)
         == da + c + (fa + c + (db + c + (fp + c + b) + (dl + c + (fh + c + h)) + cd + [])) + c
  {
  }

  lemma AlternativeEpilogue(altBoundary: seq<byte>, body: seq<byte>, htmlBody: seq<byte>)
    ensures AlternativePart(altBoundary, body, htmlBody, Some([])) == AlternativePart(altBoundary, body, htmlBody, None) + CRLF
  {
  }

  // ---------------------------------------------------------------------------
  // What the message does not depend on, and which error comes first

  /** The message depends on the configuration only through the sender's
      address and name, the Reply-To address and the attachment prefix: the
      BCC address, the password and the server never reach it, so the BCC
      address cannot appear in the To: header. */
  lemma MessageIgnoresEnvelopeSettings(cfg: EmailConfig, cfg': EmailConfig, subject: seq<byte>, body: seq<byte>, htmlBody: seq<byte>,
                                       attachmentPath: seq<byte>, to: seq<seq<byte>>, boundary: seq<byte>, altBoundary: seq<byte>,
                                       file: ReadResult, types: MimeTypes)
    requires cfg'.emailAddress == cfg.emailAddress && cfg'.senderName == cfg.senderName
    requires cfg'.replyTo == cfg.replyTo && cfg'.attachmentPathPrefix == cfg.attachmentPathPrefix
    ensures EmailMessage(cfg, subject, body, htmlBody, attachmentPath, to, boundary, altBoundary, file, types)
         == EmailMessage(cfg', subject, body, htmlBody, attachmentPath, to, boundary, altBoundary, file, types)
  {
    assert HeaderFields(cfg, subject, to, boundary) == HeaderFields(cfg', subject, to, boundary);
    assert PathPrefix(cfg) == PathPrefix(cfg');
  }

  /** A path outside the prefix is reported whatever the bodies and the file:
      the check comes before the body check and before the file is read. */
  lemma PathCheckedFirst(cfg: EmailConfig, subject: seq<byte>, body: seq<byte>, htmlBody: seq<byte>,
                         attachmentPath: seq<byte>, to: seq<seq<byte>>, boundary: seq<byte>, altBoundary: seq<byte>,
                         file: ReadResult, types: MimeTypes)
    requires attachmentPath != [] && !(PathPrefix(cfg) <= attachmentPath)
    ensures EmailMessage(cfg, subject, body, htmlBody, attachmentPath, to, boundary, altBoundary, file, types)
         == Err(InvalidAttachmentPath(PathPrefix(cfg)))
  {
  }

  /** With an acceptable path and both bodies empty the build fails, whatever
      the file: it is never read. */
  lemma EmptyBodyRejected(cfg: EmailConfig, subject: seq<byte>, attachmentPath: seq<byte>, to: seq<seq<byte>>,
                          boundary: seq<byte>, altBoundary: seq<byte>, file: ReadResult, types: MimeTypes)
    requires PathAllowed(cfg, attachmentPath)
    ensures EmailMessage(cfg, subject, [], [], attachmentPath, to, boundary, altBoundary, file, types) == Err(EmptyBody)
  {
  }

  /** A failed read of the attachment fails the whole build with its error. */
  lemma ReadFailureRejected(cfg: EmailConfig, subject: seq<byte>, body: seq<byte>, htmlBody: seq<byte>,
                            attachmentPath: seq<byte>, to: seq<seq<byte>>, boundary: seq<byte>, altBoundary: seq<byte>,
                            cause: seq<byte>, types: MimeTypes)
    requires PathAllowed(cfg, attachmentPath) && attachmentPath != [] && (body != [] || htmlBody != [])
    ensures EmailMessage(cfg, subject, body, htmlBody, attachmentPath, to, boundary, altBoundary, ReadError(cause), types)
         == Err(AttachmentRead(cause))
  {
  }

  /** The build succeeds exactly when the path is acceptable, some body is
      given, and the attachment, if any, was read. */
  lemma BuildSucceeds(cfg: EmailConfig, subject: seq<byte>, body: seq<byte>, htmlBody: seq<byte>,
                      attachmentPath: seq<byte>, to: seq<seq<byte>>, boundary: seq<byte>, altBoundary: seq<byte>,
                      file: ReadResult, types: MimeTypes)
    ensures EmailMessage(cfg, subject, body, htmlBody, attachmentPath, to, boundary, altBoundary, file, types).Ok?
        <==> (attachmentPath == [] || PathPrefix(cfg) <= attachmentPath)
             && (body != [] || htmlBody != []) && (attachmentPath == [] || file.Contents?)
  {
  }

  /** Without an attachment the file plays no part. */
  lemma NoAttachmentNoRead(cfg: EmailConfig, subject: seq<byte>, body: seq<byte>, htmlBody: seq<byte>,
                           to: seq<seq<byte>>, boundary: seq<byte>, altBoundary: seq<byte>,
                           file: ReadResult, file': ReadResult, types: MimeTypes)
    ensures EmailMessage(cfg, subject, body, htmlBody, [], to, boundary, altBoundary, file, types)
         == EmailMessage(cfg, subject, body, htmlBody, [], to, boundary, altBoundary, file', types)
  {
  }

  // ---------------------------------------------------------------------------
  // EmailSender

  /** `smtp.PlainAuth(identity, username, password, host)`. */
  datatype Auth = PlainAuth(identity: seq<byte>, username: seq<byte>, password: seq<byte>, host: seq<byte>)

  /** The arguments of `smtp.SendMail`: the server address, the credentials,
      the envelope sender, the envelope recipients and the message. */
  datatype Submission = Submission(addr: seq<byte>, auth: Auth, from: seq<byte>, recipients: seq<seq<byte>>, message: seq<byte>)

  /** `emailAuth`: PLAIN authentication with an empty identity. */
  function EmailAuth(cfg: EmailConfig): Auth {
    PlainAuth([], cfg.emailAddress, cfg.password, cfg.host)
  }

  /** Builds the message and hands it to the transport `sendMail`, which
      answers whether the server accepted it. The envelope recipients are `to`
      followed by the BCC address when one is configured; the message itself
      is built from `to` alone. `submitted` is what was handed over, if
      anything. */
  method EmailSender(cfg: EmailConfig, subject: seq<byte>, body: seq<byte>, htmlBody: seq<byte>,
                     attachmentPath: seq<byte>, to: seq<seq<byte>>, boundary: seq<byte>, altBoundary: seq<byte>,
                     file: ReadResult, types: MimeTypes, sendMail: Submission -> bool)
    returns (sent: bool, submitted: Option<Submission>)
    ensures var built := EmailMessage(cfg, subject, body, htmlBody, attachmentPath, to, boundary, altBoundary, file, types);
      (submitted.Some? <==> built.Ok?) &&
      (submitted.Some? ==>
         submitted.value.addr == cfg.host + Ascii(":") + cfg.port &&
         submitted.value.auth == EmailAuth(cfg) &&
         submitted.value.from == cfg.emailAddress &&
         submitted.value.message == built.value)
    ensures submitted.Some? ==>
      var rcpt := submitted.value.recipients;
      |rcpt| == |to| + (if cfg.bccAddressToSendCopy == [] then 0 else 1) &&
      rcpt[..|to|] == to &&
      (cfg.bccAddressToSendCopy != [] ==> rcpt[|to|] == cfg.bccAddressToSendCopy)
    ensures sent <==> submitted.Some? && sendMail(submitted.value)
  {
    var auth := EmailAuth(cfg);

    var recipients := to;
    if cfg.bccAddressToSendCopy != [] {
      recipients := recipients + [cfg.bccAddressToSendCopy];
    }

    var message := CreateEmailMessage(cfg, subject, body, htmlBody, attachmentPath, to, boundary, altBoundary, file, types);
    if message.Err? {
      return false, None;
    }

    var submission := Submission(cfg.host + Ascii(":") + cfg.port, auth, cfg.emailAddress, recipients, message.value);
    submitted := Some(submission);
    sent := sendMail(submission);
  }
}
