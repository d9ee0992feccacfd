/**
  * What a recipient reads back from a message `createEmailMessage` builds:
  * the header block, the parts of the multipart/mixed body, the layout of the
  * body section and the attachment's bytes.
  *
  * Go neither checks that header values stay on one line nor that the random
  * boundaries occur nowhere in the parts; these lemmas assume both.
  */
module Layout {
  import opened Bytes
  import opened Wrappers
  import opened Mime
  import opened MimeReader
  import opened SmtpEmail
  import Base64
  import FilePath

  /** The values the header block copies verbatim stay on their lines. */
  predicate HeaderSafe(cfg: EmailConfig, to: seq<seq<byte>>, boundary: seq<byte>) {
    NoLineBreak(cfg.emailAddress) && NoLineBreak(cfg.replyTo) && NoLineBreak(boundary) &&
    forall i | 0 <= i < |to| :: NoLineBreak(to[i])
  }

  /** The values of the attachment's fields stay on their lines. */
  predicate AttachmentSafe(attachmentPath: seq<byte>, types: MimeTypes) {
    NoLineBreak(attachmentPath) && forall e | e in types :: NoLineBreak(types[e])
  }

  lemma HeaderFieldsOk(cfg: EmailConfig, subject: seq<byte>, to: seq<seq<byte>>, boundary: seq<byte>)
    requires HeaderSafe(cfg, to, boundary)
    ensures var fs := HeaderFields(cfg, subject, to, boundary);
      forall i | 0 <= i < |fs| :: FieldOk(fs[i])
  {
    HeaderLiterals();
    JoinNoLineBreak(to, Ascii(", "));
  }

  /** The field names and the literal parts of the values of the header
      block. */
  lemma HeaderLiterals()
    ensures Colon !in Ascii("MIME-Version") && NoLineBreak(Ascii("MIME-Version"))
    ensures Colon !in Ascii("From") && NoLineBreak(Ascii("From"))
    ensures Colon !in Ascii("To") && NoLineBreak(Ascii("To"))
    ensures Colon !in Ascii("Subject") && NoLineBreak(Ascii("Subject"))
    ensures Colon !in Ascii("Reply-To") && NoLineBreak(Ascii("Reply-To"))
    ensures Colon !in ContentType && NoLineBreak(ContentType)
    ensures NoLineBreak(Ascii("1.0")) && NoLineBreak(Ascii(" <")) && NoLineBreak(Ascii(">"))
    ensures NoLineBreak(Ascii(", ")) && NoLineBreak(Ascii("multipart/mixed; boundary="))
  {
    AsciiFieldName("MIME-Version");
    AsciiFieldName("From");
    AsciiFieldName("To");
    AsciiFieldName("Subject");
    AsciiFieldName("Reply-To");
    AsciiFieldName("Content-Type");
    AsciiNoLineBreak("1.0");
    AsciiNoLineBreak(" <");
    AsciiNoLineBreak(">");
    AsciiNoLineBreak(", ");
    AsciiNoLineBreak("multipart/mixed; boundary=");
  }

  /** The message reads back as the header block and the parts of its
      multipart/mixed body, with the empty epilogue after the close
      delimiter. */
  lemma MessageLayout(cfg: EmailConfig, subject: seq<byte>, body: seq<byte>, htmlBody: seq<byte>,
                      attachmentPath: seq<byte>, to: seq<seq<byte>>, boundary: seq<byte>, altBoundary: seq<byte>,
                      file: ReadResult, types: MimeTypes)
    requires EmailMessage(cfg, subject, body, htmlBody, attachmentPath, to, boundary, altBoundary, file, types).Ok?
    requires HeaderSafe(cfg, to, boundary)
    requires BoundaryFresh(boundary, MessageParts(body, htmlBody, attachmentPath, altBoundary, file, types))
    ensures ReadMultipartEntity(boundary, EmailMessage(cfg, subject, body, htmlBody, attachmentPath, to, boundary, altBoundary, file, types).value)
         == Some((HeaderFields(cfg, subject, to, boundary), MessageParts(body, htmlBody, attachmentPath, altBoundary, file, types), Some([])))
  {
    HeaderFieldsOk(cfg, subject, to, boundary);
    MultipartEntityRoundTrip(HeaderFields(cfg, subject, to, boundary), boundary,
                             MessageParts(body, htmlBody, attachmentPath, altBoundary, file, types), Some([]));
  }

  /** The text parts read back as a single Content-Type field and the body. */
  lemma TextPartsRead(body: seq<byte>, htmlBody: seq<byte>)
    ensures ParseEntity(PlainPart(body)) == Some(([Field(ContentType, TextPlain)], body))
    ensures ParseEntity(HtmlPart(htmlBody)) == Some(([Field(ContentType, TextHtml)], htmlBody))
  {
    AsciiFieldName("Content-Type");
    AsciiNoLineBreak("text/plain; charset=UTF-8");
    AsciiNoLineBreak("text/html; charset=UTF-8");
    EntityRoundTrip([Field(ContentType, TextPlain)], body);
    EntityRoundTrip([Field(ContentType, TextHtml)], htmlBody);
  }

  /** With exactly one body, the first part is one text entity of the
      matching type holding that body: there is no alternative section. */
  lemma SingleBodyLayout(altBoundary: seq<byte>, body: seq<byte>, htmlBody: seq<byte>, attached: bool)
    requires (body == []) != (htmlBody == [])
    ensures ParseEntity(FirstPart(altBoundary, body, htmlBody, attached)) ==
            if body != [] then Some(([Field(ContentType, TextPlain)], body))
            else Some(([Field(ContentType, TextHtml)], htmlBody))
  {
    TextPartsRead(body, htmlBody);
  }

  /** With both bodies, the first part is a multipart/alternative entity
      with boundary `altBoundary` holding the plain part and then the HTML
      part. Its close delimiter ends the part when the attachment follows;
      otherwise a CRLF follows it. */
  lemma AlternativeLayout(altBoundary: seq<byte>, body: seq<byte>, htmlBody: seq<byte>, attached: bool)
    requires body != [] && htmlBody != []
    requires NoLineBreak(altBoundary)
    requires BoundaryFresh(altBoundary, [PlainPart(body), HtmlPart(htmlBody)])
    ensures ReadMultipartEntity(altBoundary, FirstPart(altBoundary, body, htmlBody, attached)) ==
            Some(([AlternativeField(altBoundary)], [PlainPart(body), HtmlPart(htmlBody)], if attached then None else Some([])))
  {
    AsciiFieldName("Content-Type");
    AsciiNoLineBreak("multipart/alternative; boundary=");
    MultipartEntityRoundTrip([AlternativeField(altBoundary)], altBoundary, [PlainPart(body), HtmlPart(htmlBody)],
                             if attached then None else Some([]));
  }

  lemma AttachmentFieldsOk(attachmentPath: seq<byte>, types: MimeTypes)
    requires AttachmentSafe(attachmentPath, types)
    ensures var fs := AttachmentFields(attachmentPath, types);
      forall i | 0 <= i < |fs| :: FieldOk(fs[i])
  {
    AttachmentLiterals();
    FilePath.BaseNoLineBreak(attachmentPath);
    TypeNoLineBreak(types, FilePath.Ext(attachmentPath));
  }

  lemma TypeNoLineBreak(types: MimeTypes, ext: seq<byte>)
    requires forall e | e in types :: NoLineBreak(types[e])
    ensures NoLineBreak(TypeByExtension(types, ext))
  {
  }

  /** The field names and the literal parts of the values of the attachment
      header. */
  lemma AttachmentLiterals()
    ensures Colon !in ContentDisposition && NoLineBreak(ContentDisposition)
    ensures Colon !in ContentTransferEncoding && NoLineBreak(ContentTransferEncoding)
    ensures Colon !in ContentType && NoLineBreak(ContentType)
    ensures NoLineBreak(Ascii("attachment; filename=\"")) && NoLineBreak(Ascii("\"")) && NoLineBreak(Ascii("base64"))
  {
    AsciiFieldName("Content-Disposition");
    AsciiFieldName("Content-Transfer-Encoding");
    AsciiFieldName("Content-Type");
    AsciiNoLineBreak("attachment; filename=\"");
    AsciiNoLineBreak("\"");
    AsciiNoLineBreak("base64");
  }

  /** The attachment reads back as its three fields and a content that
      decodes to the file's bytes. */
  lemma AttachmentLayout(attachmentPath: seq<byte>, contents: seq<byte>, types: MimeTypes)
    requires AttachmentSafe(attachmentPath, types)
    ensures match ParseEntity(AttachmentPart(attachmentPath, contents, types))
            case Some((fs, content)) => fs == AttachmentFields(attachmentPath, types) && Base64.Decode(content) == Some(contents)
            case None => false
  {
    AttachmentFieldsOk(attachmentPath, types);
    EntityRoundTrip(AttachmentFields(attachmentPath, types), Base64.Encode(contents));
    Base64.DecodeEncode(contents);
  }

  /** Byte-wise lexicographic order, the order of Go's `sort.Strings`. */
  predicate Less(a: seq<byte>, b: seq<byte>)
    decreases |a|
  {
    b != [] && (a == [] || a[0] < b[0] || (a[0] == b[0] && Less(a[1..], b[1..])))
  }

  /** Two strings that agree before position k and differ at k are ordered
      by their bytes at k. */
  lemma {:induction false} LessAt(a: seq<byte>, b: seq<byte>, k: nat)
    requires k < |a| && k < |b| && a[..k] == b[..k] && a[k] < b[k]
    ensures Less(a, b)
    decreases k
  {
    if k > 0 {
      assert a[0] == a[..k][0] == b[..k][0] == b[0];
      assert a[1..][..k - 1] == a[..k][1..] == b[..k][1..] == b[1..][..k - 1];
      LessAt(a[1..], b[1..], k - 1);
    }
  }

  /** `CreatePart` writes header fields sorted by name, so the attachment's
      fields appear as Content-Disposition, Content-Transfer-Encoding,
      Content-Type although they are set in another order; the names are
      distinct, so each field is written once. */
  lemma AttachmentFieldOrder(attachmentPath: seq<byte>, types: MimeTypes)
    ensures var fs := AttachmentFields(attachmentPath, types);
      Less(fs[0].name, fs[1].name) && Less(fs[1].name, fs[2].name)
  {
    DispositionBeforeEncoding();
    EncodingBeforeType();
  }

  lemma DispositionBeforeEncoding()
    ensures Less(ContentDisposition, ContentTransferEncoding)
  {
    forall i | 0 <= i <= 8 ensures ContentDisposition[i] as int == "Content-Disposition"[i] as int {
      AsciiAt("Content-Disposition", i);
    }
    forall i | 0 <= i <= 8 ensures ContentTransferEncoding[i] as int == "Content-Transfer-Encoding"[i] as int {
      AsciiAt("Content-Transfer-Encoding", i);
    }
    assert ContentDisposition[..8] == ContentTransferEncoding[..8];
    LessAt(ContentDisposition, ContentTransferEncoding, 8);
  }

  lemma EncodingBeforeType()
    ensures Less(ContentTransferEncoding, ContentType)
  {
    forall i | 0 <= i <= 9 ensures ContentTransferEncoding[i] as int == "Content-Transfer-Encoding"[i] as int {
      AsciiAt("Content-Transfer-Encoding", i);
    }
    forall i | 0 <= i <= 9 ensures ContentType[i] as int == "Content-Type"[i] as int {
      AsciiAt("Content-Type", i);
    }
    assert ContentTransferEncoding[..9] == ContentType[..9];
    LessAt(ContentTransferEncoding, ContentType, 9);
  }
}
