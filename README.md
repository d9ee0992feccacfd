# gosmtpmail: message builder and sender, modelled in Dafny

Package gosmtpmail sends one e-mail through an SMTP server. `createEmailMessage`
builds the message bytes into one `bytes.Buffer` in a fixed order:

- the attachment path check;
- an RFC 5322 header block with CRLF line endings;
- one of three body layouts: a nested multipart/alternative section with the
  plain part and then the HTML part, a plain part alone, or an HTML part alone;
  with both bodies empty the build fails;
- an optional base64 attachment part;
- the close delimiter of the multipart/mixed body.

`encodeHeader` wraps the sender name and the subject as RFC 2047 section 4.1 "B"
encoded-words around RFC 4648 section 4 base64. `EmailSender` adds the BCC
address to the envelope recipients only, builds the message from the `to` list,
and hands both to the SMTP transport.

The project has these modules:

- `Bytes` (bytes.dfy): Go strings as byte sequences, ASCII literals and
  `strings.Join`.
- `Wrappers` (wrappers.dfy): `Option` and `Result`.
- `Base64` (base64.dfy): `base64.StdEncoding` encoding, and a strict decoder
  that makes encoding and decoding inverse bijections.
- `FilePath` (filepath.dfy): `filepath.Base` and `filepath.Ext`.
- `Mime` (mime.dfy): entities and multipart bodies in RFC 2046 section 5.1.1
  form. It also has classes `Buffer` (`bytes.Buffer`) and `Writer`
  (`multipart.Writer`), whose methods append to the shared buffer as the Go
  library does.
- `SmtpEmail` (smtp_email.dfy): `EmailMessage`, the message as a value, and
  the imperative `CreateEmailMessage`, proved to return exactly
  `EmailMessage`. It also holds the error-order lemmas, `encodeHeader` with
  its round trip, and `EmailSender`.
- `MimeReader` (reader.dfy): a reader for entities and multipart bodies. It is
  the partner of the renderers. Whatever it accepts is the rendering of what
  it returns. Every rendering whose field lines do not break early and whose
  parts do not contain the delimiter is read back exactly.
- `Layout` (layout.dfy): what a recipient reads back from a built message:
  - the six header fields;
  - the parts of the mixed body;
  - which body layout was chosen;
  - the attachment's fields and its decoded bytes.

Two behaviours of the code worth knowing, both modelled as written:

- An attachment whose extension has no registered type gets an empty
  Content-Type value; there is no `application/octet-stream` default.
- The envelope recipients are `to` followed by the BCC address (a Go
  `append`), so an address given twice is kept twice.

## Model

| member | source | states |
|---|---|---|
| SmtpEmail.CreateEmailMessage | smtp_email.go:78-189 | Writing step by step into one buffer through the two multipart writers returns exactly `EmailMessage`: the error of the first failing check, or the header block followed by the multipart/mixed body. |
| SmtpEmail.EmailMessage | smtp_email.go:78-189 | The value `createEmailMessage` returns: the path error, the empty-body error or the read error, checked in that order, and otherwise the header fields followed by the multipart/mixed body of `MessageParts` with an empty epilogue. |
| SmtpEmail.HeaderFields | smtp_email.go:90-96 | The six header fields in order: MIME-Version 1.0, From with the encoded sender name and the address in angle brackets, To with the recipients joined by ", ", Subject encoded, Reply-To, and Content-Type multipart/mixed with the outer boundary. |
| SmtpEmail.HeaderBlock | smtp_email.go:90-97 | The header block written first: each field on a CRLF-terminated line, then the blank line. |
| SmtpEmail.FirstPart | smtp_email.go:100-160 | The first part of the mixed body: the multipart/alternative entity (plain, then HTML) when both bodies are given, otherwise the text/plain or text/html entity of the one that is. |
| SmtpEmail.BodySection | smtp_email.go:100-160 | The bytes the body step appends after the header block: the outer dash-boundary and the first part, plus the CRLF after the alternative close delimiter. |
| SmtpEmail.AttachmentFields | smtp_email.go:168-171 | The attachment header: Content-Disposition with the base name in quotes, Content-Transfer-Encoding base64, Content-Type from the extension lookup. |
| SmtpEmail.AttachmentPart | smtp_email.go:168-177 | The attachment entity: its three fields, the blank line and the unbroken base64 of the file. |
| SmtpEmail.EmailAuth | smtp_email.go:68-70 | PLAIN authentication with an empty identity, the sender address as user name, the password and the host. |
| Bytes.Join | smtp_email.go:93 | `strings.Join`: the entries in order with the separator between neighbours; empty for no entries, the entry itself for one. |
| SmtpEmail.BuildSucceeds | smtp_email.go:78-189 | The build succeeds iff the path is empty or starts with prefix + "/", some body is non-empty, and a named attachment was read. |
| SmtpEmail.PathCheckedFirst | smtp_email.go:80-83 | A non-empty path outside prefix + "/" gives the path error naming that prefix. This holds for any bodies and any file, so it comes before the body check and the read. |
| SmtpEmail.EmptyBodyRejected | smtp_email.go:158-159 | With an acceptable path and both bodies empty, the result is the empty-body error, whatever the file. |
| SmtpEmail.ReadFailureRejected | smtp_email.go:164-167 | When reading a named attachment fails, the whole build fails with that error. |
| SmtpEmail.NoAttachmentNoRead | smtp_email.go:163 | Without an attachment path, the outcome of reading a file plays no part. |
| SmtpEmail.MessageParts | smtp_email.go:100-181 | The mixed body has one part (the body section) without an attachment, and two with one. |
| SmtpEmail.WriteBodySection | smtp_email.go:100-160 | Something is written iff some body is non-empty. What is written is the outer dash-boundary and the first part. The outer writer has a part afterwards unless the alternative section was written straight into the buffer. When nothing is written, the buffer and the writer are unchanged. |
| SmtpEmail.WriteAlternativeSection | smtp_email.go:100-133 | The opening written straight into the buffer, the two parts through the alt writer and its close give the dash-boundary, the multipart/alternative entity (plain then HTML) and a CRLF. |
| SmtpEmail.AlternativeSectionWritten | smtp_email.go:104-133 | The bytes the alternative branch writes equal the RFC 2046 form of that entity. |
| SmtpEmail.AlternativeEpilogue | smtp_email.go:130-133 | The CRLF after the alternative close delimiter is that body's empty epilogue when no attachment follows. |
| SmtpEmail.WriteTextPart | smtp_email.go:134-157 | A single body goes through the outer writer as its first part: dash-boundary, one Content-Type field, blank line, body. |
| SmtpEmail.WriteAttachmentPart | smtp_email.go:168-181 | The attachment is opened with the dash-boundary when the outer writer has no part yet, and with a delimiter otherwise. Its fields and the base64 of the file follow. |
| SmtpEmail.MessageAssembled | smtp_email.go:183-188 | Header block, body section, optional attachment section and the close written by `writer.Close` together form `EmailMessage`. |
| SmtpEmail.TypeByExtension | smtp_email.go:169 | An unregistered extension gives the empty type. |
| SmtpEmail.EncodeHeader | smtp_email.go:73-75 | The result starts with `=?UTF-8?B?`, ends with `?=` and holds no line break. |
| SmtpEmail.EncodedWordRoundTrip | smtp_email.go:73-75 | Stripping the encoded-word delimiters and base64-decoding gives back the original bytes. |
| SmtpEmail.EncodedWordCanonical | smtp_email.go:73-75 | Every encoded-word the decoder accepts is the encoding of what it decodes to. |
| SmtpEmail.MessageIgnoresEnvelopeSettings | smtp_email.go:41-47 | The message, its To: header included, is the same whatever the BCC address, password, host and port. The BCC address reaches only the envelope. |
| SmtpEmail.EmailSender | smtp_email.go:36-65 | A message is handed to the transport iff the build succeeds. The hand-off carries host ":" port, PLAIN credentials, the sender address and the built message. The recipients are `to` in order, then the BCC address iff one is set. The result is true iff the transport accepts. |
| Mime.Buffer.Write | smtp_email.go:97 | Writing appends to the buffer and changes nothing else. |
| Mime.Writer.constructor | smtp_email.go:86 | A new writer over the buffer has the given boundary and no part. |
| Mime.Writer.CreatePart | smtp_email.go:172 | `CreatePart` appends the dash-boundary for the writer's first part and a full delimiter for a later one, then the field lines and the blank line. |
| Mime.Writer.Close | smtp_email.go:183 | `Close` appends the close delimiter and CRLF. |
| Base64.Encode | smtp_email.go:176 | The encoding of n bytes has 4 * ceil(n / 3) characters. |
| Base64.DecodeEncode | smtp_email.go:176 | Decoding the encoding of any bytes gives those bytes back. |
| Base64.EncodeDecode | smtp_email.go:176 | Every string the strict decoder accepts is the encoding of its result, so the two are inverse bijections. |
| Base64.EncodeAlphabet | smtp_email.go:176 | Every character of an encoding is in the base64 alphabet or is the pad character. |
| Base64.EncodeNoLineBreak | smtp_email.go:176-177 | The encoding is one unbroken line. |
| FilePath.Base | smtp_email.go:170 | "." for the empty path and "/" for separators only. Otherwise it is a non-empty, slash-free final element of the path without trailing separators. |
| FilePath.Ext | smtp_email.go:169 | The extension is empty or a suffix starting with '.' that holds no other '.' and no '/'. It is empty only when every '.' is followed by a '/'. |
| Bytes.JoinNoLineBreak | smtp_email.go:93 | Joining line-free recipients with ", " gives a line-free To: value. |
| MimeReader.ParseEntity | smtp_email.go:89-97 | Partner of these lines (a reader, not a model of them): whatever the reader accepts is an entity made of the fields and content it returns. |
| MimeReader.EntityRoundTrip | smtp_email.go:89-97 | Partner of these lines: every entity whose fields fit on their lines reads back as exactly its fields and content. |
| MimeReader.Find | smtp_email.go:172 | Partner of the delimiters these lines write; the result is the first occurrence of the pattern. When there is none, the pattern occurs nowhere. |
| MimeReader.ReadMultipart | smtp_email.go:183 | Partner of these lines (a reader, not a model of them): whatever the reader accepts is a multipart body made of the parts and epilogue it returns. |
| MimeReader.MultipartRoundTrip | smtp_email.go:183 | Partner of these lines: a multipart body whose parts do not contain the delimiter reads back as exactly its parts and epilogue. |
| MimeReader.MultipartEntityRoundTrip | smtp_email.go:89-97 | Partner of these lines: the two readers together recover the fields, the parts and the epilogue of a multipart entity. |
| Layout.HeaderFieldsOk | smtp_email.go:89-97 | When the address, the Reply-To value, the boundary and the recipients have no line breaks, each of the six header fields fits on its own line. |
| Layout.MessageLayout | smtp_email.go:89-97 | A built message reads back as the six header fields and the parts of the mixed body, followed by the `\r\n` after the close delimiter. |
| Layout.TextPartsRead | smtp_email.go:134-157 | A text part reads back as one Content-Type field (text/plain or text/html, charset UTF-8) and its body. |
| Layout.SingleBodyLayout | smtp_email.go:134-157 | With exactly one body, the first part is one text entity of the matching type holding that body. It is not an alternative section. |
| Layout.AlternativeLayout | smtp_email.go:100-133 | With both bodies, the first part is a multipart/alternative entity on the alt boundary. It holds the plain part, then the HTML part, and has an epilogue only when no attachment follows. |
| Layout.AttachmentFieldsOk | smtp_email.go:168-171 | The attachment's three fields fit on their lines when the path and the registered types have no line breaks. |
| Layout.AttachmentLayout | smtp_email.go:163-181 | The attachment reads back as its three fields and a content that decodes to the file's bytes. |
| Layout.AttachmentFieldOrder | smtp_email.go:168-172 | The attachment fields come sorted by name (Content-Disposition, Content-Transfer-Encoding, Content-Type), so each name appears once. |

## Left out

- `smtp.SendMail` is network I/O. It is the parameter `sendMail`, which gets the whole hand-off and answers whether the server accepted; `smtp.PlainAuth` is only recorded in the hand-off.
- `gohelpers.LogError` logging is left out.
- `os.ReadFile` is filesystem I/O. Its outcome is the input `ReadResult`.
- The boundaries are inputs. `multipart.NewWriter` draws them at random and nothing checks them. The layout lemmas assume that neither occurs as a delimiter inside the parts it separates.
- Header injection: Go does not check header values for line breaks. The layout lemmas assume there are none, through `HeaderSafe` and `AttachmentSafe`.
- `mime.TypeByExtension` is a map from extension to type. It does not model Go's built-in table, the system MIME files or the lower-case retry.
- The error branches after `CreatePart`, `Write` and `Close` are not modelled: every writer writes into a `bytes.Buffer`, which never fails.
- `textproto.MIMEHeader` is not modelled, and neither is its key canonicalisation. All keys here are already canonical and set once. The fields of each part are given in the order `CreatePart` writes them, sorted by name.
- Lines are not wrapped, as in the code. There are no 76-character base64 lines (RFC 2045 section 6.8) and no 75-character encoded-word limit (RFC 2047 section 2).
- The global `emailConfig` and `SetConfig` are replaced by an immutable `EmailConfig` parameter. Concurrency is not modelled.
- `filepath.Base` and `filepath.Ext` use the Unix separator '/' only, with no volume names.
- Base64.Decode: it is not Go's decoder. It accepts only the padded, unbroken, canonical encoding, and serves as the partner of `Encode`.
- SmtpEmail.EmailSender: Go returns only the boolean. The model also returns what was handed to the transport, so that its envelope can be stated.
