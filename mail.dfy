/**
 * The structured mail object that the external MIME parser (mailparser's
 * `simpleParser`) produces, reduced to the parts the worker reads, and the
 * attachment record shared by both attachment sources.
 */
module Mail {
  import opened Wrappers
  import opened Strings

  /** A header value as the parser delivers it. */
  datatype HeaderValue =
    | Text(text: string)
    | TextList(items: seq<string>)
    | Structured(value: string, params: map<string, string>)

  /** Header names are the parser's lower-case keys. */
  type Headers = map<string, HeaderValue>

  datatype ParsedMail = ParsedMail(
    headers: Headers,
    messageId: Option<string>,
    subject: Option<string>,
    from: Option<string>,
    date: Option<string>,
    text: Option<string>)

  /**
   * The MIME parser. It is a library outside this model, so every operation
   * that calls it takes it as a parameter.
   */
  type MimeParser = seq<byte> -> ParsedMail

  /** An attachment record; `file` stands for the `File` object, as its bytes. */
  datatype Attachment = Attachment(
    fileName: string,
    file: Option<seq<byte>>,
    size: nat,
    checksum: string,
    contentType: string)
}
