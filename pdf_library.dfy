/**
 * The PDF library as the tool uses it: parse a file, ask whether it is
 * encrypted, try a password, clone everything but the metadata. The library's
 * own parsing and serialisation are not modelled; a document is reduced to
 * the parts the tool reads or changes.
 */
module PdfLibrary {

  /**
   * `encrypted`: the reader reports the file as encrypted.
   * `passwords`: the passwords the library's `decrypt` accepts for it.
   * `info`, `xmp`: whether a document-information dictionary and an XMP
   * metadata stream are present. `pages`: everything else in the object graph.
   */
  datatype Document = Document(
    encrypted: bool,
    passwords: set<string>,
    info: bool,
    xmp: bool,
    pages: seq<string>)

  /** `reader.decrypt(password)`: 0 when the password opens nothing. */
  function Decrypt(doc: Document, password: string): nat
  {
    if password in doc.passwords then 1 else 0
  }

  /**
   * The document `writer.write` serialises after `clone_document_from_reader`
   * and clearing `xmp_metadata` and `_info`: the same pages, no metadata, and
   * no encryption, since the writer is never asked to encrypt.
   */
  function Stripped(doc: Document): (d: Document)
    ensures !d.info && !d.xmp && !d.encrypted
    ensures d.pages == doc.pages
  {
    Document(false, {}, false, false, doc.pages)
  }

  /** Stripping an already stripped document changes nothing. */
  lemma StrippedIdempotent(doc: Document)
    ensures Stripped(Stripped(doc)) == Stripped(doc)
  {
  }
}
