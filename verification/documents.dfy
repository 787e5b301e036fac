/** The document record (`models/Document.js`) and the ownership lookup every
    document-scoped route performs first. */
module Documents {
  import opened Common

  /** `summary` and `extractedText` are `null` (`None`) until set; dates are milliseconds. */
  datatype Document = Document(
    userId: Id,
    filename: string,
    originalName: string,
    fileSize: int,
    filePath: string,
    uploadDate: int,
    summary: Option<string>,
    extractedText: Option<string>)

  /** `new Document({...})`: the required fields as given, both text fields `null`,
      the upload date the creation time. */
  function NewDocument(userId: Id, filename: string, originalName: string, fileSize: int,
                       filePath: string, now: int): (d: Document)
    ensures d.userId == userId && d.filename == filename && d.originalName == originalName
    ensures d.fileSize == fileSize && d.filePath == filePath
    ensures d.uploadDate == now
    ensures !HasSummary(d) && !HasText(d)
  {
    Document(userId, filename, originalName, fileSize, filePath, now, None, None)
  }

  /** `!!document.extractedText` */
  predicate HasText(d: Document) {
    d.extractedText.Some? && d.extractedText.value != []
  }

  /** `!!document.summary`: the summary cache is hit. */
  predicate HasSummary(d: Document) {
    d.summary.Some? && d.summary.value != []
  }

  /** `Document.findOne({ _id, userId })` */
  function FindOwned(docs: map<Id, Document>, id: Id, user: Id): (r: Option<Document>)
    ensures r.Some? <==> id in docs && docs[id].userId == user
    ensures r.Some? ==> r.value == docs[id]
  {
    if id in docs && docs[id].userId == user then Some(docs[id]) else None
  }
}
