/** The records the pages and components pass around: the browser `File`
    as far as the pipeline looks at it, and the `ProcessedDocument` record
    as a value. */
module Documents {
  import opened Ratios

  /** A selected file: its name, MIME type, size in bytes, and the text that
      `FileReader.readAsText` decodes from its bytes (the decoding itself is
      not modelled). */
  datatype File = File(name: string, mimeType: string, size: nat, contents: string)

  datatype Status = Pending | Processing | Completed | Error

  /** One `ProcessedDocument`: a stable id, the source file, its display
      name, and the classification fields that start out as
      ("Unclassified", 0, "") with status Pending. */
  datatype DocRecord = DocRecord(
    id: string,
    file: File,
    originalName: string,
    category: string,
    confidence: Ratio,
    ocrText: string,
    status: Status)
}
