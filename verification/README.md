# Document Detective: a Dafny model of the sorting pipeline

Document Detective sorts uploaded PDFs and images into six document
categories: Aadhar, 10th, 12th, Semester Marksheets, NPTEL and
Certificates. It reads each file's text, with OCR for images and a
character filter for PDFs. It scores every category by the share of its
keywords found in the text and keeps the best category, or
"Unclassified". The batch loop processes the files one after another
and hands the processed records to the page. The results panel then
groups the records by category, counts them and previews their text.

The model has one module per part of the program:

- `Text`: `startsWith`/`includes`, ASCII lower-casing, and decimal
  numerals.
- `Ratios`: confidences as exact fractions, compared by
  cross-multiplication.
- `Documents`: the `File` and `ProcessedDocument` records.
- `Classifier`: the taxonomy, `classifyDocument`, the PDF text filter,
  and `processDocument` with its MIME-type dispatch and catch-all
  fallback.
- `ClassifierExamples`: concrete texts and families of texts classified
  end to end.
- `Pipeline`: the `processFiles` loop over heap objects. It keeps the
  object sharing between the batch and its per-iteration copies exactly
  as written. Next to it is the loop with the results written back.
- `Results`: the `reduce` grouping, the summary counts, the category
  overview card, the text preview and the badge colours.
- `Upload`: the drop filter and file removal.
- `Page`: the page state, its four handlers and the panel shown.

The OCR engine is a parameter. `ocr: File -> OcrOutcome` gives, for each
file, the recognised text or an engine failure. The file text that
`FileReader.readAsText` produces is the `contents` field of `File`. The
processing step the loop calls is a parameter `step: File -> Attempt`,
so the loop's catch branch is modelled too. `RealStep` is the actual
`processDocument`, and it never throws.

## Model

| member | source | states |
|---|---|---|
| Text.ContainsIff | src/utils/ocrUtils.ts:91 | `includes` holds exactly when the pattern occurs at some position of the text |
| Text.Contains | src/utils/ocrUtils.ts:91 | `includes` tries every start position from the left and can only hold when the pattern is no longer than the text; Text.ContainsIff characterises it as an occurrence at some position |
| Text.Lower | src/utils/ocrUtils.ts:63 | lower-casing keeps the length and maps each character on its own: A-Z to a-z, every other character unchanged |
| Text.LowerFixedIff | src/utils/ocrUtils.ts:63 | lower-casing leaves a string unchanged exactly when it has no A-Z; its result never has A-Z, so lower-casing twice changes nothing |
| Text.DecimalRoundTrip | src/components/DocumentProcessor.tsx:26 | the numeral written for an index in a document id reads back as that index |
| Text.Decimal | src/components/DocumentProcessor.tsx:26 | the numeral written for `${index}` is non-empty and all decimal digits, and is a single digit exactly when the index is below 10 |
| Classifier.MatchCountIsHitPositions | src/utils/ocrUtils.ts:87-94 | the match count is the number of distinct keyword positions whose lower-cased keyword occurs in the text, so a keyword counts once however often it occurs |
| Classifier.MatchCountZeroIff | src/utils/ocrUtils.ts:87-94 | the match count is zero exactly when no keyword occurs in the text |
| Classifier.MatchCount | src/utils/ocrUtils.ts:87-94 | the number of matching keywords never exceeds the number of keywords; Classifier.MatchCountIsHitPositions identifies it as the number of keyword positions hit |
| Classifier.Score | src/utils/ocrUtils.ts:96 | matches / keywords.length is a quotient in [0, 1] with a positive denominator whenever the category has keywords; with no keywords it is the NaN of 0/0 |
| Classifier.Scan | src/utils/ocrUtils.ts:86-101 | the rest of the loop only ever settles on a taxonomy entry with a positive score, so a zero score never replaces the initial best match |
| Classifier.Winner | src/utils/ocrUtils.ts:84-101 | the loop ends on its initial best match or on a category with a positive score; Classifier.WinnerIsFirstBest says which |
| Classifier.WinnerIsFirstBest | src/utils/ocrUtils.ts:84-101 | the loop keeps its initial best match exactly when every category scores 0; it ends on category k exactly when k has the highest score and every earlier category scores strictly less, so ties go to the earliest category |
| Classifier.FirstBestUnique | src/utils/ocrUtils.ts:98-100 | at most one category is the earliest of the highest-scoring ones |
| Classifier.SoleMatchIsFirstBest | src/utils/ocrUtils.ts:98-100 | a category that is the only one with a match wins |
| Classifier.Classify | src/utils/ocrUtils.ts:83-109 | the result is ("Unclassified", 0) or a taxonomy name with a confidence of at least 0.1; the confidence is in [0, 1], and it is 0 exactly when the result is ("Unclassified", 0) |
| Classifier.ClassifyIsFirstBest | src/utils/ocrUtils.ts:83-109 | the result is ("Unclassified", 0) exactly when every category scores below 0.1; otherwise it is the winning category with its score |
| Classifier.ClassifyDocument | src/utils/ocrUtils.ts:83-109 | with the stock categories the confidence is 0 exactly when the result is ("Unclassified", 0); Classifier.StockCategoryIsKnown and Classifier.StockOverrideOnlyMapsZero state the rest |
| Classifier.StockShape | src/utils/ocrUtils.ts:5-12 | each stock category has between 4 and 7 keywords |
| Classifier.StockKeywordsAreLowerCase | src/utils/ocrUtils.ts:5-12 | lower-casing leaves every stock keyword unchanged |
| Classifier.StockOverrideOnlyMapsZero | src/utils/ocrUtils.ts:104-106 | with the stock taxonomy no positive score is below 0.1; the result is ("Unclassified", 0) exactly when nothing matches, and otherwise it is the winning category with its score unchanged |
| Classifier.StockCategoryIsKnown | src/utils/ocrUtils.ts:84-106 | the result category is one of the six stock names or "Unclassified"; it is "Unclassified" exactly when the confidence is 0 |
| Classifier.UpperCaseTextIsUnclassified | src/utils/ocrUtils.ts:91 | only the keyword is lower-cased: a text made of capitals and spaces matches nothing and is unclassified |
| Classifier.Sanitize | src/utils/ocrUtils.ts:76 | the filter keeps the length, keeps every character in U+0020..U+007E or from U+00A0 up, and turns every other character into a space |
| Classifier.SanitizeIdempotent | src/utils/ocrUtils.ts:76 | every filtered character is a kept one, so filtering twice changes nothing |
| Classifier.ExtractPdfText | src/utils/ocrUtils.ts:76 | the PDF text keeps the decoded text's length, and every character is a kept one and not A-Z |
| Classifier.ExtractPdfTextIdempotent | src/utils/ocrUtils.ts:76 | extracting the extracted PDF text again gives it back unchanged |
| Classifier.ExtractorFor | src/utils/ocrUtils.ts:26-33 | exactly "application/pdf" takes the PDF path; a type starting with "image/" takes the OCR path exactly when it is not "application/pdf" |
| Classifier.Classified | src/utils/ocrUtils.ts:37-43 | the returned record carries the text and the classification of exactly that text |
| Classifier.ProcessDocument | src/utils/ocrUtils.ts:20-52 | an OCR failure gives ("Unclassified", 0, "Error processing document") without classifying; an unsupported type gives ("Unclassified", 0, ""); otherwise the PDF or lower-cased OCR text is classified; the confidence is always in [0, 1] |
| Classifier.EmptyTextIsUnclassified | src/utils/ocrUtils.ts:24-37 | the empty text is ("Unclassified", 0) |
| ClassifierExamples.AadharLikeIsAadhar | src/utils/ocrUtils.ts:83-109 | any text over the letters of "aadhar card uidai" that contains "aadhar" and "uidai" is Aadhar with confidence 2/5 |
| ClassifierExamples.AadharSampleIsAadhar | src/utils/ocrUtils.ts:83-109 | "aadhar card uidai" is Aadhar with confidence 2/5 |
| ClassifierExamples.SentenceLikeIsAadhar | src/utils/ocrUtils.ts:83-109 | a text over the sentence's letters that contains "aadhar", "uidai" and "government of india" but not "govt of india", and none of the other categories' keywords spelt with those letters, is Aadhar with confidence 3/5 |
| ClassifierExamples.SentenceSampleIsAadhar | src/utils/ocrUtils.ts:83-109 | "aadhar card issued by uidai government of india" after any opening drawn from the sentence's letters other than 'c', 'v' and 'm' is Aadhar with confidence 3/5 |
| ClassifierExamples.ThisIsAnAadharCard | src/utils/ocrUtils.ts:83-109 | "this is an aadhar card issued by uidai government of india" is Aadhar with confidence 3/5 |
| ClassifierExamples.HelloLikeIsUnclassified | src/utils/ocrUtils.ts:83-109 | every text over the letters of "hello world" is ("Unclassified", 0) |
| ClassifierExamples.HelloWorldIsUnclassified | src/utils/ocrUtils.ts:83-109 | "hello world" is ("Unclassified", 0) |
| Pipeline.DocIdInjective | src/components/DocumentProcessor.tsx:26 | two positions get the same id exactly when they are equal |
| Pipeline.InitialBatchShape | src/components/DocumentProcessor.tsx:25-33 | record i of the initial batch has id "doc_" followed by a numeral that reads back as i, is pending and unclassified with confidence 0 and no text, and keeps file i and its name; ids are pairwise distinct |
| Pipeline.InitialBatch | src/components/DocumentProcessor.tsx:25-33 | the `files.map` gives one record per file, record i being the pending record built from file i and its index |
| Pipeline.NewBatch | src/components/DocumentProcessor.tsx:25-33 | one new, distinct record object per file, holding the initial batch |
| Pipeline.ProcessFiles | src/components/DocumentProcessor.tsx:23-62 | the step is called once per file in file order; the published batches are the initial one and, per file, the one at its start and the one at its end; progress after file i is (i + 1)/n * 100; the objects handed over hold the as-written batch |
| Pipeline.RunLoop | src/components/DocumentProcessor.tsx:37-59 | the loop passes the files to the step one at a time in file order, publishes each file's start and end batches, reports (i + 1)/n * 100 after file i, and leaves the shared records as they are after the last file |
| Pipeline.ProcessOne | src/components/DocumentProcessor.tsx:38-57 | one iteration passes its own file to the step, publishes the start and end batches of that file and advances only the shared record of that file |
| Pipeline.AsWrittenOnlyStatusChanges | src/components/DocumentProcessor.tsx:39-61 | the handed-over batch has the files' length and order and differs from the initial batch only in the status; that status is error exactly when the step threw, and never completed |
| Pipeline.AsWrittenBatch | src/components/DocumentProcessor.tsx:61 | the batch handed to the page has one record per file; Pipeline.AsWrittenOnlyStatusChanges states its contents |
| Pipeline.SharedStatusAdvances | src/components/DocumentProcessor.tsx:40-54 | a shared record's status only moves forward (pending, processing, then possibly error) and is never completed |
| Pipeline.SharedAfter | src/components/DocumentProcessor.tsx:39-54 | the shared records keep one record per file after every iteration; Pipeline.SharedStatusAdvances states how their status moves |
| Pipeline.StartSnapshotShape | src/components/DocumentProcessor.tsx:39-41 | the batch published when file i starts shows the shared records before i, the initial record of file i with status processing, and pending records after i |
| Pipeline.EndSnapshotShape | src/components/DocumentProcessor.tsx:39-57 | the batch published after file i shows the shared records before i and pending records after i; entry i is the initial record with the result's category, confidence and text and status completed when the step resolved, and the initial record with status error when it threw |
| Pipeline.EndSnapshot | src/components/DocumentProcessor.tsx:57 | the batch published when a file is done has one record per file; Pipeline.EndSnapshotShape states its contents |
| Pipeline.CompletedRecordIsLost | src/components/DocumentProcessor.tsx:39-61 | a file whose step resolved is shown completed with its category once, then shown as processing with the initial fields in the next start batch and in the handed-over batch |
| Pipeline.RealStepHandsOverNothing | src/components/DocumentProcessor.tsx:43-61 | with the real processing step every handed-over record is processing, "Unclassified", confidence 0 and no text |
| Pipeline.ProgressIncreases | src/components/DocumentProcessor.tsx:58 | progress is positive and at most 100, strictly increases from file to file, and is 100 after the last file |
| Pipeline.FixedBatchDelivers | src/components/DocumentProcessor.tsx:45-55 | in the corrected batch each record is completed with its file's result, or error when the step threw, and keeps its id, file and name |
| Pipeline.FixedRealStepClassifies | src/components/DocumentProcessor.tsx:43-51 | with the real step every corrected record holds the classification of its file |
| Pipeline.AsWrittenDiffersFromFixed | src/components/DocumentProcessor.tsx:39-61 | the as-written and the corrected batch agree on a record exactly when its step threw |
| Pipeline.ProcessFilesFixed | src/components/DocumentProcessor.tsx:23-62 | the corrected loop hands over every result and publishes, per file, the batch at its start and at its end |
| Results.AddToGroupsAbsent | src/components/ResultsPanel.tsx:24-27 | a document of a category with no group yet starts a new last group of its own |
| Results.AddToGroupsPresent | src/components/ResultsPanel.tsx:27 | a document is appended to the group of its category; every other group stays as it was |
| Results.AddToGroups | src/components/ResultsPanel.tsx:24-28 | one reduce step adds at most one group and removes none |
| Results.GroupByCategory | src/components/ResultsPanel.tsx:23-29 | the reduce makes no more groups than documents, and none exactly when the batch is empty; Results.GroupByIsReference states the groups |
| Results.GroupByIsReference | src/components/ResultsPanel.tsx:23-29 | the reduce gives, for each category in order of first occurrence, its documents in batch order |
| Results.GroupsPartitionBatch | src/components/ResultsPanel.tsx:23-31 | group keys are distinct, come in order of first occurrence, and are exactly the batch's categories; no group is empty; a document is in a group exactly when the group's key is its category, in batch order |
| Results.GroupKeysAreCategories | src/components/ResultsPanel.tsx:31 | a category is a key exactly when some document has it |
| Results.GroupContents | src/components/ResultsPanel.tsx:23-29 | each group holds exactly the documents of its category, in batch order, and at least one |
| Results.SingleCategoryGroups | src/components/ResultsPanel.tsx:23-31 | a non-empty batch with a single category has that category as its only key |
| Results.GroupSizesSumToTotal | src/components/ResultsPanel.tsx:23-32 | the group sizes add up to the number of documents |
| Results.SuccessfulCount | src/components/ResultsPanel.tsx:33 | the count of completed documents is at most the total; it equals the total exactly when all are completed, and is 0 exactly when none is |
| Results.ShownNames | src/components/ResultsPanel.tsx:122-126 | the card lists the names of the first min(3, n) documents of the group |
| Results.OverviewAccountsForAll | src/components/ResultsPanel.tsx:122-131 | the "+N more..." note appears exactly when the group has more than 3 documents, and the names listed plus the number announced is the group size |
| Results.NoteAnnounces | src/components/ResultsPanel.tsx:129 | a note written for n hidden documents announces n |
| Results.MoreNote | src/components/ResultsPanel.tsx:127-131 | the note is absent exactly when the group has at most 3 documents, and otherwise announces the number of documents beyond the first 3 |
| Results.PreviewShape | src/components/ResultsPanel.tsx:214-215 | a text of at most 500 characters is shown whole; a longer one is shown as its first 500 characters followed by "..." |
| Results.Preview | src/components/ResultsPanel.tsx:214-215 | the preview is at most 503 characters long; Results.PreviewShape states its contents |
| Results.Lookup | src/components/ResultsPanel.tsx:53 | the lookup gives the colour of the first entry with that key, and the default when no entry has it |
| Results.CategoryColorSpec | src/components/ResultsPanel.tsx:43-54 | each of the seven listed names gets its own class; every other string gets the gray default |
| Upload.SupportedIffExtractor | src/components/FileUpload.tsx:22-26 | the drop filter keeps exactly the types that processing has an extractor for |
| Upload.ValidFiles | src/components/FileUpload.tsx:22-26 | a dropped file is kept exactly when its type is "application/pdf" or starts with "image/" |
| Upload.ValidFilesAppend | src/components/FileUpload.tsx:22 | filtering distributes over concatenation, so kept files keep their relative order |
| Upload.ValidFilesCounts | src/components/FileUpload.tsx:22-26 | a supported file is kept as often as it was dropped; other files are not kept at all |
| Upload.OnDrop | src/components/FileUpload.tsx:28 | the new selection starts with the old selection unchanged, followed by the kept dropped files, and holds exactly the files of both together |
| Upload.OnDropCounts | src/components/FileUpload.tsx:22-28 | after a drop each file occurs as often as it was selected, plus as often as it was dropped when its type is supported |
| Upload.RemoveFileSpec | src/components/FileUpload.tsx:40-43 | removing at a valid index drops exactly that file, keeps the others in order and shortens the selection by one; any other index changes nothing |
| Upload.RemoveFile | src/components/FileUpload.tsx:40-43 | the selection shrinks by one exactly when the index is in range, and never gains a file it did not have |
| Page.Visible | src/pages/Index.tsx:77-98 | the panel on screen is the upload, processor or results panel exactly when that panel's render condition holds |
| Page.ExactlyOnePanel | src/pages/Index.tsx:77-98 | in every state exactly one render condition holds |
| Page.Start | src/pages/Index.tsx:20-22 | the `useState` initial values have no files and meet the upload panel's render condition |
| Page.SelectFiles | src/pages/Index.tsx:25-26 | selecting replaces the files and leaves the processed batch and the processing flag alone |
| Page.StartProcessing | src/pages/Index.tsx:42-52 | starting with no files changes nothing; with files it sets processing and keeps the rest |
| Page.CompleteProcessing | src/pages/Index.tsx:33-35 | completion stores the handed-over batch, clears processing and keeps the files |
| Page.Reset | src/pages/Index.tsx:54-58 | clearing the files, the processed documents and the processing flag gives exactly the initial state of lines 20-22, whatever the state was |
| Page.TransitionsShowPanels | src/pages/Index.tsx:25-98 | selecting keeps the panel; starting with files shows the processor; completing shows the results exactly when the batch is non-empty, and the upload panel otherwise; reset shows the upload panel |
| Page.AsWrittenSession | src/pages/Index.tsx:33-98 | dropping a supported file, starting and completing with the as-written loop shows the results panel with no successful document and "Unclassified" as the only group |
| Page.FixedSession | src/pages/Index.tsx:33-98 | the same session with the corrected loop shows the results panel with every document successful |

## Left out

- The Tesseract OCR call is a parameter that either yields text or fails; its recognition is not modelled.
- `FileReader` decoding of bytes into text is not modelled; `File.contents` is the decoded text. A read error, which would leave the PDF promise unresolved forever, is not modelled.
- `src/utils/downloadUtils.ts` and the download button are not part of this model: they are a wrapper over JSZip and DOM download links.
- `formatFileSize` and the `Math.round(confidence * 100)` displays are left out because they are floating-point formatting. The progress value is kept as an exact fraction.
- React rendering, `useEffect` re-run semantics, `currentIndex`, status icons, the selected-document dialog, toasts, console logging, react-dropzone and `Header.tsx` are left out as UI plumbing. The state setters of the loop are modelled as the sequence of batches they publish.
- The processing step and the OCR engine are functions of the `File` value, so two equal files in one selection get the same outcome. A real engine could fail on one call and succeed on the next; every stated property is per position and does not rely on this.
- Each published batch is recorded as its contents at the moment it is published. Later iterations may still mutate record objects that an earlier batch shares; that is not tracked.
- Text.Lower: `toLowerCase` is modelled for ASCII only, as identity outside A-Z; full Unicode case mapping is left out.
- Text.LowerFixedIff: `toLowerCase` is modelled for ASCII only, as identity outside A-Z. Full Unicode case mapping is left out; no stock keyword has a letter it would change.
- Results.PreviewShape: lengths count Unicode scalar values, whereas JavaScript counts UTF-16 code units; the two differ only for characters above U+FFFF.
- Classifier.ExtractPdfText: the PDF text keeps the decoded text's length only because lower-casing is modelled for ASCII; in JavaScript a character such as U+0130 lower-cases to two code units and lengthens the text.
- Classifier.Sanitize: the character filter is stated on Unicode scalar values. In JavaScript a character above U+FFFF is a surrogate pair whose two halves both pass the filter, which agrees.
- Classifier.WinnerIsFirstBest: requires every category to have at least one keyword (the stock taxonomy does, by Classifier.StockShape). With an empty keyword list JavaScript computes 0/0 = NaN, which the model represents as a zero denominator that never compares greater.
- Results.GroupsPartitionBatch: JavaScript object keys are enumerated in insertion order only when no key is an integer-like string, and a key naming an `Object.prototype` property (such as "constructor") would find a value already there. No category name is either kind of key, and the model does not cover them.
- Results.CategoryColorSpec: a name of an `Object.prototype` property would return that property instead of the gray default; the model returns the default.

## Findings

| source | as written | input that shows it | evidently intended | confidence | as-written member | corrected member |
|---|---|---|---|---|---|---|
| src/components/DocumentProcessor.tsx:39-61 | `[...documents]` copies the array but shares the record objects. Line 40 marks the shared record as processing, while line 45 stores the completed record only in the copy. Line 61 then hands over `documents`, whose records never receive a result. | one file of type "application/pdf": the handed-over record has status processing, category "Unclassified", confidence 0 and no text, so the results panel counts no successful document | the handed-over batch holds every file's result, completed, or error when processing threw | not executed | Pipeline.CompletedRecordIsLost | Pipeline.FixedBatchDelivers |
