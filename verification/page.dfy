/** The index page: it holds the selected files, the processed batch and
    whether processing is running, changes them through four handlers, and
    shows exactly one of the upload, processor and results panels. */
module Page {
  import opened Ratios
  import opened Documents
  import opened Classifier
  import opened Upload
  import opened Pipeline
  import opened Results

  datatype PageState = PageState(files: seq<File>, processed: seq<DocRecord>, isProcessing: bool)

  /** The `useState` initial values: no files, no batch, not processing.
      The page opens on the upload panel with nothing selected. */
  function Start(): (s: PageState)
    ensures ShowsUpload(s) && s.files == []
  {
    PageState([], [], false)
  }

  datatype Panel = UploadPanel | ProcessorPanel | ResultsPanel

  /** The render conditions of the three panels. */
  predicate ShowsUpload(s: PageState) {
    !s.isProcessing && |s.processed| == 0
  }

  predicate ShowsProcessor(s: PageState) {
    s.isProcessing
  }

  predicate ShowsResults(s: PageState) {
    |s.processed| > 0 && !s.isProcessing
  }

  /** The one panel on screen. */
  function Visible(s: PageState): (p: Panel)
    ensures p == UploadPanel <==> ShowsUpload(s)
    ensures p == ProcessorPanel <==> ShowsProcessor(s)
    ensures p == ResultsPanel <==> ShowsResults(s)
  {
    if s.isProcessing then ProcessorPanel
    else if |s.processed| == 0 then UploadPanel
    else ResultsPanel
  }

  /** In every state exactly one of the three render conditions holds. */
  lemma ExactlyOnePanel(s: PageState)
    ensures ShowsUpload(s) || ShowsProcessor(s) || ShowsResults(s)
    ensures !(ShowsUpload(s) && ShowsProcessor(s))
    ensures !(ShowsUpload(s) && ShowsResults(s))
    ensures !(ShowsProcessor(s) && ShowsResults(s))
  {
  }

  /** The new selection replaces the files; nothing else changes. */
  function SelectFiles(s: PageState, selected: seq<File>): (t: PageState)
    ensures t.files == selected
    ensures t.processed == s.processed && t.isProcessing == s.isProcessing
  {
    s.(files := selected)
  }

  /** Starting with no files changes nothing; otherwise processing starts. */
  function StartProcessing(s: PageState): (t: PageState)
    ensures |s.files| == 0 ==> t == s
    ensures |s.files| > 0 ==> t.isProcessing && t.files == s.files && t.processed == s.processed
  {
    if |s.files| == 0 then s else s.(isProcessing := true)
  }

  /** The batch handed back by the processor is stored and processing
      ends. */
  function CompleteProcessing(s: PageState, documents: seq<DocRecord>): (t: PageState)
    ensures t.processed == documents && !t.isProcessing && t.files == s.files
  {
    s.(processed := documents, isProcessing := false)
  }

  /** Clearing the three fields brings the page back to its opening
      state. */
  function Reset(s: PageState): (t: PageState)
    ensures t == Start()
  {
    s.(files := [], processed := [], isProcessing := false)
  }

  /** Starting with files shows the processor; completing with a non-empty
      batch shows the results; resetting shows the upload panel. */
  lemma TransitionsShowPanels(s: PageState, selected: seq<File>, documents: seq<DocRecord>)
    ensures Visible(SelectFiles(s, selected)) == Visible(s)
    ensures |s.files| > 0 ==> Visible(StartProcessing(s)) == ProcessorPanel
    ensures |s.files| == 0 ==> Visible(StartProcessing(s)) == Visible(s)
    ensures |documents| > 0 <==> Visible(CompleteProcessing(s, documents)) == ResultsPanel
    ensures |documents| == 0 <==> Visible(CompleteProcessing(s, documents)) == UploadPanel
    ensures Visible(Reset(s)) == UploadPanel
  {
  }

  /** A whole session: drop files on the empty page, start, and let the
      as-written processor finish with the real processing step. The
      results panel is shown, but it counts no successful document and
      lists every file under "Unclassified" alone. */
  lemma AsWrittenSession(dropped: seq<File>, ocr: File -> OcrOutcome)
    requires exists f :: f in dropped && IsSupportedType(f.mimeType)
    ensures var files := OnDrop(Start().files, dropped);
            var s := CompleteProcessing(StartProcessing(SelectFiles(Start(), files)),
                                        AsWrittenBatch(files, RealStep(ocr)));
            && Visible(s) == ResultsPanel
            && SuccessfulCount(s.processed) == 0
            && Keys(GroupByCategory(s.processed)) == [UnclassifiedName]
  {
    var files := OnDrop(Start().files, dropped);
    assert files == ValidFiles(dropped);
    var f :| f in dropped && IsSupportedType(f.mimeType);
    assert f in files;
    var batch := AsWrittenBatch(files, RealStep(ocr));
    RealStepHandsOverNothing(files, ocr);
    SingleCategoryGroups(batch, UnclassifiedName);
  }

  /** The same session with the corrected processor: every document is
      counted as successful. */
  lemma FixedSession(dropped: seq<File>, ocr: File -> OcrOutcome)
    requires exists f :: f in dropped && IsSupportedType(f.mimeType)
    ensures var files := OnDrop(Start().files, dropped);
            var s := CompleteProcessing(StartProcessing(SelectFiles(Start(), files)),
                                        FixedBatch(files, RealStep(ocr)));
            && Visible(s) == ResultsPanel
            && SuccessfulCount(s.processed) == |files|
  {
    var files := OnDrop(Start().files, dropped);
    assert files == ValidFiles(dropped);
    var f :| f in dropped && IsSupportedType(f.mimeType);
    assert f in files;
    FixedRealStepClassifies(files, ocr);
  }
}
