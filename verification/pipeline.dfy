/** The batch loop of the document processor: build one pending record per
    file, then process the files one after another, publishing a snapshot
    of the batch before and after each file and finally handing the batch
    to the page.

    The records are heap objects, as in the component. Each iteration
    copies the array of records, which shares the record objects with the
    original batch: marking a record as processing changes the shared
    object, while the completed record that replaces it exists only in the
    copy. The batch handed to the page therefore never receives a
    classification. `ProcessFiles` reproduces this; `ProcessFilesFixed`
    is the loop with the completed record written back. */
module Pipeline {
  import opened Text
  import opened Ratios
  import opened Documents
  import opened Classifier

  /** A mutable `ProcessedDocument` object. */
  class Doc {
    const id: string
    const file: File
    const originalName: string
    var category: string
    var confidence: Ratio
    var ocrText: string
    var status: Status

    constructor (r: DocRecord)
      ensures View() == r
    {
      id := r.id;
      file := r.file;
      originalName := r.originalName;
      category := r.category;
      confidence := r.confidence;
      ocrText := r.ocrText;
      status := r.status;
    }

    /** The record this object currently holds. */
    function View(): DocRecord
      reads this
    {
      DocRecord(id, file, originalName, category, confidence, ocrText, status)
    }
  }

  /** The records the objects of `ds` currently hold, in order. */
  function Views(ds: seq<Doc>): (rs: seq<DocRecord>)
    reads set d | d in ds
    ensures |rs| == |ds|
    ensures forall j :: 0 <= j < |ds| ==> rs[j] == ds[j].View()
  {
    if ds == [] then [] else Views(ds[..|ds| - 1]) + [ds[|ds| - 1].View()]
  }

  /** How one call of the document processing step ends: its promise
      resolves with a result, or it throws. */
  datatype Attempt = Resolved(result: ProcessingResult) | Threw

  /** The processing step as the component sees it: the real step, fed by
      an OCR engine whose outcome for each file is given, always resolves. */
  function RealStep(ocr: File -> OcrOutcome): File -> Attempt {
    f => Resolved(ProcessDocument(f, ocr(f)))
  }

  /** `doc_${index}` */
  function DocId(i: nat): string {
    "doc_" + Decimal(i)
  }

  /** Distinct positions get distinct ids. */
  lemma DocIdInjective(i: nat, j: nat)
    ensures DocId(i) == DocId(j) <==> i == j
  {
    if DocId(i) == DocId(j) {
      assert Decimal(i) == DocId(i)[4..];
      assert Decimal(j) == DocId(j)[4..];
      DecimalInjective(i, j);
    }
  }

  /** Entry `i` of the initial batch. */
  function InitialRecord(files: seq<File>, i: nat): (r: DocRecord)
    requires i < |files|
  {
    DocRecord(DocId(i), files[i], files[i].name, UnclassifiedName, Zero, "", Pending)
  }

  function InitialBatch(files: seq<File>): (b: seq<DocRecord>)
    ensures |b| == |files|
    ensures forall i :: 0 <= i < |files| ==> b[i] == InitialRecord(files, i)
  {
    seq(|files|, i requires 0 <= i < |files| => InitialRecord(files, i))
  }

  /** Every record of the initial batch is pending and unclassified, keeps
      its file's name, and the ids are pairwise distinct. */
  lemma InitialBatchShape(files: seq<File>)
    ensures forall i :: 0 <= i < |files| ==>
              var r := InitialBatch(files)[i];
              && r.file == files[i] && r.originalName == files[i].name
              && r.status == Pending && r.category == UnclassifiedName
              && r.confidence == Zero && r.ocrText == ""
    ensures forall i :: 0 <= i < |files| ==>
              InitialBatch(files)[i].id[..4] == "doc_" && ParseDecimal(InitialBatch(files)[i].id[4..]) == i
    ensures forall i, j :: 0 <= i < |files| && 0 <= j < |files| && i != j ==>
              InitialBatch(files)[i].id != InitialBatch(files)[j].id
  {
    forall i | 0 <= i < |files|
      ensures InitialBatch(files)[i].id[..4] == "doc_" && ParseDecimal(InitialBatch(files)[i].id[4..]) == i
    {
      assert InitialBatch(files)[i].id[4..] == Decimal(i);
      DecimalRoundTrip(i);
    }
    forall i, j | 0 <= i < |files| && 0 <= j < |files| && i != j
      ensures InitialBatch(files)[i].id != InitialBatch(files)[j].id
    {
      DocIdInjective(i, j);
    }
  }

  /** The shared record once its file has been processed: the loop set it
      to processing, and the catch branch set it to error; nothing else of
      it is ever written. */
  function Settled(r: DocRecord, a: Attempt): DocRecord {
    r.(status := if a.Resolved? then Processing else Error)
  }

  /** What the iteration leaves at its own position of the copy it
      publishes: a new completed record holding the result, or the shared
      record marked as error. */
  function Outcome(r: DocRecord, a: Attempt): DocRecord {
    match a
    case Resolved(res) =>
      r.(category := res.category, confidence := res.confidence, ocrText := res.ocrText, status := Completed)
    case Threw => r.(status := Error)
  }

  /** The shared records after the first `i` files. */
  function SharedAfter(files: seq<File>, step: File -> Attempt, i: nat): (b: seq<DocRecord>)
    ensures |b| == |files|
  {
    seq(|files|, j requires 0 <= j < |files| =>
      if j < i then Settled(InitialRecord(files, j), step(files[j])) else InitialRecord(files, j))
  }

  /** The batch the as-written loop hands to the page. */
  function AsWrittenBatch(files: seq<File>, step: File -> Attempt): (b: seq<DocRecord>)
    ensures |b| == |files|
  {
    SharedAfter(files, step, |files|)
  }

  /** The snapshot published when file `i` starts. */
  function StartSnapshot(files: seq<File>, step: File -> Attempt, i: nat): (b: seq<DocRecord>)
    requires i < |files|
    ensures |b| == |files|
  {
    SharedAfter(files, step, i)[i := InitialRecord(files, i).(status := Processing)]
  }

  /** The snapshot published when file `i` is done. */
  function EndSnapshot(files: seq<File>, step: File -> Attempt, i: nat): (b: seq<DocRecord>)
    requires i < |files|
    ensures |b| == |files|
  {
    SharedAfter(files, step, i)[i := Outcome(InitialRecord(files, i), step(files[i]))]
  }

  /** Progress after file `i`, in percent: (i + 1) / n * 100. */
  function ProgressAfter(n: nat, i: nat): Ratio {
    Ratio((i + 1) * 100, n)
  }

  /** The batch loop as written. It returns the record objects of the
      batch, the files passed to the processing step in call order, the
      batches published to the view (the initial one, then for each file
      one when it starts and one when it is done), and the progress after
      each file. */
  method ProcessFiles(files: seq<File>, step: File -> Attempt)
    returns (documents: seq<Doc>, calls: seq<File>, initial: seq<DocRecord>,
             starts: seq<seq<DocRecord>>, finishes: seq<seq<DocRecord>>, progress: seq<Ratio>)
    ensures calls == files
    ensures |documents| == |files|
    ensures forall i, j :: 0 <= i < j < |documents| ==> documents[i] != documents[j]
    ensures Views(documents) == AsWrittenBatch(files, step)
    ensures initial == InitialBatch(files)
    ensures |starts| == |finishes| == |progress| == |files|
    ensures forall i :: 0 <= i < |files| ==>
              starts[i] == StartSnapshot(files, step, i) &&
              finishes[i] == EndSnapshot(files, step, i) &&
              progress[i] == ProgressAfter(|files|, i)
  {
    documents := NewBatch(files);
    initial := Views(documents);
    assert forall j :: 0 <= j < |files| ==> SharedAfter(files, step, 0)[j] == initial[j];
    calls, starts, finishes, progress := RunLoop(files, step, documents);
    assert Views(documents) == AsWrittenBatch(files, step);
  }

  /** The `for` loop of `processFiles`: the files in order, each passed
      to the processing step once. */
  method RunLoop(files: seq<File>, step: File -> Attempt, documents: seq<Doc>)
    returns (calls: seq<File>, starts: seq<seq<DocRecord>>, finishes: seq<seq<DocRecord>>, progress: seq<Ratio>)
    requires |documents| == |files|
    requires forall a, b :: 0 <= a < b < |files| ==> documents[a] != documents[b]
    requires forall j :: 0 <= j < |files| ==> documents[j].View() == SharedAfter(files, step, 0)[j]
    modifies set d | d in documents
    ensures forall j :: 0 <= j < |files| ==> documents[j].View() == SharedAfter(files, step, |files|)[j]
    ensures calls == files
    ensures |progress| == |files|
    ensures forall i :: 0 <= i < |files| ==> progress[i] == ProgressAfter(|files|, i)
    ensures SnapshotsUpTo(files, step, starts, finishes, |files|)
  {
    var n := |files|;
    calls, starts, finishes, progress := [], [], [], [];
    var i := 0;
    while i < n
      invariant 0 <= i <= n
      invariant forall j :: 0 <= j < n ==> documents[j].View() == SharedAfter(files, step, i)[j]
      invariant |calls| == |progress| == i
      invariant forall c :: 0 <= c < i ==> calls[c] == files[c]
      invariant forall c :: 0 <= c < i ==> progress[c] == ProgressAfter(n, c)
      invariant SnapshotsUpTo(files, step, starts, finishes, i)
    {
      var called, start, finish := ProcessOne(files, step, documents, i);
      calls := calls + [called];
      SnapshotsExtend(files, step, starts, finishes, i, start, finish);
      starts, finishes := starts + [start], finishes + [finish];
      progress := progress + [ProgressAfter(n, i)];
      i := i + 1;
    }
    assert calls == files;
  }

  /** `starts` and `finishes` hold the batches published for the first `i`
      files. */
  predicate SnapshotsUpTo(files: seq<File>, step: File -> Attempt,
                          starts: seq<seq<DocRecord>>, finishes: seq<seq<DocRecord>>, i: nat)
  {
    && i <= |files| && |starts| == |finishes| == i
    && forall c :: 0 <= c < i ==>
         starts[c] == StartSnapshot(files, step, c) && finishes[c] == EndSnapshot(files, step, c)
  }

  lemma SnapshotsExtend(files: seq<File>, step: File -> Attempt,
                        starts: seq<seq<DocRecord>>, finishes: seq<seq<DocRecord>>, i: nat,
                        start: seq<DocRecord>, finish: seq<DocRecord>)
    requires SnapshotsUpTo(files, step, starts, finishes, i) && i < |files|
    requires start == StartSnapshot(files, step, i) && finish == EndSnapshot(files, step, i)
    ensures SnapshotsUpTo(files, step, starts + [start], finishes + [finish], i + 1)
  {
  }

  /** The `files.map` at the top of `processFiles`: one new pending
      object per file. */
  method NewBatch(files: seq<File>) returns (documents: seq<Doc>)
    ensures |documents| == |files|
    ensures forall j :: 0 <= j < |files| ==> fresh(documents[j])
    ensures forall a, b :: 0 <= a < b < |files| ==> documents[a] != documents[b]
    ensures Views(documents) == InitialBatch(files)
  {
    documents := [];
    var k := 0;
    while k < |files|
      invariant 0 <= k <= |files| && |documents| == k
      invariant forall j :: 0 <= j < k ==> fresh(documents[j])
      invariant forall a, b :: 0 <= a < b < k ==> documents[a] != documents[b]
      invariant forall j :: 0 <= j < k ==> documents[j].View() == InitialRecord(files, j)
    {
      var d := new Doc(InitialRecord(files, k));
      documents := documents + [d];
      k := k + 1;
    }
  }

  /** One iteration of the loop in `processFiles`, from copying the batch
      to publishing the copy: returns the file it passed to the processing
      step and the two batches it publishes. */
  method ProcessOne(files: seq<File>, step: File -> Attempt, documents: seq<Doc>, i: nat)
    returns (called: File, start: seq<DocRecord>, finish: seq<DocRecord>)
    requires i < |files| == |documents|
    requires forall a, b :: 0 <= a < b < |documents| ==> documents[a] != documents[b]
    requires forall j :: 0 <= j < |files| ==> documents[j].View() == SharedAfter(files, step, i)[j]
    modifies documents[i]
    ensures forall j :: 0 <= j < |files| ==> documents[j].View() == SharedAfter(files, step, i + 1)[j]
    ensures called == files[i]
    ensures start == StartSnapshot(files, step, i)
    ensures finish == EndSnapshot(files, step, i)
  {
    var updated := documents;
    updated[i].status := Processing;
    start := Views(updated);
    assert start == StartSnapshot(files, step, i);
    called := files[i];
    match step(called) {
      case Resolved(res) =>
        var r := updated[i].View();
        var completed := new Doc(r.(category := res.category, confidence := res.confidence,
                                    ocrText := res.ocrText, status := Completed));
        updated := updated[i := completed];
      case Threw =>
        updated[i].status := Error;
    }
    finish := Views(updated);
    assert finish == EndSnapshot(files, step, i);
  }

  // ---------------------------------------------------------------------
  // What the as-written loop hands over

  /** The order a record's status moves through. */
  function Rank(s: Status): nat {
    match s
    case Pending => 0
    case Processing => 1
    case Completed => 2
    case Error => 2
  }

  /** The batch handed to the page differs from the initial batch in the
      status alone: it is error when the step threw and processing
      otherwise, never completed. Ids and names never change, and the
      batch keeps the length and order of the files. */
  lemma AsWrittenOnlyStatusChanges(files: seq<File>, step: File -> Attempt)
    ensures |AsWrittenBatch(files, step)| == |files|
    ensures forall i :: 0 <= i < |files| ==>
              var r := AsWrittenBatch(files, step)[i];
              && r.(status := Pending) == InitialBatch(files)[i]
              && r.status != Completed
              && (r.status == Error <==> step(files[i]).Threw?)
  {
  }

  /** A shared record only moves forward: pending, then processing, then
      possibly error. */
  lemma SharedStatusAdvances(files: seq<File>, step: File -> Attempt, i1: nat, i2: nat, j: nat)
    requires i1 <= i2 && j < |files|
    ensures Rank(SharedAfter(files, step, i1)[j].status) <= Rank(SharedAfter(files, step, i2)[j].status)
    ensures SharedAfter(files, step, i1)[j].status != Completed
  {
  }

  /** The batch published when file `i` starts: files before `i` show the
      shared records, file `i` is processing with its initial fields, later
      files are still pending. */
  lemma StartSnapshotShape(files: seq<File>, step: File -> Attempt, i: nat)
    requires i < |files|
    ensures forall j :: 0 <= j < i ==> StartSnapshot(files, step, i)[j] == AsWrittenBatch(files, step)[j]
    ensures StartSnapshot(files, step, i)[i] == InitialBatch(files)[i].(status := Processing)
    ensures forall j :: i < j < |files| ==> StartSnapshot(files, step, i)[j] == InitialBatch(files)[j]
  {
  }

  /** The batch published when file `i` is done: files before `i` show the
      shared records, file `i` shows its outcome, later files are still
      pending. */
  lemma EndSnapshotShape(files: seq<File>, step: File -> Attempt, i: nat)
    requires i < |files|
    ensures forall j :: 0 <= j < i ==> EndSnapshot(files, step, i)[j] == AsWrittenBatch(files, step)[j]
    ensures forall j :: i < j < |files| ==> EndSnapshot(files, step, i)[j] == InitialBatch(files)[j]
    ensures EndSnapshot(files, step, i)[i].status == (if step(files[i]).Resolved? then Completed else Error)
    ensures step(files[i]).Resolved? ==>
              var res := step(files[i]).result;
              EndSnapshot(files, step, i)[i]
                == InitialBatch(files)[i].(category := res.category, confidence := res.confidence,
                                           ocrText := res.ocrText, status := Completed)
    ensures step(files[i]).Threw? ==> EndSnapshot(files, step, i)[i] == InitialBatch(files)[i].(status := Error)
  {
  }

  /** A completed record is shown once and then lost: the next published
      batch shows that file as processing again, with the initial
      classification, and so does the batch handed to the page. */
  lemma CompletedRecordIsLost(files: seq<File>, step: File -> Attempt, i: nat)
    requires i < |files| && step(files[i]).Resolved?
    ensures EndSnapshot(files, step, i)[i].status == Completed
    ensures EndSnapshot(files, step, i)[i].category == step(files[i]).result.category
    ensures i + 1 < |files| ==> StartSnapshot(files, step, i + 1)[i] == InitialBatch(files)[i].(status := Processing)
    ensures AsWrittenBatch(files, step)[i] == InitialBatch(files)[i].(status := Processing)
  {
  }

  /** With the real processing step, which never throws, every record
      handed to the page is "processing" with category "Unclassified",
      confidence 0 and no text. */
  lemma RealStepHandsOverNothing(files: seq<File>, ocr: File -> OcrOutcome)
    ensures forall i :: 0 <= i < |files| ==>
              var r := AsWrittenBatch(files, RealStep(ocr))[i];
              r.status == Processing && r.category == UnclassifiedName && r.confidence == Zero && r.ocrText == ""
  {
  }

  /** Progress grows with every file and ends at 100 percent. */
  lemma ProgressIncreases(n: nat, i: nat)
    requires i < n
    ensures 0 < ProgressAfter(n, i).num <= 100 * ProgressAfter(n, i).den
    ensures i + 1 < n ==> Greater(ProgressAfter(n, i + 1), ProgressAfter(n, i))
    ensures i + 1 == n ==> ProgressAfter(n, i).num == 100 * ProgressAfter(n, i).den
  {
  }

  // ---------------------------------------------------------------------
  // The loop with the completed record written back

  /** The batch the loop is evidently meant to hand over: each record holds
      its file's outcome. */
  function FixedBatch(files: seq<File>, step: File -> Attempt): (b: seq<DocRecord>)
    ensures |b| == |files|
  {
    seq(|files|, j requires 0 <= j < |files| => Outcome(InitialRecord(files, j), step(files[j])))
  }

  /** The records after the first `i` files when results are written back. */
  function FixedAfter(files: seq<File>, step: File -> Attempt, i: nat): (b: seq<DocRecord>)
    ensures |b| == |files|
  {
    seq(|files|, j requires 0 <= j < |files| =>
      if j < i then Outcome(InitialRecord(files, j), step(files[j])) else InitialRecord(files, j))
  }

  /** Every record of the corrected batch is completed with its file's
      result, or error when the step threw; only those fields differ from
      the initial record. */
  lemma FixedBatchDelivers(files: seq<File>, step: File -> Attempt)
    ensures forall i :: 0 <= i < |files| ==>
              var r := FixedBatch(files, step)[i];
              && r.id == DocId(i) && r.originalName == files[i].name && r.file == files[i]
              && (match step(files[i])
                  case Resolved(res) =>
                    r.status == Completed && r.category == res.category &&
                    r.confidence == res.confidence && r.ocrText == res.ocrText
                  case Threw => r == InitialBatch(files)[i].(status := Error))
  {
  }

  /** With the real step, every corrected record holds the classification of
      its file. */
  lemma FixedRealStepClassifies(files: seq<File>, ocr: File -> OcrOutcome)
    ensures forall i :: 0 <= i < |files| ==>
              var r := FixedBatch(files, RealStep(ocr))[i];
              var res := ProcessDocument(files[i], ocr(files[i]));
              r.status == Completed && r.category == res.category &&
              r.confidence == res.confidence && r.ocrText == res.ocrText
  {
  }

  /** The two loops agree exactly on the files whose step threw. */
  lemma AsWrittenDiffersFromFixed(files: seq<File>, step: File -> Attempt, i: nat)
    requires i < |files|
    ensures AsWrittenBatch(files, step)[i] == FixedBatch(files, step)[i] <==> step(files[i]).Threw?
  {
  }

  /** The corrected loop: the iteration updates the shared record in place,
      so the batch handed to the page holds every result. */
  method ProcessFilesFixed(files: seq<File>, step: File -> Attempt)
    returns (documents: seq<Doc>, starts: seq<seq<DocRecord>>, finishes: seq<seq<DocRecord>>)
    ensures |documents| == |files|
    ensures Views(documents) == FixedBatch(files, step)
    ensures |starts| == |finishes| == |files|
    ensures forall i :: 0 <= i < |files| ==>
              starts[i] == FixedAfter(files, step, i)[i := InitialRecord(files, i).(status := Processing)] &&
              finishes[i] == FixedAfter(files, step, i + 1)
  {
    documents := NewBatch(files);
    assert forall j :: 0 <= j < |files| ==> FixedAfter(files, step, 0)[j] == documents[j].View();
    starts, finishes := FixedLoop(files, step, documents);
    assert Views(documents) == FixedBatch(files, step);
  }

  method FixedLoop(files: seq<File>, step: File -> Attempt, documents: seq<Doc>)
    returns (starts: seq<seq<DocRecord>>, finishes: seq<seq<DocRecord>>)
    requires |documents| == |files|
    requires forall a, b :: 0 <= a < b < |files| ==> documents[a] != documents[b]
    requires forall j :: 0 <= j < |files| ==> documents[j].View() == FixedAfter(files, step, 0)[j]
    modifies set d | d in documents
    ensures forall j :: 0 <= j < |files| ==> documents[j].View() == FixedAfter(files, step, |files|)[j]
    ensures FixedSnapshotsUpTo(files, step, starts, finishes, |files|)
  {
    starts, finishes := [], [];
    var i := 0;
    while i < |files|
      invariant 0 <= i <= |files|
      invariant forall j :: 0 <= j < |files| ==> documents[j].View() == FixedAfter(files, step, i)[j]
      invariant FixedSnapshotsUpTo(files, step, starts, finishes, i)
    {
      var start, finish := ProcessOneFixed(files, step, documents, i);
      FixedSnapshotsExtend(files, step, starts, finishes, i, start, finish);
      starts, finishes := starts + [start], finishes + [finish];
      i := i + 1;
    }
  }

  predicate FixedSnapshotsUpTo(files: seq<File>, step: File -> Attempt,
                               starts: seq<seq<DocRecord>>, finishes: seq<seq<DocRecord>>, i: nat)
  {
    && i <= |files| && |starts| == |finishes| == i
    && forall c :: 0 <= c < i ==>
         starts[c] == FixedAfter(files, step, c)[c := InitialRecord(files, c).(status := Processing)] &&
         finishes[c] == FixedAfter(files, step, c + 1)
  }

  lemma FixedSnapshotsExtend(files: seq<File>, step: File -> Attempt,
                             starts: seq<seq<DocRecord>>, finishes: seq<seq<DocRecord>>, i: nat,
                             start: seq<DocRecord>, finish: seq<DocRecord>)
    requires FixedSnapshotsUpTo(files, step, starts, finishes, i) && i < |files|
    requires start == FixedAfter(files, step, i)[i := InitialRecord(files, i).(status := Processing)]
    requires finish == FixedAfter(files, step, i + 1)
    ensures FixedSnapshotsUpTo(files, step, starts + [start], finishes + [finish], i + 1)
  {
  }

  method ProcessOneFixed(files: seq<File>, step: File -> Attempt, documents: seq<Doc>, i: nat)
    returns (start: seq<DocRecord>, finish: seq<DocRecord>)
    requires i < |files| == |documents|
    requires forall a, b :: 0 <= a < b < |documents| ==> documents[a] != documents[b]
    requires forall j :: 0 <= j < |files| ==> documents[j].View() == FixedAfter(files, step, i)[j]
    modifies documents[i]
    ensures forall j :: 0 <= j < |files| ==> documents[j].View() == FixedAfter(files, step, i + 1)[j]
    ensures start == FixedAfter(files, step, i)[i := InitialRecord(files, i).(status := Processing)]
    ensures finish == FixedAfter(files, step, i + 1)
  {
    var d := documents[i];
    d.status := Processing;
    start := Views(documents);
    assert start == FixedAfter(files, step, i)[i := InitialRecord(files, i).(status := Processing)];
    match step(files[i]) {
      case Resolved(res) =>
        d.category := res.category;
        d.confidence := res.confidence;
        d.ocrText := res.ocrText;
        d.status := Completed;
      case Threw =>
        d.status := Error;
    }
    assert d.View() == Outcome(InitialRecord(files, i), step(files[i]));
    finish := Views(documents);
    assert finish == FixedAfter(files, step, i + 1);
  }
}
