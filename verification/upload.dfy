/** The upload panel: dropped files are filtered by type and appended to
    the selection, and a file can be removed from the selection by its
    position. */
module Upload {
  import opened Text
  import opened Documents
  import opened Classifier

  /** A PDF, or any image type. */
  predicate IsSupportedType(mimeType: string) {
    mimeType == "application/pdf" || StartsWith(mimeType, "image/")
  }

  /** The files the panel accepts are exactly those the processing step
      has an extractor for. */
  lemma SupportedIffExtractor(mimeType: string)
    ensures IsSupportedType(mimeType) <==> ExtractorFor(mimeType) != NoExtractor
  {
  }

  /** The dropped files of a supported type, in drop order. */
  function ValidFiles(accepted: seq<File>): (valid: seq<File>)
    ensures |valid| <= |accepted|
    ensures forall f :: f in valid <==> f in accepted && IsSupportedType(f.mimeType)
    decreases |accepted|
  {
    if accepted == [] then []
    else
      var prefix := accepted[..|accepted| - 1];
      var last := accepted[|accepted| - 1];
      assert accepted == prefix + [last];
      ValidFiles(prefix) + (if IsSupportedType(last.mimeType) then [last] else [])
  }

  /** Filtering splits over concatenation, so the kept files keep their
      relative order. */
  lemma {:induction false} ValidFilesAppend(a: seq<File>, b: seq<File>)
    ensures ValidFiles(a + b) == ValidFiles(a) + ValidFiles(b)
    decreases |b|
  {
    if b != [] {
      var n := |b| - 1;
      ValidFilesAppend(a, b[..n]);
      assert (a + b)[..|a + b| - 1] == a + b[..n];
    } else {
      assert a + b == a;
    }
  }

  /** Each supported file is kept as often as it was dropped; every other
      file is dropped entirely. */
  lemma {:induction false} ValidFilesCounts(accepted: seq<File>, f: File)
    ensures multiset(ValidFiles(accepted))[f] == if IsSupportedType(f.mimeType) then multiset(accepted)[f] else 0
    decreases |accepted|
  {
    if accepted != [] {
      var n := |accepted| - 1;
      ValidFilesCounts(accepted[..n], f);
      assert accepted == accepted[..n] + [accepted[n]];
    }
  }

  /** The new selection after a drop: the current selection followed by the
      valid dropped files. */
  function OnDrop(selected: seq<File>, accepted: seq<File>): (r: seq<File>)
    ensures |selected| <= |r| <= |selected| + |accepted|
    ensures r[..|selected|] == selected
    ensures r[|selected|..] == ValidFiles(accepted)
    ensures multiset(r) == multiset(selected) + multiset(ValidFiles(accepted))
  {
    selected + ValidFiles(accepted)
  }

  /** After a drop, each file occurs as often as it was selected, plus as
      often as it was dropped when its type is supported. */
  lemma OnDropCounts(selected: seq<File>, accepted: seq<File>, f: File)
    ensures multiset(OnDrop(selected, accepted))[f]
         == multiset(selected)[f] + (if IsSupportedType(f.mimeType) then multiset(accepted)[f] else 0)
  {
    ValidFilesCounts(accepted, f);
  }

  /** The selection without the entry at `index`; an index outside the
      selection matches no entry. */
  function RemoveFile(files: seq<File>, index: int): (r: seq<File>)
    ensures |r| == if 0 <= index < |files| then |files| - 1 else |files|
    ensures forall f :: f in r ==> f in files
    decreases |files|
  {
    if files == [] then []
    else
      var n := |files| - 1;
      RemoveFile(files[..n], index) + (if n != index then [files[n]] else [])
  }

  /** Removing at a valid position drops exactly that entry and keeps the
      others in order; any other index changes nothing. */
  lemma {:induction false} RemoveFileSpec(files: seq<File>, index: int)
    ensures 0 <= index < |files| ==> RemoveFile(files, index) == files[..index] + files[index + 1..]
    ensures 0 <= index < |files| ==> |RemoveFile(files, index)| == |files| - 1
    ensures !(0 <= index < |files|) ==> RemoveFile(files, index) == files
    decreases |files|
  {
    if files != [] {
      var n := |files| - 1;
      RemoveFileSpec(files[..n], index);
      if index == n {
        assert files[..index] + files[index + 1..] == files[..n];
      } else if 0 <= index < n {
        assert files[..n][..index] == files[..index];
        assert files[..n][index + 1..] + [files[n]] == files[index + 1..];
      } else {
        assert files[..n] + [files[n]] == files;
      }
    }
  }
}
