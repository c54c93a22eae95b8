/** The keyword classifier and the per-file processing step
    (src/utils/ocrUtils.ts): the category taxonomy, the per-category
    keyword score, the winner choice with its strict `>` tie-break, the
    low-confidence override, the PDF text sanitiser, and `processDocument`
    with its MIME-type dispatch and catch-all fallback. The OCR engine is a
    parameter: its outcome for a file is given, not computed. */
module Classifier {
  import opened Text
  import opened Ratios
  import opened Documents

  /** One taxonomy entry: a category name and its trigger phrases. */
  datatype Category = Category(name: string, keywords: seq<string>)

  /** Categories in the order the classifier visits them; the tie-break
      depends on it. */
  type Taxonomy = seq<Category>

  /** The stock taxonomy, in declaration (and so iteration) order. */
  const Categories: Taxonomy := [
    Category("Aadhar", ["aadhar", "uidai", "govt of india", "government of india", "आधार"]),
    Category("10th", ["10th", "class 10", "class x", "ssc", "high school", "हाई स्कूल", "दसवीं"]),
    Category("12th", ["12th", "class 12", "class xii", "hsc", "senior secondary", "इंटरमीडिएट", "बारहवीं"]),
    Category("Semester Marksheets", ["semester", "1st sem", "2nd sem", "3rd sem", "sgpa", "cgpa", "marks obtained"]),
    Category("NPTEL", ["nptel", "motivated learners", "online certification", "discipline stars"]),
    Category("Certificates", ["certificate", "completion", "recommendation", "achievement", "letter"])
  ]

  const UnclassifiedName: string := "Unclassified"

  /** The stock category names, in taxonomy order. */
  const StockNames: seq<string> := ["Aadhar", "10th", "12th", "Semester Marksheets", "NPTEL", "Certificates"]

  /** Every category has at least one keyword, so no score is 0/0. */
  predicate WellFormed(tax: Taxonomy) {
    forall k :: 0 <= k < |tax| ==> |tax[k].keywords| > 0
  }

  ghost predicate IsCategoryName(tax: Taxonomy, name: string) {
    exists k :: 0 <= k < |tax| && tax[k].name == name
  }

  // ---------------------------------------------------------------------
  // Scoring

  /** A keyword matches when its lower-cased form occurs in the text; the
      text itself is not lower-cased. */
  predicate KeywordHit(text: string, keyword: string) {
    Contains(text, Lower(keyword))
  }

  /** The number of keywords that match, counting each keyword of the list
      once however often it occurs in the text. */
  function MatchCount(text: string, keywords: seq<string>): (m: nat)
    ensures m <= |keywords|
    decreases |keywords|
  {
    if |keywords| == 0 then 0
    else
      var last := keywords[|keywords| - 1];
      MatchCount(text, keywords[..|keywords| - 1]) + (if KeywordHit(text, last) then 1 else 0)
  }

  /** The positions in the keyword list whose keyword matches. */
  ghost function HitPositions(text: string, keywords: seq<string>): set<nat> {
    set i: nat | i < |keywords| && KeywordHit(text, keywords[i])
  }

  /** The match count is the number of distinct keyword positions that
      match: repeated occurrences in the text add nothing. */
  lemma {:induction false} MatchCountIsHitPositions(text: string, keywords: seq<string>)
    ensures MatchCount(text, keywords) == |HitPositions(text, keywords)|
    decreases |keywords|
  {
    if |keywords| == 0 {
      assert HitPositions(text, keywords) == {};
    } else {
      var n := |keywords| - 1;
      MatchCountIsHitPositions(text, keywords[..n]);
      HitPositionsStep(text, keywords);
    }
  }

  /** Adding a keyword at the end adds its position exactly when it hits. */
  lemma HitPositionsStep(text: string, keywords: seq<string>)
    requires |keywords| > 0
    ensures var n := |keywords| - 1;
            var before := HitPositions(text, keywords[..n]);
            n !in before &&
            HitPositions(text, keywords) == if KeywordHit(text, keywords[n]) then before + {n} else before
  {
    var n := |keywords| - 1;
    var prefix := keywords[..n];
    forall i: nat | i < n
      ensures KeywordHit(text, keywords[i]) == KeywordHit(text, prefix[i])
    {
    }
  }

  /** When exactly the first `m` keywords match, the count is `m`. */
  lemma {:induction false} MatchCountFirstHits(text: string, keywords: seq<string>, m: nat)
    requires m <= |keywords|
    requires forall i :: 0 <= i < |keywords| ==> (KeywordHit(text, keywords[i]) <==> i < m)
    ensures MatchCount(text, keywords) == m
    decreases |keywords|
  {
    if |keywords| > 0 {
      var n := |keywords| - 1;
      assert forall i :: 0 <= i < n ==> keywords[..n][i] == keywords[i];
      MatchCountFirstHits(text, keywords[..n], if m == |keywords| then n else m);
    }
  }

  /** When the matching positions are exactly `hits`, the count is the
      size of `hits`. */
  lemma MatchCountOfHits(text: string, keywords: seq<string>, hits: set<nat>)
    requires forall i :: i in hits ==> i < |keywords|
    requires forall i :: 0 <= i < |keywords| ==> (KeywordHit(text, keywords[i]) <==> i in hits)
    ensures MatchCount(text, keywords) == |hits|
  {
    assert HitPositions(text, keywords) == hits;
    MatchCountIsHitPositions(text, keywords);
  }

  /** No keyword matches exactly when the count is zero. */
  lemma {:induction false} MatchCountZeroIff(text: string, keywords: seq<string>)
    ensures MatchCount(text, keywords) == 0 <==> forall i :: 0 <= i < |keywords| ==> !KeywordHit(text, keywords[i])
  {
    MatchCountIsHitPositions(text, keywords);
    if MatchCount(text, keywords) == 0 {
      forall i | 0 <= i < |keywords|
        ensures !KeywordHit(text, keywords[i])
      {
        assert i !in HitPositions(text, keywords);
      }
    } else {
      var i :| i in HitPositions(text, keywords);
      assert KeywordHit(text, keywords[i]);
    }
  }

  /** The confidence of category `k`: matches / keywords.length. It is a
      quotient in [0, 1] whenever the category has keywords, and the NaN
      of 0/0 when it has none. */
  function Score(tax: Taxonomy, text: string, k: nat): (s: Ratio)
    requires k < |tax|
    ensures InUnitInterval(s)
    ensures |tax[k].keywords| > 0 ==> s.den > 0
    ensures |tax[k].keywords| == 0 ==> s == Ratio(0, 0)
  {
    Ratio(MatchCount(text, tax[k].keywords), |tax[k].keywords|)
  }

  // ---------------------------------------------------------------------
  // Choosing the winner

  /** Which entry the loop's `bestMatch` currently holds: still the initial
      ("Unclassified", 0), or the one set by taxonomy entry `index`. */
  datatype BestMatch = Initial | Entry(index: nat)

  function BestScore(tax: Taxonomy, text: string, best: BestMatch): Ratio
    requires best.Entry? ==> best.index < |tax|
  {
    match best
    case Initial => Zero
    case Entry(k) => Score(tax, text, k)
  }

  /** The loop over the taxonomy from entry `i` on: an entry replaces the
      best so far only when its confidence is strictly greater. */
  function Scan(tax: Taxonomy, text: string, i: nat, best: BestMatch): (w: BestMatch)
    requires i <= |tax|
    requires best.Entry? ==> best.index < i && Score(tax, text, best.index).num > 0
    ensures w.Entry? ==> w.index < |tax| && Score(tax, text, w.index).num > 0
    decreases |tax| - i
  {
    if i == |tax| then best
    else if Greater(Score(tax, text, i), BestScore(tax, text, best)) then Scan(tax, text, i + 1, Entry(i))
    else Scan(tax, text, i + 1, best)
  }

  /** The entry the loop ends with; it always has at least one match. */
  function Winner(tax: Taxonomy, text: string): (w: BestMatch)
    ensures w.Entry? ==> w.index < |tax| && Score(tax, text, w.index).num > 0
  {
    Scan(tax, text, 0, Initial)
  }

  /** Reference definition of the winner: entry `k` has a match, no entry
      scores higher, and every earlier entry scores strictly lower. */
  ghost predicate IsFirstBest(tax: Taxonomy, text: string, k: nat) {
    && k < |tax|
    && Score(tax, text, k).num > 0
    && (forall j :: 0 <= j < |tax| ==> !Greater(Score(tax, text, j), Score(tax, text, k)))
    && (forall j :: 0 <= j < k ==> Greater(Score(tax, text, k), Score(tax, text, j)))
  }

  /** What holds of the best match after the loop has seen entries [0, i). */
  ghost predicate ScanInvariant(tax: Taxonomy, text: string, i: nat, best: BestMatch)
    requires i <= |tax|
  {
    match best
    case Initial =>
      forall j :: 0 <= j < i ==> Score(tax, text, j).num == 0
    case Entry(b) =>
      && b < i
      && Score(tax, text, b).num > 0
      && (forall j :: 0 <= j < i ==> !Greater(Score(tax, text, j), Score(tax, text, b)))
      && (forall j :: 0 <= j < b ==> Greater(Score(tax, text, b), Score(tax, text, j)))
  }

  lemma {:induction false} ScanKeepsInvariant(tax: Taxonomy, text: string, i: nat, best: BestMatch)
    requires WellFormed(tax)
    requires i <= |tax|
    requires ScanInvariant(tax, text, i, best)
    ensures ScanInvariant(tax, text, |tax|, Scan(tax, text, i, best))
    decreases |tax| - i
  {
    if i < |tax| {
      var s := Score(tax, text, i);
      var next := if Greater(s, BestScore(tax, text, best)) then Entry(i) else best;
      assert ScanInvariant(tax, text, i + 1, next) by {
        StepKeepsInvariant(tax, text, i, best);
      }
      ScanKeepsInvariant(tax, text, i + 1, next);
    }
  }

  lemma StepKeepsInvariant(tax: Taxonomy, text: string, i: nat, best: BestMatch)
    requires WellFormed(tax)
    requires i < |tax|
    requires ScanInvariant(tax, text, i, best)
    ensures ScanInvariant(tax, text, i + 1,
      if Greater(Score(tax, text, i), BestScore(tax, text, best)) then Entry(i) else best)
  {
    var s := Score(tax, text, i);
    match best
    case Initial =>
      GreaterThanZeroIff(s);
      if s.num > 0 {
        forall j | 0 <= j < i
          ensures Greater(s, Score(tax, text, j))
        {
        }
      }
    case Entry(b) =>
      var sb := Score(tax, text, b);
      if Greater(s, sb) {
        forall j | 0 <= j < i
          ensures Greater(s, Score(tax, text, j))
        {
          LessOrEqualThenLess(Score(tax, text, j), sb, s);
        }
        forall j | 0 <= j < i + 1
          ensures !Greater(Score(tax, text, j), s)
        {
          if j < i {
            assert Greater(s, Score(tax, text, j));
          }
        }
      }
  }

  /** The loop's winner is exactly the reference winner; it stays initial
      exactly when no category has a match. */
  lemma WinnerIsFirstBest(tax: Taxonomy, text: string)
    requires WellFormed(tax)
    ensures Winner(tax, text).Initial? <==> forall j :: 0 <= j < |tax| ==> Score(tax, text, j).num == 0
    ensures forall k: nat :: Winner(tax, text) == Entry(k) <==> IsFirstBest(tax, text, k)
  {
    ScanKeepsInvariant(tax, text, 0, Initial);
    var w := Winner(tax, text);
    forall k | IsFirstBest(tax, text, k)
      ensures w == Entry(k)
    {
      if w.Entry? {
        FirstBestUnique(tax, text, k, w.index);
      }
    }
  }

  /** At most one entry is the first best. */
  lemma FirstBestUnique(tax: Taxonomy, text: string, k1: nat, k2: nat)
    requires IsFirstBest(tax, text, k1) && IsFirstBest(tax, text, k2)
    ensures k1 == k2
  {
  }

  /** A single category with any match at all is the first best. */
  lemma SoleMatchIsFirstBest(tax: Taxonomy, text: string, k: nat)
    requires WellFormed(tax) && k < |tax|
    requires Score(tax, text, k).num > 0
    requires forall j :: 0 <= j < |tax| && j != k ==> Score(tax, text, j).num == 0
    ensures IsFirstBest(tax, text, k)
  {
    forall j | 0 <= j < k
      ensures Greater(Score(tax, text, k), Score(tax, text, j))
    {
      assert Score(tax, text, j).den > 0;
    }
  }

  // ---------------------------------------------------------------------
  // Classification

  datatype Classification = Classification(category: string, confidence: Ratio)

  const Unclassified := Classification(UnclassifiedName, Zero)

  /** `classifyDocument` over a given taxonomy: the winner, overridden to
      ("Unclassified", 0) when its confidence is below 0.1. */
  function Classify(tax: Taxonomy, text: string): (r: Classification)
    ensures InUnitInterval(r.confidence)
    ensures r == Unclassified || (IsCategoryName(tax, r.category) && !BelowOneTenth(r.confidence))
    ensures r.confidence.num == 0 <==> r == Unclassified
  {
    match Winner(tax, text)
    case Initial => Unclassified
    case Entry(k) =>
      var s := Score(tax, text, k);
      if BelowOneTenth(s) then Unclassified else Classification(tax[k].name, s)
  }

  /** The result is ("Unclassified", 0) exactly when every category scores
      below 0.1, and otherwise it is the first best category with its
      score. */
  lemma ClassifyIsFirstBest(tax: Taxonomy, text: string)
    requires WellFormed(tax)
    ensures Classify(tax, text) == Unclassified <==>
              forall j :: 0 <= j < |tax| ==> BelowOneTenth(Score(tax, text, j))
    ensures forall k: nat :: IsFirstBest(tax, text, k) && !BelowOneTenth(Score(tax, text, k)) ==>
              Classify(tax, text) == Classification(tax[k].name, Score(tax, text, k))
  {
    WinnerIsFirstBest(tax, text);
    match Winner(tax, text)
    case Initial =>
      forall j | 0 <= j < |tax|
        ensures BelowOneTenth(Score(tax, text, j))
      {
        assert Score(tax, text, j).num == 0;
      }
    case Entry(k) =>
      var sk := Score(tax, text, k);
      if BelowOneTenth(sk) {
        forall j | 0 <= j < |tax|
          ensures BelowOneTenth(Score(tax, text, j))
        {
          var sj := Score(tax, text, j);
          assert sj.num * sk.den <= sk.num * sj.den;
          assert 10 * sk.num < sk.den;
          TenthBound(sj, sk);
        }
      }
  }

  lemma TenthBound(a: Ratio, b: Ratio)
    requires a.den > 0 && b.den > 0
    requires a.num * b.den <= b.num * a.den && 10 * b.num < b.den
    ensures 10 * a.num < a.den
  {
    assert 10 * a.num * b.den <= 10 * b.num * a.den;
    MulLtMono(10 * b.num, b.den, a.den);
    assert b.den * (10 * a.num) < b.den * a.den;
    MulLtCancel(10 * a.num, a.den, b.den);
  }

  /** `classifyDocument`: the stock taxonomy. */
  function ClassifyDocument(text: string): (r: Classification)
    ensures r.confidence.num == 0 <==> r == Unclassified
  {
    Classify(Categories, text)
  }

  // ---------------------------------------------------------------------
  // Facts about the stock taxonomy

  lemma StockShape()
    ensures WellFormed(Categories)
    ensures forall k :: 0 <= k < |Categories| ==> 4 <= |Categories[k].keywords| <= 7
  {
  }

  /** The keywords of stock category `k` contain no A-Z, and none is empty. */
  lemma StockKeywordsOfCategory(k: nat)
    requires k < |Categories|
    ensures forall i :: 0 <= i < |Categories[k].keywords| ==>
              HasNoAsciiUpper(Categories[k].keywords[i]) && |Categories[k].keywords[i]| > 0
  {
    var kws := Categories[k].keywords;
    forall i | 0 <= i < |kws|
      ensures HasNoAsciiUpper(kws[i]) && |kws[i]| > 0
    {
      KeywordIsLowerCase(k, i);
    }
  }

  lemma KeywordIsLowerCase(k: nat, i: nat)
    requires k < |Categories| && i < |Categories[k].keywords|
    ensures HasNoAsciiUpper(Categories[k].keywords[i]) && |Categories[k].keywords[i]| > 0
    ensures Categories[k].keywords[i][0] != ' '
  {
    if k == 0 {
      KeywordsLowerCase0();
    } else if k == 1 {
      KeywordsLowerCase1();
    } else if k == 2 {
      KeywordsLowerCase2();
    } else if k == 3 {
      KeywordsLowerCase3();
    } else if k == 4 {
      KeywordsLowerCase4();
    } else {
      KeywordsLowerCase5();
    }
  }

  lemma KeywordsLowerCase0()
    ensures forall i :: 0 <= i < |Categories[0].keywords| ==>
              HasNoAsciiUpper(Categories[0].keywords[i]) && |Categories[0].keywords[i]| > 0 &&
              Categories[0].keywords[i][0] != ' '
  {
  }

  lemma KeywordsLowerCase1()
    ensures forall i :: 0 <= i < |Categories[1].keywords| ==>
              HasNoAsciiUpper(Categories[1].keywords[i]) && |Categories[1].keywords[i]| > 0 &&
              Categories[1].keywords[i][0] != ' '
  {
  }

  lemma KeywordsLowerCase2()
    ensures forall i :: 0 <= i < |Categories[2].keywords| ==>
              HasNoAsciiUpper(Categories[2].keywords[i]) && |Categories[2].keywords[i]| > 0 &&
              Categories[2].keywords[i][0] != ' '
  {
  }

  lemma KeywordsLowerCase3()
    ensures forall i :: 0 <= i < |Categories[3].keywords| ==>
              HasNoAsciiUpper(Categories[3].keywords[i]) && |Categories[3].keywords[i]| > 0 &&
              Categories[3].keywords[i][0] != ' '
  {
  }

  lemma KeywordsLowerCase4()
    ensures forall i :: 0 <= i < |Categories[4].keywords| ==>
              HasNoAsciiUpper(Categories[4].keywords[i]) && |Categories[4].keywords[i]| > 0 &&
              Categories[4].keywords[i][0] != ' '
  {
  }

  lemma KeywordsLowerCase5()
    ensures forall i :: 0 <= i < |Categories[5].keywords| ==>
              HasNoAsciiUpper(Categories[5].keywords[i]) && |Categories[5].keywords[i]| > 0 &&
              Categories[5].keywords[i][0] != ' '
  {
  }

  /** The stock keywords are already lower case, so `toLowerCase` leaves
      them alone and matching is case-sensitive on the text. */
  lemma StockKeywordsAreLowerCase()
    ensures forall k, i :: 0 <= k < |Categories| && 0 <= i < |Categories[k].keywords| ==>
              Lower(Categories[k].keywords[i]) == Categories[k].keywords[i]
  {
    forall k, i | 0 <= k < |Categories| && 0 <= i < |Categories[k].keywords|
      ensures Lower(Categories[k].keywords[i]) == Categories[k].keywords[i]
    {
      StockKeywordsOfCategory(k);
      LowerFixedIff(Categories[k].keywords[i]);
    }
  }

  /** With at most 7 keywords per category every positive score is at least
      1/7 > 0.1, so the low-confidence override only ever replaces a zero
      score: the stock result is the first best category, or
      ("Unclassified", 0) exactly when nothing matches. */
  lemma StockOverrideOnlyMapsZero(text: string)
    ensures forall k :: 0 <= k < |Categories| && Score(Categories, text, k).num > 0 ==>
              !BelowOneTenth(Score(Categories, text, k))
    ensures ClassifyDocument(text) == Unclassified <==>
              forall j :: 0 <= j < |Categories| ==> Score(Categories, text, j).num == 0
    ensures forall k: nat :: IsFirstBest(Categories, text, k) ==>
              ClassifyDocument(text) == Classification(Categories[k].name, Score(Categories, text, k))
  {
    StockShape();
    ClassifyIsFirstBest(Categories, text);
  }

  /** The stock result names one of the six categories or "Unclassified",
      and its confidence is 0 exactly when it is "Unclassified". */
  lemma StockCategoryIsKnown(text: string)
    ensures ClassifyDocument(text).category in StockNames + [UnclassifiedName]
    ensures ClassifyDocument(text).category == UnclassifiedName <==> ClassifyDocument(text).confidence.num == 0
  {
    var r := ClassifyDocument(text);
    StockNamesAgree();
    if r != Unclassified {
      var k :| 0 <= k < |Categories| && Categories[k].name == r.category;
      assert r.category == StockNames[k];
    }
  }

  lemma StockNamesAgree()
    ensures |StockNames| == |Categories|
    ensures forall k :: 0 <= k < |Categories| ==> Categories[k].name == StockNames[k]
    ensures UnclassifiedName !in StockNames
  {
  }

  /** Matching is case-sensitive on the text: a text made only of capitals
      and spaces matches no stock keyword, since every keyword starts with
      a character that is neither. */
  lemma UpperCaseTextIsUnclassified(text: string)
    requires forall i :: 0 <= i < |text| ==> IsAsciiUpper(text[i]) || text[i] == ' '
    ensures ClassifyDocument(text) == Unclassified
  {
    forall k | 0 <= k < |Categories|
      ensures Score(Categories, text, k).num == 0
    {
      var kws := Categories[k].keywords;
      forall i | 0 <= i < |kws|
        ensures !KeywordHit(text, kws[i])
      {
        KeywordIsLowerCase(k, i);
        LowerFixedIff(kws[i]);
        MissingCharRefutes(text, kws[i], 0);
      }
      MatchCountZeroIff(text, kws);
    }
    StockOverrideOnlyMapsZero(text);
  }

  // ---------------------------------------------------------------------
  // Text extraction

  /** The characters the PDF path keeps: U+0020..U+007E and U+00A0 upwards.
      Characters beyond U+FFFF are UTF-16 surrogate pairs in JavaScript,
      whose two halves both lie in U+D800..U+DFFF and are therefore kept. */
  predicate Retained(c: char) {
    (0x20 <= c as int <= 0x7E) || 0xA0 <= c as int
  }

  /** The character filter of the PDF path: every character outside the
      two retained ranges becomes a space. */
  function Sanitize(raw: string): (s: string)
    ensures |s| == |raw|
    ensures forall i :: 0 <= i < |raw| && Retained(raw[i]) ==> s[i] == raw[i]
    ensures forall i :: 0 <= i < |raw| && !Retained(raw[i]) ==> s[i] == ' '
  {
    if raw == [] then [] else [if Retained(raw[0]) then raw[0] else ' '] + Sanitize(raw[1..])
  }

  /** Every character of a sanitised string is retained, so sanitising
      twice changes nothing. */
  lemma SanitizeIdempotent(raw: string)
    ensures forall i :: 0 <= i < |raw| ==> Retained(Sanitize(raw)[i])
    ensures Sanitize(Sanitize(raw)) == Sanitize(raw)
  {
    var s := Sanitize(raw);
    assert forall i :: 0 <= i < |s| ==> Sanitize(s)[i] == s[i];
  }

  /** The PDF path: the decoded file text, sanitised, then lower-cased. */
  function ExtractPdfText(decoded: string): (t: string)
    ensures |t| == |decoded|
    ensures forall i :: 0 <= i < |t| ==> Retained(t[i]) && !IsAsciiUpper(t[i])
  {
    SanitizeIdempotent(decoded);
    Lower(Sanitize(decoded))
  }

  /** The extracted PDF text is a fixed point of extraction. */
  lemma ExtractPdfTextIdempotent(decoded: string)
    ensures ExtractPdfText(ExtractPdfText(decoded)) == ExtractPdfText(decoded)
  {
    var t := ExtractPdfText(decoded);
    assert Sanitize(t) == t by {
      assert forall i :: 0 <= i < |t| ==> Sanitize(t)[i] == t[i];
    }
    LowerFixedIff(t);
  }

  // ---------------------------------------------------------------------
  // processDocument

  datatype ProcessingResult = ProcessingResult(category: string, confidence: Ratio, ocrText: string)

  /** What the OCR engine produces for an image: recognised text, or a
      failure (malformed or unsupported image) that it raises. */
  datatype OcrOutcome = Recognized(text: string) | EngineFailed

  datatype Extractor = PdfReader | ImageOcr | NoExtractor

  /** The MIME-type dispatch: exactly "application/pdf" takes the PDF path,
      any type starting with "image/" the OCR path, anything else neither. */
  function ExtractorFor(mimeType: string): (e: Extractor)
    ensures e == PdfReader <==> mimeType == "application/pdf"
    ensures e == ImageOcr <==> mimeType != "application/pdf" && StartsWith(mimeType, "image/")
  {
    if mimeType == "application/pdf" then PdfReader
    else if StartsWith(mimeType, "image/") then ImageOcr
    else NoExtractor
  }

  /** The record returned from the catch block. */
  const FailureResult := ProcessingResult(UnclassifiedName, Zero, "Error processing document")

  function Classified(text: string): (r: ProcessingResult)
    ensures r.ocrText == text
    ensures Classification(r.category, r.confidence) == ClassifyDocument(text)
  {
    var c := ClassifyDocument(text);
    ProcessingResult(c.category, c.confidence, text)
  }

  /** `processDocument`: extracts text by MIME type and classifies it. It
      never fails: an OCR failure yields the fixed fallback record without
      classifying, and an unsupported type classifies the empty text. */
  function ProcessDocument(file: File, ocr: OcrOutcome): (r: ProcessingResult)
    ensures InUnitInterval(r.confidence)
    ensures ExtractorFor(file.mimeType) == ImageOcr && ocr == EngineFailed ==> r == FailureResult
    ensures ExtractorFor(file.mimeType) == NoExtractor ==> r == ProcessingResult(UnclassifiedName, Zero, "")
    ensures ExtractorFor(file.mimeType) == PdfReader ==> r.ocrText == ExtractPdfText(file.contents)
    ensures ExtractorFor(file.mimeType) == ImageOcr && ocr.Recognized? ==> r.ocrText == Lower(ocr.text)
    ensures r != FailureResult ==> HasNoAsciiUpper(r.ocrText)
    ensures r != FailureResult ==> Classification(r.category, r.confidence) == ClassifyDocument(r.ocrText)
  {
    match ExtractorFor(file.mimeType)
    case PdfReader => Classified(ExtractPdfText(file.contents))
    case ImageOcr =>
      (match ocr
       case Recognized(t) => LowerFixedIff(t); Classified(Lower(t))
       case EngineFailed => FailureResult)
    case NoExtractor => EmptyTextIsUnclassified(); Classified("")
  }

  /** No stock keyword is empty, so the empty text matches nothing. */
  lemma EmptyTextIsUnclassified()
    ensures ClassifyDocument("") == Unclassified
  {
    StockShape();
    forall k | 0 <= k < |Categories|
      ensures Score(Categories, "", k).num == 0
    {
      var kws := Categories[k].keywords;
      StockKeywordsOfCategory(k);
      forall i | 0 <= i < |kws|
        ensures !KeywordHit("", kws[i])
      {
        EmptyTextContainsOnlyEmpty(Lower(kws[i]));
      }
      MatchCountZeroIff("", kws);
    }
    StockOverrideOnlyMapsZero("");
  }
}
