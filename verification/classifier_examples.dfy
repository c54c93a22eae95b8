/** Worked classifications with the stock taxonomy. Each is stated for a
    family of texts (those drawn from a small alphabet and containing given
    keywords) and then instantiated with one concrete text. */
module ClassifierExamples {
  import opened Text
  import opened Ratios
  import opened Classifier

  /** Letters of "aadhar card uidai". */
  const SampleChars: set<char> := {'a', 'd', 'h', 'r', ' ', 'c', 'u', 'i'}

  /** Letters of "this is an aadhar card issued by uidai government of
      india". */
  const SentenceChars: set<char> :=
    {'t', 'h', 'i', 's', ' ', 'a', 'n', 'd', 'r', 'c', 'u', 'e', 'b', 'y', 'g', 'o', 'v', 'm', 'f'}

  /** Letters of "hello world". */
  const HelloChars: set<char> := {'h', 'e', 'l', 'o', ' ', 'w', 'r', 'd'}

  /** Texts that mention "aadhar" and "uidai" and use no letter outside
      those of "aadhar card uidai". */
  ghost predicate AadharLike(text: string) {
    OnlyChars(text, SampleChars) && Contains(text, "aadhar") && Contains(text, "uidai")
  }

  /** Such a text hits two of the five Aadhar keywords and no keyword of
      another category: it is an Aadhar document with confidence 2/5. */
  lemma AadharLikeIsAadhar(text: string)
    requires AadharLike(text)
    ensures ClassifyDocument(text) == Classification("Aadhar", Ratio(2, 5))
  {
    SampleFirstBest(text);
    StockOverrideOnlyMapsZero(text);
  }

  lemma AadharSampleIsAadhar()
    ensures ClassifyDocument("aadhar card uidai") == Classification("Aadhar", Ratio(2, 5))
  {
    var text := "aadhar card uidai";
    assert OnlyChars(text, SampleChars);
    assert text == "" + "aadhar" + " card uidai";
    ContainsInfix("", "aadhar", " card uidai");
    assert text == "aadhar card " + "uidai" + "";
    ContainsInfix("aadhar card ", "uidai", "");
    AadharLikeIsAadhar(text);
  }

  /** Texts over the letters of the sentence below that mention "aadhar",
      "uidai" and "government of india", and none of the eight keywords
      spelt with those letters alone. */
  ghost predicate SentenceLike(text: string) {
    SentenceAadharPart(text) && SentenceOtherMisses(text)
  }

  /** The letters, the three Aadhar keywords it holds and the one it lacks. */
  ghost predicate SentenceAadharPart(text: string) {
    && OnlyChars(text, SentenceChars)
    && Contains(text, "aadhar") && Contains(text, "uidai") && Contains(text, "government of india")
    && !Contains(text, "govt of india")
  }

  /** The keywords of other categories spelt with the sentence's letters. */
  ghost predicate SentenceOtherMisses(text: string) {
    && !Contains(text, "ssc") && !Contains(text, "hsc")
    && !Contains(text, "senior secondary") && !Contains(text, "semester") && !Contains(text, "certificate")
    && !Contains(text, "recommendation") && !Contains(text, "achievement")
  }

  /** Such a text hits three of the five Aadhar keywords and no keyword of
      another category: it is an Aadhar document with confidence 3/5. */
  lemma SentenceLikeIsAadhar(text: string)
    requires SentenceLike(text)
    ensures ClassifyDocument(text) == Classification("Aadhar", Ratio(3, 5))
  {
    SentenceFirstBest(text);
    StockOverrideOnlyMapsZero(text);
  }

  lemma SentenceFirstBest(text: string)
    requires SentenceLike(text)
    ensures IsFirstBest(Categories, text, 0)
    ensures Score(Categories, text, 0) == Ratio(3, 5)
  {
    SentenceAadharScore(text);
    SentenceOthersZero(text);
    AadharSoleBest(text);
  }

  lemma SentenceAadharScore(text: string)
    requires SentenceAadharPart(text)
    ensures Score(Categories, text, 0) == Ratio(3, 5)
  {
    SentenceAadharHits(text);
    SentenceScoreAadhar(text);
  }

  /** A text that scores only on the Aadhar category has it as its first
      best category. */
  lemma AadharSoleBest(text: string)
    requires Score(Categories, text, 0).num > 0
    requires forall k :: 1 <= k < |Categories| ==> Score(Categories, text, k).num == 0
    ensures IsFirstBest(Categories, text, 0)
  {
    StockShape();
    SoleMatchIsFirstBest(Categories, text, 0);
  }

  lemma SentenceOthersZero(text: string)
    requires SentenceLike(text)
    ensures forall k :: 1 <= k < |Categories| ==> Score(Categories, text, k).num == 0
  {
    forall k | 1 <= k < |Categories|
      ensures Score(Categories, text, k).num == 0
    {
      SentenceMisses(text, k);
      NoHitsScoreZero(text, k);
    }
  }

  /** The sentence "this is an aadhar card issued by uidai government of
      india" after its opening words. The pieces only serve the proofs: they
      cut the sentence around its keyword hits and its single 'c', 'v' and
      'm'. */
  function AfterOpening(opening: string): string {
    opening + "aadhar" + " " + "c" + "ard issued by " + "uidai" + " " + "go" + "v" + "ern" + "m" + "ent of india"
  }

  /** The openings the sample can start with: no 'c', 'v' or 'm', and no
      letter outside those of the sentence. */
  ghost predicate QuietOpening(opening: string) {
    OnlyChars(opening, SentenceChars) && 'c' !in opening && 'v' !in opening && 'm' !in opening
  }

  /** Every such sentence, and in particular the one opening with "this is
      an ", is an Aadhar document with confidence 3/5. */
  lemma SentenceSampleIsAadhar(opening: string)
    requires QuietOpening(opening)
    ensures ClassifyDocument(AfterOpening(opening)) == Classification("Aadhar", Ratio(3, 5))
  {
    var t := AfterOpening(opening);
    SentenceOnlyChars(opening);
    SentenceHits(opening);
    SentenceMissesAroundC(opening);
    SentenceMissesAroundV(opening);
    SentenceMissesAroundM(opening);
    SentenceLikeIsAadhar(t);
  }

  /** The sample sentence "this is an aadhar card issued by uidai
      government of india" is an Aadhar document with confidence 3/5. */
  lemma ThisIsAnAadharCard()
    ensures ClassifyDocument("this is an aadhar card issued by uidai government of india")
         == Classification("Aadhar", Ratio(3, 5))
  {
    assert QuietOpening("this is an ");
    SentenceSampleIsAadhar("this is an ");
    SentenceSpelledOut();
  }

  lemma SentenceSpelledOut()
    ensures AfterOpening("this is an ") == "this is an aadhar card issued by uidai government of india"
  {
    SentenceInThirds();
    HeadPieces();
    TailPieces();
  }

  lemma SentenceInThirds()
    ensures "this is an aadhar card issued by uidai government of india"
         == "this is an aadhar " + "card issued by " + "uidai government of india"
  {
  }

  lemma HeadPieces()
    ensures "this is an aadhar " == "this is an " + "aadhar" + " "
    ensures "card issued by " == "c" + "ard issued by "
  {
  }

  lemma TailPieces()
    ensures "uidai government of india" == "uidai" + " " + "go" + "v" + "ern" + "m" + "ent of india"
  {
  }

  lemma SentenceOnlyChars(opening: string)
    requires QuietOpening(opening)
    ensures OnlyChars(AfterOpening(opening), SentenceChars)
  {
  }

  lemma SentenceHits(opening: string)
    ensures Contains(AfterOpening(opening), "aadhar")
    ensures Contains(AfterOpening(opening), "uidai")
    ensures Contains(AfterOpening(opening), "government of india")
  {
    var t := AfterOpening(opening);
    var b := " " + "c" + "ard issued by ";
    var c := " " + "go" + "v" + "ern" + "m" + "ent of india";
    assert t == opening + "aadhar" + (b + "uidai" + c);
    ContainsInfix(opening, "aadhar", b + "uidai" + c);
    assert t == (opening + "aadhar" + b) + "uidai" + c;
    ContainsInfix(opening + "aadhar" + b, "uidai", c);
    var g := "go" + "v" + "ern" + "m" + "ent of india";
    assert g == "government of india";
    assert t == (opening + "aadhar" + b + "uidai" + " ") + g + "";
    ContainsInfix(opening + "aadhar" + b + "uidai" + " ", g, "");
  }

  /** The sentence holds a single 'c': it is `CutAtC(opening).0 + ['c'] +
      CutAtC(opening).1` with no 'c' in either part. */
  lemma CutAtC(opening: string) returns (a: string, b: string)
    requires QuietOpening(opening)
    ensures AfterOpening(opening) == a + ['c'] + b && 'c' !in a && 'c' !in b
    ensures 0 < |a| && a[|a| - 1] == ' ' && 0 < |b| && b[0] == 'a'
  {
    a := opening + "aadhar" + " ";
    var b1, b2 := "ard issued by " + "uidai" + " " + "go", "v" + "ern" + "m" + "ent of india";
    assert 'c' !in b1 && 'c' !in b2;
    b := b1 + b2;
  }

  /** Every keyword spelt with the sentence's letters around a 'c'
      disagrees with it next to the 'c'. */
  lemma SentenceMissesAroundC(opening: string)
    requires QuietOpening(opening)
    ensures !Contains(AfterOpening(opening), "ssc") && !Contains(AfterOpening(opening), "hsc")
    ensures !Contains(AfterOpening(opening), "senior secondary")
    ensures !Contains(AfterOpening(opening), "certificate")
    ensures !Contains(AfterOpening(opening), "recommendation")
    ensures !Contains(AfterOpening(opening), "achievement")
  {
    var a, b := CutAtC(opening);
    SchoolKeywordsMissC(a, b);
    CertificateKeywordsMissC(a, b);
  }

  /** A text with a single 'c', between a space and an 'a', contains none of
      "ssc", "hsc" and "senior secondary". */
  lemma SchoolKeywordsMissC(a: string, b: string)
    requires 'c' !in a && 'c' !in b
    requires 0 < |a| && a[|a| - 1] == ' ' && 0 < |b| && b[0] == 'a'
    ensures !Contains(a + ['c'] + b, "ssc") && !Contains(a + ['c'] + b, "hsc")
    ensures !Contains(a + ['c'] + b, "senior secondary")
  {
    UniqueCharRefutes(a, 'c', b, "ssc", 2);
    UniqueCharRefutes(a, 'c', b, "hsc", 2);
    UniqueCharRefutes(a, 'c', b, "senior secondary", 9);
  }

  /** Likewise for "certificate", "recommendation" and "achievement". */
  lemma CertificateKeywordsMissC(a: string, b: string)
    requires 'c' !in a && 'c' !in b
    requires 0 < |a| && a[|a| - 1] == ' ' && 0 < |b| && b[0] == 'a'
    ensures !Contains(a + ['c'] + b, "certificate")
    ensures !Contains(a + ['c'] + b, "recommendation")
    ensures !Contains(a + ['c'] + b, "achievement")
  {
    UniqueCharRefutes(a, 'c', b, "certificate", 0);
    UniqueCharRefutes(a, 'c', b, "recommendation", 2);
    UniqueCharRefutes(a, 'c', b, "achievement", 1);
  }

  /** The sentence holds a single 'v', followed by an 'e'. */
  lemma CutAtV(opening: string) returns (a: string, b: string)
    requires QuietOpening(opening)
    ensures AfterOpening(opening) == a + ['v'] + b && 'v' !in a && 'v' !in b
    ensures 0 < |b| && b[0] == 'e'
  {
    var a1, a2 := "aadhar" + " " + "c", "ard issued by " + "uidai" + " " + "go";
    assert 'v' !in a1 && 'v' !in a2;
    a := opening + a1 + a2;
    b := "ern" + "m" + "ent of india";
    assert 'v' !in b;
  }

  /** Likewise for its single 'v'. */
  lemma SentenceMissesAroundV(opening: string)
    requires QuietOpening(opening)
    ensures !Contains(AfterOpening(opening), "govt of india")
  {
    var a, b := CutAtV(opening);
    UniqueCharRefutes(a, 'v', b, "govt of india", 2);
  }

  /** The sentence holds a single 'm', preceded by an 'n'. */
  lemma CutAtM(opening: string) returns (a: string, b: string)
    requires QuietOpening(opening)
    ensures AfterOpening(opening) == a + ['m'] + b && 'm' !in a && 'm' !in b
    ensures 0 < |a| && a[|a| - 1] == 'n'
  {
    var a1, a2 := "aadhar" + " " + "c", "ard issued by " + "uidai" + " " + "go" + "v" + "ern";
    assert 'm' !in a1 && 'm' !in a2;
    a := opening + a1 + a2;
    b := "ent of india";
    assert 'm' !in b;
  }

  /** Likewise for its single 'm'. */
  lemma SentenceMissesAroundM(opening: string)
    requires QuietOpening(opening)
    ensures !Contains(AfterOpening(opening), "semester")
  {
    var a, b := CutAtM(opening);
    UniqueCharRefutes(a, 'm', b, "semester", 2);
  }

  /** Hitting the first, second and fourth Aadhar keywords scores 3/5. */
  lemma SentenceScoreAadhar(text: string)
    requires forall i :: 0 <= i < |Categories[0].keywords| ==>
               (KeywordHit(text, Categories[0].keywords[i]) <==> i in {0, 1, 3})
    ensures Score(Categories, text, 0) == Ratio(3, 5)
  {
    ThreeOfFive(text, Categories[0].keywords);
  }

  lemma ThreeOfFive(text: string, keywords: seq<string>)
    requires |keywords| == 5
    requires forall i :: 0 <= i < |keywords| ==> (KeywordHit(text, keywords[i]) <==> i in {0, 1, 3})
    ensures MatchCount(text, keywords) == 3
  {
    MatchCountOfHits(text, keywords, {0, 1, 3});
  }

  /** Which Aadhar keywords such a text contains: all but "govt of india"
      and the Devanagari one. */
  lemma SentenceAadharHits(text: string)
    requires SentenceAadharPart(text)
    ensures forall i :: 0 <= i < |Categories[0].keywords| ==>
              (KeywordHit(text, Categories[0].keywords[i]) <==> i in {0, 1, 3})
  {
    forall i | 0 <= i < |Categories[0].keywords|
      ensures KeywordHit(text, Categories[0].keywords[i]) <==> i in {0, 1, 3}
    {
      SentenceAadharHit(text, i);
    }
  }

  lemma SentenceAadharHit(text: string, i: nat)
    requires SentenceAadharPart(text) && i < |Categories[0].keywords|
    ensures KeywordHit(text, Categories[0].keywords[i]) <==> i in {0, 1, 3}
  {
    var kws := Categories[0].keywords;
    StockHitIff(text, 0, i);
    if i == 0 {
      assert kws[0] == "aadhar";
    } else if i == 1 {
      assert kws[1] == "uidai";
    } else if i == 2 {
      assert kws[2] == "govt of india";
    } else if i == 3 {
      assert kws[3] == "government of india";
    } else {
      MissingCharRefutes(text, kws[4], 0);
    }
  }

  /** A pattern is refuted either by a letter outside the text's alphabet
      (a non-negative position) or by a known miss (a negative one). */
  lemma RefuteEach(text: string, alphabet: set<char>, patterns: seq<string>, at: seq<int>)
    requires OnlyChars(text, alphabet)
    requires |at| == |patterns|
    requires forall i :: 0 <= i < |patterns| ==>
               if at[i] < 0 then !Contains(text, patterns[i])
               else at[i] < |patterns[i]| && patterns[i][at[i]] !in alphabet
    ensures forall i :: 0 <= i < |patterns| ==> !Contains(text, patterns[i])
  {
    forall i | 0 <= i < |patterns| && at[i] >= 0
      ensures !Contains(text, patterns[i])
    {
      MissingCharRefutes(text, patterns[i], at[i]);
    }
  }

  lemma SentenceMisses(text: string, k: nat)
    requires OnlyChars(text, SentenceChars) && SentenceOtherMisses(text) && 1 <= k < |Categories|
    ensures forall i :: 0 <= i < |Categories[k].keywords| ==> !Contains(text, Categories[k].keywords[i])
  {
    var at := if k == 1 then [0, 1, 1, -1, 10, 0, 0]
              else if k == 2 then [0, 1, 1, -1, -1, 0, 0]
              else if k == 3 then [-1, 0, 0, 0, 2, 2, 3]
              else if k == 4 then [1, 10, 2, 5]
              else [-1, 3, -1, -1, 0];
    SentenceMissesAt(text, k, at);
  }

  /** The refutation of category `k`'s keywords by the positions `at`. */
  lemma SentenceMissesAt(text: string, k: nat, at: seq<int>)
    requires OnlyChars(text, SentenceChars) && SentenceOtherMisses(text) && 1 <= k < |Categories|
    requires at == if k == 1 then [0, 1, 1, -1, 10, 0, 0]
                   else if k == 2 then [0, 1, 1, -1, -1, 0, 0]
                   else if k == 3 then [-1, 0, 0, 0, 2, 2, 3]
                   else if k == 4 then [1, 10, 2, 5]
                   else [-1, 3, -1, -1, 0]
    ensures forall i :: 0 <= i < |Categories[k].keywords| ==> !Contains(text, Categories[k].keywords[i])
  {
    RefuteEach(text, SentenceChars, Categories[k].keywords, at);
  }

  /** A text over the letters of "hello world" matches no keyword, so it
      is unclassified. */
  lemma HelloLikeIsUnclassified(text: string)
    requires OnlyChars(text, HelloChars)
    ensures ClassifyDocument(text) == Unclassified
  {
    forall k | 0 <= k < |Categories|
      ensures Score(Categories, text, k).num == 0
    {
      HelloMisses(text, k);
      NoHitsScoreZero(text, k);
    }
    StockOverrideOnlyMapsZero(text);
  }

  lemma HelloWorldIsUnclassified()
    ensures ClassifyDocument("hello world") == Unclassified
  {
    assert OnlyChars("hello world", HelloChars);
    HelloLikeIsUnclassified("hello world");
  }

  /** Stock keywords are lower case, so a hit is a plain substring test. */
  lemma StockHitIff(text: string, k: nat, i: nat)
    requires k < |Categories| && i < |Categories[k].keywords|
    ensures KeywordHit(text, Categories[k].keywords[i]) <==> Contains(text, Categories[k].keywords[i])
  {
    KeywordIsLowerCase(k, i);
    LowerFixedIff(Categories[k].keywords[i]);
  }

  lemma NoHitsScoreZero(text: string, k: nat)
    requires k < |Categories|
    requires forall i :: 0 <= i < |Categories[k].keywords| ==> !Contains(text, Categories[k].keywords[i])
    ensures Score(Categories, text, k).num == 0
  {
    forall i | 0 <= i < |Categories[k].keywords|
      ensures !KeywordHit(text, Categories[k].keywords[i])
    {
      StockHitIff(text, k, i);
    }
    MatchCountZeroIff(text, Categories[k].keywords);
  }

  lemma SampleFirstBest(text: string)
    requires AadharLike(text)
    ensures IsFirstBest(Categories, text, 0)
    ensures Score(Categories, text, 0) == Ratio(2, 5)
  {
    SampleScoreAadhar(text);
    SampleOthersZero(text);
    AadharSoleBest(text);
  }

  lemma SampleOthersZero(text: string)
    requires OnlyChars(text, SampleChars)
    ensures forall k :: 1 <= k < |Categories| ==> Score(Categories, text, k).num == 0
  {
    forall k | 1 <= k < |Categories|
      ensures Score(Categories, text, k).num == 0
    {
      SampleMisses(text, k);
      NoHitsScoreZero(text, k);
    }
  }

  lemma SampleScoreAadhar(text: string)
    requires AadharLike(text)
    ensures Score(Categories, text, 0) == Ratio(2, 5)
  {
    SampleKeywordHits(text);
    MatchCountFirstHits(text, Categories[0].keywords, 2);
  }

  lemma SampleKeywordHits(text: string)
    requires AadharLike(text)
    ensures forall i :: 0 <= i < |Categories[0].keywords| ==>
              (KeywordHit(text, Categories[0].keywords[i]) <==> i < 2)
  {
    SampleHits(text);
    forall i | 0 <= i < |Categories[0].keywords|
      ensures KeywordHit(text, Categories[0].keywords[i]) <==> Contains(text, Categories[0].keywords[i])
    {
      StockHitIff(text, 0, i);
    }
  }

  /** Which Aadhar keywords the text contains: the first two. */
  lemma SampleHits(text: string)
    requires AadharLike(text)
    ensures forall i :: 0 <= i < |Categories[0].keywords| ==>
              (Contains(text, Categories[0].keywords[i]) <==> i < 2)
  {
    assert Categories[0].keywords[0] == "aadhar" && Categories[0].keywords[1] == "uidai";
    OutsideAlphabetRefutes(text, SampleChars, Categories[0].keywords[2..], [0, 0, 0]);
    assert forall i :: 2 <= i < |Categories[0].keywords| ==>
             Categories[0].keywords[i] == Categories[0].keywords[2..][i - 2];
  }

  lemma SampleMisses(text: string, k: nat)
    requires OnlyChars(text, SampleChars) && 1 <= k < |Categories|
    ensures forall i :: 0 <= i < |Categories[k].keywords| ==> !Contains(text, Categories[k].keywords[i])
  {
    var at := if k == 1 then [0, 1, 1, 0, 2, 0, 0]
              else if k == 2 then [0, 1, 1, 1, 0, 0, 0]
              else if k == 3 then [0, 0, 0, 0, 0, 1, 0]
              else if k == 4 then [0, 0, 0, 2]
              else [1, 1, 1, 4, 0];
    OutsideAlphabetRefutes(text, SampleChars, Categories[k].keywords, at);
  }

  lemma HelloMisses(text: string, k: nat)
    requires OnlyChars(text, HelloChars) && k < |Categories|
    ensures forall i :: 0 <= i < |Categories[k].keywords| ==> !Contains(text, Categories[k].keywords[i])
  {
    var at := if k == 0 then [0, 0, 0, 0, 0]
              else if k == 1 then [0, 0, 0, 0, 1, 0, 0]
              else if k == 2 then [0, 0, 0, 1, 0, 0, 0]
              else if k == 3 then [0, 0, 0, 0, 0, 0, 0]
              else if k == 4 then [0, 0, 1, 1]
              else [0, 0, 2, 0, 2];
    OutsideAlphabetRefutes(text, HelloChars, Categories[k].keywords, at);
  }
}
