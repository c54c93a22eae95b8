/** The results panel: the batch grouped by category, the summary counts,
    the per-category overview, the text preview and the badge colours. */
module Results {
  import opened Text
  import opened Documents

  /** One entry of the grouping: a category and its documents. */
  datatype Group = Group(category: string, docs: seq<DocRecord>)

  // ---------------------------------------------------------------------
  // Grouping, as the reduce computes it

  /** Adds one document to the grouping: appended to the group of its
      category, or as a new last group when the category is new. */
  function AddToGroups(gs: seq<Group>, d: DocRecord): (r: seq<Group>)
    ensures |gs| <= |r| <= |gs| + 1
    decreases |gs|
  {
    if gs == [] then [Group(d.category, [d])]
    else if gs[0].category == d.category then [gs[0].(docs := gs[0].docs + [d])] + gs[1..]
    else [gs[0]] + AddToGroups(gs[1..], d)
  }

  /** The grouping of the batch, one document at a time from the left. The
      keys come out in insertion order: no category is an integer-like
      string, so no key is moved to the front. */
  function GroupByCategory(docs: seq<DocRecord>): (gs: seq<Group>)
    ensures |gs| <= |docs|
    ensures |gs| == 0 <==> |docs| == 0
    decreases |docs|
  {
    if docs == [] then [] else AddToGroups(GroupByCategory(docs[..|docs| - 1]), docs[|docs| - 1])
  }

  // ---------------------------------------------------------------------
  // The reference grouping

  function CategoryList(docs: seq<DocRecord>): (cs: seq<string>)
    ensures |cs| == |docs|
    ensures forall i :: 0 <= i < |docs| ==> cs[i] == docs[i].category
  {
    seq(|docs|, i requires 0 <= i < |docs| => docs[i].category)
  }

  /** The distinct strings of `cs` in order of first occurrence. */
  function FirstOccurrences(cs: seq<string>): (keys: seq<string>)
    decreases |cs|
  {
    if cs == [] then []
    else
      var prior := FirstOccurrences(cs[..|cs| - 1]);
      if cs[|cs| - 1] in prior then prior else prior + [cs[|cs| - 1]]
  }

  /** The documents of category `c`, in batch order. */
  function OfCategory(docs: seq<DocRecord>, c: string): seq<DocRecord>
    decreases |docs|
  {
    if docs == [] then []
    else OfCategory(docs[..|docs| - 1], c) + (if docs[|docs| - 1].category == c then [docs[|docs| - 1]] else [])
  }

  /** For each distinct category, in order of first occurrence, the
      documents of that category in batch order. */
  function ReferenceGroups(docs: seq<DocRecord>): (gs: seq<Group>)
    ensures |gs| == |FirstOccurrences(CategoryList(docs))|
  {
    var keys := FirstOccurrences(CategoryList(docs));
    seq(|keys|, k requires 0 <= k < |keys| => Group(keys[k], OfCategory(docs, keys[k])))
  }

  function Keys(gs: seq<Group>): (ks: seq<string>)
    ensures |ks| == |gs|
    ensures forall k :: 0 <= k < |gs| ==> ks[k] == gs[k].category
  {
    seq(|gs|, k requires 0 <= k < |gs| => gs[k].category)
  }

  predicate Distinct(ks: seq<string>) {
    forall a, b :: 0 <= a < b < |ks| ==> ks[a] != ks[b]
  }

  // ---------------------------------------------------------------------
  // Facts about the reference

  /** The first occurrences are distinct and are exactly the strings that
      occur. */
  lemma {:induction false} FirstOccurrencesShape(cs: seq<string>)
    ensures Distinct(FirstOccurrences(cs))
    ensures forall c :: c in FirstOccurrences(cs) <==> c in cs
    decreases |cs|
  {
    if cs != [] {
      var n := |cs| - 1;
      FirstOccurrencesShape(cs[..n]);
      assert cs == cs[..n] + [cs[n]];
    }
  }

  /** A non-empty list naming one category throughout has that category as
      its only first occurrence. */
  lemma {:induction false} FirstOccurrencesOfOne(cs: seq<string>, c: string)
    requires |cs| > 0
    requires forall i :: 0 <= i < |cs| ==> cs[i] == c
    ensures FirstOccurrences(cs) == [c]
    decreases |cs|
  {
    var n := |cs| - 1;
    if n > 0 {
      FirstOccurrencesOfOne(cs[..n], c);
    } else {
      assert cs[..n] == [];
    }
  }

  /** `OfCategory` keeps exactly the documents of that category, in order:
      an element of the batch is in it if and only if it has that
      category. */
  lemma {:induction false} OfCategoryMembers(docs: seq<DocRecord>, c: string)
    ensures forall d :: d in OfCategory(docs, c) <==> d in docs && d.category == c
    ensures |OfCategory(docs, c)| <= |docs|
    decreases |docs|
  {
    if docs != [] {
      var n := |docs| - 1;
      OfCategoryMembers(docs[..n], c);
      assert docs == docs[..n] + [docs[n]];
    }
  }

  /** A category that occurs has a non-empty group. */
  lemma OfCategoryNonEmpty(docs: seq<DocRecord>, c: string)
    requires c in CategoryList(docs)
    ensures |OfCategory(docs, c)| > 0
  {
    OfCategoryMembers(docs, c);
    var i :| 0 <= i < |docs| && CategoryList(docs)[i] == c;
    assert docs[i] in OfCategory(docs, c);
  }

  // ---------------------------------------------------------------------
  // The reduce computes the reference

  /** Adding a document whose category has no group yet appends a new
      group holding only that document. */
  lemma {:induction false} AddToGroupsAbsent(gs: seq<Group>, d: DocRecord)
    requires d.category !in Keys(gs)
    ensures AddToGroups(gs, d) == gs + [Group(d.category, [d])]
    decreases |gs|
  {
    if gs != [] {
      assert Keys(gs[1..]) == Keys(gs)[1..];
      AddToGroupsAbsent(gs[1..], d);
      assert [gs[0]] + (gs[1..] + [Group(d.category, [d])]) == gs + [Group(d.category, [d])];
    }
  }

  /** With distinct keys, adding a document whose category is the key of
      group `k` appends it to that group and leaves every other group as
      it was. */
  lemma {:induction false} AddToGroupsPresent(gs: seq<Group>, d: DocRecord, k: nat)
    requires Distinct(Keys(gs))
    requires k < |gs| && gs[k].category == d.category
    ensures AddToGroups(gs, d) == gs[k := gs[k].(docs := gs[k].docs + [d])]
    decreases |gs|
  {
    if k > 0 {
      var rest := gs[1..];
      assert Keys(rest) == Keys(gs)[1..];
      assert gs[0].category != d.category by {
        assert Keys(gs)[0] != Keys(gs)[k];
      }
      AddToGroupsPresent(rest, d, k - 1);
      var g := gs[k].(docs := gs[k].docs + [d]);
      assert AddToGroups(gs, d) == [gs[0]] + rest[k - 1 := g];
      assert [gs[0]] + rest[k - 1 := g] == gs[k := g];
    } else {
      assert [gs[0].(docs := gs[0].docs + [d])] + gs[1..] == gs[0 := gs[0].(docs := gs[0].docs + [d])];
    }
  }

  /** The reduce yields the reference grouping. */
  lemma {:induction false} GroupByIsReference(docs: seq<DocRecord>)
    ensures GroupByCategory(docs) == ReferenceGroups(docs)
    decreases |docs|
  {
    if docs != [] {
      var n := |docs| - 1;
      GroupByIsReference(docs[..n]);
      ReferenceStep(docs[..n], docs[n]);
      assert docs[..n] + [docs[n]] == docs;
    }
  }

  /** Appending one document to the batch changes the reference grouping
      as `AddToGroups` does. */
  lemma ReferenceStep(prefix: seq<DocRecord>, d: DocRecord)
    ensures ReferenceGroups(prefix + [d]) == AddToGroups(ReferenceGroups(prefix), d)
  {
    var docs := prefix + [d];
    var before := ReferenceGroups(prefix);
    var oldKeys := FirstOccurrences(CategoryList(prefix));
    assert docs[..|docs| - 1] == prefix;
    assert CategoryList(docs)[..|docs| - 1] == CategoryList(prefix);
    FirstOccurrencesShape(CategoryList(prefix));
    assert Keys(before) == oldKeys;
    if d.category in oldKeys {
      var k :| 0 <= k < |oldKeys| && oldKeys[k] == d.category;
      AddToGroupsPresent(before, d, k);
      ReferenceStepOld(prefix, d);
    } else {
      AddToGroupsAbsent(before, d);
      ReferenceStepNew(prefix, d);
    }
  }

  lemma ReferenceStepOld(prefix: seq<DocRecord>, d: DocRecord)
    requires d.category in FirstOccurrences(CategoryList(prefix))
    ensures var before := ReferenceGroups(prefix);
            forall k :: 0 <= k < |before| && before[k].category == d.category ==>
              ReferenceGroups(prefix + [d]) == before[k := before[k].(docs := before[k].docs + [d])]
  {
    var docs := prefix + [d];
    var before := ReferenceGroups(prefix);
    var oldKeys := FirstOccurrences(CategoryList(prefix));
    assert docs[..|docs| - 1] == prefix;
    assert CategoryList(docs)[..|docs| - 1] == CategoryList(prefix);
    assert FirstOccurrences(CategoryList(docs)) == oldKeys;
    FirstOccurrencesShape(CategoryList(prefix));
    forall k | 0 <= k < |before| && before[k].category == d.category
      ensures ReferenceGroups(docs) == before[k := before[k].(docs := before[k].docs + [d])]
    {
      var after := ReferenceGroups(docs);
      forall j | 0 <= j < |after|
        ensures after[j] == before[k := before[k].(docs := before[k].docs + [d])][j]
      {
        if j != k {
          assert oldKeys[j] != oldKeys[k];
        }
      }
    }
  }

  lemma ReferenceStepNew(prefix: seq<DocRecord>, d: DocRecord)
    requires d.category !in FirstOccurrences(CategoryList(prefix))
    ensures ReferenceGroups(prefix + [d]) == ReferenceGroups(prefix) + [Group(d.category, [d])]
  {
    var docs := prefix + [d];
    var before := ReferenceGroups(prefix);
    var oldKeys := FirstOccurrences(CategoryList(prefix));
    assert docs[..|docs| - 1] == prefix;
    assert CategoryList(docs)[..|docs| - 1] == CategoryList(prefix);
    assert FirstOccurrences(CategoryList(docs)) == oldKeys + [d.category];
    AbsentCategoryIsEmpty(prefix, d.category);
    var after := ReferenceGroups(docs);
    forall j | 0 <= j < |after|
      ensures after[j] == (before + [Group(d.category, [d])])[j]
    {
      if j < |before| {
        assert oldKeys[j] != d.category;
      }
    }
  }

  lemma AbsentCategoryIsEmpty(docs: seq<DocRecord>, c: string)
    requires c !in FirstOccurrences(CategoryList(docs))
    ensures OfCategory(docs, c) == []
  {
    FirstOccurrencesShape(CategoryList(docs));
    forall i | 0 <= i < |docs|
      ensures docs[i].category != c
    {
      assert CategoryList(docs)[i] == docs[i].category;
    }
    OfCategoryNone(docs, c);
  }

  lemma {:induction false} OfCategoryNone(docs: seq<DocRecord>, c: string)
    requires forall i :: 0 <= i < |docs| ==> docs[i].category != c
    ensures OfCategory(docs, c) == []
    decreases |docs|
  {
    if docs != [] {
      OfCategoryNone(docs[..|docs| - 1], c);
    }
  }

  // ---------------------------------------------------------------------
  // What the panel promises about the grouping

  /** Group keys are distinct, appear in order of first occurrence, and are
      exactly the categories of the batch; no group is empty; a document
      is in a group exactly when the group's key is its category. */
  lemma GroupsPartitionBatch(docs: seq<DocRecord>)
    ensures Keys(GroupByCategory(docs)) == FirstOccurrences(CategoryList(docs))
    ensures Distinct(Keys(GroupByCategory(docs)))
    ensures forall c :: c in Keys(GroupByCategory(docs)) <==> exists i :: 0 <= i < |docs| && docs[i].category == c
    ensures forall g :: g in GroupByCategory(docs) ==> |g.docs| > 0
    ensures forall g, d :: g in GroupByCategory(docs) ==> (d in g.docs <==> d in docs && d.category == g.category)
    ensures forall g :: g in GroupByCategory(docs) ==> g.docs == OfCategory(docs, g.category)
  {
    GroupKeysAreFirstOccurrences(docs);
    FirstOccurrencesShape(CategoryList(docs));
    GroupKeysAreCategories(docs);
    forall g | g in GroupByCategory(docs)
      ensures |g.docs| > 0
      ensures forall d :: d in g.docs <==> d in docs && d.category == g.category
      ensures g.docs == OfCategory(docs, g.category)
    {
      GroupContents(docs, g);
    }
  }

  /** The keys of the grouping are the categories in order of first
      occurrence. */
  lemma GroupKeysAreFirstOccurrences(docs: seq<DocRecord>)
    ensures Keys(GroupByCategory(docs)) == FirstOccurrences(CategoryList(docs))
  {
    GroupByIsReference(docs);
  }

  /** A category is a key exactly when some document has it. */
  lemma GroupKeysAreCategories(docs: seq<DocRecord>)
    ensures forall c :: c in Keys(GroupByCategory(docs)) <==> exists i :: 0 <= i < |docs| && docs[i].category == c
  {
    var cs := CategoryList(docs);
    GroupKeysAreFirstOccurrences(docs);
    FirstOccurrencesShape(cs);
    forall c
      ensures c in Keys(GroupByCategory(docs)) <==> exists i :: 0 <= i < |docs| && docs[i].category == c
    {
      if c in cs {
        var i :| 0 <= i < |cs| && cs[i] == c;
        assert docs[i].category == c;
      }
      if i :| 0 <= i < |docs| && docs[i].category == c {
        assert cs[i] == c;
      }
    }
  }

  /** Each group holds, in batch order, exactly the documents of its
      category, and at least one. */
  lemma GroupContents(docs: seq<DocRecord>, g: Group)
    requires g in GroupByCategory(docs)
    ensures g.docs == OfCategory(docs, g.category)
    ensures |g.docs| > 0
    ensures forall d :: d in g.docs <==> d in docs && d.category == g.category
  {
    GroupByIsReference(docs);
    var gs := GroupByCategory(docs);
    var cs := CategoryList(docs);
    FirstOccurrencesShape(cs);
    var k :| 0 <= k < |gs| && gs[k] == g;
    assert g.category in FirstOccurrences(cs);
    OfCategoryNonEmpty(docs, g.category);
    OfCategoryMembers(docs, g.category);
  }

  /** A non-empty batch whose documents all share one category forms a
      single group. */
  lemma SingleCategoryGroups(docs: seq<DocRecord>, c: string)
    requires |docs| > 0
    requires forall i :: 0 <= i < |docs| ==> docs[i].category == c
    ensures Keys(GroupByCategory(docs)) == [c]
  {
    FirstOccurrencesOfOne(CategoryList(docs), c);
    GroupKeysAreFirstOccurrences(docs);
  }

  /** Number of documents over all groups. */
  function GroupedCount(gs: seq<Group>): nat
    decreases |gs|
  {
    if gs == [] then 0 else GroupedCount(gs[..|gs| - 1]) + |gs[|gs| - 1].docs|
  }

  lemma {:induction false} GroupedCountHead(gs: seq<Group>)
    requires gs != []
    ensures GroupedCount(gs) == |gs[0].docs| + GroupedCount(gs[1..])
    decreases |gs|
  {
    if |gs| > 1 {
      var n := |gs| - 1;
      GroupedCountHead(gs[..n]);
      assert gs[..n][1..] == gs[1..][..|gs[1..]| - 1];
      assert gs[..n][0] == gs[0];
    } else {
      assert gs[..0] == [] && gs[1..] == [];
    }
  }

  lemma {:induction false} AddToGroupsCount(gs: seq<Group>, d: DocRecord)
    ensures GroupedCount(AddToGroups(gs, d)) == GroupedCount(gs) + 1
    decreases |gs|
  {
    var r := AddToGroups(gs, d);
    if gs == [] {
      assert r[..0] == [];
    } else {
      GroupedCountHead(gs);
      GroupedCountHead(r);
      if gs[0].category == d.category {
        assert r[1..] == gs[1..];
      } else {
        AddToGroupsCount(gs[1..], d);
        assert r[1..] == AddToGroups(gs[1..], d);
      }
    }
  }

  /** The group sizes add up to the number of documents. */
  lemma {:induction false} GroupSizesSumToTotal(docs: seq<DocRecord>)
    ensures GroupedCount(GroupByCategory(docs)) == |docs|
    decreases |docs|
  {
    if docs != [] {
      GroupSizesSumToTotal(docs[..|docs| - 1]);
      AddToGroupsCount(GroupByCategory(docs[..|docs| - 1]), docs[|docs| - 1]);
    }
  }

  // ---------------------------------------------------------------------
  // Summary counts

  /** The number of documents whose status is completed. */
  function SuccessfulCount(docs: seq<DocRecord>): (n: nat)
    ensures n <= |docs|
    ensures n == |docs| <==> forall i :: 0 <= i < |docs| ==> docs[i].status == Completed
    ensures n == 0 <==> forall i :: 0 <= i < |docs| ==> docs[i].status != Completed
    decreases |docs|
  {
    if docs == [] then 0
    else
      var prefix := docs[..|docs| - 1];
      assert forall i :: 0 <= i < |prefix| ==> prefix[i] == docs[i];
      SuccessfulCount(prefix) + (if docs[|docs| - 1].status == Completed then 1 else 0)
  }

  // ---------------------------------------------------------------------
  // Overview card and preview

  const OverviewSize := 3
  const PreviewSize := 500
  const MoreSuffix := " more..."

  function Min(a: nat, b: nat): nat {
    if a <= b then a else b
  }

  /** The names listed on a category card: those of its first three
      documents. */
  function ShownNames(docs: seq<DocRecord>): (names: seq<string>)
    ensures |names| == Min(OverviewSize, |docs|)
    ensures forall j :: 0 <= j < |names| ==> names[j] == docs[j].originalName
  {
    var shown := docs[..Min(OverviewSize, |docs|)];
    seq(|shown|, j requires 0 <= j < |shown| => shown[j].originalName)
  }

  /** The "+N more..." line under the names, empty when nothing is hidden. */
  function MoreNote(docs: seq<DocRecord>): (note: string)
    ensures note == "" <==> |docs| <= OverviewSize
    ensures note != "" ==> AnnouncedHidden(note) == |docs| - OverviewSize
  {
    if |docs| > OverviewSize then
      NoteAnnounces(|docs| - OverviewSize);
      "+" + Decimal(|docs| - OverviewSize) + MoreSuffix
    else ""
  }

  /** The number a "+N more..." line announces. */
  function AnnouncedHidden(note: string): nat {
    if |note| < 1 + |MoreSuffix| then 0 else ParseDecimal(note[1..|note| - |MoreSuffix|])
  }

  /** The card shows a note exactly when more than three documents are in
      the group, and the names shown plus the number the note announces
      is the size of the group. */
  lemma OverviewAccountsForAll(docs: seq<DocRecord>)
    ensures MoreNote(docs) != "" <==> |docs| > OverviewSize
    ensures |ShownNames(docs)| + AnnouncedHidden(MoreNote(docs)) == |docs|
  {
    if |docs| > OverviewSize {
      HiddenAnnounced(docs);
    }
  }

  lemma HiddenAnnounced(docs: seq<DocRecord>)
    requires |docs| > OverviewSize
    ensures AnnouncedHidden(MoreNote(docs)) == |docs| - OverviewSize
  {
    NoteAnnounces(|docs| - OverviewSize);
  }

  /** A note written for `n` hidden documents announces `n`. */
  lemma NoteAnnounces(n: nat)
    ensures AnnouncedHidden("+" + Decimal(n) + MoreSuffix) == n
  {
    var note := "+" + Decimal(n) + MoreSuffix;
    assert note[1..|note| - |MoreSuffix|] == Decimal(n);
    DecimalRoundTrip(n);
  }

  /** The text preview: the first 500 characters, then "..." if the text
      is longer. */
  function Preview(text: string): (p: string)
    ensures |p| <= PreviewSize + 3
  {
    text[..Min(PreviewSize, |text|)] + (if |text| > PreviewSize then "..." else "")
  }

  /** A text of at most 500 characters is shown whole; a longer one is cut
      to its first 500 characters followed by "...". */
  lemma PreviewShape(text: string)
    ensures |text| <= PreviewSize ==> Preview(text) == text
    ensures |text| > PreviewSize ==>
              |Preview(text)| == PreviewSize + 3 &&
              StartsWith(text, Preview(text)[..PreviewSize]) && Preview(text)[PreviewSize..] == "..."
  {
  }

  // ---------------------------------------------------------------------
  // Badge colours

  const DefaultColor := "bg-gray-100 text-gray-800"

  /** The colour table: one entry per category name, plus "Unclassified". */
  const ColorTable: seq<(string, string)> := [
    ("Aadhar", "bg-blue-100 text-blue-800"),
    ("10th", "bg-green-100 text-green-800"),
    ("12th", "bg-purple-100 text-purple-800"),
    ("Semester Marksheets", "bg-orange-100 text-orange-800"),
    ("NPTEL", "bg-yellow-100 text-yellow-800"),
    ("Certificates", "bg-pink-100 text-pink-800"),
    ("Unclassified", DefaultColor)
  ]

  function Lookup(table: seq<(string, string)>, key: string): (r: string)
    ensures (exists k :: 0 <= k < |table| && table[k].0 == key) || r == DefaultColor
    ensures forall k :: 0 <= k < |table| && table[k].0 == key && (forall j :: 0 <= j < k ==> table[j].0 != key) ==>
              r == table[k].1
    decreases |table|
  {
    if table == [] then DefaultColor
    else if table[0].0 == key then table[0].1
    else
      var r := Lookup(table[1..], key);
      assert forall k :: 1 <= k < |table| ==> table[1..][k - 1] == table[k];
      r
  }

  function CategoryColor(category: string): string {
    Lookup(ColorTable, category)
  }

  /** A listed name gets its own colour; "Unclassified" and every other
      string get the gray default. */
  lemma CategoryColorSpec(category: string)
    ensures forall k :: 0 <= k < |ColorTable| && ColorTable[k].0 == category ==> CategoryColor(category) == ColorTable[k].1
    ensures (forall k :: 0 <= k < |ColorTable| ==> ColorTable[k].0 != category) ==> CategoryColor(category) == DefaultColor
  {
    forall k | 0 <= k < |ColorTable| && ColorTable[k].0 == category
      ensures CategoryColor(category) == ColorTable[k].1
    {
      ColorTableKeysDistinct();
    }
  }

  lemma ColorTableKeysDistinct()
    ensures forall a, b :: 0 <= a < b < |ColorTable| ==> ColorTable[a].0 != ColorTable[b].0
  {
  }
}
