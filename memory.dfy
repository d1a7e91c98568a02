/** Memory-item derivation of store.tsx: `buildMemoryItemsFromDoc`
    (63-120) and the capped rebuild of the whole set (213).

    A document yields at most one summary item, then at most 5 fact items,
    3 action items and 5 segment items, in that order. Ids depend only on the
    document id, the category and the index, never on the clock, and are
    pairwise distinct within one document. */
module Memory {
  import opened Seqs
  import opened JsText
  import opened Types

  const MaxFacts: nat := 5
  const MaxActions: nat := 3
  const MaxSegments: nat := 5
  const MaxRebuilt: nat := 2000

  function CategoryName(c: MemoryCategory): string {
    match c
    case Summary => "summary"
    case Fact => "fact"
    case Action => "action"
    case SegmentItem => "segment"
  }

  /** `mem-{id}-summary`, or `mem-{id}-{category}-{idx}` for the others. */
  function ItemId(docId: string, c: MemoryCategory, idx: nat): string {
    if c == Summary then "mem-" + docId + "-summary"
    else "mem-" + docId + "-" + CategoryName(c) + "-" + Digits(idx)
  }

  function SummaryItem(doc: Document, now: string): MemoryItem {
    MemoryItem(ItemId(doc.id, Summary, 0), doc.id, doc.title + " 요약", Summary,
               doc.summaryText, doc.topicTags, now, now)
  }

  function FactItem(doc: Document, idx: nat, now: string): MemoryItem
    requires idx < |doc.summaryBullets|
  {
    MemoryItem(ItemId(doc.id, Fact, idx), doc.id, doc.title + " 핵심 포인트 " + Digits(idx + 1), Fact,
               doc.summaryBullets[idx], doc.topicTags, now, now)
  }

  function ActionItem(doc: Document, idx: nat, now: string): MemoryItem
    requires idx < |doc.actionSteps|
  {
    var step := doc.actionSteps[idx];
    MemoryItem(ItemId(doc.id, Action, idx), doc.id, doc.title + " 실행 " + Digits(idx + 1), Action,
               step.step + ": " + step.description, doc.topicTags, now, now)
  }

  /** A segment item's tags: the document's tags and the segment topic,
      with empty strings removed (`.filter(Boolean)`). */
  function SegmentTags(doc: Document, seg: Segment): seq<string> {
    Filter(doc.topicTags + [seg.topic], NonEmpty)
  }

  function SegmentItemOf(doc: Document, idx: nat, now: string): MemoryItem
    requires idx < |doc.segments|
  {
    var seg := doc.segments[idx];
    MemoryItem(ItemId(doc.id, SegmentItem, idx), doc.id, doc.title + " / " + seg.topic, SegmentItem,
               seg.content, SegmentTags(doc, seg), now, now)
  }

  /** Where a category stands in the derivation order. */
  function CategoryRank(c: MemoryCategory): nat {
    match c
    case Summary => 0
    case Fact => 1
    case Action => 2
    case SegmentItem => 3
  }

  /** An item's content is taken from the document it belongs to. */
  predicate ContentFromDocument(doc: Document, it: MemoryItem) {
    match it.category
    case Summary => it.content == doc.summaryText && it.content != ""
    case Fact => it.content in doc.summaryBullets
    case Action => exists k :: 0 <= k < |doc.actionSteps| && it.content == doc.actionSteps[k].step + ": " + doc.actionSteps[k].description
    case SegmentItem => exists k :: 0 <= k < |doc.segments| && it.content == doc.segments[k].content
                                    && it.tags == SegmentTags(doc, doc.segments[k])
  }

  /** Every item is of category `c`, belongs to `doc` and carries its content. */
  predicate AllDrawn(items: seq<MemoryItem>, doc: Document, c: MemoryCategory) {
    forall i :: 0 <= i < |items| ==>
      items[i].category == c && items[i].documentId == doc.id && ContentFromDocument(doc, items[i])
  }

  function SummaryPart(doc: Document, now: string): (r: seq<MemoryItem>)
    ensures |r| == (if doc.summaryText != "" then 1 else 0)
    ensures AllDrawn(r, doc, Summary)
  {
    if doc.summaryText != "" then [SummaryItem(doc, now)] else []
  }

  function FactPart(doc: Document, now: string): (r: seq<MemoryItem>)
    ensures |r| == Min(MaxFacts, |doc.summaryBullets|)
    ensures AllDrawn(r, doc, Fact)
    ensures forall i :: 0 <= i < |r| ==>
              r[i].id == ItemId(doc.id, Fact, i) && r[i].content == doc.summaryBullets[i]
              && r[i].title == doc.title + " 핵심 포인트 " + Digits(i + 1) && r[i].tags == doc.topicTags
  {
    var r := seq(Min(MaxFacts, |doc.summaryBullets|), i requires 0 <= i < Min(MaxFacts, |doc.summaryBullets|) => FactItem(doc, i, now));
    assert forall i :: 0 <= i < |r| ==> r[i].content == doc.summaryBullets[i];
    r
  }

  function ActionPart(doc: Document, now: string): (r: seq<MemoryItem>)
    ensures |r| == Min(MaxActions, |doc.actionSteps|)
    ensures AllDrawn(r, doc, Action)
    ensures forall i :: 0 <= i < |r| ==>
              r[i].id == ItemId(doc.id, Action, i)
              && r[i].content == doc.actionSteps[i].step + ": " + doc.actionSteps[i].description
              && r[i].title == doc.title + " 실행 " + Digits(i + 1) && r[i].tags == doc.topicTags
  {
    var r := seq(Min(MaxActions, |doc.actionSteps|), i requires 0 <= i < Min(MaxActions, |doc.actionSteps|) => ActionItem(doc, i, now));
    assert forall i :: 0 <= i < |r| ==> r[i].content == doc.actionSteps[i].step + ": " + doc.actionSteps[i].description;
    r
  }

  function SegmentPart(doc: Document, now: string): (r: seq<MemoryItem>)
    ensures |r| == Min(MaxSegments, |doc.segments|)
    ensures AllDrawn(r, doc, SegmentItem)
    ensures forall i :: 0 <= i < |r| ==>
              r[i].id == ItemId(doc.id, SegmentItem, i) && r[i].content == doc.segments[i].content
              && r[i].title == doc.title + " / " + doc.segments[i].topic
              && r[i].tags == SegmentTags(doc, doc.segments[i])
  {
    var r := seq(Min(MaxSegments, |doc.segments|), i requires 0 <= i < Min(MaxSegments, |doc.segments|) => SegmentItemOf(doc, i, now));
    assert forall i :: 0 <= i < |r| ==> r[i].content == doc.segments[i].content && r[i].tags == SegmentTags(doc, doc.segments[i]);
    r
  }

  /** The items `buildMemoryItemsFromDoc` returns. `now` is the timestamp
      the source reads from the clock. */
  function DerivedItems(doc: Document, now: string): (r: seq<MemoryItem>)
    ensures |r| == |SummaryPart(doc, now)| + Min(MaxFacts, |doc.summaryBullets|)
                  + Min(MaxActions, |doc.actionSteps|) + Min(MaxSegments, |doc.segments|)
    ensures |r| <= 14
  {
    SummaryPart(doc, now) + FactPart(doc, now) + ActionPart(doc, now) + SegmentPart(doc, now)
  }

  predicate CategoriesOrdered(r: seq<MemoryItem>) {
    forall i, j :: 0 <= i < j < |r| ==> CategoryRank(r[i].category) <= CategoryRank(r[j].category)
  }

  lemma {:induction false} DrawnConcat(x: seq<MemoryItem>, cx: MemoryCategory, y: seq<MemoryItem>, cy: MemoryCategory, doc: Document)
    requires CategoriesOrdered(x) && CategoryRank(cx) <= CategoryRank(cy)
    requires forall i :: 0 <= i < |x| ==> CategoryRank(x[i].category) <= CategoryRank(cx)
    requires forall i :: 0 <= i < |x| ==> x[i].documentId == doc.id && ContentFromDocument(doc, x[i])
    requires AllDrawn(y, doc, cy)
    ensures CategoriesOrdered(x + y)
    ensures forall i :: 0 <= i < |x + y| ==> CategoryRank((x + y)[i].category) <= CategoryRank(cy)
    ensures forall i :: 0 <= i < |x + y| ==> (x + y)[i].documentId == doc.id && ContentFromDocument(doc, (x + y)[i])
  {
    var r := x + y;
    assert forall i :: 0 <= i < |r| ==> r[i] == if i < |x| then x[i] else y[i - |x|];
  }

  /** What a derivation promises: every item belongs to the document and
      carries content taken from it, and categories come in the order
      summary, fact, action, segment. */
  lemma DerivedItemsDrawn(doc: Document, now: string)
    ensures forall i :: 0 <= i < |DerivedItems(doc, now)| ==>
      DerivedItems(doc, now)[i].documentId == doc.id && ContentFromDocument(doc, DerivedItems(doc, now)[i])
    ensures CategoriesOrdered(DerivedItems(doc, now))
  {
    var s, f, a, g := SummaryPart(doc, now), FactPart(doc, now), ActionPart(doc, now), SegmentPart(doc, now);
    DrawnConcat(s, Summary, f, Fact, doc);
    DrawnConcat(s + f, Fact, a, Action, doc);
    DrawnConcat(s + f + a, Action, g, SegmentItem, doc);
  }

  /** There is a summary item exactly when the document has a summary, and
      then it comes first. */
  lemma DerivedSummaryIff(doc: Document, now: string)
    ensures (exists i :: 0 <= i < |DerivedItems(doc, now)| && DerivedItems(doc, now)[i].category == Summary)
            <==> doc.summaryText != ""
    ensures doc.summaryText != "" ==> DerivedItems(doc, now)[0] == SummaryItem(doc, now)
  {
    var s, f, a, g := SummaryPart(doc, now), FactPart(doc, now), ActionPart(doc, now), SegmentPart(doc, now);
    var r := DerivedItems(doc, now);
    if doc.summaryText == "" {
      forall i | 0 <= i < |r| ensures r[i].category != Summary {
        Concat4At(s, f, a, g, i);
      }
    } else {
      Concat4At(s, f, a, g, 0);
    }
  }

  /** `buildMemoryItemsFromDoc`: pushes the summary item, then the items
      of each category one loop at a time. */
  method BuildMemoryItemsFromDoc(doc: Document, now: string) returns (items: seq<MemoryItem>)
    ensures items == DerivedItems(doc, now)
  {
    items := [];
    if doc.summaryText != "" {
      items := items + [SummaryItem(doc, now)];
    }
    items := PushFacts(doc, now, items);
    items := PushActions(doc, now, items);
    items := PushSegments(doc, now, items);
  }

  /** The loop over the first five summary bullets. */
  method PushFacts(doc: Document, now: string, items: seq<MemoryItem>) returns (r: seq<MemoryItem>)
    ensures r == items + FactPart(doc, now)
  {
    var bullets := Prefix(doc.summaryBullets, MaxFacts);
    r := items;
    for idx := 0 to |bullets|
      invariant r == items + FactPart(doc, now)[..idx]
    {
      PrefixSnoc(FactPart(doc, now), idx);
      r := r + [FactItem(doc, idx, now)];
    }
    assert FactPart(doc, now)[..|bullets|] == FactPart(doc, now);
  }

  /** The loop over the first three action steps. */
  method PushActions(doc: Document, now: string, items: seq<MemoryItem>) returns (r: seq<MemoryItem>)
    ensures r == items + ActionPart(doc, now)
  {
    var steps := Prefix(doc.actionSteps, MaxActions);
    r := items;
    for idx := 0 to |steps|
      invariant r == items + ActionPart(doc, now)[..idx]
    {
      PrefixSnoc(ActionPart(doc, now), idx);
      r := r + [ActionItem(doc, idx, now)];
    }
    assert ActionPart(doc, now)[..|steps|] == ActionPart(doc, now);
  }

  /** The loop over the first five segments. */
  method PushSegments(doc: Document, now: string, items: seq<MemoryItem>) returns (r: seq<MemoryItem>)
    ensures r == items + SegmentPart(doc, now)
  {
    var segments := Prefix(doc.segments, MaxSegments);
    r := items;
    for idx := 0 to |segments|
      invariant r == items + SegmentPart(doc, now)[..idx]
    {
      PrefixSnoc(SegmentPart(doc, now), idx);
      r := r + [SegmentItemOf(doc, idx, now)];
    }
    assert SegmentPart(doc, now)[..|segments|] == SegmentPart(doc, now);
  }

  function Ids(items: seq<MemoryItem>): (r: seq<string>)
    ensures |r| == |items| && forall i :: 0 <= i < |items| ==> r[i] == items[i].id
  {
    seq(|items|, i requires 0 <= i < |items| => items[i].id)
  }

  /** Ids depend on the document only: deriving at two different times
      gives the same ids, so a rebuild replaces items one for one. */
  lemma IdsIgnoreClock(doc: Document, now1: string, now2: string)
    ensures Ids(DerivedItems(doc, now1)) == Ids(DerivedItems(doc, now2))
  {
    var r1, r2 := DerivedItems(doc, now1), DerivedItems(doc, now2);
    assert SummaryPart(doc, now1) + FactPart(doc, now1) + ActionPart(doc, now1) + SegmentPart(doc, now1) == r1;
    assert SummaryPart(doc, now2) + FactPart(doc, now2) + ActionPart(doc, now2) + SegmentPart(doc, now2) == r2;
    assert Ids(SummaryPart(doc, now1)) == Ids(SummaryPart(doc, now2));
    assert Ids(FactPart(doc, now1)) == Ids(FactPart(doc, now2));
    assert Ids(ActionPart(doc, now1)) == Ids(ActionPart(doc, now2));
    assert Ids(SegmentPart(doc, now1)) == Ids(SegmentPart(doc, now2));
    IdsConcat(SummaryPart(doc, now1), FactPart(doc, now1), ActionPart(doc, now1), SegmentPart(doc, now1));
    IdsConcat(SummaryPart(doc, now2), FactPart(doc, now2), ActionPart(doc, now2), SegmentPart(doc, now2));
  }

  lemma IdsConcat(a: seq<MemoryItem>, b: seq<MemoryItem>, c: seq<MemoryItem>, d: seq<MemoryItem>)
    ensures Ids(a + b + c + d) == Ids(a) + Ids(b) + Ids(c) + Ids(d)
  {
  }

  /** The character right after `mem-{id}-` names the category. */
  lemma ItemIdCategoryChar(docId: string, c: MemoryCategory, idx: nat)
    ensures |ItemId(docId, c, idx)| > |docId| + 6
    ensures ItemId(docId, c, idx)[|docId| + 6] == CategoryName(c)[1]
  {
    var id := ItemId(docId, c, idx);
    var head := "mem-" + docId + "-";
    if c == Summary {
      assert id == head + "summary";
    } else {
      assert id == head + CategoryName(c) + "-" + Digits(idx);
    }
    assert id[|head| + 1] == id[|docId| + 6];
  }

  /** Ids of one document tell apart categories, and indexes below 10. */
  lemma ItemIdInjective(docId: string, c1: MemoryCategory, i1: nat, c2: MemoryCategory, i2: nat)
    requires i1 < 10 && i2 < 10
    requires ItemId(docId, c1, i1) == ItemId(docId, c2, i2)
    ensures c1 == c2
    ensures c1 != Summary ==> i1 == i2
  {
    ItemIdCategoryChar(docId, c1, i1);
    ItemIdCategoryChar(docId, c2, i2);
    if c1 != Summary && c1 == c2 {
      var id := ItemId(docId, c1, i1);
      assert id == "mem-" + docId + "-" + CategoryName(c1) + "-" + [DigitChar(i1)];
      assert id == "mem-" + docId + "-" + CategoryName(c1) + "-" + [DigitChar(i2)];
      assert id[|id| - 1] == DigitChar(i1) == DigitChar(i2);
    }
  }

  /** Every item of a derivation sits at a known category and index. */
  lemma DerivedItemAt(doc: Document, now: string, k: nat)
    requires k < |DerivedItems(doc, now)|
    ensures exists idx: nat :: idx < 5 && DerivedItems(doc, now)[k].id == ItemId(doc.id, DerivedItems(doc, now)[k].category, idx)
                               && (DerivedItems(doc, now)[k].category == Summary ==> idx == 0)
                               && PositionOf(doc, now, DerivedItems(doc, now)[k].category, idx) == k
  {
    var s, f, a, g := SummaryPart(doc, now), FactPart(doc, now), ActionPart(doc, now), SegmentPart(doc, now);
    var r := DerivedItems(doc, now);
    Concat4At(s, f, a, g, k);
    if k < |s| {
      assert r[k] == SummaryItem(doc, now);
      assert PositionOf(doc, now, Summary, 0) == k;
    } else if k < |s| + |f| {
      var idx := k - |s|;
      assert r[k] == FactItem(doc, idx, now);
      assert PositionOf(doc, now, Fact, idx) == k;
    } else if k < |s| + |f| + |a| {
      var idx := k - |s| - |f|;
      assert r[k] == ActionItem(doc, idx, now);
      assert PositionOf(doc, now, Action, idx) == k;
    } else {
      var idx := k - |s| - |f| - |a|;
      assert r[k] == SegmentItemOf(doc, idx, now);
      assert PositionOf(doc, now, SegmentItem, idx) == k;
    }
  }

  /** The position at which an item of category `c` and index `idx` lands. */
  function PositionOf(doc: Document, now: string, c: MemoryCategory, idx: nat): nat {
    var s, f, a := |SummaryPart(doc, now)|, Min(MaxFacts, |doc.summaryBullets|), Min(MaxActions, |doc.actionSteps|);
    match c
    case Summary => 0
    case Fact => s + idx
    case Action => s + f + idx
    case SegmentItem => s + f + a + idx
  }

  /** No two items derived from one document share an id. */
  lemma DerivedIdsDistinct(doc: Document, now: string)
    ensures NoDup(Ids(DerivedItems(doc, now)))
  {
    var r := DerivedItems(doc, now);
    forall p, q | 0 <= p < q < |r| ensures r[p].id != r[q].id {
      DerivedItemAt(doc, now, p);
      DerivedItemAt(doc, now, q);
      var ip: nat :| ip < 5 && r[p].id == ItemId(doc.id, r[p].category, ip)
                    && (r[p].category == Summary ==> ip == 0) && PositionOf(doc, now, r[p].category, ip) == p;
      var iq: nat :| iq < 5 && r[q].id == ItemId(doc.id, r[q].category, iq)
                    && (r[q].category == Summary ==> iq == 0) && PositionOf(doc, now, r[q].category, iq) == q;
      if r[p].id == r[q].id {
        ItemIdInjective(doc.id, r[p].category, ip, r[q].category, iq);
      }
    }
  }

  // ---------------------------------------------------------------
  // The rebuild of store.tsx:213

  /** The ids of `docs`. */
  function DocIds(docs: seq<Document>): set<string>
    decreases |docs|
  {
    if docs == [] then {} else {docs[0].id} + DocIds(docs[1..])
  }

  /** An id is in `DocIds(docs)` exactly when some document carries it. */
  lemma {:induction false} DocIdsMembers(docs: seq<Document>, id: string)
    ensures id in DocIds(docs) <==> exists d :: d in docs && d.id == id
    decreases |docs|
  {
    if docs != [] {
      DocIdsMembers(docs[1..], id);
      if id != docs[0].id && exists d :: d in docs && d.id == id {
        var d :| d in docs && d.id == id;
        assert d in docs[1..];
      }
    }
  }

  /** Every item names one of `docs` as its document. */
  predicate FromDocs(items: seq<MemoryItem>, docs: seq<Document>) {
    forall i :: 0 <= i < |items| ==> items[i].documentId in DocIds(docs)
  }

  /** `docs.flatMap(buildMemoryItemsFromDoc)`. Each item belongs to one of
      the documents. */
  function AllDerived(docs: seq<Document>, now: string): (r: seq<MemoryItem>)
    ensures FromDocs(r, docs)
  {
    if docs == [] then []
    else
      var first, rest := DerivedItems(docs[0], now), AllDerived(docs[1..], now);
      DerivedFromDoc(docs[0], now);
      FromDocsConcat(first, rest, docs);
      first + rest
  }

  /** Every item derived from `doc` names `doc`. */
  lemma DerivedFromDoc(doc: Document, now: string)
    ensures forall i :: 0 <= i < |DerivedItems(doc, now)| ==> DerivedItems(doc, now)[i].documentId == doc.id
  {
    var s, f, a, g := SummaryPart(doc, now), FactPart(doc, now), ActionPart(doc, now), SegmentPart(doc, now);
    assert DerivedItems(doc, now) == s + f + a + g;
  }

  lemma FromDocsConcat(first: seq<MemoryItem>, rest: seq<MemoryItem>, docs: seq<Document>)
    requires docs != []
    requires forall i :: 0 <= i < |first| ==> first[i].documentId == docs[0].id
    requires FromDocs(rest, docs[1..])
    ensures FromDocs(first + rest, docs)
  {
    var r := first + rest;
    forall i | 0 <= i < |r| ensures r[i].documentId in DocIds(docs) {
      if i < |first| {
        assert r[i] == first[i];
      } else {
        assert r[i] == rest[i - |first|];
      }
    }
  }

  /** The rebuilt memory set: the derivations of all documents, in document
      order, cut to 2000 items. */
  function RebuildMemory(docs: seq<Document>, now: string): (r: seq<MemoryItem>)
    ensures |r| <= MaxRebuilt
    ensures r <= AllDerived(docs, now)
    ensures |AllDerived(docs, now)| <= MaxRebuilt ==> r == AllDerived(docs, now)
    ensures FromDocs(r, docs)
  {
    var all := AllDerived(docs, now);
    var r := Prefix(all, MaxRebuilt);
    assert forall i :: 0 <= i < |r| ==> r[i] == all[i];
    r
  }

  /** Scenario: a summary and two bullets, no steps, no segments, give
      exactly three items, the summary first, all tagged as the document. */
  lemma SummaryAndTwoBullets(doc: Document, now: string)
    requires doc.summaryText != "" && |doc.summaryBullets| == 2
    requires doc.actionSteps == [] && doc.segments == []
    ensures |DerivedItems(doc, now)| == 3
    ensures DerivedItems(doc, now)[0].category == Summary
    ensures DerivedItems(doc, now)[1].category == Fact && DerivedItems(doc, now)[2].category == Fact
    ensures forall i :: 0 <= i < 3 ==> DerivedItems(doc, now)[i].tags == doc.topicTags
  {
    var r := DerivedItems(doc, now);
    assert r == SummaryPart(doc, now) + FactPart(doc, now) + ActionPart(doc, now) + SegmentPart(doc, now);
    assert ActionPart(doc, now) == [] && SegmentPart(doc, now) == [];
  }
}
