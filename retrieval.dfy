/** Retrieval of the documents that answer a question
    (`retrieveRelevantDocs`, store.tsx:122-151).

    Each document gets a weighted score: 55% lexical overlap of the
    question with its title, summary and first eight memory items, 25%
    overlap with its tags and 20% recency. Documents are ranked by score,
    highest first, ties kept in document order, and the first `limit`
    are returned. */
module Retrieval {
  import opened Wrappers
  import opened Seqs
  import opened Scoring
  import opened Types
  import opened Sorting

  const MemoriesPerDoc: nat := 8
  const LexicalWeight: real := 0.55
  const TagWeight: real := 0.25
  const RecencyWeight: real := 0.2
  const DefaultLimit: int := 8

  /** A ranked entry `{ doc, total }`. */
  datatype Ranked = Ranked(doc: Document, total: real)

  function Total(e: Ranked): real { e.total }

  /** The memory items of one document, in their original order. */
  function MemoryOf(items: seq<MemoryItem>, docId: string): (r: seq<MemoryItem>)
    ensures forall i :: 0 <= i < |r| ==> r[i] in items && r[i].documentId == docId
    ensures forall i :: 0 <= i < |items| && items[i].documentId == docId ==> items[i] in r
  {
    Filter(items, (m: MemoryItem) => m.documentId == docId)
  }

  /** `memoryByDoc[id] || []`. */
  function Lookup(groups: map<string, seq<MemoryItem>>, docId: string): seq<MemoryItem> {
    if docId in groups then groups[docId] else []
  }

  /** The `reduce` that groups memory items by document: every document's
      group holds exactly its items in order, and only documents that have
      items get a key. */
  method GroupByDocument(items: seq<MemoryItem>) returns (groups: map<string, seq<MemoryItem>>)
    ensures forall id :: Lookup(groups, id) == MemoryOf(items, id)
    ensures forall id :: id in groups ==> groups[id] != []
  {
    groups := map[];
    for i := 0 to |items|
      invariant forall id :: Lookup(groups, id) == MemoryOf(items[..i], id)
      invariant forall id :: id in groups ==> groups[id] != []
    {
      var item := items[i];
      var before := groups;
      groups := groups[item.documentId := Lookup(groups, item.documentId) + [item]];
      PrefixSnoc(items, i);
      forall id ensures Lookup(groups, id) == MemoryOf(items[..i + 1], id) {
        MemoryOfSnoc(items[..i], item, id);
      }
    }
    assert items[..|items|] == items;
  }

  lemma MemoryOfSnoc(xs: seq<MemoryItem>, item: MemoryItem, id: string)
    ensures MemoryOf(xs + [item], id) == MemoryOf(xs, id) + (if item.documentId == id then [item] else [])
  {
    FilterConcat(xs, [item], (m: MemoryItem) => m.documentId == id);
  }

  function MemoryLine(m: MemoryItem): string {
    m.title + " " + m.content
  }

  /** The text of the first eight memories, `title content` each, joined by
      spaces. */
  function MemoryText(memories: seq<MemoryItem>): string {
    var first := Prefix(memories, MemoriesPerDoc);
    Join(seq(|first|, i requires 0 <= i < |first| => MemoryLine(first[i])), " ")
  }

  function LexicalText(doc: Document, memories: seq<MemoryItem>): string {
    doc.title + " " + doc.summaryText + " " + MemoryText(memories)
  }

  function TagText(doc: Document): string {
    Join(doc.topicTags, " ")
  }

  /** A document's total score. `parse` reads a timestamp and `nowMs` is
      the clock. At least the recency floor's share, at most 1. */
  function Score(q: seq<string>, doc: Document, memories: seq<MemoryItem>,
                 parse: string -> Option<int>, nowMs: int): (r: real)
    ensures 0.02 <= r <= 1.0
  {
    Overlap(q, LexicalText(doc, memories)) * LexicalWeight
    + Overlap(q, TagText(doc)) * TagWeight
    + RecencyScore(doc.createdAt, parse, nowMs) * RecencyWeight
  }

  /** The `map` step: every document with its score, in document order. */
  function Scored(q: seq<string>, docs: seq<Document>, items: seq<MemoryItem>,
                  parse: string -> Option<int>, nowMs: int): (r: seq<Ranked>)
    ensures |r| == |docs|
    ensures forall i :: 0 <= i < |docs| ==>
      r[i] == Ranked(docs[i], Score(q, docs[i], MemoryOf(items, docs[i].id), parse, nowMs))
  {
    seq(|docs|, i requires 0 <= i < |docs| => Ranked(docs[i], Score(q, docs[i], MemoryOf(items, docs[i].id), parse, nowMs)))
  }

  /** The entries with score 0 that the source falls back to. */
  function ZeroRanked(docs: seq<Document>): (r: seq<Ranked>)
    ensures |r| == |docs|
    ensures forall i :: 0 <= i < |r| ==> r[i].doc == docs[i] && r[i].total == 0.0
  {
    seq(|docs|, i requires 0 <= i < |docs| => Ranked(docs[i], 0.0))
  }

  /** The value of `retrieveRelevantDocs(question, docs, memoryItems, limit)`:
      as many entries as `docs.slice(0, limit)` has documents. */
  function Rank(question: string, docs: seq<Document>, items: seq<MemoryItem>, limit: int,
                parse: string -> Option<int>, nowMs: int): (r: seq<Ranked>)
    ensures |r| == SliceEnd(|docs|, limit)
  {
    if docs == [] then []
    else
      var ranked := Slice(SortDesc(Scored(Tokenize(question), docs, items, parse, nowMs), Total), limit);
      if ranked != [] then ranked else ZeroRanked(Slice(docs, limit))
  }

  /** With the default `limit = 8` (store.tsx:126) at most eight documents
      are returned, and all of them when there are no more than eight. */
  lemma DefaultLimitRank(question: string, docs: seq<Document>, items: seq<MemoryItem>,
                         parse: string -> Option<int>, nowMs: int)
    ensures |Rank(question, docs, items, DefaultLimit, parse, nowMs)| == Min(8, |docs|)
  {
  }

  /** `retrieveRelevantDocs`: groups the memories, scores each document in
      a loop, sorts and cuts. */
  method RetrieveRelevantDocs(question: string, docs: seq<Document>, items: seq<MemoryItem>, limit: int,
                              parse: string -> Option<int>, nowMs: int)
    returns (r: seq<Ranked>)
    ensures r == Rank(question, docs, items, limit, parse, nowMs)
  {
    if docs == [] {
      return [];
    }
    var qTokens := Tokenize(question);
    var memoryByDoc := GroupByDocument(items);
    ghost var spec := Scored(qTokens, docs, items, parse, nowMs);
    var scored: seq<Ranked> := [];
    for i := 0 to |docs|
      invariant scored == spec[..i]
    {
      var doc := docs[i];
      var total := ScoreDocument(qTokens, doc, Lookup(memoryByDoc, doc.id), parse, nowMs);
      PrefixSnoc(spec, i);
      scored := scored + [Ranked(doc, total)];
    }
    assert scored == spec;
    var ranked := Slice(SortDesc(scored, Total), limit);
    if ranked != [] {
      r := ranked;
    } else {
      r := ZeroRanked(Slice(docs, limit));
    }
  }

  /** The body of the `map` callback for one document. */
  method ScoreDocument(q: seq<string>, doc: Document, memories: seq<MemoryItem>,
                       parse: string -> Option<int>, nowMs: int)
    returns (total: real)
    ensures total == Score(q, doc, memories, parse, nowMs)
  {
    var lexical := OverlapRatio(q, LexicalText(doc, memories));
    var tagOverlap := OverlapRatio(q, TagText(doc));
    var recent := RecencyScore(doc.createdAt, parse, nowMs);
    total := lexical * LexicalWeight + tagOverlap * TagWeight + recent * RecencyWeight;
  }

  // ---------------------------------------------------------------
  // What the ranking promises

  /** The fallback branch changes nothing: it is taken only when the cut
      keeps no entry, and then it keeps no document either. */
  lemma RankIsSortedPrefix(question: string, docs: seq<Document>, items: seq<MemoryItem>, limit: int,
                           parse: string -> Option<int>, nowMs: int)
    ensures Rank(question, docs, items, limit, parse, nowMs)
            == SortDesc(Scored(Tokenize(question), docs, items, parse, nowMs), Total)[..SliceEnd(|docs|, limit)]
  {
  }

  /** A non-empty list and a positive limit always give some entry. */
  lemma RankNonEmpty(question: string, docs: seq<Document>, items: seq<MemoryItem>, limit: int,
                   parse: string -> Option<int>, nowMs: int)
    ensures docs != [] && limit >= 1 ==> Rank(question, docs, items, limit, parse, nowMs) != []
  {
    RankIsSortedPrefix(question, docs, items, limit, parse, nowMs);
  }

  /** The scores go down and no entry appears more often than in the
      scored input. */
  lemma RankSortedPermutation(question: string, docs: seq<Document>, items: seq<MemoryItem>, limit: int,
                              parse: string -> Option<int>, nowMs: int)
    ensures SortedDesc(Rank(question, docs, items, limit, parse, nowMs), Total)
    ensures multiset(Rank(question, docs, items, limit, parse, nowMs))
            <= multiset(Scored(Tokenize(question), docs, items, parse, nowMs))
  {
    var sorted := SortDesc(Scored(Tokenize(question), docs, items, parse, nowMs), Total);
    var e := SliceEnd(|docs|, limit);
    RankIsSortedPrefix(question, docs, items, limit, parse, nowMs);
    PrefixSuffix(sorted, e);
  }

  /** Every entry is a document of the input carrying its own score. */
  lemma RankEntries(question: string, docs: seq<Document>, items: seq<MemoryItem>, limit: int,
                    parse: string -> Option<int>, nowMs: int, i: nat)
    requires i < |Rank(question, docs, items, limit, parse, nowMs)|
    ensures var e := Rank(question, docs, items, limit, parse, nowMs)[i];
            e.doc in docs
            && e.total == Score(Tokenize(question), e.doc, MemoryOf(items, e.doc.id), parse, nowMs)
            && 0.02 <= e.total <= 1.0
  {
    var scored := Scored(Tokenize(question), docs, items, parse, nowMs);
    var e := Rank(question, docs, items, limit, parse, nowMs)[i];
    RankSortedPermutation(question, docs, items, limit, parse, nowMs);
    assert e in multiset(Rank(question, docs, items, limit, parse, nowMs));
    assert e in multiset(scored);
    var j :| 0 <= j < |scored| && scored[j] == e;
  }

  /** Documents with distinct ids give entries with distinct ids. */
  lemma RankDistinctIds(question: string, docs: seq<Document>, items: seq<MemoryItem>, limit: int,
                        parse: string -> Option<int>, nowMs: int)
    requires forall i, j :: 0 <= i < j < |docs| ==> docs[i].id != docs[j].id
    ensures var r := Rank(question, docs, items, limit, parse, nowMs);
            forall i, j :: 0 <= i < j < |r| ==> r[i].doc.id != r[j].doc.id
  {
    var scored := Scored(Tokenize(question), docs, items, parse, nowMs);
    RankSortedPermutation(question, docs, items, limit, parse, nowMs);
    DrawnIdsDistinct(Rank(question, docs, items, limit, parse, nowMs), scored);
  }

  /** Entries drawn without repeats from entries of distinct documents are
      of distinct documents. */
  lemma DrawnIdsDistinct(r: seq<Ranked>, scored: seq<Ranked>)
    requires forall i, j :: 0 <= i < j < |scored| ==> scored[i].doc.id != scored[j].doc.id
    requires multiset(r) <= multiset(scored)
    ensures forall i, j :: 0 <= i < j < |r| ==> r[i].doc.id != r[j].doc.id
  {
    assert NoDup(scored);
    SubBagNoDup(r, scored);
    forall i, j | 0 <= i < j < |r| ensures r[i].doc.id != r[j].doc.id {
      assert r[i] in multiset(scored) && r[j] in multiset(scored);
      var p :| 0 <= p < |scored| && scored[p] == r[i];
      var q :| 0 <= q < |scored| && scored[q] == r[j];
      if p > q {
        assert scored[q].doc.id != scored[p].doc.id;
      }
    }
  }

  /** No document left out scores higher than one that was kept. */
  lemma RankKeepsTheBest(question: string, docs: seq<Document>, items: seq<MemoryItem>, limit: int,
                         parse: string -> Option<int>, nowMs: int)
    ensures var r := Rank(question, docs, items, limit, parse, nowMs);
            var sorted := SortDesc(Scored(Tokenize(question), docs, items, parse, nowMs), Total);
            sorted[..|r|] == r
            && forall i, j :: 0 <= i < |r| <= j < |sorted| ==> sorted[j].total <= r[i].total
  {
    RankIsSortedPrefix(question, docs, items, limit, parse, nowMs);
  }

  /** Entries with equal scores keep the order of their documents: those
      with score `k` are the first of the input's entries with score `k`. */
  lemma RankStable(question: string, docs: seq<Document>, items: seq<MemoryItem>, limit: int,
                   parse: string -> Option<int>, nowMs: int, k: real)
    ensures WithKey(Rank(question, docs, items, limit, parse, nowMs), Total, k)
            <= WithKey(Scored(Tokenize(question), docs, items, parse, nowMs), Total, k)
  {
    var sorted := SortDesc(Scored(Tokenize(question), docs, items, parse, nowMs), Total);
    RankIsSortedPrefix(question, docs, items, limit, parse, nowMs);
    WithKeyPrefix(sorted, SliceEnd(|docs|, limit), Total, k);
  }

  /** Only the first eight memory items of a document count. */
  lemma ScoreReadsEightMemories(q: seq<string>, doc: Document, m1: seq<MemoryItem>, m2: seq<MemoryItem>,
                                parse: string -> Option<int>, nowMs: int)
    requires Prefix(m1, MemoriesPerDoc) == Prefix(m2, MemoriesPerDoc)
    ensures Score(q, doc, m1, parse, nowMs) == Score(q, doc, m2, parse, nowMs)
  {
    assert MemoryText(m1) == MemoryText(m2);
  }

  /** A question without tokens ranks by recency alone. */
  lemma TokenlessQuestion(q: seq<string>, doc: Document, memories: seq<MemoryItem>,
                          parse: string -> Option<int>, nowMs: int)
    requires q == []
    ensures Score(q, doc, memories, parse, nowMs) == RecencyScore(doc.createdAt, parse, nowMs) * RecencyWeight
  {
  }

  /** A question whose every token appears in a document's texts gives
      that document the highest share lexical and tag overlap can give. */
  lemma FullMatchScore(q: seq<string>, doc: Document, memories: seq<MemoryItem>,
                       parse: string -> Option<int>, nowMs: int)
    requires q != []
    requires forall i :: 0 <= i < |q| ==> q[i] in TokenSet(LexicalText(doc, memories)) && q[i] in TokenSet(TagText(doc))
    ensures Score(q, doc, memories, parse, nowMs) == 0.8 + RecencyScore(doc.createdAt, parse, nowMs) * RecencyWeight
  {
    OverlapFullIff(q, LexicalText(doc, memories));
    OverlapFullIff(q, TagText(doc));
  }
}
