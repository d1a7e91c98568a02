/** The workspace state of `AppProvider` (store.tsx:181-400): the lists it
    keeps in React state and the updaters that rewrite them. Each
    asynchronous action is split at its `await`: a `Begin…` method for what
    happens before, and `Complete…`/`Fail…` methods for the two ways the
    awaited call can end, given its result. Between them any other method
    may run, as in the browser. The clock is a parameter (`nowMs` for
    `Date.now()`, `nowIso` for `new Date().toISOString()`). */
module Store {
  import opened Wrappers
  import opened Seqs
  import opened JsText
  import opened Types
  import Memory

  /** The value an awaited call was rejected with: an `Error` and its
      message, or anything else. */
  datatype Failure = ErrorWithMessage(message: string) | NonError

  /** `e instanceof Error ? e.message : fallback`. */
  function MessageOr(f: Failure, fallback: string): string {
    if f.ErrorWithMessage? then f.message else fallback
  }

  const DefaultWorkspace: string := "w1"
  const AnalyzingTitle: string := "AI 분석 중..."
  const FailedTitle: string := "분석 실패"
  const AnalysisFailed: string := "분석 실패"
  const FailedSummary: string := "오류가 발생했습니다."
  const QuestionTooShort: string := "질문을 2글자 이상 입력해 주세요."
  const AskFailed: string := "실패했습니다."
  const LoadFailed: string := "데이터 로드 실패"
  const MinQuestionLength: nat := 2
  const HistoryLimit: nat := 30

  // ---------------------------------------------------------------
  // addDocument (store.tsx:291-336)

  /** `temp-${Date.now()}`: the prefix, then the clock reading in decimal. */
  function TempId(nowMs: int): (r: string)
    ensures |r| > 5 && r[..5] == "temp-" && r[5..] == IntToString(nowMs)
  {
    "temp-" + IntToString(nowMs)
  }

  /** Additions at different milliseconds get different temporary ids. */
  lemma TempIdInjective(m: int, n: int)
    requires TempId(m) == TempId(n)
    ensures m == n
  {
    IntToStringInjective(m, n);
  }

  /** The placeholder shown while the input is analysed: the input as raw
      text under the temporary id, still being processed, with nothing
      analysed yet. */
  function InitialDocument(tempId: string, input: string, nowIso: string): (d: Document)
    ensures d.id == tempId && d.rawText == input && d.createdAt == nowIso
    ensures d.status == Processing && d.title == AnalyzingTitle
    ensures d.workspaceId == DefaultWorkspace && d.sourceType == Manual && d.docType == Text
    ensures d.segments == [] && d.actionSteps == [] && d.summaryText == "" && d.summaryBullets == []
    ensures d.knowledgeScore == 0 && d.topicTags == []
  {
    Document(tempId, DefaultWorkspace, Manual, AnalyzingTitle, input, Text, [], [],
             Processing, "", [], 0, [], nowIso)
  }

  /** The fields the analysis returned; `None` for a field it left out.
      An empty `id` is one JavaScript treats as missing. */
  datatype Analysis = Analysis(
    id: string,
    workspaceId: Option<string>,
    sourceType: Option<SourceType>,
    title: Option<string>,
    rawText: Option<string>,
    docType: Option<DocType>,
    segments: Option<seq<Segment>>,
    actionSteps: Option<seq<ActionStep>>,
    summaryText: Option<string>,
    summaryBullets: Option<seq<string>>,
    knowledgeScore: Option<int>,
    topicTags: Option<seq<string>>,
    createdAt: Option<string>)

  function Override<T>(o: Option<T>, d: T): T { if o.Some? then o.value else d }

  /** `v` is the analysis's value `o` when it has one, `base` otherwise. */
  predicate Spread<T(==)>(o: Option<T>, base: T, v: T) {
    (o.Some? ==> v == o.value) && (o.None? ==> v == base)
  }

  /** `{ ...initial, ...analysis, id: analysis.id || initial.id, status: Done }`:
      every field the analysis returned wins over the placeholder's, every
      other field is the placeholder's, a non-empty id is taken, and the
      document is done. */
  function Analyzed(initial: Document, a: Analysis): (d: Document)
    ensures d.status == Done
    ensures d.id == if a.id != "" then a.id else initial.id
    ensures Spread(a.workspaceId, initial.workspaceId, d.workspaceId)
    ensures Spread(a.sourceType, initial.sourceType, d.sourceType)
    ensures Spread(a.title, initial.title, d.title)
    ensures Spread(a.rawText, initial.rawText, d.rawText)
    ensures Spread(a.docType, initial.docType, d.docType)
    ensures Spread(a.segments, initial.segments, d.segments)
    ensures Spread(a.actionSteps, initial.actionSteps, d.actionSteps)
    ensures Spread(a.summaryText, initial.summaryText, d.summaryText)
    ensures Spread(a.summaryBullets, initial.summaryBullets, d.summaryBullets)
    ensures Spread(a.knowledgeScore, initial.knowledgeScore, d.knowledgeScore)
    ensures Spread(a.topicTags, initial.topicTags, d.topicTags)
    ensures Spread(a.createdAt, initial.createdAt, d.createdAt)
  {
    Document(if a.id != "" then a.id else initial.id,
             Override(a.workspaceId, initial.workspaceId),
             Override(a.sourceType, initial.sourceType),
             Override(a.title, initial.title),
             Override(a.rawText, initial.rawText),
             Override(a.docType, initial.docType),
             Override(a.segments, initial.segments),
             Override(a.actionSteps, initial.actionSteps),
             Done,
             Override(a.summaryText, initial.summaryText),
             Override(a.summaryBullets, initial.summaryBullets),
             Override(a.knowledgeScore, initial.knowledgeScore),
             Override(a.topicTags, initial.topicTags),
             Override(a.createdAt, initial.createdAt))
  }

  /** The placeholder after a failed analysis. */
  function FailedDocument(d: Document, f: Failure): (r: Document)
    ensures r.status == Failed && r.title == FailedTitle
    ensures r.summaryText == MessageOr(f, FailedSummary)
    ensures r.(status := d.status, title := d.title, summaryText := d.summaryText) == d
  {
    d.(status := Failed, title := FailedTitle, summaryText := MessageOr(f, FailedSummary))
  }

  /** `prev.map(d => d.id === tempId ? next : d)`: the documents with the
      temporary id become `next`; every other document stays where it is. */
  function ReplaceTemp(prev: seq<Document>, tempId: string, next: Document): (r: seq<Document>)
    ensures |r| == |prev|
    ensures forall i :: 0 <= i < |r| && prev[i].id != tempId ==> r[i] == prev[i]
    ensures forall i :: 0 <= i < |r| && prev[i].id == tempId ==> r[i] == next
  {
    seq(|prev|, i requires 0 <= i < |prev| => if prev[i].id == tempId then next else prev[i])
  }

  /** The failure update: the documents with the temporary id are marked
      Failed, each keeping its other fields; nothing else changes. */
  function FailTemp(prev: seq<Document>, tempId: string, f: Failure): (r: seq<Document>)
    ensures |r| == |prev|
    ensures forall i :: 0 <= i < |r| && prev[i].id != tempId ==> r[i] == prev[i]
    ensures forall i :: 0 <= i < |r| && prev[i].id == tempId ==>
              r[i].id == tempId && r[i].status == Failed && r[i].title == FailedTitle
              && r[i].summaryText == MessageOr(f, FailedSummary) && r[i].rawText == prev[i].rawText
  {
    seq(|prev|, i requires 0 <= i < |prev| => if prev[i].id == tempId then FailedDocument(prev[i], f) else prev[i])
  }

  /** Without another addition in between, a successful analysis turns
      exactly the placeholder it prepended into the analysed document. */
  lemma AddDocumentSucceeds(prev: seq<Document>, nowMs: int, input: string, nowIso: string, a: Analysis)
    requires forall d :: d in prev ==> d.id != TempId(nowMs)
    ensures var initial := InitialDocument(TempId(nowMs), input, nowIso);
            var r := ReplaceTemp([initial] + prev, TempId(nowMs), Analyzed(initial, a));
            r == [Analyzed(initial, a)] + prev && r[0].status == Done
  {
    var initial := InitialDocument(TempId(nowMs), input, nowIso);
    var r := ReplaceTemp([initial] + prev, TempId(nowMs), Analyzed(initial, a));
    assert forall i :: 0 < i < |r| ==> ([initial] + prev)[i] == prev[i - 1];
  }

  /** Without another addition in between, a failed analysis marks exactly
      the placeholder it prepended as Failed, keeping the input text. */
  lemma AddDocumentFails(prev: seq<Document>, nowMs: int, input: string, nowIso: string, f: Failure)
    requires forall d :: d in prev ==> d.id != TempId(nowMs)
    ensures var initial := InitialDocument(TempId(nowMs), input, nowIso);
            var r := FailTemp([initial] + prev, TempId(nowMs), f);
            r == [FailedDocument(initial, f)] + prev
            && r[0].status == Failed && r[0].title == FailedTitle && r[0].rawText == input
  {
    var initial := InitialDocument(TempId(nowMs), input, nowIso);
    var r := FailTemp([initial] + prev, TempId(nowMs), f);
    assert forall i :: 0 < i < |r| ==> ([initial] + prev)[i] == prev[i - 1];
  }

  /** Once the placeholder is gone (the workspace was reset meanwhile), the
      completion of its analysis changes nothing. */
  lemma CompletionAfterRemoval(prev: seq<Document>, tempId: string, next: Document, f: Failure)
    requires forall d :: d in prev ==> d.id != tempId
    ensures ReplaceTemp(prev, tempId, next) == prev
    ensures FailTemp(prev, tempId, f) == prev
  {
  }

  // ---------------------------------------------------------------
  // askQuestion (store.tsx:364-390)

  function Other(t: string): string -> bool {
    q => q != t
  }

  /** The entries different from `t`, in order. */
  function Without(history: seq<string>, t: string): (r: seq<string>)
    ensures forall q :: q in r <==> q in history && q != t
  {
    Filter(history, Other(t))
  }

  /** `[t, ...prev.filter(q => q !== t)].slice(0, 30)`: `t` moves to the
      front, the others keep their order, and the list is cut to 30. */
  function RecordQuestion(history: seq<string>, t: string): (r: seq<string>)
    ensures 1 <= |r| <= HistoryLimit && r[0] == t
    ensures forall i :: 1 <= i < |r| ==> r[i] != t && r[i] in history
    ensures r[1..] <= Without(history, t)
  {
    Prefix([t] + Without(history, t), HistoryLimit)
  }

  lemma {:induction false} FilterNoDup<T>(s: seq<T>, p: T -> bool)
    requires NoDup(s)
    ensures NoDup(Filter(s, p))
    decreases |s|
  {
    if s != [] {
      var tail := s[1..];
      assert NoDup(tail) by {
        forall i, j | 0 <= i < j < |tail| ensures tail[i] != tail[j] {
          assert s[i + 1] == tail[i] && s[j + 1] == tail[j];
        }
      }
      FilterNoDup(tail, p);
      assert s[0] !in tail by {
        forall k | 0 <= k < |tail| ensures tail[k] != s[0] {
          assert s[k + 1] == tail[k];
        }
      }
      var f := Filter(tail, p);
      if p(s[0]) {
        assert s[0] !in f;
        assert Filter(s, p) == [s[0]] + f;
        forall i, j | 0 <= i < j < |[s[0]] + f| ensures ([s[0]] + f)[i] != ([s[0]] + f)[j] {
          if i > 0 {
            assert ([s[0]] + f)[i] == f[i - 1] && ([s[0]] + f)[j] == f[j - 1];
          } else {
            assert ([s[0]] + f)[j] in f;
          }
        }
      }
    }
  }

  /** A history without repeats stays without repeats. */
  lemma RecordQuestionNoDup(history: seq<string>, t: string)
    requires NoDup(history)
    ensures NoDup(RecordQuestion(history, t))
  {
    FilterNoDup(history, Other(t));
    var w := Without(history, t);
    var full := [t] + w;
    forall i, j | 0 <= i < j < |full| ensures full[i] != full[j] {
      if i > 0 {
        assert full[i] == w[i - 1] && full[j] == w[j - 1];
      } else {
        assert full[j] in w;
      }
    }
  }

  /** Asking the same question twice records it once. */
  lemma RecordQuestionIdempotent(history: seq<string>, t: string)
    ensures RecordQuestion(RecordQuestion(history, t), t) == RecordQuestion(history, t)
  {
    var r := RecordQuestion(history, t);
    WithoutLeading(r, t);
    PrefixSuffix(r, 1);
  }

  /** Removing `t` from a list that holds it only in front drops the front. */
  lemma WithoutLeading(r: seq<string>, t: string)
    requires r != [] && r[0] == t
    requires forall i :: 1 <= i < |r| ==> r[i] != t
    ensures Without(r, t) == r[1..]
  {
    var w := r[1..];
    forall i | 0 <= i < |w| ensures Other(t)(w[i]) {
      assert w[i] == r[i + 1];
    }
    FilterAll(w, Other(t));
    assert Filter(r, Other(t)) == Filter(w, Other(t));
  }

  /** While the list is under its cap, no earlier question is lost. */
  lemma RecordQuestionKeepsAll(history: seq<string>, t: string)
    requires |history| < HistoryLimit
    ensures forall q :: q in history ==> q in RecordQuestion(history, t)
  {
    var w := Without(history, t);
    assert RecordQuestion(history, t) == [t] + w;
    forall q | q in history ensures q in [t] + w {
      if q != t {
        assert q in w;
      }
    }
  }

  /** The question as recorded, or `None` when it is too short. */
  function AcceptedQuestion(question: string): (r: Option<string>)
    ensures r.Some? <==> Utf16Length(Trim(question)) >= MinQuestionLength
    ensures r.Some? ==> r.value == Trim(question)
  {
    var t := Trim(question);
    if Utf16Length(t) < MinQuestionLength then None else Some(t)
  }

  /** `qa-${Date.now()}`: the prefix, then the clock reading in decimal. */
  function SessionId(nowMs: int): (r: string)
    ensures |r| > 3 && r[..3] == "qa-" && r[3..] == IntToString(nowMs)
  {
    "qa-" + IntToString(nowMs)
  }

  /** Questions asked at different milliseconds get different session ids. */
  lemma SessionIdInjective(m: int, n: int)
    requires SessionId(m) == SessionId(n)
    ensures m == n
  {
    IntToStringInjective(m, n);
  }

  // ---------------------------------------------------------------
  // Candidates and edges (store.tsx:338-362)

  function CandidateEdgeId(candidateId: string): string { "e-" + candidateId }

  /** The first candidate with that id (`prev.find`). */
  function FindCandidate(cs: seq<LinkCandidate>, id: string): (r: Option<LinkCandidate>)
    ensures r.Some? <==> exists c :: c in cs && c.id == id
    ensures r.Some? ==> r.value in cs && r.value.id == id
    decreases |cs|
  {
    if cs == [] then None
    else if cs[0].id == id then Some(cs[0])
    else
      var r := FindCandidate(cs[1..], id);
      assert forall c :: c in cs && c.id == id ==> c in cs[1..] by {
        assert cs == [cs[0]] + cs[1..];
      }
      r
  }

  /** An edge that a candidate stands for: same endpoints, or the edge id
      made from the candidate's id. */
  predicate Backs(e: Edge, c: LinkCandidate) {
    (e.source == c.fromId && e.target == c.toId) || e.id == CandidateEdgeId(c.id)
  }

  /** The edges a candidate stands for become confirmed; nothing else of
      any edge changes. */
  function ConfirmEdges(edges: seq<Edge>, c: LinkCandidate): (r: seq<Edge>)
    ensures |r| == |edges|
    ensures forall i :: 0 <= i < |r| ==> r[i].(status := edges[i].status) == edges[i]
    ensures forall i :: 0 <= i < |r| ==>
              r[i].status == if Backs(edges[i], c) then Confirmed else edges[i].status
  {
    seq(|edges|, i requires 0 <= i < |edges| =>
      if Backs(edges[i], c) then edges[i].(status := Confirmed) else edges[i])
  }

  function WithoutCandidate(cs: seq<LinkCandidate>, id: string): (r: seq<LinkCandidate>)
    ensures forall c :: c in r <==> c in cs && c.id != id
  {
    Filter(cs, (c: LinkCandidate) => c.id != id)
  }

  function OtherEdge(id: string): Edge -> bool {
    (e: Edge) => e.id != id
  }

  function WithoutEdge(es: seq<Edge>, id: string): (r: seq<Edge>)
    ensures forall e :: e in r <==> e in es && e.id != id
  {
    Filter(es, OtherEdge(id))
  }

  /** `acceptCandidate` on `(candidates, edges)`: an unknown id changes
      nothing; otherwise the candidate goes and the edges it stands for are
      confirmed. */
  function Accept(cs: seq<LinkCandidate>, es: seq<Edge>, id: string): (r: (seq<LinkCandidate>, seq<Edge>))
    ensures FindCandidate(cs, id).None? ==> r == (cs, es)
    ensures FindCandidate(cs, id).Some? ==>
              r == (WithoutCandidate(cs, id), ConfirmEdges(es, FindCandidate(cs, id).value))
  {
    match FindCandidate(cs, id)
    case None => (cs, es)
    case Some(target) => (WithoutCandidate(cs, id), ConfirmEdges(es, target))
  }

  /** `updateEdge`: the matching edges get the new relation and keep
      everything else; the other edges stay as they are. */
  function Relabel(es: seq<Edge>, id: string, relation: string): (r: seq<Edge>)
    ensures |r| == |es|
    ensures forall i :: 0 <= i < |r| ==> r[i].(relation := es[i].relation) == es[i]
    ensures forall i :: 0 <= i < |r| ==> r[i].relation == if es[i].id == id then relation else es[i].relation
  {
    seq(|es|, i requires 0 <= i < |es| => if es[i].id == id then es[i].(relation := relation) else es[i])
  }

  /** Removing the same id twice removes nothing more; so does removing an
      id no entry has. */
  lemma WithoutEdgeIdempotent(es: seq<Edge>, id: string)
    ensures WithoutEdge(WithoutEdge(es, id), id) == WithoutEdge(es, id)
    ensures (forall e :: e in es ==> e.id != id) ==> WithoutEdge(es, id) == es
  {
    FilterAll(WithoutEdge(es, id), OtherEdge(id));
    if forall e :: e in es ==> e.id != id {
      FilterAll(es, OtherEdge(id));
    }
  }

  // ---------------------------------------------------------------
  // Graph nodes (store.tsx:228-238)

  /** One node per document, in order: conversations form group 2, all
      other documents group 1. */
  function NodesOf(docs: seq<Document>): (r: seq<Node>)
    ensures |r| == |docs|
    ensures forall i :: 0 <= i < |r| ==>
              r[i].id == docs[i].id && r[i].title == docs[i].title && r[i].status == docs[i].status
              && r[i].val == docs[i].knowledgeScore && r[i].tags == docs[i].topicTags
              && (r[i].group == 2 <==> docs[i].docType == Conversation) && r[i].group in {1, 2}
  {
    seq(|docs|, i requires 0 <= i < |docs| =>
      var d := docs[i];
      Node(d.id, d.title, if d.docType == Conversation then 2 else 1, d.status, d.knowledgeScore, d.topicTags))
  }

  // ---------------------------------------------------------------
  // The provider's state

  class AppState {
    var documents: seq<Document>
    var candidates: seq<LinkCandidate>
    var edges: seq<Edge>
    var memoryItems: seq<MemoryItem>
    var qaSessions: seq<QASession>
    var questionHistory: seq<string>
    var lastError: Option<string>

    /** The state every updater keeps: the question history has no repeats
        and at most 30 entries. */
    predicate Valid()
      reads this
    {
      NoDup(questionHistory) && |questionHistory| <= HistoryLimit
    }

    /** `nodes`, which an effect re-derives whenever `documents` changes. */
    function Nodes(): (r: seq<Node>)
      reads this
      ensures |r| == |documents|
    {
      NodesOf(documents)
    }

    constructor()
      ensures Valid()
      ensures documents == [] && candidates == [] && edges == [] && memoryItems == []
      ensures qaSessions == [] && questionHistory == [] && lastError == None
    {
      documents, candidates, edges, memoryItems := [], [], [], [];
      qaSessions, questionHistory, lastError := [], [], None;
    }

    /** The initial load delivered the persisted documents and sessions:
        the memory is rebuilt from the documents. */
    method LoadSucceeded(docs: seq<Document>, sessions: seq<QASession>, nowIso: string)
      modifies this
      requires Valid()
      ensures Valid()
      ensures documents == docs && qaSessions == sessions
      ensures memoryItems == Memory.RebuildMemory(docs, nowIso)
      ensures candidates == old(candidates) && edges == old(edges)
      ensures questionHistory == old(questionHistory) && lastError == old(lastError)
    {
      documents, qaSessions := docs, sessions;
      memoryItems := Memory.RebuildMemory(docs, nowIso);
    }

    method LoadFailedWith(f: Failure)
      modifies this
      requires Valid()
      ensures Valid()
      ensures lastError == Some(MessageOr(f, LoadFailed))
      ensures documents == old(documents) && candidates == old(candidates) && edges == old(edges)
      ensures memoryItems == old(memoryItems) && qaSessions == old(qaSessions)
      ensures questionHistory == old(questionHistory)
    {
      lastError := Some(MessageOr(f, LoadFailed));
    }

    /** The synchronous part of `addDocument`: clear the error and prepend
        the placeholder. Returns the placeholder for the completion. */
    method BeginAddDocument(input: string, nowMs: int, nowIso: string) returns (initial: Document)
      modifies this
      requires Valid()
      ensures Valid()
      ensures initial == InitialDocument(TempId(nowMs), input, nowIso)
      ensures initial.status == Processing && initial.rawText == input
      ensures documents == [initial] + old(documents)
      ensures lastError == None
      ensures candidates == old(candidates) && edges == old(edges) && memoryItems == old(memoryItems)
      ensures qaSessions == old(qaSessions) && questionHistory == old(questionHistory)
    {
      lastError := None;
      initial := InitialDocument(TempId(nowMs), input, nowIso);
      documents := [initial] + documents;
    }

    /** The analysis returned: the placeholder becomes the analysed
        document and the error is cleared. */
    method CompleteAddDocument(initial: Document, a: Analysis)
      modifies this
      requires Valid()
      ensures Valid()
      ensures documents == ReplaceTemp(old(documents), initial.id, Analyzed(initial, a))
      ensures lastError == None
      ensures candidates == old(candidates) && edges == old(edges) && memoryItems == old(memoryItems)
      ensures qaSessions == old(qaSessions) && questionHistory == old(questionHistory)
    {
      documents := ReplaceTemp(documents, initial.id, Analyzed(initial, a));
      lastError := None;
    }

    /** The analysis failed: the error is shown and the placeholder marked
        Failed. */
    method FailAddDocument(initial: Document, f: Failure)
      modifies this
      requires Valid()
      ensures Valid()
      ensures lastError == Some(MessageOr(f, AnalysisFailed))
      ensures documents == FailTemp(old(documents), initial.id, f)
      ensures candidates == old(candidates) && edges == old(edges) && memoryItems == old(memoryItems)
      ensures qaSessions == old(qaSessions) && questionHistory == old(questionHistory)
    {
      lastError := Some(MessageOr(f, AnalysisFailed));
      documents := FailTemp(documents, initial.id, f);
    }

    /** The synchronous part of `askQuestion`. A question shorter than two
        code units after trimming sets the error and goes no further
        (`None`); otherwise it is recorded in the history and returned for
        the call to the server. */
    method AskQuestion(question: string) returns (trimmed: Option<string>)
      modifies this
      requires Valid()
      ensures Valid()
      ensures trimmed == AcceptedQuestion(question)
      ensures trimmed.None? ==> lastError == Some(QuestionTooShort) && questionHistory == old(questionHistory)
      ensures trimmed.Some? ==> lastError == None && questionHistory == RecordQuestion(old(questionHistory), trimmed.value)
      ensures documents == old(documents) && candidates == old(candidates) && edges == old(edges)
      ensures memoryItems == old(memoryItems) && qaSessions == old(qaSessions)
    {
      lastError := None;
      trimmed := AcceptedQuestion(question);
      if trimmed.None? {
        lastError := Some(QuestionTooShort);
        return;
      }
      RecordQuestionNoDup(questionHistory, trimmed.value);
      questionHistory := RecordQuestion(questionHistory, trimmed.value);
    }

    /** The server answered: a new session goes in front. */
    method CompleteAskQuestion(trimmed: string, answer: string, nowMs: int, nowIso: string)
      modifies this
      requires Valid()
      ensures Valid()
      ensures qaSessions == [QASession(SessionId(nowMs), trimmed, answer, [], nowIso)] + old(qaSessions)
      ensures documents == old(documents) && candidates == old(candidates) && edges == old(edges)
      ensures memoryItems == old(memoryItems) && questionHistory == old(questionHistory)
      ensures lastError == old(lastError)
    {
      qaSessions := [QASession(SessionId(nowMs), trimmed, answer, [], nowIso)] + qaSessions;
    }

    /** The server call failed: the error is shown and no session added. */
    method FailAskQuestion(f: Failure)
      modifies this
      requires Valid()
      ensures Valid()
      ensures lastError == Some(MessageOr(f, AskFailed))
      ensures documents == old(documents) && candidates == old(candidates) && edges == old(edges)
      ensures memoryItems == old(memoryItems) && qaSessions == old(qaSessions)
      ensures questionHistory == old(questionHistory)
    {
      lastError := Some(MessageOr(f, AskFailed));
    }

    method AcceptCandidate(candidateId: string)
      modifies this
      requires Valid()
      ensures Valid()
      ensures (candidates, edges) == Accept(old(candidates), old(edges), candidateId)
      ensures documents == old(documents) && memoryItems == old(memoryItems) && qaSessions == old(qaSessions)
      ensures questionHistory == old(questionHistory) && lastError == old(lastError)
    {
      var next := Accept(candidates, edges, candidateId);
      candidates, edges := next.0, next.1;
    }

    /** The candidate goes, and so does the edge made from its id. */
    method RejectCandidate(candidateId: string)
      modifies this
      requires Valid()
      ensures Valid()
      ensures candidates == WithoutCandidate(old(candidates), candidateId)
      ensures edges == WithoutEdge(old(edges), CandidateEdgeId(candidateId))
      ensures documents == old(documents) && memoryItems == old(memoryItems) && qaSessions == old(qaSessions)
      ensures questionHistory == old(questionHistory) && lastError == old(lastError)
    {
      candidates := WithoutCandidate(candidates, candidateId);
      edges := WithoutEdge(edges, CandidateEdgeId(candidateId));
    }

    method DeleteEdge(edgeId: string)
      modifies this
      requires Valid()
      ensures Valid()
      ensures edges == WithoutEdge(old(edges), edgeId)
      ensures documents == old(documents) && candidates == old(candidates) && memoryItems == old(memoryItems)
      ensures qaSessions == old(qaSessions) && questionHistory == old(questionHistory) && lastError == old(lastError)
    {
      edges := WithoutEdge(edges, edgeId);
    }

    method UpdateEdge(edgeId: string, newRelation: string)
      modifies this
      requires Valid()
      ensures Valid()
      ensures edges == Relabel(old(edges), edgeId, newRelation)
      ensures documents == old(documents) && candidates == old(candidates) && memoryItems == old(memoryItems)
      ensures qaSessions == old(qaSessions) && questionHistory == old(questionHistory) && lastError == old(lastError)
    {
      edges := Relabel(edges, edgeId, newRelation);
    }

    /** Every collection is emptied; the error message stays. */
    method ResetWorkspace()
      modifies this
      requires Valid()
      ensures Valid()
      ensures documents == [] && candidates == [] && edges == [] && memoryItems == []
      ensures qaSessions == [] && questionHistory == [] && Nodes() == []
      ensures lastError == old(lastError)
    {
      documents, candidates, edges, memoryItems := [], [], [], [];
      qaSessions, questionHistory := [], [];
    }
  }
}
