/** Answer padding (`ensureAnswerLength`, store.tsx:153-169): an answer
    whose trimmed text is shorter than 500 UTF-16 code units is trimmed,
    extended by a supplement that repeats the question and summarises up to
    three evidence documents, and then by a fixed paragraph until it
    reaches 500. */
module Answer {
  import opened Seqs
  import opened JsText
  import opened Types

  const MinAnswerLength: nat := 500
  const SnippetLength: nat := 180
  const EvidenceCount: nat := 3

  /** The text around the question in the supplement. */
  const SupplementHead: string := "\n\n추가 설명:\n질문 \""
  const SupplementMiddle: string := "\"에 대해 저장된 지식을 기반으로 핵심을 더 구체화하면 다음과 같습니다.\n"
  const SupplementTail: string := "\n\n실행 관점에서는 (1) 질문의 키워드를 문서 태그와 맞추고, (2) 근거 문서를 2~3개 이상 교차 검증하며, (3) 결과를 바로 적용 가능한 체크리스트 형태로 정리하는 것이 효과적입니다. 이 방식은 단순 요약보다 재사용성과 신뢰도를 높여주며, 이후 후속 질문에서도 동일한 맥락을 유지하게 해줍니다."
  /** Stands in for the evidence summary when there is no evidence. */
  const Placeholder: string := "현재 연결된 문서 요약이 부족하므로, 추가 문서를 붙여넣으면 답변 정확도가 더 높아집니다."
  /** The paragraph appended until the answer is long enough. */
  const Reinforcement: string := "\n\n보강 설명: 현재 답변은 저장된 지식 범위에서 도출된 결과이며, 관련 문서를 더 추가하면 정확도와 깊이를 함께 끌어올릴 수 있습니다."
  /** `doc.summaryText || doc.rawText || ''`. */
  function EvidenceBase(doc: Document): string {
    if doc.summaryText != "" then doc.summaryText else doc.rawText
  }

  /** `{idx + 1}) {title}: {first 180 characters}`. */
  function EvidenceLine(idx: nat, doc: Document): string {
    Digits(idx + 1) + ") " + doc.title + ": " + Prefix(EvidenceBase(doc), SnippetLength)
  }

  function EvidenceLines(docs: seq<Document>): (r: seq<string>)
    ensures |r| == Min(EvidenceCount, |docs|)
    ensures forall i :: 0 <= i < |r| ==> r[i] == EvidenceLine(i, docs[i])
  {
    var first := Prefix(docs, EvidenceCount);
    seq(|first|, i requires 0 <= i < |first| => EvidenceLine(i, first[i]))
  }

  /** No evidence line is empty. */
  lemma EvidenceLinesNonEmpty(docs: seq<Document>)
    ensures forall i :: 0 <= i < |EvidenceLines(docs)| ==> EvidenceLines(docs)[i] != ""
  {
    var lines := EvidenceLines(docs);
    forall i | 0 <= i < |lines| ensures lines[i] != "" {
      assert |lines[i]| >= |Digits(i + 1) + ") "|;
    }
  }

  /** The evidence lines joined by newlines. It is empty exactly when
      there is no evidence document, so the placeholder stands in exactly
      then. */
  function EvidenceSummary(docs: seq<Document>): (r: string)
    ensures r == "" <==> docs == []
  {
    EvidenceLinesNonEmpty(docs);
    JoinEmptyIff(EvidenceLines(docs), "\n");
    Join(EvidenceLines(docs), "\n")
  }

  /** The text after the question: the evidence summary, or the
      placeholder when it is empty, between fixed sentences. */
  function SupplementRest(evidence: string): string {
    SupplementMiddle + (if evidence != "" then evidence else Placeholder) + SupplementTail
  }

  /** The supplement opens with its fixed heading, repeats the question,
      and carries the evidence summary when there is one and the
      placeholder sentence when there is none. */
  function Supplement(question: string, evidence: string): (r: string)
    ensures StartsWith(r, SupplementHead)
    ensures Includes(r, question)
    ensures evidence != "" ==> Includes(r, evidence)
    ensures evidence == "" ==> Includes(r, Placeholder)
  {
    var shown := if evidence != "" then evidence else Placeholder;
    StartsWithOfFive(SupplementHead, question, SupplementMiddle, shown, SupplementTail);
    IncludesOfFive(SupplementHead, question, SupplementMiddle, shown, SupplementTail);
    SupplementHead + question + SupplementRest(evidence)
  }

  /** The `while` loop's result: `s` followed by as many copies of `unit`
      as it takes to reach the minimum length. */
  function PadToLength(s: string, unit: string): (r: string)
    requires unit != []
    ensures Utf16Length(r) >= MinAnswerLength
    ensures s <= r && Repeats(r[|s|..], unit)
    ensures Utf16Length(s) >= MinAnswerLength ==> r == s
    ensures Utf16Length(s) < MinAnswerLength ==> Utf16Length(r) < MinAnswerLength + Utf16Length(unit)
    decreases MinAnswerLength - Utf16Length(s)
  {
    if Utf16Length(s) >= MinAnswerLength then
      assert s[|s|..] == [];
      s
    else
      Utf16LengthConcat(s, unit);
      var r := PadToLength(s + unit, unit);
      assert r[|s|..] == unit + r[|s + unit|..];
      assert r[|s|..][..|unit|] == unit;
      assert r[|s|..][|unit|..] == r[|s + unit|..];
      r
  }

  /** `x` is a number of copies of `unit` in a row. */
  predicate Repeats(x: string, unit: string)
    requires unit != []
    decreases |x|
  {
    x == [] || (StartsWith(x, unit) && Repeats(x[|unit|..], unit))
  }

  /** The value `ensureAnswerLength(question, answer, evidenceDocs)`
      returns, never shorter than 500 code units. */
  function EnsuredAnswer(question: string, answer: string, evidenceDocs: seq<Document>): (r: string)
    ensures Utf16Length(r) >= MinAnswerLength
  {
    Utf16LengthTrim(answer);
    if Utf16Length(Trim(answer)) >= MinAnswerLength then answer
    else PadToLength(Trim(answer) + Supplement(question, EvidenceSummary(evidenceDocs)), Reinforcement)
  }

  /** `ensureAnswerLength`, with its `while` loop. */
  method EnsureAnswerLength(question: string, answer: string, evidenceDocs: seq<Document>) returns (merged: string)
    ensures merged == EnsuredAnswer(question, answer, evidenceDocs)
  {
    if Utf16Length(Trim(answer)) >= MinAnswerLength {
      return answer;
    }
    var supplement := Supplement(question, EvidenceSummary(evidenceDocs));
    merged := Trim(answer) + supplement;
    ghost var start := merged;
    while Utf16Length(merged) < MinAnswerLength
      invariant PadToLength(merged, Reinforcement) == PadToLength(start, Reinforcement)
      decreases MinAnswerLength - Utf16Length(merged)
    {
      Utf16LengthConcat(merged, Reinforcement);
      merged := merged + Reinforcement;
    }
  }

  // ---------------------------------------------------------------
  // What the padding promises

  /** Every answer comes out at least 500 code units long; one already long
      enough after trimming comes out untouched, and a short one overshoots
      by less than one reinforcement paragraph. */
  lemma EnsuredAnswerLength(question: string, answer: string, evidenceDocs: seq<Document>)
    ensures Utf16Length(EnsuredAnswer(question, answer, evidenceDocs)) >= MinAnswerLength
    ensures Utf16Length(Trim(answer)) >= MinAnswerLength ==> EnsuredAnswer(question, answer, evidenceDocs) == answer
    ensures var base := Trim(answer) + Supplement(question, EvidenceSummary(evidenceDocs));
            Utf16Length(Trim(answer)) < MinAnswerLength && Utf16Length(base) < MinAnswerLength ==>
              Utf16Length(EnsuredAnswer(question, answer, evidenceDocs)) < MinAnswerLength + Utf16Length(Reinforcement)
  {
    Utf16LengthTrim(answer);
  }

  /** A padded answer begins with the trimmed answer and then repeats the
      question in the supplement. */
  lemma PaddedAnswerShape(question: string, answer: string, evidenceDocs: seq<Document>)
    requires Utf16Length(Trim(answer)) < MinAnswerLength
    ensures Trim(answer) <= EnsuredAnswer(question, answer, evidenceDocs)
    ensures Includes(EnsuredAnswer(question, answer, evidenceDocs), question)
  {
    var sup := Supplement(question, EvidenceSummary(evidenceDocs));
    PaddingKeeps(Trim(answer), sup, question);
  }

  /** A padded answer carries the evidence summary, or the placeholder
      sentence when there are no evidence documents. */
  lemma PaddedAnswerEvidence(question: string, answer: string, evidenceDocs: seq<Document>)
    requires Utf16Length(Trim(answer)) < MinAnswerLength
    ensures evidenceDocs == [] ==> Includes(EnsuredAnswer(question, answer, evidenceDocs), Placeholder)
    ensures evidenceDocs != [] ==>
              Includes(EnsuredAnswer(question, answer, evidenceDocs), EvidenceSummary(evidenceDocs))
  {
    var ev := EvidenceSummary(evidenceDocs);
    var sup := Supplement(question, ev);
    if ev == "" {
      PaddingKeeps(Trim(answer), sup, Placeholder);
    } else {
      PaddingKeeps(Trim(answer), sup, ev);
    }
  }

  /** Padding keeps the text padded, and what occurs in it. */
  lemma PaddingKeeps(t: string, sup: string, needle: string)
    requires Includes(sup, needle)
    ensures t <= PadToLength(t + sup, Reinforcement)
    ensures Includes(PadToLength(t + sup, Reinforcement), needle)
  {
    IncludesPrepend(t, sup, needle);
    IncludesInExtension(t + sup, PadToLength(t + sup, Reinforcement), needle);
    assert t <= t + sup;
  }

  /** At most three evidence lines, the i-th about the i-th document, its
      snippet at most 180 characters of the summary or, failing that, of
      the raw text. */
  lemma EvidenceLinesShape(docs: seq<Document>)
    ensures |EvidenceLines(docs)| <= EvidenceCount
    ensures forall i :: 0 <= i < |EvidenceLines(docs)| ==>
      var base := EvidenceBase(docs[i]);
      var snippet := Prefix(base, SnippetLength);
      EvidenceLines(docs)[i] == Digits(i + 1) + ") " + docs[i].title + ": " + snippet
      && |snippet| <= SnippetLength && snippet <= base
      && (base == docs[i].summaryText || docs[i].summaryText == "")
  {
  }
}
