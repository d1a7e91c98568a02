/** The `/api/ask` handler (api/ask.ts:13-60): request guards, the query
    for the twenty newest documents, the numbered context, the prompt
    around the question, and the default for an empty answer. The database
    and the language model are parameters: `table` is the `documents`
    table or the error the query reports, `generate` the model's reply to
    a prompt (its content is `None` when null) or the error it throws. */
module AskApi {
  import opened Wrappers
  import opened Seqs
  import opened JsText
  import opened JsValues
  import opened Sorting

  datatype Request = Request(httpMethod: string, body: Json)

  /** A status with its JSON body. */
  datatype Response = Response(status: int, body: Json)

  /** What the handler does: reply, or reject its promise before it
      replies (destructuring a `null` or `undefined` body throws outside
      the `try`). */
  datatype Outcome = Reply(response: Response) | Rejected

  /** The columns of a `documents` row the handler selects, with the
      creation time it orders by (milliseconds). */
  datatype StoredDoc = StoredDoc(title: Json, summary: Json, createdAt: int)

  const RecentLimit: nat := 20
  const NoKnowledge: string := "저장된 지식이 없습니다."
  const NoAnswer: string := "답변을 생성할 수 없습니다."
  const PromptHead: string := "당신은 지식 관리 비서입니다. 제공된 지식을 바탕으로 질문에 답변하세요.\n질문: "
  const PromptMiddle: string := "\n\n저장된 지식 요약:\n"
  const PromptTail: string := "\n\n위 지식만을 근거로 친절하게 한국어로 답변하세요. 근거가 없으면 모른다고 하세요."

  function ErrorBody(message: string): Json {
    JObj([("error", JStr(message))])
  }

  function CreatedAt(d: StoredDoc): real { d.createdAt as real }

  /** `order('created_at', { ascending: false }).limit(20)`. Rows with the
      same creation time keep table order. */
  function Recent(table: seq<StoredDoc>): (r: seq<StoredDoc>)
    ensures |r| == Min(RecentLimit, |table|)
  {
    Prefix(SortDesc(table, CreatedAt), RecentLimit)
  }

  /** `{i + 1}) {title}: {summary}`: the line starts with its number and
      carries the document's title and summary. */
  function ContextLine(i: nat, d: StoredDoc): (r: string)
    ensures StartsWith(r, Digits(i + 1) + ") ")
    ensures Includes(r, ToStr(d.title)) && Includes(r, ToStr(d.summary))
  {
    var head := Digits(i + 1) + ") ";
    var r := Digits(i + 1) + ") " + ToStr(d.title) + ": " + ToStr(d.summary);
    assert r == head + ToStr(d.title) + ": " + ToStr(d.summary) + [];
    IncludesOfFive(head, ToStr(d.title), ": ", ToStr(d.summary), []);
    assert r[..|head|] == head;
    r
  }

  function ContextLines(docs: seq<StoredDoc>): (r: seq<string>)
    ensures |r| == |docs|
    ensures forall i :: 0 <= i < |r| ==> r[i] == ContextLine(i, docs[i])
  {
    seq(|docs|, i requires 0 <= i < |docs| => ContextLine(i, docs[i]))
  }

  /** No numbered line is empty. */
  lemma ContextLinesNonEmpty(docs: seq<StoredDoc>)
    ensures forall i :: 0 <= i < |ContextLines(docs)| ==> ContextLines(docs)[i] != ""
  {
    var lines := ContextLines(docs);
    forall i | 0 <= i < |lines| ensures lines[i] != "" {
      assert |lines[i]| >= |Digits(i + 1)| >= 1;
    }
  }

  /** The context block: the documents' lines in the order given, numbered
      from 1, with nothing but a newline between them; only an empty list
      gives the fixed sentence. */
  function Context(docs: seq<StoredDoc>): (r: string)
    ensures docs == [] ==> r == NoKnowledge
    ensures docs != [] ==> r == Join(ContextLines(docs), "\n")
  {
    var joined := Join(ContextLines(docs), "\n");
    ContextLinesNonEmpty(docs);
    JoinEmptyIff(ContextLines(docs), "\n");
    if joined != "" then joined else NoKnowledge
  }

  /** The prompt: the fixed instructions open and close it, with the
      question and the context between them. */
  function Prompt(question: Json, context: string): (r: string)
    ensures StartsWith(r, PromptHead)
    ensures |PromptTail| <= |r| && r[|r| - |PromptTail|..] == PromptTail
  {
    StartsWithOfFive(PromptHead, ToStr(question), PromptMiddle, context, PromptTail);
    PromptHead + ToStr(question) + PromptMiddle + context + PromptTail
  }

  /** `content || '답변을 생성할 수 없습니다.'`. */
  function AnswerOf(content: Option<string>): (a: string)
    ensures a != ""
    ensures content.Some? && content.value != "" ==> a == content.value
    ensures !(content.Some? && content.value != "") ==> a == NoAnswer
  {
    if content.Some? && content.value != "" then content.value else NoAnswer
  }

  /** The handler: it rejects its promise exactly for a POST whose body
      is `null` or `undefined`; every reply is 200, 400, 405 or 500, and
      every reply but 200 carries an `error` message. */
  function Handle(req: Request, table: Result<seq<StoredDoc>, string>,
                  generate: string -> Result<Option<string>, string>): (o: Outcome)
    ensures o.Rejected? <==> req.httpMethod == "POST" && (req.body.JUndefined? || req.body.JNull?)
    ensures o.Reply? ==> o.response.status in {200, 400, 405, 500}
    ensures o.Reply? && o.response.status != 200 ==> exists m :: o.response.body == ErrorBody(m)
  {
    if req.httpMethod != "POST" then Reply(Response(405, ErrorBody("Method not allowed")))
    else if req.body.JUndefined? || req.body.JNull? then Rejected
    else
      var question := Get(req.body, "question");
      if !Truthy(question) then Reply(Response(400, ErrorBody("Missing question")))
      else match table
        case Err(message) => Reply(Response(500, ErrorBody(message)))
        case Ok(rows) =>
          match generate(Prompt(question, Context(Recent(rows))))
          case Err(message) => Reply(Response(500, ErrorBody(message)))
          case Ok(content) => Reply(Response(200, JObj([("answer", JStr(AnswerOf(content)))])))
  }

  // ---------------------------------------------------------------
  // What the handler promises

  /** A request that is not a POST is refused with 405 before the database
      or the model is consulted: their results make no difference. */
  lemma NonPostRefused(req: Request, t1: Result<seq<StoredDoc>, string>, t2: Result<seq<StoredDoc>, string>,
                       g1: string -> Result<Option<string>, string>, g2: string -> Result<Option<string>, string>)
    requires req.httpMethod != "POST"
    ensures Handle(req, t1, g1) == Handle(req, t2, g2)
    ensures Handle(req, t1, g1).Reply? && Handle(req, t1, g1).response.status == 405
  {
  }

  /** A POST without a truthy `question` is refused with 400, again
      without consulting the database or the model. */
  lemma MissingQuestionRefused(req: Request, t1: Result<seq<StoredDoc>, string>, t2: Result<seq<StoredDoc>, string>,
                               g1: string -> Result<Option<string>, string>, g2: string -> Result<Option<string>, string>)
    requires req.httpMethod == "POST" && !req.body.JUndefined? && !req.body.JNull?
    requires !Truthy(Get(req.body, "question"))
    ensures Handle(req, t1, g1) == Handle(req, t2, g2)
    ensures Handle(req, t1, g1) == Reply(Response(400, ErrorBody("Missing question")))
  {
  }

  /** The handler answers 200 exactly when the request passes both guards
      and neither the query nor the model fails, and then the body holds
      the model's answer, or the fixed sentence when that is empty. */
  lemma SuccessIff(req: Request, table: Result<seq<StoredDoc>, string>,
                   generate: string -> Result<Option<string>, string>)
    ensures var o := Handle(req, table, generate);
            (o.Reply? && o.response.status == 200) <==>
              (req.httpMethod == "POST" && !req.body.JUndefined? && !req.body.JNull?
               && Truthy(Get(req.body, "question")) && table.Ok?
               && generate(Prompt(Get(req.body, "question"), Context(Recent(table.value)))).Ok?)
    ensures var o := Handle(req, table, generate);
            o.Reply? && o.response.status == 200 && table.Ok? ==>
              var g := generate(Prompt(Get(req.body, "question"), Context(Recent(table.value))));
              g.Ok? && o.response.body == JObj([("answer", JStr(AnswerOf(g.value)))])
  {
  }

  /** Past the guards, a failing query or a failing model call gives 500
      with the failure's message. */
  lemma FailuresGive500(req: Request, table: Result<seq<StoredDoc>, string>,
                        generate: string -> Result<Option<string>, string>)
    requires req.httpMethod == "POST" && !req.body.JUndefined? && !req.body.JNull?
    requires Truthy(Get(req.body, "question"))
    ensures table.Err? ==> Handle(req, table, generate) == Reply(Response(500, ErrorBody(table.error)))
    ensures table.Ok? ==>
              var g := generate(Prompt(Get(req.body, "question"), Context(Recent(table.value))));
              g.Err? ==> Handle(req, table, generate) == Reply(Response(500, ErrorBody(g.error)))
  {
  }

  /** The prompt carries the question and, after it, the context, with
      only the fixed heading between them. */
  lemma PromptCarriesQuestionAndContext(question: Json, context: string)
    ensures Includes(Prompt(question, context), ToStr(question))
    ensures Includes(Prompt(question, context), context)
    ensures Includes(Prompt(question, context), ToStr(question) + PromptMiddle + context)
  {
    IncludesOfFive(PromptHead, ToStr(question), PromptMiddle, context, PromptTail);
  }

  /** The context is built from at most twenty rows, newest first, and no
      row left out is newer than one kept. */
  lemma RecentAreNewest(table: seq<StoredDoc>)
    ensures var r := Recent(table);
            var sorted := SortDesc(table, CreatedAt);
            |r| <= RecentLimit && r == sorted[..|r|] && SortedDesc(r, CreatedAt)
            && multiset(r) <= multiset(table)
            && forall i, j :: 0 <= i < |r| <= j < |sorted| ==> sorted[j].createdAt <= r[i].createdAt
  {
    var sorted := SortDesc(table, CreatedAt);
    var r := Recent(table);
    PrefixSuffix(sorted, |r|);
  }
}
