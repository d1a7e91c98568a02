/** The records of types.ts that the modelled code reads and writes.

    Optional string fields (`summaryText`) are the empty string when absent,
    and optional lists (`summaryBullets`, `segments`, `actionPlan.steps`) the
    empty list: every modelled use reads them as `x || ''` or `x || []`, so
    absent and empty behave alike. Fields no modelled code reads
    (`aiMeta`, `vizData`, conversation data, relation signals) are not
    represented. */
module Types {

  datatype DocumentStatus = Queued | Processing | Done | Failed

  datatype SourceType = Manual | ChatGpt | Gemini | Claude | Url

  datatype DocType = Text | Conversation

  /** One step of a document's action plan (`ActionItem`). */
  datatype ActionStep = ActionStep(id: string, step: string, description: string)

  /** A `KnowledgeSegment` extracted from a document. */
  datatype Segment = Segment(id: string, category: string, topic: string, content: string)

  datatype Document = Document(
    id: string,
    workspaceId: string,
    sourceType: SourceType,
    title: string,
    rawText: string,
    docType: DocType,
    segments: seq<Segment>,
    actionSteps: seq<ActionStep>,
    status: DocumentStatus,
    summaryText: string,
    summaryBullets: seq<string>,
    knowledgeScore: int,
    topicTags: seq<string>,
    createdAt: string)

  datatype MemoryCategory = Summary | Fact | Action | SegmentItem

  datatype MemoryItem = MemoryItem(
    id: string,
    documentId: string,
    title: string,
    category: MemoryCategory,
    content: string,
    tags: seq<string>,
    createdAt: string,
    updatedAt: string)

  datatype LinkStatus = Candidate | Accepted | Rejected

  datatype LinkCandidate = LinkCandidate(
    id: string,
    fromId: string,
    toId: string,
    toTitle: string,
    toSnippet: string,
    relation: string,
    confidence: real,
    rationale: string,
    status: LinkStatus)

  /** `Edge.status`: `'confirmed' | 'candidate'`. */
  datatype EdgeStatus = Confirmed | Suggested

  datatype Edge = Edge(id: string, source: string, target: string, relation: string, status: EdgeStatus)

  /** A graph node derived from a document. */
  datatype Node = Node(id: string, title: string, group: int, status: DocumentStatus, val: int, tags: seq<string>)

  datatype Evidence = Evidence(id: string, title: string, snippet: string)

  datatype QASession = QASession(id: string, question: string, answer: string, evidence: seq<Evidence>, createdAt: string)
}
