# Knowledge workspace core, modelled in Dafny

The modelled application is a personal knowledge workspace. A user pastes
a text or a share link. A server analyses the input into a document with a
title, a summary, bullets and tags. From each
document the client derives *memory items*. A question goes through
`/api/ask`, which builds a prompt from the twenty newest stored documents.
The client keeps everything in the state of one React provider.

This project models the decision logic of that core and proves properties
about it:

| module | file | models |
|---|---|---|
| `Seqs` | seqs.dfy | the array primitives the code relies on (`filter`, `slice`, `join`, `includes`) |
| `JsText` | jstext.dfy | JavaScript `\s`, `trim`, `toLowerCase`, UTF-16 `length` and integer-to-string conversion |
| `JsValues` | jsvalues.dfy | unknown JSON values, with their truthiness and `String(value)` |
| `Types` | types.dfy | the records the code reads and writes (documents, memory items, candidates, edges, nodes, sessions) |
| `Sorting` | sorting.dfy | the two stable descending sorts (store.tsx:147, 195), and the database's newest-first ordering in `AskApi.Recent` |
| `Scoring` | scoring.dfy | `normalize`, `tokenize`, `overlapRatio`, `recencyScore` |
| `Memory` | memory.dfy | `buildMemoryItemsFromDoc` and the capped rebuild at load time |
| `Retrieval` | retrieval.dfy | `retrieveRelevantDocs`: group memories by document, score, rank, cut |
| `Answer` | answer.dfy | `ensureAnswerLength`: the supplement and the padding loop |
| `Merge` | merge.dfy | `mergeWithLocalTransient`: the `Map` keyed by id and the sort newest first |
| `Store` | store.dfy | the `AppProvider` state as a class whose methods are the updaters |
| `AskApi` | askapi.dfy | the `/api/ask` handler: guards, context, prompt, default answer, status codes |
| `Service` | service.dfy | the client's normalisers: database URL repair and check, server responses, `toSourceType`, `toStringArray`, row mappers, `detectSourceType` |

## How it is modelled

Pure source code is modelled as Dafny functions. The lemmas about those
functions state what the code promises.

Code that loops or mutates is modelled as methods whose `ensures` tie the
result to a specification function:
- `overlapRatio`'s counting loop
- the pushes of `buildMemoryItemsFromDoc`
- the `reduce` and `map` of `retrieveRelevantDocs`
- the `while` loop of `ensureAnswerLength`
- the `forEach` of `mergeWithLocalTransient`

The provider's state is the class `Store.AppState`. All of its fields are
reassigned by its methods. The invariant `Valid()` says the question
history has at most 30 entries and no repeats. Every method keeps it.

An asynchronous action is split at its `await`. A `Begin…` method covers
what happens before the `await`. A `Complete…` method and a `Fail…` method
cover the two ways the awaited call can end. Any other method may run in
between, as in the browser.

### Environment
Clock reads, date parsing and the awaited network results are parameters:
- `nowMs` and `nowIso` stand for `Date.now()` and `new Date().toISOString()`.
- `parse` stands for `new Date(s).getTime()`. It returns `None` where JavaScript gives NaN.
- `table` and `generate` stand for the database query and the language model.
- `Analysis` and `Failure` stand for what `analyzeInput` resolved or rejected with.

### JSON values
A parsed JSON object is its list of fields in order. When a name occurs twice, reading it gives the last field's value, as `JSON.parse` does (`JsValues.Get`).

### Numbers
Scores are `real`. Timestamps are integers of milliseconds. Lengths that
JavaScript measures in UTF-16 code units (`trimmed.length < 2`,
`merged.length < 500`) use `Utf16Length`, which counts characters outside
the Basic Multilingual Plane twice.

### Where the code does less than it appears to
- The `Math.min(ageDays, 30)` clamp suggests a 30-day decay. The score already reaches its floor of 0.1 at 27 days, because `1 - d/30 <= 0.1` for every `d >= 27`, so the clamp never changes the result (`Scoring.AgeScoreFloor`).
- The fallback in the last line of `retrieveRelevantDocs` can never fire. The ranked list is empty only when `docs.slice(0, limit)` is empty too. `Retrieval.RankIsSortedPrefix` proves this.
- No code path produces action or segment memory items. `Store.Analysis` can carry action steps and segments, and `Memory.ActionPart` and `Memory.SegmentPart` model store.tsx:93-117. But `analyzeInput` (geminiService.ts:161-173) copies neither an action plan nor segments into the document, and the row mapper (geminiService.ts:119-139) reads neither column.
- `toStringArray` (geminiService.ts:111-112) is defined but never called. The row mapper passes the `bullets` and `tags` columns through unchanged (geminiService.ts:133, 135), so `Service.RowToDocument` uses `Service.ArrayColumn`, not `Service.ToStringArray`.
- `mergeWithLocalTransient` is defined but never called. The load in `store.tsx` sets the fetched documents directly, so `LoadSucceeded` does the same. The merge is modelled on its own.

## Model

| member | source | states |
|---|---|---|
| JsText.Lower | store.tsx:38 | lower-casing a character never turns whitespace into non-whitespace or back |
| JsText.LowerAll | store.tsx:38 | `toLowerCase` keeps the length and lowers each character in place |
| JsText.DropLeadingSpace | store.tsx:41 | removing leading whitespace leaves a suffix that starts with a non-space, and shortens any input that starts with whitespace |
| JsText.DropTrailingSpace | store.tsx:41 | removing trailing whitespace leaves a prefix that ends with a non-space |
| JsText.LeadingDropped | store.tsx:41 | everything removed at the front is whitespace |
| JsText.TrailingDropped | store.tsx:41 | everything removed at the back is whitespace |
| JsText.Trim | store.tsx:41 | `trim` returns at most the input's characters, with whitespace at neither end |
| JsText.TrimSpec | store.tsx:41 | `trim` returns a contiguous piece of its input with only whitespace cut off around it; with `Trim`'s contract this fixes the result |
| JsText.TrimIdempotent | store.tsx:366 | trimming a trimmed question changes nothing |
| JsText.Utf16Length | store.tsx:367 | `length` counts at least one code unit per character |
| JsText.Utf16LengthBmp | store.tsx:367 | for text inside the Basic Multilingual Plane (all Hangul), `length` is the number of characters |
| JsText.Utf16LengthConcat | store.tsx:164 | the length of a concatenation is the sum of the lengths |
| JsText.Utf16LengthTrim | store.tsx:154 | trimming never makes a text longer |
| JsText.Digits | store.tsx:82 | `${n}` for a natural number is a non-empty run of decimal digits, one digit below ten |
| JsText.OneDigit | store.tsx:82 | `${n}` has a single digit exactly for numbers below ten |
| JsText.DigitsInjective | store.tsx:82 | different natural numbers print differently |
| JsText.IntToString | store.tsx:293 | `${n}` of an integer is non-empty and starts with a minus sign exactly for a negative number, with a digit otherwise |
| JsText.IntToStringInjective | store.tsx:293 | different integers print differently |
| JsValues.Truthy | api/ask.ts:20 | a value is falsy exactly when it is `undefined`, `null`, `false`, `0` or the empty string |
| JsValues.ToStr | frontend-minimal/services/geminiService.ts:121 | `String(value)` of a string is the string itself, a falsy value prints as one of its five fixed spellings, and only the empty string prints as empty outside arrays |
| JsValues.Get | api/ask.ts:18 | reading a property of a non-object, or a missing one, gives `undefined`; otherwise it gives the value of the last field with that name, as `JSON.parse` keeps it |
| JsValues.LookupAbsent | api/ask.ts:18 | a field list without the name yields `undefined` |
| JsValues.LookupLast | api/ask.ts:18 | a field list that has the name yields the value of its last field with that name |
| JsValues.LookupSpec | api/ask.ts:18 | both cases together: `undefined` when the name is missing, the last such field's value otherwise |
| JsValues.RepeatedKeyLastWins | api/ask.ts:18 | of two fields with the same name, the second is the one read |
| Sorting.SortDesc | store.tsx:147 | the sort is a permutation of its input, in descending key order, with equal keys in input order |
| Scoring.Clean | store.tsx:38-39 | after lower-casing and the class replace, a character is in `[a-z0-9가-힣]` or is whitespace, and kept characters stay as they were |
| Scoring.CleanAll | store.tsx:38-39 | the replace keeps the length and acts one character at a time |
| Scoring.WordLength | store.tsx:40 | the leading run of non-whitespace is bounded by whitespace or the end |
| Scoring.Collapse | store.tsx:40 | after `.replace(/\s+/g, ' ')` the only whitespace left is the plain space |
| Scoring.CollapseChars | store.tsx:40 | collapsing whitespace runs only writes blanks and characters of its input |
| Scoring.Normalize | store.tsx:36-41 | `normalize` leaves only characters of `[a-z0-9가-힣]` and blanks, with no blank at either end |
| Scoring.Tokenize | store.tsx:43 | every token is at least two characters long |
| Scoring.WordsCollapse | store.tsx:40 | collapsing whitespace runs keeps the same words |
| Scoring.WordsDropLeading | store.tsx:41 | removing leading whitespace keeps the same words |
| Scoring.WordsDropTrailing | store.tsx:41 | removing trailing whitespace keeps the same words |
| Scoring.SplitBy | store.tsx:43 | `split` always gives at least one piece |
| Scoring.SplitAt | store.tsx:43 | splitting at a separator splits the piece list there |
| Scoring.SplitConcat | store.tsx:43 | splitting two texts joined by a separator gives the two piece lists in turn |
| Scoring.SplitNoSep | store.tsx:43 | a text without separators splits into itself alone |
| Scoring.SplitPieces | store.tsx:43 | every piece avoids the separator and is made of the text's characters |
| Scoring.SplitBlankIsSplitSpace | store.tsx:40-43 | once the blank is the only whitespace, splitting on `' '` is splitting on every whitespace |
| Scoring.WordsOfJoin | store.tsx:43 | the words of non-empty, space-free parts joined by blanks are those parts |
| Scoring.TokenizeIsLongWords | store.tsx:36-43 | `tokenize` equals a reference definition: the whitespace-separated words of the cleaned text longer than one character, in order and with repeats |
| Scoring.TokensAreKeptWords | store.tsx:36-43 | every token has two or more characters, all in `[a-z0-9가-힣]` |
| Scoring.CleanJoinOfKept | store.tsx:38-39 | cleaning leaves kept words joined by blanks untouched |
| Scoring.TokenizeIdempotent | store.tsx:36-43 | tokenizing the tokens joined by blanks gives the same tokens back |
| Scoring.CleanAllAround | store.tsx:38-39 | cleaning two texts joined by a blank cleans each side separately |
| Scoring.TokenizeConcat | store.tsx:36-43 | two texts joined by a blank tokenize to the two token lists in turn |
| Scoring.Hits | store.tsx:48-51 | at most as many hits as query tokens |
| Scoring.Overlap | store.tsx:45-53 | the ratio lies in [0, 1] and is 0 for an empty query |
| Scoring.OverlapRatio | store.tsx:45-53 | the counting loop returns the hits divided by the number of query tokens, 0 for none |
| Scoring.HitsAllIff | store.tsx:48-51 | every query token is a hit exactly when all of them occur in the target set |
| Scoring.HitsNoneIff | store.tsx:48-51 | there are no hits exactly when no query token occurs in the target set |
| Scoring.HitsMonotone | store.tsx:48-51 | a larger target set never gives fewer hits |
| Scoring.OverlapFullIff | store.tsx:45-53 | the ratio is 1 exactly when the query is non-empty and each of its tokens occurs in the target |
| Scoring.OverlapZeroIff | store.tsx:45-53 | the ratio is 0 exactly when no query token occurs in the target |
| Scoring.OverlapMonotone | store.tsx:45-53 | a target with more of the query's tokens never scores lower |
| Scoring.AgeScore | store.tsx:59-60 | the decay of a positive age lies between the floor 0.1 and 1 |
| Scoring.RecencyScore | store.tsx:55-61 | the score lies in [0.1, 1]; 0.4 without a date; 1 for an invalid date |
| Scoring.AgeScoreLinear | store.tsx:59-60 | over the first 27 days the score falls linearly from 1 by a thirtieth per day |
| Scoring.AgeScoreFloor | store.tsx:60 | from 27 days on the score is exactly 0.1, so the 30-day clamp never matters |
| Scoring.AgeScoreMonotone | store.tsx:57-60 | an older document never scores higher |
| Scoring.RecencyNow | store.tsx:58 | a date equal to the clock scores 1 |
| Memory.SummaryPart | store.tsx:67-78 | one summary item exactly when there is a summary text, drawn from the document |
| Memory.FactPart | store.tsx:80-91 | one fact item for each of the first five bullets; item i carries bullet i, the id `mem-{id}-fact-{i}`, the title `{title} 핵심 포인트 {i+1}` and the document's tags |
| Memory.ActionPart | store.tsx:93-104 | one action item for each of the first three steps; item i carries `step: description` of step i, the id `mem-{id}-action-{i}`, the title `{title} 실행 {i+1}` and the document's tags |
| Memory.SegmentPart | store.tsx:106-117 | one segment item for each of the first five segments; item i carries segment i's content, the id `mem-{id}-segment-{i}`, the title `{title} / {topic}` and the document's tags with the topic, empties removed |
| Memory.DerivedItems | store.tsx:63-120 | the item count is the summary's share plus the capped bullet, step and segment counts, never more than 14 |
| Memory.DerivedItemsDrawn | store.tsx:63-120 | every item names the document and carries content taken from it; categories come as summary, fact, action, segment |
| Memory.DerivedSummaryIff | store.tsx:67-78 | there is a summary item exactly when the document has a summary, and then it comes first |
| Memory.BuildMemoryItemsFromDoc | store.tsx:63-120 | the pushing code returns exactly the derived items |
| Memory.PushFacts | store.tsx:80-91 | the loop over bullets appends exactly the fact items |
| Memory.PushActions | store.tsx:93-104 | the loop over steps appends exactly the action items |
| Memory.PushSegments | store.tsx:106-117 | the loop over segments appends exactly the segment items |
| Memory.IdsIgnoreClock | store.tsx:64-117 | the ids do not depend on the clock, so a rebuild reproduces them |
| Memory.ItemIdCategoryChar | store.tsx:69 | the character after `mem-{id}-` tells the category |
| Memory.ItemIdInjective | store.tsx:82 | with indexes below ten, equal ids mean the same category and, except for the summary, the same index |
| Memory.DerivedItemAt | store.tsx:63-120 | each item sits at the position its category and index give it |
| Memory.DerivedIdsDistinct | store.tsx:63-120 | no two items derived from one document share an id |
| Memory.DocIdsMembers | store.tsx:213 | an id is among the documents' ids exactly when a document carries it |
| Memory.AllDerived | store.tsx:213 | every item of the `flatMap` names one of the documents |
| Memory.DerivedFromDoc | store.tsx:70 | every item derived from a document names that document |
| Memory.RebuildMemory | store.tsx:213 | the rebuilt set is a prefix of the `flatMap`, at most 2000 items long, the whole of it when shorter, and made of items of the loaded documents |
| Memory.SummaryAndTwoBullets | store.tsx:63-120 | a summary and two bullets give three items, the summary first, all with the document's tags |
| Retrieval.GroupByDocument | store.tsx:131-135 | each document's group is exactly its memory items in order; only documents with items get a key |
| Retrieval.MemoryOf | store.tsx:131-139 | a document's group holds exactly the memory items that name it |
| Retrieval.MemoryOfSnoc | store.tsx:132-133 | pushing an item extends only its own document's group |
| Retrieval.Score | store.tsx:139-144 | a total lies between 0.02 (the recency floor's share) and 1 |
| Retrieval.Scored | store.tsx:137-146 | the `map` scores every document in order with its own memories |
| Retrieval.ZeroRanked | store.tsx:150 | the fallback gives entry i the i-th document of the cut with a total of 0 |
| Retrieval.RetrieveRelevantDocs | store.tsx:122-151 | grouping, the scoring loop, the sort and the cut return exactly the ranking |
| Retrieval.ScoreDocument | store.tsx:138-146 | the callback computes the weighted total 0.55, 0.25, 0.2 of lexical, tag and recency scores |
| Retrieval.RankIsSortedPrefix | store.tsx:128-150 | the result is the sorted scored list cut at the limit; the fallback never changes it |
| Retrieval.Rank | store.tsx:137-150 | the ranking has as many entries as `docs.slice(0, limit)` |
| Retrieval.RankNonEmpty | store.tsx:128-150 | non-empty input and a positive limit give a non-empty ranking |
| Retrieval.DefaultLimitRank | store.tsx:126-150 | with the default limit of 8 the ranking has eight entries, or one per document when there are fewer |
| Retrieval.RankSortedPermutation | store.tsx:147-148 | the scores go down and no entry is invented or repeated |
| Retrieval.RankEntries | store.tsx:137-148 | each entry is an input document with its own score |
| Retrieval.RankDistinctIds | store.tsx:137-148 | documents with distinct ids give entries with distinct ids |
| Retrieval.DrawnIdsDistinct | store.tsx:147-148 | entries drawn by multiset from entries of distinct documents are of distinct documents |
| Retrieval.RankKeepsTheBest | store.tsx:147-148 | no document left out by the cut scores higher than one kept |
| Retrieval.RankStable | store.tsx:147 | entries with equal scores keep their documents' order |
| Retrieval.ScoreReadsEightMemories | store.tsx:140 | only the first eight memory items of a document affect its score |
| Retrieval.TokenlessQuestion | store.tsx:141-144 | a question without tokens ranks by recency alone |
| Retrieval.FullMatchScore | store.tsx:141-144 | a question all of whose tokens occur in the texts and tags scores 0.8 plus the recency share |
| Answer.EvidenceLines | store.tsx:156-158 | one line per evidence document, at most three, the i-th about the i-th document |
| Answer.PadToLength | store.tsx:163-166 | the loop's result reaches 500 code units, extends its start by whole copies of the paragraph, is unchanged when already long enough, and overshoots by less than one paragraph |
| Answer.EnsureAnswerLength | store.tsx:153-169 | the method with its `while` loop returns exactly the padded answer |
| Answer.EnsuredAnswerLength | store.tsx:153-169 | every answer comes out at least 500 code units long; one long enough after trimming is returned untouched, untrimmed; a padded one overshoots by less than one paragraph |
| Answer.PaddedAnswerShape | store.tsx:161-163 | a short answer comes out beginning with its trimmed text and containing the question |
| Answer.PaddedAnswerEvidence | store.tsx:156-166 | a padded answer contains the evidence summary, or the placeholder sentence when there are no evidence documents |
| Answer.EvidenceSummary | store.tsx:156-161 | the evidence summary is empty exactly when there are no evidence documents, which is when the supplement uses the placeholder |
| Answer.EvidenceLinesNonEmpty | store.tsx:156-158 | no evidence line is empty |
| Answer.Supplement | store.tsx:161 | the supplement starts with its fixed heading, contains the question, and contains the evidence summary when there is one and the placeholder sentence when there is none |
| Answer.EnsuredAnswer | store.tsx:153-169 | every answer that comes out is at least 500 code units long |
| Answer.PaddingKeeps | store.tsx:163-166 | padding keeps the text it starts from as a prefix and keeps whatever that text contains |
| Answer.EvidenceLinesShape | store.tsx:156-158 | each line is `{i+1}) {title}: ` and at most 180 characters of the summary, or of the raw text when the summary is empty |
| AskApi.Recent | api/ask.ts:26-30 | the query returns at most twenty rows |
| AskApi.ContextLines | api/ask.ts:35 | one numbered line per row, in order |
| AskApi.AnswerOf | api/ask.ts:50 | the answer is never empty; it is the model's content when that is non-empty, and `답변을 생성할 수 없습니다.` otherwise |
| AskApi.NonPostRefused | api/ask.ts:14-16 | any method but POST gets 405, whatever the database and the model would do |
| AskApi.MissingQuestionRefused | api/ask.ts:18-22 | a POST without a truthy question gets 400 `Missing question`, whatever the database and the model would do |
| AskApi.SuccessIff | api/ask.ts:13-59 | the reply is 200 exactly when both guards pass and neither the query nor the model fails, and then its body is `{ answer }` with the answer taken from the model's reply to the prompt built from the twenty newest rows |
| AskApi.FailuresGive500 | api/ask.ts:32-58 | past the guards, a failing query or model call gives 500 with the failure's message |
| AskApi.Context | api/ask.ts:35 | no rows give the fixed sentence; otherwise the context is the numbered lines joined by newlines |
| AskApi.ContextLine | api/ask.ts:35 | the i-th line starts with `{i+1}) ` and contains the row's title and summary |
| AskApi.ContextLinesNonEmpty | api/ask.ts:35 | no context line is empty |
| AskApi.Prompt | api/ask.ts:37-43 | the prompt starts with its fixed heading and ends with its fixed instructions |
| AskApi.Handle | api/ask.ts:13-59 | a POST whose body is `undefined` or `null` throws before any reply; every reply is 200, 400, 405 or 500, and every non-200 reply carries an error body |
| AskApi.PromptCarriesQuestionAndContext | api/ask.ts:37-43 | the prompt holds the question and, right after the fixed heading, the context |
| AskApi.RecentAreNewest | api/ask.ts:26-30 | the rows are at most twenty, newest first, drawn from the table, and none left out is newer than one kept |
| Merge.Latest | store.tsx:194 | the value a `Map` keeps for an id exists exactly when some document has it, and is a document with that id |
| Merge.Upsert | store.tsx:194 | `map.set` holds the document afterwards, adds nothing else, grows by at most one entry and keeps the position of every entry with another id |
| Merge.SetAll | store.tsx:194 | the `forEach` holds only documents seen before or set now, and no more entries than both together |
| Merge.UpsertMembers | store.tsx:194 | `map.set` makes the document the id's entry and keeps every entry with another id |
| Merge.UpsertIds | store.tsx:194 | `map.set` keeps ids unique and adds exactly the document's id |
| Merge.UpsertUnique | store.tsx:194 | `map.set` keeps ids unique |
| Merge.SetAllGeneral | store.tsx:194 | after the `forEach` each id is held once, exactly the ids seen, each by its last setter |
| Merge.LatestCons | store.tsx:194 | the last carrier of an id is in the tail when the tail has one |
| Merge.LatestConcat | store.tsx:194 | documents set later override earlier ones with the same id |
| Merge.Transient | store.tsx:192 | the transient documents are exactly the local ones not Done |
| Merge.MergeWithLocalTransient | store.tsx:191-196 | the method returns exactly the merged list |
| Merge.Merged | store.tsx:191-196 | the merged list is newest first, a permutation of the `Map`'s values, with documents of equal dates in the `Map`'s order |
| Merge.UniqueAfterPermutation | store.tsx:195 | sorting keeps the ids distinct |
| Merge.MergedFacts | store.tsx:191-196 | each id once, newest first, exactly the persisted and in-flight ids, persisted documents winning, a non-persisted one only if it is local and in flight |
| Service.SchemeLength | frontend-minimal/services/geminiService.ts:38 | a leading `http://` or `https://` is recognised in any case |
| Service.SameIgnoringCaseByChars | frontend-minimal/services/geminiService.ts:38 | texts that agree character by character up to ASCII case are equal ignoring case |
| Service.SchemeOf | frontend-minimal/services/geminiService.ts:38 | any-case `http://` or `https://` in front of a text is recognised as a scheme of its own length, whatever follows |
| Service.RepairScheme | frontend-minimal/services/geminiService.ts:38 | when the text starts with two schemes, both are replaced by `https://` and the text after them follows unchanged; any other text is kept |
| Service.RepairAnyDoubled | frontend-minimal/services/geminiService.ts:38 | any two schemes in any case, such as `http://HTTPS://`, become a single `https://` before the unchanged rest |
| Service.DropTrailingSlash | frontend-minimal/services/geminiService.ts:39 | at most one trailing slash is removed |
| Service.NormalizeSupabaseUrl | frontend-minimal/services/geminiService.ts:36-39 | the URL is absent exactly when it is not configured |
| Service.EnsureConfig | frontend-minimal/services/geminiService.ts:75-81 | the check passes exactly for a non-empty key and a non-empty URL starting with `https://` in any case; a missing setting is reported exactly when one is absent or empty |
| Service.BadUrlQuoted | frontend-minimal/services/geminiService.ts:79-80 | the scheme error quotes the URL |
| Service.HttpSchemeLength | frontend-minimal/services/geminiService.ts:38 | `http://` is a seven-character scheme |
| Service.RepairDoubledHttp | frontend-minimal/services/geminiService.ts:38 | `http://http://host` becomes `https://host` |
| Service.SecureUrlAccepted | frontend-minimal/services/geminiService.ts:79 | a URL starting with `https://` passes the scheme test |
| Service.DoubledSchemeTrimmed | frontend-minimal/services/geminiService.ts:37 | trimming leaves such a URL alone |
| Service.DoubledSchemeFixed | frontend-minimal/services/geminiService.ts:38-39 | the repair and the slash removal turn it into `https://host` |
| Service.DoubledSchemeRepaired | frontend-minimal/services/geminiService.ts:36-81 | a URL typed with its scheme twice and a trailing slash is repaired and then passes the check |
| Service.ParseBody | frontend-minimal/services/geminiService.ts:52-58 | an empty or unparsable body reads as `{}` |
| Service.ServerResponse | frontend-minimal/services/geminiService.ts:52-65 | the call succeeds exactly for a 2xx status, and then returns the parsed body |
| Service.ServerResponseIff | frontend-minimal/services/geminiService.ts:52-65 | a 2xx reply with an empty or unparsable body reads as `{}`; otherwise the error names the path, the status and the body |
| Service.ToSourceTypeIff | frontend-minimal/services/geminiService.ts:105-109 | a value whose lower-cased text names a source type gives that type, in any case; anything else gives `manual` |
| Service.ToSourceTypeRoundTrip | frontend-minimal/services/geminiService.ts:105-109 | each source type's name converts back to it |
| Service.ToSourceType | frontend-minimal/services/geminiService.ts:105-109 | a truthy value whose lower-cased text names a source type gives that type; anything else gives `manual` |
| Service.ToStringArray | frontend-minimal/services/geminiService.ts:111-112 | no array gives nothing; an array gives at most its length, and a string is in the result exactly when it is non-empty and the `String()` of an element |
| Service.ToStringArrayCons | frontend-minimal/services/geminiService.ts:111-112 | element by element and in order: the first element's text, unless empty, comes before those of the rest |
| Service.ToStringArrayOfStrings | frontend-minimal/services/geminiService.ts:111-112 | an array of non-empty strings comes through unchanged |
| Service.ArrayColumn | frontend-minimal/services/geminiService.ts:133-135 | a non-array column gives no elements; an array column gives the `String()` of each element, in order |
| Service.RowToDocument | frontend-minimal/services/geminiService.ts:119-139 | a row becomes a Done, manual, text document of score 50 in workspace `w1`; a present title, raw text, summary and date become their `String()`, array columns are kept, and each missing column is replaced by its default |
| Service.RowsToDocuments | frontend-minimal/services/geminiService.ts:119 | one document per row, in order; no rows, no documents |
| Service.RowToSession | frontend-minimal/services/geminiService.ts:191-197 | a row becomes a session without evidence carrying its id, question and answer, dated now when undated |
| Service.RowsToSessions | frontend-minimal/services/geminiService.ts:191 | one session per row, in order |
| Service.Classify | frontend-minimal/services/geminiService.ts:146-153 | the classification of trimmed text never yields `url` |
| Service.ClassifyOrder | frontend-minimal/services/geminiService.ts:150-153 | ChatGPT exactly when its test passes; Gemini exactly when its test passes and ChatGPT's fails; Claude exactly when only the first two fail; manual exactly when all three fail |
| Service.DetectSourceType | frontend-minimal/services/geminiService.ts:143-154 | detection never yields `url` |
| Service.DetectIgnoresSurroundingSpace | frontend-minimal/services/geminiService.ts:144 | surrounding whitespace never changes the classification |
| Service.DetectPrefersChatGpt | frontend-minimal/services/geminiService.ts:144-150 | any text mentioning `openai.com`, with or without surrounding whitespace, is ChatGPT whatever else it mentions |
| Service.DetectMentionsChatGpt | frontend-minimal/services/geminiService.ts:144-150 | any text mentioning `chatgpt.com`, with or without surrounding whitespace, is ChatGPT |
| Service.DetectMentionsClaude | frontend-minimal/services/geminiService.ts:144-152 | a text mentioning `claude.ai` is Claude when the ChatGPT and Gemini tests fail |
| Service.DetectManual | frontend-minimal/services/geminiService.ts:143-153 | the input is manual exactly when its trimmed text passes none of the three tests |
| Service.IncludesTrim | frontend-minimal/services/geminiService.ts:144 | trimming keeps every piece of text that neither starts nor ends with whitespace |
| Service.DetectPrefersGemini | frontend-minimal/services/geminiService.ts:150-152 | a text mentioning `gemini.google.com` is never classified as Claude, whatever else it mentions |
| Service.DetectChatGptShareLink | frontend-minimal/services/geminiService.ts:146-150 | a ChatGPT share link with any-case scheme and host and an id of `[a-z0-9-]` characters is classified as ChatGPT |
| Service.ShareLinkOf | frontend-minimal/services/geminiService.ts:146-148 | a scheme, a share path matching the pattern in any case and an id of allowed characters with an optional final slash match the share pattern |
| Service.ShareLinkTrimmed | frontend-minimal/services/geminiService.ts:144-146 | such a link has no surrounding whitespace for `trim` to remove |
| Service.UpperSchemeIsScheme | frontend-minimal/services/geminiService.ts:146 | `HTTPS://` is a scheme for the `i` flag |
| Service.UpperHostIsSharePath | frontend-minimal/services/geminiService.ts:146 | `CHATGPT.COM/share/` matches the ChatGPT share path ignoring case |
| Service.SlashedIdIsIdTail | frontend-minimal/services/geminiService.ts:146 | `ab-1/` is an id followed by the optional slash |
| Service.DetectUpperCaseShareLink | frontend-minimal/services/geminiService.ts:146-150 | `HTTPS://CHATGPT.COM/share/ab-1/`, which `includes('chatgpt.com')` misses, is ChatGPT through the share pattern |
| Store.TempId | store.tsx:293 | the temporary id is `temp-` followed by the clock's digits |
| Store.TempIdInjective | store.tsx:293 | different milliseconds give different temporary ids |
| Store.InitialDocument | store.tsx:296-307 | the placeholder carries the temporary id, the input and the clock, is Processing, titled `AI 분석 중...`, manual text in `w1`, with score 0 and no tags, bullets, steps or segments |
| Store.Analyzed | store.tsx:315-320 | the analysed document is Done, takes the analysis id when it is non-empty and the placeholder's otherwise, and for each other field takes the analysis's value when it gives one and keeps the placeholder's otherwise |
| Store.FailedDocument | store.tsx:329-334 | the failed placeholder is Failed, titled `분석 실패`, with the error's message as summary and every other field kept |
| Store.ReplaceTemp | store.tsx:323 | the documents with the temporary id become the analysed one; the others stay where they are |
| Store.FailTemp | store.tsx:329-334 | the documents with the temporary id are marked Failed keeping their text; the others stay |
| Store.AddDocumentSucceeds | store.tsx:293-323 | with no other addition in between, success turns exactly the prepended placeholder into the analysed document |
| Store.AddDocumentFails | store.tsx:293-334 | with no other addition in between, failure marks exactly the prepended placeholder as Failed, keeping the input |
| Store.CompletionAfterRemoval | store.tsx:323-334 | a completion arriving after the placeholder was removed changes nothing |
| Store.Without | store.tsx:372 | the filter keeps exactly the other questions |
| Store.RecordQuestion | store.tsx:372 | the question comes first, at most 30 entries, the rest a prefix of the others in their old order |
| Store.FilterNoDup | store.tsx:372 | a filter of a list without repeats has none |
| Store.RecordQuestionNoDup | store.tsx:372 | a history without repeats stays without repeats |
| Store.RecordQuestionIdempotent | store.tsx:372 | asking the same question twice records it once |
| Store.RecordQuestionKeepsAll | store.tsx:372 | below the cap no earlier question is lost |
| Store.AcceptedQuestion | store.tsx:366-370 | a question is taken exactly when its trimmed form has at least two code units, and then in trimmed form |
| Store.SessionId | store.tsx:379 | the session id is `qa-` followed by the clock's digits |
| Store.SessionIdInjective | store.tsx:379 | different milliseconds give different session ids |
| Store.FindCandidate | store.tsx:340 | `find` succeeds exactly when a candidate has the id, and returns one with it |
| Store.ConfirmEdges | store.tsx:342-346 | the edges with the candidate's endpoints or its edge id become confirmed; nothing else changes |
| Store.WithoutCandidate | store.tsx:347 | exactly the candidates with other ids remain |
| Store.WithoutEdge | store.tsx:357 | exactly the edges with other ids remain |
| Store.Accept | store.tsx:338-349 | an unknown id changes nothing; otherwise the candidate is removed and its edges confirmed |
| Store.Relabel | store.tsx:361 | matching edges get the new relation and keep everything else; the others are unchanged |
| Store.WithoutEdgeIdempotent | store.tsx:356-358 | deleting an edge twice is deleting it once; deleting an absent id changes nothing |
| Store.NodesOf | store.tsx:229-236 | one node per document, in order, with its fields; group 2 exactly for conversations, else 1 |
| Store.AppState.Nodes | store.tsx:228-238 | as many nodes as documents |
| Store.AppState.constructor | store.tsx:182-189 | the workspace starts empty, with no error and a valid history |
| Store.AppState.LoadSucceeded | store.tsx:201-214 | the fetched documents and sessions are installed and the memory rebuilt from them; nothing else changes |
| Store.AppState.LoadFailedWith | store.tsx:215-218 | a failed load only sets the error message |
| Store.AppState.BeginAddDocument | store.tsx:291-309 | the error is cleared and a Processing placeholder holding the input is prepended |
| Store.AppState.CompleteAddDocument | store.tsx:313-325 | the placeholder becomes the analysed document and the error stays cleared |
| Store.AppState.FailAddDocument | store.tsx:326-335 | the error is set and the placeholder marked Failed |
| Store.AppState.AskQuestion | store.tsx:364-372 | a too-short question sets the error and records nothing; an accepted one clears the error and is recorded, keeping the history valid |
| Store.AppState.CompleteAskQuestion | store.tsx:376-385 | a new session with the trimmed question and the answer goes in front; nothing else changes |
| Store.AppState.FailAskQuestion | store.tsx:386-389 | a failed call only sets the error |
| Store.AppState.AcceptCandidate | store.tsx:338-349 | candidates and edges become `Accept`'s result; nothing else changes |
| Store.AppState.RejectCandidate | store.tsx:351-354 | the candidate and the edge made from its id are removed |
| Store.AppState.DeleteEdge | store.tsx:356-358 | only the edges with that id are removed |
| Store.AppState.UpdateEdge | store.tsx:360-362 | only the relation of the edges with that id changes |
| Store.AppState.ResetWorkspace | store.tsx:392-400 | every collection, nodes included, is emptied and the error kept |

## Left out

- Network and storage: the Supabase and OpenAI calls, `fetch`, `saveDocumentToSupabase` (never called), `safeLoad` and the `localStorage`/`sessionStorage` effects are left out. Their results enter as parameters.
- The `qa_history` insert of `/api/ask` is left out: its result is awaited but not used.
- The `active` flag of the load effect is left out. An unmounted provider is not modelled.
- `console` logging and the `hasLoggedSupabaseEnv` flag are left out. They affect nothing observable here.
- `analyzeInput` (geminiService.ts:156-174) is not part of this model. Its result is the parameter `Analysis`. A field it sets to `undefined` is modelled as `None`, which keeps the placeholder's value, whereas JavaScript's spread would overwrite it with `undefined`.
- `askQuestion` of the service becomes the `answer` parameter of `CompleteAskQuestion`.
- Floating point is modelled as exact `real` arithmetic. IEEE rounding of the weighted totals can, in principle, order two nearly equal scores differently.
- Scoring.RecencyScore: takes the parsed timestamp from the `parse` parameter and the clock from `nowMs`; it does not model JavaScript date parsing.
- Merge.MergedFacts: an invalid date is given the key 0. With the source's NaN comparator the order of such documents is implementation-defined.
- JsText.Lower: lower-cases A-Z and the Kelvin sign only. Full Unicode case mapping is not modelled. `İ` (U+0130), which JavaScript lowers to two characters, is the one character where this changes which characters normalisation keeps.
- Service.SameIgnoringCase: the regular expressions' `i` flag is modelled as ASCII case folding, which is exact for the ASCII patterns of the source.
- Answer.EvidenceLinesShape: `slice(0, 180)` is modelled on characters. JavaScript cuts at 180 UTF-16 code units, which differs only for characters outside the Basic Multilingual Plane.
- Retrieval.GroupByDocument: the grouping is a map, which has no inherited keys. The source's `{}` accumulator inherits `Object.prototype`, so a document id such as `constructor`, `toString` or `__proto__` makes `.push` throw (store.tsx:131-135), and a document with such an id and no memory items makes `.slice` throw (store.tsx:139-140). The model gives such documents their own group instead.
- Memory.RebuildMemory: one `now` stamps the items of every document, whereas the source reads the clock again in each `buildMemoryItemsFromDoc` call (store.tsx:64, 213). Items of different documents can therefore carry different `createdAt` and `updatedAt` in the source. The ids do not depend on the clock (`Memory.IdsIgnoreClock`).
- JsValues.ToStr: numbers are integers. Fractional JSON numbers in rows are not modelled.
- Service.ArrayColumn: the raw `bullets` and `tags` columns, which the source passes through unchecked, are modelled as the `String()` of their elements.
- AskApi.Handle: a reply without `choices[0]` is modelled as a model failure, which gives 500 as the source's `catch` does. The 500 body's `error.message` is modelled as the failure's message.
- Store.TempId: two additions in the same millisecond share a temporary id. The lemmas about additions assume the id is fresh, as the source implicitly does.
- The React provider machinery (`createContext`, `useAppStore`, the render) is left out, and so is the UI.
