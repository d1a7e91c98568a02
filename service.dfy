/** The pure boundary code of frontend-minimal/services/geminiService.ts:
    the normalisation and check of the database URL (35-39, 68-82), the
    decoding of server responses (52-65), the coercions `toSourceType` and
    `toStringArray` (105-112), the row mappers of `fetchPersistedDocuments`
    (119-139) and `fetchQAHistory` (191-197), and `detectSourceType`
    (143-154). Network calls are left to the caller, which passes in what
    they returned. */
module Service {
  import opened Wrappers
  import opened Seqs
  import opened JsText
  import opened JsValues
  import opened Types

  // ---------------------------------------------------------------
  // Case-insensitive matching of ASCII patterns.
  // A regular expression with the `i` flag and without `u` compares
  // characters after upper-casing them, and never lets a non-ASCII
  // character match an ASCII one; for the ASCII patterns below that is
  // exactly the ASCII case folding modelled here.

  function UpperAscii(c: char): char {
    if 'a' <= c <= 'z' then (c as int - 32) as char else c
  }

  predicate SameIgnoringCase(a: string, b: string)
    decreases |a|
  {
    |a| == |b| && (a == [] || (UpperAscii(a[0]) == UpperAscii(b[0]) && SameIgnoringCase(a[1..], b[1..])))
  }

  lemma {:induction false} SameIgnoringCaseAt(a: string, b: string, i: nat)
    requires SameIgnoringCase(a, b) && i < |a|
    ensures UpperAscii(a[i]) == UpperAscii(b[i])
    decreases i
  {
    if i > 0 {
      SameIgnoringCaseAt(a[1..], b[1..], i - 1);
    }
  }

  /** Equal upper-cased character by character is equal ignoring case. */
  lemma {:induction false} SameIgnoringCaseByChars(a: string, b: string)
    requires |a| == |b| && forall i :: 0 <= i < |a| ==> UpperAscii(a[i]) == UpperAscii(b[i])
    ensures SameIgnoringCase(a, b)
    decreases |a|
  {
    if a != [] {
      assert forall i :: 0 <= i < |a[1..]| ==> a[1..][i] == a[i + 1] && b[1..][i] == b[i + 1];
      SameIgnoringCaseByChars(a[1..], b[1..]);
    }
  }

  predicate StartsWithIgnoringCase(s: string, p: string) {
    |p| <= |s| && SameIgnoringCase(s[..|p|], p)
  }

  /** The length of a leading `https?://` (any case), or 0 without one. */
  function SchemeLength(s: string): (n: nat)
    ensures n <= |s|
    ensures n == 0 || n == 7 || n == 8
  {
    if StartsWithIgnoringCase(s, "https://") then 8
    else if StartsWithIgnoringCase(s, "http://") then 7
    else 0
  }

  /** `http://` or `https://` in any mix of case. */
  predicate IsScheme(p: string) {
    SameIgnoringCase(p, "http://") || SameIgnoringCase(p, "https://")
  }

  /** A text that begins with a scheme has exactly that scheme's length. */
  lemma {:induction false} SchemeOf(p: string, rest: string)
    requires IsScheme(p)
    ensures SchemeLength(p + rest) == |p|
    ensures (p + rest)[|p|..] == rest
  {
    var u := p + rest;
    if SameIgnoringCase(p, "https://") {
      assert u[..8] == p;
    } else {
      assert u[..7] == p;
      if |u| >= 8 {
        assert u[..8][4] == p[4];
        SameIgnoringCaseAt(p, "http://", 4);
        assert !SameIgnoringCase(u[..8], "https://") by {
          if SameIgnoringCase(u[..8], "https://") {
            SameIgnoringCaseAt(u[..8], "https://", 4);
            assert false;
          }
        }
      }
    }
  }

  // ---------------------------------------------------------------
  // SUPABASE_URL and ensureConfig

  const SecureScheme: string := "https://"
  const MissingConfigMessage: string := "Supabase 환경변수(VITE_SUPABASE_URL, VITE_SUPABASE_ANON_KEY)가 설정되지 않았습니다."
  const BadUrlMessage: string := "VITE_SUPABASE_URL 형식 오류: "

  /** A doubled scheme at the front (`http://https://…`, any case) becomes
      a single `https://` followed by the rest of the text unchanged. */
  function RepairScheme(t: string): (r: string)
    ensures SchemeLength(t) > 0 && SchemeLength(t[SchemeLength(t)..]) > 0 ==>
              r == SecureScheme + t[SchemeLength(t) + SchemeLength(t[SchemeLength(t)..])..]
    ensures !(SchemeLength(t) > 0 && SchemeLength(t[SchemeLength(t)..]) > 0) ==> r == t
  {
    var a := SchemeLength(t);
    if a > 0 && SchemeLength(t[a..]) > 0 then SecureScheme + t[a + SchemeLength(t[a..])..] else t
  }

  /** Drops one trailing slash. */
  function DropTrailingSlash(s: string): (r: string)
    ensures r == s || (s == r + "/")
    ensures |r| >= |s| - 1
  {
    if s != [] && s[|s| - 1] == '/' then s[..|s| - 1] else s
  }

  /** `SUPABASE_URL`: the configured URL trimmed, its scheme repaired and
      one trailing slash removed; absent when it is not configured. */
  function NormalizeSupabaseUrl(raw: Option<string>): (r: Option<string>)
    ensures r.None? <==> raw.None?
  {
    match raw
    case None => None
    case Some(u) => Some(DropTrailingSlash(RepairScheme(Trim(u))))
  }

  /** Why `ensureConfig` throws. */
  datatype ConfigError = MissingConfig | BadUrl(url: string)

  /** The message of the error thrown. */
  function ConfigErrorMessage(e: ConfigError): string {
    match e
    case MissingConfig => MissingConfigMessage
    case BadUrl(url) => BadUrlMessage + url
  }

  /** `ensureConfig` with the URL already normalised: both settings must be
      present and non-empty, and the URL must be secure. */
  function EnsureConfig(url: Option<string>, key: Option<string>): (r: Result<(), ConfigError>)
    ensures r.Ok? <==>
      url.Some? && key.Some? && key.value != "" && url.value != "" && StartsWithIgnoringCase(url.value, SecureScheme)
    ensures r == Err(MissingConfig) <==> (url.None? || url.value == "" || key.None? || key.value == "")
  {
    if url.None? || url.value == "" || key.None? || key.value == "" then Err(MissingConfig)
    else if !StartsWithIgnoringCase(url.value, SecureScheme) then Err(BadUrl(url.value))
    else Ok(())
  }

  /** A malformed URL is quoted in the message. */
  lemma BadUrlQuoted(url: Option<string>, key: Option<string>)
    ensures EnsureConfig(url, key).Err? && EnsureConfig(url, key).error.BadUrl? ==>
              url.Some? && ConfigErrorMessage(EnsureConfig(url, key).error) == BadUrlMessage + url.value
  {
  }

  lemma HttpSchemeLength(rest: string)
    ensures SchemeLength("http://" + rest) == 7
    ensures ("http://" + rest)[7..] == rest
  {
    var u := "http://" + rest;
    assert u[..7] == "http://";
    assert SameIgnoringCase("http://", "http://");
    if |u| >= 8 {
      assert u[..8][4] == ':';
      if SameIgnoringCase(u[..8], "https://") {
        SameIgnoringCaseAt(u[..8], "https://", 4);
      }
    }
  }

  /** Any two schemes in front, in any case, become one `https://`. */
  lemma RepairAnyDoubled(p: string, q: string, rest: string)
    requires IsScheme(p) && IsScheme(q)
    ensures RepairScheme(p + q + rest) == SecureScheme + rest
  {
    var t := p + q + rest;
    assert t == p + (q + rest);
    SchemeOf(p, q + rest);
    SchemeOf(q, rest);
    assert t[|p| + |q|..] == (q + rest)[|q|..];
  }

  lemma RepairDoubledHttp(rest: string)
    ensures RepairScheme("http://" + ("http://" + rest)) == SecureScheme + rest
  {
    HttpSchemeLength("http://" + rest);
    HttpSchemeLength(rest);
  }

  lemma SecureUrlAccepted(host: string)
    ensures StartsWithIgnoringCase(SecureScheme + host, SecureScheme)
  {
    assert (SecureScheme + host)[..8] == SecureScheme;
    assert SameIgnoringCase("https://", "https://");
  }

  lemma DoubledSchemeTrimmed(host: string)
    requires host != []
    ensures Trim("http://" + ("http://" + (host + "/"))) == "http://" + ("http://" + (host + "/"))
  {
    var u := "http://" + ("http://" + (host + "/"));
    assert u[0] == 'h' && u[|u| - 1] == '/';
    TrimOfTrimmed(u);
  }

  lemma DoubledSchemeFixed(host: string)
    ensures DropTrailingSlash(RepairScheme("http://" + ("http://" + (host + "/")))) == SecureScheme + host
  {
    RepairDoubledHttp(host + "/");
    var fixed := SecureScheme + (host + "/");
    assert fixed[..|fixed| - 1] == SecureScheme + host;
  }

  /** A URL typed with its scheme twice is repaired, loses its trailing
      slash, and then passes the check. */
  lemma DoubledSchemeRepaired(host: string, key: string)
    requires host != [] && key != ""
    ensures NormalizeSupabaseUrl(Some("http://" + ("http://" + (host + "/")))) == Some(SecureScheme + host)
    ensures EnsureConfig(NormalizeSupabaseUrl(Some("http://" + ("http://" + (host + "/")))), Some(key)) == Ok(())
  {
    var u := "http://" + ("http://" + (host + "/"));
    var t := Trim(u);
    DoubledSchemeTrimmed(host);
    assert t == u;
    DoubledSchemeFixed(host);
    var n := DropTrailingSlash(RepairScheme(t));
    assert n == SecureScheme + host;
    assert NormalizeSupabaseUrl(Some(u)) == Some(n);
    SecureUrlAccepted(host);
  }

  // ---------------------------------------------------------------
  // callServerApi: reading the response

  /** The parsed body: `{}` for an empty body and for one that does not
      parse. `parse` is `JSON.parse`, `None` when it throws. */
  function ParseBody(bodyText: string, parse: string -> Option<Json>): (j: Json)
    ensures bodyText == "" ==> j == JObj([])
    ensures bodyText != "" && parse(bodyText).None? ==> j == JObj([])
  {
    if bodyText == "" then JObj([])
    else match parse(bodyText)
      case None => JObj([])
      case Some(j) => j
  }

  /** What `callServerApi` resolves to, or the message of the error it
      throws, given the response's status and body text. */
  function ServerResponse(path: string, status: int, bodyText: string, parse: string -> Option<Json>): (r: Result<Json, string>)
    ensures r.Ok? <==> 200 <= status <= 299
    ensures r.Ok? ==> r.value == ParseBody(bodyText, parse)
  {
    if 200 <= status <= 299 then Ok(ParseBody(bodyText, parse))
    else Err("API " + path + " failed (" + IntToString(status) + "): " + (if bodyText != "" then bodyText else "{}"))
  }

  /** Success exactly for a 2xx status, with the parsed body (or `{}`);
      otherwise an error naming the path, the status and the body. */
  lemma ServerResponseIff(path: string, status: int, bodyText: string, parse: string -> Option<Json>)
    ensures 200 <= status <= 299 && (bodyText == "" || parse(bodyText).None?) ==>
              ServerResponse(path, status, bodyText, parse) == Ok(JObj([]))
    ensures !(200 <= status <= 299) ==>
              var msg := ServerResponse(path, status, bodyText, parse).error;
              Includes(msg, path) && Includes(msg, IntToString(status))
              && (bodyText != "" ==> Includes(msg, bodyText))
  {
    if !(200 <= status <= 299) {
      var st := IntToString(status);
      var body := if bodyText != "" then bodyText else "{}";
      var msg := "API " + path + " failed (" + st + "): " + body;
      assert msg == "API " + path + (" failed (" + st + "): " + body);
      IncludesMiddle("API ", path, " failed (" + st + "): " + body);
      assert msg == ("API " + path + " failed (") + st + ("): " + body);
      IncludesMiddle("API " + path + " failed (", st, "): " + body);
      assert msg == ("API " + path + " failed (" + st + "): ") + body + [];
      IncludesMiddle("API " + path + " failed (" + st + "): ", body, []);
    }
  }

  // ---------------------------------------------------------------
  // toSourceType and toStringArray

  function SourceTypeName(t: SourceType): string {
    match t
    case ChatGpt => "chatgpt"
    case Gemini => "gemini"
    case Claude => "claude"
    case Manual => "manual"
    case Url => "url"
  }

  const SourceTypeNames: set<string> := {"chatgpt", "gemini", "claude", "manual", "url"}

  /** `toSourceType`: the lower-cased text of the value if it names a
      source type, `manual` otherwise. */
  function ToSourceType(v: Json): (t: SourceType)
    ensures Truthy(v) && LowerAll(ToStr(v)) in SourceTypeNames ==> SourceTypeName(t) == LowerAll(ToStr(v))
    ensures !(Truthy(v) && LowerAll(ToStr(v)) in SourceTypeNames) ==> t == Manual
  {
    assert LowerAll("") == "";
    var s := LowerAll(if Truthy(v) then ToStr(v) else "");
    if s == "chatgpt" then ChatGpt
    else if s == "gemini" then Gemini
    else if s == "claude" then Claude
    else if s == "manual" then Manual
    else if s == "url" then Url
    else Manual
  }

  /** A text whose lower-case form names a source type gives that type, in
      whatever case it is written; any other value gives `manual`. */
  lemma ToSourceTypeIff(v: Json, t: SourceType)
    ensures ToSourceType(v) == t <==>
      (Truthy(v) && LowerAll(ToStr(v)) == SourceTypeName(t))
      || (t == Manual && !(Truthy(v) && LowerAll(ToStr(v)) in SourceTypeNames))
  {
    if !Truthy(v) {
      assert LowerAll("") == "";
    }
  }

  /** Each type's own name converts back to it. */
  lemma ToSourceTypeRoundTrip(t: SourceType)
    ensures ToSourceType(JStr(SourceTypeName(t))) == t
  {
    var n := SourceTypeName(t);
    assert LowerAll(n) == n;
  }

  /** `toStringArray`: the text of each element of an array, in order,
      empty ones removed; nothing for a value that is not an array. */
  function ToStringArray(v: Json): (r: seq<string>)
    ensures !v.JArr? ==> r == []
    ensures v.JArr? ==> |r| <= |v.items|
    ensures forall x :: x in r <==> x != "" && v.JArr? && exists i :: 0 <= i < |v.items| && x == ToStr(v.items[i])
  {
    if v.JArr? then Filter(ArrayColumn(v), NonEmpty) else []
  }

  /** Element by element, in order: the text of the first element (unless
      it is empty) comes before those of the rest. */
  lemma {:induction false} ToStringArrayCons(x: Json, xs: seq<Json>)
    ensures ToStringArray(JArr([])) == []
    ensures ToStringArray(JArr([x] + xs)) ==
              (if ToStr(x) == "" then [] else [ToStr(x)]) + ToStringArray(JArr(xs))
  {
    var c := ArrayColumn(JArr([x] + xs));
    assert c == [ToStr(x)] + ArrayColumn(JArr(xs));
    FilterConcat([ToStr(x)], ArrayColumn(JArr(xs)), NonEmpty);
  }

  /** An array of non-empty strings comes through unchanged. */
  lemma ToStringArrayOfStrings(xs: seq<string>)
    requires forall i :: 0 <= i < |xs| ==> xs[i] != ""
    ensures ToStringArray(JArr(seq(|xs|, i requires 0 <= i < |xs| => JStr(xs[i])))) == xs
  {
    var v := JArr(seq(|xs|, i requires 0 <= i < |xs| => JStr(xs[i])));
    assert ArrayColumn(v) == xs;
    FilterAll(xs, NonEmpty);
  }

  // ---------------------------------------------------------------
  // Row mappers

  /** A `documents` row as the database returns it. */
  datatype DocumentRow = DocumentRow(id: Json, title: Json, rawText: Json, summary: Json,
                                     bullets: Json, tags: Json, createdAt: Json)

  /** A `qa_history` row. */
  datatype SessionRow = SessionRow(id: Json, question: Json, answer: Json, createdAt: Json)

  const UntitledDocument: string := "제목 없는 문서"
  const DefaultWorkspace: string := "w1"
  const PersistedScore: int := 50

  /** `String(value || fallback)`. */
  function TextOr(v: Json, fallback: string): string {
    if Truthy(v) then ToStr(v) else fallback
  }

  /** An array column taken as it is, `[]` when it is not an array. */
  function ArrayColumn(v: Json): (r: seq<string>)
    ensures !v.JArr? ==> r == []
    ensures v.JArr? ==> |r| == |v.items| && forall i :: 0 <= i < |r| ==> r[i] == ToStr(v.items[i])
  {
    if v.JArr? then seq(|v.items|, i requires 0 <= i < |v.items| => ToStr(v.items[i])) else []
  }

  /** The `map` callback of `fetchPersistedDocuments`; `nowIso` is the
      current time the source falls back to. */
  function RowToDocument(row: DocumentRow, nowIso: string): (d: Document)
    ensures d.status == Done && d.knowledgeScore == PersistedScore
    ensures d.sourceType == Manual && d.docType == Text && d.workspaceId == DefaultWorkspace
    ensures d.id == ToStr(row.id)
    ensures !Truthy(row.title) ==> d.title == UntitledDocument
    ensures Truthy(row.title) ==> d.title == ToStr(row.title)
    ensures !Truthy(row.rawText) ==> d.rawText == ""
    ensures Truthy(row.rawText) ==> d.rawText == ToStr(row.rawText)
    ensures !Truthy(row.summary) ==> d.summaryText == ""
    ensures Truthy(row.summary) ==> d.summaryText == ToStr(row.summary)
    ensures d.segments == [] && d.actionSteps == []
    ensures !row.bullets.JArr? ==> d.summaryBullets == []
    ensures row.bullets.JArr? ==> d.summaryBullets == ArrayColumn(row.bullets)
    ensures !row.tags.JArr? ==> d.topicTags == []
    ensures row.tags.JArr? ==> d.topicTags == ArrayColumn(row.tags)
    ensures !Truthy(row.createdAt) ==> d.createdAt == nowIso
    ensures Truthy(row.createdAt) ==> d.createdAt == ToStr(row.createdAt)
  {
    Document(ToStr(row.id), DefaultWorkspace, Manual, TextOr(row.title, UntitledDocument),
             TextOr(row.rawText, ""), Text, [], [], Done, TextOr(row.summary, ""),
             ArrayColumn(row.bullets), PersistedScore, ArrayColumn(row.tags), TextOr(row.createdAt, nowIso))
  }

  /** `(rows || []).map(...)`: one document per row, in row order. */
  function RowsToDocuments(rows: Option<seq<DocumentRow>>, nowIso: string): (r: seq<Document>)
    ensures rows.None? ==> r == []
    ensures rows.Some? ==> |r| == |rows.value| && forall i :: 0 <= i < |r| ==> r[i] == RowToDocument(rows.value[i], nowIso)
  {
    match rows
    case None => []
    case Some(rs) => seq(|rs|, i requires 0 <= i < |rs| => RowToDocument(rs[i], nowIso))
  }

  /** The `map` callback of `fetchQAHistory`. */
  function RowToSession(row: SessionRow, nowIso: string): (s: QASession)
    ensures s.evidence == []
    ensures s.id == ToStr(row.id) && s.question == ToStr(row.question) && s.answer == ToStr(row.answer)
    ensures s.createdAt == (if Truthy(row.createdAt) then ToStr(row.createdAt) else nowIso)
  {
    QASession(ToStr(row.id), ToStr(row.question), ToStr(row.answer), [], TextOr(row.createdAt, nowIso))
  }

  function RowsToSessions(rows: Option<seq<SessionRow>>, nowIso: string): (r: seq<QASession>)
    ensures rows.None? ==> r == []
    ensures rows.Some? ==> |r| == |rows.value| && forall i :: 0 <= i < |r| ==> r[i] == RowToSession(rows.value[i], nowIso)
  {
    match rows
    case None => []
    case Some(rs) => seq(|rs|, i requires 0 <= i < |rs| => RowToSession(rs[i], nowIso))
  }

  // ---------------------------------------------------------------
  // detectSourceType

  predicate IsAsciiLetter(c: char) { 'a' <= c <= 'z' || 'A' <= c <= 'Z' }
  predicate IsAsciiDigit(c: char) { '0' <= c <= '9' }

  /** `[a-z0-9-]` under the `i` flag. */
  predicate ChatGptIdChar(c: char) { IsAsciiLetter(c) || IsAsciiDigit(c) || c == '-' }
  /** `[a-z0-9]` under the `i` flag. */
  predicate GeminiIdChar(c: char) { IsAsciiLetter(c) || IsAsciiDigit(c) }
  /** `[a-f0-9-]` under the `i` flag. */
  predicate ClaudeIdChar(c: char) { 'a' <= c <= 'f' || 'A' <= c <= 'F' || IsAsciiDigit(c) || c == '-' }

  predicate AllOf(s: string, p: char -> bool) {
    forall i :: 0 <= i < |s| ==> p(s[i])
  }

  /** `[class]+\/?$`: one or more id characters, then at most one slash. */
  predicate IdTail(t: string, idChar: char -> bool) {
    (|t| >= 1 && AllOf(t, idChar)) || (|t| >= 2 && t[|t| - 1] == '/' && AllOf(t[..|t| - 1], idChar))
  }

  /** `^https?:\/\/{host}\/share\/[class]+\/?$` with the `i` flag, where
      `sharePath` is the host followed by `/share/`. */
  predicate ShareLink(text: string, sharePath: string, idChar: char -> bool) {
    var a := SchemeLength(text);
    a > 0 && StartsWithIgnoringCase(text[a..], sharePath)
    && IdTail(text[a + |sharePath|..], idChar)
  }

  /** The three tests of `detectSourceType`, one per assistant: its share
      link, or a mention of its host. */
  predicate ChatGptRule(text: string) {
    ShareLink(text, "chatgpt.com/share/", ChatGptIdChar) || Includes(text, "chatgpt.com") || Includes(text, "openai.com")
  }

  predicate GeminiRule(text: string) {
    ShareLink(text, "gemini.google.com/share/", GeminiIdChar) || Includes(text, "gemini.google.com")
  }

  predicate ClaudeRule(text: string) {
    ShareLink(text, "claude.ai/share/", ClaudeIdChar) || Includes(text, "claude.ai")
  }

  /** The classification of already trimmed text: share links and known
      hosts, checked in the order ChatGPT, Gemini, Claude; anything else is
      manual input. */
  function Classify(text: string): (t: SourceType)
    ensures t != Url
  {
    if ChatGptRule(text) then ChatGpt
    else if GeminiRule(text) then Gemini
    else if ClaudeRule(text) then Claude
    else Manual
  }

  /** Each result is chosen exactly when its test passes and no earlier
      test does. */
  lemma ClassifyOrder(text: string)
    ensures Classify(text) == ChatGpt <==> ChatGptRule(text)
    ensures Classify(text) == Gemini <==> !ChatGptRule(text) && GeminiRule(text)
    ensures Classify(text) == Claude <==> !ChatGptRule(text) && !GeminiRule(text) && ClaudeRule(text)
    ensures Classify(text) == Manual <==> !ChatGptRule(text) && !GeminiRule(text) && !ClaudeRule(text)
  {
  }

  /** `detectSourceType`: never `url`, which only the other coercion
      produces. */
  function DetectSourceType(input: string): (t: SourceType)
    ensures t != Url
  {
    Classify(Trim(input))
  }

  /** Surrounding whitespace never changes the classification. */
  lemma DetectIgnoresSurroundingSpace(input: string)
    ensures DetectSourceType(Trim(input)) == DetectSourceType(input)
  {
    TrimIdempotent(input);
  }

  /** A non-space character lies outside an all-space prefix... */
  lemma NotInSpacePrefix(s: string, k: nat, i: nat)
    requires k <= |s| && AllSpace(s[..k]) && i < |s| && !IsSpace(s[i])
    ensures k <= i
  {
    forall j | 0 <= j < k ensures IsSpace(s[j]) {
      assert s[..k][j] == s[j];
    }
  }

  /** ...and outside an all-space suffix. */
  lemma NotInSpaceSuffix(s: string, e: nat, i: nat)
    requires e <= |s| && AllSpace(s[e..]) && i < |s| && !IsSpace(s[i])
    ensures i < e
  {
    forall j | e <= j < |s| ensures IsSpace(s[j]) {
      assert s[e..][j - e] == s[j];
    }
  }

  /** An occurrence inside a slice is an occurrence in that slice. */
  lemma OccursInSlice<T>(s: seq<T>, k: nat, e: nat, needle: seq<T>, i: nat)
    requires k <= i && e <= |s| && OccursAt(s, needle, i) && i + |needle| <= e
    ensures OccursAt(s[k..e], needle, i - k)
  {
    var w := s[k..e];
    forall m | 0 <= m < |needle| ensures w[i - k + m] == needle[m] {
      assert w[i - k + m] == s[i + m];
      assert s[i..i + |needle|][m] == s[i + m];
    }
    assert w[i - k..i - k + |needle|] == needle;
  }

  /** A needle that neither begins nor ends with whitespace, found in a
      text, is found in the part of it between leading and trailing
      whitespace. */
  lemma IncludesPiece(s: string, k: nat, r: string, needle: string)
    requires needle != [] && !IsSpace(needle[0]) && !IsSpace(needle[|needle| - 1])
    requires PieceBetweenSpace(s, k, r) && Includes(s, needle)
    ensures Includes(r, needle)
  {
    IncludesOccurs(s, needle);
    var i: nat :| OccursAt(s, needle, i);
    PieceOccurrence(s, k, r, needle, i);
    OccursIncludes(r, needle, i - k);
  }

  lemma PieceOccurrence(s: string, k: nat, r: string, needle: string, i: nat)
    requires needle != [] && !IsSpace(needle[0]) && !IsSpace(needle[|needle| - 1])
    requires PieceBetweenSpace(s, k, r) && OccursAt(s, needle, i)
    ensures k <= i && OccursAt(r, needle, i - k)
  {
    OccursEnds(s, needle, i);
    NotInSpacePrefix(s, k, i);
    NotInSpaceSuffix(s, k + |r|, i + |needle| - 1);
    OccursInSlice(s, k, k + |r|, needle, i);
  }

  /** The same survives trimming. */
  lemma IncludesTrim(s: string, needle: string)
    requires needle != [] && !IsSpace(needle[0]) && !IsSpace(needle[|needle| - 1])
    requires Includes(s, needle)
    ensures Includes(Trim(s), needle)
  {
    TrimSpec(s);
    var k: nat :| PieceBetweenSpace(s, k, Trim(s));
    IncludesPiece(s, k, Trim(s), needle);
  }

  /** A mention of OpenAI anywhere in the input wins over any other host
      in the same text. */
  lemma DetectPrefersChatGpt(input: string)
    requires Includes(input, "openai.com")
    ensures DetectSourceType(input) == ChatGpt
  {
    IncludesTrim(input, "openai.com");
  }

  /** A mention of `chatgpt.com` anywhere in the input is ChatGPT. */
  lemma DetectMentionsChatGpt(input: string)
    requires Includes(input, "chatgpt.com")
    ensures DetectSourceType(input) == ChatGpt
  {
    IncludesTrim(input, "chatgpt.com");
  }

  /** A mention of `claude.ai` is Claude once the ChatGPT and Gemini tests
      fail on the trimmed text. */
  lemma DetectMentionsClaude(input: string)
    requires Includes(input, "claude.ai")
    requires !ChatGptRule(Trim(input)) && !GeminiRule(Trim(input))
    ensures DetectSourceType(input) == Claude
  {
    IncludesTrim(input, "claude.ai");
  }

  /** Text that passes none of the three tests is manual input, and only
      such text is. */
  lemma DetectManual(input: string)
    ensures DetectSourceType(input) == Manual <==>
              !ChatGptRule(Trim(input)) && !GeminiRule(Trim(input)) && !ClaudeRule(Trim(input))
  {
    ClassifyOrder(Trim(input));
  }

  /** A mention of Gemini is never classified as Claude or manual input,
      whatever else the text contains. */
  lemma DetectPrefersGemini(input: string)
    requires Includes(input, "gemini.google.com")
    ensures DetectSourceType(input) == ChatGpt || DetectSourceType(input) == Gemini
  {
    IncludesTrim(input, "gemini.google.com");
  }

  /** A character that upper-cases to `H` is an `h`. */
  lemma UpperH(c: char)
    requires UpperAscii(c) == 'H'
    ensures c == 'h' || c == 'H'
  {
  }

  /** A scheme, a share path matching `pattern` in any case, and an id
      tail make a share link. */
  lemma ShareLinkOf(scheme: string, sharePath: string, pattern: string, id: string, idChar: char -> bool)
    requires IsScheme(scheme) && SameIgnoringCase(sharePath, pattern) && IdTail(id, idChar)
    ensures ShareLink(scheme + sharePath + id, pattern, idChar)
  {
    var text := scheme + sharePath + id;
    assert text == scheme + (sharePath + id);
    SchemeOf(scheme, sharePath + id);
    assert |sharePath| == |pattern|;
    assert (sharePath + id)[..|pattern|] == sharePath;
    assert text[|scheme| + |pattern|..] == id;
  }

  /** A text that starts with a scheme and ends with an id tail has no
      surrounding whitespace. */
  lemma ShareLinkTrimmed(scheme: string, sharePath: string, id: string)
    requires IsScheme(scheme) && IdTail(id, ChatGptIdChar)
    ensures Trim(scheme + sharePath + id) == scheme + sharePath + id
  {
    var text := scheme + sharePath + id;
    if SameIgnoringCase(scheme, "https://") {
      SameIgnoringCaseAt(scheme, "https://", 0);
    } else {
      SameIgnoringCaseAt(scheme, "http://", 0);
    }
    UpperH(scheme[0]);
    assert text[0] == scheme[0];
    assert text[|text| - 1] == id[|id| - 1];
    TrimOfTrimmed(text);
  }

  /** A ChatGPT share link, with its scheme and host in any case and an
      optional trailing slash, is classified as ChatGPT. */
  lemma DetectChatGptShareLink(scheme: string, sharePath: string, id: string)
    requires IsScheme(scheme) && SameIgnoringCase(sharePath, "chatgpt.com/share/")
    requires IdTail(id, ChatGptIdChar)
    ensures DetectSourceType(scheme + sharePath + id) == ChatGpt
  {
    ShareLinkTrimmed(scheme, sharePath, id);
    ShareLinkOf(scheme, sharePath, "chatgpt.com/share/", id, ChatGptIdChar);
  }

  lemma UpperSchemeIsScheme()
    ensures IsScheme("HTTPS://")
  {
    SameIgnoringCaseByChars("HTTPS://", "https://");
  }

  lemma UpperHostIsSharePath()
    ensures SameIgnoringCase("CHATGPT.COM/share/", "chatgpt.com/share/")
  {
    SameIgnoringCaseByChars("CHATGPT.COM/share/", "chatgpt.com/share/");
  }

  lemma SlashedIdIsIdTail()
    ensures IdTail("ab-1/", ChatGptIdChar)
  {
    assert "ab-1/"[..4] == "ab-1";
  }

  /** The share-link pattern ignores case, where the host mentions do not:
      `HTTPS://CHATGPT.COM/share/ab-1/` is still ChatGPT. */
  lemma DetectUpperCaseShareLink(scheme: string, sharePath: string, id: string)
    requires scheme == "HTTPS://" && sharePath == "CHATGPT.COM/share/" && id == "ab-1/"
    ensures DetectSourceType(scheme + sharePath + id) == ChatGpt
  {
    UpperSchemeIsScheme();
    UpperHostIsSharePath();
    SlashedIdIsIdTail();
    DetectChatGptShareLink(scheme, sharePath, id);
  }
}
