/** The text-scoring pipeline of store.tsx: `normalize`, `tokenize`,
    `overlapRatio` and `recencyScore`.

    `tokenize` is proved equal to a direct reference definition (the
    whitespace-separated words of the cleaned text, minus one-character
    words), and from that: every token is made of `[a-z0-9가-힣]` and has at
    least two characters, tokenizing is idempotent, and tokenizing two texts
    joined by a space gives the two token lists one after the other. */
module Scoring {
  import opened Wrappers
  import opened Seqs
  import opened JsText

  /** The class `[a-z0-9가-힣]`, which normalisation keeps. */
  predicate IsKept(c: char) {
    'a' <= c <= 'z' || '0' <= c <= '9' || '가' <= c <= '힣'
  }

  /** One character after `toLowerCase()` and
      `.replace(/[^a-z0-9가-힣\s]/g, ' ')`. */
  function Clean(c: char): (r: char)
    ensures IsKept(r) || IsSpace(r)
    ensures IsKept(c) ==> r == c
  {
    var l := Lower(c);
    if IsKept(l) || IsSpace(l) then l else ' '
  }

  function CleanAll(s: string): (r: string)
    ensures |r| == |s| && forall i :: 0 <= i < |s| ==> r[i] == Clean(s[i])
  {
    seq(|s|, i requires 0 <= i < |s| => Clean(s[i]))
  }

  /** The length of the leading run of non-whitespace characters. */
  function WordLength(s: string): (n: nat)
    ensures n <= |s|
    ensures forall i :: 0 <= i < n ==> !IsSpace(s[i])
    ensures n < |s| ==> IsSpace(s[n])
  {
    if s == [] || IsSpace(s[0]) then 0 else 1 + WordLength(s[1..])
  }

  /** `.replace(/\s+/g, ' ')`: every maximal run of whitespace becomes a
      single space, so the only whitespace left is the plain space. */
  function Collapse(s: string): (r: string)
    ensures OnlyBlankSpace(r)
    decreases |s|
  {
    var n := WordLength(s);
    if n == |s| then s
    else
      assert s[n..][0] == s[n];
      var rest := Collapse(DropLeadingSpace(s[n..]));
      OnlyBlankJoin(s[..n], rest);
      s[..n] + " " + rest
  }

  /** The only whitespace character present is the plain space. */
  predicate OnlyBlankSpace(s: string) {
    forall i :: 0 <= i < |s| ==> s[i] == ' ' || !IsSpace(s[i])
  }

  lemma OnlyBlankJoin(w: string, rest: string)
    requires forall i :: 0 <= i < |w| ==> !IsSpace(w[i])
    requires OnlyBlankSpace(rest)
    ensures OnlyBlankSpace(w + " " + rest)
  {
    var r := w + " " + rest;
    forall i | 0 <= i < |r| ensures r[i] == ' ' || !IsSpace(r[i]) {
      if i < |w| {
        assert r[i] == w[i];
      } else if i > |w| {
        assert r[i] == rest[i - |w| - 1];
      }
    }
  }

  /** Every character of `r` is a plain space or occurs in `s`. */
  predicate BlankOrFrom(r: string, s: string) {
    forall i :: 0 <= i < |r| ==> r[i] == ' ' || r[i] in s
  }

  /** What a suffix supplies, the whole text supplies. */
  lemma BlankOrFromSuffix(r: string, s: string, k: nat)
    requires k <= |s| && BlankOrFrom(r, s[k..])
    ensures BlankOrFrom(r, s)
  {
    forall i | 0 <= i < |r| && r[i] != ' ' ensures r[i] in s {
      var j :| 0 <= j < |s[k..]| && s[k..][j] == r[i];
      assert s[k + j] == r[i];
    }
  }

  /** A prefix of `s`, a blank and a text drawn from `s` are drawn from `s`. */
  lemma BlankOrFromJoin(s: string, n: nat, rest: string)
    requires n <= |s| && BlankOrFrom(rest, s)
    ensures BlankOrFrom(s[..n] + " " + rest, s)
  {
    var r := s[..n] + " " + rest;
    forall i | 0 <= i < |r| ensures r[i] == ' ' || r[i] in s {
      if i < n {
        assert r[i] == s[i];
      } else if i > n {
        assert r[i] == rest[i - n - 1];
      }
    }
  }

  /** Collapsing only removes whitespace and inserts plain spaces. */
  lemma {:induction false} CollapseChars(s: string)
    ensures BlankOrFrom(Collapse(s), s)
    decreases |s|
  {
    var n := WordLength(s);
    if n == |s| {
      forall i | 0 <= i < |s| ensures s[i] in s { }
    } else {
      var d := DropLeadingSpace(s[n..]);
      CollapseChars(d);
      BlankOrFromSuffix(Collapse(d), s[n..], |s[n..]| - |d|);
      BlankOrFromSuffix(Collapse(d), s, n);
      BlankOrFromJoin(s, n, Collapse(d));
    }
  }

  /** `normalize` (store.tsx:36-41): only kept characters and single
      spaces remain, with no space at either end. */
  function Normalize(text: string): (r: string)
    ensures forall i :: 0 <= i < |r| ==> IsKept(r[i]) || r[i] == ' '
    ensures r == [] || (r[0] != ' ' && r[|r| - 1] != ' ')
  {
    var c := Collapse(CleanAll(text));
    CollapseChars(CleanAll(text));
    Trim(c)
  }

  predicate IsBlank(c: char) { c == ' ' }
  predicate IsToken(w: string) { |w| > 1 }

  /** `s.split(sep)` for a one-character separator class: the pieces between
      separators, empty pieces included; `""` splits into `[""]`. */
  function SplitBy(s: string, isSep: char -> bool): (r: seq<string>)
    ensures |r| >= 1
  {
    if s == [] then [[]]
    else
      var rest := SplitBy(s[1..], isSep);
      if isSep(s[0]) then [[]] + rest else [[s[0]] + rest[0]] + rest[1..]
  }

  /** `tokenize` (store.tsx:43). */
  function Tokenize(text: string): (r: seq<string>)
    ensures forall i :: 0 <= i < |r| ==> |r[i]| >= 2
  {
    Filter(SplitBy(Normalize(text), IsBlank), IsToken)
  }

  /** Reference definition: the maximal runs of non-whitespace characters. */
  function Words(s: string): seq<string> {
    Filter(SplitBy(s, IsSpace), NonEmpty)
  }

  /** A token as `tokenize` promises it: two or more kept characters. */
  predicate IsKeptWord(w: string) {
    |w| >= 2 && forall j :: 0 <= j < |w| ==> IsKept(w[j])
  }

  // ---------------------------------------------------------------
  // Splitting

  /** Regrouping the first piece when a concatenation is split. */
  lemma ConsPiece(x: char, ra: seq<string>, sb: seq<string>)
    requires |ra| >= 1
    ensures [[x] + (ra + sb)[0]] + (ra + sb)[1..] == ([[x] + ra[0]] + ra[1..]) + sb
  {
    assert (ra + sb)[0] == ra[0];
    assert (ra + sb)[1..] == ra[1..] + sb;
  }

  lemma ConsEmptyPiece(ra: seq<string>, sb: seq<string>)
    ensures [[]] + (ra + sb) == ([[]] + ra) + sb
  {
  }

  /** One step of `SplitBy`: the first character either ends the first
      piece or joins it. */
  lemma SplitByCons(s: string, isSep: char -> bool)
    requires s != []
    ensures var rest := SplitBy(s[1..], isSep);
            SplitBy(s, isSep) == if isSep(s[0]) then [[]] + rest else [[s[0]] + rest[0]] + rest[1..]
  {
  }

  /** Splitting at a separator splits the pieces there. */
  lemma {:induction false} SplitAt(s: string, k: nat, isSep: char -> bool)
    requires k < |s| && isSep(s[k])
    ensures SplitBy(s, isSep) == SplitBy(s[..k], isSep) + SplitBy(s[k + 1..], isSep)
    decreases k
  {
    if k == 0 {
      assert s[..k] == [];
      SplitByCons(s, isSep);
    } else {
      var u := s[..k];
      SplitAt(s[1..], k - 1, isSep);
      TailSlices(s, k);
      var Q, sb := SplitBy(u[1..], isSep), SplitBy(s[k + 1..], isSep);
      assert SplitBy(s[1..], isSep) == Q + sb;
      SplitByCons(s, isSep);
      SplitByCons(u, isSep);
      if isSep(s[0]) {
        ConsEmptyPiece(Q, sb);
      } else {
        ConsPiece(s[0], Q, sb);
      }
    }
  }

  lemma SplitConcat(a: string, c: char, b: string, isSep: char -> bool)
    requires isSep(c)
    ensures SplitBy(a + [c] + b, isSep) == SplitBy(a, isSep) + SplitBy(b, isSep)
  {
    var s := a + [c] + b;
    SplitAt(s, |a|, isSep);
    assert s[..|a|] == a;
    assert s[|a| + 1..] == b;
  }

  lemma {:induction false} SplitNoSep(w: string, isSep: char -> bool)
    requires forall i :: 0 <= i < |w| ==> !isSep(w[i])
    ensures SplitBy(w, isSep) == [w]
  {
    if w != [] {
      SplitNoSep(w[1..], isSep);
      assert [w[0]] + w[1..] == w;
    }
  }

  /** Every piece avoids the separators and is made of characters of `s`. */
  lemma {:induction false} SplitPieces(s: string, isSep: char -> bool)
    ensures forall w | w in SplitBy(s, isSep) ::
      forall j :: 0 <= j < |w| ==> !isSep(w[j]) && w[j] in s
  {
    if s != [] {
      SplitPieces(s[1..], isSep);
      var rest := SplitBy(s[1..], isSep);
      if !isSep(s[0]) {
        var w0 := [s[0]] + rest[0];
        assert rest[0] in rest;
        forall j | 0 <= j < |w0| ensures !isSep(w0[j]) && w0[j] in s {
          if j > 0 { assert w0[j] == rest[0][j - 1]; }
        }
        assert forall w | w in rest[1..] :: w in rest;
      }
    }
  }

  /** Splitting on the blank equals splitting on all whitespace when the
      blank is the only whitespace present. */
  lemma {:induction false} SplitBlankIsSplitSpace(s: string)
    requires forall i :: 0 <= i < |s| && IsSpace(s[i]) ==> s[i] == ' '
    ensures SplitBy(s, IsBlank) == SplitBy(s, IsSpace)
  {
    if s != [] {
      SplitBlankIsSplitSpace(s[1..]);
    }
  }

  // ---------------------------------------------------------------
  // Words

  lemma WordsConcat(a: string, c: char, b: string)
    requires IsSpace(c)
    ensures Words(a + [c] + b) == Words(a) + Words(b)
  {
    SplitConcat(a, c, b, IsSpace);
    FilterConcat(SplitBy(a, IsSpace), SplitBy(b, IsSpace), NonEmpty);
  }

  lemma WordsOfNothing()
    ensures Words("") == []
  {
    assert SplitBy("", IsSpace) == [""];
  }

  lemma WordsOfRun(w: string)
    requires w != [] && forall i :: 0 <= i < |w| ==> !IsSpace(w[i])
    ensures Words(w) == [w]
  {
    SplitNoSep(w, IsSpace);
  }

  lemma {:induction false} WordsDropLeading(s: string)
    ensures Words(DropLeadingSpace(s)) == Words(s)
    decreases |s|
  {
    if s != [] && IsSpace(s[0]) {
      assert s == [] + [s[0]] + s[1..];
      WordsConcat([], s[0], s[1..]);
      WordsOfNothing();
      WordsDropLeading(s[1..]);
    }
  }

  lemma {:induction false} WordsDropTrailing(s: string)
    ensures Words(DropTrailingSpace(s)) == Words(s)
    decreases |s|
  {
    if s != [] && IsSpace(s[|s| - 1]) {
      var init := s[..|s| - 1];
      assert s == init + [s[|s| - 1]] + [];
      WordsConcat(init, s[|s| - 1], []);
      WordsOfNothing();
      WordsDropTrailing(init);
    }
  }

  lemma {:induction false} WordsCollapse(s: string)
    ensures Words(Collapse(s)) == Words(s)
    decreases |s|
  {
    var n := WordLength(s);
    if n < |s| {
      var w, tail := s[..n], s[n + 1..];
      var d := DropLeadingSpace(s[n..]);
      assert s[n..][1..] == tail;
      assert d == DropLeadingSpace(tail);
      var cd := Collapse(d);
      assert Collapse(s) == w + [' '] + cd;
      WordsCollapse(d);
      WordsConcat(w, ' ', cd);
      SplitAround(s, n);
      WordsConcat(w, s[n], tail);
      WordsDropLeading(tail);
    }
  }

  /** A non-empty run of non-whitespace characters. */
  predicate IsRun(w: string) {
    w != [] && forall j :: 0 <= j < |w| ==> !IsSpace(w[j])
  }

  /** Words of space-free, non-empty parts joined by a blank are the parts. */
  lemma {:induction false} WordsOfJoin(ws: seq<string>)
    requires forall i :: 0 <= i < |ws| ==> IsRun(ws[i])
    ensures Words(Join(ws, " ")) == ws
    decreases |ws|
  {
    if |ws| == 0 {
      WordsOfNothing();
    } else if |ws| == 1 {
      WordsOfRun(ws[0]);
    } else {
      var rest := ws[1..];
      assert forall i :: 0 <= i < |rest| ==> IsRun(rest[i]) by {
        forall i | 0 <= i < |rest| ensures IsRun(rest[i]) {
          assert rest[i] == ws[i + 1];
        }
      }
      WordsOfJoin(rest);
      WordsOfRun(ws[0]);
      JoinCons(ws, " ");
      WordsConcat(ws[0], ' ', Join(rest, " "));
      SplitAround(ws, 0);
    }
  }

  lemma JoinCons(parts: seq<string>, sep: string)
    requires |parts| >= 2
    ensures Join(parts, sep) == parts[0] + sep + Join(parts[1..], sep)
  {
  }

  // ---------------------------------------------------------------
  // What tokenize returns

  /** `tokenize` keeps, in order and with repetitions, the whitespace-separated
      words of the cleaned text that are longer than one character. */
  lemma TokenizeIsLongWords(text: string)
    ensures Tokenize(text) == Filter(Words(CleanAll(text)), IsToken)
  {
    var x := CleanAll(text);
    var c := Collapse(x);
    var n := Trim(c);
    forall i | 0 <= i < |n| ensures n[i] == ' ' || !IsSpace(n[i]) {
      var j :| 0 <= j < |c| && c[j] == n[i];
    }
    SplitBlankIsSplitSpace(n);
    FilterFilter(SplitBy(n, IsSpace), NonEmpty, IsToken);
    WordsDropTrailing(DropLeadingSpace(c));
    WordsDropLeading(c);
    WordsCollapse(x);
  }

  /** Every token has at least two characters, all of `[a-z0-9가-힣]`. */
  lemma TokensAreKeptWords(text: string)
    ensures forall i :: 0 <= i < |Tokenize(text)| ==> IsKeptWord(Tokenize(text)[i])
  {
    var x := CleanAll(text);
    TokenizeIsLongWords(text);
    var ts := Tokenize(text);
    forall i | 0 <= i < |ts| ensures IsKeptWord(ts[i]) {
      assert ts[i] in Words(x) && IsToken(ts[i]);
      CleanedWordKept(x, ts[i]);
    }
  }

  /** A word of cleaned text is made of kept characters. */
  lemma CleanedWordKept(x: string, w: string)
    requires forall k :: 0 <= k < |x| ==> IsKept(x[k]) || IsSpace(x[k])
    requires w in Words(x)
    ensures forall j :: 0 <= j < |w| ==> IsKept(w[j])
  {
    SplitPieces(x, IsSpace);
    assert w in SplitBy(x, IsSpace);
    forall j | 0 <= j < |w| ensures IsKept(w[j]) {
      assert !IsSpace(w[j]) && w[j] in x;
    }
  }

  lemma KeptIsNotSpace(c: char)
    requires IsKept(c)
    ensures !IsSpace(c)
  {
  }

  /** Cleaning leaves a join of kept words untouched. */
  lemma CleanJoinOfKept(ts: seq<string>)
    requires forall i :: 0 <= i < |ts| ==> IsKeptWord(ts[i])
    ensures CleanAll(Join(ts, " ")) == Join(ts, " ")
  {
    var s := Join(ts, " ");
    forall k | 0 <= k < |s| ensures Clean(s[k]) == s[k] {
      KeptJoinChar(ts, s[k]);
    }
  }

  /** A character of kept words joined by blanks is a blank or kept. */
  lemma KeptJoinChar(ts: seq<string>, c: char)
    requires forall i :: 0 <= i < |ts| ==> IsKeptWord(ts[i])
    requires c in Join(ts, " ")
    ensures c == ' ' || IsKept(c)
  {
    JoinChars(ts, " ", c);
    if c != ' ' {
      var i :| 0 <= i < |ts| && c in ts[i];
      var j :| 0 <= j < |ts[i]| && ts[i][j] == c;
    }
  }

  /** Tokenizing is idempotent: tokenizing the tokens joined by blanks gives
      the same tokens back. */
  lemma TokenizeIdempotent(q: string)
    ensures Tokenize(Join(Tokenize(q), " ")) == Tokenize(q)
  {
    var ts := Tokenize(q);
    var j := Join(ts, " ");
    TokensAreKeptWords(q);
    CleanJoinOfKept(ts);
    forall i | 0 <= i < |ts| ensures IsRun(ts[i]) {
      assert IsKeptWord(ts[i]);
      forall k | 0 <= k < |ts[i]| ensures !IsSpace(ts[i][k]) {
        KeptIsNotSpace(ts[i][k]);
      }
    }
    WordsOfJoin(ts);
    TokenizeIsLongWords(j);
    assert Tokenize(j) == Filter(Words(j), IsToken);
    FilterAll(ts, IsToken);
  }

  /** Tokens keep input order and repetitions: a text made of two texts
      separated by a blank tokenizes to the two token lists in turn. */
  lemma CleanAllAround(a: string, b: string)
    ensures CleanAll(a + " " + b) == CleanAll(a) + [' '] + CleanAll(b)
  {
    var x, y := CleanAll(a + " " + b), CleanAll(a) + [' '] + CleanAll(b);
    forall i | 0 <= i < |x| ensures x[i] == y[i] {
      if i < |a| {
        assert (a + " " + b)[i] == a[i];
      } else if i > |a| {
        assert (a + " " + b)[i] == b[i - |a| - 1];
      }
    }
  }

  lemma TokenizeConcat(a: string, b: string)
    ensures Tokenize(a + " " + b) == Tokenize(a) + Tokenize(b)
  {
    CleanAllAround(a, b);
    TokenizeIsLongWords(a + " " + b);
    TokenizeIsLongWords(a);
    TokenizeIsLongWords(b);
    WordsConcat(CleanAll(a), ' ', CleanAll(b));
    FilterConcat(Words(CleanAll(a)), Words(CleanAll(b)), IsToken);
  }

  // ---------------------------------------------------------------
  // overlapRatio (store.tsx:45-53)

  /** `new Set(tokenize(targetText))`. */
  function TokenSet(text: string): set<string> {
    set t | t in Tokenize(text)
  }

  /** How many query tokens, counted with repetition, lie in `target`. */
  function Hits(q: seq<string>, target: set<string>): (h: nat)
    ensures h <= |q|
  {
    if q == [] then 0
    else Hits(q[..|q| - 1], target) + (if q[|q| - 1] in target then 1 else 0)
  }

  /** The value `overlapRatio` returns. */
  function Overlap(q: seq<string>, targetText: string): (r: real)
    ensures 0.0 <= r <= 1.0
    ensures q == [] ==> r == 0.0
  {
    if q == [] then 0.0
    else
      var h := Hits(q, TokenSet(targetText));
      RatioBounds(h, |q|);
      h as real / |q| as real
  }

  /** `overlapRatio`: counts in a loop the query tokens found in the
      target's token set. */
  method OverlapRatio(queryTokens: seq<string>, targetText: string) returns (r: real)
    ensures r == Overlap(queryTokens, targetText)
  {
    if |queryTokens| == 0 {
      return 0.0;
    }
    var targetTokens := TokenSet(targetText);
    var overlap := 0;
    for i := 0 to |queryTokens|
      invariant overlap == Hits(queryTokens[..i], targetTokens)
    {
      assert queryTokens[..i + 1][..i] == queryTokens[..i];
      if queryTokens[i] in targetTokens {
        overlap := overlap + 1;
      }
    }
    assert queryTokens[..|queryTokens|] == queryTokens;
    r := overlap as real / |queryTokens| as real;
  }

  lemma RatioBounds(h: nat, n: nat)
    requires 0 < n && h <= n
    ensures 0.0 <= h as real / n as real <= 1.0
  {
    var r := h as real / n as real;
    assert r * n as real == h as real;
  }

  lemma RatioOne(h: nat, n: nat)
    requires 0 < n
    ensures h as real / n as real == 1.0 <==> h == n
  {
    var r := h as real / n as real;
    assert r * n as real == h as real;
  }

  lemma RatioZero(h: nat, n: nat)
    requires 0 < n
    ensures h as real / n as real == 0.0 <==> h == 0
  {
    var r := h as real / n as real;
    assert r * n as real == h as real;
  }

  lemma RatioMonotone(h1: nat, h2: nat, n: nat)
    requires 0 < n && h1 <= h2
    ensures h1 as real / n as real <= h2 as real / n as real
  {
    var r1 := h1 as real / n as real;
    var r2 := h2 as real / n as real;
    assert r1 * n as real == h1 as real;
    assert r2 * n as real == h2 as real;
    assert (r2 - r1) * n as real == (h2 - h1) as real;
  }

  lemma {:induction false} HitsAllIff(q: seq<string>, target: set<string>)
    ensures Hits(q, target) == |q| <==> forall i :: 0 <= i < |q| ==> q[i] in target
  {
    if q != [] {
      var init := q[..|q| - 1];
      HitsAllIff(init, target);
      assert forall i :: 0 <= i < |init| ==> init[i] == q[i];
    }
  }

  lemma {:induction false} HitsNoneIff(q: seq<string>, target: set<string>)
    ensures Hits(q, target) == 0 <==> forall i :: 0 <= i < |q| ==> q[i] !in target
  {
    if q != [] {
      var init := q[..|q| - 1];
      HitsNoneIff(init, target);
      assert forall i :: 0 <= i < |init| ==> init[i] == q[i];
    }
  }

  lemma {:induction false} HitsMonotone(q: seq<string>, t1: set<string>, t2: set<string>)
    requires t1 <= t2
    ensures Hits(q, t1) <= Hits(q, t2)
  {
    if q != [] {
      HitsMonotone(q[..|q| - 1], t1, t2);
    }
  }

  /** The ratio is 1 exactly when every query token occurs in the target. */
  lemma OverlapFullIff(q: seq<string>, targetText: string)
    ensures Overlap(q, targetText) == 1.0 <==> q != [] && forall i :: 0 <= i < |q| ==> q[i] in TokenSet(targetText)
  {
    HitsAllIff(q, TokenSet(targetText));
    if q != [] {
      RatioOne(Hits(q, TokenSet(targetText)), |q|);
    }
  }

  /** The ratio is 0 exactly when the query is empty or no token occurs. */
  lemma OverlapZeroIff(q: seq<string>, targetText: string)
    ensures Overlap(q, targetText) == 0.0 <==> forall i :: 0 <= i < |q| ==> q[i] !in TokenSet(targetText)
  {
    HitsNoneIff(q, TokenSet(targetText));
    if q != [] {
      RatioZero(Hits(q, TokenSet(targetText)), |q|);
    }
  }

  /** A target holding more of the query's tokens scores no lower. */
  lemma OverlapMonotone(q: seq<string>, t1: string, t2: string)
    requires TokenSet(t1) <= TokenSet(t2)
    ensures Overlap(q, t1) <= Overlap(q, t2)
  {
    if q != [] {
      HitsMonotone(q, TokenSet(t1), TokenSet(t2));
      RatioMonotone(Hits(q, TokenSet(t1)), Hits(q, TokenSet(t2)), |q|);
    }
  }

  // ---------------------------------------------------------------
  // recencyScore (store.tsx:55-61)

  const DayMs: int := 1000 * 60 * 60 * 24

  function RMax(a: real, b: real): real { if a >= b then a else b }
  function RMin(a: real, b: real): real { if a <= b then a else b }

  /** The decay applied to a parsed age in milliseconds. */
  function AgeScore(ageMs: int): (r: real)
    ensures 0.1 <= r <= 1.0
  {
    if ageMs <= 0 then 1.0
    else
      var days := ageMs as real / DayMs as real;
      RMax(0.1, 1.0 - RMin(days, 30.0) / 30.0)
  }

  /** `recencyScore`. Parsing `createdAt` (`new Date(s).getTime()`) is a
      parameter: `None` stands for NaN. The clock is the `nowMs` parameter. */
  function RecencyScore(createdAt: string, parse: string -> Option<int>, nowMs: int): (r: real)
    ensures 0.1 <= r <= 1.0
    ensures createdAt == "" ==> r == 0.4
    ensures createdAt != "" && parse(createdAt).None? ==> r == 1.0
  {
    if createdAt == "" then 0.4
    else match parse(createdAt)
      case None => 1.0
      case Some(t) => AgeScore(nowMs - t)
  }

  /** Inside the first 27 days the score falls linearly from 1. */
  lemma AgeScoreLinear(ageMs: int)
    requires 0 < ageMs <= 27 * DayMs
    ensures AgeScore(ageMs) == 1.0 - (ageMs as real / DayMs as real) / 30.0
  {
    var days := ageMs as real / DayMs as real;
    assert days <= 27.0;
  }

  /** The floor of 0.1 is already reached at 27 days and holds for every
      greater age, so the clamp at 30 days never changes the result. */
  lemma AgeScoreFloor(ageMs: int)
    requires ageMs >= 27 * DayMs
    ensures AgeScore(ageMs) == 0.1
  {
    var days := ageMs as real / DayMs as real;
    assert days >= 27.0;
  }

  /** An older document never scores higher. */
  lemma AgeScoreMonotone(a1: int, a2: int)
    requires a1 <= a2
    ensures AgeScore(a2) <= AgeScore(a1)
  {
    if a1 > 0 {
      var d1 := a1 as real / DayMs as real;
      var d2 := a2 as real / DayMs as real;
      assert d1 <= d2;
    }
  }

  /** A date equal to the clock scores exactly 1. */
  lemma RecencyNow(createdAt: string, parse: string -> Option<int>, nowMs: int)
    requires createdAt != "" && parse(createdAt) == Some(nowMs)
    ensures RecencyScore(createdAt, parse, nowMs) == 1.0
  {
  }
}
