/** Sequence operations shared by every module: the JavaScript array
    primitives the source leans on (`filter`, `slice`, `join`,
    `includes`) together with the facts the proofs need about them. */
module Seqs {

  /** `Array.prototype.filter`: the elements that satisfy `p`, in order. */
  function Filter<T>(s: seq<T>, p: T -> bool): (r: seq<T>)
    ensures |r| <= |s|
    ensures forall i :: 0 <= i < |r| ==> r[i] in s && p(r[i])
    ensures forall i :: 0 <= i < |s| && p(s[i]) ==> s[i] in r
  {
    if s == [] then [] else (if p(s[0]) then [s[0]] else []) + Filter(s[1..], p)
  }

  lemma {:induction false} FilterConcat<T>(a: seq<T>, b: seq<T>, p: T -> bool)
    ensures Filter(a + b, p) == Filter(a, p) + Filter(b, p)
  {
    if a == [] {
      assert a + b == b;
    } else {
      assert (a + b)[0] == a[0];
      assert (a + b)[1..] == a[1..] + b;
      FilterConcat(a[1..], b, p);
    }
  }

  /** Filtering by a weaker predicate first changes nothing. */
  lemma {:induction false} FilterFilter<T>(s: seq<T>, p: T -> bool, q: T -> bool)
    requires forall x :: q(x) ==> p(x)
    ensures Filter(Filter(s, p), q) == Filter(s, q)
  {
    if s != [] {
      FilterFilter(s[1..], p, q);
      FilterConcat(if p(s[0]) then [s[0]] else [], Filter(s[1..], p), q);
    }
  }

  /** A filter that keeps every element is the identity. */
  lemma {:induction false} FilterAll<T>(s: seq<T>, p: T -> bool)
    requires forall i :: 0 <= i < |s| ==> p(s[i])
    ensures Filter(s, p) == s
  {
    if s != [] {
      FilterAll(s[1..], p);
    }
  }

  /** Filtering a prefix gives a prefix of the filtered sequence. */
  lemma {:induction false} FilterPrefix<T>(s: seq<T>, n: nat, p: T -> bool)
    requires n <= |s|
    ensures Filter(s[..n], p) <= Filter(s, p)
  {
    assert s == s[..n] + s[n..];
    FilterConcat(s[..n], s[n..], p);
  }

  /** `s.slice(0, k)` for a non-negative `k`. */
  function Prefix<T>(s: seq<T>, k: nat): (r: seq<T>)
    ensures |r| == if k <= |s| then k else |s|
    ensures r <= s
  {
    if k <= |s| then s[..k] else s
  }

  /** The end index `s.slice(0, k)` stops at for an integer `k`: a negative
      `k` counts back from the end, as JavaScript does. */
  function SliceEnd(n: nat, k: int): (e: nat)
    ensures e <= n
    ensures k >= 0 ==> e == if k <= n then k else n
    ensures k < 0 ==> e == if n + k >= 0 then n + k else 0
  {
    if k >= 0 then (if k <= n then k else n)
    else if n + k >= 0 then n + k else 0
  }

  /** `s.slice(0, k)` for any integer `k`. */
  function Slice<T>(s: seq<T>, k: int): (r: seq<T>)
    ensures r == s[..SliceEnd(|s|, k)]
  {
    s[..SliceEnd(|s|, k)]
  }

  /** `Array.prototype.join`. */
  function Join(parts: seq<string>, sep: string): string
    decreases |parts|
  {
    if |parts| == 0 then ""
    else if |parts| == 1 then parts[0]
    else parts[0] + sep + Join(parts[1..], sep)
  }

  /** A join of non-empty parts is empty only when there are no parts. */
  lemma {:induction false} JoinEmptyIff(parts: seq<string>, sep: string)
    requires forall i :: 0 <= i < |parts| ==> parts[i] != ""
    ensures Join(parts, sep) == "" <==> parts == []
  {
    if |parts| >= 1 {
      assert |Join(parts, sep)| >= |parts[0]| > 0;
    }
  }

  /** Every character of a join comes from a part or from the separator. */
  lemma {:induction false} JoinChars(parts: seq<string>, sep: string, c: char)
    requires c in Join(parts, sep)
    ensures c in sep || exists i :: 0 <= i < |parts| && c in parts[i]
  {
    if |parts| == 1 {
      assert c in parts[0];
    } else if |parts| > 1 {
      var rest := Join(parts[1..], sep);
      assert Join(parts, sep) == parts[0] + sep + rest;
      if c in parts[0] {
      } else if c in sep {
      } else {
        assert c in rest;
        JoinChars(parts[1..], sep, c);
        var i :| 0 <= i < |parts[1..]| && c in parts[1..][i];
        assert c in parts[i + 1];
      }
    }
  }

  /** A sequence is what precedes position `n`, the element there, and
      what follows. */
  lemma SplitAround<T>(s: seq<T>, n: nat)
    requires n < |s|
    ensures s == s[..n] + [s[n]] + s[n + 1..]
  {
  }

  /** A prefix one longer is the prefix followed by the next element. */
  lemma PrefixSnoc<T>(s: seq<T>, n: nat)
    requires n < |s|
    ensures s[..n + 1] == s[..n] + [s[n]]
  {
  }

  /** Slicing the tail is slicing the sequence one position further on. */
  lemma TailSlices<T>(s: seq<T>, k: nat)
    requires 0 < k < |s|
    ensures s[1..][..k - 1] == s[..k][1..]
    ensures s[1..][k..] == s[k + 1..]
    ensures s[..k][0] == s[0]
  {
  }

  /** The last element of a concatenation and what precedes it. */
  lemma ConcatLast<T>(t: seq<T>, p: seq<T>)
    requires p != []
    ensures (t + p)[|t + p| - 1] == p[|p| - 1]
    ensures (t + p)[..|t + p| - 1] == t + p[..|p| - 1]
    ensures p == p[..|p| - 1] + [p[|p| - 1]]
  {
  }

  /** A sequence is its prefix followed by the rest, also as multisets. */
  lemma PrefixSuffix<T>(s: seq<T>, n: nat)
    requires n <= |s|
    ensures s == s[..n] + s[n..]
    ensures multiset(s) == multiset(s[..n]) + multiset(s[n..])
  {
    assert s == s[..n] + s[n..];
  }

  /** Where position `k` of four concatenated pieces comes from. */
  lemma Concat4At<T>(s: seq<T>, f: seq<T>, a: seq<T>, g: seq<T>, k: nat)
    requires k < |s| + |f| + |a| + |g|
    ensures (s + f + a + g)[k] == if k < |s| then s[k]
                                  else if k < |s| + |f| then f[k - |s|]
                                  else if k < |s| + |f| + |a| then a[k - |s| - |f|]
                                  else g[k - |s| - |f| - |a|]
  {
  }

  predicate StartsWith<T(==)>(s: seq<T>, prefix: seq<T>) {
    |prefix| <= |s| && s[..|prefix|] == prefix
  }

  /** `String.prototype.includes`: `needle` occurs somewhere in `hay`. */
  function Includes<T(==)>(hay: seq<T>, needle: seq<T>): (b: bool)
    decreases |hay|
  {
    StartsWith(hay, needle) || (hay != [] && Includes(hay[1..], needle))
  }

  /** What was placed between two pieces can be found again. */
  lemma {:induction false} IncludesMiddle<T>(p: seq<T>, needle: seq<T>, q: seq<T>)
    ensures Includes(p + needle + q, needle)
    decreases |p|
  {
    if p == [] {
      assert p + needle + q == needle + q;
      assert (needle + q)[..|needle|] == needle;
    } else {
      assert (p + needle + q)[1..] == p[1..] + needle + q;
      IncludesMiddle(p[1..], needle, q);
    }
  }

  /** Of five pieces laid end to end, the second, the fourth and the run
      from the second to the fourth can be found again. */
  lemma IncludesOfFive<T>(a: seq<T>, b: seq<T>, c: seq<T>, d: seq<T>, e: seq<T>)
    ensures Includes(a + b + c + d + e, b)
    ensures Includes(a + b + c + d + e, d)
    ensures Includes(a + b + c + d + e, b + c + d)
  {
    assert a + b + c + d + e == a + b + (c + d + e);
    IncludesMiddle(a, b, c + d + e);
    assert a + b + c + d + e == (a + b + c) + d + e;
    IncludesMiddle(a + b + c, d, e);
    assert a + b + c + d + e == a + (b + c + d) + e;
    IncludesMiddle(a, b + c + d, e);
  }

  /** Five pieces laid end to end begin with the first and end with the
      last, however they are grouped. */
  lemma StartsWithOfFive<T>(a: seq<T>, b: seq<T>, c: seq<T>, d: seq<T>, e: seq<T>)
    ensures StartsWith(a + b + c + d + e, a)
    ensures var s := a + b + c + d + e; |e| <= |s| && s[|s| - |e|..] == e
    ensures a + b + (c + d + e) == a + b + c + d + e
  {
    var s := a + b + c + d + e;
    assert s[..|a|] == a;
    assert s == (a + b + c + d) + e;
  }

  /** What occurs in a sequence still occurs with more put in front. */
  lemma {:induction false} IncludesPrepend<T>(x: seq<T>, y: seq<T>, needle: seq<T>)
    requires Includes(y, needle)
    ensures Includes(x + y, needle)
    decreases |x|
  {
    if x == [] {
      assert x + y == y;
    } else {
      assert (x + y)[1..] == x[1..] + y;
      IncludesPrepend(x[1..], y, needle);
    }
  }

  /** What occurs in a sequence still occurs once more is appended. */
  lemma {:induction false} IncludesExtend<T>(x: seq<T>, y: seq<T>, needle: seq<T>)
    requires Includes(x, needle)
    ensures Includes(x + y, needle)
    decreases |x|
  {
    if StartsWith(x, needle) {
      assert (x + y)[..|needle|] == x[..|needle|];
    } else {
      assert (x + y)[1..] == x[1..] + y;
      IncludesExtend(x[1..], y, needle);
    }
  }

  /** What occurs in a sequence occurs in every extension of it. */
  lemma IncludesInExtension<T>(x: seq<T>, r: seq<T>, needle: seq<T>)
    requires Includes(x, needle) && x <= r
    ensures Includes(r, needle)
  {
    assert r == x + r[|x|..];
    IncludesExtend(x, r[|x|..], needle);
  }

  /** `needle` occurs in `hay` starting at index `i`. */
  predicate OccursAt<T(==)>(hay: seq<T>, needle: seq<T>, i: nat) {
    i + |needle| <= |hay| && hay[i..i + |needle|] == needle
  }

  /** `includes` finds an occurrence at some index. */
  lemma {:induction false} IncludesOccurs<T>(hay: seq<T>, needle: seq<T>)
    requires Includes(hay, needle)
    ensures exists i: nat :: OccursAt(hay, needle, i)
    decreases |hay|
  {
    if StartsWith(hay, needle) {
      assert OccursAt(hay, needle, 0);
    } else {
      IncludesOccurs(hay[1..], needle);
      var i: nat :| OccursAt(hay[1..], needle, i);
      assert hay[1..][i..i + |needle|] == hay[i + 1..i + 1 + |needle|];
      assert OccursAt(hay, needle, i + 1);
    }
  }

  /** An occurrence begins and ends with the needle's ends. */
  lemma OccursEnds<T>(hay: seq<T>, needle: seq<T>, i: nat)
    requires OccursAt(hay, needle, i) && needle != []
    ensures hay[i] == needle[0] && hay[i + |needle| - 1] == needle[|needle| - 1]
  {
    assert hay[i..i + |needle|][0] == hay[i];
    assert hay[i..i + |needle|][|needle| - 1] == hay[i + |needle| - 1];
  }

  /** An occurrence at any index is found by `includes`. */
  lemma OccursIncludes<T>(hay: seq<T>, needle: seq<T>, i: nat)
    requires OccursAt(hay, needle, i)
    ensures Includes(hay, needle)
  {
    assert hay == hay[..i] + needle + hay[i + |needle|..];
    IncludesMiddle(hay[..i], needle, hay[i + |needle|..]);
  }

  /** A string JavaScript treats as truthy. */
  predicate NonEmpty(w: string) { |w| > 0 }

  /** No element occurs twice. */
  predicate NoDup<T(==)>(s: seq<T>) {
    forall i, j :: 0 <= i < j < |s| ==> s[i] != s[j]
  }

  /** In a sequence without repeats every value occurs at most once. */
  lemma {:induction false} NoDupCount<T>(s: seq<T>)
    requires NoDup(s)
    ensures forall x :: multiset(s)[x] <= 1
    decreases |s|
  {
    if s != [] {
      var tail := s[1..];
      assert s == [s[0]] + tail;
      assert NoDup(tail) by {
        forall i, j | 0 <= i < j < |tail| ensures tail[i] != tail[j] {
          assert s[i + 1] == tail[i] && s[j + 1] == tail[j];
        }
      }
      NoDupCount(tail);
      assert s[0] !in tail by {
        forall k | 0 <= k < |tail| ensures tail[k] != s[0] {
          assert s[k + 1] == tail[k];
        }
      }
    }
  }

  /** A value at two positions occurs at least twice. */
  lemma RepeatCount<T>(s: seq<T>, i: nat, j: nat)
    requires i < j < |s|
    ensures s[i] == s[j] ==> multiset(s)[s[i]] >= 2
  {
    assert s == s[..i] + [s[i]] + s[i + 1..j] + [s[j]] + s[j + 1..];
  }

  /** What is drawn without repeats from a sequence without repeats has
      none either. */
  lemma SubBagNoDup<T>(r: seq<T>, s: seq<T>)
    requires NoDup(s) && multiset(r) <= multiset(s)
    ensures NoDup(r)
  {
    NoDupCount(s);
    forall i, j | 0 <= i < j < |r| ensures r[i] != r[j] {
      RepeatCount(r, i, j);
      assert multiset(r)[r[i]] <= multiset(s)[r[i]];
    }
  }

  function Min(a: int, b: int): int { if a <= b then a else b }
}
