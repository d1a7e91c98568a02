/** The JavaScript string primitives the source uses: the `\s` class and
    `trim`, `toLowerCase` and the decimal rendering of integers that
    template literals and `String(n)` perform. */
module JsText {

  /** ECMAScript WhiteSpace and LineTerminator: the class `\s` matches and
      the set `String.prototype.trim` removes. */
  predicate IsSpace(c: char) {
    c == '\t' || c == '\n' || c == '\U{000B}' || c == '\U{000C}' || c == '\r' || c == ' '
    || c == '\U{00A0}' || c == '\U{1680}' || ('\U{2000}' <= c <= '\U{200A}')
    || c == '\U{2028}' || c == '\U{2029}' || c == '\U{202F}' || c == '\U{205F}'
    || c == '\U{3000}' || c == '\U{FEFF}'
  }

  /** `toLowerCase` on one character, for the characters that lower-case to
      ASCII letters (A-Z and the Kelvin sign); every other character is kept. */
  function Lower(c: char): (l: char)
    ensures IsSpace(l) <==> IsSpace(c)
  {
    if 'A' <= c <= 'Z' then (c as int + 32) as char
    else if c == '\U{212A}' then 'k'
    else c
  }

  function LowerAll(s: string): (r: string)
    ensures |r| == |s| && forall i :: 0 <= i < |s| ==> r[i] == Lower(s[i])
  {
    seq(|s|, i requires 0 <= i < |s| => Lower(s[i]))
  }

  /** `s.replace(/^\s+/, '')`, the first half of `trim`. */
  function DropLeadingSpace(s: string): (r: string)
    ensures |r| <= |s| && r == s[|s| - |r|..]
    ensures r == [] || !IsSpace(r[0])
    ensures s != [] && IsSpace(s[0]) ==> |r| < |s|
    decreases |s|
  {
    if s != [] && IsSpace(s[0]) then DropLeadingSpace(s[1..]) else s
  }

  /** The second half of `trim`. */
  function DropTrailingSpace(s: string): (r: string)
    ensures |r| <= |s| && r == s[..|r|]
    ensures r == [] || !IsSpace(r[|r| - 1])
    decreases |s|
  {
    if s != [] && IsSpace(s[|s| - 1]) then DropTrailingSpace(s[..|s| - 1]) else s
  }

  /** `String.prototype.trim`. */
  function Trim(s: string): (r: string)
    ensures |r| <= |s|
    ensures forall i :: 0 <= i < |r| ==> r[i] in s
    ensures r == [] || (!IsSpace(r[0]) && !IsSpace(r[|r| - 1]))
  {
    var d := DropLeadingSpace(s);
    var r := DropTrailingSpace(d);
    var k := |s| - |d|;
    assert r == s[k..k + |r|];
    SliceMembers(s, k, k + |r|);
    r
  }

  lemma SliceMembers(s: string, i: nat, j: nat)
    requires i <= j <= |s|
    ensures forall c :: c in s[i..j] ==> c in s
  {
    assert s == s[..i] + s[i..j] + s[j..];
  }

  /** `String.prototype.length`: UTF-16 code units, two for a character
      outside the Basic Multilingual Plane. */
  function Utf16Length(s: string): (n: nat)
    ensures n >= |s|
  {
    if s == [] then 0
    else Utf16Length(s[..|s| - 1]) + (if s[|s| - 1] as int > 0xFFFF then 2 else 1)
  }

  /** Text within the Basic Multilingual Plane (all Hangul syllables, for
      one) has one code unit per character. */
  lemma {:induction false} Utf16LengthBmp(s: string)
    requires forall i :: 0 <= i < |s| ==> s[i] as int <= 0xFFFF
    ensures Utf16Length(s) == |s|
  {
    if s != [] {
      Utf16LengthBmp(s[..|s| - 1]);
    }
  }

  lemma {:induction false} Utf16LengthConcat(a: string, b: string)
    ensures Utf16Length(a + b) == Utf16Length(a) + Utf16Length(b)
    decreases |b|
  {
    if b != [] {
      assert (a + b)[..|a + b| - 1] == a + b[..|b| - 1];
      Utf16LengthConcat(a, b[..|b| - 1]);
    } else {
      assert a + b == a;
    }
  }

  /** What `DropLeadingSpace` removes is whitespace. */
  lemma {:induction false} LeadingDropped(s: string)
    ensures forall i :: 0 <= i < |s| - |DropLeadingSpace(s)| ==> IsSpace(s[i])
    decreases |s|
  {
    if s != [] && IsSpace(s[0]) {
      LeadingDropped(s[1..]);
      forall i | 0 < i < |s| - |DropLeadingSpace(s)| ensures IsSpace(s[i]) {
        assert s[i] == s[1..][i - 1];
      }
    }
  }

  /** What `DropTrailingSpace` removes is whitespace. */
  lemma {:induction false} TrailingDropped(s: string)
    ensures forall i :: |DropTrailingSpace(s)| <= i < |s| ==> IsSpace(s[i])
    decreases |s|
  {
    if s != [] && IsSpace(s[|s| - 1]) {
      TrailingDropped(s[..|s| - 1]);
    }
  }

  predicate AllSpace(x: string) {
    forall i :: 0 <= i < |x| ==> IsSpace(x[i])
  }

  /** `r` is the piece of `s` at offset `k`, with only whitespace before
      and after it. */
  predicate PieceBetweenSpace(s: string, k: nat, r: string) {
    k + |r| <= |s| && s[k..k + |r|] == r && AllSpace(s[..k]) && AllSpace(s[k + |r|..])
  }

  /** `trim` returns a contiguous piece of its input and everything it cuts
      off on either side is whitespace; with the contract of `Trim` (no
      whitespace at either end of the result) this determines the result. */
  lemma TrimSpec(s: string)
    ensures exists k: nat :: PieceBetweenSpace(s, k, Trim(s))
  {
    var d := DropLeadingSpace(s);
    var r := Trim(s);
    var k := |s| - |d|;
    LeadingDropped(s);
    TrailingDropped(d);
    assert AllSpace(s[..k]);
    var t := s[k + |r|..];
    assert AllSpace(t) by {
      forall i | 0 <= i < |t| ensures IsSpace(t[i]) {
        assert t[i] == d[|r| + i];
      }
    }
    assert PieceBetweenSpace(s, k, r);
  }

  /** A string without surrounding whitespace trims to itself. */
  lemma TrimOfTrimmed(s: string)
    requires s == [] || (!IsSpace(s[0]) && !IsSpace(s[|s| - 1]))
    ensures Trim(s) == s
  {
  }

  lemma TrimIdempotent(s: string)
    ensures Trim(Trim(s)) == Trim(s)
  {
    TrimOfTrimmed(Trim(s));
  }

  /** Trimming never lengthens a string. */
  lemma Utf16LengthTrim(s: string)
    ensures Utf16Length(Trim(s)) <= Utf16Length(s)
  {
    var d := DropLeadingSpace(s);
    var r := DropTrailingSpace(d);
    var k := |s| - |d|;
    assert Trim(s) == r;
    SplitLength(s, k);
    SplitLength(d, |r|);
  }

  /** The length of a text is the length of a prefix plus that of the rest. */
  lemma SplitLength(s: string, k: nat)
    requires k <= |s|
    ensures Utf16Length(s[..k]) <= Utf16Length(s) && Utf16Length(s[k..]) <= Utf16Length(s)
  {
    assert s == s[..k] + s[k..];
    Utf16LengthConcat(s[..k], s[k..]);
  }

  function DigitChar(d: nat): char
    requires d < 10
  {
    ('0' as int + d) as char
  }

  /** The decimal rendering of a natural number, as `${n}` gives it. */
  function Digits(n: nat): (r: string)
    ensures |r| >= 1
    ensures n < 10 ==> r == [DigitChar(n)]
    ensures forall i :: 0 <= i < |r| ==> '0' <= r[i] <= '9'
  {
    if n < 10 then [DigitChar(n)] else Digits(n / 10) + [DigitChar(n % 10)]
  }

  /** One digit exactly for the numbers below ten. */
  lemma OneDigit(n: nat)
    ensures |Digits(n)| == 1 <==> n < 10
  {
    if n >= 10 {
      assert |Digits(n)| == |Digits(n / 10)| + 1;
    }
  }

  /** Different numbers are written differently. */
  lemma {:induction false} DigitsInjective(m: nat, n: nat)
    requires Digits(m) == Digits(n)
    ensures m == n
    decreases m
  {
    OneDigit(m);
    OneDigit(n);
    if m >= 10 && n >= 10 {
      var d := Digits(m);
      assert d == Digits(m / 10) + [DigitChar(m % 10)];
      assert d == Digits(n / 10) + [DigitChar(n % 10)];
      assert Digits(m / 10) == d[..|d| - 1] == Digits(n / 10);
      DigitsInjective(m / 10, n / 10);
      assert DigitChar(m % 10) == d[|d| - 1] == DigitChar(n % 10);
    }
  }

  /** `String(n)` for an integer. */
  function IntToString(n: int): (r: string)
    ensures |r| >= 1
    ensures n < 0 ==> r[0] == '-'
    ensures n >= 0 ==> '0' <= r[0] <= '9'
  {
    if n < 0 then "-" + Digits(-n) else Digits(n)
  }

  /** Different integers are written differently. */
  lemma IntToStringInjective(m: int, n: int)
    requires IntToString(m) == IntToString(n)
    ensures m == n
  {
    if m < 0 && n < 0 {
      assert IntToString(m)[1..] == Digits(-m);
      assert IntToString(n)[1..] == Digits(-n);
      DigitsInjective(-m, -n);
    } else if m >= 0 && n >= 0 {
      DigitsInjective(m, n);
    }
  }
}
