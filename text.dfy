/**
 * String helpers of Go's standard library that the core relies on, written
 * over `seq<char>`: decimal formatting (`%d`, `strconv.Atoi`), zero-padded
 * fields (the digits of a time layout), `strings.TrimSpace`,
 * `strings.EqualFold` against an ASCII word, first and last index of a
 * character, and `strings.Replace(s, old, new, -1)`.
 */
module Text {

  // ---------------------------------------------------------------------------
  // Decimal digits
  // ---------------------------------------------------------------------------

  predicate IsDigit(c: char) {
    '0' <= c <= '9'
  }

  predicate AllDigits(s: string) {
    forall i :: 0 <= i < |s| ==> IsDigit(s[i])
  }

  function DigitChar(d: nat): (c: char)
    requires d < 10
    ensures IsDigit(c)
  {
    ('0' as int + d) as char
  }

  function DigitValue(c: char): (d: nat)
    requires IsDigit(c)
    ensures d < 10 && DigitChar(d) == c
  {
    c as int - '0' as int
  }

  /** `fmt.Sprintf("%d", n)` for n >= 0: the canonical decimal text. */
  function NatToString(n: nat): (s: string)
    ensures |s| >= 1 && AllDigits(s)
    ensures |s| > 1 ==> s[0] != '0'
    ensures n < 10 <==> |s| == 1
    decreases n
  {
    if n < 10 then [DigitChar(n)] else NatToString(n / 10) + [DigitChar(n % 10)]
  }

  /** The value of a run of decimal digits (leading zeros allowed), as `strconv.Atoi` reads it. */
  function ParseNat(s: string): nat
    requires AllDigits(s)
  {
    if s == [] then 0 else 10 * ParseNat(s[..|s| - 1]) + DigitValue(s[|s| - 1])
  }

  /** Reading back the canonical decimal text gives the number. */
  lemma {:induction false} ParseNatToString(n: nat)
    ensures ParseNat(NatToString(n)) == n
  {
    var s := NatToString(n);
    if n >= 10 {
      assert s[..|s| - 1] == NatToString(n / 10);
      ParseNatToString(n / 10);
    }
  }

  /** Two digits, `01`-style: Go's `01`, `02`, `15`, `04`, `05` layout elements. */
  function Fixed2(n: nat): (s: string)
    requires n < 100
    ensures |s| == 2 && AllDigits(s)
  {
    [DigitChar(n / 10), DigitChar(n % 10)]
  }

  function Digits2(s: string, i: nat): (n: nat)
    requires i + 2 <= |s| && IsDigit(s[i]) && IsDigit(s[i + 1])
    ensures n < 100
  {
    10 * DigitValue(s[i]) + DigitValue(s[i + 1])
  }

  /** Four digits: the `2006` layout element for years 0 through 9999. */
  function Fixed4(n: nat): (s: string)
    requires n < 10000
    ensures |s| == 4 && AllDigits(s)
  {
    [DigitChar(n / 1000), DigitChar(n / 100 % 10), DigitChar(n / 10 % 10), DigitChar(n % 10)]
  }

  function Digits4(s: string, i: nat): (n: nat)
    requires i + 4 <= |s| && IsDigit(s[i]) && IsDigit(s[i + 1]) && IsDigit(s[i + 2]) && IsDigit(s[i + 3])
    ensures n < 10000
  {
    1000 * DigitValue(s[i]) + 100 * DigitValue(s[i + 1]) + 10 * DigitValue(s[i + 2]) + DigitValue(s[i + 3])
  }

  lemma Fixed2RoundTrip(n: nat, s: string, i: nat)
    requires n < 100 && i + 2 <= |s| && s[i..i + 2] == Fixed2(n)
    ensures IsDigit(s[i]) && IsDigit(s[i + 1]) && Digits2(s, i) == n
  {
    assert s[i] == Fixed2(n)[0] && s[i + 1] == Fixed2(n)[1];
  }

  lemma Fixed4RoundTrip(n: nat, s: string, i: nat)
    requires n < 10000 && i + 4 <= |s| && s[i..i + 4] == Fixed4(n)
    ensures IsDigit(s[i]) && IsDigit(s[i + 1]) && IsDigit(s[i + 2]) && IsDigit(s[i + 3])
    ensures Digits4(s, i) == n
  {
    assert s[i] == Fixed4(n)[0] && s[i + 1] == Fixed4(n)[1];
    assert s[i + 2] == Fixed4(n)[2] && s[i + 3] == Fixed4(n)[3];
    FourDigits(n);
  }

  /** A number below 10000 is the sum of its four decimal digits' place values. */
  lemma FourDigits(n: nat)
    requires n < 10000
    ensures 1000 * (n / 1000) + 100 * (n / 100 % 10) + 10 * (n / 10 % 10) + n % 10 == n
  {
    var q1, q2, q3 := n / 10, n / 100, n / 1000;
    assert n == 10 * q1 + n % 10;
    assert q2 == q1 / 10 && q1 == 10 * q2 + q1 % 10;
    assert q3 == q2 / 10 && q2 == 10 * q3 + q2 % 10;
  }

  // ---------------------------------------------------------------------------
  // Whitespace and case
  // ---------------------------------------------------------------------------

  /** Go's `unicode.IsSpace`: the Latin-1 spaces and the Unicode space separators. */
  const UnicodeSpaces: set<char> := {
    ' ', '\t', '\n', '\U{B}', '\U{C}', '\r', '\U{85}', '\U{A0}', '\U{1680}',
    '\U{2000}', '\U{2001}', '\U{2002}', '\U{2003}', '\U{2004}', '\U{2005}',
    '\U{2006}', '\U{2007}', '\U{2008}', '\U{2009}', '\U{200A}',
    '\U{2028}', '\U{2029}', '\U{202F}', '\U{205F}', '\U{3000}'
  }

  predicate IsSpace(c: char) {
    c in UnicodeSpaces
  }

  /** How many white-space characters `s` starts with. */
  function LeadingSpaces(s: string): (n: nat)
    ensures n <= |s|
    ensures forall i :: 0 <= i < n ==> IsSpace(s[i])
    ensures n == |s| || !IsSpace(s[n])
  {
    if s != [] && IsSpace(s[0]) then 1 + LeadingSpaces(s[1..]) else 0
  }

  /** How many white-space characters `s` ends with. */
  function TrailingSpaces(s: string): (n: nat)
    ensures n <= |s|
    ensures forall i :: |s| - n <= i < |s| ==> IsSpace(s[i])
    ensures n == |s| || !IsSpace(s[|s| - n - 1])
  {
    if s != [] && IsSpace(s[|s| - 1]) then 1 + TrailingSpaces(s[..|s| - 1]) else 0
  }

  /** `strings.TrimSpace`: drop leading and trailing white space. */
  function TrimSpace(s: string): string
  {
    var l := s[LeadingSpaces(s)..];
    l[..|l| - TrailingSpaces(l)]
  }

  /**
   * Trimming takes off only white space at the two ends: the result sits in
   * `s` right after the leading white space, everything before and after it
   * is white space, and it neither starts nor ends with any.
   */
  lemma TrimSpaceIsInfix(s: string)
    ensures var k, r := LeadingSpaces(s), TrimSpace(s);
      && k + |r| <= |s| && s[k..k + |r|] == r
      && (forall i :: 0 <= i < k ==> IsSpace(s[i]))
      && (forall i :: k + |r| <= i < |s| ==> IsSpace(s[i]))
      && (r == [] || (!IsSpace(r[0]) && !IsSpace(r[|r| - 1])))
  {
    TrimSpaceSlice(s);
    TrimSpaceTail(s);
    TrimSpaceEdges(s);
  }

  lemma TrimSpaceSlice(s: string)
    ensures var k, r := LeadingSpaces(s), TrimSpace(s);
      k + |r| <= |s| && s[k..k + |r|] == r
  {
    var k := LeadingSpaces(s);
    var l := s[k..];
    var r := TrimSpace(s);
    assert r == l[..|l| - TrailingSpaces(l)];
    assert s[k..k + |r|] == l[..|r|];
  }

  lemma TrimSpaceTail(s: string)
    ensures var k, r := LeadingSpaces(s), TrimSpace(s);
      forall i :: k + |r| <= i < |s| ==> IsSpace(s[i])
  {
    var k := LeadingSpaces(s);
    var l := s[k..];
    var r := TrimSpace(s);
    assert |r| == |l| - TrailingSpaces(l);
    forall i | k + |r| <= i < |s| ensures IsSpace(s[i]) {
      assert s[i] == l[i - k];
    }
  }

  lemma TrimSpaceEdges(s: string)
    ensures var r := TrimSpace(s); r == [] || (!IsSpace(r[0]) && !IsSpace(r[|r| - 1]))
  {
    var l := s[LeadingSpaces(s)..];
    var n := TrailingSpaces(l);
    var r := TrimSpace(s);
    assert r == l[..|l| - n];
    assert r != [] ==> r[0] == l[0] && r[|r| - 1] == l[|l| - n - 1];
  }

  /** A string with no white space at either end is left as it is. */
  lemma TrimSpaceNoEdges(s: string)
    requires s == [] || (!IsSpace(s[0]) && !IsSpace(s[|s| - 1]))
    ensures TrimSpace(s) == s
  {
  }

  function LowerAscii(c: char): char {
    if 'A' <= c <= 'Z' then (c as int + 32) as char else c
  }

  /**
   * `strings.EqualFold(s, w)` for a word `w` of ASCII letters none of which
   * has a non-ASCII case variant (G, M, T, U, C qualify; K and S do not).
   */
  predicate EqualFoldAscii(s: string, w: string) {
    |s| == |w| && forall i :: 0 <= i < |s| ==> LowerAscii(s[i]) == LowerAscii(w[i])
  }

  // ---------------------------------------------------------------------------
  // Searching
  // ---------------------------------------------------------------------------

  /** `strings.IndexByte`: the first index of `c`, or -1. */
  function IndexOf(s: string, c: char): (r: int)
    ensures -1 <= r < |s|
    ensures r == -1 <==> c !in s
    ensures r >= 0 ==> s[r] == c && forall j :: 0 <= j < r ==> s[j] != c
  {
    if s == [] then -1
    else if s[0] == c then 0
    else
      var k := IndexOf(s[1..], c);
      assert c in s[1..] ==> c in s;
      if k == -1 then -1 else k + 1
  }

  /** `strings.LastIndexByte`: the last index of `c`, or -1. */
  function LastIndexOf(s: string, c: char): (r: int)
    ensures -1 <= r < |s|
    ensures r == -1 <==> c !in s
    ensures r >= 0 ==> s[r] == c && forall j :: r < j < |s| ==> s[j] != c
  {
    if s == [] then -1
    else if s[|s| - 1] == c then |s| - 1
    else
      var k := LastIndexOf(s[..|s| - 1], c);
      assert s == s[..|s| - 1] + [s[|s| - 1]];
      k
  }

  /** No occurrence of `c` comes before the first one. */
  lemma BeforeIndexOf(s: string, c: char)
    requires IndexOf(s, c) >= 0
    ensures c !in s[..IndexOf(s, c)]
  {
    var i := IndexOf(s, c);
    forall k | 0 <= k < i
      ensures s[..i][k] != c
    {
      assert s[..i][k] == s[k];
    }
  }

  /** No occurrence of `c` comes after the last one. */
  lemma AfterLastIndexOf(s: string, c: char)
    requires LastIndexOf(s, c) >= 0
    ensures c !in s[LastIndexOf(s, c) + 1..]
  {
    var j := LastIndexOf(s, c);
    var post := s[j + 1..];
    forall k | 0 <= k < |post|
      ensures post[k] != c
    {
      assert post[k] == s[j + 1 + k];
    }
  }

  // ---------------------------------------------------------------------------
  // Replacing
  // ---------------------------------------------------------------------------

  predicate OccursAt(s: string, pat: string, i: nat) {
    i + |pat| <= |s| && s[i..i + |pat|] == pat
  }

  ghost predicate Occurs(s: string, pat: string) {
    exists i: nat :: OccursAt(s, pat, i)
  }

  /**
   * `strings.Replace(s, pat, rep, -1)` for a non-empty `pat`: scanning left to
   * right, every occurrence of `pat` that does not overlap an earlier
   * replaced one is replaced by `rep`.
   */
  function ReplaceAll(s: string, pat: string, rep: string): string
    requires pat != []
    decreases |s|
  {
    if |s| < |pat| then s
    else if s[..|pat|] == pat then rep + ReplaceAll(s[|pat|..], pat, rep)
    else [s[0]] + ReplaceAll(s[1..], pat, rep)
  }

  /** Text in which the pattern does not occur is returned unchanged. */
  lemma {:induction false} ReplaceAllAbsent(s: string, pat: string, rep: string)
    requires pat != [] && !Occurs(s, pat)
    ensures ReplaceAll(s, pat, rep) == s
    decreases |s|
  {
    if |s| >= |pat| {
      assert !OccursAt(s, pat, 0);
      assert s[..|pat|] != pat;
      if Occurs(s[1..], pat) {
        var i: nat :| OccursAt(s[1..], pat, i);
        assert s[1..][i..i + |pat|] == s[i + 1..i + 1 + |pat|];
        assert OccursAt(s, pat, i + 1);
        assert false;
      }
      ReplaceAllAbsent(s[1..], pat, rep);
      assert s == [s[0]] + s[1..];
    }
  }

  /** Dropping the first character keeps a pattern-free stretch pattern-free. */
  lemma NoOccurrenceAfterFirst(s: string, s': string, pat: string, n: nat)
    requires s != [] && s' == s[1..]
    requires forall i: nat :: i < n + 1 ==> !OccursAt(s, pat, i)
    ensures forall i: nat :: i < n ==> !OccursAt(s', pat, i)
  {
    forall i: nat | i < n ensures !OccursAt(s', pat, i) {
      assert !OccursAt(s, pat, i + 1);
      if i + |pat| <= |s'| {
        assert s[i + 1..i + 1 + |pat|] == s'[i..i + |pat|];
      }
    }
  }

  /**
   * Nothing before the first occurrence changes: the prefix `a` is kept, the
   * occurrence right after it becomes `rep`, and the scan resumes after it.
   */
  lemma {:induction false} ReplaceAllFirst(a: string, pat: string, rep: string, b: string)
    requires pat != []
    requires forall i: nat :: i < |a| ==> !OccursAt(a + pat + b, pat, i)
    ensures ReplaceAll(a + pat + b, pat, rep) == a + rep + ReplaceAll(b, pat, rep)
    decreases |a|
  {
    var s := a + pat + b;
    if a == [] {
      assert s == pat + b;
      assert s[..|pat|] == pat && s[|pat|..] == b;
    } else {
      var a' := a[1..];
      var s' := a' + pat + b;
      assert s[1..] == s' by { assert a == [a[0]] + a'; }
      assert !OccursAt(s, pat, 0);
      assert s[..|pat|] != pat;
      NoOccurrenceAfterFirst(s, s', pat, |a'|);
      ReplaceAllFirst(a', pat, rep, b);
      calc {
        ReplaceAll(s, pat, rep);
        [s[0]] + ReplaceAll(s', pat, rep);
        [a[0]] + (a' + rep + ReplaceAll(b, pat, rep));
        { assert a == [a[0]] + a'; }
        a + rep + ReplaceAll(b, pat, rep);
      }
    }
  }

  /** A text that starts with the pattern and holds no other occurrence has only that one replaced. */
  lemma ReplaceAllLeading(pat: string, rep: string, rest: string)
    requires pat != [] && !Occurs(rest, pat)
    ensures ReplaceAll(pat + rest, pat, rep) == rep + rest
  {
    ReplaceAllFirst([], pat, rep, rest);
    ReplaceAllAbsent(rest, pat, rep);
    assert [] + pat + rest == pat + rest;
  }

  /**
   * A pattern whose last character appears nowhere else in it, nor in `a`,
   * cannot start inside `a`: every occurrence ends on that character.
   */
  lemma NoEarlierOccurrence(a: string, pat: string, b: string)
    requires pat != [] && pat[|pat| - 1] !in a && pat[|pat| - 1] !in pat[..|pat| - 1]
    ensures forall i: nat :: i < |a| ==> !OccursAt(a + pat + b, pat, i)
  {
  }
}
