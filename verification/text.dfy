/**
 * String helpers shared by the models of the PHP pages and of the
 * JavaScript form module: decimal digits, PHP's string truthiness, `trim`
 * and `strcasecmp`, and the white space JavaScript's `parseInt` skips.
 */
module Text {

  datatype Option<+T> = None | Some(value: T)

  /** The index of the first element satisfying `p`, if any. */
  function FirstIndex<T>(s: seq<T>, p: T -> bool): (r: Option<nat>)
    ensures r.Some? ==> r.value < |s| && p(s[r.value]) && forall k :: 0 <= k < r.value ==> !p(s[k])
    ensures r.None? ==> forall k :: 0 <= k < |s| ==> !p(s[k])
  {
    if |s| == 0 then None
    else if p(s[0]) then Some(0)
    else match FirstIndex(s[1..], p)
      case None => None
      case Some(k) => Some(k + 1)
  }

  // ---------------------------------------------------------------------------
  // Decimal digits (both PHP and JavaScript use the ASCII digits 0-9 here)
  // ---------------------------------------------------------------------------

  predicate IsDigit(c: char) {
    '0' <= c <= '9'
  }

  predicate AllDigits(s: string) {
    forall k :: 0 <= k < |s| ==> IsDigit(s[k])
  }

  function DigitChar(d: nat): (c: char)
    requires d < 10
    ensures IsDigit(c)
  {
    (('0' as int) + d) as char
  }

  function DigitValue(c: char): (d: nat)
    requires IsDigit(c)
    ensures d < 10
  {
    c as int - '0' as int
  }

  /** The decimal numeral of `n`, as a JavaScript template literal or PHP
      string interpolation writes a non-negative integer. */
  function DecimalString(n: nat): (s: string)
    ensures |s| > 0 && AllDigits(s)
    decreases n
  {
    if n < 10 then [DigitChar(n)] else DecimalString(n / 10) + [DigitChar(n % 10)]
  }

  /** The value of a string of decimal digits. */
  function DigitsValue(s: string): nat
    requires AllDigits(s)
  {
    if |s| == 0 then 0 else DigitsValue(s[..|s| - 1]) * 10 + DigitValue(s[|s| - 1])
  }

  /** Reading back a numeral gives the number it was written from. */
  lemma {:induction false} DecimalRoundTrip(n: nat)
    ensures DigitsValue(DecimalString(n)) == n
    decreases n
  {
    if n >= 10 {
      DecimalRoundTrip(n / 10);
      var s := DecimalString(n);
      assert s[..|s| - 1] == DecimalString(n / 10);
    }
  }

  /** The numeral of an integer, with a leading minus sign when negative. */
  function IntString(i: int): (s: string)
    ensures |s| > 0
    ensures i >= 0 ==> s == DecimalString(i)
    ensures i < 0 ==> s[0] == '-' && s[1..] == DecimalString(-i)
  {
    if i < 0 then "-" + DecimalString(-i) else DecimalString(i)
  }

  /** The end of the run of digits that starts at `k`: the first index at or
      after `k` that is not a digit, or `|s|`. */
  function DigitsEnd(s: string, k: nat): (j: nat)
    requires k <= |s|
    ensures k <= j <= |s|
    ensures forall m :: k <= m < j ==> IsDigit(s[m])
    ensures j < |s| ==> !IsDigit(s[j])
    decreases |s| - k
  {
    if k == |s| || !IsDigit(s[k]) then k else DigitsEnd(s, k + 1)
  }

  /** A run of `n` digits at `k` followed by a non-digit (or the end) ends at `k + n`. */
  lemma {:induction false} DigitsEndOfRun(s: string, k: nat, n: nat)
    requires k + n <= |s|
    requires forall m :: k <= m < k + n ==> IsDigit(s[m])
    requires k + n == |s| || !IsDigit(s[k + n])
    ensures DigitsEnd(s, k) == k + n
    decreases n
  {
    if n > 0 {
      DigitsEndOfRun(s, k + 1, n - 1);
    }
  }

  /** Two strings that agree up to and including a non-digit at `m` have the
      same digit runs at every `k <= m`. */
  lemma {:induction false} DigitsEndSamePrefix(s: string, t: string, m: nat, k: nat)
    requires k <= m < |s| && m < |t|
    requires s[..m + 1] == t[..m + 1]
    requires !IsDigit(s[m])
    ensures DigitsEnd(s, k) == DigitsEnd(t, k) <= m
    decreases m - k
  {
    assert s[k] == s[..m + 1][k] == t[..m + 1][k] == t[k];
    if k < m && IsDigit(s[k]) {
      DigitsEndSamePrefix(s, t, m, k + 1);
    }
  }

  // ---------------------------------------------------------------------------
  // PHP string semantics
  // ---------------------------------------------------------------------------

  /** PHP's truthiness of a string: `""` and `"0"` are false, every other string true. */
  predicate Truthy(s: string) {
    s != "" && s != "0"
  }

  /** PHP `empty()` of a string: the negation of its truthiness. */
  predicate Empty(s: string) {
    !Truthy(s)
  }

  /** The characters PHP's `trim` strips by default: space, tab, line feed,
      carriage return, NUL and vertical tab. */
  predicate IsTrimmed(c: char) {
    c == ' ' || c == '\t' || c == '\n' || c == '\r' || c == '\0' || c == '\U{000B}'
  }

  predicate AllTrimmed(s: string) {
    forall k :: 0 <= k < |s| ==> IsTrimmed(s[k])
  }

  function TrimStart(s: string): (r: string)
    ensures |r| <= |s| && r == s[|s| - |r|..]
    ensures AllTrimmed(s[..|s| - |r|])
    ensures |r| > 0 ==> !IsTrimmed(r[0])
  {
    if |s| > 0 && IsTrimmed(s[0]) then TrimStart(s[1..]) else s
  }

  function TrimEnd(s: string): (r: string)
    ensures |r| <= |s| && r == s[..|r|]
    ensures AllTrimmed(s[|r|..])
    ensures |r| > 0 ==> !IsTrimmed(r[|r| - 1])
  {
    if |s| > 0 && IsTrimmed(s[|s| - 1]) then TrimEnd(s[..|s| - 1]) else s
  }

  /** PHP `trim($s)`: `s` with the default trim characters removed from both ends. */
  function Trim(s: string): (r: string)
    ensures |r| > 0 ==> !IsTrimmed(r[0]) && !IsTrimmed(r[|r| - 1])
  {
    TrimEnd(TrimStart(s))
  }

  /** The trimmed string is the infix of `s` left between a prefix and a
      suffix made only of trim characters. */
  lemma TrimIsInfix(s: string)
    ensures exists a, b :: 0 <= a <= b <= |s| && Trim(s) == s[a..b] && AllTrimmed(s[..a]) && AllTrimmed(s[b..])
  {
    var t := TrimStart(s);
    var r := TrimEnd(t);
    var a := |s| - |t|;
    assert r == s[a..a + |r|];
    assert s[a + |r|..] == t[|r|..];
  }

  /** ASCII lower-casing of one byte, as PHP's locale-independent `strcasecmp` does. */
  function LowerAscii(c: char): char {
    if 'A' <= c <= 'Z' then (c as int + 32) as char else c
  }

  function Lower(s: string): (r: string)
    ensures |r| == |s|
    ensures forall k :: 0 <= k < |s| ==> r[k] == LowerAscii(s[k])
  {
    seq(|s|, k requires 0 <= k < |s| => LowerAscii(s[k]))
  }

  /** `strcasecmp(a, b) === 0`: the strings are equal ignoring ASCII case. */
  predicate EqualsIgnoreCase(a: string, b: string) {
    Lower(a) == Lower(b)
  }

  /** Ignoring case is an equivalence that identifies exactly the strings
      of equal length whose letters differ at most in ASCII case. */
  lemma EqualsIgnoreCaseMeans(a: string, b: string)
    ensures EqualsIgnoreCase(a, b) <==>
      |a| == |b| && forall k :: 0 <= k < |a| ==> LowerAscii(a[k]) == LowerAscii(b[k])
    ensures EqualsIgnoreCase(a, b) ==> EqualsIgnoreCase(b, a)
    ensures EqualsIgnoreCase(a, a)
  {
    if |a| == |b| && forall k :: 0 <= k < |a| ==> LowerAscii(a[k]) == LowerAscii(b[k]) {
      assert Lower(a) == Lower(b);
    }
  }

  // ---------------------------------------------------------------------------
  // JavaScript string semantics
  // ---------------------------------------------------------------------------

  /** StrWhiteSpaceChar of ECMAScript: the white space and line terminators
      that `parseInt` skips before the number. */
  predicate IsJsWhiteSpace(c: char) {
    c == '\t' || c == '\U{000B}' || c == '\U{000C}' || c == ' ' || c == '\U{00A0}' || c == '\U{FEFF}'
    || c == '\n' || c == '\r' || c == '\U{2028}' || c == '\U{2029}'
    || c == '\U{1680}' || ('\U{2000}' <= c <= '\U{200A}') || c == '\U{202F}' || c == '\U{205F}' || c == '\U{3000}'
  }

  function TrimJsStart(s: string): (r: string)
    ensures |r| <= |s| && r == s[|s| - |r|..]
    ensures |r| > 0 ==> !IsJsWhiteSpace(r[0])
  {
    if |s| > 0 && IsJsWhiteSpace(s[0]) then TrimJsStart(s[1..]) else s
  }

  /** The number of occurrences of `c` in `s`. */
  function Count(s: string, c: char): nat {
    if |s| == 0 then 0 else Count(s[..|s| - 1], c) + (if s[|s| - 1] == c then 1 else 0)
  }

  lemma {:induction false} CountAppend(s: string, t: string, c: char)
    ensures Count(s + t, c) == Count(s, c) + Count(t, c)
    decreases |t|
  {
    if |t| > 0 {
      assert (s + t)[..|s + t| - 1] == s + t[..|t| - 1];
      CountAppend(s, t[..|t| - 1], c);
    } else {
      assert s + t == s;
    }
  }

  lemma {:induction false} CountZero(s: string, c: char)
    ensures Count(s, c) == 0 <==> c !in s
    decreases |s|
  {
    if |s| > 0 {
      CountZero(s[..|s| - 1], c);
      assert s == s[..|s| - 1] + [s[|s| - 1]];
    }
  }
}
