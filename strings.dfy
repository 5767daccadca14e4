/**
 * The JavaScript string built-ins the planner uses: `trim`, `toLowerCase`,
 * `String(n)` on integers and `padStart`.
 */
module Strings {

  /** ECMAScript WhiteSpace and LineTerminator code points, which `trim` strips. */
  predicate IsWhitespace(c: char) {
    || c == '\t' || c == '\n' || c == '\U{000B}' || c == '\U{000C}' || c == '\r' || c == ' '
    || c == '\U{00A0}' || c == '\U{1680}' || ('\U{2000}' <= c <= '\U{200A}')
    || c == '\U{2028}' || c == '\U{2029}' || c == '\U{202F}' || c == '\U{205F}'
    || c == '\U{3000}' || c == '\U{FEFF}'
  }

  predicate AllWhitespace(s: string) {
    forall i :: 0 <= i < |s| ==> IsWhitespace(s[i])
  }

  /** Position of the first non-whitespace code point at or after `i` (or `|s|`). */
  function SkipLeading(s: string, i: nat): (r: nat)
    requires i <= |s|
    ensures i <= r <= |s|
    ensures forall k :: i <= k < r ==> IsWhitespace(s[k])
    ensures r < |s| ==> !IsWhitespace(s[r])
    decreases |s| - i
  {
    if i < |s| && IsWhitespace(s[i]) then SkipLeading(s, i + 1) else i
  }

  /** End of `s[lo..j]` once its trailing whitespace is dropped. */
  function SkipTrailing(s: string, lo: nat, j: nat): (r: nat)
    requires lo <= j <= |s|
    ensures lo <= r <= j
    ensures forall k :: r <= k < j ==> IsWhitespace(s[k])
    ensures r > lo ==> !IsWhitespace(s[r - 1])
  {
    if j > lo && IsWhitespace(s[j - 1]) then SkipTrailing(s, lo, j - 1) else j
  }

  /** Number of leading whitespace code points of `s`. */
  function LeadingWhitespace(s: string): (n: nat)
    ensures n <= |s|
  {
    SkipLeading(s, 0)
  }

  /**
   * `s.trim()`: the slice of `s` that starts after its leading whitespace and
   * ends before its trailing whitespace.
   */
  function Trim(s: string): (r: string)
    ensures var i := LeadingWhitespace(s);
      && i + |r| <= |s| && r == s[i..i + |r|]
      && (forall k :: 0 <= k < i ==> IsWhitespace(s[k]))
      && (forall k :: i + |r| <= k < |s| ==> IsWhitespace(s[k]))
    ensures r == [] || (!IsWhitespace(r[0]) && !IsWhitespace(r[|r| - 1]))
  {
    var i := SkipLeading(s, 0);
    var j := SkipTrailing(s, i, |s|);
    assert j > i ==> !IsWhitespace(s[i]);
    s[i..j]
  }

  /** A non-empty string with no whitespace at either end: what a successful `trim` leaves. */
  predicate IsTrimmed(s: string) {
    s != [] && !IsWhitespace(s[0]) && !IsWhitespace(s[|s| - 1])
  }

  /** `trim` leaves a trimmed string as it is. */
  lemma TrimmedFixed(s: string)
    requires IsTrimmed(s)
    ensures Trim(s) == s
  {
    assert SkipLeading(s, 0) == 0;
    assert SkipTrailing(s, 0, |s|) == |s|;
  }

  /** Trimming an already trimmed string changes nothing. */
  lemma TrimIdempotent(s: string)
    ensures Trim(Trim(s)) == Trim(s)
  {
    var r := Trim(s);
    if r != [] {
      TrimmedFixed(r);
    }
  }

  /** The trimmed text is empty exactly when the input is all whitespace. */
  lemma TrimEmptyIff(s: string)
    ensures Trim(s) == [] <==> AllWhitespace(s)
  {
    var i := LeadingWhitespace(s);
    if Trim(s) != [] {
      assert !IsWhitespace(s[i]);
    }
  }

  /** `toLowerCase` on one code point: ASCII and Latin-1 capitals. */
  function LowerChar(c: char): (r: char)
    ensures ('A' <= c <= 'Z') ==> r as int == c as int + 32
    ensures ('À' <= c <= 'Þ' && c != '×') ==> r as int == c as int + 32
    ensures !('A' <= c <= 'Z') && !('À' <= c <= 'Þ' && c != '×') ==> r == c
  {
    if 'A' <= c <= 'Z' || ('À' <= c <= 'Þ' && c != '×') then
      (c as int + 32) as char
    else
      c
  }

  /** `s.toLowerCase()`. */
  function Lower(s: string): (r: string)
    ensures |r| == |s|
    ensures forall i :: 0 <= i < |s| ==> r[i] == LowerChar(s[i])
  {
    seq(|s|, i requires 0 <= i < |s| => LowerChar(s[i]))
  }

  predicate IsDigit(c: char) {
    '0' <= c <= '9'
  }

  function DigitChar(d: int): (c: char)
    requires 0 <= d < 10
    ensures IsDigit(c) && c as int - '0' as int == d
  {
    ('0' as int + d) as char
  }

  /** `String(n)` for a non-negative integer: decimal digits, no leading zero. */
  function StringOfNat(n: nat): (r: string)
    ensures |r| >= 1
    ensures forall i :: 0 <= i < |r| ==> IsDigit(r[i])
    ensures |r| > 1 ==> r[0] != '0'
    decreases n
  {
    if n < 10 then [DigitChar(n)] else StringOfNat(n / 10) + [DigitChar(n % 10)]
  }

  /** `String(n)` for any integer. */
  function StringOfInt(n: int): (r: string)
    ensures n >= 0 ==> r == StringOfNat(n)
    ensures n < 0 ==> r == "-" + StringOfNat(-n)
  {
    if n < 0 then "-" + StringOfNat(-n) else StringOfNat(n)
  }

  /** The value that a string of decimal digits denotes. */
  function DigitsValue(s: string): nat
    requires forall i :: 0 <= i < |s| ==> IsDigit(s[i])
    decreases |s|
  {
    if s == [] then 0
    else
      var last := s[|s| - 1];
      assert IsDigit(last);
      DigitsValue(s[..|s| - 1]) * 10 + (last as int - '0' as int)
  }

  /** Reading back the decimal digits of `n` yields `n`. */
  lemma {:induction false} StringOfNatRoundTrip(n: nat)
    ensures DigitsValue(StringOfNat(n)) == n
    decreases n
  {
    if n >= 10 {
      StringOfNatRoundTrip(n / 10);
      var r := StringOfNat(n);
      assert r[..|r| - 1] == StringOfNat(n / 10);
    }
  }

  /** Numbers below 100 have at most two decimal digits. */
  lemma StringOfNatShort(n: nat)
    requires n < 100
    ensures n < 10 ==> |StringOfNat(n)| == 1
    ensures 10 <= n ==> |StringOfNat(n)| == 2
  {
  }

  function Repeat(c: char, n: nat): (r: string)
    ensures |r| == n && forall i :: 0 <= i < n ==> r[i] == c
  {
    seq(n, _ => c)
  }

  /** `s.padStart(width, c)` with a one-character pad string. */
  function PadStart(s: string, width: nat, c: char): (r: string)
    ensures |s| >= width ==> r == s
    ensures |s| < width ==> |r| == width
    ensures exists k :: 0 <= k <= |r| && r == Repeat(c, k) + s
  {
    if |s| >= width then
      assert s == Repeat(c, 0) + s;
      s
    else
      Repeat(c, width - |s|) + s
  }

  /** A leading zero does not change the value of a digit string. */
  lemma {:induction false} LeadingZero(s: string)
    requires forall i :: 0 <= i < |s| ==> IsDigit(s[i])
    ensures DigitsValue("0" + s) == DigitsValue(s)
    decreases |s|
  {
    if s != [] {
      var s' := s[..|s| - 1];
      LeadingZero(s');
      assert ("0" + s)[..|s|] == "0" + s';
    }
  }

  /** `String(n).padStart(2, '0')`. */
  function TwoDigits(n: nat): string {
    PadStart(StringOfNat(n), 2, '0')
  }

  /** For 0..99 the padded form has exactly two digits and denotes `n`. */
  lemma TwoDigitsCorrect(n: nat)
    requires n < 100
    ensures |TwoDigits(n)| == 2
    ensures IsDigit(TwoDigits(n)[0]) && IsDigit(TwoDigits(n)[1])
    ensures forall i :: 0 <= i < 2 ==> IsDigit(TwoDigits(n)[i])
    ensures DigitsValue(TwoDigits(n)) == n
  {
    StringOfNatShort(n);
    StringOfNatRoundTrip(n);
    var d := StringOfNat(n);
    if n < 10 {
      assert TwoDigits(n) == "0" + d;
      LeadingZero(d);
    } else {
      assert TwoDigits(n) == d;
    }
  }
}
