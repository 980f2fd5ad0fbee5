/** Integer parsing and rendering used by the digit keys.

    A digit key's title goes through `NSString.intValue` (a 32-bit signed
    integer: leading white space skipped, an optional sign, the longest run
    of decimal digits, saturating at the 32-bit bounds, 0 when there are no
    digits) and is then rendered with Swift's decimal string interpolation.
 */
module Numerals {

  const Int32Min: int := -0x8000_0000
  const Int32Max: int := 0x7FFF_FFFF

  predicate IsDigit(c: char) {
    '0' <= c <= '9'
  }

  predicate IsWhitespace(c: char) {
    c == ' ' || c == '\t' || c == '\n' || c == '\r'
  }

  predicate AllDigits(s: string) {
    forall i :: 0 <= i < |s| ==> IsDigit(s[i])
  }

  function DigitChar(d: int): (c: char)
    requires 0 <= d < 10
    ensures IsDigit(c) && c as int - '0' as int == d
  {
    ('0' as int + d) as char
  }

  function DigitOf(c: char): (d: nat)
    requires IsDigit(c)
    ensures d < 10 && DigitChar(d) == c
  {
    c as int - '0' as int
  }

  // ---------------------------------------------------------------------------
  // Rendering: "\(n)" for an integer n
  // ---------------------------------------------------------------------------

  /** Decimal digits of a natural number, most significant first, no leading zeros. */
  function NatString(n: nat): (s: string)
    ensures 0 < |s| && AllDigits(s)
    ensures |s| > 1 ==> s[0] != '0'
  {
    if n < 10 then [DigitChar(n)] else NatString(n / 10) + [DigitChar(n % 10)]
  }

  /** Swift's rendering of an integer: a minus sign for negatives, then the digits. */
  function IntString(n: int): (s: string)
    ensures 0 < |s|
    ensures '.' !in s
    ensures n < 0 <==> s[0] == '-'
  {
    if n < 0 then "-" + NatString(-n) else NatString(n)
  }

  // ---------------------------------------------------------------------------
  // Parsing: NSString.intValue
  // ---------------------------------------------------------------------------

  /** The value of a string of decimal digits (most significant first). */
  function DigitsValue(s: string): nat
    requires AllDigits(s)
  {
    if s == [] then 0 else DigitsValue(s[..|s| - 1]) * 10 + DigitOf(s[|s| - 1])
  }

  /** The longest prefix of `t` made of decimal digits. */
  function LeadingDigits(t: string): (p: string)
    ensures |p| <= |t| && p == t[..|p|]
    ensures AllDigits(p)
    ensures |p| < |t| ==> !IsDigit(t[|p|])
  {
    if t == [] || !IsDigit(t[0]) then [] else [t[0]] + LeadingDigits(t[1..])
  }

  /** `t` without its leading white space. */
  function SkipWhitespace(t: string): (r: string)
    ensures |r| <= |t| && r == t[|t| - |r|..]
    ensures forall i :: 0 <= i < |t| - |r| ==> IsWhitespace(t[i])
    ensures r != [] ==> !IsWhitespace(r[0])
  {
    if t != [] && IsWhitespace(t[0]) then SkipWhitespace(t[1..]) else t
  }

  /** Saturation to the 32-bit signed range. */
  function Clamp(v: int): (r: int)
    ensures Int32Min <= r <= Int32Max
    ensures Int32Min <= v <= Int32Max ==> r == v
    ensures v < Int32Min ==> r == Int32Min
    ensures v > Int32Max ==> r == Int32Max
  {
    if v < Int32Min then Int32Min else if v > Int32Max then Int32Max else v
  }

  /** NSString.intValue. */
  function IntValue(title: string): (v: int)
    ensures Int32Min <= v <= Int32Max
  {
    var t := SkipWhitespace(title);
    if t != [] && (t[0] == '-' || t[0] == '+') then
      var magnitude: int := DigitsValue(LeadingDigits(t[1..]));
      Clamp(if t[0] == '-' then -magnitude else magnitude)
    else
      Clamp(DigitsValue(LeadingDigits(t)))
  }

  /** A title that `intValue` reads a number from: after white space and an
      optional sign, it starts with a digit. */
  predicate Numeric(title: string) {
    var t := SkipWhitespace(title);
    if t != [] && (t[0] == '-' || t[0] == '+') then |t| > 1 && IsDigit(t[1])
    else t != [] && IsDigit(t[0])
  }

  /** The text a digit key appends to the display for a title. */
  function KeyDigits(title: string): (s: string)
    ensures 0 < |s| && '.' !in s
  {
    IntString(IntValue(title))
  }

  // ---------------------------------------------------------------------------
  // Lemmas
  // ---------------------------------------------------------------------------

  lemma {:induction false} DigitsValueOfNatString(n: nat)
    ensures DigitsValue(NatString(n)) == n
  {
    if n >= 10 {
      var s := NatString(n);
      assert s[..|s| - 1] == NatString(n / 10);
      DigitsValueOfNatString(n / 10);
    }
  }

  lemma {:induction false} LeadingDigitsOfDigits(s: string)
    requires AllDigits(s)
    ensures LeadingDigits(s) == s
  {
    if s != [] {
      LeadingDigitsOfDigits(s[1..]);
    }
  }

  /** The digits of a natural number read back as that number. */
  lemma ReadNatString(m: nat)
    ensures DigitsValue(LeadingDigits(NatString(m))) == m
  {
    LeadingDigitsOfDigits(NatString(m));
    DigitsValueOfNatString(m);
  }

  /** Parsing Swift's rendering of a 32-bit integer gives the integer back. */
  lemma IntValueOfIntString(n: int)
    requires Int32Min <= n <= Int32Max
    ensures IntValue(IntString(n)) == n
  {
    var s := IntString(n);
    assert !IsWhitespace(s[0]);
    assert SkipWhitespace(s) == s;
    if n < 0 {
      assert s[1..] == NatString(-n);
      ReadNatString(-n);
    } else {
      assert s == NatString(n) && s[0] != '-' && s[0] != '+';
      ReadNatString(n);
    }
  }

  /** Rendering is injective on the integers: two integers with the same text are equal. */
  lemma IntStringInjective(m: int, n: int)
    requires Int32Min <= m <= Int32Max && Int32Min <= n <= Int32Max
    requires IntString(m) == IntString(n)
    ensures m == n
  {
    IntValueOfIntString(m);
    IntValueOfIntString(n);
  }

  /** A single digit key appends exactly its own digit. */
  lemma DigitKeyRendersItself(c: char)
    requires IsDigit(c)
    ensures KeyDigits([c]) == [c]
  {
    var d := DigitOf(c);
    assert IntString(d) == [c];
    IntValueOfIntString(d);
  }

  /** A title that is not numeric is coerced to 0 and appends "0". */
  lemma NonNumericKeyRendersZero(title: string)
    requires !Numeric(title)
    ensures IntValue(title) == 0
    ensures KeyDigits(title) == "0"
  {
    var t := SkipWhitespace(title);
    if t != [] && (t[0] == '-' || t[0] == '+') {
      assert LeadingDigits(t[1..]) == [];
    } else {
      assert LeadingDigits(t) == [];
    }
  }

  /** Without a minus sign in front, a title never yields a negative value. */
  lemma NumericKeyIsNonNegativeWithoutMinus(title: string)
    requires SkipWhitespace(title) == [] || SkipWhitespace(title)[0] != '-'
    ensures IntValue(title) >= 0
    ensures KeyDigits(title)[0] != '-'
  {
  }
}
