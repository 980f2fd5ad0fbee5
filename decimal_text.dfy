/** The text of the display as a decimal numeral: counting decimal points,
    splitting at them (`componentsSeparatedByString(".")`) and the formatting
    applied to a computed result before it is shown.
 */
module DecimalText {

  /** How many characters of the result's fraction survive formatting. */
  const FractionDigits: nat := 5

  function DotCount(s: string): (n: nat)
    ensures n <= |s|
    ensures n == 0 <==> '.' !in s
  {
    if s == [] then 0
    else
      assert '.' in s <==> s[0] == '.' || '.' in s[1..] by {
        assert s == [s[0]] + s[1..];
      }
      (if s[0] == '.' then 1 else 0) + DotCount(s[1..])
  }

  predicate HasSuffix(s: string, suffix: string) {
    |suffix| <= |s| && s[|s| - |suffix|..] == suffix
  }

  /** Index of the first '.' in `s`, or `|s|` when there is none. */
  function FirstDot(s: string): (k: nat)
    ensures k <= |s|
    ensures '.' !in s[..k]
    ensures k < |s| ==> s[k] == '.'
  {
    if s == [] || s[0] == '.' then 0
    else
      var k := 1 + FirstDot(s[1..]);
      assert s[..k] == [s[0]] + s[1..][..k - 1];
      k
  }

  /** `componentsSeparatedByString(".")`: the pieces of `s` between its dots. */
  function Components(s: string): (parts: seq<string>)
    ensures |parts| >= 1
    ensures forall i :: 0 <= i < |parts| ==> '.' !in parts[i]
    decreases |s|
  {
    var k := FirstDot(s);
    if k == |s| then [s] else [s[..k]] + Components(s[k + 1..])
  }

  /** The inverse of `Components`: the pieces joined with dots. */
  function JoinWithDots(parts: seq<string>): string
    requires |parts| >= 1
  {
    if |parts| == 1 then parts[0] else parts[0] + "." + JoinWithDots(parts[1..])
  }

  /** The first `n` characters of `s`, or all of `s` when it is shorter. */
  function TakeAtMost(s: string, n: nat): (r: string)
    ensures |r| == if |s| <= n then |s| else n
    ensures r == s[..|r|]
  {
    if |s| > n then s[..n] else s
  }

  /** The text the formatting works on: a rendering ending in ".0" is replaced
      by the rendering of the truncated integer. */
  function Chosen(rendered: string, integerRendering: string): (text: string)
    ensures HasSuffix(rendered, ".0") ==> text == integerRendering
    ensures !HasSuffix(rendered, ".0") ==> text == rendered
  {
    if HasSuffix(rendered, ".0") then integerRendering else rendered
  }

  /** The split at the dots that ends the formatting: text with a dot keeps
      what precedes its first dot, a dot, and at most `FractionDigits`
      characters of the next component (truncation, not rounding); text
      without a dot is kept as it is. */
  function TrimFraction(text: string): (output: string)
    ensures DotCount(output) <= 1
  {
    var parts := Components(text);
    if |parts| >= 2 then
      var fraction := TakeAtMost(parts[1], FractionDigits);
      assert '.' !in fraction by {
        assert fraction == parts[1][..|fraction|];
      }
      DotCountAppend(parts[0], ".");
      DotCountAppend(parts[0] + ".", fraction);
      parts[0] + "." + fraction
    else
      ComponentsCount(text);
      text
  }

  /** The formatting tail of a computation: drop a ".0" suffix in favour of the
      integer rendering, then trim the fraction. */
  function FormatResult(rendered: string, integerRendering: string): (output: string)
    ensures DotCount(output) <= 1
  {
    TrimFraction(Chosen(rendered, integerRendering))
  }

  // ---------------------------------------------------------------------------
  // Lemmas
  // ---------------------------------------------------------------------------

  lemma {:induction false} DotCountAppend(a: string, b: string)
    ensures DotCount(a + b) == DotCount(a) + DotCount(b)
  {
    if a == [] {
      assert a + b == b;
    } else {
      assert (a + b)[1..] == a[1..] + b;
      DotCountAppend(a[1..], b);
    }
  }

  lemma FirstDotOfJoin(a: string, b: string)
    requires '.' !in a
    ensures FirstDot(a + "." + b) == |a|
    ensures (a + "." + b)[..|a|] == a && (a + "." + b)[|a| + 1..] == b
  {
    var s := a + "." + b;
    assert s[..|a|] == a;
    assert s[|a|] == '.';
  }

  /** Splitting at the first dot of `a + "." + b` when `a` has none. */
  lemma ComponentsOfJoinStep(a: string, b: string)
    requires '.' !in a
    ensures Components(a + "." + b) == [a] + Components(b)
  {
    FirstDotOfJoin(a, b);
  }

  /** Cutting out the dot at `k` and putting it back gives `s`. Kept as a
      lemma so that the sequence equality is proved in a small context. */
  lemma SplitAtDot(s: string, k: nat)
    requires k < |s| && s[k] == '.'
    ensures s[..k] + "." + s[k + 1..] == s
  {
  }

  /** There is one more component than there are dots. */
  lemma {:induction false} ComponentsCount(s: string)
    ensures |Components(s)| == DotCount(s) + 1
    decreases |s|
  {
    var k := FirstDot(s);
    if k == |s| {
      assert s[..k] == s;
    } else {
      assert s == s[..k] + "." + s[k + 1..];
      DotCountAppend(s[..k] + ".", s[k + 1..]);
      DotCountAppend(s[..k], ".");
      ComponentsCount(s[k + 1..]);
    }
  }

  /** Joining the components with dots gives the string back. */
  lemma {:induction false} JoinComponents(s: string)
    ensures JoinWithDots(Components(s)) == s
    decreases |s|
  {
    var k := FirstDot(s);
    if k == |s| {
      assert s[..k] == s;
    } else {
      var rest := s[k + 1..];
      var tail := Components(rest);
      assert Components(s) == [s[..k]] + tail;
      assert JoinWithDots([s[..k]] + tail) == s[..k] + "." + JoinWithDots(tail) by {
        assert ([s[..k]] + tail)[1..] == tail;
      }
      JoinComponents(rest);
      SplitAtDot(s, k);
    }
  }

  /** Splitting dot-free pieces joined with dots gives the pieces back. */
  lemma {:induction false} ComponentsOfJoin(parts: seq<string>)
    requires |parts| >= 1
    requires forall i :: 0 <= i < |parts| ==> '.' !in parts[i]
    ensures Components(JoinWithDots(parts)) == parts
  {
    if |parts| == 1 {
      assert FirstDot(parts[0]) == |parts[0]|;
    } else {
      ComponentsOfJoinStep(parts[0], JoinWithDots(parts[1..]));
      ComponentsOfJoin(parts[1..]);
    }
  }

  /** Text without a dot is shown as it is. */
  lemma FormatKeepsDotless(rendered: string, integerRendering: string)
    requires '.' !in Chosen(rendered, integerRendering)
    ensures FormatResult(rendered, integerRendering) == Chosen(rendered, integerRendering)
  {
    ComponentsCount(Chosen(rendered, integerRendering));
  }

  /** A rendering ending in ".0" is shown as the integer rendering alone. */
  lemma FormatDropsPointZero(rendered: string, integerRendering: string)
    requires HasSuffix(rendered, ".0")
    requires '.' !in integerRendering
    ensures FormatResult(rendered, integerRendering) == integerRendering
  {
    FormatKeepsDotless(rendered, integerRendering);
  }

  /** `shown` is what truncation, never rounding, keeps of the text `after` a
      dot: a dot-free prefix of at most `FractionDigits` characters, cut short
      only by the next dot or the end of the text. */
  predicate TruncatedFraction(shown: string, after: string) {
    && |shown| <= FractionDigits && |shown| <= |after|
    && shown == after[..|shown|]
    && '.' !in shown
    && (|shown| < FractionDigits ==> |shown| == |after| || after[|shown|] == '.')
  }

  /** Text with a dot is shown as: everything before its first dot, a dot, and
      the longest dot-free run after it, cut to at most `FractionDigits`
      characters. The fraction shown is a prefix of the original one, so it is
      truncated, never rounded. */
  lemma FormatTruncatesFraction(rendered: string, integerRendering: string)
    requires '.' in Chosen(rendered, integerRendering)
    ensures var text := Chosen(rendered, integerRendering);
            var k := FirstDot(text);
            var after := text[k + 1..];
            var shown := TakeAtMost(after[..FirstDot(after)], FractionDigits);
            && k < |text|
            && FormatResult(rendered, integerRendering) == text[..k] + "." + shown
            && TruncatedFraction(shown, after)
  {
    var text := Chosen(rendered, integerRendering);
    var after := text[FirstDot(text) + 1..];
    FirstDotFound(text);
    FormatOfDotted(text);
    FractionOf(after, TakeAtMost(after[..FirstDot(after)], FractionDigits));
  }

  /** The dot-free start of `after` cut to `FractionDigits` characters is a
      dot-free prefix of `after`, cut short only by a dot or the end. */
  lemma FractionOf(after: string, fraction: string)
    requires fraction == TakeAtMost(after[..FirstDot(after)], FractionDigits)
    ensures TruncatedFraction(fraction, after)
  {
    var m := FirstDot(after);
    PrefixOfPrefix(after, m, |fraction|);
    DotlessPrefix(after[..m], |fraction|);
  }

  /** Kept as a lemma so that the step is proved outside the context of
      `FractionOf`. */
  lemma PrefixOfPrefix(s: string, m: nat, n: nat)
    requires n <= m <= |s|
    ensures s[..m][..n] == s[..n]
  {
  }

  lemma DotlessPrefix(s: string, n: nat)
    requires '.' !in s && n <= |s|
    ensures '.' !in s[..n]
  {
    assert forall i :: 0 <= i < n ==> s[..n][i] == s[i];
  }

  /** What the trimming makes of text whose first dot lies before its end. */
  lemma FormatOfDotted(text: string)
    requires FirstDot(text) < |text|
    ensures var k := FirstDot(text);
            var after := text[k + 1..];
            TrimFraction(text) == text[..k] + "." + TakeAtMost(after[..FirstDot(after)], FractionDigits)
  {
    ComponentsOfDotted(text, FirstDot(text));
    ComponentsHead(text[FirstDot(text) + 1..]);
  }

  /** Splitting at a first dot that lies before the end. */
  lemma ComponentsOfDotted(s: string, k: nat)
    requires k == FirstDot(s) && k < |s|
    ensures Components(s) == [s[..k]] + Components(s[k + 1..])
  {
    SplitAtDot(s, k);
    ComponentsOfJoinStep(s[..k], s[k + 1..]);
  }

  /** A string holding a dot has its first dot before its end. */
  lemma {:induction false} FirstDotFound(s: string)
    requires '.' in s
    ensures FirstDot(s) < |s|
  {
    if s[0] != '.' {
      assert '.' in s[1..] by {
        assert s == [s[0]] + s[1..];
      }
      FirstDotFound(s[1..]);
    }
  }

  lemma ComponentsHead(s: string)
    ensures Components(s)[0] == s[..FirstDot(s)]
  {
    if FirstDot(s) == |s| {
      assert s[..|s|] == s;
    }
  }

  /** A rendering with exactly one dot and no ".0" ending keeps its integer
      part and at most `FractionDigits` characters of its fraction. */
  lemma FormatOneDot(whole: string, fraction: string, integerRendering: string)
    requires '.' !in whole && '.' !in fraction
    requires !HasSuffix(whole + "." + fraction, ".0")
    ensures FormatResult(whole + "." + fraction, integerRendering)
         == whole + "." + TakeAtMost(fraction, FractionDigits)
  {
    assert whole + "." + fraction == JoinWithDots([whole, fraction]);
    ComponentsOfJoin([whole, fraction]);
  }

  /** The pieces of Swift's rendering of one third. */
  lemma OneThirdPieces(digits: string)
    requires digits == "3333333333333333"
    ensures "0" + "." + digits == "0.3333333333333333"
    ensures !HasSuffix("0" + "." + digits, ".0")
    ensures '.' !in digits
    ensures "0" + "." + TakeAtMost(digits, FractionDigits) == "0.33333"
  {
    var text := "0" + "." + digits;
    assert text[|text| - 1] == '3';
    assert TakeAtMost(digits, FractionDigits) == "33333";
  }

  /** Worked example: one third keeps five fraction digits, truncated. */
  lemma FormatOneThird()
    ensures FormatResult("0.3333333333333333", "0") == "0.33333"
  {
    var digits := "3333333333333333";
    OneThirdPieces(digits);
    FormatOneDot("0", digits, "0");
  }

  /** Worked example: an exact integer loses its ".0". */
  lemma FormatExactInteger()
    ensures FormatResult("4.0", "4") == "4"
  {
    FormatDropsPointZero("4.0", "4");
  }

  /** Worked example: the rendering of a division by zero has no dot and is
      shown unchanged. */
  lemma FormatInfinity()
    ensures FormatResult("inf", "0") == "inf"
  {
    FormatKeepsDotless("inf", "0");
  }
}
