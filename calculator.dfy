/** The calculator's accumulator as a value: its five pieces of state, the
    effect of each key on them, and what follows from those effects.

    The floating-point side is abstract. `Numerics` carries the operations the
    keyboard uses on `Double` — `NSString.doubleValue`, the string rendering of
    a result, `Int(result)`, the four arithmetic operators and the constant
    0.0 — as functions over an unspecified number type `D`. Everything proved
    here holds whatever those functions are.
 */
module Calculator {
  import opened Numerals
  import opened DecimalText

  /** The operation a later compute applies (`operationPress`). */
  datatype Operation = Addition | Multiplication | Subtraction | Division | None

  /** A button title that may be missing. */
  datatype Option<T> = Absent | Some(value: T)

  datatype Numerics<!D> = Numerics(
    zero: D,                   // 0.0
    doubleValue: string -> D,  // NSString.doubleValue
    describe: D -> string,     // "\(result)"
    truncate: D -> int,        // Int(result)
    add: (D, D) -> D,
    subtract: (D, D) -> D,
    multiply: (D, D) -> D,
    divide: (D, D) -> D)

  /** The keyboard's state: the display's text, `internalMemory`,
      `operationPress`, `shouldClearDisplayBeforeInserting` and `shouldCompute`. */
  datatype Accumulator<D> = Accumulator(
    display: string,
    memory: D,
    pending: Operation,
    clearBeforeInserting: bool,
    shouldCompute: bool)

  /** The operation an operator key's title selects; any other title selects none. */
  function OperationFor(title: string): (op: Operation)
    ensures op == None <==> title !in {"+", "-", "*", "/"}
  {
    if title == "+" then Addition
    else if title == "-" then Subtraction
    else if title == "*" then Multiplication
    else if title == "/" then Division
    else None
  }

  /** The four operator titles select the four operations. */
  lemma OperatorTitles()
    ensures OperationFor("+") == Addition && OperationFor("-") == Subtraction
    ensures OperationFor("*") == Multiplication && OperationFor("/") == Division
  {
  }

  /** The result of applying `op` to the memory and the input; 0.0 when no
      operation is pending. */
  function Apply<D>(num: Numerics<D>, op: Operation, memory: D, input: D): (r: D)
    ensures op == None ==> r == num.zero
  {
    match op
    case Addition => num.add(memory, input)
    case Subtraction => num.subtract(memory, input)
    case Multiplication => num.multiply(memory, input)
    case Division => num.divide(memory, input)
    case None => num.zero
  }

  /** What a compute yields from state `s`: the pending operation applied to
      the memory and the display read as a number. */
  function Outcome<D>(num: Numerics<D>, s: Accumulator<D>): D {
    Apply(num, s.pending, s.memory, num.doubleValue(s.display))
  }

  /** The text shown for a computed result. */
  function Shown<D>(num: Numerics<D>, result: D): (text: string)
    ensures DotCount(text) <= 1
  {
    FormatResult(num.describe(result), IntString(num.truncate(result)))
  }

  // ---------------------------------------------------------------------------
  // The five handlers, as functions of the state
  // ---------------------------------------------------------------------------

  /** `clearDisplay`. */
  function Cleared<D>(num: Numerics<D>, s: Accumulator<D>): (r: Accumulator<D>)
    ensures DotCount(r.display) == 0 && r.clearBeforeInserting
    ensures r.memory == num.zero && r.pending == Addition
    ensures r.shouldCompute == s.shouldCompute
  {
    s.(display := "0", memory := num.zero, pending := Addition, clearBeforeInserting := true)
  }

  /** `didTapNumber`: the display is emptied first on a fresh entry, then the
      title's integer rendering is appended when the key has a title. */
  function TapNumber<D>(s: Accumulator<D>, title: Option<string>): (r: Accumulator<D>)
    ensures !r.clearBeforeInserting && r.shouldCompute
    ensures r.memory == s.memory && r.pending == s.pending
    ensures !s.clearBeforeInserting ==> |s.display| <= |r.display| && r.display[..|s.display|] == s.display
    ensures title.Some? ==> HasSuffix(r.display, KeyDigits(title.value))
  {
    var base := if s.clearBeforeInserting then "" else s.display;
    var display := if title.Some? then base + KeyDigits(title.value) else base;
    s.(display := display, clearBeforeInserting := false, shouldCompute := true)
  }

  /** `didTapDot`. */
  function TapDot<D>(s: Accumulator<D>): (r: Accumulator<D>)
    ensures '.' in r.display
    ensures r.(display := s.display) == s
    ensures |s.display| <= |r.display| <= |s.display| + 1 && r.display[..|s.display|] == s.display
  {
    if '.' in s.display then s else s.(display := s.display + ".")
  }

  /** `computeLastOperation`. */
  function Computed<D>(num: Numerics<D>, s: Accumulator<D>): (r: Accumulator<D>)
    ensures r.memory == Apply(num, s.pending, s.memory, num.doubleValue(s.display))
    ensures r.display == Shown(num, r.memory) && DotCount(r.display) <= 1
    ensures r.pending == None && r.clearBeforeInserting && !r.shouldCompute
  {
    var result := Outcome(num, s);
    Accumulator(Shown(num, result), result, None, true, false)
  }

  /** `didTapOperation`: compute if a number was typed since the last compute,
      then select the operation named by the title, if there is one. */
  function TapOperation<D>(num: Numerics<D>, s: Accumulator<D>, title: Option<string>): (r: Accumulator<D>)
    ensures !r.shouldCompute
    ensures r.memory == if s.shouldCompute then Outcome(num, s) else s.memory
    ensures !s.shouldCompute ==> r.display == s.display
    ensures title.Some? ==> r.pending == OperationFor(title.value)
  {
    var t := if s.shouldCompute then Computed(num, s) else s;
    if title.Some? then t.(pending := OperationFor(title.value)) else t
  }

  // ---------------------------------------------------------------------------
  // Sequences of key presses
  // ---------------------------------------------------------------------------

  datatype Key = Clear | Number(title: Option<string>) | Dot | Operator(title: Option<string>) | Equals

  function Step<D>(num: Numerics<D>, s: Accumulator<D>, key: Key): Accumulator<D> {
    match key
    case Clear => Cleared(num, s)
    case Number(title) => TapNumber(s, title)
    case Dot => TapDot(s)
    case Operator(title) => TapOperation(num, s, title)
    case Equals => Computed(num, s)
  }

  function Run<D>(num: Numerics<D>, s: Accumulator<D>, keys: seq<Key>): Accumulator<D>
    decreases |keys|
  {
    if keys == [] then s else Run(num, Step(num, s, keys[0]), keys[1..])
  }

  /** Digit keys with the given titles, in order. */
  function NumberKeys(titles: seq<string>): (keys: seq<Key>)
    ensures |keys| == |titles|
    ensures forall i :: 0 <= i < |keys| ==> keys[i] == Number(Some(titles[i]))
  {
    if titles == [] then [] else [Number(Some(titles[0]))] + NumberKeys(titles[1..])
  }

  /** What a run of digit keys with these titles types. */
  function Typed(titles: seq<string>): string {
    if titles == [] then "" else KeyDigits(titles[0]) + Typed(titles[1..])
  }

  /** Keys that type nothing: operator keys and dot keys only. */
  predicate NoEntry(keys: seq<Key>) {
    forall i :: 0 <= i < |keys| ==> keys[i].Operator? || keys[i].Dot?
  }

  // ---------------------------------------------------------------------------
  // Lemmas
  // ---------------------------------------------------------------------------

  /** A digit key adds no dot: a fresh entry has none, otherwise the count is kept. */
  lemma TapNumberDotCount<D>(s: Accumulator<D>, title: Option<string>)
    ensures DotCount(TapNumber(s, title).display)
         == if s.clearBeforeInserting then 0 else DotCount(s.display)
  {
    var base := if s.clearBeforeInserting then "" else s.display;
    if title.Some? {
      DotCountAppend(base, KeyDigits(title.value));
    }
  }

  /** A dot key leaves exactly one dot when there was none, and otherwise
      changes nothing. */
  lemma TapDotDotCount<D>(s: Accumulator<D>)
    ensures DotCount(TapDot(s).display) == if DotCount(s.display) == 0 then 1 else DotCount(s.display)
  {
    DotCountAppend(s.display, ".");
  }

  /** Two dot keys in a row do what one does. */
  lemma TapDotIdempotent<D>(s: Accumulator<D>)
    ensures TapDot(TapDot(s)) == TapDot(s)
  {
    if '.' !in s.display {
      var d := s.display + ".";
      assert d[|d| - 1] == '.';
    }
  }

  /** The display never holds more than one dot once it holds at most one. */
  lemma StepKeepsAtMostOneDot<D>(num: Numerics<D>, s: Accumulator<D>, key: Key)
    requires DotCount(s.display) <= 1
    ensures DotCount(Step(num, s, key).display) <= 1
  {
    match key
    case Clear =>
    case Number(title) => TapNumberDotCount(s, title);
    case Dot => TapDotDotCount(s);
    case Operator(title) =>
    case Equals =>
  }

  lemma {:induction false} RunKeepsAtMostOneDot<D>(num: Numerics<D>, s: Accumulator<D>, keys: seq<Key>)
    requires DotCount(s.display) <= 1
    ensures DotCount(Run(num, s, keys).display) <= 1
    decreases |keys|
  {
    if keys != [] {
      StepKeepsAtMostOneDot(num, s, keys[0]);
      RunKeepsAtMostOneDot(num, Step(num, s, keys[0]), keys[1..]);
    }
  }

  /** Digit keys typed on a display that is not awaiting a fresh entry append
      their renderings in order. */
  lemma {:induction false} NumbersAppend<D>(num: Numerics<D>, s: Accumulator<D>, titles: seq<string>)
    requires !s.clearBeforeInserting
    ensures Run(num, s, NumberKeys(titles)).display == s.display + Typed(titles)
    ensures !Run(num, s, NumberKeys(titles)).clearBeforeInserting
    decreases |titles|
  {
    if titles == [] {
      assert s.display + "" == s.display;
    } else {
      var keys := NumberKeys(titles);
      var t := TapNumber(s, Some(titles[0]));
      assert Run(num, s, keys) == Run(num, t, NumberKeys(titles[1..])) by {
        assert keys[1..] == NumberKeys(titles[1..]);
      }
      NumbersAppend(num, t, titles[1..]);
      ConcatAssociative(s.display, KeyDigits(titles[0]), Typed(titles[1..]));
    }
  }

  /** Kept as a lemma so that the step is proved outside the heavy context of
      `NumbersAppend`. */
  lemma ConcatAssociative(a: string, b: string, c: string)
    ensures (a + b) + c == a + (b + c)
  {
  }

  /** After a fresh-entry reset (a clear or a compute), the display shows
      exactly what the digit keys typed, with nothing left of the old text. */
  lemma DigitsAfterFreshEntry<D>(num: Numerics<D>, s: Accumulator<D>, titles: seq<string>)
    requires s.clearBeforeInserting
    requires titles != []
    ensures Run(num, s, NumberKeys(titles)).display == Typed(titles)
  {
    var keys := NumberKeys(titles);
    assert keys[1..] == NumberKeys(titles[1..]);
    var t := TapNumber(s, Some(titles[0]));
    assert t.display == KeyDigits(titles[0]);
    NumbersAppend(num, t, titles[1..]);
  }

  /** An operator key computes exactly when a digit was typed since the last
      compute; either way it clears the flag that asks for a compute. */
  lemma OperatorComputesOnlyAfterEntry<D>(num: Numerics<D>, s: Accumulator<D>, title: Option<string>)
    ensures var t := TapOperation(num, s, title);
            && !t.shouldCompute
            && (s.shouldCompute ==> t.memory == Outcome(num, s) && t.display == Shown(num, t.memory))
            && (!s.shouldCompute ==> t.memory == s.memory && t.display == s.display)
  {
  }

  /** After an operator key, more operator and dot keys never compute again:
      the memory stays as the first operator left it. */
  lemma {:induction false} NoEntryKeepsMemory<D>(num: Numerics<D>, s: Accumulator<D>, keys: seq<Key>)
    requires !s.shouldCompute
    requires NoEntry(keys)
    ensures Run(num, s, keys).memory == s.memory
    ensures !Run(num, s, keys).shouldCompute
    decreases |keys|
  {
    if keys != [] {
      assert keys[0].Operator? || keys[0].Dot?;
      assert NoEntry(keys[1..]) by {
        forall i | 0 <= i < |keys[1..]| ensures keys[1..][i].Operator? || keys[1..][i].Dot? {
          assert keys[1..][i] == keys[i + 1];
        }
      }
      NoEntryKeepsMemory(num, Step(num, s, keys[0]), keys[1..]);
    }
  }

  /** Two operator keys with no digit between them compute at most once: the
      second only changes the pending operation, and a second key without a
      title changes nothing. */
  lemma SecondOperatorDoesNotCompute<D>(num: Numerics<D>, s: Accumulator<D>, first: Option<string>, second: Option<string>)
    ensures var t := TapOperation(num, s, first);
            TapOperation(num, t, second) == if second.Some? then t.(pending := OperationFor(second.value)) else t
  {
  }

  /** After a compute, a dot key followed by a digit key starts the display
      over: the dot typed on the shown result is discarded. */
  lemma DotAfterComputeIsDiscarded<D>(num: Numerics<D>, s: Accumulator<D>, title: string)
    ensures var t := Computed(num, s);
            TapNumber(TapDot(t), Some(title)).display == KeyDigits(title)
  {
  }

  /** One digit typed as a fresh entry, then an operator key: the pending
      operation is applied to the memory and that digit, and the operator's
      operation is armed. */
  lemma DigitThenOperator<D>(num: Numerics<D>, s: Accumulator<D>, digit: char, operator: string)
    requires IsDigit(digit) && s.clearBeforeInserting
    ensures var t := TapOperation(num, TapNumber(s, Some([digit])), Some(operator));
            var result := Apply(num, s.pending, s.memory, num.doubleValue([digit]));
            && t.memory == result && t.display == Shown(num, result)
            && t.pending == OperationFor(operator)
            && t.clearBeforeInserting && !t.shouldCompute
  {
    DigitKeyRendersItself(digit);
    assert TapNumber(s, Some([digit])).display == [digit];
  }

  /** One digit typed as a fresh entry, then the compute key: the pending
      operation is applied to the memory and that digit. */
  lemma DigitThenCompute<D>(num: Numerics<D>, s: Accumulator<D>, digit: char)
    requires IsDigit(digit) && s.clearBeforeInserting
    ensures var t := Computed(num, TapNumber(s, Some([digit])));
            var result := Apply(num, s.pending, s.memory, num.doubleValue([digit]));
            t.memory == result && t.display == Shown(num, result)
  {
    DigitKeyRendersItself(digit);
    assert TapNumber(s, Some([digit])).display == [digit];
  }

  /** clear, a digit, "+", a digit, compute (for instance 5 + 3): the memory
      ends as (0 + a) + b and the display shows that value. */
  lemma AddTwoNumbers<D>(num: Numerics<D>, s: Accumulator<D>, a: char, b: char)
    requires IsDigit(a) && IsDigit(b)
    ensures var sum := num.add(num.add(num.zero, num.doubleValue([a])), num.doubleValue([b]));
            var t := Computed(num, TapNumber(TapOperation(num, TapNumber(Cleared(num, s), Some([a])), Some("+")), Some([b])));
            t.memory == sum && t.display == Shown(num, sum)
  {
    DigitThenOperator(num, Cleared(num, s), a, "+");
    var s3 := TapOperation(num, TapNumber(Cleared(num, s), Some([a])), Some("+"));
    OperatorTitles();
    assert s3.pending == Addition;
    DigitThenCompute(num, s3, b);
  }

  /** clear, a digit, "+", a digit, "*", a digit, compute (for instance
      2 + 3 * 4): the "*" key computes (0 + a) + b, and the final compute
      multiplies that by c. */
  lemma ChainedOperations<D>(num: Numerics<D>, s: Accumulator<D>, a: char, b: char, c: char)
    requires IsDigit(a) && IsDigit(b) && IsDigit(c)
    ensures var sum := num.add(num.add(num.zero, num.doubleValue([a])), num.doubleValue([b]));
            var t1 := TapOperation(num, TapNumber(TapOperation(num, TapNumber(Cleared(num, s), Some([a])), Some("+")), Some([b])), Some("*"));
            var t := Computed(num, TapNumber(t1, Some([c])));
            && t1.memory == sum && t1.display == Shown(num, sum)
            && t.memory == num.multiply(sum, num.doubleValue([c])) && t.display == Shown(num, t.memory)
  {
    var s0 := Cleared(num, s);
    DigitThenOperator(num, s0, a, "+");
    var s3 := TapOperation(num, TapNumber(s0, Some([a])), Some("+"));
    DigitThenOperator(num, s3, b, "*");
    var t1 := TapOperation(num, TapNumber(s3, Some([b])), Some("*"));
    OperatorTitles();
    assert t1.pending == Multiplication;
    DigitThenCompute(num, t1, c);
  }
}
