/** The keyboard's view controller, reduced to its calculator state and the
    five handlers that change it in place. Each handler is tied to the
    corresponding function of module `Calculator`, so the lemmas proved there
    hold of every sequence of handler calls.
 */
module Keyboard {
  import opened Numerals
  import opened DecimalText
  import opened Calculator

  class KeyboardController<D> {
    /** The `Double` operations the controller uses. */
    const num: Numerics<D>

    var display: string
    var internalMemory: D
    var operationPress: Operation
    var shouldClearDisplayBeforeInserting: bool
    var shouldCompute: bool

    /** The display holds at most one decimal point. */
    predicate Valid()
      reads this
    {
      DotCount(display) <= 1
    }

    /** The five fields as one value. */
    function State(): Accumulator<D>
      reads this
    {
      Accumulator(display, internalMemory, operationPress, shouldClearDisplayBeforeInserting, shouldCompute)
    }

    /** The controller as it stands once its view has loaded: the fields'
        initial values, then `clearDisplay`. */
    constructor (num: Numerics<D>)
      ensures this.num == num
      ensures display == "0" && internalMemory == num.zero && operationPress == Addition
      ensures shouldClearDisplayBeforeInserting && !shouldCompute
      ensures Valid()
    {
      this.num := num;
      display := "";  // the label's text from the interface file is overwritten below
      shouldClearDisplayBeforeInserting := true;
      internalMemory := num.zero;
      operationPress := None;
      shouldCompute := false;
      new;
      ClearDisplay();
    }

    method ClearDisplay()
      modifies this
      ensures State() == Cleared(num, old(State()))
      ensures display == "0" && internalMemory == num.zero && operationPress == Addition
      ensures shouldClearDisplayBeforeInserting
      ensures shouldCompute == old(shouldCompute)
      ensures Valid()
    {
      display := "0";
      internalMemory := num.zero;
      operationPress := Addition;
      shouldClearDisplayBeforeInserting := true;
    }

    /** A digit key: on a fresh entry the display is emptied first; the key's
        title, read as a 32-bit integer, is then appended. */
    method DidTapNumber(title: Option<string>)
      modifies this
      ensures State() == TapNumber(old(State()), title)
      ensures var base := if old(shouldClearDisplayBeforeInserting) then "" else old(display);
              display == if title.Some? then base + KeyDigits(title.value) else base
      ensures old(Valid()) ==> Valid()
    {
      ghost var after := TapNumber(State(), title);
      TapNumberDotCount(State(), title);
      if shouldClearDisplayBeforeInserting {
        display := "";
        shouldClearDisplayBeforeInserting := false;
      }
      shouldCompute := true;
      if title.Some? {
        display := display + KeyDigits(title.value);
      }
      assert display == after.display;
    }

    /** A dot key: append "." unless the display already holds one. */
    method DidTapDot()
      modifies this
      ensures State() == TapDot(old(State()))
      ensures display == if '.' in old(display) then old(display) else old(display) + "."
      ensures internalMemory == old(internalMemory) && operationPress == old(operationPress)
      ensures shouldClearDisplayBeforeInserting == old(shouldClearDisplayBeforeInserting)
      ensures shouldCompute == old(shouldCompute)
      ensures old(Valid()) ==> Valid()
    {
      ghost var before := State();
      var input := display;
      var hasDot := ScanForDot(input);
      if !hasDot {
        display := input + ".";
      }
      TapDotDotCount(before);
    }

    /** An operator key: compute first if a digit was typed since the last
        compute, then arm the operation the title names. */
    method DidTapOperation(title: Option<string>)
      modifies this
      ensures State() == TapOperation(num, old(State()), title)
      ensures old(shouldCompute) ==>
                && internalMemory == Outcome(num, old(State()))
                && display == Shown(num, internalMemory)
                && shouldClearDisplayBeforeInserting
      ensures !old(shouldCompute) ==>
                && internalMemory == old(internalMemory)
                && display == old(display)
                && shouldClearDisplayBeforeInserting == old(shouldClearDisplayBeforeInserting)
      ensures !shouldCompute
      ensures operationPress == if title.Some? then OperationFor(title.value)
                                else if old(shouldCompute) then None
                                else old(operationPress)
      ensures old(Valid()) ==> Valid()
    {
      if shouldCompute {
        ComputeLastOperation();
      }
      if title.Some? {
        operationPress := OperationFor(title.value);
      }
    }

    /** The compute key (and the compute an operator key triggers). */
    method ComputeLastOperation()
      modifies this
      ensures State() == Computed(num, old(State()))
      ensures internalMemory == Apply(num, old(operationPress), old(internalMemory), num.doubleValue(old(display)))
      ensures display == Shown(num, internalMemory)
      ensures operationPress == None && shouldClearDisplayBeforeInserting && !shouldCompute
      ensures Valid()
    {
      shouldCompute := false;
      var input := num.doubleValue(display);
      var result: D;
      match operationPress {
        case Addition => result := num.add(internalMemory, input);
        case Subtraction => result := num.subtract(internalMemory, input);
        case Multiplication => result := num.multiply(internalMemory, input);
        case Division => result := num.divide(internalMemory, input);
        case None => result := num.zero;
      }
      operationPress := None;
      display := FormatResult(num.describe(result), IntString(num.truncate(result)));
      internalMemory := result;
      shouldClearDisplayBeforeInserting := true;
    }
  }

  /** The scan `didTapDot` makes of the display: stop at the first '.'. */
  method ScanForDot(input: string) returns (hasDot: bool)
    ensures hasDot <==> '.' in input
  {
    hasDot := false;
    var i := 0;
    while i < |input|
      invariant 0 <= i <= |input|
      invariant !hasDot && '.' !in input[..i]
    {
      if input[i] == '.' {
        hasDot := true;
        break;
      }
      i := i + 1;
    }
    assert hasDot || input[..i] == input;
  }

  /** Two operator keys in a row on the same controller compute at most once:
      the second leaves the memory and the display as the first left them. */
  method TwoOperators<D>(c: KeyboardController<D>, first: Option<string>, second: Option<string>)
    modifies c
    ensures c.internalMemory == (if old(c.shouldCompute) then Outcome(c.num, old(c.State())) else old(c.internalMemory))
    ensures c.display == (if old(c.shouldCompute) then Shown(c.num, c.internalMemory) else old(c.display))
  {
    c.DidTapOperation(first);
    c.DidTapOperation(second);
  }
}
