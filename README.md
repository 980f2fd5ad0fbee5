# Calculator keyboard: the accumulator engine

This project models the calculator that sits behind a numeric-keypad
keyboard extension (`Calculator/KeyboardViewController.swift`). The keyboard
keeps five pieces of state:

- the text of the display label;
- `internalMemory`, the last computed result;
- `operationPress`, the operation the next compute applies;
- `shouldClearDisplayBeforeInserting`, which says whether the next digit
  starts a new number;
- `shouldCompute`, which says whether an operator key computes.

Five button handlers change that state: `clearDisplay`, `didTapNumber`,
`didTapDot`, `didTapOperation` and `computeLastOperation`. Evaluation is
strictly left to right, with one pending operation at a time.

The project has four modules:

- `Numerals` (numerals.dfy) models `NSString.intValue` and Swift's decimal
  rendering of an integer. The digit keys push their titles through both. The
  module proves that a digit key appends exactly its digit, that a
  non-numeric title appends "0", and that parsing a rendered 32-bit integer
  gives the integer back.
- `DecimalText` (decimal_text.dfy) covers dot counting and
  `componentsSeparatedByString(".")`, with round trips in both directions.
  It also holds the formatting applied to a computed result: a ".0" ending is
  replaced by the integer rendering, and the fraction is cut to five
  characters without rounding.
- `Calculator` (calculator.dfy) writes the five handlers as functions on an
  `Accumulator` value and proves what follows from them:
  - the display never holds two dots;
  - digit keys after a fresh entry show exactly what was typed;
  - a second operator key does not compute again;
  - two dot keys act like one;
  - worked examples from clear to result.
- `Keyboard` (keyboard.dfy) is the view controller as a class with the five
  fields. Its handler methods change those fields in place and are each proved
  equal to the matching `Calculator` function. `ScanForDot` is the loop
  `didTapDot` uses to look for a dot.

`Double` arithmetic is kept abstract. The `Numerics<D>` record carries these
operations as functions over an unspecified number type `D`:

- the constant 0.0;
- `NSString.doubleValue`;
- the string interpolation `"\(result)"`;
- `Int(result)`;
- `+`, `-`, `*` and `/`.

Every property is proved for all choices of these functions. So the worked
examples state the final memory as `(0 + 5) + 3`, in terms of those
operations, rather than as the display text "8". Division by zero is not
special-cased, as in the source. Its result is shown as Swift renders it, and
a rendering without a dot, such as "inf", is shown unchanged (`FormatInfinity`).

Behaviours of the source worth noting:

- A dot key leaves the fresh-entry flag alone. After a compute, typing "."
  and then a digit therefore discards the dot: the digit replaces the whole
  display (`DotAfterComputeIsDiscarded`).
- `clearDisplay` arms `Addition`. It leaves
  `shouldCompute` as it was.
- The result formatting always splits at the dots after the ".0"
  replacement. Because an integer rendering has no dot, the split only
  changes text that still holds a dot.
- A key with no title still resets a fresh display to the empty string,
  because that happens before the title is checked. A missing operator title
  leaves the pending operation as the compute (if any) left it.

## Model

| member | source | states |
|---|---|---|
| Keyboard.KeyboardController.constructor | Calculator/KeyboardViewController.swift:16-29 | After the fields' initial values and the `clearDisplay` call made when the view loads, the display is "0", memory is 0.0, `Addition` is armed, a fresh entry is awaited, no compute is pending, and the display holds at most one dot |
| Keyboard.KeyboardController.ClearDisplay | Calculator/KeyboardViewController.swift:44-49 | The display becomes "0", memory 0.0, the pending operation `Addition`, and the fresh-entry flag true; `shouldCompute` is unchanged |
| Keyboard.KeyboardController.DidTapNumber | Calculator/KeyboardViewController.swift:52-67 | On a fresh entry the display becomes the title's integer rendering, otherwise that rendering is appended; with no title nothing is appended; the fresh-entry flag ends false and `shouldCompute` true; memory and the pending operation are unchanged; at most one dot is kept |
| Keyboard.KeyboardController.DidTapDot | Calculator/KeyboardViewController.swift:70-83 | Appends "." exactly when the display has no dot, otherwise changes nothing; memory, pending operation and both flags are unchanged |
| Keyboard.KeyboardController.DidTapOperation | Calculator/KeyboardViewController.swift:93-112 | Computes if and only if `shouldCompute` was set; then arms the operation the title names (`+ - * /`, anything else `None`); a missing title keeps the operation as it stood after the compute; `shouldCompute` ends false |
| Keyboard.KeyboardController.ComputeLastOperation | Calculator/KeyboardViewController.swift:114-158 | Memory becomes the pending operation applied to the old memory and the display read as a `Double` (0.0 when none is pending); the display shows its formatted rendering; the operation becomes `None`, a fresh entry is awaited, `shouldCompute` is false, and the display has at most one dot |
| Keyboard.ScanForDot | Calculator/KeyboardViewController.swift:72-78 | The scan over the display reports a dot if and only if the display contains '.' |
| Keyboard.TwoOperators | Calculator/KeyboardViewController.swift:93-116 | Two operator keys in a row leave the memory and display as a single compute (or none, when no digit was typed) left them |
| Numerals.IntValue | Calculator/KeyboardViewController.swift:60-63 | A title's `intValue` lies in the 32-bit signed range |
| Numerals.IntString | Calculator/KeyboardViewController.swift:63 | The rendering of an integer is non-empty, has no dot, and starts with '-' exactly for negatives |
| Numerals.KeyDigits | Calculator/KeyboardViewController.swift:60-65 | What a digit key appends is non-empty and has no dot |
| Numerals.IntValueOfIntString | Calculator/KeyboardViewController.swift:63 | Reading back the rendering of any 32-bit integer gives that integer |
| Numerals.IntStringInjective | Calculator/KeyboardViewController.swift:63 | Distinct 32-bit integers render to distinct texts |
| Numerals.DigitKeyRendersItself | Calculator/KeyboardViewController.swift:60-65 | A key titled with one decimal digit appends exactly that digit |
| Numerals.NonNumericKeyRendersZero | Calculator/KeyboardViewController.swift:60-65 | A title with no leading number is coerced to 0 and appends "0" |
| Numerals.NumericKeyIsNonNegativeWithoutMinus | Calculator/KeyboardViewController.swift:60-65 | Without a leading minus sign a title never appends a negative number |
| Numerals.LeadingDigits | Calculator/KeyboardViewController.swift:63 | The digits `intValue` reads are the longest all-digit prefix of the title |
| Numerals.SkipWhitespace | Calculator/KeyboardViewController.swift:63 | `intValue` skips exactly the leading white space |
| DecimalText.FirstDot | Calculator/KeyboardViewController.swift:144 | The split point is the first '.' of the text, or its end |
| DecimalText.Components | Calculator/KeyboardViewController.swift:144 | Splitting at dots gives at least one piece, none of which holds a dot |
| DecimalText.ComponentsCount | Calculator/KeyboardViewController.swift:144-145 | There is exactly one more component than there are dots, so `count >= 2` means the text has a dot |
| DecimalText.JoinComponents | Calculator/KeyboardViewController.swift:144 | Joining the components with dots gives the text back |
| DecimalText.ComponentsOfJoin | Calculator/KeyboardViewController.swift:144 | Splitting dot-free pieces joined by dots gives the pieces back |
| DecimalText.TakeAtMost | Calculator/KeyboardViewController.swift:148-151 | The kept fraction is a prefix of the original, of length at most five |
| DecimalText.Chosen | Calculator/KeyboardViewController.swift:138-142 | The text the formatting works on is the integer rendering when the rendering ends in ".0", and the rendering itself otherwise |
| DecimalText.TrimFraction | Calculator/KeyboardViewController.swift:144-153 | The split at the dots and the cut of the fraction leave at most one dot |
| DecimalText.FormatResult | Calculator/KeyboardViewController.swift:138-153 | The formatted result holds at most one dot |
| DecimalText.FormatKeepsDotless | Calculator/KeyboardViewController.swift:144-153 | Text without a dot after the ".0" step is shown unchanged |
| DecimalText.FormatDropsPointZero | Calculator/KeyboardViewController.swift:140-142 | A rendering ending in ".0" is shown as the integer rendering alone |
| DecimalText.FormatTruncatesFraction | Calculator/KeyboardViewController.swift:144-153 | Text with a dot is shown as everything before its first dot, a dot, then the longest dot-free run after it cut to five characters: a prefix, so truncated and never rounded |
| DecimalText.FormatOneDot | Calculator/KeyboardViewController.swift:144-153 | A rendering with one dot and no ".0" ending keeps its integer part and at most five characters of its fraction |
| DecimalText.FormatOneThird | Calculator/KeyboardViewController.swift:138-153 | "0.3333333333333333" is shown as "0.33333" |
| DecimalText.FormatExactInteger | Calculator/KeyboardViewController.swift:140-142 | "4.0" is shown as "4" |
| DecimalText.FormatInfinity | Calculator/KeyboardViewController.swift:138-153 | The rendering "inf" of a division by zero is shown unchanged |
| Calculator.Apply | Calculator/KeyboardViewController.swift:123-134 | Defines the operation switch: the pending operation applied to the memory (left operand) and the display read as a `Double` (right operand); the contract states the `default` arm, no pending operation giving 0.0 |
| Calculator.Cleared | Calculator/KeyboardViewController.swift:44-49 | Defines `clearDisplay` on the state: afterwards the display has no dot, a fresh entry is awaited, memory is 0.0, `Addition` is armed and `shouldCompute` is kept; `KeyboardController.ClearDisplay` is proved equal to it |
| Calculator.TapNumber | Calculator/KeyboardViewController.swift:52-67 | Defines `didTapNumber` on the state: the fresh-entry flag ends false and `shouldCompute` true, memory and the pending operation are kept, the old display survives as a prefix unless a fresh entry was awaited, and a titled key leaves its rendering at the end; `KeyboardController.DidTapNumber` is proved equal to it |
| Calculator.TapDot | Calculator/KeyboardViewController.swift:70-83 | Defines `didTapDot` on the state: afterwards the display holds a dot, only the display changes, and it grows by at most one character with the old text as prefix; `KeyboardController.DidTapDot` is proved equal to it |
| Calculator.Computed | Calculator/KeyboardViewController.swift:114-158 | Defines `computeLastOperation` on the state: memory becomes the pending operation applied to the old memory and the display's value, the display shows its formatted rendering with at most one dot, no operation is pending, a fresh entry is awaited and `shouldCompute` is false; `KeyboardController.ComputeLastOperation` is proved equal to it |
| Calculator.TapOperation | Calculator/KeyboardViewController.swift:93-112 | Defines `didTapOperation` on the state: memory changes by a compute exactly when `shouldCompute` was set, the display is untouched otherwise, a titled key arms the operation its title names, and `shouldCompute` ends false; `KeyboardController.DidTapOperation` is proved equal to it |
| Calculator.OperationFor | Calculator/KeyboardViewController.swift:98-110 | A title selects no operation exactly when it is none of "+", "-", "*", "/" |
| Calculator.OperatorTitles | Calculator/KeyboardViewController.swift:98-107 | The titles "+", "-", "*", "/" select Addition, Subtraction, Multiplication and Division respectively |
| Calculator.Shown | Calculator/KeyboardViewController.swift:138-155 | The display after a compute holds at most one dot |
| Calculator.TapNumberDotCount | Calculator/KeyboardViewController.swift:52-67 | A digit key adds no dot: a fresh entry has none, otherwise the dot count is kept |
| Calculator.TapDotDotCount | Calculator/KeyboardViewController.swift:70-83 | A dot key leaves exactly one dot when there was none and otherwise keeps the count |
| Calculator.TapDotIdempotent | Calculator/KeyboardViewController.swift:70-83 | Two dot keys in a row have the effect of one |
| Calculator.StepKeepsAtMostOneDot | Calculator/KeyboardViewController.swift:44-158 | Every key keeps the display at no more than one dot |
| Calculator.RunKeepsAtMostOneDot | Calculator/KeyboardViewController.swift:44-158 | Any sequence of keys keeps the display at no more than one dot |
| Calculator.NumbersAppend | Calculator/KeyboardViewController.swift:52-67 | Digit keys on a display not awaiting a fresh entry append their renderings in order |
| Calculator.DigitsAfterFreshEntry | Calculator/KeyboardViewController.swift:52-67 | After a clear or a compute, the display shows exactly the concatenated renderings of the digit keys typed |
| Calculator.OperatorComputesOnlyAfterEntry | Calculator/KeyboardViewController.swift:93-96 | An operator key changes memory and display by a compute if `shouldCompute` is set and leaves them alone otherwise |
| Calculator.NoEntryKeepsMemory | Calculator/KeyboardViewController.swift:93-116 | Once no compute is pending, operator and dot keys never change the memory again |
| Calculator.SecondOperatorDoesNotCompute | Calculator/KeyboardViewController.swift:93-116 | A second operator key with no digit between computes nothing: with a title it only changes the pending operation, without one it changes nothing |
| Calculator.DotAfterComputeIsDiscarded | Calculator/KeyboardViewController.swift:52-83 | After a compute, a dot key and then a digit key leave only that digit's rendering on the display |
| Calculator.DigitThenOperator | Calculator/KeyboardViewController.swift:52-136 | One digit typed as a fresh entry and then an operator key applies the pending operation to that digit, shows the result and arms the new operation |
| Calculator.DigitThenCompute | Calculator/KeyboardViewController.swift:52-157 | One digit typed as a fresh entry and then the compute key applies the pending operation to the memory and that digit, and shows the result |
| Calculator.AddTwoNumbers | Calculator/KeyboardViewController.swift:44-157 | For any digits a and b, clear, a, +, b, compute (for instance 5 + 3) leaves memory (0 + a) + b, shown formatted |
| Calculator.ChainedOperations | Calculator/KeyboardViewController.swift:44-157 | For any digits a, b and c, clear, a, +, b, *, c, compute (for instance 2 + 3 * 4): the `*` key computes (0 + a) + b and shows it, and the final compute multiplies that by c, strictly left to right, and shows the product |

## Left out

- User interface wiring: `loadInterface`, the interface file, the
  next-keyboard button, `viewDidLoad` (except that it ends with
  `clearDisplay`, which the constructor includes), `updateViewConstraints`,
  `didReceiveMemoryWarning`, `textWillChange`, `textDidChange`,
  `RoundButton` and `RoundLabel`. They hold no calculator logic.
- `didTapInsert` only hands the display text to the host text field, which
  is input/output.
- `Double` semantics are abstract, as described above: IEEE arithmetic,
  infinities and NaN, the parsing done by `NSString.doubleValue`, Swift's
  rendering of a `Double`, and `Int(result)`. Concrete displays such as "8"
  for 5 + 3 therefore cannot be derived. `Int(result)` traps on non-finite
  or out-of-range values, and that trap is not modelled. The call is only
  reached when the rendering ends in ".0".
- The display label and a button's title label are always present. So the
  model has no branch for a missing display text at lines 62-65, 71 and 118,
  since the code never assigns nil to it. A button's title is optional only
  where the code branches on it (lines 60 and 98).
- The fraction-length test uses the UTF-8 byte length (line 148), while the
  model counts characters. The two agree on the ASCII text that number
  rendering produces.
- The scan at lines 73-78 walks Unicode scalars and the model walks
  characters. The two agree on '.'.
- Numerals.IntValue: the white space that `intValue` skips is taken to be
  space, tab, newline and carriage return. Other Unicode white space is not
  modelled.
