# Calculator core in Dafny

A model of the core of the Android calculator (the `com.android.calculator2`
package):

- **Expressions** (`CalculatorExpr.java`): the token list the keypad edits
  one key at a time (`add`, `delete`, `append`, `clear`, `clone`, the
  `Constant` token), the recursive-descent evaluator (`evalExpr` down to
  `evalUnary`) with its exact-integer channel beside the constructive-real
  value, the integer helpers `genFactorial` and `pow`, and the token writer
  with its de-duplication of pre-evaluated subexpressions.
- **Result cache** (`Evaluator.java`): the cache of the current result's
  decimal approximation and the small state machine around it
  (`ensureCachePrec`, `clearCache`, `clear`, `cancelAll`,
  `evaluateAndShowResult`, `requireResult`, the completion handlers of the
  reevaluation task and of the initial evaluation task, `getMsd`). Also the
  string algorithms on the cached digits: `getMsdPos`, `leadingZeroes`,
  `getPadding`, `getPreferredPrec`, `getShortString` and the windowing and
  scientific-notation formatter `getString`.
- **Key tables** (`KeyMaps.java`): the button datatype and the pure lookups
  `isBinary`, `isSuffix`, `digVal`, `keyForDigVal`, `keyForChar` and
  `funForString`, plus the character translation `translateResult`.
- **History bookkeeping** (`ExpressionDB.java`): the two flag bits of a
  history row, and the allocation of row indices by `addRow`, `eraseAll`
  and the initializer.

Files, one module each:

- `wrappers.dfy` (Option, Result);
- `text.dfy` (digit strings and integers, as `String.indexOf`,
  `Integer.toString` and `new BigInteger(s)` use them);
- `key_maps.dfy`;
- `reals.dfy` (constructive reals as terms);
- `tokens.dfy`, `parser.dfy`, `expressions.dfy` and `persistence.dfy`
  (`CalculatorExpr.java`);
- `evaluator.dfy`;
- `history.dfy`.

How the model is built:

- **Constructive reals.** These come from a library that is not part of the
  model, so they are terms of a free datatype, one constructor per library
  operation. `IntValue` reads off the integer a term denotes when it lies in
  the integer fragment. That is the meaning the evaluator's exact channel must
  agree with (`Parser.Sound`).
- **Library oracles.** `CR.BigIntegerValue` and `CR.toString(prec)` are
  function parameters. `CR.toString` answers None where the library would
  throw an `ArithmeticException` (a square root of a negative number, say).
- **Threads.** A started task is a value in a field. Its completion is a
  method called with what the background computation produced.
- **Java exceptions** are `Err` results, or the `Fatal` notice when nothing
  catches them. A Java `null` is `None`.
- **Classes.** Objects the source updates in place are classes with those
  fields. Each method is specified by a pure function of the old state, and
  the properties are proved about those functions.

Quirks of the code the model keeps:

- **Negative exact divisor.** Exact division calls `BigInteger.mod` first,
  which throws for a negative divisor as well as for zero
  (src/com/android/calculator2/CalculatorExpr.java:736-738). So `6 / -2` is an
  arithmetic error where a user would expect `-3` (`Parser.NegativeDivisor`).
- **Lone decimal point.** A constant whose whole part is empty (`.` or `.0`)
  counts as an integer (CalculatorExpr.java:139-142). Evaluating it calls
  `new BigInteger("")` (CalculatorExpr.java:524-525), which throws
  `NumberFormatException`. Nothing in the evaluation task catches that
  (Evaluator.java:366-376), so the app ends where a user would expect an
  error message or the value 0.
  - The model carries this as the `NumberFormatError` result.
  - The initial evaluation maps it to `Fatal`.
  - `Expressions.LonePointReachable` shows that typing `.` into an empty
    expression is accepted and then evaluates to that error.
- **Unconsumed tokens.** When `eval` leaves a token unconsumed it returns
  null (CalculatorExpr.java:811). `doInBackground` returns null in turn
  (Evaluator.java:346), and `onPostExecute` dereferences it
  (Evaluator.java:379-382). The model reports this as `Fatal` too, where a
  user would expect a syntax error.

## Model

| member | source | states |
|---|---|---|
| `Keys.IsBinary` | src/com/android/calculator2/KeyMaps.java:87-98 | true exactly for the five binary operator keys |
| `Keys.DigVal` | src/com/android/calculator2/KeyMaps.java:111-136 | the digit keys map to 0..9 in order; every other key maps to NOT_DIGIT (10) |
| `Keys.KeyForDigVal` | src/com/android/calculator2/KeyMaps.java:140-165 | 0..9 map to the digit keys in order; any other value maps to NO_ID |
| `Keys.DigValRoundTrip` | src/com/android/calculator2/KeyMaps.java:111-165 | digVal and keyForDigVal are mutual inverses on the ten digits |
| `Keys.KeyForChar` | src/com/android/calculator2/KeyMaps.java:210-254 | ASCII digits give their digit key; `.` and `,` give the decimal point; `e`/`E` give e; `p`/`P` give pi; each of `- + * / ^ ! ( )` gives its operator key; any other character gives the point or pi when it is the locale's glyph, else NO_ID |
| `Keys.IsSuffix` | src/com/android/calculator2/KeyMaps.java:100-103 | the suffix operator is neither a binary operator nor a digit |
| `Keys.FunForString` | src/com/android/calculator2/KeyMaps.java:334-344 | NO_ID when there is no `(` after pos; otherwise the function map's entry for the text from pos up to the first `(`, or NO_ID when that text has none |
| `Keys.InverseFunctionSpellings` | src/com/android/calculator2/KeyMaps.java:277-288 | `asin`/`arcsin`, `acos`/`arccos` and `atan`/`arctan` reach the same function key |
| `Keys.ResultCharMap` | src/com/android/calculator2/KeyMaps.java:308-321 | the output map holds each digit's label, the minus and point labels, and the fixed entries for e, E, blank, ellipsis and slash, and no other key |
| `Keys.TranslateResult` | src/com/android/calculator2/KeyMaps.java:347-363 | the result is the concatenation of the per-character translations, and an unmapped character passes through unchanged |
| `Keys.TranslatedAppend` | src/com/android/calculator2/KeyMaps.java:347-363 | translation distributes over concatenation |
| `Keys.TranslatedLength` | src/com/android/calculator2/KeyMaps.java:347-363 | with one-character translations the output is as long as the input |
| `Reals.CRPowValue` | src/com/android/calculator2/CalculatorExpr.java:622-635 | `pow(b, e)` denotes b^e for e >= 0, and the inverse of b^-e for e < 0 |
| `Reals.CRPowNonNegative` | src/com/android/calculator2/CalculatorExpr.java:622-635 | repeated squaring denotes b^e for every e >= 0 |
| `Reals.DecimalValueOfInteger` | src/com/android/calculator2/CalculatorExpr.java:521-525 | the decimal text of a digit string, with or without a zero fraction, denotes the integer of its whole digits |
| `Tokens.ConstAddDelete` | src/com/android/calculator2/CalculatorExpr.java:108-133 | `Constant.add` refuses exactly a second decimal point; otherwise it keeps the constant well formed and nonempty, `delete` undoes it, and the text grows by the key's character |
| `Tokens.ConstDeleteValid` | src/com/android/calculator2/CalculatorExpr.java:125-133 | `Constant.delete` keeps a constant well formed |
| `Tokens.IsIntAsWritten` | src/com/android/calculator2/CalculatorExpr.java:139-142 | `isInt` holds iff there is no point, or the fraction is empty or has value zero |
| `Tokens.IntConstantValue` | src/com/android/calculator2/CalculatorExpr.java:519-525 | an integral constant's CR denotes the integer of its whole digits, so the exact channel agrees with the CR |
| `Parser.CloseParen` | src/com/android/calculator2/CalculatorExpr.java:542-545 | an optional `)` is consumed; the value is unchanged |
| `Parser.ApplyFunction` | src/com/android/calculator2/CalculatorExpr.java:542-595 | a parenthesised argument keeps its exact value; every function drops the exact channel |
| `Parser.ConstantToken` | src/com/android/calculator2/CalculatorExpr.java:519-526 | a constant gives its decimal CR, exact iff `isInt`; an integral constant with an empty whole part is NumberFormatError |
| `Parser.AddStep` | src/com/android/calculator2/CalculatorExpr.java:769-775 | `+` is exact iff both sides are, and the exact sum agrees with the CR sum |
| `Parser.SubStep` | src/com/android/calculator2/CalculatorExpr.java:777-784 | `-` is exact iff both sides are, and agrees with the CR difference |
| `Parser.MulStep` | src/com/android/calculator2/CalculatorExpr.java:745-753 | a product is exact iff both sides are, and agrees with the CR product |
| `Parser.DivStep` | src/com/android/calculator2/CalculatorExpr.java:736-744 | exact division throws iff both sides are exact and the divisor is <= 0; exact iff the remainder is zero; agrees with the CR quotient |
| `Parser.PowStep` | src/com/android/calculator2/CalculatorExpr.java:667-690 | `^` is exact iff the base is exactly 1, or both are exact with exponent in [0, 10^6) and base below 10^6 in absolute value |
| `Parser.PowStepAgrees` | src/com/android/calculator2/CalculatorExpr.java:667-690 | with an exact exponent, the integer and repeated-squaring paths denote the same value |
| `Parser.Negate` | src/com/android/calculator2/CalculatorExpr.java:695-706 | a leading `-` keeps the exact channel and negates it soundly |
| `Parser.Unary` | src/com/android/calculator2/CalculatorExpr.java:517-603 | `evalUnary` consumes at least one token and reports a sound exact value; at the end of the list it is the syntax error `mExpr.get` leads to (lines 519, 813-814) |
| `Parser.Factorial` | src/com/android/calculator2/CalculatorExpr.java:637-658 | `evalFactorial` consumes at least one token and is sound |
| `Parser.FactorialRest` | src/com/android/calculator2/CalculatorExpr.java:641-656 | the `!` loop is sound, and leaves the exact value alone when no `!` follows; a `!` whose argument is at most 0 or above 10^9 is an ArithmeticError; a single `!` on an argument in range gives n! exactly; after any `!` the result is an exact integer of at least 1 |
| `Parser.OperatorEndsFactor` | src/com/android/calculator2/CalculatorExpr.java:708-720 | a binary or suffix operator never starts an implicitly multiplied factor |
| `Parser.Factor` | src/com/android/calculator2/CalculatorExpr.java:660-693 | `evalFactor` consumes at least one token and is sound |
| `Parser.SignedFactor` | src/com/android/calculator2/CalculatorExpr.java:695-706 | `evalSignedFactor` consumes at least one token and is sound |
| `Parser.Term` | src/com/android/calculator2/CalculatorExpr.java:723-758 | `evalTerm` consumes at least one token and is sound |
| `Parser.TermRest` | src/com/android/calculator2/CalculatorExpr.java:729-756 | the multiplication loop keeps soundness |
| `Parser.Expr` | src/com/android/calculator2/CalculatorExpr.java:760-788 | `evalExpr` consumes at least one token and is sound |
| `Parser.ExprRest` | src/com/android/calculator2/CalculatorExpr.java:766-787 | the addition loop keeps soundness |
| `Parser.Evaluate` | src/com/android/calculator2/CalculatorExpr.java:805-816 | the error of `evalExpr` is passed on; otherwise the result is null exactly when a token is left over, and a produced result consumed every token and is sound |
| `Parser.StepProductSplit` | src/com/android/calculator2/CalculatorExpr.java:605-610 | the divide-and-conquer split of `genFactorial` multiplies out to the same product |
| `Parser.StepProductFact` | src/com/android/calculator2/CalculatorExpr.java:605-620 | the step-1 product is n! |
| `Parser.GenFactorial` | src/com/android/calculator2/CalculatorExpr.java:605-620 | `genFactorial(n, step)` is n(n-step)(n-2step)..., and n! for step 1 and n >= 1 |
| `Parser.EvalUnary` | src/com/android/calculator2/CalculatorExpr.java:517-603 | the method computes what Unary specifies |
| `Parser.EvalFactorial` | src/com/android/calculator2/CalculatorExpr.java:637-658 | the `!` loop computes what Factorial specifies |
| `Parser.EvalFactor` | src/com/android/calculator2/CalculatorExpr.java:660-693 | computes what Factor specifies |
| `Parser.EvalSignedFactor` | src/com/android/calculator2/CalculatorExpr.java:695-706 | computes what SignedFactor specifies |
| `Parser.EvalTerm` | src/com/android/calculator2/CalculatorExpr.java:723-758 | the multiplication loop computes what Term specifies |
| `Parser.EvalExpr` | src/com/android/calculator2/CalculatorExpr.java:760-788 | the addition loop computes what Expr specifies |
| `Parser.EvaluateTokens` | src/com/android/calculator2/CalculatorExpr.java:805-816 | computes what Evaluate specifies |
| `Parser.LiteralFactor` | src/com/android/calculator2/CalculatorExpr.java:695-706 | an integer literal not followed by `!` or `^` is an exact signed factor |
| `Parser.TwoPlusTwo` | src/com/android/calculator2/CalculatorExpr.java:760-788 | 2 + 2 evaluates exactly to 4 |
| `Parser.DivisionGroupsRight` | src/com/android/calculator2/CalculatorExpr.java:735 | 6 / 2 x 3 is 1: the right operand of `/` is the whole term |
| `Parser.ImplicitProductTerm` | src/com/android/calculator2/CalculatorExpr.java:708-721 | the term 2(3) multiplies implicitly |
| `Parser.ImplicitMultiplication` | src/com/android/calculator2/CalculatorExpr.java:723-735 | 2(3) evaluates to 6 |
| `Parser.MissingParenthesis` | src/com/android/calculator2/CalculatorExpr.java:542-545 | (2 evaluates to 2 |
| `Parser.ZeroFactorial` | src/com/android/calculator2/CalculatorExpr.java:649-651 | 0! is an arithmetic error |
| `Parser.NegativeDivisor` | src/com/android/calculator2/CalculatorExpr.java:737-738 | 6 / -2 is an arithmetic error |
| `Parser.DivisionByZero` | src/com/android/calculator2/CalculatorExpr.java:737-738 | 5 / 0 is an arithmetic error |
| `Parser.UnusedToken` | src/com/android/calculator2/CalculatorExpr.java:811 | 2) leaves a token unused, and `eval` answers null |
| `Parser.EmptyExpression` | src/com/android/calculator2/CalculatorExpr.java:813-814 | running off the end is a syntax error |
| `Parser.LonePoint` | src/com/android/calculator2/CalculatorExpr.java:525 | a lone `.` is NumberFormatError |
| `Expressions.NewConstant` | src/com/android/calculator2/CalculatorExpr.java:343-364 | a new constant holds just the typed digit or point |
| `Expressions.BinaryOnEmpty` | src/com/android/calculator2/CalculatorExpr.java:337 | a binary operator on an empty list is refused unless it is `-` |
| `Expressions.BinaryAfterBinary` | src/com/android/calculator2/CalculatorExpr.java:338-341 | after a trailing binary operator only `-` is accepted, and only after an operator other than `-` |
| `Expressions.NoDigitAfterOperand` | src/com/android/calculator2/CalculatorExpr.java:348-359 | a digit or point after e, pi, `!`, `)` or a pre-evaluated token is refused |
| `Expressions.SecondDecimalPoint` | src/com/android/calculator2/CalculatorExpr.java:109-110 | a second point in the trailing constant is refused |
| `Expressions.DigitExtendsConstant` | src/com/android/calculator2/CalculatorExpr.java:347-364 | a digit extends the trailing constant in place |
| `Expressions.AddWellFormed` | src/com/android/calculator2/CalculatorExpr.java:333-370 | accepted key presses keep every constant well formed and nonempty |
| `Expressions.DeleteWellFormed` | src/com/android/calculator2/CalculatorExpr.java:384-394 | `delete` keeps every constant well formed and nonempty |
| `Expressions.DeleteUndoesAdd` | src/com/android/calculator2/CalculatorExpr.java:384-394 | `delete` undoes an accepted `add` |
| `Expressions.LonePointReachable` | src/com/android/calculator2/CalculatorExpr.java:342-364 | typing `.` into an empty expression is accepted, and the result evaluates to NumberFormatError |
| `Expressions.Values` | src/com/android/calculator2/CalculatorExpr.java:38-40 | the values a token list holds, position by position |
| `Expressions.ObjectsConcat` | src/com/android/calculator2/CalculatorExpr.java:376-382 | the constant objects of a concatenation, and when it stays free of repeats |
| `Expressions.Constant.constructor` | src/com/android/calculator2/CalculatorExpr.java:84-88 | a new constant is empty |
| `Expressions.Constant.Add` | src/com/android/calculator2/CalculatorExpr.java:108-121 | refuses only a second point, and then changes nothing; otherwise the ConstAdd state |
| `Expressions.Constant.Delete` | src/com/android/calculator2/CalculatorExpr.java:125-133 | the ConstDelete state |
| `Expressions.Constant.Clone` | src/com/android/calculator2/CalculatorExpr.java:164-170 | a fresh object with the same state |
| `Expressions.CalculatorExpr.constructor` | src/com/android/calculator2/CalculatorExpr.java:297-299 | an empty list |
| `Expressions.CalculatorExpr.Add` | src/com/android/calculator2/CalculatorExpr.java:333-370 | true and the AddSpec list, or false and the list unchanged |
| `Expressions.CalculatorExpr.PushConstant` | src/com/android/calculator2/CalculatorExpr.java:344-361 | appends a new constant holding the key |
| `Expressions.CalculatorExpr.ExtendLast` | src/com/android/calculator2/CalculatorExpr.java:364 | `Constant.add` on the trailing constant |
| `Expressions.CalculatorExpr.Delete` | src/com/android/calculator2/CalculatorExpr.java:384-394 | the DeleteSpec list |
| `Expressions.CalculatorExpr.Append` | src/com/android/calculator2/CalculatorExpr.java:376-382 | the other expression's tokens follow ours |
| `Expressions.CalculatorExpr.Clear` | src/com/android/calculator2/CalculatorExpr.java:396-398 | an empty list |
| `Expressions.CalculatorExpr.Clone` | src/com/android/calculator2/CalculatorExpr.java:407-418 | a fresh expression with the same contents and fresh constants |
| `Expressions.CalculatorExpr.Eval` | src/com/android/calculator2/CalculatorExpr.java:805-816 | the evaluation of the current contents |
| `Persistence.NewIndex` | src/com/android/calculator2/CalculatorExpr.java:236-240 | a value met for the first time takes the next index, and indices stay 1..n, one per value |
| `Persistence.TokenOutputIndices` | src/com/android/calculator2/CalculatorExpr.java:233-248 | writing a token keeps the index invariant and never changes an index already given |
| `Persistence.ExprOutputIndices` | src/com/android/calculator2/CalculatorExpr.java:313-319 | writing an expression keeps the index invariant and existing indices |
| `Persistence.TokensOutputIndices` | src/com/android/calculator2/CalculatorExpr.java:313-319 | writing a token list keeps the index invariant and existing indices |
| `Persistence.RepeatIsIndex` | src/com/android/calculator2/CalculatorExpr.java:244-247 | a value already written is written again as only its kind and index |
| `Persistence.Writer.constructor` | src/com/android/calculator2/CalculatorExpr.java:184-187 | an empty map and index 0 |
| `Persistence.Writer.WriteToken` | src/com/android/calculator2/CalculatorExpr.java:233-248 | appends what TokenOutput gives |
| `Persistence.Writer.WriteExpr` | src/com/android/calculator2/CalculatorExpr.java:313-319 | appends the size and then each token |
| `Evaluation.FirstSignificant` | src/com/android/calculator2/Evaluator.java:498-504 | the first character at or after `from` that is not `-`, `.` or `0` |
| `Evaluation.MsdPos` | src/com/android/calculator2/Evaluator.java:495-513 | the first significant position, or INVALID_MSD exactly when there is none or it is a final lone `1` |
| `Evaluation.GetMsdPos` | src/com/android/calculator2/Evaluator.java:495-513 | the scanning loop computes MsdPos |
| `Evaluation.ZeroRun` | src/com/android/calculator2/Evaluator.java:552-557 | the length of the leading run of `0` |
| `Evaluation.LeadingZeroes` | src/com/android/calculator2/Evaluator.java:552-557 | the loop computes ZeroRun |
| `Evaluation.Padding` | src/com/android/calculator2/Evaluator.java:540-549 | n placeholder characters (none for n <= 0) |
| `Evaluation.GetPadding` | src/com/android/calculator2/Evaluator.java:540-549 | the loop computes Padding |
| `Evaluation.PreferredPrec` | src/com/android/calculator2/Evaluator.java:445-463 | -1 for an integer that fits, lastDigit for a terminating value that fits, otherwise min(msd, 100) - wholeSize + lineLength - 2 |
| `Evaluation.ShortDigits` | src/com/android/calculator2/Evaluator.java:475-480 | a 4- or 5-character prefix of the cache, 5 exactly when the 4th character is the point |
| `Evaluation.ShortString` | src/com/android/calculator2/Evaluator.java:468-491 | a small exact integer in full; otherwise the first four characters of the cache, or five when the fourth is the point, translated, then the ellipsis |
| `Evaluation.ShortIntegerReadsBack` | src/com/android/calculator2/Evaluator.java:473-474 | the short form of a small exact integer parses back to it |
| `Evaluation.WindowOf` | src/com/android/calculator2/Evaluator.java:589-614 | digs is clamped; the window plus placeholders fits maxDigs; leading digits are dropped iff they would not fit |
| `Evaluation.WindowNeverEmpty` | src/com/android/calculator2/Evaluator.java:603-604 | the window of a well-formed cache is never empty, so the blank answer does not occur |
| `Evaluation.WindowText` | src/com/android/calculator2/Evaluator.java:614-619 | the cached characters of the window, then the placeholders |
| `Evaluation.Scientific` | src/com/android/calculator2/Evaluator.java:633-657 | with the leading digit in the window, the text is the sign, that digit, a point, then the window's characters after the leading digit less the last one (or two with a sign), and the exponent grows by the digits moved past |
| `Evaluation.WithExponent` | src/com/android/calculator2/Evaluator.java:658-685 | no exponent when it is zero and nothing was dropped; otherwise a prefix of the text, `e` and the exponent, which grows by exactly the number of characters cut when the text has no point; nothing is cut when text, `e` and exponent fit in `maxDigs` |
| `Evaluation.Format` | src/com/android/calculator2/Evaluator.java:577-692 | the specification of `getString` for a non-null cache; an empty string has no result (its length bound is FormatFits) |
| `Evaluation.FormatFits` | src/com/android/calculator2/Evaluator.java:566 | for a well-formed cache and a one-character ellipsis, the result is no longer than `maxDigs` |
| `Evaluation.WithExponentFits` | src/com/android/calculator2/Evaluator.java:658-685 | when the text fits in `maxDigs` or has a point, the text with its exponent still fits: the one extra exponent digit a cut may cause is paid for by one more cut |
| `Evaluation.Decorate` | src/com/android/calculator2/Evaluator.java:687-690 | the ellipsis replaces the first character exactly when digits were dropped |
| `Evaluation.ExponentOnlyWhenNeeded` | src/com/android/calculator2/Evaluator.java:622-685 | an `e` appears only when the window has no point, digs != 1, and the exponent is nonzero or digits were dropped |
| `Evaluation.WholePart` | src/com/android/calculator2/Evaluator.java:391-392 | the text before the decimal point |
| `Evaluation.EnsureCachePrecSpec` | src/com/android/calculator2/Evaluator.java:425-436 | a no-op when prec digits are cached or requested; otherwise one reevaluation for prec + 20; afterwards prec digits are cached or requested |
| `Evaluation.Cleared` | src/com/android/calculator2/Evaluator.java:699-703 | no cache, digit counts 0, msd unknown; value, exact value, last digits and tasks unchanged |
| `Evaluation.Cancelled` | src/com/android/calculator2/Evaluator.java:739-760 | no task runs; a cancelled reevaluation resets the request; true iff an initial evaluation was cancelled |
| `Evaluation.Started` | src/com/android/calculator2/Evaluator.java:711-717 | unless one runs (then nothing changes), clears the cache (digit counts 0, msd unknown) and starts an initial evaluation, leaving the rest of the state as it was |
| `Evaluation.Required` | src/com/android/calculator2/Evaluator.java:721-736 | with no cache: cancels every task (a cancelled reevaluation's request drops back to the cached digits), starts a required evaluation and changes nothing else; otherwise reports the last digits shown and the whole part of the cache, changing nothing |
| `Evaluation.Reevaluated` | src/com/android/calculator2/Evaluator.java:216-230 | never lowers cacheDigs: a result with fewer digits is fatal and changes nothing; otherwise the cache is replaced |
| `Evaluation.DisplayResult` | src/com/android/calculator2/Evaluator.java:343-377 | maps each error to its message; a failing `CR.toString` is error_nan and a value yields a result whenever `CR.toString` never fails; a result's cache has at least 20 digits beyond the preferred precision computed from the probing approximation |
| `Evaluation.Displayed` | src/com/android/calculator2/Evaluator.java:379-411 | ends the initial evaluation; a value fills the cache and is reported with the smaller of the proposed precision and the one `getPreferredPrec` gives for the current line length |
| `Evaluation.MsdOf` | src/com/android/calculator2/Evaluator.java:519-538 | the known msd; else none for an exact zero; else the cache's msd, none without a cache |
| `Evaluation.AfterGetMsd` | src/com/android/calculator2/Evaluator.java:528-535 | asks for 100 digits exactly when the msd is unknown, the value is not exactly zero, no task runs and fewer digits are cached; otherwise changes nothing |
| `Evaluation.ScientificForm` | src/com/android/calculator2/Evaluator.java:636-657 | computes what Scientific specifies |
| `Evaluation.AppendExponent` | src/com/android/calculator2/Evaluator.java:658-685 | computes what WithExponent specifies |
| `Evaluation.GetWindow` | src/com/android/calculator2/Evaluator.java:589-612 | computes what WindowOf specifies |
| `Evaluation.WindowStage` | src/com/android/calculator2/Evaluator.java:589-619 | the blank answer for an empty window, otherwise WindowText |
| `Evaluation.FormatTail` | src/com/android/calculator2/Evaluator.java:620-691 | without an exponent block, the window as it is, or with the ellipsis over its first character when leading digits were dropped; a zero exponent with nothing dropped and no leading digit in view adds nothing |
| `Evaluation.FinishString` | src/com/android/calculator2/Evaluator.java:620-691 | computes what FormatTail specifies |
| `Evaluation.InitialResult` | src/com/android/calculator2/Evaluator.java:343-377 | computes what DisplayResult specifies |
| `Evaluation.StaleReevaluationIsFatal` | src/com/android/calculator2/Evaluator.java:711-717 | a reevaluation left running across `evaluateAndShowResult` fails fatally when it completes after a more precise initial result is in the cache (that completion order is assumed) |
| `Evaluation.Evaluator.constructor` | src/com/android/calculator2/Evaluator.java:174-183 | an empty expression in radian mode and no cache |
| `Evaluation.Evaluator.EnsureCachePrec` | src/com/android/calculator2/Evaluator.java:425-436 | the EnsureCachePrecSpec state |
| `Evaluation.Evaluator.ClearCache` | src/com/android/calculator2/Evaluator.java:699-703 | the Cleared state |
| `Evaluation.Evaluator.Clear` | src/com/android/calculator2/Evaluator.java:705-709 | the expression emptied and the cache cleared |
| `Evaluation.Evaluator.EvaluateAndShowResult` | src/com/android/calculator2/Evaluator.java:711-717 | the Started state |
| `Evaluation.Evaluator.CancelAll` | src/com/android/calculator2/Evaluator.java:739-760 | the Cancelled state; a cancelled initial evaluation leaves a fresh copy of the expression |
| `Evaluation.Evaluator.RequireResult` | src/com/android/calculator2/Evaluator.java:721-736 | the Required state and notice |
| `Evaluation.Evaluator.ReevaluationDone` | src/com/android/calculator2/Evaluator.java:216-230 | the Reevaluated state and notice |
| `Evaluation.Evaluator.ComputeInitialResult` | src/com/android/calculator2/Evaluator.java:343-377 | DisplayResult of evaluating the current expression |
| `Evaluation.EvaluatedNotice` | src/com/android/calculator2/Evaluator.java:391-410 | the notice Displayed specifies: `onEvaluate` with the smaller of the initial and the preferred precision, and the digits before the point |
| `Evaluation.Evaluator.DisplayDone` | src/com/android/calculator2/Evaluator.java:379-411 | the Displayed state and notice |
| `Evaluation.Evaluator.GetMsd` | src/com/android/calculator2/Evaluator.java:519-538 | MsdOf and the AfterGetMsd state |
| `Evaluation.Evaluator.GetString` | src/com/android/calculator2/Evaluator.java:577-692 | one placeholder for a null cache, otherwise Format of the cache; the AfterGetString state |
| `Evaluation.Evaluator.ShowCache` | src/com/android/calculator2/Evaluator.java:587-691 | Format of the cache with the msd getMsd reports |
| `History.FlagsFromDegreeAndTimeout` | src/com/android/calculator2/ExpressionDB.java:54-56 | the unpacking functions give back both booleans, and no other bit is set |
| `History.FlagsFromUnpacked` | src/com/android/calculator2/ExpressionDB.java:54-62 | flags using only the two bits are repacked unchanged |
| `History.NewRowData` | src/com/android/calculator2/ExpressionDB.java:74-82 | `degreeMode()` and `longTimeout()` return the booleans the row was built with |
| `History.InitialBounds` | src/com/android/calculator2/ExpressionDB.java:195-215 | min(dbMin, -10) or -10, and max(dbMax, 0) or 0; the bounds cover every row |
| `History.Allocate` | src/com/android/calculator2/ExpressionDB.java:307-318 | one below the minimum or one above the maximum; the new index is no existing row, and a negative one is below -10 |
| `History.AllocationsDistinct` | src/com/android/calculator2/ExpressionDB.java:302-306 | two successive allocations give distinct new indices |
| `History.ExpressionDB.constructor` | src/com/android/calculator2/ExpressionDB.java:161-165 | bounds not yet valid |
| `History.ExpressionDB.Initialize` | src/com/android/calculator2/ExpressionDB.java:195-215 | the InitialBounds, now valid, covering every row |
| `History.ExpressionDB.EraseAll` | src/com/android/calculator2/ExpressionDB.java:284-299 | an empty table and bounds -10 and 0 |
| `History.ExpressionDB.AddRow` | src/com/android/calculator2/ExpressionDB.java:307-326 | the Allocate bounds; the new row on success; Err exactly when the insert reports another id |

## Left out

- Constructive reals and `BoundedRational`: these come from libraries that
  are not part of this model. Values are uninterpreted terms, and
  `CR.toString(prec)` and `CR.BigIntegerValue` are oracle parameters. The
  exact value is an optional integer, so `digitsRequired` is 0 or
  Integer.MAX_VALUE.
- `PrecisionOverflowError` and `AbortedError` are not modelled: the term
  model never raises them. The `error_overflow` and `error_aborted` messages
  are kept as error kinds only.
- Threads, cancellation and timeouts: tasks run to completion when their
  handler methods are called. The timeout runnables, `onCancelled` and the
  database lock are not modelled.
- SQL: the table is its set of row ids. The min/max queries and the insert's
  answer are arguments. `toContentValues` and its clock are not modelled.
- Reading saved state (`CalculatorExpr(DataInput)`, `PreEval(DataInput)`,
  `newToken`) is not modelled, so there is no write/read round trip. Output
  is a list of DataOutput calls.
- `abbreviate`, `isConstant`, `collapse`, `toString(Context)`,
  `KeyMaps.toString`, `validateMaps` and `addButtonTo*Map`: button labels
  and locales are parameters (the function-name map, the result-character
  map, the decimal separator and the pi glyph).
- `Character.isDigit` is limited to ASCII digits.
- Evaluation.Evaluator.GetString: a `StringIndexOutOfBoundsException` in
  `substring` is the result None; for a well-formed cache its possibility is
  not ruled out in general.
- Evaluation.Evaluator.GetMsd: `mMsd` is only ever set to INVALID_MSD, so a
  known msd is never reused.
- Evaluation.DisplayResult: `res.mRatVal` of the evaluator and `mIntVal` of
  the expression are joined through the optional exact integer.
- Evaluation.ShortString: `i.toString()` is the decimal text without Java's
  32-bit int limits. `Integer.toString(exp)` is likewise unbounded in
  WithExponent.
- Parser.DivStep: `ival.mod(...) == BigInteger.ZERO` compares references in
  Java; the model compares values.
- Expressions.CalculatorExpr.Append: requires the two expressions to share
  no `Constant` object. The source shares the appended tokens.
- Evaluation.Evaluator.ReevaluationDone: requires the oracle's string to be
  a well-formed approximation at the requested precision.
- History.ExpressionDB.AddRow: waiting for the bounds is the precondition
  that they are known. Java's `long` overflow of the indices is not
  modelled.
- Widgets, layouts, history views, `Calculator.java`, capture/URIs and
  `EvaluatorStateUtils.java` are not part of this model.
