# C# brain teasers: the execution-analysis harness, in Dafny

This project models the core of a small C# repository of programming puzzles. Its centre is
`Lab.Run`, a helper that takes a lambda built around a single method call. It prints a
framed report of that call to the console:

- the banner;
- the call as a signature line, `Class.Method(Type name = value, ...)`, with the argument
  values read off the lambda's expression tree;
- the executing marker;
- either the success block (elapsed time and the formatted result, or `void` for an
  `Action`) or the failure block (exception message and type, inner exception, the first
  three stack-trace lines);
- the closing banner.

`Run<T>` returns the result, or `default(T)` when the call threw.

The repository also ships two example teasers, modelled here:

- `FibonacciSequence` prints the first ten Fibonacci numbers through a naive recursive
  `Fibonacci`.
- `PrimeChecker` prints whether seven fixed numbers are prime, through trial division in
  `IsPrime`.

The model also covers the three-line `NothingToSeeHere.ParseParts`, which rejects a null
or empty input and otherwise splits it on `;`.

Modules:

- `Wrappers`: `Option`, `Result`.
- `Text`: `string.Join`, `string.Split(char)`, `string.Trim()` and `int.ToString()` for
  non-negative numbers, as functions with their laws (split/join round trips, what trimming
  keeps, the decimal round trip).
- `Values`: the runtime values the harness inspects in place of reflection (null, string,
  char, array, other collection, other object), each with its `ToString()` text and type
  name.
- `Formatter`: `FormatResult` and `FormatMethodSignature`. Each is a method with the
  source's loop, proved against a specification function.
- `Extractor`: `ExtractMethodInfo` / `ExtractMethodInfoFromAction` and `EvaluateExpression`,
  over an abstract call shape.
- `Lab`: the report of `Run<T>` and `Run(Action)` as a sequence of console lines, the catch
  block and the stack-trace loop, with lemmas on the report's shape.
- `LabScenarios`: the calls of the repository's own `Lab` tests, replayed on the model.
- `ExampleTeasers`: 32-bit `int` arithmetic made explicit (`Wrap32`), `Fibonacci`,
  `IsPrime` as written and corrected, and the two demonstrations.
- `NothingToSeeHere`: `ParseParts`.

The console is modelled as the list of lines written. `Console.Write` pieces are joined
into their line. The wall clock is a parameter: the elapsed time arrives as its formatted
text. What the compiled lambda does when invoked (return a value, complete, or throw a
given exception) is also a parameter, an `Outcome`.

## Model

| member | source | states |
|---|---|---|
| Lab.Run | src/Lab.cs:7-63 | The report is the banner, the signature of the extracted call, a blank line, the executing marker, the outcome's block and the closing block. The value returned is the call's own value, or the given default when it threw. |
| Lab.RunAction | src/Lab.cs:65-117 | The same report for an `Action`, with `📋 Result: void` in place of the value line. |
| Lab.CatchBlock | src/Lab.cs:38-54 | The catch block writes the failure marker, the exception line, the inner-exception line when there is one, the trace header and the printed trace lines. |
| Lab.PrintStackTrace | src/Lab.cs:49-53 | The index loop prints exactly the first min(3, n) segments of the trace split on `'\n'`, each trimmed after a three-space indent, and nothing for a null trace. |
| Lab.StackTraceShown | src/Lab.cs:49-53 | At most three trace lines. None without a trace. With a trace, min(3, number of `'\n'` + 1) of them, so at least one. Line i is segment i trimmed, after the indent, trimmed at both ends and free of line breaks. |
| Lab.TraceLineShown | src/Lab.cs:52 | A printed trace line starts with the three-space indent, continues with the trimmed segment, and contains no line break. |
| Lab.ReportFrame | src/Lab.cs:14-62 | Every report, success or failure, opens with the banner, the signature line, a blank line and the executing marker. It ends with the closing banner between two blank lines, because the `finally` block always runs. |
| Lab.ReportOnSuccess | src/Lab.cs:26-34 | A call that did not throw gives an 11-line report: blank line, success marker, elapsed line, then the value formatted with the declared type name (`Func<T>`) or exactly `📋 Result: void` (`Action`). |
| Lab.FaultLinesShown | src/Lab.cs:40-53 | The catch block's length is 2 (or 3 with an inner exception) + 1 + the trace lines. The inner-exception line appears exactly when there is an inner exception, and the trace lines come last. |
| Lab.ReportOnFailure | src/Lab.cs:38-62 | On a throw, the catch block sits from line 4 on, the trace header at line 6 or 7, at most three trace lines after it, and the closing block at the end. |
| Formatter.FormatResult | src/Lab.cs:201-232 | The loops build exactly `ResultText`. Null is `null`, a string is itself, a char its one-character text, any other value its `ToString()` or `null`. |
| Formatter.ElementTexts | src/Lab.cs:209-212 | The specification the array loop is proved against: one text per element, in enumeration order, a null element or null `ToString()` becoming `null`. |
| Formatter.CollectionShown | src/Lab.cs:216-229 | A collection of at most ten elements shows all of them and nothing else. A longer one shows exactly its first eleven elements, then one `...`. Never more than twelve entries. |
| Formatter.CollectionReadsOnlyEleven | src/Lab.cs:219-226 | Two collections that agree on their first eleven elements (or are equal and short) are shown identically: the loop stops reading after the eleventh. |
| Formatter.ArrayShown | src/Lab.cs:206-214 | An array shows every element in order, then ` (Length: n)`, where n's decimal text reads back as the element count. |
| Formatter.StringShownAsItself | src/Lab.cs:216 | A string is shown as itself, never as a collection of characters. |
| Formatter.SignatureEntries | src/Lab.cs:176-196 | The specification the signature loop is proved against: one entry per argument, in argument order, entry i being `Type name = value` for argument i. |
| Formatter.FormatMethodSignature | src/Lab.cs:169-199 | The loop builds exactly `SignatureText`. No arguments gives `Class.Method()`. |
| Formatter.SignatureEntriesLocal | src/Lab.cs:177-195 | Replacing one argument changes that argument's entry only. |
| Formatter.FallbackName | src/Lab.cs:183-185 | A parameter without a given name is shown as `param` followed by its one-based position in decimal. |
| Extractor.ExtractMethodInfo | src/Lab.cs:119-151 | For a method call: the declaring type's name or `Unknown`, the method's name, one parameter name per declared parameter (`param` for a null name), and one argument per argument expression. A constant gives its value, an evaluable expression its value, a throwing one the string `?`. For anything else: `Unknown`, `Unknown`, nothing, nothing. |
| Extractor.EvaluateExpression | src/Lab.cs:153-166 | A constant expression gives its value, any other expression the value it evaluates to, and one whose evaluation throws the string `?`. It never fails itself. |
| Extractor.FailureLooksLikeQuestionMark | src/Lab.cs:163-166 | An argument whose evaluation throws is shown exactly like the constant string `?`, or an expression evaluating to it. |
| Extractor.ArgumentsEvaluatedIndependently | src/Lab.cs:128 | Changing one argument expression changes that argument's value only, so a failing argument does not disturb the others. |
| Text.JoinShape | src/Lab.cs:198 | How `Join` models `string.Join` (also src/Lab.cs:213 and 228): no parts give the empty string, one part is itself, and each further part comes after one more separator. With `Split`, `Join` is the inverse shown by `JoinSplit` and `SplitJoin`. |
| Text.Split | src/Lab.cs:49 | `Split(c)` gives one more segment than there are occurrences of `c`, none containing `c`. |
| Text.JoinSplit | src/BrainTeasers/NothingToSeeHere.cs:11 | Joining the segments with the separator gives back the split string. |
| Text.SplitJoin | src/BrainTeasers/NothingToSeeHere.cs:11 | Splitting the join of at least one separator-free part gives back the parts. |
| Text.ContentStart | src/Lab.cs:52 | The first non-white-space index at or after the start, with only white space before it. |
| Text.ContentEnd | src/Lab.cs:52 | The end of the content: only white space from it to the end, and no white space just before it. |
| Text.Trim | src/Lab.cs:52 | The trimmed text has no white space at either end. |
| Text.TrimIsSlice | src/Lab.cs:52 | `Trim` keeps one contiguous slice and drops only white space before and after it. |
| Text.TrimOfTrimmed | src/Lab.cs:52 | A string without white space at its ends is its own trim, so trimming is idempotent. |
| Text.NatToString | src/Lab.cs:213 | Decimal digits only. One digit exactly below ten. A leading zero exactly for zero. |
| Text.ParseNatToString | src/Lab.cs:213 | The decimal text of n reads back as n. |
| NothingToSeeHere.ParseParts | src/BrainTeasers/NothingToSeeHere.cs:5-13 | Null input throws `ArgumentNullException("input")`, and only null does. Empty input throws `ArgumentException("Input cannot be empty", "input")`, and only empty does. Any other input gives one more part than it has `;`, no part containing `;`, and the parts joined with `;` are the input. |
| NothingToSeeHere.ParsePartsOfJoin | src/BrainTeasers/NothingToSeeHere.cs:5-13 | Parts without `;` (other than a single empty part) survive joining with `;` and parsing back. |
| NothingToSeeHere.EmptySegmentsKept | src/BrainTeasers/NothingToSeeHere.cs:11 | Empty segments are kept: `;` parses to two empty parts. |
| ExampleTeasers.Wrap32 | src/BrainTeasers/ExampleTeasers.cs:24 | The wrapped result of an unchecked `int` operation is always an `int`, and equals the exact result when that fits. |
| ExampleTeasers.Wrap32Congruent | src/BrainTeasers/ExampleTeasers.cs:24 | The wrapped result differs from the exact one by a multiple of 2^32, and is the only `int` that does. |
| ExampleTeasers.IntTextReadsBack | src/BrainTeasers/ExampleTeasers.cs:14 | `IntText` models `int.ToString()` (also line 36): a leading `-` exactly for negative numbers, then decimal digits that read back as the absolute value. |
| ExampleTeasers.Fibonacci | src/BrainTeasers/ExampleTeasers.cs:21-25 | The result is always an `int`, because the sum wraps around. |
| ExampleTeasers.FibonacciBase | src/BrainTeasers/ExampleTeasers.cs:23 | Every n ≤ 1, negative ones included, gives n itself. |
| ExampleTeasers.FibonacciExact | src/BrainTeasers/ExampleTeasers.cs:21-25 | For 0 ≤ n ≤ 46 the 32-bit function gives the exact Fibonacci number, computed independently by iteration over pairs. |
| ExampleTeasers.FibonacciPairAgrees | src/BrainTeasers/ExampleTeasers.cs:21-25 | For n < 46 the iterated pair at n holds exactly the recursive function's values at n and n + 1, and from n = 1 on the value at n + 1 is the plain sum of the two before it. |
| ExampleTeasers.FibonacciIsIterated | src/BrainTeasers/ExampleTeasers.cs:24 | For 2 ≤ n ≤ 46 the sum never wraps: the result is the plain sum of the two preceding values. |
| ExampleTeasers.FibonacciWrapsAt47 | src/BrainTeasers/ExampleTeasers.cs:24 | At 47 the exact number exceeds `int.MaxValue`, and the function returns it less 2^32, a negative number. |
| ExampleTeasers.FibonacciMonotone | src/BrainTeasers/ExampleTeasers.cs:21-25 | On 0..46 the values are non-negative and never decrease. |
| ExampleTeasers.FibonacciFirstTen | src/BrainTeasers/ExampleTeasers.cs:12-15 | The ten values the demonstration prints are 0, 1, 1, 2, 3, 5, 8, 13, 21, 34. |
| ExampleTeasers.NumbersLinePrefix | src/BrainTeasers/ExampleTeasers.cs:14 | Each `Write` extends the line by the number's text and one space. |
| ExampleTeasers.FibonacciSequence | src/BrainTeasers/ExampleTeasers.cs:5-19 | The output is the title, `First 10 Fibonacci numbers:`, the line of the first ten Fibonacci numbers each followed by a space, and a blank line. |
| ExampleTeasers.CountLineShown | src/BrainTeasers/ExampleTeasers.cs:9-10 | The count interpolated into the second line is written `10`. |
| ExampleTeasers.IsPrime | src/BrainTeasers/ExampleTeasers.cs:42-54 | Corrected version, with the guard's square exact: true exactly for primes, for every `int`. False below 2 and for even numbers above 2, true for 2. |
| ExampleTeasers.IsPrimeAsWritten | src/BrainTeasers/ExampleTeasers.cs:42-54 | As written, with 32-bit `i * i`: a true result is always a prime. False below 2 and for even numbers above 2, true for 2. Exactly right below 2147377049, because the wrapped squares come back into range and stop the loop for every prime there. False for 2147483647. |
| ExampleTeasers.WrapStopSquare | src/BrainTeasers/ExampleTeasers.cs:48 | The wrapped square of the candidate 103621 is 2147377049, back in range above 46339². So for a prime below it the guard fails by that candidate at the latest. |
| ExampleTeasers.GuardWrapsAround | src/BrainTeasers/ExampleTeasers.cs:48 | For the odd candidate 46341, `i * i` exceeds `int.MaxValue` and wraps to exactly 46341² − 2^32, a negative value, which passes the guard for every non-negative number. |
| ExampleTeasers.PrimeTestVerdicts | src/BrainTeasers/ExampleTeasers.cs:31 | Of 2, 3, 4, 17, 25, 29 and 100, exactly 2, 3, 17 and 29 are prime. |
| ExampleTeasers.PrimeChecker | src/BrainTeasers/ExampleTeasers.cs:27-40 | Nine lines: the title, one `<n> is prime` / `<n> is not prime` line per test number in order, and a blank line. Each verdict comes from the as-written `IsPrime` and is the true one. |
| ExampleTeasers.VerdictLinesShown | src/BrainTeasers/ExampleTeasers.cs:36 | The verdict lines read, for example, `2 is prime`, `4 is not prime`, `17 is prime`. |
| LabScenarios.VoidMethodLines | test/LabTests.cs:34-41 | `TestVoidMethod(5, "test")` shows `LabTests.TestVoidMethod(Int32 number = 5, String text = "test")`, the success marker and `📋 Result: void`. |
| LabScenarios.AddNumbersReport | test/LabTests.cs:51-59 | `TestAddNumbers(10, 20)` returning 30 gives exactly the eleven-line report, with `📋 Result: 30(Int32)`. |
| LabScenarios.StringConcatSignature | test/LabTests.cs:68-73 | String arguments are shown double-quoted in the signature. |
| LabScenarios.CreateArrayResult | test/LabTests.cs:83-89 | The array 1, 2, 3 is shown as `[1, 2, 3] (Length: 3)`, and the result line is `📋 Result: [1, 2, 3] (Length: 3)(Int32[])`. |
| LabScenarios.CreateListResult | test/LabTests.cs:98-104 | The list a, b, c is shown as `[a, b, c]`, and the result line is ``📋 Result: [a, b, c](List`1)``. |
| LabScenarios.ReturnNullLines | test/LabTests.cs:113-119 | A call without arguments is `LabTests.TestReturnNull()`. A null result is `📋 Result: null(String)`. |
| LabScenarios.ThrowExceptionSignature | test/LabTests.cs:128-133 | The signature of `TestThrowException("Test error")`. |
| LabScenarios.ThrowExceptionLines | test/LabTests.cs:128-137 | A thrown `ArgumentException("Test error")` gives the failure marker, `🚨 Exception: Test error (ArgumentException)` and the trace header. |
| LabScenarios.ComplexParametersEntries | test/LabTests.cs:146-151 | A char is shown single-quoted, a boolean as `True`, and a null argument with type `object` and value `null`. |
| LabScenarios.FailingArgumentShown | src/Lab.cs:153-166 | An argument whose evaluation throws is shown as `String x = "?"`, and an unnamed parameter as `param`. |

## Findings

| source | as written | input that shows it | evidently intended | confidence | as-written member | corrected member |
|---|---|---|---|---|---|---|
| src/BrainTeasers/ExampleTeasers.cs:48 | The loop guard `i * i <= number` is computed in unchecked 32-bit `int`. Once i reaches 46341, the square wraps to a negative value and the guard still holds, so the loop runs on past the square root. For primes below 2147377049 a later wrapped square comes back above the number and the answer is still right. For `int.MaxValue`, however, the guard can never fail, because every `int` is at most `int.MaxValue`. | `IsPrime(2147483647)` returns false, although 2^31 − 1 is a (Mersenne) prime. The model proves that the as-written loop returns false for this input; the primality of 2^31 − 1 is the known fact, not proved here. | The loop stops once i exceeds the square root, so every prime up to `int.MaxValue` is reported prime. | not executed | ExampleTeasers.IsPrimeAsWritten | ExampleTeasers.IsPrime |

`PrimeChecker` calls `IsPrime` as written, as the program does. Its seven test numbers
are all far below 2147377049, where that version is proved to decide primality, so its
output is unaffected by the defect.

## Left out

- Colours: the ANSI escape codes are dropped from every line. This includes the reset code
  that the exception line writes between the message and the type name.
- The clock: `DateTime.Now` and the `F2` formatting of the elapsed milliseconds are left
  out. The elapsed time arrives as its text.
- Reflection and expression compilation: `Expression.Compile`, `DynamicInvoke`, `GetType()`
  and the expression tree are out of scope. The call arrives as an abstract `CallExpr`,
  with each argument's evaluation result given. The callee's effect arrives as an
  `Outcome`.
- The callee's own console output is not modelled. It appears between the executing
  marker and the outcome's block, on success and on failure alike.
- Exceptions thrown inside the `try` by `ToString()` or `FormatResult` after the call
  returned are not modelled. The model lets only the call itself throw.
- `Run` evaluates argument expressions twice, once in the compiled lambda and once in
  `EvaluateExpression`. The model does not capture that side effects could make the two
  differ.
- `FormatMethodSignature` with a null `inputs` array: `Run` never passes one, because the
  extractor always builds an array. The model takes inputs as a sequence, so null is the
  same as empty.
- `Program.cs` is not part of this model. Its entry point prints a heading and calls
  `Lab.Run` on its own `ExampleDivideNumbers(10, 2)`; it calls neither teaser. The
  repository's tests appear only as the `LabScenarios` lemmas. They cover the checked
  substrings, not the NUnit console capture.
- Collection limit: the code shows eleven elements and then `...` (the `> 10` check runs
  after adding). The model follows the code, not a reading of "at most ten".
- ExampleTeasers.Fibonacci: neither its exponential running time nor its recursion depth
  is modelled. The C# recursion first goes about n frames deep. For large n (in the tens
  of thousands and beyond) the program dies with a `StackOverflowException`, which cannot
  be caught. The model gives a result for every `int`.
- ExampleTeasers.FibonacciSequence: proves that its number line is `NumbersLine` of the
  ten proved values, not the literal characters `0 1 1 2 3 5 8 13 21 34 `. Checking that
  literal text is too costly for the verifier.
- ExampleTeasers.IsPrimeAsWritten: its contract does not say what it answers for a
  prime between 2147377049 and `int.MaxValue`. It is proved wrong only for 2147483647.
  Every prime below 2147377049 is proved to be reported prime.
- `i += 2` in `IsPrime` could also overflow in principle. The model proves that i stays
  at most `number`, so it never does.
- `ParseParts`: it is `private` and has no caller in the repository. It is modelled on its
  own.
