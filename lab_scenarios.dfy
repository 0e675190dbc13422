/** The calls exercised by the repository's tests of `Lab`, replayed on the model: each lemma
    states the exact text the test expects to find in the output. */
module LabScenarios {
  import opened Wrappers
  import opened Text
  import opened Values
  import opened Formatter
  import opened Extractor
  import opened Lab

  function Int32(n: string): Value
  {
    Other("Int32", Some(n))
  }

  /** The signature line of a two-argument call, from its two entries. */
  lemma SignatureOfTwo(className: string, methodName: string, a: Value, b: Value,
                       names: Option<seq<string>>, first: string, second: string)
    requires SignatureEntry(a, names, 0) == first && SignatureEntry(b, names, 1) == second
    ensures SignatureText(className, methodName, [a, b], names)
            == className + "." + methodName + "(" + (first + ", " + second) + ")"
  {
    var entries := SignatureEntries([a, b], names);
    assert entries == [first, second];
    assert entries[1..] == [second];
    assert Join(", ", entries) == first + ", " + second;
  }

  /** `TestVoidMethod(5, "test")` through the `Action` entry point: its signature line, and
      `📋 Result: void` as the result line. */
  lemma VoidMethodLines(elapsed: string)
    ensures var call := MethodCall(Some("LabTests"), "TestVoidMethod", [Some("number"), Some("text")],
                                   [Const(Int32("5")), Const(Str("test"))]);
            var r := Report(ExtractMethodInfo(call), Completed, elapsed, "");
            && r[1] == "LabTests" + "." + "TestVoidMethod" + "("
                       + (("Int32" + " " + "number" + " = " + "5") + ", " + ("String" + " " + "text" + " = " + ("\"" + "test" + "\""))) + ")"
            && r[5] == "✅ Execution completed successfully!"
            && r[7] == "📋 Result: void"
  {
    var d := VoidMethodDescriptor();
    ReportOnSuccess(d, Completed, elapsed, "");
    ReportFrame(d, Completed, elapsed, "");
  }

  lemma VoidMethodDescriptor() returns (d: Descriptor)
    ensures d == ExtractMethodInfo(MethodCall(Some("LabTests"), "TestVoidMethod", [Some("number"), Some("text")],
                                              [Const(Int32("5")), Const(Str("test"))]))
    ensures SignatureText(d.className, d.methodName, d.arguments, Some(d.parameters))
            == "LabTests" + "." + "TestVoidMethod" + "("
               + (("Int32" + " " + "number" + " = " + "5") + ", " + ("String" + " " + "text" + " = " + ("\"" + "test" + "\""))) + ")"
  {
    d := ExtractMethodInfo(MethodCall(Some("LabTests"), "TestVoidMethod", [Some("number"), Some("text")],
                                      [Const(Int32("5")), Const(Str("test"))]));
    assert d.arguments == [Int32("5"), Str("test")] && d.parameters == ["number", "text"];
    assert SignatureEntry(Int32("5"), Some(["number", "text"]), 0) == ("Int32" + " " + "number" + " = " + "5");
    assert SignatureEntry(Str("test"), Some(["number", "text"]), 1) == ("String" + " " + "text" + " = " + ("\"" + "test" + "\""));
    SignatureOfTwo("LabTests", "TestVoidMethod", Int32("5"), Str("test"), Some(["number", "text"]),
                   ("Int32" + " " + "number" + " = " + "5"), ("String" + " " + "text" + " = " + ("\"" + "test" + "\"")));
  }

  /** `TestAddNumbers(10, 20)` returning 30: the whole report. (Longer expected lines are
      written as the pieces they are assembled from.) */
  lemma AddNumbersReport(elapsed: string)
    ensures var call := MethodCall(Some("LabTests"), "TestAddNumbers", [Some("a"), Some("b")],
                                   [Const(Int32("10")), Const(Int32("20"))]);
            Report(ExtractMethodInfo(call), Returned(Int32("30")), elapsed, "Int32")
            == ["=== Execution Analysis ===",
                "LabTests" + "." + "TestAddNumbers" + "(" + (("Int32" + " " + "a" + " = " + "10") + ", " + ("Int32" + " " + "b" + " = " + "20")) + ")",
                "",
                "⏳ Executing...",
                "",
                "✅ Execution completed successfully!",
                "⏱️  Execution time: " + elapsed + " ms",
                "📋 Result: 30(Int32)",
                "",
                "=== End Analysis ===",
                ""]
  {
    var d := AddNumbersDescriptor();
    var r := Report(d, Returned(Int32("30")), elapsed, "Int32");
    ReportFrame(d, Returned(Int32("30")), elapsed, "Int32");
    ReportOnSuccess(d, Returned(Int32("30")), elapsed, "Int32");
    assert ResultLine(ResultText(Int32("30")), "Int32") == "📋 Result: 30(Int32)";
    assert r[8..] == ["", "=== End Analysis ===", ""];
  }

  lemma AddNumbersDescriptor() returns (d: Descriptor)
    ensures d == ExtractMethodInfo(MethodCall(Some("LabTests"), "TestAddNumbers", [Some("a"), Some("b")],
                                              [Const(Int32("10")), Const(Int32("20"))]))
    ensures SignatureText(d.className, d.methodName, d.arguments, Some(d.parameters))
            == "LabTests" + "." + "TestAddNumbers" + "(" + (("Int32" + " " + "a" + " = " + "10") + ", " + ("Int32" + " " + "b" + " = " + "20")) + ")"
  {
    d := ExtractMethodInfo(MethodCall(Some("LabTests"), "TestAddNumbers", [Some("a"), Some("b")],
                                      [Const(Int32("10")), Const(Int32("20"))]));
    assert d.arguments == [Int32("10"), Int32("20")] && d.parameters == ["a", "b"];
    assert SignatureEntry(Int32("10"), Some(["a", "b"]), 0) == ("Int32" + " " + "a" + " = " + "10");
    assert SignatureEntry(Int32("20"), Some(["a", "b"]), 1) == ("Int32" + " " + "b" + " = " + "20");
    SignatureOfTwo("LabTests", "TestAddNumbers", Int32("10"), Int32("20"), Some(["a", "b"]),
                   ("Int32" + " " + "a" + " = " + "10"), ("Int32" + " " + "b" + " = " + "20"));
  }

  /** `TestComplexParameters(42, 'A', true, null)`: the four entries of its signature, with
      the char quoted, the boolean as `True` and `object` for the null argument. */
  lemma ComplexParametersEntries()
    ensures var names := Some(["number", "letter", "flag", "nullValue"]);
            && SignatureEntry(Int32("42"), names, 0) == "Int32" + " " + "number" + " = " + "42"
            && SignatureEntry(Chr('A'), names, 1) == "Char" + " " + "letter" + " = " + "'A'"
            && SignatureEntry(Other("Boolean", Some("True")), names, 2) == "Boolean" + " " + "flag" + " = " + "True"
            && SignatureEntry(Null, names, 3) == "object" + " " + "nullValue" + " = " + "null"
  {
    assert ArgumentText(Chr('A')) == "'A'";
  }

  /** `TestStringConcat("Hello", "World")`: string arguments are double-quoted. */
  lemma StringConcatSignature()
    ensures SignatureText("LabTests", "TestStringConcat", [Str("Hello"), Str("World")], Some(["first", "second"]))
            == "LabTests" + "." + "TestStringConcat" + "("
               + (("String" + " " + "first" + " = " + ("\"" + "Hello" + "\"")) + ", " + ("String" + " " + "second" + " = " + ("\"" + "World" + "\""))) + ")"
  {
    assert SignatureEntry(Str("Hello"), Some(["first", "second"]), 0) == ("String" + " " + "first" + " = " + ("\"" + "Hello" + "\""));
    assert SignatureEntry(Str("World"), Some(["first", "second"]), 1) == ("String" + " " + "second" + " = " + ("\"" + "World" + "\""));
    SignatureOfTwo("LabTests", "TestStringConcat", Str("Hello"), Str("World"), Some(["first", "second"]),
                   ("String" + " " + "first" + " = " + ("\"" + "Hello" + "\"")), ("String" + " " + "second" + " = " + ("\"" + "World" + "\"")));
  }

  /** `TestCreateArray(3)`: every element and the length, then the declared type. */
  lemma CreateArrayResult()
    ensures ResultText(Arr("Int32[]", Some("System.Int32[]"), [Some("1"), Some("2"), Some("3")]))
            == "[1, 2, 3]" + " (Length: 3)"
    ensures ResultLine(ResultText(Arr("Int32[]", Some("System.Int32[]"), [Some("1"), Some("2"), Some("3")])), "Int32[]")
            == "📋 Result: " + ("[1, 2, 3]" + " (Length: 3)") + "(" + "Int32[]" + ")"
  {
    var texts := ElementTexts([Some("1"), Some("2"), Some("3")]);
    assert texts == ["1", "2", "3"];
    assert Join(", ", texts) == "1, 2, 3";
    assert Bracketed(texts) == "[1, 2, 3]";
    assert NatToString(3) == "3";
  }

  /** `TestCreateList("a", "b", "c")`: a short list, no ellipsis and no length. */
  lemma CreateListResult()
    ensures ResultText(Coll("List`1", Some("System.Collections.Generic.List`1[System.String]"),
                            [Some("a"), Some("b"), Some("c")]))
            == "[a, b, c]"
    ensures ResultLine(ResultText(Coll("List`1", Some("System.Collections.Generic.List`1[System.String]"),
                                       [Some("a"), Some("b"), Some("c")])), "List`1")
            == "📋 Result: " + "[a, b, c]" + "(" + "List`1" + ")"
  {
    var entries := CollectionEntries([Some("a"), Some("b"), Some("c")]);
    assert entries == ["a", "b", "c"];
    assert Join(", ", entries) == "a, b, c";
  }

  /** `TestReturnNull()`: no arguments, and the declared type after `null`. */
  lemma ReturnNullLines()
    ensures SignatureText("LabTests", "TestReturnNull", [], Some([])) == "LabTests.TestReturnNull()"
    ensures ResultLine(ResultText(Null), "String") == "📋 Result: null(String)"
  {
  }

  /** `TestThrowException("Test error")`: the signature line of the call. */
  lemma ThrowExceptionSignature()
    ensures SignatureText("LabTests", "TestThrowException", [Str("Test error")], Some(["message"]))
            == "LabTests" + "." + "TestThrowException" + "(" + ("String" + " " + "message" + " = " + ("\"" + "Test error" + "\"")) + ")"
  {
    var entry := SignatureEntry(Str("Test error"), Some(["message"]), 0);
    assert entry == ("String" + " " + "message" + " = " + ("\"" + "Test error" + "\""));
    assert SignatureEntries([Str("Test error")], Some(["message"])) == [entry];
  }

  /** `TestThrowException("Test error")`: the failure block without an inner exception, the
      trace header right after the exception line. */
  lemma ThrowExceptionLines(d: Descriptor, trace: Option<string>)
    ensures var r := Report(d, Threw(Fault("Test error", "ArgumentException", None, trace)), "0.10", "Int32");
            && r[4] == "❌ Exception occurred during execution!"
            && r[5] == "🚨 Exception: " + "Test error" + " (" + "ArgumentException" + ")"
            && r[6] == "📍 Stack trace (first few lines):"
  {
    ReportOnFailure(d, Fault("Test error", "ArgumentException", None, trace), "0.10", "Int32");
  }

  /** An argument whose evaluation throws is shown as the string "?"; an unnamed parameter
      as "param". */
  lemma FailingArgumentShown()
    ensures var d := ExtractMethodInfo(MethodCall(Some("C"), "M", [Some("x"), None], [Eval(None), Eval(Some(Int32("7")))]));
            SignatureText(d.className, d.methodName, d.arguments, Some(d.parameters))
            == "C" + "." + "M" + "(" + (("String" + " " + "x" + " = " + ("\"" + "?" + "\"")) + ", " + ("Int32" + " " + "param" + " = " + "7")) + ")"
  {
    var d := ExtractMethodInfo(MethodCall(Some("C"), "M", [Some("x"), None], [Eval(None), Eval(Some(Int32("7")))]));
    assert d.arguments == [Str("?"), Int32("7")] && d.parameters == ["x", "param"];
    assert SignatureEntry(Str("?"), Some(["x", "param"]), 0) == ("String" + " " + "x" + " = " + ("\"" + "?" + "\""));
    assert SignatureEntry(Int32("7"), Some(["x", "param"]), 1) == ("Int32" + " " + "param" + " = " + "7");
    SignatureOfTwo("C", "M", Str("?"), Int32("7"), Some(["x", "param"]), ("String" + " " + "x" + " = " + ("\"" + "?" + "\"")), ("Int32" + " " + "param" + " = " + "7"));
  }
}
