/** How the engine shows a returned value (`Lab.FormatResult`) and a call's arguments
    (`Lab.FormatMethodSignature`). */
module Formatter {
  import opened Wrappers
  import opened Text
  import opened Values

  /** A non-array collection shows its elements until the list holds more than this many. */
  const DisplayLimit: nat := 10
  const Ellipsis := "..."

  // ---------------------------------------------------------------------------
  // Results

  /** Each element's `ToString()` text in order, a null one as "null". */
  function ElementTexts(elems: seq<ElementText>): (texts: seq<string>)
    ensures |texts| == |elems|
    ensures forall k :: 0 <= k < |elems| ==> texts[k] == OrNull(elems[k])
  {
    seq(|elems|, k requires 0 <= k < |elems| => OrNull(elems[k]))
  }

  /** The entries a non-array collection shows: its elements up to the first
      `DisplayLimit + 1`, and an `...` entry once that many were reached. */
  function CollectionEntries(elems: seq<ElementText>): seq<string>
  {
    if |elems| > DisplayLimit then ElementTexts(elems[..DisplayLimit + 1]) + [Ellipsis]
    else ElementTexts(elems)
  }

  /** A list of entries between brackets, separated by ", ". */
  function Bracketed(entries: seq<string>): string
  {
    "[" + Join(", ", entries) + "]"
  }

  /** The text `FormatResult(result)` gives, by the ordered rules: null, array, non-string
      collection, then the value's own `ToString()`. */
  function ResultText(v: Value): string
  {
    match v
    case Null => "null"
    case Arr(_, _, elems) => Bracketed(ElementTexts(elems)) + " (Length: " + NatToString(|elems|) + ")"
    case Coll(_, _, elems) => Bracketed(CollectionEntries(elems))
    case _ => OrNull(ToStringText(v))
  }

  /** `Lab.FormatResult`: builds the list of element texts with the source's loops. */
  method FormatResult(v: Value) returns (s: string)
    ensures s == ResultText(v)
    ensures v.Null? ==> s == "null"
    ensures v.Str? ==> s == v.s
    ensures v.Chr? ==> s == [v.c]
    ensures v.Other? ==> s == OrNull(v.text)
  {
    if v.Null? {
      return "null";
    }
    if v.Arr? {
      var elements: seq<string> := [];
      for k := 0 to |v.elems|
        invariant elements == ElementTexts(v.elems[..k])
      {
        elements := elements + [OrNull(v.elems[k])];
      }
      assert v.elems[..|v.elems|] == v.elems;
      return Bracketed(elements) + " (Length: " + NatToString(|v.elems|) + ")";
    }
    if v.Coll? {
      var elements: seq<string> := [];
      var k := 0;
      while k < |v.elems|
        invariant 0 <= k <= |v.elems| && k <= DisplayLimit
        invariant elements == ElementTexts(v.elems[..k])
      {
        elements := elements + [OrNull(v.elems[k])];
        assert v.elems[..k + 1] == v.elems[..k] + [v.elems[k]];
        if |elements| > DisplayLimit {
          elements := elements + [Ellipsis];
          assert elements == CollectionEntries(v.elems);
          break;
        }
        k := k + 1;
      }
      assert |v.elems| <= DisplayLimit ==> v.elems[..|v.elems|] == v.elems;
      return Bracketed(elements);
    }
    return OrNull(ToStringText(v));
  }

  /** A collection shorter than eleven shows all of its elements in order and nothing else;
      one of eleven or more shows exactly its first eleven and then one `...`. */
  lemma CollectionShown(elems: seq<ElementText>)
    ensures var entries := CollectionEntries(elems);
            |entries| <= DisplayLimit + 2
            && (|elems| <= DisplayLimit ==> |entries| == |elems|)
            && (|elems| > DisplayLimit ==> |entries| == DisplayLimit + 2 && entries[DisplayLimit + 1] == Ellipsis)
            && (forall k :: 0 <= k < |elems| && k <= DisplayLimit ==> entries[k] == OrNull(elems[k]))
  {
  }

  /** Only the first eleven elements of a collection, and whether there are eleven, decide
      its text: no element past the eleventh is read. */
  lemma {:induction false} CollectionReadsOnlyEleven(t1: string, x1: Option<string>, e1: seq<ElementText>,
                                                     t2: string, x2: Option<string>, e2: seq<ElementText>)
    requires (|e1| > DisplayLimit) == (|e2| > DisplayLimit)
    requires |e1| > DisplayLimit ==> e1[..DisplayLimit + 1] == e2[..DisplayLimit + 1]
    requires |e1| <= DisplayLimit ==> e1 == e2
    ensures ResultText(Coll(t1, x1, e1)) == ResultText(Coll(t2, x2, e2))
  {
  }

  /** An array shows every element, in order, followed by its length in decimal. */
  lemma ArrayShown(t: string, x: Option<string>, elems: seq<ElementText>)
    ensures var n := NatToString(|elems|);
            ResultText(Arr(t, x, elems)) == Bracketed(ElementTexts(elems)) + " (Length: " + n + ")"
            && |ElementTexts(elems)| == |elems| && ParseDigits(n) == |elems|
  {
    ParseNatToString(|elems|);
  }

  /** A string is shown as itself, unquoted, never as a collection of its characters. */
  lemma StringShownAsItself(s: string)
    ensures ResultText(Str(s)) == s
  {
  }

  // ---------------------------------------------------------------------------
  // Method signatures

  /** The type shown for an argument: its runtime type name, "object" for null. */
  function ArgumentTypeName(v: Value): string
  {
    if v.Null? then "object" else RuntimeTypeName(v)
  }

  /** The text shown for an argument: strings double-quoted (no escaping), chars
      single-quoted, anything else its `ToString()` or "null". */
  function ArgumentText(v: Value): string
  {
    match v
    case Null => "null"
    case Str(s) => "\"" + s + "\""
    case Chr(c) => "'" + [c] + "'"
    case _ => OrNull(ToStringText(v))
  }

  /** The name shown for the argument at `i`: the given name when there is one, else
      `param{i+1}`. */
  function ParameterName(names: Option<seq<string>>, i: nat): string
  {
    if names.Some? && i < |names.value| then names.value[i] else "param" + NatToString(i + 1)
  }

  /** One `"<type> <name> = <value>"` entry of the signature. */
  function SignatureEntry(v: Value, names: Option<seq<string>>, i: nat): string
  {
    ArgumentTypeName(v) + " " + ParameterName(names, i) + " = " + ArgumentText(v)
  }

  function SignatureEntries(inputs: seq<Value>, names: Option<seq<string>>): (entries: seq<string>)
    ensures |entries| == |inputs|
    ensures forall i :: 0 <= i < |inputs| ==> entries[i] == SignatureEntry(inputs[i], names, i)
  {
    seq(|inputs|, i requires 0 <= i < |inputs| => SignatureEntry(inputs[i], names, i))
  }

  /** The signature line `Class.Method(entries)`. */
  function SignatureText(className: string, methodName: string, inputs: seq<Value>,
                         names: Option<seq<string>>): string
  {
    if |inputs| == 0 then className + "." + methodName + "()"
    else className + "." + methodName + "(" + Join(", ", SignatureEntries(inputs, names)) + ")"
  }

  /** `Lab.FormatMethodSignature`: builds the entry list with the source's loop. */
  method FormatMethodSignature(className: string, methodName: string, inputs: seq<Value>,
                               names: Option<seq<string>>) returns (s: string)
    ensures s == SignatureText(className, methodName, inputs, names)
    ensures |inputs| == 0 ==> s == className + "." + methodName + "()"
  {
    if |inputs| == 0 {
      return className + "." + methodName + "()";
    }
    var parameters: seq<string> := [];
    for i := 0 to |inputs|
      invariant parameters == SignatureEntries(inputs[..i], names)
    {
      var input := inputs[i];
      var typeName := ArgumentTypeName(input);
      var paramName := ParameterName(names, i);
      var formattedValue := ArgumentText(input);
      parameters := parameters + [typeName + " " + paramName + " = " + formattedValue];
    }
    assert inputs[..|inputs|] == inputs;
    return className + "." + methodName + "(" + Join(", ", parameters) + ")";
  }

  /** The entry list has one entry per input, in input order; entry `i` depends only on
      input `i`, its position and the names. */
  lemma {:induction false} SignatureEntriesLocal(inputs: seq<Value>, names: Option<seq<string>>, j: nat, w: Value)
    requires j < |inputs|
    ensures SignatureEntries(inputs[j := w], names) == SignatureEntries(inputs, names)[j := SignatureEntry(w, names, j)]
  {
  }

  /** A missing name is `param` followed by the one-based position in decimal. */
  lemma FallbackName(names: Option<seq<string>>, i: nat)
    requires names.None? || i >= |names.value|
    ensures var n := ParameterName(names, i);
            |n| > 5 && n[..5] == "param" && IsDigits(n[5..]) && ParseDigits(n[5..]) == i + 1
  {
    var n := ParameterName(names, i);
    assert n[5..] == NatToString(i + 1);
    ParseNatToString(i + 1);
  }
}
