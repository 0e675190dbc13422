/** `Lab.ExtractMethodInfo`, `Lab.ExtractMethodInfoFromAction` and `Lab.EvaluateExpression`:
    the call descriptor read off the body of the lambda handed to `Run`. The expression tree
    and the reflection over it are replaced by an abstract call shape. */
module Extractor {
  import opened Wrappers
  import opened Values

  /** An argument sub-expression. `Const` is a constant expression; `Eval` is any other
      expression, with what compiling and invoking it on its own gives: a value, or `None`
      when that throws. */
  datatype ArgExpr = Const(value: Value) | Eval(result: Option<Value>)

  /** The body of the lambda: a direct method call, or anything else. A call knows the
      declaring type's name (if any), the method's name, its declared parameter names
      (`ParameterInfo.Name`, which may be null) and its argument expressions. */
  datatype CallExpr =
    | MethodCall(declaringType: Option<string>, name: string,
                 paramNames: seq<Option<string>>, args: seq<ArgExpr>)
    | NotACall

  /** The `(className, methodName, parameters, arguments)` tuple. */
  datatype Descriptor = Descriptor(className: string, methodName: string,
                                   parameters: seq<string>, arguments: seq<Value>)

  const Unknown := "Unknown"
  const UnnamedParameter := "param"
  /** What an argument whose evaluation throws is shown as. */
  const FailedArgument := Str("?")

  /** `Lab.EvaluateExpression`: a constant's value, else the value the expression evaluates
      to, caught failures becoming "?". */
  function EvaluateExpression(e: ArgExpr): (v: Value)
    ensures e.Const? ==> v == e.value
    ensures e.Eval? && e.result.Some? ==> v == e.result.value
    ensures e.Eval? && e.result.None? ==> v == Str("?")
  {
    match e
    case Const(v) => v
    case Eval(Some(v)) => v
    case Eval(None) => FailedArgument
  }

  /** An argument whose evaluation throws cannot be told apart from the constant string
      "?": both are shown as the same value. */
  lemma FailureLooksLikeQuestionMark()
    ensures EvaluateExpression(Eval(None)) == EvaluateExpression(Const(Str("?")))
    ensures EvaluateExpression(Eval(None)) == EvaluateExpression(Eval(Some(Str("?"))))
  {
  }

  /** The descriptor of the degraded path: not a method call. */
  const UnknownCall := Descriptor(Unknown, Unknown, [], [])

  /** `Lab.ExtractMethodInfo` (and the identical `ExtractMethodInfoFromAction`). */
  function ExtractMethodInfo(call: CallExpr): (d: Descriptor)
    ensures call.NotACall? ==> d == Descriptor("Unknown", "Unknown", [], [])
    ensures call.MethodCall? ==>
      && d.className == (if call.declaringType.Some? then call.declaringType.value else "Unknown")
      && d.methodName == call.name
      && |d.parameters| == |call.paramNames|
      && (forall i :: 0 <= i < |call.paramNames| ==>
            d.parameters[i] == if call.paramNames[i].Some? then call.paramNames[i].value else "param")
      && |d.arguments| == |call.args|
      && (forall i :: 0 <= i < |call.args| && call.args[i].Const? ==> d.arguments[i] == call.args[i].value)
      && (forall i :: 0 <= i < |call.args| && call.args[i] == Eval(None) ==> d.arguments[i] == Str("?"))
      && (forall i, v :: 0 <= i < |call.args| && call.args[i] == Eval(Some(v)) ==> d.arguments[i] == v)
  {
    match call
    case NotACall => UnknownCall
    case MethodCall(declaringType, name, paramNames, args) =>
      var className := match declaringType case Some(t) => t case None => Unknown;
      var parameters := seq(|paramNames|, i requires 0 <= i < |paramNames| =>
                              match paramNames[i] case Some(p) => p case None => UnnamedParameter);
      var arguments := seq(|args|, i requires 0 <= i < |args| => EvaluateExpression(args[i]));
      Descriptor(className, name, parameters, arguments)
  }

  /** Each argument is evaluated on its own: changing one argument expression changes that
      argument's value only, and a failing one becomes "?" without touching the others. */
  lemma {:induction false} ArgumentsEvaluatedIndependently(declaringType: Option<string>, name: string,
                                                           paramNames: seq<Option<string>>,
                                                           args: seq<ArgExpr>, j: nat, e: ArgExpr)
    requires j < |args|
    ensures var before := ExtractMethodInfo(MethodCall(declaringType, name, paramNames, args));
            var after := ExtractMethodInfo(MethodCall(declaringType, name, paramNames, args[j := e]));
            after == before.(arguments := before.arguments[j := EvaluateExpression(e)])
  {
    var before := ExtractMethodInfo(MethodCall(declaringType, name, paramNames, args));
    var after := ExtractMethodInfo(MethodCall(declaringType, name, paramNames, args[j := e]));
    assert after.arguments == before.arguments[j := EvaluateExpression(e)];
  }
}
