/** `Lab.Run<T>` and `Lab.Run`: the report printed around one call. The console is modelled
    as the sequence of lines written to it (the colour codes are dropped), the wall-clock
    duration as its already formatted text, and what the compiled lambda does when invoked
    as an `Outcome` supplied by the caller. */
module Lab {
  import opened Wrappers
  import opened Text
  import opened Values
  import opened Formatter
  import opened Extractor

  /** `ex.InnerException`: its type name and message. */
  datatype InnerFault = InnerFault(typeName: string, message: string)

  /** A caught exception: `Message`, `GetType().Name`, `InnerException` and `StackTrace`
      (null when there is none). */
  datatype Fault = Fault(message: string, typeName: string, inner: Option<InnerFault>, trace: Option<string>)

  /** What invoking the compiled lambda did: returned a value (`Func<T>`), returned
      (`Action`), or threw. */
  datatype Outcome = Returned(value: Value) | Completed | Threw(fault: Fault)

  function Min(a: int, b: int): int
  {
    if a < b then a else b
  }

  // ---------------------------------------------------------------------------
  // Stack trace

  /** At most this many lines of a stack trace are printed. */
  const TraceLineLimit: nat := 3
  const TraceIndent := "   "

  /** One printed stack-trace line: the segment trimmed, after the indent. */
  function TraceLine(segment: string): string
  {
    TraceIndent + Trim(segment)
  }

  /** The segments of a trace (`StackTrace?.Split('\n')`), none without a trace. */
  function TraceSegments(trace: Option<string>): seq<string>
  {
    match trace
    case Some(t) => Split(t, '\n')
    case None => []
  }

  /** The lines printed for the segments: the first three, each through `TraceLine`. */
  function TraceLines(segments: seq<string>): seq<string>
  {
    seq(Min(TraceLineLimit, |segments|), i requires 0 <= i < Min(TraceLineLimit, |segments|) =>
          TraceLine(segments[i]))
  }

  /** The printed stack-trace lines: the first three `'\n'`-separated segments of the
      trace, each trimmed and indented by three spaces; none when there is no trace. */
  function StackTraceSection(trace: Option<string>): seq<string>
  {
    TraceLines(TraceSegments(trace))
  }

  /** A printed line of a segment without line breaks: the indent, then the segment
      trimmed, and no line break. */
  lemma TraceLineShown(segment: string)
    requires '\n' !in segment
    ensures var line := TraceLine(segment);
            |line| >= 3 && line[..3] == TraceIndent && line[3..] == Trim(segment)
            && IsTrimmed(line[3..]) && '\n' !in line
  {
    var t := Trim(segment);
    var line := TraceIndent + t;
    TrimIsSlice(segment);
    var i := ContentStart(segment, 0);
    forall k | 0 <= k < |line|
      ensures line[k] != '\n'
    {
      if k >= 3 {
        assert line[k] == t[k - 3] == segment[i + k - 3];
      }
    }
    assert line[3..] == t;
  }

  /** At most three trace lines, none without a trace and at least one with one (an empty
      trace still splits into one segment); line `i` is the `i`-th segment, trimmed, after
      three spaces, and holds no line break. */
  lemma StackTraceShown(trace: Option<string>)
    ensures var lines := StackTraceSection(trace);
            |lines| <= TraceLineLimit
            && (trace.None? ==> lines == [])
            && (trace.Some? ==> |lines| == Min(TraceLineLimit, multiset(trace.value)['\n'] + 1) >= 1)
            && (trace.Some? ==> forall i :: 0 <= i < |lines| ==>
                  |lines[i]| >= 3 && lines[i][..3] == TraceIndent
                  && lines[i][3..] == Trim(Split(trace.value, '\n')[i])
                  && IsTrimmed(lines[i][3..]) && '\n' !in lines[i])
  {
    var lines := StackTraceSection(trace);
    if trace.Some? {
      var segments := Split(trace.value, '\n');
      forall i | 0 <= i < |lines|
        ensures |lines[i]| >= 3 && lines[i][..3] == TraceIndent
        ensures lines[i][3..] == Trim(segments[i]) && IsTrimmed(lines[i][3..]) && '\n' !in lines[i]
      {
        TraceLineShown(segments[i]);
      }
    }
  }

  /** The index loop of `Run` that prints the stack-trace lines. */
  method PrintStackTrace(trace: Option<string>) returns (lines: seq<string>)
    ensures lines == StackTraceSection(trace)
  {
    var stackLines := TraceSegments(trace);
    lines := [];
    for i := 0 to Min(3, |stackLines|)
      invariant |lines| == i
      invariant forall k :: 0 <= k < i ==> lines[k] == TraceLine(stackLines[k])
    {
      lines := lines + [TraceLine(stackLines[i])];
    }
    assert lines == TraceLines(stackLines);
  }

  // ---------------------------------------------------------------------------
  // Report lines

  const AnalysisBanner := "=== Execution Analysis ==="
  const ExecutingLine := "⏳ Executing..."
  const SuccessLine := "✅ Execution completed successfully!"
  const VoidResultLine := "📋 Result: void"
  const FailureLine := "❌ Exception occurred during execution!"
  const TraceHeader := "📍 Stack trace (first few lines):"
  const EndBanner := "=== End Analysis ==="

  function ElapsedLine(elapsed: string): string
  {
    "⏱️  Execution time: " + elapsed + " ms"
  }

  /** The result line of `Run<T>`: the formatted value and the declared type `typeof(T).Name`. */
  function ResultLine(shown: string, declaredTypeName: string): string
  {
    "📋 Result: " + shown + "(" + declaredTypeName + ")"
  }

  function ExceptionLine(f: Fault): string
  {
    "🚨 Exception: " + f.message + " (" + f.typeName + ")"
  }

  function InnerLine(inner: InnerFault): string
  {
    "🔗 Inner exception: " + inner.typeName + " - " + inner.message
  }

  /** The lines of the catch block. */
  function FaultLines(f: Fault): seq<string>
  {
    [FailureLine, ExceptionLine(f)]
    + (match f.inner case Some(inner) => [InnerLine(inner)] case None => [])
    + [TraceHeader] + StackTraceSection(f.trace)
  }

  /** The lines written between the executing marker and the closing block. */
  function OutcomeLines(outcome: Outcome, elapsed: string, declaredTypeName: string): seq<string>
  {
    match outcome
    case Returned(v) => ["", SuccessLine, ElapsedLine(elapsed), ResultLine(ResultText(v), declaredTypeName)]
    case Completed => ["", SuccessLine, ElapsedLine(elapsed), VoidResultLine]
    case Threw(f) => FaultLines(f)
  }

  /** The whole report of one `Run`: banner, signature, blank line, executing marker, the
      outcome's lines, then the closing block of the `finally`. */
  function Report(d: Descriptor, outcome: Outcome, elapsed: string, declaredTypeName: string): seq<string>
  {
    [AnalysisBanner, SignatureText(d.className, d.methodName, d.arguments, Some(d.parameters)), "", ExecutingLine]
    + OutcomeLines(outcome, elapsed, declaredTypeName)
    + ["", EndBanner, ""]
  }

  /** `Lab.Run<T>`: returns the callable's value, or `default(T)` when it threw. */
  method Run(call: CallExpr, outcome: Outcome, elapsed: string, declaredTypeName: string, defaultValue: Value)
    returns (result: Value, report: seq<string>)
    requires !outcome.Completed?
    ensures outcome.Returned? ==> result == outcome.value
    ensures outcome.Threw? ==> result == defaultValue
    ensures report == Report(ExtractMethodInfo(call), outcome, elapsed, declaredTypeName)
  {
    var d := ExtractMethodInfo(call);
    report := [AnalysisBanner];
    var signature := FormatMethodSignature(d.className, d.methodName, d.arguments, Some(d.parameters));
    report := report + [signature];
    report := report + [""];
    report := report + [ExecutingLine];
    ghost var head := report;
    assert head == [AnalysisBanner, signature, "", ExecutingLine];
    if outcome.Returned? {
      report := report + [""];
      report := report + [SuccessLine, ElapsedLine(elapsed)];
      var shown := FormatResult(outcome.value);
      report := report + [ResultLine(shown, declaredTypeName)];
      result := outcome.value;
    } else {
      var caught := CatchBlock(outcome.fault);
      report := report + caught;
      result := defaultValue;
    }
    assert report == head + OutcomeLines(outcome, elapsed, declaredTypeName);
    report := report + ["", EndBanner, ""];
  }

  /** `Lab.Run` for an `Action`: the same report with the result line `void`. */
  method RunAction(call: CallExpr, outcome: Outcome, elapsed: string) returns (report: seq<string>)
    requires !outcome.Returned?
    ensures report == Report(ExtractMethodInfo(call), outcome, elapsed, "")
  {
    var d := ExtractMethodInfo(call);
    report := [AnalysisBanner];
    var signature := FormatMethodSignature(d.className, d.methodName, d.arguments, Some(d.parameters));
    report := report + [signature];
    report := report + [""];
    report := report + [ExecutingLine];
    ghost var head := report;
    assert head == [AnalysisBanner, signature, "", ExecutingLine];
    if outcome.Completed? {
      report := report + [""];
      report := report + [SuccessLine, ElapsedLine(elapsed)];
      report := report + [VoidResultLine];
    } else {
      var caught := CatchBlock(outcome.fault);
      report := report + caught;
    }
    assert report == head + OutcomeLines(outcome, elapsed, "");
    report := report + ["", EndBanner, ""];
  }

  /** The catch block shared by both entry points. */
  method CatchBlock(f: Fault) returns (lines: seq<string>)
    ensures lines == FaultLines(f)
  {
    lines := [FailureLine, ExceptionLine(f)];
    if f.inner.Some? {
      lines := lines + [InnerLine(f.inner.value)];
    }
    lines := lines + [TraceHeader];
    var trace := PrintStackTrace(f.trace);
    lines := lines + trace;
  }

  // ---------------------------------------------------------------------------
  // Properties of the report

  /** Every report opens with the banner, the signature line, a blank line and the executing
      marker, and always ends with the closing banner between blank lines. */
  lemma ReportFrame(d: Descriptor, outcome: Outcome, elapsed: string, declaredTypeName: string)
    ensures var r := Report(d, outcome, elapsed, declaredTypeName);
            |r| >= 9
            && r[0] == AnalysisBanner
            && r[1] == SignatureText(d.className, d.methodName, d.arguments, Some(d.parameters))
            && r[2] == "" && r[3] == ExecutingLine
            && r[|r| - 3..] == ["", EndBanner, ""]
  {
  }

  /** On success the report has eleven lines; line 7 shows the formatted value with the
      declared type name, or exactly `📋 Result: void` for an `Action`. */
  lemma ReportOnSuccess(d: Descriptor, outcome: Outcome, elapsed: string, declaredTypeName: string)
    requires !outcome.Threw?
    ensures var r := Report(d, outcome, elapsed, declaredTypeName);
            |r| == 11 && r[4] == "" && r[5] == SuccessLine && r[6] == ElapsedLine(elapsed)
            && (outcome.Returned? ==> r[7] == ResultLine(ResultText(outcome.value), declaredTypeName))
            && (outcome.Completed? ==> r[7] == VoidResultLine)
  {
  }

  /** The catch block: the failure marker, the exception line, the inner-exception line
      exactly when there is an inner exception, the trace header, then the trace lines. */
  lemma FaultLinesShown(f: Fault)
    ensures var lines := FaultLines(f);
            var h := if f.inner.Some? then 3 else 2;
            var trace := StackTraceSection(f.trace);
            |lines| == h + 1 + |trace|
            && lines[0] == FailureLine && lines[1] == ExceptionLine(f)
            && (lines[2][0] == '🔗' <==> f.inner.Some?)
            && (f.inner.Some? ==> lines[2] == InnerLine(f.inner.value))
            && lines[h] == TraceHeader
            && lines[h + 1..] == trace
  {
    var trace := StackTraceSection(f.trace);
    var inner := match f.inner case Some(i) => [InnerLine(i)] case None => [];
    var front := [FailureLine, ExceptionLine(f)] + inner + [TraceHeader];
    assert FaultLines(f) == front + trace;
    assert (front + trace)[|front|..] == trace;
  }

  /** On failure: the report's lines after the executing marker are the catch block's, and
      at most three of them come from the trace. */
  lemma {:induction false} ReportOnFailure(d: Descriptor, f: Fault, elapsed: string, declaredTypeName: string)
    ensures var r := Report(d, Threw(f), elapsed, declaredTypeName);
            var h := if f.inner.Some? then 7 else 6;
            var trace := StackTraceSection(f.trace);
            |r| == h + 1 + |trace| + 3 && |trace| <= 3
            && r[4] == FailureLine && r[5] == ExceptionLine(f)
            && (r[6][0] == '🔗' <==> f.inner.Some?)
            && (f.inner.Some? ==> r[6] == InnerLine(f.inner.value))
            && r[h] == TraceHeader
            && r[h + 1..h + 1 + |trace|] == trace
    ensures var r := Report(d, Threw(f), elapsed, declaredTypeName);
            |r| >= 3 && r[|r| - 3..] == ["", EndBanner, ""]
  {
    ReportFrame(d, Threw(f), elapsed, declaredTypeName);
    var lines := FaultLines(f);
    FaultLinesShown(f);
    var head := [AnalysisBanner, SignatureText(d.className, d.methodName, d.arguments, Some(d.parameters)), "", ExecutingLine];
    var r := Report(d, Threw(f), elapsed, declaredTypeName);
    assert r == head + lines + ["", EndBanner, ""];
    assert r[4..4 + |lines|] == lines;
  }
}
