/** `NothingToSeeHere.ParseParts`: a null or empty input is rejected, anything else is split
    on `;`. */
module NothingToSeeHere {
  import opened Wrappers
  import opened Text

  /** The exceptions `ParseParts` throws, with the parameter name they carry. */
  datatype ParseError =
    | ArgumentNull(paramName: string)                   // ArgumentNullException
    | ArgumentInvalid(message: string, paramName: string) // ArgumentException

  const Separator := ';'

  /** `ParseParts(input)`: `None` is a null input. */
  function ParseParts(input: Option<string>): (r: Result<seq<string>, ParseError>)
    ensures input.None? <==> r == Failure(ArgumentNull("input"))
    ensures input == Some("") <==> r == Failure(ArgumentInvalid("Input cannot be empty", "input"))
    ensures r.Success? ==> input.Some? && input.value != ""
    ensures r.Success? ==> |r.value| == multiset(input.value)[';'] + 1
    ensures r.Success? ==> forall k :: 0 <= k < |r.value| ==> ';' !in r.value[k]
    ensures r.Success? ==> Join(";", r.value) == input.value
  {
    match input
    case None => Failure(ArgumentNull("input"))
    case Some(s) =>
      if s == "" then Failure(ArgumentInvalid("Input cannot be empty", "input"))
      else
        JoinSplit(s, Separator);
        Success(Split(s, Separator))
  }

  /** Parts without `;` (at least one, not just one empty part) are what parsing their join
      gives back. */
  lemma ParsePartsOfJoin(parts: seq<string>)
    requires |parts| >= 1 && parts != [""]
    requires forall k :: 0 <= k < |parts| ==> ';' !in parts[k]
    ensures ParseParts(Some(Join(";", parts))) == Success(parts)
  {
    SplitJoin(parts, Separator);
  }

  /** Empty segments are kept: `";"` gives two empty parts. */
  lemma EmptySegmentsKept()
    ensures ParseParts(Some(";")) == Success(["", ""])
  {
    assert ";"[0] == Separator && ";"[1..] == "";
    assert Split(";", Separator) == [""] + Split("", Separator) == ["", ""];
    assert ParseParts(Some(";")) == Success(Split(";", Separator));
  }
}
