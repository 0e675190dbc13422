/** The .NET string operations the core relies on: `string.Join`, `string.Split(char)`,
    `string.Trim()` and the invariant-culture decimal text of a non-negative `int`. */
module Text {

  /** `char.IsWhiteSpace`: U+0009 to U+000D, U+0020, U+0085, U+00A0 and the Unicode
      space, line and paragraph separators. */
  predicate IsWhiteSpace(c: char) {
    ('\t' <= c <= '\r') || c == ' ' || c == '\U{0085}' || c == '\U{00A0}' || c == '\U{1680}'
    || ('\U{2000}' <= c <= '\U{200A}') || c == '\U{2028}' || c == '\U{2029}'
    || c == '\U{202F}' || c == '\U{205F}' || c == '\U{3000}'
  }

  // ---------------------------------------------------------------------------
  // Join and Split

  /** `string.Join(sep, parts)`: the parts in order with `sep` between neighbours. */
  function Join(sep: string, parts: seq<string>): (r: string)
  {
    if |parts| == 0 then ""
    else if |parts| == 1 then parts[0]
    else parts[0] + sep + Join(sep, parts[1..])
  }

  /** `s.Split(c)` with the default options: every occurrence of `c` ends a segment and
      empty segments are kept, so there is always at least one. */
  function Split(s: string, c: char): (parts: seq<string>)
    ensures |parts| == multiset(s)[c] + 1
    ensures forall k :: 0 <= k < |parts| ==> c !in parts[k]
  {
    if |s| == 0 then [""]
    else
      var rest := Split(s[1..], c);
      assert s == [s[0]] + s[1..];
      if s[0] == c then [""] + rest
      else [[s[0]] + rest[0]] + rest[1..]
  }

  /** How `string.Join` builds its text: no parts give the empty string, one part is
      itself, and each further part is appended after one more separator. */
  lemma {:induction false} JoinShape(sep: string, parts: seq<string>, p: string)
    ensures Join(sep, []) == "" && Join(sep, [p]) == p
    ensures |parts| >= 1 ==> Join(sep, parts + [p]) == Join(sep, parts) + sep + p
  {
    if |parts| >= 2 {
      JoinShape(sep, parts[1..], p);
      assert (parts + [p])[1..] == parts[1..] + [p];
    } else if |parts| == 1 {
      assert (parts + [p])[1..] == [p];
    }
  }

  lemma JoinPrepend(sep: string, x: string, parts: seq<string>)
    requires |parts| >= 1
    ensures Join(sep, [x + parts[0]] + parts[1..]) == x + Join(sep, parts)
  {
    var p := [x + parts[0]] + parts[1..];
    assert p[1..] == parts[1..];
  }

  /** Joining the segments with the separator gives back the split string. */
  lemma {:induction false} JoinSplit(s: string, c: char)
    ensures Join([c], Split(s, c)) == s
  {
    if |s| > 0 {
      JoinSplit(s[1..], c);
      var rest := Split(s[1..], c);
      assert s == [s[0]] + s[1..];
      if s[0] == c {
        assert Split(s, c) == [""] + rest;
        JoinAfterEmpty([c], rest);
      } else {
        assert Split(s, c) == [[s[0]] + rest[0]] + rest[1..];
        JoinPrepend([c], [s[0]], rest);
      }
    }
  }

  lemma JoinAfterEmpty(sep: string, parts: seq<string>)
    requires |parts| >= 1
    ensures Join(sep, [""] + parts) == sep + Join(sep, parts)
  {
    var p := [""] + parts;
    assert |p| >= 2 && p[0] == "" && p[1..] == parts;
  }

  lemma {:induction false} SplitWithoutSeparator(x: string, c: char)
    requires c !in x
    ensures Split(x, c) == [x]
  {
    if |x| > 0 {
      SplitWithoutSeparator(x[1..], c);
      assert [x[0]] + x[1..] == x;
    }
  }

  lemma {:induction false} SplitAfterSegment(x: string, t: string, c: char)
    requires c !in x
    ensures Split(x + [c] + t, c) == [x] + Split(t, c)
  {
    var s := x + [c] + t;
    if |x| == 0 {
      assert s == [c] + t && s[1..] == t;
    } else {
      assert s[1..] == x[1..] + [c] + t;
      SplitAfterSegment(x[1..], t, c);
      assert [x[0]] + x[1..] == x;
    }
  }

  /** Splitting the join of separator-free parts gives back the parts. */
  lemma {:induction false} SplitJoin(parts: seq<string>, c: char)
    requires |parts| >= 1
    requires forall k :: 0 <= k < |parts| ==> c !in parts[k]
    ensures Split(Join([c], parts), c) == parts
  {
    if |parts| == 1 {
      SplitWithoutSeparator(parts[0], c);
    } else {
      SplitAfterSegment(parts[0], Join([c], parts[1..]), c);
      SplitJoin(parts[1..], c);
      assert [parts[0]] + parts[1..] == parts;
    }
  }

  // ---------------------------------------------------------------------------
  // Trim

  /** A string with no white space at either end. */
  predicate IsTrimmed(r: string) {
    r == [] || (!IsWhiteSpace(r[0]) && !IsWhiteSpace(r[|r| - 1]))
  }

  /** Where the content of `s` starts when scanning from `from`: the first index at or after
      it that is not white space, `|s|` when there is none. */
  function ContentStart(s: string, from: nat): (k: nat)
    requires from <= |s|
    ensures from <= k <= |s|
    ensures forall j :: from <= j < k ==> IsWhiteSpace(s[j])
    ensures k < |s| ==> !IsWhiteSpace(s[k])
    decreases |s| - from
  {
    if from == |s| || !IsWhiteSpace(s[from]) then from else ContentStart(s, from + 1)
  }

  /** Where the content of `s[start..end]` ends: `end` less the white space before it, never
      below `start`. */
  function ContentEnd(s: string, start: nat, end: nat): (k: nat)
    requires start <= end <= |s|
    ensures start <= k <= end
    ensures forall j :: k <= j < end ==> IsWhiteSpace(s[j])
    ensures k > start ==> !IsWhiteSpace(s[k - 1])
    decreases end
  {
    if end == start || !IsWhiteSpace(s[end - 1]) then end else ContentEnd(s, start, end - 1)
  }

  /** `s.Trim()`: the white space at both ends removed (the start is found first, the end
      is searched no further back than the start). */
  function Trim(s: string): (r: string)
    ensures IsTrimmed(r)
  {
    var i := ContentStart(s, 0);
    var j := ContentEnd(s, i, |s|);
    assert j > i ==> s[i..j][0] == s[i] && s[i..j][j - i - 1] == s[j - 1];
    s[i..j]
  }

  /** What `Trim` keeps and drops: it keeps the slice `s[i..j]` and drops only white space,
      before `i` and from `j` on. */
  lemma TrimIsSlice(s: string)
    ensures var i := ContentStart(s, 0);
            var j := ContentEnd(s, i, |s|);
            Trim(s) == s[i..j]
            && (forall k :: 0 <= k < i ==> IsWhiteSpace(s[k]))
            && (forall k :: j <= k < |s| ==> IsWhiteSpace(s[k]))
  {
  }

  /** Trimming leaves a string without white space at its ends unchanged, so `Trim` is
      idempotent. */
  lemma TrimOfTrimmed(s: string)
    requires IsTrimmed(s)
    ensures Trim(s) == s
  {
    assert ContentStart(s, 0) == 0;
    assert ContentEnd(s, 0, |s|) == |s|;
    assert s[0..|s|] == s;
  }

  // ---------------------------------------------------------------------------
  // Decimal text of a non-negative integer

  predicate IsDigits(s: string) {
    forall k :: 0 <= k < |s| ==> '0' <= s[k] <= '9'
  }

  function DigitChar(d: nat): (c: char)
    requires d < 10
    ensures '0' <= c <= '9' && c as int - '0' as int == d
  {
    ('0' as int + d) as char
  }

  /** `n.ToString()` for a non-negative `int`: decimal digits, no sign, no leading zero. */
  function NatToString(n: nat): (s: string)
    ensures IsDigits(s)
    ensures |s| == 1 <==> n < 10
    ensures |s| >= 1 && (s[0] == '0' <==> n == 0)
  {
    if n < 10 then [DigitChar(n)] else NatToString(n / 10) + [DigitChar(n % 10)]
  }

  /** The value of a string of decimal digits, read most significant digit first. */
  function ParseDigits(s: string): nat
    requires IsDigits(s)
  {
    if s == [] then 0 else ParseDigits(s[..|s| - 1]) * 10 + (s[|s| - 1] as int - '0' as int)
  }

  /** The decimal text of `n` reads back as `n`. */
  lemma {:induction false} ParseNatToString(n: nat)
    ensures ParseDigits(NatToString(n)) == n
  {
    if n >= 10 {
      ParseNatToString(n / 10);
      var s := NatToString(n);
      assert s[..|s| - 1] == NatToString(n / 10);
    }
  }
}
