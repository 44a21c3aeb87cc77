/** `str.splitlines()` on a Python 2 byte string (line boundaries `\n`, `\r` and
    `\r\n`; no empty last line for a trailing boundary) and `filter(None, lines)`,
    which drops exactly the empty strings. */
module Lines {

  predicate IsLineBreak(c: char) {
    c == '\n' || c == '\r'
  }

  predicate HasNoLineBreak(s: string) {
    forall k :: 0 <= k < |s| ==> !IsLineBreak(s[k])
  }

  /** The index of the first line break at or after `from`, or `|s|`. */
  function LineEnd(s: string, from: nat): (r: nat)
    requires from <= |s|
    decreases |s| - from
    ensures from <= r <= |s|
    ensures r < |s| ==> IsLineBreak(s[r])
  {
    if from == |s| || IsLineBreak(s[from]) then from else LineEnd(s, from + 1)
  }

  /** No line break comes before LineEnd. */
  lemma {:induction false} LineEndIsFirstBreak(s: string, from: nat)
    requires from <= |s|
    ensures forall k :: from <= k < LineEnd(s, from) ==> !IsLineBreak(s[k])
    decreases |s| - from
  {
    if from < |s| && !IsLineBreak(s[from]) {
      LineEndIsFirstBreak(s, from + 1);
    }
  }

  /** `s.splitlines()`. */
  function SplitLines(s: string): (lines: seq<string>)
    decreases |s|
    ensures lines == [] <==> s == ""
  {
    if s == "" then []
    else
      var i := LineEnd(s, 0);
      if i == |s| then [s]
      else
        var next := if s[i] == '\r' && i + 1 < |s| && s[i + 1] == '\n' then i + 2 else i + 1;
        [s[..i]] + SplitLines(s[next..])
  }

  /** The first line, up to LineEnd, holds no line break. */
  lemma FirstLineHasNoBreak(s: string)
    ensures HasNoLineBreak(s[..LineEnd(s, 0)])
  {
    LineEndIsFirstBreak(s, 0);
  }

  /** No line that `splitlines` returns contains a line break. */
  lemma {:induction false} SplitLinesHaveNoBreaks(s: string)
    ensures forall k :: 0 <= k < |SplitLines(s)| ==> HasNoLineBreak(SplitLines(s)[k])
    decreases |s|
  {
    if s != "" {
      var i := LineEnd(s, 0);
      FirstLineHasNoBreak(s);
      if i < |s| {
        var next := if s[i] == '\r' && i + 1 < |s| && s[i + 1] == '\n' then i + 2 else i + 1;
        var rest := SplitLines(s[next..]);
        SplitLinesHaveNoBreaks(s[next..]);
        assert SplitLines(s) == [s[..i]] + rest;
      } else {
        assert s[..i] == s;
      }
    }
  }

  /** `filter(None, lines)`. */
  function NonEmptyLines(lines: seq<string>): (r: seq<string>)
    ensures |r| <= |lines|
  {
    if lines == [] then []
    else if lines[0] == "" then NonEmptyLines(lines[1..])
    else [lines[0]] + NonEmptyLines(lines[1..])
  }

  /** Filtering drops the empty strings and nothing else. */
  lemma {:induction false} NonEmptyLinesMembers(lines: seq<string>)
    ensures forall x :: x in NonEmptyLines(lines) <==> x in lines && x != ""
    decreases |lines|
  {
    if lines != [] {
      NonEmptyLinesMembers(lines[1..]);
      assert lines == [lines[0]] + lines[1..];
    }
  }

  /** Filtering keeps the order: it distributes over concatenation. */
  lemma {:induction false} NonEmptyLinesAppend(a: seq<string>, b: seq<string>)
    ensures NonEmptyLines(a + b) == NonEmptyLines(a) + NonEmptyLines(b)
    decreases |a|
  {
    if a == [] {
      assert a + b == b;
    } else {
      assert (a + b)[0] == a[0];
      assert (a + b)[1..] == a[1..] + b;
      NonEmptyLinesAppend(a[1..], b);
    }
  }

  /** Filtering leaves a list without empty strings alone: whitespace-only lines stay. */
  lemma {:induction false} NonEmptyLinesKeepsNonEmpty(lines: seq<string>)
    requires forall k :: 0 <= k < |lines| ==> lines[k] != ""
    ensures NonEmptyLines(lines) == lines
    decreases |lines|
  {
    if lines != [] {
      NonEmptyLinesKeepsNonEmpty(lines[1..]);
    }
  }

  /** Each line followed by the terminator `t`. */
  function Terminated(lines: seq<string>, t: string): string
    decreases |lines|
  {
    if lines == [] then "" else lines[0] + t + Terminated(lines[1..], t)
  }

  /** A single line without a line break is returned whole. */
  lemma SplitSingleLine(s: string)
    requires s != "" && HasNoLineBreak(s)
    ensures SplitLines(s) == [s]
  {
  }

  /** The first line ends at the first line boundary; a lone `\r` takes no `\n` with it
      unless one follows. */
  lemma SplitFirstLine(line: string, t: string, rest: string)
    requires t == "\n" || t == "\r" || t == "\r\n"
    requires HasNoLineBreak(line)
    requires t == "\r" && rest != "" ==> rest[0] != '\n'
    ensures SplitLines(line + t + rest) == [line] + SplitLines(rest)
  {
    var s := line + t + rest;
    assert s[|line|] == t[0];
    assert forall k :: 0 <= k < |line| ==> s[k] == line[k];
    var i := LineEnd(s, 0);
    LineEndIsFirstBreak(s, 0);
    assert i == |line|;
    assert t == "\r" && i + 1 < |s| ==> s[i + 1] == rest[0];
    assert s[..i] == line;
    assert s[i + |t|..] == rest;
  }

  /** A terminated block that begins with a line without breaks does not begin with
      `\n` when the terminator is a lone `\r`. */
  lemma TerminatedHead(lines: seq<string>, t: string)
    requires t == "\n" || t == "\r" || t == "\r\n"
    requires lines != [] && HasNoLineBreak(lines[0])
    ensures Terminated(lines, t) != ""
    ensures t == "\r" ==> Terminated(lines, t)[0] != '\n'
  {
    var s := Terminated(lines, t);
    assert s == lines[0] + t + Terminated(lines[1..], t);
    if |lines[0]| > 0 {
      assert s[0] == lines[0][0];
    } else {
      assert s[0] == t[0];
    }
  }

  /** Round trip: lines without breaks, each terminated by one of the three line
      boundaries, split back into exactly those lines. */
  lemma {:induction false} SplitTerminatedRoundTrip(lines: seq<string>, t: string)
    requires t == "\n" || t == "\r" || t == "\r\n"
    requires forall k :: 0 <= k < |lines| ==> HasNoLineBreak(lines[k])
    ensures SplitLines(Terminated(lines, t)) == lines
    decreases |lines|
  {
    if lines != [] {
      var rest := Terminated(lines[1..], t);
      if lines[1..] != [] {
        TerminatedHead(lines[1..], t);
      }
      SplitFirstLine(lines[0], t, rest);
      SplitTerminatedRoundTrip(lines[1..], t);
      assert lines == [lines[0]] + lines[1..];
    }
  }

  /** A block made only of line breaks holds no line that `filter(None, …)` keeps. */
  lemma {:induction false} OnlyBreaksGiveNoLines(s: string)
    requires forall k :: 0 <= k < |s| ==> IsLineBreak(s[k])
    ensures NonEmptyLines(SplitLines(s)) == []
    decreases |s|
  {
    if s != "" {
      var i := LineEnd(s, 0);
      assert i == 0;
      var next := if s[i] == '\r' && i + 1 < |s| && s[i + 1] == '\n' then i + 2 else i + 1;
      assert SplitLines(s) == [""] + SplitLines(s[next..]);
      OnlyBreaksGiveNoLines(s[next..]);
    }
  }
}
