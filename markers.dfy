/** The marker search `re.search(begin + '(.*)' + end, content, re.DOTALL | re.MULTILINE)`
    with literal markers: the match starts at the leftmost begin marker that has an end
    marker after it, and the greedy, newline-spanning `.*` runs to the last such end marker. */
module Markers {
  import opened Wrappers

  /** `pat` occurs in `s` starting at index `i`. */
  predicate OccursAt(s: string, pat: string, i: int) {
    0 <= i && i + |pat| <= |s| && s[i..i + |pat|] == pat
  }

  /** The first index at or after `from` where `pat` occurs. */
  function FirstOccurrence(s: string, pat: string, from: nat): (r: Option<nat>)
    decreases |s| + 1 - from
    ensures r.Some? ==> from <= r.value && OccursAt(s, pat, r.value)
  {
    if from + |pat| > |s| then None
    else if OccursAt(s, pat, from) then Some(from)
    else FirstOccurrence(s, pat, from + 1)
  }

  /** FirstOccurrence finds the first occurrence, and finds none only if there is none. */
  lemma {:induction false} FirstOccurrenceIsFirst(s: string, pat: string, from: nat)
    ensures FirstOccurrence(s, pat, from).Some? ==>
              forall k :: from <= k < FirstOccurrence(s, pat, from).value ==> !OccursAt(s, pat, k)
    ensures FirstOccurrence(s, pat, from).None? ==> forall k :: from <= k ==> !OccursAt(s, pat, k)
    decreases |s| + 1 - from
  {
    if from + |pat| <= |s| && !OccursAt(s, pat, from) {
      FirstOccurrenceIsFirst(s, pat, from + 1);
    }
  }

  /** The last index in `[lo, hi]` where `pat` occurs. */
  function LastOccurrence(s: string, pat: string, lo: nat, hi: int): (r: Option<nat>)
    decreases hi + 1 - lo
    ensures r.Some? ==> lo <= r.value <= hi && OccursAt(s, pat, r.value)
  {
    if hi < lo then None
    else if OccursAt(s, pat, hi) then Some(hi)
    else LastOccurrence(s, pat, lo, hi - 1)
  }

  /** LastOccurrence finds the last occurrence in range, and none only if there is none. */
  lemma {:induction false} LastOccurrenceIsLast(s: string, pat: string, lo: nat, hi: int)
    ensures LastOccurrence(s, pat, lo, hi).Some? ==>
              forall k :: LastOccurrence(s, pat, lo, hi).value < k <= hi ==> !OccursAt(s, pat, k)
    ensures LastOccurrence(s, pat, lo, hi).None? ==> forall k :: lo <= k <= hi ==> !OccursAt(s, pat, k)
    decreases hi + 1 - lo
  {
    if lo <= hi && !OccursAt(s, pat, hi) {
      LastOccurrenceIsLast(s, pat, lo, hi - 1);
    }
  }

  /** A candidate match: `begin` at `i` and `end` at `j`, the end marker
      starting after the begin marker is over. */
  predicate IsMatchSpan(s: string, begin: string, end: string, i: int, j: int) {
    OccursAt(s, begin, i) && i + |begin| <= j && OccursAt(s, end, j)
  }

  /** The span a backtracking regex engine reports: leftmost start, then longest capture. */
  ghost predicate IsLeftmostGreedy(s: string, begin: string, end: string, i: int, j: int) {
    && IsMatchSpan(s, begin, end, i, j)
    && (forall i', j' :: IsMatchSpan(s, begin, end, i', j') ==> i <= i')
    && (forall j' :: IsMatchSpan(s, begin, end, i, j') ==> j' <= j)
  }

  /** The start of the begin marker and of the end marker of the match, if any. */
  function SearchSpan(s: string, begin: string, end: string): (r: Option<(nat, nat)>)
    ensures r.Some? ==> IsMatchSpan(s, begin, end, r.value.0, r.value.1)
  {
    match FirstOccurrence(s, begin, 0)
    case None => None
    case Some(i) =>
      match LastOccurrence(s, end, i + |begin|, |s| - |end|)
      case None => None
      case Some(j) => Some((i, j))
  }

  /** `match.group(1)` if there is a match, `None` otherwise. */
  function Search(s: string, begin: string, end: string): (r: Option<string>)
    ensures r.Some? ==> |begin| + |r.value| + |end| <= |s|
  {
    match SearchSpan(s, begin, end)
    case None => None
    case Some((i, j)) =>
      assert IsMatchSpan(s, begin, end, i, j);
      Some(s[i + |begin|..j])
  }

  /** SearchSpan finds exactly the leftmost-greedy span, and finds nothing
      exactly when no begin marker is followed by an end marker. */
  lemma SearchSpanIsLeftmostGreedy(s: string, begin: string, end: string, i: nat, j: nat)
    ensures SearchSpan(s, begin, end) == Some((i, j)) <==> IsLeftmostGreedy(s, begin, end, i, j)
  {
    SearchSpanFinds(s, begin, end);
  }

  /** Any candidate match starts at or after the first begin marker, and one that starts
      there ends at or before the last end marker after it. */
  lemma SpanWithinSearch(s: string, begin: string, end: string, i': int, j': int)
    requires IsMatchSpan(s, begin, end, i', j')
    ensures FirstOccurrence(s, begin, 0).Some? && FirstOccurrence(s, begin, 0).value <= i'
    ensures var i := FirstOccurrence(s, begin, 0).value;
            var last := LastOccurrence(s, end, i + |begin|, |s| - |end|);
            last.Some? && (i' == i ==> j' <= last.value)
  {
    assert OccursAt(s, begin, i');
    FirstOccurrenceIsFirst(s, begin, 0);
    var i := FirstOccurrence(s, begin, 0).value;
    assert OccursAt(s, end, j') && i + |begin| <= j' <= |s| - |end|;
    LastOccurrenceIsLast(s, end, i + |begin|, |s| - |end|);
  }

  lemma SearchSpanFinds(s: string, begin: string, end: string)
    ensures SearchSpan(s, begin, end).Some? ==>
              IsLeftmostGreedy(s, begin, end, SearchSpan(s, begin, end).value.0, SearchSpan(s, begin, end).value.1)
    ensures SearchSpan(s, begin, end).None? <==> forall i, j :: !IsMatchSpan(s, begin, end, i, j)
  {
    forall i', j' | IsMatchSpan(s, begin, end, i', j')
      ensures SearchSpan(s, begin, end).Some?
      ensures SearchSpan(s, begin, end).value.0 <= i'
      ensures i' == SearchSpan(s, begin, end).value.0 ==> j' <= SearchSpan(s, begin, end).value.1
    {
      SpanWithinSearch(s, begin, end, i', j');
    }
  }


  /** The capture is the text between the markers of the leftmost-greedy span, and
      there is none exactly when no begin marker is followed by an end marker. */
  lemma SearchIsLeftmostGreedy(s: string, begin: string, end: string)
    ensures Search(s, begin, end).Some? ==>
              && IsLeftmostGreedy(s, begin, end, SearchSpan(s, begin, end).value.0, SearchSpan(s, begin, end).value.1)
              && Search(s, begin, end).value == s[SearchSpan(s, begin, end).value.0 + |begin|..SearchSpan(s, begin, end).value.1]
    ensures Search(s, begin, end).None? <==> forall i, j :: !IsMatchSpan(s, begin, end, i, j)
  {
    SearchSpanFinds(s, begin, end);
  }

  /** No begin marker that an end marker follows, no match. */
  lemma SearchNoneIffNoSpan(s: string, begin: string, end: string)
    ensures Search(s, begin, end).None? <==> forall i, j :: !IsMatchSpan(s, begin, end, i, j)
  {
    SearchSpanFinds(s, begin, end);
  }

  /** A match's `begin + captured + end` is a substring of the content, and the
      capture starts right after the first begin marker in the content. */
  lemma SearchCaptureIsSubstring(s: string, begin: string, end: string)
    requires Search(s, begin, end).Some?
    ensures exists i :: OccursAt(s, begin + Search(s, begin, end).value + end, i)
                        && forall k :: 0 <= k < i ==> !OccursAt(s, begin, k)
  {
    var span := SearchSpan(s, begin, end).value;
    var i, j := span.0, span.1;
    var c := Search(s, begin, end).value;
    FirstOccurrenceIsFirst(s, begin, 0);
    assert c == s[i + |begin|..j];
    assert s[i..j + |end|] == s[i..i + |begin|] + s[i + |begin|..j] + s[j..j + |end|];
    assert OccursAt(s, begin + c + end, i);
  }

  /** Round trip: text wrapped in markers comes back out, whatever it holds
      (newlines and markers in between included), provided no begin marker comes
      earlier and no end marker comes later. */
  lemma SearchEmbedded(pre: string, c: string, post: string, begin: string, end: string)
    requires forall k :: 0 <= k < |pre| ==> !OccursAt(pre + begin + c + end + post, begin, k)
    requires forall k :: |pre| + |begin| + |c| < k ==> !OccursAt(pre + begin + c + end + post, end, k)
    ensures Search(pre + begin + c + end + post, begin, end) == Some(c)
  {
    var s := pre + begin + c + end + post;
    var i, j := |pre|, |pre| + |begin| + |c|;
    assert s[i..i + |begin|] == begin;
    assert s[j..j + |end|] == end;
    assert IsMatchSpan(s, begin, end, i, j);
    SearchSpanFinds(s, begin, end);
    assert SearchSpan(s, begin, end) == Some((i, j));
    assert s[i + |begin|..j] == c;
  }

  /** Round trip with nothing around the markers. */
  lemma SearchRoundTrip(c: string, begin: string, end: string)
    ensures Search(begin + c + end, begin, end) == Some(c)
  {
    assert begin + c + end == "" + begin + c + end + "";
    SearchEmbedded("", c, "", begin, end);
  }
}
