/** The results accumulator and `_parse_metadata`. The container (`ResultsContainer`) and
    the one-line parser (`MetadataLineWrapper.add_content`) are not part of this model: they
    are uninterpreted operations over an abstract container type `A`. */
module Results {
  import opened Wrappers
  import opened Paths
  import opened Lines

  /** The exceptions a resolution level can raise. */
  datatype Error =
    | ReadFailed(path: Path)       // `open(path)` / `read()` raised (IOError)
    | SplitlinesOnNone             // `None.splitlines()`: a review.metadata without markers
    | RecursionLimitExceeded       // Python's limit on the depth of the call chain

  /** What the resolvers need from the container:
      `empty` is a fresh `ResultsContainer()`,
      `addContent(line, rel, acc)` is `MetadataLineWrapper(line, rel).add_content(acc)`,
      `merge(local, parent)` is `local += parent`,
      `recursive(acc)` is `acc.recursive` (`None` when the directive is absent). */
  datatype ResultOps<!A> = ResultOps(
    empty: A,
    addContent: (string, Path, A) -> A,
    merge: (A, A) -> A,
    recursive: A -> Option<string>)

  /** Feeds `lines` one by one, in order, into `acc`. */
  function ApplyLines<A>(ops: ResultOps<A>, lines: seq<string>, rel: Path, acc: A): A
    decreases |lines|
  {
    if lines == [] then acc else ApplyLines(ops, lines[1..], rel, ops.addContent(lines[0], rel, acc))
  }

  /** What `_parse_metadata(metadata, rel)` returns or raises; `metadata` is Python's
      `str`-or-`None`. */
  function Parsed<A>(ops: ResultOps<A>, metadata: Option<string>, rel: Path): (r: Result<A, Error>)
    ensures r.Err? <==> metadata.None?
    ensures r.Err? ==> r.error == SplitlinesOnNone
    ensures metadata == Some("") ==> r == Ok(ops.empty)
  {
    match metadata
    case None => Err(SplitlinesOnNone)
    case Some(block) => Ok(ApplyLines(ops, NonEmptyLines(SplitLines(block)), rel, ops.empty))
  }

  /** `_parse_metadata`: a fresh container, then every non-empty line of the block added to it. */
  method ParseMetadataBlock<A>(ops: ResultOps<A>, metadata: Option<string>, fileRelativePath: Path)
    returns (r: Result<A, Error>)
    ensures r == Parsed(ops, metadata, fileRelativePath)
  {
    if metadata.None? {
      return Err(SplitlinesOnNone);
    }
    var results := ops.empty;
    var lines := NonEmptyLines(SplitLines(metadata.value));
    var i := 0;
    while i < |lines|
      invariant 0 <= i <= |lines|
      invariant ApplyLines(ops, lines[i..], fileRelativePath, results)
             == ApplyLines(ops, lines, fileRelativePath, ops.empty)
    {
      assert lines[i..][1..] == lines[i + 1..];
      results := ops.addContent(lines[i], fileRelativePath, results);
      i := i + 1;
    }
    return Ok(results);
  }

  /** Folding over two runs of lines is folding over the first, then the second. */
  lemma {:induction false} ApplyLinesAppend<A>(ops: ResultOps<A>, a: seq<string>, b: seq<string>, rel: Path, acc: A)
    ensures ApplyLines(ops, a + b, rel, acc) == ApplyLines(ops, b, rel, ApplyLines(ops, a, rel, acc))
    decreases |a|
  {
    if a == [] {
      assert a + b == b;
    } else {
      assert (a + b)[0] == a[0];
      assert (a + b)[1..] == a[1..] + b;
      ApplyLinesAppend(ops, a[1..], b, rel, ops.addContent(a[0], rel, acc));
    }
  }

  /** Only a missing block (`None`) raises; an empty block, or one made only of line
      breaks, gives the fresh container untouched. */
  lemma ParsedEmptyBlock<A>(ops: ResultOps<A>, block: string, rel: Path)
    requires forall k :: 0 <= k < |block| ==> IsLineBreak(block[k])
    ensures Parsed(ops, Some(block), rel) == Ok(ops.empty)
    ensures Parsed(ops, None, rel).Err?
  {
    OnlyBreaksGiveNoLines(block);
  }

  /** A line made only of spaces is not dropped: only empty lines are. */
  lemma ParsedKeepsWhitespaceLine<A>(ops: ResultOps<A>, rel: Path)
    ensures Parsed(ops, Some(" \n\n"), rel) == Ok(ops.addContent(" ", rel, ops.empty))
  {
    SplitTerminatedRoundTrip([" ", ""], "\n");
    assert Terminated([" ", ""], "\n") == " \n\n";
    assert [" ", ""][1..] == [""];
    assert NonEmptyLines([" ", ""]) == [" "];
    assert ApplyLines(ops, [" "], rel, ops.empty) == ApplyLines(ops, [], rel, ops.addContent(" ", rel, ops.empty));
  }

  /** An entry of the recording container: the line and the relative path it was added with. */
  type Record = (string, Path)

  /** A spy container that records every `add_content` call; `merge` appends the
      parent's records after the local ones. Its `recursive` directive is `decide`. */
  function Recorder(decide: seq<Record> -> Option<string>): ResultOps<seq<Record>> {
    ResultOps([], (line, rel, acc) => acc + [(line, rel)], (local, parent) => local + parent, decide)
  }

  /** `lines`, each paired with `rel`. */
  function Tagged(lines: seq<string>, rel: Path): seq<Record> {
    seq(|lines|, k requires 0 <= k < |lines| => (lines[k], rel))
  }

  /** Folding into the recorder appends exactly the lines, in order, each with `rel`. */
  lemma {:induction false} ApplyLinesRecords(decide: seq<Record> -> Option<string>, lines: seq<string>, rel: Path, acc: seq<Record>)
    ensures ApplyLines(Recorder(decide), lines, rel, acc) == acc + Tagged(lines, rel)
    decreases |lines|
  {
    if lines != [] {
      var ops := Recorder(decide);
      ApplyLinesRecords(decide, lines[1..], rel, ops.addContent(lines[0], rel, acc));
      assert Tagged(lines, rel) == [(lines[0], rel)] + Tagged(lines[1..], rel);
    }
  }

  /** `_parse_metadata` calls `add_content` once for each non-empty line of the
      block, in order, always with the same relative path, starting from nothing. */
  lemma ParsedAddsEachLineOnce(decide: seq<Record> -> Option<string>, block: string, rel: Path)
    ensures Parsed(Recorder(decide), Some(block), rel) == Ok(Tagged(NonEmptyLines(SplitLines(block)), rel))
  {
    var tagged := Tagged(NonEmptyLines(SplitLines(block)), rel);
    ApplyLinesRecords(decide, NonEmptyLines(SplitLines(block)), rel, []);
    assert [] + tagged == tagged;
  }
}
