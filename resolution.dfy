/** Properties of the resolution walk: when each level climbs, what it reads, how
    failures are contained, and how the path pair moves. */
module Resolution {
  import opened Wrappers
  import opened Paths
  import opened Markers
  import opened Lines
  import opened Results
  import opened MetadataProcessor

  /** The two filesystems hold the same thing (or nothing) at `p`. */
  predicate AgreeAt(fs1: FileSystem, fs2: FileSystem, p: Path) {
    (p in fs1 <==> p in fs2) && (p in fs1 ==> fs1[p] == fs2[p])
  }

  // ---- the file level ------------------------------------------------------

  /** The file level raises exactly when the changed file exists but cannot be read;
      every failure further up is caught. */
  lemma FileResolutionFailsOnlyOnUnreadableFile<A>(ops: ResultOps<A>, fs: FileSystem, h: Headers, path: Path, rel: Path, fuel: nat)
    ensures FileResolution(ops, fs, h, path, rel, fuel).Err? <==> path in fs && fs[path].Unreadable?
    ensures FileResolution(ops, fs, h, path, rel, fuel).Err? ==> FileResolution(ops, fs, h, path, rel, fuel).error == ReadFailed(path)
  {
  }

  /** A changed file that does not exist contributes nothing of its own: its local
      results are the fresh container, and only the directory walk can add to it. */
  lemma MissingFileHasEmptyLocal<A>(ops: ResultOps<A>, fs: FileSystem, h: Headers, path: Path, rel: Path, fuel: nat)
    requires path !in fs
    ensures FileLocal(ops, fs, h, path, rel) == Ok(ops.empty)
    ensures ops.recursive(ops.empty) == Some("0") ==> FileResolution(ops, fs, h, path, rel, fuel) == Ok(ops.empty)
    ensures ops.recursive(ops.empty) != Some("0") ==>
              FileResolution(ops, fs, h, path, rel, fuel)
              == Ok(Absorb(ops, ops.empty, DirResolution(ops, fs, h, Dirname(path), Dirname(rel), fuel)))
  {
    ParsedEmptyBlock(ops, "", rel);
  }

  /** A changed file without markers contributes nothing of its own either: its
      block is `""`, so its local results are the fresh container. */
  lemma MarkerlessFileHasEmptyLocal<A>(ops: ResultOps<A>, fs: FileSystem, h: Headers, path: Path, rel: Path)
    requires path in fs && fs[path].Text?
    requires Search(fs[path].content, h.begin, h.end).None?
    ensures FileBlock(fs, h, path) == Ok("")
    ensures FileLocal(ops, fs, h, path, rel) == Ok(ops.empty)
  {
    ParsedEmptyBlock(ops, "", rel);
  }

  /** A changed file holding a block between markers: its own results are exactly one
      `add_content` per non-empty line of the block, in order, tagged with its path. */
  lemma EmbeddedFileLocal(decide: seq<Record> -> Option<string>, fs: FileSystem, h: Headers, path: Path, rel: Path,
                          pre: string, c: string, post: string)
    requires path in fs && fs[path] == Text(pre + h.begin + c + h.end + post)
    requires forall k :: 0 <= k < |pre| ==> !OccursAt(pre + h.begin + c + h.end + post, h.begin, k)
    requires forall k :: |pre| + |h.begin| + |c| < k ==> !OccursAt(pre + h.begin + c + h.end + post, h.end, k)
    ensures FileBlock(fs, h, path) == Ok(c)
    ensures FileLocal(Recorder(decide), fs, h, path, rel) == Ok(Tagged(NonEmptyLines(SplitLines(c)), rel))
  {
    SearchEmbedded(pre, c, post, h.begin, h.end);
    ParsedAddsEachLineOnce(decide, c, rel);
  }

  /** The same for a directory's review.metadata. */
  lemma EmbeddedDirLocal(decide: seq<Record> -> Option<string>, fs: FileSystem, h: Headers, dir: Path, rel: Path,
                         pre: string, c: string, post: string)
    requires Join(dir, MetadataFileName) in fs && fs[Join(dir, MetadataFileName)] == Text(pre + h.begin + c + h.end + post)
    requires forall k :: 0 <= k < |pre| ==> !OccursAt(pre + h.begin + c + h.end + post, h.begin, k)
    requires forall k :: |pre| + |h.begin| + |c| < k ==> !OccursAt(pre + h.begin + c + h.end + post, h.end, k)
    ensures DirBlock(fs, h, dir) == Ok(Some(c))
    ensures DirLocal(Recorder(decide), fs, h, dir, rel) == Ok(Tagged(NonEmptyLines(SplitLines(c)), rel))
  {
    SearchEmbedded(pre, c, post, h.begin, h.end);
    ParsedAddsEachLineOnce(decide, c, rel);
  }

  /** The file level looks at its directory exactly when its directive is not `"0"`;
      an absent directive counts as "go on". */
  lemma FileClimbsUnlessZero<A>(ops: ResultOps<A>, fs: FileSystem, h: Headers, path: Path, rel: Path, fuel: nat, local: A)
    requires FileLocal(ops, fs, h, path, rel) == Ok(local)
    requires fuel > 0
    ensures |FileLookups(ops, fs, h, path, rel, fuel)| > 1 <==> ops.recursive(local) != Some("0")
    ensures ops.recursive(local) == Some("0") ==>
              FileLookups(ops, fs, h, path, rel, fuel) == [path] && FileResolution(ops, fs, h, path, rel, fuel) == Ok(local)
    ensures ops.recursive(local).None? ==>
              FileLookups(ops, fs, h, path, rel, fuel)[1] == Join(Dirname(path), MetadataFileName)
  {

  }

  /** The file level reads nothing but the paths FileLookups lists: two filesystems
      that agree there resolve the file identically. */
  lemma FileReadsOnlyLookups<A>(ops: ResultOps<A>, fs1: FileSystem, fs2: FileSystem, h: Headers, path: Path, rel: Path, fuel: nat)
    requires forall p :: p in FileLookups(ops, fs1, h, path, rel, fuel) ==> AgreeAt(fs1, fs2, p)
    ensures FileResolution(ops, fs1, h, path, rel, fuel) == FileResolution(ops, fs2, h, path, rel, fuel)
    ensures FileLookups(ops, fs1, h, path, rel, fuel) == FileLookups(ops, fs2, h, path, rel, fuel)
  {
    assert AgreeAt(fs1, fs2, path);
    assert FileLocal(ops, fs1, h, path, rel) == FileLocal(ops, fs2, h, path, rel);
    if FileClimbs(ops, fs1, h, path, rel) {
      DirReadsOnlyLookups(ops, fs1, fs2, h, Dirname(path), Dirname(rel), fuel);
    }
  }

  // ---- the directory level -------------------------------------------------

  /** A directory's metadata is looked up only at `<dir>/review.metadata`; without
      that file its local results are the fresh container. */
  lemma AbsentMetadataFileGivesEmptyLocal<A>(ops: ResultOps<A>, fs: FileSystem, h: Headers, dir: Path, rel: Path, fuel: nat)
    requires Join(dir, MetadataFileName) !in fs
    ensures DirLocal(ops, fs, h, dir, rel) == Ok(ops.empty)
    ensures fuel > 0 ==> DirLookups(ops, fs, h, dir, rel, fuel)[0] == Join(dir, MetadataFileName)
  {
    ParsedEmptyBlock(ops, "", rel);
  }

  /** The directory level climbs exactly when its directive is truthy: present and
      non-empty, so `"0"` climbs here although it stops the file level. */
  lemma DirClimbsIffTruthy<A>(ops: ResultOps<A>, fs: FileSystem, h: Headers, dir: Path, rel: Path, fuel: nat, local: A)
    requires DirLocal(ops, fs, h, dir, rel) == Ok(local)
    requires fuel > 1
    ensures |DirLevels(ops, fs, h, dir, rel, fuel)| > 1 <==> (ops.recursive(local).Some? && ops.recursive(local).value != "")
    ensures ops.recursive(local) == Some("0") ==>
              DirLevels(ops, fs, h, dir, rel, fuel)[1] == (Dirname(dir), Dirname(rel))
  {
    if Truthy(ops.recursive(local)) {
      assert DirLevels(ops, fs, h, Dirname(dir), Dirname(rel), fuel - 1)[0] == (Dirname(dir), Dirname(rel));
    }
  }

  /** A directory level whose directive is not truthy returns its local results and
      consults nothing above it. */
  lemma DirStopsUnlessTruthy<A>(ops: ResultOps<A>, fs: FileSystem, h: Headers, dir: Path, rel: Path, fuel: nat, local: A)
    requires DirLocal(ops, fs, h, dir, rel) == Ok(local)
    requires fuel > 0
    requires !Truthy(ops.recursive(local))
    ensures DirResolution(ops, fs, h, dir, rel, fuel) == Ok(local)
    ensures DirLevels(ops, fs, h, dir, rel, fuel) == [(dir, rel)]
  {
  }

  /** When a directory level raises: the call chain is full, its review.metadata cannot
      be read, or its review.metadata has no markers (`None.splitlines()`). */
  lemma DirResolutionRaisesIff<A>(ops: ResultOps<A>, fs: FileSystem, h: Headers, dir: Path, rel: Path, fuel: nat)
    ensures DirResolution(ops, fs, h, dir, rel, fuel).Err? <==>
              || fuel == 0
              || (Join(dir, MetadataFileName) in fs && fs[Join(dir, MetadataFileName)].Unreadable?)
              || (Join(dir, MetadataFileName) in fs && fs[Join(dir, MetadataFileName)].Text?
                  && Search(fs[Join(dir, MetadataFileName)].content, h.begin, h.end).None?)
  {
  }

  /** Failure isolation: when the parent level raises, the level below returns its
      own results unchanged. */
  lemma ParentFailureKeepsLocal<A>(ops: ResultOps<A>, fs: FileSystem, h: Headers, path: Path, rel: Path, fuel: nat, local: A)
    requires FileLocal(ops, fs, h, path, rel) == Ok(local)
    requires DirResolution(ops, fs, h, Dirname(path), Dirname(rel), fuel).Err?
    ensures FileResolution(ops, fs, h, path, rel, fuel) == Ok(local)
  {
  }

  /** A directory level whose directive is truthy merges what the level above returns
      into its own results. */
  lemma DirMergesParent<A>(ops: ResultOps<A>, fs: FileSystem, h: Headers, dir: Path, rel: Path, fuel: nat, local: A, parent: A)
    requires DirLocal(ops, fs, h, dir, rel) == Ok(local) && fuel > 0
    requires Truthy(ops.recursive(local))
    requires DirResolution(ops, fs, h, Dirname(dir), Dirname(rel), fuel - 1) == Ok(parent)
    ensures DirResolution(ops, fs, h, dir, rel, fuel) == Ok(ops.merge(local, parent))
  {
  }

  /** Failure isolation at a directory level: when the level above raises, the
      directory returns its own results unchanged. */
  lemma DirParentFailureKeepsLocal<A>(ops: ResultOps<A>, fs: FileSystem, h: Headers, dir: Path, rel: Path, fuel: nat, local: A)
    requires DirLocal(ops, fs, h, dir, rel) == Ok(local) && fuel > 0
    requires DirResolution(ops, fs, h, Dirname(dir), Dirname(rel), fuel - 1).Err?
    ensures DirResolution(ops, fs, h, dir, rel, fuel) == Ok(local)
  {
  }

  /** A review.metadata without markers above a file cuts the walk there: neither that
      directory nor anything above it contributes, whatever their metadata says. */
  lemma MarkerlessDirectoryHidesAncestors<A>(ops: ResultOps<A>, fs: FileSystem, h: Headers, path: Path, rel: Path, fuel: nat, local: A, content: string)
    requires FileLocal(ops, fs, h, path, rel) == Ok(local)
    requires fuel > 0
    requires Join(Dirname(path), MetadataFileName) in fs && fs[Join(Dirname(path), MetadataFileName)] == Text(content)
    requires Search(content, h.begin, h.end).None?
    ensures FileResolution(ops, fs, h, path, rel, fuel) == Ok(local)
  {
    DirResolutionRaisesIff(ops, fs, h, Dirname(path), Dirname(rel), fuel);
  }

  // ---- what the walk reads, and where it goes -----------------------------------

  /** A directory's own results depend on its review.metadata alone. */
  lemma DirLocalReadsOnlyItsFile<A>(ops: ResultOps<A>, fs1: FileSystem, fs2: FileSystem, h: Headers, dir: Path, rel: Path)
    requires AgreeAt(fs1, fs2, Join(dir, MetadataFileName))
    ensures DirLocal(ops, fs1, h, dir, rel) == DirLocal(ops, fs2, h, dir, rel)
  {
    assert DirBlock(fs1, h, dir) == DirBlock(fs2, h, dir);
  }

  /** The directory walk reads nothing but the paths DirLookups lists. */
  lemma {:induction false} DirReadsOnlyLookups<A>(ops: ResultOps<A>, fs1: FileSystem, fs2: FileSystem, h: Headers, dir: Path, rel: Path, fuel: nat)
    requires forall p :: p in DirLookups(ops, fs1, h, dir, rel, fuel) ==> AgreeAt(fs1, fs2, p)
    ensures DirResolution(ops, fs1, h, dir, rel, fuel) == DirResolution(ops, fs2, h, dir, rel, fuel)
    ensures DirLookups(ops, fs1, h, dir, rel, fuel) == DirLookups(ops, fs2, h, dir, rel, fuel)
    decreases fuel
  {
    if fuel > 0 {
      var levels := DirLevels(ops, fs1, h, dir, rel, fuel);
      assert levels[0] == (dir, rel);
      assert MetadataPaths(levels)[0] == Join(dir, MetadataFileName);
      DirLocalReadsOnlyItsFile(ops, fs1, fs2, h, dir, rel);
      if DirClimbs(ops, fs1, h, dir, rel) {
        var up := DirLevels(ops, fs1, h, Dirname(dir), Dirname(rel), fuel - 1);
        assert levels[1..] == up;
        assert MetadataPaths(levels) == [Join(dir, MetadataFileName)] + MetadataPaths(up);
        DirReadsOnlyLookups(ops, fs1, fs2, h, Dirname(dir), Dirname(rel), fuel - 1);
      }
    }
  }

  /** The lookups are the review.metadata files of the levels, in order. */
  lemma {:induction false} MetadataPathsAt(levels: seq<(Path, Path)>, k: nat)
    requires k < |levels|
    ensures |MetadataPaths(levels)| == |levels|
    ensures MetadataPaths(levels)[k] == Join(levels[k].0, MetadataFileName)
    decreases |levels|
  {
    if |levels| > 1 {
      MetadataPathsAt(levels[1..], if k == 0 then 0 else k - 1);
    }
  }

  /** The k-th directory level is `dirname` applied k times to both halves of the
      starting pair: the two always move together. */
  lemma DirLevelsFollowDirname<A>(ops: ResultOps<A>, fs: FileSystem, h: Headers, dir: Path, rel: Path, fuel: nat, k: nat)
    requires k < |DirLevels(ops, fs, h, dir, rel, fuel)|
    ensures k < fuel
    ensures DirLevels(ops, fs, h, dir, rel, fuel)[k] == (DirnameIter(dir, k), DirnameIter(rel, k))
  {
    ClimbFollowsSteps(Dirname, (d, r) => DirClimbs(ops, fs, h, d, r), dir, rel, fuel, k);
  }

  /** A starting pair in lockstep stays in lockstep at every level of the walk. */
  lemma DirLevelsInLockstep<A>(ops: ResultOps<A>, fs: FileSystem, h: Headers, dir: Path, rel: Path, fuel: nat, k: nat)
    requires InLockstep(dir, rel)
    requires k < |DirLevels(ops, fs, h, dir, rel, fuel)|
    ensures InLockstep(DirLevels(ops, fs, h, dir, rel, fuel)[k].0, DirLevels(ops, fs, h, dir, rel, fuel)[k].1)
  {
    DirLevelsFollowDirname(ops, fs, h, dir, rel, fuel, k);
    DirnameIterKeepsLockstep(dir, rel, k);
  }

  // ---- the top of the tree --------------------------------------------------

  /** The directory's local results merged with themselves: `n` copies. */
  function Repeated<A>(ops: ResultOps<A>, local: A, n: nat): A
    requires n >= 1
    decreases n
  {
    if n == 1 then local else ops.merge(local, Repeated(ops, local, n - 1))
  }

  /** Nothing stops the walk at the top: `dirname("/")` is `"/"`, so a top-level
      review.metadata whose directive is truthy is read again at every level until the
      call chain is full, and its results are merged in once per level. */
  lemma {:induction false} TopLevelRepeatsUntilLimit<A>(ops: ResultOps<A>, fs: FileSystem, h: Headers, top: Path, relTop: Path, n: nat, local: A)
    requires top.segments == [] && relTop.segments == []
    requires DirLocal(ops, fs, h, top, relTop) == Ok(local) && Truthy(ops.recursive(local))
    requires n >= 1
    ensures DirResolution(ops, fs, h, top, relTop, n) == Ok(Repeated(ops, local, n))
    ensures |DirLevels(ops, fs, h, top, relTop, n)| == n
    decreases n
  {
    assert Dirname(top) == top && Dirname(relTop) == relTop;
    if n > 1 {
      TopLevelRepeatsUntilLimit(ops, fs, h, top, relTop, n - 1, local);
    }
  }

  // ---- whole walks ------------------------------------------------------------

  /** With no review.metadata anywhere on the way up, the walk yields the fresh
      container, provided merging two fresh containers gives a fresh one. */
  lemma {:induction false} NoReviewMetadataGivesEmpty<A>(ops: ResultOps<A>, fs: FileSystem, h: Headers, dir: Path, rel: Path, fuel: nat)
    requires ops.merge(ops.empty, ops.empty) == ops.empty
    requires forall k :: 0 <= k < fuel ==> Join(DirnameIter(dir, k), MetadataFileName) !in fs
    ensures fuel > 0 ==> DirResolution(ops, fs, h, dir, rel, fuel) == Ok(ops.empty)
    decreases fuel
  {
    if fuel > 0 {
      assert DirnameIter(dir, 0) == dir;
      AbsentMetadataFileGivesEmptyLocal(ops, fs, h, dir, rel, fuel);
      if Truthy(ops.recursive(ops.empty)) && fuel > 1 {
        forall k | 0 <= k < fuel - 1
          ensures Join(DirnameIter(Dirname(dir), k), MetadataFileName) !in fs
        {
          DirnameIterStep(dir, k + 1);
        }
        NoReviewMetadataGivesEmpty(ops, fs, h, Dirname(dir), Dirname(rel), fuel - 1);
      }
    }
  }

  /** A changed file without metadata (missing, or without markers) and with no
      review.metadata on the way up resolves to the fresh container. */
  lemma FileWithoutMetadataGivesEmpty<A>(ops: ResultOps<A>, fs: FileSystem, h: Headers, path: Path, rel: Path, fuel: nat)
    requires ops.merge(ops.empty, ops.empty) == ops.empty
    requires path !in fs || (fs[path].Text? && Search(fs[path].content, h.begin, h.end).None?)
    requires forall k :: 0 <= k < fuel ==> Join(DirnameIter(Dirname(path), k), MetadataFileName) !in fs
    ensures FileResolution(ops, fs, h, path, rel, fuel) == Ok(ops.empty)
  {
    ParsedEmptyBlock(ops, "", rel);
    assert FileLocal(ops, fs, h, path, rel) == Ok(ops.empty);
    NoReviewMetadataGivesEmpty(ops, fs, h, Dirname(path), Dirname(rel), fuel);
  }

  /** With the recording container, the file's own entries come first and whatever
      the directory walk returned is appended after them, unchanged. */
  lemma LocalEntriesComeFirst(decide: seq<Record> -> Option<string>, fs: FileSystem, h: Headers, path: Path, rel: Path, fuel: nat, local: seq<Record>)
    requires FileLocal(Recorder(decide), fs, h, path, rel) == Ok(local)
    ensures FileResolution(Recorder(decide), fs, h, path, rel, fuel).Ok?
    ensures var r := FileResolution(Recorder(decide), fs, h, path, rel, fuel).value;
            && |local| <= |r| && r[..|local|] == local
            && (FileClimbs(Recorder(decide), fs, h, path, rel)
                && DirResolution(Recorder(decide), fs, h, Dirname(path), Dirname(rel), fuel).Ok? ==>
                r[|local|..] == DirResolution(Recorder(decide), fs, h, Dirname(path), Dirname(rel), fuel).value)
  {
  }

  /** With the spy container, a directory's own entries come first, and when its
      directive is truthy and the level above returns, that level's entries follow unchanged. */
  lemma DirLocalEntriesComeFirst(decide: seq<Record> -> Option<string>, fs: FileSystem, h: Headers, dir: Path, rel: Path, fuel: nat, local: seq<Record>)
    requires DirLocal(Recorder(decide), fs, h, dir, rel) == Ok(local) && fuel > 0
    ensures DirResolution(Recorder(decide), fs, h, dir, rel, fuel).Ok?
    ensures var r := DirResolution(Recorder(decide), fs, h, dir, rel, fuel).value;
            && |local| <= |r| && r[..|local|] == local
            && (Truthy(decide(local))
                && DirResolution(Recorder(decide), fs, h, Dirname(dir), Dirname(rel), fuel - 1).Ok? ==>
                r[|local|..] == DirResolution(Recorder(decide), fs, h, Dirname(dir), Dirname(rel), fuel - 1).value)
  {
  }
}
