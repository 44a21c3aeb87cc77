/** Paths as `os.path` sees them: an absolute flag and a sequence of segments.
    `dirname` drops the last segment; "/" and "" (no segments) are its fixed points. */
module Paths {

  datatype Path = Path(absolute: bool, segments: seq<string>)

  /** `os.path.dirname`. */
  function Dirname(p: Path): (d: Path)
    ensures d.absolute == p.absolute
    ensures p.segments == [] ==> d == p
    ensures p.segments != [] ==> d.segments + [p.segments[|p.segments| - 1]] == p.segments
  {
    if p.segments == [] then p else Path(p.absolute, p.segments[..|p.segments| - 1])
  }

  /** `os.path.join(dir, name)` for a plain file name. */
  function Join(dir: Path, name: string): (p: Path)
    ensures p.absolute == dir.absolute
    ensures Dirname(p) == dir
    ensures |p.segments| == |dir.segments| + 1 && p.segments[|dir.segments|] == name
  {
    Path(dir.absolute, dir.segments + [name])
  }

  /** `step` applied `k` times. */
  function Iterate(step: Path -> Path, p: Path, k: nat): Path
    decreases k
  {
    if k == 0 then p else Iterate(step, step(p), k - 1)
  }

  /** `dirname` applied `k` times. */
  function DirnameIter(p: Path, k: nat): Path {
    Iterate(Dirname, p, k)
  }

  /** One level of climbing, then the rest. */
  lemma DirnameIterStep(p: Path, k: nat)
    requires k > 0
    ensures DirnameIter(p, k) == DirnameIter(Dirname(p), k - 1)
  {
  }

  /** `dirname` changes every path except the top ("/" or ""). */
  lemma DirnameFixedPointIffTop(p: Path)
    ensures Dirname(p) == p <==> p.segments == []
  {
    if p.segments != [] {
      assert |Dirname(p).segments| < |p.segments|;
    }
  }

  /** Climbing `k` levels removes exactly the last `k` segments, and the
      top is reached after as many steps as there are segments. */
  lemma {:induction false} DirnameIterDropsSegments(p: Path, k: nat)
    ensures DirnameIter(p, k).absolute == p.absolute
    ensures k <= |p.segments| ==> DirnameIter(p, k).segments == p.segments[..|p.segments| - k]
    ensures k >= |p.segments| ==> DirnameIter(p, k).segments == []
    decreases k
  {
    if k > 0 {
      DirnameIterStep(p, k);
      DirnameIterDropsSegments(Dirname(p), k - 1);
      if p.segments != [] {
        assert Dirname(p).segments == p.segments[..|p.segments| - 1];
      }
    }
  }

  /** The relative path names the last segments of the absolute one: the
      two halves of a processor's path pair point at the same place. */
  predicate InLockstep(abs: Path, rel: Path) {
    && !rel.absolute
    && |rel.segments| <= |abs.segments|
    && abs.segments[|abs.segments| - |rel.segments|..] == rel.segments
  }

  /** Taking `dirname` of both halves of a pair keeps them in lockstep. Once
      the relative half is "", the absolute half keeps climbing above it. */
  lemma DirnameKeepsLockstep(abs: Path, rel: Path)
    requires InLockstep(abs, rel)
    ensures InLockstep(Dirname(abs), Dirname(rel))
  {
    var a, r := abs.segments, rel.segments;
    if r != [] {
      assert a[|a| - |r|..|a| - 1] == r[..|r| - 1];
      assert Dirname(abs).segments[|a| - 1 - (|r| - 1)..] == a[|a| - |r|..|a| - 1];
    }
  }

  /** Climbing both halves of a pair in lockstep `k` times keeps them in lockstep. */
  lemma {:induction false} DirnameIterKeepsLockstep(abs: Path, rel: Path, k: nat)
    requires InLockstep(abs, rel)
    ensures InLockstep(DirnameIter(abs, k), DirnameIter(rel, k))
    decreases k
  {
    if k > 0 {
      DirnameIterStep(abs, k);
      DirnameIterStep(rel, k);
      DirnameKeepsLockstep(abs, rel);
      DirnameIterKeepsLockstep(Dirname(abs), Dirname(rel), k - 1);
    }
  }

  /** The (absolute, relative) pairs a walk visits that starts at `(dir, rel)`, moves
      both by `step` while `climbs` holds, and stops after `fuel` levels. */
  ghost function Climb(step: Path -> Path, climbs: (Path, Path) -> bool, dir: Path, rel: Path, fuel: nat): seq<(Path, Path)>
    decreases fuel
  {
    if fuel == 0 then []
    else [(dir, rel)] + (if climbs(dir, rel) then Climb(step, climbs, step(dir), step(rel), fuel - 1) else [])
  }

  /** Past its first pair, a walk goes on as the walk from the next pair. */
  lemma ClimbStep(step: Path -> Path, climbs: (Path, Path) -> bool, dir: Path, rel: Path, fuel: nat, k: nat)
    requires 0 < k < |Climb(step, climbs, dir, rel, fuel)|
    ensures fuel > 0 && climbs(dir, rel)
    ensures k - 1 < |Climb(step, climbs, step(dir), step(rel), fuel - 1)|
    ensures Climb(step, climbs, dir, rel, fuel)[k] == Climb(step, climbs, step(dir), step(rel), fuel - 1)[k - 1]
  {
  }

  /** The k-th pair of a walk is `step` applied k times to both starting paths. */
  lemma {:induction false} ClimbFollowsSteps(step: Path -> Path, climbs: (Path, Path) -> bool, dir: Path, rel: Path, fuel: nat, k: nat)
    requires k < |Climb(step, climbs, dir, rel, fuel)|
    ensures k < fuel
    ensures Climb(step, climbs, dir, rel, fuel)[k] == (Iterate(step, dir, k), Iterate(step, rel, k))
    decreases fuel
  {
    if k > 0 {
      ClimbStep(step, climbs, dir, rel, fuel, k);
      ClimbFollowsSteps(step, climbs, step(dir), step(rel), fuel - 1, k - 1);
    }
  }
}
