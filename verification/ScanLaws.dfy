/** What matching two scans promises about their points, for relocalization and for loop closure:
    robot_brain/navigation/relocalization.py:105-215 and pose_graph.py:313-367. */
module ScanLaws {
  import opened RealMath
  import opened Grid
  import opened Poses
  import opened Costmap
  import opened ScanScore
  import opened ScanSearch
  import opened LoopClosure

  // ----- the points of a scan -----

  predicate SameBlock(size: real, a: Point, b: Point)
    requires size > 0.0
  {
    (a.x / size).Floor == (b.x / size).Floor && (a.y / size).Floor == (b.y / size).Floor
  }

  ghost predicate IsInBand(points: seq<Point3>, low: real, high: real, q: Point) {
    exists p :: p in points && low <= p.z <= high && q == Point(p.x, p.y)
  }

  ghost predicate Represents(kept: seq<Point>, size: real, q: Point)
    requires size > 0.0
  {
    exists k :: k in kept && SameBlock(size, k, q)
  }

  /** Points of the band of heights, at most one from each square, no more than the limit, and one
      from every square that has any unless the limit is reached. */
  ghost predicate IsScanOf(kept: seq<Point>, points: seq<Point3>, low: real, high: real, size: real, limit: nat)
    requires size > 0.0
  {
    && (forall q :: q in kept ==> IsInBand(points, low, high, q))
    && (forall i, j :: 0 <= i < j < |kept| ==> !SameBlock(size, kept[i], kept[j]))
    && |kept| <= limit
    && (|kept| < limit ==> forall q :: IsInBand(points, low, high, q) ==> Represents(kept, size, q))
  }

  lemma {:induction false} PlanarExactly(points: seq<Point3>, low: real, high: real, q: Point)
    ensures q in PlanarPoints(points, low, high) <==> IsInBand(points, low, high, q)
  {
    if points != [] {
      PlanarExactly(points[..|points| - 1], low, high, q);
      assert points == points[..|points| - 1] + [points[|points| - 1]];
    }
  }

  lemma {:induction false} DistinctBlocks(kept: seq<Point>, size: real)
    requires size > 0.0 && |Blocks(kept, size)| == |kept|
    ensures forall i, j :: 0 <= i < j < |kept| ==> !SameBlock(size, kept[i], kept[j])
  {
    if kept != [] {
      var init, last := kept[..|kept| - 1], kept[|kept| - 1];
      assert kept == init + [last];
      assert Blocks(kept, size) == Blocks(init, size) + {BlockOf(last, size)};
      BlocksFewer(init, size);
      DistinctBlocks(init, size);
      forall i | 0 <= i < |init| ensures !SameBlock(size, kept[i], last) {
        assert init[i] in init;
      }
    }
  }

  lemma {:induction false} BlocksFewer(kept: seq<Point>, size: real)
    requires size > 0.0
    ensures |Blocks(kept, size)| <= |kept|
  {
    if kept != [] {
      var init, last := kept[..|kept| - 1], kept[|kept| - 1];
      assert kept == init + [last];
      assert Blocks(kept, size) == Blocks(init, size) + {BlockOf(last, size)};
      BlocksFewer(init, size);
    }
  }

  lemma ThinnedIsScan(points: seq<Point3>, low: real, high: real, size: real, limit: nat)
    requires size > 0.0 && limit > 0
    ensures IsScanOf(Thinned(PlanarPoints(points, low, high), size, limit), points, low, high, size, limit)
  {
    var planar := PlanarPoints(points, low, high);
    var kept := Thinned(planar, size, limit);
    ThinnedIsSample(planar, size, limit);
    DistinctBlocks(kept, size);
    forall q ensures q in planar <==> IsInBand(points, low, high, q) {
      PlanarExactly(points, low, high, q);
    }
    if |kept| < limit {
      forall q | IsInBand(points, low, high, q) ensures Represents(kept, size, q) {
        assert BlockOf(q, size) in Blocks(planar, size);
      }
    }
  }

  /** The two scans a relocalization compares. */
  lemma RelocalizationScans(sqrt: real -> real, trig: Trig, r: Request)
    requires r.Valid()
    ensures IsScanOf(r.Scans(sqrt, trig).source, r.cloud, -0.2, 1.8, r.resolution, 500)
    ensures IsScanOf(r.Scans(sqrt, trig).target, r.reference, -0.2, 1.8, r.resolution, 10000)
  {
    ThinnedIsScan(r.cloud, -0.2, 1.8, r.resolution, 500);
    ThinnedIsScan(r.reference, -0.2, 1.8, r.resolution, 10000);
  }

  /** And the scans a loop closure compares. */
  lemma LoopScans(points: seq<Point3>, reach: real)
    requires reach > 0.0
    ensures IsScanOf(LoopScan(points, reach), points, -0.3, 1.8, reach / 2.0, 4000)
  {
    ThinnedIsScan(points, -0.3, 1.8, reach / 2.0, 4000);
  }

  // ----- what the best placement is best at -----

  /** How many points of the scan a placement brings within reach of the other scan. */
  ghost function Reach(m: Matcher, pose: Pose): nat {
    |ReachedBy(m.trig, m.source, m.target, pose, m.reach)|
  }

  /** The root mean square of their gaps. */
  ghost predicate IsError(m: Matcher, pose: Pose, e: real) {
    forall d: nat -> real :: AreLeastGaps(m.trig, m.source, m.target, pose, m.reach, d) ==>
      IsRootMeanOf(e, SumOver(d, ReachedBy(m.trig, m.source, m.target, pose, m.reach), |m.source|), Reach(m, pose))
  }

  /** The other placement reaches no more points, and with as many it has no smaller error. */
  ghost predicate NoFitter(m: Matcher, best: Pose, other: Pose) {
    && Reach(m, other) <= Reach(m, best)
    && (Reach(m, other) == Reach(m, best) > 0 ==> forall a, b :: IsError(m, best, a) && IsError(m, other, b) ==> a <= b)
  }

  lemma ErrorIsUnique(m: Matcher, pose: Pose, a: real, b: real)
    requires IsError(m, pose, a) && IsError(m, pose, b) && Reach(m, pose) > 0
    ensures a == b
  {
    var d := (i: nat) => if i < |m.source| then NearestGap(Place(m.trig, pose, m.source[i]), m.target) else 0.0;
    OwnGapsAreLeast(m.trig, m.source, m.target, pose, m.reach, d);
    var sum := ErrorAt(m, pose, a, d);
    var same := ErrorAt(m, pose, b, d);
    SameRoot(a, b, sum, Reach(m, pose));
  }

  lemma ErrorAt(m: Matcher, pose: Pose, e: real, d: nat -> real) returns (sum: real)
    requires IsError(m, pose, e) && AreLeastGaps(m.trig, m.source, m.target, pose, m.reach, d)
    ensures sum == SumOver(d, ReachedBy(m.trig, m.source, m.target, pose, m.reach), |m.source|)
    ensures IsRootMeanOf(e, sum, Reach(m, pose))
  {
    sum := SumOver(d, ReachedBy(m.trig, m.source, m.target, pose, m.reach), |m.source|);
  }

  lemma SameRoot(a: real, b: real, sum: real, count: nat)
    requires IsRootMeanOf(a, sum, count) && IsRootMeanOf(b, sum, count) && count > 0
    ensures a == b
  {
    var gap := ProductSign(a * a - b * b, count as real);
    assert gap == a * a * count as real - b * b * count as real;
    SquareOrder(a, b);
    SquareOrder(b, a);
  }

  lemma ScoreMeans(m: Matcher, pose: Pose)
    requires IsSqrt(m.sqrt)
    ensures ScoresAs(m, pose, m.At(pose).score)
  {
    BruteScoreMeans(m.sqrt, m.trig, m.source, m.target, pose, m.reach);
    ScoreUnfolds(m, pose, m.At(pose).score);
  }

  /** What a score says of its placement. */
  ghost predicate ScoresAs(m: Matcher, pose: Pose, score: MatchScore) {
    && score.inliers == Reach(m, pose) <= |m.source| && IsShare(score.fitness, Reach(m, pose), |m.source|)
    && (score.rmse.None? <==> Reach(m, pose) == 0)
    && (score.rmse.Some? ==> IsError(m, pose, score.rmse.value))
  }

  lemma ScoreUnfolds(m: Matcher, pose: Pose, score: MatchScore)
    requires IsScore(m.trig, m.source, m.target, pose, m.reach, score) && Reach(m, pose) <= |m.source|
    ensures ScoresAs(m, pose, score)
  {
  }

  lemma ShareOrder(a: real, b: real, m: nat, n: nat, whole: nat)
    requires IsShare(a, m, whole) && IsShare(b, n, whole) && m <= whole && n <= whole
    ensures a <= b <==> m <= n
    ensures a == b <==> m == n
  {
    if whole > 0 {
      var gap := ProductSign(b - a, whole as real);
      assert gap == n as real - m as real;
    }
  }

  lemma BetterMeans(m: Matcher, best: Pose, other: Pose)
    requires IsSqrt(m.sqrt) && !Better(m.At(other).score, m.At(best).score)
    ensures NoFitter(m, best, other)
  {
    ScoreMeans(m, best);
    ScoreMeans(m, other);
    var (p, q) := (m.At(best).score, m.At(other).score);
    ShareOrder(q.fitness, p.fitness, Reach(m, other), Reach(m, best), |m.source|);
    if Reach(m, other) == Reach(m, best) > 0 {
      forall a, b | IsError(m, best, a) && IsError(m, other, b) ensures a <= b {
        ErrorIsUnique(m, best, a, p.rmse.value);
        ErrorIsUnique(m, other, b, q.rmse.value);
      }
    }
  }

  // ----- relocalization -----

  ghost predicate IsTried(r: Request, pose: Pose) { pose.x in r.xs && pose.y in r.ys && pose.yaw in r.yaws }

  function Stepped(center: real, i: int, step: real): real { center + i as real * step }

  function Offset(center: Pose, i: int, j: int, k: int, step: real, turn: real): Pose {
    Pose(Stepped(center.x, i, step), Stepped(center.y, j, step), Stepped(center.yaw, k, turn))
  }

  /** The centre itself or one of the 26 placements a step away from it. */
  ghost predicate IsAround(center: Pose, pose: Pose, step: real, turn: real) {
    exists i, j, k :: -1 <= i <= 1 && -1 <= j <= 1 && -1 <= k <= 1 && pose == Offset(center, i, j, k, step, turn)
  }

  ghost predicate IsFittestTried(m: Matcher, r: Request, best: Pose) {
    IsTried(r, best) && forall pose :: IsTried(r, pose) ==> NoFitter(m, best, pose)
  }

  ghost predicate IsFittestAround(m: Matcher, center: Pose, step: real, turn: real, best: Pose) {
    IsAround(center, best, step, turn) && forall pose :: IsAround(center, pose, step, turn) ==> NoFitter(m, best, pose)
  }

  lemma StepsExactly(center: real, step: real, v: real)
    ensures v in Steps(center, step) <==> exists i :: -1 <= i <= 1 && v == Stepped(center, i, step)
  {
    var steps := Steps(center, step);
    assert steps[0] == Stepped(center, -1, step) && steps[1] == Stepped(center, 0, step) && steps[2] == Stepped(center, 1, step);
    if i :| -1 <= i <= 1 && v == Stepped(center, i, step) {
      assert i == -1 || i == 0 || i == 1;
      assert v == steps[i + 1];
    }
  }

  lemma AroundExactly(center: Pose, pose: Pose, step: real, turn: real)
    ensures IsAround(center, pose, step, turn)
       <==> pose.x in Steps(center.x, step) && pose.y in Steps(center.y, step) && pose.yaw in Steps(center.yaw, turn)
  {
    StepsExactly(center.x, step, pose.x);
    StepsExactly(center.y, step, pose.y);
    StepsExactly(center.yaw, turn, pose.yaw);
    if pose.x in Steps(center.x, step) && pose.y in Steps(center.y, step) && pose.yaw in Steps(center.yaw, turn) {
      var i :| -1 <= i <= 1 && pose.x == Stepped(center.x, i, step);
      var j :| -1 <= j <= 1 && pose.y == Stepped(center.y, j, step);
      var k :| -1 <= k <= 1 && pose.yaw == Stepped(center.yaw, k, turn);
      assert pose == Offset(center, i, j, k, step, turn);
    }
  }

  lemma FittestTried(m: Matcher, r: Request) returns (best: Pose)
    requires IsSqrt(m.sqrt)
    requires Champion(None, Lattice(m.At, r.xs, r.ys, r.yaws)).Some?
    ensures IsFittestTried(m, r, best) && Champion(None, Lattice(m.At, r.xs, r.ys, r.yaws)) == Some(m.At(best))
  {
    var all := Lattice(m.At, r.xs, r.ys, r.yaws);
    var champion := Champion(None, all).value;
    ChampionIsBest(None, all);
    LatticeHas(m.At, r.xs, r.ys, r.yaws, champion);
    var x, y, yaw :| x in r.xs && y in r.ys && yaw in r.yaws && champion == m.At(Pose(x, y, yaw));
    best := Pose(x, y, yaw);
    forall pose | IsTried(r, pose) ensures NoFitter(m, best, pose) {
      LatticeHas(m.At, r.xs, r.ys, r.yaws, m.At(Pose(pose.x, pose.y, pose.yaw)));
      assert pose == Pose(pose.x, pose.y, pose.yaw);
      BetterMeans(m, best, pose);
    }
  }

  lemma FittestAround(m: Matcher, center: Candidate, step: real, turn: real) returns (best: Pose)
    requires IsSqrt(m.sqrt) && center == m.At(center.pose)
    ensures IsFittestAround(m, center.pose, step, turn, best)
    ensures Champion(Some(center), Nearby(m.At, center.pose, step, turn)) == Some(m.At(best))
  {
    var p := center.pose;
    var (xs, ys, yaws) := (Steps(p.x, step), Steps(p.y, step), Steps(p.yaw, turn));
    var all := Nearby(m.At, p, step, turn);
    var champion := Champion(Some(center), all).value;
    ChampionIsBest(Some(center), all);
    LatticeHas(m.At, xs, ys, yaws, champion);
    assert p.x == xs[1] && p.y == ys[1] && p.yaw == yaws[1];
    AroundExactly(p, p, step, turn);
    best := p;
    if champion in all {
      var x, y, yaw :| x in xs && y in ys && yaw in yaws && champion == m.At(Pose(x, y, yaw));
      best := Pose(x, y, yaw);
      AroundExactly(p, best, step, turn);
    }
    forall pose | IsAround(p, pose, step, turn) ensures NoFitter(m, best, pose) {
      AroundExactly(p, pose, step, turn);
      LatticeHas(m.At, xs, ys, yaws, m.At(Pose(pose.x, pose.y, pose.yaw)));
      assert pose == Pose(pose.x, pose.y, pose.yaw);
      BetterMeans(m, best, pose);
    }
  }

  /** The course of a search: the fittest of the asked placements, then the fittest within a step of it,
      then the fittest within half a step of that. The steps are the map's resolution, but at least
      0.10 m and 0.05 m, with 5 and 2 degrees. */
  lemma SearchCourse(m: Matcher, r: Request) returns (coarse: Pose, fine: Pose, end: Pose)
    requires IsSqrt(m.sqrt) && m.trig.Lawful() && Searched(m.At, r).Some?
    ensures IsFittestTried(m, r, coarse)
    ensures r.refine ==>
      && IsFittestAround(m, Canonical(coarse), if r.resolution > 0.10 then r.resolution else 0.10, 5.0, fine)
      && IsFittestAround(m, Canonical(fine), if r.resolution > 0.10 then r.resolution / 2.0 else 0.05, 2.0, end)
    ensures !r.refine ==> end == coarse
    ensures Searched(m.At, r).value.pose == Canonical(end) && Searched(m.At, r).value == m.At(end)
  {
    coarse := FittestTried(m, r);
    fine, end := coarse, coarse;
    if r.refine {
      fine, end := RefineCourse(m, r, coarse);
    }
    CanonicalScore(m, end);
  }

  lemma RefineCourse(m: Matcher, r: Request, coarse: Pose) returns (fine: Pose, end: Pose)
    requires IsSqrt(m.sqrt) && m.trig.Lawful()
    ensures IsFittestAround(m, Canonical(coarse), if r.resolution > 0.10 then r.resolution else 0.10, 5.0, fine)
    ensures IsFittestAround(m, Canonical(fine), if r.resolution > 0.10 then r.resolution / 2.0 else 0.05, 2.0, end)
    ensures Polished(m.At, r, m.At(coarse)) == Some(m.At(end))
  {
    fine := FirstRefined(m, r, coarse);
    end := SecondRefined(m, r, fine);
    PolishedIs(m, r, coarse, fine, end);
  }

  lemma FirstRefined(m: Matcher, r: Request, coarse: Pose) returns (fine: Pose)
    requires IsSqrt(m.sqrt) && m.trig.Lawful()
    ensures IsFittestAround(m, Canonical(coarse), if r.resolution > 0.10 then r.resolution else 0.10, 5.0, fine)
    ensures Champion(Some(m.At(coarse)), FirstNearby(m.At, r, m.At(coarse))) == Some(m.At(fine))
  {
    CanonicalScore(m, coarse);
    fine := FittestAround(m, m.At(coarse), if r.resolution > 0.10 then r.resolution else 0.10, 5.0);
  }

  lemma SecondRefined(m: Matcher, r: Request, fine: Pose) returns (end: Pose)
    requires IsSqrt(m.sqrt) && m.trig.Lawful()
    ensures IsFittestAround(m, Canonical(fine), if r.resolution > 0.10 then r.resolution / 2.0 else 0.05, 2.0, end)
    ensures Champion(Some(m.At(fine)), SecondNearby(m.At, r, m.At(fine))) == Some(m.At(end))
  {
    CanonicalScore(m, fine);
    end := FittestAround(m, m.At(fine), if r.resolution > 0.10 then r.resolution / 2.0 else 0.05, 2.0);
  }

  lemma PolishedIs(m: Matcher, r: Request, coarse: Pose, fine: Pose, end: Pose)
    requires Champion(Some(m.At(coarse)), FirstNearby(m.At, r, m.At(coarse))) == Some(m.At(fine))
    requires Champion(Some(m.At(fine)), SecondNearby(m.At, r, m.At(fine))) == Some(m.At(end))
    ensures Polished(m.At, r, m.At(coarse)) == Some(m.At(end))
  {
  }

  /** A search accepts exactly when enough of the scan is reached with a small enough error, and it
      reports those two numbers of the pose it reports. */
  lemma AcceptedExactly(m: Matcher, r: Request, result: Relocalization)
    requires IsSqrt(m.sqrt) && m.trig.Lawful() && Searched(m.At, r).Some? && IsReport(r, Searched(m.At, r).value, result)
    ensures var pose := Searched(m.At, r).value.pose;
      && result.inliers == Reach(m, pose) && IsShare(result.fitness, Reach(m, pose), |m.source|)
      && (result.rmse.Some? <==> result.inliers > 0) && (result.rmse.Some? ==> IsError(m, pose, result.rmse.value))
      && (result.accepted <==> result.fitness >= r.minFitness && result.inliers > 0 && result.rmse.value <= r.maxRmse)
      && result.pose == (if result.accepted then Some(pose) else None)
      && (result.reason == "accepted" <==> result.accepted)
      && (result.reason == "fitness_below_threshold" <==> result.fitness < r.minFitness)
  {
    var best := Searched(m.At, r).value;
    ReportedPoseScores(m, r);
    ScoreMeans(m, best.pose);
  }
}
