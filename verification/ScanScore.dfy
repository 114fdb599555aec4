/** Scoring one scan placement through a spatial hash:
    robot_brain/navigation/relocalization.py:174-228 and the loop-closure twin in
    robot_brain/navigation/pose_graph.py:404-458. */
module ScanScore {
  import opened RealMath
  import opened Grid
  import opened Poses
  import opened Costmap

  /** Fitness, root mean square error (`None` for an infinite one) and inlier count. */
  datatype MatchScore = MatchScore(fitness: real, rmse: Option<real>, inliers: nat)

  function BlockOf(p: Point, size: real): Cell
    requires size > 0.0
  {
    Cell((p.x / size).Floor, (p.y / size).Floor)
  }

  // ----- what a score means: brute force over all targets -----

  function Lesser(best: Option<real>, d: real): Option<real> {
    if best.None? || d < best.value then Some(d) else best
  }

  /** The squared distance from a point to the nearest target. */
  function Nearest(w: Point, targets: seq<Point>): Option<real> {
    if targets == [] then None
    else Lesser(Nearest(w, targets[..|targets| - 1]), SquaredGap(w, targets[|targets| - 1]))
  }

  predicate Within(d: Option<real>, limit: real) { d.Some? && d.value <= limit }

  /** The squared distances of the points that have a target in reach. */
  function Inliers(points: seq<Point>, targets: seq<Point>, limit: real): seq<real> {
    if points == [] then []
    else
      var rest, d := Inliers(points[..|points| - 1], targets, limit), Nearest(points[|points| - 1], targets);
      if Within(d, limit) then rest + [d.value] else rest
  }

  function Sum(values: seq<real>): real {
    if values == [] then 0.0 else Sum(values[..|values| - 1]) + values[|values| - 1]
  }

  function ScoreOf(sqrt: real -> real, squared: seq<real>, total: nat): MatchScore
    requires |squared| <= total
  {
    MatchScore(
      if total == 0 then 0.0 else |squared| as real / total as real,
      if squared == [] then None else Some(sqrt(Sum(squared) / |squared| as real)),
      |squared|)
  }

  function Placed(trig: Trig, pose: Pose, source: seq<Point>): seq<Point> {
    seq(|source|, i requires 0 <= i < |source| => Place(trig, pose, source[i]))
  }

  /** The score of a placement, by comparing every source point with every target. */
  function BruteScore(sqrt: real -> real, trig: Trig, source: seq<Point>, targets: seq<Point>, pose: Pose, reach: real): MatchScore {
    var squared := Inliers(Placed(trig, pose, source), targets, reach * reach);
    InliersFewer(Placed(trig, pose, source), targets, reach * reach);
    ScoreOf(sqrt, squared, |source|)
  }

  lemma InliersFewer(points: seq<Point>, targets: seq<Point>, limit: real)
    ensures |Inliers(points, targets, limit)| <= |points|
  {
  }

  ghost predicate IsNearest(w: Point, targets: seq<Point>, d: Option<real>) {
    && (d.None? <==> targets == [])
    && (d.Some? ==>
          && (exists t :: t in targets && d.value == SquaredGap(w, t))
          && (forall t :: t in targets ==> d.value <= SquaredGap(w, t)))
  }

  lemma {:induction false} NearestIsLeast(w: Point, targets: seq<Point>)
    ensures IsNearest(w, targets, Nearest(w, targets))
  {
    if targets != [] {
      var init, last := targets[..|targets| - 1], targets[|targets| - 1];
      NearestIsLeast(w, init);
      assert targets == init + [last];
      var d, e := Nearest(w, targets), Nearest(w, init);
      if d.value == SquaredGap(w, last) {
        assert last in targets;
      } else {
        var t :| t in init && e.value == SquaredGap(w, t);
        assert t in targets && d.value == SquaredGap(w, t);
      }
    }
  }

  /** A point is an inlier exactly when some target lies in reach. */
  lemma InlierExactly(w: Point, targets: seq<Point>, limit: real)
    ensures Within(Nearest(w, targets), limit) <==> exists t :: t in targets && SquaredGap(w, t) <= limit
  {
    NearestIsLeast(w, targets);
  }

  lemma {:induction false} SumBounded(values: seq<real>, limit: real)
    requires forall i :: 0 <= i < |values| ==> 0.0 <= values[i] <= limit
    ensures 0.0 <= Sum(values) <= |values| as real * limit
  {
    if values != [] {
      SumBounded(values[..|values| - 1], limit);
      assert |values| as real * limit == (|values| - 1) as real * limit + limit;
    }
  }

  lemma {:induction false} NearestNonnegative(w: Point, targets: seq<Point>)
    ensures Nearest(w, targets).Some? ==> Nearest(w, targets).value >= 0.0
  {
    if targets != [] {
      var last := targets[|targets| - 1];
      NearestNonnegative(w, targets[..|targets| - 1]);
      SquareNonnegative(w.x - last.x);
      SquareNonnegative(w.y - last.y);
    }
  }

  lemma {:induction false} InliersInReach(points: seq<Point>, targets: seq<Point>, limit: real)
    ensures forall i :: 0 <= i < |Inliers(points, targets, limit)| ==> 0.0 <= Inliers(points, targets, limit)[i] <= limit
  {
    if points != [] {
      var init, last := points[..|points| - 1], points[|points| - 1];
      InliersInReach(init, targets, limit);
      NearestNonnegative(last, targets);
      var rest, all := Inliers(init, targets, limit), Inliers(points, targets, limit);
      assert all == rest || all == rest + [Nearest(last, targets).value];
    }
  }

  lemma MeanBounded(sum: real, count: nat, limit: real)
    requires count > 0 && 0.0 <= sum <= count as real * limit
    ensures 0.0 <= sum / count as real <= limit
  {
    var n := count as real;
    assert (limit * n - sum) / n == limit - sum / n by {
      assert limit * n / n == limit by { DivideProduct(limit, n); }
    }
    assert (limit * n - sum) / n >= 0.0;
  }

  lemma ErrorInRange(sqrt: real -> real, squared: seq<real>, reach: real)
    requires IsSqrt(sqrt) && reach > 0.0 && squared != []
    requires forall i :: 0 <= i < |squared| ==> 0.0 <= squared[i] <= reach * reach
    ensures 0.0 <= sqrt(Sum(squared) / |squared| as real) <= reach
  {
    SumBounded(squared, reach * reach);
    MeanBounded(Sum(squared), |squared|, reach * reach);
    SquareOrder(sqrt(Sum(squared) / |squared| as real), reach);
  }

  /** The fitness is a fraction, and the error of the inliers cannot exceed the
      correspondence distance, so an error threshold above it never rejects. */
  lemma ScoreInRange(sqrt: real -> real, trig: Trig, source: seq<Point>, targets: seq<Point>, pose: Pose, reach: real)
    requires IsSqrt(sqrt) && reach > 0.0
    ensures var score := BruteScore(sqrt, trig, source, targets, pose, reach);
      && 0.0 <= score.fitness <= 1.0
      && (score.rmse.None? <==> score.inliers == 0)
      && (score.rmse.Some? ==> 0.0 <= score.rmse.value <= reach)
  {
    var points := Placed(trig, pose, source);
    var squared := Inliers(points, targets, reach * reach);
    InliersFewer(points, targets, reach * reach);
    InliersInReach(points, targets, reach * reach);
    if squared != [] {
      ErrorInRange(sqrt, squared, reach);
    }
    if |source| > 0 {
      MeanBounded(|squared| as real, |source|, 1.0);
    }
  }

  // ----- what the numbers of a score are -----

  ghost predicate InReach(w: Point, targets: seq<Point>, reach: real) {
    exists t :: t in targets && SquaredGap(w, t) <= reach * reach
  }

  /** The source points that find a target within the correspondence distance. */
  ghost function ReachedBy(trig: Trig, source: seq<Point>, targets: seq<Point>, pose: Pose, reach: real): set<nat> {
    set i: nat | i < |source| && InReach(Place(trig, pose, source[i]), targets, reach)
  }

  ghost predicate IsLeastGap(w: Point, targets: seq<Point>, d: real) {
    (exists t :: t in targets && SquaredGap(w, t) == d) && forall t :: t in targets ==> d <= SquaredGap(w, t)
  }

  /** The sum of a quantity over the chosen ones of the first `n` indices. */
  ghost function SumOver(d: nat -> real, chosen: set<nat>, n: nat): real {
    if n == 0 then 0.0 else SumOver(d, chosen, n - 1) + if n - 1 in chosen then d(n - 1) else 0.0
  }

  ghost predicate AreLeastGaps(trig: Trig, source: seq<Point>, targets: seq<Point>, pose: Pose, reach: real, d: nat -> real) {
    forall i :: i in ReachedBy(trig, source, targets, pose, reach) ==> IsLeastGap(Place(trig, pose, source[i]), targets, d(i))
  }

  lemma {:induction false} SumIgnores(d: nat -> real, a: set<nat>, b: set<nat>, n: nat)
    requires forall i :: 0 <= i < n ==> (i in a <==> i in b)
    ensures SumOver(d, a, n) == SumOver(d, b, n)
  {
    if n > 0 {
      SumIgnores(d, a, b, n - 1);
    }
  }

  lemma LeastGapIsNearest(w: Point, targets: seq<Point>, reach: real, d: real)
    requires InReach(w, targets, reach) ==> IsLeastGap(w, targets, d)
    ensures Within(Nearest(w, targets), reach * reach) <==> InReach(w, targets, reach)
    ensures InReach(w, targets, reach) ==> Nearest(w, targets) == Some(d)
  {
    InlierExactly(w, targets, reach * reach);
    NearestIsLeast(w, targets);
  }

  ghost function NearPoints(points: seq<Point>, targets: seq<Point>, limit: real): set<nat> {
    set i: nat | i < |points| && Within(Nearest(points[i], targets), limit)
  }

  ghost predicate AreNearest(points: seq<Point>, targets: seq<Point>, limit: real, d: nat -> real) {
    forall i :: i in NearPoints(points, targets, limit) ==> Nearest(points[i], targets) == Some(d(i))
  }

  /** Counting and summing the inliers one by one is counting and summing the near points. */
  lemma {:induction false} InliersAreNear(points: seq<Point>, targets: seq<Point>, limit: real, d: nat -> real)
    requires AreNearest(points, targets, limit, d)
    ensures |Inliers(points, targets, limit)| == |NearPoints(points, targets, limit)|
    ensures Sum(Inliers(points, targets, limit)) == SumOver(d, NearPoints(points, targets, limit), |points|)
  {
    var chosen := NearPoints(points, targets, limit);
    if points == [] {
      assert chosen == {};
    } else {
      var n := |points| - 1;
      var before := NearPoints(points[..n], targets, limit);
      NearNext(points, targets, limit);
      assert AreNearest(points[..n], targets, limit, d);
      InliersAreNear(points[..n], targets, limit, d);
      SumIgnores(d, before, chosen, n);
      InliersNext(points, targets, limit);
    }
  }

  lemma NearNext(points: seq<Point>, targets: seq<Point>, limit: real)
    requires points != []
    ensures var n := |points| - 1;
      NearPoints(points, targets, limit)
      == NearPoints(points[..n], targets, limit) + if Within(Nearest(points[n], targets), limit) then {n} else {}
  {
  }

  /** The near points are the reached ones, and their nearest targets give the least gaps. */
  lemma NearIsReached(trig: Trig, source: seq<Point>, targets: seq<Point>, pose: Pose, reach: real, d: nat -> real)
    requires AreLeastGaps(trig, source, targets, pose, reach, d)
    ensures NearPoints(Placed(trig, pose, source), targets, reach * reach) == ReachedBy(trig, source, targets, pose, reach)
    ensures AreNearest(Placed(trig, pose, source), targets, reach * reach, d)
  {
    forall i: nat | i < |source|
      ensures Within(Nearest(Placed(trig, pose, source)[i], targets), reach * reach) <==> InReach(Place(trig, pose, source[i]), targets, reach)
      ensures i in ReachedBy(trig, source, targets, pose, reach) ==> Nearest(Placed(trig, pose, source)[i], targets) == Some(d(i))
    {
      LeastGapIsNearest(Place(trig, pose, source[i]), targets, reach, d(i));
    }
  }

  lemma InliersAreReached(trig: Trig, source: seq<Point>, targets: seq<Point>, pose: Pose, reach: real, d: nat -> real)
    requires AreLeastGaps(trig, source, targets, pose, reach, d)
    ensures var squared := Inliers(Placed(trig, pose, source), targets, reach * reach);
      && |squared| == |ReachedBy(trig, source, targets, pose, reach)|
      && Sum(squared) == SumOver(d, ReachedBy(trig, source, targets, pose, reach), |source|)
  {
    NearIsReached(trig, source, targets, pose, reach, d);
    InliersAreNear(Placed(trig, pose, source), targets, reach * reach, d);
  }

  lemma InliersNext(points: seq<Point>, targets: seq<Point>, limit: real)
    requires points != []
    ensures var (n, all) := (|points| - 1, Inliers(points, targets, limit));
      var (init, d) := (Inliers(points[..n], targets, limit), Nearest(points[n], targets));
      && (!Within(d, limit) ==> all == init)
      && (Within(d, limit) ==> all == init + [d.value] && Sum(all) == Sum(init) + d.value)
  {
    var (n, all) := (|points| - 1, Inliers(points, targets, limit));
    if Within(Nearest(points[n], targets), limit) {
      assert all[..|all| - 1] == Inliers(points[..n], targets, limit);
    }
  }

  /** What a score says of a placement: how many source points lie within the correspondence distance
      of some target, what share of the scan they are, and the root of the mean of their least
      squared gaps. */
  ghost predicate IsScore(trig: Trig, source: seq<Point>, targets: seq<Point>, pose: Pose, reach: real, score: MatchScore) {
    var reached := ReachedBy(trig, source, targets, pose, reach);
    && score.inliers == |reached| && IsShare(score.fitness, |reached|, |source|)
    && (score.rmse.None? <==> reached == {})
    && forall d: nat -> real :: AreLeastGaps(trig, source, targets, pose, reach, d) && score.rmse.Some? ==>
         IsRootMeanOf(score.rmse.value, SumOver(d, reached, |source|), |reached|)
  }

  predicate IsShare(share: real, part: nat, whole: nat) {
    share * whole as real == part as real && (whole == 0 ==> share == 0.0)
  }

  predicate IsRootMeanOf(root: real, sum: real, count: nat) { root >= 0.0 && root * root * count as real == sum }

  lemma BruteScoreMeans(sqrt: real -> real, trig: Trig, source: seq<Point>, targets: seq<Point>, pose: Pose, reach: real)
    requires IsSqrt(sqrt)
    ensures IsScore(trig, source, targets, pose, reach, BruteScore(sqrt, trig, source, targets, pose, reach))
    ensures |ReachedBy(trig, source, targets, pose, reach)| <= |source|
  {
    var squared := Inliers(Placed(trig, pose, source), targets, reach * reach);
    var own := (i: nat) => if i < |source| then NearestGap(Place(trig, pose, source[i]), targets) else 0.0;
    OwnGapsAreLeast(trig, source, targets, pose, reach, own);
    InliersAreReached(trig, source, targets, pose, reach, own);
    InliersFewer(Placed(trig, pose, source), targets, reach * reach);
    InliersSumPositive(Placed(trig, pose, source), targets, reach * reach);
    ScoreOfMeans(sqrt, squared, |source|);
    forall d: nat -> real | AreLeastGaps(trig, source, targets, pose, reach, d)
      ensures SumOver(d, ReachedBy(trig, source, targets, pose, reach), |source|) == Sum(squared)
    {
      InliersAreReached(trig, source, targets, pose, reach, d);
    }
  }

  lemma InliersSumPositive(points: seq<Point>, targets: seq<Point>, limit: real)
    ensures Sum(Inliers(points, targets, limit)) >= 0.0
  {
    InliersInReach(points, targets, limit);
    SumBounded(Inliers(points, targets, limit), limit);
  }

  lemma ScoreOfMeans(sqrt: real -> real, squared: seq<real>, total: nat)
    requires IsSqrt(sqrt) && |squared| <= total && Sum(squared) >= 0.0
    ensures var score := ScoreOf(sqrt, squared, total);
      && score.inliers == |squared| && IsShare(score.fitness, |squared|, total) && (score.rmse.None? <==> |squared| == 0)
      && (score.rmse.Some? ==> IsRootMeanOf(score.rmse.value, Sum(squared), |squared|))
  {
    if squared != [] {
      RootOfMean(sqrt, Sum(squared), |squared|);
    }
  }

  function NearestGap(w: Point, targets: seq<Point>): real {
    var d := Nearest(w, targets);
    if d.Some? then d.value else 0.0
  }

  lemma OwnGapsAreLeast(trig: Trig, source: seq<Point>, targets: seq<Point>, pose: Pose, reach: real, own: nat -> real)
    requires forall i: nat :: i < |source| ==> own(i) == NearestGap(Place(trig, pose, source[i]), targets)
    ensures AreLeastGaps(trig, source, targets, pose, reach, own)
  {
    forall i | i in ReachedBy(trig, source, targets, pose, reach) ensures IsLeastGap(Place(trig, pose, source[i]), targets, own(i)) {
      NearestIsLeast(Place(trig, pose, source[i]), targets);
    }
  }

  lemma RootOfMean(sqrt: real -> real, sum: real, count: nat)
    requires IsSqrt(sqrt) && count > 0 && sum >= 0.0
    ensures IsRootMeanOf(sqrt(sum / count as real), sum, count)
  {
    var n := count as real;
    var mean := sum / n;
    assert mean * n == sum && mean >= 0.0;
  }

  // ----- the spatial hash -----

  type SpatialIndex = map<Cell, seq<Point>>

  function Bucket(index: SpatialIndex, c: Cell): seq<Point> {
    if c in index then index[c] else []
  }

  function InBlock(points: seq<Point>, size: real, c: Cell): seq<Point>
    requires size > 0.0
  {
    if points == [] then []
    else
      var rest, last := InBlock(points[..|points| - 1], size, c), points[|points| - 1];
      if BlockOf(last, size) == c then rest + [last] else rest
  }

  ghost predicate Indexes(index: SpatialIndex, points: seq<Point>, size: real)
    requires size > 0.0
  {
    forall c :: Bucket(index, c) == InBlock(points, size, c)
  }

  lemma {:induction false} InBlockMembers(points: seq<Point>, size: real, c: Cell, p: Point)
    requires size > 0.0
    ensures p in InBlock(points, size, c) <==> p in points && BlockOf(p, size) == c
  {
    if points != [] {
      var init, last := points[..|points| - 1], points[|points| - 1];
      InBlockMembers(init, size, c, p);
      assert points == init + [last];
    }
  }

  method MakeSpatialIndex(points: seq<Point>, size: real) returns (index: SpatialIndex)
    requires size > 0.0
    ensures Indexes(index, points, size)
  {
    index := map[];
    for i := 0 to |points|
      invariant Indexes(index, points[..i], size)
    {
      var key := BlockOf(points[i], size);
      assert points[..i + 1][..i] == points[..i];
      ghost var before := index;
      index := index[key := Bucket(index, key) + [points[i]]];
      forall c ensures Bucket(index, c) == InBlock(points[..i + 1], size, c) {
        assert Bucket(before, c) == InBlock(points[..i], size, c);
      }
    }
    assert points[..|points|] == points;
  }

  lemma AxisBlock(a: real, b: real, size: real)
    requires size > 0.0 && -size <= a - b <= size
    ensures -1 <= (a / size).Floor - (b / size).Floor <= 1
  {
    var q := (a - b) / size;
    assert q * size == a - b;
    DivideDifference(a, b, size);
    if q > 1.0 {
      ProductPositive(q - 1.0, size);
    }
    if q < -1.0 {
      ProductPositive(-1.0 - q, size);
    }
  }

  lemma DivideDifference(a: real, b: real, c: real)
    requires c != 0.0
    ensures (a - b) / c == a / c - b / c
  {
    var x, y := a / c, b / c;
    assert x * c == a && y * c == b;
    assert (x - y) * c == a - b;
    DivideProduct(x - y, c);
  }

  /** A target in reach lies in the point's block or one of its eight neighbours. */
  lemma BlockLosesNothing(w: Point, t: Point, size: real)
    requires size > 0.0 && SquaredGap(w, t) <= size * size
    ensures -1 <= BlockOf(t, size).col - BlockOf(w, size).col <= 1
    ensures -1 <= BlockOf(t, size).row - BlockOf(w, size).row <= 1
  {
    var dx, dy := t.x - w.x, t.y - w.y;
    assert SquaredGap(w, t) == dx * dx + dy * dy;
    SquareNonnegative(dx);
    SquareNonnegative(dy);
    WithinSize(dx, size);
    WithinSize(dy, size);
    AxisBlock(t.x, w.x, size);
    AxisBlock(t.y, w.y, size);
  }

  lemma WithinSize(d: real, size: real)
    requires size > 0.0 && d * d <= size * size
    ensures -size <= d <= size
  {
    SquareOrder(d, size);
    assert -d * -d == d * d;
    SquareOrder(-d, size);
  }

  predicate Around(c: Cell, center: Cell) {
    -1 <= c.col - center.col <= 1 && -1 <= c.row - center.row <= 1
  }

  lemma NearestOfBlock(w: Point, targets: seq<Point>, visited: seq<Point>, size: real)
    requires size > 0.0
    requires forall t :: t in visited ==> t in targets
    requires forall t :: t in targets && Around(BlockOf(t, size), BlockOf(w, size)) ==> t in visited
    ensures Within(Nearest(w, visited), size * size) <==> Within(Nearest(w, targets), size * size)
    ensures Within(Nearest(w, visited), size * size) ==> Nearest(w, visited) == Nearest(w, targets)
  {
    NearestIsLeast(w, visited);
    NearestIsLeast(w, targets);
    if Within(Nearest(w, targets), size * size) {
      var t :| t in targets && Nearest(w, targets).value == SquaredGap(w, t);
      BlockLosesNothing(w, t, size);
      assert t in visited;
    }
  }

  /** Looking only at the nine blocks around a point. */
  method NearestInBlock(w: Point, index: SpatialIndex, size: real, ghost targets: seq<Point>) returns (best: Option<real>)
    requires size > 0.0 && Indexes(index, targets, size)
    ensures Within(best, size * size) <==> Within(Nearest(w, targets), size * size)
    ensures Within(best, size * size) ==> best == Nearest(w, targets)
  {
    var cell := BlockOf(w, size);
    best := None;
    ghost var visited: seq<Point> := [];
    for dx := -1 to 2
      invariant best == Nearest(w, visited)
      invariant forall t :: t in visited ==> t in targets
      invariant forall t :: t in targets && Around(BlockOf(t, size), cell) && BlockOf(t, size).col < cell.col + dx ==> t in visited
    {
      ghost var columns := visited;
      for dy := -1 to 2
        invariant best == Nearest(w, visited)
        invariant forall t :: t in visited ==> t in targets
        invariant forall t :: t in columns ==> t in visited
        invariant forall t :: t in targets && BlockOf(t, size).col == cell.col + dx && cell.row - 1 <= BlockOf(t, size).row < cell.row + dy
                    ==> t in visited
      {
        var block := Cell(cell.col + dx, cell.row + dy);
        var bucket := Bucket(index, block);
        best := NearestAmong(w, visited, best, bucket);
        forall t ensures t in bucket <==> t in targets && BlockOf(t, size) == block {
          InBlockMembers(targets, size, block, t);
        }
        visited := visited + bucket;
      }
    }
    NearestOfBlock(w, targets, visited, size);
  }

  method NearestAmong(w: Point, ghost before: seq<Point>, start: Option<real>, bucket: seq<Point>) returns (best: Option<real>)
    requires start == Nearest(w, before)
    ensures best == Nearest(w, before + bucket)
  {
    best := start;
    assert before + bucket[..0] == before;
    for i := 0 to |bucket|
      invariant best == Nearest(w, before + bucket[..i])
    {
      ghost var next := before + bucket[..i + 1];
      assert next[..|next| - 1] == before + bucket[..i];
      best := Lesser(best, SquaredGap(w, bucket[i]));
    }
    assert bucket[..|bucket|] == bucket;
  }

  /** The hashed score is the brute-force score. */
  method Score(sqrt: real -> real, trig: Trig, source: seq<Point>, index: SpatialIndex, pose: Pose, reach: real, ghost targets: seq<Point>)
    returns (score: MatchScore)
    requires reach > 0.0 && Indexes(index, targets, reach)
    ensures score == BruteScore(sqrt, trig, source, targets, pose, reach)
    ensures IsSqrt(sqrt) ==> IsScore(trig, source, targets, pose, reach, score)
  {
    var squared: seq<real> := [];
    var limit := reach * reach;
    ghost var points := Placed(trig, pose, source);
    for i := 0 to |source|
      invariant squared == Inliers(points[..i], targets, limit) && |squared| <= i
    {
      var w := Place(trig, pose, source[i]);
      var best := NearestInBlock(w, index, reach, targets);
      assert points[..i + 1][..i] == points[..i] && points[i] == w;
      if Within(best, limit) {
        squared := squared + [best.value];
      }
    }
    assert points[..|source|] == points;
    score := ScoreOf(sqrt, squared, |source|);
    if IsSqrt(sqrt) {
      BruteScoreMeans(sqrt, trig, source, targets, pose, reach);
    }
  }

  // ----- preparing the scans -----

  /** The points in a height band, seen from above. */
  function PlanarPoints(points: seq<Point3>, minZ: real, maxZ: real): seq<Point> {
    if points == [] then []
    else
      var rest, p := PlanarPoints(points[..|points| - 1], minZ, maxZ), points[|points| - 1];
      if minZ <= p.z <= maxZ then rest + [Point(p.x, p.y)] else rest
  }

  function Blocks(points: seq<Point>, size: real): set<Cell>
    requires size > 0.0
  {
    set p | p in points :: BlockOf(p, size)
  }

  /** Keep the first point of every block until the limit is met. */
  function Thinned(points: seq<Point>, size: real, limit: int): seq<Point>
    requires size > 0.0
  {
    if points == [] then []
    else
      var init, last := points[..|points| - 1], points[|points| - 1];
      var kept := Thinned(init, size, limit);
      if (init != [] && |kept| >= limit) || BlockOf(last, size) in Blocks(kept, size) then kept else kept + [last]
  }

  method Downsample(points: seq<Point>, size: real, limit: int) returns (kept: seq<Point>)
    requires size > 0.0
    ensures kept == Thinned(points, size, limit)
  {
    kept := [];
    var keys: set<Cell> := {};
    for i := 0 to |points|
      invariant kept == Thinned(points[..i], size, limit)
      invariant keys == Blocks(kept, size)
      invariant i == 0 || |kept| < limit
    {
      assert points[..i + 1][..i] == points[..i];
      var key := BlockOf(points[i], size);
      if key !in keys {
        kept, keys := kept + [points[i]], keys + {key};
      }
      if |kept| >= limit {
        ThinnedStops(points, i + 1, size, limit);
        return;
      }
    }
    assert points[..|points|] == points;
  }

  lemma {:induction false} ThinnedStops(points: seq<Point>, n: nat, size: real, limit: int)
    requires size > 0.0 && 0 < n <= |points| && |Thinned(points[..n], size, limit)| >= limit
    ensures Thinned(points, size, limit) == Thinned(points[..n], size, limit)
  {
    if n == |points| {
      assert points[..n] == points;
    } else {
      var init := points[..|points| - 1];
      assert init[..n] == points[..n];
      ThinnedStops(init, n, size, limit);
    }
  }

  /** Thinning keeps real points, one a block and no more than the limit, and
      below the limit no occupied block is left without its point. */
  lemma {:induction false} ThinnedIsSample(points: seq<Point>, size: real, limit: int)
    requires size > 0.0
    ensures var kept := Thinned(points, size, limit);
      && (forall q :: q in kept ==> q in points)
      && |Blocks(kept, size)| == |kept|
      && |kept| <= Max(limit, 1)
      && (points != [] ==> kept != [])
      && (|kept| < limit ==> Blocks(kept, size) == Blocks(points, size))
  {
    if points != [] {
      var init, last := points[..|points| - 1], points[|points| - 1];
      var before, kept := Thinned(init, size, limit), Thinned(points, size, limit);
      ThinnedIsSample(init, size, limit);
      assert points == init + [last];
      assert Blocks(points, size) == Blocks(init, size) + {BlockOf(last, size)};
      if kept != before {
        assert Blocks(kept, size) == Blocks(before, size) + {BlockOf(last, size)};
      }
    }
  }

  // ----- search axes -----

  const SLACK := 0.000000001

  function StepCount(start: real, stop: real, step: real): int
    requires step > 0.0
  {
    Max(0, ((stop - start) / step + SLACK).Floor)
  }

  function Tread(start: real, i: int, step: real): real { start + i as real * step }

  function Range(start: real, stop: real, step: real): Result<seq<real>> {
    if step <= 0.0 then Err("step must be positive")
    else Ok(seq(StepCount(start, stop, step) + 1, i => Tread(start, i, step)))
  }

  function Axis(center: real, radius: real, step: real): Result<seq<real>> {
    if radius < 0.0 || step <= 0.0 then Err("invalid search axis")
    else Range(center - radius, center + radius, step)
  }

  /** The axis starts at one end, goes up by whole steps and passes the other
      end by less than the slack. */
  lemma AxisWithin(center: real, radius: real, step: real)
    requires radius >= 0.0 && step > 0.0
    ensures var axis := Axis(center, radius, step);
      && axis.Ok? && |axis.value| > 0 && axis.value[0] == center - radius
      && (forall i :: 0 <= i < |axis.value| ==> center - radius <= axis.value[i] <= center + radius + 0.000000001 * step)
      && (forall i :: 0 <= i < |axis.value| - 1 ==> axis.value[i + 1] == axis.value[i] + step)
  {
    var start, stop := center - radius, center + radius;
    var axis := Axis(center, radius, step).value;
    var width := (stop - start) / step;
    assert width * step == stop - start;
    QuotientOrder(0.0, stop - start, step);
    forall i | 0 <= i < |axis| ensures start <= axis[i] <= stop + SLACK * step {
      TreadWithin(start, i, width, step);
    }
    forall i | 0 <= i < |axis| - 1 ensures axis[i + 1] == axis[i] + step {
      TreadNext(start, i, step);
    }
  }

  /** No value between the ends is a step or more above the last candidate below it. */
  lemma AxisCovers(center: real, radius: real, step: real, v: real)
    requires radius >= 0.0 && step > 0.0 && center - radius <= v <= center + radius
    ensures var axis := Axis(center, radius, step);
      axis.Ok? && exists i :: 0 <= i < |axis.value| && v - step < axis.value[i] <= v
  {
    var start, stop := center - radius, center + radius;
    var axis := Axis(center, radius, step).value;
    var at := (v - start) / step;
    assert at * step == v - start;
    QuotientOrder(v - start, stop - start, step);
    QuotientOrder(0.0, v - start, step);
    StepBelow(start, at.Floor, at, step);
    assert axis[at.Floor] == Tread(start, at.Floor, step);
  }

  lemma TreadNext(start: real, i: int, step: real)
    ensures Tread(start, i + 1, step) == Tread(start, i, step) + step
  {
    assert (i + 1) as real * step == i as real * step + step;
  }

  lemma TreadWithin(start: real, i: int, width: real, step: real)
    requires 0.0 <= i as real <= width + SLACK && step > 0.0
    ensures start <= Tread(start, i, step) <= start + width * step + SLACK * step
  {
    StepBound(i as real, width + SLACK, step);
    assert (width + SLACK) * step == width * step + SLACK * step;
  }

  lemma StepBelow(start: real, k: int, at: real, step: real)
    requires k as real <= at < k as real + 1.0 && step > 0.0
    ensures Tread(start, k, step) <= start + at * step < Tread(start, k, step) + step
  {
    NextStep(k as real, at, step, k as real * step, at * step);
  }

  lemma QuotientOrder(a: real, b: real, c: real)
    requires a <= b && c > 0.0
    ensures a / c <= b / c
  {
    assert (b - a) / c == b / c - a / c;
    assert (b - a) / c >= 0.0;
  }

  lemma NextStep(a: real, b: real, step: real, low: real, high: real)
    requires a <= b < a + 1.0 && step > 0.0 && low == a * step && high == b * step
    ensures low <= high < low + step
  {
    Scaled(b - a, step, high - low);
    Scaled(a + 1.0 - b, step, low + step - high);
  }

  lemma StepBound(a: real, b: real, step: real)
    requires a <= b && step > 0.0
    ensures a * step <= b * step
  {
  }
}
