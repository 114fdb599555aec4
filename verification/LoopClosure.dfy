/** Scan verification of a loop edge: robot_brain/navigation/pose_graph.py:313-367. */
module LoopClosure {
  import opened RealMath
  import opened Grid
  import opened Heap
  import opened Sorting
  import opened Poses
  import opened Costmap
  import opened ScanScore
  import opened ScanSearch

  datatype LoopLimits = LoopLimits(
    translationRadius: real, yawRadius: real, translationStep: real, yawStep: real, reach: real,
    minPoints: int, minFitness: real, maxRmse: real, minMargin: real, maxCandidates: int)
  {
    predicate Positive() {
      translationRadius > 0.0 && yawRadius > 0.0 && translationStep > 0.0 && yawStep > 0.0 && reach > 0.0
    }

    function XAxis(initial: Pose): seq<real>
      requires Positive()
    {
      Axis(initial.x, translationRadius, translationStep).value
    }

    function YAxis(initial: Pose): seq<real>
      requires Positive()
    {
      Axis(initial.y, translationRadius, translationStep).value
    }

    function YawAxis(initial: Pose): seq<real>
      requires Positive()
    {
      Axis(initial.yaw, yawRadius, yawStep).value
    }

    function Budget(initial: Pose): int
      requires Positive()
    {
      |XAxis(initial)| * |YAxis(initial)| * |YawAxis(initial)|
    }
  }

  const DEFAULT_LIMITS := LoopLimits(0.6, 20.0, 0.1, 5.0, 0.20, 12, 0.55, 0.14, 0.02, 5000)

  datatype LoopVerification = LoopVerification(
    accepted: bool, reason: string, relative: Option<Pose>, fitness: real, rmse: Option<real>,
    inliers: nat, evaluated: nat)

  /** Python's order on the ranked tuples, largest first. */
  predicate Outranks(a: Candidate, b: Candidate) {
    || Better(a.score, b.score)
    || (a.score == b.score && PoseAtLeast(a.pose, b.pose))
  }

  predicate PoseAtLeast(a: Pose, b: Pose) {
    || a.x > b.x
    || (a.x == b.x && (a.y > b.y || (a.y == b.y && a.yaw >= b.yaw)))
  }

  lemma BetterIsStrictOrder()
    ensures forall a, b, c :: Better(a, b) && Better(b, c) ==> Better(a, c)
    ensures forall a, b :: Better(a, b) || Better(b, a) || a == b
    ensures forall a, b :: !(Better(a, b) && Better(b, a))
    ensures forall a :: !Better(a, a)
  {
  }

  lemma OutranksIsTotal()
    ensures TotalOrder(Outranks) && Antisymmetric(Outranks)
  {
    BetterIsStrictOrder();
  }

  /** A spatially distinct alternative, not the neighbouring sample. */
  predicate Distinct(sqrt: real -> real, limits: LoopLimits, a: Pose, b: Pose) {
    var turn := AngleDelta(a.yaw, b.yaw);
    || Hypot(sqrt, a.x - b.x, a.y - b.y) >= limits.translationStep * 1.5
    || turn >= limits.yawStep * 1.5 || -turn >= limits.yawStep * 1.5
  }

  /** How far the best fitness stands above the rival's. */
  function Margin(best: Candidate, rival: Option<Candidate>): real {
    best.score.fitness - if rival.Some? then rival.value.score.fitness else 0.0
  }

  ghost predicate IsTop(all: seq<Candidate>, best: Candidate) {
    best in all && forall c :: c in all ==> Outranks(best, c)
  }

  predicate MeetsThresholds(limits: LoopLimits, score: MatchScore) {
    score.fitness >= limits.minFitness && score.inliers >= limits.minPoints && score.inliers != 0
    && score.rmse.Some? && score.rmse.value <= limits.maxRmse
  }

  ghost predicate StandsOut(sqrt: real -> real, limits: LoopLimits, all: seq<Candidate>, best: Candidate) {
    && (forall c :: c in all && Distinct(sqrt, limits, c.pose, best.pose) ==> best.score.fitness - c.score.fitness >= limits.minMargin)
    && ((exists c :: c in all && Distinct(sqrt, limits, c.pose, best.pose)) || best.score.fitness >= limits.minMargin)
  }

  /** What accepting a loop means: the top candidate is good, and no distinct
      one comes within the margin of it. */
  ghost predicate Confirms(sqrt: real -> real, limits: LoopLimits, all: seq<Candidate>, best: Candidate) {
    IsTop(all, best) && MeetsThresholds(limits, best.score) && StandsOut(sqrt, limits, all, best)
  }

  lemma TopIsUnique(all: seq<Candidate>, a: Candidate, b: Candidate)
    requires IsTop(all, a) && IsTop(all, b)
    ensures a == b
  {
    OutranksIsTotal();
  }

  /** The scores of every placement of the target scan against the source scan. */
  function Scored(sqrt: real -> real, trig: Trig, source: seq<Point>, target: seq<Point>, reach: real): Pose -> Candidate {
    pose => Candidate(BruteScore(sqrt, trig, target, source, pose, reach), pose)
  }

  function LoopScan(points: seq<Point3>, reach: real): seq<Point>
    requires reach > 0.0
  {
    Thinned(PlanarPoints(points, -0.3, 1.8), reach / 2.0, 4000)
  }

  function LoopPlacements(sqrt: real -> real, trig: Trig, limits: LoopLimits, source: seq<Point3>, target: seq<Point3>, initial: Pose): seq<Candidate>
    requires limits.Positive()
  {
    Lattice(Scored(sqrt, trig, LoopScan(source, limits.reach), LoopScan(target, limits.reach), limits.reach),
            limits.XAxis(initial), limits.YAxis(initial), limits.YawAxis(initial))
  }

  /** The outcome of verifying two scans, for every input. */
  ghost predicate IsLoopResult(sqrt: real -> real, trig: Trig, limits: LoopLimits, sourceScan: seq<Point3>, targetScan: seq<Point3>,
                               initial: Pose, result: Result<LoopVerification>) {
    if !limits.Positive() then result == Err("invalid loop verification limits")
    else
      var (source, target) := (LoopScan(sourceScan, limits.reach), LoopScan(targetScan, limits.reach));
      if |source| < limits.minPoints || |target| < limits.minPoints then result == Ok(Declined("insufficient_scan_points"))
      else if limits.Budget(initial) > limits.maxCandidates then result == Ok(Declined("loop_search_budget_exceeded"))
      else if target == [] then result == Err("division by zero")
      else result.Ok? && IsVerdict(sqrt, limits, LoopPlacements(sqrt, trig, limits, sourceScan, targetScan, initial), result.value)
  }

  /** With sensible limits, such as the defaults, verification never raises. */
  lemma SensibleLimitsNeverRaise(sqrt: real -> real, trig: Trig, limits: LoopLimits, sourceScan: seq<Point3>, targetScan: seq<Point3>,
                                 initial: Pose, result: Result<LoopVerification>)
    requires limits.Positive() && limits.minPoints > 0
    requires IsLoopResult(sqrt, trig, limits, sourceScan, targetScan, initial, result)
    ensures result.Ok?
  {
  }

  /** Acceptance is always the verdict on the placements of the search window. */
  lemma AcceptedIsVerdict(sqrt: real -> real, trig: Trig, limits: LoopLimits, sourceScan: seq<Point3>, targetScan: seq<Point3>,
                          initial: Pose, v: LoopVerification)
    requires IsLoopResult(sqrt, trig, limits, sourceScan, targetScan, initial, Ok(v)) && v.accepted
    ensures limits.Positive()
    ensures IsVerdict(sqrt, limits, LoopPlacements(sqrt, trig, limits, sourceScan, targetScan, initial), v)
  {
  }

  method VerifyLoop(sqrt: real -> real, trig: Trig, limits: LoopLimits, sourceScan: seq<Point3>, targetScan: seq<Point3>, initial: Pose)
    returns (result: Result<LoopVerification>)
    requires IsSqrt(sqrt)
    ensures IsLoopResult(sqrt, trig, limits, sourceScan, targetScan, initial, result)
  {
    if !limits.Positive() {
      return Err("invalid loop verification limits");
    }
    var points := PlanarPoints(sourceScan, -0.3, 1.8);
    var source := Downsample(points, limits.reach / 2.0, 4000);
    points := PlanarPoints(targetScan, -0.3, 1.8);
    var target := Downsample(points, limits.reach / 2.0, 4000);
    if |source| < limits.minPoints || |target| < limits.minPoints {
      return Ok(Declined("insufficient_scan_points"));
    }
    var xs, ys, yaws := limits.XAxis(initial), limits.YAxis(initial), limits.YawAxis(initial);
    if |xs| * |ys| * |yaws| > limits.maxCandidates {
      return Ok(Declined("loop_search_budget_exceeded"));
    }
    if target == [] {
      return Err("division by zero");
    }
    var index := MakeSpatialIndex(source, limits.reach);
    ghost var at := Scored(sqrt, trig, source, target, limits.reach);
    var ranked := ScoreAll(sqrt, trig, at, source, target, limits.reach, index, xs, ys, yaws);
    LatticeCount(at, xs, ys, yaws);
    ProductNonzero(|xs|, |ys|, |yaws|);
    var verdict := Judge(sqrt, limits, ranked);
    result := Ok(verdict);
  }

  function Declined(reason: string): LoopVerification {
    LoopVerification(false, reason, None, 0.0, None, 0, 0)
  }

  lemma ProductNonzero(a: nat, b: nat, c: nat)
    requires a > 0 && b > 0 && c > 0
    ensures a * b * c > 0
  {
    assert a * b > 0;
  }

  method ScoreAll(sqrt: real -> real, trig: Trig, ghost at: Pose -> Candidate, source: seq<Point>, target: seq<Point>, reach: real,
                  index: SpatialIndex, xs: seq<real>, ys: seq<real>, yaws: seq<real>) returns (ranked: seq<Candidate>)
    requires reach > 0.0 && Indexes(index, source, reach)
    requires at == Scored(sqrt, trig, source, target, reach)
    ensures ranked == Lattice(at, xs, ys, yaws)
  {
    ranked := [];
    for i := 0 to |xs|
      invariant ranked == Lattice(at, xs[..i], ys, yaws)
    {
      assert xs[..i + 1][..i] == xs[..i];
      var plane := ScorePlane(sqrt, trig, at, source, target, reach, index, xs[i], ys, yaws);
      ranked := ranked + plane;
    }
    assert xs[..|xs|] == xs;
  }

  method ScorePlane(sqrt: real -> real, trig: Trig, ghost at: Pose -> Candidate, source: seq<Point>, target: seq<Point>, reach: real,
                    index: SpatialIndex, x: real, ys: seq<real>, yaws: seq<real>) returns (plane: seq<Candidate>)
    requires reach > 0.0 && Indexes(index, source, reach)
    requires at == Scored(sqrt, trig, source, target, reach)
    ensures plane == Plane(at, x, ys, yaws)
  {
    plane := [];
    for j := 0 to |ys|
      invariant plane == Plane(at, x, ys[..j], yaws)
    {
      assert ys[..j + 1][..j] == ys[..j];
      var row := ScoreRow(sqrt, trig, at, source, target, reach, index, x, ys[j], yaws);
      plane := plane + row;
    }
    assert ys[..|ys|] == ys;
  }

  method ScoreRow(sqrt: real -> real, trig: Trig, ghost at: Pose -> Candidate, source: seq<Point>, target: seq<Point>, reach: real,
                  index: SpatialIndex, x: real, y: real, yaws: seq<real>) returns (row: seq<Candidate>)
    requires reach > 0.0 && Indexes(index, source, reach)
    requires at == Scored(sqrt, trig, source, target, reach)
    ensures row == Row(at, x, y, yaws)
  {
    row := [];
    for k := 0 to |yaws|
      invariant row == Row(at, x, y, yaws[..k])
    {
      var pose := Pose(x, y, yaws[k]);
      var score := Score(sqrt, trig, target, index, pose, reach, source);
      row := row + [Candidate(score, pose)];
    }
    assert yaws[..|yaws|] == yaws;
  }

  /** The error reported with a score. */
  function ReportedError(score: MatchScore): Option<real> { if score.inliers != 0 then score.rmse else None }

  /** Why the top candidate is or is not accepted, the causes in the order they are looked at. */
  ghost function LoopReason(sqrt: real -> real, limits: LoopLimits, all: seq<Candidate>, best: Candidate): string {
    var (score, rmse) := (best.score, ReportedError(best.score));
    if score.fitness < limits.minFitness || score.inliers < limits.minPoints then "loop_fitness_below_threshold"
    else if rmse.None? || rmse.value > limits.maxRmse then "loop_rmse_above_threshold"
    else if !StandsOut(sqrt, limits, all, best) then "ambiguous_loop_match"
    else "accepted"
  }

  /** The whole report on the top candidate. */
  ghost predicate Describes(sqrt: real -> real, limits: LoopLimits, all: seq<Candidate>, best: Candidate, v: LoopVerification) {
    && v.fitness == best.score.fitness && v.inliers == best.score.inliers && v.rmse == ReportedError(best.score)
    && (v.accepted <==> MeetsThresholds(limits, best.score) && StandsOut(sqrt, limits, all, best))
    && v.relative == (if v.accepted then Some(best.pose) else None)
    && v.reason == LoopReason(sqrt, limits, all, best) && v.evaluated == |all|
  }

  ghost predicate IsVerdict(sqrt: real -> real, limits: LoopLimits, all: seq<Candidate>, v: LoopVerification) {
    exists best :: IsTop(all, best) && Describes(sqrt, limits, all, best, v)
  }

  /** The verdict leaves nothing open. */
  lemma VerdictIsUnique(sqrt: real -> real, limits: LoopLimits, all: seq<Candidate>, v: LoopVerification, w: LoopVerification)
    requires IsVerdict(sqrt, limits, all, v) && IsVerdict(sqrt, limits, all, w)
    ensures v == w
  {
    var a :| IsTop(all, a) && Describes(sqrt, limits, all, a, v);
    var b :| IsTop(all, b) && Describes(sqrt, limits, all, b, w);
    TopIsUnique(all, a, b);
  }

  /** Acceptance, read off the report: the reported numbers are those of the
      proposed edge, which the candidates confirm. */
  lemma VerdictConfirms(sqrt: real -> real, limits: LoopLimits, all: seq<Candidate>, v: LoopVerification)
    requires IsVerdict(sqrt, limits, all, v)
    ensures v.accepted <==> exists best :: Confirms(sqrt, limits, all, best)
    ensures v.accepted ==> v.relative.Some? && Confirms(sqrt, limits, all, Candidate(MatchScore(v.fitness, v.rmse, v.inliers), v.relative.value))
  {
    var best :| IsTop(all, best) && Describes(sqrt, limits, all, best, v);
    if other :| Confirms(sqrt, limits, all, other) {
      TopIsUnique(all, best, other);
    }
    if v.accepted {
      assert best == Candidate(MatchScore(v.fitness, v.rmse, v.inliers), v.relative.value);
      assert Confirms(sqrt, limits, all, best);
    }
  }

  /** Sort the candidates, take the first, and look for the first distinct one below it. */
  method Judge(sqrt: real -> real, limits: LoopLimits, all: seq<Candidate>) returns (v: LoopVerification)
    requires IsSqrt(sqrt) && limits.Positive() && all != []
    ensures IsVerdict(sqrt, limits, all, v)
  {
    var ranked := Sorted(Outranks, all);
    OutranksIsTotal();
    SortedIsSorted(Outranks, all);
    var best := ranked[0];
    assert IsTop(all, best);
    var runner := FirstDistinct(sqrt, limits, ranked);
    RunnerIsFittest(sqrt, limits, all, ranked, runner);
    var margin := Margin(best, runner);
    var score := best.score;
    var rmse := if score.inliers != 0 then score.rmse else None;
    var accepted := score.fitness >= limits.minFitness && rmse.Some? && rmse.value <= limits.maxRmse
                    && score.inliers >= limits.minPoints && margin >= limits.minMargin;
    var reason := if score.fitness < limits.minFitness || score.inliers < limits.minPoints then "loop_fitness_below_threshold"
                  else if rmse.None? || rmse.value > limits.maxRmse then "loop_rmse_above_threshold"
                  else if margin < limits.minMargin then "ambiguous_loop_match"
                  else "accepted";
    v := LoopVerification(accepted, reason, if accepted then Some(best.pose) else None, score.fitness, rmse, score.inliers, |ranked|);
    assert Describes(sqrt, limits, all, best, v);
  }

  ghost predicate Apart(sqrt: real -> real, limits: LoopLimits, ranked: seq<Candidate>, i: nat)
    requires i < |ranked|
  {
    Distinct(sqrt, limits, ranked[i].pose, ranked[0].pose)
  }

  ghost predicate IsFirstDistinct(sqrt: real -> real, limits: LoopLimits, ranked: seq<Candidate>, runner: Option<Candidate>) {
    if runner.None? then forall i :: 1 <= i < |ranked| ==> !Apart(sqrt, limits, ranked, i)
    else exists k :: 1 <= k < |ranked| && runner.value == ranked[k] && Apart(sqrt, limits, ranked, k)
                     && forall i :: 1 <= i < k ==> !Apart(sqrt, limits, ranked, i)
  }

  lemma NotApartFromItself(sqrt: real -> real, limits: LoopLimits, pose: Pose)
    requires IsSqrt(sqrt) && limits.Positive()
    ensures !Distinct(sqrt, limits, pose, pose)
  {
    HypotZero(sqrt);
    assert Normalize(0.0) == 0.0 by { WrappedIsFixed(0.0); }
  }

  /** In ranked order the first distinct candidate is the fittest distinct one. */
  lemma RunnerIsFittest(sqrt: real -> real, limits: LoopLimits, all: seq<Candidate>, ranked: seq<Candidate>, runner: Option<Candidate>)
    requires IsSqrt(sqrt) && limits.Positive() && ranked != []
    requires SortedBy(Outranks, ranked) && forall c :: c in ranked <==> c in all
    requires IsFirstDistinct(sqrt, limits, ranked, runner)
    ensures Margin(ranked[0], runner) >= limits.minMargin <==> StandsOut(sqrt, limits, all, ranked[0])
  {
    var best := ranked[0];
    NotApartFromItself(sqrt, limits, best.pose);
    if runner.None? {
      forall c | c in all ensures !Distinct(sqrt, limits, c.pose, best.pose) {
        assert c in ranked;
        var i :| 0 <= i < |ranked| && ranked[i] == c;
        assert i > 0 ==> !Apart(sqrt, limits, ranked, i);
      }
    } else {
      var k :| 1 <= k < |ranked| && runner.value == ranked[k] && Apart(sqrt, limits, ranked, k)
               && forall i :: 1 <= i < k ==> !Apart(sqrt, limits, ranked, i);
      assert ranked[k] in all;
      forall c | c in all && Distinct(sqrt, limits, c.pose, best.pose) ensures c.score.fitness <= runner.value.score.fitness {
        assert c in ranked;
        var i :| 0 <= i < |ranked| && ranked[i] == c;
        assert Apart(sqrt, limits, ranked, i);
        assert k < i ==> Outranks(ranked[k], ranked[i]);
      }
    }
  }

  method FirstDistinct(sqrt: real -> real, limits: LoopLimits, ranked: seq<Candidate>) returns (runner: Option<Candidate>)
    requires ranked != []
    ensures IsFirstDistinct(sqrt, limits, ranked, runner)
  {
    for k := 1 to |ranked|
      invariant forall i :: 1 <= i < k ==> !Apart(sqrt, limits, ranked, i)
    {
      if Distinct(sqrt, limits, ranked[k].pose, ranked[0].pose) {
        assert Apart(sqrt, limits, ranked, k);
        return Some(ranked[k]);
      }
    }
    runner := None;
  }

  /** An accepted loop beats the fitness of every spatially distinct candidate
      of the whole search window by the margin. */
  lemma AcceptedLoopIsUnambiguous(sqrt: real -> real, trig: Trig, limits: LoopLimits, source: seq<Point3>, target: seq<Point3>,
                                  initial: Pose, v: LoopVerification, x: real, y: real, yaw: real)
    requires limits.Positive() && IsVerdict(sqrt, limits, LoopPlacements(sqrt, trig, limits, source, target, initial), v)
    requires v.accepted && x in limits.XAxis(initial) && y in limits.YAxis(initial) && yaw in limits.YawAxis(initial)
    ensures v.relative.Some?
    ensures Distinct(sqrt, limits, Pose(x, y, yaw), v.relative.value) ==>
      Scored(sqrt, trig, LoopScan(source, limits.reach), LoopScan(target, limits.reach), limits.reach)(Pose(x, y, yaw)).score.fitness
        + limits.minMargin <= v.fitness
  {
    var at := Scored(sqrt, trig, LoopScan(source, limits.reach), LoopScan(target, limits.reach), limits.reach);
    LatticeHas(at, limits.XAxis(initial), limits.YAxis(initial), limits.YawAxis(initial), at(Pose(x, y, yaw)));
    VerdictConfirms(sqrt, limits, LoopPlacements(sqrt, trig, limits, source, target, initial), v);
  }

  predicate NearBy(value: real, center: real, radius: real, step: real) {
    center - radius <= value <= center + radius + 0.000000001 * step
  }

  /** The edge an accepted loop proposes is a scored candidate inside the search
      window around the odometry estimate. */
  lemma AcceptedLoopIsNearOdometry(sqrt: real -> real, trig: Trig, limits: LoopLimits, source: seq<Point3>, target: seq<Point3>,
                                   initial: Pose, v: LoopVerification)
    requires limits.Positive() && IsVerdict(sqrt, limits, LoopPlacements(sqrt, trig, limits, source, target, initial), v)
    requires v.accepted
    ensures v.relative.Some? && var relative := v.relative.value;
      && NearBy(relative.x, initial.x, limits.translationRadius, limits.translationStep)
      && NearBy(relative.y, initial.y, limits.translationRadius, limits.translationStep)
      && NearBy(relative.yaw, initial.yaw, limits.yawRadius, limits.yawStep)
      && BruteScore(sqrt, trig, LoopScan(target, limits.reach), LoopScan(source, limits.reach), relative, limits.reach)
      == MatchScore(v.fitness, v.rmse, v.inliers)
  {
    var at := Scored(sqrt, trig, LoopScan(source, limits.reach), LoopScan(target, limits.reach), limits.reach);
    VerdictConfirms(sqrt, limits, LoopPlacements(sqrt, trig, limits, source, target, initial), v);
    var best := Candidate(MatchScore(v.fitness, v.rmse, v.inliers), v.relative.value);
    LatticeHas(at, limits.XAxis(initial), limits.YAxis(initial), limits.YawAxis(initial), best);
    AxisWithin(initial.x, limits.translationRadius, limits.translationStep);
    AxisWithin(initial.y, limits.translationRadius, limits.translationStep);
    AxisWithin(initial.yaw, limits.yawRadius, limits.yawStep);
    var x, y, yaw :| x in limits.XAxis(initial) && y in limits.YAxis(initial) && yaw in limits.YawAxis(initial)
                     && best == at(Pose(x, y, yaw));
  }
}
