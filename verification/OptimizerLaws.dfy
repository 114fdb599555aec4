/** What the optimizer as a whole does to a graph, and a loop closed: PlanarPoseGraph.optimize,
    robot_brain/navigation/pose_graph.py:138-185. */
module OptimizerLaws {
  import opened RealMath
  import opened Grid
  import opened Poses
  import opened PoseRelaxation
  import opened RelaxationLaws
  import opened PoseGraph

  /** Behind every report lie the rounds of a relaxation that follow the edges until one moves little
      or the budget is spent; their number and their last poses are the ones reported on, and the
      residuals are those of the first and of the last poses. */
  lemma OptimizedCourse(m: Numerics, constraints: seq<Constraint>, raw: seq<Pose>, limits: OptimizeLimits, r: GraphResult)
    returns (course: seq<seq<Pose>>)
    requires AreEdges(constraints, |raw|) && Anchored(constraints, |raw|) && limits.budget.tolerance >= 0.0
    requires IsOptimized(m, constraints, raw, limits, r)
    ensures IsCourse(m, constraints, limits.budget, course) && course[0] == raw && RunsOut(m, constraints, limits.budget, course)
    ensures r.iterations == |course| - 1 && r.optimized == if r.accepted then course[|course| - 1] else raw
    ensures r.initialRmse == Some(Rmse(m, constraints, raw)) && r.optimizedRmse == Some(Rmse(m, constraints, course[|course| - 1]))
  {
    course := RelaxationCourse(m, constraints, raw, limits.budget);
  }

  // ----- a loop closed -----

  /** Odometry saw the robot go one metre; a verified loop says that it is back where it started. */
  function DisagreeingEdges(): seq<Constraint> {
    [Constraint(0, 1, Pose(1.0, 0.0, 0.0), 4.0, Odometry), Constraint(0, 1, Pose(0.0, 0.0, 0.0), 20.0, Loop)]
  }

  function OneAhead(x: real): seq<Pose> { [ORIGIN, Pose(x, 0.0, 0.0)] }

  lemma NoTurn()
    ensures Normalize(0.0) == 0.0
  {
    WrappedIsFixed(0.0);
  }

  lemma ComposedAtOrigin(trig: Trig, x: real)
    requires trig.Lawful()
    ensures ComposePose(trig, ORIGIN, Pose(x, 0.0, 0.0)) == Pose(x, 0.0, 0.0)
    ensures RelativePose(trig, ORIGIN, Pose(x, 0.0, 0.0)) == Pose(x, 0.0, 0.0)
  {
    NoTurn();
    assert InversePose(trig, ORIGIN) == ORIGIN;
  }

  lemma SumsOfTwo(trig: Trig, poses: seq<Pose>, part: Pose -> real)
    requires |poses| == 2 && AreEdges(DisagreeingEdges(), 2)
    ensures SumAt(trig, DisagreeingEdges(), poses, 1, part)
         == part(ComposePose(trig, poses[0], Pose(1.0, 0.0, 0.0))) * 4.0 + part(ComposePose(trig, poses[0], Pose(0.0, 0.0, 0.0))) * 20.0
    ensures WeightAt(DisagreeingEdges(), 1) == 24.0
  {
    var all := DisagreeingEdges();
    assert all[..1] == [all[0]] && all[..1][..0] == [];
    assert SumAt(trig, all[..1], poses, 1, part) == 0.0 + part(ComposePose(trig, poses[0], all[0].relative)) * 4.0;
    assert WeightAt(all[..1], 1) == 4.0;
  }

  /** A round keeps the robot on its line and leaves 65 percent of the way to the balance point. */
  lemma RoundOfTwo(m: Numerics, x: real, next: seq<Pose>)
    requires m.Lawful() && IsArctan(m) && AreEdges(DisagreeingEdges(), 2)
    requires IsRound(m, DisagreeingEdges(), OneAhead(x), 0.35, next)
    ensures next == OneAhead(x + 0.35 * (1.0 / 6.0 - x))
  {
    var poses := OneAhead(x);
    var p := poses[1];
    ComposedAtOrigin(m.trig, 1.0);
    ComposedAtOrigin(m.trig, 0.0);
    SumsOfTwo(m.trig, poses, Ahead(p));
    SumsOfTwo(m.trig, poses, Aside(p));
    SumsOfTwo(m.trig, poses, SineAt(m.trig));
    SumsOfTwo(m.trig, poses, CosineAt(m.trig));
    assert FollowsEdges(m, DisagreeingEdges(), poses, 0.35, 1, next[1]);
    assert SumAt(m.trig, DisagreeingEdges(), poses, 1, Ahead(p)) == 4.0 - 24.0 * x;
    assert Undoes(m, 0.0, 24.0, 0.0, 24.0);
    var direction := Direction(m, DisagreeingEdges(), poses, 1);
    assert direction == m.arctan(0.0, 24.0);
    NoTurn();
    assert direction - 0.0 == direction;
    assert PartTurn(0.0, direction, 0.35) == 0.0;
  }

  /** So the robot ends between the balance point, a sixth of the way, and what one round leaves. */
  lemma {:induction false} CourseOfTwo(m: Numerics, budget: Budget, course: seq<seq<Pose>>, k: nat) returns (x: real)
    requires m.Lawful() && IsArctan(m) && AreEdges(DisagreeingEdges(), 2) && budget.relaxation == 0.35
    requires IsCourse(m, DisagreeingEdges(), budget, course) && RunsOut(m, DisagreeingEdges(), budget, course)
    requires course[0] == OneAhead(1.0) && k < |course|
    ensures course[k] == OneAhead(x) && 1.0 / 6.0 < x <= 1.0 && (k > 0 ==> x <= 0.71)
  {
    x := 1.0;
    if k > 0 {
      var before := CourseOfTwo(m, budget, course, k - 1);
      assert IsRound(m, DisagreeingEdges(), course[k - 1], budget.relaxation, course[k - 1 + 1]);
      RoundOfTwo(m, before, course[k]);
      x := before + 0.35 * (1.0 / 6.0 - before);
    }
  }

  lemma ErrorOfTwo(m: Numerics, x: real, relative: real, weight: real, kind: EdgeKind)
    requires m.Lawful() && weight > 0.0
    ensures EdgeError(m, Constraint(0, 1, Pose(relative, 0.0, 0.0), weight, kind), OneAhead(x)) == weight * ((x - relative) * (x - relative))
  {
    ComposedAtOrigin(m.trig, x);
    NoTurn();
    assert m.HypotAt(x - relative, 0.0);
    HypotSquare(m.sqrt, x - relative, 0.0);
    assert 0.0 * m.radian == 0.0;
  }

  lemma SumOfTwo(m: Numerics, poses: seq<Pose>, constraints: seq<Constraint>)
    requires AreEdges(constraints, |poses|) && |constraints| == 2
    ensures SquaredError(m, constraints, poses) == EdgeError(m, constraints[0], poses) + EdgeError(m, constraints[1], poses)
    ensures TotalWeight(constraints) == constraints[0].weight + constraints[1].weight
  {
    var first := constraints[..1];
    assert first == [constraints[0]] && first[..0] == [];
    assert SquaredError(m, first, poses) == 0.0 + EdgeError(m, constraints[0], poses);
    assert TotalWeight(first) == 0.0 + constraints[0].weight;
  }

  lemma ResidualOfTwo(m: Numerics, x: real)
    requires m.Lawful() && AreEdges(DisagreeingEdges(), 2)
    ensures var r := Rmse(m, DisagreeingEdges(), OneAhead(x));
      r >= 0.0 && r * r * 24.0 == 4.0 * ((x - 1.0) * (x - 1.0)) + 20.0 * (x * x)
  {
    var all, poses := DisagreeingEdges(), OneAhead(x);
    SumOfTwo(m, poses, all);
    ErrorOfTwo(m, x, 1.0, 4.0, Odometry);
    ErrorOfTwo(m, x, 0.0, 20.0, Loop);
    assert x - 0.0 == x;
    SquaredErrorZeroExactly(m, all, poses);
    RootOfMean(m.sqrt, SquaredError(m, all, poses), 24.0, Rmse(m, all, poses));
  }

  lemma MisfitFalls(x: real)
    requires 1.0 / 6.0 < x <= 0.71
    ensures 4.0 * ((x - 1.0) * (x - 1.0)) + 20.0 * (x * x) <= 10.5
  {
    var left := ProductNonnegative(0.71 - x, 24.0 * x + 9.04);
    assert left == 6.4184 - (24.0 * (x * x) - 8.0 * x);
    assert 4.0 * ((x - 1.0) * (x - 1.0)) + 20.0 * (x * x) == 24.0 * (x * x) - 8.0 * x + 4.0;
  }

  lemma RootFalls(initial: real, optimized: real)
    requires initial >= 0.0 && optimized >= 0.0 && initial * initial * 24.0 == 20.0 && optimized * optimized * 24.0 <= 10.5
    ensures Improves(DEFAULT_OPTIMIZE, initial, optimized)
  {
    SquareOrder(0.9, initial);
    assert (0.8 * initial) * (0.8 * initial) == 0.64 * (initial * initial);
    SquareOrder(optimized, 0.8 * initial);
    var gain := (initial - optimized) / initial;
    assert gain * initial == initial - optimized;
    assert (gain - 0.2) * initial >= 0.0;
  }

  /** What a report accepts: a relaxed graph that improves enough and moves nothing too far. */
  lemma Accepts(m: Numerics, constraints: seq<Constraint>, raw: seq<Pose>, limits: OptimizeLimits, r: GraphResult, end: seq<Pose>)
    requires AreEdges(constraints, |raw|) && IsOptimized(m, constraints, raw, limits, r)
    requires Relaxed(m, constraints, raw, limits.budget).0 == end && |end| == |raw|
    requires Improves(limits, Rmse(m, constraints, raw), Rmse(m, constraints, end))
    requires forall i: nat :: i < |raw| ==> TranslationGaps(m, raw, end)(i) <= limits.maxTranslation && YawGaps(raw, end)(i) <= limits.maxYaw
    ensures r.accepted && r.optimized == end
  {
    LargestBounded(r.maxTranslation, TranslationGaps(m, raw, end), |raw|, limits.maxTranslation);
    LargestBounded(r.maxYaw, YawGaps(raw, end), |raw|, limits.maxYaw);
  }

  lemma LargestBounded(value: real, gap: nat -> real, count: nat, limit: real)
    requires IsLargest(value, gap, count) && forall i: nat :: i < count ==> gap(i) <= limit
    ensures value <= limit
  {
  }

  /** A graph whose loop contradicts its odometry is optimized and accepted: the keyframe goes most of
      the way back, towards the sixth at which the pulls of 4 and 20 balance. */
  lemma DisagreementIsResolved(m: Numerics, r: GraphResult)
    requires m.Lawful() && IsArctan(m) && AreEdges(DisagreeingEdges(), 2)
    requires IsOptimized(m, DisagreeingEdges(), OneAhead(1.0), DEFAULT_OPTIMIZE, r)
    ensures r.accepted && |r.optimized| == 2 && r.optimized[0] == ORIGIN
    ensures r.optimized[1].y == 0.0 && r.optimized[1].yaw == 0.0 && 1.0 / 6.0 < r.optimized[1].x <= 0.71
  {
    var x := RelaxedTwo(m);
    ImprovesTwo(m, x);
    MovesBounded(m, x);
    Accepts(m, DisagreeingEdges(), OneAhead(1.0), DEFAULT_OPTIMIZE, r, OneAhead(x));
  }

  lemma RelaxedTwo(m: Numerics) returns (x: real)
    requires m.Lawful() && IsArctan(m) && AreEdges(DisagreeingEdges(), 2)
    ensures Relaxed(m, DisagreeingEdges(), OneAhead(1.0), DEFAULT_OPTIMIZE.budget).0 == OneAhead(x) && 1.0 / 6.0 < x <= 0.71
  {
    var edges := DisagreeingEdges();
    assert Touches(edges[0], 1);
    assert Hangs(edges, 1);
    var course := RelaxationCourse(m, edges, OneAhead(1.0), DEFAULT_OPTIMIZE.budget);
    x := CourseOfTwo(m, DEFAULT_OPTIMIZE.budget, course, |course| - 1);
  }

  lemma ImprovesTwo(m: Numerics, x: real)
    requires m.Lawful() && AreEdges(DisagreeingEdges(), 2) && 1.0 / 6.0 < x <= 0.71
    ensures Improves(DEFAULT_OPTIMIZE, Rmse(m, DisagreeingEdges(), OneAhead(1.0)), Rmse(m, DisagreeingEdges(), OneAhead(x)))
  {
    ResidualOfTwo(m, 1.0);
    ResidualOfTwo(m, x);
    MisfitFalls(x);
    RootFalls(Rmse(m, DisagreeingEdges(), OneAhead(1.0)), Rmse(m, DisagreeingEdges(), OneAhead(x)));
  }

  lemma MovesBounded(m: Numerics, x: real)
    requires m.Lawful() && 1.0 / 6.0 < x <= 1.0
    ensures forall i: nat :: i < 2 ==> TranslationGaps(m, OneAhead(1.0), OneAhead(x))(i) <= 5.0 && YawGaps(OneAhead(1.0), OneAhead(x))(i) <= 90.0
  {
    var raw, end := OneAhead(1.0), OneAhead(x);
    NoTurn();
    ShortMove(m, 1.0 - x);
    ShortMove(m, 0.0);
    forall i: nat | i < 2 ensures TranslationGaps(m, raw, end)(i) <= 5.0 && YawGaps(raw, end)(i) <= 90.0 {
      assert raw[i].yaw - end[i].yaw == 0.0 && raw[i].y - end[i].y == 0.0;
    }
  }

  lemma ShortMove(m: Numerics, d: real)
    requires m.Lawful() && 0.0 <= d <= 1.0
    ensures m.hypot(d, 0.0) <= 5.0
  {
    assert m.HypotAt(d, 0.0);
    HypotSquare(m.sqrt, d, 0.0);
    SquareOrder(m.hypot(d, 0.0), d);
  }

  /** The same through the graph itself: two keyframes, a loop, and the optimizer's default limits. */
  method CloseLoop(m: Numerics) returns (r: GraphResult)
    requires m.Lawful() && IsArctan(m)
    ensures r.accepted && |r.optimized| == 2 && 1.0 / 6.0 < r.optimized[1].x <= 0.71
  {
    var graph := new PlanarPoseGraph(m);
    var first := graph.AddKeyframe(0.0, ORIGIN);
    var second := graph.AddKeyframe(1.0, Pose(1.0, 0.0, 0.0));
    ComposedAtOrigin(m.trig, 1.0);
    var looped := graph.AddLoopConstraint(0, 1, ORIGIN, 1.0);
    assert graph.constraints == DisagreeingEdges();
    assert Raw(graph.keyframes) == OneAhead(1.0);
    var optimized := graph.Optimize(DEFAULT_OPTIMIZE);
    r := optimized.value;
    OfKindMembers(graph.constraints, Loop, graph.constraints[1]);
    DisagreementIsResolved(m, r);
  }

  // ----- acceptance -----

  /** The share of a residual that has to go; below a billionth, of a billionth. */
  function Demanded(limits: OptimizeLimits, initial: real): real {
    limits.minImprovement * (if initial > 0.000000001 then initial else 0.000000001)
  }

  /** A result is accepted exactly when the residual falls by what is demanded and no keyframe is
      moved or turned too far; otherwise the reason names the first thing wrong. */
  lemma AcceptedExactly(m: Numerics, constraints: seq<Constraint>, raw: seq<Pose>, limits: OptimizeLimits, r: GraphResult)
    requires AreEdges(constraints, |raw|) && IsOptimized(m, constraints, raw, limits, r)
    ensures r.initialRmse.Some? && r.optimizedRmse.Some?
    ensures var (initial, optimized) := (r.initialRmse.value, r.optimizedRmse.value);
      r.accepted <==> optimized < initial && initial - optimized >= Demanded(limits, initial)
                      && r.maxTranslation <= limits.maxTranslation && r.maxYaw <= limits.maxYaw
    ensures var drop := r.initialRmse.value - r.optimizedRmse.value;
      r.reason == if drop <= 0.0 || drop < Demanded(limits, r.initialRmse.value) then "insufficient_residual_improvement"
                  else if r.maxTranslation > limits.maxTranslation then "translation_correction_exceeds_limit"
                  else if r.maxYaw > limits.maxYaw then "yaw_correction_exceeds_limit"
                  else "accepted"
  {
    ImprovesExactly(limits, r.initialRmse.value, r.optimizedRmse.value);
  }

  lemma ImprovesExactly(limits: OptimizeLimits, initial: real, optimized: real)
    ensures Improves(limits, initial, optimized) <==> optimized < initial && initial - optimized >= Demanded(limits, initial)
  {
    ShareExactly(initial - optimized, if initial > 0.000000001 then initial else 0.000000001, limits.minImprovement);
  }

  lemma ShareExactly(drop: real, whole: real, share: real)
    requires whole > 0.0
    ensures drop / whole >= share <==> drop >= share * whole
  {
    var q := drop / whole;
    assert q * whole == drop;
    var gap := ProductSign(q - share, whole);
    assert gap == drop - share * whole;
  }
}
