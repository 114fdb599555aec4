/** The relaxation behind PlanarPoseGraph.optimize:
    robot_brain/navigation/pose_graph.py:138-185, 205-213 and 370-390. */
module PoseRelaxation {
  import opened RealMath
  import opened Grid
  import opened Poses

  datatype Keyframe = Keyframe(timestamp: real, raw: Pose)

  datatype EdgeKind = Odometry | Loop

  datatype Constraint = Constraint(source: nat, target: nat, relative: Pose, weight: real, kind: EdgeKind)

  /** The borrowed functions; `arctan` is `math.degrees(math.atan2(y, x))` and
      `radian` the factor of `math.radians`. */
  datatype Numerics = Numerics(
    sqrt: real -> real, hypot: (real, real) -> real, trig: Trig, arctan: (real, real) -> real, radian: real)
  {
    ghost predicate HypotAt(x: real, y: real) { hypot(x, y) == Hypot(sqrt, x, y) }

    ghost predicate Lawful() {
      && IsSqrt(sqrt) && trig.Lawful() && radian > 0.0
      && forall x, y :: HypotAt(x, y)
    }
  }

  /** An edge between two different known nodes that pulls with some weight. */
  predicate IsEdge(c: Constraint, nodes: nat) {
    c.source < nodes && c.target < nodes && c.source != c.target && c.weight > 0.0
  }

  predicate AreEdges(constraints: seq<Constraint>, nodes: nat) {
    forall k :: 0 <= k < |constraints| ==> IsEdge(constraints[k], nodes)
  }

  predicate Touches(c: Constraint, node: nat) { c.source == node || c.target == node }

  ghost predicate Hangs(constraints: seq<Constraint>, node: nat) {
    exists k :: 0 <= k < |constraints| && Touches(constraints[k], node)
  }

  /** Every node but the anchor hangs on some edge. */
  ghost predicate Anchored(constraints: seq<Constraint>, nodes: nat) {
    forall i :: 0 < i < nodes ==> Hangs(constraints, i)
  }

  // ----- one round -----

  datatype Pull = Pull(pose: Pose, weight: real)

  /** Where one edge wants a node to be. */
  function EdgePulls(trig: Trig, c: Constraint, poses: seq<Pose>, node: nat): seq<Pull>
    requires IsEdge(c, |poses|)
  {
    (if c.target == node then [Pull(ComposePose(trig, poses[c.source], c.relative), c.weight)] else [])
    + (if c.source == node then [Pull(ComposePose(trig, poses[c.target], InversePose(trig, c.relative)), c.weight)] else [])
  }

  function Pulls(trig: Trig, constraints: seq<Constraint>, poses: seq<Pose>, node: nat): seq<Pull>
    requires AreEdges(constraints, |poses|)
  {
    if constraints == [] then []
    else
      var init := constraints[..|constraints| - 1];
      Pulls(trig, init, poses, node) + EdgePulls(trig, constraints[|constraints| - 1], poses, node)
  }

  lemma {:induction false} PulledWhenTouched(trig: Trig, constraints: seq<Constraint>, poses: seq<Pose>, node: nat)
    requires AreEdges(constraints, |poses|)
    ensures Pulls(trig, constraints, poses, node) == [] <==> !Hangs(constraints, node)
    ensures forall i :: 0 <= i < |Pulls(trig, constraints, poses, node)| ==> Pulls(trig, constraints, poses, node)[i].weight > 0.0
  {
    if constraints != [] {
      var init := constraints[..|constraints| - 1];
      PulledWhenTouched(trig, init, poses, node);
      if Hangs(init, node) {
        var k :| 0 <= k < |init| && Touches(init[k], node);
        assert Touches(constraints[k], node);
      }
    }
  }

  function One(p: Pull): real { 1.0 }

  function XOf(p: Pull): real { p.pose.x }

  function YOf(p: Pull): real { p.pose.y }

  function SineOf(trig: Trig): Pull -> real { (p: Pull) => trig.sin(p.pose.yaw) }

  function CosineOf(trig: Trig): Pull -> real { (p: Pull) => trig.cos(p.pose.yaw) }

  function Total(pulls: seq<Pull>, part: Pull -> real): real {
    if pulls == [] then 0.0 else Total(pulls[..|pulls| - 1], part) + part(pulls[|pulls| - 1]) * pulls[|pulls| - 1].weight
  }

  lemma {:induction false} WeightPositive(pulls: seq<Pull>)
    requires forall i :: 0 <= i < |pulls| ==> pulls[i].weight > 0.0
    ensures Total(pulls, One) >= 0.0
    ensures pulls != [] ==> Total(pulls, One) > 0.0
  {
    if pulls != [] {
      WeightPositive(pulls[..|pulls| - 1]);
    }
  }

  /** `_weighted_pose`, with the error it raises on an unconstrained node. */
  function WeightedPose(m: Numerics, pulls: seq<Pull>): Result<Pose> {
    var total := Total(pulls, One);
    if pulls == [] then Err("pose graph node has no constraints")
    else if total == 0.0 then Err("division by zero")
    else Ok(Pose(Total(pulls, XOf) / total, Total(pulls, YOf) / total,
                 m.arctan(Total(pulls, SineOf(m.trig)), Total(pulls, CosineOf(m.trig)))))
  }

  /** On an anchored graph no node is ever without a proposal. */
  lemma WeightedPoseSucceeds(m: Numerics, constraints: seq<Constraint>, poses: seq<Pose>, node: nat)
    requires AreEdges(constraints, |poses|) && Anchored(constraints, |poses|) && 0 < node < |poses|
    ensures WeightedPose(m, Pulls(m.trig, constraints, poses, node)).Ok?
  {
    PulledWhenTouched(m.trig, constraints, poses, node);
    WeightPositive(Pulls(m.trig, constraints, poses, node));
  }

  function Moved(m: Numerics, constraints: seq<Constraint>, poses: seq<Pose>, relaxation: real, node: nat): Pose
    requires AreEdges(constraints, |poses|) && node < |poses|
  {
    var wanted := WeightedPose(m, Pulls(m.trig, constraints, poses, node));
    if node == 0 || wanted.Err? then poses[node] else InterpolatePose(poses[node], wanted.value, relaxation)
  }

  function Round(m: Numerics, constraints: seq<Constraint>, poses: seq<Pose>, relaxation: real): seq<Pose>
    requires AreEdges(constraints, |poses|)
  {
    seq(|poses|, i requires 0 <= i < |poses| => Moved(m, constraints, poses, relaxation, i))
  }

  function Magnitude(x: real): real { if x < 0.0 then -x else x }

  function PoseDelta(m: Numerics, a: Pose, b: Pose): real {
    Greater(m.hypot(a.x - b.x, a.y - b.y), Magnitude(AngleDelta(a.yaw, b.yaw) * m.radian))
  }

  /** The largest gap at the nodes after the anchor. */
  function LargestOf(gap: nat -> real, n: nat): real {
    if n <= 1 then 0.0 else Greater(LargestOf(gap, n - 1), gap(n - 1))
  }

  function DeltaAt(m: Numerics, before: seq<Pose>, after: seq<Pose>): nat -> real {
    (i: nat) => if i < |before| && i < |after| then PoseDelta(m, before[i], after[i]) else 0.0
  }

  function LargestDelta(m: Numerics, before: seq<Pose>, after: seq<Pose>): real {
    LargestOf(DeltaAt(m, before, after), |before|)
  }

  lemma {:induction false} SameLargest(f: nat -> real, g: nat -> real, n: nat)
    requires forall i :: 0 < i < n ==> f(i) == g(i)
    ensures LargestOf(f, n) == LargestOf(g, n)
  {
    if n > 1 {
      SameLargest(f, g, n - 1);
    }
  }

  datatype Budget = Budget(rounds: nat, relaxation: real, tolerance: real)

  /** Rounds until one moves nothing by more than the tolerance, or the budget is spent. */
  function Iterated(round: seq<Pose> -> seq<Pose>, delta: (seq<Pose>, seq<Pose>) -> real, poses: seq<Pose>, rounds: nat, tolerance: real): (seq<Pose>, nat)
    decreases rounds
  {
    if rounds == 0 then (poses, 0)
    else if delta(poses, round(poses)) <= tolerance then (round(poses), 1)
    else After(Iterated(round, delta, round(poses), rounds - 1, tolerance), 1)
  }

  function After(run: (seq<Pose>, nat), rounds: nat): (seq<Pose>, nat) { (run.0, run.1 + rounds) }

  function Rounds(m: Numerics, constraints: seq<Constraint>, relaxation: real): seq<Pose> -> seq<Pose> {
    (poses: seq<Pose>) => if AreEdges(constraints, |poses|) then Round(m, constraints, poses, relaxation) else poses
  }

  function Deltas(m: Numerics): (seq<Pose>, seq<Pose>) -> real {
    (a: seq<Pose>, b: seq<Pose>) => LargestDelta(m, a, b)
  }

  function Relaxed(m: Numerics, constraints: seq<Constraint>, poses: seq<Pose>, budget: Budget): (seq<Pose>, nat) {
    Iterated(Rounds(m, constraints, budget.relaxation), Deltas(m), poses, budget.rounds, budget.tolerance)
  }

  ghost predicate KeepsAnchor(round: seq<Pose> -> seq<Pose>, poses: seq<Pose>) {
    poses != [] ==> |round(poses)| == |poses| && round(poses)[0] == poses[0]
  }

  lemma {:induction false} IterationKeepsAnchor(round: seq<Pose> -> seq<Pose>, delta: (seq<Pose>, seq<Pose>) -> real, poses: seq<Pose>, rounds: nat, tolerance: real)
    requires poses != [] && forall p :: KeepsAnchor(round, p)
    ensures |Iterated(round, delta, poses, rounds, tolerance).0| == |poses|
    ensures Iterated(round, delta, poses, rounds, tolerance).0[0] == poses[0]
    decreases rounds
  {
    if rounds > 0 {
      assert KeepsAnchor(round, poses);
      IterationKeepsAnchor(round, delta, round(poses), rounds - 1, tolerance);
    }
  }

  lemma RoundKeepsAnchor(m: Numerics, constraints: seq<Constraint>, relaxation: real, poses: seq<Pose>)
    ensures KeepsAnchor(Rounds(m, constraints, relaxation), poses)
  {
  }

  /** The map anchor never moves, and no node is lost. */
  lemma AnchorStays(m: Numerics, constraints: seq<Constraint>, poses: seq<Pose>, budget: Budget)
    requires poses != []
    ensures |Relaxed(m, constraints, poses, budget).0| == |poses|
    ensures Relaxed(m, constraints, poses, budget).0[0] == poses[0]
  {
    var round := Rounds(m, constraints, budget.relaxation);
    forall p ensures KeepsAnchor(round, p) {
      RoundKeepsAnchor(m, constraints, budget.relaxation, p);
    }
    IterationKeepsAnchor(round, Deltas(m), poses, budget.rounds, budget.tolerance);
  }

  // ----- residuals -----

  function EdgeError(m: Numerics, c: Constraint, poses: seq<Pose>): real
    requires IsEdge(c, |poses|)
  {
    var actual := RelativePose(m.trig, poses[c.source], poses[c.target]);
    var translation := m.hypot(actual.x - c.relative.x, actual.y - c.relative.y);
    var yaw := AngleDelta(actual.yaw, c.relative.yaw) * m.radian;
    c.weight * (translation * translation + yaw * yaw)
  }

  function SquaredError(m: Numerics, constraints: seq<Constraint>, poses: seq<Pose>): real
    requires AreEdges(constraints, |poses|)
  {
    if constraints == [] then 0.0
    else SquaredError(m, constraints[..|constraints| - 1], poses) + EdgeError(m, constraints[|constraints| - 1], poses)
  }

  function TotalWeight(constraints: seq<Constraint>): real {
    if constraints == [] then 0.0 else TotalWeight(constraints[..|constraints| - 1]) + constraints[|constraints| - 1].weight
  }

  function Rmse(m: Numerics, constraints: seq<Constraint>, poses: seq<Pose>): real
    requires AreEdges(constraints, |poses|)
  {
    m.sqrt(SquaredError(m, constraints, poses) / Greater(TotalWeight(constraints), 1.0))
  }

  method MeasureRmse(m: Numerics, constraints: seq<Constraint>, poses: seq<Pose>) returns (rmse: real)
    requires AreEdges(constraints, |poses|)
    ensures rmse == Rmse(m, constraints, poses)
  {
    var squared, totalWeight := 0.0, 0.0;
    for e := 0 to |constraints|
      invariant squared == SquaredError(m, constraints[..e], poses) && totalWeight == TotalWeight(constraints[..e])
    {
      assert constraints[..e + 1][..e] == constraints[..e];
      squared := squared + EdgeError(m, constraints[e], poses);
      totalWeight := totalWeight + constraints[e].weight;
    }
    assert constraints[..|constraints|] == constraints;
    rmse := m.sqrt(squared / Greater(totalWeight, 1.0));
  }

  // ----- a graph that already agrees -----

  /** The pose two ends of an edge already hold. */
  ghost predicate Agrees(trig: Trig, c: Constraint, poses: seq<Pose>)
    requires IsEdge(c, |poses|)
  {
    RelativePose(trig, poses[c.source], poses[c.target]) == Canonical(c.relative)
  }

  ghost predicate AllAgree(trig: Trig, constraints: seq<Constraint>, poses: seq<Pose>)
    requires AreEdges(constraints, |poses|)
  {
    forall k :: 0 <= k < |constraints| ==> Agrees(trig, constraints[k], poses)
  }

  /** `atan2` undoes a scaled sine and cosine, up to whole turns. */
  ghost predicate Undoes(m: Numerics, yaw: real, scale: real, sine: real, cosine: real) {
    sine == m.trig.sin(yaw) * scale && cosine == m.trig.cos(yaw) * scale
    ==> Normalize(m.arctan(sine, cosine)) == Normalize(yaw)
  }

  ghost predicate IsArctan(m: Numerics) {
    forall yaw, scale, sine, cosine :: scale > 0.0 ==> Undoes(m, yaw, scale, sine, cosine)
  }

  /** An edge that agrees wants its ends to stay where they are. */
  lemma AgreeingPull(trig: Trig, c: Constraint, poses: seq<Pose>)
    requires trig.Lawful() && IsEdge(c, |poses|) && Agrees(trig, c, poses)
    ensures ComposePose(trig, poses[c.source], c.relative) == Canonical(poses[c.target])
    ensures ComposePose(trig, poses[c.target], InversePose(trig, c.relative)) == Canonical(poses[c.source])
  {
    var s, t := poses[c.source], poses[c.target];
    RelativeRoundTrip(trig, s, t);
    ComposeCanonical(trig, s, c.relative);
    ComposeCanonical(trig, t, InversePose(trig, c.relative));
    ComposeAssociative(trig, s, c.relative, InversePose(trig, c.relative));
    InverseCancels(trig, c.relative);
    ComposeOrigin(trig, s);
  }

  ghost predicate PullsTo(pulls: seq<Pull>, pose: Pose) {
    forall i :: 0 <= i < |pulls| ==> pulls[i].pose == pose && pulls[i].weight > 0.0
  }

  lemma {:induction false} AgreeingPulls(trig: Trig, constraints: seq<Constraint>, poses: seq<Pose>, node: nat)
    requires trig.Lawful() && AreEdges(constraints, |poses|) && AllAgree(trig, constraints, poses) && node < |poses|
    ensures PullsTo(Pulls(trig, constraints, poses, node), Canonical(poses[node]))
  {
    if constraints != [] {
      var init, last := constraints[..|constraints| - 1], constraints[|constraints| - 1];
      assert forall k :: 0 <= k < |init| ==> Agrees(trig, constraints[k], poses);
      AgreeingPulls(trig, init, poses, node);
      assert Agrees(trig, last, poses);
      AgreeingPull(trig, last, poses);
    }
  }

  lemma {:induction false} TotalOfSame(pulls: seq<Pull>, part: Pull -> real, value: real)
    requires forall i :: 0 <= i < |pulls| ==> part(pulls[i]) == value
    ensures Total(pulls, part) == value * Total(pulls, One)
  {
    if pulls != [] {
      var n := |pulls| - 1;
      TotalOfSame(pulls[..n], part, value);
      Distribute(value, Total(pulls[..n], One), pulls[n].weight);
    }
  }

  lemma Distribute(a: real, b: real, c: real)
    ensures a * b + a * c == a * (b + c)
  {
  }

  lemma SamePull(m: Numerics, pulls: seq<Pull>, pose: Pose)
    requires m.Lawful() && IsArctan(m) && pulls != [] && PullsTo(pulls, pose)
    ensures WeightedPose(m, pulls).Ok? && Canonical(WeightedPose(m, pulls).value) == Canonical(pose)
  {
    var total := Total(pulls, One);
    WeightPositive(pulls);
    TotalOfSame(pulls, XOf, pose.x);
    TotalOfSame(pulls, YOf, pose.y);
    TotalOfSame(pulls, SineOf(m.trig), m.trig.sin(pose.yaw));
    TotalOfSame(pulls, CosineOf(m.trig), m.trig.cos(pose.yaw));
    DivideProduct(pose.x, total);
    DivideProduct(pose.y, total);
    var found := WeightedPose(m, pulls).value;
    assert found.x == pose.x && found.y == pose.y;
    var sine, cosine := Total(pulls, SineOf(m.trig)), Total(pulls, CosineOf(m.trig));
    assert found.yaw == m.arctan(sine, cosine);
    assert Undoes(m, pose.yaw, total, sine, cosine);
  }

  /** Relaxing a graph whose edges all agree moves nothing. */
  lemma AgreementIsFixed(m: Numerics, constraints: seq<Constraint>, poses: seq<Pose>, relaxation: real, node: nat)
    requires m.Lawful() && IsArctan(m)
    requires AreEdges(constraints, |poses|) && Anchored(constraints, |poses|) && AllAgree(m.trig, constraints, poses)
    requires node < |poses|
    ensures Canonical(Round(m, constraints, poses, relaxation)[node]) == Canonical(poses[node])
  {
    if node > 0 {
      var pulls, here := Pulls(m.trig, constraints, poses, node), poses[node];
      PulledWhenTouched(m.trig, constraints, poses, node);
      AgreeingPulls(m.trig, constraints, poses, node);
      SamePull(m, pulls, Canonical(here));
      var wanted := WeightedPose(m, pulls).value;
      WrapTwice(here.yaw);
      InterpolateToSelf(here, wanted, relaxation);
    }
  }

  /** A pose that is the same up to whole turns draws nothing towards it. */
  lemma InterpolateToSelf(here: Pose, wanted: Pose, relaxation: real)
    requires Canonical(wanted) == Canonical(here)
    ensures Canonical(InterpolatePose(here, wanted, relaxation)) == Canonical(here)
  {
    SameHeadings(wanted.yaw, Canonical(here).yaw, here.yaw);
    WrapTwice(here.yaw);
    assert here.yaw + 0.0 * relaxation == here.yaw;
  }

  lemma SameHeadings(a: real, b: real, c: real)
    requires Normalize(a) == Normalize(b) && b == Normalize(c)
    ensures AngleDelta(a, c) == 0.0
  {
    HeadingSum(a, -c);
    HeadingSum(b, -c);
    HeadingSum(c, -c);
    assert a + -c == a - c && c + -c == 0.0;
    WrappedIsFixed(0.0);
  }

  ghost predicate SamePoses(a: seq<Pose>, b: seq<Pose>) {
    |a| == |b| && forall i :: 0 <= i < |a| ==> Canonical(a[i]) == Canonical(b[i])
  }

  lemma NoPoseDelta(m: Numerics, a: Pose, b: Pose)
    requires m.Lawful() && Canonical(a) == Canonical(b)
    ensures PoseDelta(m, a, b) == 0.0
  {
    SameHeadings(a.yaw, Canonical(b).yaw, b.yaw);
    HypotZero(m.sqrt);
    assert m.HypotAt(0.0, 0.0);
    assert a.x - b.x == 0.0 && a.y - b.y == 0.0;
  }

  lemma NoDelta(m: Numerics, before: seq<Pose>, after: seq<Pose>)
    requires m.Lawful() && SamePoses(before, after)
    ensures LargestDelta(m, before, after) == 0.0
  {
    var gap := DeltaAt(m, before, after);
    forall i: nat | i < |before| ensures gap(i) == 0.0 {
      NoPoseDelta(m, before[i], after[i]);
    }
    LargestOfNothing(|before|);
    SameLargest(gap, NoGap, |before|);
  }

  function NoGap(i: nat): real { 0.0 }

  lemma {:induction false} LargestOfNothing(n: nat)
    ensures LargestOf(NoGap, n) == 0.0
  {
    if n > 1 {
      LargestOfNothing(n - 1);
    }
  }

  /** So the optimizer stops after its first round, with the poses it was given. */
  lemma AgreementStopsAtOnce(m: Numerics, constraints: seq<Constraint>, poses: seq<Pose>, budget: Budget)
    requires m.Lawful() && IsArctan(m)
    requires AreEdges(constraints, |poses|) && Anchored(constraints, |poses|) && AllAgree(m.trig, constraints, poses)
    requires budget.rounds > 0 && budget.tolerance >= 0.0
    ensures var relaxed := Relaxed(m, constraints, poses, budget); relaxed.1 == 1 && SamePoses(relaxed.0, poses)
  {
    var next := Round(m, constraints, poses, budget.relaxation);
    forall i | 0 <= i < |poses| ensures Canonical(next[i]) == Canonical(poses[i]) {
      AgreementIsFixed(m, constraints, poses, budget.relaxation, i);
    }
    NoDelta(m, poses, next);
    assert Rounds(m, constraints, budget.relaxation)(poses) == next;
    assert Deltas(m)(poses, next) == 0.0;
  }

  /** An edge contributes no error exactly when its ends agree with it. */
  lemma EdgeErrorZeroExactly(m: Numerics, c: Constraint, poses: seq<Pose>)
    requires m.Lawful() && IsEdge(c, |poses|)
    ensures EdgeError(m, c, poses) >= 0.0
    ensures EdgeError(m, c, poses) == 0.0 <==> Agrees(m.trig, c, poses)
  {
    var actual := RelativePose(m.trig, poses[c.source], poses[c.target]);
    var (dx, dy) := (actual.x - c.relative.x, actual.y - c.relative.y);
    var turn := AngleDelta(actual.yaw, c.relative.yaw);
    var translation, yaw := m.hypot(dx, dy), turn * m.radian;
    assert m.HypotAt(dx, dy);
    HypotSquare(m.sqrt, dx, dy);
    ZeroSquares(dx, dy);
    ZeroSquares(translation, yaw);
    ZeroProduct(c.weight, translation * translation + yaw * yaw);
    ZeroProduct(m.radian, turn);
    HeadingGap(actual.yaw, c.relative.yaw);
    assert Wrapped(actual.yaw) by { NormalizeIsCanonical(InversePose(m.trig, poses[c.source]).yaw + poses[c.target].yaw); }
    WrappedIsFixed(actual.yaw);
  }

  lemma ZeroProduct(a: real, b: real)
    requires a > 0.0
    ensures a * b == 0.0 <==> b == 0.0
    ensures b >= 0.0 ==> a * b >= 0.0
  {
  }

  lemma HeadingGap(a: real, b: real)
    ensures AngleDelta(a, b) == 0.0 <==> Normalize(a) == Normalize(b)
  {
    HeadingSum(a - b, b);
    HeadingSum(b, 0.0);
    assert a - b + b == a && 0.0 + b == b;
    if Normalize(a) == Normalize(b) {
      SameHeadings(a, Normalize(b), b) by { WrapTwice(b); }
    }
  }

  lemma WrapTwice(a: real)
    ensures Normalize(Normalize(a)) == Normalize(a)
  {
    NormalizeIsCanonical(a);
    WrappedIsFixed(Normalize(a));
  }

  lemma {:induction false} SquaredErrorZeroExactly(m: Numerics, constraints: seq<Constraint>, poses: seq<Pose>)
    requires m.Lawful() && AreEdges(constraints, |poses|)
    ensures SquaredError(m, constraints, poses) >= 0.0
    ensures SquaredError(m, constraints, poses) == 0.0 <==> AllAgree(m.trig, constraints, poses)
  {
    if constraints != [] {
      var init, last := constraints[..|constraints| - 1], constraints[|constraints| - 1];
      SquaredErrorZeroExactly(m, init, poses);
      EdgeErrorZeroExactly(m, last, poses);
      assert AllAgree(m.trig, constraints, poses) <==> AllAgree(m.trig, init, poses) && Agrees(m.trig, last, poses) by {
        assert forall k :: 0 <= k < |init| ==> init[k] == constraints[k];
      }
    }
  }

  /** The residual the optimizer reports vanishes exactly when every edge agrees. */
  lemma RmseZeroExactly(m: Numerics, constraints: seq<Constraint>, poses: seq<Pose>)
    requires m.Lawful() && AreEdges(constraints, |poses|)
    ensures Rmse(m, constraints, poses) >= 0.0
    ensures Rmse(m, constraints, poses) == 0.0 <==> AllAgree(m.trig, constraints, poses)
  {
    var weight := Greater(TotalWeight(constraints), 1.0);
    SquaredErrorZeroExactly(m, constraints, poses);
    MeanRootZero(m.sqrt, SquaredError(m, constraints, poses), weight);
  }

  lemma MeanRootZero(sqrt: real -> real, squared: real, weight: real)
    requires IsSqrt(sqrt) && squared >= 0.0 && weight > 0.0
    ensures sqrt(squared / weight) >= 0.0
    ensures sqrt(squared / weight) == 0.0 <==> squared == 0.0
  {
    var mean := squared / weight;
    assert mean >= 0.0 && mean * weight == squared;
    ZeroProduct(weight, mean);
    SquareZeroExactly(sqrt(mean));
  }
}
