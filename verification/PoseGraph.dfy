/** Keyframes, odometry and loop edges: PlanarPoseGraph of
    robot_brain/navigation/pose_graph.py:100-213. */
module PoseGraph {
  import opened RealMath
  import opened Grid
  import opened Poses
  import opened PoseRelaxation
  import opened RelaxationLaws

  datatype GraphResult = GraphResult(
    accepted: bool, reason: string, optimized: seq<Pose>, initialRmse: Option<real>, optimizedRmse: Option<real>,
    iterations: nat, loops: nat, maxTranslation: real, maxYaw: real)

  datatype OptimizeLimits = OptimizeLimits(budget: Budget, minImprovement: real, maxTranslation: real, maxYaw: real)

  const DEFAULT_OPTIMIZE := OptimizeLimits(Budget(80, 0.35, 0.0001), 0.05, 5.0, 90.0)

  function Raw(keyframes: seq<Keyframe>): seq<Pose> {
    seq(|keyframes|, i requires 0 <= i < |keyframes| => keyframes[i].raw)
  }

  ghost predicate InOrder(keyframes: seq<Keyframe>) {
    forall i, j :: 0 <= i < j < |keyframes| ==> keyframes[i].timestamp < keyframes[j].timestamp
  }

  function OdometryEdge(trig: Trig, keyframes: seq<Keyframe>, i: nat): Constraint
    requires 0 < i < |keyframes|
  {
    Constraint(i - 1, i, RelativePose(trig, keyframes[i - 1].raw, keyframes[i].raw), 4.0, Odometry)
  }

  /** One odometry edge between every two consecutive keyframes. */
  function OdometryChain(trig: Trig, keyframes: seq<Keyframe>): seq<Constraint> {
    if |keyframes| < 2 then []
    else OdometryChain(trig, keyframes[..|keyframes| - 1]) + [OdometryEdge(trig, keyframes, |keyframes| - 1)]
  }

  lemma ChainNext(trig: Trig, keyframes: seq<Keyframe>, frame: Keyframe)
    ensures var longer := keyframes + [frame];
      OdometryChain(trig, longer) == OdometryChain(trig, keyframes) + EdgeTo(trig, keyframes, frame)
  {
    assert (keyframes + [frame])[..|keyframes|] == keyframes;
  }

  function OfKind(constraints: seq<Constraint>, kind: EdgeKind): seq<Constraint> {
    if constraints == [] then []
    else
      var rest, last := OfKind(constraints[..|constraints| - 1], kind), constraints[|constraints| - 1];
      if last.kind == kind then rest + [last] else rest
  }

  lemma OfKindNext(constraints: seq<Constraint>, c: Constraint, kind: EdgeKind)
    ensures OfKind(constraints + [c], kind) == OfKind(constraints, kind) + if c.kind == kind then [c] else []
  {
    var all := constraints + [c];
    assert all[..|all| - 1] == constraints;
  }

  lemma {:induction false} OfKindMembers(constraints: seq<Constraint>, kind: EdgeKind, c: Constraint)
    ensures c in OfKind(constraints, kind) <==> c in constraints && c.kind == kind
  {
    if constraints != [] {
      var init, last := constraints[..|constraints| - 1], constraints[|constraints| - 1];
      OfKindMembers(init, kind, c);
      assert constraints == init + [last];
    }
  }

  /** What the graph keeps: ordered keyframes, edges between known nodes, and
      exactly the odometry chain among them. */
  ghost predicate GraphValid(trig: Trig, keyframes: seq<Keyframe>, constraints: seq<Constraint>) {
    && InOrder(keyframes)
    && AreEdges(constraints, |keyframes|)
    && OfKind(constraints, Odometry) == OdometryChain(trig, keyframes)
  }

  /** The odometry edge to a frame that is appended. */
  function EdgeTo(trig: Trig, keyframes: seq<Keyframe>, frame: Keyframe): seq<Constraint> {
    if keyframes == [] then [] else [OdometryEdge(trig, keyframes + [frame], |keyframes|)]
  }

  /** Appending a later keyframe with its odometry edge keeps the graph valid. */
  lemma FrameKeepsGraph(trig: Trig, keyframes: seq<Keyframe>, constraints: seq<Constraint>, frame: Keyframe)
    requires GraphValid(trig, keyframes, constraints)
    requires keyframes != [] ==> keyframes[|keyframes| - 1].timestamp < frame.timestamp
    ensures GraphValid(trig, keyframes + [frame], constraints + EdgeTo(trig, keyframes, frame))
    ensures OfKind(constraints + EdgeTo(trig, keyframes, frame), Loop) == OfKind(constraints, Loop)
  {
    ChainNext(trig, keyframes, frame);
    if keyframes == [] {
      assert constraints + [] == constraints;
    } else {
      var edge := OdometryEdge(trig, keyframes + [frame], |keyframes|);
      OfKindNext(constraints, edge, Odometry);
      OfKindNext(constraints, edge, Loop);
    }
  }

  lemma {:induction false} ChainReaches(trig: Trig, keyframes: seq<Keyframe>, i: nat)
    requires 0 < i < |keyframes|
    ensures OdometryEdge(trig, keyframes, i) in OdometryChain(trig, keyframes)
  {
    var init := keyframes[..|keyframes| - 1];
    if i < |init| {
      ChainReaches(trig, init, i);
      assert OdometryEdge(trig, init, i) == OdometryEdge(trig, keyframes, i);
    }
  }

  /** The odometry chain holds every keyframe but the first. */
  lemma ChainAnchors(trig: Trig, keyframes: seq<Keyframe>, constraints: seq<Constraint>)
    requires GraphValid(trig, keyframes, constraints)
    ensures Anchored(constraints, |keyframes|)
  {
    forall i | 0 < i < |keyframes| ensures Hangs(constraints, i) {
      var edge := OdometryEdge(trig, keyframes, i);
      ChainReaches(trig, keyframes, i);
      OfKindMembers(constraints, Odometry, edge);
      var k :| 0 <= k < |constraints| && constraints[k] == edge;
      assert Touches(constraints[k], i);
    }
  }

  function RejectedGraph(reason: string, poses: seq<Pose>, loops: nat): GraphResult {
    GraphResult(false, reason, poses, None, None, 0, loops, 0.0, 0.0)
  }

  predicate Improves(limits: OptimizeLimits, initial: real, optimized: real) {
    optimized < initial && (initial - optimized) / Greater(initial, 0.000000001) >= limits.minImprovement
  }

  /** What acceptance demands lowers the residual, by at least the given fraction
      of any residual that is not negligible. */
  lemma ImprovementBound(limits: OptimizeLimits, initial: real, optimized: real)
    requires Improves(limits, initial, optimized) && initial >= 0.000000001
    ensures optimized < initial && optimized <= (1.0 - limits.minImprovement) * initial
  {
    var gain := (initial - optimized) / initial;
    assert gain * initial == initial - optimized;
    ScaleMonotone(limits.minImprovement, gain, initial);
  }

  lemma ScaleMonotone(a: real, b: real, c: real)
    requires a <= b && c > 0.0
    ensures a * c <= b * c
  {
  }

  function TranslationGap(m: Numerics, a: seq<Pose>, b: seq<Pose>, i: nat): real
    requires i < |a| == |b|
  {
    m.hypot(a[i].x - b[i].x, a[i].y - b[i].y)
  }

  function YawGap(a: seq<Pose>, b: seq<Pose>, i: nat): real
    requires i < |a| == |b|
  {
    Magnitude(AngleDelta(a[i].yaw, b[i].yaw))
  }

  ghost predicate IsLargest(value: real, gap: nat -> real, count: nat) {
    (exists i :: 0 <= i < count && gap(i) == value) && forall i :: 0 <= i < count ==> gap(i) <= value
  }

  function TranslationGaps(m: Numerics, a: seq<Pose>, b: seq<Pose>): nat -> real
    requires |a| == |b|
  {
    (i: nat) => if i < |a| then TranslationGap(m, a, b, i) else 0.0
  }

  function YawGaps(a: seq<Pose>, b: seq<Pose>): nat -> real
    requires |a| == |b|
  {
    (i: nat) => if i < |a| then YawGap(a, b, i) else 0.0
  }

  /** Why a relaxed graph is not accepted, the causes in the order they are looked at. */
  function RelaxReason(limits: OptimizeLimits, initial: real, optimized: real, maxTranslation: real, maxYaw: real): string {
    if !Improves(limits, initial, optimized) then "insufficient_residual_improvement"
    else if maxTranslation > limits.maxTranslation then "translation_correction_exceeds_limit"
    else if maxYaw > limits.maxYaw then "yaw_correction_exceeds_limit"
    else "accepted"
  }

  /** What optimizing a graph with loops reports. */
  ghost predicate IsOptimized(m: Numerics, constraints: seq<Constraint>, raw: seq<Pose>, limits: OptimizeLimits, r: GraphResult)
    requires AreEdges(constraints, |raw|)
  {
    var relaxed := Relaxed(m, constraints, raw, limits.budget);
    |relaxed.0| == |raw| &&
    var initial, optimized := Rmse(m, constraints, raw), Rmse(m, constraints, relaxed.0);
    && r.initialRmse == Some(initial) && r.optimizedRmse == Some(optimized) && r.iterations == relaxed.1
    && IsLargest(r.maxTranslation, TranslationGaps(m, raw, relaxed.0), |raw|)
    && IsLargest(r.maxYaw, YawGaps(raw, relaxed.0), |raw|)
    && (r.accepted <==> Improves(limits, initial, optimized) && r.maxTranslation <= limits.maxTranslation && r.maxYaw <= limits.maxYaw)
    && r.optimized == (if r.accepted then relaxed.0 else raw)
    && r.reason == RelaxReason(limits, initial, optimized, r.maxTranslation, r.maxYaw)
  }

  /** An accepted result keeps the anchor and the node count and moves no pose
      beyond the limits; a rejected one is the raw poses. */
  lemma AcceptedIsBounded(m: Numerics, constraints: seq<Constraint>, raw: seq<Pose>, limits: OptimizeLimits, r: GraphResult, i: nat)
    requires AreEdges(constraints, |raw|) && IsOptimized(m, constraints, raw, limits, r) && i < |raw|
    ensures |r.optimized| == |raw| && r.optimized[0] == raw[0]
    ensures !r.accepted ==> r.optimized == raw
    ensures r.accepted ==>
      && TranslationGap(m, raw, r.optimized, i) <= limits.maxTranslation
      && YawGap(raw, r.optimized, i) <= limits.maxYaw
  {
    AnchorStays(m, constraints, raw, limits.budget);
    var relaxed := Relaxed(m, constraints, raw, limits.budget).0;
    assert TranslationGaps(m, raw, relaxed)(i) == TranslationGap(m, raw, relaxed, i);
    assert YawGaps(raw, relaxed)(i) == YawGap(raw, relaxed, i);
  }

  /** The reported residuals are those of the raw and of the returned poses. */
  lemma ReportedResiduals(m: Numerics, constraints: seq<Constraint>, raw: seq<Pose>, limits: OptimizeLimits, r: GraphResult)
    requires AreEdges(constraints, |raw|) && IsOptimized(m, constraints, raw, limits, r) && r.accepted
    ensures |r.optimized| == |raw|
    ensures r.initialRmse == Some(Rmse(m, constraints, raw)) && r.optimizedRmse == Some(Rmse(m, constraints, r.optimized))
    ensures Improves(limits, r.initialRmse.value, r.optimizedRmse.value)
  {
  }

  /** An accepted result fits the edges better than the raw poses do: by at least
      the demanded fraction, unless the raw residual is negligible. */
  lemma AcceptedLowersResidual(m: Numerics, constraints: seq<Constraint>, raw: seq<Pose>, limits: OptimizeLimits, r: GraphResult)
    requires AreEdges(constraints, |raw|) && IsOptimized(m, constraints, raw, limits, r) && r.accepted
    ensures |r.optimized| == |raw|
    ensures Lowers(limits, Rmse(m, constraints, raw), Rmse(m, constraints, r.optimized))
  {
    ReportedResiduals(m, constraints, raw, limits, r);
    ImprovementLowers(limits, r.initialRmse.value, r.optimizedRmse.value);
  }

  predicate Lowers(limits: OptimizeLimits, initial: real, optimized: real) {
    optimized < initial && (initial >= 0.000000001 ==> optimized <= (1.0 - limits.minImprovement) * initial)
  }

  lemma ImprovementLowers(limits: OptimizeLimits, initial: real, optimized: real)
    requires Improves(limits, initial, optimized)
    ensures Lowers(limits, initial, optimized)
  {
    if initial >= 0.000000001 {
      ImprovementBound(limits, initial, optimized);
    }
  }

  // ----- one optimizer round, as the source runs it -----

  method CollectPulls(trig: Trig, constraints: seq<Constraint>, poses: seq<Pose>) returns (proposals: seq<seq<Pull>>)
    requires AreEdges(constraints, |poses|)
    ensures |proposals| == |poses|
    ensures forall i :: 0 <= i < |poses| ==> proposals[i] == Pulls(trig, constraints, poses, i)
  {
    proposals := seq(|poses|, i => []);
    for e := 0 to |constraints|
      invariant |proposals| == |poses|
      invariant forall i :: 0 <= i < |poses| ==> proposals[i] == Pulls(trig, constraints[..e], poses, i)
    {
      assert constraints[..e + 1][..e] == constraints[..e];
      var edge := constraints[e];
      ghost var before := proposals;
      var forward := Pull(ComposePose(trig, poses[edge.source], edge.relative), edge.weight);
      proposals := proposals[edge.target := proposals[edge.target] + [forward]];
      var backward := Pull(ComposePose(trig, poses[edge.target], InversePose(trig, edge.relative)), edge.weight);
      proposals := proposals[edge.source := proposals[edge.source] + [backward]];
      forall i | 0 <= i < |poses| ensures proposals[i] == Pulls(trig, constraints[..e + 1], poses, i) {
        assert proposals[i] == before[i] + EdgePulls(trig, edge, poses, i);
      }
    }
    assert constraints[..|constraints|] == constraints;
  }

  method RunRound(m: Numerics, constraints: seq<Constraint>, poses: seq<Pose>, relaxation: real)
    returns (next: seq<Pose>, maxDelta: real)
    requires poses != [] && AreEdges(constraints, |poses|) && Anchored(constraints, |poses|)
    ensures next == Round(m, constraints, poses, relaxation)
    ensures maxDelta == LargestDelta(m, poses, next)
    ensures IsRound(m, constraints, poses, relaxation, next)
  {
    RoundFollowsEdges(m, constraints, poses, relaxation);
    var proposals := CollectPulls(m.trig, constraints, poses);
    ghost var goal := Round(m, constraints, poses, relaxation);
    next, maxDelta := MoveAll(m, constraints, poses, relaxation, proposals, goal, DeltaAt(m, poses, goal));
  }

  /** What moving one node yields: its new pose and how far that is. */
  ghost predicate MovesTo(m: Numerics, constraints: seq<Constraint>, poses: seq<Pose>, relaxation: real,
                          goal: seq<Pose>, gap: nat -> real, i: nat)
    requires AreEdges(constraints, |poses|) && i < |poses| == |goal|
  {
    goal[i] == Moved(m, constraints, poses, relaxation, i) && gap(i) == PoseDelta(m, poses[i], goal[i])
  }

  method MoveAll(m: Numerics, constraints: seq<Constraint>, poses: seq<Pose>, relaxation: real, proposals: seq<seq<Pull>>,
                 ghost goal: seq<Pose>, ghost gap: nat -> real) returns (next: seq<Pose>, maxDelta: real)
    requires poses != [] && AreEdges(constraints, |poses|) && Anchored(constraints, |poses|)
    requires |proposals| == |poses| == |goal| && goal[0] == poses[0]
    requires forall i :: 0 <= i < |poses| ==> proposals[i] == Pulls(m.trig, constraints, poses, i)
    requires forall i :: 0 <= i < |poses| ==> MovesTo(m, constraints, poses, relaxation, goal, gap, i)
    ensures next == goal && maxDelta == LargestOf(gap, |poses|)
  {
    next, maxDelta := [poses[0]], 0.0;
    for index := 1 to |poses|
      invariant next == goal[..index] && maxDelta == LargestOf(gap, index)
    {
      var updated, delta := MoveNode(m, constraints, poses, relaxation, index, proposals[index], goal, gap);
      maxDelta := Greater(maxDelta, delta);
      next := next + [updated];
    }
  }

  method MoveNode(m: Numerics, constraints: seq<Constraint>, poses: seq<Pose>, relaxation: real, index: nat, proposal: seq<Pull>,
                  ghost goal: seq<Pose>, ghost gap: nat -> real) returns (updated: Pose, delta: real)
    requires AreEdges(constraints, |poses|) && Anchored(constraints, |poses|) && 0 < index < |poses| == |goal|
    requires proposal == Pulls(m.trig, constraints, poses, index)
    requires MovesTo(m, constraints, poses, relaxation, goal, gap, index)
    ensures updated == goal[index] && delta == gap(index)
  {
    WeightedPoseSucceeds(m, constraints, poses, index);
    updated := InterpolatePose(poses[index], WeightedPose(m, proposal).value, relaxation);
    delta := PoseDelta(m, poses[index], updated);
  }

  ghost predicate StepsTo(round: seq<Pose> -> seq<Pose>, m: Numerics, constraints: seq<Constraint>, relaxation: real, poses: seq<Pose>) {
    AreEdges(constraints, |poses|) ==> round(poses) == Round(m, constraints, poses, relaxation)
  }

  ghost predicate Measures(delta: (seq<Pose>, seq<Pose>) -> real, m: Numerics, a: seq<Pose>, b: seq<Pose>) {
    delta(a, b) == LargestDelta(m, a, b)
  }

  method Relax(m: Numerics, constraints: seq<Constraint>, raw: seq<Pose>, budget: Budget) returns (poses: seq<Pose>, iterations: nat)
    requires raw != [] && AreEdges(constraints, |raw|) && Anchored(constraints, |raw|)
    ensures (poses, iterations) == Relaxed(m, constraints, raw, budget) && |poses| == |raw|
  {
    poses, iterations := RelaxBy(m, constraints, raw, budget, Rounds(m, constraints, budget.relaxation), Deltas(m));
  }

  method RelaxBy(m: Numerics, constraints: seq<Constraint>, raw: seq<Pose>, budget: Budget,
                 ghost round: seq<Pose> -> seq<Pose>, ghost delta: (seq<Pose>, seq<Pose>) -> real)
    returns (poses: seq<Pose>, iterations: nat)
    requires raw != [] && AreEdges(constraints, |raw|) && Anchored(constraints, |raw|)
    requires forall p :: StepsTo(round, m, constraints, budget.relaxation, p)
    requires forall a, b :: Measures(delta, m, a, b)
    ensures (poses, iterations) == Iterated(round, delta, raw, budget.rounds, budget.tolerance) && |poses| == |raw|
  {
    poses, iterations := raw, 0;
    ghost var whole := Iterated(round, delta, raw, budget.rounds, budget.tolerance);
    while iterations < budget.rounds
      invariant |poses| == |raw| && iterations <= budget.rounds
      invariant whole == After(Iterated(round, delta, poses, budget.rounds - iterations, budget.tolerance), iterations)
    {
      IteratedNext(round, delta, poses, budget.rounds - iterations, budget.tolerance, iterations);
      var next, maxDelta := NextRound(m, constraints, poses, budget.relaxation, round, delta);
      poses, iterations := next, iterations + 1;
      if maxDelta <= budget.tolerance {
        return;
      }
    }
  }

  lemma IteratedNext(round: seq<Pose> -> seq<Pose>, delta: (seq<Pose>, seq<Pose>) -> real, poses: seq<Pose>, rounds: nat, tolerance: real, spent: nat)
    requires rounds > 0
    ensures After(Iterated(round, delta, poses, rounds, tolerance), spent)
         == if delta(poses, round(poses)) <= tolerance then (round(poses), spent + 1)
            else After(Iterated(round, delta, round(poses), rounds - 1, tolerance), spent + 1)
  {
  }

  method NextRound(m: Numerics, constraints: seq<Constraint>, poses: seq<Pose>, relaxation: real,
                   ghost round: seq<Pose> -> seq<Pose>, ghost delta: (seq<Pose>, seq<Pose>) -> real) returns (next: seq<Pose>, maxDelta: real)
    requires poses != [] && AreEdges(constraints, |poses|) && Anchored(constraints, |poses|)
    requires forall p :: StepsTo(round, m, constraints, relaxation, p)
    requires forall a, b :: Measures(delta, m, a, b)
    ensures next == round(poses) && maxDelta == delta(poses, next) && |next| == |poses|
  {
    next, maxDelta := RunRound(m, constraints, poses, relaxation);
    assert StepsTo(round, m, constraints, relaxation, poses);
    assert Measures(delta, m, poses, next);
  }

  method Largest(ghost gap: nat -> real, gaps: seq<real>) returns (value: real)
    requires gaps != [] && forall i :: 0 <= i < |gaps| ==> gaps[i] == gap(i)
    ensures IsLargest(value, gap, |gaps|)
  {
    value := gaps[0];
    ghost var at := 0;
    for i := 1 to |gaps|
      invariant at < i && gap(at) == value && forall j :: 0 <= j < i ==> gap(j) <= value
    {
      if gaps[i] > value {
        value, at := gaps[i], i;
      }
    }
  }

  class PlanarPoseGraph {
    const numerics: Numerics
    var keyframes: seq<Keyframe>
    var constraints: seq<Constraint>

    ghost predicate Valid()
      reads this
    {
      GraphValid(numerics.trig, keyframes, constraints)
    }

    constructor (numerics: Numerics)
      ensures Valid() && keyframes == [] && constraints == [] && this.numerics == numerics
    {
      this.numerics := numerics;
      keyframes, constraints := [], [];
    }

    /** A timestamp that does not advance is an error and changes nothing. */
    method AddKeyframe(timestamp: real, pose: Pose) returns (index: Result<nat>)
      requires Valid()
      modifies this
      ensures Valid()
      ensures index.Err? <==> old(keyframes) != [] && timestamp <= old(keyframes)[|old(keyframes)| - 1].timestamp
      ensures index.Err? ==> keyframes == old(keyframes) && constraints == old(constraints)
      ensures index.Ok? ==>
        && index.value == |old(keyframes)|
        && keyframes == old(keyframes) + [Keyframe(timestamp, pose)]
        && constraints == old(constraints) + EdgeTo(numerics.trig, old(keyframes), Keyframe(timestamp, pose))
      ensures index.Ok? && old(keyframes) != [] ==>
        var n := |old(keyframes)|;
        constraints == old(constraints) + [Constraint(n - 1, n, RelativePose(numerics.trig, old(keyframes)[n - 1].raw, pose), 4.0, Odometry)]
    {
      if keyframes != [] && timestamp <= keyframes[|keyframes| - 1].timestamp {
        return Err("keyframe timestamps must be strictly increasing");
      }
      var i := |keyframes|;
      FrameKeepsGraph(numerics.trig, keyframes, constraints, Keyframe(timestamp, pose));
      keyframes := keyframes + [Keyframe(timestamp, pose)];
      if i > 0 {
        constraints := constraints + [OdometryEdge(numerics.trig, keyframes, i)];
      }
      index := Ok(i);
    }

    method AddLoopConstraint(source: nat, target: nat, relative: Pose, confidence: real) returns (result: Result<()>)
      requires Valid()
      modifies this
      ensures Valid() && keyframes == old(keyframes)
      ensures result.Ok? <==> source < |keyframes| && target < |keyframes| && 0.0 < confidence <= 1.0 && source != target
      ensures constraints == old(constraints)
        + if result.Ok? then [Constraint(source, target, relative, Greater(1.0, confidence * 20.0), Loop)] else []
    {
      if source >= |keyframes| || target >= |keyframes| {
        return Err("constraint references missing keyframe");
      }
      if !(0.0 < confidence <= 1.0) {
        return Err("loop confidence must be in (0, 1]");
      }
      if source == target {
        return Err("invalid constraint indices");
      }
      var edge := Constraint(source, target, relative, Greater(1.0, confidence * 20.0), Loop);
      OfKindNext(constraints, edge, Odometry);
      constraints := constraints + [edge];
      result := Ok(());
    }

    /** The relaxation never meets a node without constraints, whatever the history. */
    method Optimize(limits: OptimizeLimits) returns (result: Result<GraphResult>)
      requires Valid()
      ensures result.Err? <==> limits.budget.rounds == 0 || !(0.0 < limits.budget.relaxation <= 1.0)
      ensures result.Ok? ==>
        var (raw, loops) := (Raw(keyframes), |OfKind(constraints, Loop)|);
        && result.value.loops == loops
        && if |raw| < 2 then result.value == RejectedGraph("insufficient_keyframes", raw, loops)
           else if loops == 0 then result.value == RejectedGraph("no_verified_loop_constraints", raw, loops)
           else IsOptimized(numerics, constraints, raw, limits, result.value)
    {
      if limits.budget.rounds == 0 || !(0.0 < limits.budget.relaxation <= 1.0) {
        return Err("invalid optimization budget");
      }
      var raw := Raw(keyframes);
      var loops := |OfKind(constraints, Loop)|;
      if |raw| < 2 {
        return Ok(RejectedGraph("insufficient_keyframes", raw, loops));
      }
      if loops == 0 {
        return Ok(RejectedGraph("no_verified_loop_constraints", raw, loops));
      }
      ChainAnchors(numerics.trig, keyframes, constraints);
      var poses, iterations := Relax(numerics, constraints, raw, limits.budget);
      var r := Assess(numerics, constraints, raw, poses, iterations, limits, loops);
      result := Ok(r);
    }
  }

  method Assess(m: Numerics, constraints: seq<Constraint>, raw: seq<Pose>, poses: seq<Pose>, iterations: nat,
                limits: OptimizeLimits, loops: nat) returns (r: GraphResult)
    requires raw != [] && AreEdges(constraints, |raw|)
    requires (poses, iterations) == Relaxed(m, constraints, raw, limits.budget) && |poses| == |raw|
    ensures IsOptimized(m, constraints, raw, limits, r) && r.loops == loops
  {
    var initial := MeasureRmse(m, constraints, raw);
    var optimized := MeasureRmse(m, constraints, poses);
    var maxTranslation := Largest(TranslationGaps(m, raw, poses),
                                  seq(|raw|, i requires 0 <= i < |raw| => TranslationGap(m, raw, poses, i)));
    var maxYaw := Largest(YawGaps(raw, poses), seq(|raw|, i requires 0 <= i < |raw| => YawGap(raw, poses, i)));
    var reason := RelaxReason(limits, initial, optimized, maxTranslation, maxYaw);
    var accepted := Improves(limits, initial, optimized) && maxTranslation <= limits.maxTranslation && maxYaw <= limits.maxYaw;
    r := GraphResult(accepted, reason, if accepted then poses else raw, Some(initial), Some(optimized),
                     iterations, loops, maxTranslation, maxYaw);
  }
}
