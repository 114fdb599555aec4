/** The online keyframe and loop tracker: OnlinePoseGraphTracker of
    robot_brain/navigation/pose_graph.py:216-292. */
module PoseTracker {
  import opened RealMath
  import opened Grid
  import opened Sorting
  import opened Poses
  import opened Costmap
  import opened PoseRelaxation
  import opened PoseGraph
  import opened PoseCorrection
  import opened LoopClosure

  datatype TrackerConfig = TrackerConfig(
    keyframeTranslation: real, keyframeYaw: real, loopRadius: real, minLoopAge: real,
    minKeyframes: int, maxCandidates: int, maxKeyframes: int)
  {
    predicate Valid() {
      && keyframeTranslation > 0.0 && keyframeYaw > 0.0 && loopRadius > 0.0 && minLoopAge > 0.0
      && minKeyframes > 0 && maxCandidates > 0 && maxKeyframes > 0
    }
  }

  function Distance(m: Numerics, a: Pose, b: Pose): real { m.hypot(a.x - b.x, a.y - b.y) }

  /** Old enough and near enough to be worth a scan comparison. */
  predicate IsRevisit(m: Numerics, config: TrackerConfig, keyframes: seq<Keyframe>, earlier: nat, current: nat)
    requires earlier < current < |keyframes|
  {
    && keyframes[current].timestamp - keyframes[earlier].timestamp >= config.minLoopAge
    && Distance(m, keyframes[current].raw, keyframes[earlier].raw) <= config.loopRadius
  }

  datatype Ranked = Ranked(distance: real, index: nat)

  predicate Nearer(a: Ranked, b: Ranked) {
    a.distance < b.distance || (a.distance == b.distance && a.index <= b.index)
  }

  function Revisits(m: Numerics, config: TrackerConfig, keyframes: seq<Keyframe>, current: nat, count: nat): seq<Ranked>
    requires count <= current < |keyframes|
  {
    if count == 0 then []
    else
      var rest := Revisits(m, config, keyframes, current, count - 1);
      if IsRevisit(m, config, keyframes, count - 1, current)
      then rest + [Ranked(Distance(m, keyframes[current].raw, keyframes[count - 1].raw), count - 1)] else rest
  }

  lemma {:induction false} RevisitsAre(m: Numerics, config: TrackerConfig, keyframes: seq<Keyframe>, current: nat, count: nat, r: Ranked)
    requires count <= current < |keyframes|
    ensures r in Revisits(m, config, keyframes, current, count)
       <==> r.index < count && IsRevisit(m, config, keyframes, r.index, current)
            && r.distance == Distance(m, keyframes[current].raw, keyframes[r.index].raw)
  {
    if count > 0 {
      RevisitsAre(m, config, keyframes, current, count - 1, r);
    }
  }

  /** The nearest revisits, no more than the configured number of them. */
  function LoopCandidates(m: Numerics, config: TrackerConfig, keyframes: seq<Keyframe>, current: nat): seq<Ranked>
    requires config.Valid() && current < |keyframes|
  {
    if |keyframes| < config.minKeyframes then []
    else
      var ranked := Sorted(Nearer, Revisits(m, config, keyframes, current, current));
      ranked[..Min(config.maxCandidates, |ranked|)]
  }

  /** Every candidate is a revisit, and a revisit left out is no nearer than any
      candidate and was left out only because the list is full. */
  lemma CandidatesAreNearest(m: Numerics, config: TrackerConfig, keyframes: seq<Keyframe>, current: nat, r: Ranked)
    requires config.Valid() && current < |keyframes|
    ensures var list := LoopCandidates(m, config, keyframes, current);
      && |list| <= config.maxCandidates
      && (r in list ==> r.index < current && IsRevisit(m, config, keyframes, r.index, current))
      && (r !in list && r in Revisits(m, config, keyframes, current, current) && |keyframes| >= config.minKeyframes ==>
            |list| == config.maxCandidates && forall c :: c in list ==> Nearer(c, r))
  {
    var all := Revisits(m, config, keyframes, current, current);
    var ranked := Sorted(Nearer, all);
    SortedIsSorted(Nearer, all);
    RevisitsAre(m, config, keyframes, current, current, r);
    var list := LoopCandidates(m, config, keyframes, current);
    if r !in list && r in all && |keyframes| >= config.minKeyframes {
      var k :| 0 <= k < |ranked| && ranked[k] == r;
      assert k >= |list|;
      forall c | c in list ensures Nearer(c, r) {
        var i :| 0 <= i < |list| && list[i] == c;
        assert ranked[i] == c;
      }
    }
  }

  // ----- one step of the tracker -----

  datatype TrackerState = TrackerState(
    keyframes: seq<Keyframe>, constraints: seq<Constraint>, scans: seq<seq<Point3>>, last: Option<GraphResult>, correction: Pose)

  const INITIAL := TrackerState([], [], [], None, ORIGIN)

  predicate IsKeyframe(m: Numerics, config: TrackerConfig, keyframes: seq<Keyframe>, raw: Pose) {
    keyframes != [] ==>
      var previous := keyframes[|keyframes| - 1].raw;
      Distance(m, raw, previous) >= config.keyframeTranslation || Magnitude(AngleDelta(raw.yaw, previous.yaw)) >= config.keyframeYaw
  }

  /** The timestamp does not advance past the newest keyframe. */
  predicate IsLate(keyframes: seq<Keyframe>, timestamp: real) {
    keyframes != [] && timestamp <= keyframes[|keyframes| - 1].timestamp
  }

  /** A keyframe and its scan are recorded together, with the odometry edge to it. */
  function FrameAdded(trig: Trig, s: TrackerState, frame: Keyframe, scan: seq<Point3>): TrackerState {
    var keyframes := s.keyframes + [frame];
    s.(keyframes := keyframes, scans := s.scans + [scan],
       constraints := s.constraints + EdgeTo(trig, s.keyframes, frame))
  }

  datatype Match = Match(source: Option<nat>, verification: Option<LoopVerification>)

  ghost predicate IsEstimate(m: Numerics, s: TrackerState, source: nat, target: nat, initial: Pose)
    requires source < |s.keyframes| && target < |s.keyframes|
  {
    initial == RelativePose(m.trig, s.keyframes[source].raw, s.keyframes[target].raw)
  }

  /** What verifying the scans of two keyframes, from their odometry estimate, comes to. */
  ghost predicate IsVerification(m: Numerics, limits: LoopLimits, s: TrackerState, source: nat, target: nat, result: Result<LoopVerification>) {
    && source < target < |s.keyframes| == |s.scans|
    && forall initial {:trigger IsEstimate(m, s, source, target, initial)} :: IsEstimate(m, s, source, target, initial) ==>
         IsLoopResult(m.sqrt, m.trig, limits, s.scans[source], s.scans[target], initial, result)
  }

  lemma VerificationIsResult(m: Numerics, limits: LoopLimits, s: TrackerState, source: nat, target: nat, result: Result<LoopVerification>)
    requires IsVerification(m, limits, s, source, target, result)
    ensures IsLoopResult(m.sqrt, m.trig, limits, s.scans[source], s.scans[target],
                         RelativePose(m.trig, s.keyframes[source].raw, s.keyframes[target].raw), result)
  {
    assert IsEstimate(m, s, source, target, RelativePose(m.trig, s.keyframes[source].raw, s.keyframes[target].raw));
  }

  predicate Declines(result: Result<LoopVerification>) { result.Ok? && !result.value.accepted }

  /** The candidates verified one after the other, each outcome being that of its own scans. */
  ghost predicate AreVerified(m: Numerics, limits: LoopLimits, s: TrackerState, candidates: seq<Ranked>, target: nat,
                              results: seq<Result<LoopVerification>>) {
    && |results| <= |candidates|
    && forall k {:trigger results[k]} :: 0 <= k < |results| ==> IsVerification(m, limits, s, candidates[k].index, target, results[k])
  }

  /** The search stops at the first candidate that does not decline: by its
      exception, or with it as the source; without one it has tried them all. */
  predicate Concludes(candidates: seq<Ranked>, results: seq<Result<LoopVerification>>, found: Result<Match>)
    requires |results| <= |candidates|
  {
    var n := |results|;
    if forall k :: 0 <= k < n ==> Declines(results[k]) then
      && n == |candidates|
      && found == Ok(Match(None, if n == 0 then None else Some(results[n - 1].value)))
    else
      && (forall k :: 0 <= k < n - 1 ==> Declines(results[k]))
      && found == if results[n - 1].Err? then Err(results[n - 1].error)
                  else Ok(Match(Some(candidates[n - 1].index), Some(results[n - 1].value)))
  }

  ghost predicate IsMatch(m: Numerics, limits: LoopLimits, s: TrackerState, candidates: seq<Ranked>, target: nat, found: Result<Match>) {
    exists results :: AreVerified(m, limits, s, candidates, target, results) && Concludes(candidates, results, found)
  }

  ghost predicate AreCandidates(m: Numerics, config: TrackerConfig, s: TrackerState, target: nat, list: seq<Ranked>)
    requires config.Valid() && target < |s.keyframes|
  {
    list == LoopCandidates(m, config, s.keyframes, target)
  }

  /** The match among the nearest revisits, or the exception of looking for it. */
  ghost predicate IsMatched(m: Numerics, config: TrackerConfig, limits: LoopLimits, s: TrackerState, target: nat, found: Result<Match>)
    requires config.Valid() && target < |s.keyframes| == |s.scans|
  {
    && (found.Ok? && found.value.source.Some? ==>
          found.value.source.value < target && found.value.verification.Some? && found.value.verification.value.relative.Some?)
    && forall list {:trigger AreCandidates(m, config, s, target, list)} :: AreCandidates(m, config, s, target, list) ==> IsMatch(m, limits, s, list, target, found)
  }

  /** A match found is a candidate that its own verification accepted. */
  lemma MatchIsAccepted(m: Numerics, limits: LoopLimits, s: TrackerState, candidates: seq<Ranked>, target: nat, found: Match)
    requires IsMatch(m, limits, s, candidates, target, Ok(found)) && found.source.Some?
    ensures found.verification.Some? && found.verification.value.accepted
    ensures exists k :: 0 <= k < |candidates| && candidates[k].index == found.source.value
    ensures IsVerification(m, limits, s, found.source.value, target, Ok(found.verification.value))
  {
    var results :| AreVerified(m, limits, s, candidates, target, results) && Concludes(candidates, results, Ok(found));
    var n := |results|;
    assert !Declines(results[n - 1]);
    assert candidates[n - 1].index == found.source.value;
  }

  /** With limits under which no verification raises, neither does the search. */
  lemma SensibleMatchNeverRaises(m: Numerics, limits: LoopLimits, s: TrackerState, candidates: seq<Ranked>, target: nat, found: Result<Match>)
    requires limits.Positive() && limits.minPoints > 0 && IsMatch(m, limits, s, candidates, target, found)
    ensures found.Ok?
  {
    var results :| AreVerified(m, limits, s, candidates, target, results) && Concludes(candidates, results, found);
    if results != [] {
      var n := |results|;
      var source := candidates[n - 1].index;
      VerificationIsResult(m, limits, s, source, target, results[n - 1]);
      SensibleLimitsNeverRaise(m.sqrt, m.trig, limits, s.scans[source], s.scans[target],
                               RelativePose(m.trig, s.keyframes[source].raw, s.keyframes[target].raw), results[n - 1]);
    }
  }

  function LoopEdge(source: nat, target: nat, v: LoopVerification): Constraint
    requires v.relative.Some?
  {
    var confidence := Greater(0.01, if v.fitness < 1.0 then v.fitness else 1.0);
    Constraint(source, target, v.relative.value, Greater(1.0, confidence * 20.0), Loop)
  }

  function LoopAdded(s: TrackerState, target: nat, found: Match): TrackerState
    requires found.source.Some? ==> found.verification.Some? && found.verification.value.relative.Some?
  {
    if found.source.None? then s
    else s.(constraints := s.constraints + [LoopEdge(found.source.value, target, found.verification.value)])
  }

  /** An accepted optimization replaces the correction; anything else leaves it. */
  function Corrected(trig: Trig, s: TrackerState, result: Option<GraphResult>): TrackerState
    requires |s.keyframes| >= 2 ==> InOrder(s.keyframes)
  {
    var n := |s.keyframes|;
    if result.None? || !result.value.accepted || n < 2 || |result.value.optimized| != n then s
    else s.(last := result, correction := Correction(trig, s.keyframes, result.value.optimized, s.keyframes[n - 1].timestamp))
  }

  /** The graph is optimized whenever it holds a loop edge, and the outcome, accepted or not, is
      the optimizer's report on these keyframes and edges. */
  ghost predicate IsReoptimized(m: Numerics, s: TrackerState, result: Option<GraphResult>)
    requires AreEdges(s.constraints, |s.keyframes|)
  {
    && (result.Some? <==> OfKind(s.constraints, Loop) != [])
    && (result.Some? ==>
          && |result.value.optimized| == |s.keyframes| >= 2
          && result.value.loops == |OfKind(s.constraints, Loop)|
          && IsOptimized(m, s.constraints, Raw(s.keyframes), DEFAULT_OPTIMIZE, result.value))
  }

  /** A loop edge joins two keyframes. */
  lemma LoopNeedsTwoKeyframes(s: TrackerState)
    requires AreEdges(s.constraints, |s.keyframes|) && OfKind(s.constraints, Loop) != []
    ensures |s.keyframes| >= 2
  {
    var edge := OfKind(s.constraints, Loop)[0];
    OfKindMembers(s.constraints, Loop, edge);
  }

  /** Keyframes and scans in lockstep, on a graph with a complete odometry chain. */
  ghost predicate Lockstep(trig: Trig, config: TrackerConfig, s: TrackerState) {
    GraphValid(trig, s.keyframes, s.constraints) && |s.scans| == |s.keyframes| <= config.maxKeyframes
  }

  lemma FrameKeepsLockstep(trig: Trig, config: TrackerConfig, s: TrackerState, frame: Keyframe, scan: seq<Point3>)
    requires Lockstep(trig, config, s) && |s.keyframes| < config.maxKeyframes && !IsLate(s.keyframes, frame.timestamp)
    ensures Lockstep(trig, config, FrameAdded(trig, s, frame, scan))
    ensures OfKind(FrameAdded(trig, s, frame, scan).constraints, Loop) == OfKind(s.constraints, Loop)
  {
    var after := FrameAdded(trig, s, frame, scan);
    FrameKeepsGraph(trig, s.keyframes, s.constraints, frame);
    assert after.keyframes == s.keyframes + [frame] && after.constraints == s.constraints + EdgeTo(trig, s.keyframes, frame);
    assert GraphValid(trig, after.keyframes, after.constraints);
  }

  lemma LoopKeepsLockstep(trig: Trig, config: TrackerConfig, s: TrackerState, source: nat, target: nat, v: LoopVerification)
    requires Lockstep(trig, config, s) && source < target < |s.keyframes| && v.relative.Some?
    ensures var edge := LoopEdge(source, target, v);
      && Lockstep(trig, config, s.(constraints := s.constraints + [edge]))
      && OfKind(s.constraints + [edge], Loop) == OfKind(s.constraints, Loop) + [edge]
  {
    OfKindNext(s.constraints, LoopEdge(source, target, v), Odometry);
    OfKindNext(s.constraints, LoopEdge(source, target, v), Loop);
  }

  datatype Update = Update(
    keyframeAdded: bool, index: Option<nat>, loopAdded: bool, loopSource: Option<nat>, corrected: Pose,
    graph: Option<GraphResult>, verification: Option<LoopVerification>, reason: string)

  /** From the recorded frame on: match it, add at most one loop edge, optimize, and publish. */
  ghost predicate IsTracked(m: Numerics, config: TrackerConfig, limits: LoopLimits, framed: TrackerState, u: Update, after: TrackerState)
    requires config.Valid() && Lockstep(m.trig, config, framed) && framed.keyframes != []
  {
    var target, found := |framed.keyframes| - 1, Match(u.loopSource, u.verification);
    && IsMatched(m, config, limits, framed, target, Ok(found))
    && (var looped := LoopAdded(framed, target, found);
        Lockstep(m.trig, config, looped) && IsReoptimized(m, looped, u.graph) && after == Corrected(m.trig, looped, u.graph))
    && u.reason == UpdateReason(found, u.graph)
  }

  function UpdateReason(found: Match, graph: Option<GraphResult>): string {
    if found.source.Some? then (if graph.Some? && graph.value.accepted then "loop_accepted" else "loop_optimization_rejected")
    else if found.verification.Some? then found.verification.value.reason
    else "keyframe_added"
  }

  function Skipped(m: Numerics, s: TrackerState, raw: Pose, reason: string): Update {
    Update(false, None, false, None, ComposePose(m.trig, s.correction, raw), None, None, reason)
  }

  /** What `process` does to the tracker and reports, case by case. */
  ghost predicate IsProcessed(m: Numerics, config: TrackerConfig, limits: LoopLimits, s: TrackerState, frame: Keyframe, scan: seq<Point3>,
                              update: Result<Update>, after: TrackerState)
    requires config.Valid() && Lockstep(m.trig, config, s)
  {
    if !IsKeyframe(m, config, s.keyframes, frame.raw) then
      after == s && update == Ok(Skipped(m, s, frame.raw, "below_keyframe_threshold"))
    else if |s.keyframes| == config.maxKeyframes then
      after == s && update == Ok(Skipped(m, s, frame.raw, "keyframe_capacity_reached"))
    else if IsLate(s.keyframes, frame.timestamp) then
      after == s && update.Err?
    else
      FrameKeepsLockstep(m.trig, config, s, frame, scan);
      var framed := FrameAdded(m.trig, s, frame, scan);
      if update.Err? then after == framed && IsMatched(m, config, limits, framed, |s.keyframes|, Err(update.error))
      else
        && update.value.keyframeAdded && update.value.index == Some(|s.keyframes|)
        && update.value.loopAdded == update.value.loopSource.Some?
        && IsTracked(m, config, limits, framed, update.value, after)
        && update.value.corrected == ComposePose(m.trig, after.correction, frame.raw)
  }

  /** With limits such as the defaults, a call raises if and only if it makes a
      keyframe, below capacity, whose timestamp does not advance. */
  lemma RaisesExactlyWhenLate(m: Numerics, config: TrackerConfig, limits: LoopLimits, s: TrackerState, frame: Keyframe, scan: seq<Point3>,
                              update: Result<Update>, after: TrackerState)
    requires config.Valid() && Lockstep(m.trig, config, s) && limits.Positive() && limits.minPoints > 0
    requires IsProcessed(m, config, limits, s, frame, scan, update, after)
    ensures update.Err? <==>
      IsKeyframe(m, config, s.keyframes, frame.raw) && |s.keyframes| < config.maxKeyframes && IsLate(s.keyframes, frame.timestamp)
  {
    if update.Err? && after != s {
      FrameKeepsLockstep(m.trig, config, s, frame, scan);
      var framed := FrameAdded(m.trig, s, frame, scan);
      SensibleMatchedNeverRaises(m, config, limits, framed, |s.keyframes|, Err(update.error));
    }
  }

  lemma SensibleMatchedNeverRaises(m: Numerics, config: TrackerConfig, limits: LoopLimits, s: TrackerState, target: nat, found: Result<Match>)
    requires limits.Positive() && limits.minPoints > 0 && config.Valid() && target < |s.keyframes| == |s.scans|
    requires IsMatched(m, config, limits, s, target, found)
    ensures found.Ok?
  {
    assert AreCandidates(m, config, s, target, LoopCandidates(m, config, s.keyframes, target));
    SensibleMatchNeverRaises(m, limits, s, LoopCandidates(m, config, s.keyframes, target), target, found);
  }

  method Verify(m: Numerics, limits: LoopLimits, ghost s: TrackerState, keyframes: seq<Keyframe>, scans: seq<seq<Point3>>,
                candidate: nat, target: nat) returns (verified: Result<LoopVerification>)
    requires IsSqrt(m.sqrt) && candidate < target < |keyframes| == |scans| && s.keyframes == keyframes && s.scans == scans
    ensures IsVerification(m, limits, s, candidate, target, verified)
    ensures verified.Ok? && verified.value.accepted ==> verified.value.relative.Some?
  {
    var initial := RelativePose(m.trig, keyframes[candidate].raw, keyframes[target].raw);
    verified := VerifyLoop(m.sqrt, m.trig, limits, scans[candidate], scans[target], initial);
    if verified.Ok? && verified.value.accepted {
      AcceptedIsVerdict(m.sqrt, m.trig, limits, scans[candidate], scans[target], initial, verified.value);
      VerdictConfirms(m.sqrt, limits, LoopPlacements(m.sqrt, m.trig, limits, scans[candidate], scans[target], initial), verified.value);
    }
  }

  method FindLoop(m: Numerics, limits: LoopLimits, ghost s: TrackerState, keyframes: seq<Keyframe>, scans: seq<seq<Point3>>,
                  candidates: seq<Ranked>, target: nat) returns (found: Result<Match>)
    requires IsSqrt(m.sqrt) && target < |keyframes| == |scans| && s.keyframes == keyframes && s.scans == scans
    requires forall k :: 0 <= k < |candidates| ==> candidates[k].index < target
    ensures IsMatch(m, limits, s, candidates, target, found)
    ensures found.Ok? && found.value.source.Some? ==>
      found.value.source.value < target && found.value.verification.Some? && found.value.verification.value.relative.Some?
  {
    var last: Option<LoopVerification> := None;
    ghost var results: seq<Result<LoopVerification>> := [];
    for k := 0 to |candidates|
      invariant |results| == k && AreVerified(m, limits, s, candidates, target, results)
      invariant forall i :: 0 <= i < k ==> Declines(results[i])
      invariant last == if k == 0 then None else Some(results[k - 1].value)
    {
      var verified := Verify(m, limits, s, keyframes, scans, candidates[k].index, target);
      results := results + [verified];
      if verified.Err? {
        found := Err(verified.error);
        assert Concludes(candidates, results, found);
        return;
      }
      if verified.value.accepted && verified.value.relative.Some? {
        found := Ok(Match(Some(candidates[k].index), Some(verified.value)));
        assert Concludes(candidates, results, found);
        return;
      }
      last := Some(verified.value);
    }
    found := Ok(Match(None, last));
    assert Concludes(candidates, results, found);
  }

  class OnlinePoseGraphTracker {
    const numerics: Numerics
    const config: TrackerConfig
    const graph: PlanarPoseGraph
    var scans: seq<seq<Point3>>
    var lastResult: Option<GraphResult>
    var latestCorrection: Pose

    function State(): TrackerState
      reads this, graph
    {
      TrackerState(graph.keyframes, graph.constraints, scans, lastResult, latestCorrection)
    }

    ghost predicate Valid()
      reads this, graph
    {
      && config.Valid() && IsSqrt(numerics.sqrt) && graph.numerics == numerics
      && Lockstep(numerics.trig, config, State())
    }

    constructor (numerics: Numerics, config: TrackerConfig)
      requires IsSqrt(numerics.sqrt) && config.Valid()
      ensures Valid() && fresh(graph) && State() == INITIAL
      ensures this.numerics == numerics && this.config == config
    {
      this.numerics, this.config := numerics, config;
      graph := new PlanarPoseGraph(numerics);
      scans, lastResult, latestCorrection := [], None, ORIGIN;
    }

    function CorrectedPose(raw: Pose): Pose
      reads this
    {
      ComposePose(numerics.trig, latestCorrection, raw)
    }

    method AddFrame(frame: Keyframe, points: seq<Point3>) returns (added: Result<nat>)
      requires Valid() && |graph.keyframes| < config.maxKeyframes
      modifies this, graph
      ensures Valid()
      ensures added.Err? <==> IsLate(old(graph.keyframes), frame.timestamp)
      ensures State() == if added.Err? then old(State()) else FrameAdded(numerics.trig, old(State()), frame, points)
      ensures added.Ok? ==> added.value == |old(graph.keyframes)|
    {
      added := graph.AddKeyframe(frame.timestamp, frame.raw);
      if added.Ok? {
        scans := scans + [points];
      }
    }

    /** Verify the nearest revisits of the newest keyframe, nearest first. */
    method MatchLoop(target: nat, limits: LoopLimits) returns (found: Result<Match>)
      requires Valid() && target < |graph.keyframes|
      ensures IsMatched(numerics, config, limits, State(), target, found)
    {
      var candidates := LoopCandidates(numerics, config, graph.keyframes, target);
      forall k | 0 <= k < |candidates| ensures candidates[k].index < target {
        CandidatesAreNearest(numerics, config, graph.keyframes, target, candidates[k]);
      }
      found := FindLoop(numerics, limits, State(), graph.keyframes, scans, candidates, target);
    }

    method AddLoop(source: nat, target: nat, v: LoopVerification)
      requires Valid() && source < target < |graph.keyframes| && v.relative.Some?
      modifies graph
      ensures Valid()
      ensures State() == old(State()).(constraints := old(graph.constraints) + [LoopEdge(source, target, v)])
    {
      var confidence := Greater(0.01, if v.fitness < 1.0 then v.fitness else 1.0);
      var result := graph.AddLoopConstraint(source, target, v.relative.value, confidence);
    }

    method AddMatch(target: nat, found: Match)
      requires Valid() && target < |graph.keyframes|
      requires found.source.Some? ==>
        found.source.value < target && found.verification.Some? && found.verification.value.relative.Some?
      modifies graph
      ensures Valid() && State() == LoopAdded(old(State()), target, found)
    {
      if found.source.Some? {
        AddLoop(found.source.value, target, found.verification.value);
      }
    }

    /** The optimizer is only ever given graphs it can handle. */
    method OptimizeLoops() returns (result: Option<GraphResult>)
      requires Valid()
      ensures IsReoptimized(numerics, State(), result)
    {
      if OfKind(graph.constraints, Loop) == [] {
        return None;
      }
      var optimized := graph.Optimize(DEFAULT_OPTIMIZE);
      LoopNeedsTwoKeyframes(State());
      AcceptedIsBounded(numerics, graph.constraints, Raw(graph.keyframes), DEFAULT_OPTIMIZE, optimized.value, 0);
      result := Some(optimized.value);
    }

    method Publish(result: Option<GraphResult>)
      requires Valid()
      requires result.Some? && result.value.accepted ==> |result.value.optimized| == |graph.keyframes| >= 2
      modifies this
      ensures Valid()
      ensures State() == Corrected(numerics.trig, old(State()), result)
    {
      if result.Some? && result.value.accepted {
        var keyframes, optimized := graph.keyframes, result.value.optimized;
        lastResult := result;
        latestCorrection := Correction(numerics.trig, keyframes, optimized, keyframes[|keyframes| - 1].timestamp);
      }
    }

    method Process(timestamp: real, raw: Pose, points: seq<Point3>, limits: LoopLimits) returns (update: Result<Update>)
      requires Valid()
      modifies this, graph
      ensures Valid()
      ensures IsProcessed(numerics, config, limits, old(State()), Keyframe(timestamp, raw), points, update, State())
    {
      if !IsKeyframe(numerics, config, graph.keyframes, raw) {
        return Ok(Skipped(numerics, State(), raw, "below_keyframe_threshold"));
      }
      if |graph.keyframes| >= config.maxKeyframes {
        return Ok(Skipped(numerics, State(), raw, "keyframe_capacity_reached"));
      }
      var added := AddFrame(Keyframe(timestamp, raw), points);
      if added.Err? {
        return Err(added.error);
      }
      update := Track(added.value, raw, limits);
    }

    /** Match the frame just recorded, add its loop edge, optimize, and publish. */
    method Track(index: nat, raw: Pose, limits: LoopLimits) returns (update: Result<Update>)
      requires Valid() && |graph.keyframes| == index + 1
      modifies this, graph
      ensures Valid()
      ensures update.Err? ==> State() == old(State()) && IsMatched(numerics, config, limits, State(), index, Err(update.error))
      ensures update.Ok? ==> IsTracked(numerics, config, limits, old(State()), update.value, State())
      ensures update.Ok? ==>
        && update.value.keyframeAdded && update.value.index == Some(index)
        && update.value.loopAdded == update.value.loopSource.Some?
        && update.value.corrected == CorrectedPose(raw)
    {
      var found := MatchLoop(index, limits);
      if found.Err? {
        return Err(found.error);
      }
      var loop := found.value;
      AddMatch(index, loop);
      var result := OptimizeLoops();
      Publish(result);
      var reason := UpdateReason(loop, result);
      update := Ok(Update(true, Some(index), loop.source.Some?, loop.source, CorrectedPose(raw), result, loop.verification, reason));
    }
  }
}
