/** Every run of the online tracker: what robot_brain/navigation/pose_graph.py:219-286
    keeps from one `process` call to the next. */
module TrackerRuns {
  import opened Grid
  import opened Poses
  import opened Costmap
  import opened ScanScore
  import opened PoseRelaxation
  import opened PoseGraph
  import opened PoseCorrection
  import opened LoopClosure
  import opened PoseTracker

  /** What the confidence of a match is worth in the graph: twenty times the share of the scan that
      was matched, and at least one. */
  predicate IsLoopWeight(weight: real, fitness: real) {
    weight == if fitness <= 0.05 then 1.0 else if fitness < 1.0 then 20.0 * fitness else 20.0
  }

  predicate IsEdgeFrom(c: Constraint, v: LoopVerification) {
    c.kind == Loop && v.relative == Some(c.relative) && IsLoopWeight(c.weight, v.fitness)
  }

  /** The two scans of an edge, verified under the given limits from the odometry
      estimate, were accepted with exactly this relative pose and weight. */
  ghost predicate ScanConfirmed(m: Numerics, limits: LoopLimits, s: TrackerState, c: Constraint) {
    exists v :: IsVerification(m, limits, s, c.source, c.target, Ok(v)) && v.accepted && IsEdgeFrom(c, v)
  }

  /** An old enough revisit, once there are enough keyframes, confirmed under the limits of the call that recorded its later keyframe. */
  ghost predicate LoopVerified(m: Numerics, config: TrackerConfig, used: seq<LoopLimits>, s: TrackerState, c: Constraint) {
    && c.source < c.target < |s.keyframes| && |s.scans| == |s.keyframes| == |used|
    && IsRevisit(m, config, s.keyframes, c.source, c.target) && c.target + 1 >= config.minKeyframes
    && ScanConfirmed(m, used[c.target], s, c)
  }

  ghost predicate LoopsVerified(m: Numerics, config: TrackerConfig, used: seq<LoopLimits>, s: TrackerState) {
    forall k :: 0 <= k < |s.constraints| && s.constraints[k].kind == Loop ==> LoopVerified(m, config, used, s, s.constraints[k])
  }

  ghost predicate IsRaw(keyframes: seq<Keyframe>, raw: seq<Pose>) { raw == Raw(keyframes) }

  /** The optimizer's report on these keyframes and edges. */
  ghost predicate OptimizedFor(m: Numerics, keyframes: seq<Keyframe>, constraints: seq<Constraint>, r: GraphResult) {
    && AreEdges(constraints, |keyframes|)
    && forall raw {:trigger IsRaw(keyframes, raw)} :: IsRaw(keyframes, raw) ==> |raw| == |keyframes| && IsOptimized(m, constraints, raw, DEFAULT_OPTIMIZE, r)
  }

  /** The optimizer's report on the first of these keyframes and edges. */
  ghost predicate OptimizedWith(m: Numerics, s: TrackerState, r: GraphResult, edges: nat) {
    && |r.optimized| <= |s.keyframes| && edges <= |s.constraints|
    && OptimizedFor(m, s.keyframes[..|r.optimized|], s.constraints[..edges], r)
  }

  /** What a run remembers beside the tracker's state: the limits of the call that recorded each
      keyframe, and how many edges the graph held when the correction was last published. */
  datatype History = History(used: seq<LoopLimits>, edges: nat)

  /** The correction in force is the one the last accepted optimization
      published, and that optimization was run on the keyframes and edges of its moment. */
  ghost predicate CorrectionValid(m: Numerics, edges: nat, s: TrackerState) {
    if s.last.None? then s.correction == ORIGIN
    else
      var n := |s.last.value.optimized|;
      && s.last.value.accepted && n <= |s.keyframes|
      && IsPublished(m.trig, s.keyframes[..n], s.last.value.optimized, s.correction)
      && OptimizedWith(m, s, s.last.value, edges)
  }

  ghost predicate Invariant(m: Numerics, config: TrackerConfig, h: History, s: TrackerState) {
    && Lockstep(m.trig, config, s) && |h.used| == |s.keyframes|
    && LoopsVerified(m, config, h.used, s) && CorrectionValid(m, h.edges, s)
  }

  /** Verification looks at the two keyframes and their scans only. */
  lemma VerificationStays(m: Numerics, config: TrackerConfig, used: seq<LoopLimits>, s: TrackerState, c: Constraint,
                          more: seq<LoopLimits>, after: TrackerState)
    requires LoopVerified(m, config, used, s, c)
    requires used <= more && s.keyframes <= after.keyframes && s.scans <= after.scans && |after.scans| == |after.keyframes| == |more|
    ensures LoopVerified(m, config, more, after, c)
  {
    var v :| IsVerification(m, used[c.target], s, c.source, c.target, Ok(v)) && v.accepted && IsEdgeFrom(c, v);
    forall initial | IsEstimate(m, after, c.source, c.target, initial)
      ensures IsLoopResult(m.sqrt, m.trig, more[c.target], after.scans[c.source], after.scans[c.target], initial, Ok(v))
    {
      assert IsEstimate(m, s, c.source, c.target, initial);
    }
    assert IsVerification(m, more[c.target], after, c.source, c.target, Ok(v));
  }

  lemma LoopsStay(m: Numerics, config: TrackerConfig, used: seq<LoopLimits>, s: TrackerState, more: seq<LoopLimits>, after: TrackerState)
    requires LoopsVerified(m, config, used, s)
    requires used <= more && s.keyframes <= after.keyframes && s.scans <= after.scans && |after.scans| == |after.keyframes| == |more|
    requires s.constraints <= after.constraints
    requires forall k :: |s.constraints| <= k < |after.constraints| && after.constraints[k].kind == Loop ==>
      LoopVerified(m, config, more, after, after.constraints[k])
    ensures LoopsVerified(m, config, more, after)
  {
    forall k | 0 <= k < |after.constraints| && after.constraints[k].kind == Loop
      ensures LoopVerified(m, config, more, after, after.constraints[k])
    {
      if k < |s.constraints| {
        assert LoopVerified(m, config, used, s, s.constraints[k]);
        VerificationStays(m, config, used, s, s.constraints[k], more, after);
      }
    }
  }

  lemma CorrectionStays(m: Numerics, edges: nat, s: TrackerState, after: TrackerState)
    requires CorrectionValid(m, edges, s)
    requires s.keyframes <= after.keyframes && s.constraints <= after.constraints && after.last == s.last && after.correction == s.correction
    ensures CorrectionValid(m, edges, after)
  {
    if s.last.Some? {
      var n := |s.last.value.optimized|;
      assert after.keyframes[..n] == s.keyframes[..n] && after.constraints[..edges] == s.constraints[..edges];
      assert OptimizedWith(m, after, s.last.value, edges);
    }
  }

  lemma FrameKeepsInvariant(m: Numerics, config: TrackerConfig, h: History, s: TrackerState, limits: LoopLimits,
                            frame: Keyframe, scan: seq<Point3>)
    requires Invariant(m, config, h, s) && |s.keyframes| < config.maxKeyframes && !IsLate(s.keyframes, frame.timestamp)
    ensures Invariant(m, config, h.(used := h.used + [limits]), FrameAdded(m.trig, s, frame, scan))
  {
    var after := FrameAdded(m.trig, s, frame, scan);
    FrameKeepsLockstep(m.trig, config, s, frame, scan);
    LoopsStay(m, config, h.used, s, h.used + [limits], after);
    CorrectionStays(m, h.edges, s, after);
  }

  lemma MatchIsVerified(m: Numerics, config: TrackerConfig, used: seq<LoopLimits>, s: TrackerState, target: nat, found: Match)
    requires config.Valid() && target + 1 == |s.keyframes| == |s.scans| == |used| && found.source.Some?
    requires IsMatched(m, config, used[target], s, target, Ok(found))
    ensures LoopVerified(m, config, used, s, LoopEdge(found.source.value, target, found.verification.value))
  {
    var list := LoopCandidates(m, config, s.keyframes, target);
    assert AreCandidates(m, config, s, target, list);
    MatchIsAccepted(m, used[target], s, list, target, found);
    var k :| 0 <= k < |list| && list[k].index == found.source.value;
    CandidatesAreNearest(m, config, s.keyframes, target, list[k]);
  }

  lemma EdgeKeepsInvariant(m: Numerics, config: TrackerConfig, h: History, s: TrackerState, source: nat, target: nat, v: LoopVerification)
    requires Invariant(m, config, h, s) && source < target < |s.keyframes| && v.relative.Some?
    requires LoopVerified(m, config, h.used, s, LoopEdge(source, target, v))
    ensures Invariant(m, config, h, s.(constraints := s.constraints + [LoopEdge(source, target, v)]))
  {
    var edge := LoopEdge(source, target, v);
    var after := s.(constraints := s.constraints + [edge]);
    LoopKeepsLockstep(m.trig, config, s, source, target, v);
    VerificationStays(m, config, h.used, s, edge, h.used, after);
    LoopsStay(m, config, h.used, s, h.used, after);
    CorrectionStays(m, h.edges, s, after);
  }

  lemma MatchKeepsInvariant(m: Numerics, config: TrackerConfig, h: History, s: TrackerState, target: nat, found: Match)
    requires config.Valid() && Invariant(m, config, h, s) && target + 1 == |s.keyframes|
    requires IsMatched(m, config, h.used[target], s, target, Ok(found))
    ensures Invariant(m, config, h, LoopAdded(s, target, found))
  {
    if found.source.Some? {
      MatchIsVerified(m, config, h.used, s, target, found);
      EdgeKeepsInvariant(m, config, h, s, found.source.value, target, found.verification.value);
    }
  }

  ghost predicate IsPublished(trig: Trig, keyframes: seq<Keyframe>, optimized: seq<Pose>, correction: Pose) {
    && |optimized| == |keyframes| >= 2 && InOrder(keyframes)
    && forall c {:trigger IsNewestCorrection(trig, keyframes, optimized, c)} :: IsNewestCorrection(trig, keyframes, optimized, c) ==> correction == c
  }

  ghost predicate IsNewestCorrection(trig: Trig, keyframes: seq<Keyframe>, optimized: seq<Pose>, c: Pose)
    requires |optimized| == |keyframes| >= 2 && InOrder(keyframes)
  {
    c == Correction(trig, keyframes, optimized, keyframes[|keyframes| - 1].timestamp)
  }

  lemma PublishedIsCorrection(trig: Trig, keyframes: seq<Keyframe>, optimized: seq<Pose>, correction: Pose)
    requires IsPublished(trig, keyframes, optimized, correction)
    ensures correction == Correction(trig, keyframes, optimized, keyframes[|keyframes| - 1].timestamp)
  {
    assert IsNewestCorrection(trig, keyframes, optimized, Correction(trig, keyframes, optimized, keyframes[|keyframes| - 1].timestamp));
  }

  lemma AcceptedIsPublished(trig: Trig, s: TrackerState, result: GraphResult)
    requires InOrder(s.keyframes) && result.accepted && |result.optimized| == |s.keyframes| >= 2
    ensures Corrected(trig, s, Some(result)).last == Some(result)
    ensures IsPublished(trig, s.keyframes, result.optimized, Corrected(trig, s, Some(result)).correction)
  {
  }

  lemma AcceptedIsOptimized(m: Numerics, s: TrackerState, result: GraphResult)
    requires AreEdges(s.constraints, |s.keyframes|) && |result.optimized| == |s.keyframes|
    requires IsOptimized(m, s.constraints, Raw(s.keyframes), DEFAULT_OPTIMIZE, result)
    ensures OptimizedWith(m, s, result, |s.constraints|)
  {
    assert s.keyframes[..|s.keyframes|] == s.keyframes && s.constraints[..|s.constraints|] == s.constraints;
  }

  function Publishes(result: Option<GraphResult>): bool { result.Some? && result.value.accepted }

  lemma PublishKeepsInvariant(m: Numerics, config: TrackerConfig, h: History, s: TrackerState, result: Option<GraphResult>)
    requires Invariant(m, config, h, s) && IsReoptimized(m, s, result)
    ensures Invariant(m, config, if Publishes(result) then h.(edges := |s.constraints|) else h, Corrected(m.trig, s, result))
  {
    if Publishes(result) {
      AcceptedIsOptimized(m, s, result.value);
      AcceptedKeepsInvariant(m, config, h, s, result.value);
    }
  }

  lemma AcceptedKeepsInvariant(m: Numerics, config: TrackerConfig, h: History, s: TrackerState, result: GraphResult)
    requires Invariant(m, config, h, s) && result.accepted && |result.optimized| == |s.keyframes| >= 2
    requires OptimizedWith(m, s, result, |s.constraints|)
    ensures Invariant(m, config, h.(edges := |s.constraints|), Corrected(m.trig, s, Some(result)))
  {
    var after := Corrected(m.trig, s, Some(result));
    AcceptedIsPublished(m.trig, s, result);
    LoopsStay(m, config, h.used, s, h.used, after);
    assert after.keyframes[..|result.optimized|] == s.keyframes;
    assert OptimizedWith(m, after, result, |s.constraints|);
  }

  /** From the recorded frame to the published correction. */
  lemma TrackingKeepsInvariant(m: Numerics, config: TrackerConfig, h: History, framed: TrackerState, u: Update, after: TrackerState)
    requires config.Valid() && Invariant(m, config, h, framed) && framed.keyframes != []
    requires IsTracked(m, config, h.used[|h.used| - 1], framed, u, after)
    ensures Invariant(m, config, if Publishes(u.graph) then h.(edges := |after.constraints|) else h, after)
  {
    var target, found := |framed.keyframes| - 1, Match(u.loopSource, u.verification);
    MatchKeepsInvariant(m, config, h, framed, target, found);
    PublishKeepsInvariant(m, config, h, LoopAdded(framed, target, found), u.graph);
  }

  datatype Call = Call(limits: LoopLimits, frame: Keyframe, scan: seq<Point3>, update: Result<Update>)

  /** What `process` promises for a state it can handle. */
  ghost predicate IsStep(m: Numerics, config: TrackerConfig, s: TrackerState, call: Call, after: TrackerState)
    requires config.Valid()
  {
    Lockstep(m.trig, config, s) ==> IsProcessed(m, config, call.limits, s, call.frame, call.scan, call.update, after)
  }

  /** What a call adds to the history. */
  function Recorded(h: History, s: TrackerState, call: Call, after: TrackerState): History {
    History(if |after.keyframes| > |s.keyframes| then h.used + [call.limits] else h.used,
            if call.update.Ok? && Publishes(call.update.value.graph) then |after.constraints| else h.edges)
  }

  /** Every call keeps the invariant, including the ones that raise. */
  lemma StepKeepsInvariant(m: Numerics, config: TrackerConfig, h: History, s: TrackerState, call: Call, after: TrackerState)
    requires config.Valid() && Invariant(m, config, h, s) && IsStep(m, config, s, call, after)
    ensures Invariant(m, config, Recorded(h, s, call, after), after)
  {
    if AddsKeyframe(m, config, s, call.frame) {
      FrameKeepsLockstep(m.trig, config, s, call.frame, call.scan);
      RecordedKeepsInvariant(m, config, h, s, call, after);
    }
  }

  predicate AddsKeyframe(m: Numerics, config: TrackerConfig, s: TrackerState, frame: Keyframe) {
    IsKeyframe(m, config, s.keyframes, frame.raw) && |s.keyframes| < config.maxKeyframes && !IsLate(s.keyframes, frame.timestamp)
  }

  lemma RecordedKeepsInvariant(m: Numerics, config: TrackerConfig, h: History, s: TrackerState, call: Call, after: TrackerState)
    requires config.Valid() && Invariant(m, config, h, s)
    requires |s.keyframes| < config.maxKeyframes && !IsLate(s.keyframes, call.frame.timestamp)
    requires var framed := FrameAdded(m.trig, s, call.frame, call.scan);
      && Lockstep(m.trig, config, framed)
      && if call.update.Err? then after == framed else IsTracked(m, config, call.limits, framed, call.update.value, after)
    ensures Invariant(m, config, Recorded(h, s, call, after), after) && |after.keyframes| == |s.keyframes| + 1
  {
    var framed := FrameAdded(m.trig, s, call.frame, call.scan);
    FrameKeepsInvariant(m, config, h, s, call.limits, call.frame, call.scan);
    if call.update.Ok? {
      TrackingKeepsInvariant(m, config, h.(used := h.used + [call.limits]), framed, call.update.value, after);
      TrackingKeepsKeyframes(m, config, call.limits, framed, call.update.value, after);
    }
  }

  lemma TrackingKeepsKeyframes(m: Numerics, config: TrackerConfig, limits: LoopLimits, framed: TrackerState, u: Update, after: TrackerState)
    requires config.Valid() && Lockstep(m.trig, config, framed) && framed.keyframes != []
    requires IsTracked(m, config, limits, framed, u, after)
    ensures after.keyframes == framed.keyframes
  {
  }

  ghost predicate IsRun(m: Numerics, config: TrackerConfig, states: seq<TrackerState>, calls: seq<Call>)
    requires config.Valid()
  {
    && |states| == |calls| + 1 && states[0] == INITIAL
    && forall k {:trigger StepAt(m, config, states, calls, k)} :: 0 <= k < |calls| ==> StepAt(m, config, states, calls, k)
  }

  ghost predicate StepAt(m: Numerics, config: TrackerConfig, states: seq<TrackerState>, calls: seq<Call>, k: nat)
    requires config.Valid() && k < |calls| && |states| == |calls| + 1
  {
    IsStep(m, config, states[k], calls[k], states[k + 1])
  }

  /** The history of a run up to a state: the call that recorded a keyframe gave its limits, and
      the last call that published gave the number of edges. */
  function HistoryAt(states: seq<TrackerState>, calls: seq<Call>, k: nat): History
    requires k < |states| == |calls| + 1
  {
    if k == 0 then History([], 0) else Recorded(HistoryAt(states, calls, k - 1), states[k - 1], calls[k - 1], states[k])
  }

  function UsedLimits(states: seq<TrackerState>, calls: seq<Call>, k: nat): seq<LoopLimits>
    requires k < |states| == |calls| + 1
  {
    HistoryAt(states, calls, k).used
  }

  /** In every state of every run: scans and keyframes in lockstep, timestamps
      strictly increasing, the odometry chain complete, every loop edge an old
      enough revisit that its scans confirmed under the limits of its own call,
      and a correction published by an accepted optimization of the keyframes
      and edges of its moment. */
  lemma {:induction false} RunKeepsInvariant(m: Numerics, config: TrackerConfig, states: seq<TrackerState>, calls: seq<Call>, k: nat)
    requires config.Valid() && IsRun(m, config, states, calls) && k < |states|
    ensures Invariant(m, config, HistoryAt(states, calls, k), states[k])
  {
    if k > 0 {
      RunKeepsInvariant(m, config, states, calls, k - 1);
      assert StepAt(m, config, states, calls, k - 1);
      StepKeepsInvariant(m, config, HistoryAt(states, calls, k - 1), states[k - 1], calls[k - 1], states[k]);
    } else {
      InitialInvariant(m, config);
    }
  }

  lemma InitialInvariant(m: Numerics, config: TrackerConfig)
    requires config.Valid()
    ensures Invariant(m, config, History([], 0), INITIAL)
  {
  }

  // ----- what the invariant means for a loop edge -----

  function EdgeScore(m: Numerics, limits: LoopLimits, s: TrackerState, c: Constraint, pose: Pose): MatchScore
    requires limits.Positive() && c.source < c.target < |s.keyframes| == |s.scans|
  {
    BruteScore(m.sqrt, m.trig, LoopScan(s.scans[c.target], limits.reach), LoopScan(s.scans[c.source], limits.reach), pose, limits.reach)
  }

  function Estimate(m: Numerics, s: TrackerState, c: Constraint): Pose
    requires c.source < c.target < |s.keyframes|
  {
    RelativePose(m.trig, s.keyframes[c.source].raw, s.keyframes[c.target].raw)
  }

  /** The edge lies in the search window around the odometry estimate, its
      placement meets the thresholds, and no placement of the window that is
      spatially distinct from it comes within the margin of its fitness. */
  ghost predicate MeetsLimits(m: Numerics, limits: LoopLimits, s: TrackerState, c: Constraint)
    requires c.source < c.target < |s.keyframes| == |s.scans|
  {
    && limits.Positive()
    && var (estimate, score) := (Estimate(m, s, c), EdgeScore(m, limits, s, c, c.relative));
    && NearBy(c.relative.x, estimate.x, limits.translationRadius, limits.translationStep)
    && NearBy(c.relative.y, estimate.y, limits.translationRadius, limits.translationStep)
    && NearBy(c.relative.yaw, estimate.yaw, limits.yawRadius, limits.yawStep)
    && MeetsThresholds(limits, score)
    && forall x, y, yaw :: x in limits.XAxis(estimate) && y in limits.YAxis(estimate) && yaw in limits.YawAxis(estimate) ==>
         IsBeaten(m, limits, s, c, score, Pose(x, y, yaw))
  }

  predicate IsBeaten(m: Numerics, limits: LoopLimits, s: TrackerState, c: Constraint, score: MatchScore, rival: Pose)
    requires limits.Positive() && c.source < c.target < |s.keyframes| == |s.scans|
  {
    Distinct(m.sqrt, limits, rival, c.relative) ==> EdgeScore(m, limits, s, c, rival).fitness + limits.minMargin <= score.fitness
  }

  lemma ConfirmedMeetsLimits(m: Numerics, limits: LoopLimits, s: TrackerState, c: Constraint)
    requires c.source < c.target < |s.keyframes| == |s.scans| && ScanConfirmed(m, limits, s, c)
    ensures MeetsLimits(m, limits, s, c)
  {
    var v :| IsVerification(m, limits, s, c.source, c.target, Ok(v)) && v.accepted && IsEdgeFrom(c, v);
    var (source, target, estimate) := (s.scans[c.source], s.scans[c.target], Estimate(m, s, c));
    VerificationIsResult(m, limits, s, c.source, c.target, Ok(v));
    AcceptedIsVerdict(m.sqrt, m.trig, limits, source, target, estimate, v);
    AcceptedLoopIsNearOdometry(m.sqrt, m.trig, limits, source, target, estimate, v);
    VerdictConfirms(m.sqrt, limits, LoopPlacements(m.sqrt, m.trig, limits, source, target, estimate), v);
    forall x, y, yaw | x in limits.XAxis(estimate) && y in limits.YAxis(estimate) && yaw in limits.YawAxis(estimate)
      ensures IsBeaten(m, limits, s, c, EdgeScore(m, limits, s, c, c.relative), Pose(x, y, yaw))
    {
      AcceptedLoopIsUnambiguous(m.sqrt, m.trig, limits, source, target, estimate, v, x, y, yaw);
    }
  }

  /** In every state of every run, each loop edge joins an old enough revisit and
      meets the window, the thresholds and the margin of the call that added it. */
  lemma LoopEdgesMeetTheirLimits(m: Numerics, config: TrackerConfig, states: seq<TrackerState>, calls: seq<Call>, k: nat, e: nat)
    requires config.Valid() && IsRun(m, config, states, calls) && k < |states|
    requires e < |states[k].constraints| && states[k].constraints[e].kind == Loop
    ensures var (s, c, used) := (states[k], states[k].constraints[e], UsedLimits(states, calls, k));
      && c.source < c.target < |s.keyframes| == |s.scans| == |used|
      && IsRevisit(m, config, s.keyframes, c.source, c.target) && MeetsLimits(m, used[c.target], s, c)
  {
    RunKeepsInvariant(m, config, states, calls, k);
    var (s, c, used) := (states[k], states[k].constraints[e], UsedLimits(states, calls, k));
    assert LoopVerified(m, config, used, s, c);
    ConfirmedMeetsLimits(m, used[c.target], s, c);
  }

  /** Limits used by every call are the limits of every keyframe. */
  lemma {:induction false} SameLimitsThroughout(states: seq<TrackerState>, calls: seq<Call>, limits: LoopLimits, k: nat)
    requires k < |states| == |calls| + 1 && forall j :: 0 <= j < |calls| ==> calls[j].limits == limits
    ensures forall i :: 0 <= i < |UsedLimits(states, calls, k)| ==> UsedLimits(states, calls, k)[i] == limits
  {
    if k > 0 {
      SameLimitsThroughout(states, calls, limits, k - 1);
      assert UsedLimits(states, calls, k - 1) == HistoryAt(states, calls, k - 1).used;
    }
  }

  /** Under the defaults: fitness at least 0.55, error at most 0.14, at least
      twelve inliers, within 0.6 m and 20 degrees of the odometry estimate. */
  lemma DefaultLoopEdges(m: Numerics, config: TrackerConfig, states: seq<TrackerState>, calls: seq<Call>, k: nat, e: nat)
    requires config.Valid() && IsRun(m, config, states, calls) && k < |states|
    requires forall j :: 0 <= j < |calls| ==> calls[j].limits == DEFAULT_LIMITS
    requires e < |states[k].constraints| && states[k].constraints[e].kind == Loop
    ensures var (s, c) := (states[k], states[k].constraints[e]);
      && c.source < c.target < |s.keyframes| == |s.scans| && MeetsLimits(m, DEFAULT_LIMITS, s, c)
      && var score := EdgeScore(m, DEFAULT_LIMITS, s, c, c.relative);
         score.fitness >= 0.55 && score.inliers >= 12 && score.rmse.Some? && score.rmse.value <= 0.14
  {
    LoopEdgesMeetTheirLimits(m, config, states, calls, k, e);
    SameLimitsThroughout(states, calls, DEFAULT_LIMITS, k);
  }

  // ----- and for the correction in force -----

  /** In every run, whatever correction is in force came from an optimization that
      kept the anchor, moved no keyframe of its moment by more than 5 m or 90
      degrees, and lowered the residual of the edges of its moment. */
  lemma CorrectionIsBounded(m: Numerics, config: TrackerConfig, states: seq<TrackerState>, calls: seq<Call>, k: nat, i: nat)
    requires config.Valid() && IsRun(m, config, states, calls) && k < |states| && states[k].last.Some?
    requires i < |states[k].last.value.optimized|
    ensures var (s, r) := (states[k], states[k].last.value);
      && 2 <= |r.optimized| <= |s.keyframes|
      && IsBoundedMove(m, s.keyframes[i].raw, r.optimized[i]) && r.optimized[0] == s.keyframes[0].raw
      && LowersResidual(m, s, r, HistoryAt(states, calls, k).edges)
  {
    RunKeepsInvariant(m, config, states, calls, k);
    var (s, r, edges) := (states[k], states[k].last.value, HistoryAt(states, calls, k).edges);
    var frames := s.keyframes[..|r.optimized|];
    assert IsRaw(frames, Raw(frames));
    OptimizedIsBounded(m, frames, s.constraints[..edges], r, Raw(frames), i);
    GapsBoundMove(m, frames, Raw(frames), r.optimized, i);
    OptimizedLowers(m, s.keyframes[..|r.optimized|], s.constraints[..edges], r);
    assert LowersResidual(m, s, r, edges);
  }

  predicate IsBoundedMove(m: Numerics, a: Pose, b: Pose) {
    m.hypot(a.x - b.x, a.y - b.y) <= 5.0 && Magnitude(AngleDelta(a.yaw, b.yaw)) <= 90.0
  }

  /** Lower, and by five percent unless there is next to nothing to lower. */
  predicate FallsByTwentieth(initial: real, optimized: real) {
    optimized < initial && (initial >= 0.000000001 ==> optimized <= 0.95 * initial)
  }

  ghost predicate LowersResidual(m: Numerics, s: TrackerState, r: GraphResult, edges: nat) {
    var n := |r.optimized|;
    && n <= |s.keyframes| && edges <= |s.constraints| && AreEdges(s.constraints[..edges], n)
    && FallsByTwentieth(Rmse(m, s.constraints[..edges], Raw(s.keyframes[..n])), Rmse(m, s.constraints[..edges], r.optimized))
  }

  lemma OptimizedIsBounded(m: Numerics, keyframes: seq<Keyframe>, constraints: seq<Constraint>, r: GraphResult, raw: seq<Pose>, i: nat)
    requires OptimizedFor(m, keyframes, constraints, r) && r.accepted && IsRaw(keyframes, raw) && i < |raw| == |r.optimized|
    ensures r.optimized[0] == raw[0]
    ensures TranslationGap(m, raw, r.optimized, i) <= 5.0 && YawGap(raw, r.optimized, i) <= 90.0
  {
    AcceptedIsBounded(m, constraints, raw, DEFAULT_OPTIMIZE, r, i);
  }

  lemma GapsBoundMove(m: Numerics, keyframes: seq<Keyframe>, raw: seq<Pose>, optimized: seq<Pose>, i: nat)
    requires IsRaw(keyframes, raw) && i < |raw| == |optimized|
    requires TranslationGap(m, raw, optimized, i) <= 5.0 && YawGap(raw, optimized, i) <= 90.0
    ensures |keyframes| == |raw| && IsBoundedMove(m, keyframes[i].raw, optimized[i])
  {
    assert raw[i] == keyframes[i].raw;
  }

  lemma OptimizedLowers(m: Numerics, keyframes: seq<Keyframe>, constraints: seq<Constraint>, r: GraphResult)
    requires OptimizedFor(m, keyframes, constraints, r) && r.accepted && |keyframes| == |r.optimized|
    ensures FallsByTwentieth(Rmse(m, constraints, Raw(keyframes)), Rmse(m, constraints, r.optimized))
  {
    assert IsRaw(keyframes, Raw(keyframes));
    AcceptedLowersResidual(m, constraints, Raw(keyframes), DEFAULT_OPTIMIZE, r);
  }

  /** Right after an accepted optimization the newest keyframe is reported at
      its optimized pose. */
  lemma AcceptedUpdateCorrects(m: Numerics, config: TrackerConfig, states: seq<TrackerState>, calls: seq<Call>, k: nat)
    requires m.trig.Lawful() && config.Valid() && IsRun(m, config, states, calls) && k < |calls|
    requires calls[k].update.Ok? && calls[k].update.value.keyframeAdded && Publishes(calls[k].update.value.graph)
    ensures var u, n := calls[k].update.value, |states[k].keyframes|;
      && |u.graph.value.optimized| == n + 1
      && u.corrected == Canonical(u.graph.value.optimized[n])
  {
    RunKeepsInvariant(m, config, states, calls, k);
    assert StepAt(m, config, states, calls, k);
    StepCorrects(m, config, states[k], calls[k], states[k + 1]);
  }

  lemma StepCorrects(m: Numerics, config: TrackerConfig, s: TrackerState, call: Call, after: TrackerState)
    requires m.trig.Lawful() && config.Valid() && Lockstep(m.trig, config, s) && IsStep(m, config, s, call, after)
    requires call.update.Ok? && call.update.value.keyframeAdded && Publishes(call.update.value.graph)
    ensures |call.update.value.graph.value.optimized| == |s.keyframes| + 1
    ensures call.update.value.corrected == Canonical(call.update.value.graph.value.optimized[|s.keyframes|])
  {
    var framed := StepTracks(m, config, s, call, after);
    TrackedPublishes(m, config, call.limits, framed, call.update.value, after);
    PublishedIsCorrection(m.trig, framed.keyframes, call.update.value.graph.value.optimized, after.correction);
    CorrectionAtKeyframe(m.trig, framed.keyframes, call.update.value.graph.value.optimized, |s.keyframes|);
  }

  /** Without an accepted optimization the correction stays as it was. */
  lemma OtherUpdatesKeepCorrection(m: Numerics, config: TrackerConfig, states: seq<TrackerState>, calls: seq<Call>, k: nat)
    requires config.Valid() && IsRun(m, config, states, calls) && k < |calls|
    requires calls[k].update.Ok? ==> !Publishes(calls[k].update.value.graph)
    ensures states[k + 1].correction == states[k].correction && states[k + 1].last == states[k].last
  {
    RunKeepsInvariant(m, config, states, calls, k);
    assert StepAt(m, config, states, calls, k);
    StepKeepsCorrection(m, config, states[k], calls[k], states[k + 1]);
  }

  lemma StepKeepsCorrection(m: Numerics, config: TrackerConfig, s: TrackerState, call: Call, after: TrackerState)
    requires config.Valid() && Lockstep(m.trig, config, s) && IsStep(m, config, s, call, after)
    requires call.update.Ok? ==> !Publishes(call.update.value.graph)
    ensures after.correction == s.correction && after.last == s.last
  {
  }

  lemma StepTracks(m: Numerics, config: TrackerConfig, s: TrackerState, call: Call, after: TrackerState) returns (framed: TrackerState)
    requires config.Valid() && Lockstep(m.trig, config, s) && IsStep(m, config, s, call, after)
    requires call.update.Ok? && call.update.value.keyframeAdded
    ensures |framed.keyframes| == |s.keyframes| + 1 && Lockstep(m.trig, config, framed)
    ensures IsTracked(m, config, call.limits, framed, call.update.value, after)
    ensures call.update.value.corrected == ComposePose(m.trig, after.correction, framed.keyframes[|s.keyframes|].raw)
  {
    FrameKeepsLockstep(m.trig, config, s, call.frame, call.scan);
    framed := FrameAdded(m.trig, s, call.frame, call.scan);
  }

  lemma TrackedPublishes(m: Numerics, config: TrackerConfig, limits: LoopLimits, framed: TrackerState, u: Update, after: TrackerState)
    requires config.Valid() && Lockstep(m.trig, config, framed) && framed.keyframes != []
    requires IsTracked(m, config, limits, framed, u, after) && u.graph.Some? && u.graph.value.accepted
    ensures IsPublished(m.trig, framed.keyframes, u.graph.value.optimized, after.correction)
  {
    var looped := LoopAdded(framed, |framed.keyframes| - 1, Match(u.loopSource, u.verification));
    AcceptedIsPublished(m.trig, looped, u.graph.value);
  }

  // ----- which frames become keyframes -----

  /** The robot has driven the distance, or turned the angle either way, that a keyframe asks for. */
  predicate HasMoved(m: Numerics, config: TrackerConfig, from: Pose, to: Pose) {
    var turn := AngleDelta(to.yaw, from.yaw);
    m.hypot(to.x - from.x, to.y - from.y) >= config.keyframeTranslation || turn >= config.keyframeYaw || -turn >= config.keyframeYaw
  }

  /** A frame becomes a keyframe when it is the first, or the robot has moved since the last one and
      time has passed, as long as there is room. */
  predicate BecomesKeyframe(m: Numerics, config: TrackerConfig, keyframes: seq<Keyframe>, frame: Keyframe) {
    && |keyframes| < config.maxKeyframes
    && (keyframes == [] || (HasMoved(m, config, keyframes[|keyframes| - 1].raw, frame.raw)
                            && frame.timestamp > keyframes[|keyframes| - 1].timestamp))
  }

  lemma AddsExactly(m: Numerics, config: TrackerConfig, s: TrackerState, frame: Keyframe)
    ensures AddsKeyframe(m, config, s, frame) <==> BecomesKeyframe(m, config, s.keyframes, frame)
  {
  }

  /** Every call, raising or not, adds its frame exactly under this condition. */
  lemma GrowsExactly(m: Numerics, config: TrackerConfig, states: seq<TrackerState>, calls: seq<Call>, k: nat)
    requires config.Valid() && IsRun(m, config, states, calls) && k < |calls|
    ensures states[k + 1].keyframes == states[k].keyframes
      + if BecomesKeyframe(m, config, states[k].keyframes, calls[k].frame) then [calls[k].frame] else []
  {
    RunKeepsInvariant(m, config, states, calls, k);
    assert StepAt(m, config, states, calls, k);
    AddsExactly(m, config, states[k], calls[k].frame);
    StepGrows(m, config, states[k], calls[k], states[k + 1]);
  }

  lemma StepGrows(m: Numerics, config: TrackerConfig, s: TrackerState, call: Call, after: TrackerState)
    requires config.Valid() && Lockstep(m.trig, config, s) && IsStep(m, config, s, call, after)
    ensures after.keyframes == s.keyframes + if AddsKeyframe(m, config, s, call.frame) then [call.frame] else []
  {
    if AddsKeyframe(m, config, s, call.frame) {
      FrameKeepsLockstep(m.trig, config, s, call.frame, call.scan);
      if call.update.Ok? {
        TrackingKeepsKeyframes(m, config, call.limits, FrameAdded(m.trig, s, call.frame, call.scan), call.update.value, after);
      }
    }
  }

  /** So between any two consecutive keyframes of any run the robot has moved by the thresholds. */
  lemma {:induction false} KeyframesApart(m: Numerics, config: TrackerConfig, states: seq<TrackerState>, calls: seq<Call>, k: nat, i: nat)
    requires config.Valid() && IsRun(m, config, states, calls) && k < |states| && 0 < i < |states[k].keyframes|
    ensures HasMoved(m, config, states[k].keyframes[i - 1].raw, states[k].keyframes[i].raw)
  {
    if k > 0 {
      GrowsExactly(m, config, states, calls, k - 1);
      if i < |states[k - 1].keyframes| {
        KeyframesApart(m, config, states, calls, k - 1, i);
      }
    }
  }
}
