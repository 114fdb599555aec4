/** What the tracker reports of each call, against the states before and after it:
    robot_brain/navigation/pose_graph.py:219-286. */
module UpdateLaws {
  import opened Grid
  import opened Poses
  import opened PoseRelaxation
  import opened LoopClosure
  import opened PoseTracker
  import opened TrackerRuns

  /** The scan of every keyframe is kept with it. */
  lemma ScansAreKept(m: Numerics, config: TrackerConfig, states: seq<TrackerState>, calls: seq<Call>, k: nat)
    requires config.Valid() && IsRun(m, config, states, calls) && k < |calls|
    ensures states[k + 1].scans == states[k].scans
      + if BecomesKeyframe(m, config, states[k].keyframes, calls[k].frame) then [calls[k].scan] else []
  {
    RunKeepsInvariant(m, config, states, calls, k);
    assert StepAt(m, config, states, calls, k);
    AddsExactly(m, config, states[k], calls[k].frame);
    StepKeepsScans(m, config, states[k], calls[k], states[k + 1]);
  }

  lemma StepKeepsScans(m: Numerics, config: TrackerConfig, s: TrackerState, call: Call, after: TrackerState)
    requires config.Valid() && Lockstep(m.trig, config, s) && IsStep(m, config, s, call, after)
    ensures after.scans == s.scans + if AddsKeyframe(m, config, s, call.frame) then [call.scan] else []
  {
    if AddsKeyframe(m, config, s, call.frame) {
      FrameKeepsLockstep(m.trig, config, s, call.frame, call.scan);
      if call.update.Ok? {
        TrackingKeepsScans(m, config, call.limits, FrameAdded(m.trig, s, call.frame, call.scan), call.update.value, after);
      }
    }
  }

  lemma TrackingKeepsScans(m: Numerics, config: TrackerConfig, limits: LoopLimits, framed: TrackerState, u: Update, after: TrackerState)
    requires config.Valid() && Lockstep(m.trig, config, framed) && framed.keyframes != []
    requires IsTracked(m, config, limits, framed, u, after)
    ensures after.scans == framed.scans
    ensures |after.constraints| == |framed.constraints| + (if u.loopSource.Some? then 1 else 0)
    ensures u.reason == TrackedReason(u)
  {
  }

  function TrackedReason(u: Update): string {
    if u.loopSource.Some? then
      (if u.graph.Some? && u.graph.value.accepted then "loop_accepted" else "loop_optimization_rejected")
    else if u.verification.Some? then u.verification.value.reason
    else "keyframe_added"
  }

  /** What a report says of the step it is about. */
  ghost predicate Reports(m: Numerics, config: TrackerConfig, s: TrackerState, call: Call, u: Update, after: TrackerState) {
    var added := BecomesKeyframe(m, config, s.keyframes, call.frame);
    && u.keyframeAdded == added && u.index == (if added then Some(|s.keyframes|) else None)
    && u.loopAdded == u.loopSource.Some? && (u.loopAdded ==> added)
    && u.corrected == ComposePose(m.trig, after.correction, call.frame.raw)
    && |after.constraints| == |s.constraints| + (if added && s.keyframes != [] then 1 else 0) + (if u.loopAdded then 1 else 0)
    && u.reason == if added then TrackedReason(u)
                   else if s.keyframes != [] && !HasMoved(m, config, s.keyframes[|s.keyframes| - 1].raw, call.frame.raw)
                   then "below_keyframe_threshold" else "keyframe_capacity_reached"
  }

  /** Whenever a call does not raise, its report fits: the frame it kept, the edges it added, the pose
      under the correction that is then in force, and the reason. */
  lemma UpdateReports(m: Numerics, config: TrackerConfig, states: seq<TrackerState>, calls: seq<Call>, k: nat)
    requires config.Valid() && IsRun(m, config, states, calls) && k < |calls| && calls[k].update.Ok?
    ensures Reports(m, config, states[k], calls[k], calls[k].update.value, states[k + 1])
  {
    RunKeepsInvariant(m, config, states, calls, k);
    assert StepAt(m, config, states, calls, k);
    AddsExactly(m, config, states[k], calls[k].frame);
    if AddsKeyframe(m, config, states[k], calls[k].frame) {
      KeyframeReports(m, config, states[k], calls[k], states[k + 1]);
    } else {
      SkippedReports(m, config, states[k], calls[k], states[k + 1]);
    }
  }

  lemma KeyframeReports(m: Numerics, config: TrackerConfig, s: TrackerState, call: Call, after: TrackerState)
    requires config.Valid() && Lockstep(m.trig, config, s) && IsStep(m, config, s, call, after) && call.update.Ok?
    requires AddsKeyframe(m, config, s, call.frame) && BecomesKeyframe(m, config, s.keyframes, call.frame)
    ensures Reports(m, config, s, call, call.update.value, after)
  {
    FrameKeepsLockstep(m.trig, config, s, call.frame, call.scan);
    TrackingKeepsScans(m, config, call.limits, FrameAdded(m.trig, s, call.frame, call.scan), call.update.value, after);
  }

  lemma SkippedReports(m: Numerics, config: TrackerConfig, s: TrackerState, call: Call, after: TrackerState)
    requires config.Valid() && Lockstep(m.trig, config, s) && IsStep(m, config, s, call, after) && call.update.Ok?
    requires !AddsKeyframe(m, config, s, call.frame) && !BecomesKeyframe(m, config, s.keyframes, call.frame)
    ensures Reports(m, config, s, call, call.update.value, after)
  {
  }
}
