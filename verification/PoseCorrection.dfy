/** The map correction an optimized graph publishes:
    robot_brain/navigation/pose_graph.py:187-203. */
module PoseCorrection {
  import opened Poses
  import opened PoseRelaxation
  import opened PoseGraph

  /** The first interval whose later end is not before the time. */
  function FirstInterval(keyframes: seq<Keyframe>, t: real, from: nat): (index: nat)
    requires from + 1 < |keyframes| && t <= keyframes[|keyframes| - 1].timestamp
    ensures from <= index && index + 1 < |keyframes| && t <= keyframes[index + 1].timestamp
    ensures forall i :: from < i <= index ==> keyframes[i].timestamp < t
    decreases |keyframes| - from
  {
    if keyframes[from + 1].timestamp >= t then from else FirstInterval(keyframes, t, from + 1)
  }

  /** The interval of a time and the fraction of it that has passed. */
  function Bracket(keyframes: seq<Keyframe>, t: real): (nat, real)
    requires |keyframes| >= 2 && InOrder(keyframes)
    ensures Bracket(keyframes, t).0 + 1 < |keyframes|
  {
    var n := |keyframes|;
    if t <= keyframes[0].timestamp then (0, 0.0)
    else if t >= keyframes[n - 1].timestamp then (n - 2, 1.0)
    else
      var i := FirstInterval(keyframes, t, 0);
      var (low, high) := (keyframes[i].timestamp, keyframes[i + 1].timestamp);
      (i, (t - low) / (high - low))
  }

  /** Outside the recorded span the fraction is clamped, inside it is proper. */
  lemma BracketFraction(keyframes: seq<Keyframe>, t: real)
    requires |keyframes| >= 2 && InOrder(keyframes)
    ensures 0.0 <= Bracket(keyframes, t).1 <= 1.0
    ensures keyframes[0].timestamp <= t <= keyframes[|keyframes| - 1].timestamp ==>
      var b := Bracket(keyframes, t); keyframes[b.0].timestamp <= t <= keyframes[b.0 + 1].timestamp
  {
    var n := |keyframes|;
    if keyframes[0].timestamp < t < keyframes[n - 1].timestamp {
      var i := FirstInterval(keyframes, t, 0);
      var (low, high) := (keyframes[i].timestamp, keyframes[i + 1].timestamp);
      assert low <= t <= high;
      FractionInUnit(t - low, high - low);
    }
  }

  lemma FractionInUnit(a: real, b: real)
    requires 0.0 <= a <= b && b > 0.0
    ensures 0.0 <= a / b <= 1.0
  {
  }

  lemma WholeFraction(a: real)
    requires a > 0.0
    ensures a / a == 1.0
  {
  }

  function At(poses: seq<Pose>, where: (nat, real)): Pose
    requires where.0 + 1 < |poses|
  {
    InterpolatePose(poses[where.0], poses[where.0 + 1], where.1)
  }

  function Correction(trig: Trig, keyframes: seq<Keyframe>, optimized: seq<Pose>, t: real): Pose
    requires |keyframes| >= 2 && InOrder(keyframes) && |optimized| == |keyframes|
  {
    var where := Bracket(keyframes, t);
    ComposePose(trig, At(optimized, where), InversePose(trig, At(Raw(keyframes), where)))
  }

  /** Applied to the raw trajectory, the correction yields the optimized one at every time. */
  lemma CorrectionRebuilds(trig: Trig, keyframes: seq<Keyframe>, optimized: seq<Pose>, t: real)
    requires trig.Lawful() && |keyframes| >= 2 && InOrder(keyframes) && |optimized| == |keyframes|
    ensures ComposePose(trig, Correction(trig, keyframes, optimized, t), At(Raw(keyframes), Bracket(keyframes, t)))
         == At(optimized, Bracket(keyframes, t))
  {
    var where := Bracket(keyframes, t);
    ComposeUndone(trig, At(optimized, where), At(Raw(keyframes), where));
    WrapTwice(optimized[where.0].yaw + AngleDelta(optimized[where.0 + 1].yaw, optimized[where.0].yaw) * where.1);
  }

  lemma {:induction false} BracketAtKeyframe(keyframes: seq<Keyframe>, k: nat)
    requires |keyframes| >= 2 && InOrder(keyframes) && k < |keyframes|
    ensures Bracket(keyframes, keyframes[k].timestamp) == if k == 0 then (0, 0.0) else (k - 1, 1.0)
  {
    var t := keyframes[k].timestamp;
    if 0 < k < |keyframes| - 1 {
      var i := FirstInterval(keyframes, t, 0);
      assert i == k - 1;
      WholeFraction(t - keyframes[i].timestamp);
    }
  }

  /** At a keyframe's own time it carries that raw pose to its optimized pose. */
  lemma CorrectionAtKeyframe(trig: Trig, keyframes: seq<Keyframe>, optimized: seq<Pose>, k: nat)
    requires trig.Lawful() && |keyframes| >= 2 && InOrder(keyframes) && |optimized| == |keyframes| && k < |keyframes|
    ensures ComposePose(trig, Correction(trig, keyframes, optimized, keyframes[k].timestamp), keyframes[k].raw)
         == Canonical(optimized[k])
  {
    var t, raw := keyframes[k].timestamp, Raw(keyframes);
    var where := Bracket(keyframes, t);
    BracketAtKeyframe(keyframes, k);
    InterpolateEnds(raw[where.0], raw[where.0 + 1]);
    InterpolateEnds(optimized[where.0], optimized[where.0 + 1]);
    CorrectionRebuilds(trig, keyframes, optimized, t);
    ComposeCanonical(trig, Correction(trig, keyframes, optimized, t), keyframes[k].raw);
  }
}
