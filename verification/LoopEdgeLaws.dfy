/** What every loop edge of every run promises, in seconds, metres, degrees and points of its scans:
    robot_brain/navigation/pose_graph.py:226-367. */
module LoopEdgeLaws {
  import opened RealMath
  import opened Grid
  import opened Sorting
  import opened Poses
  import opened Costmap
  import opened ScanScore
  import opened ScanSearch
  import opened ScanLaws
  import opened LoopClosure
  import opened PoseRelaxation
  import opened PoseTracker
  import opened TrackerRuns

  // ----- the search window -----

  /** A sample of an interval: whole steps from its lower end. */
  ghost predicate IsSample(center: real, radius: real, step: real, v: real) {
    v <= center + radius && exists i: nat :: IsStepsUp(center, radius, step, v, i)
  }

  predicate IsStepsUp(center: real, radius: real, step: real, v: real, i: nat) {
    v == center - radius + i as real * step
  }

  ghost predicate IsInWindow(limits: LoopLimits, estimate: Pose, pose: Pose) {
    && IsSample(estimate.x, limits.translationRadius, limits.translationStep, pose.x)
    && IsSample(estimate.y, limits.translationRadius, limits.translationStep, pose.y)
    && IsSample(estimate.yaw, limits.yawRadius, limits.yawStep, pose.yaw)
  }

  /** Every sample is on the axis of candidates. */
  lemma SampleIsOnAxis(center: real, radius: real, step: real, v: real)
    requires radius > 0.0 && step > 0.0 && IsSample(center, radius, step, v)
    ensures Axis(center, radius, step).Ok? && v in Axis(center, radius, step).value
  {
    var axis := Axis(center, radius, step).value;
    var i: nat :| IsStepsUp(center, radius, step, v, i);
    var width := (center + radius - (center - radius)) / step;
    assert width * step == 2.0 * radius;
    var gap := ProductSign(width - i as real, step);
    assert gap == width * step - i as real * step;
    assert axis[i] == v;
  }

  /** A placement more than a neighbouring sample away: one and a half steps, or as much of a turn. */
  predicate IsApart(limits: LoopLimits, a: Pose, b: Pose) {
    var turn := AngleDelta(a.yaw, b.yaw);
    || (a.x - b.x) * (a.x - b.x) + (a.y - b.y) * (a.y - b.y) >= 2.25 * (limits.translationStep * limits.translationStep)
    || turn >= 1.5 * limits.yawStep || turn <= -1.5 * limits.yawStep
  }

  lemma ApartIsDistinct(sqrt: real -> real, limits: LoopLimits, a: Pose, b: Pose)
    requires IsSqrt(sqrt) && limits.Positive()
    ensures IsApart(limits, a, b) <==> Distinct(sqrt, limits, a, b)
  {
    var h := Hypot(sqrt, a.x - b.x, a.y - b.y);
    HypotSquare(sqrt, a.x - b.x, a.y - b.y);
    assert (limits.translationStep * 1.5) * (limits.translationStep * 1.5) == 2.25 * (limits.translationStep * limits.translationStep);
    SquareAtLeast(h, limits.translationStep * 1.5);
  }

  lemma SquareAtLeast(a: real, b: real)
    requires a >= 0.0 && b >= 0.0
    ensures a * a >= b * b <==> a >= b
  {
    if a * a >= b * b {
      SquareOrder(b, a);
    }
    if a >= b {
      var gap := ProductNonnegative(a - b, a + b);
      assert gap == a * a - b * b;
    }
  }

  // ----- an edge against its rivals -----

  /** The later scan, placed against the earlier one. */
  function EdgeMatcher(m: Numerics, limits: LoopLimits, s: TrackerState, c: Constraint): Matcher
    requires limits.Positive() && c.source < c.target < |s.keyframes| == |s.scans|
  {
    Matcher(m.sqrt, m.trig, LoopScan(s.scans[c.target], limits.reach), LoopScan(s.scans[c.source], limits.reach), limits.reach)
  }

  /** The rival fits no better; if it is apart it reaches fewer points by the margin; and if it fits as
      well it comes later in the order of x, y and yaw, largest first. */
  ghost predicate Loses(m: Matcher, limits: LoopLimits, best: Pose, rival: Pose) {
    && NoFitter(m, best, rival)
    && (IsApart(limits, rival, best) ==> IsFewer(Reach(m, rival), limits.minMargin, |m.source|, Reach(m, best)))
    && (FitsAlike(m, best, rival) ==>
          && rival.x <= best.x
          && (rival.x == best.x ==> rival.y <= best.y && (rival.y == best.y ==> rival.yaw <= best.yaw)))
  }

  /** Fewer points, by at least this share of the scan. */
  predicate IsFewer(points: nat, margin: real, whole: nat, most: nat) {
    points as real + margin * whole as real <= most as real
  }

  ghost predicate FitsAlike(m: Matcher, a: Pose, b: Pose) {
    Reach(m, a) == Reach(m, b) && forall e :: IsError(m, a, e) <==> IsError(m, b, e)
  }

  /** The edge is the best placement of the window, good enough, and weighted by the share it matched. */
  ghost predicate IsBestEdge(m: Matcher, limits: LoopLimits, estimate: Pose, c: Constraint, share: real) {
    && IsShare(share, Reach(m, c.relative), |m.source|) && share >= limits.minFitness
    && c.weight == (if share <= 0.05 then 1.0 else 20.0 * share)
    && Reach(m, c.relative) >= limits.minPoints && Reach(m, c.relative) > 0
    && (forall e :: IsError(m, c.relative, e) ==> e <= limits.maxRmse)
    && NearBy(c.relative.x, estimate.x, limits.translationRadius, limits.translationStep)
    && NearBy(c.relative.y, estimate.y, limits.translationRadius, limits.translationStep)
    && NearBy(c.relative.yaw, estimate.yaw, limits.yawRadius, limits.yawStep)
    && forall rival :: IsInWindow(limits, estimate, rival) ==> Loses(m, limits, c.relative, rival)
  }

  lemma ShareAtMostOne(share: real, part: nat, whole: nat)
    requires IsShare(share, part, whole) && part <= whole
    ensures share <= 1.0
  {
    if whole > 0 {
      var gap := ProductSign(1.0 - share, whole as real);
      assert gap == whole as real - part as real;
    }
  }

  lemma MarginInPoints(a: real, b: real, margin: real, m: nat, n: nat, whole: nat)
    requires IsShare(a, m, whole) && IsShare(b, n, whole) && a + margin <= b && m <= whole && n <= whole
    ensures IsFewer(m, margin, whole, n)
  {
    if whole > 0 {
      var gap := ProductSign(b - a - margin, whole as real);
      assert gap == b * whole as real - a * whole as real - margin * whole as real;
    } else {
      assert margin * whole as real == 0.0;
    }
  }

  lemma RivalLoses(em: Matcher, limits: LoopLimits, all: seq<Candidate>, best: Pose, rival: Pose)
    requires IsSqrt(em.sqrt) && limits.Positive()
    requires Confirms(em.sqrt, limits, all, Candidate(em.At(best).score, best))
    requires Candidate(em.At(rival).score, rival) in all
    ensures Loses(em, limits, best, rival)
  {
    var (p, q) := (em.At(best).score, em.At(rival).score);
    RankBelow(Candidate(p, best), Candidate(q, rival));
    BetterMeans(em, best, rival);
    if IsApart(limits, rival, best) {
      ApartIsDistinct(em.sqrt, limits, rival, best);
      FitnessInPoints(em, limits.minMargin, best, rival);
    }
    if FitsAlike(em, best, rival) {
      SameScore(em, best, rival);
    }
  }

  lemma RankBelow(a: Candidate, b: Candidate)
    requires Outranks(a, b)
    ensures !Better(b.score, a.score)
    ensures a.score == b.score ==>
      a.pose.x >= b.pose.x && (a.pose.x == b.pose.x ==> a.pose.y >= b.pose.y && (a.pose.y == b.pose.y ==> a.pose.yaw >= b.pose.yaw))
  {
  }

  lemma FitnessInPoints(em: Matcher, margin: real, best: Pose, rival: Pose)
    requires IsSqrt(em.sqrt) && em.At(rival).score.fitness + margin <= em.At(best).score.fitness
    ensures IsFewer(Reach(em, rival), margin, |em.source|, Reach(em, best))
  {
    var b := FitnessOf(em, best);
    var a := FitnessOf(em, rival);
    MarginInPoints(a, b, margin, Reach(em, rival), Reach(em, best), |em.source|);
  }

  lemma FitnessOf(em: Matcher, pose: Pose) returns (fitness: real)
    requires IsSqrt(em.sqrt)
    ensures fitness == em.At(pose).score.fitness
    ensures IsShare(fitness, Reach(em, pose), |em.source|) && Reach(em, pose) <= |em.source|
  {
    ScoreMeans(em, pose);
    fitness := em.At(pose).score.fitness;
  }

  lemma SameScore(em: Matcher, a: Pose, b: Pose)
    requires IsSqrt(em.sqrt) && FitsAlike(em, a, b)
    ensures em.At(a).score == em.At(b).score
  {
    var (p, q) := (em.At(a).score, em.At(b).score);
    ScoreMeans(em, a);
    ScoreMeans(em, b);
    ShareOrder(p.fitness, q.fitness, Reach(em, a), Reach(em, b), |em.source|);
    if p.rmse.Some? {
      ErrorIsUnique(em, a, p.rmse.value, q.rmse.value);
    }
  }

  lemma ConfirmedIsBest(m: Numerics, limits: LoopLimits, s: TrackerState, c: Constraint) returns (share: real)
    requires IsSqrt(m.sqrt) && c.source < c.target < |s.keyframes| == |s.scans| && ScanConfirmed(m, limits, s, c)
    ensures limits.Positive() && IsBestEdge(EdgeMatcher(m, limits, s, c), limits, Estimate(m, s, c), c, share)
  {
    var v :| IsVerification(m, limits, s, c.source, c.target, Ok(v)) && v.accepted && IsEdgeFrom(c, v);
    var (source, target, estimate) := (s.scans[c.source], s.scans[c.target], Estimate(m, s, c));
    VerificationIsResult(m, limits, s, c.source, c.target, Ok(v));
    AcceptedIsVerdict(m.sqrt, m.trig, limits, source, target, estimate, v);
    AcceptedLoopIsNearOdometry(m.sqrt, m.trig, limits, source, target, estimate, v);
    var (em, all) := (EdgeMatcher(m, limits, s, c), LoopPlacements(m.sqrt, m.trig, limits, source, target, estimate));
    VerdictConfirms(m.sqrt, limits, all, v);
    share := v.fitness;
    ScoreMeans(em, c.relative);
    ShareAtMostOne(share, Reach(em, c.relative), |em.source|);
    forall e | IsError(em, c.relative, e) ensures e <= limits.maxRmse {
      ErrorIsUnique(em, c.relative, e, em.At(c.relative).score.rmse.value);
    }
    forall rival | IsInWindow(limits, estimate, rival) ensures Loses(em, limits, c.relative, rival) {
      WindowIsPlaced(m, limits, source, target, estimate, rival);
      assert Candidate(em.At(rival).score, rival) in all;
      RivalLoses(em, limits, all, c.relative, rival);
    }
  }

  lemma WindowIsPlaced(m: Numerics, limits: LoopLimits, source: seq<Point3>, target: seq<Point3>, estimate: Pose, rival: Pose)
    requires limits.Positive() && IsInWindow(limits, estimate, rival)
    ensures Candidate(BruteScore(m.sqrt, m.trig, LoopScan(target, limits.reach), LoopScan(source, limits.reach), rival, limits.reach), rival)
      in LoopPlacements(m.sqrt, m.trig, limits, source, target, estimate)
  {
    SampleIsOnAxis(estimate.x, limits.translationRadius, limits.translationStep, rival.x);
    SampleIsOnAxis(estimate.y, limits.translationRadius, limits.translationStep, rival.y);
    SampleIsOnAxis(estimate.yaw, limits.yawRadius, limits.yawStep, rival.yaw);
    var at := Scored(m.sqrt, m.trig, LoopScan(source, limits.reach), LoopScan(target, limits.reach), limits.reach);
    LatticeHas(at, limits.XAxis(estimate), limits.YAxis(estimate), limits.YawAxis(estimate), at(Pose(rival.x, rival.y, rival.yaw)));
    assert rival == Pose(rival.x, rival.y, rival.yaw);
  }

  /** Recorded near each other, with enough time between. */
  predicate IsNearRevisit(config: TrackerConfig, from: Keyframe, to: Keyframe) {
    && to.timestamp >= from.timestamp + config.minLoopAge
    && SquaredGap(Point(to.raw.x, to.raw.y), Point(from.raw.x, from.raw.y)) <= config.loopRadius * config.loopRadius
  }

  lemma RevisitIsNear(m: Numerics, config: TrackerConfig, keyframes: seq<Keyframe>, earlier: nat, current: nat)
    requires m.Lawful() && config.Valid() && earlier < current < |keyframes|
    ensures IsRevisit(m, config, keyframes, earlier, current) <==> IsNearRevisit(config, keyframes[earlier], keyframes[current])
  {
    var (a, b) := (keyframes[current].raw, keyframes[earlier].raw);
    assert m.HypotAt(a.x - b.x, a.y - b.y);
    HypotSquare(m.sqrt, a.x - b.x, a.y - b.y);
    SquareAtLeast(config.loopRadius, m.hypot(a.x - b.x, a.y - b.y));
  }

  /** In every state of every run a loop edge joins two keyframes recorded near each other with enough
      time between them, the later one not among the first few, and is the best placement of their scans within the window of its call. */
  lemma LoopEdgeIsBestRevisit(m: Numerics, config: TrackerConfig, states: seq<TrackerState>, calls: seq<Call>, k: nat, e: nat)
    returns (share: real)
    requires m.Lawful() && config.Valid() && IsRun(m, config, states, calls) && k < |states|
    requires e < |states[k].constraints| && states[k].constraints[e].kind == Loop
    ensures var (s, c, used) := (states[k], states[k].constraints[e], UsedLimits(states, calls, k));
      && c.source < c.target < |s.keyframes| == |s.scans| == |used|
      && IsNearRevisit(config, s.keyframes[c.source], s.keyframes[c.target]) && c.target + 1 >= config.minKeyframes
      && used[c.target].Positive()
      && IsBestEdge(EdgeMatcher(m, used[c.target], s, c), used[c.target], Estimate(m, s, c), c, share)
  {
    RunKeepsInvariant(m, config, states, calls, k);
    share := VerifiedIsBest(m, config, UsedLimits(states, calls, k), states[k], states[k].constraints[e]);
  }

  lemma VerifiedIsBest(m: Numerics, config: TrackerConfig, used: seq<LoopLimits>, s: TrackerState, c: Constraint) returns (share: real)
    requires m.Lawful() && config.Valid() && LoopVerified(m, config, used, s, c)
    ensures IsNearRevisit(config, s.keyframes[c.source], s.keyframes[c.target]) && c.target + 1 >= config.minKeyframes
    ensures used[c.target].Positive()
    ensures IsBestEdge(EdgeMatcher(m, used[c.target], s, c), used[c.target], Estimate(m, s, c), c, share)
  {
    RevisitIsNear(m, config, s.keyframes, c.source, c.target);
    share := ConfirmedIsBest(m, used[c.target], s, c);
  }

  /** With the defaults: the window is 0.6 m and 20 degrees around the estimate in steps of 0.1 m and
      5 degrees, points match within 0.20 m, and at least twelve of them and 55 percent of the scan
      do, with an error of at most 0.14 m and two percent of the scan more than any rival apart. */
  lemma DefaultEdgeIsBest(m: Numerics, config: TrackerConfig, states: seq<TrackerState>, calls: seq<Call>, k: nat, e: nat)
    returns (share: real, limits: LoopLimits)
    requires m.Lawful() && config.Valid() && IsRun(m, config, states, calls) && k < |states|
    requires forall j :: 0 <= j < |calls| ==> calls[j].limits == DEFAULT_LIMITS
    requires e < |states[k].constraints| && states[k].constraints[e].kind == Loop
    ensures limits == LoopLimits(0.6, 20.0, 0.1, 5.0, 0.20, 12, 0.55, 0.14, 0.02, 5000)
    ensures var (s, c) := (states[k], states[k].constraints[e]);
      && c.source < c.target < |s.keyframes| == |s.scans|
      && IsBestEdge(EdgeMatcher(m, limits, s, c), limits, Estimate(m, s, c), c, share)
  {
    share := LoopEdgeIsBestRevisit(m, config, states, calls, k, e);
    SameLimitsThroughout(states, calls, DEFAULT_LIMITS, k);
    limits := DEFAULT_LIMITS;
  }

  // ----- which revisits are tried -----

  function FrameGap(a: Keyframe, b: Keyframe): real { SquaredGap(Point(a.raw.x, a.raw.y), Point(b.raw.x, b.raw.y)) }

  /** Nearer in the order of the candidates is nearer on the ground. */
  lemma NearerOnGround(m: Numerics, config: TrackerConfig, keyframes: seq<Keyframe>, current: nat, a: Ranked, b: Ranked)
    requires m.Lawful() && current < |keyframes|
    requires a in Revisits(m, config, keyframes, current, current) && b in Revisits(m, config, keyframes, current, current) && Nearer(a, b)
    ensures a.index < current && b.index < current
    ensures FrameGap(keyframes[current], keyframes[a.index]) <= FrameGap(keyframes[current], keyframes[b.index])
  {
    RevisitsAre(m, config, keyframes, current, current, a);
    RevisitsAre(m, config, keyframes, current, current, b);
    DistanceIsGap(m, keyframes[current], keyframes[a.index], a.distance);
    DistanceIsGap(m, keyframes[current], keyframes[b.index], b.distance);
    SquareAtLeast(b.distance, a.distance);
  }

  lemma DistanceIsGap(m: Numerics, a: Keyframe, b: Keyframe, distance: real)
    requires m.Lawful() && distance == Distance(m, a.raw, b.raw)
    ensures distance >= 0.0 && distance * distance == FrameGap(a, b)
  {
    assert m.HypotAt(a.raw.x - b.raw.x, a.raw.y - b.raw.y);
    HypotSquare(m.sqrt, a.raw.x - b.raw.x, a.raw.y - b.raw.y);
  }

  /** Once there are enough keyframes every near revisit is tried, or else the list is full of others no
      further away; and what is tried comes nearest first. */
  lemma NearestAreTried(m: Numerics, config: TrackerConfig, keyframes: seq<Keyframe>, current: nat, e: nat)
    requires m.Lawful() && config.Valid() && e < current < |keyframes| && |keyframes| >= config.minKeyframes
    ensures var list := LoopCandidates(m, config, keyframes, current);
      && (forall k :: 0 <= k < |list| ==> list[k].index < current)
      && (IsNearRevisit(config, keyframes[e], keyframes[current]) && (forall k :: 0 <= k < |list| ==> list[k].index != e) ==>
            && |list| == config.maxCandidates
            && forall k :: 0 <= k < |list| ==> FrameGap(keyframes[current], keyframes[list[k].index]) <= FrameGap(keyframes[current], keyframes[e]))
  {
    var list := LoopCandidates(m, config, keyframes, current);
    var r := Ranked(Distance(m, keyframes[current].raw, keyframes[e].raw), e);
    forall k | 0 <= k < |list| ensures list[k].index < current && list[k] in Revisits(m, config, keyframes, current, current) {
      ListedIsRevisit(m, config, keyframes, current, k);
    }
    RevisitIsNear(m, config, keyframes, e, current);
    RevisitsAre(m, config, keyframes, current, current, r);
    CandidatesAreNearest(m, config, keyframes, current, r);
    if IsNearRevisit(config, keyframes[e], keyframes[current]) && (forall k :: 0 <= k < |list| ==> list[k].index != e) {
      forall k | 0 <= k < |list| ensures FrameGap(keyframes[current], keyframes[list[k].index]) <= FrameGap(keyframes[current], keyframes[e]) {
        assert list[k] in list;
        NearerOnGround(m, config, keyframes, current, list[k], r);
      }
    }
  }

  lemma ListedIsRevisit(m: Numerics, config: TrackerConfig, keyframes: seq<Keyframe>, current: nat, k: nat)
    requires config.Valid() && current < |keyframes| && k < |LoopCandidates(m, config, keyframes, current)|
    ensures var r := LoopCandidates(m, config, keyframes, current)[k];
      r.index < current && r in Revisits(m, config, keyframes, current, current)
  {
    var all := Revisits(m, config, keyframes, current, current);
    SortedIsSorted(Nearer, all);
    var ranked := Sorted(Nearer, all);
    assert ranked[k] in multiset(ranked);
    RevisitsAre(m, config, keyframes, current, current, ranked[k]);
  }

  lemma TriedNearestFirst(m: Numerics, config: TrackerConfig, keyframes: seq<Keyframe>, current: nat, i: nat, j: nat)
    requires m.Lawful() && config.Valid() && current < |keyframes| && i < j < |LoopCandidates(m, config, keyframes, current)|
    ensures var list := LoopCandidates(m, config, keyframes, current);
      && list[i].index < current && list[j].index < current
      && FrameGap(keyframes[current], keyframes[list[i].index]) <= FrameGap(keyframes[current], keyframes[list[j].index])
  {
    ListedIsRevisit(m, config, keyframes, current, i);
    ListedIsRevisit(m, config, keyframes, current, j);
    SortedIsSorted(Nearer, Revisits(m, config, keyframes, current, current));
    var list := LoopCandidates(m, config, keyframes, current);
    assert Nearer(list[i], list[j]);
    NearerOnGround(m, config, keyframes, current, list[i], list[j]);
  }
}
