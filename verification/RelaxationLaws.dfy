/** What a round of the relaxation does to the edges, in terms of the edges alone:
    robot_brain/navigation/pose_graph.py:149-167, 205-213 and 370-390. */
module RelaxationLaws {
  import opened RealMath
  import opened Poses
  import opened PoseRelaxation

  /** Where an edge wants one of its two ends to be, given where the other one is. */
  function Wish(trig: Trig, c: Constraint, poses: seq<Pose>, node: nat): Pose
    requires IsEdge(c, |poses|)
  {
    if c.target == node then ComposePose(trig, poses[c.source], c.relative)
    else ComposePose(trig, poses[c.target], InversePose(trig, c.relative))
  }

  /** The weighted sum of a quantity over the wishes at a node. */
  function SumAt(trig: Trig, constraints: seq<Constraint>, poses: seq<Pose>, node: nat, part: Pose -> real): real
    requires AreEdges(constraints, |poses|)
  {
    if constraints == [] then 0.0
    else
      var init, c := constraints[..|constraints| - 1], constraints[|constraints| - 1];
      SumAt(trig, init, poses, node, part) + if Touches(c, node) then part(Wish(trig, c, poses, node)) * c.weight else 0.0
  }

  function WeightAt(constraints: seq<Constraint>, node: nat): real {
    if constraints == [] then 0.0
    else
      var init, c := constraints[..|constraints| - 1], constraints[|constraints| - 1];
      WeightAt(init, node) + if Touches(c, node) then c.weight else 0.0
  }

  function Ahead(here: Pose): Pose -> real { (p: Pose) => p.x - here.x }

  function Aside(here: Pose): Pose -> real { (p: Pose) => p.y - here.y }

  function SineAt(trig: Trig): Pose -> real { (p: Pose) => trig.sin(p.yaw) }

  function CosineAt(trig: Trig): Pose -> real { (p: Pose) => trig.cos(p.yaw) }

  /** How a round moves a node: in the plane by the given share of the mean of what its edges
      ask for, and in heading by that share of the turn to the direction they add up to. */
  ghost predicate FollowsEdges(m: Numerics, constraints: seq<Constraint>, poses: seq<Pose>, relaxation: real, node: nat, next: Pose)
    requires AreEdges(constraints, |poses|) && node < |poses|
  {
    var here, weight := poses[node], WeightAt(constraints, node);
    && weight > 0.0
    && MovesInShare(next.x - here.x, weight, relaxation, SumAt(m.trig, constraints, poses, node, Ahead(here)))
    && MovesInShare(next.y - here.y, weight, relaxation, SumAt(m.trig, constraints, poses, node, Aside(here)))
    && next.yaw == Normalize(PartTurn(here.yaw, Direction(m, constraints, poses, node), relaxation))
  }

  /** A move is the given share of a weighted mean. */
  predicate MovesInShare(moved: real, weight: real, relaxation: real, sum: real) { moved * weight == relaxation * sum }

  /** The direction that the headings asked for add up to. */
  function Direction(m: Numerics, constraints: seq<Constraint>, poses: seq<Pose>, node: nat): real
    requires AreEdges(constraints, |poses|)
  {
    m.arctan(SumAt(m.trig, constraints, poses, node, SineAt(m.trig)), SumAt(m.trig, constraints, poses, node, CosineAt(m.trig)))
  }

  /** One round: the anchor stays and every other node follows its edges. */
  ghost predicate IsRound(m: Numerics, constraints: seq<Constraint>, poses: seq<Pose>, relaxation: real, next: seq<Pose>)
    requires AreEdges(constraints, |poses|)
  {
    && |next| == |poses| && (poses != [] ==> next[0] == poses[0])
    && forall i :: 0 < i < |poses| ==> FollowsEdges(m, constraints, poses, relaxation, i, next[i])
  }

  // ----- the round of the optimizer is such a round -----

  function PartOf(part: Pose -> real): Pull -> real { (p: Pull) => part(p.pose) }

  lemma PullsNext(trig: Trig, constraints: seq<Constraint>, poses: seq<Pose>, node: nat)
    requires AreEdges(constraints, |poses|) && constraints != []
    ensures var init, c := constraints[..|constraints| - 1], constraints[|constraints| - 1];
      Pulls(trig, constraints, poses, node)
      == Pulls(trig, init, poses, node) + if Touches(c, node) then [Pull(Wish(trig, c, poses, node), c.weight)] else []
  {
  }

  lemma {:induction false} TotalIsSum(trig: Trig, constraints: seq<Constraint>, poses: seq<Pose>, node: nat, part: Pose -> real)
    requires AreEdges(constraints, |poses|)
    ensures Total(Pulls(trig, constraints, poses, node), PartOf(part)) == SumAt(trig, constraints, poses, node, part)
  {
    if constraints != [] {
      var init, c := constraints[..|constraints| - 1], constraints[|constraints| - 1];
      TotalIsSum(trig, init, poses, node, part);
      PullsNext(trig, constraints, poses, node);
      TotalNext(Pulls(trig, init, poses, node), Pull(Wish(trig, c, poses, node), c.weight), PartOf(part));
      assert Pulls(trig, init, poses, node) + [] == Pulls(trig, init, poses, node);
    }
  }

  lemma TotalNext(pulls: seq<Pull>, p: Pull, part: Pull -> real)
    ensures Total(pulls + [p], part) == Total(pulls, part) + part(p) * p.weight
  {
    assert (pulls + [p])[..|pulls|] == pulls;
  }

  lemma {:induction false} WeightIsTotal(trig: Trig, constraints: seq<Constraint>, poses: seq<Pose>, node: nat)
    requires AreEdges(constraints, |poses|)
    ensures Total(Pulls(trig, constraints, poses, node), One) == WeightAt(constraints, node)
  {
    if constraints != [] {
      var init, c := constraints[..|constraints| - 1], constraints[|constraints| - 1];
      WeightIsTotal(trig, init, poses, node);
      PullsNext(trig, constraints, poses, node);
      TotalNext(Pulls(trig, init, poses, node), Pull(Wish(trig, c, poses, node), c.weight), One);
      assert Pulls(trig, init, poses, node) + [] == Pulls(trig, init, poses, node);
    }
  }

  lemma {:induction false} SameTotal(pulls: seq<Pull>, f: Pull -> real, g: Pull -> real)
    requires forall p :: f(p) == g(p)
    ensures Total(pulls, f) == Total(pulls, g)
  {
    if pulls != [] {
      SameTotal(pulls[..|pulls| - 1], f, g);
    }
  }

  /** Summing the offsets from a point is summing the coordinates and taking it away once for each unit of weight. */
  lemma {:induction false} OffsetTotal(pulls: seq<Pull>, f: Pull -> real, g: Pull -> real, origin: real)
    requires forall p :: g(p) == f(p) - origin
    ensures Total(pulls, g) == Shifted(Total(pulls, f), origin, Total(pulls, One))
  {
    if pulls != [] {
      var n := |pulls| - 1;
      OffsetTotal(pulls[..n], f, g, origin);
      OffsetStep(Total(pulls[..n], f), Total(pulls[..n], One), f(pulls[n]), pulls[n].weight, origin);
    }
  }

  function Shifted(sum: real, origin: real, weight: real): real { sum - origin * weight }

  lemma OffsetStep(sum: real, weight: real, value: real, w: real, origin: real)
    ensures Shifted(sum, origin, weight) + (value - origin) * w == Shifted(sum + value * w, origin, weight + 1.0 * w)
  {
  }

  function MeanMove(sum: real, weight: real, origin: real, relaxation: real): real
    requires weight > 0.0
  {
    (sum / weight - origin) * relaxation
  }

  lemma MeanOffset(sum: real, weight: real, origin: real, relaxation: real)
    requires weight > 0.0
    ensures MovesInShare(MeanMove(sum, weight, origin, relaxation), weight, relaxation, Shifted(sum, origin, weight))
  {
    var mean := sum / weight;
    assert mean * weight == sum;
    assert ((mean - origin) * relaxation) * weight == relaxation * (mean * weight - origin * weight);
  }

  lemma SumIsOffset(trig: Trig, constraints: seq<Constraint>, poses: seq<Pose>, node: nat, f: Pull -> real, g: Pose -> real, origin: real)
    requires AreEdges(constraints, |poses|) && forall p: Pull :: PartOf(g)(p) == f(p) - origin
    ensures SumAt(trig, constraints, poses, node, g)
         == Shifted(Total(Pulls(trig, constraints, poses, node), f), origin, WeightAt(constraints, node))
  {
    WeightIsTotal(trig, constraints, poses, node);
    TotalIsSum(trig, constraints, poses, node, g);
    OffsetTotal(Pulls(trig, constraints, poses, node), f, PartOf(g), origin);
  }

  lemma AxisFollows(m: Numerics, constraints: seq<Constraint>, poses: seq<Pose>, relaxation: real, node: nat,
                    f: Pull -> real, g: Pose -> real, origin: real)
    requires AreEdges(constraints, |poses|) && (forall p: Pull :: PartOf(g)(p) == f(p) - origin) && WeightAt(constraints, node) > 0.0
    ensures MovesInShare(MeanMove(Total(Pulls(m.trig, constraints, poses, node), f), WeightAt(constraints, node), origin, relaxation),
                         WeightAt(constraints, node), relaxation, SumAt(m.trig, constraints, poses, node, g))
  {
    SumIsOffset(m.trig, constraints, poses, node, f, g, origin);
    MeanOffset(Total(Pulls(m.trig, constraints, poses, node), f), WeightAt(constraints, node), origin, relaxation);
  }

  /** A node of a round follows its edges. */
  lemma NodeFollowsEdges(m: Numerics, constraints: seq<Constraint>, poses: seq<Pose>, relaxation: real, node: nat)
    requires AreEdges(constraints, |poses|) && Anchored(constraints, |poses|) && 0 < node < |poses|
    ensures FollowsEdges(m, constraints, poses, relaxation, node, Round(m, constraints, poses, relaxation)[node])
  {
    var here := poses[node];
    WeightIsTotal(m.trig, constraints, poses, node);
    MovedHow(m, constraints, poses, relaxation, node);
    AxisFollows(m, constraints, poses, relaxation, node, XOf, Ahead(here), here.x);
    AxisFollows(m, constraints, poses, relaxation, node, YOf, Aside(here), here.y);
    HeadingTotals(m.trig, constraints, poses, node);
  }

  lemma MovedHow(m: Numerics, constraints: seq<Constraint>, poses: seq<Pose>, relaxation: real, node: nat)
    requires AreEdges(constraints, |poses|) && Anchored(constraints, |poses|) && 0 < node < |poses|
    ensures Total(Pulls(m.trig, constraints, poses, node), One) > 0.0
    ensures var (pulls, here, next) := (Pulls(m.trig, constraints, poses, node), poses[node], Round(m, constraints, poses, relaxation)[node]);
      && next.x - here.x == MeanMove(Total(pulls, XOf), Total(pulls, One), here.x, relaxation)
      && next.y - here.y == MeanMove(Total(pulls, YOf), Total(pulls, One), here.y, relaxation)
      && next.yaw == Normalize(PartTurn(here.yaw, m.arctan(Total(pulls, SineOf(m.trig)), Total(pulls, CosineOf(m.trig))), relaxation))
  {
    var pulls := Pulls(m.trig, constraints, poses, node);
    PulledWhenTouched(m.trig, constraints, poses, node);
    WeightPositive(pulls);
    var wanted := WeightedPose(m, pulls).value;
    InterpolatedMove(poses[node], wanted, relaxation);
    InterpolatedTurn(poses[node], wanted, relaxation);
  }

  lemma InterpolatedMove(here: Pose, wanted: Pose, relaxation: real)
    ensures InterpolatePose(here, wanted, relaxation).x - here.x == (wanted.x - here.x) * relaxation
    ensures InterpolatePose(here, wanted, relaxation).y - here.y == (wanted.y - here.y) * relaxation
  {
  }

  lemma InterpolatedTurn(here: Pose, wanted: Pose, relaxation: real)
    ensures InterpolatePose(here, wanted, relaxation).yaw == Normalize(PartTurn(here.yaw, wanted.yaw, relaxation))
  {
  }

  lemma HeadingTotals(trig: Trig, constraints: seq<Constraint>, poses: seq<Pose>, node: nat)
    requires AreEdges(constraints, |poses|)
    ensures Total(Pulls(trig, constraints, poses, node), SineOf(trig)) == SumAt(trig, constraints, poses, node, SineAt(trig))
    ensures Total(Pulls(trig, constraints, poses, node), CosineOf(trig)) == SumAt(trig, constraints, poses, node, CosineAt(trig))
  {
    var pulls := Pulls(trig, constraints, poses, node);
    TotalIsSum(trig, constraints, poses, node, SineAt(trig));
    TotalIsSum(trig, constraints, poses, node, CosineAt(trig));
    SameTotal(pulls, PartOf(SineAt(trig)), SineOf(trig));
    SameTotal(pulls, PartOf(CosineAt(trig)), CosineOf(trig));
  }

  lemma RoundFollowsEdges(m: Numerics, constraints: seq<Constraint>, poses: seq<Pose>, relaxation: real)
    requires AreEdges(constraints, |poses|) && Anchored(constraints, |poses|)
    ensures IsRound(m, constraints, poses, relaxation, Round(m, constraints, poses, relaxation))
  {
    forall i | 0 < i < |poses| ensures FollowsEdges(m, constraints, poses, relaxation, i, Round(m, constraints, poses, relaxation)[i]) {
      NodeFollowsEdges(m, constraints, poses, relaxation, i);
    }
  }

  // ----- what such a round means -----

  /** A node stays where it is exactly when its edges balance. */
  lemma StaysExactly(m: Numerics, constraints: seq<Constraint>, poses: seq<Pose>, relaxation: real, node: nat, next: Pose)
    requires AreEdges(constraints, |poses|) && node < |poses| && relaxation > 0.0
    requires FollowsEdges(m, constraints, poses, relaxation, node, next)
    ensures next.x == poses[node].x <==> SumAt(m.trig, constraints, poses, node, Ahead(poses[node])) == 0.0
    ensures next.y == poses[node].y <==> SumAt(m.trig, constraints, poses, node, Aside(poses[node])) == 0.0
  {
    var here, weight := poses[node], WeightAt(constraints, node);
    ZeroTogether(next.x - here.x, weight, relaxation, SumAt(m.trig, constraints, poses, node, Ahead(here)));
    ZeroTogether(next.y - here.y, weight, relaxation, SumAt(m.trig, constraints, poses, node, Aside(here)));
  }

  lemma ZeroTogether(a: real, w: real, k: real, b: real)
    requires w > 0.0 && k > 0.0 && MovesInShare(a, w, k, b)
    ensures a == 0.0 <==> b == 0.0
  {
  }

  function Remaining(relaxation: real, gap: real): real { (1.0 - relaxation) * gap }

  ghost predicate AllWish(trig: Trig, constraints: seq<Constraint>, poses: seq<Pose>, node: nat, wish: Pose)
    requires AreEdges(constraints, |poses|)
  {
    forall k :: 0 <= k < |constraints| && Touches(constraints[k], node) ==> Wish(trig, constraints[k], poses, node) == wish
  }

  lemma {:induction false} SumOfSame(trig: Trig, constraints: seq<Constraint>, poses: seq<Pose>, node: nat, wish: Pose, part: Pose -> real)
    requires AreEdges(constraints, |poses|) && AllWish(trig, constraints, poses, node, wish)
    ensures SumAt(trig, constraints, poses, node, part) == Scaled(part(wish), WeightAt(constraints, node))
  {
    if constraints != [] {
      var init, c := constraints[..|constraints| - 1], constraints[|constraints| - 1];
      assert forall k :: 0 <= k < |init| ==> init[k] == constraints[k];
      SumOfSame(trig, init, poses, node, wish, part);
      if Touches(c, node) {
        assert Wish(trig, c, poses, node) == wish;
        SameNext(part(wish), WeightAt(init, node), c.weight, SumAt(trig, init, poses, node, part));
      }
    }
  }

  function Scaled(value: real, weight: real): real { value * weight }

  lemma SameNext(value: real, weight: real, w: real, sum: real)
    requires sum == Scaled(value, weight)
    ensures sum + value * w == Scaled(value, weight + w)
  {
  }

  /** When all edges at a node ask for the same pose, what is left of the way there, the turn
      included, is exactly the share that the relaxation leaves. */
  lemma AgreedGapShrinks(m: Numerics, constraints: seq<Constraint>, poses: seq<Pose>, relaxation: real, node: nat, next: Pose, wish: Pose)
    requires IsArctan(m) && AreEdges(constraints, |poses|) && node < |poses| && 0.0 <= relaxation <= 1.0
    requires FollowsEdges(m, constraints, poses, relaxation, node, next) && AllWish(m.trig, constraints, poses, node, wish)
    ensures wish.x - next.x == Remaining(relaxation, wish.x - poses[node].x)
    ensures wish.y - next.y == Remaining(relaxation, wish.y - poses[node].y)
    ensures AngleDelta(wish.yaw, next.yaw) == Remaining(relaxation, AngleDelta(wish.yaw, poses[node].yaw))
  {
    var here, weight := poses[node], WeightAt(constraints, node);
    SumOfSame(m.trig, constraints, poses, node, wish, Ahead(here));
    SumOfSame(m.trig, constraints, poses, node, wish, Aside(here));
    ShareOfGap(next.x - here.x, wish.x - here.x, weight, relaxation, SumAt(m.trig, constraints, poses, node, Ahead(here)));
    ShareOfGap(next.y - here.y, wish.y - here.y, weight, relaxation, SumAt(m.trig, constraints, poses, node, Aside(here)));
    AgreedDirection(m, constraints, poses, node, wish, weight);
    SameTurn(Direction(m, constraints, poses, node), wish.yaw, here.yaw);
    TurnShrinks(wish.yaw, here.yaw, relaxation, AngleDelta(wish.yaw, here.yaw), PartTurn(here.yaw, Direction(m, constraints, poses, node), relaxation));
  }

  lemma AgreedDirection(m: Numerics, constraints: seq<Constraint>, poses: seq<Pose>, node: nat, wish: Pose, weight: real)
    requires IsArctan(m) && AreEdges(constraints, |poses|) && AllWish(m.trig, constraints, poses, node, wish)
    requires weight == WeightAt(constraints, node) > 0.0
    ensures Normalize(Direction(m, constraints, poses, node)) == Normalize(wish.yaw)
  {
    SumOfSame(m.trig, constraints, poses, node, wish, SineAt(m.trig));
    SumOfSame(m.trig, constraints, poses, node, wish, CosineAt(m.trig));
    assert Undoes(m, wish.yaw, weight, SumAt(m.trig, constraints, poses, node, SineAt(m.trig)),
                  SumAt(m.trig, constraints, poses, node, CosineAt(m.trig)));
  }

  lemma ShareOfGap(moved: real, gap: real, weight: real, relaxation: real, sum: real)
    requires weight > 0.0 && MovesInShare(moved, weight, relaxation, sum) && sum == Scaled(gap, weight)
    ensures gap - moved == Remaining(relaxation, gap)
  {
    assert (moved - relaxation * gap) * weight == 0.0;
  }

  lemma SameTurn(a: real, b: real, from: real)
    requires Normalize(a) == Normalize(b)
    ensures AngleDelta(a, from) == AngleDelta(b, from)
  {
    HeadingSum(a, -from);
    HeadingSum(b, -from);
    assert a + -from == a - from && b + -from == b - from;
  }

  lemma TurnShrinks(wish: real, here: real, relaxation: real, d: real, next: real)
    requires 0.0 <= relaxation <= 1.0 && d == AngleDelta(wish, here) && next == here + d * relaxation
    ensures AngleDelta(wish, Normalize(next)) == Remaining(relaxation, d)
  {
    var left := ShareLeft(relaxation, d);
    NormalizeIsCanonical(wish - here);
    NormalizeIsCanonical(next);
    var k :| d == Turned(wish - here, k);
    var j :| Normalize(next) == Turned(next, j);
    assert wish - Normalize(next) == Turned(left, -k - j);
    SameHeadingExactly(wish - Normalize(next), left);
    WrappedIsFixed(left);
  }

  lemma ShareLeft(relaxation: real, d: real) returns (left: real)
    requires 0.0 <= relaxation <= 1.0 && Wrapped(d)
    ensures left == d - d * relaxation == Remaining(relaxation, d) && Wrapped(left)
  {
    left := d - d * relaxation;
    ShareWrapped(1.0 - relaxation, d, left);
  }

  lemma ShareWrapped(share: real, d: real, part: real)
    requires 0.0 <= share <= 1.0 && Wrapped(d) && part == share * d
    ensures Wrapped(part)
  {
    ShareOfSum(share, d, part);
    if share > 0.0 {
      var above := ShareOfRest(share, d, part);
    }
  }

  lemma ShareOfSum(share: real, d: real, part: real)
    requires 0.0 <= share && -180.0 <= d && part == share * d
    ensures -(share * 180.0) <= part && (share == 0.0 ==> part == 0.0)
  {
    assert share * (d + 180.0) >= 0.0;
    assert share * (d + 180.0) == share * d + share * 180.0;
  }

  lemma ShareOfRest(share: real, d: real, part: real) returns (above: real)
    requires share > 0.0 && d < 180.0 && part == share * d
    ensures above > 0.0 && above == share * 180.0 - part
  {
    ProductPositive(share, 180.0 - d);
    above := share * (180.0 - d);
  }

  // ----- when the rounds stop -----

  /** A round moves no node by more than the tolerance, in place or, as an arc of unit radius, in heading. */
  ghost predicate MovesLittle(m: Numerics, before: seq<Pose>, after: seq<Pose>, tolerance: real)
    requires |before| == |after|
  {
    forall i :: 0 < i < |before| ==> StaysNear(m, before[i], after[i], tolerance)
  }

  predicate StaysNear(m: Numerics, a: Pose, b: Pose, tolerance: real) {
    var turn := AngleDelta(a.yaw, b.yaw) * m.radian;
    m.hypot(a.x - b.x, a.y - b.y) <= tolerance && -tolerance <= turn <= tolerance
  }

  lemma {:induction false} LargestWithin(gap: nat -> real, n: nat, limit: real)
    requires limit >= 0.0
    ensures LargestOf(gap, n) <= limit <==> forall i :: 0 < i < n ==> gap(i) <= limit
  {
    if n > 1 {
      LargestWithin(gap, n - 1, limit);
    }
  }

  lemma DeltaWithinExactly(m: Numerics, before: seq<Pose>, after: seq<Pose>, tolerance: real)
    requires |before| == |after| && tolerance >= 0.0
    ensures LargestDelta(m, before, after) <= tolerance <==> MovesLittle(m, before, after, tolerance)
  {
    var gap := DeltaAt(m, before, after);
    LargestWithin(gap, |before|, tolerance);
    forall i: nat | 0 < i < |before| ensures gap(i) <= tolerance <==> StaysNear(m, before[i], after[i], tolerance) {
    }
  }

  /** The poses after each round of a relaxation. */
  ghost predicate IsCourse(m: Numerics, constraints: seq<Constraint>, budget: Budget, course: seq<seq<Pose>>) {
    && |course| > 0 && AreEdges(constraints, |course[0]|) && forall k :: 0 <= k < |course| ==> |course[k]| == |course[0]|
  }

  /** Every round follows the edges, only the last one moves little, and without one that does
      the budget has been spent. */
  ghost predicate RunsOut(m: Numerics, constraints: seq<Constraint>, budget: Budget, course: seq<seq<Pose>>)
    requires IsCourse(m, constraints, budget, course)
  {
    var rounds := |course| - 1;
    && rounds <= budget.rounds
    && (forall k :: 0 <= k < rounds ==> IsRound(m, constraints, course[k], budget.relaxation, course[k + 1]))
    && (forall k :: 0 <= k < rounds - 1 ==> !MovesLittle(m, course[k], course[k + 1], budget.tolerance))
    && (rounds < budget.rounds ==> rounds > 0 && MovesLittle(m, course[rounds - 1], course[rounds], budget.tolerance))
  }

  lemma {:induction false} RelaxationCourse(m: Numerics, constraints: seq<Constraint>, poses: seq<Pose>, budget: Budget) returns (course: seq<seq<Pose>>)
    requires AreEdges(constraints, |poses|) && Anchored(constraints, |poses|) && budget.tolerance >= 0.0
    ensures IsCourse(m, constraints, budget, course) && course[0] == poses && RunsOut(m, constraints, budget, course)
    ensures (course[|course| - 1], |course| - 1) == Relaxed(m, constraints, poses, budget)
    decreases budget.rounds
  {
    if budget.rounds == 0 {
      course := [poses];
    } else {
      var next, less := Round(m, constraints, poses, budget.relaxation), budget.(rounds := budget.rounds - 1);
      RelaxedNext(m, constraints, poses, budget, next, less);
      RoundFollowsEdges(m, constraints, poses, budget.relaxation);
      DeltaWithinExactly(m, poses, next, budget.tolerance);
      if LargestDelta(m, poses, next) <= budget.tolerance {
        course := [poses, next];
        LastRound(m, constraints, budget, poses, next);
      } else {
        var rest := RelaxationCourse(m, constraints, next, less);
        course := [poses] + rest;
        CourseExtends(m, constraints, budget, poses, rest);
      }
    }
  }

  lemma RelaxedNext(m: Numerics, constraints: seq<Constraint>, poses: seq<Pose>, budget: Budget, next: seq<Pose>, less: Budget)
    requires AreEdges(constraints, |poses|) && budget.rounds > 0
    requires next == Round(m, constraints, poses, budget.relaxation) && less == budget.(rounds := budget.rounds - 1)
    ensures Relaxed(m, constraints, poses, budget)
         == if LargestDelta(m, poses, next) <= budget.tolerance then (next, 1) else After(Relaxed(m, constraints, next, less), 1)
  {
    var round, delta := Rounds(m, constraints, budget.relaxation), Deltas(m);
    RelaxedIs(m, constraints, poses, budget, round, delta);
    IteratedOnce(round, delta, poses, budget.rounds, budget.tolerance);
    RelaxedIs(m, constraints, next, less, round, delta);
    RoundOf(m, constraints, poses, budget.relaxation, next);
  }

  lemma RelaxedIs(m: Numerics, constraints: seq<Constraint>, poses: seq<Pose>, budget: Budget,
                  round: seq<Pose> -> seq<Pose>, delta: (seq<Pose>, seq<Pose>) -> real)
    requires round == Rounds(m, constraints, budget.relaxation) && delta == Deltas(m)
    ensures Relaxed(m, constraints, poses, budget) == Iterated(round, delta, poses, budget.rounds, budget.tolerance)
  {
  }

  lemma RoundOf(m: Numerics, constraints: seq<Constraint>, poses: seq<Pose>, relaxation: real, next: seq<Pose>)
    requires AreEdges(constraints, |poses|) && next == Round(m, constraints, poses, relaxation)
    ensures Rounds(m, constraints, relaxation)(poses) == next && Deltas(m)(poses, next) == LargestDelta(m, poses, next)
  {
  }

  lemma IteratedOnce(round: seq<Pose> -> seq<Pose>, delta: (seq<Pose>, seq<Pose>) -> real, poses: seq<Pose>, rounds: nat, tolerance: real)
    ensures Iterated(round, delta, poses, rounds, tolerance)
         == if rounds == 0 then (poses, 0)
            else if delta(poses, round(poses)) <= tolerance then (round(poses), 1)
            else After(Iterated(round, delta, round(poses), rounds - 1, tolerance), 1)
  {
  }

  lemma LastRound(m: Numerics, constraints: seq<Constraint>, budget: Budget, poses: seq<Pose>, next: seq<Pose>)
    requires budget.rounds > 0 && AreEdges(constraints, |poses|) && |next| == |poses|
    requires IsRound(m, constraints, poses, budget.relaxation, next) && MovesLittle(m, poses, next, budget.tolerance)
    ensures IsCourse(m, constraints, budget, [poses, next]) && RunsOut(m, constraints, budget, [poses, next])
  {
  }

  lemma CourseExtends(m: Numerics, constraints: seq<Constraint>, budget: Budget, poses: seq<Pose>, rest: seq<seq<Pose>>)
    requires budget.rounds > 0 && IsCourse(m, constraints, budget, rest) && |poses| == |rest[0]|
    requires RunsOut(m, constraints, budget.(rounds := budget.rounds - 1), rest)
    requires IsRound(m, constraints, poses, budget.relaxation, rest[0]) && !MovesLittle(m, poses, rest[0], budget.tolerance)
    ensures IsCourse(m, constraints, budget, [poses] + rest) && RunsOut(m, constraints, budget, [poses] + rest)
  {
    var course := [poses] + rest;
    forall k | 0 <= k < |course| - 1 ensures IsRound(m, constraints, course[k], budget.relaxation, course[k + 1]) {
      if k > 0 {
        assert course[k] == rest[k - 1] && course[k + 1] == rest[k];
        assert IsRound(m, constraints, rest[k - 1], budget.relaxation, rest[k - 1 + 1]);
      }
    }
    forall k | 0 <= k < |course| - 2 ensures !MovesLittle(m, course[k], course[k + 1], budget.tolerance) {
      if k > 0 {
        assert course[k] == rest[k - 1] && course[k + 1] == rest[k];
        assert !MovesLittle(m, rest[k - 1], rest[k - 1 + 1], budget.tolerance);
      }
    }
  }

  // ----- what the residual measures -----

  /** How far the two ends of an edge are from where it wants them, squared and weighted: in place, and
      in heading as an arc of unit radius. */
  ghost predicate Misfits(m: Numerics, c: Constraint, poses: seq<Pose>, misfit: real)
    requires IsEdge(c, |poses|)
  {
    exists dx, dy :: IsOffset(m.trig, c, poses, dx, dy) && misfit == MisfitOf(c.weight, dx, dy, ArcGap(m, c, poses))
  }

  /** The offset from the edge's relative pose, seen from its source. */
  ghost predicate IsOffset(trig: Trig, c: Constraint, poses: seq<Pose>, dx: real, dy: real)
    requires IsEdge(c, |poses|)
  {
    var placed := ComposePose(trig, poses[c.source], Pose(c.relative.x + dx, c.relative.y + dy, 0.0));
    placed.x == poses[c.target].x && placed.y == poses[c.target].y
  }

  function ArcGap(m: Numerics, c: Constraint, poses: seq<Pose>): real
    requires IsEdge(c, |poses|)
  {
    Arc(m, AngleDelta(poses[c.target].yaw - poses[c.source].yaw, c.relative.yaw))
  }

  lemma EdgeErrorMisfits(m: Numerics, c: Constraint, poses: seq<Pose>)
    requires m.Lawful() && IsEdge(c, |poses|)
    ensures Misfits(m, c, poses, EdgeError(m, c, poses))
  {
    var s, t := poses[c.source], poses[c.target];
    var actual := RelativePose(m.trig, s, t);
    var (dx, dy) := (actual.x - c.relative.x, actual.y - c.relative.y);
    OffsetFits(m.trig, c, poses, dx, dy);
    RelativeTurn(m.trig, s, t, c.relative.yaw);
    EdgeErrorIs(m, c, poses, dx, dy, AngleDelta(actual.yaw, c.relative.yaw));
    ErrorParts(m, c.weight, dx, dy, AngleDelta(actual.yaw, c.relative.yaw));
  }

  function ErrorOf(m: Numerics, weight: real, dx: real, dy: real, turn: real): real {
    var translation, yaw := m.hypot(dx, dy), turn * m.radian;
    weight * (translation * translation + yaw * yaw)
  }

  lemma EdgeErrorIs(m: Numerics, c: Constraint, poses: seq<Pose>, dx: real, dy: real, turn: real)
    requires IsEdge(c, |poses|)
    requires var actual := RelativePose(m.trig, poses[c.source], poses[c.target]);
      dx == actual.x - c.relative.x && dy == actual.y - c.relative.y && turn == AngleDelta(actual.yaw, c.relative.yaw)
    ensures EdgeError(m, c, poses) == ErrorOf(m, c.weight, dx, dy, turn)
  {
  }

  lemma OffsetFits(trig: Trig, c: Constraint, poses: seq<Pose>, dx: real, dy: real)
    requires trig.Lawful() && IsEdge(c, |poses|)
    requires var actual := RelativePose(trig, poses[c.source], poses[c.target]); dx == actual.x - c.relative.x && dy == actual.y - c.relative.y
    ensures IsOffset(trig, c, poses, dx, dy)
  {
    var s, t := poses[c.source], poses[c.target];
    RelativeRoundTrip(trig, s, t);
    SamePlace(trig, s, RelativePose(trig, s, t), Pose(c.relative.x + dx, c.relative.y + dy, 0.0));
  }

  lemma SamePlace(trig: Trig, s: Pose, p: Pose, q: Pose)
    requires p.x == q.x && p.y == q.y
    ensures ComposePose(trig, s, p).x == ComposePose(trig, s, q).x && ComposePose(trig, s, p).y == ComposePose(trig, s, q).y
  {
  }

  /** The heading of a relative pose is the difference of the headings. */
  lemma RelativeTurn(trig: Trig, s: Pose, t: Pose, yaw: real)
    ensures AngleDelta(RelativePose(trig, s, t).yaw, yaw) == AngleDelta(t.yaw - s.yaw, yaw)
  {
    HeadingSum(-s.yaw, t.yaw);
    assert -s.yaw + t.yaw == t.yaw - s.yaw;
    WrapTwice(Normalize(-s.yaw) + t.yaw);
    SameTurn(RelativePose(trig, s, t).yaw, t.yaw - s.yaw, yaw);
  }

  lemma ErrorParts(m: Numerics, weight: real, dx: real, dy: real, turn: real)
    requires m.Lawful()
    ensures ErrorOf(m, weight, dx, dy, turn) == MisfitOf(weight, dx, dy, Arc(m, turn))
  {
    assert m.HypotAt(dx, dy);
    HypotSquare(m.sqrt, dx, dy);
    assert turn * m.radian == Arc(m, turn);
  }

  /** A turn as an arc of unit radius. */
  function Arc(m: Numerics, turn: real): real { m.radian * turn }

  function MisfitOf(weight: real, dx: real, dy: real, arc: real): real { weight * (dx * dx + dy * dy + arc * arc) }

  ghost predicate AreMisfits(m: Numerics, constraints: seq<Constraint>, poses: seq<Pose>, misfits: seq<real>)
    requires AreEdges(constraints, |poses|)
  {
    |misfits| == |constraints| && forall k :: 0 <= k < |constraints| ==> Misfits(m, constraints[k], poses, misfits[k])
  }

  function SumOf(values: seq<real>): real { if values == [] then 0.0 else SumOf(values[..|values| - 1]) + values[|values| - 1] }

  function WeightsOf(constraints: seq<Constraint>): seq<real> { seq(|constraints|, i requires 0 <= i < |constraints| => constraints[i].weight) }

  /** The residual is the root of the weighted mean misfit, over a total weight of at least one. */
  lemma RmseIsMisfit(m: Numerics, constraints: seq<Constraint>, poses: seq<Pose>) returns (misfits: seq<real>)
    requires m.Lawful() && AreEdges(constraints, |poses|)
    ensures AreMisfits(m, constraints, poses, misfits)
    ensures IsRootMean(Rmse(m, constraints, poses), SumOf(misfits), SumOf(WeightsOf(constraints)))
  {
    misfits := SumMisfits(m, constraints, poses);
    WeightsAddUp(constraints);
    SquaredErrorZeroExactly(m, constraints, poses);
    RootOfMean(m.sqrt, SquaredError(m, constraints, poses), TotalWeight(constraints), Rmse(m, constraints, poses));
  }

  predicate IsRootMean(root: real, sum: real, weight: real) {
    root >= 0.0 && root * root * (if weight < 1.0 then 1.0 else weight) == sum
  }

  lemma RootOfMean(sqrt: real -> real, squared: real, weight: real, root: real)
    requires IsSqrt(sqrt) && squared >= 0.0 && root == sqrt(squared / Greater(weight, 1.0))
    ensures IsRootMean(root, squared, weight)
  {
    var w := Greater(weight, 1.0);
    var mean := squared / w;
    assert mean * w == squared && mean >= 0.0;
    assert root * root == mean;
  }

  lemma {:induction false} WeightsAddUp(constraints: seq<Constraint>)
    ensures SumOf(WeightsOf(constraints)) == TotalWeight(constraints)
  {
    if constraints != [] {
      var init := constraints[..|constraints| - 1];
      WeightsAddUp(init);
      assert WeightsOf(constraints)[..|constraints| - 1] == WeightsOf(init);
    }
  }

  lemma {:induction false} SumMisfits(m: Numerics, constraints: seq<Constraint>, poses: seq<Pose>) returns (misfits: seq<real>)
    requires m.Lawful() && AreEdges(constraints, |poses|)
    ensures AreMisfits(m, constraints, poses, misfits) && SumOf(misfits) == SquaredError(m, constraints, poses)
  {
    misfits := [];
    if constraints != [] {
      var init, last := constraints[..|constraints| - 1], constraints[|constraints| - 1];
      var before := SumMisfits(m, init, poses);
      EdgeErrorMisfits(m, last, poses);
      misfits := before + [EdgeError(m, last, poses)];
      assert misfits[..|before|] == before;
      assert forall k :: 0 <= k < |init| ==> Misfits(m, init[k], poses, before[k]);
    }
  }
}
