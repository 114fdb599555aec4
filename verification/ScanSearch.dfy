/** Scan relocalization: robot_brain/navigation/relocalization.py:105-171. */
module ScanSearch {
  import opened RealMath
  import opened Grid
  import opened Poses
  import opened Costmap
  import opened ScanScore

  datatype Candidate = Candidate(score: MatchScore, pose: Pose)

  predicate LowerError(a: Option<real>, b: Option<real>) {
    a.Some? && (b.None? || a.value < b.value)
  }

  /** The tuple order on (fitness, -rmse, inliers). */
  predicate Better(a: MatchScore, b: MatchScore) {
    || a.fitness > b.fitness
    || (a.fitness == b.fitness && (LowerError(a.rmse, b.rmse) || (a.rmse == b.rmse && a.inliers > b.inliers)))
  }

  datatype Matcher = Matcher(sqrt: real -> real, trig: Trig, source: seq<Point>, target: seq<Point>, reach: real)
  {
    function At(pose: Pose): Candidate {
      Candidate(BruteScore(sqrt, trig, source, target, pose, reach), Canonical(pose))
    }
  }

  // ----- the candidates, in the order they are tried -----

  function Row(at: Pose -> Candidate, x: real, y: real, yaws: seq<real>): seq<Candidate> {
    seq(|yaws|, k requires 0 <= k < |yaws| => at(Pose(x, y, yaws[k])))
  }

  function Plane(at: Pose -> Candidate, x: real, ys: seq<real>, yaws: seq<real>): seq<Candidate> {
    if ys == [] then [] else Plane(at, x, ys[..|ys| - 1], yaws) + Row(at, x, ys[|ys| - 1], yaws)
  }

  function Lattice(at: Pose -> Candidate, xs: seq<real>, ys: seq<real>, yaws: seq<real>): seq<Candidate> {
    if xs == [] then [] else Lattice(at, xs[..|xs| - 1], ys, yaws) + Plane(at, xs[|xs| - 1], ys, yaws)
  }

  lemma RowHas(at: Pose -> Candidate, x: real, y: real, yaws: seq<real>, c: Candidate)
    ensures c in Row(at, x, y, yaws) <==> exists yaw :: yaw in yaws && c == at(Pose(x, y, yaw))
  {
    if yaw :| yaw in yaws && c == at(Pose(x, y, yaw)) {
      var k :| 0 <= k < |yaws| && yaws[k] == yaw;
      assert Row(at, x, y, yaws)[k] == c;
    }
  }

  lemma {:induction false} PlaneHas(at: Pose -> Candidate, x: real, ys: seq<real>, yaws: seq<real>, c: Candidate)
    ensures c in Plane(at, x, ys, yaws) <==> exists y, yaw :: y in ys && yaw in yaws && c == at(Pose(x, y, yaw))
  {
    if ys != [] {
      var init, last := ys[..|ys| - 1], ys[|ys| - 1];
      PlaneHas(at, x, init, yaws, c);
      assert ys == init + [last];
      RowHas(at, x, last, yaws, c);
    }
  }

  /** Every combination of the three axes is tried, and nothing else. */
  lemma {:induction false} LatticeHas(at: Pose -> Candidate, xs: seq<real>, ys: seq<real>, yaws: seq<real>, c: Candidate)
    ensures c in Lattice(at, xs, ys, yaws)
       <==> exists x, y, yaw :: x in xs && y in ys && yaw in yaws && c == at(Pose(x, y, yaw))
  {
    if xs != [] {
      var init, last := xs[..|xs| - 1], xs[|xs| - 1];
      LatticeHas(at, init, ys, yaws, c);
      PlaneHas(at, last, ys, yaws, c);
      assert xs == init + [last];
    }
  }

  lemma {:induction false} PlaneCount(at: Pose -> Candidate, x: real, ys: seq<real>, yaws: seq<real>)
    ensures |Plane(at, x, ys, yaws)| == |ys| * |yaws|
  {
    if ys != [] {
      PlaneCount(at, x, ys[..|ys| - 1], yaws);
      OneMore(|ys| - 1, |yaws|);
    }
  }

  lemma {:induction false} LatticeCount(at: Pose -> Candidate, xs: seq<real>, ys: seq<real>, yaws: seq<real>)
    ensures |Lattice(at, xs, ys, yaws)| == |xs| * |ys| * |yaws|
  {
    if xs != [] {
      LatticeCount(at, xs[..|xs| - 1], ys, yaws);
      PlaneCount(at, xs[|xs| - 1], ys, yaws);
      OneMore(|xs| - 1, |ys| * |yaws|);
      ProductsAssociate(|xs| - 1, |ys|, |yaws|);
      ProductsAssociate(|xs|, |ys|, |yaws|);
    }
  }

  lemma OneMore(a: nat, b: nat)
    ensures a * b + b == (a + 1) * b
  {
  }

  lemma ProductsAssociate(a: nat, b: nat, c: nat)
    ensures a * b * c == a * (b * c)
  {
  }

  // ----- keeping the best -----

  lemma BetterChain(a: MatchScore, b: MatchScore, c: MatchScore)
    requires !Better(a, b) && (c == b || Better(c, b))
    ensures !Better(a, c)
  {
  }

  lemma BetterTransitive(a: MatchScore, b: MatchScore, c: MatchScore)
    requires Better(a, b) && Better(b, c)
    ensures Better(a, c)
  {
  }

  lemma BetterIrreflexive(a: MatchScore)
    ensures !Better(a, a)
  {
  }

  /** The first of the best, after a candidate that came before all of them. */
  function Champion(prior: Option<Candidate>, tried: seq<Candidate>): Option<Candidate> {
    if tried == [] then prior
    else
      var best, last := Champion(prior, tried[..|tried| - 1]), tried[|tried| - 1];
      if best.None? || Better(last.score, best.value.score) then Some(last) else best
  }

  /** No earlier candidate, and none tried later, is better. */
  lemma {:induction false} ChampionIsBest(prior: Option<Candidate>, tried: seq<Candidate>)
    ensures Champion(prior, tried).None? <==> prior.None? && tried == []
    ensures Champion(prior, tried).Some? ==> IsBestOf(prior, tried, Champion(prior, tried).value)
  {
    if tried != [] {
      var init, last := tried[..|tried| - 1], tried[|tried| - 1];
      ChampionIsBest(prior, init);
      ChampionNext(prior, Champion(prior, init), init, last);
      assert tried == init + [last];
    }
  }

  ghost predicate IsBestOf(prior: Option<Candidate>, tried: seq<Candidate>, best: Candidate) {
    && (prior == Some(best) || best in tried)
    && (prior.Some? ==> prior == Some(best) || Better(best.score, prior.value.score))
    && (forall c :: c in tried ==> !Better(c.score, best.score))
  }

  lemma ChampionNext(prior: Option<Candidate>, before: Option<Candidate>, init: seq<Candidate>, last: Candidate)
    requires if before.None? then prior.None? && init == [] else IsBestOf(prior, init, before.value)
    ensures IsBestOf(prior, init + [last], if before.None? || Better(last.score, before.value.score) then last else before.value)
  {
    var best := if before.None? || Better(last.score, before.value.score) then last else before.value;
    BetterIrreflexive(last.score);
    forall c | c in init + [last] ensures !Better(c.score, best.score) {
      if c in init && best == last {
        BetterChain(c.score, before.value.score, last.score);
      }
    }
    if before.Some? && best == last && prior.Some? && prior != before && Better(last.score, before.value.score) {
      BetterTransitive(last.score, before.value.score, prior.value.score);
    }
  }

  /** A candidate in the list that ties the champion came after it. */
  lemma {:induction false} ChampionIsFirst(tried: seq<Candidate>)
    requires tried != []
    ensures exists k :: 0 <= k < |tried| && Champion(None, tried) == Some(tried[k])
                        && forall i :: 0 <= i < k ==> Better(tried[k].score, tried[i].score)
  {
    var init, last := tried[..|tried| - 1], tried[|tried| - 1];
    ChampionIsBest(None, init);
    if init == [] {
      assert Champion(None, tried) == Some(tried[0]);
    } else {
      ChampionIsFirst(init);
      var k :| 0 <= k < |init| && Champion(None, init) == Some(init[k])
               && forall i :: 0 <= i < k ==> Better(init[k].score, init[i].score);
      if Better(last.score, init[k].score) {
        forall i | 0 <= i < |init| ensures Better(last.score, tried[i].score) {
          assert tried[i] == init[i];
        }
        assert tried[|init|] == last;
      } else {
        assert tried[k] == init[k];
      }
    }
  }

  lemma ChampionContinues(prior: Option<Candidate>, before: seq<Candidate>, c: Candidate)
    ensures Champion(prior, before + [c])
         == var best := Champion(prior, before); if best.None? || Better(c.score, best.value.score) then Some(c) else best
  {
    var all := before + [c];
    assert all[..|all| - 1] == before;
  }

  ghost predicate Agrees(at: Pose -> Candidate, m: Matcher, pose: Pose) { at(pose) == m.At(pose) }

  method Try(m: Matcher, ghost at: Pose -> Candidate, index: SpatialIndex, pose: Pose) returns (candidate: Candidate)
    requires m.reach > 0.0 && Indexes(index, m.target, m.reach)
    requires forall p :: Agrees(at, m, p)
    ensures candidate == at(pose)
  {
    var score := Score(m.sqrt, m.trig, m.source, index, pose, m.reach, m.target);
    candidate := Candidate(score, Canonical(pose));
    assert Agrees(at, m, pose);
  }

  /** Three nested loops over the axes. */
  method Sweep(m: Matcher, ghost at: Pose -> Candidate, index: SpatialIndex, prior: Option<Candidate>, xs: seq<real>, ys: seq<real>, yaws: seq<real>)
    returns (best: Option<Candidate>, evaluated: nat)
    requires m.reach > 0.0 && Indexes(index, m.target, m.reach)
    requires forall pose :: Agrees(at, m, pose)
    ensures best == Champion(prior, Lattice(at, xs, ys, yaws))
    ensures evaluated == |Lattice(at, xs, ys, yaws)|
  {
    best, evaluated := prior, 0;
    for i := 0 to |xs|
      invariant best == Champion(prior, Lattice(at, xs[..i], ys, yaws))
      invariant evaluated == |Lattice(at, xs[..i], ys, yaws)|
    {
      ghost var before := Lattice(at, xs[..i], ys, yaws);
      assert xs[..i + 1][..i] == xs[..i];
      var more: nat;
      best, more := SweepPlane(m, at, index, prior, before, best, xs[i], ys, yaws);
      evaluated := evaluated + more;
    }
    assert xs[..|xs|] == xs;
  }

  method SweepPlane(m: Matcher, ghost at: Pose -> Candidate, index: SpatialIndex, ghost prior: Option<Candidate>, ghost before: seq<Candidate>,
                    start: Option<Candidate>, x: real, ys: seq<real>, yaws: seq<real>) returns (best: Option<Candidate>, evaluated: nat)
    requires m.reach > 0.0 && Indexes(index, m.target, m.reach)
    requires (forall pose :: Agrees(at, m, pose)) && start == Champion(prior, before)
    ensures best == Champion(prior, before + Plane(at, x, ys, yaws)) && evaluated == |Plane(at, x, ys, yaws)|
  {
    best, evaluated := start, 0;
    assert before + Plane(at, x, ys[..0], yaws) == before;
    for j := 0 to |ys|
      invariant best == Champion(prior, before + Plane(at, x, ys[..j], yaws)) && evaluated == |Plane(at, x, ys[..j], yaws)|
    {
      ghost var rows := before + Plane(at, x, ys[..j], yaws);
      assert ys[..j + 1][..j] == ys[..j];
      var more: nat;
      best, more := SweepRow(m, at, index, prior, rows, best, x, ys[j], yaws);
      evaluated := evaluated + more;
      assert before + Plane(at, x, ys[..j + 1], yaws) == rows + Row(at, x, ys[j], yaws);
    }
    assert ys[..|ys|] == ys;
  }

  lemma RowContinues(at: Pose -> Candidate, prior: Option<Candidate>, before: seq<Candidate>, x: real, y: real, yaws: seq<real>, k: nat)
    requires k < |yaws|
    ensures Champion(prior, before + Row(at, x, y, yaws[..k + 1]))
         == var best, c := Champion(prior, before + Row(at, x, y, yaws[..k])), at(Pose(x, y, yaws[k]));
            if best.None? || Better(c.score, best.value.score) then Some(c) else best
  {
    var c := at(Pose(x, y, yaws[k]));
    assert Row(at, x, y, yaws[..k + 1]) == Row(at, x, y, yaws[..k]) + [c];
    assert before + (Row(at, x, y, yaws[..k]) + [c]) == before + Row(at, x, y, yaws[..k]) + [c];
    ChampionContinues(prior, before + Row(at, x, y, yaws[..k]), c);
  }

  method SweepRow(m: Matcher, ghost at: Pose -> Candidate, index: SpatialIndex, ghost prior: Option<Candidate>, ghost before: seq<Candidate>,
                  start: Option<Candidate>, x: real, y: real, yaws: seq<real>) returns (best: Option<Candidate>, evaluated: nat)
    requires m.reach > 0.0 && Indexes(index, m.target, m.reach)
    requires (forall pose :: Agrees(at, m, pose)) && start == Champion(prior, before)
    ensures best == Champion(prior, before + Row(at, x, y, yaws)) && evaluated == |yaws|
  {
    best, evaluated := start, 0;
    assert before + Row(at, x, y, yaws[..0]) == before;
    for k := 0 to |yaws|
      invariant best == Champion(prior, before + Row(at, x, y, yaws[..k])) && evaluated == k
    {
      var candidate := Try(m, at, index, Pose(x, y, yaws[k]));
      evaluated := evaluated + 1;
      RowContinues(at, prior, before, x, y, yaws, k);
      if best.None? || Better(candidate.score, best.value.score) {
        best := Some(candidate);
      }
    }
    assert yaws[..|yaws|] == yaws;
  }

  // ----- the search -----

  datatype Relocalization = Relocalization(
    accepted: bool, pose: Option<Pose>, fitness: real, rmse: Option<real>, inliers: nat,
    sourceCount: nat, evaluated: nat, mode: string, reason: string)

  datatype Request = Request(
    reference: seq<Point3>, cloud: seq<Point3>, cloudFrame: string, resolution: real,
    xs: seq<real>, ys: seq<real>, yaws: seq<real>, reach: real,
    minFitness: real, maxRmse: real, minPoints: int, mode: string, refine: bool)
  {
    predicate Valid() { resolution > 0.0 && reach > 0.0 }

    function Scans(sqrt: real -> real, trig: Trig): Matcher
      requires Valid()
    {
      Matcher(sqrt, trig, Thinned(PlanarPoints(cloud, -0.2, 1.8), resolution, 500),
                      Thinned(PlanarPoints(reference, -0.2, 1.8), resolution, 10000), reach)
    }
  }

  function Rejected(reason: string, mode: string, sourceCount: nat, evaluated: nat): Relocalization {
    Relocalization(false, None, 0.0, None, 0, sourceCount, evaluated, mode, reason)
  }

  function Steps(center: real, step: real): seq<real> { [center + -step, center + 0.0, center + step] }

  function Nearby(at: Pose -> Candidate, center: Pose, step: real, yawStep: real): seq<Candidate> {
    Lattice(at, Steps(center.x, step), Steps(center.y, step), Steps(center.yaw, yawStep))
  }

  function FirstNearby(at: Pose -> Candidate, r: Request, center: Candidate): seq<Candidate> {
    Nearby(at, center.pose, Greater(r.resolution, 0.10), 5.0)
  }

  function SecondNearby(at: Pose -> Candidate, r: Request, center: Candidate): seq<Candidate> {
    Nearby(at, center.pose, Greater(r.resolution / 2.0, 0.05), 2.0)
  }

  /** The best coarse candidate, then twice the best of it and its neighbours. */
  function Searched(at: Pose -> Candidate, r: Request): Option<Candidate> {
    var coarse := Champion(None, Lattice(at, r.xs, r.ys, r.yaws));
    if coarse.None? || !r.refine then coarse
    else Polished(at, r, coarse.value)
  }

  function Polished(at: Pose -> Candidate, r: Request, coarse: Candidate): Option<Candidate> {
    var fine := Champion(Some(coarse), FirstNearby(at, r, coarse));
    if fine.None? then fine else Champion(fine, SecondNearby(at, r, fine.value))
  }

  /** The outcome is one of the placements that were scored. */
  lemma SearchedIsPlaced(at: Pose -> Candidate, r: Request)
    ensures Searched(at, r).Some? ==> IsPlaced(at, Searched(at, r).value)
  {
    var coarse := Champion(None, Lattice(at, r.xs, r.ys, r.yaws));
    ChampionIsPlaced(at, None, r.xs, r.ys, r.yaws);
    if coarse.Some? && r.refine {
      var (step, p) := (Greater(r.resolution, 0.10), coarse.value.pose);
      ChampionIsPlaced(at, coarse, Steps(p.x, step), Steps(p.y, step), Steps(p.yaw, 5.0));
      var fine := Champion(coarse, Nearby(at, p, step, 5.0));
      if fine.Some? {
        var (half, q) := (Greater(r.resolution / 2.0, 0.05), fine.value.pose);
        ChampionIsPlaced(at, fine, Steps(q.x, half), Steps(q.y, half), Steps(q.yaw, 2.0));
      }
    }
  }

  ghost predicate IsPlaced(at: Pose -> Candidate, c: Candidate) { exists pose :: c == at(pose) }

  lemma ChampionIsPlaced(at: Pose -> Candidate, prior: Option<Candidate>, xs: seq<real>, ys: seq<real>, yaws: seq<real>)
    requires prior.Some? ==> IsPlaced(at, prior.value)
    ensures Champion(prior, Lattice(at, xs, ys, yaws)).Some? ==> IsPlaced(at, Champion(prior, Lattice(at, xs, ys, yaws)).value)
  {
    var best := Champion(prior, Lattice(at, xs, ys, yaws));
    ChampionIsBest(prior, Lattice(at, xs, ys, yaws));
    if best.Some? && prior != best {
      LatticeHas(at, xs, ys, yaws, best.value);
    }
  }

  /** No coarse or refined candidate would have been better. */
  lemma SearchedIsBest(at: Pose -> Candidate, r: Request, c: Candidate)
    requires Searched(at, r).Some?
    ensures var best := Searched(at, r).value;
      && (c in Lattice(at, r.xs, r.ys, r.yaws) ==> !Better(c.score, best.score))
      && (r.refine ==>
            var coarse := Champion(None, Lattice(at, r.xs, r.ys, r.yaws));
            && coarse.Some?
            && (c in FirstNearby(at, r, coarse.value) ==> !Better(c.score, best.score))
            && var fine := Champion(coarse, FirstNearby(at, r, coarse.value));
            && fine.Some?
            && (c in SecondNearby(at, r, fine.value) ==> !Better(c.score, best.score)))
  {
    var best := Searched(at, r).value;
    var coarse := Champion(None, Lattice(at, r.xs, r.ys, r.yaws));
    ChampionIsBest(None, Lattice(at, r.xs, r.ys, r.yaws));
    if r.refine {
      ChampionIsBest(coarse, FirstNearby(at, r, coarse.value));
      var fine := Champion(coarse, FirstNearby(at, r, coarse.value));
      ChampionIsBest(fine, SecondNearby(at, r, fine.value));
      if c in FirstNearby(at, r, coarse.value) {
        BetterChain(c.score, fine.value.score, best.score);
      }
      if c in Lattice(at, r.xs, r.ys, r.yaws) {
        BetterChain(c.score, coarse.value.score, fine.value.score);
        BetterChain(c.score, fine.value.score, best.score);
      }
    }
  }

  /** The reported fitness, error and inlier count are those of the reported pose. */
  lemma ReportedPoseScores(m: Matcher, r: Request)
    requires m.trig.Lawful() && Searched(m.At, r).Some?
    ensures var best := Searched(m.At, r).value; m.At(best.pose) == best
  {
    SearchedIsPlaced(m.At, r);
    var pose :| Searched(m.At, r).value == m.At(pose);
    CanonicalScore(m, pose);
  }

  /** Wrapping the yaw of a placement does not change its score. */
  lemma CanonicalScore(m: Matcher, pose: Pose)
    requires m.trig.Lawful()
    ensures m.At(Canonical(pose)) == m.At(pose)
  {
    NormalizedTrig(m.trig, pose.yaw);
    assert Placed(m.trig, Canonical(pose), m.source) == Placed(m.trig, pose, m.source);
    HeadingSum(0.0, pose.yaw);
    assert 0.0 + pose.yaw == pose.yaw && 0.0 + Normalize(pose.yaw) == Normalize(pose.yaw);
  }

  predicate Reaches(r: Request, score: MatchScore) {
    score.fitness >= r.minFitness && score.inliers != 0 && score.rmse.Some? && score.rmse.value <= r.maxRmse
  }

  /** What the search reports of its outcome. */
  ghost predicate IsReport(r: Request, best: Candidate, result: Relocalization) {
    && (result.accepted <==> Reaches(r, best.score))
    && result.pose == (if result.accepted then Some(best.pose) else None)
    && result.fitness == best.score.fitness && result.inliers == best.score.inliers
    && result.rmse == (if result.inliers != 0 then best.score.rmse else None)
    && result.reason == SearchReason(r, best.score) && result.mode == r.mode
  }

  /** The three ways the search can end once it has a best candidate. */
  function SearchReason(r: Request, score: MatchScore): string {
    if Reaches(r, score) then "accepted"
    else if score.fitness < r.minFitness then "fitness_below_threshold" else "rmse_above_threshold"
  }

  method Search(sqrt: real -> real, trig: Trig, r: Request) returns (result: Relocalization)
    requires r.Valid()
    ensures r.cloudFrame !in BODY_FRAMES ==> result == Rejected("untrusted_local_cloud_frame", r.mode, 0, 0)
    ensures var points := |PlanarPoints(r.cloud, -0.2, 1.8)|;
      r.cloudFrame in BODY_FRAMES ==>
        if points < r.minPoints then result == Rejected("insufficient_local_points", r.mode, points, 0)
        else if |PlanarPoints(r.reference, -0.2, 1.8)| < r.minPoints then
          result == Rejected("insufficient_reference_points", r.mode, points, 0)
        else
          var m := r.Scans(sqrt, trig);
          var best := Searched(m.At, r);
          if best.None? then result == Rejected("no_candidates", r.mode, |m.source|, 0)
          else
            && IsReport(r, best.value, result)
            && result.sourceCount == |m.source|
            && result.evaluated == |r.xs| * |r.ys| * |r.yaws| + if r.refine then 54 else 0
  {
    if r.cloudFrame !in BODY_FRAMES {
      return Rejected("untrusted_local_cloud_frame", r.mode, 0, 0);
    }
    var source := PlanarPoints(r.cloud, -0.2, 1.8);
    var target := PlanarPoints(r.reference, -0.2, 1.8);
    if |source| < r.minPoints {
      return Rejected("insufficient_local_points", r.mode, |source|, 0);
    }
    if |target| < r.minPoints {
      return Rejected("insufficient_reference_points", r.mode, |source|, 0);
    }
    source := Downsample(source, r.resolution, 500);
    target := Downsample(target, r.resolution, 10000);
    var index := MakeSpatialIndex(target, r.reach);
    var m := Matcher(sqrt, trig, source, target, r.reach);
    var best, evaluated := SearchAll(m, m.At, index, r);
    if best.None? {
      return Rejected("no_candidates", r.mode, |source|, evaluated);
    }
    result := Report(m, r, best.value, evaluated);
  }

  method SearchAll(m: Matcher, ghost at: Pose -> Candidate, index: SpatialIndex, r: Request)
    returns (best: Option<Candidate>, evaluated: nat)
    requires r.Valid() && m.reach > 0.0 && Indexes(index, m.target, m.reach)
    requires forall pose :: Agrees(at, m, pose)
    ensures best == Searched(at, r) && (best.Some? ==> IsPlaced(at, best.value))
    ensures best.None? ==> evaluated == 0
    ensures best.Some? ==> evaluated == |r.xs| * |r.ys| * |r.yaws| + if r.refine then 54 else 0
  {
    best, evaluated := Sweep(m, at, index, None, r.xs, r.ys, r.yaws);
    LatticeCount(at, r.xs, r.ys, r.yaws);
    ChampionIsBest(None, Lattice(at, r.xs, r.ys, r.yaws));
    if best.Some? && r.refine {
      var more: nat;
      best, more := Polish(m, at, index, best.value, r);
      evaluated := evaluated + more;
    }
    SearchedIsPlaced(at, r);
  }

  method Polish(m: Matcher, ghost at: Pose -> Candidate, index: SpatialIndex, coarse: Candidate, r: Request)
    returns (best: Option<Candidate>, evaluated: nat)
    requires r.Valid() && m.reach > 0.0 && Indexes(index, m.target, m.reach)
    requires forall pose :: Agrees(at, m, pose)
    ensures best == Polished(at, r, coarse) && evaluated == 54
  {
    var fine, first := Refine(m, at, index, coarse, Greater(r.resolution, 0.10), 5.0);
    best, evaluated := Refine(m, at, index, fine.value, Greater(r.resolution / 2.0, 0.05), 2.0);
    evaluated := first + evaluated;
  }

  method Refine(m: Matcher, ghost at: Pose -> Candidate, index: SpatialIndex, center: Candidate, step: real, yawStep: real)
    returns (best: Option<Candidate>, evaluated: nat)
    requires m.reach > 0.0 && Indexes(index, m.target, m.reach)
    requires forall pose :: Agrees(at, m, pose)
    ensures best == Champion(Some(center), Nearby(at, center.pose, step, yawStep)) && best.Some?
    ensures evaluated == 27
  {
    best, evaluated := Sweep(m, at, index, Some(center),
                             Steps(center.pose.x, step), Steps(center.pose.y, step), Steps(center.pose.yaw, yawStep));
    ChampionIsBest(Some(center), Nearby(at, center.pose, step, yawStep));
    LatticeCount(at, Steps(center.pose.x, step), Steps(center.pose.y, step), Steps(center.pose.yaw, yawStep));
  }

  method Report(m: Matcher, r: Request, best: Candidate, evaluated: nat) returns (result: Relocalization)
    requires IsPlaced(m.At, best)
    ensures IsReport(r, best, result) && result.sourceCount == |m.source| && result.evaluated == evaluated
  {
    var score := best.score;
    var rmse := if score.inliers != 0 then score.rmse else None;
    var accepted := score.fitness >= r.minFitness && rmse.Some? && rmse.value <= r.maxRmse;
    var reason := if accepted then "accepted"
                  else if score.fitness < r.minFitness then "fitness_below_threshold" else "rmse_above_threshold";
    result := Relocalization(accepted, if accepted then Some(best.pose) else None, score.fitness, rmse,
                             score.inliers, |m.source|, evaluated, r.mode, reason);
  }
}
