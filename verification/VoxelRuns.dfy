/** What every run of frames leaves in the voxel map, counted frame by frame:
    robot_brain/navigation/map_store.py:92-118 and 392-399. */
module VoxelRuns {
  import opened Grid
  import opened VoxelContent

  /** How many frames have hit a voxel since the map last did without it. */
  ghost function HitsWhileStored(run: seq<Observation>, maxVoxels: nat, v: Voxel): nat {
    if run == [] then 0
    else
      var init, last := run[..|run| - 1], run[|run| - 1];
      (if v in AfterRun(init, maxVoxels).hits then HitsWhileStored(init, maxVoxels, v) else 0) + if v in last.touched then 1 else 0
  }

  /** How touching and carving leave a voxel. */
  lemma TouchedAndCarved(c: Content, o: Observation, v: Voxel)
    ensures var carved := Carved(Touched(c, o.touched), o.free, o.carveMisses);
      && (v in carved.hits ==> carved.hits[v] == Get(c.hits, v) + (if v in o.touched then 1 else 0))
      && (o.Valid() ==> (v in carved.hits <==>
            (v in c.hits || v in o.touched) && !(v in o.free && Get(c.misses, v) + 1 >= o.carveMisses)))
  {
    var touched := Touched(c, o.touched);
    if v !in o.touched {
      assert Get(touched.misses, v) == Get(c.misses, v);
    }
  }

  /** How the last frame of a run leaves a voxel that it has not evicted. */
  lemma LastFrame(run: seq<Observation>, maxVoxels: nat, v: Voxel)
    requires run != [] && ValidRun(run)
    ensures var (before, last) := (AfterRun(run[..|run| - 1], maxVoxels), run[|run| - 1]);
      var carved := Carved(Touched(before, last.touched), last.free, last.carveMisses);
      && AfterRun(run, maxVoxels) == Limited(carved, maxVoxels)
      && (v in carved.hits ==> carved.hits[v] == Get(before.hits, v) + (if v in last.touched then 1 else 0))
      && (v in carved.hits <==> (v in before.hits || v in last.touched)
                                && !(v in last.free && Get(before.misses, v) + 1 >= last.carveMisses))
  {
    TouchedAndCarved(AfterRun(run[..|run| - 1], maxVoxels), run[|run| - 1], v);
  }

  /** A stored voxel's count is the number of frames that have hit it while it was stored. */
  lemma {:induction false} HitsAreCounted(run: seq<Observation>, maxVoxels: nat, v: Voxel)
    requires ValidRun(run) && v in AfterRun(run, maxVoxels).hits
    ensures AfterRun(run, maxVoxels).hits[v] == HitsWhileStored(run, maxVoxels, v)
  {
    if run != [] {
      LastFrame(run, maxVoxels, v);
      var init, last := run[..|run| - 1], run[|run| - 1];
      var carved := Carved(Touched(AfterRun(init, maxVoxels), last.touched), last.free, last.carveMisses);
      LimitedSize(carved, maxVoxels);
      LimitedCounts(carved, maxVoxels, v);
      if v in AfterRun(init, maxVoxels).hits {
        HitsAreCounted(init, maxVoxels, v);
      }
    }
  }

  lemma LimitedCounts(c: Content, maxVoxels: nat, v: Voxel)
    requires v in Limited(c, maxVoxels).hits
    ensures v in c.hits && Limited(c, maxVoxels).hits[v] == c.hits[v]
  {
  }

  /** Some frame has seen through a voxel of the column. */
  ghost predicate SeenThrough(run: seq<Observation>, c: Cell) {
    exists k :: 0 <= k < |run| && LooksThrough(run[k], c)
  }

  ghost predicate LooksThrough(o: Observation, c: Cell) {
    exists v :: v in o.free && c == Cell(v.x, v.y)
  }

  lemma FreeOfFrame(c: Content, o: Observation, maxVoxels: nat, column: Cell)
    ensures column in Integrated(c, o, maxVoxels).free <==> column in c.free || LooksThrough(o, column)
  {
    assert Integrated(c, o, maxVoxels).free == c.free + Columns(o.free);
    assert column in Columns(o.free) <==> LooksThrough(o, column);
  }

  /** The columns known free are those of the voxels that some frame has seen through. */
  lemma {:induction false} FreeIsSeenThrough(run: seq<Observation>, maxVoxels: nat, c: Cell)
    ensures c in AfterRun(run, maxVoxels).free <==> SeenThrough(run, c)
  {
    if run != [] {
      var init, last := run[..|run| - 1], run[|run| - 1];
      FreeIsSeenThrough(init, maxVoxels, c);
      FreeOfFrame(AfterRun(init, maxVoxels), last, maxVoxels, c);
      if SeenThrough(init, c) {
        var k :| 0 <= k < |init| && LooksThrough(init[k], c);
        assert LooksThrough(run[k], c);
      }
      if SeenThrough(run, c) {
        var k :| 0 <= k < |run| && LooksThrough(run[k], c);
        assert k < |init| ==> LooksThrough(init[k], c);
      }
    }
  }

  /** Rays have passed through a stored voxel often enough to remove it. */
  ghost predicate IsCarvedAway(run: seq<Observation>, v: Voxel)
    requires run != []
  {
    v in run[|run| - 1].free && PassesSinceHit(run, v) >= run[|run| - 1].carveMisses
  }

  /** The order in which voxels are given up: fewer hits first, and of equals the one that comes
      first by x, then y, then z. */
  predicate GoesBefore(a: Voxel, hitsA: int, b: Voxel, hitsB: int) {
    hitsA < hitsB || (hitsA == hitsB && (a.x < b.x || (a.x == b.x && (a.y < b.y || (a.y == b.y && a.z < b.z)))))
  }

  /** Which voxels a frame leaves. One must have been stored before or be hit now, and rays must not
      have removed it; of those, all stay if there is room, and otherwise exactly the room is
      filled, and whoever is missing goes before whoever stays. */
  lemma StoredExactly(run: seq<Observation>, maxVoxels: nat, v: Voxel)
    requires run != [] && ValidRun(run)
    ensures var (before, last, after) := (AfterRun(run[..|run| - 1], maxVoxels), run[|run| - 1], AfterRun(run, maxVoxels));
      && (v in after.hits ==> (v in before.hits || v in last.touched) && !(v in before.hits && IsCarvedAway(run, v)))
      && ((v in before.hits || v in last.touched) && !(v in before.hits && IsCarvedAway(run, v)) && v !in after.hits ==>
            && |after.hits| == maxVoxels
            && forall u :: u in after.hits ==>
                 GoesBefore(v, HitsWhileStored(run, maxVoxels, v), u, HitsWhileStored(run, maxVoxels, u)))
  {
    var (init, last, after) := (run[..|run| - 1], run[|run| - 1], AfterRun(run, maxVoxels));
    var before := AfterRun(init, maxVoxels);
    var carved := Carved(Touched(before, last.touched), last.free, last.carveMisses);
    LastFrame(run, maxVoxels, v);
    LimitedSize(carved, maxVoxels);
    if v in before.hits {
      MissesCountPasses(init, maxVoxels, v);
    }
    if v in carved.hits && v !in after.hits {
      EvictedLast(run, maxVoxels, v);
    }
  }

  ghost function BeforeLimit(run: seq<Observation>, maxVoxels: nat): Content
    requires run != []
  {
    var last := run[|run| - 1];
    Carved(Touched(AfterRun(run[..|run| - 1], maxVoxels), last.touched), last.free, last.carveMisses)
  }

  lemma CountBeforeLimit(run: seq<Observation>, maxVoxels: nat, v: Voxel)
    requires run != [] && ValidRun(run) && v in BeforeLimit(run, maxVoxels).hits
    ensures BeforeLimit(run, maxVoxels).hits[v] == HitsWhileStored(run, maxVoxels, v)
  {
    LastFrame(run, maxVoxels, v);
    if v in AfterRun(run[..|run| - 1], maxVoxels).hits {
      HitsAreCounted(run[..|run| - 1], maxVoxels, v);
    }
  }

  lemma EvictedLast(run: seq<Observation>, maxVoxels: nat, v: Voxel)
    requires run != [] && ValidRun(run) && v !in AfterRun(run, maxVoxels).hits && v in BeforeLimit(run, maxVoxels).hits
    ensures |AfterRun(run, maxVoxels).hits| == maxVoxels
    ensures forall u :: u in AfterRun(run, maxVoxels).hits ==>
              GoesBefore(v, HitsWhileStored(run, maxVoxels, v), u, HitsWhileStored(run, maxVoxels, u))
  {
    var carved, after := BeforeLimit(run, maxVoxels), AfterRun(run, maxVoxels);
    assert after == Limited(carved, maxVoxels);
    FillsTheRoom(carved, maxVoxels, v);
    CountBeforeLimit(run, maxVoxels, v);
    forall u | u in after.hits ensures GoesBefore(v, HitsWhileStored(run, maxVoxels, v), u, HitsWhileStored(run, maxVoxels, u)) {
      HitsAreCounted(run, maxVoxels, u);
    }
  }

  lemma FillsTheRoom(c: Content, maxVoxels: nat, v: Voxel)
    requires v in c.hits && v !in Limited(c, maxVoxels).hits
    ensures |Limited(c, maxVoxels).hits| == maxVoxels
    ensures forall u :: u in Limited(c, maxVoxels).hits ==> u in c.hits && GoesBefore(v, c.hits[v], u, Limited(c, maxVoxels).hits[u])
  {
    var n := |c.hits| - maxVoxels;
    WeakestExists(c.hits, n);
    SizeWithout(c.hits, Weakest(c.hits, n));
    forall u | u in Limited(c, maxVoxels).hits ensures u in c.hits && GoesBefore(v, c.hits[v], u, Limited(c, maxVoxels).hits[u]) {
      LimitedCounts(c, maxVoxels, u);
      assert Weaker(c.hits, v, u) && u != v;
    }
  }
}
