/** What one frame does to the sparse voxel map of robot_brain/navigation/map_store.py, and what
    every run of frames keeps. */
module VoxelContent {
  import opened Grid
  import opened Heap
  import opened Sorting

  datatype Voxel = Voxel(x: int, y: int, z: int)

  /** The part of the map that frames change. */
  datatype Content = Content(hits: map<Voxel, int>, misses: map<Voxel, int>, free: set<Cell>)

  /** One frame: the voxels its points fall into, the voxels its rays only pass through, and the
      number of such passes that removes a voxel. Without carving `free` is empty. */
  datatype Observation = Observation(touched: set<Voxel>, free: set<Voxel>, carveMisses: int)
  {
    /** Rays come from points, and a touched voxel is not carved. */
    ghost predicate Valid() {
      free !! touched && (touched == {} ==> free == {})
    }
  }

  predicate VoxelNotAfter(a: Voxel, b: Voxel) {
    a.x < b.x || (a.x == b.x && (a.y < b.y || (a.y == b.y && a.z <= b.z)))
  }

  lemma VoxelNotAfterIsTotal()
    ensures TotalOrder(VoxelNotAfter) && Antisymmetric(VoxelNotAfter)
  {
  }

  function Get(m: map<Voxel, int>, v: Voxel): int {
    if v in m then m[v] else 0
  }

  function Column(v: Voxel): Cell { Cell(v.x, v.y) }

  function Columns(voxels: set<Voxel>): set<Cell> { set v | v in voxels :: Column(v) }

  ghost predicate ValidContent(c: Content, maxVoxels: int) {
    ValidCounts(c) && |c.hits| <= maxVoxels
  }

  ghost predicate ValidCounts(c: Content) {
    && c.misses.Keys <= c.hits.Keys
    && (forall v :: v in c.hits ==> c.hits[v] >= 1) && forall v :: v in c.misses ==> c.misses[v] >= 1
  }

  /** Every touched voxel is hit once more and forgets its misses. */
  function Touched(c: Content, touched: set<Voxel>): Content {
    Content(map v | v in c.hits.Keys + touched :: Get(c.hits, v) + (if v in touched then 1 else 0),
            c.misses - touched, c.free)
  }

  /** A voxel that this pass removes. */
  predicate Carves(c: Content, carveMisses: int, v: Voxel) {
    v in c.hits && Get(c.misses, v) + 1 >= carveMisses
  }

  /** Every occupied voxel that rays pass through is missed once more, or removed. */
  function Carved(c: Content, free: set<Voxel>, carveMisses: int): Content {
    var gone := set v | v in free && Carves(c, carveMisses, v);
    var kept := c.hits - gone;
    Content(kept,
            map v | v in c.misses.Keys + (free * c.hits.Keys) && v !in gone :: Get(c.misses, v) + (if v in free then 1 else 0),
            c.free + Columns(free))
  }

  /** `a` is evicted before `b`: fewer hits first, then the lesser voxel. */
  predicate Weaker(hits: map<Voxel, int>, a: Voxel, b: Voxel) {
    Get(hits, a) < Get(hits, b) || (Get(hits, a) == Get(hits, b) && VoxelNotAfter(a, b))
  }

  ghost predicate IsWeakest(hits: map<Voxel, int>, n: int, victims: set<Voxel>) {
    && victims <= hits.Keys && |victims| == n
    && forall v, u :: v in victims && u in hits && u !in victims ==> Weaker(hits, v, u)
  }

  /** The bound on the map size leaves no choice which voxels go. */
  lemma WeakestIsUnique(hits: map<Voxel, int>, n: int, a: set<Voxel>, b: set<Voxel>)
    requires IsWeakest(hits, n, a) && IsWeakest(hits, n, b)
    ensures a == b
  {
    if a <= b {
      SubsetOfSameSize(a, b);
    } else {
      var x :| x in a && x !in b;
      forall y | y in b ensures y in a {
        assert y !in a ==> Weaker(hits, x, y) && Weaker(hits, y, x);
      }
      SubsetOfSameSize(b, a);
    }
  }

  lemma SubsetOfSameSize(a: set<Voxel>, b: set<Voxel>)
    requires a <= b && |a| == |b|
    ensures a == b
  {
    assert |b - a| == |b| - |a|;
  }

  ghost function Weakest(hits: map<Voxel, int>, n: nat): set<Voxel>
    requires n <= |hits|
  {
    WeakestExists(hits, n);
    var victims :| IsWeakest(hits, n, victims);
    victims
  }

  lemma WeakerIsTotal(hits: map<Voxel, int>)
    ensures TotalOrder((a, b) => Weaker(hits, a, b))
  {
  }

  lemma {:induction false} WeakestExists(hits: map<Voxel, int>, n: nat)
    requires n <= |hits|
    ensures exists victims :: IsWeakest(hits, n, victims)
  {
    if n == 0 {
      assert IsWeakest(hits, 0, {});
    } else {
      WeakestExists(hits, n - 1);
      var fewer :| IsWeakest(hits, n - 1, fewer);
      assert |hits.Keys - fewer| == |hits.Keys| - |fewer| && |hits.Keys| == |hits|;
      assert hits.Keys - fewer != {};
      var le := (a, b) => Weaker(hits, a, b);
      WeakerIsTotal(hits);
      LeastExists(le, hits.Keys - fewer);
      var next :| IsLeast(le, next, hits.Keys - fewer);
      forall v, u | v in fewer + {next} && u in hits && u !in fewer + {next} ensures Weaker(hits, v, u) {
        assert v == next ==> le(next, u);
      }
      assert IsWeakest(hits, n, fewer + {next});
    }
  }

  ghost function Limited(c: Content, maxVoxels: nat): Content {
    if |c.hits| <= maxVoxels then c
    else
      var victims := Weakest(c.hits, |c.hits| - maxVoxels);
      Content(c.hits - victims, c.misses - victims, c.free)
  }

  /** The map after one frame. */
  ghost function Integrated(c: Content, o: Observation, maxVoxels: nat): Content {
    Limited(Carved(Touched(c, o.touched), o.free, o.carveMisses), maxVoxels)
  }

  lemma SizeWithout(m: map<Voxel, int>, gone: set<Voxel>)
    requires gone <= m.Keys
    ensures |m - gone| == |m| - |gone|
  {
    assert (m - gone).Keys == m.Keys - gone;
    assert |m.Keys| == |m| && |(m - gone).Keys| == |m - gone|;
  }

  lemma LimitedSize(c: Content, maxVoxels: nat)
    ensures |Limited(c, maxVoxels).hits| <= maxVoxels
    ensures Limited(c, maxVoxels).hits.Keys <= c.hits.Keys
  {
    if |c.hits| > maxVoxels {
      WeakestExists(c.hits, |c.hits| - maxVoxels);
      SizeWithout(c.hits, Weakest(c.hits, |c.hits| - maxVoxels));
    }
  }

  lemma TouchedValid(c: Content, touched: set<Voxel>)
    requires ValidCounts(c)
    ensures ValidCounts(Touched(c, touched))
  {
  }

  lemma CarvedValid(c: Content, free: set<Voxel>, carveMisses: int)
    requires ValidCounts(c)
    ensures ValidCounts(Carved(c, free, carveMisses))
  {
  }

  lemma LimitedValid(c: Content, maxVoxels: nat)
    requires ValidCounts(c)
    ensures ValidCounts(Limited(c, maxVoxels))
  {
  }

  /** Every frame keeps the map valid: misses only of stored voxels, positive counts, bounded size. */
  lemma IntegratedValid(c: Content, o: Observation, maxVoxels: nat)
    requires ValidCounts(c)
    ensures ValidContent(Integrated(c, o, maxVoxels), maxVoxels)
  {
    var touched := Touched(c, o.touched);
    var carved := Carved(touched, o.free, o.carveMisses);
    TouchedValid(c, o.touched);
    CarvedValid(touched, o.free, o.carveMisses);
    LimitedValid(carved, maxVoxels);
    LimitedSize(carved, maxVoxels);
  }

  /** A frame without a single valid point changes nothing, so counting only the other frames
      gives every content change a new generation. */
  lemma UntouchedIsUnchanged(c: Content, o: Observation, maxVoxels: nat)
    requires ValidContent(c, maxVoxels) && o.Valid() && o.touched == {}
    ensures Integrated(c, o, maxVoxels) == c
  {
    TouchNothing(c);
    CarveNothing(c, o.carveMisses);
  }

  lemma TouchNothing(c: Content)
    ensures Touched(c, {}) == c
  {
  }

  lemma CarveNothing(c: Content, carveMisses: int)
    requires ValidCounts(c)
    ensures Carved(c, {}, carveMisses) == c
  {
    assert Carved(c, {}, carveMisses).misses == c.misses;
  }

  /** A run of frames from the empty map. */
  ghost function AfterRun(run: seq<Observation>, maxVoxels: nat): Content {
    if run == [] then Content(map[], map[], {})
    else Integrated(AfterRun(run[..|run| - 1], maxVoxels), run[|run| - 1], maxVoxels)
  }

  ghost predicate ValidRun(run: seq<Observation>) {
    forall i :: 0 <= i < |run| ==> run[i].Valid()
  }

  /** How many frames have passed rays through `v` since the last frame that hit it. */
  ghost function PassesSinceHit(run: seq<Observation>, v: Voxel): nat {
    if run == [] then 0
    else
      var last := run[|run| - 1];
      if v in last.touched then 0
      else PassesSinceHit(run[..|run| - 1], v) + if v in last.free then 1 else 0
  }

  lemma {:induction false} RunValid(run: seq<Observation>, maxVoxels: nat)
    requires ValidRun(run)
    ensures ValidContent(AfterRun(run, maxVoxels), maxVoxels)
  {
    if run != [] {
      RunValid(run[..|run| - 1], maxVoxels);
      IntegratedValid(AfterRun(run[..|run| - 1], maxVoxels), run[|run| - 1], maxVoxels);
    }
  }

  /** Over every run, the miss counter of a stored voxel is exactly the number of frames that
      passed through it since its last hit. */
  lemma {:induction false} MissesCountPasses(run: seq<Observation>, maxVoxels: nat, v: Voxel)
    requires ValidRun(run)
    requires v in AfterRun(run, maxVoxels).hits
    ensures Get(AfterRun(run, maxVoxels).misses, v) == PassesSinceHit(run, v)
  {
    if run != [] {
      var init, last := run[..|run| - 1], run[|run| - 1];
      RunValid(init, maxVoxels);
      var before := AfterRun(init, maxVoxels);
      var touched := Touched(before, last.touched);
      var carved := Carved(touched, last.free, last.carveMisses);
      LimitedSize(carved, maxVoxels);
      LimitedMisses(carved, maxVoxels, v);
      if v !in last.touched {
        MissesCountPasses(init, maxVoxels, v);
      }
    }
  }

  lemma LimitedMisses(c: Content, maxVoxels: nat, v: Voxel)
    requires v in Limited(c, maxVoxels).hits
    ensures v in c.hits && Get(Limited(c, maxVoxels).misses, v) == Get(c.misses, v)
  {
  }

  /** A voxel leaves the map only in one of two ways: rays have passed through it often enough
      since its last hit, or the map was full and no voxel that stays is weaker. */
  lemma LeavesForAReason(run: seq<Observation>, o: Observation, maxVoxels: nat, v: Voxel)
    requires ValidRun(run) && o.Valid()
    requires v in AfterRun(run, maxVoxels).hits && v !in AfterRun(run + [o], maxVoxels).hits
    ensures var carved := Carved(Touched(AfterRun(run, maxVoxels), o.touched), o.free, o.carveMisses);
            || (v in o.free && PassesSinceHit(run + [o], v) >= o.carveMisses)
            || (|carved.hits| > maxVoxels
                && forall u :: u in AfterRun(run + [o], maxVoxels).hits ==> Weaker(carved.hits, v, u))
  {
    assert (run + [o])[..|run|] == run;
    RunValid(run, maxVoxels);
    MissesCountPasses(run, maxVoxels, v);
    var carved := Carved(Touched(AfterRun(run, maxVoxels), o.touched), o.free, o.carveMisses);
    if v in carved.hits {
      WeakestExists(carved.hits, |carved.hits| - maxVoxels);
    }
  }
}
