/** The stateful map class of robot_brain/navigation/map_store.py. */
module VoxelMap {
  import opened RealMath
  import opened Grid
  import opened Sorting
  import opened Costmap
  import opened VoxelContent

  /** A robot pose with its heading resolved to cosine and sine. */
  datatype Pose = Pose(x: real, y: real, z: real, cosYaw: real, sinYaw: real)

  datatype Cloud = Cloud(frameId: string, points: seq<Point3>)

  datatype Scan = Scan(minZ: real, maxZ: real, carveFreeSpace: bool, carveMisses: int)

  predicate InBand(scan: Scan, p: Point3) { scan.minZ <= p.z <= scan.maxZ }

  function ToWorld(pose: Pose, p: Point3): Point3 {
    Point3(pose.x + p.x * pose.cosYaw - p.y * pose.sinYaw, pose.y + p.x * pose.sinYaw + p.y * pose.cosYaw, pose.z + p.z)
  }

  function VoxelOf(resolution: real, p: Point3): Voxel
    requires resolution > 0.0
  {
    Voxel((p.x / resolution).Floor, (p.y / resolution).Floor, (p.z / resolution).Floor)
  }

  function RaySteps(sqrt: real -> real, resolution: real, a: Point3, b: Point3): int
    requires resolution > 0.0
  {
    Max(1, Ceiling(sqrt((b.x - a.x) * (b.x - a.x) + (b.y - a.y) * (b.y - a.y) + (b.z - a.z) * (b.z - a.z)) / (resolution * 0.5)))
  }

  function RayPoint(a: Point3, b: Point3, i: int, steps: int): Point3
    requires steps > 0
  {
    Point3(a.x + (b.x - a.x) * i as real / steps as real, a.y + (b.y - a.y) * i as real / steps as real,
           a.z + (b.z - a.z) * i as real / steps as real)
  }

  /** `_ray_voxels`: the voxels of evenly spaced samples, two per voxel length. */
  function RayVoxels(sqrt: real -> real, resolution: real, a: Point3, b: Point3): set<Voxel>
    requires resolution > 0.0
  {
    var steps := RaySteps(sqrt, resolution, a, b);
    set i | 0 <= i <= steps :: VoxelOf(resolution, RayPoint(a, b, i, steps))
  }

  /** How one frame sees the world: which points count, the voxel each falls into, and the
      voxels on the ray that leads to it. */
  datatype View = View(usable: Point3 -> bool, voxel: Point3 -> Voxel, ray: Point3 -> set<Voxel>)

  function ViewFrom(sqrt: real -> real, resolution: real, pose: Pose, scan: Scan): View
    requires resolution > 0.0
  {
    View(p => InBand(scan, p), p => VoxelOf(resolution, ToWorld(pose, p)),
         p => RayVoxels(sqrt, resolution, Point3(pose.x, pose.y, pose.z), ToWorld(pose, p)))
  }

  ghost function TouchedBy(view: View, points: seq<Point3>): set<Voxel> {
    set p | p in points && view.usable(p) :: view.voxel(p)
  }

  ghost function PassedBy(view: View, points: seq<Point3>): set<Voxel> {
    set p, v | p in points && view.usable(p) && v in view.ray(p) :: v
  }

  /** What a frame observes. */
  ghost function Observe(view: View, points: seq<Point3>, scan: Scan): (o: Observation)
    ensures o.Valid()
  {
    var touched := TouchedBy(view, points);
    assert forall p :: p in points && view.usable(p) ==> view.voxel(p) in touched;
    Observation(touched, if scan.carveFreeSpace then PassedBy(view, points) - touched else {}, scan.carveMisses)
  }

  lemma TouchStep(c: Content, touched: set<Voxel>, v: Voxel)
    requires v !in touched
    ensures var before, after := Touched(c, touched), Touched(c, touched + {v});
            after.hits == before.hits[v := Get(before.hits, v) + 1] && after.misses == before.misses - {v}
  {
  }

  lemma PointAdds(view: View, points: seq<Point3>, k: nat)
    requires k < |points|
    ensures var p := points[k];
            && TouchedBy(view, points[..k + 1]) == TouchedBy(view, points[..k]) + (if view.usable(p) then {view.voxel(p)} else {})
            && PassedBy(view, points[..k + 1]) == PassedBy(view, points[..k]) + (if view.usable(p) then view.ray(p) else {})
  {
    assert points[..k + 1] == points[..k] + [points[k]];
  }

  lemma CarveStep(c: Content, done: set<Voxel>, carveMisses: int, v: Voxel)
    requires v !in done && (v in c.misses ==> v in c.hits)
    ensures var before, after := Carved(c, done, carveMisses), Carved(c, done + {v}, carveMisses);
            if v !in c.hits then after.hits == before.hits && after.misses == before.misses
            else if Get(c.misses, v) + 1 >= carveMisses
            then after.hits == before.hits - {v} && after.misses == before.misses - {v}
            else after.hits == before.hits && after.misses == before.misses[v := Get(c.misses, v) + 1]
    ensures v in Carved(c, done, carveMisses).hits <==> v in c.hits
    ensures Get(Carved(c, done, carveMisses).misses, v) == Get(c.misses, v)
  {
    var before, after := Carved(c, done, carveMisses), Carved(c, done + {v}, carveMisses);
    if v !in c.hits {
      CarveUnseen(c, done, carveMisses, v);
    } else if Get(c.misses, v) + 1 >= carveMisses {
      assert after.hits == before.hits - {v};
      assert after.misses == before.misses - {v};
    } else {
      assert after.hits == before.hits;
      assert after.misses == before.misses[v := Get(c.misses, v) + 1];
    }
  }

  lemma CarveUnseen(c: Content, done: set<Voxel>, carveMisses: int, v: Voxel)
    requires v !in done && v !in c.hits && v !in c.misses
    ensures var before, after := Carved(c, done, carveMisses), Carved(c, done + {v}, carveMisses);
            after.hits == before.hits && after.misses == before.misses
  {
  }

  class SparseVoxelMap {
    const resolution: real
    const mapId: string
    const mapVersion: string
    const maxVoxels: int
    var hits: map<Voxel, int>
    var misses: map<Voxel, int>
    var knownFree: set<Cell>
    var generation: nat

    ghost predicate Valid()
      reads this
    {
      resolution > 0.0 && maxVoxels > 0 && mapId != "" && mapVersion != "" && ValidContent(Current(), maxVoxels)
    }

    function Current(): Content
      reads this
    {
      Content(hits, misses, knownFree)
    }

    constructor (resolution: real, mapId: string, mapVersion: string, maxVoxels: int)
      requires resolution > 0.0 && maxVoxels > 0 && mapId != "" && mapVersion != ""
      ensures Valid() && Current() == Content(map[], map[], {}) && generation == 0
      ensures this.resolution == resolution && this.mapId == mapId && this.mapVersion == mapVersion
      ensures this.maxVoxels == maxVoxels
    {
      this.resolution, this.mapId, this.mapVersion, this.maxVoxels := resolution, mapId, mapVersion, maxVoxels;
      hits, misses, knownFree, generation := map[], map[], {}, 0;
    }

    /** One frame. The map's new content is the integrated one, the generation advances with
        every frame that touches anything, and a cloud in a foreign frame changes nothing. */
    method Integrate(sqrt: real -> real, cloud: Cloud, pose: Pose, scan: Scan) returns (r: Result<int>)
      requires Valid()
      modifies this
      ensures Valid()
      ensures r.Err? <==> cloud.frameId !in BODY_FRAMES
      ensures r.Err? ==> Current() == old(Current()) && generation == old(generation)
      ensures r.Ok? ==>
                var o := Observe(ViewFrom(sqrt, resolution, pose, scan), cloud.points, scan);
                && Current() == Integrated(old(Current()), o, maxVoxels)
                && r.value == |o.touched| && generation == old(generation) + (if o.touched == {} then 0 else 1)
    {
      if cloud.frameId !in BODY_FRAMES {
        return Err("cannot integrate non-body cloud");
      }
      var touched := IntegrateView(ViewFrom(sqrt, resolution, pose, scan), cloud.points, scan);
      return Ok(touched);
    }

    method IntegrateView(view: View, points: seq<Point3>, scan: Scan) returns (count: int)
      requires Valid()
      modifies this
      ensures Valid()
      ensures var o := Observe(view, points, scan);
              && Current() == Integrated(old(Current()), o, maxVoxels)
              && count == |o.touched| && generation == old(generation) + (if o.touched == {} then 0 else 1)
    {
      ghost var o := Observe(view, points, scan);
      ghost var before := Current();
      IntegratedValid(before, o, maxVoxels);
      var touched, free := Touch(view, points, scan);
      assert Current() == Touched(before, o.touched);
      TouchedValid(before, o.touched);
      if scan.carveFreeSpace {
        Carve(free, scan.carveMisses);
      } else {
        CarvedNothing(Current(), scan.carveMisses);
      }
      assert Current() == Carved(Touched(before, o.touched), o.free, scan.carveMisses);
      EnforceLimit();
      if touched != {} {
        generation := generation + 1;
      }
      return |touched|;
    }

    /** The loop over the points. */
    method Touch(view: View, points: seq<Point3>, scan: Scan) returns (touched: set<Voxel>, free: set<Voxel>)
      modifies `hits, `misses
      ensures touched == TouchedBy(view, points)
      ensures scan.carveFreeSpace ==> free == PassedBy(view, points) - touched
      ensures Current() == Touched(old(Current()), touched)
    {
      touched := {};
      var passed: set<Voxel> := {};
      ghost var before := Current();
      assert Touched(before, {}) == before;
      for k := 0 to |points|
        invariant touched == TouchedBy(view, points[..k])
        invariant scan.carveFreeSpace ==>
                    PassedBy(view, points[..k]) - touched <= passed && passed <= PassedBy(view, points[..k])
        invariant Current() == Touched(before, touched)
      {
        var p := points[k];
        PointAdds(view, points, k);
        if !view.usable(p) {
          continue;
        }
        var voxel := view.voxel(p);
        if scan.carveFreeSpace {
          passed := passed + (view.ray(p) - {voxel});
        }
        if voxel in touched {
          continue;
        }
        TouchStep(before, touched, voxel);
        touched := touched + {voxel};
        hits := hits[voxel := Get(hits, voxel) + 1];
        misses := misses - {voxel};
      }
      assert points[..|points|] == points;
      free := passed - touched;
    }

    /** The loop over the voxels that rays passed through. */
    method Carve(free: set<Voxel>, carveMisses: int)
      requires misses.Keys <= hits.Keys
      modifies `hits, `misses, `knownFree
      ensures Current() == Carved(old(Current()), free, carveMisses)
    {
      ghost var before := Current();
      knownFree := knownFree + Columns(free);
      var rest := free;
      ghost var done: set<Voxel> := {};
      CarvedNothing(before, carveMisses);
      while rest != {}
        invariant done !! rest && done + rest == free
        invariant hits == Carved(before, done, carveMisses).hits && misses == Carved(before, done, carveMisses).misses
        invariant knownFree == before.free + Columns(free)
        decreases rest
      {
        var voxel :| voxel in rest;
        CarveStep(before, done, carveMisses, voxel);
        rest, done := rest - {voxel}, done + {voxel};
        if voxel !in hits {
          continue;
        }
        var count := Get(misses, voxel) + 1;
        if count >= carveMisses {
          hits := hits - {voxel};
          misses := misses - {voxel};
        } else {
          misses := misses[voxel := count];
        }
      }
      assert done == free;
    }

    /** `_enforce_limit`: the weakest voxels beyond the bound go. */
    method EnforceLimit()
      requires maxVoxels > 0
      modifies `hits, `misses
      ensures Current() == Limited(old(Current()), maxVoxels)
    {
      var excess := |hits| - maxVoxels;
      if excess <= 0 {
        return;
      }
      var victims := FirstVictims(hits, excess);
      hits := hits - victims;
      misses := misses - victims;
    }
  }

  /** `sorted(...)[:excess]`: the first rows of the ranking. */
  method FirstVictims(counts: map<Voxel, int>, excess: nat) returns (victims: set<Voxel>)
    requires excess <= |counts|
    ensures victims == Weakest(counts, excess)
  {
    var le := (a, b) => Weaker(counts, a, b);
    WeakerIsTotal(counts);
    var ranked := SortedSet(le, counts.Keys);
    WeakestFirst(counts, ranked, excess);
    victims := Elements(ranked[..excess]);
  }

  lemma CarvedNothing(c: Content, carveMisses: int)
    ensures Carved(c, {}, carveMisses) == c
  {
  }

  /** The first rows of the ranking are the weakest voxels. */
  lemma WeakestFirst(hits: map<Voxel, int>, ranked: seq<Voxel>, n: nat)
    requires Strict((a, b) => Weaker(hits, a, b), ranked) && (forall v :: v in ranked <==> v in hits.Keys) && n <= |hits|
    ensures n <= |ranked| && Elements(ranked[..n]) == Weakest(hits, n)
  {
    ElementsSize(ranked);
    assert Elements(ranked) == hits.Keys;
    var victims := Elements(ranked[..n]);
    ElementsSize(ranked[..n]);
    assert forall k :: 0 <= k < n ==> ranked[..n][k] == ranked[k] && ranked[k] in victims;
    forall v, u | v in victims && u in hits && u !in victims ensures Weaker(hits, v, u) {
      var i :| 0 <= i < n && ranked[i] == v;
      assert u in ranked;
      var j :| 0 <= j < |ranked| && ranked[j] == u;
    }
    assert forall v :: v in victims ==> v in ranked;
    WeakestExists(hits, n);
    WeakestIsUnique(hits, n, victims, Weakest(hits, n));
  }
}
