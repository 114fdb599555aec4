/** What one cloud shows the voxel map, in terms of where things are: the placement and the rays of
    `integrate` and `_ray_voxels`, robot_brain/navigation/map_store.py:80-110 and 368-390. */
module VoxelObservation {
  import opened RealMath
  import opened Grid
  import opened Costmap
  import opened VoxelContent
  import opened VoxelMap
  import P = Poses

  /** The pose's cosine and sine are those of a heading. */
  ghost predicate HasHeading(trig: P.Trig, yaw: real, pose: Pose) {
    trig.Lawful() && pose.cosYaw == trig.cos(yaw) && pose.sinYaw == trig.sin(yaw)
  }

  /** A world point that the cloud shows: seen from the robot, its offset is a point of the cloud in the band. */
  ghost predicate IsSeen(trig: P.Trig, yaw: real, pose: Pose, scan: Scan, points: seq<Point3>, q: Point3) {
    var body := P.WorldDeltaToBody(trig, q.x - pose.x, q.y - pose.y, yaw);
    Point3(body.x, body.y, q.z - pose.z) in points && scan.minZ <= q.z - pose.z <= scan.maxZ
  }

  /** The cube of space that a voxel stands for. */
  predicate InVoxel(resolution: real, q: Point3, v: Voxel) {
    InSlab(resolution, q.x, v.x) && InSlab(resolution, q.y, v.y) && InSlab(resolution, q.z, v.z)
  }

  predicate InSlab(resolution: real, x: real, i: int) { i as real * resolution <= x < (i + 1) as real * resolution }

  lemma SlabExactly(resolution: real, x: real, i: int)
    requires resolution > 0.0
    ensures InSlab(resolution, x, i) <==> (x / resolution).Floor == i
  {
    var q := x / resolution;
    assert q * resolution == x;
    ScaledOrder(q, i as real, resolution);
    ScaledOrder(q, (i + 1) as real, resolution);
  }

  lemma ScaledOrder(a: real, b: real, c: real)
    requires c > 0.0
    ensures b <= a <==> b * c <= a * c
  {
    if b <= a {
      assert (a - b) * c >= 0.0 && (a - b) * c == a * c - b * c;
    } else {
      var gap := PositiveGap(a, b, c);
    }
  }

  lemma PositiveGap(a: real, b: real, c: real) returns (gap: real)
    requires a < b && c > 0.0
    ensures gap > 0.0 && gap == b * c - a * c
  {
    ProductPositive(b - a, c);
    gap := (b - a) * c;
  }

  lemma VoxelExactly(resolution: real, q: Point3, v: Voxel)
    requires resolution > 0.0
    ensures InVoxel(resolution, q, v) <==> VoxelOf(resolution, q) == v
  {
    SlabExactly(resolution, q.x, v.x);
    SlabExactly(resolution, q.y, v.y);
    SlabExactly(resolution, q.z, v.z);
  }

  /** Placing a point of the cloud and looking back at it undo each other. */
  lemma PlacementExactly(trig: P.Trig, yaw: real, pose: Pose, p: Point3, q: Point3)
    requires HasHeading(trig, yaw, pose)
    ensures ToWorld(pose, p) == q
       <==> q.z - pose.z == p.z && P.WorldDeltaToBody(trig, q.x - pose.x, q.y - pose.y, yaw) == Point(p.x, p.y)
  {
    assert trig.UnitAt(yaw);
    TurnExactly(pose.cosYaw, pose.sinYaw, p.x, p.y, q.x - pose.x, q.y - pose.y);
  }

  lemma TurnExactly(c: real, s: real, x: real, y: real, dx: real, dy: real)
    requires c * c + s * s == 1.0
    ensures dx == x * c - y * s && dy == x * s + y * c <==> c * dx + s * dy == x && -s * dx + c * dy == y
  {
    if dx == x * c - y * s && dy == x * s + y * c {
      assert c * (x * c - y * s) + s * (x * s + y * c) == (c * c + s * s) * x;
      assert -s * (x * c - y * s) + c * (x * s + y * c) == (c * c + s * s) * y;
    }
    if c * dx + s * dy == x && -s * dx + c * dy == y {
      assert (c * dx + s * dy) * c - (-s * dx + c * dy) * s == (c * c + s * s) * dx;
      assert (c * dx + s * dy) * s + (-s * dx + c * dy) * c == (c * c + s * s) * dy;
    }
  }

  lemma SeenExactly(trig: P.Trig, yaw: real, pose: Pose, scan: Scan, points: seq<Point3>, q: Point3)
    requires HasHeading(trig, yaw, pose)
    ensures IsSeen(trig, yaw, pose, scan, points, q) <==> exists p :: p in points && InBand(scan, p) && ToWorld(pose, p) == q
  {
    var body := P.WorldDeltaToBody(trig, q.x - pose.x, q.y - pose.y, yaw);
    PlacementExactly(trig, yaw, pose, Point3(body.x, body.y, q.z - pose.z), q);
    forall p | p in points && ToWorld(pose, p) == q ensures p == Point3(body.x, body.y, q.z - pose.z) {
      PlacementExactly(trig, yaw, pose, p, q);
    }
  }

  /** The voxels a frame touches are those that hold a point it shows. */
  lemma TouchedExactly(sqrt: real -> real, resolution: real, trig: P.Trig, yaw: real, pose: Pose, scan: Scan, points: seq<Point3>, v: Voxel)
    requires resolution > 0.0 && HasHeading(trig, yaw, pose)
    ensures v in Observe(ViewFrom(sqrt, resolution, pose, scan), points, scan).touched
       <==> exists q :: IsSeen(trig, yaw, pose, scan, points, q) && InVoxel(resolution, q, v)
  {
    var view := ViewFrom(sqrt, resolution, pose, scan);
    if v in TouchedBy(view, points) {
      var p :| p in points && view.usable(p) && view.voxel(p) == v;
      SeenExactly(trig, yaw, pose, scan, points, ToWorld(pose, p));
      VoxelExactly(resolution, ToWorld(pose, p), v);
    }
    if q :| IsSeen(trig, yaw, pose, scan, points, q) && InVoxel(resolution, q, v) {
      SeenExactly(trig, yaw, pose, scan, points, q);
      VoxelExactly(resolution, q, v);
      var p :| p in points && InBand(scan, p) && ToWorld(pose, p) == q;
      assert view.usable(p) && view.voxel(p) == v;
    }
  }

  // ----- rays -----

  function Length(sqrt: real -> real, a: Point3, b: Point3): real {
    sqrt((b.x - a.x) * (b.x - a.x) + (b.y - a.y) * (b.y - a.y) + (b.z - a.z) * (b.z - a.z))
  }

  /** `q` lies `i` parts of `n` along the segment from `a` to `b`. */
  predicate IsPartWay(a: Point3, b: Point3, i: int, n: int, q: Point3) {
    && (q.x - a.x) * n as real == (b.x - a.x) * i as real
    && (q.y - a.y) * n as real == (b.y - a.y) * i as real
    && (q.z - a.z) * n as real == (b.z - a.z) * i as real
  }

  /** Samples that cut a segment into equal parts of at most half a voxel, and not into more than that takes. */
  ghost predicate CutsFinely(sqrt: real -> real, resolution: real, a: Point3, b: Point3, n: int) {
    && n >= 1 && Length(sqrt, a, b) <= n as real * (resolution * 0.5)
    && (n > 1 ==> (n - 1) as real * (resolution * 0.5) < Length(sqrt, a, b))
  }

  /** The voxels that hold one of the samples. */
  ghost predicate OnRay(resolution: real, a: Point3, b: Point3, n: int, v: Voxel) {
    exists i, q :: 0 <= i <= n && IsPartWay(a, b, i, n, q) && InVoxel(resolution, q, v)
  }

  lemma AxisPart(a: real, b: real, i: int, n: int, x: real)
    requires n > 0
    ensures (x - a) * n as real == (b - a) * i as real <==> x == a + (b - a) * i as real / n as real
  {
    var d := (b - a) * i as real / n as real;
    assert d * n as real == (b - a) * i as real;
    if (x - a) * n as real == (b - a) * i as real {
      assert (x - a - d) * n as real == 0.0;
    }
  }

  lemma PartWayExactly(a: Point3, b: Point3, i: int, n: int, q: Point3)
    requires n > 0
    ensures IsPartWay(a, b, i, n, q) <==> RayPoint(a, b, i, n) == q
  {
    AxisPart(a.x, b.x, i, n, q.x);
    AxisPart(a.y, b.y, i, n, q.y);
    AxisPart(a.z, b.z, i, n, q.z);
  }

  lemma StepsCutFinely(sqrt: real -> real, resolution: real, a: Point3, b: Point3)
    requires IsSqrt(sqrt) && resolution > 0.0
    ensures CutsFinely(sqrt, resolution, a, b, RaySteps(sqrt, resolution, a, b))
  {
    var length, half, n := Length(sqrt, a, b), resolution * 0.5, RaySteps(sqrt, resolution, a, b);
    SquareNonnegative(b.x - a.x);
    SquareNonnegative(b.y - a.y);
    SquareNonnegative(b.z - a.z);
    var q := length / half;
    assert q * half == length;
    assert q <= n as real && (n > 1 ==> (n - 1) as real < q);
    ScaledOrder(n as real, q, half);
    if n > 1 {
      var gap := PositiveGap((n - 1) as real, q, half);
    }
  }

  /** A ray's voxels are those of its samples; the first holds its start and the last its end. */
  lemma RayExactly(sqrt: real -> real, resolution: real, a: Point3, b: Point3) returns (n: int)
    requires IsSqrt(sqrt) && resolution > 0.0
    ensures CutsFinely(sqrt, resolution, a, b, n)
    ensures forall v :: v in RayVoxels(sqrt, resolution, a, b) <==> OnRay(resolution, a, b, n, v)
    ensures forall v :: InVoxel(resolution, a, v) || InVoxel(resolution, b, v) ==> v in RayVoxels(sqrt, resolution, a, b)
  {
    n := RaySteps(sqrt, resolution, a, b);
    StepsCutFinely(sqrt, resolution, a, b);
    forall v ensures v in RayVoxels(sqrt, resolution, a, b) <==> OnRay(resolution, a, b, n, v) {
      RayHolds(sqrt, resolution, a, b, n, v);
    }
    forall v | InVoxel(resolution, a, v) || InVoxel(resolution, b, v) ensures v in RayVoxels(sqrt, resolution, a, b) {
      assert IsPartWay(a, b, 0, n, a) && IsPartWay(a, b, n, n, b);
      assert OnRay(resolution, a, b, n, v);
    }
  }

  lemma RayHolds(sqrt: real -> real, resolution: real, a: Point3, b: Point3, n: int, v: Voxel)
    requires resolution > 0.0 && n == RaySteps(sqrt, resolution, a, b)
    ensures v in RayVoxels(sqrt, resolution, a, b) <==> OnRay(resolution, a, b, n, v)
  {
    if v in RayVoxels(sqrt, resolution, a, b) {
      var i :| 0 <= i <= n && VoxelOf(resolution, RayPoint(a, b, i, n)) == v;
      PartWayExactly(a, b, i, n, RayPoint(a, b, i, n));
      VoxelExactly(resolution, RayPoint(a, b, i, n), v);
    }
    if OnRay(resolution, a, b, n, v) {
      var i, q :| 0 <= i <= n && IsPartWay(a, b, i, n, q) && InVoxel(resolution, q, v);
      PartWayExactly(a, b, i, n, q);
      VoxelExactly(resolution, q, v);
      assert VoxelOf(resolution, RayPoint(a, b, i, n)) == v;
    }
  }

  /** A voxel lies on the ray from the sensor to a point that the frame shows. */
  ghost predicate OnSeenRay(sqrt: real -> real, resolution: real, trig: P.Trig, yaw: real, pose: Pose, scan: Scan, points: seq<Point3>, v: Voxel) {
    exists q, n :: IsSeen(trig, yaw, pose, scan, points, q)
      && CutsFinely(sqrt, resolution, Point3(pose.x, pose.y, pose.z), q, n) && OnRay(resolution, Point3(pose.x, pose.y, pose.z), q, n, v)
  }

  lemma CutIsUnique(sqrt: real -> real, resolution: real, a: Point3, b: Point3, n: int, k: int)
    requires resolution > 0.0 && CutsFinely(sqrt, resolution, a, b, n) && CutsFinely(sqrt, resolution, a, b, k)
    ensures n == k
  {
    FewerCuts(sqrt, resolution, a, b, n, k);
    FewerCuts(sqrt, resolution, a, b, k, n);
  }

  lemma FewerCuts(sqrt: real -> real, resolution: real, a: Point3, b: Point3, n: int, k: int)
    requires resolution > 0.0 && CutsFinely(sqrt, resolution, a, b, n) && CutsFinely(sqrt, resolution, a, b, k)
    ensures n >= k
  {
    if n < k {
      ScaledOrder((k - 1) as real, n as real, resolution * 0.5);
      assert false;
    }
  }

  lemma PassedIsOnRay(sqrt: real -> real, resolution: real, trig: P.Trig, yaw: real, pose: Pose, scan: Scan, points: seq<Point3>, v: Voxel)
    requires IsSqrt(sqrt) && resolution > 0.0 && HasHeading(trig, yaw, pose)
    requires v in PassedBy(ViewFrom(sqrt, resolution, pose, scan), points)
    ensures OnSeenRay(sqrt, resolution, trig, yaw, pose, scan, points, v)
  {
    var view := ViewFrom(sqrt, resolution, pose, scan);
    var p :| p in points && view.usable(p) && v in view.ray(p);
    SeenExactly(trig, yaw, pose, scan, points, ToWorld(pose, p));
    var n := RayExactly(sqrt, resolution, Point3(pose.x, pose.y, pose.z), ToWorld(pose, p));
  }

  lemma OnRayIsPassed(sqrt: real -> real, resolution: real, trig: P.Trig, yaw: real, pose: Pose, scan: Scan, points: seq<Point3>, v: Voxel)
    requires IsSqrt(sqrt) && resolution > 0.0 && HasHeading(trig, yaw, pose)
    requires OnSeenRay(sqrt, resolution, trig, yaw, pose, scan, points, v)
    ensures v in PassedBy(ViewFrom(sqrt, resolution, pose, scan), points)
  {
    var view, sensor := ViewFrom(sqrt, resolution, pose, scan), Point3(pose.x, pose.y, pose.z);
    var q, n :| IsSeen(trig, yaw, pose, scan, points, q) && CutsFinely(sqrt, resolution, sensor, q, n) && OnRay(resolution, sensor, q, n, v);
    SeenExactly(trig, yaw, pose, scan, points, q);
    var p :| p in points && InBand(scan, p) && ToWorld(pose, p) == q;
    var k := RayExactly(sqrt, resolution, sensor, q);
    CutIsUnique(sqrt, resolution, sensor, q, n, k);
    assert view.usable(p) && v in view.ray(p);
  }

  /** What a carving frame sees through: the voxels on the rays to the points it shows, as far as it
      touches none of them. */
  lemma FreeExactly(sqrt: real -> real, resolution: real, trig: P.Trig, yaw: real, pose: Pose, scan: Scan, points: seq<Point3>, v: Voxel)
    requires IsSqrt(sqrt) && resolution > 0.0 && HasHeading(trig, yaw, pose)
    ensures var o := Observe(ViewFrom(sqrt, resolution, pose, scan), points, scan);
      v in o.free <==> scan.carveFreeSpace && v !in o.touched && OnSeenRay(sqrt, resolution, trig, yaw, pose, scan, points, v)
  {
    if v in PassedBy(ViewFrom(sqrt, resolution, pose, scan), points) {
      PassedIsOnRay(sqrt, resolution, trig, yaw, pose, scan, points, v);
    }
    if OnSeenRay(sqrt, resolution, trig, yaw, pose, scan, points, v) {
      OnRayIsPassed(sqrt, resolution, trig, yaw, pose, scan, points, v);
    }
  }
}
