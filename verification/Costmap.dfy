/** The local costmap of robot_brain/navigation/grid.py, built from one body-frame point cloud. */
module Costmap {
  import opened RealMath
  import opened Grid
  import opened Dilation
  import opened Bresenham
  import opened DistanceCosts
  import opened Planner

  datatype Point3 = Point3(x: real, y: real, z: real)

  datatype Geometry = Geometry(size: real, resolution: real, robotRadius: real, minZ: real, maxZ: real, costRadius: real)
  {
    predicate Valid() {
      size > 0.0 && resolution > 0.0 && robotRadius >= 0.0 && costRadius >= 0.0
    }

    function Cells(): int
      requires Valid()
    {
      Max(3, Ceiling(size / resolution))
    }

    function Origin(): real
      requires Valid()
    {
      -(Cells() as real * resolution / 2.0)
    }

    function CellOf(p: Point3): Cell
      requires Valid()
    {
      Cell(AxisIndex(p.x, Origin(), resolution), AxisIndex(p.y, Origin(), resolution))
    }

    /** Points in the obstacle band that fall on the map. */
    predicate IsHit(p: Point3)
      requires Valid()
    {
      minZ <= p.z <= maxZ && InWindow(Cells(), Cells(), CellOf(p))
    }

    function SensorCell(): Cell
      requires Valid()
    {
      Cell(Cells() / 2, Cells() / 2)
    }
  }

  /** The frames in which the robot's sensors report: only such a cloud is mapped or matched. */
  const BODY_FRAMES: set<string> := {"base", "base_link", "unitree_lidar", "utlidar"}

  /** `c` lies on the ray from the sensor to `hit`, before its last cell. */
  ghost predicate OnRay(sensor: Cell, hit: Cell, c: Cell) {
    exists i :: 0 <= i < LineLength(sensor, hit) - 1 && CellAt(sensor, hit, i) == c
  }

  ghost predicate IsCostmap(sqrt: real -> real, points: seq<Point3>, geometry: Geometry, grid: OccupancyGrid)
    requires geometry.Valid()
  {
    var n, inflation := geometry.Cells(), Ceiling(geometry.robotRadius / geometry.resolution);
    && grid.Valid() && grid.resolution == geometry.resolution && grid.width == grid.height == n
    && grid.originX == grid.originY == geometry.Origin()
    && (forall c :: c in grid.rawOccupied <==> exists p :: p in points && geometry.IsHit(p) && geometry.CellOf(p) == c)
    && (forall c :: c in grid.occupied <==>
          InWindow(n, n, c) && exists hit :: hit in grid.rawOccupied && InDisc(hit, c, inflation))
    && (forall c :: c in grid.knownFree <==>
          c !in grid.occupied && exists hit :: hit in grid.rawOccupied && OnRay(geometry.SensorCell(), hit, c))
    && NonnegativeCosts(grid) && HasObstacleCosts(sqrt, grid, Ceiling(geometry.costRadius / geometry.resolution))
  }

  /** The traversal costs are the closed form of the distance to the grid's own obstacles. */
  ghost predicate HasObstacleCosts(sqrt: real -> real, grid: OccupancyGrid, radius: int) {
    forall c :: grid.Inside(c) ==>
      IsObstacleCost(sqrt(2.0), ObstaclesOn(grid.width, grid.height, grid.occupied), radius, c, grid.TraversalCost(c))
  }

  lemma CostsOnGrid(sqrt: real -> real, grid: OccupancyGrid, radius: int)
    requires forall c :: InWindow(grid.width, grid.height, c) ==>
               0 <= Index(grid.width, c) < |grid.traversalCosts|
               && IsObstacleCost(sqrt(2.0), ObstaclesOn(grid.width, grid.height, grid.occupied), radius, c,
                                 grid.traversalCosts[Index(grid.width, c)])
    ensures HasObstacleCosts(sqrt, grid, radius)
  {
    forall c | grid.Inside(c)
      ensures IsObstacleCost(sqrt(2.0), ObstaclesOn(grid.width, grid.height, grid.occupied), radius, c, grid.TraversalCost(c))
    {
      assert InWindow(grid.width, grid.height, c);
    }
  }

  /** `with_obstacle_distance_costs`: new costs, and nothing else, on an existing grid. */
  method WithObstacleDistanceCosts(sqrt: real -> real, grid: OccupancyGrid, maximumDistance: real)
    returns (r: Result<OccupancyGrid>)
    requires IsSqrt(sqrt) && grid.Valid()
    ensures r.Err? <==> maximumDistance < 0.0
    ensures r.Ok? ==> NonnegativeCosts(r.value) && HasObstacleCosts(sqrt, r.value, Ceiling(maximumDistance / grid.resolution))
    ensures r.Ok? ==> r.value == grid.(traversalCosts := r.value.traversalCosts)
  {
    if maximumDistance < 0.0 {
      return Err("maximum obstacle cost distance must be finite and nonnegative");
    }
    var values := DistanceCostValues(sqrt, grid.width, grid.height, grid.occupied, Ceiling(maximumDistance / grid.resolution));
    var costed := grid.(traversalCosts := values);
    CostsOnGrid(sqrt, costed, Ceiling(maximumDistance / grid.resolution));
    return Ok(costed);
  }

  method CostmapFromPointcloud(sqrt: real -> real, frameId: string, points: seq<Point3>, geometry: Geometry)
    returns (r: Result<OccupancyGrid>)
    requires IsSqrt(sqrt)
    ensures r.Err? <==> frameId !in BODY_FRAMES || !geometry.Valid()
    ensures r.Ok? ==> IsCostmap(sqrt, points, geometry, r.value)
    ensures r.Ok? ==> forall c :: c in r.value.knownFree ==> r.value.Inside(c)
  {
    if frameId !in BODY_FRAMES {
      return Err("point cloud is not robot-relative");
    }
    if !geometry.Valid() {
      return Err("invalid costmap geometry");
    }
    var cells, origin := geometry.Cells(), geometry.Origin();
    var occupiedRaw, freeRaw := CastRays(points, geometry);
    var occupied := Inflate(cells, occupiedRaw, geometry.robotRadius, geometry.resolution);
    var plain := OccupancyGrid(geometry.resolution, cells, cells, origin, origin, occupied, occupiedRaw,
                               freeRaw - occupied, [], "base_link");
    r := WithObstacleDistanceCosts(sqrt, plain, geometry.costRadius);
  }

  method Inflate(cells: int, raw: set<Cell>, robotRadius: real, resolution: real) returns (occupied: set<Cell>)
    requires robotRadius >= 0.0 && resolution > 0.0
    ensures forall c :: c in occupied <==>
              InWindow(cells, cells, c) && exists hit :: hit in raw && InDisc(hit, c, Ceiling(robotRadius / resolution))
  {
    var inflation := Ceiling(robotRadius / resolution);
    NonnegativeRatio(robotRadius, resolution);
    occupied := Dilated(cells, cells, raw, inflation);
    forall c ensures c in occupied <==> InWindow(cells, cells, c) && exists hit :: hit in raw && InDisc(hit, c, inflation) {
      DilatedExact(cells, cells, raw, inflation, c);
    }
  }

  lemma NonnegativeRatio(a: real, b: real)
    requires a >= 0.0 && b > 0.0
    ensures Ceiling(a / b) >= 0
  {
    assert a / b >= 0.0;
  }

  /** The hit cells, and the cells that the rays towards them pass through. */
  method CastRays(points: seq<Point3>, geometry: Geometry) returns (occupied: set<Cell>, free: set<Cell>)
    requires geometry.Valid()
    ensures forall c :: c in occupied <==> exists p :: p in points && geometry.IsHit(p) && geometry.CellOf(p) == c
    ensures forall c :: c in free <==> exists hit :: hit in occupied && OnRay(geometry.SensorCell(), hit, c)
    ensures forall c :: c in free ==> InWindow(geometry.Cells(), geometry.Cells(), c)
  {
    occupied, free := {}, {};
    for k := 0 to |points|
      invariant forall c :: c in occupied <==> exists p :: p in points[..k] && geometry.IsHit(p) && geometry.CellOf(p) == c
      invariant forall c :: c in free <==> exists hit :: hit in occupied && OnRay(geometry.SensorCell(), hit, c)
      invariant forall c :: c in free ==> InWindow(geometry.Cells(), geometry.Cells(), c)
    {
      var p := points[k];
      assert points[..k + 1] == points[..k] + [p];
      if !geometry.IsHit(p) {
        continue;
      }
      var hit := geometry.CellOf(p);
      var line := Line(geometry.SensorCell(), hit);
      var ray := Elements(line[..|line| - 1]);
      RayCells(geometry.Cells(), geometry.SensorCell(), hit, ray);
      occupied := occupied + {hit};
      free := free + ray;
    }
    assert points[..|points|] == points;
  }

  lemma RayCells(cells: int, sensor: Cell, hit: Cell, ray: set<Cell>)
    requires InWindow(cells, cells, sensor) && InWindow(cells, cells, hit)
    requires var line := LineCells(sensor, hit); ray == Elements(line[..|line| - 1])
    ensures forall c :: c in ray <==> OnRay(sensor, hit, c)
    ensures forall c :: c in ray ==> InWindow(cells, cells, c)
  {
    var line := LineCells(sensor, hit);
    forall c | c in ray ensures OnRay(sensor, hit, c) && InWindow(cells, cells, c) {
      var i :| 0 <= i < |line| - 1 && line[i] == c;
      CellAtInBox(sensor, hit, i);
    }
    forall c | OnRay(sensor, hit, c) ensures c in ray {
      var i :| 0 <= i < LineLength(sensor, hit) - 1 && CellAt(sensor, hit, i) == c;
      assert line[..|line| - 1][i] == c;
    }
  }
}
