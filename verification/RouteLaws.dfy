/** Which of the ways over proven ground a global route is, and what the ways cost:
    robot_brain/navigation/native_go2.py:406-443 and grid.py:50-103. */
module RouteLaws {
  import opened RealMath
  import opened Grid
  import opened Poses
  import opened Clearance
  import opened Octile
  import opened WindowDistance
  import opened DistanceCosts
  import opened Costmap
  import opened Planner
  import opened GlobalRoute
  import opened DrivenRoute

  /** The way from one cell to another over open ground, in metres. */
  function OpenWay(sqrt: real -> real, grid: OccupancyGrid, o: Cell, c: Cell): real {
    OctileDistance(sqrt(2.0), o, c) * grid.resolution
  }

  ghost predicate IsObstacleWithin(sqrt: real -> real, grid: OccupancyGrid, c: Cell, o: Cell, length: real) {
    o in grid.occupied && grid.Inside(o) && OpenWay(sqrt, grid, o, c) <= length
  }

  ghost predicate HasObstacleWithin(sqrt: real -> real, grid: OccupancyGrid, c: Cell, length: real) {
    exists o :: IsObstacleWithin(sqrt, grid, c, o, length)
  }

  lemma OctileApart(root2: real, a: Cell, b: Cell)
    requires root2 >= 1.0
    ensures OctileDistance(root2, a, b) >= 0.0 && (OctileDistance(root2, a, b) == 0.0 <==> a == b)
  {
    var (dx, dy) := (Abs(b.col - a.col), Abs(b.row - a.row));
    var diagonal := ProductSign(Min(dx, dy) as real, root2);
    assert diagonal == root2 * Min(dx, dy) as real;
    assert a == b <==> dx == 0 && dy == 0;
  }

  lemma RootAtLeastOne(sqrt: real -> real)
    requires IsSqrt(sqrt)
    ensures sqrt(2.0) >= 1.0
  {
    SquareOrder(1.0, sqrt(2.0));
  }

  /** A length in whole cells, rounded up. */
  lemma RangeInCells(distance: real, range: real, resolution: real, radius: int)
    requires distance >= 0.0 && range > 0.0 && resolution > 0.0 && radius == Ceiling(range / resolution)
    ensures radius > 0
    ensures distance * resolution <= range ==> distance <= radius as real
    ensures distance <= radius as real ==> distance * resolution < range + resolution
  {
    var q := range / resolution;
    assert q * resolution == range && q > 0.0;
    var within := ProductSign(q - distance, resolution);
    assert within == range - distance * resolution;
    var beyond := ProductSign(q + 1.0 - distance, resolution);
    assert beyond == range + resolution - distance * resolution;
  }

  /** Cells near an obstacle cost something, up to 99; obstacles themselves and cells out of range cost nothing. */
  lemma CostInMetres(sqrt: real -> real, grid: OccupancyGrid, range: real, c: Cell)
    requires IsSqrt(sqrt) && grid.Valid() && range > 0.0 && grid.Inside(c)
    requires HasObstacleCosts(sqrt, grid, Ceiling(range / grid.resolution))
    ensures 0 <= grid.TraversalCost(c) <= 99 && (c in grid.occupied ==> grid.TraversalCost(c) == 0)
    ensures c !in grid.occupied && HasObstacleWithin(sqrt, grid, c, range) ==> grid.TraversalCost(c) >= 1
    ensures grid.TraversalCost(c) >= 1 ==> HasObstacleWithin(sqrt, grid, c, range + grid.resolution)
  {
    CostOfCell(sqrt, grid, range, Ceiling(range / grid.resolution), c, grid.TraversalCost(c));
  }

  lemma CostOfCell(sqrt: real -> real, grid: OccupancyGrid, range: real, radius: int, c: Cell, cost: int)
    requires IsSqrt(sqrt) && grid.Valid() && range > 0.0 && radius == Ceiling(range / grid.resolution) && grid.Inside(c)
    requires IsObstacleCost(sqrt(2.0), ObstaclesOn(grid.width, grid.height, grid.occupied), radius, c, cost)
    ensures 0 <= cost <= 99 && (c in grid.occupied ==> cost == 0)
    ensures c !in grid.occupied && HasObstacleWithin(sqrt, grid, c, range) ==> cost >= 1
    ensures cost >= 1 ==> HasObstacleWithin(sqrt, grid, c, range + grid.resolution)
  {
    var sources := ObstaclesOn(grid.width, grid.height, grid.occupied);
    RangeInCells(0.0, range, grid.resolution, radius);
    assert c in grid.occupied ==> c in sources;
    if sources == {} {
      assert forall o :: o in grid.occupied && grid.Inside(o) ==> o in sources;
    } else {
      var s, d := NearestSource(sqrt, sources, radius, c, cost);
      CostMeans(d, radius);
      if d <= radius as real {
        WayInCells(sqrt, grid, s, c, range);
        assert IsObstacleWithin(sqrt, grid, c, s, range + grid.resolution);
      }
      if o :| IsObstacleWithin(sqrt, grid, c, o, range) {
        WayInCells(sqrt, grid, o, c, range);
        assert o in sources;
      }
    }
  }

  lemma WayInCells(sqrt: real -> real, grid: OccupancyGrid, o: Cell, c: Cell, range: real)
    requires IsSqrt(sqrt) && grid.Valid() && range > 0.0
    ensures var (cells, radius) := (OctileDistance(sqrt(2.0), o, c), Ceiling(range / grid.resolution));
      && (OpenWay(sqrt, grid, o, c) <= range ==> cells <= radius as real)
      && (cells <= radius as real ==> OpenWay(sqrt, grid, o, c) < range + grid.resolution)
  {
    RootAtLeastOne(sqrt);
    OctileApart(sqrt(2.0), o, c);
    RangeInCells(OctileDistance(sqrt(2.0), o, c), range, grid.resolution, Ceiling(range / grid.resolution));
  }

  /** The obstacle whose distance decides, and that distance: nothing exactly on the obstacles. */
  lemma NearestSource(sqrt: real -> real, sources: set<Cell>, radius: int, c: Cell, cost: int) returns (s: Cell, d: real)
    requires IsSqrt(sqrt) && sources != {} && radius > 0 && IsObstacleCost(sqrt(2.0), sources, radius, c, cost)
    ensures s in sources && d == OctileDistance(sqrt(2.0), s, c) && cost == CostAt(d, radius)
    ensures d >= 0.0 && (d == 0.0 <==> c in sources)
    ensures forall o :: o in sources ==> d <= OctileDistance(sqrt(2.0), o, c)
  {
    NearestExists(OctileFrom(sqrt(2.0)), sources, c);
    var depth, rank :| IsNearest(OctileFrom(sqrt(2.0)), sources, c, depth, rank);
    s :| s in sources && depth == OctileFrom(sqrt(2.0))(s, c) && rank == KingDistance(s, c);
    d := depth;
    RootAtLeastOne(sqrt);
    OctileApart(sqrt(2.0), s, c);
    OctileApart(sqrt(2.0), c, c);
    forall o | o in sources ensures d <= OctileDistance(sqrt(2.0), o, c) {
      assert depth <= OctileFrom(sqrt(2.0))(o, c);
    }
  }

  /** A driven route follows the best tour over proven cells: its length, plus three hundredths of each
      step for every point of cost of the cell it enters, is least. The costs reach a metre from the obstacles. */
  lemma DrivenRouteIsBestTour(sqrt: real -> real, n: Navigator, here: Point, goal: Point, plan: Plan)
    returns (safe: OccupancyGrid, start: Cell, end: Cell)
    requires IsSqrt(sqrt) && n.resolution > 0.0 && IsPlan(sqrt, n, here, goal, plan)
    ensures safe == KnownFreeOnlyGrid(plan.grid, here, n.robotRadius)
    ensures plan.grid.WorldToCell(here) == Some(start) && plan.grid.WorldToCell(goal) == Some(end)
    ensures IsBestTour(sqrt, safe, start, end, 3.0, plan.cells) && safe.traversalCosts == plan.grid.traversalCosts
    ensures HasObstacleCosts(sqrt, plan.grid, Ceiling(1.0 / plan.grid.resolution))
  {
    safe := KnownFreeOnlyGrid(plan.grid, here, n.robotRadius);
    start, end := plan.grid.WorldToCell(here).value, plan.grid.WorldToCell(goal).value;
    CheapestIsBest(sqrt, safe, start, end, 3.0, plan.cells);
  }

  /** What is driven: the route without its first point, and after it the goal unless the route ends within 5 cm of it. */
  lemma WaypointsAre(sqrt: real -> real, route: seq<Point>, goal: Point)
    requires IsSqrt(sqrt) && route != []
    ensures var (driven, x, y) := (Waypoints(sqrt, route, goal), goal.x - route[|route| - 1].x, goal.y - route[|route| - 1].y);
      && |route| - 1 <= |driven| <= |route| && (forall i :: 0 < i < |route| ==> driven[i - 1] == route[i])
      && (|driven| == |route| ==> driven[|driven| - 1] == goal)
      && (|driven| == |route| <==> |route| == 1 || x * x + y * y > 0.0025)
  {
    var last := route[|route| - 1];
    var length, square := LengthSquared(sqrt, last, goal);
    FiveCentimetres(length, square);
    assert |route| > 1 ==> route[1..][|route| - 2] == last;
    assert |Waypoints(sqrt, route, goal)| == |route| <==> |route| == 1 || length > 0.05;
  }

  lemma LengthSquared(sqrt: real -> real, a: Point, b: Point) returns (length: real, square: real)
    requires IsSqrt(sqrt)
    ensures length == SegmentLength(sqrt, a, b) && length >= 0.0 && square == length * length
    ensures square == (b.x - a.x) * (b.x - a.x) + (b.y - a.y) * (b.y - a.y)
  {
    HypotSquare(sqrt, b.x - a.x, b.y - a.y);
    length, square := SegmentLength(sqrt, a, b), (b.x - a.x) * (b.x - a.x) + (b.y - a.y) * (b.y - a.y);
  }

  lemma FiveCentimetres(length: real, square: real)
    requires length >= 0.0 && square == length * length
    ensures length > 0.05 <==> square > 0.0025
  {
    if length > 0.05 {
      var more := ProductSign(length - 0.05, length + 0.05);
      assert more == length * length - 0.0025;
    } else {
      SquareBelow(length);
    }
  }

  lemma SquareBelow(length: real)
    requires 0.0 <= length <= 0.05
    ensures length * length <= 0.0025
  {
    var left := ProductSign(0.05 - length, 0.05 + length);
    assert left == 0.0025 - length * length;
  }

  /** The robot's place in the map is its odometry place turned and shifted by the transform, and seen
      from the odometry frame again it is that place. */
  lemma HereIsCurrent(trig: Trig, transform: Pose, current: Pose)
    requires trig.Lawful()
    ensures Here(trig, transform, current) == Place(trig, transform, Position(current))
    ensures InOdom(trig, transform, Here(trig, transform, current)) == Position(current)
  {
    FramesAreInverse(trig, current, "odom", transform);
  }
}
