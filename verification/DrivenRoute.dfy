/** `_plan_global_route` as a whole, from the voxel map to the waypoints that are driven in the
    odometry frame: robot_brain/navigation/native_go2.py:406-443. */
module DrivenRoute {
  import opened RealMath
  import opened Grid
  import opened Dilation
  import opened MetricDisc
  import opened Poses
  import opened Costmap
  import opened Clearance
  import opened Polyline
  import opened SearchGraph
  import opened Planner
  import opened GlobalRoute
  import opened RouteWaypoints
  import opened VoxelContent
  import opened VoxelGrid

  /** What the client knows when an absolute goal arrives; the transform is absent until the robot
      has been localized in the map. */
  datatype Navigator = Navigator(
    resolution: real, content: Content, mapFromOdom: Option<Pose>, mapSize: real, robotRadius: real)

  function Position(p: Pose): Point { Point(p.x, p.y) }

  function InOdom(trig: Trig, transform: Pose, p: Point): Point {
    Position(MapToOdom(trig, Pose(p.x, p.y, 0.0), transform).pose)
  }

  function AllInOdom(trig: Trig, transform: Pose, points: seq<Point>): seq<Point> {
    seq(|points|, i requires 0 <= i < |points| => InOdom(trig, transform, points[i]))
  }

  /** The robot's place in the map, from its odometry pose. */
  function Here(trig: Trig, transform: Pose, current: Pose): Point {
    Position(OdomToMap(trig, Some(FramedPose(current, "odom")), transform).value.pose)
  }

  /** The map window around the robot and its goal. */
  function WindowFor(sqrt: real -> real, n: Navigator, here: Point, goal: Point): Window {
    Window((here.x + goal.x) / 2.0, (here.y + goal.y) / 2.0, Greater(n.mapSize, SegmentLength(sqrt, here, goal) + 4.0),
           0.05, 1.20, n.robotRadius, "map")
  }

  function MapGrid(sqrt: real -> real, n: Navigator, here: Point, goal: Point): OccupancyGrid
    requires n.resolution > 0.0
  {
    OccupancyGridOf(n.resolution, n.content, WindowFor(sqrt, n, here, goal))
  }

  /** In the map: the route after its first point, and then the exact goal unless the route ends
      within five centimetres of it. */
  function Waypoints(sqrt: real -> real, route: seq<Point>, goal: Point): seq<Point>
    requires route != []
  {
    var rest := route[1..];
    if rest == [] || SegmentLength(sqrt, rest[|rest| - 1], goal) > 0.05 then rest + [goal] else rest
  }

  /** The odometry frame shows all distances of the map. */
  lemma OdomKeepsLength(sqrt: real -> real, trig: Trig, transform: Pose, a: Point, b: Point)
    requires trig.Lawful()
    ensures SegmentLength(sqrt, InOdom(trig, transform, a), InOdom(trig, transform, b)) == SegmentLength(sqrt, a, b)
  {
    var (h, k, u, v) := (a.x - transform.x, a.y - transform.y, b.x - transform.x, b.y - transform.y);
    InOdomIsDelta(trig, transform, a);
    InOdomIsDelta(trig, transform, b);
    DeltaKeepsLength(sqrt, trig, transform.yaw, h, k, u, v);
    assert u - h == b.x - a.x && v - k == b.y - a.y;
  }

  lemma InOdomIsDelta(trig: Trig, transform: Pose, p: Point)
    ensures InOdom(trig, transform, p) == WorldDeltaToBody(trig, p.x - transform.x, p.y - transform.y, transform.yaw)
  {
  }

  lemma DeltaKeepsLength(sqrt: real -> real, trig: Trig, yaw: real, x: real, y: real, u: real, v: real)
    requires trig.Lawful()
    ensures SegmentLength(sqrt, WorldDeltaToBody(trig, x, y, yaw), WorldDeltaToBody(trig, u, v, yaw)) == Hypot(sqrt, u - x, v - y)
  {
    assert trig.UnitAt(yaw);
    var (c, s) := (trig.cos(yaw), trig.sin(yaw));
    var (p, q) := (WorldDeltaToBody(trig, x, y, yaw), WorldDeltaToBody(trig, u, v, yaw));
    Spread(c, s, x, y, u, v);
    TurnedDelta(c, s, u - x, v - y, q.x - p.x, q.y - p.y);
    SameHypot(sqrt, q.x - p.x, q.y - p.y, u - x, v - y);
  }

  lemma Spread(c: real, s: real, x: real, y: real, u: real, v: real)
    ensures c * u + s * v - (c * x + s * y) == c * (u - x) + s * (v - y)
    ensures -s * u + c * v - (-s * x + c * y) == c * (v - y) - s * (u - x)
  {
  }

  lemma TurnedDelta(c: real, s: real, h: real, k: real, dx: real, dy: real)
    requires c * c + s * s == 1.0 && dx == c * h + s * k && dy == c * k - s * h
    ensures dx * dx + dy * dy == h * h + k * k
  {
    assert (c * h + s * k) * (c * h + s * k) + (c * k - s * h) * (c * k - s * h) == (c * c + s * s) * (h * h + k * k);
  }

  lemma SameHypot(sqrt: real -> real, x: real, y: real, u: real, v: real)
    requires x * x + y * y == u * u + v * v
    ensures Hypot(sqrt, x, y) == Hypot(sqrt, u, v)
  {
  }

  /** The tail of the function: change the frame, and append the target if it is not there yet. */
  method ToOdom(sqrt: real -> real, trig: Trig, transform: Pose, route: seq<Point>, goal: Pose) returns (driven: seq<Point>)
    requires trig.Lawful() && route != []
    ensures driven == AllInOdom(trig, transform, Waypoints(sqrt, route, Position(goal)))
  {
    var rest := route[1..];
    driven := AllInOdom(trig, transform, rest);
    var target := Position(MapToOdom(trig, goal, transform).pose);
    assert target == InOdom(trig, transform, Position(goal));
    if driven != [] {
      OdomKeepsLength(sqrt, trig, transform, rest[|rest| - 1], Position(goal));
    }
    if driven == [] || SegmentLength(sqrt, driven[|driven| - 1], target) > 0.05 {
      driven := driven + [target];
      assert driven == AllInOdom(trig, transform, rest + [Position(goal)]);
    }
  }

  /** The plan behind a route: the costed grid, the cells of the path and the route through the map. */
  datatype Plan = Plan(grid: OccupancyGrid, cells: seq<Cell>, route: seq<Point>)

  /** The map grid with the costs of its own obstacles. */
  ghost predicate IsCostedGrid(sqrt: real -> real, n: Navigator, here: Point, goal: Point, grid: OccupancyGrid)
    requires n.resolution > 0.0
  {
    && grid == MapGrid(sqrt, n, here, goal).(traversalCosts := grid.traversalCosts)
    && HasObstacleCosts(sqrt, grid, Ceiling(1.0 / n.resolution))
  }

  ghost predicate IsPlan(sqrt: real -> real, n: Navigator, here: Point, goal: Point, plan: Plan)
    requires n.resolution > 0.0
  {
    && IsCostedGrid(sqrt, n, here, goal, plan.grid)
    && IsCheapestRoute(sqrt, plan.grid, here, goal, n.robotRadius, plan.cells)
    && IsResampledFrom(plan.grid, plan.cells, plan.route) && GapsWithin(Gaps(sqrt), plan.route, 1.5)
  }

  /** The whole function. There is no route exactly when the robot is not localized, the goal is
      more than thirty metres away or the proven part of the map does not connect the two;
      otherwise the robot drives the plan's waypoints, seen from its odometry frame. */
  method PlanGlobalRoute(sqrt: real -> real, trig: Trig, n: Navigator, current: Pose, goal: Pose)
    returns (r: Result<seq<Point>>, ghost plan: Plan)
    requires IsSqrt(sqrt) && trig.Lawful() && n.resolution > 0.0
    ensures n.mapFromOdom.None? ==> r.Err?
    ensures n.mapFromOdom.Some? ==>
      var here := Here(trig, n.mapFromOdom.value, current);
      && (r.Ok? <==> SegmentLength(sqrt, here, Position(goal)) <= 30.0
                     && HasRoute(sqrt, MapGrid(sqrt, n, here, Position(goal)), here, Position(goal), n.robotRadius))
      && (r.Ok? ==>
            && IsPlan(sqrt, n, here, Position(goal), plan) && plan.route != []
            && r.value == AllInOdom(trig, n.mapFromOdom.value, Waypoints(sqrt, plan.route, Position(goal))))
  {
    plan := Plan(OccupancyGridOf(n.resolution, n.content, Window(0.0, 0.0, 0.0, 0.0, 0.0, 0.0, "map")), [], []);
    if n.mapFromOdom.None? {
      return Err("persistent map localization is unavailable"), plan;
    }
    var transform := n.mapFromOdom.value;
    var here, there := Here(trig, transform, current), Position(goal);
    if SegmentLength(sqrt, here, there) > 30.0 {
      return Err("absolute goal exceeds bounded global range"), plan;
    }
    var plain := MapGrid(sqrt, n, here, there);
    var costed := WithObstacleDistanceCosts(sqrt, plain, 1.0);
    CostsDoNotConnect(sqrt, plain, costed.value, here, there, n.robotRadius);
    var route;
    ghost var cells;
    route, cells := PlanOnMap(sqrt, costed.value, here, there, n.robotRadius);
    if route.Err? {
      return route, plan;
    }
    plan := Plan(costed.value, cells, route.value);
    var driven := ToOdom(sqrt, trig, transform, route.value, goal);
    r := Ok(driven);
  }

  /** Costs decide which route is taken, not whether there is one. */
  lemma CostsDoNotConnect(sqrt: real -> real, plain: OccupancyGrid, costed: OccupancyGrid, start: Point, goal: Point, clearance: real)
    requires plain.Valid() && costed == plain.(traversalCosts := costed.traversalCosts)
    ensures HasRoute(sqrt, plain, start, goal, clearance) <==> HasRoute(sqrt, costed, start, goal, clearance)
  {
    var from, to := plain.WorldToCell(start), plain.WorldToCell(goal);
    if from.Some? && to.Some? {
      SameStepsConnect(PlanningGraph(KnownFreeOnlyGrid(plain, start, clearance), from.value, to.value, 3.0, sqrt),
                       PlanningGraph(KnownFreeOnlyGrid(costed, start, clearance), from.value, to.value, 3.0, sqrt), from.value, to.value);
    }
  }

  lemma SameStepsConnect(g: Graph, h: Graph, start: Cell, goal: Cell)
    requires forall a, b :: g.step(a, b) == h.step(a, b)
    ensures Reachable(g, start, goal) <==> Reachable(h, start, goal)
  {
    if path :| IsPath(g, start, goal, path) {
      assert IsPath(h, start, goal, path);
    }
    if path :| IsPath(h, start, goal, path) {
      assert IsPath(g, start, goal, path);
    }
  }

  /** Every waypoint that is driven lies in the start cell or a proven one, and the last is within
      five centimetres of the goal. */
  lemma DrivenRouteIsProven(sqrt: real -> real, n: Navigator, here: Point, goal: Point, plan: Plan)
    requires IsSqrt(sqrt) && n.resolution > 0.0000005 && IsPlan(sqrt, n, here, goal, plan)
    ensures plan.route != []
    ensures var waypoints := Waypoints(sqrt, plan.route, goal);
      && (forall i :: 0 <= i < |waypoints| ==>
            IsStartOrProven(plan.grid, plan.grid.WorldToCell(here).value, ClearanceCells(plan.grid, n.robotRadius), waypoints[i]))
      && waypoints != [] && SegmentLength(sqrt, waypoints[|waypoints| - 1], goal) <= 0.05
  {
    ResampledEnds(plan.grid, plan.cells, plan.route);
    ResampledIsProven(sqrt, plan.grid, here, goal, n.robotRadius, plan.cells, plan.route);
    GoalIsProven(sqrt, plan.grid, here, goal, n.robotRadius, plan.cells);
    HypotZero(sqrt);
  }

  /** So no waypoint of a driven route, the exact goal included, lies anywhere but in the start
      cell or in a column that rays have crossed, with no stored obstacle voxel of the window
      within the robot's inflation radius. */
  lemma DrivenRouteAvoidsVoxels(sqrt: real -> real, n: Navigator, here: Point, goal: Point, plan: Plan, i: nat, v: Voxel)
    requires IsSqrt(sqrt) && n.resolution > 0.0000005 && IsPlan(sqrt, n, here, goal, plan) && plan.route != []
    requires i < |Waypoints(sqrt, plan.route, goal)|
    requires v in n.content.hits && IsObstacle(n.resolution, WindowFor(sqrt, n, here, goal), v)
    ensures var w, c := WindowFor(sqrt, n, here, goal), plan.grid.WorldToCell(Waypoints(sqrt, plan.route, goal)[i]);
      var o := Cell(v.x - MapColumn(n.resolution, w, Cell(0, 0)).col, v.y - MapColumn(n.resolution, w, Cell(0, 0)).row);
      && c.Some?
      && (c == plan.grid.WorldToCell(here)
          || (MapColumn(n.resolution, w, c.value) in n.content.free
              && (InWindow(WindowCells(n.resolution, w), WindowCells(n.resolution, w), o) ==>
                    !InDisc(o, c.value, Inflation(n.resolution, w)))))
  {
    DrivenRouteIsProven(sqrt, n, here, goal, plan);
    var p := Waypoints(sqrt, plan.route, goal)[i];
    if plan.grid.WorldToCell(p) != plan.grid.WorldToCell(here) {
      WaypointAvoidsVoxels(n.resolution, n.content, WindowFor(sqrt, n, here, goal), plan.grid.traversalCosts,
                           plan.grid.WorldToCell(here).value, ClearanceCells(plan.grid, n.robotRadius), p, v);
    }
  }

  // ----- in metres -----

  lemma CostsKeepGaps(sqrt: real -> real, plain: OccupancyGrid, costed: OccupancyGrid, a: Cell, b: Cell)
    requires costed == plain.(traversalCosts := costed.traversalCosts)
    ensures CentreGap(sqrt, costed, a, b) == CentreGap(sqrt, plain, a, b)
  {
  }

  /** A proven cell other than the start's, seen from the ground: obstacle voxels are further away than
      the robot's radius, and beyond the surroundings of the start every column within that
      radius was seen free. */
  lemma ProvenInMetres(sqrt: real -> real, n: Navigator, here: Point, goal: Point, grid: OccupancyGrid, start: Cell, c: Cell)
    requires IsSqrt(sqrt) && n.resolution > 0.0
    requires grid == MapGrid(sqrt, n, here, goal).(traversalCosts := grid.traversalCosts)
    requires grid.Inside(c) && IsProven(grid, start, ClearanceCells(grid, n.robotRadius), c)
    ensures var w := WindowFor(sqrt, n, here, goal); var column := MapColumn(n.resolution, w, c);
      && column in n.content.free
      && (forall v | v in n.content.hits && IsObstacle(n.resolution, w, v) && grid.WorldToCell(ColumnPoint(n.resolution, Column(v))).Some? ::
            ColumnGap(sqrt, n.resolution, Column(v), column) > n.robotRadius)
      && (ColumnGap(sqrt, n.resolution, MapColumn(n.resolution, w, start), column) >= Positive(n.robotRadius) + n.resolution ==>
            forall other :: ColumnGap(sqrt, n.resolution, column, other) <= n.robotRadius ==> other in n.content.free)
  {
    var w, plain := WindowFor(sqrt, n, here, goal), MapGrid(sqrt, n, here, goal);
    var column := MapColumn(n.resolution, w, c);
    FreeWasSeen(n.resolution, n.content, w, c);
    OccupiedInMetres(sqrt, n.resolution, n.content, w, c);
    if ColumnGap(sqrt, n.resolution, MapColumn(n.resolution, w, start), column) >= Positive(n.robotRadius) + n.resolution {
      forall other | ColumnGap(sqrt, n.resolution, column, other) <= n.robotRadius ensures other in n.content.free {
        FarFromStart(sqrt, n, here, goal, grid, start, c, other);
      }
    }
  }

  lemma FarFromStart(sqrt: real -> real, n: Navigator, here: Point, goal: Point, grid: OccupancyGrid, start: Cell, c: Cell, other: Cell)
    requires IsSqrt(sqrt) && n.resolution > 0.0
    requires grid == MapGrid(sqrt, n, here, goal).(traversalCosts := grid.traversalCosts)
    requires IsProven(grid, start, ClearanceCells(grid, n.robotRadius), c)
    requires var w := WindowFor(sqrt, n, here, goal); var column := MapColumn(n.resolution, w, c);
      && ColumnGap(sqrt, n.resolution, MapColumn(n.resolution, w, start), column) >= Positive(n.robotRadius) + n.resolution
      && ColumnGap(sqrt, n.resolution, column, other) <= n.robotRadius
    ensures other in n.content.free
  {
    var w, plain := WindowFor(sqrt, n, here, goal), MapGrid(sqrt, n, here, goal);
    var o := CellOfColumn(n.resolution, w, other);
    CellOfColumnExactly(n.resolution, n.content, w, other);
    DiscInMetres(sqrt, plain, n.robotRadius, start, c);
    DiscInMetres(sqrt, plain, n.robotRadius, c, o);
    GapIsColumnGap(sqrt, n.resolution, n.content, w, start, c);
    GapIsColumnGap(sqrt, n.resolution, n.content, w, c, o);
    assert IsFree(grid, o);
    FreeWasSeen(n.resolution, n.content, w, o);
  }

  /** A voxel of the grid's window, as high above the ground as an obstacle. */
  predicate StandsOn(resolution: real, grid: OccupancyGrid, v: Voxel)
    requires grid.Valid()
  {
    0.05 <= (v.z as real + 0.5) * resolution <= 1.20 && grid.WorldToCell(ColumnPoint(resolution, Column(v))).Some?
  }

  /** What the robot's radius means for a driven route, in metres and map columns alone. Around every
      waypoint outside the start's cell no stored obstacle voxel of the window, between 5 cm and
      1.20 m high, stands within the radius of its column; and a radius and a cell away from the
      start, every column within the radius was seen free. */
  lemma DrivenRouteInMetres(sqrt: real -> real, n: Navigator, here: Point, goal: Point, plan: Plan, i: nat)
    returns (column: Cell, startColumn: Cell)
    requires IsSqrt(sqrt) && n.resolution > 0.0000005 && IsPlan(sqrt, n, here, goal, plan) && plan.route != []
    requires i < |Waypoints(sqrt, plan.route, goal)|
    ensures var p := Waypoints(sqrt, plan.route, goal)[i];
      && InColumn(n.resolution, p, column) && InColumn(n.resolution, here, startColumn)
    ensures column != startColumn ==>
      && column in n.content.free
      && (forall v | v in n.content.hits && StandsOn(n.resolution, plan.grid, v) ::
            ColumnGap(sqrt, n.resolution, Column(v), column) > n.robotRadius)
      && (ColumnGap(sqrt, n.resolution, startColumn, column) >= Positive(n.robotRadius) + n.resolution ==>
            forall other :: ColumnGap(sqrt, n.resolution, column, other) <= n.robotRadius ==> other in n.content.free)
  {
    DrivenRouteIsProven(sqrt, n, here, goal, plan);
    var w, p := WindowFor(sqrt, n, here, goal), Waypoints(sqrt, plan.route, goal)[i];
    var start, c := plan.grid.WorldToCell(here).value, plan.grid.WorldToCell(p).value;
    column, startColumn := MapColumn(n.resolution, w, c), MapColumn(n.resolution, w, start);
    CellIsColumn(n, w, p, c);
    CellIsColumn(n, w, here, start);
    if c != start {
      ProvenInMetres(sqrt, n, here, goal, plan.grid, start, c);
    }
  }

  /** The map column that a point of the map lies in. */
  predicate InColumn(resolution: real, p: Point, column: Cell) {
    && column.col as real * resolution <= p.x < (column.col + 1) as real * resolution
    && column.row as real * resolution <= p.y < (column.row + 1) as real * resolution
  }

  lemma CellIsColumn(n: Navigator, w: Window, p: Point, c: Cell)
    requires n.resolution > 0.0 && OccupancyGridOf(n.resolution, n.content, w).WorldToCell(p) == Some(c)
    ensures InColumn(n.resolution, p, MapColumn(n.resolution, w, c))
  {
    var cells := WindowCells(n.resolution, w);
    IndexInColumn(n.resolution, FirstColumn(n.resolution, cells, w.centreX), p.x, c.col);
    IndexInColumn(n.resolution, FirstColumn(n.resolution, cells, w.centreY), p.y, c.row);
  }

  lemma IndexInColumn(resolution: real, first: int, x: real, i: int)
    requires resolution > 0.0 && AxisIndex(x, ColumnEdge(resolution, first), resolution) == i
    ensures (i + first) as real * resolution <= x < (i + first + 1) as real * resolution
  {
    var q := (x - first as real * resolution) / resolution;
    assert q * resolution == x - first as real * resolution;
    assert i as real <= q < (i + 1) as real;
    var below := ProductSign(q - i as real, resolution);
    var above := ProductSign((i + 1) as real - q, resolution);
    assert below == q * resolution - i as real * resolution;
    assert above == (i + 1) as real * resolution - q * resolution;
    assert (i + first) as real * resolution == i as real * resolution + first as real * resolution;
    assert (i + first + 1) as real * resolution == (i + 1) as real * resolution + first as real * resolution;
  }
}
