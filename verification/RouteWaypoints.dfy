/** From the map to the waypoints that are driven: the planning steps of `_plan_global_route`,
    robot_brain/navigation/native_go2.py:421-432, on the inflated map grid. */
module RouteWaypoints {
  import opened RealMath
  import opened Grid
  import opened Neighbourhood
  import opened SearchGraph
  import opened PathGeometry
  import opened Planner
  import opened GlobalRoute
  import opened Polyline

  /** `c` is the `j`th cell of a walk, the one before it, or one of the two corners between them
      when the step is diagonal. */
  ghost predicate OnStep(cells: seq<Cell>, j: nat, c: Cell)
    requires j < |cells|
  {
    c == cells[j] || (j > 0 && (c == cells[j - 1] || (Diagonal(cells[j - 1], cells[j]) && IsCorner(cells[j - 1], cells[j], c))))
  }

  predicate IsCorner(a: Cell, b: Cell, c: Cell) {
    c == Cell(b.col, a.row) || c == Cell(a.col, b.row)
  }

  /** Where a point falls on the grid, window or not. */
  function CellAround(grid: OccupancyGrid, p: Point): Cell
    requires grid.Valid()
  {
    Cell(AxisIndex(p.x, grid.originX, grid.resolution), AxisIndex(p.y, grid.originY, grid.resolution))
  }

  /** The column or row `s` steps along an axis in direction `d` from a cell's centre. */
  function StepsAlong(from: int, d: int, s: real): int {
    (from as real + 0.5 + d as real * s).Floor
  }

  /** How much of a run of `n` steps lies before part `i` of `steps`. */
  function Portion(n: nat, i: nat, steps: nat): real
    requires steps > 0
  {
    n as real * (i as real / steps as real)
  }

  lemma PortionWithin(n: nat, i: nat, steps: nat)
    requires steps > 0 && i <= steps
    ensures 0.0 <= Portion(n, i, steps) <= n as real
  {
    var t := i as real / steps as real;
    assert t * steps as real == i as real;
    assert 0.0 <= t <= 1.0;
    MultiplyMonotone(n as real, n as real, t, 1.0);
  }

  /** A coordinate is that of the nearest step, or of the one before it: half-way between two
      steps, an axis walked backwards still shows the earlier one. */
  lemma NearestStep(from: int, d: int, n: nat, s: real, k: int) returns (m: nat)
    requires -1 <= d <= 1 && 0.0 <= s <= n as real && k == (s + 0.5).Floor
    ensures 0 <= k <= n && (m == k || m + 1 == k)
    ensures StepsAlong(from, d, s) == from + d * m
  {
    m := if d == -1 && k as real == s + 0.5 then k - 1 else k;
    assert d as real * s == (if d == 0 then 0.0 else if d == 1 then s else -s);
    assert d * m == (if d == 0 then 0 else if d == 1 then m else 0 - m);
  }

  lemma AxisAlong(origin: real, resolution: real, from: int, to: int, d: int, n: nat, i: nat, steps: nat)
    requires resolution > 0.0 && steps > 0 && to == from + n * d
    ensures var a, b := AxisCentre(from, origin, resolution), AxisCentre(to, origin, resolution);
            AxisIndex(Part(a, b, i, steps), origin, resolution) == StepsAlong(from, d, Portion(n, i, steps))
  {
    var a, b := AxisCentre(from, origin, resolution), AxisCentre(to, origin, resolution);
    AxisSpan(origin, resolution, from, d, n);
    PartOfSpan(b - a, i as real, steps as real);
    var start, t := from as real + 0.5, i as real / steps as real;
    var far := start + d as real * Portion(n, i, steps);
    SpanToOffset(resolution, start, d as real, n as real, t);
    StartPlus(Part(a, b, i, steps), origin, (b - a) * t, start, resolution, far);
    OffsetIndex(Part(a, b, i, steps), origin, resolution, far);
  }

  lemma StartPlus(x: real, origin: real, way: real, start: real, resolution: real, far: real)
    requires x == origin + start * resolution + way && start * resolution + way == far * resolution
    ensures x - origin == far * resolution
  {
  }

  lemma OffsetIndex(x: real, origin: real, resolution: real, far: real)
    requires resolution > 0.0 && x - origin == far * resolution
    ensures AxisIndex(x, origin, resolution) == far.Floor
  {
    DivideProduct(far, resolution);
  }

  lemma AxisSpan(origin: real, resolution: real, from: int, d: int, n: nat)
    ensures AxisCentre(from + n * d, origin, resolution) - AxisCentre(from, origin, resolution)
         == (n as real * d as real) * resolution
  {
    assert (from + n * d) as real == from as real + n as real * d as real;
  }

  lemma PartOfSpan(span: real, i: real, steps: real)
    requires steps > 0.0
    ensures span * i / steps == span * (i / steps)
  {
    assert span * (i / steps) * steps == span * i;
    DivideProduct(span * (i / steps), steps);
  }

  lemma SpanToOffset(resolution: real, start: real, d: real, n: real, t: real)
    ensures start * resolution + ((n * d) * resolution) * t == (start + d * (n * t)) * resolution
  {
    assert ((n * d) * resolution) * t == (d * (n * t)) * resolution;
  }

  lemma CellAlong(grid: OccupancyGrid, a: Cell, b: Cell, dc: int, dr: int, n: nat, i: nat, steps: nat)
    requires grid.Valid() && steps > 0 && b == Cell(a.col + n * dc, a.row + n * dr)
    ensures CellAround(grid, Along(grid.CellToWorld(a), grid.CellToWorld(b), i, steps))
         == Cell(StepsAlong(a.col, dc, Portion(n, i, steps)), StepsAlong(a.row, dr, Portion(n, i, steps)))
  {
    AxisAlong(grid.originX, grid.resolution, a.col, b.col, dc, n, i, steps);
    AxisAlong(grid.originY, grid.resolution, a.row, b.row, dr, n, i, steps);
  }

  /** The cell of every point on a straight run of a walk is a cell of the run or a corner of one
      of its diagonal steps. */
  lemma RunPoint(grid: OccupancyGrid, cells: seq<Cell>, a: nat, b: nat, i: nat, steps: nat) returns (j: nat)
    requires grid.Valid() && grid.resolution > 0.0000005 && IsWalk(grid, cells) && a < b < |cells|
    requires NoTurnBetween(Centres(grid, cells), a, b) && steps > 0 && i <= steps
    ensures a <= j <= b
    ensures OnStep(cells, j, CellAround(grid, Along(grid.CellToWorld(cells[a]), grid.CellToWorld(cells[b]), i, steps)))
  {
    var n, dc, dr := b - a, cells[a + 1].col - cells[a].col, cells[a + 1].row - cells[a].row;
    assert Adjacent(cells[a], cells[a + 1]);
    StraightRun(grid, cells, a, b, n);
    CellAlong(grid, cells[a], cells[b], dc, dr, n, i, steps);
    PortionWithin(n, i, steps);
    var s := Portion(n, i, steps);
    var k := (s + 0.5).Floor;
    var mc := NearestStep(cells[a].col, dc, n, s, k);
    var mr := NearestStep(cells[a].row, dr, n, s, k);
    j := a + k;
    NearStep(grid, cells, a, b, k, mc, mr);
  }

  lemma NearStep(grid: OccupancyGrid, cells: seq<Cell>, a: nat, b: nat, k: nat, mc: nat, mr: nat)
    requires grid.resolution > 0.0000005 && IsWalk(grid, cells) && a < b < |cells| && k <= b - a
    requires NoTurnBetween(Centres(grid, cells), a, b)
    requires (mc == k || mc + 1 == k) && (mr == k || mr + 1 == k)
    ensures OnStep(cells, a + k, Cell(cells[a].col + (cells[a + 1].col - cells[a].col) * mc,
                                      cells[a].row + (cells[a + 1].row - cells[a].row) * mr))
  {
    StraightRun(grid, cells, a, b, k);
    StraightRun(grid, cells, a, b, mc);
    StraightRun(grid, cells, a, b, mr);
  }

  /** The segment of the simplified path that a resampled point lies on. */
  lemma MarkBefore(points: seq<Point>, result: seq<Point>, marks: seq<nat>, j: nat) returns (k: nat)
    requires IsResampling(points, result, marks) && |points| >= 2 && j < |result|
    ensures k < |points| - 1 && marks[k] <= j <= marks[k + 1]
  {
    k := 0;
    while marks[k + 1] < j
      invariant k < |points| - 1 && marks[k] <= j
      decreases |points| - k
    {
      k := k + 1;
    }
  }

  /** Every waypoint lies in a cell of the planned walk or in a corner that the walk passes. */
  lemma WaypointOnWalk(grid: OccupancyGrid, cells: seq<Cell>, path: seq<Point>, result: seq<Point>, marks: seq<nat>, i: nat)
    returns (j: nat)
    requires grid.Valid() && grid.resolution > 0.0000005 && IsWalk(grid, cells)
    requires SimplifiedFrom(grid, cells, path) && IsResampling(path, result, marks) && i < |result|
    ensures j < |cells|
    ensures OnStep(cells, j, CellAround(grid, result[i]))
  {
    var kept :| KeepsTurns(Centres(grid, cells), kept) && Selects(Centres(grid, cells), kept, path);
    if |path| == 1 {
      CellCentreRoundTrip(grid, cells[0]);
      assert CellAround(grid, path[0]) == cells[0];
      j := 0;
    } else {
      j := WaypointOnRun(grid, cells, kept, path, result, marks, i);
    }
  }

  lemma WaypointOnRun(grid: OccupancyGrid, cells: seq<Cell>, kept: seq<nat>, path: seq<Point>, result: seq<Point>,
                      marks: seq<nat>, i: nat) returns (j: nat)
    requires grid.Valid() && grid.resolution > 0.0000005 && IsWalk(grid, cells) && |path| >= 2
    requires KeepsTurns(Centres(grid, cells), kept) && Selects(Centres(grid, cells), kept, path)
    requires IsResampling(path, result, marks) && i < |result|
    ensures j < |cells| && OnStep(cells, j, CellAround(grid, result[i]))
  {
    var k := MarkBefore(path, result, marks, i);
    ConsecutiveKept(Centres(grid, cells), kept, k);
    PieceAt(path, result, marks, k, i);
    assert path[k] == grid.CellToWorld(cells[kept[k]]) && path[k + 1] == grid.CellToWorld(cells[kept[k + 1]]);
    j := RunPoint(grid, cells, kept[k], kept[k + 1], i - marks[k], marks[k + 1] - marks[k]);
  }

  lemma PieceAt(points: seq<Point>, result: seq<Point>, marks: seq<nat>, k: nat, i: nat)
    requires IsResampling(points, result, marks) && k < |points| - 1 && marks[k] <= i <= marks[k + 1]
    ensures marks[k] < marks[k + 1] < |result|
    ensures result[i] == Along(points[k], points[k + 1], i - marks[k], marks[k + 1] - marks[k])
  {
    assert DividesSegment(points, result, marks, k);
    var steps := marks[k + 1] - marks[k];
    assert result[marks[k]..marks[k + 1] + 1][i - marks[k]] == Evenly(points[k], points[k + 1], steps)[i - marks[k]];
  }

  /** A cell the robot may be sent to. */
  ghost predicate IsStartOrProven(grid: OccupancyGrid, start: Cell, radius: int, p: Point)
    requires grid.Valid()
  {
    var c := grid.WorldToCell(p);
    c.Some? && (c.value == start || IsProven(grid, start, radius, c.value))
  }

  lemma StepIsProven(sqrt: real -> real, grid: OccupancyGrid, startXY: Point, clearance: real, start: Cell, goal: Cell,
                     obstacleWeight: real, cells: seq<Cell>, j: nat, c: Cell)
    requires grid.Valid() && grid.WorldToCell(startXY) == Some(start)
    requires IsPath(PlanningGraph(KnownFreeOnlyGrid(grid, startXY, clearance), start, goal, obstacleWeight, sqrt),
                    start, goal, cells)
    requires j < |cells| && OnStep(cells, j, c)
    ensures grid.Inside(c) && (c == start || IsProven(grid, start, ClearanceCells(grid, clearance), c))
  {
    var safe := KnownFreeOnlyGrid(grid, startXY, clearance);
    var g := PlanningGraph(safe, start, goal, obstacleWeight, sqrt);
    if j > 0 {
      assert g.step(cells[j - 1], cells[j - 1 + 1]);
      assert j > 1 ==> g.step(cells[j - 2], cells[j - 2 + 1]);
    }
    if c != start {
      UnblockedIsProven(grid, startXY, clearance, start, c);
    }
  }

  lemma PathIsWalk(sqrt: real -> real, grid: OccupancyGrid, start: Cell, goal: Cell, obstacleWeight: real, cells: seq<Cell>)
    requires grid.Inside(start) && IsPath(PlanningGraph(grid, start, goal, obstacleWeight, sqrt), start, goal, cells)
    ensures IsWalk(grid, cells)
  {
    var g := PlanningGraph(grid, start, goal, obstacleWeight, sqrt);
    forall i | 0 <= i < |cells| ensures grid.Inside(cells[i]) {
      if i > 0 {
        assert g.step(cells[i - 1], cells[i - 1 + 1]);
      }
    }
  }

  /** Simplifying and resampling leave the proven space nowhere, not even where a straight piece
      runs exactly through the corner of two cells: there the planner's corner rule is what keeps
      the waypoint safe. */
  lemma WaypointsProven(sqrt: real -> real, grid: OccupancyGrid, startXY: Point, clearance: real, start: Cell, goal: Cell,
                        obstacleWeight: real, cells: seq<Cell>, path: seq<Point>, route: seq<Point>, marks: seq<nat>)
    requires grid.Valid() && grid.resolution > 0.0000005 && grid.WorldToCell(startXY) == Some(start)
    requires IsPath(PlanningGraph(KnownFreeOnlyGrid(grid, startXY, clearance), start, goal, obstacleWeight, sqrt),
                    start, goal, cells)
    requires SimplifiedFrom(grid, cells, path) && IsResampling(path, route, marks)
    ensures forall i :: 0 <= i < |route| ==> IsStartOrProven(grid, start, ClearanceCells(grid, clearance), route[i])
  {
    PathIsWalk(sqrt, KnownFreeOnlyGrid(grid, startXY, clearance), start, goal, obstacleWeight, cells);
    forall i | 0 <= i < |route| ensures IsStartOrProven(grid, start, ClearanceCells(grid, clearance), route[i]) {
      var j := WaypointOnWalk(grid, cells, path, route, marks, i);
      StepIsProven(sqrt, grid, startXY, clearance, start, goal, obstacleWeight, cells, j, CellAround(grid, route[i]));
    }
  }

  /** The search on the proven cells can succeed. */
  ghost predicate HasRoute(sqrt: real -> real, grid: OccupancyGrid, startXY: Point, goalXY: Point, clearance: real)
    requires grid.Valid()
  {
    var start, goal, safe := grid.WorldToCell(startXY), grid.WorldToCell(goalXY), KnownFreeOnlyGrid(grid, startXY, clearance);
    && start.Some? && goal.Some? && !safe.Blocked(goal.value)
    && Reachable(PlanningGraph(safe, start.value, goal.value, 3.0, sqrt), start.value, goal.value)
  }

  ghost predicate IsCheapestRoute(sqrt: real -> real, grid: OccupancyGrid, startXY: Point, goalXY: Point, clearance: real, cells: seq<Cell>)
    requires grid.Valid()
  {
    var start, goal, safe := grid.WorldToCell(startXY), grid.WorldToCell(goalXY), KnownFreeOnlyGrid(grid, startXY, clearance);
    && start.Some? && goal.Some? && !safe.Blocked(goal.value)
    && IsCheapest(PlanningGraph(safe, start.value, goal.value, 3.0, sqrt), start.value, goal.value, cells)
  }

  /** `route` is made of the cells by simplifying their centres and resampling what is left. */
  ghost predicate IsResampledFrom(grid: OccupancyGrid, cells: seq<Cell>, route: seq<Point>) {
    exists path, marks :: IsResampledAlong(grid, cells, path, marks, route)
  }

  ghost predicate IsResampledAlong(grid: OccupancyGrid, cells: seq<Cell>, path: seq<Point>, marks: seq<nat>, route: seq<Point>) {
    SimplifiedFrom(grid, cells, path) && IsResampling(path, route, marks)
  }

  /** Such a route runs from the first cell's centre to the last one's. */
  lemma ResampledEnds(grid: OccupancyGrid, cells: seq<Cell>, route: seq<Point>)
    requires IsResampledFrom(grid, cells, route) && cells != []
    ensures |route| > 0 && route[0] == grid.CellToWorld(cells[0]) && route[|route| - 1] == grid.CellToWorld(cells[|cells| - 1])
  {
    var path, marks :| IsResampledAlong(grid, cells, path, marks, route);
    SimplifiedEnds(grid, cells, path);
    if |path| > 1 {
      assert DividesSegment(path, route, marks, |path| - 2);
    }
  }

  lemma SimplifiedEnds(grid: OccupancyGrid, cells: seq<Cell>, path: seq<Point>)
    requires SimplifiedFrom(grid, cells, path) && |cells| > 0
    ensures |path| > 0 && path[0] == grid.CellToWorld(cells[0]) && path[|path| - 1] == grid.CellToWorld(cells[|cells| - 1])
  {
  }

  /** Every point of a route made of the cells of a legal path is safe to drive to. */
  lemma ResampledIsProven(sqrt: real -> real, grid: OccupancyGrid, startXY: Point, goalXY: Point, clearance: real,
                          cells: seq<Cell>, route: seq<Point>)
    requires grid.Valid() && grid.resolution > 0.0000005
    requires IsCheapestRoute(sqrt, grid, startXY, goalXY, clearance, cells) && IsResampledFrom(grid, cells, route)
    ensures forall i :: 0 <= i < |route| ==>
              IsStartOrProven(grid, grid.WorldToCell(startXY).value, ClearanceCells(grid, clearance), route[i])
  {
    var path, marks :| IsResampledAlong(grid, cells, path, marks, route);
    WaypointsProven(sqrt, grid, startXY, clearance, grid.WorldToCell(startXY).value, grid.WorldToCell(goalXY).value, 3.0,
                    cells, path, route, marks);
  }

  /** So is the exact goal, which lies in the last cell. */
  lemma GoalIsProven(sqrt: real -> real, grid: OccupancyGrid, startXY: Point, goalXY: Point, clearance: real, cells: seq<Cell>)
    requires grid.Valid() && IsCheapestRoute(sqrt, grid, startXY, goalXY, clearance, cells)
    ensures IsStartOrProven(grid, grid.WorldToCell(startXY).value, ClearanceCells(grid, clearance), goalXY)
  {
    var start, goal := grid.WorldToCell(startXY).value, grid.WorldToCell(goalXY).value;
    if goal != start {
      UnblockedIsProven(grid, startXY, clearance, start, goal);
    }
  }

  /** Restrict, plan, resample: the route through the map from the start's cell to the goal's. */
  method PlanOnMap(sqrt: real -> real, grid: OccupancyGrid, startXY: Point, goalXY: Point, clearance: real)
    returns (r: Result<seq<Point>>, ghost cells: seq<Cell>)
    requires IsSqrt(sqrt) && grid.Valid() && NonnegativeCosts(grid)
    ensures r.Ok? <==> HasRoute(sqrt, grid, startXY, goalXY, clearance)
    ensures r.Ok? ==>
      && IsCheapestRoute(sqrt, grid, startXY, goalXY, clearance, cells) && IsResampledFrom(grid, cells, r.value)
      && GapsWithin(Gaps(sqrt), r.value, 1.5)
    ensures r.Ok? ==> |r.value| > 0 && r.value[0] == grid.CellToWorld(grid.WorldToCell(startXY).value)
                      && r.value[|r.value| - 1] == grid.CellToWorld(grid.WorldToCell(goalXY).value)
  {
    var safe := KnownFreeOnlyGrid(grid, startXY, clearance);
    var path;
    path, cells := AstarPath(sqrt, safe, startXY, goalXY, 3.0);
    if path.value.None? {
      return Err("no known-free global path to absolute goal"), cells;
    }
    ghost var marks;
    r, marks := ResamplePolyline(sqrt, path.value.value, 1.5);
    assert Centres(safe, cells) == Centres(grid, cells);
    SimplifiedEnds(safe, cells, path.value.value);
    assert IsResampledAlong(grid, cells, path.value.value, marks, r.value);
    ResampledEnds(grid, cells, r.value);
    assert IsPath(PlanningGraph(safe, grid.WorldToCell(startXY).value, grid.WorldToCell(goalXY).value, 3.0, sqrt),
                  grid.WorldToCell(startXY).value, grid.WorldToCell(goalXY).value, cells);
  }
}
