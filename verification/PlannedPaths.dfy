/** What the executor may rely on when it follows a path planned by `AstarPath`. */
module PlannedPaths {
  import opened RealMath
  import opened Grid
  import opened SearchGraph
  import opened Neighbourhood
  import opened PathGeometry
  import opened Clearance
  import opened Planner

  /** A planned path is a walk over the grid that enters no obstacle after its first cell. */
  lemma PlannedCellsClear(sqrt: real -> real, grid: OccupancyGrid, start: Cell, goal: Cell, obstacleWeight: real,
                          cells: seq<Cell>)
    requires grid.Inside(start)
    requires IsPath(PlanningGraph(grid, start, goal, obstacleWeight, sqrt), start, goal, cells)
    ensures IsWalk(grid, cells)
    ensures forall i :: 0 < i < |cells| ==> !grid.Blocked(cells[i])
  {
    var g := PlanningGraph(grid, start, goal, obstacleWeight, sqrt);
    forall i | 0 <= i < |cells| ensures i > 0 ==> Adjacent(cells[i - 1], cells[i]) && !grid.Blocked(cells[i]) {
      assert i > 0 ==> g.step(cells[i - 1], cells[i - 1 + 1]);
    }
  }

  lemma GapBetweenDistinct(sqrt: real -> real, resolution: real, a: Cell, b: Cell)
    requires IsSqrt(sqrt) && resolution > 0.0 && a != b
    ensures Gap(sqrt, resolution)(a, b) >= resolution
  {
    var x, y := a.col - b.col, a.row - b.row;
    assert x * x + y * y >= 1 by {
      assert x * x >= 0 && y * y >= 0;
      assert x != 0 ==> x * x >= 1;
      assert y != 0 ==> y * y >= 1;
    }
    var d := CellDistance(sqrt, a, b);
    HypotSquare(sqrt, x as real, y as real);
    assert d * d == (x * x + y * y) as real;
    SquareOrder(1.0, d);
    MultiplyMonotone(1.0, d, resolution, resolution);
  }

  /** Clearance is certified by planning: on a grid coarser than half a micrometre, the clearance
      later measured on a planned path of the same grid is at least one cell (or the search limit),
      so the executor's zero-clearance branch is never taken. */
  lemma PlannedPathClearance(sqrt: real -> real, grid: OccupancyGrid, start: Cell, goal: Cell, obstacleWeight: real,
                             cells: seq<Cell>, path: seq<Point>, maximumSearch: real, clearance: real)
    requires IsSqrt(sqrt) && grid.Valid() && grid.resolution > 0.0000005 && grid.Inside(start)
    requires IsPath(PlanningGraph(grid, start, goal, obstacleWeight, sqrt), start, goal, cells)
    requires SimplifiedFrom(grid, cells, path) && |path| > 0
    requires IsClearance(Gap(sqrt, grid.resolution), Centreline(grid, path), PathObstacles(grid, path),
                         maximumSearch, clearance)
    ensures clearance == maximumSearch || clearance >= grid.resolution
    ensures maximumSearch > 0.0 ==> clearance > 0.0
  {
    PlannedCellsClear(sqrt, grid, start, goal, obstacleWeight, cells);
    var kept :| KeepsTurns(Centres(grid, cells), kept) && Selects(Centres(grid, cells), kept, path);
    if clearance != maximumSearch {
      var gap := Gap(sqrt, grid.resolution);
      var c, o :| c in Centreline(grid, path) && o in PathObstacles(grid, path) && clearance == gap(c, o);
      OnlyLongPathsHaveCentreline(grid, cells, kept, path);
      SimplifiedCorridor(grid, cells, kept, path);
      CellCentreRoundTrip(grid, start);
      var i :| 0 <= i < |cells| && cells[i] == c;
      assert c == start || !grid.Blocked(c);
      GapBetweenDistinct(sqrt, grid.resolution, c, o);
    }
  }

  lemma OnlyLongPathsHaveCentreline(grid: OccupancyGrid, cells: seq<Cell>, kept: seq<nat>, path: seq<Point>)
    requires grid.Valid() && Centreline(grid, path) != {}
    requires KeepsTurns(Centres(grid, cells), kept) && Selects(Centres(grid, cells), kept, path)
    ensures |cells| >= 2
  {
  }
}
