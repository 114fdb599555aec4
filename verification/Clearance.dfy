/** The corridor and clearance checks of robot_brain/navigation/planner.py. */
module Clearance {
  import opened RealMath
  import opened Grid
  import opened Bresenham
  import opened Dilation
  import opened PathGeometry

  function SegmentLength(sqrt: real -> real, a: Point, b: Point): real {
    Hypot(sqrt, b.x - a.x, b.y - a.y)
  }

  /** How many leading segments fit into the length budget; a segment with an end off the map is
      checked against the budget but does not use any of it. */
  function SegmentsWithin(sqrt: real -> real, grid: OccupancyGrid, path: seq<Point>, limit: Option<real>,
                          k: nat, traveled: real): (n: nat)
    requires grid.Valid() && |path| >= 1 && k <= |path| - 1
    ensures k <= n <= |path| - 1
    ensures limit.None? ==> n == |path| - 1
    decreases |path| - k
  {
    if k == |path| - 1 then k
    else
      var segment := SegmentLength(sqrt, path[k], path[k + 1]);
      if limit.Some? && traveled + segment > limit.value then k
      else
        var onMap := grid.WorldToCell(path[k]).Some? && grid.WorldToCell(path[k + 1]).Some?;
        SegmentsWithin(sqrt, grid, path, limit, k + 1, if onMap then traveled + segment else traveled)
  }

  /** `path_corridor_cells`; an absent `limit` stands for the infinite default length. */
  method CorridorCells(sqrt: real -> real, grid: OccupancyGrid, path: seq<Point>, robotWidth: real,
                       limit: Option<real>)
    returns (r: Result<set<Cell>>)
    requires grid.Valid()
    ensures r.Err? <==> robotWidth < 0.0 || (limit.Some? && limit.value < 0.0)
    ensures r.Ok? && |path| < 2 ==> r.value == {}
    ensures r.Ok? && |path| >= 2 ==>
              r.value == Corridor(grid, path, SegmentsWithin(sqrt, grid, path, limit, 0, 0.0),
                                  Ceiling(robotWidth / 2.0 / grid.resolution))
  {
    if robotWidth < 0.0 || (limit.Some? && limit.value < 0.0) {
      return Err("path corridor dimensions cannot be negative");
    }
    if |path| < 2 {
      return Ok({});
    }
    var radius := Ceiling(robotWidth / 2.0 / grid.resolution);
    var result: set<Cell> := {};
    var traveled := 0.0;
    var k := 0;
    while k < |path| - 1
      invariant 0 <= k <= |path| - 1
      invariant result == Corridor(grid, path, k, radius)
      invariant SegmentsWithin(sqrt, grid, path, limit, 0, 0.0) == SegmentsWithin(sqrt, grid, path, limit, k, traveled)
    {
      var segment := SegmentLength(sqrt, path[k], path[k + 1]);
      if limit.Some? && traveled + segment > limit.value {
        break;
      }
      var start, end := grid.WorldToCell(path[k]), grid.WorldToCell(path[k + 1]);
      CorridorGrows(grid, path, k, radius);
      if start.Some? && end.Some? {
        var line := Line(start.value, end.value);
        result := result + Dilated(grid.width, grid.height, Elements(line), radius);
        traveled := traveled + segment;
      }
      k := k + 1;
    }
    return Ok(result);
  }

  /** One more segment adds its dilated raster line, or nothing when an end is off the map. */
  lemma CorridorGrows(grid: OccupancyGrid, path: seq<Point>, k: nat, radius: int)
    requires grid.Valid() && k < |path| - 1 && radius >= 0
    ensures var start, end := grid.WorldToCell(path[k]), grid.WorldToCell(path[k + 1]);
            Corridor(grid, path, k + 1, radius) == Corridor(grid, path, k, radius) +
              if start.Some? && end.Some?
              then Dilated(grid.width, grid.height, Elements(LineCells(start.value, end.value)), radius)
              else {}
  {
    var start, end := grid.WorldToCell(path[k]), grid.WorldToCell(path[k + 1]);
    forall c | c in grid.Cells()
      ensures SegmentTouches(grid, path, k, radius, c) <==>
                start.Some? && end.Some?
                && c in Dilated(grid.width, grid.height, Elements(LineCells(start.value, end.value)), radius)
    {
      if start.Some? && end.Some? {
        var line := LineCells(start.value, end.value);
        DilatedExact(grid.width, grid.height, Elements(line), radius, c);
        assert forall i :: 0 <= i < |line| ==> line[i] == CellAt(start.value, end.value, i) && line[i] in line;
      }
    }
  }

  function CellDistance(sqrt: real -> real, a: Cell, b: Cell): real {
    Hypot(sqrt, (a.col - b.col) as real, (a.row - b.row) as real)
  }

  /** The metric distance between two cell centres. */
  function Gap(sqrt: real -> real, resolution: real): (Cell, Cell) -> real {
    (a: Cell, b: Cell) => CellDistance(sqrt, a, b) * resolution
  }

  /** `value` is the least gap from `cells` to `obstacles`, cut off at `maximum`. */
  ghost predicate IsClearance(gap: (Cell, Cell) -> real, cells: set<Cell>, obstacles: set<Cell>, maximum: real, value: real) {
    && value <= maximum
    && (forall c, o :: c in cells && o in obstacles ==> value <= gap(c, o))
    && (value == maximum || exists c, o :: c in cells && o in obstacles && value == gap(c, o))
  }

  method NearestObstacle(gap: (Cell, Cell) -> real, c: Cell, obstacles: set<Cell>)
    returns (best: real, ghost nearest: Cell)
    requires obstacles != {}
    ensures nearest in obstacles && best == gap(c, nearest)
    ensures forall o :: o in obstacles ==> best <= gap(c, o)
  {
    var first :| first in obstacles;
    best, nearest := gap(c, first), first;
    var rest := obstacles - {first};
    while rest != {}
      invariant rest <= obstacles && nearest in obstacles && best == gap(c, nearest)
      invariant forall o :: o in obstacles - rest ==> best <= gap(c, o)
      decreases rest
    {
      var o :| o in rest;
      rest := rest - {o};
      if gap(c, o) < best {
        best, nearest := gap(c, o), o;
      }
    }
  }

  lemma ClearanceGrows(gap: (Cell, Cell) -> real, cells: set<Cell>, obstacles: set<Cell>, maximum: real,
                       value: real, c: Cell, nearest: Cell)
    requires IsClearance(gap, cells, obstacles, maximum, value)
    requires nearest in obstacles && forall o :: o in obstacles ==> gap(c, nearest) <= gap(c, o)
    ensures IsClearance(gap, cells + {c}, obstacles, maximum, if gap(c, nearest) < value then gap(c, nearest) else value)
  {
    if gap(c, nearest) < value {
      assert c in cells + {c};
    } else if value != maximum {
      var x, o :| x in cells && o in obstacles && value == gap(x, o);
      assert x in cells + {c};
    }
  }

  method LeastGap(gap: (Cell, Cell) -> real, cells: set<Cell>, obstacles: set<Cell>, maximum: real) returns (minimum: real)
    requires obstacles != {}
    ensures IsClearance(gap, cells, obstacles, maximum, minimum)
  {
    minimum := maximum;
    var rest := cells;
    ghost var done: set<Cell> := {};
    while rest != {}
      invariant done + rest == cells
      invariant IsClearance(gap, done, obstacles, maximum, minimum)
      decreases rest
    {
      var cell :| cell in rest;
      var distance, nearest := NearestObstacle(gap, cell, obstacles);
      ClearanceGrows(gap, done, obstacles, maximum, minimum, cell, nearest);
      minimum := if distance < minimum then distance else minimum;
      rest, done := rest - {cell}, done + {cell};
    }
    assert done == cells;
  }

  /** The obstacles that a path is checked against: all but the cell it starts in. */
  function PathObstacles(grid: OccupancyGrid, path: seq<Point>): set<Cell>
    requires grid.Valid() && |path| > 0
  {
    var start := grid.WorldToCell(path[0]);
    if start.Some? then grid.occupied - {start.value} else grid.occupied
  }

  ghost function Centreline(grid: OccupancyGrid, path: seq<Point>): set<Cell>
    requires grid.Valid()
  {
    if |path| < 2 then {} else Corridor(grid, path, |path| - 1, 0)
  }

  lemma ZeroWidth(resolution: real)
    requires resolution > 0.0
    ensures Ceiling(0.0 / 2.0 / resolution) == 0
  {
    assert 0.0 / resolution == 0.0;
  }

  method MinimumClearance(sqrt: real -> real, grid: OccupancyGrid, path: seq<Point>, maximumSearch: real)
    returns (r: Option<real>)
    requires grid.Valid()
    ensures r.None? <==> path == []
    ensures r.Some? ==> IsClearance(Gap(sqrt, grid.resolution), Centreline(grid, path), PathObstacles(grid, path),
                                    maximumSearch, r.value)
  {
    if path == [] {
      return None;
    }
    var occupied := PathObstacles(grid, path);
    if occupied == {} {
      return Some(maximumSearch);
    }
    var corridor := CorridorCells(sqrt, grid, path, 0.0, None);
    ZeroWidth(grid.resolution);
    assert corridor.value == Centreline(grid, path);
    var minimum := LeastGap(Gap(sqrt, grid.resolution), corridor.value, occupied, maximumSearch);
    return Some(minimum);
  }
}
