/** What the corridor of a path is in metres: robot_brain/navigation/planner.py:114-141. */
module CorridorLaws {
  import opened RealMath
  import opened Grid
  import opened Bresenham
  import opened Dilation
  import opened MetricDisc
  import opened PathGeometry
  import opened Clearance

  /** A measure of the way from one point to another. */
  ghost predicate IsMeasure(length: (Point, Point) -> real) {
    forall a, b :: MeasuresAt(length, a, b)
  }

  ghost predicate MeasuresAt(length: (Point, Point) -> real, a: Point, b: Point) {
    length(a, b) >= 0.0 && length(a, b) * length(a, b) == (b.x - a.x) * (b.x - a.x) + (b.y - a.y) * (b.y - a.y)
  }

  predicate IsOnMap(grid: OccupancyGrid, path: seq<Point>, k: nat)
    requires grid.Valid() && k + 1 < |path|
  {
    grid.WorldToCell(path[k]).Some? && grid.WorldToCell(path[k + 1]).Some?
  }

  /** The length of those of the first segments that have both ends on the map. */
  function LengthOnMap(length: (Point, Point) -> real, grid: OccupancyGrid, path: seq<Point>, n: nat): real
    requires grid.Valid() && n + 1 <= |path|
  {
    if n == 0 then 0.0
    else LengthOnMap(length, grid, path, n - 1) + if IsOnMap(grid, path, n - 1) then length(path[n - 1], path[n]) else 0.0
  }

  /** The next segment does not fit any more. */
  predicate Exceeds(length: (Point, Point) -> real, grid: OccupancyGrid, path: seq<Point>, limit: real, k: nat)
    requires grid.Valid() && k + 1 < |path|
  {
    LengthOnMap(length, grid, path, k) + length(path[k], path[k + 1]) > limit
  }

  lemma MeasureIsSegmentLength(sqrt: real -> real, length: (Point, Point) -> real, a: Point, b: Point)
    requires IsSqrt(sqrt) && IsMeasure(length)
    ensures SegmentLength(sqrt, a, b) == length(a, b)
  {
    assert MeasuresAt(length, a, b);
    HypotSquare(sqrt, b.x - a.x, b.y - a.y);
    SquareOrder(SegmentLength(sqrt, a, b), length(a, b));
    SquareOrder(length(a, b), SegmentLength(sqrt, a, b));
  }

  lemma {:induction false} WithinFrom(sqrt: real -> real, length: (Point, Point) -> real, grid: OccupancyGrid, path: seq<Point>, limit: real, k: nat)
    requires IsSqrt(sqrt) && IsMeasure(length) && grid.Valid() && |path| >= 1 && k <= |path| - 1
    ensures var n := SegmentsWithin(sqrt, grid, path, Some(limit), k, LengthOnMap(length, grid, path, k));
      && (forall i :: k <= i < n ==> !Exceeds(length, grid, path, limit, i))
      && (n < |path| - 1 ==> Exceeds(length, grid, path, limit, n))
    decreases |path| - k
  {
    if k < |path| - 1 {
      MeasureIsSegmentLength(sqrt, length, path[k], path[k + 1]);
      if !Exceeds(length, grid, path, limit, k) {
        WithinFrom(sqrt, length, grid, path, limit, k + 1);
      }
    }
  }

  /** The corridor ends before the first segment that, after those on the map, exceeds the limit. */
  lemma CorridorLength(sqrt: real -> real, length: (Point, Point) -> real, grid: OccupancyGrid, path: seq<Point>, limit: Option<real>)
    requires IsSqrt(sqrt) && IsMeasure(length) && grid.Valid() && |path| >= 1
    ensures var n := SegmentsWithin(sqrt, grid, path, limit, 0, 0.0);
      && (limit.None? ==> n == |path| - 1)
      && (limit.Some? ==> forall k :: 0 <= k < n ==> !Exceeds(length, grid, path, limit.value, k))
      && (limit.Some? && n < |path| - 1 ==> Exceeds(length, grid, path, limit.value, n))
  {
    if limit.Some? {
      WithinFrom(sqrt, length, grid, path, limit.value, 0);
    }
  }

  /** Half the robot's width around the path is in the corridor, and nothing a cell further away. */
  lemma CorridorInMetres(sqrt: real -> real, grid: OccupancyGrid, path: seq<Point>, n: nat, robotWidth: real, c: Cell)
    requires IsSqrt(sqrt) && grid.Valid() && n <= |path| - 1 && robotWidth >= 0.0
    ensures var (line, cells) := (Corridor(grid, path, n, 0), Corridor(grid, path, n, Ceiling(robotWidth / 2.0 / grid.resolution)));
      && (c in cells ==> exists o :: o in line && CentreGap(sqrt, grid, o, c) < robotWidth / 2.0 + grid.resolution)
      && (grid.Inside(c) && (exists o :: o in line && CentreGap(sqrt, grid, o, c) <= robotWidth / 2.0) ==> c in cells)
  {
    var radius := Ceiling(robotWidth / 2.0 / grid.resolution);
    if c in Corridor(grid, path, n, radius) {
      var k :| 0 <= k < n && SegmentTouches(grid, path, k, radius, c);
      var o := TouchingCell(grid, path, n, k, radius, c);
      DiscInMetres(sqrt, grid, robotWidth / 2.0, o, c);
    }
    if grid.Inside(c) {
      forall o | o in Corridor(grid, path, n, 0) && CentreGap(sqrt, grid, o, c) <= robotWidth / 2.0
        ensures c in Corridor(grid, path, n, radius)
      {
        var k :| 0 <= k < n && SegmentTouches(grid, path, k, 0, o);
        DiscInMetres(sqrt, grid, robotWidth / 2.0, o, c);
        TouchesToo(grid, path, k, radius, o, c);
      }
    }
  }

  lemma TouchingCell(grid: OccupancyGrid, path: seq<Point>, n: nat, k: nat, radius: int, c: Cell) returns (o: Cell)
    requires grid.Valid() && k < n <= |path| - 1 && SegmentTouches(grid, path, k, radius, c)
    ensures o in Corridor(grid, path, n, 0) && InDisc(o, c, radius)
  {
    var (start, end) := (grid.WorldToCell(path[k]).value, grid.WorldToCell(path[k + 1]).value);
    var i :| 0 <= i < LineLength(start, end) && InDisc(CellAt(start, end, i), c, radius);
    o := CellAt(start, end, i);
    OnOwnLine(grid, path, k, start, end, i);
  }

  lemma OnOwnLine(grid: OccupancyGrid, path: seq<Point>, k: nat, start: Cell, end: Cell, i: nat)
    requires grid.Valid() && k < |path| - 1 && grid.WorldToCell(path[k]) == Some(start) && grid.WorldToCell(path[k + 1]) == Some(end)
    requires i < LineLength(start, end)
    ensures SegmentTouches(grid, path, k, 0, CellAt(start, end, i)) && grid.Inside(CellAt(start, end, i))
  {
    CellAtInBox(start, end, i);
    assert InDisc(CellAt(start, end, i), CellAt(start, end, i), 0);
  }

  lemma TouchesToo(grid: OccupancyGrid, path: seq<Point>, k: nat, radius: int, o: Cell, c: Cell)
    requires grid.Valid() && k < |path| - 1 && SegmentTouches(grid, path, k, 0, o) && InDisc(o, c, radius)
    ensures SegmentTouches(grid, path, k, radius, c)
  {
    var (start, end) := (grid.WorldToCell(path[k]).value, grid.WorldToCell(path[k + 1]).value);
    var i :| 0 <= i < LineLength(start, end) && InDisc(CellAt(start, end, i), o, 0);
    SamePlace(CellAt(start, end, i), o);
  }

  lemma SamePlace(a: Cell, b: Cell)
    requires InDisc(a, b, 0)
    ensures a == b
  {
    var (dc, dr) := (b.col - a.col, b.row - a.row);
    assert dc * dc >= 0 && dr * dr >= 0;
    assert dc != 0 ==> dc * dc > 0;
    assert dr != 0 ==> dr * dr > 0;
  }
}
