/** Path simplification, re-rasterisation and clearance, from robot_brain/navigation/planner.py. */
module PathGeometry {
  import opened RealMath
  import opened Grid
  import opened Neighbourhood
  import opened Bresenham
  import opened Dilation

  /** Python's `round(x, 6)`: halves go to the even neighbour. */
  function RoundToMicro(x: real): real {
    RoundHalfEven(x * 1000000.0) as real / 1000000.0
  }

  function Sign(x: real): int {
    if x > 0.0 then 1 else if x < 0.0 then -1 else 0
  }

  function Heading(from: Point, to: Point): (int, int) {
    (Sign(RoundToMicro(to.x - from.x)), Sign(RoundToMicro(to.y - from.y)))
  }

  ghost predicate IsTurn(points: seq<Point>, j: int)
    requires 0 < j < |points| - 1
  {
    Heading(points[j - 1], points[j]) != Heading(points[j], points[j + 1])
  }

  ghost predicate Increasing(s: seq<nat>) {
    forall i, j :: 0 <= i < j < |s| ==> s[i] < s[j]
  }

  /** `kept` lists the two ends and exactly the points where the heading changes. */
  ghost predicate KeepsTurns(points: seq<Point>, kept: seq<nat>) {
    && |points| > 0 && |kept| > 0 && kept[0] == 0 && kept[|kept| - 1] == |points| - 1 && Increasing(kept)
    && forall j :: 0 < j < |points| - 1 ==> (j in kept <==> IsTurn(points, j) || |points| <= 2)
  }

  ghost predicate Selects(points: seq<Point>, kept: seq<nat>, result: seq<Point>) {
    && |result| == |kept|
    && forall i :: 0 <= i < |kept| ==> kept[i] < |points| && result[i] == points[kept[i]]
  }

  /** `result` has the two ends of `points` and exactly the turns between them. */
  ghost predicate IsSimplified(points: seq<Point>, result: seq<Point>) {
    if points == [] then result == [] else exists kept :: KeepsTurns(points, kept) && Selects(points, kept, result)
  }

  /** What the loop has kept before it looks at segment `index`: the turns behind it. */
  ghost predicate HasKept(points: seq<Point>, kept: seq<nat>, result: seq<Point>, index: int) {
    && |kept| > 0 && kept[0] == 0 && Increasing(kept) && Selects(points, kept, result)
    && (forall i :: 0 <= i < |kept| ==> kept[i] == 0 || kept[i] < index - 1)
    && forall j :: 0 < j < index - 1 && j < |points| - 1 ==> (j in kept <==> IsTurn(points, j))
  }

  function DirectionBefore(points: seq<Point>, index: int): Option<(int, int)>
    requires index <= |points|
  {
    if index <= 1 then None else Some(Heading(points[index - 2], points[index - 1]))
  }

  ghost predicate TurnsBefore(points: seq<Point>, index: int)
    requires 0 < index < |points|
  {
    index > 1 && IsTurn(points, index - 1)
  }

  lemma KeepNext(points: seq<Point>, kept: seq<nat>, result: seq<Point>, index: nat)
    requires 0 < index < |points| && HasKept(points, kept, result, index)
    ensures if TurnsBefore(points, index) then HasKept(points, kept + [index - 1], result + [points[index - 1]], index + 1)
            else HasKept(points, kept, result, index + 1)
    ensures TurnsBefore(points, index)
       <==> DirectionBefore(points, index) != None
            && Heading(points[index - 1], points[index]) != DirectionBefore(points, index).value
  {
  }

  lemma KeepLast(points: seq<Point>, kept: seq<nat>, result: seq<Point>)
    requires |points| > 2 && HasKept(points, kept, result, |points|)
    ensures IsSimplified(points, result + [points[|points| - 1]])
  {
    var all := kept + [|points| - 1];
    assert KeepsTurns(points, all) && Selects(points, all, result + [points[|points| - 1]]);
  }

  method Simplify(points: seq<Point>) returns (result: seq<Point>)
    ensures IsSimplified(points, result)
  {
    if |points| <= 2 {
      ghost var ends := if |points| == 1 then [0] else [0, 1];
      assert points != [] ==> KeepsTurns(points, ends) && Selects(points, ends, points);
      return points;
    }
    result := [points[0]];
    ghost var kept: seq<nat> := [0];
    var previousDirection := None;
    for index := 1 to |points|
      invariant previousDirection == DirectionBefore(points, index)
      invariant HasKept(points, kept, result, index)
    {
      var direction := Heading(points[index - 1], points[index]);
      KeepNext(points, kept, result, index);
      if previousDirection != None && direction != previousDirection.value {
        result := result + [points[index - 1]];
        kept := kept + [index - 1];
      }
      previousDirection := Some(direction);
    }
    KeepLast(points, kept, result);
    result := result + [points[|points| - 1]];
  }

  /** Segment `k` of a path passes within `radius` of `c`. Segments with an end off the map count for nothing. */
  ghost predicate SegmentTouches(grid: OccupancyGrid, path: seq<Point>, k: int, radius: int, c: Cell)
    requires grid.Valid() && 0 <= k < |path| - 1
  {
    var start, end := grid.WorldToCell(path[k]), grid.WorldToCell(path[k + 1]);
    && start.Some? && end.Some?
    && exists i :: 0 <= i < LineLength(start.value, end.value) && InDisc(CellAt(start.value, end.value, i), c, radius)
  }

  ghost function Corridor(grid: OccupancyGrid, path: seq<Point>, n: int, radius: int): set<Cell>
    requires grid.Valid() && n <= |path| - 1
  {
    set c | c in grid.Cells() && exists k :: 0 <= k < n && SegmentTouches(grid, path, k, radius, c)
  }

  ghost predicate IsWalk(grid: OccupancyGrid, cells: seq<Cell>) {
    && |cells| > 0 && (forall i :: 0 <= i < |cells| ==> grid.Inside(cells[i]))
    && forall i :: 0 <= i < |cells| - 1 ==> Adjacent(cells[i], cells[i + 1])
  }

  /** For map resolutions above half a micrometre, the rounded heading between two neighbouring
      cell centres is the cell offset itself. */
  lemma HeadingIsOffset(grid: OccupancyGrid, a: Cell, b: Cell)
    requires grid.resolution > 0.0000005 && Adjacent(a, b)
    ensures Heading(grid.CellToWorld(a), grid.CellToWorld(b)) == (b.col - a.col, b.row - a.row)
  {
    SignOfStep(grid.resolution, grid.originX, a.col, b.col);
    SignOfStep(grid.resolution, grid.originY, a.row, b.row);
  }

  lemma SignOfStep(resolution: real, origin: real, i: int, j: int)
    requires resolution > 0.0000005 && -1 <= j - i <= 1
    ensures Sign(RoundToMicro(AxisCentre(j, origin, resolution) - AxisCentre(i, origin, resolution))) == j - i
  {
    var d := AxisCentre(j, origin, resolution) - AxisCentre(i, origin, resolution);
    assert d == (j - i) as real * resolution;
    assert d == (if j == i then 0.0 else if j == i + 1 then resolution else -resolution);
    RoundHalfEvenNear(d * 1000000.0);
    assert j > i ==> d * 1000000.0 > 0.5;
    assert j < i ==> d * 1000000.0 < -0.5;
  }

  ghost predicate NoTurnBetween(points: seq<Point>, a: nat, b: nat)
    requires b < |points|
  {
    forall j :: a < j < b ==> !IsTurn(points, j)
  }

  /** Between two consecutive kept points every step has the same offset. */
  lemma {:induction false} SameOffset(grid: OccupancyGrid, cells: seq<Cell>, a: nat, b: nat, i: nat)
    requires grid.resolution > 0.0000005 && IsWalk(grid, cells) && a < b < |cells| && 0 < i <= b - a
    requires NoTurnBetween(Centres(grid, cells), a, b)
    ensures cells[a + i].col - cells[a + i - 1].col == cells[a + 1].col - cells[a].col
    ensures cells[a + i].row - cells[a + i - 1].row == cells[a + 1].row - cells[a].row
  {
    if i > 1 {
      SameOffset(grid, cells, a, b, i - 1);
      assert !IsTurn(Centres(grid, cells), a + i - 1);
      assert Adjacent(cells[a + i - 2], cells[a + i - 2 + 1]) && Adjacent(cells[a + i - 1], cells[a + i - 1 + 1]);
      HeadingIsOffset(grid, cells[a + i - 2], cells[a + i - 1]);
      HeadingIsOffset(grid, cells[a + i - 1], cells[a + i]);
    }
  }

  /** So the walk goes straight between them. */
  lemma {:induction false} StraightRun(grid: OccupancyGrid, cells: seq<Cell>, a: nat, b: nat, i: nat)
    requires grid.resolution > 0.0000005 && IsWalk(grid, cells) && a < b < |cells| && i <= b - a
    requires NoTurnBetween(Centres(grid, cells), a, b)
    ensures cells[a + i].col == cells[a].col + i * (cells[a + 1].col - cells[a].col)
    ensures cells[a + i].row == cells[a].row + i * (cells[a + 1].row - cells[a].row)
  {
    if i > 0 {
      StraightRun(grid, cells, a, b, i - 1);
      SameOffset(grid, cells, a, b, i);
    }
  }

  lemma RunIsLine(grid: OccupancyGrid, cells: seq<Cell>, a: nat, b: nat, i: nat)
    requires grid.resolution > 0.0000005 && IsWalk(grid, cells) && a < b < |cells| && i <= b - a
    requires NoTurnBetween(Centres(grid, cells), a, b)
    ensures LineLength(cells[a], cells[b]) == b - a + 1 && CellAt(cells[a], cells[b], i) == cells[a + i]
  {
    StraightRun(grid, cells, a, b, i);
    StraightRun(grid, cells, a, b, b - a);
    assert Adjacent(cells[a], cells[a + 1]);
    StraightLine(cells[a], cells[a + 1].col - cells[a].col, cells[a + 1].row - cells[a].row, b - a, i);
  }

  lemma ConsecutiveKept(points: seq<Point>, kept: seq<nat>, k: nat)
    requires KeepsTurns(points, kept) && k < |kept| - 1
    ensures kept[k] < kept[k + 1] < |points| && NoTurnBetween(points, kept[k], kept[k + 1])
  {
    assert kept[k + 1] <= kept[|kept| - 1] by {
      if k + 1 < |kept| - 1 {
        assert kept[k + 1] < kept[|kept| - 1];
      }
    }
    forall i | 0 <= i < |kept| ensures kept[i] <= kept[k] || kept[i] >= kept[k + 1] {
      if i < k {
        assert kept[i] < kept[k];
      } else if i > k + 1 {
        assert kept[k + 1] < kept[i];
      }
    }
  }

  /** The kept point at or before index `j`. */
  lemma KeptBefore(points: seq<Point>, kept: seq<nat>, j: nat) returns (k: nat)
    requires KeepsTurns(points, kept) && j < |points| && |points| >= 2
    ensures k < |kept| - 1 && kept[k] <= j <= kept[k + 1]
  {
    k := 0;
    while kept[k + 1] < j
      invariant k < |kept| - 1 && kept[k] <= j
      decreases |kept| - k
    {
      k := k + 1;
    }
  }

  /** Simplification loses no cells: re-rasterising the simplified path visits exactly the cells
      the planner visited. */
  lemma SimplifiedCorridor(grid: OccupancyGrid, cells: seq<Cell>, kept: seq<nat>, path: seq<Point>)
    requires grid.Valid() && grid.resolution > 0.0000005 && IsWalk(grid, cells) && |cells| >= 2
    requires KeepsTurns(Centres(grid, cells), kept) && Selects(Centres(grid, cells), kept, path)
    ensures |path| >= 2 && Corridor(grid, path, |path| - 1, 0) == Elements(cells)
  {
    var points := Centres(grid, cells);
    forall c | c in Corridor(grid, path, |path| - 1, 0) ensures c in cells {
      var k :| 0 <= k < |path| - 1 && SegmentTouches(grid, path, k, 0, c);
      KeptSegment(grid, cells, kept, path, k);
      var i :| 0 <= i <= kept[k + 1] - kept[k] && InDisc(CellAt(cells[kept[k]], cells[kept[k + 1]], i), c, 0);
      RunIsLine(grid, cells, kept[k], kept[k + 1], i);
      PointDisc(CellAt(cells[kept[k]], cells[kept[k + 1]], i), c);
    }
    forall j | 0 <= j < |cells| ensures cells[j] in Corridor(grid, path, |path| - 1, 0) {
      var k := KeptBefore(points, kept, j);
      KeptSegment(grid, cells, kept, path, k);
      RunIsLine(grid, cells, kept[k], kept[k + 1], j - kept[k]);
      assert InDisc(CellAt(cells[kept[k]], cells[kept[k + 1]], j - kept[k]), cells[j], 0);
      assert SegmentTouches(grid, path, k, 0, cells[j]);
      InsideIsCell(grid, cells[j]);
    }
  }

  lemma KeptSegment(grid: OccupancyGrid, cells: seq<Cell>, kept: seq<nat>, path: seq<Point>, k: nat)
    requires grid.Valid() && grid.resolution > 0.0000005 && IsWalk(grid, cells) && |cells| >= 2
    requires KeepsTurns(Centres(grid, cells), kept) && Selects(Centres(grid, cells), kept, path)
    requires k < |kept| - 1
    ensures kept[k] < kept[k + 1] < |cells| && NoTurnBetween(Centres(grid, cells), kept[k], kept[k + 1])
    ensures grid.WorldToCell(path[k]) == Some(cells[kept[k]])
    ensures grid.WorldToCell(path[k + 1]) == Some(cells[kept[k + 1]])
    ensures LineLength(cells[kept[k]], cells[kept[k + 1]]) == kept[k + 1] - kept[k] + 1
  {
    ConsecutiveKept(Centres(grid, cells), kept, k);
    CellCentreRoundTrip(grid, cells[kept[k]]);
    CellCentreRoundTrip(grid, cells[kept[k + 1]]);
    RunIsLine(grid, cells, kept[k], kept[k + 1], 0);
  }

  /** `path` is what `_simplify` makes of the centres of `cells`. */
  ghost predicate SimplifiedFrom(grid: OccupancyGrid, cells: seq<Cell>, path: seq<Point>) {
    IsSimplified(Centres(grid, cells), path)
  }

  /** Simplification can be undone on every walk over this grid. */
  ghost predicate SimplifyLosesNoCells(grid: OccupancyGrid)
    requires grid.Valid()
  {
    forall cells, path :: IsWalk(grid, cells) && |cells| >= 2 && SimplifiedFrom(grid, cells, path) ==>
      |path| >= 2 && Corridor(grid, path, |path| - 1, 0) == Elements(cells)
  }

  /** The grid has room for a step. */
  predicate HasStep(grid: OccupancyGrid) {
    grid.width >= 1 && grid.height >= 1 && (grid.width >= 2 || grid.height >= 2)
  }

  /** Below half a micrometre per cell every heading rounds to zero, and a walk
      there and back is simplified to nothing. */
  lemma FineGridLosesTurn(grid: OccupancyGrid)
    requires grid.Valid() && grid.resolution <= 0.0000005 && HasStep(grid)
    ensures !SimplifyLosesNoCells(grid)
  {
    var home := Cell(0, 0);
    var away := if grid.width >= 2 then Cell(1, 0) else Cell(0, 1);
    var cells := [home, away, home];
    var points := Centres(grid, cells);
    var path := [points[0], points[2]];
    FlatHeading(grid, home, away);
    FlatHeading(grid, away, home);
    assert !IsTurn(points, 1);
    assert KeepsTurns(points, [0, 2]) && Selects(points, [0, 2], path);
    StaysHome(grid, home, away, path);
    assert cells[1] in Elements(cells) && IsWalk(grid, cells) && SimplifiedFrom(grid, cells, path);
  }

  lemma StaysHome(grid: OccupancyGrid, home: Cell, away: Cell, path: seq<Point>)
    requires grid.Valid() && grid.Inside(home) && home != away && path == [grid.CellToWorld(home), grid.CellToWorld(home)]
    ensures away !in Corridor(grid, path, 1, 0)
  {
    CellCentreRoundTrip(grid, home);
    if away in Corridor(grid, path, 1, 0) {
      var i :| 0 <= i < LineLength(home, home) && InDisc(CellAt(home, home, i), away, 0);
      assert CellAt(home, home, i) == home;
      PointDisc(home, away);
      assert false;
    }
  }

  lemma FlatHeading(grid: OccupancyGrid, a: Cell, b: Cell)
    requires 0.0 < grid.resolution <= 0.0000005 && Adjacent(a, b)
    ensures Heading(grid.CellToWorld(a), grid.CellToWorld(b)) == (0, 0)
  {
    FlatStep(grid.resolution, grid.originX, a.col, b.col);
    FlatStep(grid.resolution, grid.originY, a.row, b.row);
  }

  lemma FlatStep(resolution: real, origin: real, i: int, j: int)
    requires 0.0 < resolution <= 0.0000005 && -1 <= j - i <= 1
    ensures Sign(RoundToMicro(AxisCentre(j, origin, resolution) - AxisCentre(i, origin, resolution))) == 0
  {
    var d := AxisCentre(j, origin, resolution) - AxisCentre(i, origin, resolution);
    assert d == (j - i) as real * resolution;
    assert d == (if j == i then 0.0 else if j == i + 1 then resolution else -resolution);
    assert -0.5 <= d * 1000000.0 <= 0.5;
    assert RoundHalfEven(d * 1000000.0) == 0;
  }

  lemma WalkHasStep(grid: OccupancyGrid, cells: seq<Cell>)
    requires IsWalk(grid, cells) && |cells| >= 2
    ensures HasStep(grid)
  {
    assert Adjacent(cells[0], cells[0 + 1]);
  }

  /** The exact condition, for every grid with two cells to walk between:
      simplification loses no cells if and only if a map cell is larger than half
      a micrometre, the point at which `round(dx, 6)` stops seeing it. */
  lemma SimplifyLosesNoCellsExactly(grid: OccupancyGrid)
    requires grid.Valid()
    ensures SimplifyLosesNoCells(grid) <==> grid.resolution > 0.0000005 || !HasStep(grid)
  {
    if grid.resolution <= 0.0000005 && HasStep(grid) {
      FineGridLosesTurn(grid);
    } else {
      forall cells, path | IsWalk(grid, cells) && |cells| >= 2 && SimplifiedFrom(grid, cells, path)
        ensures |path| >= 2 && Corridor(grid, path, |path| - 1, 0) == Elements(cells)
      {
        WalkHasStep(grid, cells);
        var kept :| KeepsTurns(Centres(grid, cells), kept) && Selects(Centres(grid, cells), kept, path);
        SimplifiedCorridor(grid, cells, kept, path);
      }
    }
  }
}
