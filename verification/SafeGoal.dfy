/** The nearest endpoint a local plan may use instead of a blocked one:
    robot_brain/navigation/planner.py:59-84 and 151-157. */
module SafeGoal {
  import opened RealMath
  import opened Grid
  import opened Dilation
  import opened Frontier

  predicate HasClearance(grid: OccupancyGrid, c: Cell, radius: int) {
    !grid.Blocked(c) && forall o :: o in DiscOffsets(radius) ==> !grid.Blocked(Shift(c, o))
  }

  /** Cells of the search disc with enough clearance. */
  predicate IsCandidate(grid: OccupancyGrid, requested: Cell, radius: int, clearance: int, c: Cell) {
    InDisc(requested, c, radius) && HasClearance(grid, c, clearance)
  }

  /** Nearer first, equal distances in the order of the cells. */
  predicate NearerOrFirst(distance: Cell -> real, a: Cell, b: Cell) {
    || distance(a) < distance(b)
    || (distance(a) == distance(b) && CellNotAfter(a, b))
  }

  function DistanceFrom(sqrt: real -> real, requested: Cell): Cell -> real {
    (c: Cell) => Hypot(sqrt, (c.col - requested.col) as real, (c.row - requested.row) as real)
  }

  function CellRadius(length: real, resolution: real): int
    requires resolution > 0.0
  {
    Max(0, Ceiling(length / resolution))
  }

  ghost predicate InSquare(requested: Cell, radius: int, c: Cell) {
    -radius <= c.col - requested.col <= radius && -radius <= c.row - requested.row <= radius
  }

  /** The offset loops, around a requested cell, over the cells that pass a test. */
  method Candidates(passes: Cell -> bool, requested: Cell, radius: int) returns (candidates: seq<Cell>)
    requires radius >= 0 && forall c :: passes(c) ==> InSquare(requested, radius, c)
    ensures forall c :: c in candidates <==> passes(c)
  {
    candidates := [];
    for dx := -radius to radius + 1
      invariant forall c :: c in candidates <==> passes(c) && c.col < requested.col + dx
    {
      ghost var before := candidates;
      for dy := -radius to radius + 1
        invariant forall c :: c in candidates <==>
          c in before || (passes(c) && c.col == requested.col + dx && c.row < requested.row + dy)
      {
        var cell := Cell(requested.col + dx, requested.row + dy);
        if passes(cell) {
          candidates := candidates + [cell];
        }
      }
    }
  }

  method First(distance: Cell -> real, cells: seq<Cell>) returns (first: Cell)
    requires cells != []
    ensures first in cells && forall c :: c in cells ==> NearerOrFirst(distance, first, c)
  {
    first := cells[0];
    for i := 1 to |cells|
      invariant first in cells && forall j :: 0 <= j < i ==> NearerOrFirst(distance, first, cells[j])
    {
      if !NearerOrFirst(distance, first, cells[i]) {
        first := cells[i];
      }
    }
  }

  function SafeNear(grid: OccupancyGrid, requested: Cell, radius: int, clearance: int): Cell -> bool {
    (c: Cell) => IsCandidate(grid, requested, radius, clearance, c)
  }

  lemma SafeNearInSquare(grid: OccupancyGrid, requested: Cell, radius: int, clearance: int)
    requires radius >= 0
    ensures forall c :: SafeNear(grid, requested, radius, clearance)(c) ==> InSquare(requested, radius, c)
  {
    forall c | IsCandidate(grid, requested, radius, clearance, c) ensures InSquare(requested, radius, c) {
      OffsetsExact(radius, c.col - requested.col, c.row - requested.row);
    }
  }

  /** Nothing is chosen exactly when no cell passes; otherwise it is the centre
      of the nearest cell that does. */
  ghost predicate IsChoice(grid: OccupancyGrid, passes: Cell -> bool, distance: Cell -> real, goal: Option<Point>) {
    if goal.None? then forall c :: !passes(c)
    else exists c :: passes(c) && goal.value == grid.CellToWorld(c) && forall d :: passes(d) ==> NearerOrFirst(distance, c, d)
  }

  method Choose(grid: OccupancyGrid, passes: Cell -> bool, distance: Cell -> real, requested: Cell, radius: int) returns (goal: Option<Point>)
    requires radius >= 0 && forall c :: passes(c) ==> InSquare(requested, radius, c)
    ensures IsChoice(grid, passes, distance, goal)
  {
    var candidates := Candidates(passes, requested, radius);
    if candidates == [] {
      assert forall c :: c !in candidates;
      return None;
    }
    var selected := First(distance, candidates);
    goal := Some(grid.CellToWorld(selected));
  }

  method FindNearestSafeGoal(sqrt: real -> real, grid: OccupancyGrid, requestedXY: Point, searchRadius: real, clearance: real)
    returns (goal: Option<Point>)
    requires grid.Valid()
    ensures var requested := grid.WorldToCell(requestedXY);
      if requested.None? then goal.None?
      else
        var (radius, margin) := (CellRadius(searchRadius, grid.resolution), CellRadius(clearance, grid.resolution));
        IsChoice(grid, SafeNear(grid, requested.value, radius, margin), DistanceFrom(sqrt, requested.value), goal)
  {
    var requested := grid.WorldToCell(requestedXY);
    if requested.None? {
      return None;
    }
    var radius, margin := CellRadius(searchRadius, grid.resolution), CellRadius(clearance, grid.resolution);
    SafeNearInSquare(grid, requested.value, radius, margin);
    goal := Choose(grid, SafeNear(grid, requested.value, radius, margin), DistanceFrom(sqrt, requested.value), requested.value, radius);
  }
}
