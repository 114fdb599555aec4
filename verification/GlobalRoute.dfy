/** Global planning over proven-free space, from robot_brain/navigation/native_go2.py. */
module GlobalRoute {
  import opened RealMath
  import opened Grid
  import opened Dilation
  import opened MetricDisc
  import opened Neighbourhood
  import opened SearchGraph
  import opened Planner

  /** Seen free, and not inside any obstacle's inflation. */
  predicate IsFree(grid: OccupancyGrid, c: Cell) {
    c in grid.knownFree && c !in grid.occupied
  }

  function ClearanceCells(grid: OccupancyGrid, clearance: real): int
    requires grid.Valid()
  {
    Ceiling((if clearance > 0.0 then clearance else 0.0) / grid.resolution)
  }

  predicate DiscIsFree(grid: OccupancyGrid, c: Cell, radius: int) {
    forall offset :: offset in DiscOffsets(radius) ==> IsFree(grid, Shift(c, offset))
  }

  /** The cells that a global route may enter. */
  function Traversable(grid: OccupancyGrid, start: Option<Cell>, radius: int): set<Cell> {
    (set c | c in grid.knownFree && c !in grid.occupied && DiscIsFree(grid, c, radius))
    + if start.Some? then set c | c in grid.knownFree && c !in grid.occupied && InDisc(start.value, c, radius) else {}
  }

  /** `_known_free_only_grid`: everything that is not traversable becomes an obstacle. */
  function KnownFreeOnlyGrid(grid: OccupancyGrid, startXY: Point, clearance: real): OccupancyGrid
    requires grid.Valid()
  {
    var start := grid.WorldToCell(startXY);
    var traversable := Traversable(grid, start, ClearanceCells(grid, clearance));
    var blocked := (set c | c in grid.Cells() && c !in traversable) + grid.occupied;
    grid.(occupied := if start.Some? then blocked - {start.value} else blocked, knownFree := traversable)
  }

  /** What the robot may rely on for a cell of a global route: it was seen free, lies in no
      inflated obstacle, and so does the whole disc around it, unless the cell is so close to the
      start that the robot already covers it. */
  ghost predicate IsProven(grid: OccupancyGrid, start: Cell, radius: int, c: Cell) {
    IsFree(grid, c) && (InDisc(start, c, radius) || forall o :: InDisc(c, o, radius) ==> IsFree(grid, o))
  }

  lemma DiscIsFreeExact(grid: OccupancyGrid, c: Cell, radius: int)
    requires radius >= 0
    ensures DiscIsFree(grid, c, radius) <==> forall o :: InDisc(c, o, radius) ==> IsFree(grid, o)
  {
    if DiscIsFree(grid, c, radius) {
      forall o | InDisc(c, o, radius) ensures IsFree(grid, o) {
        var offset := (o.col - c.col, o.row - c.row);
        OffsetsExact(radius, offset.0, offset.1);
        assert o == Shift(c, offset);
      }
    } else {
      var offset :| offset in DiscOffsets(radius) && !IsFree(grid, Shift(c, offset));
      OffsetsExact(radius, offset.0, offset.1);
      assert InDisc(c, Shift(c, offset), radius);
    }
  }

  lemma ClearanceCellsNonnegative(grid: OccupancyGrid, clearance: real)
    requires grid.Valid()
    ensures ClearanceCells(grid, clearance) >= 0
  {
    var c := if clearance > 0.0 then clearance else 0.0;
    assert c / grid.resolution >= 0.0;
  }

  /** On the safe grid, a cell other than the start is unblocked exactly when it is on the map
      and proven. */
  lemma UnblockedIsProven(grid: OccupancyGrid, startXY: Point, clearance: real, start: Cell, c: Cell)
    requires grid.Valid() && grid.WorldToCell(startXY) == Some(start) && c != start
    ensures !KnownFreeOnlyGrid(grid, startXY, clearance).Blocked(c) <==>
              grid.Inside(c) && IsProven(grid, start, ClearanceCells(grid, clearance), c)
  {
    ClearanceCellsNonnegative(grid, clearance);
    DiscIsFreeExact(grid, c, ClearanceCells(grid, clearance));
    InsideIsCell(grid, c);
  }

  // ----- the clearance in metres -----

  /** What an unblocked cell of the safe grid means on the ground: it was seen free, and so was
      everything whose centre is within the clearance of its own, unless the start is that near
      up to one cell. */
  lemma UnblockedIsClear(sqrt: real -> real, grid: OccupancyGrid, startXY: Point, clearance: real, start: Cell, c: Cell, o: Cell)
    requires IsSqrt(sqrt) && grid.Valid() && grid.WorldToCell(startXY) == Some(start) && c != start
    requires !KnownFreeOnlyGrid(grid, startXY, clearance).Blocked(c)
    ensures IsFree(grid, c)
    ensures CentreGap(sqrt, grid, start, c) >= Positive(clearance) + grid.resolution ==>
              (CentreGap(sqrt, grid, c, o) <= clearance ==> IsFree(grid, o))
  {
    UnblockedIsProven(grid, startXY, clearance, start, c);
    DiscInMetres(sqrt, grid, clearance, start, c);
    DiscInMetres(sqrt, grid, clearance, c, o);
  }

  /** And the restriction asks for no more than a cell beyond the clearance. */
  lemma ClearIsUnblocked(sqrt: real -> real, grid: OccupancyGrid, startXY: Point, clearance: real, start: Cell, c: Cell)
    requires IsSqrt(sqrt) && grid.Valid() && grid.WorldToCell(startXY) == Some(start) && grid.Inside(c) && IsFree(grid, c)
    requires CentreGap(sqrt, grid, start, c) <= clearance
             || forall o :: CentreGap(sqrt, grid, c, o) < Positive(clearance) + grid.resolution ==> IsFree(grid, o)
    ensures !KnownFreeOnlyGrid(grid, startXY, clearance).Blocked(c)
  {
    if c != start {
      UnblockedIsProven(grid, startXY, clearance, start, c);
      DiscInMetres(sqrt, grid, clearance, start, c);
      forall o | InDisc(c, o, ClearanceCells(grid, clearance))
        ensures CentreGap(sqrt, grid, c, o) < Positive(clearance) + grid.resolution
      {
        DiscInMetres(sqrt, grid, clearance, c, o);
      }
    }
  }

  /** Global routes stay in proven-free space: every cell after the first of a path planned on the
      safe grid is proven on the original one. */
  lemma RouteStaysProven(sqrt: real -> real, grid: OccupancyGrid, startXY: Point, clearance: real, start: Cell, goal: Cell,
                         obstacleWeight: real, cells: seq<Cell>, i: nat)
    requires grid.Valid() && grid.WorldToCell(startXY) == Some(start)
    requires IsPath(PlanningGraph(KnownFreeOnlyGrid(grid, startXY, clearance), start, goal, obstacleWeight, sqrt),
                    start, goal, cells)
    requires 0 < i < |cells| && cells[i] != start
    ensures grid.Inside(cells[i]) && IsProven(grid, start, ClearanceCells(grid, clearance), cells[i])
  {
    var safe := KnownFreeOnlyGrid(grid, startXY, clearance);
    var g := PlanningGraph(safe, start, goal, obstacleWeight, sqrt);
    assert g.step(cells[i - 1], cells[i - 1 + 1]);
    assert !safe.Blocked(cells[i]);
    UnblockedIsProven(grid, startXY, clearance, start, cells[i]);
  }

  ghost predicate MayPass(grid: OccupancyGrid, start: Cell, radius: int, c: Cell) {
    c == start || (grid.Inside(c) && IsProven(grid, start, radius, c))
  }

  lemma MayPassIsClear(grid: OccupancyGrid, startXY: Point, clearance: real, start: Cell, c: Cell)
    requires grid.Valid() && grid.WorldToCell(startXY) == Some(start)
    requires MayPass(grid, start, ClearanceCells(grid, clearance), c)
    ensures IsClear(KnownFreeOnlyGrid(grid, startXY, clearance), start, c)
    ensures !KnownFreeOnlyGrid(grid, startXY, clearance).Blocked(c)
  {
    if c != start {
      UnblockedIsProven(grid, startXY, clearance, start, c);
    }
  }

  /** Conversely the restriction loses no safe route: a walk through proven cells (or back
      through the start) that squeezes past no unproven corner is a legal path on the safe grid. */
  lemma ProvenWalkIsPath(sqrt: real -> real, grid: OccupancyGrid, startXY: Point, clearance: real, start: Cell, goal: Cell,
                         obstacleWeight: real, cells: seq<Cell>)
    requires grid.Valid() && grid.WorldToCell(startXY) == Some(start)
    requires |cells| > 0 && cells[0] == start && cells[|cells| - 1] == goal
    requires var radius := ClearanceCells(grid, clearance);
             forall i :: 0 < i < |cells| ==>
               && Adjacent(cells[i - 1], cells[i]) && MayPass(grid, start, radius, cells[i])
               && (Diagonal(cells[i - 1], cells[i]) ==>
                     && MayPass(grid, start, radius, Cell(cells[i].col, cells[i - 1].row))
                     && MayPass(grid, start, radius, Cell(cells[i - 1].col, cells[i].row)))
    ensures IsPath(PlanningGraph(KnownFreeOnlyGrid(grid, startXY, clearance), start, goal, obstacleWeight, sqrt),
                   start, goal, cells)
  {
    var safe := KnownFreeOnlyGrid(grid, startXY, clearance);
    forall i | 0 < i < |cells| ensures LegalStep(safe, start, cells[i - 1], cells[i]) {
      MayPassIsClear(grid, startXY, clearance, start, cells[i]);
      if Diagonal(cells[i - 1], cells[i]) {
        MayPassIsClear(grid, startXY, clearance, start, Cell(cells[i].col, cells[i - 1].row));
        MayPassIsClear(grid, startXY, clearance, start, Cell(cells[i - 1].col, cells[i].row));
      }
    }
    var g := PlanningGraph(safe, start, goal, obstacleWeight, sqrt);
    forall i | 0 <= i < |cells| - 1 ensures g.step(cells[i], cells[i + 1]) {
      assert LegalStep(safe, start, cells[i + 1 - 1], cells[i + 1]);
    }
  }
}
