/** The A* planner of robot_brain/navigation/planner.py. */
module Planner {
  import opened RealMath
  import opened Grid
  import opened SearchGraph
  import opened CellSearch
  import opened Neighbourhood
  import opened PathGeometry

  /** A step the planner may take: onto an unblocked cell, and never past the corner of an
      obstacle. The cell under the robot does not count as an obstacle corner. */
  predicate LegalStep(grid: OccupancyGrid, start: Cell, a: Cell, b: Cell) {
    && Adjacent(a, b) && !grid.Blocked(b)
    && (Diagonal(a, b) ==> IsClear(grid, start, Cell(b.col, a.row)) && IsClear(grid, start, Cell(a.col, b.row)))
  }

  predicate IsClear(grid: OccupancyGrid, start: Cell, c: Cell) {
    c !in grid.occupied || c == start
  }

  function StepCost(grid: OccupancyGrid, obstacleWeight: real, sqrt: real -> real, a: Cell, b: Cell): real {
    StepLength(sqrt(2.0), a, b) * (1.0 + obstacleWeight * grid.TraversalCost(b) as real / 100.0)
  }

  function Estimate(sqrt: real -> real, goal: Cell, c: Cell): real {
    Hypot(sqrt, (goal.col - c.col) as real, (goal.row - c.row) as real)
  }

  /** The weighted graph that one planner call searches. */
  function PlanningGraph(grid: OccupancyGrid, start: Cell, goal: Cell, obstacleWeight: real,
                               sqrt: real -> real): Graph
  {
    Graph(grid.Cells(), (a, b) => LegalStep(grid, start, a, b),
          (a, b) => StepCost(grid, obstacleWeight, sqrt, a, b), c => Estimate(sqrt, goal, c))
  }

  /** Obstacle costs are never negative; `DistanceCosts.DistanceCostValues` produces no others. */
  ghost predicate NonnegativeCosts(grid: OccupancyGrid) {
    forall i :: 0 <= i < |grid.traversalCosts| ==> grid.traversalCosts[i] >= 0
  }

  lemma SqrtValues(sqrt: real -> real)
    requires IsSqrt(sqrt)
    ensures sqrt(1.0) == 1.0 && sqrt(0.0) == 0.0 && sqrt(2.0) > 1.0
  {
    SquareOrder(sqrt(1.0), 1.0);
    SquareOrder(1.0, sqrt(1.0));
    SquareOrder(1.0, sqrt(2.0));
    assert sqrt(2.0) * sqrt(2.0) == 2.0;
    SquareOrder(sqrt(0.0), 0.0);
  }

  /** A step is exactly as long as the straight line between the two cell centres. */
  lemma StepLengthIsDistance(sqrt: real -> real, a: Cell, b: Cell)
    requires IsSqrt(sqrt) && Adjacent(a, b)
    ensures Hypot(sqrt, (b.col - a.col) as real, (b.row - a.row) as real) == StepLength(sqrt(2.0), a, b) >= 1.0
  {
    SqrtValues(sqrt);
    var x, y := (b.col - a.col) as real, (b.row - a.row) as real;
    assert x == 0.0 || x == 1.0 || x == -1.0;
    assert y == 0.0 || y == 1.0 || y == -1.0;
    assert x * x + y * y == (if Diagonal(a, b) then 2.0 else 1.0);
  }

  lemma StepCostAtLeastLength(grid: OccupancyGrid, obstacleWeight: real, sqrt: real -> real, a: Cell, b: Cell)
    requires IsSqrt(sqrt) && Adjacent(a, b) && NonnegativeCosts(grid) && obstacleWeight >= 0.0
    ensures StepCost(grid, obstacleWeight, sqrt, a, b) >= StepLength(sqrt(2.0), a, b) >= 1.0
  {
    StepLengthIsDistance(sqrt, a, b);
    var length, penalty := StepLength(sqrt(2.0), a, b), obstacleWeight * grid.TraversalCost(b) as real / 100.0;
    assert grid.TraversalCost(b) >= 0;
    assert obstacleWeight * grid.TraversalCost(b) as real >= 0.0;
    MultiplyMonotone(length, length, 1.0, 1.0 + penalty);
  }

  /** The straight-line estimate is consistent for every step the planner may take. */
  lemma PlanningGraphConsistent(grid: OccupancyGrid, start: Cell, goal: Cell, obstacleWeight: real,
                                sqrt: real -> real)
    requires IsSqrt(sqrt) && NonnegativeCosts(grid) && obstacleWeight >= 0.0
    ensures Consistent(PlanningGraph(grid, start, goal, obstacleWeight, sqrt))
  {
    var g := PlanningGraph(grid, start, goal, obstacleWeight, sqrt);
    forall a, b | g.step(a, b)
      ensures b in g.cells && g.weight(a, b) > 0.0 && g.estimate(a) <= g.weight(a, b) + g.estimate(b)
    {
      StepCostAtLeastLength(grid, obstacleWeight, sqrt, a, b);
      EstimateDrop(sqrt, goal, a, b);
    }
  }

  lemma EstimateDrop(sqrt: real -> real, goal: Cell, a: Cell, b: Cell)
    requires IsSqrt(sqrt) && Adjacent(a, b)
    ensures Estimate(sqrt, goal, a) <= StepLength(sqrt(2.0), a, b) + Estimate(sqrt, goal, b)
  {
    StepLengthIsDistance(sqrt, a, b);
    var x, y := (b.col - a.col) as real, (b.row - a.row) as real;
    var u, v := (goal.col - b.col) as real, (goal.row - b.row) as real;
    HypotTriangle(sqrt, x, y, u, v);
    assert x + u == (goal.col - a.col) as real && y + v == (goal.row - a.row) as real;
  }

  // ----- what a path costs, in terms of the map -----

  /** A walk from cell to neighbouring cell that enters only cells of the map that are not occupied,
      and goes diagonally only between two cells that are free or under the robot. */
  ghost predicate IsTour(grid: OccupancyGrid, start: Cell, goal: Cell, cells: seq<Cell>) {
    && |cells| > 0 && cells[0] == start && cells[|cells| - 1] == goal
    && forall i :: 0 < i < |cells| ==> MayStep(grid, start, cells[i - 1].col, cells[i - 1].row, cells[i].col, cells[i].row)
  }

  ghost predicate MayStep(grid: OccupancyGrid, start: Cell, col: int, row: int, nextCol: int, nextRow: int) {
    && (nextCol - col, nextRow - row) in {(-1, -1), (-1, 0), (-1, 1), (0, -1), (0, 1), (1, -1), (1, 0), (1, 1)}
    && 0 <= nextCol < grid.width && 0 <= nextRow < grid.height && Cell(nextCol, nextRow) !in grid.occupied
    && (nextCol == col || nextRow == row
        || (Cell(nextCol, row) !in grid.occupied - {start} && Cell(col, nextRow) !in grid.occupied - {start}))
  }

  function CellGap(sqrt: real -> real, a: Cell, b: Cell): real {
    Hypot(sqrt, (b.col - a.col) as real, (b.row - a.row) as real)
  }

  /** How far the robot drives on it, in cells. */
  function WayLength(sqrt: real -> real, cells: seq<Cell>): real {
    if |cells| <= 1 then 0.0
    else WayLength(sqrt, cells[..|cells| - 1]) + CellGap(sqrt, cells[|cells| - 2], cells[|cells| - 1])
  }

  /** The table's entry for a cell. */
  function EntryOf(width: int, costs: seq<int>, c: Cell): int {
    var slot := c.row * width + c.col;
    if 0 <= slot < |costs| then costs[slot] else 0
  }

  /** The obstacle cost of one step: as much as it is long, times the entry of the cell it enters. */
  function StepPenalty(sqrt: real -> real, width: int, costs: seq<int>, a: Cell, b: Cell): real {
    CellGap(sqrt, a, b) * EntryOf(width, costs, b) as real
  }

  /** How much obstacle cost the robot drives through. */
  function WayPenalty(sqrt: real -> real, width: int, costs: seq<int>, cells: seq<Cell>): real {
    if |cells| <= 1 then 0.0
    else WayPenalty(sqrt, width, costs, cells[..|cells| - 1]) + StepPenalty(sqrt, width, costs, cells[|cells| - 2], cells[|cells| - 1])
  }

  function Toll(sqrt: real -> real, grid: OccupancyGrid, obstacleWeight: real, cells: seq<Cell>): real {
    Weighed(obstacleWeight, WayLength(sqrt, cells), WayPenalty(sqrt, grid.width, grid.traversalCosts, cells))
  }

  /** A table entry of 100 at weight 1 makes a step count twice. */
  function Weighed(obstacleWeight: real, length: real, penalty: real): real {
    length + obstacleWeight / 100.0 * penalty
  }

  /** No other tour is cheaper. */
  ghost predicate IsBestTour(sqrt: real -> real, grid: OccupancyGrid, start: Cell, goal: Cell, obstacleWeight: real, cells: seq<Cell>) {
    && IsTour(grid, start, goal, cells)
    && forall other :: IsTour(grid, start, goal, other) ==>
         Toll(sqrt, grid, obstacleWeight, cells) <= Toll(sqrt, grid, obstacleWeight, other)
  }

  lemma MayStepIsLegal(grid: OccupancyGrid, start: Cell, a: Cell, b: Cell)
    ensures MayStep(grid, start, a.col, a.row, b.col, b.row) <==> LegalStep(grid, start, a, b)
  {
    assert b == Cell(b.col, b.row);
  }

  /** The planner's paths are the tours. */
  lemma PathsAreTours(sqrt: real -> real, grid: OccupancyGrid, start: Cell, goal: Cell, obstacleWeight: real, cells: seq<Cell>)
    ensures IsPath(PlanningGraph(grid, start, goal, obstacleWeight, sqrt), start, goal, cells) <==> IsTour(grid, start, goal, cells)
  {
    var g := PlanningGraph(grid, start, goal, obstacleWeight, sqrt);
    forall a: Cell, b: Cell ensures g.step(a, b) <==> MayStep(grid, start, a.col, a.row, b.col, b.row) {
      MayStepIsLegal(grid, start, a, b);
    }
    if IsPath(g, start, goal, cells) {
      forall i | 0 < i < |cells| ensures MayStep(grid, start, cells[i - 1].col, cells[i - 1].row, cells[i].col, cells[i].row) {
        assert g.step(cells[i - 1], cells[i - 1 + 1]);
      }
    }
    if IsTour(grid, start, goal, cells) {
      forall i | 0 <= i < |cells| - 1 ensures g.step(cells[i], cells[i + 1]) {
        assert MayStep(grid, start, cells[i + 1 - 1].col, cells[i + 1 - 1].row, cells[i + 1].col, cells[i + 1].row);
      }
    }
  }

  /** The search's weight of a step is its length and, in proportion, its penalty. */
  lemma StepToll(sqrt: real -> real, grid: OccupancyGrid, obstacleWeight: real, a: Cell, b: Cell)
    requires IsSqrt(sqrt) && Adjacent(a, b)
    ensures StepCost(grid, obstacleWeight, sqrt, a, b)
         == Weighed(obstacleWeight, CellGap(sqrt, a, b), StepPenalty(sqrt, grid.width, grid.traversalCosts, a, b))
  {
    StepLengthIsDistance(sqrt, a, b);
    var length, entry := StepLength(sqrt(2.0), a, b), EntryOf(grid.width, grid.traversalCosts, b) as real;
    assert grid.TraversalCost(b) as real == entry;
    assert length * (1.0 + obstacleWeight * entry / 100.0) == length + obstacleWeight / 100.0 * (length * entry);
  }

  lemma WeighedAdds(weight: real, length: real, penalty: real, length': real, penalty': real)
    ensures Weighed(weight, length, penalty) + Weighed(weight, length', penalty') == Weighed(weight, length + length', penalty + penalty')
  {
    var k := weight / 100.0;
    assert k * penalty + k * penalty' == k * (penalty + penalty');
  }

  lemma WeighedOrder(weight: real, length: real, a: real, b: real)
    requires weight > 0.0 && Weighed(weight, length, a) <= Weighed(weight, length, b)
    ensures a <= b
  {
    ScaledOrder(weight / 100.0, a, b);
  }

  /** What the search adds up along a tour is its length and, in proportion to the weight, its penalty. */
  lemma {:induction false} PathCostIsToll(sqrt: real -> real, grid: OccupancyGrid, start: Cell, goal: Cell, obstacleWeight: real, cells: seq<Cell>)
    requires IsSqrt(sqrt) && |cells| > 0
    requires forall i :: 0 < i < |cells| ==> MayStep(grid, start, cells[i - 1].col, cells[i - 1].row, cells[i].col, cells[i].row)
    ensures PathCost(PlanningGraph(grid, start, goal, obstacleWeight, sqrt), cells) == Toll(sqrt, grid, obstacleWeight, cells)
  {
    if |cells| > 1 {
      var init, a, b := cells[..|cells| - 1], cells[|cells| - 2], cells[|cells| - 1];
      PathCostIsToll(sqrt, grid, start, goal, obstacleWeight, init);
      assert MayStep(grid, start, a.col, a.row, b.col, b.row);
      MayStepIsLegal(grid, start, a, b);
      StepToll(sqrt, grid, obstacleWeight, a, b);
      WeighedAdds(obstacleWeight, WayLength(sqrt, init), WayPenalty(sqrt, grid.width, grid.traversalCosts, init),
                  CellGap(sqrt, a, b), StepPenalty(sqrt, grid.width, grid.traversalCosts, a, b));
    }
  }

  /** A cheapest path of the search is a best tour of the map. */
  lemma CheapestIsBest(sqrt: real -> real, grid: OccupancyGrid, start: Cell, goal: Cell, obstacleWeight: real, cells: seq<Cell>)
    requires IsSqrt(sqrt) && IsCheapest(PlanningGraph(grid, start, goal, obstacleWeight, sqrt), start, goal, cells)
    ensures IsBestTour(sqrt, grid, start, goal, obstacleWeight, cells)
  {
    PathsAreTours(sqrt, grid, start, goal, obstacleWeight, cells);
    PathCostIsToll(sqrt, grid, start, goal, obstacleWeight, cells);
    forall other | IsTour(grid, start, goal, other)
      ensures Toll(sqrt, grid, obstacleWeight, cells) <= Toll(sqrt, grid, obstacleWeight, other)
    {
      PathsAreTours(sqrt, grid, start, goal, obstacleWeight, other);
      PathCostIsToll(sqrt, grid, start, goal, obstacleWeight, other);
    }
  }

  lemma UnreachableHasNoTour(sqrt: real -> real, grid: OccupancyGrid, start: Cell, goal: Cell, obstacleWeight: real)
    requires !Reachable(PlanningGraph(grid, start, goal, obstacleWeight, sqrt), start, goal)
    ensures forall cells :: !IsTour(grid, start, goal, cells)
  {
    forall cells ensures !IsTour(grid, start, goal, cells) {
      PathsAreTours(sqrt, grid, start, goal, obstacleWeight, cells);
    }
  }

  /** Of two tours of the same length the one through more obstacle cost is never the answer. */
  lemma CostlierTwinLoses(sqrt: real -> real, grid: OccupancyGrid, start: Cell, goal: Cell, obstacleWeight: real, cells: seq<Cell>, other: seq<Cell>)
    requires IsBestTour(sqrt, grid, start, goal, obstacleWeight, cells) && IsTour(grid, start, goal, other)
    requires obstacleWeight > 0.0 && WayLength(sqrt, cells) == WayLength(sqrt, other)
    ensures WayPenalty(sqrt, grid.width, grid.traversalCosts, cells) <= WayPenalty(sqrt, grid.width, grid.traversalCosts, other)
  {
    WeighedOrder(obstacleWeight, WayLength(sqrt, cells), WayPenalty(sqrt, grid.width, grid.traversalCosts, cells),
                 WayPenalty(sqrt, grid.width, grid.traversalCosts, other));
  }

  lemma ScaledOrder(k: real, a: real, b: real)
    requires k > 0.0 && k * a <= k * b
    ensures a <= b
  {
    assert a > b ==> k * (a - b) > 0.0;
  }

  /** `astar_path`: the error of a negative weight, the early `None` answers, and otherwise the
      simplified centres of a cheapest legal path, or `None` exactly when there is no legal path. */
  method AstarPath(sqrt: real -> real, grid: OccupancyGrid, startXY: Point, goalXY: Point, obstacleWeight: real)
    returns (r: Result<Option<seq<Point>>>, ghost cells: seq<Cell>)
    requires IsSqrt(sqrt) && grid.Valid() && NonnegativeCosts(grid)
    ensures r.Err? <==> obstacleWeight < 0.0
    ensures r.Ok? ==> AstarAnswer(sqrt, grid, grid.WorldToCell(startXY), grid.WorldToCell(goalXY), obstacleWeight,
                                  r.value, cells)
    ensures var start, goal := grid.WorldToCell(startXY), grid.WorldToCell(goalXY);
            r.Ok? && start.Some? && goal.Some? && !grid.Blocked(goal.value) ==>
              match r.value
              case None => forall walk :: !IsTour(grid, start.value, goal.value, walk)
              case Some(path) => IsBestTour(sqrt, grid, start.value, goal.value, obstacleWeight, cells) && SimplifiedFrom(grid, cells, path)
  {
    cells := [];
    if obstacleWeight < 0.0 {
      return Err("obstacle cost weight must be finite and nonnegative"), cells;
    }
    var start, goal := grid.WorldToCell(startXY), grid.WorldToCell(goalXY);
    if start.None? || goal.None? || grid.Blocked(goal.value) {
      return Ok(None), cells;
    }
    PlanningGraphConsistent(grid, start.value, goal.value, obstacleWeight, sqrt);
    ghost var pushes;
    var found;
    found, pushes := SearchCells(PlanningGraph(grid, start.value, goal.value, obstacleWeight, sqrt), start.value, goal.value);
    if found.None? {
      UnreachableHasNoTour(sqrt, grid, start.value, goal.value, obstacleWeight);
      return Ok(None), cells;
    }
    cells := found.value;
    CheapestIsBest(sqrt, grid, start.value, goal.value, obstacleWeight, cells);
    var path := Simplify(Centres(grid, found.value));
    return Ok(Some(path)), cells;
  }

  ghost predicate AstarAnswer(sqrt: real -> real, grid: OccupancyGrid, start: Option<Cell>, goal: Option<Cell>,
                              obstacleWeight: real, answer: Option<seq<Point>>, cells: seq<Cell>)
  {
    if start.None? || goal.None? || grid.Blocked(goal.value) then answer == None
    else
      var g := PlanningGraph(grid, start.value, goal.value, obstacleWeight, sqrt);
      match answer
      case None => !Reachable(g, start.value, goal.value)
      case Some(path) => IsCheapest(g, start.value, goal.value, cells) && SimplifiedFrom(grid, cells, path)
  }
}
