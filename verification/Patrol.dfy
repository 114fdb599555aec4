/** Patrol routes of robot_brain/navigation/patrol.py, and the evaluation they must pass. */
module Patrol {
  import opened RealMath
  import opened Grid
  import opened Sorting
  import opened Flood
  import opened Frontier
  import opened CoverageRoute

  datatype Strategy = Coverage | FrontierFirst | Random | LeastVisited

  /** In the same square of a grid of this resolution. */
  predicate SameSquare(resolution: real, p: Point, q: Point)
    requires resolution > 0.0
  {
    (p.x / resolution).Floor == (q.x / resolution).Floor && (p.y / resolution).Floor == (q.y / resolution).Floor
  }

  class VisitationHistory {
    const resolution: real
    var counts: map<(int, int), int>

    constructor (resolution: real)
      requires resolution > 0.0
      ensures this.resolution == resolution && counts == map[]
    {
      this.resolution := resolution;
      counts := map[];
    }

    function Key(p: Point): (int, int)
      requires resolution > 0.0
    {
      ((p.x / resolution).Floor, (p.y / resolution).Floor)
    }

    function Count(p: Point): int
      requires resolution > 0.0
      reads this
    {
      if Key(p) in counts then counts[Key(p)] else 0
    }

    /** A visit counts once, for the points of its own square only. */
    method Record(p: Point)
      requires resolution > 0.0
      modifies this
      ensures forall q :: Count(q) == old(Count(q)) + if SameSquare(resolution, p, q) then 1 else 0
    {
      counts := counts[Key(p) := Count(p) + 1];
    }
  }

  function Stride(grid: OccupancyGrid, spacing: real): int
    requires grid.Valid()
  {
    Max(1, RoundHalfEven(spacing / grid.resolution))
  }

  predicate OnLattice(stride: int, c: Cell)
    requires stride > 0
  {
    c.col % stride == 0 && c.row % stride == 0
  }

  function SpacedCells(free: seq<Cell>, stride: int): seq<Cell>
    requires stride > 0
  {
    if free == [] then []
    else (if OnLattice(stride, free[0]) then [free[0]] else []) + SpacedCells(free[1..], stride)
  }

  lemma {:induction false} SpacedCellsFilter(free: seq<Cell>, stride: int)
    requires stride > 0 && NoDuplicates(free)
    ensures NoDuplicates(SpacedCells(free, stride))
    ensures forall c :: c in SpacedCells(free, stride) <==> c in free && OnLattice(stride, c)
  {
    if free != [] {
      SpacedCellsFilter(free[1..], stride);
      assert free == [free[0]] + free[1..];
      assert free[0] !in free[1..];
    }
  }

  /** How often each cell's centre has been visited. */
  type Visits = Cell -> int

  predicate VisitNotAfter(sqrt: real -> real, grid: OccupancyGrid, robotXY: Point, visits: Visits, a: Cell, b: Cell) {
    var da, db := RobotDistance(sqrt, grid, robotXY, a), RobotDistance(sqrt, grid, robotXY, b);
    if visits(a) != visits(b) then visits(a) < visits(b)
    else if da != db then da < db
    else CellNotAfter(a, b)
  }

  function RobotDistance(sqrt: real -> real, grid: OccupancyGrid, robotXY: Point, c: Cell): real {
    var p := grid.CellToWorld(c);
    Hypot(sqrt, p.x - robotXY.x, p.y - robotXY.y)
  }

  ghost predicate VisitsAscend(visits: Visits, cells: seq<Cell>) {
    forall i, j :: 0 <= i < j < |cells| ==> visits(cells[i]) <= visits(cells[j])
  }

  /** What a generated route is, strategy by strategy, before it is cut to length. */
  ghost predicate IsRouteOrder(grid: OccupancyGrid, strategy: Strategy, stride: int, visits: Visits, order: seq<Cell>)
    requires stride > 0
  {
    && NoDuplicates(order) && (forall c :: c in order ==> c in grid.knownFree)
    && (strategy != FrontierFirst ==> forall c :: c in order <==> c in grid.knownFree && OnLattice(stride, c))
    && (strategy == FrontierFirst ==> forall c :: c in order ==> BordersUnknown(grid, c))
    && (strategy == Coverage ==> IsCoverageOrder(order, order))
    && (strategy == LeastVisited ==> VisitsAscend(visits, order))
  }

  function FrontierSearch(grid: OccupancyGrid, robotXY: Point): Search {
    Search(robotXY, if grid.resolution < 0.3 then 0.3 else grid.resolution, 0.0, [], 0.5)
  }

  function GoalCells(scored: seq<Scored>): seq<Cell> {
    seq(|scored|, i requires 0 <= i < |scored| => scored[i].centre)
  }

  /** The cells of the frontier goals, best goal first; none when the robot is not on free space. */
  ghost predicate IsFrontierOrder(sqrt: real -> real, grid: OccupancyGrid, robotXY: Point, order: seq<Cell>)
    requires grid.Valid()
  {
    var start := grid.WorldToCell(robotXY);
    if start.None? || start.value !in grid.knownFree then order == []
    else exists scored :: AreGoals(sqrt, grid, FrontierSearch(grid, robotXY), start.value, scored) && order == GoalCells(scored)
  }

  ghost predicate ListsFree(grid: OccupancyGrid, free: seq<Cell>) {
    Strict(CellNotAfter, free) && forall c :: c in free <==> c in grid.knownFree
  }

  /** The order each strategy promises, down to its tie-breaks. */
  ghost predicate FollowsStrategy(sqrt: real -> real, grid: OccupancyGrid, strategy: Strategy, robotXY: Point, stride: int,
                                  shuffle: seq<Cell> -> seq<Cell>, visits: Visits, order: seq<Cell>)
    requires grid.Valid() && stride > 0
  {
    match strategy
    case FrontierFirst => IsFrontierOrder(sqrt, grid, robotXY, order)
    case Coverage => IsCoverageOrder(order, order)
    case Random => exists free :: ListsFree(grid, free) && order == shuffle(SpacedCells(free, stride))
    case LeastVisited => VisitsFirst(sqrt, grid, robotXY, visits, order)
  }

  ghost predicate VisitsFirst(sqrt: real -> real, grid: OccupancyGrid, robotXY: Point, visits: Visits, order: seq<Cell>) {
    forall i, j :: 0 <= i < j < |order| ==> VisitNotAfter(sqrt, grid, robotXY, visits, order[i], order[j])
  }

  function Cut<T>(s: seq<T>, n: int): seq<T> { if n <= 0 then [] else if n < |s| then s[..n] else s }

  /** `create_patrol_route`. The pseudo-random shuffle of the source becomes the parameter
      `shuffle`: any rearrangement of the candidates. */
  method CreatePatrolRoute(sqrt: real -> real, grid: OccupancyGrid, strategy: Strategy, robotXY: Point, spacing: real,
                           maxWaypoints: int, shuffle: seq<Cell> -> seq<Cell>, visits: Visits)
    returns (route: seq<Point>, ghost order: seq<Cell>)
    requires grid.Valid() && forall s {:trigger shuffle(s)} :: multiset(shuffle(s)) == multiset(s)
    ensures grid.knownFree == {} || maxWaypoints <= 0 ==> route == []
    ensures grid.knownFree != {} && maxWaypoints > 0 ==>
              && IsRouteOrder(grid, strategy, Stride(grid, spacing), visits, order)
              && FollowsStrategy(sqrt, grid, strategy, robotXY, Stride(grid, spacing), shuffle, visits, order)
              && route == Centres(grid, Cut(order, maxWaypoints))
  {
    order := [];
    CellNotAfterIsTotal();
    var free := SortedSet(CellNotAfter, grid.knownFree);
    assert free != [] ==> free[0] in free;
    if free == [] || maxWaypoints <= 0 {
      return [], order;
    }
    var routeCells;
    if strategy == FrontierFirst {
      routeCells := FrontierCells(sqrt, grid, robotXY);
    } else {
      routeCells := OrderedCells(sqrt, grid, strategy, robotXY, free, Stride(grid, spacing), shuffle, visits);
    }
    order := routeCells;
    var kept := Cut(routeCells, maxWaypoints);
    route := Centres(grid, kept);
  }

  /** The cells behind the goals of the frontier strategy. */
  method FrontierCells(sqrt: real -> real, grid: OccupancyGrid, robotXY: Point) returns (cells: seq<Cell>)
    requires grid.Valid()
    ensures NoDuplicates(cells) && forall c :: c in cells ==> c in grid.knownFree && BordersUnknown(grid, c)
    ensures IsFrontierOrder(sqrt, grid, robotXY, cells)
  {
    var scored := FindFrontierGoals(sqrt, grid, FrontierSearch(grid, robotXY));
    cells := GoalCells(scored);
    var start := grid.WorldToCell(robotXY);
    if start.Some? && start.value in grid.knownFree {
      GoalCellsApart(sqrt, grid, FrontierSearch(grid, robotXY), start.value, scored);
    }
  }

  /** Goals lie in different groups, so their cells differ, and each borders unknown space. */
  lemma GoalCentres(sqrt: real -> real, grid: OccupancyGrid, search: Search, start: Cell, scored: seq<Scored>)
    requires grid.Valid() && start in grid.knownFree && AreGoals(sqrt, grid, search, start, scored)
    ensures forall i :: 0 <= i < |scored| ==> scored[i].centre in grid.knownFree && BordersUnknown(grid, scored[i].centre)
    ensures forall i, j :: 0 <= i < j < |scored| ==> scored[i].centre != scored[j].centre
  {
    var groups :| AreFrontierGroups(grid, start, groups) && GoalsFor(sqrt, grid, search, groups, |groups|, scored);
    var frontier :| HoldsFrontier(grid, start, frontier) && ComponentsInv(frontier, {}, groups);
    forall i | 0 <= i < |scored| ensures scored[i].centre in groups[scored[i].group] {
      GoalIsSafe(sqrt, grid, search, groups[scored[i].group], scored[i]);
    }
    forall i | 0 <= i < |scored| ensures scored[i].centre in grid.knownFree && BordersUnknown(grid, scored[i].centre) {
      GroupedIsFrontier(grid, start, frontier, groups, scored[i].group, scored[i].centre);
    }
    forall i, j | 0 <= i < j < |scored| ensures scored[i].centre != scored[j].centre {
      GroupsApart(frontier, groups, scored[i].group, scored[j].group, scored[i].centre);
    }
  }

  lemma GoalCellsApart(sqrt: real -> real, grid: OccupancyGrid, search: Search, start: Cell, scored: seq<Scored>)
    requires grid.Valid() && start in grid.knownFree && AreGoals(sqrt, grid, search, start, scored)
    ensures NoDuplicates(GoalCells(scored))
    ensures forall c :: c in GoalCells(scored) ==> c in grid.knownFree && BordersUnknown(grid, c)
  {
    GoalCentres(sqrt, grid, search, start, scored);
  }

  lemma GroupedIsFrontier(grid: OccupancyGrid, start: Cell, frontier: set<Cell>, groups: seq<seq<Cell>>, g: nat, c: Cell)
    requires start in grid.knownFree && HoldsFrontier(grid, start, frontier) && ComponentsInv(frontier, {}, groups)
    requires g < |groups| && c in groups[g]
    ensures c in grid.knownFree && BordersUnknown(grid, c)
  {
    assert c in frontier && IsFrontier(grid, start, c);
    var walk :| IsWalkTo(Adjacent4, grid.knownFree, start, c, walk);
  }

  lemma GroupsApart(frontier: set<Cell>, groups: seq<seq<Cell>>, g: nat, h: nat, c: Cell)
    requires IsDisjoint(frontier, {}, groups) && g < |groups| && h < |groups| && g != h && c in groups[g]
    ensures c !in groups[h]
  {
  }

  method OrderedCells(sqrt: real -> real, grid: OccupancyGrid, strategy: Strategy, robotXY: Point, free: seq<Cell>,
                      stride: int, shuffle: seq<Cell> -> seq<Cell>, visits: Visits)
    returns (cells: seq<Cell>)
    requires stride > 0 && strategy != FrontierFirst
    requires forall s {:trigger shuffle(s)} :: multiset(shuffle(s)) == multiset(s)
    requires grid.Valid() && ListsFree(grid, free)
    ensures IsRouteOrder(grid, strategy, stride, visits, cells)
    ensures FollowsStrategy(sqrt, grid, strategy, robotXY, stride, shuffle, visits, cells)
  {
    var candidates := SpacedCells(free, stride);
    SpacedCellsFilter(free, stride);
    if strategy == Coverage {
      cells := CoverageOrder(candidates);
      CoverageOfItself(candidates, cells);
    } else if strategy == Random {
      cells := shuffle(candidates);
      Rearranged(candidates, cells);
    } else {
      var le := (a, b) => VisitNotAfter(sqrt, grid, robotXY, visits, a, b);
      cells := Sorted(le, candidates);
      SortedIsSorted(le, candidates);
      Rearranged(candidates, cells);
      assert forall i, j :: 0 <= i < j < |cells| ==> le(cells[i], cells[j]);
    }
  }

  lemma CoverageOfItself(cells: seq<Cell>, order: seq<Cell>)
    requires IsCoverageOrder(cells, order)
    ensures IsCoverageOrder(order, order) && NoDuplicates(order)
  {
    assert RowsIn(cells) == RowsIn(order);
    forall i, j | 0 <= i < j < |order| ensures order[i] != order[j] {
      assert Before(RowsIn(cells), order[i], order[j]);
    }
  }
}
