/** What the order of a patrol means on the ground: robot_brain/navigation/patrol.py:23-123. */
module PatrolLaws {
  import opened RealMath
  import opened Grid
  import opened Sorting
  import opened MetricDisc
  import opened Patrol
  import opened PatrolEvaluation

  function Size(x: real): real { if x < 0.0 then -x else x }

  function Off(resolution: real, n: int, spacing: real): real { Size(n as real * resolution - spacing) }

  /** The spacing in cells: the whole number of cells nearest to it, at least one, the even one of two. */
  lemma StrideIsNearest(grid: OccupancyGrid, spacing: real, n: int)
    requires grid.Valid() && n >= 1
    ensures var stride := Stride(grid, spacing);
      && stride >= 1 && Off(grid.resolution, stride, spacing) <= Off(grid.resolution, n, spacing)
      && (n != stride && stride > 1 && Off(grid.resolution, stride, spacing) == Off(grid.resolution, n, spacing) ==> stride % 2 == 0)
  {
    var (q, stride) := (spacing / grid.resolution, Stride(grid, spacing));
    assert q * grid.resolution == spacing;
    NearestWhole(q, n);
    OffsInOrder(grid.resolution, stride, n, q, spacing);
  }

  lemma OffsInOrder(resolution: real, k: int, n: int, q: real, spacing: real)
    requires resolution > 0.0 && q * resolution == spacing
    ensures Size(k as real - q) <= Size(n as real - q) <==> Off(resolution, k, spacing) <= Off(resolution, n, spacing)
    ensures Size(k as real - q) == Size(n as real - q) <==> Off(resolution, k, spacing) == Off(resolution, n, spacing)
  {
    var a, x := OffInCells(resolution, k, q, spacing);
    var b, y := OffInCells(resolution, n, q, spacing);
    SameOrder(a, b, resolution, x, y);
  }

  lemma NearestWhole(q: real, n: int)
    requires n >= 1
    ensures var k := Max(1, RoundHalfEven(q));
      && Size(k as real - q) <= Size(n as real - q)
      && (n != k && k > 1 && Size(k as real - q) == Size(n as real - q) ==> k % 2 == 0)
  {
    RoundHalfEvenNear(q);
    var k := RoundHalfEven(q);
    if k > 1 && n != k && Size(k as real - q) == Size(n as real - q) {
      RoundHalfEvenTies(q);
    }
  }

  lemma SameOrder(a: real, b: real, resolution: real, x: real, y: real)
    requires resolution > 0.0 && x == a * resolution && y == b * resolution
    ensures (a <= b <==> x <= y) && (a == b <==> x == y)
  {
    var gap := ProductSign(b - a, resolution);
    assert gap == y - x;
    assert gap == 0.0 <==> a == b;
  }

  lemma OffInCells(resolution: real, n: int, q: real, spacing: real) returns (size: real, off: real)
    requires resolution > 0.0 && q * resolution == spacing
    ensures size == Size(n as real - q) && off == Off(resolution, n, spacing) && off == size * resolution
  {
    size, off := Size(n as real - q), Off(resolution, n, spacing);
    var gap := ProductSign(n as real - q, resolution);
    assert gap == n as real * resolution - spacing;
  }

  /** So different stops of the lattice are apart by the spacing, give or take half a cell. */
  lemma StopsApart(sqrt: real -> real, grid: OccupancyGrid, strategy: Strategy, spacing: real, visits: Visits, order: seq<Cell>,
                   i: nat, j: nat)
    requires IsSqrt(sqrt) && grid.Valid() && strategy != FrontierFirst
    requires IsRouteOrder(grid, strategy, Stride(grid, spacing), visits, order) && i < j < |order|
    ensures CentreGap(sqrt, grid, order[i], order[j]) >= grid.resolution
    ensures CentreGap(sqrt, grid, order[i], order[j]) >= spacing - 0.5 * grid.resolution
  {
    var stride := Stride(grid, spacing);
    var q := spacing / grid.resolution;
    assert q * grid.resolution == spacing;
    RoundHalfEvenNear(q);
    var edge := Edge(stride, q, grid.resolution, spacing);
    assert order[i] in order && order[j] in order;
    LatticeSteps(stride, order[i], order[j]);
    GapAtLeast(sqrt, grid, stride, order[i], order[j], edge);
  }

  lemma Edge(stride: int, q: real, resolution: real, spacing: real) returns (edge: real)
    requires resolution > 0.0 && stride >= 1 && stride as real >= q - 0.5 && q * resolution == spacing
    ensures edge == stride as real * resolution && edge >= resolution && edge >= spacing - 0.5 * resolution
  {
    edge := stride as real * resolution;
    var more := ProductSign(stride as real - 1.0, resolution);
    assert more == edge - resolution;
    var spare := ProductSign(stride as real - (q - 0.5), resolution);
    assert spare == edge - (spacing - 0.5 * resolution);
  }

  lemma LatticeSteps(stride: int, a: Cell, b: Cell)
    requires stride >= 1 && OnLattice(stride, a) && OnLattice(stride, b) && a != b
    ensures SquaredSteps(a, b) >= stride * stride
  {
    var (dc, dr) := (b.col - a.col, b.row - a.row);
    WholeSteps(stride, a.col, b.col);
    WholeSteps(stride, a.row, b.row);
    SquareGrows(stride, dc);
    SquareGrows(stride, dr);
  }

  lemma WholeSteps(stride: int, a: int, b: int)
    requires stride >= 1 && a % stride == 0 && b % stride == 0
    ensures a == b || b - a >= stride || a - b >= stride
  {
    var k := b / stride - a / stride;
    assert b - a == stride * k;
    assert k >= 1 ==> stride * k >= stride;
    assert k <= -1 ==> stride * k <= -stride;
  }

  lemma SquareGrows(stride: int, d: int)
    requires stride >= 1
    ensures d * d >= 0 && (d >= stride || -d >= stride ==> d * d >= stride * stride)
  {
    if d >= stride {
      assert (d - stride) * (d + stride) >= 0;
    } else if -d >= stride {
      assert (-d - stride) * (-d + stride) >= 0;
    }
  }

  lemma GapAtLeast(sqrt: real -> real, grid: OccupancyGrid, stride: int, a: Cell, b: Cell, edge: real)
    requires IsSqrt(sqrt) && grid.Valid() && stride >= 1 && edge == stride as real * grid.resolution && edge >= 0.0
    requires SquaredSteps(a, b) >= stride * stride
    ensures CentreGap(sqrt, grid, a, b) >= edge
  {
    var gap, steps, square := GapSquared(sqrt, grid, a, b);
    EdgeSquare(stride, grid.resolution, edge);
    WithinEdge(edge, gap, stride * stride, steps, square);
  }

  /** The squared distance from the robot to a cell's centre. */
  function FromRobot(grid: OccupancyGrid, robotXY: Point, c: Cell): real {
    var (x, y) := (grid.CellToWorld(c).x - robotXY.x, grid.CellToWorld(c).y - robotXY.y);
    x * x + y * y
  }

  /** The least visited come first, of those the nearest to the robot, and of those the leftmost. */
  lemma LeastVisitedComeFirst(sqrt: real -> real, grid: OccupancyGrid, robotXY: Point, visits: Visits, order: seq<Cell>, i: nat, j: nat)
    requires IsSqrt(sqrt) && VisitsFirst(sqrt, grid, robotXY, visits, order) && i < j < |order|
    ensures var (a, b) := (order[i], order[j]);
      var (near, far) := (FromRobot(grid, robotXY, a), FromRobot(grid, robotXY, b));
      && visits(a) <= visits(b)
      && (visits(a) == visits(b) ==> near <= far)
      && (visits(a) == visits(b) && near == far ==> a.col < b.col || (a.col == b.col && a.row <= b.row))
  {
    assert VisitNotAfter(sqrt, grid, robotXY, visits, order[i], order[j]);
    DistancesOrdered(sqrt, grid, robotXY, order[i], order[j]);
  }

  lemma DistancesOrdered(sqrt: real -> real, grid: OccupancyGrid, robotXY: Point, a: Cell, b: Cell)
    requires IsSqrt(sqrt)
    ensures RobotDistance(sqrt, grid, robotXY, a) < RobotDistance(sqrt, grid, robotXY, b) <==> FromRobot(grid, robotXY, a) < FromRobot(grid, robotXY, b)
    ensures RobotDistance(sqrt, grid, robotXY, a) == RobotDistance(sqrt, grid, robotXY, b) <==> FromRobot(grid, robotXY, a) == FromRobot(grid, robotXY, b)
  {
    var near, x := DistanceSquared(sqrt, grid, robotXY, a);
    var far, y := DistanceSquared(sqrt, grid, robotXY, b);
    SquaresOrdered(near, far, x, y);
  }

  lemma DistanceSquared(sqrt: real -> real, grid: OccupancyGrid, robotXY: Point, c: Cell) returns (distance: real, square: real)
    requires IsSqrt(sqrt)
    ensures distance == RobotDistance(sqrt, grid, robotXY, c) && square == FromRobot(grid, robotXY, c)
    ensures distance >= 0.0 && distance * distance == square
  {
    HypotSquare(sqrt, grid.CellToWorld(c).x - robotXY.x, grid.CellToWorld(c).y - robotXY.y);
    distance, square := RobotDistance(sqrt, grid, robotXY, c), FromRobot(grid, robotXY, c);
  }

  lemma SquaresOrdered(a: real, b: real, x: real, y: real)
    requires a >= 0.0 && b >= 0.0 && a * a == x && b * b == y
    ensures (a < b <==> x < y) && (a == b <==> x == y)
  {
    if x <= y {
      SquareOrder(a, b);
    }
    if y <= x {
      SquareOrder(b, a);
    }
  }

  // ----- what the evaluator passes -----

  /** In the square of a cell. */
  predicate LiesIn(grid: OccupancyGrid, p: Point, c: Cell) {
    && grid.originX + c.col as real * grid.resolution <= p.x < grid.originX + (c.col + 1) as real * grid.resolution
    && grid.originY + c.row as real * grid.resolution <= p.y < grid.originY + (c.row + 1) as real * grid.resolution
  }

  lemma IndexExactly(x: real, origin: real, resolution: real, i: int)
    requires resolution > 0.0
    ensures AxisIndex(x, origin, resolution) == i <==> origin + i as real * resolution <= x < origin + (i + 1) as real * resolution
  {
    var q := (x - origin) / resolution;
    assert q * resolution == x - origin;
    var low := ProductSign(q - i as real, resolution);
    assert low == x - (origin + i as real * resolution);
    var high := ProductSign(q - (i + 1) as real, resolution);
    assert high == x - (origin + (i + 1) as real * resolution);
  }

  lemma CellExactly(grid: OccupancyGrid, p: Point, c: Cell)
    requires grid.Valid()
    ensures grid.WorldToCell(p) == Some(c) <==> grid.Inside(c) && LiesIn(grid, p, c)
  {
    IndexExactly(p.x, grid.originX, grid.resolution, c.col);
    IndexExactly(p.y, grid.originY, grid.resolution, c.row);
  }

  ghost predicate LiesFree(grid: OccupancyGrid, p: Point) {
    exists c :: c in grid.knownFree && grid.Inside(c) && LiesIn(grid, p, c)
  }

  /** No two waypoints in the same square. */
  ghost predicate ShareNone(grid: OccupancyGrid, route: seq<Point>) {
    forall i, j, c :: 0 <= i < j < |route| && LiesIn(grid, route[i], c) ==> !LiesIn(grid, route[j], c)
  }

  lemma FreeExactly(grid: OccupancyGrid, p: Point)
    requires grid.Valid()
    ensures OnKnownFree(grid, p) <==> LiesFree(grid, p)
  {
    if OnKnownFree(grid, p) {
      CellExactly(grid, p, grid.WorldToCell(p).value);
    }
    if c :| c in grid.knownFree && grid.Inside(c) && LiesIn(grid, p, c) {
      CellExactly(grid, p, c);
    }
  }

  lemma {:induction false} ConcreteIsEach(grid: OccupancyGrid, route: seq<Point>)
    requires grid.Valid() && forall i :: 0 <= i < |route| ==> grid.WorldToCell(route[i]).Some?
    ensures |Concrete(grid, route)| == |route|
    ensures forall i :: 0 <= i < |route| ==> grid.WorldToCell(route[i]) == Some(Concrete(grid, route)[i])
  {
    if route != [] {
      ConcreteIsEach(grid, route[..|route| - 1]);
    }
  }

  /** A route has no failure exactly when it has waypoints, each in a known free square of the grid and
      no two in one, and keeps the rule of its strategy. */
  lemma PassesExactly(grid: OccupancyGrid, route: seq<Point>, strategy: Strategy, visits: Visits)
    requires grid.Valid()
    ensures Passes(grid, route, strategy, visits) <==>
      && route != [] && (forall i :: 0 <= i < |route| ==> LiesFree(grid, route[i])) && ShareNone(grid, route)
      && PassesStrategy(grid, Concrete(grid, route), strategy, visits)
  {
    forall i | 0 <= i < |route| ensures OnKnownFree(grid, route[i]) <==> LiesFree(grid, route[i]) {
      FreeExactly(grid, route[i]);
    }
    assert (forall p :: p in route ==> OnKnownFree(grid, p)) <==> forall i :: 0 <= i < |route| ==> OnKnownFree(grid, route[i]);
    if forall i :: 0 <= i < |route| ==> OnKnownFree(grid, route[i]) {
      ConcreteIsEach(grid, route);
      RepeatsExactly(grid, route);
    }
  }

  lemma RepeatsExactly(grid: OccupancyGrid, route: seq<Point>)
    requires grid.Valid() && |Concrete(grid, route)| == |route|
    requires forall i :: 0 <= i < |route| ==> grid.WorldToCell(route[i]) == Some(Concrete(grid, route)[i])
    ensures NoDuplicates(Concrete(grid, route)) <==> ShareNone(grid, route)
  {
    var cells := Concrete(grid, route);
    forall i, c | 0 <= i < |route| ensures LiesIn(grid, route[i], c) <==> cells[i] == c {
      CellExactly(grid, route[i], cells[i]);
      CellExactly(grid, route[i], c);
      if LiesIn(grid, route[i], c) {
        SquaresDiffer(grid, route[i], cells[i], c);
      }
    }
    if !NoDuplicates(cells) {
      var i, j :| 0 <= i < j < |cells| && cells[i] == cells[j];
      assert LiesIn(grid, route[i], cells[i]) && LiesIn(grid, route[j], cells[i]);
    }
  }

  lemma SquaresDiffer(grid: OccupancyGrid, p: Point, a: Cell, b: Cell)
    requires grid.Valid() && LiesIn(grid, p, a) && LiesIn(grid, p, b)
    ensures a == b
  {
    IndexExactly(p.x, grid.originX, grid.resolution, a.col);
    IndexExactly(p.x, grid.originX, grid.resolution, b.col);
    IndexExactly(p.y, grid.originY, grid.resolution, a.row);
    IndexExactly(p.y, grid.originY, grid.resolution, b.row);
  }
}
