/** What a disc of whole cells means on the ground: every radius of the kernel is a length that is
    divided by the resolution and rounded up. */
module MetricDisc {
  import opened RealMath
  import opened Grid
  import opened Dilation

  function Positive(length: real): real { if length > 0.0 then length else 0.0 }

  /** How far apart two cells' centres are. */
  function CentreGap(sqrt: real -> real, grid: OccupancyGrid, a: Cell, b: Cell): real {
    var p, q := grid.CellToWorld(a), grid.CellToWorld(b);
    Hypot(sqrt, q.x - p.x, q.y - p.y)
  }

  function SquaredSteps(a: Cell, b: Cell): int {
    (b.col - a.col) * (b.col - a.col) + (b.row - a.row) * (b.row - a.row)
  }

  lemma GapInCells(sqrt: real -> real, grid: OccupancyGrid, a: Cell, b: Cell)
    requires IsSqrt(sqrt) && grid.Valid()
    ensures CentreGap(sqrt, grid, a, b) >= 0.0
    ensures CentreGap(sqrt, grid, a, b) * CentreGap(sqrt, grid, a, b) == SquaredSteps(a, b) as real * (grid.resolution * grid.resolution)
  {
    var p, q := grid.CellToWorld(a), grid.CellToWorld(b);
    HypotSquare(sqrt, q.x - p.x, q.y - p.y);
    AxisGap(grid.originX, grid.resolution, a.col, b.col);
    AxisGap(grid.originY, grid.resolution, a.row, b.row);
    StepsInMetres(b.col - a.col, b.row - a.row, q.x - p.x, q.y - p.y, grid.resolution);
  }

  lemma GapSquared(sqrt: real -> real, grid: OccupancyGrid, a: Cell, b: Cell) returns (gap: real, n: int, square: real)
    requires IsSqrt(sqrt) && grid.Valid()
    ensures gap == CentreGap(sqrt, grid, a, b) && n == SquaredSteps(a, b) && square == grid.resolution * grid.resolution
    ensures gap >= 0.0 && square > 0.0 && gap * gap == n as real * square
  {
    square := Squared(grid.resolution);
    GapInCells(sqrt, grid, a, b);
    gap, n := CentreGap(sqrt, grid, a, b), SquaredSteps(a, b);
  }

  lemma Squared(a: real) returns (square: real)
    requires a > 0.0
    ensures square == a * a && square > 0.0
  {
    square := ProductSign(a, a);
  }

  lemma AxisGap(origin: real, resolution: real, i: int, j: int)
    ensures AxisCentre(j, origin, resolution) - AxisCentre(i, origin, resolution) == (j - i) as real * resolution
  {
  }

  lemma StepsInMetres(dc: int, dr: int, x: real, y: real, resolution: real)
    requires x == dc as real * resolution && y == dr as real * resolution
    ensures x * x + y * y == (dc * dc + dr * dr) as real * (resolution * resolution)
  {
    assert (dc as real * resolution) * (dc as real * resolution) == (dc as real * dc as real) * (resolution * resolution);
    assert (dr as real * resolution) * (dr as real * resolution) == (dr as real * dr as real) * (resolution * resolution);
    assert dc as real * dc as real == (dc * dc) as real && dr as real * dr as real == (dr * dr) as real;
  }

  /** A length rounded up to whole cells holds every cell whose centre is within that length, and
      none whose centre is a whole cell further away. */
  lemma DiscInMetres(sqrt: real -> real, grid: OccupancyGrid, length: real, a: Cell, b: Cell)
    requires IsSqrt(sqrt) && grid.Valid()
    ensures var radius := Ceiling(Positive(length) / grid.resolution);
            && radius >= 0
            && (CentreGap(sqrt, grid, a, b) <= length ==> InDisc(a, b, radius))
            && (InDisc(a, b, radius) ==> CentreGap(sqrt, grid, a, b) < Positive(length) + grid.resolution)
  {
    GapInCells(sqrt, grid, a, b);
    StepsWithin(CentreGap(sqrt, grid, a, b), SquaredSteps(a, b), grid.resolution, Positive(length),
                Ceiling(Positive(length) / grid.resolution));
  }

  lemma StepsWithin(gap: real, n: int, resolution: real, reach: real, radius: int)
    requires gap >= 0.0 && reach >= 0.0 && resolution > 0.0 && gap * gap == n as real * (resolution * resolution)
    requires radius == Ceiling(reach / resolution)
    ensures radius >= 0
    ensures gap <= reach ==> n <= radius * radius
    ensures n <= radius * radius ==> gap < reach + resolution
  {
    var edge := radius as real * resolution;
    RoundedUp(reach, resolution, radius, edge);
    EdgeSquare(radius, resolution, edge);
    ProductPositive(resolution, resolution);
    WithinEdge(gap, edge, n, radius * radius, resolution * resolution);
  }

  lemma WithinEdge(gap: real, edge: real, n: int, k: int, square: real)
    requires gap >= 0.0 && edge >= 0.0 && square > 0.0 && gap * gap == n as real * square && edge * edge == k as real * square
    ensures gap <= edge <==> n <= k
  {
    if gap <= edge {
      MultiplyMonotone(gap, edge, gap, edge);
      ScaledCount(n, k, square);
    }
    if n <= k {
      ScaledUp(n, k, square);
      SquareOrder(gap, edge);
    }
  }

  lemma EdgeSquare(radius: int, resolution: real, edge: real)
    requires edge == radius as real * resolution
    ensures edge * edge == (radius * radius) as real * (resolution * resolution)
  {
    assert (radius as real * resolution) * (radius as real * resolution) == (radius as real * radius as real) * (resolution * resolution);
    assert radius as real * radius as real == (radius * radius) as real;
  }

  lemma ScaledUp(n: int, k: int, square: real)
    requires n <= k && square > 0.0
    ensures n as real * square <= k as real * square
  {
    assert (k - n) as real * square >= 0.0;
    assert (k - n) as real * square == k as real * square - n as real * square;
  }

  lemma ScaledCount(n: int, k: int, square: real)
    requires square > 0.0 && n as real * square <= k as real * square
    ensures n <= k
  {
    assert (n - k) as real * square == n as real * square - k as real * square;
    assert n > k ==> (n - k) as real * square > 0.0;
  }

  lemma RoundedUp(reach: real, resolution: real, radius: int, edge: real)
    requires reach >= 0.0 && resolution > 0.0 && radius == Ceiling(reach / resolution) && edge == radius as real * resolution
    ensures 0 <= radius && 0.0 <= reach <= edge < reach + resolution
  {
    var q := reach / resolution;
    assert q * resolution == reach && q >= 0.0;
    BetweenEdges(q, radius as real, resolution, reach, edge);
  }

  lemma BetweenEdges(q: real, r: real, resolution: real, reach: real, edge: real)
    requires resolution > 0.0 && 0.0 <= q <= r < q + 1.0 && q * resolution == reach && edge == r * resolution
    ensures reach <= edge < reach + resolution
  {
    MultiplyMonotone(q, r, resolution, resolution);
    var left := Remainder(q, r, resolution);
    assert left == resolution - (edge - reach);
  }

  lemma Remainder(q: real, r: real, resolution: real) returns (left: real)
    requires r < q + 1.0 && resolution > 0.0
    ensures left > 0.0 && left == resolution - (r * resolution - q * resolution)
  {
    var d := 1.0 - (r - q);
    ProductPositive(d, resolution);
    left := d * resolution;
  }
}
