/** What the chosen goals mean on the ground: the safe substitute of a blocked goal, and the frontier
    goals with their scores (robot_brain/navigation/planner.py:59-84, frontier.py:20-67). */
module GoalsInMetres {
  import opened RealMath
  import opened Grid
  import opened Dilation
  import opened MetricDisc
  import opened SafeGoal

  // ----- the nearest safe goal -----

  /** Nothing blocked lies this near. */
  ghost predicate IsClearBy(sqrt: real -> real, grid: OccupancyGrid, c: Cell, length: real) {
    !grid.Blocked(c) && forall o :: CentreGap(sqrt, grid, c, o) <= length ==> !grid.Blocked(o)
  }

  lemma RadiusIsRoundedUp(length: real, resolution: real)
    requires resolution > 0.0
    ensures CellRadius(length, resolution) == Ceiling(Positive(length) / resolution)
  {
    if length <= 0.0 {
      assert 0.0 / resolution == 0.0;
      var q := length / resolution;
      assert q * resolution == length;
      NotPositive(q, resolution);
    } else {
      var q := length / resolution;
      assert q * resolution == length;
      NotPositive(-q, resolution);
    }
  }

  lemma NotPositive(q: real, resolution: real)
    requires resolution > 0.0
    ensures q * resolution <= 0.0 ==> q <= 0.0
  {
    assert q > 0.0 ==> q * resolution > 0.0;
  }

  lemma OffsetsAreDisc(c: Cell, o: Cell, radius: int)
    requires radius >= 0
    ensures InDisc(c, o, radius) <==> (o.col - c.col, o.row - c.row) in DiscOffsets(radius)
  {
    OffsetsExact(radius, o.col - c.col, o.row - c.row);
  }

  /** Clearance in cells keeps the clearance in metres, and a whole cell more of it is enough. */
  lemma ClearanceInMetres(sqrt: real -> real, grid: OccupancyGrid, c: Cell, clearance: real)
    requires IsSqrt(sqrt) && grid.Valid()
    ensures HasClearance(grid, c, CellRadius(clearance, grid.resolution)) ==> IsClearBy(sqrt, grid, c, clearance)
    ensures IsClearBy(sqrt, grid, c, Positive(clearance) + grid.resolution) ==> HasClearance(grid, c, CellRadius(clearance, grid.resolution))
  {
    var radius := CellRadius(clearance, grid.resolution);
    RadiusIsRoundedUp(clearance, grid.resolution);
    if HasClearance(grid, c, radius) {
      forall o | CentreGap(sqrt, grid, c, o) <= clearance ensures !grid.Blocked(o) {
        DiscInMetres(sqrt, grid, clearance, c, o);
        OffsetsAreDisc(c, o, radius);
        assert Shift(c, (o.col - c.col, o.row - c.row)) == o;
      }
    }
    if IsClearBy(sqrt, grid, c, Positive(clearance) + grid.resolution) {
      forall offset | offset in DiscOffsets(radius) ensures !grid.Blocked(Shift(c, offset)) {
        var o := Shift(c, offset);
        OffsetsAreDisc(c, o, radius);
        assert (o.col - c.col, o.row - c.row) == offset;
        DiscInMetres(sqrt, grid, clearance, c, o);
      }
    }
  }

  /** Nearer in metres, equal distances in the order of the columns and then of the rows. */
  predicate ComesFirst(sqrt: real -> real, grid: OccupancyGrid, requested: Cell, c: Cell, d: Cell) {
    var (near, far) := (CentreGap(sqrt, grid, requested, c), CentreGap(sqrt, grid, requested, d));
    near < far || (near == far && (c.col < d.col || (c.col == d.col && c.row <= d.row)))
  }

  lemma NearerInMetres(sqrt: real -> real, grid: OccupancyGrid, requested: Cell, c: Cell, d: Cell)
    requires IsSqrt(sqrt) && grid.Valid() && NearerOrFirst(DistanceFrom(sqrt, requested), c, d)
    ensures ComesFirst(sqrt, grid, requested, c, d)
  {
    var steps := x => SquaredSteps(requested, x);
    DistanceOrder(sqrt, requested, steps, c, d);
    GapOrder(sqrt, grid, requested, steps, c, d);
  }

  lemma DistanceOrder(sqrt: real -> real, requested: Cell, steps: Cell -> int, c: Cell, d: Cell)
    requires IsSqrt(sqrt) && steps(c) == SquaredSteps(requested, c) && steps(d) == SquaredSteps(requested, d)
    ensures var distance := DistanceFrom(sqrt, requested);
      (distance(c) < distance(d) <==> steps(c) < steps(d)) && (distance(c) == distance(d) <==> steps(c) == steps(d))
  {
    StepsOfDistance(sqrt, requested, c);
    StepsOfDistance(sqrt, requested, d);
    SquaresOrder(DistanceFrom(sqrt, requested)(c), DistanceFrom(sqrt, requested)(d), steps(c), steps(d), 1.0);
  }

  lemma GapOrder(sqrt: real -> real, grid: OccupancyGrid, a: Cell, steps: Cell -> int, c: Cell, d: Cell)
    requires IsSqrt(sqrt) && grid.Valid() && steps(c) == SquaredSteps(a, c) && steps(d) == SquaredSteps(a, d)
    ensures CentreGap(sqrt, grid, a, c) < CentreGap(sqrt, grid, a, d) <==> steps(c) < steps(d)
    ensures CentreGap(sqrt, grid, a, c) == CentreGap(sqrt, grid, a, d) <==> steps(c) == steps(d)
  {
    var near, n, square := GapSquared(sqrt, grid, a, c);
    var far, k, _ := GapSquared(sqrt, grid, a, d);
    SquaresOrder(near, far, n, k, square);
  }

  lemma SquaresOrder(x: real, y: real, n: int, k: int, square: real)
    requires x >= 0.0 && y >= 0.0 && square > 0.0 && x * x == n as real * square && y * y == k as real * square
    ensures (x < y <==> n < k) && (x == y <==> n == k)
  {
    WithinEdge(x, y, n, k, square);
    WithinEdge(y, x, k, n, square);
  }

  lemma StepsOfDistance(sqrt: real -> real, requested: Cell, c: Cell)
    requires IsSqrt(sqrt)
    ensures DistanceFrom(sqrt, requested)(c) >= 0.0
    ensures DistanceFrom(sqrt, requested)(c) * DistanceFrom(sqrt, requested)(c) == SquaredSteps(requested, c) as real
  {
    var (dx, dy) := (c.col - requested.col, c.row - requested.row);
    HypotSquare(sqrt, dx as real, dy as real);
    assert dx as real * dx as real == (dx * dx) as real && dy as real * dy as real == (dy * dy) as real;
  }

  /** A cell that the search must consider. */
  ghost predicate IsSafeWithin(sqrt: real -> real, grid: OccupancyGrid, requested: Cell, searchRadius: real, clearance: real, d: Cell) {
    CentreGap(sqrt, grid, requested, d) <= searchRadius && IsClearBy(sqrt, grid, d, Positive(clearance) + grid.resolution)
  }

  lemma SafeWithinPasses(sqrt: real -> real, grid: OccupancyGrid, requested: Cell, searchRadius: real, clearance: real, d: Cell)
    requires IsSqrt(sqrt) && grid.Valid() && IsSafeWithin(sqrt, grid, requested, searchRadius, clearance, d)
    ensures SafeNear(grid, requested, CellRadius(searchRadius, grid.resolution), CellRadius(clearance, grid.resolution))(d)
  {
    RadiusIsRoundedUp(searchRadius, grid.resolution);
    DiscInMetres(sqrt, grid, searchRadius, requested, d);
    ClearanceInMetres(sqrt, grid, d, clearance);
  }

  /** The substitute goal is a cell's centre with the asked clearance, less than a cell beyond the search
      radius, and no cell of the search radius that is clear with a cell to spare is nearer. */
  lemma SafeGoalInMetres(sqrt: real -> real, grid: OccupancyGrid, requested: Cell, searchRadius: real, clearance: real, goal: Point)
    returns (c: Cell)
    requires IsSqrt(sqrt) && grid.Valid()
    requires IsChoice(grid, SafeNear(grid, requested, CellRadius(searchRadius, grid.resolution), CellRadius(clearance, grid.resolution)),
                      DistanceFrom(sqrt, requested), Some(goal))
    ensures goal == grid.CellToWorld(c) && IsClearBy(sqrt, grid, c, clearance)
    ensures CentreGap(sqrt, grid, requested, c) < Positive(searchRadius) + grid.resolution
    ensures forall d :: IsSafeWithin(sqrt, grid, requested, searchRadius, clearance, d) ==> ComesFirst(sqrt, grid, requested, c, d)
  {
    var passes := SafeNear(grid, requested, CellRadius(searchRadius, grid.resolution), CellRadius(clearance, grid.resolution));
    c :| passes(c) && goal == grid.CellToWorld(c) && forall d :: passes(d) ==> NearerOrFirst(DistanceFrom(sqrt, requested), c, d);
    RadiusIsRoundedUp(searchRadius, grid.resolution);
    DiscInMetres(sqrt, grid, searchRadius, requested, c);
    ClearanceInMetres(sqrt, grid, c, clearance);
    forall d | IsSafeWithin(sqrt, grid, requested, searchRadius, clearance, d) ensures ComesFirst(sqrt, grid, requested, c, d)
    {
      SafeWithinPasses(sqrt, grid, requested, searchRadius, clearance, d);
      NearerInMetres(sqrt, grid, requested, c, d);
    }
  }

  /** And when none is found, the search radius holds none. */
  lemma NoSafeGoal(sqrt: real -> real, grid: OccupancyGrid, requested: Cell, searchRadius: real, clearance: real, d: Cell)
    requires IsSqrt(sqrt) && grid.Valid()
    requires IsChoice(grid, SafeNear(grid, requested, CellRadius(searchRadius, grid.resolution), CellRadius(clearance, grid.resolution)),
                      DistanceFrom(sqrt, requested), None)
    ensures !IsSafeWithin(sqrt, grid, requested, searchRadius, clearance, d)
  {
    if IsSafeWithin(sqrt, grid, requested, searchRadius, clearance, d) {
      SafeWithinPasses(sqrt, grid, requested, searchRadius, clearance, d);
    }
  }
}
