/** What a frontier goal is, in metres and sums over its group: robot_brain/navigation/frontier.py:20-124. */
module FrontierLaws {
  import opened RealMath
  import opened Grid
  import opened Sorting
  import opened Dilation
  import opened MetricDisc
  import opened Flood
  import opened Neighbourhood
  import opened Frontier

  /** A cell of the map that is neither free nor occupied lies across one of the four sides. */
  ghost predicate TouchesUnknown(grid: OccupancyGrid, c: Cell) {
    exists n :: n !in grid.knownFree && n !in grid.occupied && grid.Inside(n) && Abs(n.col - c.col) + Abs(n.row - c.row) == 1
  }

  lemma TouchesExactly(grid: OccupancyGrid, c: Cell)
    ensures BordersUnknown(grid, c) <==> TouchesUnknown(grid, c)
  {
    if n :| n !in grid.knownFree && n !in grid.occupied && grid.Inside(n) && Abs(n.col - c.col) + Abs(n.row - c.row) == 1 {
      Neighbours4Complete(c, n);
    }
  }

  /** A maximal connected piece of the reachable border to the unknown. */
  ghost predicate IsFrontierPiece(grid: OccupancyGrid, start: Cell, group: seq<Cell>) {
    && group != [] && NoDuplicates(group)
    && (forall c :: c in group ==> TouchesUnknown(grid, c) && Linked(Adjacent4, grid.knownFree, start, c))
    && (forall c, d :: c in group && Adjacent(c, d) && TouchesUnknown(grid, d) && Linked(Adjacent4, grid.knownFree, start, d) ==> d in group)
    && forall c :: c in group ==> Linked(Adjacent, Elements(group), group[0], c)
  }

  predicate IsLong(grid: OccupancyGrid, n: nat, length: real) { n as real * grid.resolution >= length }

  /** Long enough to be worth a visit. */
  ghost predicate IsLongFrontier(grid: OccupancyGrid, search: Search, start: Cell, group: seq<Cell>) {
    IsFrontierPiece(grid, start, group) && IsLong(grid, |group|, search.minimumLength)
  }

  /** Every occupied cell is further away than the clearance, and every visited point than its radius. */
  ghost predicate IsOpen(sqrt: real -> real, grid: OccupancyGrid, search: Search, c: Cell, spare: real) {
    && (forall o :: o in grid.occupied ==> CentreGap(sqrt, grid, c, o) > Positive(search.clearance) + spare)
    && forall v :: v in search.visited ==> Hypot(sqrt, grid.CellToWorld(c).x - v.x, grid.CellToWorld(c).y - v.y) > search.visitedRadius
  }

  lemma LongExactly(grid: OccupancyGrid, search: Search, n: nat)
    requires grid.Valid() && n >= 1
    ensures n >= MinimumCells(grid, search) <==> IsLong(grid, n, search.minimumLength)
  {
    var q := search.minimumLength / grid.resolution;
    assert q * grid.resolution == search.minimumLength;
    var gap := ProductSign(n as real - q, grid.resolution);
    assert gap == n as real * grid.resolution - search.minimumLength;
  }

  // ----- the middle of a group -----

  /** The sum of the squared distances, in cells, from a cell to the safe cells of a group. */
  ghost function Spread(safe: Cell -> bool, group: seq<Cell>, c: Cell): int {
    if group == [] then 0
    else
      var last := group[|group| - 1];
      Spread(safe, group[..|group| - 1], c) + if safe(last) then SquaredSteps(c, last) else 0
  }

  function StepSum(cells: seq<Cell>, c: Cell): int {
    if cells == [] then 0 else SquaredSteps(c, cells[0]) + StepSum(cells[1..], c)
  }

  lemma {:induction false} StepSumAppends(cells: seq<Cell>, last: Cell, c: Cell)
    ensures StepSum(cells + [last], c) == StepSum(cells, c) + SquaredSteps(c, last)
  {
    if cells != [] {
      assert (cells + [last])[1..] == cells[1..] + [last];
      StepSumAppends(cells[1..], last, c);
    }
  }

  ghost predicate Decides(safe: Cell -> bool, sqrt: real -> real, grid: OccupancyGrid, search: Search)
    requires grid.Valid()
  {
    forall c :: safe(c) <==> IsSafe(sqrt, grid, search, c)
  }

  lemma {:induction false} SpreadOverSafe(safe: Cell -> bool, sqrt: real -> real, grid: OccupancyGrid, search: Search, group: seq<Cell>, c: Cell)
    requires grid.Valid() && Decides(safe, sqrt, grid, search)
    ensures Spread(safe, group, c) == StepSum(SafeOf(sqrt, grid, search, group), c)
  {
    if group != [] {
      var init, last := group[..|group| - 1], group[|group| - 1];
      SpreadOverSafe(safe, sqrt, grid, search, init, c);
      StepSumAppends(SafeOf(sqrt, grid, search, init), last, c);
    }
  }

  /** How much further, in squares, n points with this sum are from x than from y. */
  function AxisSum(n: int, sum: int, x: int, y: int): int { n * (x * x - y * y) - 2 * sum * (x - y) }

  /** The parallel axes theorem: distances to the points differ as distances to their centroid do. */
  lemma {:induction false} SumsDiffer(cells: seq<Cell>, c: Cell, d: Cell)
    ensures StepSum(cells, c) - StepSum(cells, d)
         == AxisSum(|cells|, ColumnSum(cells), c.col, d.col) + AxisSum(|cells|, RowSum(cells), c.row, d.row)
  {
    if cells != [] {
      var rest := cells[1..];
      SumsDiffer(rest, c, d);
      StepDiffers(cells[0], c, d);
      Gathers(|rest|, cells[0].col, ColumnSum(rest), c.col, d.col);
      Gathers(|rest|, cells[0].row, RowSum(rest), c.row, d.row);
    }
  }

  lemma StepDiffers(p: Cell, c: Cell, d: Cell)
    ensures SquaredSteps(c, p) - SquaredSteps(d, p) == AxisSum(1, p.col, c.col, d.col) + AxisSum(1, p.row, c.row, d.row)
  {
  }

  lemma Gathers(n: int, first: int, rest: int, x: int, y: int)
    ensures AxisSum(n, rest, x, y) + AxisSum(1, first, x, y) == AxisSum(n + 1, first + rest, x, y)
  {
  }

  lemma AxisMoment(x: real, y: real, sum: real, n: real, mean: real)
    requires mean * n == sum
    ensures n * ((x - mean) * (x - mean) - (y - mean) * (y - mean)) == n * (x * x - y * y) - 2.0 * sum * (x - y)
  {
    assert (x - mean) * (x - mean) - (y - mean) * (y - mean) == (x * x - y * y) - 2.0 * mean * (x - y);
    assert n * (2.0 * mean * (x - y)) == 2.0 * (mean * n) * (x - y);
  }

  lemma AxisDiffers(x: int, y: int, sum: int, n: nat)
    requires n > 0
    ensures Differs(n, AxisDistance(x, sum, n), AxisDistance(y, sum, n), AxisSum(n, sum, x, y))
  {
    var mean := Mean(sum as real, n as real);
    AxisMoment(x as real, y as real, sum as real, n as real, mean);
    SumAsReal(n, sum, x, y);
  }

  lemma Mean(sum: real, n: real) returns (mean: real)
    requires n > 0.0
    ensures mean == sum / n && mean * n == sum
  {
    mean := sum / n;
  }

  lemma SumAsReal(n: int, sum: int, x: int, y: int)
    ensures AxisSum(n, sum, x, y) as real
         == n as real * (x as real * x as real - y as real * y as real) - 2.0 * sum as real * (x as real - y as real)
  {
    assert x as real * x as real == (x * x) as real && y as real * y as real == (y * y) as real;
    assert sum as real * (x - y) as real == (sum * (x - y)) as real;
    assert n as real * (x * x - y * y) as real == (n * (x * x - y * y)) as real;
  }

  predicate Differs(n: nat, a: real, b: real, k: int) { n as real * (a - b) == k as real }

  lemma DiffersAdd(n: nat, a: real, b: real, k: int, x: real, y: real, l: int)
    requires Differs(n, a, b, k) && Differs(n, x, y, l)
    ensures Differs(n, a + x, b + y, k + l)
  {
    assert n as real * (a + x - (b + y)) == n as real * (a - b) + n as real * (x - y);
  }

  lemma DiffersOrder(n: nat, a: real, b: real, k: int)
    requires n > 0 && a <= b && Differs(n, a, b, k)
    ensures k <= 0
  {
    var gap := ProductSign(b - a, n as real);
    assert gap == -(n as real * (a - b));
  }

  /** Nearest to the centroid is nearest to all of them together. */
  lemma NearestIsMiddle(cells: seq<Cell>, c: Cell, d: Cell)
    requires |cells| > 0 && CentroidDistance(c, cells) <= CentroidDistance(d, cells)
    ensures StepSum(cells, c) <= StepSum(cells, d)
  {
    var (n, columns, rows) := (|cells|, ColumnSum(cells), RowSum(cells));
    SumsDiffer(cells, c, d);
    AxisDiffers(c.col, d.col, columns, n);
    AxisDiffers(c.row, d.row, rows, n);
    DiffersAdd(n, AxisDistance(c.col, columns, n), AxisDistance(d.col, columns, n), AxisSum(n, columns, c.col, d.col),
               AxisDistance(c.row, rows, n), AxisDistance(d.row, rows, n), AxisSum(n, rows, c.row, d.row));
    DiffersOrder(n, CentroidDistance(c, cells), CentroidDistance(d, cells), StepSum(cells, c) - StepSum(cells, d));
  }

  // ----- the goal of a group -----

  lemma SafeMeans(sqrt: real -> real, grid: OccupancyGrid, search: Search, c: Cell)
    requires IsSqrt(sqrt) && grid.Valid() && search.clearance >= 0.0
    ensures IsSafe(sqrt, grid, search, c) ==> IsOpen(sqrt, grid, search, c, 0.0)
    ensures IsOpen(sqrt, grid, search, c, grid.resolution) ==> IsSafe(sqrt, grid, search, c)
  {
    var radius := Ceiling(search.clearance / grid.resolution);
    DiscInMetres(sqrt, grid, search.clearance, c, c);
    if IsSafe(sqrt, grid, search, c) {
      forall o | o in grid.occupied ensures CentreGap(sqrt, grid, c, o) > search.clearance {
        DiscInMetres(sqrt, grid, search.clearance, c, o);
        OffsetsExact(radius, o.col - c.col, o.row - c.row);
        assert Shift(c, (o.col - c.col, o.row - c.row)) == o;
      }
    }
    if IsOpen(sqrt, grid, search, c, grid.resolution) {
      forall offset | offset in DiscOffsets(radius) ensures Shift(c, offset) !in grid.occupied {
        var o := Shift(c, offset);
        OffsetsExact(radius, o.col - c.col, o.row - c.row);
        DiscInMetres(sqrt, grid, search.clearance, c, o);
      }
    }
  }

  /** The goal's score is the group's length over the way there, counted as one cell at least. */
  ghost predicate IsScoredAs(grid: OccupancyGrid, robotXY: Point, goal: FrontierGoal, size: nat) {
    && goal.cellCount == size && IsWayTo(robotXY, goal)
    && IsQuotient(goal.score, size as real * grid.resolution, if goal.distance > grid.resolution then goal.distance else grid.resolution)
  }

  predicate IsWayTo(robotXY: Point, goal: FrontierGoal) {
    var (x, y) := (goal.x - robotXY.x, goal.y - robotXY.y);
    goal.distance >= 0.0 && goal.distance * goal.distance == x * x + y * y
  }

  predicate IsQuotient(q: real, a: real, b: real) { q * b == a }

  /** No safe cell of the group is nearer to all of them together. */
  ghost predicate IsMiddle(safe: Cell -> bool, group: seq<Cell>, centre: Cell) {
    && centre in group && safe(centre)
    && forall c :: c in group && safe(c) ==> Spread(safe, group, centre) <= Spread(safe, group, c)
  }

  ghost predicate IsGoalFor(sqrt: real -> real, grid: OccupancyGrid, search: Search, safe: Cell -> bool, group: seq<Cell>, s: Scored)
    requires grid.Valid()
  {
    && IsMiddle(safe, group, s.centre) && IsOpen(sqrt, grid, search, s.centre, 0.0)
    && Point(s.goal.x, s.goal.y) == grid.CellToWorld(s.centre)
    && IsScoredAs(grid, search.robotXY, s.goal, |group|)
  }

  lemma ScoreIsShare(sqrt: real -> real, grid: OccupancyGrid, search: Search, size: nat, centre: Cell)
    requires IsSqrt(sqrt) && grid.Valid()
    ensures IsScoredAs(grid, search.robotXY, ScoreGoal(sqrt, grid, search, size, centre), size)
  {
    WayOfGoal(sqrt, grid, search, size, centre);
    ShareOfGoal(sqrt, grid, search, size, centre);
  }

  lemma WayOfGoal(sqrt: real -> real, grid: OccupancyGrid, search: Search, size: nat, centre: Cell)
    requires IsSqrt(sqrt) && grid.Valid()
    ensures IsWayTo(search.robotXY, ScoreGoal(sqrt, grid, search, size, centre))
  {
    var p := grid.CellToWorld(centre);
    HypotSquare(sqrt, p.x - search.robotXY.x, p.y - search.robotXY.y);
  }

  lemma ShareOfGoal(sqrt: real -> real, grid: OccupancyGrid, search: Search, size: nat, centre: Cell)
    requires grid.Valid()
    ensures var goal := ScoreGoal(sqrt, grid, search, size, centre);
      IsQuotient(goal.score, size as real * grid.resolution, if goal.distance > grid.resolution then goal.distance else grid.resolution)
  {
    var goal := ScoreGoal(sqrt, grid, search, size, centre);
    ShareOfWay(size as real * grid.resolution, goal.distance, grid.resolution, goal.score);
  }

  lemma ShareOfWay(length: real, distance: real, least: real, score: real)
    requires least > 0.0 && score == length / (if distance < least then least else distance)
    ensures IsQuotient(score, length, if distance > least then distance else least)
  {
    Divided(length, if distance > least then distance else least, score);
  }

  lemma CentreIsMiddle(sqrt: real -> real, grid: OccupancyGrid, search: Search, safe: Cell -> bool, group: seq<Cell>, centre: Cell)
    requires grid.Valid() && Decides(safe, sqrt, grid, search)
    requires var cells := SafeOf(sqrt, grid, search, group);
      cells != [] && IsFirstNearest(FromCentroid(cells), cells, centre)
    ensures IsMiddle(safe, group, centre)
  {
    var cells := SafeOf(sqrt, grid, search, group);
    SafeOfMembers(sqrt, grid, search, group, centre);
    SpreadOverSafe(safe, sqrt, grid, search, group, centre);
    forall c | c in group && safe(c) ensures Spread(safe, group, centre) <= Spread(safe, group, c) {
      SafeOfMembers(sqrt, grid, search, group, c);
      SpreadOverSafe(safe, sqrt, grid, search, group, c);
      FirstIsNearest(cells, centre, c);
      NearestIsMiddle(cells, centre, c);
    }
  }

  lemma FirstIsNearest(cells: seq<Cell>, centre: Cell, c: Cell)
    requires cells != [] && IsFirstNearest(FromCentroid(cells), cells, centre) && c in cells
    ensures CentroidDistance(centre, cells) <= CentroidDistance(c, cells)
  {
    var k :| 0 <= k < |cells| && cells[k] == centre && FirstNearestAt(FromCentroid(cells), cells, k);
    var i :| 0 <= i < |cells| && cells[i] == c;
    assert FromCentroid(cells)(cells[k]) <= FromCentroid(cells)(cells[i]);
  }

  lemma GoalMeans(sqrt: real -> real, grid: OccupancyGrid, search: Search, safe: Cell -> bool, group: seq<Cell>, s: Scored)
    requires IsSqrt(sqrt) && grid.Valid() && search.clearance >= 0.0 && Decides(safe, sqrt, grid, search)
    requires IsGoalOf(sqrt, grid, search, group, s)
    ensures IsGoalFor(sqrt, grid, search, safe, group, s)
  {
    GoalIsSafe(sqrt, grid, search, group, s);
    SafeMeans(sqrt, grid, search, s.centre);
    CentreIsMiddle(sqrt, grid, search, safe, group, s.centre);
    ScoreIsShare(sqrt, grid, search, |group|, s.centre);
  }

  lemma Divided(a: real, b: real, q: real)
    requires b > 0.0 && q == a / b
    ensures IsQuotient(q, a, b)
  {
  }

  lemma GroupIsFrontier(grid: OccupancyGrid, start: Cell, groups: seq<seq<Cell>>, g: nat)
    requires AreFrontierGroups(grid, start, groups) && g < |groups|
    ensures IsFrontierPiece(grid, start, groups[g])
  {
    var frontier :| HoldsFrontier(grid, start, frontier) && ComponentsInv(frontier, {}, groups);
    var group := groups[g];
    assert IsComponent(frontier, group);
    forall c ensures c in frontier <==> TouchesUnknown(grid, c) && Linked(Adjacent4, grid.knownFree, start, c) {
      TouchesExactly(grid, c);
      assert c in frontier <==> IsFrontier(grid, start, c);
    }
    assert forall c :: c in group ==> c in frontier;
    forall c, d | c in group && Adjacent(c, d) && d in frontier ensures d in group {
      LinkedStep(Adjacent, frontier, group[0], c, d);
    }
    forall c | c in group ensures Linked(Adjacent, Elements(group), group[0], c) {
      var walk :| IsWalkTo(Adjacent, frontier, group[0], c, walk);
      LinkedInClosed(Adjacent, frontier, Elements(group), group[0], c, walk);
    }
  }

  lemma QualifiedIsLong(sqrt: real -> real, grid: OccupancyGrid, search: Search, group: seq<Cell>)
    requires grid.Valid() && Qualifies(sqrt, grid, search, group)
    ensures IsLong(grid, |group|, search.minimumLength)
  {
    LongExactly(grid, search, |group|);
  }

  lemma LongQualifies(sqrt: real -> real, grid: OccupancyGrid, search: Search, group: seq<Cell>, c: Cell)
    requires IsSqrt(sqrt) && grid.Valid() && search.clearance >= 0.0 && IsLong(grid, |group|, search.minimumLength)
    requires c in group && IsOpen(sqrt, grid, search, c, grid.resolution)
    ensures Qualifies(sqrt, grid, search, group)
  {
    LongExactly(grid, search, |group|);
    SafeMeans(sqrt, grid, search, c);
  }

  lemma GroupGoalMeans(sqrt: real -> real, grid: OccupancyGrid, search: Search, start: Cell, groups: seq<seq<Cell>>,
                       safe: Cell -> bool, s: Scored)
    requires IsSqrt(sqrt) && grid.Valid() && search.clearance >= 0.0 && Decides(safe, sqrt, grid, search)
    requires AreFrontierGroups(grid, start, groups) && s.group < |groups| && IsGoalOf(sqrt, grid, search, groups[s.group], s)
    ensures IsLongFrontier(grid, search, start, groups[s.group]) && IsGoalFor(sqrt, grid, search, safe, groups[s.group], s)
  {
    GroupIsFrontier(grid, start, groups, s.group);
    QualifiedIsLong(sqrt, grid, search, groups[s.group]);
    GoalMeans(sqrt, grid, search, safe, groups[s.group], s);
  }

  /** Every goal is that of a long piece of frontier. */
  lemma FrontierGoalMeans(sqrt: real -> real, grid: OccupancyGrid, search: Search, start: Cell, scored: seq<Scored>, safe: Cell -> bool, i: nat)
    returns (group: seq<Cell>)
    requires IsSqrt(sqrt) && grid.Valid() && search.clearance >= 0.0 && Decides(safe, sqrt, grid, search)
    requires AreGoals(sqrt, grid, search, start, scored) && i < |scored|
    ensures IsLongFrontier(grid, search, start, group) && IsGoalFor(sqrt, grid, search, safe, group, scored[i])
  {
    var groups: seq<seq<Cell>> :| AreFrontierGroups(grid, start, groups)
                                  && GoalsFor(sqrt, grid, search, groups, |groups|, scored);
    group := groups[scored[i].group];
    GroupGoalMeans(sqrt, grid, search, start, groups, safe, scored[i]);
  }

  /** And every cell of the frontier that lies in a long piece with an open cell is spoken for by the goal of that piece. */
  lemma LongFrontierHasGoal(sqrt: real -> real, grid: OccupancyGrid, search: Search, start: Cell, scored: seq<Scored>, group: seq<Cell>, c: Cell)
    returns (i: nat)
    requires IsSqrt(sqrt) && grid.Valid() && search.clearance >= 0.0
    requires AreGoals(sqrt, grid, search, start, scored)
    requires IsLongFrontier(grid, search, start, group) && c in group && IsOpen(sqrt, grid, search, c, grid.resolution)
    ensures i < |scored| && scored[i].centre in group
  {
    var groups: seq<seq<Cell>> :| AreFrontierGroups(grid, start, groups)
                                  && GoalsFor(sqrt, grid, search, groups, |groups|, scored);
    var g := PieceIsGroup(grid, start, groups, group);
    assert c in groups[g];
    LongQualifies(sqrt, grid, search, groups[g], c);
    var s :| s in scored && s.group == g;
    i :| i < |scored| && scored[i] == s;
    GoalIsSafe(sqrt, grid, search, groups[g], s);
  }

  lemma GroupOf(grid: OccupancyGrid, start: Cell, groups: seq<seq<Cell>>, c: Cell) returns (g: nat)
    requires AreFrontierGroups(grid, start, groups) && TouchesUnknown(grid, c) && Linked(Adjacent4, grid.knownFree, start, c)
    ensures g < |groups| && c in groups[g]
  {
    var frontier :| HoldsFrontier(grid, start, frontier) && ComponentsInv(frontier, {}, groups);
    TouchesExactly(grid, c);
    assert IsFrontier(grid, start, c) && c in frontier;
    g :| g < |groups| && c in groups[g];
  }

  /** A maximal connected piece is one of the groups, up to the order of its cells. */
  lemma PieceIsGroup(grid: OccupancyGrid, start: Cell, groups: seq<seq<Cell>>, piece: seq<Cell>) returns (g: nat)
    requires AreFrontierGroups(grid, start, groups) && IsFrontierPiece(grid, start, piece)
    ensures g < |groups| && |groups[g]| == |piece| && forall c :: c in groups[g] <==> c in piece
  {
    g := GroupOf(grid, start, groups, piece[0]);
    GroupIsFrontier(grid, start, groups, g);
    PieceHolds(grid, start, groups[g], piece, piece[0]);
    PieceReaches(grid, start, groups[g], piece);
    PieceHolds(grid, start, piece, groups[g], groups[g][0]);
    assert Elements(groups[g]) == Elements(piece);
    ElementsSize(groups[g]);
    ElementsSize(piece);
  }

  /** A piece that holds the first cell of another holds all of it. */
  lemma PieceHolds(grid: OccupancyGrid, start: Cell, piece: seq<Cell>, other: seq<Cell>, first: Cell)
    requires IsFrontierPiece(grid, start, piece) && IsFrontierPiece(grid, start, other) && other[0] == first && first in piece
    ensures forall c :: c in other ==> c in piece
  {
    ClosedHoldsLinked(Adjacent, Elements(other), Elements(piece), first);
  }

  /** Pieces that meet share their first cells too. */
  lemma PieceReaches(grid: OccupancyGrid, start: Cell, piece: seq<Cell>, other: seq<Cell>)
    requires IsFrontierPiece(grid, start, piece) && IsFrontierPiece(grid, start, other) && other[0] in piece
    ensures piece[0] in other
  {
    if piece[0] !in other {
      var outside := Elements(piece) - Elements(other);
      assert piece[0] in piece && other[0] in other;
      forall b, d | b in outside && d in Elements(piece) && Adjacent(b, d) ensures d in outside {
        assert Adjacent(d, b);
      }
      ClosedHoldsLinked(Adjacent, Elements(piece), outside, piece[0]);
    }
  }

  /** The goals come by score, the best first; then the nearest to the robot; then by x and by y. */
  lemma GoalsDescend(sqrt: real -> real, grid: OccupancyGrid, search: Search, start: Cell, scored: seq<Scored>, i: nat, j: nat)
    requires grid.Valid() && AreGoals(sqrt, grid, search, start, scored) && i < j < |scored|
    ensures var (a, b) := (scored[i].goal, scored[j].goal);
      && a.score >= b.score
      && (a.score == b.score ==> a.distance <= b.distance)
      && (a.score == b.score && a.distance == b.distance ==> a.x < b.x || (a.x == b.x && a.y <= b.y))
  {
    assert GoalNotAfter(scored[i], scored[j]);
  }
}
