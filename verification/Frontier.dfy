/** Frontier extraction of robot_brain/navigation/frontier.py. */
module Frontier {
  import opened RealMath
  import opened Grid
  import opened Heap
  import opened Dilation
  import opened Neighbourhood
  import opened Flood
  import opened Sorting

  predicate Adjacent4(a: Cell, b: Cell) {
    (a.col == b.col && (a.row == b.row + 1 || a.row == b.row - 1)) || (a.row == b.row && (a.col == b.col + 1 || a.col == b.col - 1))
  }

  function Neighbours4(c: Cell): seq<Cell> {
    [Cell(c.col - 1, c.row), Cell(c.col + 1, c.row), Cell(c.col, c.row - 1), Cell(c.col, c.row + 1)]
  }

  function Neighbours8(c: Cell): seq<Cell> {
    seq(|NEIGHBORS|, i requires 0 <= i < |NEIGHBORS| => Shift(c, NEIGHBORS[i]))
  }

  lemma Neighbours4Complete(c: Cell, d: Cell)
    ensures Adjacent4(c, d) <==> d in Neighbours4(c)
  {
    var n := Neighbours4(c);
    assert n[0] in n && n[1] in n && n[2] in n && n[3] in n;
  }

  lemma Neighbours8Complete(c: Cell, d: Cell)
    ensures Adjacent(c, d) <==> d in Neighbours8(c)
  {
    if Adjacent(c, d) {
      VisitedAll(c, d);
      var i :| 0 <= i < |NEIGHBORS| && d == Shift(c, NEIGHBORS[i]);
      assert Neighbours8(c)[i] == d;
    }
  }

  /** `_reachable_free`: exactly the free cells that four-neighbour moves can reach. */
  method ReachableFree(grid: OccupancyGrid, start: Cell) returns (reached: set<Cell>)
    ensures forall c :: c in reached <==> Linked(Adjacent4, grid.knownFree, start, c)
  {
    var queue := [start];
    reached := {start};
    FloodStarts(Adjacent4, grid.knownFree, start);
    while queue != []
      invariant FloodInv(Adjacent4, grid.knownFree, start, reached, queue)
      decreases grid.knownFree + {start} - reached, |queue|
    {
      FloodPops(Adjacent4, grid.knownFree, start, reached, queue);
      var cell := queue[0];
      queue := queue[1..];
      ghost var reached0, queue0 := reached, queue;
      var neighbours := Neighbours4(cell);
      for k := 0 to |neighbours|
        invariant LookInv(Adjacent4, grid.knownFree, start, reached, queue, cell)
        invariant forall i :: 0 <= i < k ==> neighbours[i] in grid.knownFree ==> neighbours[i] in reached
        invariant reached0 <= reached && (reached == reached0 ==> queue == queue0)
      {
        var neighbour := neighbours[k];
        if neighbour in reached || neighbour !in grid.knownFree {
          continue;
        }
        Neighbours4Complete(cell, neighbour);
        FloodAdds(Adjacent4, grid.knownFree, start, reached, queue, cell, neighbour);
        reached := reached + {neighbour};
        queue := queue + [neighbour];
      }
      forall d | d in grid.knownFree && Adjacent4(cell, d) ensures d in reached {
        Neighbours4Complete(cell, d);
      }
      FloodResumes(Adjacent4, grid.knownFree, start, reached, queue, cell);
    }
    FloodEnds(Adjacent4, grid.knownFree, start, reached);
  }

  /** Python's order on (col, row) tuples. */
  predicate CellNotAfter(a: Cell, b: Cell) {
    a.col < b.col || (a.col == b.col && a.row <= b.row)
  }

  lemma CellNotAfterIsTotal()
    ensures TotalOrder(CellNotAfter)
  {
  }

  /** `group` lists, without repetition, one maximal eight-connected part of `cells`. */
  ghost predicate IsComponent(cells: set<Cell>, group: seq<Cell>) {
    && |group| > 0 && group[0] in cells && NoDuplicates(group)
    && forall c :: c in group <==> Linked(Adjacent, cells, group[0], c)
  }

  /** The groups found so far together with the cells that remain partition `cells`, and no
      step leads from a remaining cell to a grouped one. */
  ghost predicate ComponentsInv(cells: set<Cell>, remaining: set<Cell>, groups: seq<seq<Cell>>) {
    && IsClosedPart(cells, remaining)
    && (forall g :: 0 <= g < |groups| ==> IsComponent(cells, groups[g]))
    && Covers(cells, remaining, groups) && IsDisjoint(cells, remaining, groups)
  }

  ghost predicate IsClosedPart(cells: set<Cell>, part: set<Cell>) {
    part <= cells && forall b, d :: b in part && d in cells && Adjacent(b, d) ==> d in part
  }

  ghost predicate Covers(cells: set<Cell>, remaining: set<Cell>, groups: seq<seq<Cell>>) {
    forall c :: c in cells ==> c in remaining || exists g :: 0 <= g < |groups| && c in groups[g]
  }

  ghost predicate IsDisjoint(cells: set<Cell>, remaining: set<Cell>, groups: seq<seq<Cell>>) {
    && (forall g, c :: 0 <= g < |groups| && c in groups[g] ==> c in cells && c !in remaining)
    && forall g, h, c :: 0 <= g < h < |groups| && c in groups[g] ==> c !in groups[h]
  }

  /** `_components`: the partition of the cells into maximal eight-connected groups. */
  method Components(cells: set<Cell>) returns (result: seq<seq<Cell>>)
    ensures ComponentsInv(cells, {}, result)
  {
    var remaining := cells;
    result := [];
    while remaining != {}
      invariant ComponentsInv(cells, remaining, result)
      decreases remaining
    {
      var group, rest := TakeComponent(remaining);
      GroupIsComponent(cells, remaining, result, group, rest);
      remaining, result := rest, result + [group];
    }
  }

  /** One round of the outer loop: the group of the least remaining cell. */
  method TakeComponent(pool: set<Cell>) returns (group: seq<Cell>, remaining: set<Cell>)
    requires pool != {}
    ensures |group| > 0 && IsLeast(CellNotAfter, group[0], pool) && NoDuplicates(group)
    ensures remaining == pool - Elements(group)
    ensures forall c :: c in group <==> Linked(Adjacent, pool, group[0], c)
  {
    CellNotAfterIsTotal();
    var seed;
    seed, remaining := Pop(CellNotAfter, pool);
    group := [seed];
    var queue := [seed];
    FloodStarts(Adjacent, pool, seed);
    assert Elements(group) == {seed};
    while queue != []
      invariant FloodInv(Adjacent, pool, seed, Elements(group), queue)
      invariant |group| > 0 && group[0] == seed && NoDuplicates(group) && remaining == pool - Elements(group)
      decreases remaining, |queue|
    {
      FloodPops(Adjacent, pool, seed, Elements(group), queue);
      var cell := queue[0];
      queue := queue[1..];
      group, queue, remaining := Absorb(pool, seed, cell, group, queue, remaining);
    }
    FloodEnds(Adjacent, pool, seed, Elements(group));
  }

  /** Moves the remaining neighbours of `cell` into the group. */
  method Absorb(ghost pool: set<Cell>, ghost seed: Cell, cell: Cell, group0: seq<Cell>, queue0: seq<Cell>, remaining0: set<Cell>)
    returns (group: seq<Cell>, queue: seq<Cell>, remaining: set<Cell>)
    requires LookInv(Adjacent, pool, seed, Elements(group0), queue0, cell)
    requires |group0| > 0 && group0[0] == seed && NoDuplicates(group0) && remaining0 == pool - Elements(group0)
    ensures FloodInv(Adjacent, pool, seed, Elements(group), queue)
    ensures |group| > 0 && group[0] == seed && NoDuplicates(group) && remaining == pool - Elements(group)
    ensures remaining < remaining0 || (remaining == remaining0 && queue == queue0)
  {
    group, queue, remaining := group0, queue0, remaining0;
    var neighbours := Neighbours8(cell);
    for k := 0 to |neighbours|
      invariant LookInv(Adjacent, pool, seed, Elements(group), queue, cell)
      invariant |group| > 0 && group[0] == seed && NoDuplicates(group) && remaining == pool - Elements(group)
      invariant forall i :: 0 <= i < k ==> neighbours[i] in pool ==> neighbours[i] in Elements(group)
      invariant remaining < remaining0 || (remaining == remaining0 && queue == queue0)
    {
      var neighbour := neighbours[k];
      if neighbour in remaining {
        Neighbours8Complete(cell, neighbour);
        FloodAdds(Adjacent, pool, seed, Elements(group), queue, cell, neighbour);
        assert Elements(group + [neighbour]) == Elements(group) + {neighbour};
        remaining := remaining - {neighbour};
        group := group + [neighbour];
        queue := queue + [neighbour];
      }
    }
    forall d | d in pool && Adjacent(cell, d) ensures d in Elements(group) {
      Neighbours8Complete(cell, d);
    }
    FloodResumes(Adjacent, pool, seed, Elements(group), queue, cell);
  }

  lemma GroupIsComponent(cells: set<Cell>, pool: set<Cell>, groups: seq<seq<Cell>>, group: seq<Cell>, rest: set<Cell>)
    requires ComponentsInv(cells, pool, groups)
    requires |group| > 0 && group[0] in pool && NoDuplicates(group) && rest == pool - Elements(group)
    requires forall c :: c in group <==> Linked(Adjacent, pool, group[0], c)
    ensures ComponentsInv(cells, rest, groups + [group])
  {
    LinkageInPool(cells, pool, group[0]);
    assert IsComponent(cells, group);
    GroupLeavesClosed(cells, pool, group, rest);
    GroupInPool(pool, group);
    GroupCovers(cells, pool, groups, group, rest);
    GroupIsDisjoint(cells, pool, groups, group, rest);
  }

  lemma GroupInPool(pool: set<Cell>, group: seq<Cell>)
    requires |group| > 0 && group[0] in pool && forall c :: c in group ==> Linked(Adjacent, pool, group[0], c)
    ensures Elements(group) <= pool
  {
    forall c | c in group ensures c in pool {
      var walk :| IsWalkTo(Adjacent, pool, group[0], c, walk);
    }
  }

  lemma GroupLeavesClosed(cells: set<Cell>, pool: set<Cell>, group: seq<Cell>, rest: set<Cell>)
    requires IsClosedPart(cells, pool) && |group| > 0 && rest == pool - Elements(group)
    requires forall c :: c in group <==> Linked(Adjacent, pool, group[0], c)
    ensures IsClosedPart(cells, rest)
  {
    forall b, d | b in rest && d in cells && Adjacent(b, d) ensures d in rest {
      if d in group {
        LinkedStep(Adjacent, pool, group[0], d, b);
      }
    }
  }

  lemma GroupCovers(cells: set<Cell>, pool: set<Cell>, groups: seq<seq<Cell>>, group: seq<Cell>, rest: set<Cell>)
    requires Covers(cells, pool, groups) && rest == pool - Elements(group)
    ensures Covers(cells, rest, groups + [group])
  {
    var all := groups + [group];
    forall c | c in cells ensures c in rest || exists g :: 0 <= g < |all| && c in all[g] {
      if c !in pool {
        var g :| 0 <= g < |groups| && c in groups[g];
        assert c in all[g];
      } else if c in group {
        assert c in all[|groups|];
      }
    }
  }

  lemma GroupIsDisjoint(cells: set<Cell>, pool: set<Cell>, groups: seq<seq<Cell>>, group: seq<Cell>, rest: set<Cell>)
    requires IsDisjoint(cells, pool, groups) && rest == pool - Elements(group) && Elements(group) <= pool && pool <= cells
    ensures IsDisjoint(cells, rest, groups + [group])
  {
    assert forall c :: c in group ==> c in Elements(group);
  }

  lemma LinkageInPool(cells: set<Cell>, pool: set<Cell>, seed: Cell)
    requires seed in pool && IsClosedPart(cells, pool)
    ensures forall c :: Linked(Adjacent, pool, seed, c) <==> Linked(Adjacent, cells, seed, c)
  {
    forall c ensures Linked(Adjacent, pool, seed, c) <==> Linked(Adjacent, cells, seed, c) {
      if Linked(Adjacent, pool, seed, c) {
        LinkedInLarger(Adjacent, pool, cells, seed, c);
      }
      if Linked(Adjacent, cells, seed, c) {
        var walk :| IsWalkTo(Adjacent, cells, seed, c, walk);
        LinkedInClosed(Adjacent, cells, pool, seed, c, walk);
      }
    }
  }

  datatype FrontierGoal = FrontierGoal(x: real, y: real, cellCount: nat, distance: real, score: real)

  /** A goal together with the cell and the group it was chosen for. */
  datatype Scored = Scored(goal: FrontierGoal, centre: Cell, group: nat)

  datatype Search = Search(robotXY: Point, minimumLength: real, clearance: real, visited: seq<Point>, visitedRadius: real)

  /** A free cell next to a cell of the map that is neither free nor occupied. */
  predicate BordersUnknown(grid: OccupancyGrid, c: Cell) {
    exists n :: n in Neighbours4(c) && n !in grid.knownFree && n !in grid.occupied && !grid.Blocked(n)
  }

  /** Free of obstacles all around, and not near a goal already visited. */
  predicate IsSafe(sqrt: real -> real, grid: OccupancyGrid, search: Search, c: Cell)
    requires grid.Valid()
  {
    && (forall offset :: offset in DiscOffsets(Ceiling(search.clearance / grid.resolution)) ==> Shift(c, offset) !in grid.occupied)
    && forall v :: v in search.visited ==>
         Hypot(sqrt, grid.CellToWorld(c).x - v.x, grid.CellToWorld(c).y - v.y) > search.visitedRadius
  }

  /** The frontier: reachable cells that border unknown space. */
  ghost predicate IsFrontier(grid: OccupancyGrid, start: Cell, c: Cell) {
    Linked(Adjacent4, grid.knownFree, start, c) && BordersUnknown(grid, c)
  }

  function MinimumCells(grid: OccupancyGrid, search: Search): int
    requires grid.Valid()
  {
    Max(1, Ceiling(search.minimumLength / grid.resolution))
  }

  ghost predicate Qualifies(sqrt: real -> real, grid: OccupancyGrid, search: Search, group: seq<Cell>)
    requires grid.Valid()
  {
    |group| >= MinimumCells(grid, search) && exists c :: c in group && IsSafe(sqrt, grid, search, c)
  }

  function ScoreGoal(sqrt: real -> real, grid: OccupancyGrid, search: Search, size: nat, centre: Cell): FrontierGoal
    requires grid.Valid()
  {
    var p := grid.CellToWorld(centre);
    var distance := Hypot(sqrt, p.x - search.robotXY.x, p.y - search.robotXY.y);
    FrontierGoal(p.x, p.y, size, distance,
                 size as real * grid.resolution / (if distance < grid.resolution then grid.resolution else distance))
  }

  function ColumnSum(cells: seq<Cell>): int { if cells == [] then 0 else cells[0].col + ColumnSum(cells[1..]) }

  function RowSum(cells: seq<Cell>): int { if cells == [] then 0 else cells[0].row + RowSum(cells[1..]) }

  function CentroidDistance(c: Cell, cells: seq<Cell>): real
    requires |cells| > 0
  {
    AxisDistance(c.col, ColumnSum(cells), |cells|) + AxisDistance(c.row, RowSum(cells), |cells|)
  }

  /** The squared distance to the mean. */
  function AxisDistance(at: int, sum: int, n: nat): real
    requires n > 0
  {
    var d := at as real - sum as real / n as real;
    d * d
  }

  /** The safe cells of a group, in its order. */
  function SafeOf(sqrt: real -> real, grid: OccupancyGrid, search: Search, group: seq<Cell>): seq<Cell>
    requires grid.Valid()
  {
    if group == [] then []
    else
      var rest, last := SafeOf(sqrt, grid, search, group[..|group| - 1]), group[|group| - 1];
      if IsSafe(sqrt, grid, search, last) then rest + [last] else rest
  }

  lemma {:induction false} SafeOfMembers(sqrt: real -> real, grid: OccupancyGrid, search: Search, group: seq<Cell>, c: Cell)
    requires grid.Valid()
    ensures c in SafeOf(sqrt, grid, search, group) <==> c in group && IsSafe(sqrt, grid, search, c)
  {
    if group != [] {
      var init, last := group[..|group| - 1], group[|group| - 1];
      SafeOfMembers(sqrt, grid, search, init, c);
      assert group == init + [last];
    }
  }

  /** The first of the items at the least distance. */
  ghost predicate IsFirstNearest(distance: Cell -> real, cells: seq<Cell>, c: Cell) {
    exists k :: 0 <= k < |cells| && cells[k] == c && FirstNearestAt(distance, cells, k)
  }

  ghost predicate FirstNearestAt(distance: Cell -> real, cells: seq<Cell>, k: nat)
    requires k < |cells|
  {
    && (forall i :: 0 <= i < k ==> distance(cells[k]) < distance(cells[i]))
    && (forall i :: k <= i < |cells| ==> distance(cells[k]) <= distance(cells[i]))
  }

  function FromCentroid(cells: seq<Cell>): Cell -> real
    requires |cells| > 0
  {
    (c: Cell) => CentroidDistance(c, cells)
  }

  /** The goal of a group is the first of its safe cells nearest to their centroid. */
  ghost predicate IsGoalOf(sqrt: real -> real, grid: OccupancyGrid, search: Search, group: seq<Cell>, s: Scored)
    requires grid.Valid()
  {
    var safe := SafeOf(sqrt, grid, search, group);
    && Qualifies(sqrt, grid, search, group) && safe != [] && IsFirstNearest(FromCentroid(safe), safe, s.centre)
    && s.goal == ScoreGoal(sqrt, grid, search, |group|, s.centre)
  }

  lemma GoalIsSafe(sqrt: real -> real, grid: OccupancyGrid, search: Search, group: seq<Cell>, s: Scored)
    requires grid.Valid() && IsGoalOf(sqrt, grid, search, group, s)
    ensures s.centre in group && IsSafe(sqrt, grid, search, s.centre)
  {
    SafeOfMembers(sqrt, grid, search, group, s.centre);
  }

  predicate GoalNotAfter(a: Scored, b: Scored) {
    if a.goal.score != b.goal.score then a.goal.score > b.goal.score
    else if a.goal.distance != b.goal.distance then a.goal.distance < b.goal.distance
    else if a.goal.x != b.goal.x then a.goal.x < b.goal.x
    else a.goal.y <= b.goal.y
  }

  lemma GoalNotAfterIsTotal()
    ensures TotalOrder(GoalNotAfter)
  {
  }

  /** Exactly one goal for each of the first `n` groups that qualifies. */
  ghost predicate GoalsFor(sqrt: real -> real, grid: OccupancyGrid, search: Search, groups: seq<seq<Cell>>, n: nat, scored: seq<Scored>)
    requires grid.Valid() && n <= |groups|
  {
    && (forall i :: 0 <= i < |scored| ==> scored[i].group < n && IsGoalOf(sqrt, grid, search, groups[scored[i].group], scored[i]))
    && (forall i, j :: 0 <= i < j < |scored| ==> scored[i].group != scored[j].group)
    && forall g :: 0 <= g < n && Qualifies(sqrt, grid, search, groups[g]) ==> exists s :: s in scored && s.group == g
  }

  /** Python's `min`. */
  method FirstNearest(distance: Cell -> real, cells: seq<Cell>) returns (first: Cell)
    requires |cells| > 0
    ensures IsFirstNearest(distance, cells, first)
  {
    var at := 0;
    for k := 1 to |cells|
      invariant 0 <= at < k
      invariant forall i :: 0 <= i < at ==> distance(cells[at]) < distance(cells[i])
      invariant forall i :: at <= i < k ==> distance(cells[at]) <= distance(cells[i])
    {
      if distance(cells[k]) < distance(cells[at]) {
        at := k;
      }
    }
    assert FirstNearestAt(distance, cells, at);
    first := cells[at];
  }

  method SafeCells(sqrt: real -> real, grid: OccupancyGrid, search: Search, group: seq<Cell>) returns (safe: seq<Cell>)
    requires grid.Valid()
    ensures safe == SafeOf(sqrt, grid, search, group)
  {
    safe := [];
    for k := 0 to |group|
      invariant safe == SafeOf(sqrt, grid, search, group[..k])
    {
      assert group[..k + 1][..k] == group[..k];
      if IsSafe(sqrt, grid, search, group[k]) {
        safe := safe + [group[k]];
      }
    }
    assert group[..|group|] == group;
  }

  lemma NoSafeCells(sqrt: real -> real, grid: OccupancyGrid, search: Search, group: seq<Cell>)
    requires grid.Valid() && SafeOf(sqrt, grid, search, group) == []
    ensures !Qualifies(sqrt, grid, search, group)
  {
    forall c | c in group ensures !IsSafe(sqrt, grid, search, c) {
      SafeOfMembers(sqrt, grid, search, group, c);
    }
  }

  method ScoreGroups(sqrt: real -> real, grid: OccupancyGrid, search: Search, groups: seq<seq<Cell>>) returns (scored: seq<Scored>)
    requires grid.Valid()
    ensures GoalsFor(sqrt, grid, search, groups, |groups|, scored)
  {
    scored := [];
    for g := 0 to |groups|
      invariant GoalsFor(sqrt, grid, search, groups, g, scored)
    {
      var group := groups[g];
      if |group| < MinimumCells(grid, search) {
        continue;
      }
      var safe := SafeCells(sqrt, grid, search, group);
      if safe == [] {
        NoSafeCells(sqrt, grid, search, group);
        continue;
      }
      var centre := FirstNearest(FromCentroid(safe), safe);
      SafeOfMembers(sqrt, grid, search, group, centre);
      var next := Scored(ScoreGoal(sqrt, grid, search, |group|, centre), centre, g);
      GoalsForAppend(sqrt, grid, search, groups, g, scored, next);
      scored := scored + [next];
    }
  }

  lemma GoalsForAppend(sqrt: real -> real, grid: OccupancyGrid, search: Search, groups: seq<seq<Cell>>, g: nat,
                       scored: seq<Scored>, next: Scored)
    requires grid.Valid() && g < |groups| && GoalsFor(sqrt, grid, search, groups, g, scored)
    requires next.group == g && IsGoalOf(sqrt, grid, search, groups[g], next)
    ensures GoalsFor(sqrt, grid, search, groups, g + 1, scored + [next])
  {
    forall h | 0 <= h < g + 1 && Qualifies(sqrt, grid, search, groups[h]) ensures exists s :: s in scored + [next] && s.group == h {
      if h < g {
        var s :| s in scored && s.group == h;
        assert s in scored + [next];
      } else {
        assert next in scored + [next];
      }
    }
  }

  lemma GoalsForPermutes(sqrt: real -> real, grid: OccupancyGrid, search: Search, groups: seq<seq<Cell>>,
                         a: seq<Scored>, b: seq<Scored>)
    requires grid.Valid() && GoalsFor(sqrt, grid, search, groups, |groups|, a) && multiset(a) == multiset(b)
    ensures GoalsFor(sqrt, grid, search, groups, |groups|, b)
  {
    Rearranged(a, b);
    forall i | 0 <= i < |b| ensures b[i].group < |groups| && IsGoalOf(sqrt, grid, search, groups[b[i].group], b[i]) {
      assert b[i] in b && b[i] in a;
    }
    forall i, j | 0 <= i < j < |b| ensures b[i].group != b[j].group {
      assert NoDuplicates(a) && b[i] in a && b[j] in a;
      var k :| 0 <= k < |a| && a[k] == b[i];
      var l :| 0 <= l < |a| && a[l] == b[j];
    }
    forall g | 0 <= g < |groups| && Qualifies(sqrt, grid, search, groups[g]) ensures exists s :: s in b && s.group == g {
      var s :| s in a && s.group == g;
      assert s in b;
    }
  }

  ghost predicate AreFrontierGroups(grid: OccupancyGrid, start: Cell, groups: seq<seq<Cell>>) {
    exists frontier :: HoldsFrontier(grid, start, frontier) && ComponentsInv(frontier, {}, groups)
  }

  ghost predicate HoldsFrontier(grid: OccupancyGrid, start: Cell, frontier: set<Cell>) {
    forall c :: c in frontier <==> IsFrontier(grid, start, c)
  }

  /** Each qualifying frontier group has its one goal, best score first. */
  ghost predicate AreGoals(sqrt: real -> real, grid: OccupancyGrid, search: Search, start: Cell, scored: seq<Scored>)
    requires grid.Valid()
  {
    && SortedBy(GoalNotAfter, scored)
    && exists groups :: AreFrontierGroups(grid, start, groups) && GoalsFor(sqrt, grid, search, groups, |groups|, scored)
  }

  ghost predicate IsAway(sqrt: real -> real, search: Search, p: Point) {
    forall v :: v in search.visited ==> Hypot(sqrt, p.x - v.x, p.y - v.y) > search.visitedRadius
  }

  lemma GoalsForAvoidVisited(sqrt: real -> real, grid: OccupancyGrid, search: Search, groups: seq<seq<Cell>>, scored: seq<Scored>)
    requires grid.Valid() && GoalsFor(sqrt, grid, search, groups, |groups|, scored)
    ensures forall i :: 0 <= i < |scored| ==> IsAway(sqrt, search, Point(scored[i].goal.x, scored[i].goal.y))
  {
    forall i | 0 <= i < |scored| ensures IsAway(sqrt, search, Point(scored[i].goal.x, scored[i].goal.y)) {
      GoalIsSafe(sqrt, grid, search, groups[scored[i].group], scored[i]);
    }
  }

  /** No goal lies within the visited radius of a goal already visited. */
  lemma GoalsAvoidVisited(sqrt: real -> real, grid: OccupancyGrid, search: Search, start: Cell, scored: seq<Scored>)
    requires grid.Valid() && AreGoals(sqrt, grid, search, start, scored)
    ensures forall i :: 0 <= i < |scored| ==> IsAway(sqrt, search, Point(scored[i].goal.x, scored[i].goal.y))
  {
    var groups: seq<seq<Cell>> :| AreFrontierGroups(grid, start, groups)
                                  && GoalsFor(sqrt, grid, search, groups, |groups|, scored);
    GoalsForAvoidVisited(sqrt, grid, search, groups, scored);
  }

  /** `find_frontier_goals`: for every maximal frontier group that is large enough and has a safe
      cell, exactly one goal, in a safe cell of that group; best score first. */
  method FindFrontierGoals(sqrt: real -> real, grid: OccupancyGrid, search: Search)
    returns (scored: seq<Scored>)
    requires grid.Valid()
    ensures var start := grid.WorldToCell(search.robotXY);
      if start.None? || start.value !in grid.knownFree then scored == []
      else AreGoals(sqrt, grid, search, start.value, scored)
  {
    var start := grid.WorldToCell(search.robotXY);
    if start.None? || start.value !in grid.knownFree {
      return [];
    }
    var reachable := ReachableFree(grid, start.value);
    var candidates := set c | c in reachable && BordersUnknown(grid, c);
    var components := Components(candidates);
    assert HoldsFrontier(grid, start.value, candidates);
    assert AreFrontierGroups(grid, start.value, components);
    var unsorted := ScoreGroups(sqrt, grid, search, components);
    GoalNotAfterIsTotal();
    SortedIsSorted(GoalNotAfter, unsorted);
    scored := Sorted(GoalNotAfter, unsorted);
    GoalsForPermutes(sqrt, grid, search, components, unsorted, scored);
  }
}
