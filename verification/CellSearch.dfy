/** The search loop of `astar_path` (robot_brain/navigation/planner.py) over a graph of cells. */
module CellSearch {
  import opened Grid
  import opened Heap
  import opened SearchGraph
  import opened Neighbourhood

  ghost predicate StepsAreAdjacent(g: Graph) {
    forall a, b :: g.step(a, b) ==> Adjacent(a, b)
  }

  /** A neighbour that offers nothing better leaves the search as it is. */
  lemma SkipKeeps(g: Graph, start: Cell, s: Search, n: Cell, done: set<Cell>, m: Cell)
    requires SearchInv(g, start, s, n, done) && n in s.closed
    requires g.step(n, m) ==> m in s.cost && s.cost[m] <= s.cost[n] + g.weight(n, m)
    ensures SearchInv(g, start, s, n, done + {m})
  {
    forall c | c in s.closed ensures Settled(g, s.cost, c, if c == n then done + {m} else g.cells) {
      assert Settled(g, s.cost, c, if c == n then done else g.cells);
    }
  }

  lemma SettledNeighbour(g: Graph, start: Cell, s: Search, n: Cell, m: Cell)
    requires Consistent(g) && SearchInv(g, start, s, n, g.cells) && n in s.closed && g.step(n, m)
    ensures m in s.cost && s.cost[m] <= s.cost[n] + g.weight(n, m)
  {
    assert Settled(g, s.cost, n, g.cells);
  }

  lemma RelaxedAll(g: Graph, start: Cell, s: Search, n: Cell, done: set<Cell>)
    requires SearchInv(g, start, s, n, done)
    requires forall m :: g.step(n, m) ==> m in done
    ensures SearchInv(g, start, s, start, g.cells)
  {
    forall c | c in s.closed ensures Settled(g, s.cost, c, g.cells) {
      assert Settled(g, s.cost, c, if c == n then done else g.cells);
    }
  }

  /** One round of the inner loop: a legal step that is strictly cheaper is pushed. */
  ghost function Relaxed(g: Graph, s: Search, n: Cell, m: Cell): Search
    requires n in s.cost
  {
    if g.step(n, m) && (m in s.cost ==> s.cost[n] + g.weight(n, m) < s.cost[m]) then Push(g, s, n, m) else s
  }

  method Relax(g: Graph, current: Cell, nxt: Cell, frontier0: set<Entry>, cameFrom0: map<Cell, Cell>,
               cost0: map<Cell, real>, serial0: nat, ghost closed: set<Cell>, ghost bound: real)
    returns (frontier: set<Entry>, cameFrom: map<Cell, Cell>, cost: map<Cell, real>, serial: nat)
    requires current in cost0
    ensures Search(frontier, cameFrom, cost, serial, closed, bound)
         == Relaxed(g, Search(frontier0, cameFrom0, cost0, serial0, closed, bound), current, nxt)
  {
    frontier, cameFrom, cost, serial := frontier0, cameFrom0, cost0, serial0;
    if !g.step(current, nxt) {
      return;
    }
    var candidate := cost[current] + g.weight(current, nxt);
    if nxt in cost && candidate >= cost[nxt] {
      return;
    }
    cost := cost[nxt := candidate];
    cameFrom := cameFrom[nxt := current];
    serial := serial + 1;
    frontier := frontier + {Entry(candidate + g.estimate(nxt), serial, nxt)};
  }

  /** While the first `k` neighbours of `n` have been relaxed: a cell expanded for the first time
      may push, a stale one is settled already. */
  ghost predicate Expanding(g: Graph, start: Cell, s: Search, n: Cell, k: nat, firstTime: bool)
    requires k <= |NEIGHBORS|
  {
    match firstTime
    case true => SearchInv(g, start, s, n, Visited(n, k)) && n in s.closed && s.bound == s.cost[n] + g.estimate(n)
    case false => SearchInv(g, start, s, n, g.cells) && n in s.closed
  }

  lemma RelaxNext(g: Graph, start: Cell, s: Search, n: Cell, k: nat, firstTime: bool)
    requires Consistent(g) && StepsAreAdjacent(g) && k < |NEIGHBORS| && Expanding(g, start, s, n, k, firstTime)
    ensures n in s.cost
    ensures var s' := Relaxed(g, s, n, Shift(n, NEIGHBORS[k]));
            && Expanding(g, start, s', n, k + 1, firstTime) && s'.closed == s.closed && s'.bound == s.bound
            && if firstTime then s'.serial <= s.serial + 1 else s' == s
  {
    var m := Shift(n, NEIGHBORS[k]);
    if !firstTime {
      if g.step(n, m) {
        SettledNeighbour(g, start, s, n, m);
      }
    } else {
      VisitedNext(n, k);
      if Relaxed(g, s, n, m) == s {
        SkipKeeps(g, start, s, n, Visited(n, k), m);
      } else {
        PushKeeps(g, start, s, n, Visited(n, k), m);
        PushKeepsCost(g, start, s, n, Visited(n, k), m);
      }
    }
  }

  lemma PushKeepsCost(g: Graph, start: Cell, s: Search, n: Cell, done: set<Cell>, m: Cell)
    requires Consistent(g) && SearchInv(g, start, s, n, done)
    requires n in s.closed && s.bound == s.cost[n] + g.estimate(n) && g.step(n, m)
    requires m in s.cost ==> s.cost[n] + g.weight(n, m) < s.cost[m]
    ensures Push(g, s, n, m).cost[n] == s.cost[n]
  {
    ImprovableIsOpen(g, start, s, n, done, m);
  }

  lemma ExpandedAll(g: Graph, start: Cell, s: Search, n: Cell, firstTime: bool)
    requires StepsAreAdjacent(g) && Expanding(g, start, s, n, |NEIGHBORS|, firstTime)
    ensures SearchInv(g, start, s, start, g.cells)
  {
    if firstTime {
      forall m | g.step(n, m) ensures m in Visited(n, |NEIGHBORS|) {
        VisitedAll(n, m);
      }
      RelaxedAll(g, start, s, n, Visited(n, |NEIGHBORS|));
    } else {
      StaleIsSettled(g, start, s, n, start);
    }
  }

  /** Every expanded cell is settled, whichever of them is looked at. */
  lemma StaleIsSettled(g: Graph, start: Cell, s: Search, current: Cell, other: Cell)
    requires SearchInv(g, start, s, current, g.cells)
    ensures SearchInv(g, start, s, other, g.cells) && s.closed <= g.cells
  {
  }

  /** Relaxes the eight neighbours of a popped cell. A cell expanded for the first time
      (`firstTime`) may push; a stale one, already settled, pushes nothing. */
  method Expand(g: Graph, ghost start: Cell, current: Cell, frontier0: set<Entry>, cameFrom0: map<Cell, Cell>,
                cost0: map<Cell, real>, serial0: nat, ghost closed: set<Cell>, ghost bound: real,
                ghost firstTime: bool)
    returns (frontier: set<Entry>, cameFrom: map<Cell, Cell>, cost: map<Cell, real>, serial: nat)
    requires Consistent(g) && StepsAreAdjacent(g)
    requires Expanding(g, start, Search(frontier0, cameFrom0, cost0, serial0, closed, bound), current, 0, firstTime)
    ensures SearchInv(g, start, Search(frontier, cameFrom, cost, serial, closed, bound), start, g.cells)
    ensures !firstTime ==> frontier == frontier0 && cost == cost0
    ensures serial <= serial0 + (if firstTime then 8 else 0)
  {
    frontier, cameFrom, cost, serial := frontier0, cameFrom0, cost0, serial0;
    ghost var s := Search(frontier, cameFrom, cost, serial, closed, bound);
    for k := 0 to |NEIGHBORS|
      invariant s == Search(frontier, cameFrom, cost, serial, closed, bound)
      invariant Expanding(g, start, s, current, k, firstTime)
      invariant if firstTime then serial <= serial0 + k else frontier == frontier0 && cost == cost0 && serial == serial0
    {
      RelaxNext(g, start, s, current, k, firstTime);
      s := Relaxed(g, s, current, Shift(current, NEIGHBORS[k]));
      frontier, cameFrom, cost, serial :=
        Relax(g, current, Shift(current, NEIGHBORS[k]), frontier, cameFrom, cost, serial, closed, bound);
    }
    ExpandedAll(g, start, s, current, firstTime);
  }

  function Reversed<T>(s: seq<T>): seq<T> {
    seq(|s|, i requires 0 <= i < |s| => s[|s| - 1 - i])
  }

  ghost function Cheaper(cost: map<Cell, real>, c: Cell): set<Cell>
    requires c in cost
  {
    set d | d in cost && cost[d] < cost[c]
  }

  lemma ParentIsCheaper(g: Graph, start: Cell, s: Search, c: Cell)
    requires Consistent(g) && TreeInv(g, start, s) && c in s.cost && c != start
    ensures c in s.cameFrom && s.cameFrom[c] in s.cost && Cheaper(s.cost, s.cameFrom[c]) < Cheaper(s.cost, c)
  {
    assert HangsUnderParent(g, s, c);
    assert s.cameFrom[c] in Cheaper(s.cost, c) && s.cameFrom[c] !in Cheaper(s.cost, s.cameFrom[c]);
  }

  ghost predicate LeadsBack(start: Cell, s: Search, c: Cell, parent: Cell) {
    c != start && c in s.cost && c in s.cameFrom && s.cameFrom[c] == parent
  }

  lemma ReversedIsChain(start: Cell, s: Search, cells: seq<Cell>)
    requires |cells| > 0 && cells[|cells| - 1] == start
    requires forall j :: 0 <= j < |cells| - 1 ==> LeadsBack(start, s, cells[j], cells[j + 1])
    ensures IsChain(s, start, Reversed(cells))
  {
    var path := Reversed(cells);
    forall j | 0 < j < |path|
      ensures path[j] != start && path[j] in s.cost && path[j] in s.cameFrom && s.cameFrom[path[j]] == path[j - 1]
    {
      assert LeadsBack(start, s, cells[|cells| - 1 - j], cells[|cells| - 1 - j + 1]);
    }
  }

  /** Follows the parents back from the goal; costs fall strictly, so the walk ends at the start. */
  method Reconstruct(start: Cell, goal: Cell, cameFrom: map<Cell, Cell>, ghost g: Graph, ghost s: Search)
    returns (path: seq<Cell>)
    requires Consistent(g) && TreeInv(g, start, s) && s.cameFrom == cameFrom && goal in s.cost
    ensures IsPath(g, start, goal, path) && PathCost(g, path) == s.cost[goal]
  {
    var current := goal;
    var cells := [current];
    while current != start
      invariant |cells| > 0 && cells[0] == goal && cells[|cells| - 1] == current && current in s.cost
      invariant forall j :: 0 <= j < |cells| - 1 ==> LeadsBack(start, s, cells[j], cells[j + 1])
      decreases Cheaper(s.cost, current)
    {
      ParentIsCheaper(g, start, s, current);
      current := cameFrom[current];
      cells := cells + [current];
    }
    path := Reversed(cells);
    ReversedIsChain(start, s, cells);
    ChainIsPath(g, start, s, path);
  }

  lemma {:induction false} PathCostNonnegative(g: Graph, start: Cell, goal: Cell, path: seq<Cell>)
    requires Consistent(g) && IsPath(g, start, goal, path)
    ensures PathCost(g, path) >= 0.0
    decreases path
  {
    if |path| > 1 {
      var shorter := path[..|path| - 1];
      assert g.step(path[|path| - 2], path[|path| - 2 + 1]);
      PathCostNonnegative(g, start, shorter[|shorter| - 1], shorter);
    }
  }

  method PopEntry(frontier: set<Entry>) returns (least: Entry, rest: set<Entry>)
    requires frontier != {}
    ensures IsLeast(NotAfter, least, frontier) && rest == frontier - {least}
  {
    NotAfterIsTotal();
    least, rest := Pop(NotAfter, frontier);
  }

  /** Where the loop stands when it tests the frontier: at the initial entry, or after the
      expansion of the cells in `closed`, each of which pushed at most eight entries. */
  ghost predicate LoopInv(g: Graph, start: Cell, goal: Cell, s: Search) {
    && goal !in s.closed && s.closed <= g.cells && s.serial <= 8 * |s.closed|
    && if s.closed == {} then s == Search({Entry(0.0, 0, start)}, map[], map[start := 0.0], 0, {}, s.bound)
       else SearchInv(g, start, s, start, g.cells)
  }

  /** The search as `entry` is popped and its cell about to be expanded. */
  ghost function Popped(g: Graph, s: Search, entry: Entry): Search {
    if entry.cell in s.closed then s.(frontier := s.frontier - {entry})
    else s.(frontier := s.frontier - {entry}, closed := s.closed + {entry.cell},
            bound := if s.closed == {} then g.estimate(entry.cell) else entry.priority)
  }

  /** The search may expand the cell it has just popped. */
  ghost predicate IsExpanding(g: Graph, start: Cell, goal: Cell, t: Search, current: Cell, firstTime: bool) {
    Expanding(g, start, t, current, 0, firstTime) && t.closed <= g.cells && goal !in t.closed
  }

  lemma PopKeeps(g: Graph, start: Cell, goal: Cell, s: Search, entry: Entry)
    requires start in g.cells && LoopInv(g, start, goal, s)
    requires IsLeast(NotAfter, entry, s.frontier) && entry.cell != goal
    ensures var firstTime, t := entry.cell !in s.closed, Popped(g, s, entry);
            && IsExpanding(g, start, goal, t, entry.cell, firstTime)
            && |t.closed| == |s.closed| + (if firstTime then 1 else 0)
  {
    PoppedCounts(g, s, entry);
    if s.closed == {} {
      FirstPop(g, start);
      assert Popped(g, s, entry) == Search({}, map[], map[start := 0.0], 0, {start}, g.estimate(start));
    } else if entry.cell !in s.closed {
      FreshKeeps(g, start, goal, s, entry);
    } else {
      StaleKeeps(g, start, goal, s, entry);
    }
  }

  lemma PoppedCounts(g: Graph, s: Search, entry: Entry)
    ensures |Popped(g, s, entry).closed| == |s.closed| + (if entry.cell in s.closed then 0 else 1)
  {
  }

  lemma StaleKeeps(g: Graph, start: Cell, goal: Cell, s: Search, entry: Entry)
    requires SearchInv(g, start, s, start, g.cells) && goal !in s.closed && entry.cell in s.closed
    ensures IsExpanding(g, start, goal, Popped(g, s, entry), entry.cell, false)
  {
    StalePop(g, start, s, start, entry);
    StaleIsSettled(g, start, s.(frontier := s.frontier - {entry}), start, entry.cell);
  }

  lemma FreshKeeps(g: Graph, start: Cell, goal: Cell, s: Search, entry: Entry)
    requires SearchInv(g, start, s, start, g.cells) && goal !in s.closed && s.closed != {}
    requires IsLeast(NotAfter, entry, s.frontier) && entry.cell != goal && entry.cell !in s.closed
    ensures IsExpanding(g, start, goal, Popped(g, s, entry), entry.cell, true)
  {
    FreshPop(g, start, s, start, entry);
    TreeOnCells(g, start, Popped(g, s, entry));
  }

  lemma TreeOnCells(g: Graph, start: Cell, s: Search)
    requires TreeInv(g, start, s)
    ensures s.closed <= g.cells
  {
  }

  /** The goal's cost when its entry is popped is that of a cheapest path. */
  lemma GoalPopped(g: Graph, start: Cell, goal: Cell, s: Search, entry: Entry)
    requires Consistent(g) && start in g.cells && LoopInv(g, start, goal, s)
    requires IsLeast(NotAfter, entry, s.frontier) && entry.cell == goal
    ensures exists t: Search :: TreeInv(g, start, t) && t.cameFrom == s.cameFrom && t.cost == s.cost
    ensures goal in s.cost
    ensures forall other :: IsPath(g, start, goal, other) ==> s.cost[goal] <= PathCost(g, other)
  {
    if s.closed == {} {
      FirstPop(g, start);
      var t := Search({}, map[], map[start := 0.0], 0, {start}, g.estimate(start));
      assert TreeInv(g, start, t) && t.cameFrom == s.cameFrom && t.cost == s.cost;
    } else {
      assert TreeInv(g, start, s);
    }
    forall other | IsPath(g, start, goal, other) ensures s.cost[goal] <= PathCost(g, other) {
      if s.closed != {} {
        GoalCostIsLeast(g, start, s, start, entry, other);
      } else {
        PathCostNonnegative(g, start, goal, other);
      }
    }
  }

  /** The search loop of `astar_path`: the cells visited, from the start to the goal. However
      often a cell is queued again, the whole search pushes at most eight entries for each cell. */
  method SearchCells(g: Graph, start: Cell, goal: Cell) returns (r: Option<seq<Cell>>, ghost pushes: nat)
    requires Consistent(g) && StepsAreAdjacent(g) && start in g.cells
    ensures match r
            case Some(path) => IsCheapest(g, start, goal, path)
            case None => !Reachable(g, start, goal)
    ensures pushes <= 8 * |g.cells|
  {
    var frontier := {Entry(0.0, 0, start)};
    var cameFrom: map<Cell, Cell> := map[];
    var cost := map[start := 0.0];
    var serial := 0;
    ghost var closed: set<Cell> := {};
    ghost var bound := 0.0;
    while frontier != {}
      invariant LoopInv(g, start, goal, Search(frontier, cameFrom, cost, serial, closed, bound))
      decreases g.cells - closed, frontier
    {
      ghost var s := Search(frontier, cameFrom, cost, serial, closed, bound);
      var entry;
      entry, frontier := PopEntry(frontier);
      var current := entry.cell;
      if current == goal {
        GoalPopped(g, start, goal, s, entry);
        ghost var t: Search :| TreeInv(g, start, t) && t.cameFrom == cameFrom && t.cost == cost;
        var cells := Reconstruct(start, goal, cameFrom, g, t);
        SubsetSize(closed, g.cells);
        return Some(cells), serial;
      }
      PopKeeps(g, start, goal, s, entry);
      ghost var firstTime, popped := current !in closed, Popped(g, s, entry);
      closed, bound := popped.closed, popped.bound;
      frontier, cameFrom, cost, serial :=
        Expand(g, start, current, frontier, cameFrom, cost, serial, closed, bound, firstTime);
    }
    ExhaustedMeansUnreachable(g, start, Search(frontier, cameFrom, cost, serial, closed, bound), start, goal);
    SubsetSize(closed, g.cells);
    return None, serial;
  }
}
