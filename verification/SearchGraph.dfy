/** Best-first search over an arbitrary weighted graph of cells: what every iteration of
    `astar_path` keeps, independent of how the grid defines steps, weights and estimates. */
module SearchGraph {
  import opened Grid
  import opened Heap

  datatype Graph = Graph(cells: set<Cell>, step: (Cell, Cell) -> bool,
                         weight: (Cell, Cell) -> real, estimate: Cell -> real)

  /** A frontier row: Python compares the tuples (priority, serial, cell), and serials are unique. */
  datatype Entry = Entry(priority: real, serial: nat, cell: Cell)

  predicate NotAfter(a: Entry, b: Entry) {
    a.priority < b.priority || (a.priority == b.priority && a.serial <= b.serial)
  }

  lemma NotAfterIsTotal()
    ensures TotalOrder(NotAfter)
  {
  }

  /** The loop's variables, with two that only the proof needs: the cells expanded so far and
      the priority of the last one expanded. */
  datatype Search = Search(frontier: set<Entry>, cameFrom: map<Cell, Cell>, cost: map<Cell, real>,
                           serial: nat, closed: set<Cell>, bound: real)

  /** Steps stay on the cells, cost something, and the estimate never drops faster than a step costs. */
  ghost predicate Consistent(g: Graph) {
    forall a, b :: g.step(a, b) ==>
      b in g.cells && g.weight(a, b) > 0.0 && g.estimate(a) <= g.weight(a, b) + g.estimate(b)
  }

  ghost predicate IsPath(g: Graph, start: Cell, goal: Cell, path: seq<Cell>) {
    && |path| > 0 && path[0] == start && path[|path| - 1] == goal
    && forall i :: 0 <= i < |path| - 1 ==> g.step(path[i], path[i + 1])
  }

  ghost function PathCost(g: Graph, path: seq<Cell>): real {
    if |path| <= 1 then 0.0
    else PathCost(g, path[..|path| - 1]) + g.weight(path[|path| - 2], path[|path| - 1])
  }

  ghost predicate IsCheapest(g: Graph, start: Cell, goal: Cell, path: seq<Cell>) {
    && IsPath(g, start, goal, path)
    && forall other :: IsPath(g, start, goal, other) ==> PathCost(g, path) <= PathCost(g, other)
  }

  ghost predicate Reachable(g: Graph, start: Cell, goal: Cell) {
    exists path :: IsPath(g, start, goal, path)
  }

  /** Every reached cell but the start hangs under an expanded parent, and its cost is exactly
      the parent's cost plus the step. */
  ghost predicate TreeInv(g: Graph, start: Cell, s: Search) {
    && start in s.closed && s.closed <= s.cost.Keys <= g.cells && s.cost[start] == 0.0
    && forall c {:trigger HangsUnderParent(g, s, c)} :: c in s.cost && c != start ==> HangsUnderParent(g, s, c)
  }

  ghost predicate HangsUnderParent(g: Graph, s: Search, c: Cell)
    requires s.closed <= s.cost.Keys && c in s.cost
  {
    && c in s.cameFrom && s.cameFrom[c] in s.closed && g.step(s.cameFrom[c], c)
    && s.cost[c] == s.cost[s.cameFrom[c]] + g.weight(s.cameFrom[c], c)
  }

  /** No successor of `c` (within `among`) can still be improved through `c`. */
  ghost predicate Settled(g: Graph, cost: map<Cell, real>, c: Cell, among: set<Cell>)
    requires c in cost
  {
    forall m :: m in among && g.step(c, m) ==> m in cost && cost[m] <= cost[c] + g.weight(c, m)
  }

  /** Expanded cells are final, except that `current` has only been relaxed towards `done`. */
  ghost predicate ClosedInv(g: Graph, s: Search, current: Cell, done: set<Cell>) {
    forall c :: c in s.closed ==>
      && c in s.cost && s.cost[c] + g.estimate(c) <= s.bound
      && Settled(g, s.cost, c, if c == current then done else g.cells)
  }

  /** The frontier holds an up-to-date entry for each reached cell not yet expanded. */
  ghost predicate QueueInv(g: Graph, s: Search) {
    forall c :: c in s.cost && c !in s.closed ==> Queued(g, s.frontier, s.cost, c)
  }

  ghost predicate Queued(g: Graph, frontier: set<Entry>, cost: map<Cell, real>, c: Cell)
    requires c in cost
  {
    exists e :: e in frontier && e.cell == c && e.priority == cost[c] + g.estimate(c)
  }

  /** Every entry, stale or not, is an over-estimate at or beyond the last expanded priority. */
  ghost predicate EntryInv(g: Graph, s: Search) {
    forall e :: e in s.frontier ==>
      && e.cell in s.cost && e.serial <= s.serial
      && e.priority >= s.cost[e.cell] + g.estimate(e.cell) && e.priority >= s.bound
  }

  ghost predicate SearchInv(g: Graph, start: Cell, s: Search, current: Cell, done: set<Cell>) {
    TreeInv(g, start, s) && ClosedInv(g, s, current, done) && QueueInv(g, s) && EntryInv(g, s)
  }

  /** The effect of the push at the end of `astar_path`'s inner loop. */
  ghost function Push(g: Graph, s: Search, n: Cell, m: Cell): Search
    requires n in s.cost
  {
    var candidate := s.cost[n] + g.weight(n, m);
    s.(frontier := s.frontier + {Entry(candidate + g.estimate(m), s.serial + 1, m)},
       cameFrom := s.cameFrom[m := n], cost := s.cost[m := candidate], serial := s.serial + 1)
  }

  /** A cell that can still be made cheaper while the freshly closed `n` is expanded has not
      been expanded itself: this is what makes the missing closed set harmless. */
  lemma ImprovableIsOpen(g: Graph, start: Cell, s: Search, n: Cell, done: set<Cell>, m: Cell)
    requires Consistent(g) && SearchInv(g, start, s, n, done)
    requires n in s.closed && s.bound == s.cost[n] + g.estimate(n) && g.step(n, m)
    requires m in s.cost ==> s.cost[n] + g.weight(n, m) < s.cost[m]
    ensures m !in s.closed
  {
  }

  lemma PushKeeps(g: Graph, start: Cell, s: Search, n: Cell, done: set<Cell>, m: Cell)
    requires Consistent(g) && SearchInv(g, start, s, n, done)
    requires n in s.closed && s.bound == s.cost[n] + g.estimate(n) && g.step(n, m)
    requires m in s.cost ==> s.cost[n] + g.weight(n, m) < s.cost[m]
    ensures SearchInv(g, start, Push(g, s, n, m), n, done + {m})
  {
    ImprovableIsOpen(g, start, s, n, done, m);
    PushKeepsTree(g, start, s, n, m);
    PushKeepsClosed(g, s, n, done, m);
    PushKeepsQueue(g, s, n, m);
    PushKeepsEntries(g, s, n, m);
  }

  lemma PushKeepsTree(g: Graph, start: Cell, s: Search, n: Cell, m: Cell)
    requires Consistent(g) && TreeInv(g, start, s) && n in s.closed && m !in s.closed && g.step(n, m)
    ensures TreeInv(g, start, Push(g, s, n, m))
  {
    var s' := Push(g, s, n, m);
    forall c | c in s'.cost && c != start ensures HangsUnderParent(g, s', c) {
      assert c != m ==> HangsUnderParent(g, s, c);
    }
  }

  lemma PushKeepsClosed(g: Graph, s: Search, n: Cell, done: set<Cell>, m: Cell)
    requires ClosedInv(g, s, n, done) && n in s.closed && m !in s.closed && g.step(n, m)
    requires m in s.cost ==> s.cost[n] + g.weight(n, m) < s.cost[m]
    ensures ClosedInv(g, Push(g, s, n, m), n, done + {m})
  {
    var s' := Push(g, s, n, m);
    forall c | c in s.closed
      ensures Settled(g, s'.cost, c, if c == n then done + {m} else g.cells)
    {
      assert Settled(g, s.cost, c, if c == n then done else g.cells);
    }
  }

  lemma PushKeepsQueue(g: Graph, s: Search, n: Cell, m: Cell)
    requires QueueInv(g, s) && n in s.cost
    ensures QueueInv(g, Push(g, s, n, m))
  {
    var s' := Push(g, s, n, m);
    var e := Entry(s'.cost[m] + g.estimate(m), s.serial + 1, m);
    assert e in s'.frontier;
    forall c | c in s'.cost && c !in s.closed ensures Queued(g, s'.frontier, s'.cost, c) {
      assert c != m ==> Queued(g, s.frontier, s.cost, c);
    }
  }

  lemma PushKeepsEntries(g: Graph, s: Search, n: Cell, m: Cell)
    requires Consistent(g) && EntryInv(g, s) && n in s.cost && g.step(n, m)
    requires s.bound == s.cost[n] + g.estimate(n)
    requires m in s.cost ==> s.cost[n] + g.weight(n, m) < s.cost[m]
    ensures EntryInv(g, Push(g, s, n, m))
  {
  }

  /** The irregular first pop: the start, queued with priority 0 instead of its estimate. */
  lemma FirstPop(g: Graph, start: Cell)
    requires start in g.cells
    ensures SearchInv(g, start, Search({}, map[], map[start := 0.0], 0, {start}, g.estimate(start)), start, {})
  {
  }

  /** Popping a cell for the first time: the entry carries its final cost, so the cell may close. */
  lemma FreshPop(g: Graph, start: Cell, s: Search, current: Cell, e: Entry)
    requires SearchInv(g, start, s, current, g.cells) && IsLeast(NotAfter, e, s.frontier) && e.cell !in s.closed
    ensures e.cell in s.cost && e.priority == s.cost[e.cell] + g.estimate(e.cell)
    ensures SearchInv(g, start, s.(frontier := s.frontier - {e}, closed := s.closed + {e.cell}, bound := e.priority),
                      e.cell, {})
  {
    assert Queued(g, s.frontier, s.cost, e.cell);
    var s' := s.(frontier := s.frontier - {e}, closed := s.closed + {e.cell}, bound := e.priority);
    forall c | c in s.cost && c !in s'.closed ensures Queued(g, s'.frontier, s.cost, c) {
      assert Queued(g, s.frontier, s.cost, c);
    }
    forall c | c in s'.closed ensures Settled(g, s.cost, c, if c == e.cell then {} else g.cells) {
      assert c != e.cell ==> Settled(g, s.cost, c, g.cells);
    }
    forall c | c in s.cost && c != start ensures HangsUnderParent(g, s', c) {
      assert HangsUnderParent(g, s, c);
    }
  }

  /** Popping a stale entry changes nothing but the frontier. */
  lemma StalePop(g: Graph, start: Cell, s: Search, current: Cell, e: Entry)
    requires SearchInv(g, start, s, current, g.cells) && e.cell in s.closed
    ensures SearchInv(g, start, s.(frontier := s.frontier - {e}), current, g.cells)
  {
    var s' := s.(frontier := s.frontier - {e});
    forall c | c in s.cost && c !in s.closed ensures Queued(g, s'.frontier, s.cost, c) {
      assert Queued(g, s.frontier, s.cost, c);
    }
    forall c | c in s.cost && c != start ensures HangsUnderParent(g, s', c) {
      assert HangsUnderParent(g, s, c);
    }
  }

  /** While a path runs through expanded cells, the recorded costs undercut it. */
  lemma {:induction false} ClosedPrefixCost(g: Graph, start: Cell, s: Search, current: Cell,
                                            goal: Cell, path: seq<Cell>, i: nat)
    requires Consistent(g) && SearchInv(g, start, s, current, g.cells)
    requires IsPath(g, start, goal, path) && i < |path|
    requires forall j :: 0 <= j < i ==> path[j] in s.closed
    ensures path[i] in s.cost && s.cost[path[i]] <= PathCost(g, path[..i + 1])
  {
    if i > 0 {
      ClosedPrefixCost(g, start, s, current, goal, path, i - 1);
      assert path[..i + 1][..i] == path[..i];
      assert Settled(g, s.cost, path[i - 1], g.cells);
      assert g.step(path[i - 1], path[i - 1 + 1]);
    }
  }

  /** Prefix cost plus estimate never decreases along a path. */
  lemma {:induction false} EstimateAlongPath(g: Graph, start: Cell, goal: Cell, path: seq<Cell>, i: nat, j: nat)
    requires Consistent(g) && IsPath(g, start, goal, path)
    requires i <= j < |path|
    ensures PathCost(g, path[..i + 1]) + g.estimate(path[i]) <= PathCost(g, path[..j + 1]) + g.estimate(path[j])
    decreases j
  {
    if i < j {
      EstimateAlongPath(g, start, goal, path, i, j - 1);
      assert path[..j + 1][..j] == path[..j];
      assert g.step(path[j - 1], path[j - 1 + 1]);
    }
  }

  /** When the goal's entry is the least one and the goal has not been expanded, no path to it
      is cheaper than its recorded cost. */
  lemma GoalCostIsLeast(g: Graph, start: Cell, s: Search, current: Cell, e: Entry, path: seq<Cell>)
    requires Consistent(g) && SearchInv(g, start, s, current, g.cells)
    requires IsLeast(NotAfter, e, s.frontier) && e.cell !in s.closed && e.cell in s.cost
    requires IsPath(g, start, e.cell, path)
    ensures s.cost[e.cell] <= PathCost(g, path)
  {
    var i := FirstOutside(s.closed, path);
    ClosedPrefixCost(g, start, s, current, e.cell, path, i);
    EstimateAlongPath(g, start, e.cell, path, i, |path| - 1);
    assert path[..|path| - 1 + 1] == path;
    QueuedNotBeforeLeast(g, s, e, path[i]);
  }

  lemma QueuedNotBeforeLeast(g: Graph, s: Search, e: Entry, c: Cell)
    requires QueueInv(g, s) && EntryInv(g, s) && IsLeast(NotAfter, e, s.frontier)
    requires c in s.cost && c !in s.closed
    ensures s.cost[e.cell] + g.estimate(e.cell) <= s.cost[c] + g.estimate(c)
  {
    assert Queued(g, s.frontier, s.cost, c);
  }

  lemma FirstOutside(closed: set<Cell>, path: seq<Cell>) returns (i: nat)
    requires |path| > 0 && path[|path| - 1] !in closed
    ensures i < |path| && path[i] !in closed
    ensures forall j :: 0 <= j < i ==> path[j] in closed
  {
    i := 0;
    while path[i] in closed
      invariant i < |path|
      invariant forall j :: 0 <= j < i ==> path[j] in closed
      decreases |path| - i
    {
      i := i + 1;
    }
  }

  /** An exhausted frontier with an unexpanded goal means that no path exists. */
  lemma ExhaustedMeansUnreachable(g: Graph, start: Cell, s: Search, current: Cell, goal: Cell)
    requires Consistent(g) && SearchInv(g, start, s, current, g.cells)
    requires s.frontier == {} && goal !in s.closed
    ensures !Reachable(g, start, goal)
  {
    forall path ensures !IsPath(g, start, goal, path) {
      if IsPath(g, start, goal, path) {
        var i := FirstOutside(s.closed, path);
        ClosedPrefixCost(g, start, s, current, goal, path, i);
        assert false;
      }
    }
  }

  /** A chain of parents running down from the start costs what the search recorded. */
  lemma {:induction false} ChainCost(g: Graph, start: Cell, s: Search, path: seq<Cell>, i: nat)
    requires TreeInv(g, start, s) && IsChain(s, start, path) && i < |path|
    ensures path[i] in s.cost && PathCost(g, path[..i + 1]) == s.cost[path[i]]
    ensures i > 0 ==> g.step(path[i - 1], path[i])
  {
    if i > 0 {
      ChainCost(g, start, s, path, i - 1);
      assert path[..i + 1][..i] == path[..i];
      assert HangsUnderParent(g, s, path[i]);
    }
  }

  ghost predicate IsChain(s: Search, start: Cell, path: seq<Cell>) {
    && |path| > 0 && path[0] == start
    && forall j :: 0 < j < |path| ==>
         path[j] != start && path[j] in s.cost && path[j] in s.cameFrom && s.cameFrom[path[j]] == path[j - 1]
  }

  lemma ChainIsPath(g: Graph, start: Cell, s: Search, path: seq<Cell>)
    requires TreeInv(g, start, s) && IsChain(s, start, path)
    ensures IsPath(g, start, path[|path| - 1], path)
    ensures PathCost(g, path) == s.cost[path[|path| - 1]]
  {
    forall i | 0 <= i < |path| - 1 ensures g.step(path[i], path[i + 1]) {
      ChainCost(g, start, s, path, i + 1);
    }
    ChainCost(g, start, s, path, |path| - 1);
    assert path[..|path| - 1 + 1] == path;
  }
}
