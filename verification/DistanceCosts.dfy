/** `_distance_cost_values` of robot_brain/navigation/grid.py: obstacle costs that fall off with
    the octile distance to the nearest obstacle. */
module DistanceCosts {
  import opened RealMath
  import opened Grid
  import opened Heap
  import opened Neighbourhood
  import opened Dilation
  import opened Wavefront
  import opened WindowDistance
  import opened Octile

  function Index(width: int, c: Cell): int { c.row * width + c.col }

  /** The cost of a cell `distance` away from the nearest obstacle. */
  function CostAt(distance: real, radius: int): int
    requires radius > 0
  {
    if distance <= 0.0 || distance > radius as real then 0
    else Max(1, Min(99, RoundHalfEven(99.0 * (1.0 - distance / radius as real))))
  }

  /** How close to an obstacle a distance is, from a hundredth less than 100 down to nothing. */
  function Nearness(distance: real, radius: int): real
    requires radius > 0
  {
    99.0 * (1.0 - distance / radius as real)
  }

  /** What a cost means. Off the obstacles and within the radius it is at least 1, at most 99, and
      otherwise the nearest whole number to the nearness; on an obstacle and out of range it is 0. */
  lemma CostMeans(distance: real, radius: int)
    requires radius > 0
    ensures distance <= 0.0 || distance > radius as real ==> CostAt(distance, radius) == 0
    ensures 0.0 < distance <= radius as real ==>
      var (cost, nearness) := (CostAt(distance, radius), Nearness(distance, radius));
      && 1 <= cost <= 99 && -0.5 <= cost as real - nearness && (cost as real - nearness <= 0.5 || cost == 1)
  {
    if 0.0 < distance <= radius as real {
      RoundHalfEvenNear(Nearness(distance, radius));
      RatioPositive(distance, radius as real);
    }
  }

  lemma RatioPositive(a: real, b: real)
    requires a > 0.0 && b > 0.0
    ensures a / b > 0.0
  {
  }

  /** Costs never rise with the distance. */
  lemma CostFalls(near: real, far: real, radius: int)
    requires radius > 0 && 0.0 < near <= far
    ensures CostAt(far, radius) <= CostAt(near, radius)
  {
    if far <= radius as real {
      RatioOrder(near, far, radius as real);
      RoundHalfEvenOrder(Nearness(far, radius), Nearness(near, radius));
    }
  }

  lemma RatioOrder(a: real, b: real, c: real)
    requires a <= b && c > 0.0
    ensures a / c <= b / c
  {
    assert (b - a) / c >= 0.0;
    assert (b - a) / c == b / c - a / c;
  }

  function OctileFrom(root2: real): (Cell, Cell) -> real {
    (s, c) => OctileDistance(root2, s, c)
  }

  function StepsOf(root2: real): (Cell, Cell) -> real {
    (a, b) => StepLength(root2, a, b)
  }

  /** The closed form: the cost depends on the least octile distance to an obstacle on the grid. */
  ghost predicate IsObstacleCost(root2: real, sources: set<Cell>, radius: int, c: Cell, cost: int) {
    if sources == {} || radius <= 0 then cost == 0
    else forall d, n :: IsNearest(OctileFrom(root2), sources, c, d, n) ==> cost == CostAt(d, radius)
  }

  lemma RowsApart(width: int, r: int, s: int)
    requires width >= 0 && r < s
    ensures r * width + width <= s * width
  {
    assert (s - r - 1) * width >= 0;
  }

  lemma IndexInjective(width: int, height: int, a: Cell, b: Cell)
    requires InWindow(width, height, a) && InWindow(width, height, b)
    ensures 0 <= Index(width, a) < width * height
    ensures Index(width, a) == Index(width, b) <==> a == b
  {
    assert 0 <= a.row * width;
    RowsApart(width, a.row, height);
    if a.row < b.row {
      RowsApart(width, a.row, b.row);
    } else if b.row < a.row {
      RowsApart(width, b.row, a.row);
    }
  }

  /** A flat table holds one slot for each cell of the window. */
  ghost predicate IsLayout(at: Cell -> int, window: set<Cell>, n: int) {
    && (forall c :: c in window ==> 0 <= at(c) < n)
    && forall c, d :: c in window && d in window && at(c) == at(d) ==> c == d
  }

  lemma RowMajorIsLayout(width: int, height: int, window: set<Cell>)
    requires forall c :: c in window <==> InWindow(width, height, c)
    ensures IsLayout(c => Index(width, c), window, Max(0, width * height))
  {
    forall c, d | c in window && d in window
      ensures 0 <= Index(width, c) < width * height && (Index(width, c) == Index(width, d) ==> c == d)
    {
      IndexInjective(width, height, c, d);
    }
  }

  ghost predicate HoldsDistances(at: Cell -> int, window: set<Cell>, table: seq<Option<real>>, distance: map<Cell, real>) {
    && IsLayout(at, window, |table|)
    && forall c :: c in window ==> table[at(c)] == (if c in distance then Some(distance[c]) else None)
  }

  ghost predicate HoldsCosts(at: Cell -> int, window: set<Cell>, costs: seq<int>, done: map<Cell, int>) {
    && IsLayout(at, window, |costs|)
    && (forall i :: 0 <= i < |costs| ==> 0 <= costs[i] <= 99)
    && forall c :: c in window ==> costs[at(c)] == (if c in done then done[c] else 0)
  }

  lemma NotAfterIsTotal()
    ensures TotalOrder(NotAfter)
  {
  }

  /** The parameters of one call, and where the flat tables keep a cell. */
  datatype Field = Field(width: int, height: int, radius: int, root2: real, at: Cell -> int)

  /** The metric that the relaxation loop walks. */
  ghost predicate Realises(m: Metric, f: Field) {
    && f.radius > 0
    && (forall c :: c in m.window <==> InWindow(f.width, f.height, c))
    && (forall a, b :: m.near(a, b) <==> Adjacent(a, b) && b in m.window)
    && forall a, b :: m.step(a, b) == StepLength(f.root2, a, b)
  }

  /** Queues every obstacle on the grid at distance zero. */
  method Seed(f: Field, occupied: set<Cell>, distances: array<Option<real>>, ghost window: set<Cell>)
    returns (frontier: set<Entry>, ghost distance: map<Cell, real>)
    requires forall c :: c in window <==> InWindow(f.width, f.height, c)
    requires HoldsDistances(f.at, window, distances[..], map[])
    modifies distances
    ensures HoldsDistances(f.at, window, distances[..], distance)
    ensures distance.Keys == occupied * window
    ensures forall c :: c in distance ==> distance[c] == 0.0 && Entry(0.0, c) in frontier
    ensures forall e :: e in frontier ==> e.distance == 0.0 && e.cell in distance
  {
    frontier, distance := {}, map[];
    var rest := occupied;
    while rest != {}
      invariant rest <= occupied && HoldsDistances(f.at, window, distances[..], distance)
      invariant distance.Keys == (occupied - rest) * window
      invariant forall c :: c in distance ==> distance[c] == 0.0 && Entry(0.0, c) in frontier
      invariant forall e :: e in frontier ==> e.distance == 0.0 && e.cell in distance
      decreases rest
    {
      var c :| c in rest;
      rest := rest - {c};
      if !(0 <= c.col < f.width && 0 <= c.row < f.height) {
        continue;
      }
      distances[f.at(c)] := Some(0.0);
      distance := distance[c := 0.0];
      frontier := frontier + {Entry(0.0, c)};
    }
  }

  /** The wave after the first `k` neighbours of `cell` have been relaxed. */
  ghost function Spreading(m: Metric, radius: real, w: Wave, cell: Cell, k: nat): (r: Wave)
    requires k <= |NEIGHBORS| && cell in w.distance
    ensures cell in r.distance && r.distance[cell] == w.distance[cell] && r.done == w.done
  {
    if k == 0 then w else Relaxed(m, radius, Spreading(m, radius, w, cell, k - 1), cell, Shift(cell, NEIGHBORS[k - 1]))
  }

  /** After the first `k` neighbours the wave keeps its invariant, settled towards those. */
  ghost predicate Spreads(m: Metric, radius: real, w: Wave, cell: Cell, k: nat)
    requires k <= |NEIGHBORS| && cell in w.distance
  {
    SpreadInv(m, radius, Spreading(m, radius, w, cell, k), cell, Visited(cell, k))
  }

  lemma {:induction false} SpreadingKeeps(m: Metric, radius: real, w: Wave, cell: Cell, k: nat)
    requires IsMetric(m) && SpreadInv(m, radius, w, cell, {}) && k <= |NEIGHBORS|
    ensures Spreads(m, radius, w, cell, k)
  {
    if k == 0 {
      assert Visited(cell, 0) == {};
    } else {
      SpreadingKeeps(m, radius, w, cell, k - 1);
      SpreadingNext(m, radius, w, cell, k);
    }
  }

  lemma SpreadingNext(m: Metric, radius: real, w: Wave, cell: Cell, k: nat)
    requires IsMetric(m) && 0 < k <= |NEIGHBORS| && cell in w.distance && Spreads(m, radius, w, cell, k - 1)
    ensures Spreads(m, radius, w, cell, k)
  {
    VisitedNext(cell, k - 1);
    RelaxKeepsBoth(m, radius, Spreading(m, radius, w, cell, k - 1), cell, Visited(cell, k - 1), Shift(cell, NEIGHBORS[k - 1]),
                   Spreading(m, radius, w, cell, k), Visited(cell, k));
  }

  lemma RelaxKeepsBoth(m: Metric, radius: real, w: Wave, c: Cell, visited: set<Cell>, b: Cell, after: Wave, more: set<Cell>)
    requires IsMetric(m) && SpreadInv(m, radius, w, c, visited)
    requires after == Relaxed(m, radius, w, c, b) && more == visited + {b}
    ensures SpreadInv(m, radius, after, c, more) && after.done == w.done
  {
    RelaxKeeps(m, radius, w, c, visited, b);
  }

  /** The wave after the least entry `e` has been popped, finished and spread. */
  ghost function Finished(m: Metric, radius: real, w: Wave, e: Entry): Wave
    requires e.cell in w.distance
  {
    Spreading(m, radius, w.(frontier := w.frontier - {e}, done := w.done + {e.cell}), e.cell, |NEIGHBORS|)
  }

  lemma FinishedKeeps(m: Metric, radius: real, w: Wave, e: Entry)
    requires IsMetric(m) && WaveInv(m, radius, w)
    requires forall b :: m.near(e.cell, b) ==> Adjacent(e.cell, b)
    requires IsLeast(NotAfter, e, w.frontier) && e.distance == w.distance[e.cell]
    ensures var r := Finished(m, radius, w, e);
            WaveInv(m, radius, r) && r.done == w.done + {e.cell}
    ensures e.cell !in w.done && e.cell in m.window && e.distance == m.depth(e.cell) <= radius
  {
    Finish(m, radius, w, e);
    var v := w.(frontier := w.frontier - {e}, done := w.done + {e.cell});
    SpreadingKeeps(m, radius, v, e.cell, |NEIGHBORS|);
    forall b | m.near(e.cell, b) ensures b in Visited(e.cell, |NEIGHBORS|) {
      VisitedAll(e.cell, b);
    }
    RelaxedAll(m, radius, Finished(m, radius, w, e), e.cell, Visited(e.cell, |NEIGHBORS|));
  }

  /** Relaxes the eight neighbours of a finished cell. */
  method Spread(f: Field, distances: array<Option<real>>, cell: Cell, distance: real, frontier0: set<Entry>,
                ghost m: Metric, ghost w0: Wave)
    returns (frontier: set<Entry>)
    requires Realises(m, f) && cell in w0.distance && w0.distance[cell] == distance
    requires w0.frontier == frontier0 && HoldsDistances(f.at, m.window, distances[..], w0.distance)
    modifies distances
    ensures var w := Spreading(m, f.radius as real, w0, cell, |NEIGHBORS|);
            w.frontier == frontier && HoldsDistances(f.at, m.window, distances[..], w.distance)
  {
    frontier := frontier0;
    ghost var w := w0;
    for k := 0 to |NEIGHBORS|
      invariant w == Spreading(m, f.radius as real, w0, cell, k) && w.frontier == frontier
      invariant HoldsDistances(f.at, m.window, distances[..], w.distance)
    {
      frontier, w := Relax(f, distances, cell, distance, Shift(cell, NEIGHBORS[k]), frontier, m, w);
    }
  }

  method Relax(f: Field, distances: array<Option<real>>, cell: Cell, distance: real, next: Cell,
               frontier0: set<Entry>, ghost m: Metric, ghost w0: Wave)
    returns (frontier: set<Entry>, ghost w: Wave)
    requires Realises(m, f) && Adjacent(cell, next)
    requires cell in w0.distance && w0.distance[cell] == distance
    requires w0.frontier == frontier0 && HoldsDistances(f.at, m.window, distances[..], w0.distance)
    modifies distances
    ensures w == Relaxed(m, f.radius as real, w0, cell, next) && w.frontier == frontier
    ensures HoldsDistances(f.at, m.window, distances[..], w.distance)
  {
    frontier, w := frontier0, Relaxed(m, f.radius as real, w0, cell, next);
    assert m.near(cell, next) <==> next in m.window;
    var nextDistance := distance + StepLength(f.root2, cell, next);
    assert nextDistance == distance + m.step(cell, next);
    if nextDistance > f.radius as real || !(0 <= next.col < f.width) || !(0 <= next.row < f.height) {
      return;
    }
    var index := f.at(next);
    if distances[index].Some? && nextDistance >= distances[index].value {
      return;
    }
    distances[index] := Some(nextDistance);
    frontier := frontier + {Entry(nextDistance, next)};
  }

  /** The costs to expect of the finished cells. */
  ghost function CostsOf(m: Metric, radius: int, done: set<Cell>): map<Cell, int>
    requires radius > 0
  {
    map c | c in done :: CostAt(m.depth(c), radius)
  }

  /** Records the cost of a popped cell and spreads the wave from it. */
  method Settle(f: Field, distances: array<Option<real>>, costs: array<int>, entry: Entry, frontier0: set<Entry>,
                ghost m: Metric, ghost w: Wave)
    returns (frontier: set<Entry>)
    requires distances as object != costs && Realises(m, f)
    requires entry.cell in w.distance && w.distance[entry.cell] == entry.distance && frontier0 == w.frontier - {entry}
    requires entry.cell in m.window && entry.distance == m.depth(entry.cell) <= f.radius as real
    requires HoldsDistances(f.at, m.window, distances[..], w.distance)
    requires HoldsCosts(f.at, m.window, costs[..], CostsOf(m, f.radius, w.done))
    modifies distances, costs
    ensures var r := Finished(m, f.radius as real, w, entry);
            r.frontier == frontier && HoldsDistances(f.at, m.window, distances[..], r.distance)
    ensures HoldsCosts(f.at, m.window, costs[..], CostsOf(m, f.radius, w.done + {entry.cell}))
  {
    var distance, cell := entry.distance, entry.cell;
    if distance > 0.0 {
      costs[f.at(cell)] := Max(1, Min(99, RoundHalfEven(99.0 * (1.0 - distance / f.radius as real))));
    }
    frontier := Spread(f, distances, cell, distance, frontier0, m,
                       w.(frontier := frontier0, done := w.done + {cell}));
  }

  lemma EntryOnMap(m: Metric, radius: real, w: Wave, e: Entry)
    requires WaveInv(m, radius, w) && e in w.frontier
    ensures e.cell in m.window && e.cell in w.distance && e.distance <= radius
  {
  }

  /** The heap, the distance table and the cost table show the wave `w`. */
  ghost predicate Shows(f: Field, m: Metric, w: Wave, frontier: set<Entry>, distances: seq<Option<real>>, costs: seq<int>)
    requires f.radius > 0
  {
    match w
    case Wave(heap, distance, done) =>
      && heap == frontier && WaveInv(m, f.radius as real, w)
      && HoldsDistances(f.at, m.window, distances, distance)
      && HoldsCosts(f.at, m.window, costs, CostsOf(m, f.radius, done))
  }

  ghost function Unfinished(m: Metric, w: Wave): nat { |m.window - w.done| }

  lemma OneFewer(m: Metric, w: Wave, after: Wave, c: Cell)
    requires c in m.window && c !in w.done && after.done == w.done + {c}
    ensures Unfinished(m, after) < Unfinished(m, w)
  {
    assert m.window - after.done == m.window - w.done - {c};
  }

  /** The body of the loop: a stale entry is dropped, a live one is final. */
  method PopNext(f: Field, distances: array<Option<real>>, costs: array<int>, frontier0: set<Entry>,
                 ghost m: Metric, ghost w0: Wave)
    returns (frontier: set<Entry>, ghost w: Wave)
    requires distances as object != costs && IsMetric(m) && Realises(m, f)
    requires frontier0 != {} && Shows(f, m, w0, frontier0, distances[..], costs[..])
    modifies distances, costs
    ensures Shows(f, m, w, frontier, distances[..], costs[..])
    ensures Unfinished(m, w) < Unfinished(m, w0) || (Unfinished(m, w) == Unfinished(m, w0) && |frontier| < |frontier0|)
  {
    NotAfterIsTotal();
    var entry;
    entry, frontier := Pop(NotAfter, frontier0);
    EntryOnMap(m, f.radius as real, w0, entry);
    if distances[f.at(entry.cell)] != Some(entry.distance) || entry.distance > f.radius as real {
      DropStale(m, f.radius as real, w0, entry);
      w := w0.(frontier := frontier);
      return;
    }
    FinishedKeeps(m, f.radius as real, w0, entry);
    frontier := Settle(f, distances, costs, entry, frontier, m, w0);
    w := Finished(m, f.radius as real, w0, entry);
    OneFewer(m, w0, w, entry.cell);
  }

  ghost function InRange(m: Metric, radius: int): set<Cell> {
    set c | c in m.window && m.depth(c) <= radius as real
  }

  /** A drained heap leaves the costs of exactly the cells in range. */
  lemma Drained(f: Field, costs: seq<int>, m: Metric, w: Wave)
    requires f.radius > 0 && IsMetric(m) && WaveInv(m, f.radius as real, w) && w.frontier == {}
    requires HoldsCosts(f.at, m.window, costs, CostsOf(m, f.radius, w.done))
    ensures HoldsCosts(f.at, m.window, costs, CostsOf(m, f.radius, InRange(m, f.radius)))
  {
    Exhausted(m, f.radius as real, w);
    assert w.done == InRange(m, f.radius);
  }

  /** The seeds are the first wave to show. */
  lemma Launches(f: Field, m: Metric, w: Wave, distances: seq<Option<real>>, costs: seq<int>)
    requires f.radius > 0 && IsMetric(m) && w.done == {} && w.distance.Keys == m.sources
    requires forall c :: c in m.sources ==> w.distance[c] == 0.0 && Entry(0.0, c) in w.frontier
    requires forall e :: e in w.frontier ==> e.distance == 0.0 && e.cell in m.sources
    requires HoldsDistances(f.at, m.window, distances, w.distance) && HoldsCosts(f.at, m.window, costs, map[])
    ensures Shows(f, m, w, w.frontier, distances, costs)
  {
    Launch(m, f.radius as real, w);
    assert CostsOf(m, f.radius, {}) == map[];
  }

  method Propagate(f: Field, distances: array<Option<real>>, costs: array<int>, seeds: set<Entry>,
                   ghost m: Metric, ghost w0: Wave)
    requires distances as object != costs && IsMetric(m) && Realises(m, f)
    requires w0.done == {} && Shows(f, m, w0, seeds, distances[..], costs[..])
    modifies distances, costs
    ensures HoldsCosts(f.at, m.window, costs[..], CostsOf(m, f.radius, InRange(m, f.radius)))
  {
    var frontier := seeds;
    ghost var w := w0;
    while frontier != {}
      invariant Shows(f, m, w, frontier, distances[..], costs[..])
      decreases Unfinished(m, w), |frontier|
    {
      frontier, w := PopNext(f, distances, costs, frontier, m, w);
    }
    Drained(f, costs[..], m, w);
  }

  /** The obstacles that count: those on the grid. */
  function ObstaclesOn(width: int, height: int, occupied: set<Cell>): set<Cell> {
    set c | c in occupied && InWindow(width, height, c)
  }

  /** The whole table agrees with the closed form. */
  ghost predicate IsCostTable(f: Field, sources: set<Cell>, window: set<Cell>, costs: seq<int>) {
    && (forall i :: 0 <= i < |costs| ==> 0 <= costs[i] <= 99)
    && forall c :: c in window ==> 0 <= f.at(c) < |costs| && IsObstacleCost(f.root2, sources, f.radius, c, costs[f.at(c)])
  }

  lemma NoObstacleCosts(f: Field, sources: set<Cell>, window: set<Cell>, costs: seq<int>)
    requires sources == {} || f.radius <= 0
    requires HoldsCosts(f.at, window, costs, map[])
    ensures IsCostTable(f, sources, window, costs)
  {
  }

  method FillCosts(sqrt: real -> real, f: Field, occupied: set<Cell>, distances: array<Option<real>>, costs: array<int>,
                   ghost window: set<Cell>, ghost sources: set<Cell>)
    requires IsSqrt(sqrt) && f.root2 == sqrt(2.0) && distances as object != costs
    requires (forall c :: c in window <==> InWindow(f.width, f.height, c)) && sources == occupied * window
    requires HoldsDistances(f.at, window, distances[..], map[]) && HoldsCosts(f.at, window, costs[..], map[])
    modifies distances, costs
    ensures IsCostTable(f, sources, window, costs[..])
  {
    if occupied == {} || f.radius <= 0 {
      NoObstacleCosts(f, sources, window, costs[..]);
      return;
    }
    var frontier;
    ghost var distance;
    frontier, distance := Seed(f, occupied, distances, window);
    if frontier == {} {
      assert forall c :: c in sources ==> Entry(0.0, c) in frontier;
      NoObstacleCosts(f, sources, window, costs[..]);
      return;
    }
    ghost var m := FieldMetric(sqrt, f, window, sources);
    ghost var w := Wave(frontier, distance, {});
    Launches(f, m, w, distances[..], costs[..]);
    Propagate(f, distances, costs, frontier, m, w);
    CostsAreClosedForm(m, f, sources, costs[..]);
  }

  /** `_distance_cost_values`: every cell gets the cost of its closed-form distance; no obstacle
      on the grid, or a radius of zero, leaves every cost at zero. */
  method DistanceCostValues(sqrt: real -> real, width: int, height: int, occupied: set<Cell>, radius: int)
    returns (values: seq<int>)
    requires IsSqrt(sqrt)
    ensures |values| == Max(0, width * height) && forall i :: 0 <= i < |values| ==> 0 <= values[i] <= 99
    ensures forall c :: InWindow(width, height, c) ==>
              0 <= Index(width, c) < |values|
              && IsObstacleCost(sqrt(2.0), ObstaclesOn(width, height, occupied), radius, c, values[Index(width, c)])
  {
    var n := Max(0, width * height);
    var costs := new int[n](_ => 0);
    var distances := new Option<real>[n](_ => None);
    ghost var window := set col, row | 0 <= col < width && 0 <= row < height :: Cell(col, row);
    var f := Field(width, height, radius, sqrt(2.0), c => Index(width, c));
    RowMajorIsLayout(width, height, window);
    FillCosts(sqrt, f, occupied, distances, costs, window, ObstaclesOn(width, height, occupied));
    values := costs[..];
    assert forall c :: InWindow(width, height, c) ==> c in window && f.at(c) == Index(width, c);
  }

  lemma FieldMetric(sqrt: real -> real, f: Field, window: set<Cell>, sources: set<Cell>) returns (m: Metric)
    requires IsSqrt(sqrt) && f.root2 == sqrt(2.0) && f.radius > 0 && sources != {} && sources <= window
    requires forall c :: c in window <==> InWindow(f.width, f.height, c)
    ensures IsMetric(m) && Realises(m, f) && m.window == window && m.sources == sources
    ensures forall c :: IsNearest(OctileFrom(f.root2), sources, c, m.depth(c), m.rank(c))
  {
    SquareOrder(1.0, sqrt(2.0));
    SquareOrder(sqrt(2.0), 2.0);
    var dist, step := OctileFrom(f.root2), StepsOf(f.root2);
    OctileIsWalkMetric(f.root2);
    m := WindowMetric(dist, step, window, sources);
    WindowMetricHolds(m, dist, step, window, sources, f.width, f.height);
  }

  lemma CostsAreClosedForm(m: Metric, f: Field, sources: set<Cell>, costs: seq<int>)
    requires Realises(m, f) && sources != {}
    requires forall c :: IsNearest(OctileFrom(f.root2), sources, c, m.depth(c), m.rank(c))
    requires HoldsCosts(f.at, m.window, costs, CostsOf(m, f.radius, InRange(m, f.radius)))
    ensures IsCostTable(f, sources, m.window, costs)
  {
    forall c | c in m.window
      ensures 0 <= f.at(c) < |costs| && IsObstacleCost(f.root2, sources, f.radius, c, costs[f.at(c)])
    {
      assert costs[f.at(c)] == CostAt(m.depth(c), f.radius);
      NearestIsUnique(OctileFrom(f.root2), sources, c, m.depth(c), m.rank(c));
    }
  }

  lemma NearestIsUnique(dist: (Cell, Cell) -> real, sources: set<Cell>, c: Cell, depth: real, rank: int)
    requires IsNearest(dist, sources, c, depth, rank)
    ensures forall d, n :: IsNearest(dist, sources, c, d, n) ==> d == depth
  {
  }
}
