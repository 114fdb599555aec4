/** Distances to a set of source cells on a rectangular window, for any metric of
    eight-neighbour steps. */
module WindowDistance {
  import opened RealMath
  import opened Grid
  import opened Heap
  import opened Neighbourhood
  import opened Dilation
  import opened Wavefront

  /** The neighbour of `c` on the way to `s`. */
  function StepTo(s: Cell, c: Cell): Cell {
    Cell(Closer(s.col, c.col), Closer(s.row, c.row))
  }

  function Closer(s: int, x: int): int { if x < s then x + 1 else if x > s then x - 1 else x }

  function KingDistance(a: Cell, b: Cell): int {
    Max(Abs(b.col - a.col), Abs(b.row - a.row))
  }

  ghost predicate IsWalkMetric(dist: (Cell, Cell) -> real, step: (Cell, Cell) -> real) {
    && (forall s, c :: dist(s, c) >= 0.0 && (dist(s, c) == 0.0 <==> s == c))
    && (forall s, a, b {:trigger step(a, b), dist(s, a)} {:trigger step(a, b), dist(s, b)} ::
          Adjacent(a, b) ==> step(a, b) > 0.0 && dist(s, b) <= dist(s, a) + step(a, b))
    && (forall s, c {:trigger StepTo(s, c)} :: s != c ==> dist(s, c) == dist(s, StepTo(s, c)) + step(StepTo(s, c), c))
  }

  lemma TowardIsCloser(s: Cell, c: Cell)
    requires s != c
    ensures Adjacent(StepTo(s, c), c) && KingDistance(s, StepTo(s, c)) == KingDistance(s, c) - 1
  {
  }

  /** `depth` is the least distance from a source to `c`; among the sources at that distance,
      the one fewest moves away is `rank` moves away. */
  ghost predicate IsNearest(dist: (Cell, Cell) -> real, sources: set<Cell>, c: Cell, depth: real, rank: int) {
    && (exists s :: s in sources && depth == dist(s, c) && rank == KingDistance(s, c))
    && forall s :: s in sources ==> depth <= dist(s, c) && (depth == dist(s, c) ==> rank <= KingDistance(s, c))
  }

  lemma NearestExists(dist: (Cell, Cell) -> real, sources: set<Cell>, c: Cell)
    requires sources != {}
    ensures exists depth, rank: nat :: IsNearest(dist, sources, c, depth, rank)
  {
    var nearer := (s: Cell, t: Cell) =>
      dist(s, c) < dist(t, c) || (dist(s, c) == dist(t, c) && KingDistance(s, c) <= KingDistance(t, c));
    LeastExists(nearer, sources);
    var s :| IsLeast(nearer, s, sources);
    forall t | t in sources ensures dist(s, c) <= dist(t, c) && (dist(s, c) == dist(t, c) ==> KingDistance(s, c) <= KingDistance(t, c)) {
      assert nearer(s, t);
    }
    assert KingDistance(s, c) >= 0;
    assert IsNearest(dist, sources, c, dist(s, c), KingDistance(s, c));
  }

  ghost function NearestOf(dist: (Cell, Cell) -> real, sources: set<Cell>, c: Cell): (real, nat)
    requires sources != {}
  {
    NearestExists(dist, sources, c);
    var depth, rank: nat :| IsNearest(dist, sources, c, depth, rank);
    (depth, rank)
  }

  ghost predicate MeasuresWindow(m: Metric, dist: (Cell, Cell) -> real, step: (Cell, Cell) -> real,
                                 window: set<Cell>, sources: set<Cell>)
  {
    && m.window == window && m.sources == sources
    && (forall a, b :: m.near(a, b) <==> Adjacent(a, b) && b in window)
    && (forall a, b :: m.step(a, b) == step(a, b))
    && forall c :: IsNearest(dist, sources, c, m.depth(c), m.rank(c))
  }

  lemma WindowMetric(dist: (Cell, Cell) -> real, step: (Cell, Cell) -> real, window: set<Cell>, sources: set<Cell>)
    returns (m: Metric)
    requires sources != {}
    ensures MeasuresWindow(m, dist, step, window, sources)
  {
    var near := (a, b) => Adjacent(a, b) && b in window;
    var depth := c => NearestOf(dist, sources, c).0;
    var rank := c => NearestOf(dist, sources, c).1;
    m := Metric(window, sources, near, step, depth, rank);
    forall c ensures IsNearest(dist, sources, c, depth(c), rank(c)) {
      NearestExists(dist, sources, c);
    }
  }

  /** On a rectangular window, the distance to the closest source is the shortest-path metric of
      the eight-neighbour steps: walking straight towards it never leaves the rectangle. */
  lemma WindowMetricHolds(m: Metric, dist: (Cell, Cell) -> real, step: (Cell, Cell) -> real,
                          window: set<Cell>, sources: set<Cell>, width: int, height: int)
    requires IsWalkMetric(dist, step) && sources <= window && MeasuresWindow(m, dist, step, window, sources)
    requires forall c :: c in window <==> InWindow(width, height, c)
    ensures IsMetric(m)
  {
    forall c | c in window ensures m.depth(c) >= 0.0 && (c in sources <==> m.depth(c) == 0.0) {
      assert IsNearest(dist, sources, c, m.depth(c), m.rank(c));
      assert dist(c, c) == 0.0;
    }
    forall a, b | a in window && m.near(a, b)
      ensures b in window && m.step(a, b) > 0.0 && m.depth(b) <= m.depth(a) + m.step(a, b)
    {
      DepthStep(m, dist, step, window, sources, a, b);
    }
    forall c | c in window && c !in sources ensures HasPredecessor(m, c) {
      DepthToward(m, dist, step, window, sources, width, height, c);
    }
  }

  lemma DepthStep(m: Metric, dist: (Cell, Cell) -> real, step: (Cell, Cell) -> real,
                  window: set<Cell>, sources: set<Cell>, a: Cell, b: Cell)
    requires IsWalkMetric(dist, step) && MeasuresWindow(m, dist, step, window, sources) && Adjacent(a, b)
    ensures m.step(a, b) == step(a, b) > 0.0 && m.depth(b) <= m.depth(a) + step(a, b)
  {
    assert IsNearest(dist, sources, a, m.depth(a), m.rank(a)) && IsNearest(dist, sources, b, m.depth(b), m.rank(b));
    var s :| s in sources && m.depth(a) == dist(s, a) && m.rank(a) == KingDistance(s, a);
    assert dist(s, b) <= dist(s, a) + step(a, b);
  }

  lemma DepthToward(m: Metric, dist: (Cell, Cell) -> real, step: (Cell, Cell) -> real,
                    window: set<Cell>, sources: set<Cell>, width: int, height: int, c: Cell)
    requires IsWalkMetric(dist, step) && sources <= window && MeasuresWindow(m, dist, step, window, sources)
    requires forall x :: x in window <==> InWindow(width, height, x)
    requires c in window && c !in sources
    ensures HasPredecessor(m, c)
  {
    assert IsNearest(dist, sources, c, m.depth(c), m.rank(c));
    var s :| s in sources && m.depth(c) == dist(s, c) && m.rank(c) == KingDistance(s, c);
    var p := StepTo(s, c);
    TowardIsCloser(s, c);
    assert InWindow(width, height, s) && InWindow(width, height, c) && InWindow(width, height, p);
    DepthStep(m, dist, step, window, sources, p, c);
    assert IsNearest(dist, sources, p, m.depth(p), m.rank(p));
    assert IsPredecessor(m, p, c);
  }
}
