/** The octile metric: the closed form of shortest eight-neighbour distances on an open window. */
module Octile {
  import opened RealMath
  import opened Grid
  import opened Neighbourhood
  import opened WindowDistance

  /** Straight moves for the difference of the offsets, diagonal ones for what they share. */
  function OctileOffset(root2: real, dx: int, dy: int): real {
    (Max(dx, dy) - Min(dx, dy)) as real + root2 * Min(dx, dy) as real
  }

  function OctileDistance(root2: real, a: Cell, b: Cell): real {
    OctileOffset(root2, Abs(b.col - a.col), Abs(b.row - a.row))
  }

  /** One step changes the octile distance by at most its own length. */
  lemma OctileStep(root2: real, s: Cell, a: Cell, b: Cell)
    requires 1.0 <= root2 <= 2.0 && Adjacent(a, b)
    ensures OctileDistance(root2, s, b) <= OctileDistance(root2, s, a) + StepLength(root2, a, b)
  {
    OffsetStep(root2, Abs(a.col - s.col), Abs(a.row - s.row), Abs(b.col - s.col), Abs(b.row - s.row));
  }

  lemma OffsetStep(root2: real, x: int, y: int, u: int, v: int)
    requires 1.0 <= root2 <= 2.0 && x >= 0 && y >= 0 && u >= 0 && v >= 0
    requires -1 <= u - x <= 1 && -1 <= v - y <= 1 && (u != x || v != y)
    ensures OctileOffset(root2, u, v) <= OctileOffset(root2, x, y) + (if u != x && v != y then root2 else 1.0)
  {
    Product(root2, Min(x, y), Min(u, v));
    OffsetStepLinear(root2, x, y, u, v, root2 * Min(x, y) as real, root2 * Min(u, v) as real);
  }

  lemma OffsetStepLinear(root2: real, x: int, y: int, u: int, v: int, p: real, q: real)
    requires 1.0 <= root2 <= 2.0 && x >= 0 && y >= 0 && u >= 0 && v >= 0
    requires -1 <= u - x <= 1 && -1 <= v - y <= 1 && (u != x || v != y)
    requires var m, n := Min(x, y), Min(u, v); q == p + (if n == m then 0.0 else if n == m + 1 then root2 else -root2)
    ensures (Max(u, v) - Min(u, v)) as real + q
            <= (Max(x, y) - Min(x, y)) as real + p + (if u != x && v != y then root2 else 1.0)
  {
  }

  lemma Product(root2: real, m: int, n: int)
    requires -1 <= n - m <= 1
    ensures root2 * n as real == root2 * m as real + (if n == m then 0.0 else if n == m + 1 then root2 else -root2)
  {
    assert n as real == m as real + (n - m) as real;
  }

  lemma OctileToward(root2: real, s: Cell, c: Cell)
    requires s != c
    ensures var p := StepTo(s, c);
            OctileDistance(root2, s, c) == OctileDistance(root2, s, p) + StepLength(root2, p, c)
  {
    var p := StepTo(s, c);
    OffsetToward(root2, Abs(p.col - s.col), Abs(p.row - s.row), Abs(c.col - s.col), Abs(c.row - s.row));
  }

  lemma OffsetToward(root2: real, x: int, y: int, u: int, v: int)
    requires x == (if u > 0 then u - 1 else u) && y == (if v > 0 then v - 1 else v) && u >= 0 && v >= 0 && u + v > 0
    ensures OctileOffset(root2, u, v) == OctileOffset(root2, x, y) + (if u > 0 && v > 0 then root2 else 1.0)
  {
    Product(root2, Min(x, y), Min(u, v));
    OffsetTowardLinear(root2, x, y, u, v, root2 * Min(x, y) as real, root2 * Min(u, v) as real);
  }

  lemma OffsetTowardLinear(root2: real, x: int, y: int, u: int, v: int, p: real, q: real)
    requires x == (if u > 0 then u - 1 else u) && y == (if v > 0 then v - 1 else v) && u >= 0 && v >= 0 && u + v > 0
    requires var m, n := Min(x, y), Min(u, v); q == p + (if n == m then 0.0 else if n == m + 1 then root2 else -root2)
    ensures (Max(u, v) - Min(u, v)) as real + q
            == (Max(x, y) - Min(x, y)) as real + p + (if u > 0 && v > 0 then root2 else 1.0)
  {
  }

  lemma OctileNonnegative(root2: real, s: Cell, c: Cell)
    requires root2 >= 1.0
    ensures OctileDistance(root2, s, c) >= 0.0 && (OctileDistance(root2, s, c) == 0.0 <==> s == c)
  {
    var m := Min(Abs(c.col - s.col), Abs(c.row - s.row));
    assert root2 * m as real >= m as real;
  }

  /** The octile distance as a metric of eight-neighbour steps: no step covers more than its
      length, and the step towards a cell covers exactly its length. */
  lemma OctileIsWalkMetric(root2: real)
    requires 1.0 <= root2 <= 2.0
    ensures IsWalkMetric((s, c) => OctileDistance(root2, s, c), (a, b) => StepLength(root2, a, b))
  {
    var dist := (s, c) => OctileDistance(root2, s, c);
    var step := (a, b) => StepLength(root2, a, b);
    forall s, c ensures dist(s, c) >= 0.0 && (dist(s, c) == 0.0 <==> s == c) {
      OctileNonnegative(root2, s, c);
    }
    forall s, a, b | Adjacent(a, b) ensures step(a, b) > 0.0 && dist(s, b) <= dist(s, a) + step(a, b) {
      OctileStep(root2, s, a, b);
    }
    forall s, c | s != c ensures dist(s, c) == dist(s, StepTo(s, c)) + step(StepTo(s, c), c) {
      OctileToward(root2, s, c);
    }
  }
}
