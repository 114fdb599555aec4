/** The eight neighbours of a grid cell, in the order in which the planners enumerate them. */
module Neighbourhood {
  import opened Grid

  /** The fixed order in which `_NEIGHBORS` enumerates column and row offsets. */
  const NEIGHBORS: seq<(int, int)> :=
    [(-1, -1), (-1, 0), (-1, 1), (0, -1), (0, 1), (1, -1), (1, 0), (1, 1)]

  predicate Adjacent(a: Cell, b: Cell) {
    a != b && -1 <= b.col - a.col <= 1 && -1 <= b.row - a.row <= 1
  }

  predicate Diagonal(a: Cell, b: Cell) {
    a.col != b.col && a.row != b.row
  }

  function StepLength(root2: real, a: Cell, b: Cell): real {
    if Diagonal(a, b) then root2 else 1.0
  }

  ghost function Visited(c: Cell, k: nat): set<Cell>
    requires k <= |NEIGHBORS|
  {
    set i | 0 <= i < k :: Shift(c, NEIGHBORS[i])
  }

  lemma VisitedNext(c: Cell, k: nat)
    requires k < |NEIGHBORS|
    ensures Visited(c, k + 1) == Visited(c, k) + {Shift(c, NEIGHBORS[k])}
  {
  }

  lemma VisitedAll(c: Cell, m: Cell)
    requires Adjacent(c, m)
    ensures m in Visited(c, |NEIGHBORS|)
  {
    var place := 3 * (m.col - c.col + 1) + (m.row - c.row + 1);
    var i := if place < 4 then place else place - 1;
    assert NEIGHBORS[i] == (m.col - c.col, m.row - c.row);
    assert m == Shift(c, NEIGHBORS[i]);
  }
}
