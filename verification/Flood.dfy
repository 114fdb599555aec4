/** Connectedness of cells, and what a breadth-first flood keeps. */
module Flood {
  import opened Grid

  /** A walk from `a` to `c` by `near` steps that enters only allowed cells. */
  ghost predicate IsWalkTo(near: (Cell, Cell) -> bool, allowed: set<Cell>, a: Cell, c: Cell, walk: seq<Cell>) {
    && |walk| > 0 && walk[0] == a && walk[|walk| - 1] == c
    && (forall i :: 0 <= i < |walk| - 1 ==> near(walk[i], walk[i + 1]))
    && forall i :: 0 < i < |walk| ==> walk[i] in allowed
  }

  ghost predicate Linked(near: (Cell, Cell) -> bool, allowed: set<Cell>, a: Cell, c: Cell) {
    exists walk :: IsWalkTo(near, allowed, a, c, walk)
  }

  lemma LinkedToItself(near: (Cell, Cell) -> bool, allowed: set<Cell>, a: Cell)
    ensures Linked(near, allowed, a, a)
  {
    assert IsWalkTo(near, allowed, a, a, [a]);
  }

  lemma LinkedStep(near: (Cell, Cell) -> bool, allowed: set<Cell>, a: Cell, b: Cell, c: Cell)
    requires Linked(near, allowed, a, b) && near(b, c) && c in allowed
    ensures Linked(near, allowed, a, c)
  {
    var walk :| IsWalkTo(near, allowed, a, b, walk);
    assert IsWalkTo(near, allowed, a, c, walk + [c]);
  }

  /** A set that holds the start and every allowed neighbour of its members holds all linked cells. */
  lemma {:induction false} ClosedHoldsWalk(near: (Cell, Cell) -> bool, allowed: set<Cell>, reached: set<Cell>,
                                           a: Cell, c: Cell, walk: seq<Cell>)
    requires a in reached && IsWalkTo(near, allowed, a, c, walk)
    requires forall b, d :: b in reached && d in allowed && near(b, d) ==> d in reached
    ensures c in reached
    decreases |walk|
  {
    if |walk| > 1 {
      var shorter := walk[..|walk| - 1];
      var b := walk[|walk| - 2];
      assert near(walk[|walk| - 2], walk[|walk| - 2 + 1]);
      assert IsWalkTo(near, allowed, a, b, shorter);
      ClosedHoldsWalk(near, allowed, reached, a, b, shorter);
    }
  }

  lemma ClosedHoldsLinked(near: (Cell, Cell) -> bool, allowed: set<Cell>, reached: set<Cell>, a: Cell)
    requires a in reached
    requires forall b, d :: b in reached && d in allowed && near(b, d) ==> d in reached
    ensures forall c :: Linked(near, allowed, a, c) ==> c in reached
  {
    forall c | Linked(near, allowed, a, c) ensures c in reached {
      var walk :| IsWalkTo(near, allowed, a, c, walk);
      ClosedHoldsWalk(near, allowed, reached, a, c, walk);
    }
  }

  lemma LinkedInLarger(near: (Cell, Cell) -> bool, allowed: set<Cell>, larger: set<Cell>, a: Cell, c: Cell)
    requires allowed <= larger && Linked(near, allowed, a, c)
    ensures Linked(near, larger, a, c)
  {
    var walk :| IsWalkTo(near, allowed, a, c, walk);
    assert IsWalkTo(near, larger, a, c, walk);
  }

  /** Linkage in a subset that is closed under allowed neighbours is linkage. */
  lemma {:induction false} LinkedInClosed(near: (Cell, Cell) -> bool, allowed: set<Cell>, part: set<Cell>,
                                          a: Cell, c: Cell, walk: seq<Cell>)
    requires a in part && part <= allowed && IsWalkTo(near, allowed, a, c, walk)
    requires forall b, d :: b in part && d in allowed && near(b, d) ==> d in part
    ensures Linked(near, part, a, c) && c in part
    decreases |walk|
  {
    if |walk| == 1 {
      LinkedToItself(near, part, a);
    } else {
      var shorter := walk[..|walk| - 1];
      var b := walk[|walk| - 2];
      assert near(walk[|walk| - 2], walk[|walk| - 2 + 1]);
      LinkedInClosed(near, allowed, part, a, b, shorter);
      LinkedStep(near, part, a, b, c);
    }
  }

  /** The flood's state: everything reached is linked, and only queued cells still have
      neighbours to look at. */
  ghost predicate FloodInv(near: (Cell, Cell) -> bool, allowed: set<Cell>, start: Cell, reached: set<Cell>, queue: seq<Cell>) {
    && start in reached && reached <= allowed + {start}
    && (forall c :: c in queue ==> c in reached)
    && (forall c :: c in reached ==> Linked(near, allowed, start, c))
    && forall b, d :: b in reached && b !in queue && d in allowed && near(b, d) ==> d in reached
  }

  /** The flood's state while the neighbours of `current` are being looked at. */
  ghost predicate LookInv(near: (Cell, Cell) -> bool, allowed: set<Cell>, start: Cell, reached: set<Cell>, queue: seq<Cell>,
                          current: Cell)
  {
    && start in reached && current in reached && reached <= allowed + {start}
    && (forall c :: c in queue ==> c in reached)
    && (forall c :: c in reached ==> Linked(near, allowed, start, c))
    && forall b, d :: b in reached && b !in queue && b != current && d in allowed && near(b, d) ==> d in reached
  }

  lemma FloodStarts(near: (Cell, Cell) -> bool, allowed: set<Cell>, start: Cell)
    ensures FloodInv(near, allowed, start, {start}, [start])
  {
    LinkedToItself(near, allowed, start);
  }

  lemma FloodPops(near: (Cell, Cell) -> bool, allowed: set<Cell>, start: Cell, reached: set<Cell>, queue: seq<Cell>)
    requires FloodInv(near, allowed, start, reached, queue) && queue != []
    ensures LookInv(near, allowed, start, reached, queue[1..], queue[0])
  {
    forall b | b in queue ensures b == queue[0] || b in queue[1..] {
    }
  }

  lemma FloodAdds(near: (Cell, Cell) -> bool, allowed: set<Cell>, start: Cell, reached: set<Cell>, queue: seq<Cell>,
                  current: Cell, next: Cell)
    requires LookInv(near, allowed, start, reached, queue, current) && near(current, next) && next in allowed
    ensures LookInv(near, allowed, start, reached + {next}, queue + [next], current)
  {
    LinkedStep(near, allowed, start, current, next);
    assert forall c :: c in queue + [next] <==> c in queue || c == next;
  }

  lemma FloodResumes(near: (Cell, Cell) -> bool, allowed: set<Cell>, start: Cell, reached: set<Cell>, queue: seq<Cell>,
                     current: Cell)
    requires LookInv(near, allowed, start, reached, queue, current)
    requires forall d :: d in allowed && near(current, d) ==> d in reached
    ensures FloodInv(near, allowed, start, reached, queue)
  {
  }

  lemma FloodEnds(near: (Cell, Cell) -> bool, allowed: set<Cell>, start: Cell, reached: set<Cell>)
    requires FloodInv(near, allowed, start, reached, [])
    ensures forall c :: c in reached <==> Linked(near, allowed, start, c)
  {
    ClosedHoldsLinked(near, allowed, reached, start);
  }
}
