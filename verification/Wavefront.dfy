/** The bounded multi-source Dijkstra of `_distance_cost_values`, over any metric on cells. */
module Wavefront {
  import opened Grid
  import opened Heap

  /** `depth` is the closed form that the wave is claimed to compute; `rank` counts steps back
      to a source. */
  datatype Metric = Metric(window: set<Cell>, sources: set<Cell>, near: (Cell, Cell) -> bool,
                           step: (Cell, Cell) -> real, depth: Cell -> real, rank: Cell -> nat)

  /** `depth` is the shortest-path metric of the steps: zero exactly on the sources, never
      dropping faster than a step is long, and reached by a step from some nearer cell. */
  ghost predicate IsMetric(m: Metric) {
    m.sources <= m.window && ZeroOnSources(m) && StepsBoundDepth(m) && HasPredecessors(m)
  }

  ghost predicate ZeroOnSources(m: Metric) {
    forall c :: c in m.window ==> m.depth(c) >= 0.0 && (c in m.sources <==> m.depth(c) == 0.0)
  }

  ghost predicate StepsBoundDepth(m: Metric) {
    forall a, b :: a in m.window && m.near(a, b) ==>
      b in m.window && m.step(a, b) > 0.0 && m.depth(b) <= m.depth(a) + m.step(a, b)
  }

  ghost predicate HasPredecessors(m: Metric) {
    forall c {:trigger HasPredecessor(m, c)} :: c in m.window && c !in m.sources ==> HasPredecessor(m, c)
  }

  ghost predicate HasPredecessor(m: Metric, c: Cell) {
    exists p :: IsPredecessor(m, p, c)
  }

  ghost predicate IsPredecessor(m: Metric, p: Cell, c: Cell) {
    p in m.window && m.near(p, c) && m.rank(p) < m.rank(c) && m.depth(c) == m.depth(p) + m.step(p, c)
  }

  /** A heap row, ordered as the Python tuple (distance, col, row). */
  datatype Entry = Entry(distance: real, cell: Cell)

  predicate NotAfter(a: Entry, b: Entry) {
    || a.distance < b.distance
    || (a.distance == b.distance && (a.cell.col < b.cell.col || (a.cell.col == b.cell.col && a.cell.row <= b.cell.row)))
  }

  /** The loop's heap and its distance table (absent means infinite), with the ghost set of
      cells already given their final distance. */
  datatype Wave = Wave(frontier: set<Entry>, distance: map<Cell, real>, done: set<Cell>)

  ghost predicate DistanceInv(m: Metric, radius: real, w: Wave) {
    && m.sources <= w.distance.Keys <= m.window && w.done <= w.distance.Keys
    && (forall c :: c in m.sources ==> w.distance[c] == 0.0)
    && (forall c :: c in w.distance ==> m.depth(c) <= w.distance[c])
    && (forall c :: c in w.done ==> w.distance[c] == m.depth(c) <= radius)
    && (forall e :: e in w.frontier ==> e.cell in w.distance && w.distance[e.cell] <= e.distance <= radius)
  }

  /** A cell waits in the heap under its current distance until it is done, and never after. */
  ghost predicate QueueInv(w: Wave) {
    forall c :: c in w.distance ==> (c in w.done <==> Entry(w.distance[c], c) !in w.frontier)
  }

  ghost predicate Settled(m: Metric, radius: real, w: Wave, c: Cell, among: set<Cell>)
    requires c in w.distance
  {
    forall b :: b in among && m.near(c, b) && w.distance[c] + m.step(c, b) <= radius ==>
      b in w.distance && w.distance[b] <= w.distance[c] + m.step(c, b)
  }

  ghost predicate SettledInv(m: Metric, radius: real, w: Wave)
    requires w.done <= w.distance.Keys
  {
    forall c :: c in w.done ==> Settled(m, radius, w, c, m.window)
  }

  /** Between pops. */
  ghost predicate WaveInv(m: Metric, radius: real, w: Wave) {
    DistanceInv(m, radius, w) && QueueInv(w) && SettledInv(m, radius, w)
  }

  /** While `current`, already done, has been relaxed towards `visited` only. */
  ghost predicate SpreadInv(m: Metric, radius: real, w: Wave, current: Cell, visited: set<Cell>) {
    && DistanceInv(m, radius, w) && QueueInv(w) && current in w.done
    && (forall c :: c in w.done && c != current ==> Settled(m, radius, w, c, m.window))
    && Settled(m, radius, w, current, visited)
  }

  lemma Launch(m: Metric, radius: real, w: Wave)
    requires IsMetric(m) && radius >= 0.0
    requires w.done == {} && w.distance.Keys == m.sources
    requires forall c :: c in m.sources ==> w.distance[c] == 0.0 && Entry(0.0, c) in w.frontier
    requires forall e :: e in w.frontier ==> e.distance == 0.0 && e.cell in m.sources
    ensures WaveInv(m, radius, w)
  {
  }

  /** Lazy deletion: an entry that no longer carries its cell's distance can be dropped. */
  lemma DropStale(m: Metric, radius: real, w: Wave, e: Entry)
    requires WaveInv(m, radius, w)
    requires e in w.frontier && e.distance != w.distance[e.cell]
    ensures WaveInv(m, radius, w.(frontier := w.frontier - {e}))
  {
    var w' := w.(frontier := w.frontier - {e});
    forall c | c in w.done ensures Settled(m, radius, w', c, m.window) {
      assert Settled(m, radius, w, c, m.window);
    }
  }

  /** Pruning by the radius loses nothing: every cell within it is done, or something at most as
      far away still waits in the heap. */
  lemma {:induction false} NothingLost(m: Metric, radius: real, w: Wave, c: Cell)
    requires IsMetric(m) && WaveInv(m, radius, w)
    requires c in m.window && m.depth(c) <= radius
    ensures c in w.done || exists e :: e in w.frontier && e.distance <= m.depth(c)
    decreases m.rank(c)
  {
    if c in m.sources {
      assert c in w.done || Entry(w.distance[c], c) in w.frontier;
    } else {
      assert HasPredecessor(m, c);
      var p :| IsPredecessor(m, p, c);
      NothingLost(m, radius, w, p);
      if p in w.done {
        assert Settled(m, radius, w, p, m.window);
        assert w.distance[c] == m.depth(c);
        assert c !in w.done ==> Entry(w.distance[c], c) in w.frontier;
      }
    }
  }

  /** The least entry, when it still carries its cell's distance, carries the true one. */
  lemma Finish(m: Metric, radius: real, w: Wave, e: Entry)
    requires IsMetric(m) && WaveInv(m, radius, w)
    requires IsLeast(NotAfter, e, w.frontier) && e.distance == w.distance[e.cell]
    ensures e.cell !in w.done && e.distance == m.depth(e.cell)
    ensures SpreadInv(m, radius, w.(frontier := w.frontier - {e}, done := w.done + {e.cell}), e.cell, {})
  {
    NothingLost(m, radius, w, e.cell);
    var w' := w.(frontier := w.frontier - {e}, done := w.done + {e.cell});
    forall c | c in w.done ensures Settled(m, radius, w', c, m.window) {
      assert Settled(m, radius, w, c, m.window);
    }
  }

  /** One round of the inner loop: a neighbour within the radius that gets strictly nearer is pushed. */
  ghost function Relaxed(m: Metric, radius: real, w: Wave, c: Cell, b: Cell): Wave
    requires c in w.distance
  {
    var next := w.distance[c] + m.step(c, b);
    if m.near(c, b) && next <= radius && (b in w.distance ==> next < w.distance[b])
    then w.(frontier := w.frontier + {Entry(next, b)}, distance := w.distance[b := next])
    else w
  }

  lemma RelaxKeeps(m: Metric, radius: real, w: Wave, c: Cell, visited: set<Cell>, b: Cell)
    requires IsMetric(m) && SpreadInv(m, radius, w, c, visited)
    ensures SpreadInv(m, radius, Relaxed(m, radius, w, c, b), c, visited + {b})
    ensures Relaxed(m, radius, w, c, b).done == w.done
  {
    RelaxKeepsDistances(m, radius, w, c, b);
    RelaxKeepsQueue(m, radius, w, c, b);
    forall a | a in w.done && a != c ensures Settled(m, radius, Relaxed(m, radius, w, c, b), a, m.window) {
      RelaxKeepsSettled(m, radius, w, c, m.window, b, a);
    }
    RelaxKeepsSettled(m, radius, w, c, visited, b, c);
  }

  lemma RelaxKeepsDistances(m: Metric, radius: real, w: Wave, c: Cell, b: Cell)
    requires IsMetric(m) && DistanceInv(m, radius, w) && c in w.done
    ensures var w' := Relaxed(m, radius, w, c, b);
            DistanceInv(m, radius, w') && (w' != w ==> b !in w.done)
            && forall a :: a in w.done ==> w'.distance[a] == w.distance[a]
  {
  }

  lemma RelaxKeepsQueue(m: Metric, radius: real, w: Wave, c: Cell, b: Cell)
    requires QueueInv(w) && c in w.distance && (Relaxed(m, radius, w, c, b) != w ==> b !in w.done)
    ensures QueueInv(Relaxed(m, radius, w, c, b))
  {
    if Relaxed(m, radius, w, c, b) != w {
      PushKeepsQueue(w, b, w.distance[c] + m.step(c, b));
    }
  }

  lemma PushKeepsQueue(w: Wave, b: Cell, next: real)
    requires QueueInv(w) && b !in w.done
    ensures QueueInv(w.(frontier := w.frontier + {Entry(next, b)}, distance := w.distance[b := next]))
  {
    var w' := w.(frontier := w.frontier + {Entry(next, b)}, distance := w.distance[b := next]);
    forall x | x in w'.distance ensures x in w.done <==> Entry(w'.distance[x], x) !in w'.frontier {
      if x != b {
        assert x in w.distance && (x in w.done <==> Entry(w.distance[x], x) !in w.frontier);
      }
    }
  }

  lemma RelaxKeepsSettled(m: Metric, radius: real, w: Wave, c: Cell, visited: set<Cell>, b: Cell, a: Cell)
    requires c in w.distance && a in w.distance && Settled(m, radius, w, a, visited)
    requires var w' := Relaxed(m, radius, w, c, b); w'.distance[a] == w.distance[a] && w'.distance[c] == w.distance[c]
    ensures Settled(m, radius, Relaxed(m, radius, w, c, b), a, if a == c then visited + {b} else visited)
  {
  }

  lemma RelaxedAll(m: Metric, radius: real, w: Wave, c: Cell, visited: set<Cell>)
    requires SpreadInv(m, radius, w, c, visited)
    requires forall b :: m.near(c, b) ==> b in visited
    ensures WaveInv(m, radius, w)
  {
    assert Settled(m, radius, w, c, m.window);
  }

  /** When the heap runs dry, exactly the cells within the radius have been given a distance. */
  lemma Exhausted(m: Metric, radius: real, w: Wave)
    requires IsMetric(m) && WaveInv(m, radius, w) && w.frontier == {}
    ensures w.done == set c | c in m.window && m.depth(c) <= radius
  {
    forall c | c in m.window && m.depth(c) <= radius ensures c in w.done {
      NothingLost(m, radius, w, c);
    }
  }
}
