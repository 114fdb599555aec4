/** `evaluate_patrol_route` of robot_brain/navigation/patrol.py, and which generated routes pass. */
module PatrolEvaluation {
  import opened Grid
  import opened Heap
  import opened Sorting
  import opened Frontier
  import opened CoverageRoute
  import opened Patrol

  /** The cells of the waypoints that lie on the map. */
  function Concrete(grid: OccupancyGrid, route: seq<Point>): seq<Cell>
    requires grid.Valid()
  {
    if route == [] then []
    else
      var c := grid.WorldToCell(route[|route| - 1]);
      Concrete(grid, route[..|route| - 1]) + if c.Some? then [c.value] else []
  }

  predicate OnKnownFree(grid: OccupancyGrid, p: Point)
    requires grid.Valid()
  {
    grid.WorldToCell(p).Some? && grid.WorldToCell(p).value in grid.knownFree
  }

  datatype Failure = EmptyPatrolRoute | RouteOutsideKnownFree | DuplicatePatrolWaypoint
                   | CoverageRouteNotBoustrophedon | FrontierRouteNotAdjacentToUnknown | LeastVisitedRouteOutOfOrder

  /** What a route must be to pass. */
  ghost predicate Passes(grid: OccupancyGrid, route: seq<Point>, strategy: Strategy, visits: Visits)
    requires grid.Valid()
  {
    var cells := Concrete(grid, route);
    && route != [] && (forall p :: p in route ==> OnKnownFree(grid, p)) && NoDuplicates(cells)
    && PassesStrategy(grid, cells, strategy, visits)
  }

  method EvaluatePatrolRoute(grid: OccupancyGrid, route: seq<Point>, strategy: Strategy, visits: Visits)
    returns (failures: seq<Failure>)
    requires grid.Valid()
    ensures failures == [] <==> Passes(grid, route, strategy, visits)
    ensures EmptyPatrolRoute in failures <==> route == []
    ensures RouteOutsideKnownFree in failures <==> exists p :: p in route && !OnKnownFree(grid, p)
    ensures DuplicatePatrolWaypoint in failures <==> !NoDuplicates(Concrete(grid, route))
  {
    failures := [];
    var concrete := Concrete(grid, route);
    if route == [] {
      failures := failures + [EmptyPatrolRoute];
    }
    if exists p :: p in route && !OnKnownFree(grid, p) {
      failures := failures + [RouteOutsideKnownFree];
    }
    ElementsSize(concrete);
    if |Elements(concrete)| != |concrete| {
      failures := failures + [DuplicatePatrolWaypoint];
    }
    var more := StrategyFailures(grid, concrete, strategy, visits);
    failures := failures + more;
  }

  ghost predicate PassesStrategy(grid: OccupancyGrid, cells: seq<Cell>, strategy: Strategy, visits: Visits) {
    && (strategy == Coverage ==> RowsAlternate(cells))
    && (strategy == FrontierFirst ==> forall c :: c in cells ==> BordersUnknown(grid, c))
    && (strategy == LeastVisited ==> VisitsAscend(visits, cells))
  }

  method StrategyFailures(grid: OccupancyGrid, concrete: seq<Cell>, strategy: Strategy, visits: Visits)
    returns (failures: seq<Failure>)
    ensures failures == [] <==> PassesStrategy(grid, concrete, strategy, visits)
    ensures failures == [] || failures == [match strategy
              case Coverage => CoverageRouteNotBoustrophedon
              case FrontierFirst => FrontierRouteNotAdjacentToUnknown
              case _ => LeastVisitedRouteOutOfOrder]
  {
    failures := [];
    if strategy == Coverage {
      var repeats := RepeatsDirection(concrete);
      if repeats {
        failures := failures + [CoverageRouteNotBoustrophedon];
      }
    } else if strategy == FrontierFirst {
      if exists c :: c in concrete && !BordersUnknown(grid, c) {
        failures := failures + [FrontierRouteNotAdjacentToUnknown];
      }
    } else if strategy == LeastVisited {
      var counts := seq(|concrete|, i requires 0 <= i < |concrete| => visits(concrete[i]));
      SortedFixpoint(counts);
      assert forall i :: 0 <= i < |concrete| ==> counts[i] == visits(concrete[i]);
      if counts != Sorted(IntNotAfter, counts) {
        failures := failures + [LeastVisitedRouteOutOfOrder];
      }
    }
  }

  lemma IntNotAfterIsTotal()
    ensures TotalOrder(IntNotAfter)
  {
  }

  /** A list equals its sorted copy exactly when it is in order already. */
  lemma {:induction false} SortedFixpoint(s: seq<int>)
    ensures s == Sorted(IntNotAfter, s) <==> forall i, j :: 0 <= i < j < |s| ==> s[i] <= s[j]
  {
    IntNotAfterIsTotal();
    SortedIsSorted(IntNotAfter, s);
    if forall i, j :: 0 <= i < j < |s| ==> s[i] <= s[j] {
      SortedStays(s);
    }
  }

  lemma {:induction false} SortedStays(s: seq<int>)
    requires forall i, j :: 0 <= i < j < |s| ==> s[i] <= s[j]
    ensures Sorted(IntNotAfter, s) == s
  {
    if s != [] {
      SortedStays(s[..|s| - 1]);
      InsertLast(s[|s| - 1], s[..|s| - 1]);
      assert s == s[..|s| - 1] + [s[|s| - 1]];
    }
  }

  lemma {:induction false} InsertLast(x: int, s: seq<int>)
    requires forall y :: y in s ==> y <= x
    ensures Insert(IntNotAfter, x, s) == s + [x]
  {
    if s != [] {
      assert s[0] in s && forall y :: y in s[1..] ==> y in s;
      InsertLast(x, s[1..]);
      assert s == [s[0]] + s[1..];
    }
  }

  /** The columns of each visited row, as the source's dictionary collects them. */
  method ColumnsByRow(cells: seq<Cell>) returns (rows: map<int, seq<int>>)
    ensures rows.Keys == RowsIn(cells) && forall r :: r in rows ==> rows[r] == ColumnsIn(cells, r)
  {
    rows := map[];
    for k := 0 to |cells|
      invariant rows.Keys == RowsIn(cells[..k])
      invariant forall r :: r in rows ==> rows[r] == ColumnsIn(cells[..k], r)
    {
      var c := cells[k];
      assert cells[..k + 1] == cells[..k] + [c] && cells[..k + 1][..k] == cells[..k];
      if c.row !in rows {
        RowUnseen(cells[..k], c.row);
      }
      rows := rows[c.row := (if c.row in rows then rows[c.row] else []) + [c.col]];
    }
    assert cells[..|cells|] == cells;
  }

  lemma RowUnseen(cells: seq<Cell>, row: int)
    requires row !in RowsIn(cells)
    ensures ColumnsIn(cells, row) == []
  {
    if ColumnsIn(cells, row) != [] {
      VisitedRow(cells, row);
    }
  }

  ghost predicate ShowsDirections(cells: seq<Cell>, directed: seq<int>, directions: seq<bool>) {
    && |directions| == |directed|
    && forall i :: 0 <= i < |directed| ==> HasDirection(cells, directed[i]) && directions[i] == GoesUp(cells, directed[i])
  }

  lemma DirectionAdds(cells: seq<Cell>, directed: seq<int>, directions: seq<bool>, row: int, columns: seq<int>, up: bool)
    requires ShowsDirections(cells, directed, directions)
    requires columns == ColumnsIn(cells, row) && |columns| >= 2 && up == (columns[|columns| - 1] > columns[0])
    ensures ShowsDirections(cells, directed + [row], directions + [up])
  {
    var rows, ups := directed + [row], directions + [up];
    forall i | 0 <= i < |rows| ensures HasDirection(cells, rows[i]) && ups[i] == GoesUp(cells, rows[i]) {
      if i == |directed| {
        assert rows[i] == row && ups[i] == up;
      }
    }
  }

  /** The rows with a direction, in order, and their directions. */
  ghost predicate ListsDirections(cells: seq<Cell>, directed: seq<int>, directions: seq<bool>) {
    && ShowsDirections(cells, directed, directions) && Strict(IntNotAfter, directed)
    && forall r :: HasDirection(cells, r) ==> r in directed
  }

  ghost function DirectedOf(cells: seq<Cell>, listed: seq<int>): seq<int> {
    if listed == [] then []
    else
      var last := listed[|listed| - 1];
      DirectedOf(cells, listed[..|listed| - 1]) + if HasDirection(cells, last) then [last] else []
  }

  lemma {:induction false} DirectedOfFilters(cells: seq<Cell>, listed: seq<int>)
    requires Strict(IntNotAfter, listed)
    ensures Strict(IntNotAfter, DirectedOf(cells, listed))
    ensures forall r :: r in DirectedOf(cells, listed) <==> r in listed && HasDirection(cells, r)
  {
    if listed != [] {
      var init, last := listed[..|listed| - 1], listed[|listed| - 1];
      DirectedOfFilters(cells, init);
      assert listed == init + [last];
      forall i | 0 <= i < |DirectedOf(cells, init)| ensures DirectedOf(cells, init)[i] < last {
        assert DirectedOf(cells, init)[i] in DirectedOf(cells, init);
        var j :| 0 <= j < |init| && init[j] == DirectedOf(cells, init)[i];
        assert listed[j] < last;
      }
    }
  }

  lemma DirectedOfNext(cells: seq<Cell>, listed: seq<int>, k: nat)
    requires k < |listed|
    ensures DirectedOf(cells, listed[..k + 1])
         == DirectedOf(cells, listed[..k]) + if HasDirection(cells, listed[k]) then [listed[k]] else []
  {
    assert listed[..k + 1][..k] == listed[..k];
  }

  method Directions(cells: seq<Cell>) returns (directions: seq<bool>, ghost directed: seq<int>)
    ensures ListsDirections(cells, directed, directions)
  {
    var rows := ColumnsByRow(cells);
    IntNotAfterIsTotal();
    var listed := SortedSet(IntNotAfter, rows.Keys);
    directions, directed := [], [];
    for k := 0 to |listed|
      invariant directed == DirectedOf(cells, listed[..k])
      invariant ShowsDirections(cells, directed, directions)
    {
      DirectedOfNext(cells, listed, k);
      assert listed[k] in listed;
      var values := rows[listed[k]];
      assert values == ColumnsIn(cells, listed[k]);
      if |values| >= 2 {
        var up := values[|values| - 1] > values[0];
        DirectionAdds(cells, directed, directions, listed[k], values, up);
        directions, directed := directions + [up], directed + [listed[k]];
      }
    }
    assert listed[..|listed|] == listed;
    DirectedOfFilters(cells, listed);
    forall r | HasDirection(cells, r) ensures r in directed {
      VisitedRow(cells, r);
    }
  }

  /** Whether two neighbouring rows with a direction have the same one. */
  method RepeatsDirection(cells: seq<Cell>) returns (repeats: bool)
    ensures repeats <==> !RowsAlternate(cells)
  {
    var directions, directed := Directions(cells);
    repeats := exists i :: 0 <= i < |directions| - 1 && directions[i] == directions[i + 1];
    if repeats {
      var i :| 0 <= i < |directions| - 1 && directions[i] == directions[i + 1];
      NeighboursAreConsecutive(cells, directed, directions, i);
    } else {
      forall r, s | Consecutive(cells, r, s) ensures GoesUp(cells, r) != GoesUp(cells, s) {
        var i := ConsecutiveAreNeighbours(cells, directed, directions, r, s);
        assert directions[i] != directions[i + 1];
      }
    }
  }

  lemma ConsecutiveAreNeighbours(cells: seq<Cell>, directed: seq<int>, directions: seq<bool>, r: int, s: int) returns (i: nat)
    requires ListsDirections(cells, directed, directions) && Consecutive(cells, r, s)
    ensures i < |directed| - 1 && directed[i] == r && directed[i + 1] == s
  {
    assert r in directed && s in directed;
    i :| 0 <= i < |directed| && directed[i] == r;
    var j :| 0 <= j < |directed| && directed[j] == s;
    OrderedPlaces(directed, i, j);
    assert directed[i] < directed[i + 1] <= directed[j];
    assert HasDirection(cells, directed[i + 1]);
  }

  lemma NeighboursAreConsecutive(cells: seq<Cell>, directed: seq<int>, directions: seq<bool>, i: nat)
    requires ListsDirections(cells, directed, directions) && i < |directed| - 1
    ensures Consecutive(cells, directed[i], directed[i + 1])
  {
    forall k | 0 <= k < |directed| ensures !(directed[i] < directed[k] < directed[i + 1]) {
      NoneBetween(directed, i, k);
    }
  }

  lemma NoneBetween(s: seq<int>, i: nat, k: nat)
    requires Strict(IntNotAfter, s) && i < |s| - 1 && k < |s|
    ensures !(s[i] < s[k] < s[i + 1])
  {
    assert k < i ==> s[k] <= s[i];
    assert k > i + 1 ==> s[i + 1] <= s[k];
  }

  lemma OrderedPlaces(s: seq<int>, i: nat, j: nat)
    requires Strict(IntNotAfter, s) && i < |s| && j < |s| && s[i] < s[j]
    ensures i < j
  {
  }

  lemma {:induction false} ConcreteCentres(grid: OccupancyGrid, cells: seq<Cell>)
    requires grid.Valid() && forall c :: c in cells ==> grid.Inside(c)
    ensures Concrete(grid, Centres(grid, cells)) == cells
  {
    if cells != [] {
      var init, last := cells[..|cells| - 1], cells[|cells| - 1];
      ConcreteCentres(grid, init);
      assert Centres(grid, cells)[..|cells| - 1] == Centres(grid, init);
      assert last in cells;
      CellCentreRoundTrip(grid, last);
    }
  }

  /** The cells a route may visit, known before it is made. */
  function FreeLattice(grid: OccupancyGrid, stride: int): set<Cell>
    requires stride > 0
  {
    set c | c in grid.knownFree && OnLattice(stride, c)
  }

  /** Generated routes pass their own evaluation, for every grid whose free cells lie on the map:
      a non-empty route always, except that for coverage the free lattice cells and the waypoint
      limit must leave an even number of rows between any two consecutive rows that get two
      waypoints or more. */
  lemma GeneratedRoutesPass(grid: OccupancyGrid, strategy: Strategy, stride: int, visits: Visits, order: seq<Cell>, n: int)
    requires grid.Valid() && stride > 0 && (forall c :: c in grid.knownFree ==> grid.Inside(c))
    requires IsRouteOrder(grid, strategy, stride, visits, order)
    requires Cut(order, n) != []
    ensures var cells := Cut(order, n);
            Passes(grid, Centres(grid, cells), strategy, visits) <==>
              (strategy == Coverage ==>
                 WillAlternate(FreeLattice(grid, stride), n))
  {
    var cells := Cut(order, n);
    var route := Centres(grid, cells);
    var k := |cells|;
    assert cells == order[..k];
    assert forall c :: c in cells ==> c in order;
    ConcreteCentres(grid, cells);
    forall p | p in route ensures OnKnownFree(grid, p) {
      var i :| 0 <= i < |route| && route[i] == p;
      assert cells[i] in cells;
      CellCentreRoundTrip(grid, cells[i]);
    }
    if strategy == Coverage {
      var lattice := FreeLattice(grid, stride);
      assert lattice == Elements(order);
      ElementsSize(order);
      CoverageAlternatesExactly(order, order, k);
      LimitIsCapped(lattice, n);
    }
  }
}
