/** The boustrophedon order of robot_brain/navigation/patrol.py, and exactly when a route cut from
    it still alternates direction from row to row. */
module CoverageRoute {
  import opened RealMath
  import opened Grid
  import opened Sorting
  import opened CellSearch
  import opened Frontier

  function RowsIn(cells: seq<Cell>): set<int> { set c | c in cells :: c.row }

  /** The columns visited in one row, in route order. */
  function ColumnsIn(cells: seq<Cell>, row: int): seq<int> {
    if cells == [] then []
    else ColumnsIn(cells[..|cells| - 1], row)
         + if cells[|cells| - 1].row == row then [cells[|cells| - 1].col] else []
  }

  /** A row has a direction once two of its cells are visited. */
  predicate HasDirection(cells: seq<Cell>, row: int) { |ColumnsIn(cells, row)| >= 2 }

  predicate GoesUp(cells: seq<Cell>, row: int)
    requires HasDirection(cells, row)
  {
    var columns := ColumnsIn(cells, row);
    columns[|columns| - 1] > columns[0]
  }

  /** `r` and `s` are rows with a direction, and no row between them has one. */
  ghost predicate Consecutive(cells: seq<Cell>, r: int, s: int) {
    r < s && HasDirection(cells, r) && HasDirection(cells, s)
    && forall x :: r < x < s ==> !HasDirection(cells, x)
  }

  ghost predicate RowsAlternate(cells: seq<Cell>) {
    forall r, s :: Consecutive(cells, r, s) ==> GoesUp(cells, r) != GoesUp(cells, s)
  }

  function Below(rows: set<int>, r: int): set<int> { set x | x in rows && x < r }

  function Between(rows: set<int>, r: int, s: int): set<int> { set x | x in rows && r < x < s }

  /** Rows ascend; inside a row columns ascend or descend by the parity of the row's rank. */
  ghost predicate Before(rows: set<int>, a: Cell, b: Cell) {
    a.row < b.row || (a.row == b.row && if |Below(rows, a.row)| % 2 == 0 then a.col < b.col else a.col > b.col)
  }

  ghost predicate InOrder(rows: set<int>, cells: seq<Cell>) {
    forall i, j :: 0 <= i < j < |cells| ==> Before(rows, cells[i], cells[j])
  }

  /** `order` lists the cells row by row, turning around after every row. */
  ghost predicate IsCoverageOrder(cells: seq<Cell>, order: seq<Cell>) {
    InOrder(RowsIn(cells), order) && forall c :: c in order <==> c in cells
  }

  predicate IntNotAfter(a: int, b: int) { a <= b }

  lemma RankIsIndex(rows: set<int>, listed: seq<int>, i: nat)
    requires Strict(IntNotAfter, listed) && (forall x :: x in listed <==> x in rows) && i < |listed|
    ensures |Below(rows, listed[i])| == i
  {
    ElementsSize(listed[..i]);
    assert Elements(listed[..i]) == Below(rows, listed[i]) by {
      forall x | x in Below(rows, listed[i]) ensures x in listed[..i] {
        var j :| 0 <= j < |listed| && listed[j] == x;
        assert j < i;
      }
    }
  }

  /** One row, listed upwards or downwards by the parity of its index. */
  lemma RowInOrder(cells: seq<Cell>, rows: set<int>, listed: seq<int>, index: nat, ascending: seq<Cell>, ordered: seq<Cell>)
    requires Strict(IntNotAfter, listed) && (forall x :: x in listed <==> x in rows) && index < |listed|
    requires Strict(CellNotAfter, ascending) && forall c :: c in ascending <==> c in cells && c.row == listed[index]
    requires ordered == if index % 2 == 1 then Reversed(ascending) else ascending
    ensures InOrder(rows, ordered) && forall c :: c in ordered <==> c in cells && c.row == listed[index]
  {
    RankIsIndex(rows, listed, index);
    forall i | 0 <= i < |ascending| ensures ascending[i].row == listed[index] {
      assert ascending[i] in ascending;
    }
    forall c ensures c in ordered <==> c in ascending {
      if c in ascending {
        var i :| 0 <= i < |ascending| && ascending[i] == c;
        assert ordered[if index % 2 == 1 then |ascending| - 1 - i else i] == c;
      }
    }
  }

  lemma RowAppends(rows: set<int>, result: seq<Cell>, ordered: seq<Cell>, listed: seq<int>, index: nat)
    requires Strict(IntNotAfter, listed) && index < |listed|
    requires InOrder(rows, result) && InOrder(rows, ordered)
    requires forall c :: c in result ==> c.row in listed[..index]
    requires forall c :: c in ordered ==> c.row == listed[index]
    ensures InOrder(rows, result + ordered)
  {
    var longer := result + ordered;
    forall i, j | 0 <= i < j < |longer| ensures Before(rows, longer[i], longer[j]) {
      if i < |result| <= j {
        assert longer[i] in result && longer[j] in ordered;
        var k :| 0 <= k < index && listed[k] == longer[i].row;
        assert listed[k] < listed[index];
      }
    }
  }

  /** `_coverage_order` of distinct cells. */
  method CoverageOrder(cells: seq<Cell>) returns (result: seq<Cell>)
    ensures IsCoverageOrder(cells, result)
  {
    var rows := RowsIn(cells);
    var listed := SortedSet(IntNotAfter, rows);
    result := [];
    for index := 0 to |listed|
      invariant InOrder(rows, result)
      invariant forall c :: c in result <==> c in cells && c.row in listed[..index]
    {
      var row := listed[index];
      CellNotAfterIsTotal();
      var ordered := SortedSet(CellNotAfter, set c | c in cells && c.row == row);
      ghost var ascending := ordered;
      if index % 2 == 1 {
        ordered := Reversed(ordered);
      }
      RowInOrder(cells, rows, listed, index, ascending, ordered);
      RowAppends(rows, result, ordered, listed, index);
      assert listed[..index + 1] == listed[..index] + [row];
      result := result + ordered;
    }
    assert listed[..|listed|] == listed;
  }

  /** The `k`th column of a row belongs to a cell that has `k` cells of that row before it. */
  lemma {:induction false} ColumnAt(cells: seq<Cell>, row: int, k: nat) returns (i: nat)
    requires k < |ColumnsIn(cells, row)|
    ensures i < |cells| && cells[i] == Cell(ColumnsIn(cells, row)[k], row) && |ColumnsIn(cells[..i], row)| == k
  {
    var init := cells[..|cells| - 1];
    if k < |ColumnsIn(init, row)| {
      i := ColumnAt(init, row, k);
      assert init[..i] == cells[..i];
    } else {
      i := |cells| - 1;
    }
  }

  lemma {:induction false} ColumnsGrow(cells: seq<Cell>, row: int, i: nat, j: nat)
    requires i <= j <= |cells|
    ensures |ColumnsIn(cells[..i], row)| <= |ColumnsIn(cells[..j], row)|
    decreases j
  {
    if i < j {
      ColumnsGrow(cells, row, i, j - 1);
      assert cells[..j][..j - 1] == cells[..j - 1];
    }
  }

  /** In an ordered route the direction of a row is the parity of its rank. */
  lemma DirectionIsParity(rows: set<int>, cells: seq<Cell>, row: int)
    requires InOrder(rows, cells) && HasDirection(cells, row)
    ensures GoesUp(cells, row) <==> |Below(rows, row)| % 2 == 0
  {
    var last := |ColumnsIn(cells, row)| - 1;
    var i := ColumnAt(cells, row, 0);
    var j := ColumnAt(cells, row, last);
    if j <= i {
      ColumnsGrow(cells, row, j, i);
    }
    assert Before(rows, cells[i], cells[j]);
  }

  lemma {:induction false} VisitedRow(cells: seq<Cell>, row: int)
    requires |ColumnsIn(cells, row)| > 0
    ensures row in RowsIn(cells)
  {
    var i := ColumnAt(cells, row, 0);
    assert cells[i] in cells;
  }

  lemma LowerRowFirst(rows: set<int>, order: seq<Cell>, i: nat, j: nat)
    requires InOrder(rows, order) && i < |order| && j < |order| && order[i].row < order[j].row
    ensures i < j
  {
  }

  /** A route cut off after `n` waypoints has skipped no row below a row it visits. */
  lemma CutSkipsNothing(cells: seq<Cell>, order: seq<Cell>, n: nat, r: int, s: int)
    requires IsCoverageOrder(cells, order) && n <= |order| && s in RowsIn(order[..n])
    ensures Between(RowsIn(cells), r, s) == Between(RowsIn(order[..n]), r, s)
  {
    var route := order[..n];
    var c :| c in route && c.row == s;
    var j :| 0 <= j < n && order[j] == c;
    forall x | x in Between(RowsIn(cells), r, s) ensures x in RowsIn(route) {
      var d :| d in cells && d.row == x;
      assert d in order;
      var i :| 0 <= i < |order| && order[i] == d;
      LowerRowFirst(RowsIn(cells), order, i, j);
      assert route[i] in route;
    }
    forall x | x in RowsIn(route) ensures x in RowsIn(cells) {
      var d :| d in route && d.row == x;
      assert d in order;
    }
  }

  lemma RankDifference(rows: set<int>, r: int, s: int)
    requires r in rows && r < s
    ensures |Below(rows, s)| == |Below(rows, r)| + 1 + |Between(rows, r, s)|
  {
    assert Below(rows, s) == Below(rows, r) + {r} + Between(rows, r, s);
  }

  /** Between two consecutive rows that show a direction the route turns around once
      for every row, so they alternate when the rows in between are even in number. */
  lemma CutAlternates(cells: seq<Cell>, order: seq<Cell>, n: nat)
    requires IsCoverageOrder(cells, order) && n <= |order|
    ensures RowsAlternate(order[..n]) <==>
              forall r, s :: Consecutive(order[..n], r, s) ==> |Between(RowsIn(order[..n]), r, s)| % 2 == 0
  {
    var rows, route := RowsIn(cells), order[..n];
    forall r, s | Consecutive(route, r, s)
      ensures GoesUp(route, r) != GoesUp(route, s) <==> |Between(RowsIn(route), r, s)| % 2 == 0
    {
      DirectionIsParity(rows, route, r);
      DirectionIsParity(rows, route, s);
      VisitedRow(route, r);
      VisitedRow(route, s);
      CutSkipsNothing(cells, order, n, r, s);
      CutSkipsNothing(cells, order, n, r - 1, s);
      assert r in Between(RowsIn(route), r - 1, s);
      RankDifference(rows, r, s);
    }
  }

  // ----- the condition on the cells and the limit alone -----

  function InRow(cells: set<Cell>, r: int): set<Cell> { set c | c in cells && c.row == r }

  function BelowRow(cells: set<Cell>, r: int): set<Cell> { set c | c in cells && c.row < r }

  function RowsOf(cells: set<Cell>): set<int> { set c | c in cells :: c.row }

  /** How many waypoints a row gets when the route is cut off after `n`: what the
      lower rows leave over, but no more than it has cells. */
  function Shown(cells: set<Cell>, n: int, r: int): int {
    Max(0, Min(n - |BelowRow(cells, r)|, |InRow(cells, r)|))
  }

  /** Two rows with at least two waypoints each, and no such row between them. */
  ghost predicate ShowsNext(cells: set<Cell>, n: int, r: int, s: int) {
    r < s && Shown(cells, n, r) >= 2 && Shown(cells, n, s) >= 2 && forall x :: r < x < s ==> Shown(cells, n, x) < 2
  }

  /** Between such rows lies an even number of other rows. */
  ghost predicate WillAlternate(cells: set<Cell>, n: int) {
    forall r, s :: ShowsNext(cells, n, r, s) ==> |Between(RowsOf(cells), r, s)| % 2 == 0
  }

  lemma {:induction false} ColumnsCount(cells: seq<Cell>, row: int)
    requires NoDuplicates(cells)
    ensures |ColumnsIn(cells, row)| == |InRow(Elements(cells), row)|
  {
    if cells != [] {
      var init, last := cells[..|cells| - 1], cells[|cells| - 1];
      ColumnsCount(init, row);
      assert cells == init + [last] && last !in init;
      InRowNext(init, last, row);
    } else {
      assert InRow(Elements(cells), row) == {};
    }
  }

  lemma InRowNext(init: seq<Cell>, last: Cell, row: int)
    requires last !in init
    ensures |InRow(Elements(init + [last]), row)| == |InRow(Elements(init), row)| + if last.row == row then 1 else 0
  {
    assert InRow(Elements(init + [last]), row) == InRow(Elements(init), row) + if last.row == row then {last} else {};
  }

  lemma OrderIsDistinct(rows: set<int>, order: seq<Cell>)
    requires InOrder(rows, order)
    ensures NoDuplicates(order)
  {
    forall i, j | 0 <= i < j < |order| ensures order[i] != order[j] {
      assert Before(rows, order[i], order[j]);
    }
  }

  /** A cut route holds every cell of the rows below any row it has reached. */
  lemma LowerCellsFirst(rows: set<int>, order: seq<Cell>, n: nat, c: Cell, d: Cell)
    requires InOrder(rows, order) && n <= |order| && c in order[..n] && d in order && d.row < c.row
    ensures d in order[..n]
  {
    var j :| 0 <= j < n && order[j] == c;
    var i :| 0 <= i < |order| && order[i] == d;
    LowerRowFirst(rows, order, i, j);
    assert order[..n][i] == d;
  }

  /** Visited from the lowest row up. */
  ghost predicate FillsUp(all: set<Cell>, visited: set<Cell>) {
    && visited <= all
    && (forall c, d :: c in visited && d in all && d.row < c.row ==> d in visited)
  }

  lemma FilledRow(all: set<Cell>, visited: set<Cell>, r: int)
    requires FillsUp(all, visited)
    ensures |InRow(visited, r)| == Shown(all, |visited|, r)
  {
    if c :| c in visited && c.row > r {
      assert InRow(visited, r) == InRow(all, r);
      PassedRow(all, visited, r);
    } else if c :| c in visited && c.row == r {
      assert visited == BelowRow(all, r) + InRow(visited, r);
      assert InRow(visited, r) <= InRow(all, r);
      SubsetSize(InRow(visited, r), InRow(all, r));
    } else {
      assert visited <= BelowRow(all, r) && InRow(visited, r) == {};
      SubsetSize(visited, BelowRow(all, r));
    }
  }

  lemma PassedRow(all: set<Cell>, visited: set<Cell>, r: int)
    requires BelowRow(all, r) <= visited && InRow(all, r) <= visited
    ensures |visited| - |BelowRow(all, r)| >= |InRow(all, r)|
  {
    assert BelowRow(all, r) !! InRow(all, r);
    SubsetSize(BelowRow(all, r) + InRow(all, r), visited);
  }

  /** So a row of the route has exactly the waypoints that can be counted beforehand. */
  lemma RowIsShown(rows: set<int>, order: seq<Cell>, n: nat, r: int)
    requires InOrder(rows, order) && n <= |order|
    ensures |ColumnsIn(order[..n], r)| == Shown(Elements(order), n, r)
  {
    var route, all := order[..n], Elements(order);
    var visited := Elements(route);
    OrderIsDistinct(rows, order);
    ColumnsCount(route, r);
    ElementsSize(route);
    forall c | c in visited ensures c in all {
      assert c in route && c in order;
    }
    forall c, d | c in visited && d in all && d.row < c.row ensures d in visited {
      LowerCellsFirst(rows, order, n, c, d);
    }
    FilledRow(all, visited, r);
  }

  lemma SameDirections(route: seq<Cell>, all: set<Cell>, n: int, r: int, s: int)
    requires forall x :: HasDirection(route, x) <==> Shown(all, n, x) >= 2
    ensures Consecutive(route, r, s) <==> ShowsNext(all, n, r, s)
  {
    if Consecutive(route, r, s) {
      forall x | r < x < s ensures Shown(all, n, x) < 2 {
        assert !HasDirection(route, x);
      }
    }
    if ShowsNext(all, n, r, s) {
      forall x | r < x < s ensures !HasDirection(route, x) {
        assert Shown(all, n, x) < 2;
      }
    }
  }

  /** The exact condition, on the cells and the limit, under which a coverage route
      passes the evaluation: between two consecutive rows that get at least two
      waypoints lies an even number of rows. A row with a single waypoint takes its
      turn in the alternation but shows no direction of its own. */
  lemma CoverageAlternatesExactly(cells: seq<Cell>, order: seq<Cell>, n: nat)
    requires IsCoverageOrder(cells, order) && n <= |order|
    ensures RowsAlternate(order[..n]) <==> WillAlternate(Elements(cells), n)
  {
    var rows, route, all := RowsIn(cells), order[..n], Elements(cells);
    assert Elements(order) == all && RowsOf(all) == rows;
    CutAlternates(cells, order, n);
    forall r ensures HasDirection(route, r) <==> Shown(all, n, r) >= 2 {
      RowIsShown(rows, order, n, r);
    }
    forall r, s ensures Consecutive(route, r, s) <==> ShowsNext(all, n, r, s) {
      SameDirections(route, all, n, r, s);
    }
    forall r, s | Consecutive(route, r, s) ensures Between(RowsIn(route), r, s) == Between(RowsOf(all), r, s) {
      VisitedRow(route, s);
      CutSkipsNothing(cells, order, n, r, s);
    }
  }

  lemma LimitBeyondEnd(cells: set<Cell>, n: int, r: int)
    ensures Shown(cells, Min(n, |cells|), r) == Shown(cells, n, r)
  {
    assert BelowRow(cells, r) !! InRow(cells, r);
    SubsetSize(BelowRow(cells, r) + InRow(cells, r), cells);
  }

  /** A limit beyond the last cell is no limit. */
  lemma LimitIsCapped(cells: set<Cell>, n: int)
    ensures WillAlternate(cells, Min(n, |cells|)) <==> WillAlternate(cells, n)
  {
    forall r ensures Shown(cells, Min(n, |cells|), r) == Shown(cells, n, r) {
      LimitBeyondEnd(cells, n, r);
    }
    forall r, s ensures ShowsNext(cells, Min(n, |cells|), r, s) <==> ShowsNext(cells, n, r, s) {
    }
  }

  lemma TwoCellsGiveDirection(cells: seq<Cell>, row: int, i: nat, j: nat)
    requires i < j < |cells| && cells[i].row == row && cells[j].row == row
    ensures HasDirection(cells, row)
  {
    assert cells[..i + 1][..i] == cells[..i] && cells[..j + 1][..j] == cells[..j];
    ColumnsGrow(cells, row, i + 1, j);
    ColumnsGrow(cells, row, j + 1, |cells|);
    assert cells[..|cells|] == cells;
  }

  lemma OneCellGivesNone(rows: set<int>, cells: seq<Cell>, only: Cell)
    requires InOrder(rows, cells) && forall c :: c in cells && c.row == only.row ==> c == only
    ensures !HasDirection(cells, only.row)
  {
    if HasDirection(cells, only.row) {
      var a, b := DirectionNeedsTwo(rows, cells, only.row);
    }
  }

  lemma DirectionNeedsTwo(rows: set<int>, cells: seq<Cell>, row: int) returns (a: Cell, b: Cell)
    requires InOrder(rows, cells) && HasDirection(cells, row)
    ensures a in cells && b in cells && a != b && a.row == b.row == row
  {
    var i := ColumnAt(cells, row, 0);
    var j := ColumnAt(cells, row, 1);
    a, b := cells[i], cells[j];
    assert i < j ==> Before(rows, a, b);
    assert j < i ==> Before(rows, b, a);
  }

  /** And it can fail: three rows with two, one and two free cells never alternate. */
  lemma CoverageCanFail(order: seq<Cell>)
    requires IsCoverageOrder([Cell(0, 0), Cell(0, 1), Cell(0, 2), Cell(1, 0), Cell(1, 2)], order)
    ensures !RowsAlternate(order)
  {
    var cells := [Cell(0, 0), Cell(0, 1), Cell(0, 2), Cell(1, 0), Cell(1, 2)];
    RowOfTwo(cells, order, Cell(0, 0), Cell(1, 0));
    RowOfTwo(cells, order, Cell(0, 2), Cell(1, 2));
    OneCellGivesNone(RowsIn(cells), order, Cell(0, 1));
    assert Consecutive(order, 0, 2);
    assert cells[1] == Cell(0, 1) && Cell(0, 1) in order;
    assert order[..|order|] == order;
    CutAlternates(cells, order, |order|);
    OneRowBetween(order);
  }

  lemma OneRowBetween(order: seq<Cell>)
    requires Cell(0, 1) in order
    ensures |Between(RowsIn(order), 0, 2)| == 1
  {
    assert Between(RowsIn(order), 0, 2) == {1};
  }

  lemma RowOfTwo(cells: seq<Cell>, order: seq<Cell>, a: Cell, b: Cell)
    requires IsCoverageOrder(cells, order) && a in cells && b in cells && a != b && a.row == b.row
    ensures HasDirection(order, a.row)
  {
    assert a in order && b in order;
    var i :| 0 <= i < |order| && order[i] == a;
    var j :| 0 <= j < |order| && order[j] == b;
    if i < j {
      TwoCellsGiveDirection(order, a.row, i, j);
    } else {
      TwoCellsGiveDirection(order, a.row, j, i);
    }
  }
}
