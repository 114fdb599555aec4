/** Line rasterisation, shared by robot_brain/navigation/grid.py and planner.py. */
module Bresenham {
  import opened RealMath
  import opened Grid
  import opened Neighbourhood

  /** Progress along a line `a` cells wide and `b` cells high, and the loop's error term. */
  datatype Track = Track(u: int, v: int, error: int)

  function NextTrack(a: int, b: int, t: Track): Track {
    var right, up := 2 * t.error >= -b, 2 * t.error <= a;
    Track(if right then t.u + 1 else t.u, if up then t.v + 1 else t.v,
          t.error - (if right then b else 0) + (if up then a else 0))
  }

  ghost function TrackAt(a: int, b: int, i: nat): Track {
    if i == 0 then Track(0, 0, a - b) else NextTrack(a, b, TrackAt(a, b, i - 1))
  }

  function Toward(from: int, to: int, k: int): int { if from < to then from + k else from - k }

  function Width(start: Cell, end: Cell): int { Abs(end.col - start.col) }

  function Height(start: Cell, end: Cell): int { Abs(end.row - start.row) }

  /** The `i`th cell that the loop emits. */
  ghost function CellAt(start: Cell, end: Cell, i: nat): Cell {
    var t := TrackAt(Width(start, end), Height(start, end), i);
    Cell(Toward(start.col, end.col, t.u), Toward(start.row, end.row, t.v))
  }

  function LineLength(start: Cell, end: Cell): int {
    Max(Width(start, end), Height(start, end)) + 1
  }

  ghost function FirstCells(start: Cell, end: Cell, n: nat): seq<Cell> {
    seq(n, i requires 0 <= i => CellAt(start, end, i))
  }

  ghost function LineCells(start: Cell, end: Cell): seq<Cell> {
    FirstCells(start, end, LineLength(start, end))
  }

  /** The loop's variables: the current cell and the error term. */
  datatype Pen = Pen(col: int, row: int, error: int)

  ghost function PenAt(start: Cell, end: Cell, i: nat): Pen {
    var c := CellAt(start, end, i);
    Pen(c.col, c.row, TrackAt(Width(start, end), Height(start, end), i).error)
  }

  function NextPen(dx: int, dy: int, sx: int, sy: int, p: Pen): Pen {
    var right, up := 2 * p.error >= dy, 2 * p.error <= dx;
    Pen(if right then p.col + sx else p.col, if up then p.row + sy else p.row,
        p.error + (if right then dy else 0) + (if up then dx else 0))
  }

  /** One round of the loop moves from one cell of the line to the next. */
  lemma NextPenAt(start: Cell, end: Cell, i: nat)
    ensures FirstCells(start, end, i + 1) == FirstCells(start, end, i) + [Cell(PenAt(start, end, i).col, PenAt(start, end, i).row)]
    ensures PenAt(start, end, i + 1)
         == NextPen(Width(start, end), -Height(start, end), if start.col < end.col then 1 else -1,
                    if start.row < end.row then 1 else -1, PenAt(start, end, i))
  {
  }

  method Line(start: Cell, end: Cell) returns (result: seq<Cell>)
    ensures result == LineCells(start, end)
  {
    var x0, y0 := start.col, start.row;
    var dx, dy := Width(start, end), -Height(start, end);
    var sx := if start.col < end.col then 1 else -1;
    var sy := if start.row < end.row then 1 else -1;
    var error := dx + dy;
    result := [];
    while true
      invariant |result| < LineLength(start, end) && Pen(x0, y0, error) == PenAt(start, end, |result|)
      invariant result == FirstCells(start, end, |result|)
      decreases LineLength(start, end) - |result|
    {
      EndsInTime(start, end, |result|);
      NextPenAt(start, end, |result|);
      ghost var pen := PenAt(start, end, |result|);
      result := result + [Cell(x0, y0)];
      if x0 == end.col && y0 == end.row {
        assert |result| == LineLength(start, end);
        return;
      }
      var doubled := 2 * error;
      if doubled >= dy {
        error := error + dy;
        x0 := x0 + sx;
      }
      if doubled <= dx {
        error := error + dx;
        y0 := y0 + sy;
      }
      assert Pen(x0, y0, error) == NextPen(dx, dy, sx, sy, pen);
    }
  }

  /** Twice the amount, in units of the longer axis, by which `t` misses the ideal line. */
  function Deviation(a: int, b: int, t: Track): int {
    2 * (a * t.v - b * t.u)
  }

  /** The part of the track's invariant that is linear: it stays in the bounding box, advances
      one cell per round along the longer axis, and its error stays within half a cell. */
  predicate OnTrack(a: int, b: int, i: int, t: Track) {
    && 0 <= t.u <= a && 0 <= t.v <= b && (a >= b ==> t.u == i) && (b >= a ==> t.v == i)
    && -Max(a, b) <= 2 * (t.error - a + b) <= Max(a, b)
  }

  lemma ProductOrder(a: int, b: int, c: int)
    requires a >= 0 && b <= c
    ensures a * b <= a * c
  {
  }

  /** Along the shorter axis, half a cell of deviation leaves no room beyond the end. */
  lemma ShortAxisBounded(long: int, short: int, u: int, v: int, miss: int)
    requires 0 <= short <= long && 0 < long && 0 <= u <= long
    requires miss == long * v - short * u && -long <= 2 * miss <= long
    ensures v <= short
    ensures u == long ==> v == short
  {
    ProductOrder(short, u, long);
    assert long * (short + 1) == long * short + long;
    assert long * (short - 1) == long * short - long;
    if v > short {
      ProductOrder(long, short + 1, v);
    }
    if u == long && v < short {
      ProductOrder(long, v, short - 1);
    }
  }

  lemma TrackBounded(a: int, b: int, t: Track)
    requires a >= 0 && b >= 0 && a + b > 0 && Deviation(a, b, t) == 2 * (t.error - a + b)
    requires 0 <= t.u && 0 <= t.v && (a >= b ==> t.u <= a) && (b >= a ==> t.v <= b)
    requires -Max(a, b) <= 2 * (t.error - a + b) <= Max(a, b)
    ensures t.u <= a && t.v <= b
    ensures (a >= b && t.u == a) || (b >= a && t.v == b) ==> t.u == a && t.v == b
  {
    var miss := t.error - a + b;
    if a >= b {
      ShortAxisBounded(a, b, t.u, t.v, miss);
    } else {
      ShortAxisBounded(b, a, t.v, t.u, -miss);
    }
    if a == b {
      ShortAxisBounded(b, a, t.v, t.u, -miss);
    }
  }

  lemma DeviationStep(a: int, b: int, t: Track)
    requires Deviation(a, b, t) == 2 * (t.error - a + b)
    ensures var n := NextTrack(a, b, t); Deviation(a, b, n) == 2 * (n.error - a + b)
  {
    assert a * (t.v + 1) == a * t.v + a;
    assert b * (t.u + 1) == b * t.u + b;
  }

  /** The error term is exactly the distance from the ideal line, in every round. */
  lemma {:induction false} ErrorIsDeviation(a: int, b: int, i: nat)
    ensures Deviation(a, b, TrackAt(a, b, i)) == 2 * (TrackAt(a, b, i).error - a + b)
  {
    if i > 0 {
      ErrorIsDeviation(a, b, i - 1);
      DeviationStep(a, b, TrackAt(a, b, i - 1));
    }
  }

  /** Every round keeps the track in the bounding box and its error within half a cell, and the
      end is reached in the last round and not before. */
  lemma {:induction false} TrackInvariant(a: int, b: int, i: nat)
    requires a >= 0 && b >= 0 && i <= Max(a, b)
    ensures OnTrack(a, b, i, TrackAt(a, b, i))
    ensures i == Max(a, b) <==> TrackAt(a, b, i).u == a && TrackAt(a, b, i).v == b
  {
    if i > 0 {
      TrackInvariant(a, b, i - 1);
      ErrorIsDeviation(a, b, i);
      TrackBounded(a, b, TrackAt(a, b, i));
    }
  }

  ghost predicate IsLine(start: Cell, end: Cell, line: seq<Cell>) {
    && |line| == LineLength(start, end) && line[0] == start && line[|line| - 1] == end
    && (forall i :: 0 <= i < |line| - 1 ==> Adjacent(line[i], line[i + 1]))
    && forall i :: 0 <= i < |line| ==> Between(start.col, line[i].col, end.col) && Between(start.row, line[i].row, end.row)
  }

  predicate Between(a: int, x: int, b: int) {
    a <= x <= b || b <= x <= a
  }

  lemma EndsInTime(start: Cell, end: Cell, i: nat)
    requires i < LineLength(start, end)
    ensures PenAt(start, end, i).col == end.col && PenAt(start, end, i).row == end.row <==> i + 1 == LineLength(start, end)
  {
    TrackInvariant(Width(start, end), Height(start, end), i);
  }

  lemma CellAtInBox(start: Cell, end: Cell, i: nat)
    requires i < LineLength(start, end)
    ensures Between(start.col, CellAt(start, end, i).col, end.col) && Between(start.row, CellAt(start, end, i).row, end.row)
  {
    TrackInvariant(Width(start, end), Height(start, end), i);
  }

  lemma CellsAdjacent(start: Cell, end: Cell, i: nat)
    requires i + 1 < LineLength(start, end)
    ensures Adjacent(CellAt(start, end, i), CellAt(start, end, i + 1))
  {
    TrackInvariant(Width(start, end), Height(start, end), i);
    TrackInvariant(Width(start, end), Height(start, end), i + 1);
  }

  /** The rasterisation is correct for all end points: it starts and ends where asked, takes one
      cell per unit of the longer axis, moves one cell at a time and stays in the bounding box. */
  lemma LineCellsAreLine(start: Cell, end: Cell)
    ensures IsLine(start, end, LineCells(start, end))
  {
    var line := LineCells(start, end);
    forall i | 0 <= i < |line|
      ensures Between(start.col, line[i].col, end.col) && Between(start.row, line[i].row, end.row)
    {
      CellAtInBox(start, end, i);
    }
    forall i | 0 <= i < |line| - 1 ensures Adjacent(line[i], line[i + 1]) {
      CellsAdjacent(start, end, i);
    }
    EndsInTime(start, end, |line| - 1);
  }

  /** No cell of a line is more than half a cell away from the ideal line. */
  lemma LineWithinHalfCell(start: Cell, end: Cell, i: nat)
    requires i < LineLength(start, end)
    ensures var a, b := Width(start, end), Height(start, end);
            var c := CellAt(start, end, i);
            2 * Abs(a * Abs(c.row - start.row) - b * Abs(c.col - start.col)) <= Max(a, b)
  {
    TrackInvariant(Width(start, end), Height(start, end), i);
    ErrorIsDeviation(Width(start, end), Height(start, end), i);
  }

  /** A straight or exactly diagonal line visits precisely the cells one step apart. */
  lemma StraightLine(start: Cell, dc: int, dr: int, n: nat, i: nat)
    requires -1 <= dc <= 1 && -1 <= dr <= 1 && (dc != 0 || dr != 0) && i <= n
    ensures var end := Cell(start.col + n * dc, start.row + n * dr);
            LineLength(start, end) == n + 1 && CellAt(start, end, i) == Cell(start.col + i * dc, start.row + i * dr)
  {
    var end := Cell(start.col + n * dc, start.row + n * dr);
    assert n * dc == (if dc == 0 then 0 else if dc == 1 then n else 0 - n);
    assert n * dr == (if dr == 0 then 0 else if dr == 1 then n else 0 - n);
    TrackInvariant(Width(start, end), Height(start, end), i);
  }
}
