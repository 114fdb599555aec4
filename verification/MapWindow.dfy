/** The part of the map a route is planned on: robot_brain/navigation/native_go2.py:406-424 and
    map_store.py:255-310. */
module MapWindow {
  import opened RealMath
  import opened Grid
  import opened VoxelContent
  import opened VoxelGrid
  import opened DrivenRoute

  /** Within the half size of the centre, a cell short of it on the upper side. */
  predicate IsHeld(resolution: real, size: real, centre: real, x: real) {
    centre - size / 2.0 <= x <= centre + size / 2.0 - resolution
  }

  /** How many cells a window has: enough for its size, one too many at most, and never less than three. */
  lemma WindowCount(resolution: real, w: Window) returns (width: real)
    requires resolution > 0.0
    ensures width == WindowCells(resolution, w) as real * resolution && width >= w.size && width >= 3.0 * resolution
    ensures width < w.size + resolution || width == 3.0 * resolution
  {
    var n, q := WindowCells(resolution, w), w.size / resolution;
    assert q * resolution == w.size;
    width := n as real * resolution;
    var more := ProductSign(n as real - q, resolution);
    assert more == width - w.size;
    var most := ProductSign(n as real - 3.0, resolution);
    assert most == width - 3.0 * resolution;
    var less := ProductSign(q + 1.0 - n as real, resolution);
    assert less == w.size + resolution - width;
  }

  /** The first column starts where a window of this width around the centre starts, or up to a cell before. */
  lemma WindowEdge(resolution: real, cells: int, centre: real, width: real) returns (edge: real)
    requires resolution > 0.0 && width == cells as real * resolution
    ensures edge == ColumnEdge(resolution, FirstColumn(resolution, cells, centre))
    ensures centre - width / 2.0 - resolution < edge <= centre - width / 2.0
  {
    var start := centre - cells as real * resolution / 2.0;
    var q := start / resolution;
    assert q * resolution == start;
    edge := q.Floor as real * resolution;
    var over := ProductSign(q - q.Floor as real, resolution);
    assert over == start - edge;
    var under := ProductSign(q.Floor as real + 1.0 - q, resolution);
    assert under == edge + resolution - start;
  }

  lemma IndexInside(x: real, edge: real, resolution: real, cells: int, width: real)
    requires resolution > 0.0 && width == cells as real * resolution
    ensures 0 <= AxisIndex(x, edge, resolution) < cells <==> edge <= x < edge + width
  {
    var q := (x - edge) / resolution;
    assert q * resolution == x - edge;
    var low := ProductSign(q, resolution);
    var high := ProductSign(cells as real - q, resolution);
    assert high == width - (x - edge);
  }

  lemma AxisHeld(resolution: real, w: Window, centre: real, x: real)
    requires resolution > 0.0
    ensures var (n, edge) := (WindowCells(resolution, w), ColumnEdge(resolution, FirstColumn(resolution, WindowCells(resolution, w), centre)));
      var reach := if w.size > 2.0 * resolution then w.size / 2.0 else resolution;
      && (IsHeld(resolution, w.size, centre, x) ==> 0 <= AxisIndex(x, edge, resolution) < n)
      && (0 <= AxisIndex(x, edge, resolution) < n ==> centre - reach - 1.5 * resolution < x < centre + reach + 0.5 * resolution)
  {
    var width := WindowCount(resolution, w);
    var edge := WindowEdge(resolution, WindowCells(resolution, w), centre, width);
    IndexInside(x, edge, resolution, WindowCells(resolution, w), width);
  }

  /** The window holds its size around its centre, and little more. */
  lemma WindowHolds(resolution: real, content: Content, w: Window, p: Point)
    requires resolution > 0.0
    ensures var g := OccupancyGridOf(resolution, content, w);
      var reach := if w.size > 2.0 * resolution then w.size / 2.0 else resolution;
      && (IsHeld(resolution, w.size, w.centreX, p.x) && IsHeld(resolution, w.size, w.centreY, p.y) ==> g.WorldToCell(p).Some?)
      && (g.WorldToCell(p).Some? ==>
            && w.centreX - reach - 1.5 * resolution < p.x < w.centreX + reach + 0.5 * resolution
            && w.centreY - reach - 1.5 * resolution < p.y < w.centreY + reach + 0.5 * resolution)
  {
    AxisHeld(resolution, w, w.centreX, p.x);
    AxisHeld(resolution, w, w.centreY, p.y);
  }

  /** Whatever the distance, a route is planned on a grid that holds both of its ends. */
  lemma EndsOnGrid(sqrt: real -> real, n: Navigator, here: Point, goal: Point)
    requires IsSqrt(sqrt) && 0.0 < n.resolution <= 2.0
    ensures MapGrid(sqrt, n, here, goal).WorldToCell(here).Some?
    ensures MapGrid(sqrt, n, here, goal).WorldToCell(goal).Some?
  {
    var w := WindowFor(sqrt, n, here, goal);
    LegsWithin(sqrt, goal.x - here.x, goal.y - here.y);
    WindowHolds(n.resolution, n.content, w, here);
    WindowHolds(n.resolution, n.content, w, goal);
  }

  lemma LegsWithin(sqrt: real -> real, x: real, y: real)
    requires IsSqrt(sqrt)
    ensures -Hypot(sqrt, x, y) <= x <= Hypot(sqrt, x, y) && -Hypot(sqrt, x, y) <= y <= Hypot(sqrt, x, y)
  {
    HypotSquare(sqrt, x, y);
    assert x * x >= 0.0 && y * y >= 0.0;
    SquareOrder(x, Hypot(sqrt, x, y));
    SquareOrder(-x, Hypot(sqrt, x, y));
    SquareOrder(y, Hypot(sqrt, x, y));
    SquareOrder(-y, Hypot(sqrt, x, y));
  }

  /** Its obstacles are exactly the stored voxels of the window between 5 cm and 1.20 m high. */
  lemma ObstaclesStand(sqrt: real -> real, n: Navigator, here: Point, goal: Point, c: Cell)
    requires n.resolution > 0.0
    ensures var g := MapGrid(sqrt, n, here, goal); c in g.rawOccupied <==>
      exists v :: v in n.content.hits && StandsOn(n.resolution, g, v) && g.WorldToCell(ColumnPoint(n.resolution, Column(v))) == Some(c)
  {
    var w, g := WindowFor(sqrt, n, here, goal), MapGrid(sqrt, n, here, goal);
    GridShowsMap(n.resolution, n.content, w, c);
    if c in g.rawOccupied {
      var v :| v in n.content.hits && IsObstacle(n.resolution, w, v) && Column(v) == MapColumn(n.resolution, w, c);
      CellOfColumnExactly(n.resolution, n.content, w, Column(v));
      assert StandsOn(n.resolution, g, v);
    }
    if v :| v in n.content.hits && StandsOn(n.resolution, g, v) && g.WorldToCell(ColumnPoint(n.resolution, Column(v))) == Some(c) {
      CellOfColumnExactly(n.resolution, n.content, w, Column(v));
    }
  }
}
