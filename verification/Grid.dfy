/** The frozen 2-D costmap of robot_brain/navigation/grid.py. */
module Grid {
  import opened RealMath

  datatype Cell = Cell(col: int, row: int)
  function Shift(c: Cell, offset: (int, int)): Cell {
    Cell(c.col + offset.0, c.row + offset.1)
  }

  datatype Point = Point(x: real, y: real)

  datatype Option<+T> = None | Some(value: T)
  datatype Result<+T> = Ok(value: T) | Err(error: string)

  function Elements<T>(s: seq<T>): set<T> { set x | x in s }

  lemma SubsetSize<T>(a: set<T>, b: set<T>)
    requires a <= b
    ensures |a| <= |b|
  {
    assert b == a + (b - a);
  }

  datatype OccupancyGrid = OccupancyGrid(
    resolution: real, width: int, height: int, originX: real, originY: real,
    occupied: set<Cell>, rawOccupied: set<Cell>, knownFree: set<Cell>,
    traversalCosts: seq<int>, frameId: string)
  {
    /** Division by the resolution is the one partial operation of the grid. */
    predicate Valid() {
      resolution > 0.0
    }

    predicate Inside(c: Cell) {
      0 <= c.col < width && 0 <= c.row < height
    }

    function WorldToCell(p: Point): Option<Cell>
      requires Valid()
    {
      var c := Cell(AxisIndex(p.x, originX, resolution), AxisIndex(p.y, originY, resolution));
      if Inside(c) then Some(c) else None
    }

    function CellToWorld(c: Cell): Point {
      Point(AxisCentre(c.col, originX, resolution), AxisCentre(c.row, originY, resolution))
    }

    predicate Blocked(c: Cell) {
      !Inside(c) || c in occupied
    }

    function TraversalCost(c: Cell): int {
      var index := c.row * width + c.col;
      if 0 <= index < |traversalCosts| then traversalCosts[index] else 0
    }

    function Cells(): set<Cell> {
      set col, row | 0 <= col < width && 0 <= row < height :: Cell(col, row)
    }
  }

  /** A cell's centre lies back in that cell, and no world point outside the
      map window is ever given a cell. */
  lemma CellCentreRoundTrip(g: OccupancyGrid, c: Cell)
    requires g.Valid()
    ensures g.WorldToCell(g.CellToWorld(c)) == if g.Inside(c) then Some(c) else None
  {
    AxisRoundTrip(g.originX, g.resolution, c.col);
    AxisRoundTrip(g.originY, g.resolution, c.row);
  }

  /** The centres of a sequence of cells: the world path behind a planner's answer. */
  function Centres(grid: OccupancyGrid, cells: seq<Cell>): seq<Point> {
    seq(|cells|, i requires 0 <= i < |cells| => grid.CellToWorld(cells[i]))
  }

  function AxisIndex(x: real, origin: real, resolution: real): int
    requires resolution > 0.0
  {
    ((x - origin) / resolution).Floor
  }

  function AxisCentre(i: int, origin: real, resolution: real): real {
    origin + (i as real + 0.5) * resolution
  }

  lemma AxisRoundTrip(origin: real, resolution: real, i: int)
    requires resolution > 0.0
    ensures AxisIndex(AxisCentre(i, origin, resolution), origin, resolution) == i
  {
    var k := i as real + 0.5;
    var offset := AxisCentre(i, origin, resolution) - origin;
    assert offset == k * resolution;
    DivideProduct(k, resolution);
    assert offset / resolution == k;
  }
}
