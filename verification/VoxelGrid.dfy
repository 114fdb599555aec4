/** Projecting the voxel map onto an occupancy grid, and what a global route planned on it is
    worth in terms of the map itself. */
module VoxelGrid {
  import opened RealMath
  import opened Grid
  import opened Dilation
  import opened MetricDisc
  import opened SearchGraph
  import opened Planner
  import opened GlobalRoute
  import opened RouteWaypoints
  import opened VoxelContent

  datatype Window = Window(centreX: real, centreY: real, size: real, minZ: real, maxZ: real, robotRadius: real, frameId: string)

  function WindowCells(resolution: real, w: Window): int
    requires resolution > 0.0
  {
    Max(3, Ceiling(w.size / resolution))
  }

  /** The map column under the grid's first column, along one axis. */
  function FirstColumn(resolution: real, cells: int, centre: real): int
    requires resolution > 0.0
  {
    ((centre - cells as real * resolution / 2.0) / resolution).Floor
  }

  function OriginX(resolution: real, w: Window): real
    requires resolution > 0.0
  {
    ColumnEdge(resolution, FirstColumn(resolution, WindowCells(resolution, w), w.centreX))
  }

  function OriginY(resolution: real, w: Window): real
    requires resolution > 0.0
  {
    ColumnEdge(resolution, FirstColumn(resolution, WindowCells(resolution, w), w.centreY))
  }

  /** The grid index of the map column `i` along one axis, computed through world coordinates. */
  function LocalIndex(resolution: real, cells: int, centre: real, i: int): int
    requires resolution > 0.0
  {
    AxisIndex(ColumnCentre(resolution, i), ColumnEdge(resolution, FirstColumn(resolution, cells, centre)), resolution)
  }

  function ColumnCentre(resolution: real, i: int): real { (i as real + 0.5) * resolution }

  function ColumnEdge(resolution: real, i: int): real { i as real * resolution }

  function LocalCell(resolution: real, w: Window, column: Cell): Option<Cell>
    requires resolution > 0.0
  {
    var n := WindowCells(resolution, w);
    var c := Cell(LocalIndex(resolution, n, w.centreX, column.col), LocalIndex(resolution, n, w.centreY, column.row));
    if InWindow(n, n, c) then Some(c) else None
  }

  predicate IsObstacle(resolution: real, w: Window, v: Voxel) {
    w.minZ <= (v.z as real + 0.5) * resolution <= w.maxZ
  }

  /** The columns that lie on the grid, in grid coordinates. */
  function Projected(resolution: real, w: Window, columns: set<Cell>): set<Cell>
    requires resolution > 0.0
  {
    set column | column in columns && LocalCell(resolution, w, column).Some? :: LocalCell(resolution, w, column).value
  }

  function Inflation(resolution: real, w: Window): int
    requires resolution > 0.0
  {
    Ceiling((if w.robotRadius > 0.0 then w.robotRadius else 0.0) / resolution)
  }

  /** `occupancy_grid`. */
  function OccupancyGridOf(resolution: real, c: Content, w: Window): OccupancyGrid
    requires resolution > 0.0
  {
    var cells := WindowCells(resolution, w);
    var raw := Projected(resolution, w, ObstacleColumns(resolution, c, w));
    var occupied := Dilated(cells, cells, raw, Inflation(resolution, w));
    OccupancyGrid(resolution, cells, cells, OriginX(resolution, w), OriginY(resolution, w), occupied, raw,
                  Projected(resolution, w, c.free) - occupied, [], w.frameId)
  }

  function ObstacleColumns(resolution: real, c: Content, w: Window): set<Cell> {
    set v | v in c.hits && IsObstacle(resolution, w, v) :: Column(v)
  }

  lemma LocalIndexIsShift(resolution: real, cells: int, centre: real, i: int)
    requires resolution > 0.0
    ensures LocalIndex(resolution, cells, centre, i) == i - FirstColumn(resolution, cells, centre)
  {
    AxisShift(resolution, FirstColumn(resolution, cells, centre), i);
  }

  lemma AxisShift(resolution: real, first: int, i: int)
    requires resolution > 0.0
    ensures AxisIndex(ColumnCentre(resolution, i), ColumnEdge(resolution, first), resolution) == i - first
  {
    var k := (i - first) as real + 0.5;
    var offset := ColumnCentre(resolution, i) - ColumnEdge(resolution, first);
    assert offset == k * resolution;
    DivideProduct(k, resolution);
    assert offset / resolution == k;
  }

  /** The map column that a grid cell stands for. */
  function MapColumn(resolution: real, w: Window, c: Cell): Cell
    requires resolution > 0.0
  {
    var cells := WindowCells(resolution, w);
    Cell(c.col + FirstColumn(resolution, cells, w.centreX), c.row + FirstColumn(resolution, cells, w.centreY))
  }

  lemma LocalCellIsShift(resolution: real, w: Window, column: Cell)
    requires resolution > 0.0
    ensures var n := WindowCells(resolution, w);
            var d := Cell(column.col - FirstColumn(resolution, n, w.centreX), column.row - FirstColumn(resolution, n, w.centreY));
            LocalCell(resolution, w, column) == if InWindow(n, n, d) then Some(d) else None
  {
    var n := WindowCells(resolution, w);
    LocalIndexIsShift(resolution, n, w.centreX, column.col);
    LocalIndexIsShift(resolution, n, w.centreY, column.row);
  }

  /** Projection is an integer translation: no column is lost, merged or moved by rounding. */
  lemma ProjectionIsTranslation(resolution: real, w: Window, columns: set<Cell>, c: Cell)
    requires resolution > 0.0
    ensures c in Projected(resolution, w, columns) <==>
              InWindow(WindowCells(resolution, w), WindowCells(resolution, w), c) && MapColumn(resolution, w, c) in columns
  {
    if c in Projected(resolution, w, columns) {
      var column :| column in columns && LocalCell(resolution, w, column) == Some(c);
      LocalCellIsShift(resolution, w, column);
    }
    if MapColumn(resolution, w, c) in columns {
      LocalCellIsShift(resolution, w, MapColumn(resolution, w, c));
    }
  }

  /** The grid in terms of the map: a cell is occupied exactly when an obstacle voxel stands within
      the inflation radius on the grid, and free exactly when its column was seen free and it is
      not occupied. */
  lemma GridShowsMap(resolution: real, content: Content, w: Window, c: Cell)
    requires resolution > 0.0
    ensures var g := OccupancyGridOf(resolution, content, w);
            && g.Valid() && g.occupied !! g.knownFree
            && (c in g.knownFree <==> g.Inside(c) && MapColumn(resolution, w, c) in content.free && c !in g.occupied)
            && (c in g.rawOccupied <==> g.Inside(c) && exists v :: v in content.hits && IsObstacle(resolution, w, v)
                                                                   && Column(v) == MapColumn(resolution, w, c))
            && (c in g.occupied <==> g.Inside(c) && exists o :: o in g.rawOccupied && InDisc(o, c, Inflation(resolution, w)))
  {
    ProjectionIsTranslation(resolution, w, content.free, c);
    ProjectionIsTranslation(resolution, w, ObstacleColumns(resolution, content, w), c);
    InflationNonnegative(resolution, w);
    var g := OccupancyGridOf(resolution, content, w);
    DilatedExact(g.width, g.height, g.rawOccupied, Inflation(resolution, w), c);
  }

  lemma InflationNonnegative(resolution: real, w: Window)
    requires resolution > 0.0
    ensures Inflation(resolution, w) >= 0
  {
    var r := if w.robotRadius > 0.0 then w.robotRadius else 0.0;
    assert r / resolution >= 0.0;
  }

  // ----- the projection in metres -----

  /** The centre of a map column, in map coordinates. */
  function ColumnPoint(resolution: real, column: Cell): Point {
    Point((column.col as real + 0.5) * resolution, (column.row as real + 0.5) * resolution)
  }

  /** How far apart two columns stand. */
  function ColumnGap(sqrt: real -> real, resolution: real, a: Cell, b: Cell): real {
    var p, q := ColumnPoint(resolution, a), ColumnPoint(resolution, b);
    Hypot(sqrt, q.x - p.x, q.y - p.y)
  }

  /** A grid cell lies in the world exactly where its map column stands. */
  lemma CentreIsColumn(resolution: real, content: Content, w: Window, c: Cell)
    requires resolution > 0.0
    ensures OccupancyGridOf(resolution, content, w).CellToWorld(c) == ColumnPoint(resolution, MapColumn(resolution, w, c))
  {
    var cells := WindowCells(resolution, w);
    EdgeAndHalf(resolution, FirstColumn(resolution, cells, w.centreX), c.col);
    EdgeAndHalf(resolution, FirstColumn(resolution, cells, w.centreY), c.row);
  }

  lemma EdgeAndHalf(resolution: real, first: int, i: int)
    ensures AxisCentre(i, ColumnEdge(resolution, first), resolution) == ((i + first) as real + 0.5) * resolution
  {
  }

  lemma GapIsColumnGap(sqrt: real -> real, resolution: real, content: Content, w: Window, a: Cell, b: Cell)
    requires resolution > 0.0
    ensures CentreGap(sqrt, OccupancyGridOf(resolution, content, w), a, b)
         == ColumnGap(sqrt, resolution, MapColumn(resolution, w, a), MapColumn(resolution, w, b))
  {
    CentreIsColumn(resolution, content, w, a);
    CentreIsColumn(resolution, content, w, b);
  }

  /** The cell of the grid that shows a map column. */
  function CellOfColumn(resolution: real, w: Window, column: Cell): Cell
    requires resolution > 0.0
  {
    Cell(column.col - MapColumn(resolution, w, Cell(0, 0)).col, column.row - MapColumn(resolution, w, Cell(0, 0)).row)
  }

  lemma CellOfColumnExactly(resolution: real, content: Content, w: Window, column: Cell)
    requires resolution > 0.0
    ensures var g, c := OccupancyGridOf(resolution, content, w), CellOfColumn(resolution, w, column);
            && MapColumn(resolution, w, c) == column && g.CellToWorld(c) == ColumnPoint(resolution, column)
            && g.WorldToCell(ColumnPoint(resolution, column)) == if g.Inside(c) then Some(c) else None
  {
    var g, c := OccupancyGridOf(resolution, content, w), CellOfColumn(resolution, w, column);
    CentreIsColumn(resolution, content, w, c);
    CellCentreRoundTrip(g, c);
  }

  predicate IsCloser(sqrt: real -> real, resolution: real, w: Window, v: Voxel, c: Cell)
    requires resolution > 0.0
  {
    ColumnGap(sqrt, resolution, Column(v), MapColumn(resolution, w, c)) < Positive(w.robotRadius) + resolution
  }

  /** A cell is occupied when an obstacle voxel on the window stands within the robot's radius of
      it, and only when one stands less than that and a cell away. */
  lemma OccupiedInMetres(sqrt: real -> real, resolution: real, content: Content, w: Window, c: Cell)
    requires IsSqrt(sqrt) && resolution > 0.0
    ensures var g := OccupancyGridOf(resolution, content, w); g.Inside(c) ==>
      && (c in g.occupied ==> exists v :: v in content.hits && IsObstacle(resolution, w, v) && IsCloser(sqrt, resolution, w, v, c))
      && (forall v | v in content.hits && IsObstacle(resolution, w, v) && g.WorldToCell(ColumnPoint(resolution, Column(v))).Some? ::
            ColumnGap(sqrt, resolution, Column(v), MapColumn(resolution, w, c)) <= w.robotRadius ==> c in g.occupied)
  {
    var g := OccupancyGridOf(resolution, content, w);
    if g.Inside(c) {
      GridShowsMap(resolution, content, w, c);
      if c in g.occupied {
        var o :| o in g.rawOccupied && InDisc(o, c, Inflation(resolution, w));
        OccupiedHasVoxel(sqrt, resolution, content, w, c, o);
      }
      forall v | v in content.hits && IsObstacle(resolution, w, v) && g.WorldToCell(ColumnPoint(resolution, Column(v))).Some?
                 && ColumnGap(sqrt, resolution, Column(v), MapColumn(resolution, w, c)) <= w.robotRadius
        ensures c in g.occupied
      {
        VoxelOccupies(sqrt, resolution, content, w, c, v);
      }
    }
  }

  lemma OccupiedHasVoxel(sqrt: real -> real, resolution: real, content: Content, w: Window, c: Cell, o: Cell)
    requires IsSqrt(sqrt) && resolution > 0.0
    requires o in OccupancyGridOf(resolution, content, w).rawOccupied && InDisc(o, c, Inflation(resolution, w))
    ensures exists v :: v in content.hits && IsObstacle(resolution, w, v) && IsCloser(sqrt, resolution, w, v, c)
  {
    var g := OccupancyGridOf(resolution, content, w);
    GridShowsMap(resolution, content, w, o);
    var v :| v in content.hits && IsObstacle(resolution, w, v) && Column(v) == MapColumn(resolution, w, o);
    DiscInMetres(sqrt, g, w.robotRadius, o, c);
    GapIsColumnGap(sqrt, resolution, content, w, o, c);
  }

  lemma VoxelOccupies(sqrt: real -> real, resolution: real, content: Content, w: Window, c: Cell, v: Voxel)
    requires IsSqrt(sqrt) && resolution > 0.0 && OccupancyGridOf(resolution, content, w).Inside(c)
    requires v in content.hits && IsObstacle(resolution, w, v)
    requires OccupancyGridOf(resolution, content, w).WorldToCell(ColumnPoint(resolution, Column(v))).Some?
    requires ColumnGap(sqrt, resolution, Column(v), MapColumn(resolution, w, c)) <= w.robotRadius
    ensures c in OccupancyGridOf(resolution, content, w).occupied
  {
    var g, o := OccupancyGridOf(resolution, content, w), CellOfColumn(resolution, w, Column(v));
    CellOfColumnExactly(resolution, content, w, Column(v));
    GridShowsMap(resolution, content, w, o);
    assert o in g.rawOccupied;
    DiscInMetres(sqrt, g, w.robotRadius, o, c);
    GapIsColumnGap(sqrt, resolution, content, w, o, c);
    GridShowsMap(resolution, content, w, c);
  }

  /** A free cell was seen free, at its own place in the map. */
  lemma FreeWasSeen(resolution: real, content: Content, w: Window, c: Cell)
    requires resolution > 0.0 && IsFree(OccupancyGridOf(resolution, content, w), c)
    ensures MapColumn(resolution, w, c) in content.free
  {
    GridShowsMap(resolution, content, w, c);
  }

  /** What the map says of a proven cell: rays have crossed its column, and no stored obstacle
      voxel on the grid stands within the robot's inflation radius of it. */
  lemma ProvenAvoidsVoxel(resolution: real, content: Content, w: Window, costs: seq<int>, start: Cell, radius: int, c: Cell, v: Voxel)
    requires resolution > 0.0
    requires var g := OccupancyGridOf(resolution, content, w).(traversalCosts := costs);
             g.Inside(c) && IsProven(g, start, radius, c)
    requires v in content.hits && IsObstacle(resolution, w, v)
    ensures MapColumn(resolution, w, c) in content.free
    ensures var o := Cell(v.x - MapColumn(resolution, w, Cell(0, 0)).col, v.y - MapColumn(resolution, w, Cell(0, 0)).row);
            InWindow(WindowCells(resolution, w), WindowCells(resolution, w), o) ==> !InDisc(o, c, Inflation(resolution, w))
  {
    GridShowsMap(resolution, content, w, c);
    var o := Cell(v.x - MapColumn(resolution, w, Cell(0, 0)).col, v.y - MapColumn(resolution, w, Cell(0, 0)).row);
    GridShowsMap(resolution, content, w, o);
    assert Column(v) == MapColumn(resolution, w, o);
  }

  /** The guarantee behind a global route: every cell it enters after leaving the start belongs to
      a map column that rays have crossed, and no stored obstacle voxel on the grid stands within
      the robot's inflation radius of it. */
  lemma GlobalRouteAvoidsVoxels(sqrt: real -> real, resolution: real, content: Content, w: Window, costs: seq<int>,
                                startXY: Point, clearance: real, start: Cell, goal: Cell, obstacleWeight: real,
                                cells: seq<Cell>, i: nat, v: Voxel)
    requires resolution > 0.0
    requires var g := OccupancyGridOf(resolution, content, w).(traversalCosts := costs);
             && g.WorldToCell(startXY) == Some(start)
             && IsPath(PlanningGraph(KnownFreeOnlyGrid(g, startXY, clearance), start, goal, obstacleWeight, sqrt), start, goal, cells)
    requires 0 < i < |cells| && cells[i] != start
    requires v in content.hits && IsObstacle(resolution, w, v)
    ensures MapColumn(resolution, w, cells[i]) in content.free
    ensures var o := Cell(v.x - MapColumn(resolution, w, Cell(0, 0)).col, v.y - MapColumn(resolution, w, Cell(0, 0)).row);
            InWindow(WindowCells(resolution, w), WindowCells(resolution, w), o) ==> !InDisc(o, cells[i], Inflation(resolution, w))
  {
    var g := OccupancyGridOf(resolution, content, w).(traversalCosts := costs);
    RouteStaysProven(sqrt, g, startXY, clearance, start, goal, obstacleWeight, cells, i);
    ProvenAvoidsVoxel(resolution, content, w, costs, start, ClearanceCells(g, clearance), cells[i], v);
  }

  /** The same for a point the robot may be driven to, wherever in its cell it lies. */
  lemma WaypointAvoidsVoxels(resolution: real, content: Content, w: Window, costs: seq<int>, start: Cell, radius: int, p: Point, v: Voxel)
    requires resolution > 0.0
    requires var g := OccupancyGridOf(resolution, content, w).(traversalCosts := costs);
             IsStartOrProven(g, start, radius, p) && g.WorldToCell(p) != Some(start)
    requires v in content.hits && IsObstacle(resolution, w, v)
    ensures var g := OccupancyGridOf(resolution, content, w).(traversalCosts := costs);
            var c := g.WorldToCell(p);
            var o := Cell(v.x - MapColumn(resolution, w, Cell(0, 0)).col, v.y - MapColumn(resolution, w, Cell(0, 0)).row);
            && c.Some? && MapColumn(resolution, w, c.value) in content.free
            && (InWindow(WindowCells(resolution, w), WindowCells(resolution, w), o) ==> !InDisc(o, c.value, Inflation(resolution, w)))
  {
    var g := OccupancyGridOf(resolution, content, w).(traversalCosts := costs);
    ProvenAvoidsVoxel(resolution, content, w, costs, start, radius, g.WorldToCell(p).value, v);
  }
}
