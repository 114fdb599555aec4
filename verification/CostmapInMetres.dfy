/** The local costmap in terms of the world around the robot: robot_brain/navigation/grid.py:50-103. */
module CostmapInMetres {
  import opened RealMath
  import opened Grid
  import opened Dilation
  import opened MetricDisc
  import opened Bresenham
  import opened Costmap

  /** Where the grid lies around the robot. */
  predicate IsAround(geometry: Geometry, grid: OccupancyGrid)
    requires geometry.Valid()
  {
    && grid.resolution == geometry.resolution && grid.width == grid.height == geometry.Cells()
    && grid.originX == grid.originY == geometry.Origin()
  }

  /** The robot's own cell, at the origin of its frame. */
  lemma SensorIsOrigin(geometry: Geometry, grid: OccupancyGrid)
    requires geometry.Valid() && IsAround(geometry, grid)
    ensures grid.WorldToCell(Point(0.0, 0.0)) == Some(geometry.SensorCell())
  {
    MiddleIndex(geometry.Cells(), geometry.resolution, geometry.Origin());
  }

  lemma MiddleIndex(n: int, resolution: real, origin: real)
    requires n > 0 && resolution > 0.0 && origin == -(n as real * resolution / 2.0)
    ensures AxisIndex(0.0, origin, resolution) == n / 2
  {
    var half := n as real / 2.0;
    Quotient(half, resolution, 0.0 - origin);
    assert half.Floor == n / 2;
  }

  lemma Quotient(half: real, resolution: real, offset: real)
    requires resolution > 0.0 && offset == 2.0 * half * resolution / 2.0
    ensures offset / resolution == half
  {
    DivideProduct(half, resolution);
    assert offset == half * resolution;
  }

  /** The map reaches as far as it is asked to. */
  lemma MapCovers(geometry: Geometry, grid: OccupancyGrid, p: Point)
    requires geometry.Valid() && IsAround(geometry, grid)
    requires -(geometry.size / 2.0) <= p.x < geometry.size / 2.0 && -(geometry.size / 2.0) <= p.y < geometry.size / 2.0
    ensures grid.WorldToCell(p).Some?
  {
    var n := geometry.Cells();
    CellsCover(geometry.size, geometry.resolution, n);
    OnAxis(p.x, n, geometry.resolution, geometry.Origin());
    OnAxis(p.y, n, geometry.resolution, geometry.Origin());
  }

  lemma CellsCover(size: real, resolution: real, n: int)
    requires size > 0.0 && resolution > 0.0 && n == Max(3, Ceiling(size / resolution))
    ensures size <= n as real * resolution
  {
    var q := size / resolution;
    assert q * resolution == size && q <= n as real;
    MultiplyMonotone(q, n as real, resolution, resolution);
  }

  lemma OnAxis(x: real, n: int, resolution: real, origin: real)
    requires n > 0 && resolution > 0.0 && origin == -(n as real * resolution / 2.0) && origin <= x < -origin
    ensures 0 <= AxisIndex(x, origin, resolution) < n
  {
    var offset, width := x - origin, n as real * resolution;
    var q := offset / resolution;
    assert q * resolution == offset && 0.0 <= offset < width;
    assert q >= 0.0;
    if q >= n as real {
      MultiplyMonotone(n as real, q, resolution, resolution);
      assert false;
    }
  }

  /** The cells that are hit are those in which the world has a point of the obstacle band. */
  lemma HitsInWorld(sqrt: real -> real, points: seq<Point3>, geometry: Geometry, grid: OccupancyGrid, c: Cell)
    requires geometry.Valid() && IsCostmap(sqrt, points, geometry, grid)
    ensures c in grid.rawOccupied
       <==> exists p :: p in points && geometry.minZ <= p.z <= geometry.maxZ && grid.WorldToCell(Point(p.x, p.y)) == Some(c)
  {
    forall p: Point3 ensures grid.WorldToCell(Point(p.x, p.y)) == Some(c)
                        <==> InWindow(geometry.Cells(), geometry.Cells(), geometry.CellOf(p)) && geometry.CellOf(p) == c
    {
    }
    if c in grid.rawOccupied {
      var p :| p in points && geometry.IsHit(p) && geometry.CellOf(p) == c;
      assert grid.WorldToCell(Point(p.x, p.y)) == Some(c);
    }
  }

  /** `c` is cell `i` of the line, and not its last. */
  ghost predicate IsBefore(from: Cell, to: Cell, i: int, c: Cell) {
    0 <= i < LineLength(from, to) - 1 && CellAt(from, to, i) == c
  }

  /** The free cells are those that a line from the robot's cell to a hit cell passes before it gets there. */
  lemma FreeInWorld(sqrt: real -> real, points: seq<Point3>, geometry: Geometry, grid: OccupancyGrid, c: Cell)
    requires geometry.Valid() && IsCostmap(sqrt, points, geometry, grid)
    ensures grid.WorldToCell(Point(0.0, 0.0)).Some?
    ensures var robot := grid.WorldToCell(Point(0.0, 0.0)).value;
      c in grid.knownFree <==> c !in grid.occupied && exists hit, i :: hit in grid.rawOccupied && IsBefore(robot, hit, i, c)
  {
    SensorIsOrigin(geometry, grid);
    var robot := geometry.SensorCell();
    if c in grid.knownFree {
      var hit :| hit in grid.rawOccupied && OnRay(robot, hit, c);
      var i :| 0 <= i < LineLength(robot, hit) - 1 && CellAt(robot, hit, i) == c;
      assert IsBefore(robot, hit, i, c);
    }
    if hit, i :| hit in grid.rawOccupied && IsBefore(robot, hit, i, c) {
      assert OnRay(robot, hit, c);
    }
  }

  /** Occupied are the cells within the robot's radius of a hit, and none a cell beyond that. */
  lemma OccupiedInMetres(sqrt: real -> real, points: seq<Point3>, geometry: Geometry, grid: OccupancyGrid, c: Cell)
    requires IsSqrt(sqrt) && geometry.Valid() && IsCostmap(sqrt, points, geometry, grid) && grid.Inside(c)
    ensures (exists hit :: hit in grid.rawOccupied && CentreGap(sqrt, grid, hit, c) <= geometry.robotRadius) ==> c in grid.occupied
    ensures c in grid.occupied ==>
      exists hit :: hit in grid.rawOccupied && CentreGap(sqrt, grid, hit, c) < geometry.robotRadius + geometry.resolution
  {
    if hit :| hit in grid.rawOccupied && CentreGap(sqrt, grid, hit, c) <= geometry.robotRadius {
      DiscInMetres(sqrt, grid, geometry.robotRadius, hit, c);
    }
    if c in grid.occupied {
      var hit :| hit in grid.rawOccupied && InDisc(hit, c, Ceiling(geometry.robotRadius / geometry.resolution));
      DiscInMetres(sqrt, grid, geometry.robotRadius, hit, c);
    }
  }
}
