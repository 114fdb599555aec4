/** Growing sets of cells by a disc, as every costmap and corridor of the kernel does. */
module Dilation {
  import opened Grid

  predicate InDisc(centre: Cell, c: Cell, radius: int) {
    (c.col - centre.col) * (c.col - centre.col) + (c.row - centre.row) * (c.row - centre.row) <= radius * radius
  }

  predicate InWindow(width: int, height: int, c: Cell) {
    0 <= c.col < width && 0 <= c.row < height
  }

  /** The offsets that the nested loops enumerate. */
  function DiscOffsets(radius: int): set<(int, int)> {
    set dx, dy | -radius <= dx <= radius && -radius <= dy <= radius && dx * dx + dy * dy <= radius * radius :: (dx, dy)
  }

  /** Each centre contributes the disc around it, cut to the window. */
  function Dilated(width: int, height: int, centres: set<Cell>, radius: int): set<Cell> {
    set centre, offset | centre in centres && offset in DiscOffsets(radius)
                         && InWindow(width, height, Shift(centre, offset)) :: Shift(centre, offset)
  }

  /** The square of offsets that the loops enumerate misses no offset of the disc. */
  lemma OffsetsExact(radius: int, dx: int, dy: int)
    requires radius >= 0
    ensures (dx, dy) in DiscOffsets(radius) <==> dx * dx + dy * dy <= radius * radius
  {
    if dx * dx + dy * dy <= radius * radius {
      SquarePositive(dx);
      SquarePositive(dy);
      SquareBound(dx, radius);
      SquareBound(dy, radius);
    }
  }

  lemma DilatedExact(width: int, height: int, centres: set<Cell>, radius: int, c: Cell)
    requires radius >= 0
    ensures c in Dilated(width, height, centres, radius) <==>
              InWindow(width, height, c) && exists centre :: centre in centres && InDisc(centre, c, radius)
  {
    forall centre | centre in centres
      ensures InDisc(centre, c, radius) <==> (c.col - centre.col, c.row - centre.row) in DiscOffsets(radius)
    {
      OffsetsExact(radius, c.col - centre.col, c.row - centre.row);
    }
    if InWindow(width, height, c) && exists centre :: centre in centres && InDisc(centre, c, radius) {
      var centre :| centre in centres && InDisc(centre, c, radius);
      assert c == Shift(centre, (c.col - centre.col, c.row - centre.row));
    }
    if c in Dilated(width, height, centres, radius) {
      var centre, offset :| centre in centres && offset in DiscOffsets(radius) && c == Shift(centre, offset);
      assert offset == (c.col - centre.col, c.row - centre.row);
    }
  }

  lemma SquareBound(x: int, radius: int)
    requires radius >= 0 && x * x <= radius * radius
    ensures -radius <= x <= radius
  {
    assert (x - radius) * (x + radius) == x * x - radius * radius;
    if x > radius || x < -radius {
      SameSignProduct(x - radius, x + radius);
    }
  }

  lemma SameSignProduct(a: int, b: int)
    requires (a > 0 && b > 0) || (a < 0 && b < 0)
    ensures a * b > 0
  {
  }

  lemma SquarePositive(x: int)
    ensures x * x >= 0 && (x != 0 ==> x * x > 0)
  {
  }

  lemma PointDisc(a: Cell, b: Cell)
    requires InDisc(a, b, 0)
    ensures a == b
  {
    SquarePositive(b.col - a.col);
    SquarePositive(b.row - a.row);
  }

  lemma InsideIsCell(grid: OccupancyGrid, c: Cell)
    ensures grid.Inside(c) <==> c in grid.Cells()
  {
  }
}
