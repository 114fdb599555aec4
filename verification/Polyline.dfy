/** `_resample_polyline` of robot_brain/navigation/native_go2.py. */
module Polyline {
  import opened RealMath
  import opened Grid
  import opened Clearance

  function Part(a: real, b: real, i: int, steps: int): real
    requires steps > 0
  {
    a + (b - a) * i as real / steps as real
  }

  function Along(a: Point, b: Point, i: int, steps: int): Point
    requires steps > 0
  {
    Point(Part(a.x, b.x, i, steps), Part(a.y, b.y, i, steps))
  }

  ghost function Evenly(a: Point, b: Point, steps: nat): seq<Point> {
    seq(steps + 1, i requires 0 <= i => if steps == 0 then a else Along(a, b, i, steps))
  }

  /** Points `from` to `to` of the result divide the segment from `a` to `b` evenly. */
  ghost predicate Divides(a: Point, b: Point, result: seq<Point>, from: nat, to: nat) {
    from < to < |result| && result[from] == a && result[to] == b && result[from..to + 1] == Evenly(a, b, to - from)
  }

  /** `marks` says where the vertices ended up; between two of them lie evenly spaced points. */
  ghost predicate IsResampling(points: seq<Point>, result: seq<Point>, marks: seq<nat>) {
    && |marks| == |points| > 0 && marks[0] == 0 && marks[|marks| - 1] == |result| - 1
    && result[0] == points[0]
    && forall k :: 0 <= k < |points| - 1 ==> DividesSegment(points, result, marks, k)
  }

  ghost predicate DividesSegment(points: seq<Point>, result: seq<Point>, marks: seq<nat>, k: int)
    requires 0 <= k < |points| - 1 && |marks| == |points|
  {
    Divides(points[k], points[k + 1], result, marks[k], marks[k + 1])
  }

  ghost predicate GapsWithin(gap: (Point, Point) -> real, path: seq<Point>, limit: real) {
    forall j {:trigger path[j]} :: 0 <= j < |path| - 1 ==> gap(path[j], path[j + 1]) <= limit
  }

  /** One piece fewer would be too long. */
  predicate IsNeeded(length: real, pieces: int, limit: real) {
    pieces == 1 || (pieces - 1) as real * limit < length
  }

  /** No segment is divided into more pieces than the limit asks for. */
  ghost predicate IsSparse(gap: (Point, Point) -> real, limit: real, points: seq<Point>, marks: seq<nat>) {
    && |marks| == |points|
    && forall k {:trigger marks[k]} :: 0 <= k < |points| - 1 ==> IsNeeded(gap(points[k], points[k + 1]), marks[k + 1] as int - marks[k] as int, limit)
  }

  lemma SparseGrows(gap: (Point, Point) -> real, limit: real, points: seq<Point>, marks: seq<nat>, next: Point, mark: nat)
    requires points != [] && IsSparse(gap, limit, points, marks)
    requires IsNeeded(gap(points[|points| - 1], next), mark as int - marks[|marks| - 1] as int, limit)
    ensures IsSparse(gap, limit, points + [next], marks + [mark])
  {
  }

  lemma PieceIsSparse(gap: (Point, Point) -> real, limit: real, points: seq<Point>, marks: seq<nat>, next: Point, result: seq<Point>, pieces: nat)
    requires IsResampling(points, result, marks) && |result| > 0 && pieces > 0 && IsSparse(gap, limit, points, marks)
    requires IsNeeded(gap(points[|points| - 1], next), pieces, limit)
    ensures IsSparse(gap, limit, points + [next], marks + [|result| + pieces - 1])
  {
    SparseGrows(gap, limit, points, marks, next, |result| + pieces - 1);
  }

  lemma StepsNeeded(length: real, limit: real)
    requires length >= 0.0 && limit > 0.0
    ensures IsNeeded(length, Max(1, Ceiling(length / limit)), limit)
  {
    var q := length / limit;
    assert q * limit == length;
    var n := Ceiling(q);
    if n > 1 {
      var less := q - (n - 1) as real;
      ProductPositive(less, limit);
      assert less * limit == length - (n - 1) as real * limit;
    }
  }

  function Gaps(sqrt: real -> real): (Point, Point) -> real {
    (a, b) => SegmentLength(sqrt, a, b)
  }

  lemma AlongEnds(a: Point, b: Point, steps: int)
    requires steps > 0
    ensures Along(a, b, 0, steps) == a && Along(a, b, steps, steps) == b
  {
    DivideProduct(b.x - a.x, steps as real);
    DivideProduct(b.y - a.y, steps as real);
  }

  /** Stretching a vector stretches its length. */
  lemma HypotScale(sqrt: real -> real, x: real, y: real, k: real)
    requires IsSqrt(sqrt) && k >= 0.0
    ensures Hypot(sqrt, k * x, k * y) == k * Hypot(sqrt, x, y)
  {
    var h, s := Hypot(sqrt, x, y), Hypot(sqrt, k * x, k * y);
    HypotSquare(sqrt, x, y);
    HypotSquare(sqrt, k * x, k * y);
    ScaledSquare(h, x, y, k);
    assert s * s == (k * h) * (k * h);
    SquareOrder(s, k * h);
    SquareOrder(k * h, s);
  }

  lemma ScaledSquare(h: real, x: real, y: real, k: real)
    requires h * h == x * x + y * y
    ensures (k * h) * (k * h) == (k * x) * (k * x) + (k * y) * (k * y)
  {
    assert (k * h) * (k * h) == (k * k) * (h * h);
    assert (k * x) * (k * x) == (k * k) * (x * x);
    assert (k * y) * (k * y) == (k * k) * (y * y);
    assert (k * k) * (x * x + y * y) == (k * k) * (x * x) + (k * k) * (y * y);
  }

  /** Every part of a segment has the same share of its length. */
  lemma PartIsShare(sqrt: real -> real, a: Point, b: Point, i: int, steps: int, k: real)
    requires IsSqrt(sqrt) && steps > 0 && k == 1.0 / steps as real && k > 0.0
    ensures SegmentLength(sqrt, Along(a, b, i, steps), Along(a, b, i + 1, steps)) == k * SegmentLength(sqrt, a, b)
  {
    var p, q := Along(a, b, i, steps), Along(a, b, i + 1, steps);
    AxisPart(a.x, b.x, i, steps, k);
    AxisPart(a.y, b.y, i, steps, k);
    PartHypot(sqrt, q.x - p.x, q.y - p.y, b.x - a.x, b.y - a.y, k);
  }

  lemma PartHypot(sqrt: real -> real, x: real, y: real, dx: real, dy: real, k: real)
    requires IsSqrt(sqrt) && k >= 0.0 && x == k * dx && y == k * dy
    ensures Hypot(sqrt, x, y) == k * Hypot(sqrt, dx, dy)
  {
    HypotScale(sqrt, dx, dy, k);
  }

  lemma AxisPart(a: real, b: real, i: int, steps: int, k: real)
    requires steps > 0 && k == 1.0 / steps as real
    ensures Part(a, b, i + 1, steps) - Part(a, b, i, steps) == k * (b - a)
  {
    PartOffset(b - a, i, steps);
  }

  /** Cutting a segment into ceil(length / limit) parts makes every part short enough. */
  lemma PartLength(sqrt: real -> real, a: Point, b: Point, i: int, steps: int, limit: real)
    requires IsSqrt(sqrt) && limit > 0.0 && steps > 0 && steps as real >= SegmentLength(sqrt, a, b) / limit
    ensures SegmentLength(sqrt, Along(a, b, i, steps), Along(a, b, i + 1, steps)) <= limit
  {
    var k := 1.0 / steps as real;
    PartIsShare(sqrt, a, b, i, steps, k);
    ShareWithin(SegmentLength(sqrt, a, b), steps as real, k, limit,
                SegmentLength(sqrt, Along(a, b, i, steps), Along(a, b, i + 1, steps)));
  }

  lemma EvenGaps(sqrt: real -> real, a: Point, b: Point, steps: nat, limit: real)
    requires IsSqrt(sqrt) && limit > 0.0 && steps > 0 && steps as real >= SegmentLength(sqrt, a, b) / limit
    ensures GapsWithin(Gaps(sqrt), Evenly(a, b, steps), limit)
    ensures Evenly(a, b, steps)[0] == a && Evenly(a, b, steps)[steps] == b
  {
    AlongEnds(a, b, steps);
    forall i | 0 <= i < steps ensures SegmentLength(sqrt, Along(a, b, i, steps), Along(a, b, i + 1, steps)) <= limit {
      PartLength(sqrt, a, b, i, steps, limit);
    }
  }

  lemma PartOffset(d: real, i: int, steps: int)
    requires steps > 0
    ensures d * (i + 1) as real / steps as real - d * i as real / steps as real == 1.0 / steps as real * d
  {
    var n := steps as real;
    assert d * (i + 1) as real == d * i as real + d;
    assert (d * i as real + d) / n == d * i as real / n + d / n;
    assert d / n == 1.0 / n * d;
  }

  lemma ShareWithin(length: real, n: real, k: real, limit: real, part: real)
    requires n > 0.0 && limit > 0.0 && k == 1.0 / n && n >= length / limit && part == k * length
    ensures part <= limit
  {
    var q := length / limit;
    assert q * limit == length;
    assert q * limit <= n * limit;
    assert k * n == 1.0;
    assert k > 0.0;
    assert k * length <= k * (n * limit);
    assert k * (n * limit) == (k * n) * limit;
  }

  method ResamplePolyline(sqrt: real -> real, points: seq<Point>, maximumSegment: real)
    returns (r: Result<seq<Point>>, ghost marks: seq<nat>)
    requires IsSqrt(sqrt)
    ensures r.Err? <==> maximumSegment <= 0.0
    ensures r.Ok? ==> (r.value == [] <==> points == [])
    ensures r.Ok? && points != [] ==>
              && IsResampling(points, r.value, marks) && GapsWithin(Gaps(sqrt), r.value, maximumSegment)
              && IsSparse(Gaps(sqrt), maximumSegment, points, marks)
  {
    marks := [];
    if maximumSegment <= 0.0 {
      return Err("maximum route segment must be positive"), marks;
    }
    if points == [] {
      return Ok([]), marks;
    }
    var result := [points[0]];
    marks := [0];
    for k := 0 to |points| - 1
      invariant IsResampling(points[..k + 1], result, marks) && GapsWithin(Gaps(sqrt), result, maximumSegment)
      invariant |result| > 0 && result[|result| - 1] == points[k]
      invariant IsSparse(Gaps(sqrt), maximumSegment, points[..k + 1], marks)
    {
      result, marks := Extend(sqrt, points[..k + 1], points[k + 1], result, maximumSegment, marks);
      assert points[..k + 2] == points[..k + 1] + [points[k + 1]];
    }
    assert points[..|points|] == points;
    return Ok(result), marks;
  }

  /** Appends the pieces of one more segment. */
  method Extend(sqrt: real -> real, points: seq<Point>, next: Point, result: seq<Point>, maximumSegment: real, ghost marks: seq<nat>)
    returns (longer: seq<Point>, ghost marks': seq<nat>)
    requires IsSqrt(sqrt) && maximumSegment > 0.0
    requires IsResampling(points, result, marks) && GapsWithin(Gaps(sqrt), result, maximumSegment)
    requires |result| > 0 && result[|result| - 1] == points[|points| - 1] && IsSparse(Gaps(sqrt), maximumSegment, points, marks)
    ensures IsSparse(Gaps(sqrt), maximumSegment, points + [next], marks')
    ensures IsResampling(points + [next], longer, marks') && GapsWithin(Gaps(sqrt), longer, maximumSegment)
    ensures |longer| > 0 && longer[|longer| - 1] == next
  {
    var piece := Piece(sqrt, points[|points| - 1], next, maximumSegment);
    PieceResamples(points, next, result, marks, piece);
    PieceGaps(Gaps(sqrt), result, piece, maximumSegment);
    PieceIsSparse(Gaps(sqrt), maximumSegment, points, marks, next, result, |piece|);
    longer, marks' := result + piece, marks + [|result| + |piece| - 1];
  }

  method Piece(sqrt: real -> real, start: Point, end: Point, maximumSegment: real) returns (piece: seq<Point>)
    requires IsSqrt(sqrt) && maximumSegment > 0.0
    ensures |piece| > 0 && piece[|piece| - 1] == end && [start] + piece == Evenly(start, end, |piece|)
    ensures GapsWithin(Gaps(sqrt), [start] + piece, maximumSegment)
    ensures IsNeeded(Gaps(sqrt)(start, end), |piece|, maximumSegment)
  {
    var distance := SegmentLength(sqrt, start, end);
    HypotSquare(sqrt, end.x - start.x, end.y - start.y);
    StepsNeeded(distance, maximumSegment);
    var steps := Max(1, Ceiling(distance / maximumSegment));
    piece := seq(steps, i requires 0 <= i < steps => Along(start, end, i + 1, steps));
    EvenGaps(sqrt, start, end, steps, maximumSegment);
    assert [start] + piece == Evenly(start, end, steps);
  }

  lemma PieceGaps(gap: (Point, Point) -> real, result: seq<Point>, piece: seq<Point>, limit: real)
    requires |result| > 0 && GapsWithin(gap, result, limit) && GapsWithin(gap, [result[|result| - 1]] + piece, limit)
    ensures GapsWithin(gap, result + piece, limit)
  {
    var longer, tail := result + piece, [result[|result| - 1]] + piece;
    forall j {:trigger longer[j]} | 0 <= j < |longer| - 1 ensures gap(longer[j], longer[j + 1]) <= limit {
      if j < |result| - 1 {
        assert longer[j] == result[j] && longer[j + 1] == result[j + 1];
      } else {
        var i := j - (|result| - 1);
        assert longer[j] == tail[i] && longer[j + 1] == tail[i + 1];
      }
    }
  }

  lemma PieceResamples(points: seq<Point>, next: Point, result: seq<Point>, marks: seq<nat>, piece: seq<Point>)
    requires IsResampling(points, result, marks) && |result| > 0 && result[|result| - 1] == points[|points| - 1]
    requires |piece| > 0 && piece[|piece| - 1] == next
    requires [points[|points| - 1]] + piece == Evenly(points[|points| - 1], next, |piece|)
    ensures IsResampling(points + [next], result + piece, marks + [|result| + |piece| - 1])
  {
    var longer, all, vertices := result + piece, marks + [|result| + |piece| - 1], points + [next];
    forall k | 0 <= k < |vertices| - 1 ensures DividesSegment(vertices, longer, all, k) {
      if k < |points| - 1 {
        assert DividesSegment(points, result, marks, k);
        assert longer[marks[k]..marks[k + 1] + 1] == result[marks[k]..marks[k + 1] + 1];
      } else {
        assert longer[|result| - 1..|result| + |piece|] == [points[|points| - 1]] + piece;
      }
    }
  }
}
