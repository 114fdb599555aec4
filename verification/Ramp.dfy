/** The velocity ramp of robot_brain/navigation/motion_safety.py:30-56. */
module Ramp {
  import opened RealMath
  import opened Grid

  function Norm(sqrt: real -> real, v: Point): real { Hypot(sqrt, v.x, v.y) }

  function Minus(a: Point, b: Point): Point { Point(a.x - b.x, a.y - b.y) }

  function Plus(a: Point, b: Point): Point { Point(a.x + b.x, a.y + b.y) }

  function Times(k: real, v: Point): Point { Point(v.x * k, v.y * k) }

  const REST := Point(0.0, 0.0)

  /** One step towards the target, no longer than the maximum. */
  function Approach(sqrt: real -> real, v: Point, target: Point, maximum: real): Point {
    var change := Minus(target, v);
    var delta := Norm(sqrt, change);
    if delta > maximum && delta != 0.0 then Plus(v, Times(maximum / delta, change)) else Plus(v, change)
  }

  lemma NormScales(sqrt: real -> real, k: real, v: Point)
    requires IsSqrt(sqrt) && k >= 0.0
    ensures Norm(sqrt, Times(k, v)) == k * Norm(sqrt, v)
  {
    var n, product := Norm(sqrt, v), k * Norm(sqrt, v);
    HypotSquare(sqrt, v.x, v.y);
    HypotSquare(sqrt, v.x * k, v.y * k);
    Scaled(k, n, product);
    SquareOfProduct(k, n, product, v.x, v.y);
    EqualRoots(Norm(sqrt, Times(k, v)), product, product * product);
  }

  lemma EqualRoots(a: real, b: real, square: real)
    requires a >= 0.0 && b >= 0.0 && a * a == square && b * b == square
    ensures a == b
  {
    SquareOrder(a, b);
    SquareOrder(b, a);
  }

  lemma SquareOfProduct(k: real, n: real, product: real, x: real, y: real)
    requires product == k * n && n * n == x * x + y * y
    ensures product * product == x * k * (x * k) + y * k * (y * k)
  {
    assert product * product == k * k * (n * n);
    assert k * k * (x * x + y * y) == x * k * (x * k) + y * k * (y * k);
  }

  /** Where a step ends: on the segment to the target, at most the maximum away,
      and closer to the target by exactly the length of the step. */
  lemma ApproachStep(sqrt: real -> real, v: Point, target: Point, maximum: real)
    requires IsSqrt(sqrt) && maximum > 0.0
    ensures var next := Approach(sqrt, v, target, maximum);
      var gap := Norm(sqrt, Minus(target, v));
      && Norm(sqrt, Minus(next, v)) == Least(gap, maximum)
      && Norm(sqrt, Minus(target, next)) == gap - Least(gap, maximum)
      && (gap <= maximum <==> next == target)
      && (exists ratio :: 0.0 <= ratio <= 1.0 && next == Plus(v, Times(ratio, Minus(target, v))))
  {
    var change := Minus(target, v);
    var gap, next := Norm(sqrt, change), Approach(sqrt, v, target, maximum);
    HypotSquare(sqrt, change.x, change.y);
    if gap > maximum {
      var ratio := maximum / gap;
      RatioBelowOne(maximum, gap, ratio);
      NormScales(sqrt, ratio, change);
      NormScales(sqrt, 1.0 - ratio, change);
      Remainder(v, target, ratio);
      RemainderLength(ratio, gap, maximum);
      assert Minus(next, v) == Times(ratio, change);
      assert next == Plus(v, Times(ratio, Minus(target, v)));
      if next == target {
        HypotZero(sqrt);
      }
    } else {
      HypotZero(sqrt);
      assert next == Plus(v, Times(1.0, Minus(target, v)));
      assert Minus(next, v) == change;
    }
  }

  function Least(a: real, b: real): real { if a < b then a else b }

  lemma RatioBelowOne(a: real, b: real, ratio: real)
    requires 0.0 < a < b && ratio == a / b
    ensures 0.0 <= ratio <= 1.0 && ratio * b == a
  {
  }

  lemma RemainderLength(ratio: real, gap: real, maximum: real)
    requires ratio * gap == maximum
    ensures (1.0 - ratio) * gap == gap - maximum
  {
  }

  lemma Remainder(v: Point, target: Point, ratio: real)
    ensures Minus(target, Plus(v, Times(ratio, Minus(target, v)))) == Times(1.0 - ratio, Minus(target, v))
  {
    RemainderAxis(v.x, target.x, ratio);
    RemainderAxis(v.y, target.y, ratio);
  }

  lemma RemainderAxis(a: real, b: real, r: real)
    ensures b - (a + (b - a) * r) == (b - a) * (1.0 - r)
  {
  }

  /** A step never leaves the disc that holds both its ends. */
  lemma ApproachKeepsSpeed(sqrt: real -> real, v: Point, target: Point, maximum: real, limit: real)
    requires IsSqrt(sqrt) && maximum > 0.0 && Norm(sqrt, v) <= limit && Norm(sqrt, target) <= limit
    ensures Norm(sqrt, Approach(sqrt, v, target, maximum)) <= limit
  {
    var next := Approach(sqrt, v, target, maximum);
    ApproachStep(sqrt, v, target, maximum);
    var ratio :| 0.0 <= ratio <= 1.0 && next == Plus(v, Times(ratio, Minus(target, v)));
    Blend(v, target, ratio);
    MixtureWithin(sqrt, v, target, ratio, limit);
  }

  lemma MixtureWithin(sqrt: real -> real, v: Point, target: Point, ratio: real, limit: real)
    requires IsSqrt(sqrt) && 0.0 <= ratio <= 1.0 && Norm(sqrt, v) <= limit && Norm(sqrt, target) <= limit
    ensures Norm(sqrt, Plus(Times(1.0 - ratio, v), Times(ratio, target))) <= limit
  {
    var kept, gained := Times(1.0 - ratio, v), Times(ratio, target);
    HypotTriangle(sqrt, kept.x, kept.y, gained.x, gained.y);
    NormScales(sqrt, 1.0 - ratio, v);
    NormScales(sqrt, ratio, target);
    Average(ratio, Norm(sqrt, v), Norm(sqrt, target), Norm(sqrt, kept) + Norm(sqrt, gained), limit);
  }

  lemma Blend(v: Point, target: Point, ratio: real)
    ensures Plus(v, Times(ratio, Minus(target, v))) == Plus(Times(1.0 - ratio, v), Times(ratio, target))
  {
    BlendAxis(v.x, target.x, ratio);
    BlendAxis(v.y, target.y, ratio);
  }

  lemma BlendAxis(a: real, b: real, r: real)
    ensures a + (b - a) * r == a * (1.0 - r) + b * r
  {
  }

  lemma Average(ratio: real, a: real, b: real, average: real, limit: real)
    requires 0.0 <= ratio <= 1.0 && a <= limit && b <= limit && average == (1.0 - ratio) * a + ratio * b
    ensures average <= limit
  {
    Scaled(1.0 - ratio, limit - a, (1.0 - ratio) * (limit - a));
    Scaled(ratio, limit - b, ratio * (limit - b));
    assert (1.0 - ratio) * (limit - a) + ratio * (limit - b) == limit - average;
  }

  // ----- runs -----

  /** One call on the limiter; `maximum` is acceleration times duration. */
  datatype Move = Reset | Step(target: Point, maximum: real, scale: real)
  {
    predicate Valid() { Step? ==> maximum > 0.0 && 0.0 <= scale <= 1.0 }

    function Next(sqrt: real -> real, v: Point): Point {
      if Reset? then REST else Approach(sqrt, v, Times(scale, target), maximum)
    }
  }

  function After(sqrt: real -> real, start: Point, moves: seq<Move>): Point {
    if moves == [] then start else moves[|moves| - 1].Next(sqrt, After(sqrt, start, moves[..|moves| - 1]))
  }

  ghost predicate TargetsWithin(sqrt: real -> real, moves: seq<Move>, limit: real) {
    forall i :: 0 <= i < |moves| ==> moves[i].Valid() && (moves[i].Step? ==> Norm(sqrt, moves[i].target) <= limit)
  }

  lemma ScaledTarget(sqrt: real -> real, target: Point, scale: real, limit: real)
    requires IsSqrt(sqrt) && 0.0 <= scale <= 1.0 && Norm(sqrt, target) <= limit
    ensures Norm(sqrt, Times(scale, target)) <= limit
  {
    NormScales(sqrt, scale, target);
    HypotSquare(sqrt, target.x, target.y);
    Scaled(1.0 - scale, Norm(sqrt, target), (1.0 - scale) * Norm(sqrt, target));
    RemainderLength(scale, Norm(sqrt, target), scale * Norm(sqrt, target));
  }

  /** However steps and resets follow each other, the speed never exceeds the
      largest target speed. */
  lemma {:induction false} SpeedNeverExceedsTargets(sqrt: real -> real, moves: seq<Move>, limit: real)
    requires IsSqrt(sqrt) && limit >= 0.0 && TargetsWithin(sqrt, moves, limit)
    ensures Norm(sqrt, After(sqrt, REST, moves)) <= limit
  {
    HypotZero(sqrt);
    if moves != [] {
      var init, last := moves[..|moves| - 1], moves[|moves| - 1];
      SpeedNeverExceedsTargets(sqrt, init, limit);
      if last.Step? {
        ScaledTarget(sqrt, last.target, last.scale, limit);
        ApproachKeepsSpeed(sqrt, After(sqrt, REST, init), Times(last.scale, last.target), last.maximum, limit);
      }
    }
  }

  /** The direction of a waypoint, as native_go2.py:702-707 computes it. */
  function Heading(sqrt: real -> real, waypoint: Point): Point
    requires Norm(sqrt, waypoint) != 0.0
  {
    Point(waypoint.x / Norm(sqrt, waypoint), waypoint.y / Norm(sqrt, waypoint))
  }

  lemma HeadingIsUnit(sqrt: real -> real, waypoint: Point)
    requires IsSqrt(sqrt) && Norm(sqrt, waypoint) > 0.0
    ensures Norm(sqrt, Heading(sqrt, waypoint)) == 1.0
  {
    var n := Norm(sqrt, waypoint);
    var inverse := 1.0 / n;
    assert inverse * n == 1.0;
    assert inverse >= 0.0;
    NormScales(sqrt, inverse, waypoint);
    QuotientIsProduct(waypoint.x, n, inverse);
    QuotientIsProduct(waypoint.y, n, inverse);
    assert Heading(sqrt, waypoint) == Times(inverse, waypoint);
  }

  lemma QuotientIsProduct(a: real, n: real, inverse: real)
    requires n > 0.0 && inverse * n == 1.0
    ensures a / n == a * inverse
  {
    var q := a / n;
    assert q * n == a;
    assert (q * n) * inverse == q * (inverse * n);
  }

  ghost predicate IsDrive(sqrt: real -> real, speed: real, move: Move) {
    && move.Valid()
    && (move.Step? ==> exists w :: Norm(sqrt, w) > 0.0 && move.target == Times(speed, Heading(sqrt, w)))
  }

  /** No translation command is faster than the configured linear speed. */
  lemma CommandsWithinLinearSpeed(sqrt: real -> real, speed: real, moves: seq<Move>)
    requires IsSqrt(sqrt) && speed >= 0.0 && forall i :: 0 <= i < |moves| ==> IsDrive(sqrt, speed, moves[i])
    ensures Norm(sqrt, After(sqrt, REST, moves)) <= speed
  {
    forall i | 0 <= i < |moves| ensures moves[i].Valid() && (moves[i].Step? ==> Norm(sqrt, moves[i].target) <= speed) {
      assert IsDrive(sqrt, speed, moves[i]);
      if moves[i].Step? {
        var w :| Norm(sqrt, w) > 0.0 && moves[i].target == Times(speed, Heading(sqrt, w));
        HeadingIsUnit(sqrt, w);
        NormScales(sqrt, speed, Heading(sqrt, w));
      }
    }
    SpeedNeverExceedsTargets(sqrt, moves, speed);
  }

  function Repeated(sqrt: real -> real, v: Point, target: Point, maximum: real, steps: nat): Point {
    if steps == 0 then v else Approach(sqrt, Repeated(sqrt, v, target, maximum, steps - 1), target, maximum)
  }

  function Travel(maximum: real, steps: nat): real { steps as real * maximum }

  function Gap(sqrt: real -> real, target: Point, v: Point): real { Norm(sqrt, Minus(target, v)) }

  lemma GapZeroExactly(sqrt: real -> real, target: Point, v: Point)
    requires IsSqrt(sqrt)
    ensures Gap(sqrt, target, v) >= 0.0
    ensures Gap(sqrt, target, v) == 0.0 <==> v == target
  {
    HypotSquare(sqrt, target.x - v.x, target.y - v.y);
    ZeroSquares(target.x - v.x, target.y - v.y);
    SquareZeroExactly(Gap(sqrt, target, v));
  }

  /** A constant target is approached by the full step each time. */
  lemma {:induction false} RemainingGap(sqrt: real -> real, v: Point, target: Point, maximum: real, steps: nat)
    requires IsSqrt(sqrt) && maximum > 0.0
    ensures Gap(sqrt, target, Repeated(sqrt, v, target, maximum, steps))
         == Shortened(Gap(sqrt, target, v), Travel(maximum, steps))
  {
    if steps == 0 {
      GapZeroExactly(sqrt, target, v);
      assert Travel(maximum, 0) == 0.0;
    } else {
      RemainingGap(sqrt, v, target, maximum, steps - 1);
      NextTravel(maximum, steps - 1);
      ApproachGap(sqrt, Repeated(sqrt, v, target, maximum, steps - 1), target, maximum);
    }
  }

  /** What is left of a distance after travelling towards its end. */
  function Shortened(gap: real, travelled: real): real {
    if gap <= travelled then 0.0 else gap - travelled
  }

  lemma ApproachGap(sqrt: real -> real, v: Point, target: Point, maximum: real)
    requires IsSqrt(sqrt) && maximum > 0.0
    ensures Gap(sqrt, target, Approach(sqrt, v, target, maximum)) == Shortened(Gap(sqrt, target, v), maximum)
  {
    ApproachStep(sqrt, v, target, maximum);
  }

  lemma NextTravel(maximum: real, n: nat)
    requires maximum > 0.0
    ensures Travel(maximum, n + 1) == Travel(maximum, n) + maximum && Travel(maximum, n) >= 0.0
  {
    Scaled(n as real, maximum, Travel(maximum, n));
    assert (n + 1) as real * maximum == n as real * maximum + maximum;
  }

  /** It is reached exactly, after the distance divided by the step length,
      rounded up, and not before. */
  lemma ReachedExactly(sqrt: real -> real, v: Point, target: Point, maximum: real, steps: nat)
    requires IsSqrt(sqrt) && maximum > 0.0
    ensures Repeated(sqrt, v, target, maximum, steps) == target <==> steps >= Ceiling(Gap(sqrt, target, v) / maximum)
  {
    RemainingGap(sqrt, v, target, maximum, steps);
    GapZeroExactly(sqrt, target, Repeated(sqrt, v, target, maximum, steps));
    CeilingSteps(Gap(sqrt, target, v), maximum, steps);
  }

  lemma CeilingSteps(gap: real, maximum: real, steps: nat)
    requires maximum > 0.0
    ensures gap <= Travel(maximum, steps) <==> steps >= Ceiling(gap / maximum)
  {
    var q := gap / maximum;
    assert q * maximum == gap;
    if steps as real >= q {
      Scaled(steps as real - q, maximum, Travel(maximum, steps) - gap);
    } else {
      Scaled(q - steps as real, maximum, gap - Travel(maximum, steps));
    }
  }

  class LinearVelocityRampLimiter {
    const sqrt: real -> real
    const maxAcceleration: real
    var vx: real
    var vy: real

    function Velocity(): Point
      reads this
    {
      Point(vx, vy)
    }

    constructor (sqrt: real -> real, maxAcceleration: real)
      requires maxAcceleration > 0.0
      ensures this.sqrt == sqrt && this.maxAcceleration == maxAcceleration && Velocity() == REST
    {
      this.sqrt, this.maxAcceleration := sqrt, maxAcceleration;
      vx, vy := 0.0, 0.0;
    }

    method Step(targetVx: real, targetVy: real, duration: real, scale: real) returns (velocity: Result<Point>)
      requires IsSqrt(sqrt) && maxAcceleration > 0.0
      modifies this
      ensures velocity.Err? <==> duration <= 0.0 || !(0.0 <= scale <= 1.0)
      ensures velocity.Err? ==> Velocity() == old(Velocity())
      ensures velocity.Ok? ==>
        var move := Move.Step(Point(targetVx, targetVy), maxAcceleration * duration, scale);
        move.Valid() && velocity.value == Velocity() == move.Next(sqrt, old(Velocity()))
    {
      if duration <= 0.0 || !(0.0 <= scale <= 1.0) {
        return Err("invalid velocity ramp duration or scale");
      }
      var tx, ty := targetVx * scale, targetVy * scale;
      assert Point(tx, ty) == Times(scale, Point(targetVx, targetVy));
      var dx, dy := tx - vx, ty - vy;
      var delta := Hypot(sqrt, dx, dy);
      var maximum := maxAcceleration * duration;
      ProductPositive(maxAcceleration, duration);
      if delta > maximum {
        var ratio := maximum / delta;
        dx, dy := dx * ratio, dy * ratio;
      }
      assert Point(vx + dx, vy + dy) == Approach(sqrt, Point(vx, vy), Point(tx, ty), maximum);
      vx, vy := vx + dx, vy + dy;
      velocity := Ok(Point(vx, vy));
    }

    method ResetVelocity()
      modifies this
      ensures Velocity() == Move.Reset.Next(sqrt, old(Velocity())) == REST
    {
      vx, vy := 0.0, 0.0;
    }
  }
}
