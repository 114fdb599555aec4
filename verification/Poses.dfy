/** Planar poses with wrapped yaw: robot_brain/navigation/pose_graph.py:295-310
    and 381-397, and the map/odometry transforms of
    robot_brain/navigation/native_go2.py:1034-1080. Angles are in degrees. */
module Poses {
  import opened RealMath
  import opened Grid

  /** `math.cos` and `math.sin` of an angle given in degrees. */
  datatype Trig = Trig(cos: real -> real, sin: real -> real)
  {
    ghost predicate UnitAt(a: real) { cos(a) * cos(a) + sin(a) * sin(a) == 1.0 }

    ghost predicate AdditionAt(a: real, b: real) {
      && cos(a + b) == cos(a) * cos(b) - sin(a) * sin(b)
      && sin(a + b) == sin(a) * cos(b) + cos(a) * sin(b)
    }

    /** What the pose algebra needs of them. */
    ghost predicate Lawful() {
      && cos(0.0) == 1.0 && sin(0.0) == 0.0
      && cos(360.0) == 1.0 && sin(360.0) == 0.0
      && (forall a :: UnitAt(a))
      && (forall a, b :: AdditionAt(a, b))
    }
  }

  datatype Pose = Pose(x: real, y: real, yaw: real)

  const ORIGIN := Pose(0.0, 0.0, 0.0)

  /** Python's `%` takes the sign of the divisor, so this wraps into [-180, 180). */
  function Normalize(value: real): real {
    value + 180.0 - 360.0 * Turns(value) as real - 180.0
  }

  function Turns(value: real): int { ((value + 180.0) / 360.0).Floor }

  function AngleDelta(target: real, source: real): real { Normalize(target - source) }

  predicate Wrapped(yaw: real) { -180.0 <= yaw < 180.0 }

  function Turned(a: real, turns: int): real { a + 360.0 * turns as real }

  /** Equal up to whole turns. */
  ghost predicate SameHeading(a: real, b: real) {
    exists k :: a == Turned(b, k)
  }

  lemma NormalizeIsCanonical(v: real)
    ensures Wrapped(Normalize(v)) && SameHeading(Normalize(v), v)
  {
    assert Normalize(v) == Turned(v, -Turns(v));
  }

  /** Two angles get the same wrapped value exactly when they are the same heading. */
  lemma SameHeadingExactly(a: real, b: real)
    ensures Normalize(a) == Normalize(b) <==> SameHeading(a, b)
  {
    if Normalize(a) == Normalize(b) {
      assert a == Turned(b, Turns(a) - Turns(b));
    }
    if SameHeading(a, b) {
      var k :| a == Turned(b, k);
      assert (a + 180.0) / 360.0 == (b + 180.0) / 360.0 + k as real;
      assert Turns(a) == Turns(b) + k;
    }
  }

  lemma HeadingSum(a: real, b: real)
    ensures Normalize(a + Normalize(b)) == Normalize(a + b) == Normalize(Normalize(a) + b)
  {
    assert a + Normalize(b) == Turned(a + b, -Turns(b));
    SameHeadingExactly(a + Normalize(b), a + b);
    assert Normalize(a) + b == Turned(a + b, -Turns(a));
    SameHeadingExactly(Normalize(a) + b, a + b);
  }

  lemma WrappedIsFixed(v: real)
    ensures Wrapped(v) <==> Normalize(v) == v
  {
    NormalizeIsCanonical(v);
    if Wrapped(v) {
      assert Turns(v) == 0;
    }
  }

  // ----- trigonometry -----

  /** Cosine is even and sine odd, by solving the addition laws for `a + -a`. */
  lemma Opposite(trig: Trig, a: real)
    requires trig.Lawful()
    ensures trig.cos(-a) == trig.cos(a) && trig.sin(-a) == -trig.sin(a)
  {
    var c, s, d, t := trig.cos(a), trig.sin(a), trig.cos(-a), trig.sin(-a);
    assert trig.UnitAt(a) && trig.AdditionAt(a, -a);
    assert a + (-a) == 0.0;
    OppositeAlgebra(c, s, d, t);
  }

  lemma OppositeAlgebra(c: real, s: real, d: real, t: real)
    requires c * c + s * s == 1.0 && c * d - s * t == 1.0 && s * d + c * t == 0.0
    ensures d == c && t == -s
  {
    assert (c * c + s * s) * d == c * (c * d - s * t) + s * (s * d + c * t);
    assert (c * c + s * s) * t == c * (s * d + c * t) - s * (c * d - s * t);
  }

  lemma {:induction false} WholeTurns(trig: Trig, a: real, k: int)
    requires trig.Lawful()
    ensures trig.cos(Turned(a, k)) == trig.cos(a) && trig.sin(Turned(a, k)) == trig.sin(a)
    decreases Abs(k)
  {
    if k > 0 {
      WholeTurns(trig, a, k - 1);
      OneTurn(trig, Turned(a, k - 1));
      assert Turned(a, k) == Turned(a, k - 1) + 360.0;
    } else if k < 0 {
      WholeTurns(trig, a, k + 1);
      OneTurn(trig, Turned(a, k));
      assert Turned(a, k + 1) == Turned(a, k) + 360.0;
    } else {
      assert Turned(a, k) == a;
    }
  }

  lemma OneTurn(trig: Trig, a: real)
    requires trig.Lawful()
    ensures trig.cos(a + 360.0) == trig.cos(a) && trig.sin(a + 360.0) == trig.sin(a)
  {
    assert trig.AdditionAt(a, 360.0);
  }

  /** Wrapping an angle changes neither its cosine nor its sine. */
  lemma NormalizedTrig(trig: Trig, a: real)
    requires trig.Lawful()
    ensures trig.cos(Normalize(a)) == trig.cos(a) && trig.sin(Normalize(a)) == trig.sin(a)
  {
    WholeTurns(trig, a, -Turns(a));
    assert Normalize(a) == Turned(a, -Turns(a));
  }

  // ----- the pose algebra -----

  function Rotated(cosine: real, sine: real, x: real, y: real): Point {
    Point(cosine * x - sine * y, sine * x + cosine * y)
  }

  function ComposePose(trig: Trig, parent: Pose, child: Pose): Pose {
    var turned := Rotated(trig.cos(parent.yaw), trig.sin(parent.yaw), child.x, child.y);
    Pose(parent.x + turned.x, parent.y + turned.y, Normalize(parent.yaw + child.yaw))
  }

  function InversePose(trig: Trig, pose: Pose): Pose {
    var (cosine, sine) := (trig.cos(pose.yaw), trig.sin(pose.yaw));
    Pose(-cosine * pose.x - sine * pose.y, sine * pose.x - cosine * pose.y, Normalize(-pose.yaw))
  }

  function RelativePose(trig: Trig, source: Pose, target: Pose): Pose {
    ComposePose(trig, InversePose(trig, source), target)
  }

  /** The same placement with its yaw wrapped. */
  function Canonical(pose: Pose): Pose { pose.(yaw := Normalize(pose.yaw)) }

  lemma ComposeAssociative(trig: Trig, a: Pose, b: Pose, c: Pose)
    requires trig.Lawful()
    ensures ComposePose(trig, ComposePose(trig, a, b), c) == ComposePose(trig, a, ComposePose(trig, b, c))
  {
    var (ca, sa, cb, sb) := (trig.cos(a.yaw), trig.sin(a.yaw), trig.cos(b.yaw), trig.sin(b.yaw));
    NormalizedTrig(trig, a.yaw + b.yaw);
    assert trig.AdditionAt(a.yaw, b.yaw);
    RotateTwice(ca, sa, cb, sb, b.x, b.y, c.x, c.y);
    HeadingSum(a.yaw + b.yaw, c.yaw);
    HeadingSum(a.yaw, b.yaw + c.yaw);
    assert a.yaw + b.yaw + c.yaw == a.yaw + (b.yaw + c.yaw);
    var whole := Rotated(trig.cos(a.yaw + b.yaw), trig.sin(a.yaw + b.yaw), c.x, c.y);
    var left, inner := ComposePose(trig, ComposePose(trig, a, b), c), ComposePose(trig, b, c);
    assert left.x == a.x + Rotated(ca, sa, b.x, b.y).x + whole.x;
    assert left.y == a.y + Rotated(ca, sa, b.x, b.y).y + whole.y;
    assert Rotated(ca, sa, inner.x, inner.y) == Point(left.x - a.x, left.y - a.y);
  }

  lemma RotateTwice(ca: real, sa: real, cb: real, sb: real, x: real, y: real, u: real, v: real)
    ensures var inner := Rotated(cb, sb, u, v);
      var whole := Rotated(ca * cb - sa * sb, sa * cb + ca * sb, u, v);
      var first := Rotated(ca, sa, x, y);
      Rotated(ca, sa, x + inner.x, y + inner.y) == Point(first.x + whole.x, first.y + whole.y)
  {
  }

  /** A child one unit ahead of its parent lies in the direction of the parent's heading, and one
      unit to its left a quarter turn counter-clockwise from there. */
  lemma ComposeAxes(trig: Trig, parent: Pose, yaw: real)
    ensures var ahead, aside := ComposePose(trig, parent, Pose(1.0, 0.0, yaw)), ComposePose(trig, parent, Pose(0.0, 1.0, yaw));
      && ahead.x - parent.x == trig.cos(parent.yaw) && ahead.y - parent.y == trig.sin(parent.yaw)
      && aside.x - parent.x == -trig.sin(parent.yaw) && aside.y - parent.y == trig.cos(parent.yaw)
      && SameHeading(ahead.yaw, parent.yaw + yaw)
  {
    NormalizeIsCanonical(parent.yaw + yaw);
  }

  /** And children add up as vectors do. */
  lemma ComposeAdds(trig: Trig, parent: Pose, u: Pose, v: Pose)
    ensures var sum := ComposePose(trig, parent, Pose(u.x + v.x, u.y + v.y, u.yaw));
      && sum.x + parent.x == ComposePose(trig, parent, u).x + ComposePose(trig, parent, v).x
      && sum.y + parent.y == ComposePose(trig, parent, u).y + ComposePose(trig, parent, v).y
  {
  }

  lemma ComposeOrigin(trig: Trig, p: Pose)
    requires trig.Lawful()
    ensures ComposePose(trig, ORIGIN, p) == Canonical(p) == ComposePose(trig, p, ORIGIN)
  {
  }

  /** Both sides of the inverse. */
  lemma InverseCancels(trig: Trig, p: Pose)
    requires trig.Lawful()
    ensures ComposePose(trig, p, InversePose(trig, p)) == ORIGIN
    ensures ComposePose(trig, InversePose(trig, p), p) == ORIGIN
  {
    var (c, s) := (trig.cos(p.yaw), trig.sin(p.yaw));
    Opposite(trig, p.yaw);
    NormalizedTrig(trig, -p.yaw);
    assert trig.UnitAt(p.yaw);
    assert c * (-c * p.x - s * p.y) - s * (s * p.x - c * p.y) == -(c * c + s * s) * p.x;
    assert s * (-c * p.x - s * p.y) + c * (s * p.x - c * p.y) == -(c * c + s * s) * p.y;
    HeadingSum(p.yaw, -p.yaw);
    HeadingSum(-p.yaw, p.yaw);
    assert Turns(0.0) == 0;
  }

  /** Placing a relative pose at its source gives the target back. */
  lemma RelativeRoundTrip(trig: Trig, source: Pose, target: Pose)
    requires trig.Lawful()
    ensures ComposePose(trig, source, RelativePose(trig, source, target)) == Canonical(target)
  {
    ComposeAssociative(trig, source, InversePose(trig, source), target);
    InverseCancels(trig, source);
    ComposeOrigin(trig, target);
  }

  /** Undoing a placement on the right. */
  lemma ComposeUndone(trig: Trig, a: Pose, b: Pose)
    requires trig.Lawful()
    ensures ComposePose(trig, ComposePose(trig, a, InversePose(trig, b)), b) == Canonical(a)
  {
    ComposeAssociative(trig, a, InversePose(trig, b), b);
    InverseCancels(trig, b);
    ComposeOrigin(trig, a);
  }

  /** Only the heading of a composed pose matters, not how many turns it holds. */
  lemma ComposeCanonical(trig: Trig, a: Pose, b: Pose)
    requires trig.Lawful()
    ensures ComposePose(trig, Canonical(a), b) == ComposePose(trig, a, b) == ComposePose(trig, a, Canonical(b))
  {
    NormalizedTrig(trig, a.yaw);
    HeadingSum(a.yaw, b.yaw);
  }

  function SquaredGap(a: Point, b: Point): real {
    (a.x - b.x) * (a.x - b.x) + (a.y - b.y) * (a.y - b.y)
  }

  function Place(trig: Trig, pose: Pose, p: Point): Point {
    var turned := Rotated(trig.cos(pose.yaw), trig.sin(pose.yaw), p.x, p.y);
    Point(pose.x + turned.x, pose.y + turned.y)
  }

  /** Placing a point is composing with it. */
  lemma PlaceIsCompose(trig: Trig, pose: Pose, p: Point, yaw: real)
    ensures Place(trig, pose, p).x == ComposePose(trig, pose, Pose(p.x, p.y, yaw)).x
    ensures Place(trig, pose, p).y == ComposePose(trig, pose, Pose(p.x, p.y, yaw)).y
  {
  }

  /** Poses move points rigidly. */
  lemma PlaceKeepsDistances(trig: Trig, pose: Pose, p: Point, q: Point)
    requires trig.Lawful()
    ensures SquaredGap(Place(trig, pose, p), Place(trig, pose, q)) == SquaredGap(p, q)
  {
    assert trig.UnitAt(pose.yaw);
    RigidTurn(trig.cos(pose.yaw), trig.sin(pose.yaw), p.x, p.y, q.x, q.y);
    var (a, b) := (Rotated(trig.cos(pose.yaw), trig.sin(pose.yaw), p.x, p.y),
                   Rotated(trig.cos(pose.yaw), trig.sin(pose.yaw), q.x, q.y));
    assert pose.x + a.x - (pose.x + b.x) == a.x - b.x && pose.y + a.y - (pose.y + b.y) == a.y - b.y;
  }

  lemma RigidTurn(c: real, s: real, x: real, y: real, u: real, v: real)
    requires c * c + s * s == 1.0
    ensures SquaredGap(Rotated(c, s, x, y), Rotated(c, s, u, v)) == SquaredGap(Point(x, y), Point(u, v))
  {
    var (dx, dy) := (x - u, y - v);
    assert c * x - s * y - (c * u - s * v) == c * dx - s * dy;
    assert s * x + c * y - (s * u + c * v) == s * dx + c * dy;
    assert (c * dx - s * dy) * (c * dx - s * dy) + (s * dx + c * dy) * (s * dx + c * dy)
        == (c * c + s * s) * (dx * dx + dy * dy);
  }

  /** Part of the way from one heading to another, the short way round. */
  function PartTurn(from: real, to: real, share: real): real { from + AngleDelta(to, from) * share }

  function InterpolatePose(start: Pose, end: Pose, alpha: real): Pose {
    Pose(start.x + (end.x - start.x) * alpha,
         start.y + (end.y - start.y) * alpha,
         Normalize(PartTurn(start.yaw, end.yaw, alpha)))
  }

  /** Interpolation runs from one pose to the other and turns the short way. */
  lemma InterpolateEnds(start: Pose, end: Pose)
    ensures InterpolatePose(start, end, 0.0) == Canonical(start)
    ensures InterpolatePose(start, end, 1.0) == Canonical(end)
  {
    HeadingSum(start.yaw, end.yaw - start.yaw);
    assert start.yaw + (end.yaw - start.yaw) == end.yaw;
  }

  // ----- map and odometry frames -----

  datatype FramedPose = FramedPose(pose: Pose, frameId: string)

  function BodyToWorld(trig: Trig, x: real, y: real, yaw: real, forward: real, left: real): Point {
    var turned := Rotated(trig.cos(yaw), trig.sin(yaw), forward, left);
    Point(x + turned.x, y + turned.y)
  }

  function WorldDeltaToBody(trig: Trig, dx: real, dy: real, yaw: real): Point {
    var (cosine, sine) := (trig.cos(yaw), trig.sin(yaw));
    Point(cosine * dx + sine * dy, -sine * dx + cosine * dy)
  }

  function OdomToMap(trig: Trig, pose: Option<FramedPose>, transform: Pose): Option<FramedPose> {
    if pose.None? then None
    else
      var p := pose.value.pose;
      var at := BodyToWorld(trig, transform.x, transform.y, transform.yaw, p.x, p.y);
      Some(FramedPose(Pose(at.x, at.y, Normalize(transform.yaw + p.yaw)), "map"))
  }

  function MapToOdom(trig: Trig, pose: Pose, transform: Pose): FramedPose {
    var at := WorldDeltaToBody(trig, pose.x - transform.x, pose.y - transform.y, transform.yaw);
    FramedPose(Pose(at.x, at.y, Normalize(pose.yaw - transform.yaw)), "odom")
  }

  function MapFromOdomTransform(trig: Trig, mapPose: Pose, odomPose: Pose): Pose {
    var yaw := Normalize(mapPose.yaw - odomPose.yaw);
    var rotated := BodyToWorld(trig, 0.0, 0.0, yaw, odomPose.x, odomPose.y);
    Pose(mapPose.x - rotated.x, mapPose.y - rotated.y, yaw)
  }

  /** The two frame changes are the group operations of the pose algebra. */
  lemma FramesArePoses(trig: Trig, pose: Pose, frameId: string, transform: Pose)
    requires trig.Lawful()
    ensures OdomToMap(trig, Some(FramedPose(pose, frameId)), transform)
         == Some(FramedPose(ComposePose(trig, transform, pose), "map"))
    ensures MapToOdom(trig, pose, transform) == FramedPose(RelativePose(trig, transform, pose), "odom")
  {
    var (c, s) := (trig.cos(transform.yaw), trig.sin(transform.yaw));
    Opposite(trig, transform.yaw);
    NormalizedTrig(trig, -transform.yaw);
    RotateBack(c, s, transform.x, transform.y, pose.x, pose.y);
    HeadingSum(-transform.yaw, pose.yaw);
    assert -transform.yaw + pose.yaw == pose.yaw - transform.yaw;
  }

  lemma RotateBack(c: real, s: real, x: real, y: real, u: real, v: real)
    ensures var back := Rotated(c, -s, u, v);
      && c * (u - x) + s * (v - y) == -c * x - s * y + back.x
      && -s * (u - x) + c * (v - y) == s * x - c * y + back.y
  {
  }

  /** Going to the map and back, or the other way round, loses only whole turns. */
  lemma FramesAreInverse(trig: Trig, pose: Pose, frameId: string, transform: Pose)
    requires trig.Lawful()
    ensures var mapped := OdomToMap(trig, Some(FramedPose(pose, frameId)), transform);
      mapped.Some? && MapToOdom(trig, mapped.value.pose, transform) == FramedPose(Canonical(pose), "odom")
    ensures OdomToMap(trig, Some(MapToOdom(trig, pose, transform)), transform)
         == Some(FramedPose(Canonical(pose), "map"))
  {
    FramesArePoses(trig, pose, frameId, transform);
    var mapped := ComposePose(trig, transform, pose);
    FramesArePoses(trig, mapped, "map", transform);
    ComposeAssociative(trig, InversePose(trig, transform), transform, pose);
    InverseCancels(trig, transform);
    ComposeOrigin(trig, pose);
    FramesArePoses(trig, RelativePose(trig, transform, pose), "odom", transform);
    RelativeRoundTrip(trig, transform, pose);
  }

  /** The transform a relocalization installs sends the odometry pose it was
      computed from to the map pose that was found, and nothing else would. */
  lemma RelocalizationFits(trig: Trig, mapPose: Pose, odomPose: Pose, frameId: string, transform: Pose)
    requires trig.Lawful()
    ensures Canonical(transform) == MapFromOdomTransform(trig, mapPose, odomPose)
      <==> OdomToMap(trig, Some(FramedPose(odomPose, frameId)), transform)
            == Some(FramedPose(Canonical(mapPose), "map"))
  {
    var solved := MapFromOdomTransform(trig, mapPose, odomPose);
    FramesArePoses(trig, odomPose, frameId, transform);
    ComposeCanonical(trig, transform, odomPose);
    YawDifference(mapPose.yaw, odomPose.yaw);
    HeadingDifference(mapPose.yaw, odomPose.yaw, transform.yaw);
    var placed := ComposePose(trig, transform, odomPose);
    assert ComposePose(trig, solved, odomPose) == Canonical(mapPose);
    NormalizedTrig(trig, transform.yaw);
    if placed == Canonical(mapPose) {
      assert Normalize(transform.yaw) == solved.yaw;
      assert trig.cos(solved.yaw) == trig.cos(transform.yaw) && trig.sin(solved.yaw) == trig.sin(transform.yaw);
    }
  }

  lemma YawDifference(a: real, b: real)
    ensures Normalize(Normalize(a - b) + b) == Normalize(a)
  {
    HeadingSum(a - b, b);
    assert a - b + b == a;
  }

  lemma HeadingDifference(a: real, b: real, c: real)
    ensures Normalize(c + b) == Normalize(a) ==> Normalize(c) == Normalize(a - b)
  {
    HeadingSum(c + b, -b);
    HeadingSum(a, -b);
    assert c + b + -b == c && a + -b == a - b;
  }
}
