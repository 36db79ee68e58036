/**
 * Plain real-valued stand-ins for the vector and box types of the 3D library
 * (points, axis-aligned boxes built from point sets) and for the transcendental
 * functions the layouts call (sine, cosine, exponential, square root, pi).
 */
module Geometry {

  datatype Vec2 = Vec2(x: real, y: real)

  datatype Vec3 = Vec3(x: real, y: real, z: real)

  /** An axis-aligned box given by its two corners. */
  datatype Box = Box(min: Vec3, max: Vec3)

  function Min(a: real, b: real): real { if a <= b then a else b }

  function Max(a: real, b: real): real { if a <= b then b else a }

  /** The extent of a box along each axis. */
  function Size(b: Box): Vec3 {
    Vec3(b.max.x - b.min.x, b.max.y - b.min.y, b.max.z - b.min.z)
  }

  /** The centre of a box. */
  function Center(b: Box): Vec3 {
    Vec3((b.min.x + b.max.x) / 2.0, (b.min.y + b.max.y) / 2.0, (b.min.z + b.max.z) / 2.0)
  }

  predicate Inside(p: Vec3, b: Box) {
    b.min.x <= p.x <= b.max.x && b.min.y <= p.y <= b.max.y && b.min.z <= p.z <= b.max.z
  }

  /** A box whose corners are ordered on every axis. */
  predicate Ordered(b: Box) {
    b.min.x <= b.max.x && b.min.y <= b.max.y && b.min.z <= b.max.z
  }

  /** The box grown just enough to hold `p` as well. */
  function ExpandByPoint(b: Box, p: Vec3): Box {
    Box(Vec3(Min(b.min.x, p.x), Min(b.min.y, p.y), Min(b.min.z, p.z)),
        Vec3(Max(b.max.x, p.x), Max(b.max.y, p.y), Max(b.max.z, p.z)))
  }

  /**
   * The box holding every point (the library's `setFromPoints` and
   * `computeBoundingBox`); `BoundsOfTight` shows it is the smallest one.
   */
  function BoundsOf(pts: seq<Vec3>): (b: Box)
    requires |pts| > 0
    ensures Ordered(b)
    ensures forall i :: 0 <= i < |pts| ==> Inside(pts[i], b)
  {
    if |pts| == 1 then Box(pts[0], pts[0])
    else
      var b := ExpandByPoint(BoundsOf(pts[..|pts| - 1]), pts[|pts| - 1]);
      assert forall i :: 0 <= i < |pts| - 1 ==> pts[..|pts| - 1][i] == pts[i];
      b
  }

  /** Each of the six faces of the bounding box touches one of the points. */
  lemma {:induction false} BoundsOfTight(pts: seq<Vec3>)
    requires |pts| > 0
    ensures exists i :: 0 <= i < |pts| && pts[i].x == BoundsOf(pts).min.x
    ensures exists i :: 0 <= i < |pts| && pts[i].x == BoundsOf(pts).max.x
    ensures exists i :: 0 <= i < |pts| && pts[i].y == BoundsOf(pts).min.y
    ensures exists i :: 0 <= i < |pts| && pts[i].y == BoundsOf(pts).max.y
    ensures exists i :: 0 <= i < |pts| && pts[i].z == BoundsOf(pts).min.z
    ensures exists i :: 0 <= i < |pts| && pts[i].z == BoundsOf(pts).max.z
  {
    if |pts| == 1 {
      assert BoundsOf(pts) == Box(pts[0], pts[0]);
    } else {
      var init := pts[..|pts| - 1];
      BoundsOfTight(init);
      assert forall i :: 0 <= i < |init| ==> init[i] == pts[i];
      assert BoundsOf(pts) == ExpandByPoint(BoundsOf(init), pts[|pts| - 1]);
    }
  }

  /** Linear interpolation between two points (`lerpVectors`). */
  function Lerp(a: Vec3, b: Vec3, t: real): (p: Vec3)
    ensures t == 0.0 ==> p == a
    ensures t == 1.0 ==> p == b
  {
    Vec3(a.x + (b.x - a.x) * t, a.y + (b.y - a.y) * t, a.z + (b.z - a.z) * t)
  }

  /**
   * The host's floating-point library, passed in as values: the model reasons
   * over exact reals and never about rounding.
   */
  datatype MathLib = MathLib(
    pi: real,
    sin: real -> real,
    cos: real -> real,
    exp: real -> real,
    sqrt: real -> real)

  function Sin(m: MathLib, t: real): real { m.sin(t) }

  function Cos(m: MathLib, t: real): real { m.cos(t) }

  function Exp(m: MathLib, t: real): real { m.exp(t) }

  function Sqrt(m: MathLib, t: real): real { m.sqrt(t) }

  /** `sqrt` is the non-negative square root on non-negative arguments. */
  ghost predicate SqrtSound(m: MathLib) {
    forall t: real :: 0.0 <= t ==> 0.0 <= Sqrt(m, t) && Sqrt(m, t) * Sqrt(m, t) == t
  }

  /** `sin` and `cos` satisfy the Pythagorean identity. */
  ghost predicate TrigSound(m: MathLib) {
    forall t: real :: Cos(m, t) * Cos(m, t) + Sin(m, t) * Sin(m, t) == 1.0
  }

  /** Under a sound square root, the root of a number in [0,1) is in [0,1). */
  lemma SqrtBelowOne(m: MathLib, t: real)
    requires SqrtSound(m)
    requires 0.0 <= t < 1.0
    ensures 0.0 <= Sqrt(m, t) < 1.0
  {
    var s := Sqrt(m, t);
    assert 0.0 <= s && s * s == t;
    if s >= 1.0 {
      assert false;
    }
  }

  /** The squared distance between two points in the ground plane. */
  function DistSq2(a: Vec3, b: Vec3): real {
    (a.x - b.x) * (a.x - b.x) + (a.y - b.y) * (a.y - b.y)
  }

  /** The point at `angle` and `radius` from `c` in the ground plane. */
  function Polar(m: MathLib, c: Vec3, angle: real, radius: real): Vec3 {
    Vec3(c.x + Cos(m, angle) * radius, c.y + Sin(m, angle) * radius, 0.0)
  }

  /** A polar offset lies exactly `radius` away from its centre. */
  lemma PolarDistance(m: MathLib, c: Vec3, angle: real, radius: real)
    requires TrigSound(m)
    ensures DistSq2(Polar(m, c, angle, radius), c) == radius * radius
  {
    var co, si := Cos(m, angle), Sin(m, angle);
    calc {
      DistSq2(Polar(m, c, angle, radius), c);
      (co * radius) * (co * radius) + (si * radius) * (si * radius);
      (co * co + si * si) * (radius * radius);
      radius * radius;
    }
  }

  /** A quotient of a number in [0, d] by d lies in [0, 1], touching each end only at that end. */
  lemma DivBounds(a: real, d: real)
    requires d > 0.0 && 0.0 <= a <= d
    ensures 0.0 <= a / d <= 1.0
    ensures a / d == 0.0 <==> a == 0.0
    ensures a / d == 1.0 <==> a == d
  {
    var q := a / d;
    assert q * d == a;
  }

  /** Dividing by a positive number keeps order. */
  lemma DivMonotone(a: real, b: real, d: real)
    requires d > 0.0 && a <= b
    ensures a / d <= b / d
  {
    var p, q := a / d, b / d;
    assert p * d == a && q * d == b;
    assert (q - p) * d == b - a;
  }

  /** A fraction r = v*b, v in [0,1), of a length b >= 0 squares to at most b*b, and below it when b > 0. */
  lemma ScaledSquareBelow(v: real, b: real, r: real)
    requires 0.0 <= v < 1.0 && 0.0 <= b && r == v * b
    ensures r * r <= b * b
    ensures b > 0.0 ==> r * r < b * b
  {
    MulMonotone(0.0, v, b);
    MulMonotone(v, 1.0, b);
    MulMonotone(r, b, r);
    MulMonotone(r, b, b);
    if b > 0.0 {
      assert b - r == (1.0 - v) * b;
      PositiveProduct(1.0 - v, b);
      PositiveProduct(b - r, b + r);
      assert b * b - r * r == (b - r) * (b + r);
    }
  }

  /** The product of two positive numbers is positive. */
  lemma PositiveProduct(a: real, b: real)
    requires a > 0.0 && b > 0.0
    ensures a * b > 0.0
  {
  }

  /** Multiplying by a non-negative number keeps order. */
  lemma MulMonotone(a: real, b: real, c: real)
    requires 0.0 <= c && a <= b
    ensures a * c <= b * c
  {
    assert b * c - a * c == (b - a) * c;
  }

  /** `exp` is 1 at 0, above 1 at 1, and non-decreasing on [0, 1]. */
  ghost predicate ExpSound(m: MathLib) {
    && Exp(m, 0.0) == 1.0
    && Exp(m, 1.0) > 1.0
    && forall a: real, b: real :: 0.0 <= a <= b <= 1.0 ==> Exp(m, a) <= Exp(m, b)
  }

  /** Under the Pythagorean identity, sine and cosine stay within [-1, 1]. */
  lemma TrigBounded(m: MathLib, t: real)
    requires TrigSound(m)
    ensures -1.0 <= Sin(m, t) <= 1.0 && -1.0 <= Cos(m, t) <= 1.0
  {
    var s, c := Sin(m, t), Cos(m, t);
    assert c * c + s * s == 1.0;
    assert (1.0 - s) * (1.0 + s) >= 0.0;
    assert (1.0 - c) * (1.0 + c) >= 0.0;
  }
}
