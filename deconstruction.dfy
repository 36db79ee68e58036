/**
 * The Deconstruction layout: the ranks fill a square grid centred on the
 * origin, each grid position is turned about the vertical axis by an angle
 * and pushed outwards along its own direction by a distance, both taken from
 * the fragment's randomness, and the result is moved to the frame's centre.
 */
module Deconstruction {
  import opened Geometry
  import opened Frame

  /** The offset of column (or row) j of a g-wide grid, centred on zero. */
  function GridOffset(g: nat, j: nat): real {
    j as real - (g as real - 1.0) / 2.0
  }

  /** The grid is symmetric about zero: column j and column g-1-j sit on opposite sides. */
  lemma GridOffsetSymmetric(g: nat, j: nat)
    requires j < g
    ensures GridOffset(g, g - 1 - j) == -GridOffset(g, j)
    ensures GridOffset(g, j) == 0.0 <==> 2 * j + 1 == g
  {
  }

  /** The unrotated position of rank r: its grid offsets scaled by the frame's cell size. */
  function BasePos(box: Box, n: nat, r: nat): Vec3
    requires r < n
  {
    RowMajorInside(n, r);
    var g := CeilSqrt(n);
    Vec3(GridOffset(g, r % g) * (Size(box).x / g as real), GridOffset(g, r / g) * (Size(box).y / g as real), 0.0)
  }

  /** `applyAxisAngle` about the z axis. */
  function Rotate(m: MathLib, p: Vec3, angle: real): Vec3 {
    var c, s := Cos(m, angle), Sin(m, angle);
    Vec3(p.x * c - p.y * s, p.x * s + p.y * c, p.z)
  }

  function NormSq(p: Vec3): real {
    p.x * p.x + p.y * p.y + p.z * p.z
  }

  function Length(m: MathLib, p: Vec3): real {
    Sqrt(m, NormSq(p))
  }

  /** `normalize`: divides by the length, or by 1 when the length is zero. */
  function Normalize(m: MathLib, p: Vec3): Vec3 {
    var l := Length(m, p);
    var d := if l == 0.0 then 1.0 else l;
    Vec3(p.x / d, p.y / d, p.z / d)
  }

  function Scale(p: Vec3, k: real): Vec3 {
    Vec3(p.x * k, p.y * k, p.z * k)
  }

  function Add(a: Vec3, b: Vec3): Vec3 {
    Vec3(a.x + b.x, a.y + b.y, a.z + b.z)
  }

  /** The rotation: a quarter of pi times the randomness. */
  function TurnAngle(m: MathLib, randomness: real): real {
    randomness * m.pi / 4.0
  }

  /** The outward push: fifty units times the randomness. */
  function Displacement(randomness: real): real {
    randomness * 50.0
  }

  /** The centre of the frame's footprint, on the ground plane. */
  function FrameCentre(box: Box): Vec3 {
    Vec3(box.min.x + Size(box).x / 2.0, box.min.y + Size(box).y / 2.0, 0.0)
  }

  /** A grid position turned and pushed out, before it is moved to the frame's centre. */
  function Scatter(m: MathLib, b: Vec3, randomness: real): Vec3 {
    var p := Rotate(m, b, TurnAngle(m, randomness));
    Add(p, Scale(Normalize(m, p), Displacement(randomness)))
  }

  /** The position Deconstruction gives rank r, whose fragment has the given randomness. */
  function DeconstructionPoint(m: MathLib, box: Box, n: nat, r: nat, randomness: real): Vec3
    requires r < n
  {
    Add(Scatter(m, BasePos(box, n, r), randomness), FrameCentre(box))
  }

  /** A turn about the vertical axis keeps a vector's length and its height. */
  lemma RotateKeepsLength(m: MathLib, p: Vec3, angle: real)
    requires TrigSound(m)
    ensures NormSq(Rotate(m, p, angle)) == NormSq(p) && Rotate(m, p, angle).z == p.z
  {
    var c, s := Cos(m, angle), Sin(m, angle);
    assert c * c + s * s == 1.0;
    var q := Rotate(m, p, angle);
    calc {
      q.x * q.x + q.y * q.y;
      (p.x * c - p.y * s) * (p.x * c - p.y * s) + (p.x * s + p.y * c) * (p.x * s + p.y * c);
      (p.x * p.x) * (c * c + s * s) + (p.y * p.y) * (c * c + s * s);
      p.x * p.x + p.y * p.y;
    }
  }

  /** The fragment whose grid position is the centre of the grid stays exactly at the frame's centre. */
  lemma CentreCellStays(m: MathLib, box: Box, n: nat, r: nat, randomness: real)
    requires r < n && BasePos(box, n, r) == Vec3(0.0, 0.0, 0.0)
    ensures DeconstructionPoint(m, box, n, r, randomness) == FrameCentre(box)
  {
    ZeroStays(m, randomness);
  }

  /** Turning, normalising and pushing leave the zero vector where it is. */
  lemma ZeroStays(m: MathLib, randomness: real)
    ensures Scatter(m, Vec3(0.0, 0.0, 0.0), randomness) == Vec3(0.0, 0.0, 0.0)
  {
    var zero := Vec3(0.0, 0.0, 0.0);
    var c, s := Cos(m, TurnAngle(m, randomness)), Sin(m, TurnAngle(m, randomness));
    assert 0.0 * c - 0.0 * s == 0.0 && 0.0 * s + 0.0 * c == 0.0;
    assert Rotate(m, zero, TurnAngle(m, randomness)) == zero;
    var l := Length(m, zero);
    var d := if l == 0.0 then 1.0 else l;
    assert d != 0.0 && 0.0 / d == 0.0;
    assert Normalize(m, zero) == zero;
    assert Scale(zero, Displacement(randomness)) == zero;
  }

  /**
   * Pushing a ground-plane vector of length `len` outward along its own
   * direction by `push` gives a vector of length `len + push`.
   */
  lemma PushOutLength(p: Vec3, len: real, push: real)
    requires 0.0 < len && p.z == 0.0 && p.x * p.x + p.y * p.y == len * len
    ensures var q := Add(p, Scale(Vec3(p.x / len, p.y / len, p.z / len), push));
      q.x * q.x + q.y * q.y == (len + push) * (len + push) && q.z == 0.0
  {
    var k := (len + push) / len;
    var q := Add(p, Scale(Vec3(p.x / len, p.y / len, p.z / len), push));
    assert q.x == p.x * k;
    assert q.y == p.y * k;
    calc {
      q.x * q.x + q.y * q.y;
      (p.x * k) * (p.x * k) + (p.y * k) * (p.y * k);
      (p.x * p.x + p.y * p.y) * (k * k);
      (len * len) * (k * k);
      (len * k) * (len * k);
      { assert len * k == len + push; }
      (len + push) * (len + push);
    }
  }

  /** Moving a vector onto the frame's centre makes its ground-plane length the distance to the centre. */
  lemma MovedToCentre(q: Vec3, c: Vec3)
    ensures DistSq2(Add(q, c), c) == q.x * q.x + q.y * q.y
  {
  }

  /**
   * Every fragment off the grid's centre ends up, on the ground plane, exactly
   * its grid distance from the frame's centre plus fifty times its randomness:
   * the turn does not change the distance and the push adds to it.
   */
  lemma PushedOutward(m: MathLib, box: Box, n: nat, r: nat, randomness: real)
    requires SqrtSound(m) && TrigSound(m) && r < n
    requires 0.0 < NormSq(BasePos(box, n, r))
    ensures var len := Length(m, BasePos(box, n, r));
      && 0.0 < len
      && DistSq2(DeconstructionPoint(m, box, n, r, randomness), FrameCentre(box))
         == (len + Displacement(randomness)) * (len + Displacement(randomness))
      && DeconstructionPoint(m, box, n, r, randomness).z == 0.0
  {
    var b := BasePos(box, n, r);
    var p := Rotate(m, b, TurnAngle(m, randomness));
    RotateKeepsLength(m, b, TurnAngle(m, randomness));
    var len := Length(m, b);
    assert Length(m, p) == len;
    NonZeroLength(m, b);
    assert p.z == 0.0 && p.x * p.x + p.y * p.y == len * len;
    assert Normalize(m, p) == Vec3(p.x / len, p.y / len, p.z / len);
    PushOutLength(p, len, Displacement(randomness));
    MovedToCentre(Scatter(m, b, randomness), FrameCentre(box));
  }

  /** Under a sound square root, a vector of positive squared length has a positive length. */
  lemma NonZeroLength(m: MathLib, b: Vec3)
    requires SqrtSound(m) && 0.0 < NormSq(b)
    ensures 0.0 < Length(m, b) && Length(m, b) * Length(m, b) == NormSq(b)
  {
    var l := Length(m, b);
    assert 0.0 <= l && l * l == NormSq(b);
    RootNonZero(l, NormSq(b));
  }

  lemma RootNonZero(l: real, sq: real)
    requires l * l == sq && 0.0 < sq
    ensures l != 0.0
  {
  }
}
