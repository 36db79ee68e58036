/**
 * The four layouts that place the ranks along a curve parameterised by the
 * progress `index/(N-1)`: Wave, Tsunami (walked in reverse rank order),
 * Radial and Metabolism.
 */
module Curves {
  import opened Geometry
  import opened Frame

  /** The x position at progress `p` across the frame's width. */
  function SweepX(box: Box, p: real): real {
    box.min.x + p * Size(box).x
  }

  /** Across an ordered frame, x starts at the left edge, ends at the right edge and never goes back. */
  lemma SweepMonotone(box: Box, p: real, q: real)
    requires Ordered(box) && 0.0 <= p <= q <= 1.0
    ensures box.min.x <= SweepX(box, p) <= SweepX(box, q) <= box.max.x
    ensures p == 0.0 ==> SweepX(box, p) == box.min.x
    ensures q == 1.0 ==> SweepX(box, q) == box.max.x
  {
    MulMonotone(0.0, p, Size(box).x);
    MulMonotone(p, q, Size(box).x);
    MulMonotone(q, 1.0, Size(box).x);
  }

  // ---------------------------------------------------------------- Wave

  /** Wave: three periods of a sine of amplitude size.y/3 about the middle height. */
  function Wave(m: MathLib, box: Box, n: nat, index: nat): Vec3
    requires 2 <= n && index < n
  {
    var size := Size(box);
    var progress := Progress(n, index);
    var amplitude := size.y / 3.0;
    Vec3(SweepX(box, progress),
         box.min.y + size.y / 2.0 + amplitude * Sin(m, progress * 3.0 * m.pi * 2.0),
         0.0)
  }

  /**
   * The wave runs from the left edge (rank 0) to the right edge (rank N-1),
   * with x non-decreasing in rank.
   */
  lemma WaveSweep(m: MathLib, box: Box, n: nat, i: nat, j: nat)
    requires Ordered(box) && 2 <= n && i <= j < n
    ensures box.min.x <= Wave(m, box, n, i).x <= Wave(m, box, n, j).x <= box.max.x
    ensures Wave(m, box, n, 0).x == box.min.x
    ensures Wave(m, box, n, n - 1).x == box.max.x
  {
    ProgressMonotone(n, i, j);
    SweepMonotone(box, Progress(n, i), Progress(n, j));
    SweepMonotone(box, Progress(n, 0), Progress(n, n - 1));
  }

  /** The wave stays in the ground plane, within the middle two thirds of the frame's height. */
  lemma WaveHeight(m: MathLib, box: Box, n: nat, index: nat)
    requires TrigSound(m) && Ordered(box) && 2 <= n && index < n
    ensures var p := Wave(m, box, n, index);
      && p.z == 0.0
      && box.min.y + Size(box).y / 6.0 <= p.y <= box.max.y - Size(box).y / 6.0
  {
    var size := Size(box);
    var progress := Progress(n, index);
    var s := Sin(m, progress * 3.0 * m.pi * 2.0);
    TrigBounded(m, progress * 3.0 * m.pi * 2.0);
    var amplitude := size.y / 3.0;
    MulMonotone(-1.0, s, amplitude);
    MulMonotone(s, 1.0, amplitude);
  }

  // ------------------------------------------------------------- Tsunami

  /**
   * Tsunami walks the ranks in reverse: rank r takes the progress of index
   * N-1-r, sweeping right to left while rising along `exp(p) - 1`, scaled so
   * the curve spans the frame's height.
   */
  function Tsunami(m: MathLib, box: Box, n: nat, rank: nat): Vec3
    requires Exp(m, 1.0) > 1.0 && 2 <= n && rank < n
  {
    var size := Size(box);
    var progress := Progress(n, n - 1 - rank);
    var scale := size.y / (Exp(m, 1.0) - 1.0);
    Vec3(SweepX(box, progress), box.min.y + (Exp(m, progress) - 1.0) * scale, 0.0)
  }

  /** Rank 0 sits at the right edge and rank N-1 at the left; x never increases with rank. */
  lemma TsunamiSweep(m: MathLib, box: Box, n: nat, i: nat, j: nat)
    requires Exp(m, 1.0) > 1.0 && Ordered(box) && 2 <= n && i <= j < n
    ensures box.min.x <= Tsunami(m, box, n, j).x <= Tsunami(m, box, n, i).x <= box.max.x
    ensures Tsunami(m, box, n, 0).x == box.max.x
    ensures Tsunami(m, box, n, n - 1).x == box.min.x
  {
    ProgressMonotone(n, n - 1 - j, n - 1 - i);
    SweepMonotone(box, Progress(n, n - 1 - j), Progress(n, n - 1 - i));
    SweepMonotone(box, Progress(n, 0), Progress(n, n - 1));
  }

  /**
   * With a sound exponential, the curve stays within the frame's height,
   * from the bottom edge at rank N-1 to the top edge at rank 0.
   */
  lemma TsunamiHeight(m: MathLib, box: Box, n: nat, rank: nat)
    requires ExpSound(m) && Ordered(box) && 2 <= n && rank < n
    ensures box.min.y <= Tsunami(m, box, n, rank).y <= box.max.y
    ensures rank == n - 1 ==> Tsunami(m, box, n, rank).y == box.min.y
    ensures rank == 0 ==> Tsunami(m, box, n, rank).y == box.max.y
  {
    var size := Size(box);
    var progress := Progress(n, n - 1 - rank);
    var e, top := Exp(m, progress), Exp(m, 1.0) - 1.0;
    assert 1.0 <= e <= Exp(m, 1.0);
    var fraction := (e - 1.0) / top;
    DivBounds(e - 1.0, top);
    assert (e - 1.0) * (size.y / top) == fraction * size.y;
    MulMonotone(0.0, fraction, size.y);
    MulMonotone(fraction, 1.0, size.y);
  }

  // -------------------------------------------------------------- Radial

  /** The distance from the frame's centre at which Radial places rank `index`. */
  function RadialRadius(box: Box, n: nat, index: nat): real
    requires 2 <= n && index < n
  {
    Progress(n, index) * (Min(Size(box).x, Size(box).y) / 2.0)
  }

  /** Radial: a golden-angle spiral about the frame's centre. */
  function Radial(m: MathLib, box: Box, n: nat, index: nat): Vec3
    requires 2 <= n && index < n
  {
    var size := Size(box);
    var center := Vec3(box.min.x + size.x / 2.0, box.min.y + size.y / 2.0, 0.0);
    var angle := index as real * m.pi * (3.0 - Sqrt(m, 5.0));
    Polar(m, center, angle, RadialRadius(box, n, index))
  }

  /**
   * The radius grows from 0 at rank 0 to `min(size.x, size.y)/2` at rank N-1
   * and never shrinks with rank.
   */
  lemma RadialRadiusGrows(box: Box, n: nat, i: nat, j: nat)
    requires Ordered(box) && 2 <= n && i <= j < n
    ensures 0.0 <= RadialRadius(box, n, i) <= RadialRadius(box, n, j) <= Min(Size(box).x, Size(box).y) / 2.0
    ensures RadialRadius(box, n, 0) == 0.0
    ensures RadialRadius(box, n, n - 1) == Min(Size(box).x, Size(box).y) / 2.0
  {
    var maxRadius := Min(Size(box).x, Size(box).y) / 2.0;
    var p, q := Progress(n, i), Progress(n, j);
    assert RadialRadius(box, n, i) == p * maxRadius;
    assert RadialRadius(box, n, j) == q * maxRadius;
    assert RadialRadius(box, n, n - 1) == 1.0 * maxRadius;
    ProgressMonotone(n, i, j);
    MulMonotone(0.0, p, maxRadius);
    MulMonotone(p, q, maxRadius);
    MulMonotone(q, 1.0, maxRadius);
  }

  /** Each rank lies exactly its radius away from the frame's centre. */
  lemma RadialDistance(m: MathLib, box: Box, n: nat, index: nat)
    requires TrigSound(m) && 2 <= n && index < n
    ensures var r := RadialRadius(box, n, index);
      DistSq2(Radial(m, box, n, index), Center(Box(box.min, Vec3(box.max.x, box.max.y, box.min.z)))) == r * r
  {
    var size := Size(box);
    var center := Vec3(box.min.x + size.x / 2.0, box.min.y + size.y / 2.0, 0.0);
    var angle := index as real * m.pi * (3.0 - Sqrt(m, 5.0));
    PolarDistance(m, center, angle, RadialRadius(box, n, index));
  }

  // ---------------------------------------------------------- Metabolism

  /**
   * Metabolism: ranks climb the frame's height while swinging about the
   * vertical centre line by a sine of amplitude size.x/4, even ranks shifted
   * left and odd ranks right by size.x/8.
   */
  function Metabolism(m: MathLib, box: Box, n: nat, index: nat): Vec3
    requires 2 <= n && index < n
  {
    Vec3(MetabolismX(m, box, n, index), MetabolismY(box, n, index), 0.0)
  }

  /** The height of rank `index` in the Metabolism layout. */
  function MetabolismY(box: Box, n: nat, index: nat): real
    requires 2 <= n && index < n
  {
    box.min.y + Progress(n, index) * Size(box).y
  }

  /** The angle of the Metabolism swing: two full turns over the ranks. */
  function MetabolismPhase(m: MathLib, n: nat, index: nat): real
    requires 2 <= n && index < n
  {
    Progress(n, index) * m.pi * 4.0
  }

  /** The swing of rank `index` about the vertical centre line in the Metabolism layout. */
  function MetabolismX(m: MathLib, box: Box, n: nat, index: nat): real
    requires 2 <= n && index < n
  {
    var size := Size(box);
    var centerX := box.min.x + size.x / 2.0;
    var branchWidth := size.x / 4.0;
    var offset := Sin(m, MetabolismPhase(m, n, index)) * branchWidth
      + (if index % 2 == 0 then -branchWidth / 2.0 else branchWidth / 2.0);
    centerX + offset
  }

  /** The ranks climb from the bottom edge (rank 0) to the top edge (rank N-1), never descending. */
  lemma MetabolismRise(box: Box, n: nat, i: nat, j: nat)
    requires Ordered(box) && 2 <= n && i <= j < n
    ensures box.min.y <= MetabolismY(box, n, i) <= MetabolismY(box, n, j) <= box.max.y
    ensures MetabolismY(box, n, 0) == box.min.y
    ensures MetabolismY(box, n, n - 1) == box.max.y
  {
    var h := Size(box).y;
    var p, q := Progress(n, i), Progress(n, j);
    assert MetabolismY(box, n, i) == box.min.y + p * h;
    assert MetabolismY(box, n, j) == box.min.y + q * h;
    ProgressMonotone(n, i, j);
    MulMonotone(0.0, p, h);
    MulMonotone(p, q, h);
    MulMonotone(q, 1.0, h);
  }

  /**
   * The swing stays within 3/8 of the width of the centre line, so every rank
   * keeps at least size.x/8 from the left and right edges.
   */
  lemma MetabolismBand(m: MathLib, box: Box, n: nat, index: nat)
    requires TrigSound(m) && Ordered(box) && 2 <= n && index < n
    ensures box.min.x + Size(box).x / 8.0 <= MetabolismX(m, box, n, index) <= box.max.x - Size(box).x / 8.0
  {
    var w := Size(box).x;
    var branchWidth := w / 4.0;
    var s := Sin(m, MetabolismPhase(m, n, index));
    var shift := if index % 2 == 0 then -branchWidth / 2.0 else branchWidth / 2.0;
    assert MetabolismX(m, box, n, index) == box.min.x + w / 2.0 + (s * branchWidth + shift);
    assert -branchWidth / 2.0 <= shift <= branchWidth / 2.0;
    TrigBounded(m, MetabolismPhase(m, n, index));
    MulMonotone(-1.0, s, branchWidth);
    MulMonotone(s, 1.0, branchWidth);
  }
}
