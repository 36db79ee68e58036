/**
 * The Programmatic layout: the ranks are cut into three tiers. The first
 * fifth (the tallest fragments) is spread evenly along the top edge of the
 * frame, the next two fifths fill an uncentred square grid over the frame's
 * lower-left quarter, and the rest are laid on a spiral disc in the
 * lower-right quarter whose squared radius grows evenly with the index.
 */
module Programmatic {
  import opened Geometry
  import opened Frame

  datatype Tier = Top | Middle | Low

  /** `floor(n * 0.2)`: the size of the top tier. */
  function TopCount(n: nat): nat { n / 5 }

  /** `floor(n * 0.4)`: the size of the middle tier. */
  function MiddleCount(n: nat): nat { 2 * n / 5 }

  /** Whatever is left after the first two tiers. */
  function LowCount(n: nat): nat
    requires TopCount(n) + MiddleCount(n) <= n
  {
    n - TopCount(n) - MiddleCount(n)
  }

  /** The three tiers cover all n ranks, and each is at least as large as the one before. */
  lemma TierSizes(n: nat)
    ensures TopCount(n) + MiddleCount(n) <= n
    ensures TopCount(n) + MiddleCount(n) + LowCount(n) == n
    ensures TopCount(n) <= MiddleCount(n) <= LowCount(n)
  {
  }

  /** The tier rank r falls in. */
  function TierOf(n: nat, r: nat): Tier
    requires r < n
  {
    if r < TopCount(n) then Top
    else if r < TopCount(n) + MiddleCount(n) then Middle
    else Low
  }

  /** The index of rank r within its tier (the `i` of each tier's `forEach`). */
  function TierIndex(n: nat, r: nat): nat
    requires r < n
  {
    match TierOf(n, r)
    case Top => r
    case Middle => r - TopCount(n)
    case Low => r - TopCount(n) - MiddleCount(n)
  }

  /** Rank r's index lies within its tier's size, and rank and (tier, index) determine each other. */
  lemma TierIndexBounds(n: nat, r: nat)
    requires r < n
    ensures TierOf(n, r) == Top ==> TierIndex(n, r) < TopCount(n)
    ensures TierOf(n, r) == Middle ==> TierIndex(n, r) < MiddleCount(n)
    ensures TierOf(n, r) == Low ==> TopCount(n) + MiddleCount(n) <= n && TierIndex(n, r) < LowCount(n)
  {
    TierSizes(n);
  }

  lemma TierIndexInjective(n: nat, r: nat, r': nat)
    requires r < n && r' < n && TierOf(n, r) == TierOf(n, r') && TierIndex(n, r) == TierIndex(n, r')
    ensures r == r'
  {
  }

  // Top tier: a line along the top edge.

  /** Position i of the top tier's `lerpVectors` from the top-left to the top-right corner. */
  function TopPoint(box: Box, count: nat, i: nat): Vec3
    requires 2 <= count && i < count
  {
    Lerp(Vec3(box.min.x, box.max.y, 0.0), Vec3(box.max.x, box.max.y, 0.0), Progress(count, i))
  }

  /**
   * The top tier lies on the frame's top edge, from its left corner to its
   * right corner, in rank order from left to right.
   */
  lemma TopOnEdge(box: Box, count: nat, i: nat, j: nat)
    requires Ordered(box) && 2 <= count && i <= j < count
    ensures TopPoint(box, count, i).y == box.max.y && TopPoint(box, count, i).z == 0.0
    ensures box.min.x <= TopPoint(box, count, i).x <= box.max.x
    ensures i == 0 ==> TopPoint(box, count, i).x == box.min.x
    ensures i == count - 1 ==> TopPoint(box, count, i).x == box.max.x
    ensures TopPoint(box, count, i).x <= TopPoint(box, count, j).x
  {
    var t, u := Progress(count, i), Progress(count, j);
    ProgressMonotone(count, i, j);
    var w := box.max.x - box.min.x;
    assert TopPoint(box, count, i).x == box.min.x + w * t;
    assert TopPoint(box, count, j).x == box.min.x + w * u;
    MulMonotone(t, u, w);
    MulMonotone(0.0, t, w);
    MulMonotone(t, 1.0, w);
    assert w * t == t * w && w * u == u * w;
  }

  // Middle tier: an uncentred grid over the lower-left quarter.

  /** The start of cell j when [lo, lo + size] is cut into g equal cells. */
  function CellStart(lo: real, size: real, g: nat, j: nat): real
    requires g > 0
  {
    lo + j as real * (size / g as real)
  }

  /** The lower-left quarter of the frame, on the ground plane. */
  function QuarterBlock(box: Box): Box {
    Box(Vec3(box.min.x, box.min.y, 0.0), Vec3(box.min.x + Size(box).x / 2.0, box.min.y + Size(box).y / 2.0, 0.0))
  }

  /** Position i of the middle tier: the corner of its row-major cell in the quarter block. */
  function MiddlePoint(box: Box, count: nat, i: nat): Vec3
    requires i < count
  {
    var block := QuarterBlock(box);
    var g := CeilSqrt(count);
    Vec3(CellStart(block.min.x, Size(block).x, g, i % g), CellStart(block.min.y, Size(block).y, g, i / g), 0.0)
  }

  /** A cell's start lies in its span, strictly before the span's end when the span is not empty. */
  lemma CellStartInSpan(lo: real, size: real, g: nat, j: nat)
    requires 0.0 <= size && j < g
    ensures lo <= CellStart(lo, size, g, j) <= lo + size
    ensures 0.0 < size ==> CellStart(lo, size, g, j) < lo + size
  {
    CellWithinSpan(size / g as real, j, g, size);
  }

  /**
   * The middle tier lies in the frame's lower-left quarter, never on the
   * quarter's far edges when the frame has area.
   */
  lemma MiddleInQuarter(box: Box, count: nat, i: nat)
    requires Ordered(box) && i < count
    ensures var p := MiddlePoint(box, count, i);
      && box.min.x <= p.x <= box.min.x + Size(box).x / 2.0
      && box.min.y <= p.y <= box.min.y + Size(box).y / 2.0
      && p.z == 0.0
    ensures box.min.x < box.max.x && box.min.y < box.max.y ==>
      MiddlePoint(box, count, i).x < box.min.x + Size(box).x / 2.0
      && MiddlePoint(box, count, i).y < box.min.y + Size(box).y / 2.0
  {
    var block := QuarterBlock(box);
    var g := CeilSqrt(count);
    RowMajorInside(count, i);
    assert Size(block).x == Size(box).x / 2.0 && Size(block).y == Size(box).y / 2.0;
    CellStartInSpan(block.min.x, Size(block).x, g, i % g);
    CellStartInSpan(block.min.y, Size(block).y, g, i / g);
  }

  // Low tier: a disc in the lower-right quarter.

  /** The disc's centre: a quarter of the frame in from its right and bottom edges. */
  function DiscCentre(box: Box): Vec3 {
    Vec3(box.max.x - Size(box).x / 4.0, box.min.y + Size(box).y / 4.0, 0.0)
  }

  /** The disc's radius: a fifth of the frame's width. */
  function DiscRadius(box: Box): real { Size(box).x / 5.0 }

  /** The share `i / count` of the low tier before index i. */
  function Share(count: nat, i: nat): real
    requires i < count
  {
    i as real / count as real
  }

  function DiscAngle(m: MathLib, count: nat, i: nat): real
    requires i < count
  {
    Share(count, i) * m.pi * 2.0
  }

  function DiscDistance(m: MathLib, box: Box, count: nat, i: nat): real
    requires i < count
  {
    Sqrt(m, Share(count, i)) * DiscRadius(box)
  }

  /** Position i of the low tier. */
  function LowPoint(m: MathLib, box: Box, count: nat, i: nat): Vec3
    requires i < count
  {
    Polar(m, DiscCentre(box), DiscAngle(m, count, i), DiscDistance(m, box, count, i))
  }

  /**
   * The low tier's squared distance from the disc's centre is the share of the
   * tier before it times the squared radius, so equal areas of the disc hold
   * equal numbers of fragments and every fragment lies inside the disc.
   */
  lemma LowOnDisc(m: MathLib, box: Box, count: nat, i: nat)
    requires SqrtSound(m) && TrigSound(m) && i < count
    ensures DistSq2(LowPoint(m, box, count, i), DiscCentre(box))
      == Share(count, i) * (DiscRadius(box) * DiscRadius(box))
    ensures LowPoint(m, box, count, i).z == 0.0
  {
    var s := Share(count, i);
    var R := DiscRadius(box);
    var q := Sqrt(m, s);
    ShareBelowOne(count, i);
    assert 0.0 <= q && q * q == s;
    PolarDistance(m, DiscCentre(box), DiscAngle(m, count, i), DiscDistance(m, box, count, i));
    ScaledSquare(q, R, s, DiscDistance(m, box, count, i));
  }

  /** Every fragment of the low tier lies strictly inside the disc when the frame has width. */
  lemma LowInsideDisc(m: MathLib, box: Box, count: nat, i: nat)
    requires SqrtSound(m) && TrigSound(m) && i < count && box.min.x < box.max.x
    ensures DistSq2(LowPoint(m, box, count, i), DiscCentre(box)) < DiscRadius(box) * DiscRadius(box)
  {
    ShareBelowOne(count, i);
    var q := Sqrt(m, Share(count, i));
    SqrtBelowOne(m, Share(count, i));
    PolarDistance(m, DiscCentre(box), DiscAngle(m, count, i), DiscDistance(m, box, count, i));
    ScaledSquareBelow(q, DiscRadius(box), DiscDistance(m, box, count, i));
  }

  lemma ShareBelowOne(count: nat, i: nat)
    requires i < count
    ensures 0.0 <= Share(count, i) < 1.0
  {
    DivBounds(i as real, count as real);
  }

  /** The square of q*R, where q is a square root of s, is s times R squared. */
  lemma ScaledSquare(q: real, R: real, s: real, d: real)
    requires q * q == s && d == q * R
    ensures d * d == s * (R * R)
  {
    assert d * d == (q * q) * (R * R);
  }

  /** Later fragments of the low tier lie no nearer the disc's centre than earlier ones. */
  lemma LowMovesOutward(m: MathLib, box: Box, count: nat, i: nat, j: nat)
    requires SqrtSound(m) && TrigSound(m) && i <= j < count
    ensures DistSq2(LowPoint(m, box, count, i), DiscCentre(box))
      <= DistSq2(LowPoint(m, box, count, j), DiscCentre(box))
  {
    LowOnDisc(m, box, count, i);
    LowOnDisc(m, box, count, j);
    DivMonotone(i as real, j as real, count as real);
    var R := DiscRadius(box);
    MulMonotone(Share(count, i), Share(count, j), R * R);
  }

  // The whole layout.

  /** The position Programmatic gives rank r; a top tier of exactly one fragment is excluded. */
  function ProgrammaticPoint(m: MathLib, box: Box, n: nat, r: nat): Vec3
    requires r < n && (r < TopCount(n) ==> TopCount(n) != 1)
  {
    TierIndexBounds(n, r);
    match TierOf(n, r)
    case Top => TopPoint(box, TopCount(n), TierIndex(n, r))
    case Middle => MiddlePoint(box, MiddleCount(n), TierIndex(n, r))
    case Low => LowPoint(m, box, LowCount(n), TierIndex(n, r))
  }
}
