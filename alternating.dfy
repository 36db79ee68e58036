/**
 * The Alternating layout: the ranks are split by parity with `filter`; the
 * odd ranks fill a square grid over the left half of the frame and the even
 * ranks one over the right half, each row by row, `ceil(sqrt(count))` cells
 * to a row, every fragment at its cell's centre.
 */
module Alternating {
  import opened Geometry
  import opened Frame

  /** `filter((_, i) => i % 2 == parity)` over the ranks 0 .. n-1. */
  function ParityRanks(n: nat, parity: nat): (rs: seq<nat>)
    requires parity < 2
    ensures |rs| == (n + 1 - parity) / 2
    ensures forall i :: 0 <= i < |rs| ==> rs[i] == 2 * i + parity
  {
    if n == 0 then []
    else
      var rest := ParityRanks(n - 1, parity);
      if (n - 1) % 2 == parity then rest + [n - 1] else rest
  }

  /** Each rank is in the list of its parity, at position `r / 2`. */
  lemma RankInGroup(n: nat, r: nat)
    requires r < n
    ensures r / 2 < |ParityRanks(n, r % 2)| && ParityRanks(n, r % 2)[r / 2] == r
  {
  }

  /** A group's box: the left half takes the frame's left edge, the right half its right edge. */
  function HalfBox(box: Box, left: bool): Box {
    var halfWidth := Size(box).x / 2.0;
    if left then Box(box.min, Vec3(box.min.x + halfWidth, box.max.y, 0.0))
    else Box(Vec3(box.min.x + halfWidth, box.min.y, 0.0), box.max)
  }

  /** The centre of cell j when the span [lo, lo + size] is cut into g equal cells. */
  function CellCentre(lo: real, size: real, g: nat, j: nat): real
    requires g > 0
  {
    var c := size / g as real;
    lo + j as real * c + c / 2.0
  }

  /** The centre of cell `i` of a row-major grid of `ceil(sqrt(num))` columns over `b` (`layoutGroup`). */
  function GroupCell(b: Box, num: nat, i: nat): Vec3
    requires i < num
  {
    var g := CeilSqrt(num);
    Vec3(CellCentre(b.min.x, Size(b).x, g, i % g), CellCentre(b.min.y, Size(b).y, g, i / g), 0.0)
  }

  /** The position Alternating gives rank r: odd ranks on the left, even ranks on the right. */
  function AlternatingPoint(box: Box, n: nat, r: nat): Vec3
    requires r < n
  {
    RankInGroup(n, r);
    GroupCell(HalfBox(box, r % 2 == 1), |ParityRanks(n, r % 2)|, r / 2)
  }

  /** A cell centre lies in its span, strictly before the span's end when the span is not empty. */
  lemma CellCentreInSpan(lo: real, size: real, g: nat, j: nat)
    requires 0.0 <= size && j < g
    ensures lo <= CellCentre(lo, size, g, j) <= lo + size
    ensures 0.0 < size ==> CellCentre(lo, size, g, j) < lo + size
  {
    CellWithinSpan(size / g as real, j, g, size);
  }

  /** Distinct cells of a non-empty span have distinct centres. */
  lemma CellCentreInjective(lo: real, size: real, g: nat, j: nat, j': nat)
    requires 0.0 < size && g > 0 && j != j'
    ensures CellCentre(lo, size, g, j) != CellCentre(lo, size, g, j')
  {
    var c := size / g as real;
    assert c > 0.0;
    assert j as real * c - j' as real * c == (j as real - j' as real) * c;
  }

  /** Every fragment of a group lies in the ground-plane rectangle of the group's box. */
  lemma GroupCellInside(b: Box, num: nat, i: nat)
    requires b.min.x <= b.max.x && b.min.y <= b.max.y && i < num
    ensures var p := GroupCell(b, num, i);
      b.min.x <= p.x <= b.max.x && b.min.y <= p.y <= b.max.y && p.z == 0.0
    ensures b.min.x < b.max.x ==> GroupCell(b, num, i).x < b.max.x
  {
    var g := CeilSqrt(num);
    RowMajorInside(num, i);
    CellCentreInSpan(b.min.x, Size(b).x, g, i % g);
    CellCentreInSpan(b.min.y, Size(b).y, g, i / g);
  }

  /** Two members of a group get different cells, so different positions when the box has area. */
  lemma GroupCellsDistinct(b: Box, num: nat, i: nat, j: nat)
    requires b.min.x < b.max.x && b.min.y < b.max.y && i < num && j < num && i != j
    ensures GroupCell(b, num, i) != GroupCell(b, num, j)
  {
    var g := CeilSqrt(num);
    RowMajorInside(num, i);
    if i % g != j % g {
      CellCentreInjective(b.min.x, Size(b).x, g, i % g, j % g);
    } else {
      assert i / g != j / g;
      CellCentreInjective(b.min.y, Size(b).y, g, i / g, j / g);
    }
  }

  /**
   * Odd ranks land in the left half of the frame and even ranks in the right
   * half, each within the frame's height.
   */
  lemma AlternatingSides(box: Box, n: nat, r: nat)
    requires Ordered(box) && r < n
    ensures var p := AlternatingPoint(box, n, r);
      && box.min.y <= p.y <= box.max.y && p.z == 0.0
      && (r % 2 == 1 ==> box.min.x <= p.x <= box.min.x + Size(box).x / 2.0)
      && (r % 2 == 0 ==> box.min.x + Size(box).x / 2.0 <= p.x <= box.max.x)
    ensures box.min.x < box.max.x && r % 2 == 1 ==> AlternatingPoint(box, n, r).x < box.min.x + Size(box).x / 2.0
  {
    RankInGroup(n, r);
    GroupCellInside(HalfBox(box, r % 2 == 1), |ParityRanks(n, r % 2)|, r / 2);
  }

  /** With a frame of positive area, no two ranks of Alternating share a position. */
  lemma AlternatingDistinct(box: Box, n: nat, r: nat, r': nat)
    requires Ordered(box) && box.min.x < box.max.x && box.min.y < box.max.y
    requires r < n && r' < n && r != r'
    ensures AlternatingPoint(box, n, r) != AlternatingPoint(box, n, r')
  {
    if r % 2 == r' % 2 {
      RankInGroup(n, r);
      RankInGroup(n, r');
      GroupCellsDistinct(HalfBox(box, r % 2 == 1), |ParityRanks(n, r % 2)|, r / 2, r' / 2);
    } else {
      AlternatingSides(box, n, r);
      AlternatingSides(box, n, r');
    }
  }
}
