/**
 * The frame every layout works in: the bounding box of the fragments' base
 * centres, a 12 x 12 grid over it, the normalised position `index/(N-1)` of a
 * rank along a path, and the integer `ceil(sqrt(n))` the block layouts size
 * their grids by.
 */
module Frame {
  import opened Geometry

  /** The number of grid cells along each side of the frame. */
  const GridCells: int := 12

  function CellWidth(box: Box): real { Size(box).x / GridCells as real }

  function CellHeight(box: Box): real { Size(box).y / GridCells as real }

  /** The centre of grid cell (gx, gy) on the ground plane (`mapGridToWorld`). */
  function MapGridToWorld(box: Box, gx: int, gy: int): Vec3 {
    Vec3(box.min.x + gx as real * CellWidth(box) + CellWidth(box) / 2.0,
         box.min.y + gy as real * CellHeight(box) + CellHeight(box) / 2.0,
         0.0)
  }

  /**
   * Along one axis: the centre of cell g, `lo + g*c + c/2`, lies between the
   * cell's edges, and within [lo, lo + 12c] when g is one of the 12 cells.
   */
  lemma AxisCentreInside(lo: real, c: real, g: int)
    requires c >= 0.0
    ensures lo + g as real * c <= lo + g as real * c + c / 2.0 <= lo + (g + 1) as real * c
    ensures 0 <= g < GridCells ==> lo <= lo + g as real * c + c / 2.0 <= lo + 12.0 * c
  {
    assert (g + 1) as real * c == g as real * c + c;
    if 0 <= g < GridCells {
      MulMonotone(0.0, g as real, c);
      MulMonotone((g + 1) as real, 12.0, c);
    }
  }

  /**
   * The centre of cell (gx, gy) lies within that cell, and so within the
   * frame when the cell is one of the 12 x 12.
   */
  lemma CellCentreInside(box: Box, gx: int, gy: int)
    requires Ordered(box)
    ensures var p := MapGridToWorld(box, gx, gy);
      && p.z == 0.0
      && box.min.x + gx as real * CellWidth(box) <= p.x <= box.min.x + (gx + 1) as real * CellWidth(box)
      && box.min.y + gy as real * CellHeight(box) <= p.y <= box.min.y + (gy + 1) as real * CellHeight(box)
    ensures 0 <= gx < GridCells && 0 <= gy < GridCells ==>
      Inside(MapGridToWorld(box, gx, gy), Box(Vec3(box.min.x, box.min.y, 0.0), Vec3(box.max.x, box.max.y, 0.0)))
  {
    var cw, ch := CellWidth(box), CellHeight(box);
    var p := MapGridToWorld(box, gx, gy);
    assert p.x == box.min.x + gx as real * cw + cw / 2.0;
    assert p.y == box.min.y + gy as real * ch + ch / 2.0;
    assert 12.0 * cw == Size(box).x && 12.0 * ch == Size(box).y;
    AxisCentreInside(box.min.x, cw, gx);
    AxisCentreInside(box.min.y, ch, gy);
  }

  /** The smallest g with g*g >= n, searching upwards from `g`. */
  function CeilSqrtFrom(n: nat, g: nat): (r: nat)
    requires (g == 0 || (g - 1) * (g - 1) < n)
    ensures r * r >= n
    ensures r == 0 || (r - 1) * (r - 1) < n
    ensures r >= g
    decreases n - g
  {
    if g * g >= n then g
    else
      assert g <= g * g;
      CeilSqrtFrom(n, g + 1)
  }

  /**
   * `Math.ceil(Math.sqrt(n))`: the least g whose square reaches n, so a
   * g x g grid holds n entries and a (g-1) x (g-1) grid does not.
   */
  function CeilSqrt(n: nat): (g: nat)
    ensures g * g >= n
    ensures g == 0 || (g - 1) * (g - 1) < n
    ensures n > 0 ==> g > 0
  {
    CeilSqrtFrom(n, 0)
  }

  /**
   * The position of an index in a row-major g-column grid of n entries,
   * `(i % g, floor(i / g))`, lies inside the g x g grid.
   */
  lemma RowMajorInside(n: nat, i: nat)
    requires i < n
    ensures var g := CeilSqrt(n); g > 0 && i % g < g && i / g < g
  {
    var g := CeilSqrt(n);
    var q := i / g;
    assert q * g <= i < g * g;
    assert q >= g ==> q * g >= g * g;
  }

  /**
   * Cell j of g equal cells of width c = size / g starts at a non-negative
   * offset and ends within the span; cells are wider than zero when the span is.
   */
  lemma CellWithinSpan(c: real, j: nat, g: nat, size: real)
    requires j < g && c == size / g as real && 0.0 <= size
    ensures 0.0 <= c && 0.0 <= j as real * c && j as real * c + c <= size
    ensures 0.0 < size ==> 0.0 < c
  {
    assert g as real * c == size;
    MulMonotone(0.0, j as real, c);
    MulMonotone((j + 1) as real, g as real, c);
    assert (j + 1) as real * c == j as real * c + c;
  }

  /**
   * `index / (N-1)`: how far along a path the fragment of rank `index`
   * sits, from 0 for the first rank to 1 for the last.
   */
  function Progress(n: nat, index: nat): (p: real)
    requires 2 <= n && index < n
    ensures 0.0 <= p <= 1.0
    ensures p == 0.0 <==> index == 0
    ensures p == 1.0 <==> index == n - 1
  {
    DivBounds(index as real, (n - 1) as real);
    index as real / (n - 1) as real
  }

  /** Progress increases with rank. */
  lemma ProgressMonotone(n: nat, i: nat, j: nat)
    requires 2 <= n && i <= j < n
    ensures Progress(n, i) <= Progress(n, j)
  {
    DivMonotone(i as real, j as real, (n - 1) as real);
  }
}
