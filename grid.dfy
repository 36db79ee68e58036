/**
 * The Grid layout: the 12 x 12 frame grid is read as 4 x 4 areas of 3 x 3
 * cells; ranks fill the areas in order, `ceil(N/16)` ranks per area, and fill
 * each area's cells row by row.
 */
module GridLayout {

  datatype Cell = Cell(x: int, y: int)

  /** `Math.ceil(N / 16)`: the ranks given to each of the 16 areas. */
  function FragmentsPerArea(n: nat): (f: nat)
    requires n >= 1
    ensures f >= 1
    ensures 16 * (f - 1) < n <= 16 * f
  {
    (n + 15) / 16
  }

  /** The area a rank falls in, counted row by row over the 4 x 4 areas. */
  function AreaIndex(n: nat, index: nat): (a: nat)
    requires 1 <= n && index < n
    ensures a < 16
  {
    var f := FragmentsPerArea(n);
    var a := index / f;
    assert a * f <= index < n <= 16 * f;
    assert a >= 16 ==> a * f >= 16 * f;
    a
  }

  /** Cell `k` (row by row) of area `a`, where the areas are laid out 4 to a row, 3 x 3 cells each. */
  function AreaCell(a: nat, k: nat): Cell {
    Cell((a % 4) * 3 + k % 3, (a / 4) * 3 + k / 3)
  }

  /** The grid cell of rank `index` among `n` fragments. */
  function GridCell(n: nat, index: nat): (c: Cell)
    requires 1 <= n && index < n
    ensures 0 <= c.x && 0 <= c.y
    ensures n <= 144 ==> c.x < 12 && c.y < 12
  {
    var f := FragmentsPerArea(n);
    var k := index % f;
    assert n <= 144 ==> k < 9 by {
      assert n <= 144 ==> f <= 9;
    }
    AreaCellBounds(AreaIndex(n, index), k);
    AreaCell(AreaIndex(n, index), k)
  }

  /** The cells of the 16 areas stay on the 12 x 12 grid. */
  lemma AreaCellBounds(a: nat, k: nat)
    ensures 0 <= AreaCell(a, k).x && 0 <= AreaCell(a, k).y
    ensures a < 16 && k < 9 ==> AreaCell(a, k).x < 12 && AreaCell(a, k).y < 12
  {
  }

  /** The area a cell lies in. */
  function CellArea(c: Cell): int { (c.y / 3) * 4 + c.x / 3 }

  /** The position of a cell within its area, row by row. */
  function CellSlot(c: Cell): int { (c.y % 3) * 3 + c.x % 3 }

  /** The rank whose grid cell is `c`, undoing `GridCell` when at most 9 ranks share an area. */
  function CellRank(n: nat, c: Cell): int
    requires n >= 1
  {
    CellArea(c) * FragmentsPerArea(n) + CellSlot(c)
  }

  /** The area and in-area position are read back from the cell's coordinates. */
  lemma CellDigits(a: nat, k: nat)
    requires k < 9
    ensures CellArea(AreaCell(a, k)) == a && CellSlot(AreaCell(a, k)) == k
  {
    DivModThree(a % 4, k % 3);
    DivModThree(a / 4, k / 3);
  }

  /** Quotient and remainder by 3 of `3q + r` for a digit `r`. */
  lemma DivModThree(q: int, r: int)
    requires 0 <= r < 3
    ensures (q * 3 + r) / 3 == q && (q * 3 + r) % 3 == r
  {
  }

  /** With fewer than 9 ranks per area, area and in-area position give the rank back. */
  lemma RecoverRank(index: nat, f: nat)
    requires f > 0 && index % f < 9
    ensures CellArea(AreaCell(index / f, index % f)) * f + CellSlot(AreaCell(index / f, index % f)) == index
  {
    CellDigits(index / f, index % f);
    Recombine(CellArea(AreaCell(index / f, index % f)), CellSlot(AreaCell(index / f, index % f)), index, f);
  }

  /** Quotient and remainder read back give the rank back. */
  lemma Recombine(q: int, r: int, index: nat, f: nat)
    requires f > 0 && q == index / f && r == index % f
    ensures q * f + r == index
  {
  }

  /** For up to 144 fragments, a rank is recovered from its grid cell. */
  lemma GridCellInverse(n: nat, index: nat)
    requires 1 <= n <= 144 && index < n
    ensures CellRank(n, GridCell(n, index)) == index
  {
    var f := FragmentsPerArea(n);
    assert index % f < 9 by {
      assert f <= 9;
    }
    assert GridCell(n, index) == AreaCell(index / f, index % f);
    RecoverRank(index, f);
  }

  /** For up to 144 fragments, distinct ranks get distinct cells. */
  lemma GridCellsDistinct(n: nat, i: nat, j: nat)
    requires 1 <= n <= 144 && i < n && j < n && i != j
    ensures GridCell(n, i) != GridCell(n, j)
  {
    GridCellInverse(n, i);
    GridCellInverse(n, j);
  }

  /** For up to 16 fragments, every rank has an area of its own and sits in its corner cell. */
  lemma GridOwnArea(n: nat, index: nat)
    requires 1 <= n <= 16 && index < n
    ensures AreaIndex(n, index) == index
    ensures GridCell(n, index) == Cell((index % 4) * 3, (index / 4) * 3)
  {
    assert FragmentsPerArea(n) == 1;
  }

  /**
   * Past 144 fragments an area holds more ranks than its 9 cells: with 145
   * fragments, ranks 9 and 40 land on the same cell.
   */
  lemma GridOverlapPast144()
    ensures GridCell(145, 9) == GridCell(145, 40) == Cell(0, 3)
  {
    assert FragmentsPerArea(145) == 10;
    GridCellOfArea(145, 9, 0, 9);
    GridCellOfArea(145, 40, 4, 0);
    assert AreaCell(0, 9) == Cell(0, 3);
    assert AreaCell(4, 0) == Cell(0, 3);
  }

  /** The grid cell of a rank is cell `index % f` of area `index / f`. */
  lemma GridCellOfArea(n: nat, index: nat, a: nat, k: nat)
    requires 1 <= n && index < n
    requires a == index / FragmentsPerArea(n) && k == index % FragmentsPerArea(n)
    ensures GridCell(n, index) == AreaCell(a, k)
  {
  }
}
