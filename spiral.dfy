/**
 * The square spiral walked by the Spiral and Hurricane layouts. A walker
 * starts at the origin heading (0, -1); at each step it records its cell,
 * turns left on a corner of the spiral and moves one unit. Ring k >= 1 of the
 * spiral is the square of cells with max(|x|, |y|) == k, walked in steps
 * (2k-1)^2 .. (2k+1)^2 - 1.
 */
module Spiral {
  import opened Wrappers

  datatype Walker = Walker(x: int, y: int, dx: int, dy: int)

  const Start := Walker(0, 0, 0, -1)

  /** The corners where the walker turns left. */
  predicate Turns(x: int, y: int) {
    x == y || (x < 0 && x == -y) || (x > 0 && x == 1 - y)
  }

  /** The rest of one loop pass after the placement: turn on a corner, then move. */
  function Step(w: Walker): Walker {
    var dx, dy := if Turns(w.x, w.y) then -w.dy else w.dx, if Turns(w.x, w.y) then w.dx else w.dy;
    Walker(w.x + dx, w.y + dy, dx, dy)
  }

  /** The walker at the start of loop pass `i`. */
  function WalkAt(i: nat): Walker {
    if i == 0 then Start else Step(WalkAt(i - 1))
  }

  predicate UnitAxis(dx: int, dy: int) {
    (dx == 0 && (dy == 1 || dy == -1)) || (dy == 0 && (dx == 1 || dx == -1))
  }

  function Abs(v: int): nat { if v < 0 then -v else v }

  /** A step from a unit heading keeps a unit heading and moves by one unit. */
  lemma StepUnit(w: Walker)
    requires UnitAxis(w.dx, w.dy)
    ensures UnitAxis(Step(w).dx, Step(w).dy)
    ensures Abs(Step(w).x - w.x) + Abs(Step(w).y - w.y) == 1
  {
  }

  /** The heading stays a unit vector along an axis, as turning maps (dx, dy) to (-dy, dx). */
  lemma {:induction false} HeadingUnit(i: nat)
    ensures UnitAxis(WalkAt(i).dx, WalkAt(i).dy)
  {
    if i > 0 {
      var v := WalkAt(i - 1);
      HeadingUnit(i - 1);
      StepUnit(v);
      WalkNext(i, v, Step(v));
    }
  }

  /** Every step moves the walker by exactly one unit along one axis. */
  lemma StepsAreUnit(i: nat)
    ensures Abs(WalkAt(i + 1).x - WalkAt(i).x) + Abs(WalkAt(i + 1).y - WalkAt(i).y) == 1
  {
    var w := WalkAt(i);
    HeadingUnit(i);
    StepUnit(w);
    var j := i + 1;
    assert j - 1 == i;
    WalkNext(j, w, Step(w));
  }

  /** The walker at step t of ring k, before it turns. */
  function RingState(k: int, t: int): Walker
    requires 1 <= k && 0 <= t < 8 * k
  {
    if t == 0 then Walker(k, 1 - k, 1, 0)
    else if t < 2 * k then Walker(k, 1 - k + t, 0, 1)
    else if t < 4 * k then Walker(3 * k - 1 - t, k, -1, 0)
    else if t < 6 * k then Walker(-k, 5 * k - 1 - t, 0, -1)
    else Walker(t - 7 * k + 1, -k, 1, 0)
  }

  /** The pass at which ring k starts: ring 1 at pass 1, and ring k holds 8k cells. */
  function RingStart(k: nat): nat
    requires k >= 1
  {
    if k == 1 then 1 else RingStart(k - 1) + 8 * (k - 1)
  }

  /** Ring k starts at pass (2k-1)^2: the rings inside it fill a (2k-1)-wide square. */
  lemma {:induction false} RingStartSquare(k: nat)
    requires k >= 1
    ensures RingStart(k) == (2 * k - 1) * (2 * k - 1)
  {
    if k > 1 {
      RingStartSquare(k - 1);
      assert (2 * k - 1) * (2 * k - 1) == (2 * k - 3) * (2 * k - 3) + 8 * (k - 1);
    }
  }

  /** Within a ring, one step leads to the next ring state. */
  lemma StepInRing(k: nat, t: nat)
    requires 1 <= k && 0 < t < 8 * k
    ensures Step(RingState(k, t - 1)) == RingState(k, t)
  {
  }

  /** The last cell of a ring steps onto the first cell of the next. */
  lemma StepToNextRing(k: nat)
    requires 2 <= k
    ensures Step(RingState(k - 1, 8 * (k - 1) - 1)) == RingState(k, 0)
  {
  }

  /** One more pass moves the walker by one step. */
  lemma WalkNext(i: nat, w: Walker, w': Walker)
    requires i >= 1 && WalkAt(i - 1) == w && Step(w) == w'
    ensures WalkAt(i) == w'
  {
  }

  /** One pass within a ring moves the walker to the ring's next state. */
  lemma WalkInRing(k: nat, t: nat)
    requires 1 <= k && 0 < t < 8 * k
    requires WalkAt(RingStart(k) + (t - 1)) == RingState(k, t - 1)
    ensures WalkAt(RingStart(k) + t) == RingState(k, t)
  {
    var i := RingStart(k) + t;
    StepInRing(k, t);
    assert i - 1 == RingStart(k) + (t - 1);
    WalkNext(i, RingState(k, t - 1), RingState(k, t));
  }

  /** The pass after a ring's last one is the next ring's first. */
  lemma WalkToNextRing(k: nat)
    requires 2 <= k
    requires WalkAt(RingStart(k - 1) + (8 * (k - 1) - 1)) == RingState(k - 1, 8 * (k - 1) - 1)
    ensures WalkAt(RingStart(k) + 0) == RingState(k, 0)
  {
    var i := RingStart(k) + 0;
    StepToNextRing(k);
    assert i - 1 == RingStart(k - 1) + (8 * (k - 1) - 1);
    WalkNext(i, RingState(k - 1, 8 * (k - 1) - 1), RingState(k, 0));
  }

  /** The walker after RingStart(k) + t passes is at step t of ring k. */
  lemma {:induction false} WalkRing(k: nat, t: nat)
    requires 1 <= k && t < 8 * k
    ensures WalkAt(RingStart(k) + t) == RingState(k, t)
    decreases RingStart(k) + t
  {
    if t > 0 {
      WalkRing(k, t - 1);
      WalkInRing(k, t);
    } else if k == 1 {
      WalkNext(1, Start, RingState(1, 0));
    } else {
      WalkRing(k - 1, 8 * (k - 1) - 1);
      WalkToNextRing(k);
    }
  }

  /** Every pass after the first lies on exactly one ring. */
  lemma {:induction false} RingOf(i: nat) returns (k: nat, t: nat)
    requires i >= 1
    ensures 1 <= k && t < 8 * k && i == RingStart(k) + t
  {
    if i == 1 {
      k, t := 1, 0;
    } else {
      var k', t' := RingOf(i - 1);
      if t' + 1 < 8 * k' {
        k, t := k', t' + 1;
      } else {
        assert RingStart(k' + 1) == RingStart(k') + 8 * k';
        k, t := k' + 1, 0;
      }
    }
  }

  function Ring(x: int, y: int): nat {
    if Abs(x) >= Abs(y) then Abs(x) else Abs(y)
  }

  /** The position of cell (x, y) along its ring. */
  function RingStep(x: int, y: int): (t: nat)
    requires Ring(x, y) >= 1
    ensures t < 8 * Ring(x, y)
  {
    var k: int := Ring(x, y);
    if x == k && y > -k then y + k - 1
    else if y == k && x < k then 3 * k - 1 - x
    else if x == -k && y < k then 5 * k - 1 - y
    else x + 7 * k - 1
  }

  /** The pass at which the walker is at cell (x, y). */
  function SpiralIndex(x: int, y: int): nat {
    if Ring(x, y) == 0 then 0 else RingStart(Ring(x, y)) + RingStep(x, y)
  }

  /** The ring state at a cell's ring step is at that cell. */
  lemma RingStepState(x: int, y: int)
    requires Ring(x, y) >= 1
    ensures RingState(Ring(x, y), RingStep(x, y)).x == x
    ensures RingState(Ring(x, y), RingStep(x, y)).y == y
  {
  }

  /** Ring step t of ring k names a cell of ring k at step t. */
  lemma RingStateStep(k: nat, t: nat)
    requires 1 <= k && t < 8 * k
    ensures Ring(RingState(k, t).x, RingState(k, t).y) == k
    ensures RingStep(RingState(k, t).x, RingState(k, t).y) == t
  {
  }

  /** The walker at pass i is at the cell whose spiral index is i. */
  lemma WalkIndex(i: nat)
    ensures SpiralIndex(WalkAt(i).x, WalkAt(i).y) == i
  {
    if i >= 1 {
      var k, t := RingOf(i);
      WalkRing(k, t);
      RingStateStep(k, t);
    }
  }

  /** The walker reaches every cell, at the pass given by its spiral index. */
  lemma WalkReaches(x: int, y: int)
    ensures WalkAt(SpiralIndex(x, y)).x == x && WalkAt(SpiralIndex(x, y)).y == y
  {
    if Ring(x, y) >= 1 {
      WalkRing(Ring(x, y), RingStep(x, y));
      RingStepState(x, y);
    }
  }

  /** The walk never visits a cell twice. */
  lemma WalkInjective(i: nat, j: nat)
    requires i != j
    ensures WalkAt(i).x != WalkAt(j).x || WalkAt(i).y != WalkAt(j).y
  {
    WalkIndex(i);
    WalkIndex(j);
  }

  /** The 12 x 12 window of cells the layouts place into. */
  predicate InWindow(x: int, y: int) {
    -6 < x <= 6 && -6 < y <= 6
  }

  lemma SquareMonotone(a: nat, b: nat)
    requires a <= b
    ensures a * a <= b * b
  {
    assert a * a <= a * b <= b * b;
  }

  /** A cell is in the window exactly when the walk reaches it within its first 144 passes. */
  lemma WindowIndex(x: int, y: int)
    ensures InWindow(x, y) <==> SpiralIndex(x, y) < 144
  {
    var k := Ring(x, y);
    if 1 <= k <= 5 {
      assert RingStart(k + 1) == RingStart(k) + 8 * k;
      RingStartSquare(k + 1);
      SquareMonotone(2 * k + 1, 11);
    } else if k == 6 {
      RingStartSquare(6);
    } else if k >= 7 {
      RingStartSquare(k);
      SquareMonotone(13, 2 * k - 1);
    }
  }

  /**
   * The first 144 passes visit every window cell exactly once and every
   * later pass falls outside the window.
   */
  lemma WindowCoverage(i: nat)
    ensures InWindow(WalkAt(i).x, WalkAt(i).y) <==> i < 144
  {
    WalkIndex(i);
    WindowIndex(WalkAt(i).x, WalkAt(i).y);
  }

  /** Every window cell is the walker's cell at some pass below 144. */
  lemma WindowCovered(x: int, y: int)
    requires InWindow(x, y)
    ensures SpiralIndex(x, y) < 144
    ensures WalkAt(SpiralIndex(x, y)).x == x && WalkAt(SpiralIndex(x, y)).y == y
  {
    WindowIndex(x, y);
    WalkReaches(x, y);
  }

  /** The grid cell a window cell maps to, shifted by the centre offset 6. */
  function GridOf(x: int, y: int): (g: Option<(int, int)>)
    ensures g.Some? <==> InWindow(x, y)
    ensures g.Some? ==> 1 <= g.value.0 <= 12 && 1 <= g.value.1 <= 12
  {
    if InWindow(x, y) then Some((x + 6, y + 6)) else None
  }

  /** The cell a pass records: the walker's grid cell when it is inside the window. */
  method PlaceCell(x: int, y: int) returns (cell: Option<(int, int)>)
    ensures cell == GridOf(x, y)
  {
    var centerOffset := 6;
    if -6 < x <= 6 && -6 < y <= 6 {
      cell := Some((x + centerOffset, y + centerOffset));
    } else {
      cell := None;
    }
  }

  /** The end of a pass: turn left on a corner of the spiral, then move one unit. */
  method Advance(x: int, y: int, dx: int, dy: int) returns (x': int, y': int, dx': int, dy': int)
    ensures Walker(x', y', dx', dy') == Step(Walker(x, y, dx, dy))
  {
    dx', dy' := dx, dy;
    if x == y || (x < 0 && x == -y) || (x > 0 && x == 1 - y) {
      dx', dy' := -dy, dx;
    }
    x', y' := x + dx', y + dy';
  }

  /**
   * The Spiral loop over `n` passes: the grid cell it assigns at each pass,
   * or None when the walker is outside the window and nothing is written.
   */
  method SpiralWalk(n: nat) returns (cells: seq<Option<(int, int)>>)
    ensures |cells| == n
    ensures forall i {:trigger cells[i]} :: 0 <= i < n ==> cells[i] == GridOf(WalkAt(i).x, WalkAt(i).y)
  {
    var x, y, dx, dy := 0, 0, 0, -1;
    cells := [];
    for i := 0 to n
      invariant |cells| == i
      invariant Walker(x, y, dx, dy) == WalkAt(i)
      invariant forall j {:trigger cells[j]} :: 0 <= j < i ==> cells[j] == GridOf(WalkAt(j).x, WalkAt(j).y)
    {
      ghost var w := Walker(x, y, dx, dy);
      ghost var done := cells;
      var cell := PlaceCell(x, y);
      cells := cells + [cell];
      assert forall j :: 0 <= j < i ==> cells[j] == done[j];
      x, y, dx, dy := Advance(x, y, dx, dy);
      WalkNext(i + 1, w, Walker(x, y, dx, dy));
    }
  }

  /**
   * What the Spiral walk places: passes below 144 get pairwise distinct
   * cells in [1, 12]^2, every such cell is used, and later passes get none.
   */
  lemma SpiralPlacement(i: nat, j: nat)
    ensures GridOf(WalkAt(i).x, WalkAt(i).y).Some? <==> i < 144
    ensures i != j && GridOf(WalkAt(i).x, WalkAt(i).y).Some? && GridOf(WalkAt(j).x, WalkAt(j).y).Some? ==>
      GridOf(WalkAt(i).x, WalkAt(i).y) != GridOf(WalkAt(j).x, WalkAt(j).y)
  {
    WindowCoverage(i);
    if i != j {
      WalkInjective(i, j);
    }
  }

  /** Every cell of [1, 12]^2 is placed by some pass below 144. */
  lemma SpiralFillsGrid(gx: int, gy: int)
    requires 1 <= gx <= 12 && 1 <= gy <= 12
    ensures SpiralIndex(gx - 6, gy - 6) < 144
    ensures GridOf(WalkAt(SpiralIndex(gx - 6, gy - 6)).x, WalkAt(SpiralIndex(gx - 6, gy - 6)).y) == Some((gx, gy))
  {
    WindowCovered(gx - 6, gy - 6);
  }
}
