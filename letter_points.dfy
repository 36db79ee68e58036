/**
 * The points of one letter glyph (`getLetterPoints`). The glyph is drawn white
 * on black into a square canvas. Every pixel whose red byte exceeds 128
 * becomes a point of the unit square, with x to the right and y pointing up.
 * The points are shuffled by a Fisher–Yates pass, and at most `numPoints` of
 * them are kept, taken at evenly spaced indices.
 *
 * Drawing the glyph is the browser's work, so the canvas's RGBA bytes are an
 * input, and so are the numbers `Math.random()` returns to the shuffle.
 */
module LetterPoints {
  import opened Geometry

  /** The canvas is this many pixels wide and high. */
  const CanvasSize: nat := 512

  /** The canvas's bytes: red, green, blue and alpha for each pixel, row by row. */
  predicate IsImage(pixels: seq<int>, size: nat) {
    |pixels| == size * size * 4
  }

  /** Where the red byte of pixel (x, y) sits. */
  function RedOffset(size: nat, y: nat, x: nat): nat {
    (y * size + x) * 4
  }

  lemma RedInImage(size: nat, y: nat, x: nat)
    requires y < size && x < size
    ensures RedOffset(size, y, x) + 4 <= size * size * 4
  {
    var r := y * size + x;
    assert r + 1 <= y * size + size;
    assert y * size + size == (y + 1) * size;
    MulLeq(y + 1, size, size);
    assert (r + 1) * 4 == r * 4 + 4;
  }

  lemma MulLeq(a: nat, b: nat, c: nat)
    requires a <= b
    ensures a * c <= b * c
  {
  }

  /**
   * A pixel is kept when its red byte exceeds 128. (On a whole image the red
   * byte of every pixel exists, by `RedInImage`.)
   */
  predicate Bright(pixels: seq<int>, size: nat, y: nat, x: nat) {
    var i := RedOffset(size, y, x);
    i < |pixels| && pixels[i] > 128
  }

  /** Pixel (x, y) as a point: `x / size` across and `1 - y / size` up. */
  function PixelPoint(size: nat, y: nat, x: nat): Vec2
    requires size > 0
  {
    Vec2(x as real / size as real, 1.0 - y as real / size as real)
  }

  /** Where a kept point can lie: x in [0, 1) and y in (0, 1]. */
  predicate OnCanvas(p: Vec2) {
    0.0 <= p.x < 1.0 && 0.0 < p.y <= 1.0
  }

  // Scanning the canvas.

  /** The points of the kept pixels of row y left of column x, from left to right. */
  function ScanRow(pixels: seq<int>, size: nat, y: nat, x: nat): seq<Vec2>
    requires y < size && x <= size
  {
    if x == 0 then []
    else ScanRow(pixels, size, y, x - 1) + (if Bright(pixels, size, y, x - 1) then [PixelPoint(size, y, x - 1)] else [])
  }

  /** The points of the kept pixels of the rows above row y, row by row. */
  function ScanRows(pixels: seq<int>, size: nat, y: nat): seq<Vec2>
    requires y <= size
  {
    if y == 0 then [] else ScanRows(pixels, size, y - 1) + ScanRow(pixels, size, y - 1, size)
  }

  /** The points of all kept pixels, in the order the scan meets them. */
  function Scan(pixels: seq<int>, size: nat): seq<Vec2> {
    ScanRows(pixels, size, size)
  }

  /** The double loop over rows and columns, pushing the point of every kept pixel. */
  method ScanPixels(pixels: seq<int>, size: nat) returns (white: seq<Vec2>)
    requires IsImage(pixels, size)
    ensures white == Scan(pixels, size)
  {
    white := [];
    for y := 0 to size
      invariant white == ScanRows(pixels, size, y)
    {
      for x := 0 to size
        invariant white == ScanRows(pixels, size, y) + ScanRow(pixels, size, y, x)
      {
        RedInImage(size, y, x);
        var i := (y * size + x) * 4;
        if pixels[i] > 128 {
          white := white + [PixelPoint(size, y, x)];
        }
      }
    }
  }

  lemma PixelOnCanvas(size: nat, y: nat, x: nat)
    requires y < size && x < size
    ensures OnCanvas(PixelPoint(size, y, x))
  {
    DivBounds(x as real, size as real);
    DivBounds(y as real, size as real);
  }

  /** Distinct pixels give distinct points. */
  lemma PixelPointInjective(size: nat, y: nat, x: nat, y': nat, x': nat)
    requires size > 0 && PixelPoint(size, y, x) == PixelPoint(size, y', x')
    ensures y == y' && x == x'
  {
    var s := size as real;
    assert x as real / s * s == x as real && x' as real / s * s == x' as real;
    assert y as real / s * s == y as real && y' as real / s * s == y' as real;
  }

  lemma {:induction false} ScanRowOnCanvas(pixels: seq<int>, size: nat, y: nat, x: nat)
    requires y < size && x <= size
    ensures forall k :: 0 <= k < |ScanRow(pixels, size, y, x)| ==> OnCanvas(ScanRow(pixels, size, y, x)[k])
  {
    if x > 0 {
      ScanRowOnCanvas(pixels, size, y, x - 1);
      PixelOnCanvas(size, y, x - 1);
    }
  }

  lemma {:induction false} ScanRowsOnCanvas(pixels: seq<int>, size: nat, y: nat)
    requires y <= size
    ensures forall k :: 0 <= k < |ScanRows(pixels, size, y)| ==> OnCanvas(ScanRows(pixels, size, y)[k])
  {
    if y > 0 {
      ScanRowsOnCanvas(pixels, size, y - 1);
      ScanRowOnCanvas(pixels, size, y - 1, size);
    }
  }

  /** A kept pixel's point is in its row's scan once the scan has passed it. */
  lemma {:induction false} BrightInRow(pixels: seq<int>, size: nat, y: nat, x: nat, upTo: nat)
    requires y < size && x < upTo <= size && Bright(pixels, size, y, x)
    ensures PixelPoint(size, y, x) in ScanRow(pixels, size, y, upTo)
  {
    if x + 1 < upTo {
      BrightInRow(pixels, size, y, x, upTo - 1);
    }
  }

  /** A dark pixel's point is in no row's scan. */
  lemma {:induction false} DarkNotInRow(pixels: seq<int>, size: nat, y: nat, x: nat, row: nat, upTo: nat)
    requires y < size && x < size && row < size && upTo <= size
    requires !Bright(pixels, size, y, x)
    ensures PixelPoint(size, y, x) !in ScanRow(pixels, size, row, upTo)
  {
    if upTo > 0 {
      DarkNotInRow(pixels, size, y, x, row, upTo - 1);
      if Bright(pixels, size, row, upTo - 1) && PixelPoint(size, y, x) == PixelPoint(size, row, upTo - 1) {
        PixelPointInjective(size, y, x, row, upTo - 1);
      }
    }
  }

  /** A point of row y's scan is in the scan of every longer run of rows. */
  lemma {:induction false} RowInRows(pixels: seq<int>, size: nat, p: Vec2, y: nat, rows: nat)
    requires y < rows <= size && p in ScanRow(pixels, size, y, size)
    ensures p in ScanRows(pixels, size, rows)
  {
    var before := ScanRows(pixels, size, rows - 1);
    var last := ScanRow(pixels, size, rows - 1, size);
    assert ScanRows(pixels, size, rows) == before + last;
    if y + 1 < rows {
      RowInRows(pixels, size, p, y, rows - 1);
      assert p in before;
    } else {
      assert rows - 1 == y;
      assert p in last;
    }
  }

  /** A point in no row's scan is not in the scan of any run of rows. */
  lemma {:induction false} InNoRow(pixels: seq<int>, size: nat, p: Vec2, rows: nat)
    requires rows <= size
    requires forall r :: 0 <= r < size ==> p !in ScanRow(pixels, size, r, size)
    ensures p !in ScanRows(pixels, size, rows)
  {
    if rows > 0 {
      InNoRow(pixels, size, p, rows - 1);
    }
  }

  /**
   * The scan keeps exactly the bright pixels: a pixel's point is among the
   * scanned points if and only if its red byte exceeds 128, and every scanned
   * point lies in [0, 1) across and (0, 1] up.
   */
  lemma ScanKeepsBright(pixels: seq<int>, size: nat, y: nat, x: nat)
    requires IsImage(pixels, size) && y < size && x < size
    ensures RedOffset(size, y, x) < |pixels|
    ensures PixelPoint(size, y, x) in Scan(pixels, size) <==> pixels[RedOffset(size, y, x)] > 128
    ensures forall k :: 0 <= k < |Scan(pixels, size)| ==> OnCanvas(Scan(pixels, size)[k])
  {
    RedInImage(size, y, x);
    if Bright(pixels, size, y, x) {
      BrightInRow(pixels, size, y, x, size);
      RowInRows(pixels, size, PixelPoint(size, y, x), y, size);
    } else {
      forall r | 0 <= r < size ensures PixelPoint(size, y, x) !in ScanRow(pixels, size, r, size) {
        DarkNotInRow(pixels, size, y, x, r, size);
      }
      InNoRow(pixels, size, PixelPoint(size, y, x), size);
    }
    ScanRowsOnCanvas(pixels, size, size);
  }

  // Shuffling.

  /** Numbers drawn from `Math.random()`. */
  predicate UnitDraws(draws: seq<real>) {
    forall k :: 0 <= k < |draws| ==> 0.0 <= draws[k] < 1.0
  }

  /** `Math.floor(u * (i + 1))`: the partner the shuffle draws for position i, never past i. */
  function SwapIndex(u: real, i: nat): (j: nat)
    requires 0.0 <= u < 1.0
    ensures j <= i
  {
    var m := (i + 1) as real;
    var v := u * m;
    MulMonotone(0.0, u, m);
    MulStrict(u, m);
    FloorWithin(v, i + 1);
    v.Floor
  }

  lemma FloorWithin(v: real, n: nat)
    requires 0.0 <= v < n as real
    ensures 0 <= v.Floor < n
  {
  }

  lemma MulStrict(u: real, m: real)
    requires u < 1.0 && 0.0 < m
    ensures u * m < m
  {
    assert m - u * m == (1.0 - u) * m;
    PositiveProduct(1.0 - u, m);
  }

  function Swap<T>(s: seq<T>, i: nat, j: nat): (r: seq<T>)
    requires i < |s| && j < |s|
    ensures |r| == |s| && r[i] == s[j] && r[j] == s[i]
    ensures forall k :: 0 <= k < |s| && k != i && k != j ==> r[k] == s[k]
  {
    s[i := s[j]][j := s[i]]
  }

  /**
   * The shuffle from position i down to position 1: position i swaps with a
   * drawn partner at or before it. The steps draw in turn, so step i takes
   * draw `|s| - 1 - i`.
   */
  function ShuffleFrom<T>(s: seq<T>, draws: seq<real>, i: nat): seq<T>
    requires i < |s| && |s| <= |draws| + 1 && UnitDraws(draws)
    decreases i
  {
    if i == 0 then s
    else ShuffleFrom(Swap(s, i, SwapIndex(draws[|s| - 1 - i], i)), draws, i - 1)
  }

  function Shuffled<T>(s: seq<T>, draws: seq<real>): seq<T>
    requires |s| <= |draws| + 1 && UnitDraws(draws)
  {
    if |s| == 0 then s else ShuffleFrom(s, draws, |s| - 1)
  }

  /** The Fisher–Yates pass over the array, from its last position down to its second. */
  method Shuffle<T>(a: array<T>, draws: seq<real>)
    requires a.Length <= |draws| + 1 && UnitDraws(draws)
    modifies a
    ensures a[..] == Shuffled(old(a[..]), draws)
  {
    if a.Length == 0 {
      return;
    }
    var i := a.Length - 1;
    while i > 0
      invariant 0 <= i < a.Length
      invariant ShuffleFrom(a[..], draws, i) == Shuffled(old(a[..]), draws)
      decreases i
    {
      var j := SwapIndex(draws[a.Length - 1 - i], i);
      ghost var before := a[..];
      Exchange(a, i, j);
      assert ShuffleFrom(before, draws, i) == ShuffleFrom(a[..], draws, i - 1);
      i := i - 1;
    }
  }

  /** `[a[i], a[j]] = [a[j], a[i]]`. */
  method Exchange<T>(a: array<T>, i: nat, j: nat)
    requires i < a.Length && j < a.Length
    modifies a
    ensures a[..] == Swap(old(a[..]), i, j)
  {
    a[i], a[j] := a[j], a[i];
  }

  lemma SwapPermutes<T>(s: seq<T>, i: nat, j: nat)
    requires i < |s| && j < |s|
    ensures multiset(Swap(s, i, j)) == multiset(s)
  {
    if i != j {
      var t := s[i := s[j]];
      assert multiset(t) == multiset(s) - multiset{s[i]} + multiset{s[j]};
      assert multiset(t[j := s[i]]) == multiset(t) - multiset{t[j]} + multiset{s[i]};
    }
  }

  lemma {:induction false} ShuffleFromPermutes<T>(s: seq<T>, draws: seq<real>, i: nat)
    requires i < |s| && |s| <= |draws| + 1 && UnitDraws(draws)
    ensures multiset(ShuffleFrom(s, draws, i)) == multiset(s)
    decreases i
  {
    if i > 0 {
      var j := SwapIndex(draws[|s| - 1 - i], i);
      SwapPermutes(s, i, j);
      ShuffleFromPermutes(Swap(s, i, j), draws, i - 1);
    }
  }

  /** The shuffle only swaps: its result is a permutation of its input. */
  lemma ShufflePermutes<T>(s: seq<T>, draws: seq<real>)
    requires |s| <= |draws| + 1 && UnitDraws(draws)
    ensures |Shuffled(s, draws)| == |s|
    ensures multiset(Shuffled(s, draws)) == multiset(s)
  {
    if |s| > 0 {
      ShuffleFromPermutes(s, draws, |s| - 1);
    }
    assert |Shuffled(s, draws)| == |multiset(Shuffled(s, draws))|;
  }

  // Sampling.

  /** `Math.floor(i * (len / numPoints))`, taken in exact arithmetic. */
  function SampleIndex(len: nat, numPoints: nat, i: nat): nat
    requires numPoints > 0
  {
    i * len / numPoints
  }

  lemma SampleIndexBelow(len: nat, numPoints: nat, i: nat)
    requires i < numPoints && 0 < len
    ensures SampleIndex(len, numPoints, i) < len
  {
    var a := i * len;
    assert a <= (numPoints - 1) * len == numPoints * len - len;
    QuotientBelow(a, numPoints, len);
  }

  lemma QuotientBelow(a: nat, d: nat, m: nat)
    requires 0 < d && a < m * d
    ensures a / d < m
  {
    var q := a / d;
    assert q * d <= a;
    assert (m - q) * d == m * d - q * d;
  }

  /** With more points than wanted, the step exceeds one, so the sampled indices strictly increase. */
  lemma SampleIndexIncreasing(len: nat, numPoints: nat, i: nat)
    requires 0 < numPoints < len
    ensures SampleIndex(len, numPoints, i) < SampleIndex(len, numPoints, i + 1)
  {
    var a := i * len;
    assert (i + 1) * len == a + len;
    var q, r := a / numPoints, a % numPoints;
    assert a == q * numPoints + r;
    assert a + len >= (q + 1) * numPoints;
    DivAtLeast(a + len, numPoints, q + 1);
  }

  lemma DivAtLeast(a: nat, d: nat, q: nat)
    requires 0 < d && q * d <= a
    ensures q <= a / d
  {
    var k := a / d;
    assert a == k * d + a % d && a % d < d;
    assert q * d < (k + 1) * d;
  }

  /** All the points when there are few enough, otherwise `numPoints` of them at evenly spaced indices. */
  function Sample(points: seq<Vec2>, numPoints: nat): seq<Vec2> {
    if |points| <= numPoints then points
    else
      seq(numPoints, i requires 0 <= i < numPoints =>
        SampleIndexBelow(|points|, numPoints, i);
        points[SampleIndex(|points|, numPoints, i)])
  }

  /** The sampling loop: `numPoints` pushes of the point at `floor(i * step)`. */
  method SampleEvenly(points: seq<Vec2>, numPoints: nat) returns (result: seq<Vec2>)
    ensures result == Sample(points, numPoints)
  {
    if |points| <= numPoints {
      return points;
    }
    result := [];
    for i := 0 to numPoints
      invariant |result| == i
      invariant forall k :: 0 <= k < i ==> result[k] == Sample(points, numPoints)[k]
    {
      SampleIndexBelow(|points|, numPoints, i);
      var index := i * |points| / numPoints;
      result := result + [points[index]];
    }
  }

  /**
   * The sample: all the points when there are at most `numPoints`, otherwise
   * exactly `numPoints` of them, taken at strictly increasing indices.
   */
  lemma SampleShape(points: seq<Vec2>, numPoints: nat)
    ensures |points| <= numPoints ==> Sample(points, numPoints) == points
    ensures numPoints < |points| ==> |Sample(points, numPoints)| == numPoints
    ensures numPoints < |points| ==> forall i :: 0 <= i < numPoints ==>
      SampleIndex(|points|, numPoints, i) < |points|
      && Sample(points, numPoints)[i] == points[SampleIndex(|points|, numPoints, i)]
    ensures numPoints < |points| ==> forall i, j :: 0 <= i < j < numPoints ==>
      SampleIndex(|points|, numPoints, i) < SampleIndex(|points|, numPoints, j)
  {
    if numPoints < |points| {
      forall i | 0 <= i < numPoints {
        SampleIndexBelow(|points|, numPoints, i);
      }
      forall i, j | 0 <= i < j < numPoints
        ensures SampleIndex(|points|, numPoints, i) < SampleIndex(|points|, numPoints, j)
      {
        SampleIndexChain(|points|, numPoints, i, j);
      }
    }
  }

  lemma {:induction false} SampleIndexChain(len: nat, numPoints: nat, i: nat, j: nat)
    requires 0 < numPoints < len && i < j
    ensures SampleIndex(len, numPoints, i) < SampleIndex(len, numPoints, j)
    decreases j - i
  {
    SampleIndexIncreasing(len, numPoints, i);
    if i + 1 < j {
      SampleIndexChain(len, numPoints, i + 1, j);
    }
  }

  /** Every sampled point is one of the points sampled from. */
  lemma SampleFrom(points: seq<Vec2>, numPoints: nat, p: Vec2)
    requires p in Sample(points, numPoints)
    ensures p in points
  {
    if numPoints < |points| {
      var i :| 0 <= i < numPoints && Sample(points, numPoints)[i] == p;
      SampleIndexBelow(|points|, numPoints, i);
    }
  }

  // The whole function.

  /** What `getLetterPoints` returns for a canvas and a sequence of draws. */
  function LetterPointsOf(pixels: seq<int>, size: nat, numPoints: nat, draws: seq<real>): seq<Vec2>
    requires size * size <= |draws| + 1 && UnitDraws(draws)
  {
    var white := Scan(pixels, size);
    ScanLength(pixels, size);
    if |white| == 0 then [] else Sample(Shuffled(white, draws), numPoints)
  }

  /** The scan holds at most one point per pixel. */
  lemma ScanLength(pixels: seq<int>, size: nat)
    ensures |Scan(pixels, size)| <= size * size
  {
    RowsLength(pixels, size, size);
  }

  lemma {:induction false} RowsLength(pixels: seq<int>, size: nat, y: nat)
    requires y <= size
    ensures |ScanRows(pixels, size, y)| <= y * size
  {
    if y > 0 {
      RowsLength(pixels, size, y - 1);
      RowLength(pixels, size, y - 1, size);
      assert (y - 1) * size + size == y * size;
    }
  }

  lemma {:induction false} RowLength(pixels: seq<int>, size: nat, y: nat, x: nat)
    requires y < size && x <= size
    ensures |ScanRow(pixels, size, y, x)| <= x
  {
    if x > 0 {
      RowLength(pixels, size, y, x - 1);
    }
  }

  /** `getLetterPoints` on a 512-pixel canvas: scan, give up when nothing is lit, shuffle, sample. */
  method GetLetterPoints(pixels: seq<int>, numPoints: nat, draws: seq<real>) returns (points: seq<Vec2>)
    requires IsImage(pixels, CanvasSize) && CanvasSize * CanvasSize <= |draws| + 1 && UnitDraws(draws)
    ensures points == LetterPointsOf(pixels, CanvasSize, numPoints, draws)
  {
    var white := ScanPixels(pixels, CanvasSize);
    if |white| == 0 {
      return [];
    }
    ScanLength(pixels, CanvasSize);
    var a := new Vec2[|white|](k requires 0 <= k < |white| => white[k]);
    assert a[..] == white;
    Shuffle(a, draws);
    points := SampleEvenly(a[..], numPoints);
  }

  /**
   * How many points a letter gets: none when no pixel is lit, all lit pixels
   * when there are at most `numPoints` of them, and exactly `numPoints`
   * otherwise.
   */
  lemma LetterPointsCount(pixels: seq<int>, size: nat, numPoints: nat, draws: seq<real>)
    requires size * size <= |draws| + 1 && UnitDraws(draws)
    ensures var pts := LetterPointsOf(pixels, size, numPoints, draws);
      && (|Scan(pixels, size)| == 0 ==> pts == [])
      && (|Scan(pixels, size)| <= numPoints ==> |pts| == |Scan(pixels, size)|)
      && (numPoints < |Scan(pixels, size)| ==> |pts| == numPoints)
  {
    var white := Scan(pixels, size);
    ScanLength(pixels, size);
    if |white| > 0 {
      var shuffled := Shuffled(white, draws);
      ShufflePermutes(white, draws);
      SampleShape(shuffled, numPoints);
    }
  }

  /** Each point a letter gets is the point of a lit pixel, inside [0, 1) across and (0, 1] up. */
  lemma LetterPointsLit(pixels: seq<int>, size: nat, numPoints: nat, draws: seq<real>, p: Vec2)
    requires size * size <= |draws| + 1 && UnitDraws(draws)
    requires p in LetterPointsOf(pixels, size, numPoints, draws)
    ensures p in Scan(pixels, size) && OnCanvas(p)
  {
    var white := Scan(pixels, size);
    ScanLength(pixels, size);
    ScanRowsOnCanvas(pixels, size, size);
    var shuffled := Shuffled(white, draws);
    ShufflePermutes(white, draws);
    SampleFrom(shuffled, numPoints, p);
    assert p in multiset(shuffled);
  }
}
