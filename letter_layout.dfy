/**
 * The letters layout of the main page. The ranked fragments are dealt to the
 * letters of the layout text in contiguous slices. The first `N mod L`
 * letters get one fragment more than the rest. The letters stand side by side,
 * centred on the frame's centre, each `scaledSizeX` wide, with `letterGap`
 * between them. Each fragment of a letter goes to one of the letter's glyph
 * points, plus a random jitter on each axis. A letter whose glyph lights no
 * pixel sends its fragments back to their base centres.
 *
 * The glyph canvases and the numbers `Math.random()` returns are inputs: one
 * canvas and one list of shuffle draws per letter, and one jitter pair per
 * rank.
 */
module LetterLayout {
  import opened Wrappers
  import opened Geometry
  import opened Frame
  import opened LetterPoints

  // Dealing the ranks to the letters.

  /** `floor(N / L) + (idx < N mod L ? 1 : 0)`: how many ranks letter idx receives. */
  function LetterCount(n: nat, letters: nat, idx: nat): nat
    requires letters > 0
  {
    n / letters + (if idx < n % letters then 1 else 0)
  }

  /** The running `fragmentIndex` when letter idx is reached: the counts of the letters before it. */
  function LetterStart(n: nat, letters: nat, idx: nat): nat
    requires letters > 0
  {
    if idx == 0 then 0 else LetterStart(n, letters, idx - 1) + LetterCount(n, letters, idx - 1)
  }

  /** The slices in closed form: `idx * floor(N / L)` plus one for each earlier letter with an extra rank. */
  lemma {:induction false} LetterStartClosed(n: nat, letters: nat, idx: nat)
    requires letters > 0
    ensures LetterStart(n, letters, idx) == idx * (n / letters) + (if idx < n % letters then idx else n % letters)
  {
    if idx > 0 {
      LetterStartClosed(n, letters, idx - 1);
      assert (idx - 1) * (n / letters) + n / letters == idx * (n / letters);
    }
  }

  /**
   * The slices cover the ranks exactly: together the letters receive all N
   * ranks, and the counts differ by at most one, the larger ones first.
   */
  lemma SlicesPartition(n: nat, letters: nat, i: nat, j: nat)
    requires letters > 0 && i <= j < letters
    ensures LetterStart(n, letters, letters) == n
    ensures LetterCount(n, letters, j) <= LetterCount(n, letters, i) <= LetterCount(n, letters, j) + 1
  {
    LetterStartClosed(n, letters, letters);
    assert n == letters * (n / letters) + n % letters;
  }

  /** Later letters start no earlier. */
  lemma {:induction false} StartMonotone(n: nat, letters: nat, i: nat, j: nat)
    requires letters > 0 && i <= j
    ensures LetterStart(n, letters, i) <= LetterStart(n, letters, j)
    decreases j - i
  {
    if i < j {
      StartMonotone(n, letters, i, j - 1);
    }
  }

  /** The letter whose slice holds rank r, searching from letter idx on. */
  function LetterOfFrom(n: nat, letters: nat, r: nat, idx: nat): (k: nat)
    requires letters > 0 && r < n && idx < letters && LetterStart(n, letters, idx) <= r
    ensures idx <= k < letters
    ensures LetterStart(n, letters, k) <= r < LetterStart(n, letters, k + 1)
    decreases letters - idx
  {
    if r < LetterStart(n, letters, idx + 1) then idx
    else
      SlicesPartition(n, letters, 0, 0);
      StartMonotone(n, letters, idx + 1, letters);
      LetterOfFrom(n, letters, r, idx + 1)
  }

  /** The letter whose slice holds rank r. */
  function LetterOf(n: nat, letters: nat, r: nat): nat
    requires letters > 0 && r < n
  {
    LetterOfFrom(n, letters, r, 0)
  }

  /**
   * Every rank belongs to exactly one letter's slice: the slice of
   * `LetterOf(r)` holds it, and so does no other letter's slice.
   */
  lemma SliceOf(n: nat, letters: nat, r: nat, idx: nat)
    requires letters > 0 && r < n && idx < letters
    ensures LetterOf(n, letters, r) < letters
    ensures LetterStart(n, letters, LetterOf(n, letters, r)) <= r < LetterStart(n, letters, LetterOf(n, letters, r) + 1)
    ensures LetterStart(n, letters, idx) <= r < LetterStart(n, letters, idx + 1) <==> idx == LetterOf(n, letters, r)
  {
    var k := LetterOf(n, letters, r);
    if idx < k {
      StartMonotone(n, letters, idx + 1, k);
    } else if k < idx {
      StartMonotone(n, letters, k + 1, idx);
    }
  }

  // Placing the letters.

  /** The four letter controls. */
  datatype LetterSettings = LetterSettings(scale: real, aspect: real, spacing: real, jitter: real)

  /** `size.x * letterScale * letterAspect`: one letter's width. */
  function ScaledSizeX(box: Box, s: LetterSettings): real { Size(box).x * s.scale * s.aspect }

  /** `size.y * letterScale`: one letter's height. */
  function ScaledSizeY(box: Box, s: LetterSettings): real { Size(box).y * s.scale }

  /** `scaledSizeX * letterSpacing`: the gap between neighbouring letters. */
  function LetterGap(box: Box, s: LetterSettings): real { ScaledSizeX(box, s) * s.spacing }

  /** The letters' combined width: L letters and the L-1 gaps between them. */
  function TotalWidth(letters: nat, sizeX: real, gap: real): real
    requires letters > 0
  {
    letters as real * sizeX + (letters - 1) as real * gap
  }

  /** The horizontal offset of letter idx's centre from the frame's centre. */
  function XOffset(letters: nat, sizeX: real, gap: real, idx: nat): real
    requires letters > 0
  {
    -TotalWidth(letters, sizeX, gap) / 2.0 + sizeX / 2.0 + idx as real * (sizeX + gap)
  }

  /**
   * Neighbouring letters sit one letter width plus one gap apart, and the
   * first and last letters sit symmetrically about the frame's centre.
   */
  lemma OffsetsCentred(letters: nat, sizeX: real, gap: real, idx: nat)
    requires letters > 0
    ensures XOffset(letters, sizeX, gap, idx + 1) - XOffset(letters, sizeX, gap, idx) == sizeX + gap
    ensures XOffset(letters, sizeX, gap, 0) + XOffset(letters, sizeX, gap, letters - 1) == 0.0
  {
    var step := sizeX + gap;
    var l := (letters - 1) as real;
    assert (idx + 1) as real * step == idx as real * step + step;
    assert TotalWidth(letters, sizeX, gap) == sizeX + l * step;
  }

  /** `cellWidth * letterJitter`: the largest random shift on either axis. */
  function JitterSpan(box: Box, s: LetterSettings): real { CellWidth(box) * s.jitter }

  /** The frame's centre on the ground plane. */
  function FrameCentre(box: Box): Vec2 {
    Vec2(box.min.x + Size(box).x / 2.0, box.min.y + Size(box).y / 2.0)
  }

  /** The glyph point p of letter idx placed in the world, before any jitter. */
  function GlyphPoint(box: Box, s: LetterSettings, letters: nat, idx: nat, p: Vec2): Vec2
    requires letters > 0
  {
    var c := FrameCentre(box);
    var sx := ScaledSizeX(box, s);
    Vec2(c.x + XOffset(letters, sx, LetterGap(box, s), idx) + (p.x - 0.5) * sx,
         c.y + (p.y - 0.5) * ScaledSizeY(box, s))
  }

  /** The target of a fragment sent to glyph point p of letter idx with jitter draws (u, v). */
  function LetterTarget(box: Box, s: LetterSettings, letters: nat, idx: nat, p: Vec2, d: Jitter): Vec3
    requires letters > 0
  {
    var g := GlyphPoint(box, s, letters, idx, p);
    var j := JitterSpan(box, s);
    Vec3(g.x + d.u * j, g.y + d.v * j, 0.0)
  }

  /** The two numbers `Math.random()` gives one fragment's jitter. */
  datatype Jitter = Jitter(u: real, v: real)

  predicate UnitJitters(ds: seq<Jitter>) {
    forall r :: 0 <= r < |ds| ==> 0.0 <= ds[r].u < 1.0 && 0.0 <= ds[r].v < 1.0
  }

  /** The inputs the letters need: a canvas per letter and enough shuffle draws for it. */
  predicate GlyphInputs(rasters: seq<seq<int>>, shuffles: seq<seq<real>>, letters: nat) {
    && |rasters| == letters && |shuffles| == letters
    && (forall k :: 0 <= k < letters ==> IsImage(rasters[k], CanvasSize))
    && (forall k :: 0 <= k < letters ==> CanvasSize * CanvasSize <= |shuffles[k]| + 1 && UnitDraws(shuffles[k]))
  }

  /** The glyph points of every letter: letter k's are `getLetterPoints(letter, count)`. */
  function GlyphsOf(rasters: seq<seq<int>>, shuffles: seq<seq<real>>, n: nat, letters: nat): (gs: seq<seq<Vec2>>)
    requires letters > 0 && GlyphInputs(rasters, shuffles, letters)
    ensures |gs| == letters
  {
    seq(letters, k requires 0 <= k < letters =>
      LetterPointsOf(rasters[k], CanvasSize, LetterCount(n, letters, k), shuffles[k]))
  }

  /**
   * Where the layout sends rank r: to glyph point `index % points` of its
   * letter, jittered, where `index` is r's place in its letter's slice; or
   * back to its base centre when the glyph has no points.
   */
  function TargetOf(box: Box, s: LetterSettings, bases: seq<Vec3>, glyphs: seq<seq<Vec2>>,
                    jitters: seq<Jitter>, r: nat): Vec3
    requires 0 < |glyphs| && r < |bases| == |jitters|
  {
    var n, letters := |bases|, |glyphs|;
    SliceOf(n, letters, r, 0);
    var idx := LetterOf(n, letters, r);
    var pts := glyphs[idx];
    var index := r - LetterStart(n, letters, idx);
    if |pts| > 0 then LetterTarget(box, s, letters, idx, pts[index % |pts|], jitters[r])
    else bases[r]
  }

  /**
   * The letters loop: letter by letter, it takes the next `count` ranks and
   * writes a target for each. With no letters, nothing is written.
   */
  method LettersLayout(box: Box, s: LetterSettings, bases: seq<Vec3>, rasters: seq<seq<int>>,
                       shuffles: seq<seq<real>>, jitters: seq<Jitter>, letters: nat)
    returns (targets: seq<Option<Vec3>>)
    requires GlyphInputs(rasters, shuffles, letters) && |jitters| == |bases|
    ensures |targets| == |bases|
    ensures letters == 0 ==> forall r :: 0 <= r < |bases| ==> targets[r] == None
    ensures letters > 0 ==> forall r :: 0 <= r < |bases| ==>
      targets[r] == Some(TargetOf(box, s, bases, GlyphsOf(rasters, shuffles, |bases|, letters), jitters, r))
  {
    var n := |bases|;
    targets := seq(n, _ => None);
    if letters == 0 {
      return;
    }
    ghost var glyphs := GlyphsOf(rasters, shuffles, n, letters);
    SlicesPartition(n, letters, 0, 0);
    var fragmentIndex := 0;
    for letterIdx := 0 to letters
      invariant |targets| == n
      invariant fragmentIndex == LetterStart(n, letters, letterIdx) <= n
      invariant forall r :: 0 <= r < fragmentIndex ==> targets[r] == Some(TargetOf(box, s, bases, glyphs, jitters, r))
      invariant forall r :: fragmentIndex <= r < n ==> targets[r] == None
    {
      var count := LetterCount(n, letters, letterIdx);
      StartMonotone(n, letters, letterIdx + 1, letters);
      var points := GetLetterPoints(rasters[letterIdx], count, shuffles[letterIdx]);
      assert points == glyphs[letterIdx];
      ghost var before := targets;
      targets := FillSlice(box, s, bases, glyphs, jitters, letters, letterIdx, points, targets);
      var next := fragmentIndex + count;
      assert next == LetterStart(n, letters, letterIdx + 1);
      forall r | 0 <= r < next
        ensures targets[r] == Some(TargetOf(box, s, bases, glyphs, jitters, r))
      {
        if r < fragmentIndex {
          assert targets[r] == before[r];
        }
      }
      fragmentIndex := next;
    }
  }

  /** The inner loop for letter idx: a target for each rank of its slice, the other targets untouched. */
  method FillSlice(box: Box, s: LetterSettings, bases: seq<Vec3>, ghost glyphs: seq<seq<Vec2>>,
                   jitters: seq<Jitter>, letters: nat, idx: nat, points: seq<Vec2>, prev: seq<Option<Vec3>>)
    returns (targets: seq<Option<Vec3>>)
    requires letters == |glyphs| && idx < letters && points == glyphs[idx]
    requires |jitters| == |bases| == |prev|
    requires LetterStart(|bases|, |glyphs|, idx + 1) <= |bases|
    ensures |targets| == |bases|
    ensures forall r :: 0 <= r < |bases| ==>
      targets[r] == if LetterStart(|bases|, |glyphs|, idx) <= r < LetterStart(|bases|, |glyphs|, idx + 1)
        then Some(TargetOf(box, s, bases, glyphs, jitters, r))
        else prev[r]
  {
    var n := |bases|;
    var start := LetterStart(n, letters, idx);
    var count := LetterCount(n, letters, idx);
    targets := prev;
    for index := 0 to count
      invariant |targets| == n
      invariant forall r :: 0 <= r < n ==>
        targets[r] == if start <= r < start + index then Some(TargetOf(box, s, bases, glyphs, jitters, r)) else prev[r]
    {
      var r := start + index;
      SliceOf(n, letters, r, idx);
      if |points| > 0 {
        var pointIndex := index % |points|;
        targets := targets[r := Some(LetterTarget(box, s, letters, idx, points[pointIndex], jitters[r]))];
      } else {
        targets := targets[r := Some(bases[r])];
      }
    }
  }

  // What the placement promises.

  /**
   * The glyph point index is always in range, and when the glyph has at least
   * as many lit pixels as the letter has fragments, each fragment gets its own
   * point: the index is the fragment's place in the slice.
   */
  lemma PointIndexInRange(pixels: seq<int>, draws: seq<real>, count: nat, index: nat)
    requires CanvasSize * CanvasSize <= |draws| + 1 && UnitDraws(draws) && index < count
    ensures var pts := LetterPointsOf(pixels, CanvasSize, count, draws);
      && |pts| <= count
      && (count <= |Scan(pixels, CanvasSize)| ==> |pts| == count && index % |pts| == index)
  {
    var pts := LetterPointsOf(pixels, CanvasSize, count, draws);
    LetterPointsCount(pixels, CanvasSize, count, draws);
    if count <= |Scan(pixels, CanvasSize)| {
      SmallRemainder(index, |pts|);
    }
  }

  lemma SmallRemainder(a: nat, m: nat)
    requires a < m
    ensures a % m == a
  {
  }

  /** A letter whose glyph lights no pixel sends every fragment of its slice back to its base centre. */
  lemma DarkGlyphFallsBack(box: Box, s: LetterSettings, bases: seq<Vec3>, rasters: seq<seq<int>>,
                           shuffles: seq<seq<real>>, jitters: seq<Jitter>, letters: nat, r: nat)
    requires letters > 0 && r < |bases| && GlyphInputs(rasters, shuffles, letters) && |jitters| == |bases|
    requires |Scan(rasters[LetterOf(|bases|, letters, r)], CanvasSize)| == 0
    ensures TargetOf(box, s, bases, GlyphsOf(rasters, shuffles, |bases|, letters), jitters, r) == bases[r]
  {
    SliceOf(|bases|, letters, r, 0);
    var idx := LetterOf(|bases|, letters, r);
    LetterPointsCount(rasters[idx], CanvasSize, LetterCount(|bases|, letters, idx), shuffles[idx]);
  }

  /**
   * The jitter moves a fragment right of and above its glyph point by less
   * than `cellWidth * letterJitter` on each axis (by nothing when that span is
   * zero), and the target lies on the ground plane.
   */
  lemma JitterBounded(box: Box, s: LetterSettings, letters: nat, idx: nat, p: Vec2, d: Jitter)
    requires letters > 0 && 0.0 <= d.u < 1.0 && 0.0 <= d.v < 1.0 && 0.0 <= JitterSpan(box, s)
    ensures var t := LetterTarget(box, s, letters, idx, p, d);
      var g := GlyphPoint(box, s, letters, idx, p);
      var j := JitterSpan(box, s);
      && g.x <= t.x <= g.x + j && g.y <= t.y <= g.y + j && t.z == 0.0
      && (0.0 < j ==> t.x < g.x + j && t.y < g.y + j)
  {
    var t := LetterTarget(box, s, letters, idx, p, d);
    var g := GlyphPoint(box, s, letters, idx, p);
    var j := JitterSpan(box, s);
    Shifted(g.x, d.u, j, t.x);
    Shifted(g.y, d.v, j, t.y);
  }

  /** Adding u times j, for u in [0, 1), moves a coordinate up by less than j. */
  lemma Shifted(a: real, u: real, j: real, b: real)
    requires 0.0 <= u < 1.0 && 0.0 <= j && b == a + u * j
    ensures a <= b <= a + j
    ensures 0.0 < j ==> b < a + j
  {
    MulMonotone(0.0, u, j);
    MulMonotone(u, 1.0, j);
    if 0.0 < j {
      assert j - u * j == (1.0 - u) * j;
      PositiveProduct(1.0 - u, j);
    }
  }

  /**
   * Before jitter, a glyph point of letter idx lies within the letter's own
   * box: at most half a letter width either side of the letter's centre
   * `centerX + xOffset`, and at most half a letter height from `centerY`.
   */
  lemma GlyphInLetterBox(box: Box, s: LetterSettings, letters: nat, idx: nat, p: Vec2)
    requires letters > 0 && OnCanvas(p) && 0.0 <= ScaledSizeX(box, s) && 0.0 <= ScaledSizeY(box, s)
    ensures var g := GlyphPoint(box, s, letters, idx, p);
      var cx := FrameCentre(box).x + XOffset(letters, ScaledSizeX(box, s), LetterGap(box, s), idx);
      var hx := ScaledSizeX(box, s) / 2.0;
      var hy := ScaledSizeY(box, s) / 2.0;
      cx - hx <= g.x <= cx + hx && FrameCentre(box).y - hy <= g.y <= FrameCentre(box).y + hy
  {
    var g := GlyphPoint(box, s, letters, idx, p);
    var sx, sy := ScaledSizeX(box, s), ScaledSizeY(box, s);
    var cx := FrameCentre(box).x + XOffset(letters, sx, LetterGap(box, s), idx);
    HalfSpan(cx, p.x, sx, g.x);
    HalfSpan(FrameCentre(box).y, p.y, sy, g.y);
  }

  /** For t in [0, 1], `c + (t - 0.5) * w` lies within half of w either side of c. */
  lemma HalfSpan(c: real, t: real, w: real, v: real)
    requires 0.0 <= t <= 1.0 && 0.0 <= w && v == c + (t - 0.5) * w
    ensures c - w / 2.0 <= v <= c + w / 2.0
  {
    MulMonotone(t, 1.0, w);
    assert t * w <= 1.0 * w;
    assert 1.0 * w == w;
    MulMonotone(0.0, t, w);
    var tw := t * w;
    assert 0.0 <= tw <= w;
    assert v == c + tw - w / 2.0;
  }
}
