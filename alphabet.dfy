/**
 * The Alphabet layout: each capital letter is a polyline in the unit square
 * (y pointing down), and the ranks are spread evenly by distance along it.
 * With the auto sequence on, the letter shown steps through LIVINGGEOMETRY,
 * one letter per timer tick.
 */
module Alphabet {
  import opened Geometry
  import opened Frame

  predicate IsLetter(c: char) {
    'A' <= c <= 'Z'
  }

  predicate InUnitSquare(p: Vec2) {
    0.0 <= p.x <= 1.0 && 0.0 <= p.y <= 1.0
  }

  /** The polyline of each capital letter, in normalised coordinates. */
  function LetterPath(c: char): seq<Vec2>
    requires IsLetter(c)
  {
    match c
    case 'A' => [Vec2(0.5, 0.0), Vec2(0.0, 1.0), Vec2(0.25, 0.5), Vec2(0.75, 0.5), Vec2(1.0, 1.0), Vec2(0.5, 0.0)]
    case 'B' => [Vec2(0.0, 0.0), Vec2(0.0, 1.0), Vec2(0.7, 1.0), Vec2(0.8, 0.85), Vec2(0.8, 0.65), Vec2(0.7, 0.5),
                 Vec2(0.0, 0.5), Vec2(0.7, 0.5), Vec2(0.8, 0.35), Vec2(0.8, 0.15), Vec2(0.7, 0.0), Vec2(0.0, 0.0)]
    case 'C' => [Vec2(1.0, 0.15), Vec2(0.7, 0.0), Vec2(0.3, 0.0), Vec2(0.0, 0.15), Vec2(0.0, 0.85), Vec2(0.3, 1.0),
                 Vec2(0.7, 1.0), Vec2(1.0, 0.85)]
    case 'D' => [Vec2(0.0, 0.0), Vec2(0.0, 1.0), Vec2(0.6, 1.0), Vec2(0.9, 0.8), Vec2(1.0, 0.5), Vec2(0.9, 0.2),
                 Vec2(0.6, 0.0), Vec2(0.0, 0.0)]
    case 'E' => [Vec2(1.0, 0.0), Vec2(0.0, 0.0), Vec2(0.0, 0.5), Vec2(0.7, 0.5), Vec2(0.0, 0.5), Vec2(0.0, 1.0), Vec2(1.0, 1.0)]
    case 'F' => [Vec2(0.0, 1.0), Vec2(0.0, 0.0), Vec2(1.0, 0.0), Vec2(0.0, 0.0), Vec2(0.0, 0.5), Vec2(0.7, 0.5)]
    case 'G' => [Vec2(1.0, 0.2), Vec2(0.7, 0.0), Vec2(0.3, 0.0), Vec2(0.0, 0.2), Vec2(0.0, 0.8), Vec2(0.3, 1.0),
                 Vec2(0.7, 1.0), Vec2(1.0, 0.8), Vec2(1.0, 0.5), Vec2(0.5, 0.5)]
    case 'H' => [Vec2(0.0, 0.0), Vec2(0.0, 1.0), Vec2(0.0, 0.5), Vec2(1.0, 0.5), Vec2(1.0, 0.0), Vec2(1.0, 1.0)]
    case 'I' => [Vec2(0.3, 0.0), Vec2(0.7, 0.0), Vec2(0.5, 0.0), Vec2(0.5, 1.0), Vec2(0.3, 1.0), Vec2(0.7, 1.0)]
    case 'J' => [Vec2(0.2, 0.0), Vec2(0.8, 0.0), Vec2(0.6, 0.0), Vec2(0.6, 0.8), Vec2(0.5, 1.0), Vec2(0.3, 1.0),
                 Vec2(0.1, 0.8), Vec2(0.1, 0.6)]
    case 'K' => [Vec2(0.0, 0.0), Vec2(0.0, 1.0), Vec2(0.0, 0.5), Vec2(1.0, 0.0), Vec2(0.0, 0.5), Vec2(1.0, 1.0)]
    case 'L' => [Vec2(0.0, 0.0), Vec2(0.0, 1.0), Vec2(1.0, 1.0)]
    case 'M' => [Vec2(0.0, 1.0), Vec2(0.0, 0.0), Vec2(0.5, 0.5), Vec2(1.0, 0.0), Vec2(1.0, 1.0)]
    case 'N' => [Vec2(0.0, 1.0), Vec2(0.0, 0.0), Vec2(1.0, 1.0), Vec2(1.0, 0.0)]
    case 'O' => [Vec2(0.5, 0.0), Vec2(0.15, 0.15), Vec2(0.0, 0.5), Vec2(0.15, 0.85), Vec2(0.5, 1.0), Vec2(0.85, 0.85),
                 Vec2(1.0, 0.5), Vec2(0.85, 0.15), Vec2(0.5, 0.0)]
    case 'P' => [Vec2(0.0, 1.0), Vec2(0.0, 0.0), Vec2(0.7, 0.0), Vec2(1.0, 0.15), Vec2(1.0, 0.35), Vec2(0.7, 0.5), Vec2(0.0, 0.5)]
    case 'Q' => [Vec2(0.5, 0.0), Vec2(0.15, 0.15), Vec2(0.0, 0.5), Vec2(0.15, 0.85), Vec2(0.5, 1.0), Vec2(0.85, 0.85),
                 Vec2(1.0, 0.5), Vec2(0.85, 0.15), Vec2(0.5, 0.0), Vec2(0.6, 0.7), Vec2(1.0, 1.0)]
    case 'R' => [Vec2(0.0, 1.0), Vec2(0.0, 0.0), Vec2(0.7, 0.0), Vec2(1.0, 0.15), Vec2(1.0, 0.35), Vec2(0.7, 0.5),
                 Vec2(0.0, 0.5), Vec2(1.0, 1.0)]
    case 'S' => [Vec2(1.0, 0.15), Vec2(0.7, 0.0), Vec2(0.3, 0.0), Vec2(0.0, 0.15), Vec2(0.0, 0.35), Vec2(0.3, 0.5),
                 Vec2(0.7, 0.5), Vec2(1.0, 0.65), Vec2(1.0, 0.85), Vec2(0.7, 1.0), Vec2(0.3, 1.0), Vec2(0.0, 0.85)]
    case 'T' => [Vec2(0.0, 0.0), Vec2(1.0, 0.0), Vec2(0.5, 0.0), Vec2(0.5, 1.0)]
    case 'U' => [Vec2(0.0, 0.0), Vec2(0.0, 0.8), Vec2(0.2, 1.0), Vec2(0.8, 1.0), Vec2(1.0, 0.8), Vec2(1.0, 0.0)]
    case 'V' => [Vec2(0.0, 0.0), Vec2(0.5, 1.0), Vec2(1.0, 0.0)]
    case 'W' => [Vec2(0.0, 0.0), Vec2(0.25, 1.0), Vec2(0.5, 0.5), Vec2(0.75, 1.0), Vec2(1.0, 0.0)]
    case 'X' => [Vec2(0.0, 0.0), Vec2(1.0, 1.0), Vec2(0.5, 0.5), Vec2(0.0, 1.0), Vec2(1.0, 0.0)]
    case 'Y' => [Vec2(0.0, 0.0), Vec2(0.5, 0.5), Vec2(1.0, 0.0), Vec2(0.5, 0.5), Vec2(0.5, 1.0)]
    case _ => [Vec2(0.0, 0.0), Vec2(1.0, 0.0), Vec2(0.0, 1.0), Vec2(1.0, 1.0)]
  }

  /** A drawable letter: at least one segment, every point in the unit square. */
  predicate WellFormedPath(path: seq<Vec2>) {
    2 <= |path| && forall i :: 0 <= i < |path| ==> InUnitSquare(path[i])
  }

  /** Every letter of the table is drawable. */
  lemma LettersWellFormed(c: char)
    requires IsLetter(c)
    ensures WellFormedPath(LetterPath(c))
  {
    if c <= 'D' {
      LettersAToD(c);
    } else if c <= 'H' {
      LettersEToH(c);
    } else if c <= 'L' {
      LettersIToL(c);
    } else if c <= 'P' {
      LettersMToP(c);
    } else if c <= 'T' {
      LettersQToT(c);
    } else {
      LettersUToZ(c);
    }
  }

  lemma LettersAToD(c: char)
    requires 'A' <= c <= 'D'
    ensures WellFormedPath(LetterPath(c))
  {
    if c == 'A' {
      assert WellFormedPath(LetterPath('A'));
    } else if c == 'B' {
      assert WellFormedPath(LetterPath('B'));
    } else if c == 'C' {
      assert WellFormedPath(LetterPath('C'));
    } else {
      assert c == 'D';
      assert WellFormedPath(LetterPath('D'));
    }
  }

  lemma LettersEToH(c: char)
    requires 'E' <= c <= 'H'
    ensures WellFormedPath(LetterPath(c))
  {
    if c == 'E' {
      assert WellFormedPath(LetterPath('E'));
    } else if c == 'F' {
      assert WellFormedPath(LetterPath('F'));
    } else if c == 'G' {
      assert WellFormedPath(LetterPath('G'));
    } else {
      assert c == 'H';
      assert WellFormedPath(LetterPath('H'));
    }
  }

  lemma LettersIToL(c: char)
    requires 'I' <= c <= 'L'
    ensures WellFormedPath(LetterPath(c))
  {
    if c == 'I' {
      assert WellFormedPath(LetterPath('I'));
    } else if c == 'J' {
      assert WellFormedPath(LetterPath('J'));
    } else if c == 'K' {
      assert WellFormedPath(LetterPath('K'));
    } else {
      assert c == 'L';
      assert WellFormedPath(LetterPath('L'));
    }
  }

  lemma LettersMToP(c: char)
    requires 'M' <= c <= 'P'
    ensures WellFormedPath(LetterPath(c))
  {
    if c == 'M' {
      assert WellFormedPath(LetterPath('M'));
    } else if c == 'N' {
      assert WellFormedPath(LetterPath('N'));
    } else if c == 'O' {
      assert WellFormedPath(LetterPath('O'));
    } else {
      assert c == 'P';
      assert WellFormedPath(LetterPath('P'));
    }
  }

  lemma LettersQToT(c: char)
    requires 'Q' <= c <= 'T'
    ensures WellFormedPath(LetterPath(c))
  {
    if c == 'Q' {
      assert WellFormedPath(LetterPath('Q'));
    } else if c == 'R' {
      assert WellFormedPath(LetterPath('R'));
    } else if c == 'S' {
      assert WellFormedPath(LetterPath('S'));
    } else {
      assert c == 'T';
      assert WellFormedPath(LetterPath('T'));
    }
  }

  lemma LettersUToZ(c: char)
    requires 'U' <= c <= 'Z'
    ensures WellFormedPath(LetterPath(c))
  {
    if c == 'U' {
      assert WellFormedPath(LetterPath('U'));
    } else if c == 'V' {
      assert WellFormedPath(LetterPath('V'));
    } else if c == 'W' {
      assert WellFormedPath(LetterPath('W'));
    } else if c == 'X' {
      assert WellFormedPath(LetterPath('X'));
    } else if c == 'Y' {
      assert WellFormedPath(LetterPath('Y'));
    } else {
      assert c == 'Z';
      assert WellFormedPath(LetterPath('Z'));
    }
  }

  // Distances along a letter.

  function SegmentLength(m: MathLib, a: Vec2, b: Vec2): real {
    var dx, dy := b.x - a.x, b.y - a.y;
    Sqrt(m, dx * dx + dy * dy)
  }

  /** The length of each segment of a path: one fewer than its points. */
  function SegmentLengthsOf(m: MathLib, path: seq<Vec2>): (lens: seq<real>)
    ensures |path| == 0 ==> lens == []
    ensures |path| > 0 ==> |lens| == |path| - 1
  {
    if |path| == 0 then [] else seq(|path| - 1, i requires 0 <= i < |path| - 1 => SegmentLength(m, path[i], path[i + 1]))
  }

  function Sum(s: seq<real>): real {
    if |s| == 0 then 0.0 else Sum(s[..|s| - 1]) + s[|s| - 1]
  }

  lemma SumStep(s: seq<real>, i: nat)
    requires i < |s|
    ensures Sum(s[..i + 1]) == Sum(s[..i]) + s[i]
  {
    assert s[..i + 1][..i] == s[..i];
  }

  /** A sum of non-negative lengths is non-negative and grows with the prefix it covers. */
  lemma {:induction false} SumMonotone(s: seq<real>, i: nat, j: nat)
    requires i <= j <= |s| && forall k :: 0 <= k < |s| ==> 0.0 <= s[k]
    ensures 0.0 <= Sum(s[..i]) <= Sum(s[..j])
    decreases j
  {
    if j == 0 {
      assert s[..0] == [];
    } else if i == j {
      SumMonotone(s, i - 1, j - 1);
      SumStep(s, j - 1);
    } else {
      SumMonotone(s, i, j - 1);
      SumStep(s, j - 1);
    }
  }

  /** Under a sound square root every segment length is non-negative. */
  lemma LengthsNonNegative(m: MathLib, path: seq<Vec2>)
    requires SqrtSound(m)
    ensures forall k :: 0 <= k < |SegmentLengthsOf(m, path)| ==> 0.0 <= SegmentLengthsOf(m, path)[k]
  {
    var lens := SegmentLengthsOf(m, path);
    forall k | 0 <= k < |lens| ensures 0.0 <= lens[k] {
      var a, b := path[k], path[k + 1];
      var dx, dy := b.x - a.x, b.y - a.y;
      NonNegativeSquares(dx, dy);
    }
  }

  lemma NonNegativeSquares(dx: real, dy: real)
    ensures 0.0 <= dx * dx + dy * dy
  {
    if dx < 0.0 { assert dx * dx == (-dx) * (-dx); }
    if dy < 0.0 { assert dy * dy == (-dy) * (-dy); }
  }

  /** The first loop of the layout: the length of every segment and their total. */
  method SegmentLengths(m: MathLib, path: seq<Vec2>) returns (lens: seq<real>, total: real)
    ensures lens == SegmentLengthsOf(m, path) && total == Sum(lens)
  {
    lens, total := [], 0.0;
    var i := 0;
    while i < |path| - 1
      invariant 0 <= i <= if |path| == 0 then 0 else |path| - 1
      invariant lens == SegmentLengthsOf(m, path)[..i] && total == Sum(lens)
    {
      var len := SegmentLength(m, path[i], path[i + 1]);
      SumStep(SegmentLengthsOf(m, path), i);
      lens, total := lens + [len], total + len;
      i := i + 1;
    }
    assert lens == SegmentLengthsOf(m, path)[..|SegmentLengthsOf(m, path)|];
  }

  // Finding the segment that holds a distance.

  /**
   * The segment search from segment i with `acc` already walked: the first
   * segment whose end reaches `target`, with the distance before it; when no
   * segment does, segment 0 with the whole walked distance.
   */
  function LocateFrom(lens: seq<real>, target: real, i: nat, acc: real): (found: (nat, real))
    requires i <= |lens|
    ensures 0 < |lens| ==> found.0 < |lens|
    decreases |lens| - i
  {
    if i == |lens| then (0, acc)
    else if acc + lens[i] >= target then (i, acc)
    else LocateFrom(lens, target, i + 1, acc + lens[i])
  }

  function Locate(lens: seq<real>, target: real): (nat, real) {
    LocateFrom(lens, target, 0, 0.0)
  }

  /** The second loop of the layout, with its early exit. */
  method FindSegment(lens: seq<real>, target: real) returns (segmentIndex: nat, accumulated: real)
    ensures (segmentIndex, accumulated) == Locate(lens, target)
  {
    accumulated, segmentIndex := 0.0, 0;
    var i := 0;
    while i < |lens|
      invariant 0 <= i <= |lens|
      invariant LocateFrom(lens, target, i, accumulated) == Locate(lens, target)
    {
      if accumulated + lens[i] >= target {
        segmentIndex := i;
        return;
      }
      accumulated := accumulated + lens[i];
      i := i + 1;
    }
  }

  /**
   * A target within the path's length is found: the segment holding it
   * starts at or before it and ends at or after it, and the distance
   * returned is exactly the length of the path before that segment.
   */
  lemma {:induction false} LocateFromFound(lens: seq<real>, target: real, i: nat, acc: real)
    requires i < |lens| && forall k :: 0 <= k < |lens| ==> 0.0 <= lens[k]
    requires acc == Sum(lens[..i]) && acc <= target <= Sum(lens)
    ensures var (j, a) := LocateFrom(lens, target, i, acc);
      i <= j < |lens| && a == Sum(lens[..j]) && a <= target <= a + lens[j]
    decreases |lens| - i
  {
    if acc + lens[i] < target {
      SumStep(lens, i);
      assert lens[..|lens|] == lens;
      assert i + 1 < |lens|;
      LocateFromFound(lens, target, i + 1, acc + lens[i]);
    }
  }

  lemma LocateFound(lens: seq<real>, target: real)
    requires 0 < |lens| && forall k :: 0 <= k < |lens| ==> 0.0 <= lens[k]
    requires 0.0 <= target <= Sum(lens)
    ensures var (j, a) := Locate(lens, target);
      j < |lens| && a == Sum(lens[..j]) && a <= target <= a + lens[j]
  {
    assert lens[..0] == [];
    LocateFromFound(lens, target, 0, 0.0);
  }

  // The position of a rank.

  /** How far along its segment the target lies: 0 on a segment of zero length. */
  function SegmentProgress(len: real, target: real, acc: real): real {
    if len > 0.0 then (target - acc) / len else 0.0
  }

  /** The point of segment a-b at progress t. */
  function Along(a: Vec2, b: Vec2, t: real): Vec2 {
    Vec2(a.x + (b.x - a.x) * t, a.y + (b.y - a.y) * t)
  }

  /** A normalised point placed in the frame, with its y flipped (0 is the top). */
  function ToFrame(box: Box, p: Vec2): Vec3 {
    Vec3(box.min.x + p.x * Size(box).x, box.min.y + (1.0 - p.y) * Size(box).y, 0.0)
  }

  /** The distance along the path at which rank r sits: an even share of the whole length. */
  function TargetDistance(m: MathLib, path: seq<Vec2>, n: nat, r: nat): real
    requires 2 <= n && r < n
  {
    Progress(n, r) * Sum(SegmentLengthsOf(m, path))
  }

  /** The normalised point of rank r along the path. */
  function PathPoint(m: MathLib, path: seq<Vec2>, n: nat, r: nat): Vec2
    requires 2 <= |path| && 2 <= n && r < n
  {
    var lens := SegmentLengthsOf(m, path);
    var target := TargetDistance(m, path, n, r);
    var (i, acc) := Locate(lens, target);
    Along(path[i], path[i + 1], SegmentProgress(lens[i], target, acc))
  }

  /** The position Alphabet gives rank r for the given letter. */
  function AlphabetPoint(m: MathLib, box: Box, letter: char, n: nat, r: nat): Vec3
    requires IsLetter(letter) && 2 <= n && r < n
  {
    LettersWellFormed(letter);
    ToFrame(box, PathPoint(m, LetterPath(letter), n, r))
  }

  /** A point at progress within [0, 1] of a segment lies between its ends. */
  lemma AlongBetween(a: Vec2, b: Vec2, t: real)
    requires InUnitSquare(a) && InUnitSquare(b) && 0.0 <= t <= 1.0
    ensures InUnitSquare(Along(a, b, t))
  {
    var px, py := (b.x - a.x) * t, (b.y - a.y) * t;
    AxisBetween(a.x, b.x, t, px);
    AxisBetween(a.y, b.y, t, py);
    assert Along(a, b, t) == Vec2(a.x + px, a.y + py);
  }

  /** Moving a fraction t in [0, 1] of the way from a to b stays between them. */
  lemma AxisBetween(a: real, b: real, t: real, p: real)
    requires 0.0 <= t <= 1.0 && p == (b - a) * t
    ensures Min(a, b) <= a + p <= Max(a, b)
  {
    if a <= b {
      Rising(a, b, t, p);
      assert Min(a, b) == a && Max(a, b) == b;
    } else {
      Falling(a, b, t, p);
      assert Min(a, b) == b && Max(a, b) == a;
    }
  }

  /** Going a fraction t in [0, 1] of the way from lo up to hi stays between them. */
  lemma Rising(lo: real, hi: real, t: real, p: real)
    requires lo <= hi && 0.0 <= t <= 1.0 && p == (hi - lo) * t
    ensures lo <= lo + p <= hi
  {
    MulMonotone(0.0, t, hi - lo);
    MulMonotone(t, 1.0, hi - lo);
  }

  /** Going a fraction t in [0, 1] of the way from hi down to lo stays between them. */
  lemma Falling(hi: real, lo: real, t: real, p: real)
    requires lo < hi && 0.0 <= t <= 1.0 && p == (lo - hi) * t
    ensures lo <= hi + p <= hi
  {
    var q := (hi - lo) * t;
    assert p == -q;
    Rising(lo, hi, t, q);
  }

  /** A point of the unit square lands inside the frame's rectangle. */
  lemma ToFrameInside(box: Box, p: Vec2)
    requires Ordered(box) && InUnitSquare(p)
    ensures var q := ToFrame(box, p);
      box.min.x <= q.x <= box.max.x && box.min.y <= q.y <= box.max.y && q.z == 0.0
  {
    var w, h := Size(box).x, Size(box).y;
    assert w == box.max.x - box.min.x && h == box.max.y - box.min.y;
    MulMonotone(0.0, p.x, w);
    MulMonotone(p.x, 1.0, w);
    MulMonotone(0.0, 1.0 - p.y, h);
    MulMonotone(1.0 - p.y, 1.0, h);
    assert 0.0 * w == 0.0 && 1.0 * w == w && 0.0 * h == 0.0 && 1.0 * h == h;
  }

  /** The target distance of every rank lies between zero and the path's length. */
  lemma TargetWithinPath(m: MathLib, path: seq<Vec2>, n: nat, r: nat)
    requires SqrtSound(m) && 2 <= n && r < n
    ensures 0.0 <= TargetDistance(m, path, n, r) <= Sum(SegmentLengthsOf(m, path))
  {
    var lens := SegmentLengthsOf(m, path);
    LengthsNonNegative(m, path);
    SumMonotone(lens, 0, |lens|);
    assert lens[..|lens|] == lens;
    MulMonotone(0.0, Progress(n, r), Sum(lens));
    MulMonotone(Progress(n, r), 1.0, Sum(lens));
  }

  /** Along a path in the unit square, every rank's normalised point stays in the unit square. */
  lemma PathPointInUnitSquare(m: MathLib, path: seq<Vec2>, n: nat, r: nat)
    requires SqrtSound(m) && 2 <= |path| && 2 <= n && r < n
    requires forall k :: 0 <= k < |path| ==> InUnitSquare(path[k])
    ensures InUnitSquare(PathPoint(m, path, n, r))
  {
    var lens := SegmentLengthsOf(m, path);
    var target := TargetDistance(m, path, n, r);
    TargetWithinPath(m, path, n, r);
    LengthsNonNegative(m, path);
    LocateFound(lens, target);
    var (i, acc) := Locate(lens, target);
    ProgressWithin(lens[i], target, acc);
    AlongBetween(path[i], path[i + 1], SegmentProgress(lens[i], target, acc));
  }

  lemma ProgressWithin(len: real, target: real, acc: real)
    requires acc <= target <= acc + len
    ensures 0.0 <= SegmentProgress(len, target, acc) <= 1.0
  {
    if len > 0.0 {
      DivBounds(target - acc, len);
    }
  }

  /** Every rank of the Alphabet layout lies inside the frame's rectangle, on the ground plane. */
  lemma AlphabetInFrame(m: MathLib, box: Box, letter: char, n: nat, r: nat)
    requires SqrtSound(m) && Ordered(box) && IsLetter(letter) && 2 <= n && r < n
    ensures var p := AlphabetPoint(m, box, letter, n, r);
      box.min.x <= p.x <= box.max.x && box.min.y <= p.y <= box.max.y && p.z == 0.0
  {
    LettersWellFormed(letter);
    PathPointInUnitSquare(m, LetterPath(letter), n, r);
    ToFrameInside(box, PathPoint(m, LetterPath(letter), n, r));
  }

  /** The first rank starts the letter: it sits on the path's first point. */
  lemma FirstRankStartsLetter(m: MathLib, path: seq<Vec2>, n: nat)
    requires SqrtSound(m) && 2 <= |path| && 2 <= n
    ensures PathPoint(m, path, n, 0) == path[0]
  {
    var lens := SegmentLengthsOf(m, path);
    assert TargetDistance(m, path, n, 0) == 0.0;
    LengthsNonNegative(m, path);
    assert Locate(lens, 0.0) == (0, 0.0);
  }

  /**
   * The last rank ends the letter: its target distance is the whole length,
   * so it sits on the path's last point, even when the path ends in
   * zero-length segments.
   */
  lemma LastRankEndsLetter(m: MathLib, path: seq<Vec2>, n: nat)
    requires SqrtSound(m) && 2 <= |path| && 2 <= n
    ensures PathPoint(m, path, n, n - 1) == path[|path| - 1]
  {
    var lens := SegmentLengthsOf(m, path);
    var total := Sum(lens);
    assert TargetDistance(m, path, n, n - 1) == total;
    LengthsNonNegative(m, path);
    LastSegmentFound(lens);
    var (j, a) := Locate(lens, total);
    SegmentEnd(m, path, j, total, a);
    FlatToEnd(m, path, j + 1);
  }

  /** A distance at the very end of segment j places the point on the segment's end. */
  lemma SegmentEnd(m: MathLib, path: seq<Vec2>, j: nat, target: real, a: real)
    requires SqrtSound(m) && j + 1 < |path|
    requires a + SegmentLengthsOf(m, path)[j] == target
    ensures Along(path[j], path[j + 1], SegmentProgress(SegmentLengthsOf(m, path)[j], target, a)) == path[j + 1]
  {
    var len := SegmentLengthsOf(m, path)[j];
    assert len == SegmentLength(m, path[j], path[j + 1]);
    if len > 0.0 {
      DivBounds(target - a, len);
    } else {
      assert SegmentProgress(len, target, a) == 0.0;
      NonNegativeSquares(path[j + 1].x - path[j].x, path[j + 1].y - path[j].y);
      ZeroSegment(m, path[j], path[j + 1]);
    }
  }

  /**
   * In the frame, the first rank sits on the letter's first point and the last
   * rank on its last point (`ToFrame` flips y so that 0 is the top).
   */
  lemma AlphabetEnds(m: MathLib, box: Box, letter: char, n: nat)
    requires SqrtSound(m) && IsLetter(letter) && 2 <= n
    ensures 2 <= |LetterPath(letter)|
    ensures AlphabetPoint(m, box, letter, n, 0) == ToFrame(box, LetterPath(letter)[0])
    ensures AlphabetPoint(m, box, letter, n, n - 1) == ToFrame(box, LetterPath(letter)[|LetterPath(letter)| - 1])
  {
    var path := LetterPath(letter);
    LettersWellFormed(letter);
    FirstRankStartsLetter(m, path, n);
    LastRankEndsLetter(m, path, n);
  }

  /**
   * Searching for the whole length finds a segment that ends exactly at the
   * whole length, and every segment after it has length zero.
   */
  lemma LastSegmentFound(lens: seq<real>)
    requires 0 < |lens| && forall k :: 0 <= k < |lens| ==> 0.0 <= lens[k]
    ensures var (j, a) := Locate(lens, Sum(lens));
      && j < |lens| && a + lens[j] == Sum(lens)
      && forall k :: j < k < |lens| ==> lens[k] == 0.0
  {
    var total := Sum(lens);
    assert lens[..|lens|] == lens;
    SumMonotone(lens, 0, |lens|);
    LocateFound(lens, total);
    var (j, a) := Locate(lens, total);
    SumStep(lens, j);
    SumMonotone(lens, j + 1, |lens|);
    assert Sum(lens[..j + 1]) == total;
    forall k | j < k < |lens| ensures lens[k] == 0.0 {
      TailZero(lens, j + 1, k);
    }
  }

  /** Once a prefix of non-negative lengths already sums to the whole, every later length is zero. */
  lemma TailZero(lens: seq<real>, i: nat, k: nat)
    requires i <= k < |lens| && forall q :: 0 <= q < |lens| ==> 0.0 <= lens[q]
    requires Sum(lens[..i]) == Sum(lens)
    ensures lens[k] == 0.0
  {
    assert lens[..|lens|] == lens;
    SumMonotone(lens, i, k);
    SumStep(lens, k);
    SumMonotone(lens, k + 1, |lens|);
  }

  /** Past a point whose remaining segments all have length zero, the path stays on that point. */
  lemma {:induction false} FlatToEnd(m: MathLib, path: seq<Vec2>, k: nat)
    requires SqrtSound(m) && 2 <= |path| && 1 <= k < |path|
    requires forall i :: k <= i < |path| - 1 ==> SegmentLengthsOf(m, path)[i] == 0.0
    ensures path[k] == path[|path| - 1]
    decreases |path| - k
  {
    if k < |path| - 1 {
      assert SegmentLengthsOf(m, path)[k] == SegmentLength(m, path[k], path[k + 1]);
      ZeroSegment(m, path[k], path[k + 1]);
      FlatToEnd(m, path, k + 1);
    }
  }

  /** Under a sound square root, a segment of length zero joins a point to itself. */
  lemma ZeroSegment(m: MathLib, a: Vec2, b: Vec2)
    requires SqrtSound(m) && SegmentLength(m, a, b) == 0.0
    ensures a == b
  {
    var dx, dy := b.x - a.x, b.y - a.y;
    NonNegativeSquares(dx, dy);
    assert dx * dx + dy * dy == 0.0;
    SquaresVanish(dx, dy);
  }

  lemma SquaresVanish(dx: real, dy: real)
    requires dx * dx + dy * dy == 0.0
    ensures dx == 0.0 && dy == 0.0
  {
    var sx, sy := dx * dx, dy * dy;
    NonNegativeSquares(dx, 0.0);
    NonNegativeSquares(0.0, dy);
    assert sx == 0.0 && sy == 0.0;
    SquareZero(dx, sx);
    SquareZero(dy, sy);
  }

  lemma SquareZero(x: real, sq: real)
    requires sq == x * x && sq == 0.0
    ensures x == 0.0
  {
    if x > 0.0 {
      NonZeroProduct(x, x, sq);
    } else if x < 0.0 {
      NonZeroProduct(-x, -x, sq);
    }
  }

  /** A product of two positive numbers is not zero (stated without a square, which the solver handles poorly). */
  lemma NonZeroProduct(a: real, b: real, p: real)
    requires a > 0.0 && b > 0.0 && p == a * b
    ensures p != 0.0
  {
    assert a * b >= a * 0.0;
    assert p / b == a;
  }

  // The LIVING GEOMETRY sequence.

  const LivingGeometry: seq<char> := "LIVINGGEOMETRY"

  lemma SequenceIsLetters()
    ensures |LivingGeometry| == 14
    ensures forall i :: 0 <= i < |LivingGeometry| ==> IsLetter(LivingGeometry[i])
  {
  }

  /** One tick of the auto-sequence timer: the next letter, wrapping after the last. */
  function NextSequenceIndex(prev: nat): (next: nat)
    ensures next < |LivingGeometry|
  {
    (prev + 1) % |LivingGeometry|
  }

  /** The timer runs only while the Alphabet layout is shown with the auto sequence on. */
  function Tick(alphabetShown: bool, autoSequence: bool, prev: nat): nat {
    if alphabetShown && autoSequence then NextSequenceIndex(prev) else prev
  }

  /** The sequence index after k ticks of a running timer. */
  function AfterTicks(start: nat, k: nat): nat {
    if k == 0 then start else NextSequenceIndex(AfterTicks(start, k - 1))
  }

  /** A running timer started at index s shows letter (s + k) mod 14 after k ticks: every letter in turn, then again. */
  lemma {:induction false} TicksCycle(start: nat, k: nat)
    requires start < |LivingGeometry|
    ensures AfterTicks(start, k) == (start + k) % |LivingGeometry|
  {
    if k > 0 {
      TicksCycle(start, k - 1);
      NextOfRemainder(start + k - 1);
    }
  }

  /** Stepping the remainder of x gives the remainder of x + 1. */
  lemma NextOfRemainder(x: nat)
    ensures (x % 14 + 1) % 14 == (x + 1) % 14
  {
    var q, p := x / 14, x % 14;
    assert x == q * 14 + p;
    if p == 13 {
      assert x + 1 == (q + 1) * 14;
    } else {
      assert x + 1 == q * 14 + (p + 1);
    }
  }

  /** The letter shown: the sequence's letter while it runs, the manually chosen one otherwise. */
  function DisplayedLetter(alphabetShown: bool, autoSequence: bool, sequenceIndex: nat, manual: char): (c: char)
    requires sequenceIndex < |LivingGeometry|
    ensures IsLetter(manual) ==> IsLetter(c)
    ensures alphabetShown && autoSequence ==> c == LivingGeometry[sequenceIndex]
    ensures !(alphabetShown && autoSequence) ==> c == manual
  {
    SequenceIsLetters();
    if alphabetShown && autoSequence then LivingGeometry[sequenceIndex] else manual
  }
}
