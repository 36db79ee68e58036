/**
 * The scene effect of the cityscape pages. When the layout or the adjacency
 * window changes, it runs these steps:
 *   1. Sort the fragments by descending saliency (a stable sort).
 *   2. Take the bounding box of their base centres as the frame.
 *   3. Run the chosen layout, which writes the fragments' target positions in place.
 *   4. Give each fragment its rank (its sorted position) and its connections
 *      to the fragments at most `w` ranks away.
 *
 * The 0129 page offers 13 layouts: the 12 geometric ones of the 0122 page
 * plus Alphabet. The main page offers Original or a layout spelling a text.
 */
module Cityscape {
  import opened Wrappers
  import opened Geometry
  import opened Frame
  import opened Scene
  import Ranker
  import GridLayout
  import Spiral
  import Curves
  import Galaxy
  import Alternating
  import Deconstruction
  import Programmatic
  import Alphabet
  import LetterLayout

  /** The layouts of the 0129 page; the 0122 page has all but Alphabet. */
  datatype LayoutOption =
    | Original | Grid | Spiral | Hurricane | Wave | Radial | Galaxy
    | Tsunami | Alternating | Deconstruction | Metabolism | Programmatic
    | Alphabet(letter: char)

  /** The saliencies of the fragments, in list order. */
  function Keys(fs: seq<Fragment>): (keys: seq<real>)
    ensures |keys| == |fs| && forall i :: 0 <= i < |fs| ==> keys[i] == fs[i].randomness
  {
    seq(|fs|, i requires 0 <= i < |fs| => fs[i].randomness)
  }

  /** The base centres of the fragments, in list order. */
  function Bases(fs: seq<Fragment>): (bases: seq<Vec3>)
    ensures |bases| == |fs| && forall i :: 0 <= i < |fs| ==> bases[i] == fs[i].baseCenter
  {
    seq(|fs|, i requires 0 <= i < |fs| => fs[i].baseCenter)
  }

  /**
   * What a layout needs to be defined on n fragments. Layouts that divide by
   * N-1 need two fragments. Programmatic must not have a top tier of exactly
   * one. Tsunami divides by `e - 1`. Alphabet needs a letter A-Z.
   */
  predicate Defined(m: MathLib, layout: LayoutOption, n: nat) {
    match layout
    case Wave => n >= 2
    case Radial => n >= 2
    case Metabolism => n >= 2
    case Tsunami => n >= 2 && Exp(m, 1.0) > 1.0
    case Alphabet(c) => n >= 2 && Alphabet.IsLetter(c)
    case Programmatic => Programmatic.TopCount(n) != 1
    case _ => true
  }

  /** A spiral pass's grid cell mapped into the frame, or no write when the pass is outside the window. */
  function CellTarget(box: Box, cell: Option<(int, int)>): Option<Vec3> {
    match cell
    case Some(c) => Some(MapGridToWorld(box, c.0, c.1))
    case None => None
  }

  /**
   * The target the layout writes for rank r, or None when it writes nothing
   * there. `keys` and `bases` are the sorted saliencies and base centres;
   * Galaxy's draws stand for its calls to `Math.random()`.
   */
  function TargetFor(m: MathLib, box: Box, layout: LayoutOption, keys: seq<real>, bases: seq<Vec3>,
                     centreDraws: seq<Galaxy.Draw>, draws: seq<Galaxy.Draw>, r: nat): Option<Vec3>
    requires r < |bases| == |keys| && Defined(m, layout, |bases|)
    requires layout == Galaxy ==> |centreDraws| == Galaxy.Clusters && |draws| == |bases|
  {
    var n := |bases|;
    match layout
    case Original => Some(bases[r])
    case Grid => var c := GridLayout.GridCell(n, r); Some(MapGridToWorld(box, c.x, c.y))
    case Spiral => CellTarget(box, Spiral.GridOf(Spiral.WalkAt(r).x, Spiral.WalkAt(r).y))
    case Hurricane =>
      var i := n - 1 - r;
      CellTarget(box, Spiral.GridOf(Spiral.WalkAt(i).x, Spiral.WalkAt(i).y))
    case Wave => Some(Curves.Wave(m, box, n, r))
    case Radial => Some(Curves.Radial(m, box, n, r))
    case Galaxy => Some(Galaxy.GalaxyPoint(m, box, centreDraws, draws, n, r))
    case Tsunami => Some(Curves.Tsunami(m, box, n, r))
    case Alternating => Some(Alternating.AlternatingPoint(box, n, r))
    case Deconstruction => Some(Deconstruction.DeconstructionPoint(m, box, n, r, keys[r]))
    case Metabolism => Some(Curves.Metabolism(m, box, n, r))
    case Programmatic => Some(Programmatic.ProgrammaticPoint(m, box, n, r))
    case Alphabet(c) => Some(Alphabet.AlphabetPoint(m, box, c, n, r))
  }

  /** The targets the layout writes, rank by rank. */
  function TargetsFor(m: MathLib, box: Box, layout: LayoutOption, keys: seq<real>, bases: seq<Vec3>,
                      centreDraws: seq<Galaxy.Draw>, draws: seq<Galaxy.Draw>): (ts: seq<Option<Vec3>>)
    requires |bases| == |keys| && Defined(m, layout, |bases|)
    requires layout == Galaxy ==> |centreDraws| == Galaxy.Clusters && |draws| == |bases|
    ensures |ts| == |bases|
  {
    seq(|bases|, r requires 0 <= r < |bases| => TargetFor(m, box, layout, keys, bases, centreDraws, draws, r))
  }

  /**
   * Every layout writes a target for every rank, except the spiral walks:
   * Spiral leaves rank r alone exactly when r >= 144, and Hurricane, which
   * walks the ranks in reverse, exactly when N-1-r >= 144. Original sends
   * every fragment back to its base centre.
   */
  lemma WrittenRanks(m: MathLib, box: Box, layout: LayoutOption, keys: seq<real>, bases: seq<Vec3>,
                     centreDraws: seq<Galaxy.Draw>, draws: seq<Galaxy.Draw>, r: nat)
    requires r < |bases| == |keys| && Defined(m, layout, |bases|)
    requires layout == Galaxy ==> |centreDraws| == Galaxy.Clusters && |draws| == |bases|
    ensures TargetFor(m, box, layout, keys, bases, centreDraws, draws, r).None? <==>
      (layout == Spiral && r >= 144) || (layout == Hurricane && |bases| - 1 - r >= 144)
    ensures layout == Original ==> TargetFor(m, box, layout, keys, bases, centreDraws, draws, r) == Some(bases[r])
  {
    if layout == Spiral {
      Spiral.SpiralPlacement(r, r);
    } else if layout == Hurricane {
      Spiral.SpiralPlacement(|bases| - 1 - r, |bases| - 1 - r);
    }
  }

  /**
   * Under Spiral, and under Hurricane, two different ranks that are both
   * written go to different cells of the grid.
   */
  lemma SpiralTargetsDistinct(m: MathLib, box: Box, layout: LayoutOption, keys: seq<real>, bases: seq<Vec3>,
                              centreDraws: seq<Galaxy.Draw>, draws: seq<Galaxy.Draw>, r: nat, r': nat)
    requires layout == Spiral || layout == Hurricane
    requires r < |bases| == |keys| && r' < |bases| && r != r'
    requires box.min.x < box.max.x && box.min.y < box.max.y
    ensures var t := TargetFor(m, box, layout, keys, bases, centreDraws, draws, r);
      var t' := TargetFor(m, box, layout, keys, bases, centreDraws, draws, r');
      t.Some? && t'.Some? ==> t != t'
  {
    var n := |bases|;
    var i, i' := if layout == Spiral then r else n - 1 - r, if layout == Spiral then r' else n - 1 - r';
    Spiral.SpiralPlacement(i, i');
    var g, g' := Spiral.GridOf(Spiral.WalkAt(i).x, Spiral.WalkAt(i).y), Spiral.GridOf(Spiral.WalkAt(i').x, Spiral.WalkAt(i').y);
    if g.Some? && g'.Some? {
      CellCentresDistinct(box, g.value.0, g.value.1, g'.value.0, g'.value.1);
    }
  }

  /** Different grid cells have different centres when the frame has width and height. */
  lemma CellCentresDistinct(box: Box, gx: int, gy: int, hx: int, hy: int)
    requires box.min.x < box.max.x && box.min.y < box.max.y && (gx, gy) != (hx, hy)
    ensures MapGridToWorld(box, gx, gy) != MapGridToWorld(box, hx, hy)
  {
    if gx != hx {
      var cw := CellWidth(box);
      assert 0.0 < cw;
      assert gx as real * cw - hx as real * cw == (gx - hx) as real * cw;
      PositiveProductNonZero((gx - hx) as real, cw);
    } else {
      var ch := CellHeight(box);
      assert 0.0 < ch;
      assert gy as real * ch - hy as real * ch == (gy - hy) as real * ch;
      PositiveProductNonZero((gy - hy) as real, ch);
    }
  }

  lemma PositiveProductNonZero(a: real, c: real)
    requires a != 0.0 && 0.0 < c
    ensures a * c != 0.0
  {
    if a > 0.0 {
      PositiveProduct(a, c);
    } else {
      PositiveProduct(-a, c);
    }
  }

  // The effect.

  /** Spiral's targets, from the spiral walk's loop. */
  method SpiralTargets(m: MathLib, box: Box, keys: seq<real>, bases: seq<Vec3>,
                       centreDraws: seq<Galaxy.Draw>, draws: seq<Galaxy.Draw>)
    returns (targets: seq<Option<Vec3>>)
    requires 0 < |bases| == |keys|
    ensures targets == TargetsFor(m, box, Spiral, keys, bases, centreDraws, draws)
  {
    var n := |bases|;
    var cells := Spiral.SpiralWalk(n);
    targets := seq(n, r requires 0 <= r < n => CellTarget(box, cells[r]));
  }

  /** The walk's cells turned into targets, the last cell for rank 0. */
  function ReadBack(box: Box, cells: seq<Option<(int, int)>>): (ts: seq<Option<Vec3>>)
    ensures |ts| == |cells|
  {
    seq(|cells|, r requires 0 <= r < |cells| => CellTarget(box, cells[|cells| - 1 - r]))
  }

  /** Hurricane's targets: the spiral walk's cells, read from the last rank back. */
  method HurricaneTargets(m: MathLib, box: Box, keys: seq<real>, bases: seq<Vec3>,
                          centreDraws: seq<Galaxy.Draw>, draws: seq<Galaxy.Draw>)
    returns (targets: seq<Option<Vec3>>)
    requires 0 < |bases| == |keys|
    ensures targets == TargetsFor(m, box, Hurricane, keys, bases, centreDraws, draws)
  {
    var cells := Spiral.SpiralWalk(|bases|);
    HurricaneReadsBack(m, box, keys, bases, centreDraws, draws, cells);
    targets := ReadBack(box, cells);
  }

  /** Hurricane's targets are the spiral walk's first N cells, read in reverse. */
  lemma HurricaneReadsBack(m: MathLib, box: Box, keys: seq<real>, bases: seq<Vec3>,
                           centreDraws: seq<Galaxy.Draw>, draws: seq<Galaxy.Draw>,
                           cells: seq<Option<(int, int)>>)
    requires 0 < |bases| == |keys| && |cells| == |bases|
    requires forall i :: 0 <= i < |cells| ==> cells[i] == Spiral.GridOf(Spiral.WalkAt(i).x, Spiral.WalkAt(i).y)
    ensures TargetsFor(m, box, Hurricane, keys, bases, centreDraws, draws) == ReadBack(box, cells)
  {
    var n := |bases|;
    var spec, back := TargetsFor(m, box, Hurricane, keys, bases, centreDraws, draws), ReadBack(box, cells);
    forall r | 0 <= r < n
      ensures spec[r] == back[r]
    {
      var i := n - 1 - r;
      assert back[r] == CellTarget(box, cells[i]);
      HurricaneTargetAt(m, box, keys, bases, centreDraws, draws, r);
    }
  }

  /** Hurricane's target for rank r is the cell of the walk's step N-1-r. */
  lemma HurricaneTargetAt(m: MathLib, box: Box, keys: seq<real>, bases: seq<Vec3>,
                          centreDraws: seq<Galaxy.Draw>, draws: seq<Galaxy.Draw>, r: nat)
    requires r < |bases| == |keys|
    ensures var i := |bases| - 1 - r;
      TargetsFor(m, box, Hurricane, keys, bases, centreDraws, draws)[r]
        == CellTarget(box, Spiral.GridOf(Spiral.WalkAt(i).x, Spiral.WalkAt(i).y))
  {
  }

  /** Galaxy's targets, from the cluster walk's loops. */
  method GalaxyTargets(m: MathLib, box: Box, keys: seq<real>, bases: seq<Vec3>,
                       centreDraws: seq<Galaxy.Draw>, draws: seq<Galaxy.Draw>)
    returns (targets: seq<Option<Vec3>>)
    requires 0 < |bases| == |keys| && Defined(m, Galaxy, |bases|)
    requires |centreDraws| == Galaxy.Clusters && |draws| == |bases|
    ensures targets == TargetsFor(m, box, Galaxy, keys, bases, centreDraws, draws)
  {
    var n := |bases|;
    var points := Galaxy.GalaxyLayout(m, box, centreDraws, draws, n);
    targets := seq(n, r requires 0 <= r < n => Some(points[r]));
  }

  /**
   * Step 3 for one of the 13 layouts: the targets the layout writes, rank by
   * rank. The spiral walks and Galaxy's cluster walk run as the loops they
   * are; the other layouts are one formula per rank.
   */
  method LayoutTargets(m: MathLib, box: Box, layout: LayoutOption, keys: seq<real>, bases: seq<Vec3>,
                       centreDraws: seq<Galaxy.Draw>, draws: seq<Galaxy.Draw>)
    returns (targets: seq<Option<Vec3>>)
    requires 0 < |bases| == |keys| && Defined(m, layout, |bases|)
    requires layout == Galaxy ==> |centreDraws| == Galaxy.Clusters && |draws| == |bases|
    ensures targets == TargetsFor(m, box, layout, keys, bases, centreDraws, draws)
  {
    match layout {
      case Spiral =>
        targets := SpiralTargets(m, box, keys, bases, centreDraws, draws);
      case Hurricane =>
        targets := HurricaneTargets(m, box, keys, bases, centreDraws, draws);
      case Galaxy =>
        targets := GalaxyTargets(m, box, keys, bases, centreDraws, draws);
      case _ =>
        // One formula per rank: the specification itself.
        targets := TargetsFor(m, box, layout, keys, bases, centreDraws, draws);
    }
  }

  /**
   * The effect of the 0129 and 0122 pages on the fragments it finds. With no
   * fragments it stops at once. Otherwise the sorted list is the stable
   * descending order of the fragments by saliency. Each fragment's target is
   * what the layout writes for its rank over the frame of all base centres,
   * or its earlier target when the layout writes nothing there. Its rank is
   * its position in the sorted list. Its connections are the band of
   * neighbours around that rank, read after every target has been written.
   */
  method Arrange(m: MathLib, fragments: seq<Fragment>, layout: LayoutOption, w: nat,
                 centreDraws: seq<Galaxy.Draw>, draws: seq<Galaxy.Draw>)
    returns (sorted: seq<Fragment>)
    requires Distinct(fragments) && Defined(m, layout, |fragments|)
    requires layout == Galaxy ==> |centreDraws| == Galaxy.Clusters && |draws| == |fragments|
    modifies (set f | f in fragments)`orderedCenter, (set f | f in fragments)`rank,
      (set f | f in fragments)`connections
    ensures |sorted| == |fragments|
    ensures fragments != [] ==> sorted == SortedOf(fragments)
    ensures fragments != [] ==> forall r :: 0 <= r < |sorted| ==>
      sorted[r].orderedCenter == Written(
        TargetsFor(m, FrameOf(fragments), layout, Keys(sorted), Bases(sorted), centreDraws, draws)[r],
        old(sorted[r].orderedCenter))
    ensures forall r :: 0 <= r < |sorted| ==> sorted[r].rank == Some(r)
    ensures forall r :: 0 <= r < |sorted| ==>
      sorted[r].connections == Links(Snapshot(sorted), r, w, layout == Original)
  {
    if |fragments| == 0 {
      return [];
    }
    sorted := SortFragments(fragments);
    ApplyLayout(m, fragments, sorted, layout, centreDraws, draws);
    RankAndConnect(sorted, w, layout == Original);
  }

  /** Steps 2 and 3: the frame, then the layout's targets written into the sorted fragments. */
  method ApplyLayout(m: MathLib, fragments: seq<Fragment>, sorted: seq<Fragment>, layout: LayoutOption,
                     centreDraws: seq<Galaxy.Draw>, draws: seq<Galaxy.Draw>)
    requires fragments != [] && Distinct(sorted) && |sorted| == |fragments| && Defined(m, layout, |fragments|)
    requires layout == Galaxy ==> |centreDraws| == Galaxy.Clusters && |draws| == |fragments|
    modifies (set f | f in sorted)`orderedCenter
    ensures forall r :: 0 <= r < |sorted| ==>
      sorted[r].orderedCenter == Written(
        TargetsFor(m, FrameOf(fragments), layout, Keys(sorted), Bases(sorted), centreDraws, draws)[r],
        old(sorted[r].orderedCenter))
  {
    var box := FrameOf(fragments);
    var targets := LayoutTargets(m, box, layout, Keys(sorted), Bases(sorted), centreDraws, draws);
    Place(sorted, targets);
  }

  /** The frame: the bounding box of all the fragments' base centres. */
  function FrameOf(fragments: seq<Fragment>): Box
    requires fragments != []
  {
    BoundsOf(Bases(fragments))
  }

  /** The fragments in the order of the stable descending sort by saliency. */
  function SortedOf(fragments: seq<Fragment>): (sorted: seq<Fragment>)
    ensures |sorted| == |fragments|
    ensures forall i :: 0 <= i < |sorted| ==> sorted[i] in fragments
  {
    Ranker.Permute(fragments, Ranker.SortOrder(Keys(fragments)))
  }

  /**
   * `[...fragments].sort((a, b) => b.randomness - a.randomness)`: the same
   * fragments, each once, by non-increasing saliency, ties in list order.
   */
  method SortFragments(fragments: seq<Fragment>) returns (sorted: seq<Fragment>)
    requires Distinct(fragments)
    ensures sorted == SortedOf(fragments)
    ensures Distinct(sorted) && |sorted| == |fragments|
    ensures forall f :: f in sorted <==> f in fragments
    ensures forall i, j :: 0 <= i < j < |sorted| ==> sorted[i].randomness >= sorted[j].randomness
  {
    var keys := Keys(fragments);
    var order := Ranker.SortOrder(keys);
    sorted := Ranker.Permute(fragments, order);
    Ranker.StableDescendingDistinct(keys, order);
    Ranker.SortedKeysNonIncreasing(keys);
    forall f | f in fragments ensures f in sorted {
      var x :| 0 <= x < |fragments| && fragments[x] == f;
      assert x in order;
      var i :| 0 <= i < |order| && order[i] == x;
      assert sorted[i] == f;
    }
  }

  // The main page.

  /**
   * The target the main page's effect writes for rank r: the base centre
   * under "Original"; otherwise the letters layout spelling `layout`, which
   * writes nothing when the text is empty.
   */
  function PageTarget(box: Box, layout: string, s: LetterLayout.LetterSettings, bases: seq<Vec3>,
                      rasters: seq<seq<int>>, shuffles: seq<seq<real>>, jitters: seq<LetterLayout.Jitter>, r: nat)
    : Option<Vec3>
    requires r < |bases| == |jitters|
    requires layout != "Original" ==> LetterLayout.GlyphInputs(rasters, shuffles, |layout|)
  {
    if layout == "Original" then Some(bases[r])
    else if |layout| == 0 then None
    else Some(LetterLayout.TargetOf(box, s, bases, LetterLayout.GlyphsOf(rasters, shuffles, |bases|, |layout|), jitters, r))
  }

  /** The targets the main page writes, rank by rank. */
  function PageTargets(box: Box, layout: string, s: LetterLayout.LetterSettings, bases: seq<Vec3>,
                       rasters: seq<seq<int>>, shuffles: seq<seq<real>>, jitters: seq<LetterLayout.Jitter>)
    : (ts: seq<Option<Vec3>>)
    requires |bases| == |jitters|
    requires layout != "Original" ==> LetterLayout.GlyphInputs(rasters, shuffles, |layout|)
    ensures |ts| == |bases|
  {
    seq(|bases|, r requires 0 <= r < |bases| => PageTarget(box, layout, s, bases, rasters, shuffles, jitters, r))
  }

  /**
   * The effect of the main page. The rasters are the glyph canvases of the
   * layout's letters, the shuffles the draws each letter's shuffle takes, and
   * the jitters the draws each rank's jitter takes.
   */
  method ArrangeLetters(fragments: seq<Fragment>, layout: string, s: LetterLayout.LetterSettings, w: nat,
                        rasters: seq<seq<int>>, shuffles: seq<seq<real>>, jitters: seq<LetterLayout.Jitter>)
    returns (sorted: seq<Fragment>)
    requires Distinct(fragments) && |jitters| == |fragments|
    requires layout != "Original" ==> LetterLayout.GlyphInputs(rasters, shuffles, |layout|)
    modifies (set f | f in fragments)`orderedCenter, (set f | f in fragments)`rank,
      (set f | f in fragments)`connections
    ensures |sorted| == |fragments|
    ensures fragments != [] ==> sorted == SortedOf(fragments)
    ensures fragments != [] ==> forall r :: 0 <= r < |sorted| ==>
      sorted[r].orderedCenter == Written(
        PageTargets(FrameOf(fragments), layout, s, Bases(sorted), rasters, shuffles, jitters)[r],
        old(sorted[r].orderedCenter))
    ensures forall r :: 0 <= r < |sorted| ==> sorted[r].rank == Some(r)
    ensures forall r :: 0 <= r < |sorted| ==>
      sorted[r].connections == Links(Snapshot(sorted), r, w, layout == "Original")
  {
    if |fragments| == 0 {
      return [];
    }
    sorted := SortFragments(fragments);
    ApplyLetters(fragments, sorted, layout, s, rasters, shuffles, jitters);
    RankAndConnect(sorted, w, layout == "Original");
  }

  /** Steps 2 and 3 of the main page: the frame, then "Original" or the letters layout written in. */
  method ApplyLetters(fragments: seq<Fragment>, sorted: seq<Fragment>, layout: string, s: LetterLayout.LetterSettings,
                      rasters: seq<seq<int>>, shuffles: seq<seq<real>>, jitters: seq<LetterLayout.Jitter>)
    requires fragments != [] && Distinct(sorted) && |sorted| == |fragments| == |jitters|
    requires layout != "Original" ==> LetterLayout.GlyphInputs(rasters, shuffles, |layout|)
    modifies (set f | f in sorted)`orderedCenter
    ensures forall r :: 0 <= r < |sorted| ==>
      sorted[r].orderedCenter == Written(
        PageTargets(FrameOf(fragments), layout, s, Bases(sorted), rasters, shuffles, jitters)[r],
        old(sorted[r].orderedCenter))
  {
    var box := FrameOf(fragments);
    var bases := Bases(sorted);
    var targets: seq<Option<Vec3>>;
    if layout == "Original" {
      targets := seq(|bases|, r requires 0 <= r < |bases| => Some(bases[r]));
    } else {
      targets := LetterLayout.LettersLayout(box, s, bases, rasters, shuffles, jitters, |layout|);
    }
    Place(sorted, targets);
  }
}
