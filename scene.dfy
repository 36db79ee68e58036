/**
 * The fragment objects the scene effect updates in place: each layout writes
 * a target position (`orderedCenter`) into some fragments, and the ranking
 * pass writes each fragment's rank and its list of connections to the
 * fragments near it in rank.
 */
module Scene {
  import opened Wrappers
  import opened Geometry
  import Adjacency

  /** One adjacency link: where the neighbour sits, and its saliency as the link height. */
  datatype Connection = Connection(position: Vec3, height: real)

  class Fragment {
    /** The saliency computed when the mesh was decomposed. */
    const randomness: real
    /** The footprint centre of the fragment on the ground plane. */
    const baseCenter: Vec3
    /** The position the current layout asks for, once one has been written. */
    var orderedCenter: Option<Vec3>
    var rank: Option<nat>
    var connections: seq<Connection>

    constructor (randomness: real, baseCenter: Vec3)
      ensures this.randomness == randomness && this.baseCenter == baseCenter
      ensures orderedCenter == None && rank == None && connections == []
    {
      this.randomness := randomness;
      this.baseCenter := baseCenter;
      orderedCenter := None;
      rank := None;
      connections := [];
    }
  }

  /** No fragment object appears twice. */
  predicate Distinct(fs: seq<Fragment>) {
    forall i, j :: 0 <= i < j < |fs| ==> fs[i] != fs[j]
  }

  /** The value a fragment's target holds after a write of `t`: no write keeps the old one. */
  function Written(t: Option<Vec3>, prev: Option<Vec3>): (r: Option<Vec3>)
    ensures t.Some? ==> r == t
    ensures t.None? ==> r == prev
  {
    if t.Some? then t else prev
  }

  /**
   * Writes each fragment's target: the fragment at rank `r` receives
   * `targets[r]` when the layout assigns it one and is left alone otherwise.
   */
  method Place(sorted: seq<Fragment>, targets: seq<Option<Vec3>>)
    requires Distinct(sorted) && |targets| == |sorted|
    modifies (set f | f in sorted)`orderedCenter
    ensures forall r :: 0 <= r < |sorted| ==>
      sorted[r].orderedCenter == Written(targets[r], old(sorted[r].orderedCenter))
  {
    for r := 0 to |sorted|
      invariant forall k :: 0 <= k < r ==>
        sorted[k].orderedCenter == Written(targets[k], old(sorted[k].orderedCenter))
      invariant forall k :: r <= k < |sorted| ==> sorted[k].orderedCenter == old(sorted[k].orderedCenter)
    {
      if targets[r].Some? {
        sorted[r].orderedCenter := targets[r];
      }
    }
  }

  /** What a link reads from a fragment: its current target, base centre and saliency. */
  datatype Snap = Snap(target: Option<Vec3>, base: Vec3, key: real)

  /** The link-relevant state of the sorted fragments, rank by rank. */
  function Snapshot(sorted: seq<Fragment>): (s: seq<Snap>)
    reads (set f | f in sorted)`orderedCenter
    ensures |s| == |sorted|
    ensures forall r :: 0 <= r < |sorted| ==>
      s[r] == Snap(sorted[r].orderedCenter, sorted[r].baseCenter, sorted[r].randomness)
  {
    if sorted == [] then []
    else
      var last := sorted[|sorted| - 1];
      Snapshot(sorted[..|sorted| - 1]) + [Snap(last.orderedCenter, last.baseCenter, last.randomness)]
  }

  /**
   * The position a link to a fragment points at: its layout target when the
   * layout is not the original one and a target is set, otherwise its base
   * centre.
   */
  function LinkPosition(s: Snap, original: bool): (p: Vec3)
    ensures !original && s.target.Some? ==> p == s.target.value
    ensures original || s.target.None? ==> p == s.base
  {
    if !original && s.target.Some? then s.target.value else s.base
  }

  /** The links to the fragments at the given ranks, in the same order. */
  function LinksTo(snaps: seq<Snap>, ranks: seq<nat>, original: bool): (cs: seq<Connection>)
    requires forall i :: 0 <= i < |ranks| ==> ranks[i] < |snaps|
    ensures |cs| == |ranks|
    ensures forall i :: 0 <= i < |ranks| ==>
      cs[i] == Connection(LinkPosition(snaps[ranks[i]], original), snaps[ranks[i]].key)
  {
    if ranks == [] then []
    else
      var last := snaps[ranks[|ranks| - 1]];
      LinksTo(snaps, ranks[..|ranks| - 1], original) + [Connection(LinkPosition(last, original), last.key)]
  }

  /** The link to the fragment at rank `j`. */
  function LinkTo(snaps: seq<Snap>, j: nat, original: bool): Connection
    requires j < |snaps|
  {
    Connection(LinkPosition(snaps[j], original), snaps[j].key)
  }

  /** The links for offsets lo .. hi-1 from rank `r`, skipping offset 0 and ranks out of range. */
  function BandLinks(snaps: seq<Snap>, r: nat, lo: int, hi: int, original: bool): seq<Connection>
    decreases hi - lo
  {
    if hi <= lo then []
    else
      var j := r + hi - 1;
      BandLinks(snaps, r, lo, hi - 1, original)
        + (if hi - 1 != 0 && 0 <= j < |snaps| then [LinkTo(snaps, j, original)] else [])
  }

  /** The links of the fragment at rank `r` for a window of `w`. */
  function Links(snaps: seq<Snap>, r: nat, w: nat, original: bool): seq<Connection> {
    BandLinks(snaps, r, -(w as int), w + 1, original)
  }

  /** Linking one more rank appends one link. */
  lemma LinksToSnoc(snaps: seq<Snap>, ranks: seq<nat>, j: nat, original: bool)
    requires forall i :: 0 <= i < |ranks| ==> ranks[i] < |snaps|
    requires j < |snaps|
    ensures LinksTo(snaps, ranks + [j], original) == LinksTo(snaps, ranks, original) + [LinkTo(snaps, j, original)]
  {
    assert (ranks + [j])[..|ranks|] == ranks;
  }

  /** The links of a band are the links to the band's ranks. */
  lemma {:induction false} BandLinksTo(snaps: seq<Snap>, r: nat, lo: int, hi: int, original: bool)
    ensures BandLinks(snaps, r, lo, hi, original) == LinksTo(snaps, Adjacency.Band(r, |snaps|, lo, hi), original)
    decreases hi - lo
  {
    if hi > lo {
      BandLinksTo(snaps, r, lo, hi - 1, original);
      var band := Adjacency.Band(r, |snaps|, lo, hi - 1);
      var j := r + hi - 1;
      if hi - 1 != 0 && 0 <= j < |snaps| {
        assert Adjacency.Band(r, |snaps|, lo, hi) == band + [j];
        LinksToSnoc(snaps, band, j, original);
      } else {
        assert Adjacency.Band(r, |snaps|, lo, hi) == band;
      }
    }
  }

  /**
   * The links of the fragment at rank `r`, built offset by offset from -w to
   * w as the effect does; nothing is changed.
   */
  method BuildConnections(sorted: seq<Fragment>, r: nat, w: nat, original: bool)
    returns (cs: seq<Connection>)
    requires r < |sorted|
    ensures cs == Links(Snapshot(sorted), r, w, original)
  {
    var n := |sorted|;
    ghost var snaps := Snapshot(sorted);
    cs := [];
    var offset: int := -(w as int);
    while offset <= w
      invariant -(w as int) <= offset <= w + 1
      invariant cs == BandLinks(snaps, r, -(w as int), offset, original)
    {
      var j := r + offset;
      if offset != 0 && 0 <= j < n {
        var neighbour := sorted[j];
        var position := if !original && neighbour.orderedCenter.Some?
          then neighbour.orderedCenter.value else neighbour.baseCenter;
        cs := cs + [Connection(position, neighbour.randomness)];
      }
      offset := offset + 1;
    }
  }

  /**
   * The final pass over the sorted fragments: rank = sorted position, and each
   * fragment's connection list is rebuilt from its band of neighbours.
   */
  method RankAndConnect(sorted: seq<Fragment>, w: nat, original: bool)
    requires Distinct(sorted)
    modifies (set f | f in sorted)`rank, (set f | f in sorted)`connections
    ensures forall r :: 0 <= r < |sorted| ==> sorted[r].rank == Some(r)
    ensures forall r :: 0 <= r < |sorted| ==>
      sorted[r].connections == Links(Snapshot(sorted), r, w, original)
  {
    ghost var snaps := Snapshot(sorted);
    for r := 0 to |sorted|
      invariant forall k :: 0 <= k < r ==> sorted[k].rank == Some(k)
      invariant forall k :: 0 <= k < r ==>
        sorted[k].connections == Links(snaps, k, w, original)
    {
      var cs := BuildConnections(sorted, r, w, original);
      assert forall k :: 0 <= k < r ==> sorted[k] != sorted[r];
      SetRank(sorted[r], r, cs);
    }
  }

  /** Records a fragment's rank and its connection list. */
  method SetRank(fragment: Fragment, r: nat, cs: seq<Connection>)
    modifies fragment`rank, fragment`connections
    ensures fragment.rank == Some(r) && fragment.connections == cs
  {
    fragment.rank := Some(r);
    fragment.connections := cs;
  }

  /**
   * A fragment's connections, as `RankAndConnect` leaves them: exactly
   * `min(w, r) + min(w, n-1-r)` links, the i-th to the i-th neighbour in
   * increasing rank order, carrying that neighbour's position and saliency;
   * the neighbours are the other ranks at most `w` away, never the fragment
   * itself.
   */
  lemma LinksShape(snaps: seq<Snap>, r: nat, w: nat, original: bool)
    requires r < |snaps|
    ensures var nb := Adjacency.Neighbours(r, |snaps|, w);
      && |nb| == |Links(snaps, r, w, original)| == Adjacency.Min(w, r) + Adjacency.Min(w, |snaps| - 1 - r)
      && (forall i :: 0 <= i < |nb| ==> Links(snaps, r, w, original)[i] == LinkTo(snaps, nb[i], original))
      && (forall i, j :: 0 <= i < j < |nb| ==> nb[i] < nb[j])
      && (forall j :: j in nb <==> 0 <= j < |snaps| && j != r && r as int - w <= j <= r + w)
  {
    BandLinksTo(snaps, r, -(w as int), w + 1, original);
    Adjacency.NeighboursShape(r, |snaps|, w);
  }
}
