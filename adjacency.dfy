/**
 * The adjacency band: the fragment at rank `r` (of `n`) is linked to the
 * fragments whose ranks lie at offsets -w .. w from its own, skipping offset 0
 * and any rank outside 0 .. n-1, in increasing offset order.
 */
module Adjacency {

  function Min(a: int, b: int): int { if a <= b then a else b }

  /** The in-range ranks at offsets lo .. hi-1 from `r`, offset 0 skipped, in offset order. */
  function Band(r: nat, n: nat, lo: int, hi: int): (b: seq<nat>)
    ensures forall i :: 0 <= i < |b| ==> b[i] < n && b[i] != r && r + lo <= b[i] < r + hi
    decreases hi - lo
  {
    if hi <= lo then []
    else
      var j := r + hi - 1;
      Band(r, n, lo, hi - 1) + (if hi - 1 != 0 && 0 <= j < n then [j] else [])
  }

  /** The band of window `w`: the ranks a connection is drawn to. */
  function Neighbours(r: nat, n: nat, w: nat): seq<nat> {
    Band(r, n, -(w as int), w + 1)
  }

  /** A band splits at any offset between its ends. */
  lemma {:induction false} BandSplit(r: nat, n: nat, lo: int, mid: int, hi: int)
    requires lo <= mid <= hi
    ensures Band(r, n, lo, hi) == Band(r, n, lo, mid) + Band(r, n, mid, hi)
    decreases hi - mid
  {
    if hi > mid {
      BandSplit(r, n, lo, mid, hi - 1);
    }
  }

  /** The ranks of a band increase strictly: connections come in increasing offset order. */
  lemma {:induction false} BandIncreasing(r: nat, n: nat, lo: int, hi: int)
    ensures forall i, j :: 0 <= i < j < |Band(r, n, lo, hi)| ==> Band(r, n, lo, hi)[i] < Band(r, n, lo, hi)[j]
    decreases hi - lo
  {
    if hi > lo {
      BandIncreasing(r, n, lo, hi - 1);
    }
  }

  /** A rank is in the band exactly when it is another in-range rank within the offsets. */
  lemma {:induction false} BandMembers(r: nat, n: nat, lo: int, hi: int, j: int)
    ensures j in Band(r, n, lo, hi) <==> 0 <= j < n && j != r && r + lo <= j < r + hi
    decreases hi - lo
  {
    if hi > lo {
      BandMembers(r, n, lo, hi - 1, j);
    }
  }

  /** Offsets 1 .. w reach `min(w, n-1-r)` ranks above `r`. */
  lemma {:induction false} UpperCount(r: nat, n: nat, w: nat)
    requires r < n
    ensures |Band(r, n, 1, w + 1)| == Min(w, n - 1 - r)
  {
    if w > 0 {
      UpperCount(r, n, w - 1);
    }
  }

  /** Offsets -w .. -1 reach `min(w, r)` ranks below `r`. */
  lemma {:induction false} LowerCount(r: nat, n: nat, w: nat)
    requires r < n
    ensures |Band(r, n, -(w as int), 0)| == Min(w, r)
  {
    if w > 0 {
      LowerCount(r, n, w - 1);
      BandSplit(r, n, -(w as int), -(w as int) + 1, 0);
    }
  }

  /**
   * The fragment at rank `r` gets exactly `min(w, r) + min(w, n-1-r)`
   * connections, in increasing rank order, none of them to itself, and a rank
   * is connected exactly when it is another rank at most `w` away.
   */
  lemma NeighboursShape(r: nat, n: nat, w: nat)
    requires r < n
    ensures |Neighbours(r, n, w)| == Min(w, r) + Min(w, n - 1 - r)
    ensures forall i, j :: 0 <= i < j < |Neighbours(r, n, w)| ==> Neighbours(r, n, w)[i] < Neighbours(r, n, w)[j]
    ensures r !in Neighbours(r, n, w)
    ensures forall j :: j in Neighbours(r, n, w) <==> 0 <= j < n && j != r && r as int - w <= j <= r + w
  {
    BandSplit(r, n, -(w as int), 0, w + 1);
    BandSplit(r, n, 0, 1, w + 1);
    LowerCount(r, n, w);
    UpperCount(r, n, w);
    BandIncreasing(r, n, -(w as int), w + 1);
    forall j ensures j in Neighbours(r, n, w) <==> 0 <= j < n && j != r && r as int - w <= j <= r + w {
      BandMembers(r, n, -(w as int), w + 1, j);
    }
  }
}
