/**
 * The ranker: fragments are sorted by descending saliency with a stable sort
 * (ties keep their input order), and a fragment's rank is its position in
 * the sorted list. The sort is described by the order of input indices it
 * produces.
 */
module Ranker {

  /**
   * Index `a` comes before index `b` in the sorted order: a strictly larger
   * key, or an equal key and an earlier input position.
   */
  predicate Before(keys: seq<real>, a: nat, b: nat)
    requires a < |keys| && b < |keys|
  {
    keys[a] > keys[b] || (keys[a] == keys[b] && a < b)
  }

  /** Every entry is an index of `keys`. */
  predicate IndicesOf(keys: seq<real>, order: seq<nat>) {
    forall i :: 0 <= i < |order| ==> order[i] < |keys|
  }

  /** `order` lists indices of `keys` by non-increasing key, ties in input order. */
  predicate StableDescending(keys: seq<real>, order: seq<nat>) {
    && IndicesOf(keys, order)
    && forall i, j :: 0 <= i < j < |order| ==> Before(keys, order[i], order[j])
  }

  /** The indices 0 .. n-1, in increasing order. */
  function Indices(n: nat): (r: seq<nat>)
    ensures |r| == n
    ensures forall i :: 0 <= i < n ==> r[i] == i
  {
    if n == 0 then [] else Indices(n - 1) + [n - 1]
  }

  /** Index `x` inserted into a sorted order just after every index that comes before it. */
  function Insert(keys: seq<real>, order: seq<nat>, x: nat): (r: seq<nat>)
    requires x < |keys| && IndicesOf(keys, order)
    ensures multiset(r) == multiset(order) + multiset{x}
    ensures IndicesOf(keys, r)
  {
    if order == [] then [x]
    else if Before(keys, x, order[0]) then [x] + order
    else
      assert order == [order[0]] + order[1..];
      [order[0]] + Insert(keys, order[1..], x)
  }

  /** An index that comes before every entry of a sorted order can head it. */
  lemma ConsSorted(keys: seq<real>, h: nat, rest: seq<nat>)
    requires h < |keys| && StableDescending(keys, rest)
    requires forall k :: 0 <= k < |rest| ==> Before(keys, h, rest[k])
    ensures StableDescending(keys, [h] + rest)
  {
    var r := [h] + rest;
    forall i, j | 0 <= i < j < |r| ensures Before(keys, r[i], r[j]) {
      assert r[j] == rest[j - 1];
      if i > 0 {
        assert r[i] == rest[i - 1];
      }
    }
  }

  /**
   * Inserting an index larger than every listed one into a stable descending
   * order keeps it stable descending.
   */
  lemma {:induction false} InsertSorted(keys: seq<real>, order: seq<nat>, x: nat)
    requires x < |keys| && StableDescending(keys, order)
    requires forall i :: 0 <= i < |order| ==> order[i] < x
    ensures StableDescending(keys, Insert(keys, order, x))
  {
    if order == [] {
    } else if Before(keys, x, order[0]) {
      forall k | 0 <= k < |order| ensures Before(keys, x, order[k]) {
        if k > 0 {
          assert Before(keys, order[0], order[k]);
        }
      }
      ConsSorted(keys, x, order);
    } else {
      var tail := order[1..];
      assert forall i :: 0 <= i < |tail| ==> tail[i] == order[i + 1];
      InsertSorted(keys, tail, x);
      InsertBehind(keys, order, x, Insert(keys, tail, x));
      assert order[0] < |keys|;
      ConsSorted(keys, order[0], Insert(keys, tail, x));
      assert Insert(keys, order, x) == [order[0]] + Insert(keys, tail, x);
    }
  }

  /** When `x` does not go first, the head of the order comes before everything in the rest. */
  lemma InsertBehind(keys: seq<real>, order: seq<nat>, x: nat, rest: seq<nat>)
    requires x < |keys| && StableDescending(keys, order) && order != []
    requires forall i :: 0 <= i < |order| ==> order[i] < x
    requires !Before(keys, x, order[0])
    requires rest == Insert(keys, order[1..], x)
    ensures forall k :: 0 <= k < |rest| ==> Before(keys, order[0], rest[k])
  {
    var tail := order[1..];
    forall k | 0 <= k < |rest| ensures Before(keys, order[0], rest[k]) {
      assert rest[k] in multiset(rest);
      if rest[k] != x {
        assert rest[k] in multiset(tail);
        var i :| 0 <= i < |tail| && tail[i] == rest[k];
        assert Before(keys, order[0], order[i + 1]);
      }
    }
  }

  /** `r` lists the indices 0 .. n-1, each once, in stable descending order. */
  predicate SortsPrefix(keys: seq<real>, n: nat, r: seq<nat>) {
    && |r| == n
    && multiset(r) == multiset(Indices(n))
    && (forall i :: 0 <= i < |r| ==> r[i] < n)
    && StableDescending(keys, r)
  }

  /** The stable descending order of the first `n` indices, built by insertion. */
  function SortPrefix(keys: seq<real>, n: nat): (r: seq<nat>)
    requires n <= |keys|
    ensures SortsPrefix(keys, n, r)
  {
    if n == 0 then []
    else
      var prev := SortPrefix(keys, n - 1);
      InsertNext(keys, prev, n);
      Insert(keys, prev, n - 1)
  }

  /** Inserting index n-1 into the sorted first n-1 indices sorts the first n. */
  lemma InsertNext(keys: seq<real>, prev: seq<nat>, n: nat)
    requires 1 <= n <= |keys|
    requires SortsPrefix(keys, n - 1, prev)
    ensures SortsPrefix(keys, n, Insert(keys, prev, n - 1))
  {
    InsertCounts(keys, prev, n);
    InsertSorted(keys, prev, n - 1);
  }

  /** Inserting index n-1 into a list of the first n-1 indices lists the first n. */
  lemma InsertCounts(keys: seq<real>, prev: seq<nat>, n: nat)
    requires 1 <= n <= |keys|
    requires multiset(prev) == multiset(Indices(n - 1)) && IndicesOf(keys, prev)
    ensures var r := Insert(keys, prev, n - 1);
      && |r| == n
      && multiset(r) == multiset(Indices(n))
      && (forall i :: 0 <= i < |r| ==> r[i] < n)
  {
    var r := Insert(keys, prev, n - 1);
    assert multiset(r) == multiset(Indices(n)) by {
      assert Indices(n) == Indices(n - 1) + [n - 1];
    }
    assert |r| == n by {
      assert |r| == |multiset(r)|;
      assert |Indices(n)| == |multiset(Indices(n))|;
    }
    IndicesBound(r, n);
  }

  /** A list holding the same indices as 0 .. n-1 has every entry below n. */
  lemma IndicesBound(r: seq<nat>, n: nat)
    requires multiset(r) == multiset(Indices(n))
    ensures forall i :: 0 <= i < |r| ==> r[i] < n
  {
    forall i | 0 <= i < |r| ensures r[i] < n {
      assert r[i] in multiset(r);
      var k :| 0 <= k < n && Indices(n)[k] == r[i];
    }
  }

  /**
   * The order in which the stable sort with comparator
   * `(a, b) => b.randomness - a.randomness` lists the fragments: a
   * permutation of the indices, by non-increasing key, ties in input order.
   */
  function SortOrder(keys: seq<real>): (order: seq<nat>)
    ensures |order| == |keys|
    ensures multiset(order) == multiset(Indices(|keys|))
    ensures StableDescending(keys, order)
  {
    SortPrefix(keys, |keys|)
  }

  /** The entries of `xs` listed in the given order of indices. */
  function Permute<T>(xs: seq<T>, order: seq<nat>): (r: seq<T>)
    requires forall i :: 0 <= i < |order| ==> order[i] < |xs|
    ensures |r| == |order|
    ensures forall i :: 0 <= i < |order| ==> r[i] == xs[order[i]]
  {
    seq(|order|, i requires 0 <= i < |order| => xs[order[i]])
  }

  /** A stable descending order lists every index exactly once. */
  lemma StableDescendingDistinct(keys: seq<real>, order: seq<nat>)
    requires StableDescending(keys, order)
    ensures forall i, j :: 0 <= i < |order| && 0 <= j < |order| && i != j ==> order[i] != order[j]
  {
    forall i, j | 0 <= i < |order| && 0 <= j < |order| && i != j
      ensures order[i] != order[j]
    {
      if i < j {
        assert Before(keys, order[i], order[j]);
      } else {
        assert Before(keys, order[j], order[i]);
      }
    }
  }

  /**
   * The sorted keys are non-increasing, and the sorted list holds every
   * input index once: a fragment's rank (its sorted position) is unique and
   * ranks run over exactly 0 .. N-1.
   */
  lemma SortedKeysNonIncreasing(keys: seq<real>)
    ensures forall i, j :: 0 <= i < j < |keys| ==> keys[SortOrder(keys)[i]] >= keys[SortOrder(keys)[j]]
    ensures forall x :: 0 <= x < |keys| ==> x in SortOrder(keys)
  {
    var order := SortOrder(keys);
    forall x | 0 <= x < |keys| ensures x in order {
      assert Indices(|keys|)[x] == x;
      assert x in multiset(Indices(|keys|));
    }
  }

  /** Dropping the first entry of a stable descending order leaves one. */
  lemma TailStable(keys: seq<real>, a: seq<nat>)
    requires StableDescending(keys, a) && a != []
    ensures StableDescending(keys, a[1..])
  {
    var t := a[1..];
    assert forall k :: 0 <= k < |t| ==> t[k] == a[k + 1];
  }

  /** The first entry of a stable descending order comes before every other entry. */
  lemma FirstBefore(keys: seq<real>, a: seq<nat>, y: nat)
    requires StableDescending(keys, a) && y in multiset(a)
    ensures a != [] && y < |keys| && (y == a[0] || Before(keys, a[0], y))
  {
    var k :| 0 <= k < |a| && a[k] == y;
    if k > 0 {
      assert Before(keys, a[0], a[k]);
    }
  }

  /** Two stable descending orders of the same non-empty index multiset start alike. */
  lemma SameFirst(keys: seq<real>, a: seq<nat>, b: seq<nat>)
    requires StableDescending(keys, a) && StableDescending(keys, b)
    requires multiset(a) == multiset(b) && a != []
    ensures b != [] && a[0] == b[0]
  {
    assert a[0] in multiset(a);
    FirstBefore(keys, b, a[0]);
    FirstBefore(keys, a, b[0]);
  }

  /** Equal multisets with the same first entry have equal remainders. */
  lemma SameTailMultiset(a: seq<nat>, b: seq<nat>)
    requires a != [] && b != [] && a[0] == b[0] && multiset(a) == multiset(b)
    ensures multiset(a[1..]) == multiset(b[1..])
  {
    assert a == [a[0]] + a[1..] && b == [b[0]] + b[1..];
    forall z ensures multiset(a[1..])[z] == multiset(b[1..])[z] {
      assert multiset(a)[z] == multiset([a[0]])[z] + multiset(a[1..])[z];
      assert multiset(b)[z] == multiset([a[0]])[z] + multiset(b[1..])[z];
    }
  }

  /**
   * Stability pins the result down: any two stable descending orders of the
   * same indices are equal, so the sort's outcome is determined by the keys.
   */
  lemma {:induction false} StableDescendingUnique(keys: seq<real>, a: seq<nat>, b: seq<nat>)
    requires StableDescending(keys, a) && StableDescending(keys, b)
    requires multiset(a) == multiset(b)
    ensures a == b
  {
    if a != [] {
      SameFirst(keys, a, b);
      SameTailMultiset(a, b);
      TailStable(keys, a);
      TailStable(keys, b);
      StableDescendingUnique(keys, a[1..], b[1..]);
      assert a == [a[0]] + a[1..] && b == [b[0]] + b[1..];
    } else {
      assert |b| == |multiset(b)| == 0;
    }
  }
}
