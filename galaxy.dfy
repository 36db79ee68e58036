/**
 * The Galaxy layout: five clusters with random centres inside the frame; the
 * ranks are dealt to the clusters round-robin (`index % 5`), and then, cluster
 * by cluster, each fragment is placed at a random angle and a random distance
 * below `size.x / 10` from its cluster's centre.
 *
 * `Math.random()` becomes input: `centreDraws[k]` holds the two numbers drawn
 * for cluster k's centre, and `draws[p]` the two numbers (angle, radius) drawn
 * for the p-th fragment placed, in the order the clusters are walked.
 */
module Galaxy {
  import opened Geometry

  const Clusters: nat := 5

  /** Two numbers drawn from `Math.random()`. */
  datatype Draw = Draw(u: real, v: real)

  predicate UnitDraw(d: Draw) {
    0.0 <= d.u < 1.0 && 0.0 <= d.v < 1.0
  }

  predicate UnitDraws(ds: seq<Draw>) {
    forall i :: 0 <= i < |ds| ==> UnitDraw(ds[i])
  }

  /** How many of the ranks 0 .. n-1 fall in cluster k (those with `r % 5 == k`). */
  function ClusterSize(n: nat, k: nat): nat
    requires k < Clusters
  {
    (n + 4 - k) / 5
  }

  /** Dealing rank n adds it to cluster `n % 5` and to no other. */
  lemma ClusterSizeStep(n: nat, k: nat)
    requires k < Clusters
    ensures ClusterSize(n + 1, k) == ClusterSize(n, k) + (if n % 5 == k then 1 else 0)
  {
  }

  /**
   * The round-robin deal: cluster k receives the ranks k, k+5, k+10, ... below
   * n, in increasing order.
   */
  method DealRoundRobin(n: nat) returns (clusters: seq<seq<nat>>)
    ensures |clusters| == Clusters
    ensures forall k :: 0 <= k < Clusters ==> |clusters[k]| == ClusterSize(n, k)
    ensures forall k, j :: 0 <= k < Clusters && 0 <= j < |clusters[k]| ==> clusters[k][j] == 5 * j + k
  {
    clusters := [[], [], [], [], []];
    for index := 0 to n
      invariant |clusters| == Clusters
      invariant forall k :: 0 <= k < Clusters ==> |clusters[k]| == ClusterSize(index, k)
      invariant forall k, j :: 0 <= k < Clusters && 0 <= j < |clusters[k]| ==> clusters[k][j] == 5 * j + k
    {
      var c := index % Clusters;
      forall k | 0 <= k < Clusters ensures ClusterSize(index + 1, k) == ClusterSize(index, k) + (if c == k then 1 else 0) {
        ClusterSizeStep(index, k);
      }
      assert index == 5 * ClusterSize(index, c) + c;
      clusters := clusters[c := clusters[c] + [index]];
    }
  }

  /** The deal is balanced: earlier clusters hold at most one more fragment than later ones. */
  lemma ClustersBalanced(n: nat, k: nat, k': nat)
    requires k <= k' < Clusters
    ensures ClusterSize(n, k') <= ClusterSize(n, k) <= ClusterSize(n, k') + 1
  {
  }

  /** Each rank is dealt to exactly one cluster, at position `r / 5` of cluster `r % 5`. */
  lemma DealCovers(n: nat, r: nat)
    requires r < n
    ensures r / 5 < ClusterSize(n, r % 5)
  {
  }

  /** The number of fragments placed before cluster k's first one. */
  function ClusterStart(n: nat, k: nat): nat
    requires k <= Clusters
  {
    if k == 0 then 0 else ClusterStart(n, k - 1) + ClusterSize(n, k - 1)
  }

  /** The five clusters together hold all n ranks. */
  lemma ClustersHoldAll(n: nat)
    ensures ClusterStart(n, Clusters) == n
  {
    var q, s := n / 5, n % 5;
    assert n == 5 * q + s;
    assert ClusterSize(n, 0) == q + (if s >= 1 then 1 else 0);
    assert ClusterSize(n, 1) == q + (if s >= 2 then 1 else 0);
    assert ClusterSize(n, 2) == q + (if s >= 3 then 1 else 0);
    assert ClusterSize(n, 3) == q + (if s >= 4 then 1 else 0);
    assert ClusterSize(n, 4) == q;
    assert ClusterStart(n, 1) == ClusterSize(n, 0);
    assert ClusterStart(n, 3) == ClusterStart(n, 2) + ClusterSize(n, 2);
    assert ClusterStart(n, 5) == ClusterStart(n, 4) + ClusterSize(n, 4);
  }

  /** Later clusters start no earlier than cluster k ends. */
  lemma {:induction false} ClusterStartGrows(n: nat, k: nat, k': nat)
    requires k < k' <= Clusters
    ensures ClusterStart(n, k) + ClusterSize(n, k) <= ClusterStart(n, k')
    decreases k' - k
  {
    if k + 1 < k' {
      ClusterStartGrows(n, k + 1, k');
    }
  }

  /** The draw used for rank r: the p-th placement, where p counts the fragments placed before it. */
  function DrawIndex(n: nat, r: nat): nat
    requires r < n
  {
    ClusterStart(n, r % 5) + r / 5
  }

  /** Rank r's draw lies in the block of draws used by its cluster. */
  lemma DrawInCluster(n: nat, r: nat)
    requires r < n
    ensures ClusterStart(n, r % 5) <= DrawIndex(n, r) < ClusterStart(n, r % 5) + ClusterSize(n, r % 5)
  {
    DealCovers(n, r);
  }

  /** Every draw index is below n: the n draws suffice. */
  lemma DrawIndexBelow(n: nat, r: nat)
    requires r < n
    ensures DrawIndex(n, r) < n
  {
    DrawInCluster(n, r);
    ClusterStartGrows(n, r % 5, Clusters);
    ClustersHoldAll(n);
  }

  /** Distinct ranks use distinct draws: no draw is used twice. */
  lemma DrawIndexInjective(n: nat, r: nat, r': nat)
    requires r < n && r' < n && r != r'
    ensures DrawIndex(n, r) != DrawIndex(n, r')
  {
    DrawInCluster(n, r);
    DrawInCluster(n, r');
    var k, k' := r % 5, r' % 5;
    if k < k' {
      ClusterStartGrows(n, k, k');
    } else if k' < k {
      ClusterStartGrows(n, k', k);
    } else {
      assert r == 5 * (r / 5) + k && r' == 5 * (r' / 5) + k;
    }
  }

  /** The radius of every cluster, `size.x / (5 * 2)`. */
  function ClusterRadius(box: Box): real {
    Size(box).x / 10.0
  }

  /** A cluster centre drawn uniformly over the frame. */
  function ClusterCentre(box: Box, d: Draw): Vec3 {
    Vec3(box.min.x + d.u * Size(box).x, box.min.y + d.v * Size(box).y, 0.0)
  }

  /** The angle a fragment's first draw picks, `random * 2 * pi`. */
  function ScatterAngle(m: MathLib, d: Draw): real { d.u * 2.0 * m.pi }

  /** The distance a fragment's second draw picks, `random * clusterRadius`. */
  function ScatterRadius(box: Box, d: Draw): real { d.v * ClusterRadius(box) }

  /** The position given to a fragment of the cluster centred at `c`, from its draw. */
  function Scatter(m: MathLib, box: Box, c: Vec3, d: Draw): Vec3 {
    Polar(m, c, ScatterAngle(m, d), ScatterRadius(box, d))
  }

  /** The position Galaxy gives rank r. */
  function GalaxyPoint(m: MathLib, box: Box, centreDraws: seq<Draw>, draws: seq<Draw>, n: nat, r: nat): Vec3
    requires |centreDraws| == Clusters && |draws| == n && r < n
  {
    DrawIndexBelow(n, r);
    Scatter(m, box, ClusterCentre(box, centreDraws[r % 5]), draws[DrawIndex(n, r)])
  }

  /**
   * The walk over the clusters: cluster by cluster, and within a cluster in
   * the order its fragments were dealt, each fragment consumes the next draw.
   * `drawOf[r]` is the draw consumed by rank r.
   */
  method WalkClusters(n: nat) returns (drawOf: seq<nat>)
    ensures |drawOf| == n
    ensures forall r :: 0 <= r < n ==> drawOf[r] == DrawIndex(n, r)
  {
    var clusters := DealRoundRobin(n);
    drawOf := seq(n, r => 0);
    var p := 0;
    for k := 0 to Clusters
      invariant |drawOf| == n
      invariant p == ClusterStart(n, k)
      invariant forall r :: 0 <= r < n && r % 5 < k ==> drawOf[r] == DrawIndex(n, r)
    {
      drawOf, p := WalkCluster(n, k, clusters[k], drawOf, p);
    }
  }

  /** Consumes one draw for each member of cluster k, starting at draw p; other ranks are kept. */
  method WalkCluster(n: nat, k: nat, members: seq<nat>, drawOf: seq<nat>, p: nat)
    returns (drawOf': seq<nat>, p': nat)
    requires k < Clusters && |drawOf| == n
    requires |members| == ClusterSize(n, k)
    requires forall j :: 0 <= j < |members| ==> members[j] == 5 * j + k
    requires p == ClusterStart(n, k)
    ensures |drawOf'| == n && p' == ClusterStart(n, k + 1)
    ensures forall r :: 0 <= r < n && r % 5 != k ==> drawOf'[r] == drawOf[r]
    ensures forall r :: 0 <= r < n && r % 5 == k ==> drawOf'[r] == DrawIndex(n, r)
  {
    drawOf', p' := drawOf, p;
    for j := 0 to |members|
      invariant |drawOf'| == n
      invariant p' == ClusterStart(n, k) + j
      invariant forall r :: 0 <= r < n && r % 5 != k ==> drawOf'[r] == drawOf[r]
      invariant forall r :: 0 <= r < n && r % 5 == k && r / 5 < j ==> drawOf'[r] == DrawIndex(n, r)
    {
      var r0 := members[j];
      DealCovers(n, r0);
      MemberDraw(n, k, j);
      drawOf' := drawOf'[r0 := p'];
      p' := p' + 1;
    }
    forall r | 0 <= r < n && r % 5 == k ensures r / 5 < |members| {
      DealCovers(n, r);
    }
  }

  /** The j-th member of cluster k, rank 5j + k, uses draw ClusterStart(n, k) + j. */
  lemma MemberDraw(n: nat, k: nat, j: nat)
    requires k < Clusters && 5 * j + k < n
    ensures (5 * j + k) % 5 == k && (5 * j + k) / 5 == j
    ensures DrawIndex(n, 5 * j + k) == ClusterStart(n, k) + j
  {
  }

  /**
   * The Galaxy layout: each rank is scattered about its cluster's centre with
   * the draw the walk over the clusters gives it.
   */
  method GalaxyLayout(m: MathLib, box: Box, centreDraws: seq<Draw>, draws: seq<Draw>, n: nat)
    returns (targets: seq<Vec3>)
    requires |centreDraws| == Clusters && |draws| == n
    ensures |targets| == n
    ensures forall r :: 0 <= r < n ==> targets[r] == GalaxyPoint(m, box, centreDraws, draws, n, r)
  {
    var drawOf := WalkClusters(n);
    forall r | 0 <= r < n ensures drawOf[r] < n {
      DrawIndexBelow(n, r);
    }
    targets := seq(n, r requires 0 <= r < n =>
      Scatter(m, box, ClusterCentre(box, centreDraws[r % Clusters]), draws[drawOf[r]]));
  }

  /** Every cluster centre lies in the frame's ground-plane rectangle. */
  lemma CentreInFrame(box: Box, d: Draw)
    requires Ordered(box) && UnitDraw(d)
    ensures var c := ClusterCentre(box, d);
      box.min.x <= c.x <= box.max.x && box.min.y <= c.y <= box.max.y && c.z == 0.0
  {
    MulMonotone(0.0, d.u, Size(box).x);
    MulMonotone(d.u, 1.0, Size(box).x);
    MulMonotone(0.0, d.v, Size(box).y);
    MulMonotone(d.v, 1.0, Size(box).y);
  }

  /**
   * Every fragment lies within the cluster radius `size.x / 10` of its
   * cluster's centre, and strictly inside it when the frame has width.
   */
  lemma NearItsCluster(m: MathLib, box: Box, centreDraws: seq<Draw>, draws: seq<Draw>, n: nat, r: nat)
    requires TrigSound(m) && Ordered(box) && UnitDraws(draws)
    requires |centreDraws| == Clusters && |draws| == n && r < n
    ensures var d := DistSq2(GalaxyPoint(m, box, centreDraws, draws, n, r), ClusterCentre(box, centreDraws[r % 5]));
      && d <= ClusterRadius(box) * ClusterRadius(box)
      && (Size(box).x > 0.0 ==> d < ClusterRadius(box) * ClusterRadius(box))
  {
    DrawIndexBelow(n, r);
    var dr := draws[DrawIndex(n, r)];
    var c := ClusterCentre(box, centreDraws[r % 5]);
    assert GalaxyPoint(m, box, centreDraws, draws, n, r) == Scatter(m, box, c, dr);
    ScatterDistance(m, box, c, dr);
  }

  /** A scattered point lies within the cluster radius of its centre. */
  lemma ScatterDistance(m: MathLib, box: Box, c: Vec3, d: Draw)
    requires TrigSound(m) && Ordered(box) && UnitDraw(d)
    ensures DistSq2(Scatter(m, box, c, d), c) <= ClusterRadius(box) * ClusterRadius(box)
    ensures Size(box).x > 0.0 ==> DistSq2(Scatter(m, box, c, d), c) < ClusterRadius(box) * ClusterRadius(box)
  {
    PolarDistance(m, c, ScatterAngle(m, d), ScatterRadius(box, d));
    ScaledSquareBelow(d.v, ClusterRadius(box), ScatterRadius(box, d));
  }
}
