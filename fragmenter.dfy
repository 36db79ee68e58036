/**
 * The mesh fragmenter: every triangle of a source mesh is bucketed, by its
 * centroid, into one cell of a 4 x 4 grid laid over the mesh's X/Y bounding
 * box; every non-empty cell becomes one fragment whose saliency ("randomness")
 * is its height divided by the tallest cell's height.
 */
module Fragmenter {
  import opened Wrappers
  import opened Geometry

  /** The mesh is cut into GridSize x GridSize cells. */
  const GridSize: int := 4

  /**
   * A non-indexed triangle mesh: positions 3t, 3t+1, 3t+2 form triangle t;
   * normals and UVs, when present, run parallel to the positions.
   */
  datatype Mesh = Mesh(positions: seq<Vec3>, normals: Option<seq<Vec3>>, uvs: Option<seq<Vec2>>)

  predicate WellFormed(m: Mesh) {
    && |m.positions| % 3 == 0
    && (m.normals.Some? ==> |m.normals.value| == |m.positions|)
    && (m.uvs.Some? ==> |m.uvs.value| == |m.positions|)
  }

  function TriangleCount(m: Mesh): nat {
    |m.positions| / 3
  }

  /** Both cell sizes are positive: the source divides by them unguarded. */
  predicate PositiveCells(b: Box) {
    b.min.x < b.max.x && b.min.y < b.max.y
  }

  /** What the decomposition needs of a mesh: triangles, and a box of positive X/Y extent. */
  predicate Decomposable(m: Mesh) {
    WellFormed(m) && (|m.positions| > 0 ==> PositiveCells(BoundsOf(m.positions)))
  }

  /** The library's integer clamp. */
  function Clamp(v: int, lo: int, hi: int): int
    requires lo <= hi
  {
    if v < lo then lo else if v > hi then hi else v
  }

  function Centroid(a: Vec3, b: Vec3, c: Vec3): Vec3 {
    Vec3((a.x + b.x + c.x) / 3.0, (a.y + b.y + c.y) / 3.0, (a.z + b.z + c.z) / 3.0)
  }

  /**
   * The grid column (or row) holding coordinate `c`, for cells of size
   * `cellSize` starting at `lo`, clamped to the grid. The result is the unique
   * cell whose half-open range holds `c`, where the first cell extends down
   * and the last cell extends up without bound.
   */
  function GridCoord(c: real, lo: real, cellSize: real): (g: int)
    requires cellSize > 0.0
    ensures 0 <= g < GridSize
    ensures 0 < g ==> lo + g as real * cellSize <= c
    ensures g < GridSize - 1 ==> c < lo + (g + 1) as real * cellSize
  {
    var g := Clamp(((c - lo) / cellSize).Floor, 0, GridSize - 1);
    FloorCellBounds(c, lo, cellSize, g);
    g
  }

  /** The cell arithmetic behind `GridCoord`: dividing back by the cell size. */
  lemma FloorCellBounds(c: real, lo: real, cellSize: real, g: int)
    requires cellSize > 0.0
    requires g == Clamp(((c - lo) / cellSize).Floor, 0, GridSize - 1)
    ensures 0 < g ==> lo + g as real * cellSize <= c
    ensures g < GridSize - 1 ==> c < lo + (g + 1) as real * cellSize
  {
    var q := (c - lo) / cellSize;
    var f := q.Floor;
    assert q * cellSize == c - lo;
    assert f as real <= q < (f + 1) as real;
    if 0 < g {
      assert g as real <= q;
      assert g as real * cellSize <= q * cellSize;
    }
    if g < GridSize - 1 {
      assert q < (g + 1) as real;
      assert q * cellSize < (g + 1) as real * cellSize;
      assert c == lo + q * cellSize;
      assert c < lo + (g + 1) as real * cellSize;
    }
  }

  function CellSizeX(b: Box): real { (b.max.x - b.min.x) / GridSize as real }

  function CellSizeY(b: Box): real { (b.max.y - b.min.y) / GridSize as real }

  /** The centroid of triangle `t`. */
  function TriangleCentroid(m: Mesh, t: nat): Vec3
    requires t < TriangleCount(m)
  {
    Centroid(m.positions[3 * t], m.positions[3 * t + 1], m.positions[3 * t + 2])
  }

  /** The chunk `gridY * 4 + gridX` that triangle `t` is appended to; always one of the 16. */
  function TriangleChunk(m: Mesh, box: Box, t: nat): (k: int)
    requires PositiveCells(box) && t < TriangleCount(m)
    ensures 0 <= k < GridSize * GridSize
  {
    var c := TriangleCentroid(m, t);
    GridCoord(c.y, box.min.y, CellSizeY(box)) * GridSize + GridCoord(c.x, box.min.x, CellSizeX(box))
  }

  /** The buffers a grid cell accumulates: positions, and normals and UVs when the mesh has them. */
  datatype Chunk = Chunk(vertices: seq<Vec3>, normals: seq<Vec3>, uvs: seq<Vec2>)

  const EmptyChunk := Chunk([], [], [])

  /** Vertex `v` of the mesh appended to a chunk, with its normal and UV when present. */
  function PushVertex(c: Chunk, m: Mesh, v: nat): (r: Chunk)
    requires WellFormed(m) && v < |m.positions|
  {
    var withPosition := c.(vertices := c.vertices + [m.positions[v]]);
    var withNormal :=
      if m.normals.Some? then withPosition.(normals := withPosition.normals + [m.normals.value[v]])
      else withPosition;
    if m.uvs.Some? then withNormal.(uvs := withNormal.uvs + [m.uvs.value[v]]) else withNormal
  }

  /** The first `j` vertices of triangle `t` appended to a chunk, in order. */
  function PushTriangle(c: Chunk, m: Mesh, t: nat, j: nat): (r: Chunk)
    requires WellFormed(m) && t < TriangleCount(m) && j <= 3
    ensures |r.vertices| == |c.vertices| + j
  {
    if j == 0 then c else PushVertex(PushTriangle(c, m, t, j - 1), m, 3 * t + j - 1)
  }

  lemma PushTriangleNext(c: Chunk, m: Mesh, t: nat, j: nat)
    requires WellFormed(m) && t < TriangleCount(m) && j < 3
    ensures PushTriangle(c, m, t, j + 1) == PushVertex(PushTriangle(c, m, t, j), m, 3 * t + j)
  {
  }

  /** Pushing a triangle appends exactly its vertices, in order. */
  lemma {:induction false} PushTriangleVertices(c: Chunk, m: Mesh, t: nat, j: nat)
    requires WellFormed(m) && t < TriangleCount(m) && j <= 3
    ensures PushTriangle(c, m, t, j).vertices == c.vertices + m.positions[3 * t .. 3 * t + j]
  {
    if j > 0 {
      PushTriangleVertices(c, m, t, j - 1);
      assert m.positions[3 * t .. 3 * t + j] == m.positions[3 * t .. 3 * t + j - 1] + [m.positions[3 * t + j - 1]];
    }
  }

  /** `cells[t]` is the chunk triangle `t` goes to, for every triangle of the mesh. */
  predicate Assigned(m: Mesh, cells: seq<int>) {
    && WellFormed(m)
    && |cells| == TriangleCount(m)
    && forall t :: 0 <= t < |cells| ==> 0 <= cells[t] < GridSize * GridSize
  }

  /** The chunk of every triangle, in triangle order. */
  function Cells(m: Mesh, box: Box): (cells: seq<int>)
    requires WellFormed(m) && PositiveCells(box)
    ensures Assigned(m, cells)
  {
    seq(TriangleCount(m), t requires 0 <= t < TriangleCount(m) => TriangleChunk(m, box, t))
  }

  /** Chunk `k` once the first `t` triangles have been distributed. */
  function ChunkAfter(m: Mesh, cells: seq<int>, k: int, t: nat): Chunk
    requires Assigned(m, cells) && t <= TriangleCount(m)
  {
    if t == 0 then EmptyChunk
    else if cells[t - 1] == k then PushTriangle(ChunkAfter(m, cells, k, t - 1), m, t - 1, 3)
    else ChunkAfter(m, cells, k, t - 1)
  }

  /** Chunks 0 .. K-1 once the first `t` triangles have been distributed. */
  function ChunksAfter(m: Mesh, cells: seq<int>, t: nat, K: nat): (cs: seq<Chunk>)
    requires Assigned(m, cells) && t <= TriangleCount(m)
    ensures |cs| == K
    ensures forall k :: 0 <= k < K ==> cs[k] == ChunkAfter(m, cells, k, t)
  {
    if K == 0 then [] else ChunksAfter(m, cells, t, K - 1) + [ChunkAfter(m, cells, K - 1, t)]
  }

  /**
   * The triangle loop: each triangle's three vertices (with normals and UVs)
   * are pushed, in input order, onto the chunk its centroid falls in.
   */
  method FillChunks(m: Mesh, box: Box) returns (chunks: seq<Chunk>)
    requires WellFormed(m) && PositiveCells(box)
    ensures chunks == ChunksAfter(m, Cells(m, box), TriangleCount(m), GridSize * GridSize)
  {
    ghost var cells := Cells(m, box);
    var a := new Chunk[GridSize * GridSize](_ => EmptyChunk);
    var cellSizeX := (box.max.x - box.min.x) / GridSize as real;
    var cellSizeY := (box.max.y - box.min.y) / GridSize as real;
    var i := 0;
    ghost var t := 0;
    while i < |m.positions|
      invariant 0 <= i <= |m.positions| && i == 3 * t
      invariant forall k :: 0 <= k < a.Length ==> a[k] == ChunkAfter(m, cells, k, t)
    {
      var centroid := Centroid(m.positions[i], m.positions[i + 1], m.positions[i + 2]);
      var gridX := ((centroid.x - box.min.x) / cellSizeX).Floor;
      var gridY := ((centroid.y - box.min.y) / cellSizeY).Floor;
      gridX := Clamp(gridX, 0, GridSize - 1);
      gridY := Clamp(gridY, 0, GridSize - 1);
      var chunkIndex := gridY * GridSize + gridX;
      assert chunkIndex == cells[t] by {
        assert centroid == TriangleCentroid(m, t);
      }
      var chunk := AppendTriangle(a[chunkIndex], m, i, t);
      assert chunk == ChunkAfter(m, cells, chunkIndex, t + 1) by {
        ChunkAfterNext(m, cells, t);
      }
      a[chunkIndex] := chunk;
      forall k | 0 <= k < a.Length
        ensures a[k] == ChunkAfter(m, cells, k, t + 1)
      {
        if k != chunkIndex {
          assert a[k] == ChunkAfter(m, cells, k, t);
          assert ChunkAfter(m, cells, k, t + 1) == ChunkAfter(m, cells, k, t) by {
            ChunkAfterNext(m, cells, t);
          }
        }
      }
      i := i + 3;
      t := t + 1;
    }
    chunks := a[..];
  }

  /**
   * The inner loop: the three vertices of the triangle starting at position
   * `i`, with their normals and UVs when present, pushed onto `chunk`.
   */
  method AppendTriangle(chunk: Chunk, m: Mesh, i: nat, ghost t: nat) returns (r: Chunk)
    requires WellFormed(m) && t < TriangleCount(m) && i == 3 * t
    ensures r == PushTriangle(chunk, m, t, 3)
  {
    r := chunk;
    var j := 0;
    while j < 3
      invariant 0 <= j <= 3
      invariant r == PushTriangle(chunk, m, t, j)
    {
      var index := i + j;
      ghost var pushed := PushVertex(r, m, index);
      r := r.(vertices := r.vertices + [m.positions[index]]);
      if m.normals.Some? {
        r := r.(normals := r.normals + [m.normals.value[index]]);
      }
      if m.uvs.Some? {
        r := r.(uvs := r.uvs + [m.uvs.value[index]]);
      }
      assert r == pushed;
      assert r == PushTriangle(chunk, m, t, j + 1) by {
        PushTriangleNext(chunk, m, t, j);
      }
      j := j + 1;
    }
  }

  /** Distributing triangle `t` changes only the chunk its centroid falls in. */
  lemma ChunkAfterNext(m: Mesh, cells: seq<int>, t: nat)
    requires Assigned(m, cells) && t < TriangleCount(m)
    ensures ChunkAfter(m, cells, cells[t], t + 1)
         == PushTriangle(ChunkAfter(m, cells, cells[t], t), m, t, 3)
    ensures forall k :: k != cells[t] ==> ChunkAfter(m, cells, k, t + 1) == ChunkAfter(m, cells, k, t)
  {
  }

  /** Total number of vertices held by a list of chunks. */
  function VertexTotal(cs: seq<Chunk>): nat {
    if cs == [] then 0 else VertexTotal(cs[..|cs| - 1]) + |cs[|cs| - 1].vertices|
  }

  /** Distributing one more triangle adds its three vertices to exactly one chunk. */
  lemma VertexTotalStep(m: Mesh, cells: seq<int>, t: nat, K: nat)
    requires Assigned(m, cells) && t < TriangleCount(m)
    ensures VertexTotal(ChunksAfter(m, cells, t + 1, K))
         == VertexTotal(ChunksAfter(m, cells, t, K)) + (if cells[t] < K then 3 else 0)
  {
    VertexTotalIsSizeSum(m, cells, t, K);
    VertexTotalIsSizeSum(m, cells, t + 1, K);
    SizeSumStep(m, cells, t, K);
  }

  /** The number of vertices in chunks 0 .. K-1 once `t` triangles have been distributed. */
  function SizeSum(m: Mesh, cells: seq<int>, t: nat, K: nat): nat
    requires Assigned(m, cells) && t <= TriangleCount(m)
  {
    if K == 0 then 0 else SizeSum(m, cells, t, K - 1) + |ChunkAfter(m, cells, K - 1, t).vertices|
  }

  /** Triangle `t` adds three vertices to chunks 0 .. K-1 when its chunk is one of them. */
  lemma {:induction false} SizeSumStep(m: Mesh, cells: seq<int>, t: nat, K: nat)
    requires Assigned(m, cells) && t < TriangleCount(m)
    ensures SizeSum(m, cells, t + 1, K) == SizeSum(m, cells, t, K) + (if cells[t] < K then 3 else 0)
  {
    if K > 0 {
      SizeSumStep(m, cells, t, K - 1);
      ChunkSizeStep(m, cells, K - 1, t);
    }
  }

  /** The vertex total of the chunk list is the sum of the chunk sizes. */
  lemma {:induction false} VertexTotalIsSizeSum(m: Mesh, cells: seq<int>, t: nat, K: nat)
    requires Assigned(m, cells) && t <= TriangleCount(m)
    ensures VertexTotal(ChunksAfter(m, cells, t, K)) == SizeSum(m, cells, t, K)
  {
    if K > 0 {
      VertexTotalIsSizeSum(m, cells, t, K - 1);
      ChunksAfterTotal(m, cells, t, K);
    }
  }

  /** The total over chunks 0 .. K-1 adds chunk K-1 to the total over the ones before it. */
  lemma ChunksAfterTotal(m: Mesh, cells: seq<int>, t: nat, K: nat)
    requires Assigned(m, cells) && t <= TriangleCount(m) && K > 0
    ensures VertexTotal(ChunksAfter(m, cells, t, K))
         == VertexTotal(ChunksAfter(m, cells, t, K - 1)) + |ChunkAfter(m, cells, K - 1, t).vertices|
  {
    var cs := ChunksAfter(m, cells, t, K);
    assert cs[..K - 1] == ChunksAfter(m, cells, t, K - 1);
  }

  /** Distributing triangle `t` grows its own chunk by three vertices and no other. */
  lemma ChunkSizeStep(m: Mesh, cells: seq<int>, k: int, t: nat)
    requires Assigned(m, cells) && t < TriangleCount(m)
    ensures |ChunkAfter(m, cells, k, t + 1).vertices|
         == |ChunkAfter(m, cells, k, t).vertices| + (if cells[t] == k then 3 else 0)
  {
  }

  /**
   * The sixteen chunks together hold exactly the vertices of the distributed
   * triangles: three per triangle, none lost and none duplicated.
   */
  lemma {:induction false} ChunksHoldAllVertices(m: Mesh, cells: seq<int>, t: nat)
    requires Assigned(m, cells) && t <= TriangleCount(m)
    ensures VertexTotal(ChunksAfter(m, cells, t, GridSize * GridSize)) == 3 * t
  {
    if t == 0 {
      EmptyChunksHoldNothing(m, cells, GridSize * GridSize);
    } else {
      ChunksHoldAllVertices(m, cells, t - 1);
      VertexTotalStep(m, cells, t - 1, GridSize * GridSize);
    }
  }

  lemma {:induction false} EmptyChunksHoldNothing(m: Mesh, cells: seq<int>, K: nat)
    requires Assigned(m, cells)
    ensures VertexTotal(ChunksAfter(m, cells, 0, K)) == 0
  {
    if K > 0 {
      EmptyChunksHoldNothing(m, cells, K - 1);
      assert ChunksAfter(m, cells, 0, K)[..K - 1] == ChunksAfter(m, cells, 0, K - 1);
    }
  }

  /**
   * Every vertex in chunk `k` belongs to a triangle whose centroid falls in
   * cell `k`: a chunk holds only its own cell's triangles.
   */
  lemma {:induction false} ChunkMembers(m: Mesh, cells: seq<int>, k: int, t: nat, v: Vec3)
    requires Assigned(m, cells) && t <= TriangleCount(m)
    requires v in ChunkAfter(m, cells, k, t).vertices
    ensures exists u :: 0 <= u < t && cells[u] == k && v in m.positions[3 * u .. 3 * u + 3]
  {
    var prev := ChunkAfter(m, cells, k, t - 1);
    PushTriangleVertices(prev, m, t - 1, 3);
    if cells[t - 1] == k && v !in prev.vertices {
      assert v in m.positions[3 * (t - 1) .. 3 * (t - 1) + 3];
    } else {
      ChunkMembers(m, cells, k, t - 1, v);
    }
  }

  /** The non-empty chunks, in grid order (the `map` ... `filter` step). */
  function Kept(cs: seq<Chunk>): (r: seq<Chunk>)
    ensures |r| <= |cs|
    ensures forall i :: 0 <= i < |r| ==> |r[i].vertices| > 0
    ensures VertexTotal(r) == VertexTotal(cs)
  {
    if cs == [] then []
    else
      var last := cs[|cs| - 1];
      var rest := Kept(cs[..|cs| - 1]);
      if |last.vertices| > 0 then
        var r := rest + [last];
        assert r[..|r| - 1] == rest;
        r
      else rest
  }

  /** The positions of the non-empty chunks, in grid order. */
  function KeptIndices(cs: seq<Chunk>): seq<nat> {
    if cs == [] then []
    else
      var n := |cs| - 1;
      KeptIndices(cs[..n]) + (if |cs[n].vertices| > 0 then [n] else [])
  }

  /** One index per kept chunk, each below the chunk count, strictly increasing. */
  lemma {:induction false} KeptIndicesIncreasing(cs: seq<Chunk>)
    ensures |KeptIndices(cs)| == |Kept(cs)|
    ensures forall i :: 0 <= i < |KeptIndices(cs)| ==> KeptIndices(cs)[i] < |cs|
    ensures forall i, j :: 0 <= i < j < |KeptIndices(cs)| ==> KeptIndices(cs)[i] < KeptIndices(cs)[j]
  {
    if cs != [] {
      var n := |cs| - 1;
      KeptIndicesIncreasing(cs[..n]);
      KeptStep(cs);
    }
  }

  /** Kept chunk i is the chunk at the i-th kept index. */
  lemma {:induction false} KeptAtIndices(cs: seq<Chunk>)
    ensures |KeptIndices(cs)| == |Kept(cs)|
    ensures forall i :: 0 <= i < |Kept(cs)| ==>
      KeptIndices(cs)[i] < |cs| && Kept(cs)[i] == cs[KeptIndices(cs)[i]]
  {
    KeptIndicesIncreasing(cs);
    if cs != [] {
      var n := |cs| - 1;
      var init := cs[..n];
      KeptAtIndices(init);
      KeptStep(cs);
      var rest, idx := KeptIndices(init), KeptIndices(cs);
      var ks, r := Kept(init), Kept(cs);
      var tail: seq<nat> := if |cs[n].vertices| > 0 then [n] else [];
      assert idx == rest + tail;
      forall i | 0 <= i < |r|
        ensures r[i] == cs[idx[i]]
      {
        if i < |ks| {
          KeptPrefixAt(ks, r, rest, idx, i);
          assert init[rest[i]] == cs[rest[i]];
        } else {
          assert r[i] == cs[n] && idx[i] == n;
        }
      }
    }
  }

  /** Entry i of a list and of its extension agree, for the kept chunks and their indices alike. */
  lemma KeptPrefixAt(ks: seq<Chunk>, r: seq<Chunk>, rest: seq<nat>, idx: seq<nat>, i: nat)
    requires |ks| == |rest| && i < |ks|
    requires ks <= r && rest <= idx
    ensures r[i] == ks[i] && idx[i] == rest[i]
  {
  }

  /** Every non-empty chunk has its index among the kept ones. */
  lemma {:induction false} KeptAllNonEmpty(cs: seq<Chunk>)
    ensures forall k :: 0 <= k < |cs| && |cs[k].vertices| > 0 ==> k in KeptIndices(cs)
  {
    if cs != [] {
      var n := |cs| - 1;
      var init := cs[..n];
      KeptAllNonEmpty(init);
      forall k | 0 <= k < n && |cs[k].vertices| > 0
        ensures k in KeptIndices(cs)
      {
        assert init[k] == cs[k];
      }
    }
  }

  /**
   * `Kept` is exactly the filter of the non-empty chunks: kept chunk i is
   * chunk KeptIndices(cs)[i], those indices strictly increase (grid order is
   * kept), and every non-empty chunk is among them.
   */
  lemma KeptIsFilter(cs: seq<Chunk>)
    ensures |KeptIndices(cs)| == |Kept(cs)|
    ensures forall i :: 0 <= i < |Kept(cs)| ==>
      KeptIndices(cs)[i] < |cs| && Kept(cs)[i] == cs[KeptIndices(cs)[i]]
    ensures forall i, j :: 0 <= i < j < |Kept(cs)| ==> KeptIndices(cs)[i] < KeptIndices(cs)[j]
    ensures forall k :: 0 <= k < |cs| && |cs[k].vertices| > 0 ==> k in KeptIndices(cs)
  {
    KeptIndicesIncreasing(cs);
    KeptAtIndices(cs);
    KeptAllNonEmpty(cs);
  }

  /** Dropping empty chunks, one chunk at a time from the end. */
  lemma KeptStep(cs: seq<Chunk>)
    requires cs != []
    ensures Kept(cs) == Kept(cs[..|cs| - 1]) + (if |cs[|cs| - 1].vertices| > 0 then [cs[|cs| - 1]] else [])
  {
  }

  /** The height of a non-empty chunk: its bounding box's extent along Z. */
  function Height(c: Chunk): (h: real)
    requires |c.vertices| > 0
    ensures h >= 0.0
  {
    var b := BoundsOf(c.vertices);
    b.max.z - b.min.z
  }

  /** The largest of a non-empty list of reals (`Math.max(...xs)`). */
  function MaxOf(xs: seq<real>): (r: real)
    requires |xs| > 0
    ensures forall i :: 0 <= i < |xs| ==> xs[i] <= r
    ensures exists i :: 0 <= i < |xs| && xs[i] == r
  {
    if |xs| == 1 then xs[0]
    else
      var init := xs[..|xs| - 1];
      assert forall i :: 0 <= i < |init| ==> init[i] == xs[i];
      var r := Max(MaxOf(init), xs[|xs| - 1]);
      assert r == MaxOf(init) || r == xs[|xs| - 1];
      r
  }

  /** The tallest height among a non-empty list of non-empty chunks. */
  function MaxHeight(cs: seq<Chunk>): (h: real)
    requires |cs| > 0 && forall i :: 0 <= i < |cs| ==> |cs[i].vertices| > 0
    ensures forall i :: 0 <= i < |cs| ==> Height(cs[i]) <= h
    ensures exists i :: 0 <= i < |cs| && Height(cs[i]) == h
  {
    var heights := seq(|cs|, i requires 0 <= i < |cs| => Height(cs[i]));
    var h := MaxOf(heights);
    assert forall i :: 0 <= i < |cs| ==> heights[i] == Height(cs[i]);
    h
  }

  /**
   * The normalised height: `height / maxHeight` when the tallest chunk has
   * positive height, 0 otherwise. It lies in [0,1] and is 1 exactly for a
   * chunk as tall as the tallest.
   */
  function Saliency(h: real, maxH: real): (s: real)
    requires 0.0 <= h <= maxH
    ensures 0.0 <= s <= 1.0
    ensures maxH > 0.0 ==> (s == 1.0 <==> h == maxH)
    ensures maxH > 0.0 ==> s * maxH == h
    ensures maxH == 0.0 ==> s == 0.0
  {
    if maxH > 0.0 then h / maxH else 0.0
  }

  /** The record kept for each fragment (the fields of its `userData`). */
  datatype FragmentData = FragmentData(
    geometry: Chunk,
    randomness: real,
    baseCenter: Vec3,
    baseSize: Vec3,
    fragmentCenter: Vec3,
    height: real)

  /** A fragment built from a non-empty chunk, given the tallest chunk's height. */
  function MakeFragment(c: Chunk, maxH: real): FragmentData
    requires |c.vertices| > 0 && Height(c) <= maxH
  {
    var b := BoundsOf(c.vertices);
    var center := Center(b);
    var s := Saliency(Height(c), maxH);
    FragmentData(c, s, Vec3(center.x, center.y, 0.0), Vec3(b.max.x - b.min.x, b.max.y - b.min.y, 0.1), center, s)
  }

  /** The fragments made from a mesh's sixteen chunks. */
  function FragmentsFrom(cs: seq<Chunk>): seq<FragmentData> {
    var ks := Kept(cs);
    if ks == [] then []
    else
      var maxH := MaxHeight(ks);
      seq(|ks|, i requires 0 <= i < |ks| => MakeFragment(ks[i], maxH))
  }

  /** The chunks a non-empty mesh's fragments are made from. */
  function MeshChunks(m: Mesh): (cs: seq<Chunk>)
    requires Decomposable(m) && |m.positions| > 0
    ensures |cs| == GridSize * GridSize
  {
    ChunksAfter(m, Cells(m, BoundsOf(m.positions)), TriangleCount(m), GridSize * GridSize)
  }

  /** The fragments of one source mesh. */
  function FragmentsOf(m: Mesh): seq<FragmentData>
    requires Decomposable(m)
  {
    if |m.positions| == 0 then [] else FragmentsFrom(MeshChunks(m))
  }

  /** Decomposition of one source mesh into fragments. */
  method Decompose(m: Mesh) returns (frags: seq<FragmentData>)
    requires Decomposable(m)
    ensures frags == FragmentsOf(m)
  {
    if |m.positions| == 0 {
      // No triangles: every chunk stays empty and no fragment is made.
      return [];
    }
    var box := BoundsOf(m.positions);
    var chunks := FillChunks(m, box);
    frags := FragmentsFrom(chunks);
  }

  /** The geometries of a list of fragments. */
  function Geometries(frags: seq<FragmentData>): seq<Chunk> {
    seq(|frags|, i requires 0 <= i < |frags| => frags[i].geometry)
  }

  /** Every fragment holds at least one whole triangle. */
  predicate WholeTriangles(frags: seq<FragmentData>) {
    forall i :: 0 <= i < |frags| ==> |frags[i].geometry.vertices| >= 3
  }

  /** The fragments carry exactly the kept chunks, in order. */
  lemma FragmentsFromGeometries(cs: seq<Chunk>)
    ensures Geometries(FragmentsFrom(cs)) == Kept(cs)
  {
  }

  /**
   * One mesh yields at most sixteen fragments, and together they hold exactly
   * the mesh's vertices.
   */
  lemma DecomposeCounts(m: Mesh)
    requires Decomposable(m)
    ensures |FragmentsOf(m)| <= GridSize * GridSize
    ensures VertexTotal(Geometries(FragmentsOf(m))) == |m.positions|
  {
    if |m.positions| > 0 {
      var cs := MeshChunks(m);
      assert VertexTotal(cs) == |m.positions| by {
        ChunksHoldAllVertices(m, Cells(m, BoundsOf(m.positions)), TriangleCount(m));
      }
      assert Geometries(FragmentsOf(m)) == Kept(cs) by {
        FragmentsFromGeometries(cs);
      }
    }
  }

  /** Every fragment of a mesh holds at least one whole triangle. */
  lemma DecomposeWholeTriangles(m: Mesh)
    requires Decomposable(m)
    ensures WholeTriangles(FragmentsOf(m))
  {
    if |m.positions| > 0 {
      var cells := Cells(m, BoundsOf(m.positions));
      var cs := MeshChunks(m);
      assert forall k :: 0 <= k < |cs| ==> |cs[k].vertices| % 3 == 0 by {
        forall k | 0 <= k < |cs| ensures |cs[k].vertices| % 3 == 0 {
          ChunkWholeTriangles(m, cells, k, TriangleCount(m));
        }
      }
      KeptWholeTriangles(cs);
      assert Geometries(FragmentsOf(m)) == Kept(cs) by {
        FragmentsFromGeometries(cs);
      }
      assert forall i :: 0 <= i < |FragmentsOf(m)| ==> FragmentsOf(m)[i].geometry == Geometries(FragmentsOf(m))[i];
    }
  }

  /** Every chunk's vertex count is a multiple of three: it holds whole triangles. */
  lemma {:induction false} ChunkWholeTriangles(m: Mesh, cells: seq<int>, k: int, t: nat)
    requires Assigned(m, cells) && t <= TriangleCount(m)
    ensures |ChunkAfter(m, cells, k, t).vertices| % 3 == 0
  {
    if t > 0 { ChunkWholeTriangles(m, cells, k, t - 1); }
  }

  /** Chunks of whole triangles stay whole once the empty ones are dropped: each kept one has a triangle. */
  lemma {:induction false} KeptWholeTriangles(cs: seq<Chunk>)
    requires forall k :: 0 <= k < |cs| ==> |cs[k].vertices| % 3 == 0
    ensures forall i :: 0 <= i < |Kept(cs)| ==> |Kept(cs)[i].vertices| >= 3
  {
    if cs != [] {
      var init := cs[..|cs| - 1];
      assert forall k :: 0 <= k < |init| ==> init[k] == cs[k];
      KeptWholeTriangles(init);
    }
  }

  /** Each saliency lies in [0,1], is also the recorded height, and the base centre sits on the ground. */
  predicate SaliencyInRange(frags: seq<FragmentData>) {
    forall i :: 0 <= i < |frags| ==>
      0.0 <= frags[i].randomness <= 1.0 && frags[i].height == frags[i].randomness && frags[i].baseCenter.z == 0.0
  }

  /** A fragment no taller than another is no more salient. */
  predicate SaliencyFollowsHeight(frags: seq<FragmentData>) {
    forall i, j :: (0 <= i < |frags| && 0 <= j < |frags| &&
                    |frags[i].geometry.vertices| > 0 && |frags[j].geometry.vertices| > 0 &&
                    Height(frags[i].geometry) <= Height(frags[j].geometry)) ==>
      frags[i].randomness <= frags[j].randomness
  }

  /** Fragment i is a tallest one: non-empty and at least as tall as every other. */
  predicate Tallest(frags: seq<FragmentData>, i: int) {
    && 0 <= i < |frags|
    && |frags[i].geometry.vertices| > 0
    && forall j :: 0 <= j < |frags| && |frags[j].geometry.vertices| > 0 ==>
         Height(frags[j].geometry) <= Height(frags[i].geometry)
  }

  /**
   * A tallest fragment gets saliency exactly 1 when it has positive height;
   * when it is flat, every fragment gets 0.
   */
  predicate TallestIsOne(frags: seq<FragmentData>) {
    && (forall i :: 0 <= i < |frags| && Tallest(frags, i) && Height(frags[i].geometry) > 0.0 ==> frags[i].randomness == 1.0)
    && (forall i :: 0 <= i < |frags| && Tallest(frags, i) && Height(frags[i].geometry) == 0.0 ==>
          forall j :: 0 <= j < |frags| ==> frags[j].randomness == 0.0)
  }

  /** Normalisation keeps the order of heights. */
  lemma SaliencyMonotone(h1: real, h2: real, maxH: real)
    requires 0.0 <= h1 <= h2 <= maxH
    ensures Saliency(h1, maxH) <= Saliency(h2, maxH)
  {
    if maxH > 0.0 {
      assert h2 / maxH - h1 / maxH == (h2 - h1) / maxH;
    }
  }

  /** One fragment per kept chunk, each made with the tallest kept chunk's height. */
  lemma FragmentEntries(cs: seq<Chunk>)
    ensures |FragmentsFrom(cs)| == |Kept(cs)|
    ensures Kept(cs) != [] ==> forall i :: 0 <= i < |Kept(cs)| ==>
      FragmentsFrom(cs)[i] == MakeFragment(Kept(cs)[i], MaxHeight(Kept(cs)))
  {
  }

  /** Saliency normalisation over any list of chunks. */
  lemma FragmentsFromSaliency(cs: seq<Chunk>)
    ensures SaliencyInRange(FragmentsFrom(cs))
    ensures SaliencyFollowsHeight(FragmentsFrom(cs))
    ensures TallestIsOne(FragmentsFrom(cs))
  {
    FragmentEntries(cs);
    FragmentsInRange(cs);
    FragmentsFollowHeight(cs);
    FragmentsTallestOne(cs);
  }

  lemma FragmentsInRange(cs: seq<Chunk>)
    ensures SaliencyInRange(FragmentsFrom(cs))
  {
    var frags, ks := FragmentsFrom(cs), Kept(cs);
    FragmentEntries(cs);
    if ks != [] {
      forall i | 0 <= i < |frags|
        ensures 0.0 <= frags[i].randomness <= 1.0
        ensures frags[i].height == frags[i].randomness && frags[i].baseCenter.z == 0.0
      {
        assert frags[i] == MakeFragment(ks[i], MaxHeight(ks));
      }
    }
  }

  lemma FragmentsFollowHeight(cs: seq<Chunk>)
    ensures SaliencyFollowsHeight(FragmentsFrom(cs))
  {
    var frags, ks := FragmentsFrom(cs), Kept(cs);
    FragmentEntries(cs);
    if ks != [] {
      var maxH := MaxHeight(ks);
      forall i, j | 0 <= i < |frags| && 0 <= j < |frags| && Height(frags[i].geometry) <= Height(frags[j].geometry)
        ensures frags[i].randomness <= frags[j].randomness
      {
        assert frags[i] == MakeFragment(ks[i], maxH) && frags[j] == MakeFragment(ks[j], maxH);
        SaliencyMonotone(Height(ks[i]), Height(ks[j]), maxH);
      }
    }
  }

  lemma FragmentsTallestOne(cs: seq<Chunk>)
    ensures TallestIsOne(FragmentsFrom(cs))
  {
    var frags, ks := FragmentsFrom(cs), Kept(cs);
    FragmentEntries(cs);
    if ks != [] {
      var maxH := MaxHeight(ks);
      assert forall j :: 0 <= j < |frags| ==> frags[j] == MakeFragment(ks[j], maxH);
      forall i | Tallest(frags, i)
        ensures Height(frags[i].geometry) == maxH
      {
        var top :| 0 <= top < |ks| && Height(ks[top]) == maxH;
        assert frags[top].geometry == ks[top];
      }
    }
  }

  /**
   * Saliency of a mesh's fragments: each lies in [0,1] and follows the
   * fragments' heights; the tallest gets exactly 1 unless every fragment is
   * flat, in which case all get 0.
   */
  lemma SaliencyNormalised(m: Mesh)
    requires Decomposable(m)
    ensures SaliencyInRange(FragmentsOf(m))
    ensures SaliencyFollowsHeight(FragmentsOf(m))
    ensures TallestIsOne(FragmentsOf(m))
  {
    if |m.positions| > 0 {
      FragmentsFromSaliency(MeshChunks(m));
    }
  }

  /** The fragments of every mesh of a model, mesh after mesh (the scene traversal). */
  function ModelFragments(meshes: seq<Mesh>): seq<FragmentData>
    requires forall i :: 0 <= i < |meshes| ==> Decomposable(meshes[i])
  {
    if meshes == [] then []
    else ModelFragments(meshes[..|meshes| - 1]) + FragmentsOf(meshes[|meshes| - 1])
  }

  /** The traversal: each mesh child is decomposed and its fragments are pushed in turn. */
  method DecomposeModel(meshes: seq<Mesh>) returns (frags: seq<FragmentData>)
    requires forall i :: 0 <= i < |meshes| ==> Decomposable(meshes[i])
    ensures frags == ModelFragments(meshes)
  {
    frags := [];
    var i := 0;
    while i < |meshes|
      invariant 0 <= i <= |meshes|
      invariant frags == ModelFragments(meshes[..i])
    {
      var pieces := Decompose(meshes[i]);
      assert meshes[..i + 1][..i] == meshes[..i];
      assert meshes[..i + 1][i] == meshes[i];
      frags := frags + pieces;
      i := i + 1;
    }
    assert meshes[..i] == meshes;
  }

  /** Every fragment of a whole model has its saliency in [0,1] and its base centre on the ground. */
  lemma {:induction false} ModelSaliencyInRange(meshes: seq<Mesh>)
    requires forall i :: 0 <= i < |meshes| ==> Decomposable(meshes[i])
    ensures SaliencyInRange(ModelFragments(meshes))
  {
    if meshes != [] {
      var init := meshes[..|meshes| - 1];
      assert forall i :: 0 <= i < |init| ==> init[i] == meshes[i];
      ModelSaliencyInRange(init);
      SaliencyNormalised(meshes[|meshes| - 1]);
      SaliencyInRangeConcat(ModelFragments(init), FragmentsOf(meshes[|meshes| - 1]));
    }
  }

  lemma SaliencyInRangeConcat(a: seq<FragmentData>, b: seq<FragmentData>)
    requires SaliencyInRange(a) && SaliencyInRange(b)
    ensures SaliencyInRange(a + b)
  {
    forall i | 0 <= i < |a + b|
      ensures 0.0 <= (a + b)[i].randomness <= 1.0 && (a + b)[i].height == (a + b)[i].randomness
      ensures (a + b)[i].baseCenter.z == 0.0
    {
      if i < |a| {
        assert (a + b)[i] == a[i];
      } else {
        assert (a + b)[i] == b[i - |a|];
      }
    }
  }
}
