# Living Geometry fragment pipeline in Dafny

This project models the fragment pipeline of the Living Geometry city-tile
viewer. Three pages share it:

- `app/0129/page.tsx`: thirteen layouts, including Alphabet, and a LIVING
  GEOMETRY auto-sequence.
- `app/0122/page.tsx`: the same pipeline without Alphabet.
- `app/page.tsx`: a collage page that spells typed letters out of the
  fragments.

The pipeline has five stages:

1. **Fragmenter** (`fragmenter.dfy`). Each mesh's triangles are bucketed into
   a 4×4 grid of chunks by centroid. The grid cell is clamped to 0..3. Empty
   chunks are dropped. Each kept chunk becomes a fragment whose saliency
   (`randomness`) is its height divided by the tallest chunk's height.
2. **Ranker** (`ranker.dfy`, `cityscape.dfy`). The fragments are sorted
   stably by descending `randomness`, and each fragment's rank is its index.
3. **Layouts**. Each layout writes a target position (`orderedCenter`) into
   the fragments. Every layout writes every fragment except Spiral and
   Hurricane: their walks write at most 144 fragments (Spiral the ranks below
   144, Hurricane the ranks N−144 and above), and every other fragment keeps
   its previous target (`Cityscape.WrittenRanks`). The layouts are:
   - Original, Grid, Spiral and Hurricane (`grid.dfy`, `spiral.dfy`);
   - Wave, Radial, Tsunami and Metabolism (`curves.dfy`);
   - Galaxy (`galaxy.dfy`), Alternating (`alternating.dfy`) and
     Deconstruction (`deconstruction.dfy`);
   - Programmatic (`programmatic.dfy`) and Alphabet (`alphabet.dfy`);
   - the collage page's multi-letter layout (`letter_points.dfy`,
     `letter_layout.dfy`).

   `cityscape.dfy` dispatches on the layout.
4. **Adjacency band** (`adjacency.dfy`, `scene.dfy`). The fragment at rank r
   is linked to the fragments at ranks r−W..r+W, excluding itself and
   clipped to the valid range.
5. **Keyboard buffer and layout choice** (`keyboard.dfy`). Escape clears the
   typed text, Backspace drops its last letter, and a key whose upper case is
   one letter A–Z is appended. The collage layout is the typed text, else the
   filtered letters field, else `"Original"`.

Fragments are objects whose `orderedCenter`, `rank` and `connections` the
layouts and the adjacency pass update in place. They are modelled by the class
`Scene.Fragment`, and the methods that write them carry `modifies` clauses on
exactly those fields. Loops that build sequences are methods proved equal to a
specification function:

- the chunk filling;
- the spiral walk;
- the round-robin clusters;
- the segment search;
- the pixel scan, shuffle and sampling;
- the letter slices;
- the adjacency band.

Properties are then proved about those functions.

The fragmenter and the adjacency pass appear three times in the source, and
each copy is modelled once:

- decomposition: `app/0129/page.tsx:217-310`, `app/0122/page.tsx:168-261` and
  `app/page.tsx:374-512`;
- adjacency: `app/0129/page.tsx:637-654`, `app/0122/page.tsx:538-555` and
  `app/page.tsx:660-678`.

The twelve geometric layouts of `app/0122/page.tsx:329-535` are the same code
as `app/0129/page.tsx:380-586`. The rows below cite the 0129 copy.

Inputs the source takes from the outside world:

- `Math.random` becomes explicit sequences of draws in [0, 1).
- `sin`, `cos`, `exp`, `sqrt` and `PI` become a `MathLib` record of functions
  passed as a parameter. The lemmas that need facts about them assume only
  the identities they rely on:
  - `SqrtSound`: the non-negative square root.
  - `TrigSound`: sin² + cos² = 1, giving `Geometry.TrigBounded`.
  - `ExpSound`: exp(0) = 1, exp(1) > 1, and exp is non-decreasing on [0, 1].
    Tsunami's height curve (`Curves.TsunamiHeight`) relies on it.
- The rasterised canvas of a letter becomes an array of RGBA bytes.

## Model

| member | source | states |
|---|---|---|
| `Fragmenter.GridCoord` | app/0129/page.tsx:252-255 | the clamped floor of a centroid coordinate lies in [0,4), and the centroid lies in that cell except past the outer edges |
| `Fragmenter.FloorCellBounds` | app/0129/page.tsx:252-255 | a clamped cell index g has its cell's lower edge at or below the coordinate (g > 0) and its upper edge above it (g < 3) |
| `Fragmenter.TriangleChunk` | app/0129/page.tsx:243-257 | with positive cell sizes, every triangle's chunk index gridY*4+gridX lies in [0,16) |
| `Fragmenter.PushTriangle` | app/0129/page.tsx:259-268 | pushing j vertices of a triangle grows the chunk by exactly j vertices |
| `Fragmenter.PushTriangleNext` | app/0129/page.tsx:259-268 | the vertex loop pushes vertex 3t+j after the first j vertices |
| `Fragmenter.PushTriangleVertices` | app/0129/page.tsx:259-268 | a pushed triangle appends exactly its own three positions, in input order |
| `Fragmenter.Cells` | app/0129/page.tsx:246-257 | every triangle is assigned a chunk index in [0,16) |
| `Fragmenter.ChunksAfter` | app/0129/page.tsx:233-269 | the 16 chunks after t triangles, each the chunk its triangles were pushed into |
| `Fragmenter.FillChunks` | app/0129/page.tsx:233-269 | the triangle loop fills the 16 chunks exactly as the specification of the whole loop |
| `Fragmenter.AppendTriangle` | app/0129/page.tsx:259-268 | the inner loop appends triangle t's three vertices (with normals and uvs when present) to one chunk |
| `Fragmenter.ChunkAfterNext` | app/0129/page.tsx:246-269 | triangle t goes into its own chunk only; every other chunk is unchanged |
| `Fragmenter.ChunksHoldAllVertices` | app/0129/page.tsx:246-269 | after t triangles the chunks hold exactly 3t vertices in total |
| `Fragmenter.EmptyChunksHoldNothing` | app/0129/page.tsx:233-237 | the chunks start out empty |
| `Fragmenter.ChunkMembers` | app/0129/page.tsx:246-269 | every vertex of chunk k comes from a triangle whose chunk index is k |
| `Fragmenter.ChunkSizeStep` | app/0129/page.tsx:259-268 | a triangle adds three vertices to its own chunk and none to any other |
| `Fragmenter.Kept` | app/0129/page.tsx:271-286 | dropping empty chunks keeps at most as many chunks, all non-empty, with the same vertex total |
| `Fragmenter.KeptStep` | app/0129/page.tsx:271-286 | the filter over one more chunk appends that chunk exactly when it is non-empty |
| `Fragmenter.KeptIndicesIncreasing` | app/0129/page.tsx:271-286 | one source index per kept chunk, each in range, strictly increasing (grid order kept) |
| `Fragmenter.KeptAtIndices` | app/0129/page.tsx:271-286 | kept chunk i is the chunk at the i-th kept index |
| `Fragmenter.KeptAllNonEmpty` | app/0129/page.tsx:271-286 | every non-empty chunk is among the kept ones |
| `Fragmenter.KeptIsFilter` | app/0129/page.tsx:271-286 | the kept chunks are exactly the non-empty chunks, each once, in grid order |
| `Fragmenter.Height` | app/0129/page.tsx:282-285 | a chunk's height (z extent of its bounding box) is non-negative |
| `Fragmenter.MaxOf` | app/0129/page.tsx:288 | the maximum bounds every element and is attained |
| `Fragmenter.MaxHeight` | app/0129/page.tsx:288 | the tallest chunk's height bounds every kept chunk's height and is attained |
| `Fragmenter.Saliency` | app/0129/page.tsx:291 | height/maxHeight lies in [0,1], equals 1 exactly for the tallest, and is 0 when maxHeight is 0 |
| `Fragmenter.SaliencyMonotone` | app/0129/page.tsx:291 | a taller chunk never gets a smaller saliency |
| `Fragmenter.MeshChunks` | app/0129/page.tsx:229-269 | one mesh yields 16 chunks |
| `Fragmenter.Decompose` | app/0129/page.tsx:217-305 | one mesh's loop of fragments equals the specification FragmentsOf |
| `Fragmenter.FragmentsFromGeometries` | app/0129/page.tsx:271-305 | the fragments carry exactly the non-empty chunks, in chunk order |
| `Fragmenter.FragmentEntries` | app/0129/page.tsx:290-304 | fragment i is built from kept chunk i with the tallest kept chunk as maxHeight |
| `Fragmenter.DecomposeCounts` | app/0129/page.tsx:246-286 | one mesh yields at most 16 fragments, and their vertex total equals the mesh's vertex count |
| `Fragmenter.DecomposeWholeTriangles` | app/0129/page.tsx:246-286 | every fragment holds a positive whole number of triangles |
| `Fragmenter.ChunkWholeTriangles` | app/0129/page.tsx:259-268 | every chunk's vertex count is a multiple of three |
| `Fragmenter.KeptWholeTriangles` | app/0129/page.tsx:271-272 | every kept chunk holds at least one triangle |
| `Fragmenter.FragmentsFromSaliency` | app/0129/page.tsx:288-294 | saliencies lie in [0,1], follow height order, and a tallest fragment gets exactly 1 when it has positive height, all get 0 otherwise |
| `Fragmenter.FragmentsInRange` | app/0129/page.tsx:290-294 | every fragment's saliency lies in [0,1] |
| `Fragmenter.FragmentsFollowHeight` | app/0129/page.tsx:290-294 | saliency order agrees with height order |
| `Fragmenter.FragmentsTallestOne` | app/0129/page.tsx:288-294 | a tallest fragment gets saliency 1 when its height is positive; when it is flat, every fragment gets 0 |
| `Fragmenter.SaliencyNormalised` | app/0129/page.tsx:288-294 | for one mesh, saliencies are in [0,1], ordered by height, 1 for a tallest fragment of positive height, and all 0 when the tallest is flat |
| `Fragmenter.DecomposeModel` | app/0129/page.tsx:223-307 | traversing all meshes concatenates their fragments |
| `Fragmenter.ModelSaliencyInRange` | app/0129/page.tsx:223-307 | every fragment of the whole model has saliency in [0,1] |
| `Geometry.BoundsOf` | app/0129/page.tsx:367-368 | the bounding box of the base centres is ordered and contains every centre |
| `Geometry.BoundsOfTight` | app/0129/page.tsx:367-368 | each face of the bounding box is attained by some centre |
| `Geometry.Lerp` | app/0129/page.tsx:557-560 | interpolation at 0 gives the start and at 1 the end |
| `Geometry.PolarDistance` | app/0129/page.tsx:443-446 | a point at angle a and radius r from c lies at squared distance r² from c |
| `Frame.CellCentreInside` | app/0129/page.tsx:374-378 | mapGridToWorld puts cell (gx, gy) within that cell, on the ground plane, and inside the frame for cells 0..11 |
| `Frame.CeilSqrt` | app/0129/page.tsx:494 | gridDim = ceil(sqrt(num)): g² ≥ num and (g−1)² < num |
| `Frame.RowMajorInside` | app/0129/page.tsx:494-500 | with gridDim = ceil(sqrt(num)), index i < num has column and row below gridDim |
| `Frame.Progress` | app/0129/page.tsx:432 | index/(N−1) lies in [0,1], is 0 exactly at index 0 and 1 exactly at N−1 |
| `Frame.ProgressMonotone` | app/0129/page.tsx:432 | progress is non-decreasing in the index |
| `Adjacency.Band` | app/0129/page.tsx:640-643 | every entry is in range, not r, and within the offset window |
| `Adjacency.BandSplit` | app/0129/page.tsx:640-643 | the offset loop splits at any offset into the concatenation of its two parts |
| `Adjacency.BandIncreasing` | app/0129/page.tsx:640-643 | entries come in strictly increasing rank (offset) order |
| `Adjacency.BandMembers` | app/0129/page.tsx:640-643 | a rank is in the band iff it is in range, not r, and within the window |
| `Adjacency.UpperCount` | app/0129/page.tsx:640-643 | offsets 1..W contribute min(W, N−1−r) entries |
| `Adjacency.LowerCount` | app/0129/page.tsx:640-643 | offsets −W..−1 contribute min(W, r) entries |
| `Adjacency.NeighboursShape` | app/0129/page.tsx:640-653 | rank r gets min(W,r) + min(W,N−1−r) neighbours, increasing, never itself, exactly the in-range ranks within W |
| `Scene.Fragment.constructor` | app/0129/page.tsx:290-302 | a new fragment carries its saliency and base centre, with no target, rank or connections yet |
| `Scene.Written` | app/0129/page.tsx:401-406 | a layout that yields a target overwrites orderedCenter; one that yields none leaves it as it was |
| `Scene.Place` | app/0129/page.tsx:380-635 | writing targets sets each sorted fragment's orderedCenter to its target or keeps the earlier one, touching nothing else |
| `Scene.Snapshot` | app/0129/page.tsx:644-651 | the snapshot records each fragment's target, base centre and saliency |
| `Scene.LinkPosition` | app/0129/page.tsx:645-647 | a link goes to the neighbour's orderedCenter when not Original and set, otherwise to its base centre |
| `Scene.LinksTo` | app/0129/page.tsx:644-651 | one connection per listed neighbour, carrying its position and its randomness |
| `Scene.LinksToSnoc` | app/0129/page.tsx:648-651 | pushing one more neighbour appends its connection |
| `Scene.BandLinksTo` | app/0129/page.tsx:640-653 | the loop's connections are the connections to the adjacency band |
| `Scene.BuildConnections` | app/0129/page.tsx:639-653 | the offset loop builds exactly the band's connections |
| `Scene.SetRank` | app/0129/page.tsx:638-639 | a fragment's rank and connection list are set and nothing else changes |
| `Scene.RankAndConnect` | app/0129/page.tsx:637-654 | every sorted fragment gets rank = index and the connections of its band |
| `Scene.LinksShape` | app/0129/page.tsx:637-654 | each fragment's connection count is min(W,r)+min(W,N−1−r), in increasing neighbour order, each to the right neighbour |
| `Ranker.Insert` | app/0129/page.tsx:364 | inserting one index keeps a sequence of valid indices and adds exactly that index |
| `Ranker.InsertSorted` | app/0129/page.tsx:364 | inserting a later index behind all keys not smaller than its own keeps the order stable and descending |
| `Ranker.SortPrefix` | app/0129/page.tsx:364 | the first n indices sorted stably by descending key |
| `Ranker.SortOrder` | app/0129/page.tsx:364 | the sort order is a permutation of 0..N−1, descending by key, with ties in input order |
| `Ranker.Permute` | app/0129/page.tsx:364 | the sorted list holds the fragment at each position of the order |
| `Ranker.StableDescendingDistinct` | app/0129/page.tsx:364 | a stable descending order never lists an index twice |
| `Ranker.SortedKeysNonIncreasing` | app/0129/page.tsx:364 | keys along the sort order never increase, and every index appears |
| `Ranker.StableDescendingUnique` | app/0129/page.tsx:364 | there is only one stable descending permutation, so the sort's result is determined |
| `GridLayout.FragmentsPerArea` | app/0129/page.tsx:386 | ceil(N/16) is the least f ≥ 1 with 16f ≥ N |
| `GridLayout.AreaIndex` | app/0129/page.tsx:388 | areaIndex < 16 for every index |
| `GridLayout.GridCell` | app/0129/page.tsx:388-395 | (finalX, finalY) is non-negative, and inside [0,12)² when N ≤ 144 |
| `GridLayout.AreaCellBounds` | app/0129/page.tsx:390-395 | an area below 16 and a slot below 9 give a cell in [0,12)² |
| `GridLayout.CellDigits` | app/0129/page.tsx:390-395 | a cell's area and slot can be read back from its coordinates |
| `GridLayout.GridCellInverse` | app/0129/page.tsx:388-395 | for N ≤ 144 the rank is recovered from its cell |
| `GridLayout.GridCellsDistinct` | app/0129/page.tsx:384-396 | for N ≤ 144 distinct ranks get distinct cells |
| `GridLayout.GridOwnArea` | app/0129/page.tsx:386-395 | for N ≤ 16 each fragment gets its own area, at that area's first cell |
| `GridLayout.GridOverlapPast144` | app/0129/page.tsx:386-395 | for N = 145, ranks 9 and 40 share cell (0,3) |
| `GridLayout.GridCellOfArea` | app/0129/page.tsx:388-395 | a rank's cell is the cell of its area and its slot in that area |
| `Spiral.StepUnit` | app/0129/page.tsx:407-410 | a turn maps (dx,dy) to (−dy,dx), and each step moves one unit along an axis |
| `Spiral.HeadingUnit` | app/0129/page.tsx:399-410 | starting from (0,−1), the heading is always a unit axis vector |
| `Spiral.StepsAreUnit` | app/0129/page.tsx:399-410 | consecutive walk positions differ by exactly one unit |
| `Spiral.WalkRing` | app/0129/page.tsx:399-410 | step (2k−1)²+t of the walk is position t of ring k |
| `Spiral.RingStep` | app/0129/page.tsx:399-410 | a lattice point's position along its ring is below the ring's length 8k |
| `Spiral.RingStepState` | app/0129/page.tsx:399-410 | every lattice point is reached by its ring and ring position |
| `Spiral.RingStateStep` | app/0129/page.tsx:399-410 | the ring and ring position of a point on ring k are recovered from its coordinates |
| `Spiral.WalkIndex` | app/0129/page.tsx:399-410 | the step number of the walk's i-th position is i |
| `Spiral.WalkReaches` | app/0129/page.tsx:399-410 | every lattice point is visited by the walk |
| `Spiral.WalkInjective` | app/0129/page.tsx:399-410 | the walk never visits a point twice |
| `Spiral.WindowIndex` | app/0129/page.tsx:402 | a point lies in the window −6 < x, y ≤ 6 iff its step number is below 144 |
| `Spiral.WindowCoverage` | app/0129/page.tsx:401-406 | step i lies in the window iff i < 144 |
| `Spiral.WindowCovered` | app/0129/page.tsx:401-406 | every point of the window is visited within the first 144 steps |
| `Spiral.GridOf` | app/0129/page.tsx:402-404 | a point gets a grid cell iff it lies in the window, and that cell is (x+6, y+6) in [1,12]² |
| `Spiral.PlaceCell` | app/0129/page.tsx:402-406 | the guarded write yields the cell of the current point or nothing |
| `Spiral.Advance` | app/0129/page.tsx:407-410 | one loop iteration updates x, y, dx, dy as one step of the walk |
| `Spiral.SpiralWalk` | app/0129/page.tsx:399-411 | the loop yields, for each index, the cell of the walk's position at that step |
| `Spiral.SpiralPlacement` | app/0129/page.tsx:398-411 | index i gets a cell iff i < 144, and distinct indices get distinct cells |
| `Spiral.SpiralFillsGrid` | app/0129/page.tsx:398-411 | every cell of [1,12]² is given to exactly the index that reaches it, below 144 |
| `Curves.SweepMonotone` | app/0129/page.tsx:433 | min.x + p·size.x stays in the frame, starts at min.x and ends at max.x |
| `Curves.WaveSweep` | app/0129/page.tsx:427-436 | Wave's x is non-decreasing in rank, from min.x at rank 0 to max.x at rank N−1 |
| `Curves.WaveHeight` | app/0129/page.tsx:429-434 | Wave's y stays within the middle two thirds of the frame |
| `Curves.TsunamiSweep` | app/0129/page.tsx:474-483 | the reversed walk makes x non-increasing in rank, max.x at rank 0 and min.x at rank N−1 |
| `Curves.TsunamiHeight` | app/0129/page.tsx:478-481 | Tsunami's y stays in the frame, from max.y at rank 0 down to min.y at rank N−1 |
| `Curves.RadialRadiusGrows` | app/0129/page.tsx:440-442 | the radius is non-decreasing in rank, from 0 to min(size.x, size.y)/2 |
| `Curves.RadialDistance` | app/0129/page.tsx:439-446 | each Radial point lies at exactly its radius from the frame's centre |
| `Curves.MetabolismRise` | app/0129/page.tsx:545-546 | Metabolism's y is non-decreasing in rank, from min.y to max.y |
| `Curves.MetabolismBand` | app/0129/page.tsx:541-548 | Metabolism's x stays within an eighth of the frame's width from either side |
| `Galaxy.DealRoundRobin` | app/0129/page.tsx:460-462 | cluster k receives exactly the ranks ≡ k (mod 5), in increasing order |
| `Galaxy.ClustersBalanced` | app/0129/page.tsx:460-462 | cluster sizes differ by at most one, and earlier clusters are not smaller |
| `Galaxy.DealCovers` | app/0129/page.tsx:460-462 | every rank lands in cluster r mod 5 at position r div 5 |
| `Galaxy.ClustersHoldAll` | app/0129/page.tsx:460-462 | the five clusters together hold all N ranks |
| `Galaxy.DrawInCluster` | app/0129/page.tsx:464-468 | the random draw of rank r is taken while its own cluster is walked |
| `Galaxy.DrawIndexBelow` | app/0129/page.tsx:464-468 | every fragment's draw index is below N |
| `Galaxy.DrawIndexInjective` | app/0129/page.tsx:464-468 | no two fragments share a draw |
| `Galaxy.WalkClusters` | app/0129/page.tsx:464-473 | the nested cluster loops assign each rank its draw index |
| `Galaxy.WalkCluster` | app/0129/page.tsx:466-472 | walking cluster k assigns the draws of its members and leaves other ranks alone |
| `Galaxy.GalaxyLayout` | app/0129/page.tsx:448-473 | every rank gets the point scattered from its cluster's centre by its own draw |
| `Galaxy.CentreInFrame` | app/0129/page.tsx:451-456 | a cluster centre drawn in [0,1)² lies in the frame, on the ground plane |
| `Galaxy.NearItsCluster` | app/0129/page.tsx:464-472 | every fragment lies within size.x/10 of its cluster centre, strictly so for a non-flat frame |
| `Galaxy.ScatterDistance` | app/0129/page.tsx:465-471 | a scatter with radius draw in [0,1) stays within clusterRadius |
| `Alternating.ParityRanks` | app/0129/page.tsx:485-486 | the odd/even filters keep exactly the ranks 2i+parity, in order |
| `Alternating.RankInGroup` | app/0129/page.tsx:485-486 | rank r is entry r div 2 of its parity group |
| `Alternating.CellCentreInSpan` | app/0129/page.tsx:501-502 | a cell centre lies within the group box's span |
| `Alternating.CellCentreInjective` | app/0129/page.tsx:501-502 | distinct columns give distinct centres in a non-empty span |
| `Alternating.GroupCellInside` | app/0129/page.tsx:489-505 | every cell of a group lies inside its half box |
| `Alternating.GroupCellsDistinct` | app/0129/page.tsx:498-504 | distinct members of a group get distinct cells |
| `Alternating.AlternatingSides` | app/0129/page.tsx:484-517 | odd ranks land in the left half and even ranks in the right half of the frame |
| `Alternating.AlternatingDistinct` | app/0129/page.tsx:484-517 | in a non-flat frame no two ranks share a position |
| `Deconstruction.GridOffsetSymmetric` | app/0129/page.tsx:524-525 | centred grid offsets are symmetric and vanish only at the middle column |
| `Deconstruction.RotateKeepsLength` | app/0129/page.tsx:532 | the rotation about z keeps the length and the z coordinate |
| `Deconstruction.CentreCellStays` | app/0129/page.tsx:523-537 | the middle cell stays on the frame's centre whatever its saliency |
| `Deconstruction.ZeroStays` | app/0129/page.tsx:532-535 | rotating and pushing out the zero vector leaves it at zero |
| `Deconstruction.PushOutLength` | app/0129/page.tsx:534-535 | pushing along the unit direction lengthens by exactly the displacement |
| `Deconstruction.MovedToCentre` | app/0129/page.tsx:537 | adding the centre makes the distance from the centre the vector's length |
| `Deconstruction.PushedOutward` | app/0129/page.tsx:523-537 | any other cell ends at distance len + 50·randomness from the centre |
| `Programmatic.TierSizes` | app/0129/page.tsx:552-554 | the three tiers partition the ranks, with top ≤ middle ≤ low |
| `Programmatic.TierIndexBounds` | app/0129/page.tsx:552-554 | a rank's index within its tier lies below that tier's size |
| `Programmatic.TierIndexInjective` | app/0129/page.tsx:552-554 | tier and index within the tier identify the rank (contiguous, in order) |
| `Programmatic.TopOnEdge` | app/0129/page.tsx:557-561 | the top tier runs left to right along the frame's top edge, from min.x to max.x |
| `Programmatic.CellStartInSpan` | app/0129/page.tsx:569-574 | a cell's corner lies within its span |
| `Programmatic.MiddleInQuarter` | app/0129/page.tsx:564-575 | the middle tier lies in the lower-left quarter block |
| `Programmatic.LowOnDisc` | app/0129/page.tsx:578-585 | the low tier's i-th point lies at squared distance (i/len)·R² from the disc centre |
| `Programmatic.LowInsideDisc` | app/0129/page.tsx:578-585 | every low-tier point lies strictly inside the circle of radius size.x/5 |
| `Programmatic.ShareBelowOne` | app/0129/page.tsx:581-582 | i/len lies in [0,1) |
| `Programmatic.LowMovesOutward` | app/0129/page.tsx:580-585 | later low-tier points lie no nearer the centre |
| `Alphabet.LettersWellFormed` | app/0129/page.tsx:34-61 | every letter's path has at least two points, all in [0,1]² |
| `Alphabet.LettersAToD` | app/0129/page.tsx:35-38 | the paths of A to D are well formed |
| `Alphabet.LettersEToH` | app/0129/page.tsx:39-42 | the paths of E to H are well formed |
| `Alphabet.LettersIToL` | app/0129/page.tsx:43-46 | the paths of I to L are well formed |
| `Alphabet.LettersMToP` | app/0129/page.tsx:47-50 | the paths of M to P are well formed |
| `Alphabet.LettersQToT` | app/0129/page.tsx:51-54 | the paths of Q to T are well formed |
| `Alphabet.LettersUToZ` | app/0129/page.tsx:55-60 | the paths of U to Z are well formed |
| `Alphabet.SegmentLengthsOf` | app/0129/page.tsx:594-600 | one segment length per consecutive pair of points |
| `Alphabet.LengthsNonNegative` | app/0129/page.tsx:597 | every segment length is non-negative |
| `Alphabet.SegmentLengths` | app/0129/page.tsx:592-600 | the first loop yields the segment lengths and their total |
| `Alphabet.LocateFrom` | app/0129/page.tsx:606-616 | the search yields a segment index below the segment count |
| `Alphabet.FindSegment` | app/0129/page.tsx:606-616 | the search loop with its early exit agrees with the search function |
| `Alphabet.LocateFromFound` | app/0129/page.tsx:606-616 | from any segment, a reachable distance is found in a segment whose span holds it |
| `Alphabet.LocateFound` | app/0129/page.tsx:604-616 | for 0 ≤ targetDist ≤ totalLength, accumulatedDist ≤ targetDist ≤ accumulatedDist + len |
| `Alphabet.ProgressWithin` | app/0129/page.tsx:619-621 | segmentProgress lies in [0,1] |
| `Alphabet.AlongBetween` | app/0129/page.tsx:627-628 | interpolating two points of the unit square stays in it |
| `Alphabet.ToFrameInside` | app/0129/page.tsx:630-631 | a unit-square point with y flipped lands inside the frame |
| `Alphabet.TargetWithinPath` | app/0129/page.tsx:604 | every rank's target distance lies in [0, totalLength] |
| `Alphabet.PathPointInUnitSquare` | app/0129/page.tsx:603-628 | every rank's normalised point stays in the unit square |
| `Alphabet.AlphabetInFrame` | app/0129/page.tsx:587-634 | every rank lands inside the frame, on the ground plane |
| `Alphabet.FirstRankStartsLetter` | app/0129/page.tsx:603-628 | rank 0 lands on the path's first point |
| `Alphabet.LastRankEndsLetter` | app/0129/page.tsx:603-628 | rank N−1 lands on the path's last point, even past trailing zero-length segments |
| `Alphabet.LastSegmentFound` | app/0129/page.tsx:610-616 | searching for the total length finds a segment ending at it, with only zero-length segments after |
| `Alphabet.AlphabetEnds` | app/0129/page.tsx:603-633 | ranks 0 and N−1 land on the letter's first and last points, with y flipped |
| `Alphabet.SequenceIsLetters` | app/0129/page.tsx:31 | LIVING_GEOMETRY_SEQUENCE has 14 entries, all letters A–Z |
| `Alphabet.NextSequenceIndex` | app/0129/page.tsx:894 | (prev+1) % 14 is always an index into the sequence |
| `Alphabet.TicksCycle` | app/0129/page.tsx:893-895 | k ticks from a valid index reach (start+k) % 14 |
| `Alphabet.DisplayedLetter` | app/0129/page.tsx:901-903 | the selected letter is the sequence entry under auto-sequence, otherwise the manual choice |
| `LetterPoints.RedInImage` | app/page.tsx:87 | the red byte of every pixel lies inside the RGBA buffer |
| `LetterPoints.ScanPixels` | app/page.tsx:84-92 | the scan loops yield exactly the specification's list of bright pixels |
| `LetterPoints.PixelOnCanvas` | app/page.tsx:89 | a kept point has x = col/size in [0,1) and y = 1 − row/size in (0,1] |
| `LetterPoints.PixelPointInjective` | app/page.tsx:89 | distinct pixels give distinct points |
| `LetterPoints.BrightInRow` | app/page.tsx:86-90 | a pixel with red > 128 is pushed by its row's scan |
| `LetterPoints.DarkNotInRow` | app/page.tsx:88 | a pixel with red ≤ 128 is pushed by no row's scan |
| `LetterPoints.ScanKeepsBright` | app/page.tsx:84-92 | a pixel's point is kept iff its red byte is > 128, and all kept points are on the canvas |
| `LetterPoints.ScanLength` | app/page.tsx:84-92 | the scan keeps at most size² points |
| `LetterPoints.SwapIndex` | app/page.tsx:98 | floor(random·(i+1)) ≤ i |
| `LetterPoints.Swap` | app/page.tsx:99 | the swap exchanges entries i and j and changes nothing else |
| `LetterPoints.Exchange` | app/page.tsx:99 | the in-place swap on the array matches the swap on its contents |
| `LetterPoints.Shuffle` | app/page.tsx:97-100 | the Fisher–Yates loop leaves the array as the specification's shuffle |
| `LetterPoints.SwapPermutes` | app/page.tsx:99 | a swap keeps the multiset of entries |
| `LetterPoints.ShuffleFromPermutes` | app/page.tsx:97-100 | every tail of the loop keeps the multiset of entries |
| `LetterPoints.ShufflePermutes` | app/page.tsx:97-100 | the shuffled pixels are a permutation of the scanned ones |
| `LetterPoints.SampleIndexBelow` | app/page.tsx:107-110 | floor(i·len/numPoints) < len for i < numPoints |
| `LetterPoints.SampleIndexIncreasing` | app/page.tsx:107-110 | with numPoints < len, consecutive sample indices strictly increase |
| `LetterPoints.SampleIndexChain` | app/page.tsx:107-110 | sample indices strictly increase across any two positions |
| `LetterPoints.SampleEvenly` | app/page.tsx:103-114 | the sampling loop yields the specification's sample |
| `LetterPoints.SampleShape` | app/page.tsx:103-114 | all points when there are at most numPoints, otherwise exactly numPoints taken at strictly increasing indices below len |
| `LetterPoints.SampleFrom` | app/page.tsx:109-112 | every sampled point is one of the pixels |
| `LetterPoints.GetLetterPoints` | app/page.tsx:60-115 | scan, shuffle and sample together yield the specification's letter points |
| `LetterPoints.LetterPointsCount` | app/page.tsx:94-114 | no bright pixels give no points, few give all, many give exactly numPoints |
| `LetterPoints.LetterPointsLit` | app/page.tsx:84-114 | every returned point is a bright pixel on the canvas |
| `LetterLayout.LetterStartClosed` | app/page.tsx:623-632 | the slice of letter idx starts at idx·floor(N/L) + min(idx, N mod L) |
| `LetterLayout.SlicesPartition` | app/page.tsx:608-632 | the slices end at N, and counts differ by at most one, with the extras on the first letters |
| `LetterLayout.StartMonotone` | app/page.tsx:623-632 | fragmentIndex never moves backwards |
| `LetterLayout.LetterOfFrom` | app/page.tsx:625-632 | every rank lies in the slice of some later letter |
| `LetterLayout.SliceOf` | app/page.tsx:625-632 | each rank lies in exactly one letter's contiguous slice |
| `LetterLayout.OffsetsCentred` | app/page.tsx:619-636 | consecutive offsets differ by scaledSizeX + letterGap, and the first and last sum to 0 |
| `LetterLayout.GlyphsOf` | app/page.tsx:634 | one glyph point list per letter |
| `LetterLayout.LettersLayout` | app/page.tsx:606-657 | the letter loop gives every rank its letter's target |
| `LetterLayout.FillSlice` | app/page.tsx:625-656 | one letter's pass writes exactly the ranks of its slice |
| `LetterLayout.PointIndexInRange` | app/page.tsx:634-640 | a letter gets at most count points, and with enough pixels index % |points| is the index itself |
| `LetterLayout.DarkGlyphFallsBack` | app/page.tsx:651-655 | a letter with no bright pixels sends its fragments back to their base centres |
| `LetterLayout.JitterBounded` | app/page.tsx:641-648 | the added jitter on each axis lies in the closed range [0, cellWidth·letterJitter], and strictly below the top when that span is positive |
| `LetterLayout.GlyphInLetterBox` | app/page.tsx:642-648 | before jitter, a glyph point lies within its letter's box around the letter's centre |
| `Keyboard.Upper` | app/page.tsx:965 | upper-casing a character gives at least one character |
| `Keyboard.UpperLonger` | app/page.tsx:965 | upper-casing never shortens a string |
| `Keyboard.UpperConcat` | app/page.tsx:1010-1011 | upper-casing distributes over concatenation |
| `Keyboard.UpperOfLetters` | app/page.tsx:965-967 | upper-casing leaves A–Z text unchanged |
| `Keyboard.TypedLetterKeys` | app/page.tsx:965-967 | a key is accepted iff it is one character whose upper case is one letter A–Z, and it yields that letter |
| `Keyboard.KeyDown` | app/page.tsx:952-969 | a buffer of letters A–Z stays one after any key |
| `Keyboard.KeyDownEffect` | app/page.tsx:952-969 | form fields and other keys leave the buffer, Escape clears it, Backspace drops one letter (none on ""), and a letter is appended |
| `Keyboard.BackspaceUndoes` | app/page.tsx:961-967 | Backspace after a typed letter restores the buffer |
| `Keyboard.ReplayLetters` | app/page.tsx:951-972 | any sequence of key events keeps an A–Z buffer A–Z |
| `Keyboard.ReplayConcat` | app/page.tsx:951-972 | replaying two event sequences is replaying one after the other |
| `Keyboard.EscapeForgets` | app/page.tsx:957-960 | after Escape the buffer no longer depends on earlier keys |
| `Keyboard.LetterPress` | app/page.tsx:965-968 | pressing a letter key appends its upper case |
| `Keyboard.TypeWord` | app/page.tsx:965-968 | typing a word of letters appends the word in upper case |
| `Keyboard.Keep` | app/page.tsx:1012 | removing non-letters gives A–Z text no longer than the input |
| `Keyboard.KeepConcat` | app/page.tsx:1012 | the filter distributes over concatenation |
| `Keyboard.KeepLetters` | app/page.tsx:1012 | the filter leaves A–Z text unchanged |
| `Keyboard.FilterIdempotent` | app/page.tsx:1010-1012 | the letters field is unchanged by filtering iff it is A–Z, and filtering twice is filtering once |
| `Keyboard.FilterConcat` | app/page.tsx:1010-1012 | upper-case-and-filter distributes over concatenation |
| `Keyboard.SelectLayoutCases` | app/page.tsx:1010-1018 | typed text wins, else filtered letters, else Original; a letters layout is non-empty A–Z and never "Original" |
| `Cityscape.Keys` | app/0129/page.tsx:364 | the sort keys are the fragments' saliencies, in order |
| `Cityscape.Bases` | app/0129/page.tsx:367 | the base centres of the fragments, in order |
| `Cityscape.TargetsFor` | app/0129/page.tsx:380-635 | one target (or none) per sorted fragment for the chosen layout |
| `Cityscape.WrittenRanks` | app/0129/page.tsx:380-635 | only Spiral ranks ≥ 144 and Hurricane ranks ≤ N−145 get no target; Original targets the base centre |
| `Cityscape.SpiralTargetsDistinct` | app/0129/page.tsx:398-426 | in a non-flat frame Spiral and Hurricane never give two ranks the same position |
| `Cityscape.CellCentresDistinct` | app/0129/page.tsx:374-378 | in a non-flat frame distinct cells map to distinct centres |
| `Cityscape.LayoutTargets` | app/0129/page.tsx:380-635 | the loop-based layouts (Spiral, Hurricane, Galaxy) compute exactly the specification's targets; the closed-form layouts are computed by their specification functions |
| `Cityscape.SpiralTargets` | app/0129/page.tsx:398-411 | the spiral loop's writes are Spiral's targets, rank by rank |
| `Cityscape.HurricaneTargets` | app/0129/page.tsx:412-426 | the reversed spiral loop's writes are Hurricane's targets, rank by rank |
| `Cityscape.HurricaneReadsBack` | app/0129/page.tsx:412-426 | Hurricane's target for rank r is the spiral walk's cell at step N−1−r |
| `Cityscape.GalaxyTargets` | app/0129/page.tsx:448-473 | the cluster loops' writes are Galaxy's targets, rank by rank |
| `Cityscape.ApplyLayout` | app/0129/page.tsx:380-635 | each sorted fragment's orderedCenter becomes its target, or stays when there is none |
| `Cityscape.SortedOf` | app/0129/page.tsx:364 | the sorted copy has the same length and only the given fragments |
| `Cityscape.SortFragments` | app/0129/page.tsx:364 | the sorted copy is a duplicate-free rearrangement, non-increasing in randomness |
| `Cityscape.Arrange` | app/0129/page.tsx:348-657 | the effect sorts, writes the layout's targets into orderedCenter, and sets ranks 0..N−1 with their band connections |
| `Cityscape.PageTargets` | app/page.tsx:601-657 | one target per sorted fragment on the collage page |
| `Cityscape.ApplyLetters` | app/page.tsx:601-657 | Original copies base centres; otherwise every fragment gets its letter's target |
| `Cityscape.ArrangeLetters` | app/page.tsx:567-681 | the collage effect sorts, lays out letters, and sets ranks and band connections |

## Left out

- React components, hooks, JSX, Leva controls, the SVG titles, rendering, springs, line geometry and material effects are UI plumbing with no pipeline logic.
- OBJ/MTL loading and material re-creation are foreign three.js loaders; meshes are given as position arrays with optional normals and uvs.
- PNG/SVG export is I/O over the renderer.
- The `setInterval` timer and the `window` keydown listener are left out. Only the index update (`Alphabet.NextSequenceIndex`) and the key transition (`Keyboard.KeyDown`) are modelled.
- Canvas text rasterisation and `getImageData` are a browser API. `LetterPoints.GetLetterPoints` takes the RGBA bytes as input, so the early `[]` returns for a missing `window` or 2-D context are not modelled.
- `Math.random` is a sequence of draws in [0, 1) passed in, one stream per call site, not a generator.
- sin, cos, exp, sqrt and PI are parameters with only the identities the lemmas need. No statement is made about IEEE rounding. In particular `LetterPoints.SampleIndex` uses exact rational division where the source computes `i * (len / numPoints)` in floating point.
- Programmatic's `floor(N * 0.2)` and `floor(N * 0.4)` are modelled as N div 5 and 2N div 5. These agree for every N a page can hold, but this is not proved for doubles.
- Frame.CeilSqrt: `Math.ceil(Math.sqrt(n))` is modelled as the exact integer ceiling square root.
- Cityscape.Arrange: requires N >= 2 for Wave, Radial, Metabolism, Tsunami and Alphabet, because the source divides by N−1 unguarded; the NaN targets of a one-fragment scene are not modelled.
- Cityscape.Arrange: requires exp(1) > 1 for Tsunami, because the source divides by exp(1) − 1.
- Programmatic.ProgrammaticPoint: requires that the top tier never has length 1, because i/(topTier.length−1) is then 0/0; where that one fragment goes is not modelled.
- Fragmenter.TriangleChunk: requires positive cell sizes; a mesh flat in x or y gives a zero cell size and a NaN chunk index in the source.
- Deconstruction.PushedOutward: requires a non-zero base offset; the zero (middle-cell) case is stated separately by Deconstruction.CentreCellStays, since three.js normalises the zero vector to zero.
- Alphabet's fallbacks (`letterCoords[segmentIndex + 1] || startCoord`, and segment 0 when no segment reaches the distance) are modelled but never taken: `Alphabet.LocateFound` shows that the search always succeeds.
- LetterLayout.LettersLayout: an empty letters layout (L = 0) writes no targets. The source would compute NaN counts, but `Keyboard.SelectLayoutCases` shows that layout is never chosen.
- Keyboard.Upper: models `toUpperCase` for a–z, A–Z, ß (to "SS"), dotless ı (to "I") and long ſ (to "S"). Every other character is left unchanged, which is all the A–Z filter can observe of them, except characters whose upper case contains a letter A–Z, for instance the ligatures ﬀ ﬁ ﬂ ﬃ ﬄ ﬅ ﬆ and ŉ, ǰ, ẖ, ẗ, ẘ, ẙ, ẚ. The source upper-cases each of them to several characters holding one or more of A–Z (ﬁ to "FI", ǰ to J and a combining caron). As a typed key such a character is rejected in both, since the result is not one letter; in the letters field the source keeps those letters where the model drops the character.
- Per-letter shuffle draws and per-rank jitter draws are inputs. Their consumption order in the source is not modelled, only that each fragment uses its own draws. Galaxy's draws are consumed in the order of its nested cluster loops (`Galaxy.WalkClusters`).
- The sort is the platform's stable sort. It is modelled by its specification (`Ranker.SortOrder`, a stable insertion order, unique by `Ranker.StableDescendingUnique`) and not by the engine's algorithm.
- Cityscape.SortedOf: states only length and membership in its own contract. That it is stable and descending is stated by `Ranker.SortOrder` and `Cityscape.SortFragments`.
