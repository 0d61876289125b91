# Breadth-first search: sequential and fork-join parallel

This project models the breadth-first search core of `src/BFSs.kt`, which
has five parts:

- **`Graph`** is an immutable adjacency list.
- **`seqBFS`** is the textbook queue-based search.
- **`pfor`** is a divide-and-conquer parallel loop.
- **`pscan`** is a two-pass tree prefix sum. `countSums` builds subtree sums bottom-up in a heap-indexed scratch array. `propSums` pushes the running prefixes back down.
- **`pBFS`** is a layer-synchronous parallel search. For each frontier it:
  1. computes the degrees of the frontier vertices;
  2. scans them into write offsets;
  3. claims every unclaimed neighbour with a compare-and-set;
  4. writes each claimed neighbour into its own slot;
  5. filters the empty slots out to get the next frontier.
- **`makeCubeGraph`** builds the 3-D grid graph.

The model also covers the test drivers of `main`: the 17-vertex graph of
`testBFS`, the `pfor` counter of `testPfor` and the scan of ones of
`testPScan`. `main` itself runs only `testLarge`, which times the two searches
on a cube graph; the `contentEquals` comparison in it is commented out (line
195). `Searches.TestCube` proves the agreement that comparison would have
checked.

## Modules

| Module | File | What it holds |
|---|---|---|
| `Graphs` | `graph.dfy` | The graph datatype, plus `Valid`: every neighbour id is a vertex. |
| `ParallelFor` | `pfor.dfy` | `pfor` with its forked halves run left then right, proved equal to the plain loop. |
| `ParallelScan` | `pscan.dfy` | `countSums`, `propSums` and `pscan`, with the scratch array and tree indexing of the source. |
| `Reach` | `reach.dfy` | The reference meaning of a distance: the layers `Level(g, s, k)`, and `Dist`, the shortest walk length or 0 when unreachable. |
| `SequentialBfs` | `seqbfs.dfy` | `seqBFS` as a method with a FIFO queue, a visited set and loop invariants. |
| `ParallelBfs` | `pbfs.dfy` | One layer of `pBFS` as a method (offsets, buffer, claim pass, filter), the layer loop, its correctness proof, and the counterexample below. |
| `CubeGraph` | `cube.dfy` | `makeCubeGraph`, its index/coordinate round trip, neighbour characterisation, validity and symmetry. |
| `Searches` | `searches.dfy` | The two searches compared on the graphs of `testBFS` and `testLarge`, and on every valid graph. |

## Model

| member | source | states |
|---|---|---|
| Graphs.Graph.Size | src/BFSs.kt:9-10 | `val size`: the number of vertices, the length of the adjacency array. |
| Graphs.Graph.Neighbours | src/BFSs.kt:7 | `neighbours(i)`: the adjacency list of vertex `i`, defined for every vertex. |
| ParallelFor.Half | src/BFSs.kt:42 | Kotlin's `/ 2` rounds toward zero. For a non-negative argument the remainder is 0 or 1; for a negative one it is 0 or -1. |
| ParallelFor.Mid | src/BFSs.kt:42 | The split point `(start + end) / 2`, with Kotlin's rounding. For `start <= end` it lies in `[start, end]`. |
| ParallelFor.MidSplitsStrictly | src/BFSs.kt:38-42 | A range at or above a threshold of at least 2 has its midpoint strictly inside, so both forked halves are shorter and the recursion ends. |
| ParallelFor.ThresholdOneStalls | src/BFSs.kt:38-44 | With threshold 1, a one-element range is split again, and one half is the whole range. This is why the threshold must be at least 2. |
| ParallelFor.Loop | src/BFSs.kt:39 | The leaf loop `for (i in start until end) call(i)`, as a state transformer. `LoopSplit` and `LoopRecords` state its meaning. |
| ParallelFor.LoopSplit | src/BFSs.kt:39 | Looping over `[a, m)` and then `[m, b)` has the same effect as looping over `[a, b)`. |
| ParallelFor.Pfor | src/BFSs.kt:37-47 | For every threshold of at least 2, the fork-join recursion has exactly the effect of the sequential loop `call(start) … call(end - 1)`. |
| ParallelFor.LoopRecords | src/BFSs.kt:39 | The leaf loop hands `call` the indices `start, start + 1, …, end - 1`, in that order. |
| ParallelFor.PforVisitsEachIndexOnce | src/BFSs.kt:37-47 | `pfor` hands every index of `[start, end)` to `call` exactly once, in increasing order, and no other index. An empty or reversed range makes no call. |
| ParallelFor.PforIncrementsEachCellOnce | src/BFSs.kt:167-170 | In `testPfor`, `pfor { ar[it]++ }` raises every cell in the range by exactly one and leaves every other cell unchanged. |
| ParallelScan.SumsSize | src/BFSs.kt:52 | The scratch-array size `data.size * 4 / T + 2 * T`; it has at least `2 * T` cells. |
| ParallelScan.FitsParts | src/BFSs.kt:62-64 | If a subtree's indices fit the scratch array, so do its root and both children's subtrees (`2 * idx`, `2 * idx + 1`). |
| ParallelScan.HalvesDisjoint | src/BFSs.kt:62-66 | The two forked `countSums` calls touch disjoint sets of tree nodes, and neither touches the parent node, so the parallel writes do not race. |
| ParallelScan.SumsCorrectFrame | src/BFSs.kt:63-66 | A subtree's sums stay correct while only nodes outside that subtree are written. |
| ParallelScan.CombineSums | src/BFSs.kt:67 | Once both children's subtrees hold their range sums, `sums[idx] = sums[2 * idx] + sums[2 * idx + 1]` makes the whole subtree correct. |
| ParallelScan.CountSums | src/BFSs.kt:55-68 | Afterwards, every node of the subtree holds the sum of its range of `data`, and no cell outside the subtree changes. |
| ParallelScan.LeafScan | src/BFSs.kt:71-77 | The leaf loop writes `res[k] = acc + sum(data[i..k])` for each `k` in `(i, r]` and writes no other cell. |
| ParallelScan.PropSums | src/BFSs.kt:70-84 | If the sums are correct, `propSums(l, r, idx, acc)` sets `res[k] = acc + sum(data[l..k])` for `k` in `(l, r]` and writes nothing else. |
| ParallelScan.ScanWith | src/BFSs.kt:51-89 | Whenever the scratch array holds every touched node, the two passes return the exclusive prefix sums: `res[i]` is the sum of the first `i` elements. |
| ParallelScan.TreeFitsAtDefaultThreshold | src/BFSs.kt:49-52 | At the default threshold `2^14`, the scratch array is large enough for every node the passes touch, for every array length up to `Int.MAX_VALUE`, with the size formula over mathematical integers. In Kotlin `data.size * 4` wraps from `2^29` on, so there the promise holds only below `2^29`. |
| ParallelScan.SmallThresholdOverruns | src/BFSs.kt:52 | The size formula depends on a large threshold. With threshold 2 and five elements the passes touch node 15, but the scratch array has only 14 cells. |
| ParallelScan.Pscan | src/BFSs.kt:51-89 | `pscan` returns `|data| + 1` values, starting at 0, each adding the next element; entry `i` is the sum of the first `i` elements and the last is the total. |
| ParallelScan.ScanOfOnes | src/BFSs.kt:173-176 | In `testPScan`, the scan of `n` ones is `0, 1, …, n`. |
| Reach.UptoByLevel | src/BFSs.kt:24-30 | The vertices within `d + 1` edges are those within `d` edges plus the successors of layer `d`. This is the step both searches take. |
| Reach.LevelDist | src/BFSs.kt:29 | A vertex in layer `k` has distance `k`. |
| Reach.DistOfStart | src/BFSs.kt:22 | The start has distance 0. |
| Reach.UnreachedDist | src/BFSs.kt:19 | A vertex not reached within `size` layers keeps the array default 0. |
| Reach.DistIsShortestWalk | src/BFSs.kt:17-33 | `Dist(s, v)` is at most the length of every walk from `s` to `v`, and some walk has exactly that length. |
| Reach.UnreachableDist | src/BFSs.kt:19 | A vertex no walk from the start reaches has distance 0. |
| SequentialBfs.Discover | src/BFSs.kt:27-29 | Marking, enqueueing and labelling an unseen vertex of the next layer keeps two facts. The distances stay layered, and the queue stays distinct and sorted by distance within two adjacent layers. |
| SequentialBfs.EnqueueUnseen | src/BFSs.kt:27-28 | Appending a newly marked vertex keeps the queue an extension of the old one by vertices that were unseen at the start. |
| SequentialBfs.VisitNeighbours | src/BFSs.kt:26-30 | After the inner loop, every neighbour of `vert` is visited and the distances stay layered. Only unvisited vertices are appended, so no vertex enters the queue twice, and the queue stays ordered. |
| SequentialBfs.Poll | src/BFSs.kt:25 | The polled head does not occur in the remaining queue, and the rest of the queue is ordered with bounds taken from the head. |
| SequentialBfs.NextLayerSeen | src/BFSs.kt:24-31 | Once the queue holds only layer `d + 1` and every dequeued vertex is expanded, all of layer `d + 1` has been seen. |
| SequentialBfs.FinishedSearch | src/BFSs.kt:24-32 | When the queue is empty, the distance array equals the breadth-first distances from `start`. |
| SequentialBfs.SeqBfs | src/BFSs.kt:17-33 | `seqBFS` returns the shortest-walk distance of every reachable vertex, 0 for every other vertex, and 0 at the start. |
| ParallelBfs.ClaimOne | src/BFSs.kt:109-111 | One `compareAndSet(w, 0, 1)` and the two writes it guards: on success `distances[w] = d` and `w` goes to the next layer. `ClaimOneMeaning` states its effect. |
| ParallelBfs.ClaimOneMeaning | src/BFSs.kt:109-111 | One compare-and-set marks `w` and no other vertex. It gives `w` distance `d` and appends it to the next layer exactly when `w` was unmarked, and changes nothing else. |
| ParallelBfs.CountFalseClaim | src/BFSs.kt:109 | A successful compare-and-set lowers the number of unclaimed vertices by one. This is the measure that makes the layer loop finish. |
| ParallelBfs.ClaimAll | src/BFSs.kt:105-112 | The claim pass over a neighbour sequence in order, starting from an empty next layer; it keeps the lengths of the claim and distance arrays. `ClaimAllMeaning` states its effect. |
| ParallelBfs.ClaimAllMeaning | src/BFSs.kt:105-112 | After the claim pass over a neighbour sequence, a vertex is claimed exactly when it was claimed before or occurs in the sequence. The newly claimed vertices get distance `d` and nothing else changes. The next frontier lists exactly the newly claimed vertices, each once. |
| ParallelBfs.ClaimAllStep | src/BFSs.kt:107-111 | Claiming a sequence and then one more neighbour is the claim pass over the longer sequence. |
| ParallelBfs.FlattenMembers | src/BFSs.kt:105-107 | The claim pass meets exactly the neighbours of the frontier vertices. |
| ParallelBfs.FlattenStep | src/BFSs.kt:105-107 | Processing frontier vertex `i` appends its neighbour list to those already met. |
| ParallelBfs.Compact | src/BFSs.kt:114 | The filter keeps exactly the entries other than `-1`, and returns no more entries than the buffer has. |
| ParallelBfs.CompactStep | src/BFSs.kt:114 | Filtering a buffer one cell longer appends that cell, unless it is `-1`. |
| ParallelBfs.ScanBounds | src/BFSs.kt:100-103 | Every offset lies between 0 and the last offset, which is the size of the buffer. |
| ParallelBfs.ScanSlots | src/BFSs.kt:103-111 | The slot `degree[i] + j` of the `j`-th neighbour of frontier vertex `i` lies inside the buffer, and distinct `(i, j)` get distinct slots. |
| ParallelBfs.SlotsDisjoint | src/BFSs.kt:100-111 | With the offsets `pscan` computes, every slot is inside the buffer of size `degree.last()`, and distinct `(i, j)` get distinct slots, so the claim pass never writes one cell twice. |
| ParallelBfs.ClaimSlot | src/BFSs.kt:108-111 | One compare-and-set either fails and changes nothing, or claims the vertex, sets its distance to `d` and writes it to its slot. Either way the buffer still filters to the frontier claimed so far. |
| ParallelBfs.ClaimNeighbours | src/BFSs.kt:106-112 | After one vertex's neighbour loop, the claim array and distances are those of claiming all neighbours met so far, and the buffer up to the next slot filters to the vertices claimed. |
| ParallelBfs.Degrees | src/BFSs.kt:100-101 | The array `degree[i] = graph.neighbours(layer[i]).size`: one non-negative out-degree per frontier vertex, in frontier order. |
| ParallelBfs.Offsets | src/BFSs.kt:100-102 | The degree scan starts at 0 and steps by each frontier vertex's out-degree, and every offset lies between 0 and the total. |
| ParallelBfs.ExpandLayer | src/BFSs.kt:100-114 | One round of the `while` body (offsets, `-1` buffer, parallel claim pass, filter) has exactly the effect of claiming the frontier's concatenated neighbour lists in order. |
| ParallelBfs.NextLevel | src/BFSs.kt:99-114 | The next layer is the successors of the current one minus the vertices already within `d` edges, and those vertices have distance `d + 1`. |
| ParallelBfs.ExpandKeepsLevels | src/BFSs.kt:99-115 | After `d` layers the claimed vertices are those within `d` edges, they carry their distances, every other vertex holds 0, and the frontier is layer `d`. One expansion moves this from `d` to `d + 1`. |
| ParallelBfs.LayerBfs | src/BFSs.kt:99-115 | The `while` loop over layers: one distance per vertex, and a vertex already claimed on entry keeps its distance. `LayerBfsComputesDistances` states what it returns from a correct start state. |
| ParallelBfs.FinishedLevels | src/BFSs.kt:99-116 | When the frontier is empty, the distance array is the array of breadth-first distances. |
| ParallelBfs.LayerBfsComputesDistances | src/BFSs.kt:97-116 | From any state that marks exactly the first `d` layers, the layer loop returns the breadth-first distances. |
| ParallelBfs.Seeded | src/BFSs.kt:93-94 | The claim array before the loop: of the `n` vertices exactly `seed` is marked. |
| ParallelBfs.InitialLevel | src/BFSs.kt:92-98 | Marking the start and beginning from the frontier `[start]` with all distances 0 is the state after zero layers. |
| ParallelBfs.PBfsSeeded | src/BFSs.kt:91-117 | The whole `pBFS` body, with the vertex marked before the loop as a parameter, returns the layer loop's result from that initial state. |
| ParallelBfs.PBfs | src/BFSs.kt:91-117 | `pBFS` as written marks vertex 0 before the loop, and it returns the breadth-first distances when `start` is 0. |
| ParallelBfs.PBfsFixed | src/BFSs.kt:91-117 | `pBFS` marking `start` returns the breadth-first distances from every start, with 0 at the start. |
| ParallelBfs.Path3LayersFromOne | src/BFSs.kt:94 | On the path 0 - 1 - 2 from start 1, `pBFS` as written returns `[0, 2, 1]`. |
| ParallelBfs.Path3DistancesFromOne | src/BFSs.kt:17-33 | On the same path, the distances from vertex 1 are `[1, 0, 1]`. |
| ParallelBfs.PBfsOffZeroStartIsWrong | src/BFSs.kt:94 | `pBFS` as written disagrees with the breadth-first distances on the path 0 - 1 - 2 from start 1. |
| ParallelBfs.Star3LayersFromOne | src/BFSs.kt:94 | On the star from start 1, `pBFS` as written returns `[0, 0, 0]`: the start's only neighbour is pre-claimed, so the first layer is empty. |
| ParallelBfs.Star3DistancesFromOne | src/BFSs.kt:17-33 | On the star, the distances from vertex 1 are `[1, 0, 2]`. |
| ParallelBfs.PBfsOffZeroStartStrandsVertices | src/BFSs.kt:94 | On the star from start 1, `pBFS` as written strands every vertex reached only through vertex 0 at distance 0, so it disagrees with the breadth-first distances. |
| CubeGraph.Idx | src/BFSs.kt:120 | The local function `idx(x, y, z) = x + y * side + z * side * side`. `IdxRoundTrip` states its meaning. |
| CubeGraph.Coords | src/BFSs.kt:123-125 | The coordinates `x`, `y`, `z` read back from vertex `i`; each lies in `[0, side)`. |
| CubeGraph.CubeNeighbours | src/BFSs.kt:126-133 | A cube vertex has at most six neighbours. |
| CubeGraph.IdxRoundTrip | src/BFSs.kt:120-125 | `idx` of a cell inside the cube is a vertex, and reading `x`, `y`, `z` back from it gives the cell. |
| CubeGraph.CoordsRoundTrip | src/BFSs.kt:122-125 | Every vertex's coordinates lie inside the cube, and `idx` of them is the vertex again. |
| CubeGraph.NeighbourIsStep | src/BFSs.kt:127-132 | Every listed neighbour is a vertex one unit step away. |
| CubeGraph.StepIsNeighbour | src/BFSs.kt:127-132 | Every vertex one unit step away is listed. |
| CubeGraph.NeighbourIff | src/BFSs.kt:122-133 | `k` is listed as a neighbour of `i` exactly when `k` is a vertex whose cell is at Manhattan distance 1 from the cell of `i`. |
| CubeGraph.MakeCubeGraph | src/BFSs.kt:122 | The cube graph has `side * side * side` vertices. |
| CubeGraph.CubeAdj | src/BFSs.kt:122-134 | Vertex `i` of the cube graph gets the neighbour list computed from its coordinates. |
| CubeGraph.CubeEdges | src/BFSs.kt:119-135 | The edges out of vertex `i` go exactly to the vertices one unit step away. |
| CubeGraph.CubeValid | src/BFSs.kt:119-135 | Every neighbour id in the cube graph is a vertex. |
| CubeGraph.CubeSymmetric | src/BFSs.kt:119-135 | The cube graph is undirected: `k` is a neighbour of `i` exactly when `i` is a neighbour of `k`. |
| Searches.CompareFromZero | src/BFSs.kt:161-164 | From vertex 0, on every valid graph, both searches return the same array: the breadth-first distances. |
| Searches.CompareFrom | src/BFSs.kt:17-117 | From every start, `seqBFS` and the corrected `pBFS` return the same array: the breadth-first distances. |
| Searches.TestGraph | src/BFSs.kt:140-158 | The graph of `testBFS` has 17 vertices and every neighbour id is a vertex. |
| Searches.TestBfs | src/BFSs.kt:138-164 | On the 17-vertex graph of `testBFS`, both searches from 0 return the same array: the breadth-first distances. |
| Searches.TestCube | src/BFSs.kt:183-197 | On every cube graph, both searches from 0 return the same array, the breadth-first distances. `testLarge` only times the two searches; this is the agreement its commented-out `contentEquals` (line 195) would have checked. |

## Left out

- Fork-join scheduling is left out. `ForkJoinPool`, `submit` and `join` become sequential calls, left half first. The halves of `countSums` and `propSums` write disjoint tree nodes (`ParallelScan.HalvesDisjoint`), and the per-neighbour tasks of the claim pass write disjoint buffer slots (`ParallelBfs.SlotsDisjoint`), so any interleaving of those writes gives the same arrays. The compare-and-set race on the claim array is the next item.
- The claim pass of `pBFS` is modelled in one order. `AtomicIntegerArray.compareAndSet` is a read-and-mark on a `seq<bool>`, run left to right over the frontier. In other interleavings a different thread wins the race for a vertex. That changes which slot holds the vertex, and so the order of the next frontier, but not its set of vertices, the distances or the claim array.
- Kotlin 32-bit `Int` arithmetic is modelled as unbounded integers. `ParallelFor.Half` does model Kotlin's truncating division.
- ParallelScan.Pscan: does not model the wrap-around of the prefix sums, nor of `data.size * 4` (line 52) for arrays of `2^29` or more elements, because values are mathematical integers. The same holds for `(start + end) / 2` in `pfor` and `countSums`, and for `side * side * side` in `makeCubeGraph`. Every array length is bounded by `Int.MAX_VALUE` (`MaxArraySize`).
- ParallelFor.Pfor: the threshold is a parameter `T >= 2` rather than the constant `2^14`. `ParallelFor.PforIncrementsEachCellOnce` instantiates the constant.
- ParallelBfs.PBfs: requires a valid graph with `start` in range and at most `Int.MAX_VALUE` vertices. For an out-of-range id the source throws `ArrayIndexOutOfBoundsException`, and that exception is not modelled. `SequentialBfs.SeqBfs` has the same requirement, for the same reason.
- CubeGraph.MakeCubeGraph: requires `side >= 0`. For a negative `side` the source's allocation throws `NegativeArraySizeException`, which is not modelled.
- The degree-filling `pfor` (line 101) is not modelled as a separate `Pfor` call. `ParallelBfs.Degrees` builds the same array directly; `ParallelFor.Pfor` shows that a `pfor` equals its sequential loop.
- `Graph.toString`, `println`, `measureTimeMillis`, the timing loop in `main` and `testCubeGraph` are left out: they only print or time.
- `LinkedList` and `HashSet` become `seq<int>` and `set<int>`.

## Findings

| source | as written | input that shows it | evidently intended | confidence | as-written member | corrected member |
|---|---|---|---|---|---|---|
| src/BFSs.kt:94 | `pBFS` marks vertex 0 as visited before the loop, whatever `start` is | The path `[[1], [0, 2], [1]]` with `start = 1`: `pBFS` returns `[0, 2, 1]`, but the distances are `[1, 0, 1]`. The start is claimed again at distance 2, and vertex 0 is never claimed. On the star `[[1, 2], [0], [0]]` with `start = 1` it returns `[0, 0, 0]` against `[1, 0, 2]`: everything reached only through vertex 0 is stranded (`ParallelBfs.PBfsOffZeroStartStrandsVertices`). | Mark `start` (`visited.set(start, 1)`). With that change `pBFS` returns the breadth-first distances from every start. | not executed | ParallelBfs.PBfsOffZeroStartIsWrong | ParallelBfs.PBfsFixed |

`main` only calls `pBFS` with `start = 0`. For that call the source is right (`ParallelBfs.PBfs`, `Searches.CompareFromZero`).
