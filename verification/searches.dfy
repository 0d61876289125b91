/** The drivers of `main` (src/BFSs.kt:137-209). `testBFS` prints the
    distances both searches compute from vertex 0 on a 17-vertex graph, and
    `testLarge` only times the two searches on a cube graph: its comparison
    `contentEquals` is commented out in the source. The members here prove
    the agreement those drivers exhibit or would have checked. */
module Searches {
  import opened Graphs
  import opened Reach
  import opened ParallelScan
  import opened SequentialBfs
  import opened ParallelBfs
  import opened CubeGraph

  /** Both searches from vertex 0 return the same array, the distances. */
  method CompareFromZero(g: Graph) returns (bySeq: seq<int>, byPar: seq<int>)
    requires g.Valid() && 0 < g.Size() <= MaxArraySize
    ensures bySeq == byPar == Distances(g, 0)
  {
    bySeq := SeqBfs(g, 0);
    byPar := PBfs(g, 0);
  }

  /** From any start, the sequential search and the corrected parallel
      search return the same array. */
  method CompareFrom(g: Graph, start: int) returns (bySeq: seq<int>, byPar: seq<int>)
    requires g.Valid() && 0 <= start < g.Size() <= MaxArraySize
    ensures bySeq == byPar == Distances(g, start)
  {
    bySeq := SeqBfs(g, start);
    byPar := PBfsFixed(g, start);
  }

  /** The 17-vertex graph of `testBFS`. */
  function TestGraph(): (g: Graph)
    ensures g.Size() == 17 && g.Valid()
  {
    Graph([[1, 2], [0, 2], [0, 1, 3], [2, 4, 5, 6], [3, 5, 7], [3, 4], [3, 8], [4], [6, 9],
           [8, 10], [9, 11], [10, 12], [11, 13, 16], [12, 14], [13, 15], [14, 16], [12, 15]])
  }

  /** `testBFS`: on its graph, both searches from 0 agree. */
  method TestBfs() returns (bySeq: seq<int>, byPar: seq<int>)
    ensures bySeq == byPar == Distances(TestGraph(), 0)
  {
    var g := TestGraph();
    bySeq, byPar := CompareFromZero(g);
  }

  /** `testLarge` times both searches from 0 on a cube graph; this proves the
      agreement its commented-out `contentEquals` check would have tested. */
  method TestCube(side: int) returns (bySeq: seq<int>, byPar: seq<int>)
    requires 0 < side && Volume(side) <= MaxArraySize
    ensures bySeq == byPar == Distances(MakeCubeGraph(side), 0)
  {
    var g := MakeCubeGraph(side);
    CubeValid(side);
    bySeq, byPar := CompareFromZero(g);
  }
}
