/** Model of `class Graph` (src/BFSs.kt:6-15): an immutable adjacency list. */
module Graphs {

  /** Vertex `v` has the ordered neighbour list `adj[v]`; duplicates and self
      loops are allowed. */
  datatype Graph = Graph(adj: seq<seq<int>>) {

    /** `val size`: the number of vertices. */
    function Size(): nat {
      |adj|
    }

    /** `fun neighbours(i)`. */
    function Neighbours(v: int): seq<int>
      requires 0 <= v < Size()
    {
      adj[v]
    }

    /** Every neighbour id names a vertex; otherwise both searches index
        their arrays out of bounds. */
    predicate Valid() {
      forall v, j :: 0 <= v < |adj| && 0 <= j < |adj[v]| ==> 0 <= adj[v][j] < |adj|
    }
  }
}
