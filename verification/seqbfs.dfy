/** Model of `seqBFS` (src/BFSs.kt:17-33), the queue-based reference search.

    `LinkedList` becomes a `seq<int>` used as a FIFO queue and `HashSet` a
    `set<int>`; the `IntArray` of distances becomes a `seq<int>` that starts
    at all zeroes. */
module SequentialBfs {
  import opened Graphs
  import opened Reach

  /** Every visited vertex sits in the layer its distance names, and every
      other vertex still holds the array default 0. */
  ghost predicate Layered(g: Graph, start: int, visited: set<int>, distances: seq<int>)
    requires g.Valid() && 0 <= start < g.Size()
  {
    && |distances| == g.Size()
    && start in visited
    && (forall v :: v in visited ==> 0 <= v < g.Size())
    && (forall v :: v in visited ==> distances[v] >= 0 && v in Level(g, start, distances[v]))
    && (forall v :: 0 <= v < g.Size() && v !in visited ==> distances[v] == 0)
  }

  /** The queue holds distinct visited vertices in non-decreasing distance
      order, all between `lo` and `hi`. */
  ghost predicate Ordered(queue: seq<int>, visited: set<int>, distances: seq<int>, lo: int, hi: int)
  {
    && (forall k :: 0 <= k < |queue| ==> queue[k] in visited && 0 <= queue[k] < |distances|)
    && (forall a, b :: 0 <= a < b < |queue| ==> queue[a] != queue[b])
    && (forall a, b :: 0 <= a <= b < |queue| ==> distances[queue[a]] <= distances[queue[b]])
    && (forall k :: 0 <= k < |queue| ==> lo <= distances[queue[k]] <= hi)
  }

  /** Every neighbour of `v` has been seen. */
  ghost predicate Expanded(g: Graph, v: int, visited: set<int>)
    requires 0 <= v < g.Size()
  {
    forall j :: 0 <= j < |g.adj[v]| ==> g.adj[v][j] in visited
  }

  /** Every visited vertex that has left the queue has been expanded. */
  ghost predicate Closed(g: Graph, queue: seq<int>, visited: set<int>)
    requires forall v :: v in visited ==> 0 <= v < g.Size()
  {
    forall v :: v in visited && v !in queue ==> Expanded(g, v, visited)
  }

  /** Recording a newly seen vertex of layer `dw` keeps the search layered. */
  lemma DiscoverLayered(g: Graph, start: int, w: int, dw: int, visited: set<int>, distances: seq<int>)
    requires g.Valid() && 0 <= start < g.Size() && Layered(g, start, visited, distances)
    requires w !in visited && 0 <= w < g.Size() && dw >= 0 && w in Level(g, start, dw)
    ensures Layered(g, start, visited + {w}, distances[w := dw])
  {
    var ds := distances[w := dw];
    assert forall v :: v in visited ==> ds[v] == distances[v];
  }

  /** Appending a newly seen vertex of layer `d + 1` keeps the queue ordered. */
  lemma DiscoverOrdered(d: int, w: int, queue: seq<int>, visited: set<int>, distances: seq<int>)
    requires Ordered(queue, visited, distances, d, d + 1)
    requires w !in visited && 0 <= w < |distances|
    ensures Ordered(queue + [w], visited + {w}, distances[w := d + 1], d, d + 1)
  {
    var ds := distances[w := d + 1];
    assert forall k :: 0 <= k < |queue| ==> ds[queue[k]] == distances[queue[k]];
  }

  /** Discovering a vertex of layer `d + 1` keeps the search layered and the
      queue ordered. */
  lemma Discover(g: Graph, start: int, d: nat, w: int, dw: int, queue: seq<int>, visited: set<int>, distances: seq<int>)
    requires g.Valid() && 0 <= start < g.Size() && Layered(g, start, visited, distances)
    requires Ordered(queue, visited, distances, d, d + 1)
    requires w !in visited && 0 <= w < g.Size() && dw == d + 1 && w in Level(g, start, dw)
    ensures Layered(g, start, visited + {w}, distances[w := dw])
    ensures Ordered(queue + [w], visited + {w}, distances[w := dw], d, d + 1)
  {
    DiscoverLayered(g, start, w, dw, visited, distances);
    DiscoverOrdered(d, w, queue, visited, distances);
  }

  /** An unseen neighbour of a layer-`d` vertex, once layer `d` has been
      seen in full, lies in layer `d + 1`. */
  lemma UnseenNeighbourIsNext(g: Graph, start: int, d: nat, vert: int, j: int, visited: set<int>)
    requires 0 <= vert < g.Size() && 0 <= j < |g.adj[vert]| && vert in Level(g, start, d)
    requires Upto(g, start, d) <= visited && g.adj[vert][j] !in visited
    ensures g.adj[vert][j] in Level(g, start, d + 1)
  {
    assert g.adj[vert][j] in Succ(g, Level(g, start, d));
    UptoByLevel(g, start, d);
  }

  /** The invariant of the inner loop after the first `j` neighbours of
      `vert`, a layer-`d` vertex, starting from `queue` and `visited`. */
  ghost predicate VisitInv(g: Graph, start: int, vert: int, d: nat, j: int, queue: seq<int>, visited: set<int>,
                           queue': seq<int>, visited': set<int>, distances': seq<int>)
    requires g.Valid() && 0 <= start < g.Size() && 0 <= vert < g.Size()
  {
    && 0 <= j <= |g.adj[vert]|
    && Layered(g, start, visited', distances')
    && Ordered(queue', visited', distances', d, d + 1)
    && vert in visited' && distances'[vert] == d
    && visited <= visited' && Upto(g, start, d) <= visited'
    && (forall v :: v in visited' && v !in queue' ==> v in visited && v !in queue)
    && (visited' == visited ==> queue' == queue)
    && queue <= queue' && (forall k :: |queue| <= k < |queue'| ==> queue'[k] !in visited)
    && (forall i :: 0 <= i < j ==> g.adj[vert][i] in visited')
  }

  /** A neighbour already seen is skipped (`visited.add` returns false). */
  lemma SkipSeen(g: Graph, start: int, vert: int, d: nat, j: int, queue: seq<int>, visited: set<int>,
                 queue': seq<int>, visited': set<int>, distances': seq<int>)
    requires g.Valid() && 0 <= start < g.Size() && 0 <= vert < g.Size() && j < |g.adj[vert]|
    requires VisitInv(g, start, vert, d, j, queue, visited, queue', visited', distances')
    requires g.adj[vert][j] in visited'
    ensures VisitInv(g, start, vert, d, j + 1, queue, visited, queue', visited', distances')
  {
  }

  /** Marking and enqueueing a vertex not seen so far keeps the queue an
      extension of the old one by vertices that were unseen at the start. */
  lemma EnqueueUnseen(queue: seq<int>, visited: set<int>, queue': seq<int>, visited': set<int>, w: int)
    requires visited <= visited' && w !in visited'
    requires forall v :: v in visited' && v !in queue' ==> v in visited && v !in queue
    requires queue <= queue' && forall k :: |queue| <= k < |queue'| ==> queue'[k] !in visited
    ensures forall v :: v in visited' + {w} && v !in queue' + [w] ==> v in visited && v !in queue
    ensures visited' + {w} != visited
    ensures queue <= queue' + [w] && forall k :: |queue| <= k < |queue' + [w]| ==> (queue' + [w])[k] !in visited
  {
    assert (queue' + [w])[|queue'|] == w;
    forall k | |queue| <= k < |queue' + [w]|
      ensures (queue' + [w])[k] !in visited
    {
      if k < |queue'| {
        assert (queue' + [w])[k] == queue'[k];
      }
    }
  }

  /** An unseen neighbour is marked, enqueued and given distance `dw = d + 1`. */
  lemma VisitUnseen(g: Graph, start: int, vert: int, d: nat, j: int, dw: int, queue: seq<int>, visited: set<int>,
                    queue': seq<int>, visited': set<int>, distances': seq<int>)
    requires g.Valid() && 0 <= start < g.Size() && 0 <= vert < g.Size() && j < |g.adj[vert]|
    requires VisitInv(g, start, vert, d, j, queue, visited, queue', visited', distances')
    requires g.adj[vert][j] !in visited' && dw == d + 1
    ensures var w := g.adj[vert][j];
      VisitInv(g, start, vert, d, j + 1, queue, visited, queue' + [w], visited' + {w}, distances'[w := dw])
  {
    var w := g.adj[vert][j];
    UnseenNeighbourIsNext(g, start, d, vert, j, visited');
    Discover(g, start, d, w, dw, queue', visited', distances');
    EnqueueUnseen(queue, visited, queue', visited', w);
    assert forall i :: 0 <= i <= j ==> g.adj[vert][i] in visited' + {w};
  }

  /** The inner loop `for (i in graph.neighbours(vert))` of `seqBFS`: each
      unseen neighbour is marked, enqueued and given distance
      `distances[vert] + 1`. */
  method VisitNeighbours(g: Graph, start: int, vert: int, queue: seq<int>, visited: set<int>, distances: seq<int>)
    returns (queue': seq<int>, visited': set<int>, distances': seq<int>)
    requires g.Valid() && 0 <= start < g.Size() && Layered(g, start, visited, distances)
    requires vert in visited && vert !in queue
    requires Ordered(queue, visited, distances, distances[vert], distances[vert] + 1)
    requires Upto(g, start, distances[vert]) <= visited
    ensures Layered(g, start, visited', distances')
    ensures Ordered(queue', visited', distances', distances[vert], distances[vert] + 1)
    ensures visited <= visited'
    ensures forall v :: v in visited' && v !in queue' ==> v in visited && v !in queue
    ensures visited' == visited ==> queue' == queue
    ensures queue <= queue' && forall k :: |queue| <= k < |queue'| ==> queue'[k] !in visited
    ensures Expanded(g, vert, visited')
  {
    ghost var d: nat := distances[vert];
    var neighbours := g.Neighbours(vert);
    queue', visited', distances' := queue, visited, distances;
    var j := 0;
    while j < |neighbours|
      invariant VisitInv(g, start, vert, d, j, queue, visited, queue', visited', distances')
    {
      var w := neighbours[j];
      if w !in visited' {
        var dw := distances'[vert] + 1;
        VisitUnseen(g, start, vert, d, j, dw, queue, visited, queue', visited', distances');
        visited' := visited' + {w};
        queue' := queue' + [w];
        distances' := distances'[w := dw];
      } else {
        SkipSeen(g, start, vert, d, j, queue, visited, queue', visited', distances');
      }
      j := j + 1;
    }
  }

  /** The loop invariant of `seqBFS`: the search is layered, the queue is
      ordered and spans at most two layers, every vertex that left the queue
      has been expanded, and every layer up to the head's has been seen. */
  ghost predicate SearchInv(g: Graph, start: int, queue: seq<int>, visited: set<int>, distances: seq<int>)
    requires g.Valid() && 0 <= start < g.Size()
  {
    && Layered(g, start, visited, distances)
    && Closed(g, queue, visited)
    && (|queue| > 0 ==>
         && queue[0] in visited
         && Ordered(queue, visited, distances, distances[queue[0]], distances[queue[0]] + 1)
         && Upto(g, start, distances[queue[0]]) <= visited)
  }

  /** Polling the head leaves an ordered queue of the head's layer and the next. */
  lemma Poll(g: Graph, start: int, queue: seq<int>, visited: set<int>, distances: seq<int>)
    requires g.Valid() && 0 <= start < g.Size() && |queue| > 0
    requires SearchInv(g, start, queue, visited, distances)
    ensures queue[0] !in queue[1..]
    ensures Ordered(queue[1..], visited, distances, distances[queue[0]], distances[queue[0]] + 1)
  {
  }

  /** An ordered queue's bounds may be tightened to its head's distance. */
  lemma Rebound(queue: seq<int>, visited: set<int>, distances: seq<int>, lo: int, hi: int, lo': int, hi': int)
    requires Ordered(queue, visited, distances, lo, hi) && |queue| > 0
    requires lo' <= distances[queue[0]] && hi <= hi'
    ensures Ordered(queue, visited, distances, lo', hi')
  {
  }

  /** Every vertex out of the queue after expanding the head was either the
      head or already expanded before. */
  lemma StillClosed(g: Graph, queue0: seq<int>, visited0: set<int>, queue: seq<int>, visited: set<int>)
    requires |queue0| > 0 && visited0 <= visited && forall v :: v in visited ==> 0 <= v < g.Size()
    requires Closed(g, queue0, visited0) && queue0[0] in visited0
    requires forall v :: v in visited && v !in queue ==> v in visited0 && v !in queue0[1..]
    requires Expanded(g, queue0[0], visited)
    ensures Closed(g, queue, visited)
  {
    forall v | v in visited && v !in queue
      ensures Expanded(g, v, visited)
    {
      if v != queue0[0] {
        assert v !in queue0;
        assert Expanded(g, v, visited0);
      }
    }
  }

  /** Expanding the head re-establishes the loop invariant. */
  lemma AfterVisit(g: Graph, start: int, d: nat, queue0: seq<int>, visited0: set<int>,
                   queue: seq<int>, visited: set<int>, distances: seq<int>)
    requires g.Valid() && 0 <= start < g.Size() && |queue0| > 0
    requires Layered(g, start, visited, distances) && Ordered(queue, visited, distances, d, d + 1)
    requires visited0 <= visited && Upto(g, start, d) <= visited0
    requires forall v :: v in visited0 ==> 0 <= v < g.Size()
    requires Closed(g, queue0, visited0) && queue0[0] in visited0
    requires forall v :: v in visited && v !in queue ==> v in visited0 && v !in queue0[1..]
    requires Expanded(g, queue0[0], visited)
    ensures SearchInv(g, start, queue, visited, distances)
  {
    StillClosed(g, queue0, visited0, queue, visited);
    if |queue| > 0 {
      var h := distances[queue[0]];
      Rebound(queue, visited, distances, d, d + 1, h, h + 1);
      if h == d + 1 {
        Rebound(queue, visited, distances, d, d + 1, d + 1, d + 1);
        NextLayerSeen(g, start, d, queue, visited, distances);
      } else {
        assert h == d;
        var seen := Upto(g, start, d);
        assert seen <= visited0 <= visited;
      }
    }
  }

  /** When the head of the queue is one layer further than the vertex just
      expanded, the whole next layer has already been seen. */
  lemma NextLayerSeen(g: Graph, start: int, d: nat, queue: seq<int>, visited: set<int>, distances: seq<int>)
    requires g.Valid() && 0 <= start < g.Size() && Layered(g, start, visited, distances)
    requires Ordered(queue, visited, distances, d + 1, d + 1) && Closed(g, queue, visited)
    requires Upto(g, start, d) <= visited
    ensures Upto(g, start, d + 1) <= visited
  {
    UptoByLevel(g, start, d);
    forall x | x in Succ(g, Level(g, start, d))
      ensures x in visited
    {
      var v, i :| v in Level(g, start, d) && 0 <= v < g.Size() && 0 <= i < |g.adj[v]| && g.adj[v][i] == x;
      assert v in visited;
      LevelUnique(g, start, d, distances[v], v);
      assert Expanded(g, v, visited);
    }
  }

  /** When nothing is left to expand, the distances are the reference ones. */
  lemma FinishedSearch(g: Graph, start: int, visited: set<int>, distances: seq<int>)
    requires g.Valid() && 0 <= start < g.Size() && Layered(g, start, visited, distances)
    requires Closed(g, [], visited)
    ensures distances == Distances(g, start)
  {
    forall x | x in Succ(g, visited)
      ensures x in visited
    {
      var v, i :| v in visited && 0 <= v < g.Size() && 0 <= i < |g.adj[v]| && g.adj[v][i] == x;
      assert Expanded(g, v, visited);
    }
    ClosedContainsUpto(g, start, visited, g.Size());
    forall v | 0 <= v < g.Size()
      ensures distances[v] == Dist(g, start, v)
    {
      if v in visited {
        LevelDist(g, start, distances[v], v);
      } else {
        UnreachedDist(g, start, v);
      }
    }
  }

  /** `seqBFS(graph, start)`: every vertex reachable from `start` gets its
      shortest edge count, `start` gets 0, and every other vertex keeps the
      array default 0. */
  method SeqBfs(g: Graph, start: int) returns (distances: seq<int>)
    requires g.Valid() && 0 <= start < g.Size()
    ensures distances == Distances(g, start)
    ensures distances[start] == 0
  {
    var n := g.Size();
    var queue := [start];
    distances := seq(n, _ => 0);
    distances := distances[start := 0];
    var visited := {start};
    while |queue| > 0
      invariant SearchInv(g, start, queue, visited, distances)
      decreases n - |visited|, |queue|
    {
      CardRange(visited, n);
      ghost var queue0, visited0 := queue, visited;
      var vert := queue[0];
      ghost var d: nat := distances[vert];
      Poll(g, start, queue, visited, distances);
      queue, visited, distances := VisitNeighbours(g, start, vert, queue[1..], visited, distances);
      AfterVisit(g, start, d, queue0, visited0, queue, visited, distances);
      if visited != visited0 {
        ProperSupersetCard(visited0, visited);
      }
    }
    FinishedSearch(g, start, visited, distances);
    DistOfStart(g, start);
  }
}
