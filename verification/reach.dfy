/** The reference meaning of a breadth-first search: the vertices within `k`
    edges of the start, the layers of vertices exactly `k` edges away, and the
    distance array both searches of src/BFSs.kt are meant to return (with 0
    for vertices they never reach, the `IntArray` default). */
module Reach {
  import opened Graphs

  /** The vertices one edge away from some vertex of `S`. */
  ghost function Succ(g: Graph, S: set<int>): set<int> {
    set v, j | v in S && 0 <= v < |g.adj| && 0 <= j < |g.adj[v]| :: g.adj[v][j]
  }

  /** The vertices at most `k` edges away from `s`. */
  ghost function Upto(g: Graph, s: int, k: nat): set<int> {
    if k == 0 then {s} else Upto(g, s, k - 1) + Succ(g, Upto(g, s, k - 1))
  }

  /** The vertices whose shortest walk from `s` has exactly `k` edges. */
  ghost function Level(g: Graph, s: int, k: nat): set<int> {
    if k == 0 then {s} else Upto(g, s, k) - Upto(g, s, k - 1)
  }

  lemma SuccMono(g: Graph, A: set<int>, B: set<int>)
    requires A <= B
    ensures Succ(g, A) <= Succ(g, B)
  {
  }

  lemma {:induction false} UptoMono(g: Graph, s: int, a: nat, b: nat)
    requires a <= b
    ensures Upto(g, s, a) <= Upto(g, s, b)
    decreases b
  {
    if a < b {
      UptoMono(g, s, a, b - 1);
    }
  }

  lemma {:induction false} UptoInRange(g: Graph, s: int, k: nat)
    requires g.Valid() && 0 <= s < g.Size()
    ensures forall x :: x in Upto(g, s, k) ==> 0 <= x < g.Size()
  {
    if k > 0 {
      UptoInRange(g, s, k - 1);
    }
  }

  /** A vertex of layer `k` is within `m` edges only when `k <= m`. */
  lemma LevelFirst(g: Graph, s: int, k: nat, m: nat, v: int)
    requires v in Level(g, s, k) && v in Upto(g, s, m)
    ensures k <= m
  {
    if m < k {
      UptoMono(g, s, m, k - 1);
    }
  }

  /** The layers are disjoint. */
  lemma LevelUnique(g: Graph, s: int, a: nat, b: nat, v: int)
    requires v in Level(g, s, a) && v in Level(g, s, b)
    ensures a == b
  {
    LevelFirst(g, s, a, b, v);
    LevelFirst(g, s, b, a, v);
  }

  /** A vertex within `m` edges lies in some layer `k <= m`. */
  lemma {:induction false} UptoHasLevel(g: Graph, s: int, m: nat, v: int)
    requires v in Upto(g, s, m)
    ensures exists k: nat :: k <= m && v in Level(g, s, k)
  {
    if m == 0 {
      assert v in Level(g, s, 0);
    } else if v in Upto(g, s, m - 1) {
      UptoHasLevel(g, s, m - 1, v);
    } else {
      assert v in Level(g, s, m);
    }
  }

  /** Growing the search by one layer only needs the successors of the last layer. */
  lemma UptoByLevel(g: Graph, s: int, d: nat)
    ensures Upto(g, s, d + 1) == Upto(g, s, d) + Succ(g, Level(g, s, d))
  {
    if d > 0 {
      SuccMono(g, Level(g, s, d), Upto(g, s, d));
      forall x | x in Succ(g, Upto(g, s, d)) && x !in Upto(g, s, d)
        ensures x in Succ(g, Level(g, s, d))
      {
        var v, j :| v in Upto(g, s, d) && 0 <= v < |g.adj| && 0 <= j < |g.adj[v]| && g.adj[v][j] == x;
        assert v !in Upto(g, s, d - 1);
      }
    }
  }

  /** Once a layer is empty, the search has stopped growing. */
  lemma {:induction false} UptoStable(g: Graph, s: int, d: nat, j: nat)
    requires d >= 1 && Level(g, s, d) == {} && d <= j
    ensures Upto(g, s, j) == Upto(g, s, d)
    decreases j
  {
    UptoMono(g, s, d - 1, d);
    var before := Upto(g, s, d - 1);
    forall x | x in Upto(g, s, d)
      ensures x in before
    {
      assert x !in Level(g, s, d);
    }
    assert Upto(g, s, d) == before;
    if j > d {
      UptoStable(g, s, d, j - 1);
      calc {
        Upto(g, s, j);
        Upto(g, s, j - 1) + Succ(g, Upto(g, s, j - 1));
        before + Succ(g, before);
        Upto(g, s, d);
      }
    }
  }

  lemma {:induction false} CardRange(S: set<int>, n: nat)
    requires forall x :: x in S ==> 0 <= x < n
    ensures |S| <= n
  {
    if n > 0 {
      CardRange(S - {n - 1}, n - 1);
    } else {
      assert forall x :: x !in S;
      assert S == {};
    }
  }

  lemma ProperSupersetCard(A: set<int>, B: set<int>)
    requires A <= B && A != B
    ensures |A| < |B|
  {
    assert B == A + (B - A);
    assert A !! (B - A);
    assert B - A != {};
  }

  lemma {:induction false} UptoCard(g: Graph, s: int, k: nat)
    requires Level(g, s, k) != {}
    ensures |Upto(g, s, k)| >= k + 1
  {
    if k > 0 {
      var before, after := Upto(g, s, k - 1), Upto(g, s, k);
      UptoMono(g, s, k - 1, k);
      assert after - before == Level(g, s, k);
      assert before != after;
      ProperSupersetCard(before, after);
      if k - 1 > 0 && Level(g, s, k - 1) == {} {
        UptoStable(g, s, k - 1, k);
        assert false;
      }
      UptoCard(g, s, k - 1);
    }
  }

  /** Every non-empty layer lies below the number of vertices. */
  lemma LevelBound(g: Graph, s: int, k: nat)
    requires g.Valid() && 0 <= s < g.Size() && Level(g, s, k) != {}
    ensures k < g.Size()
  {
    UptoCard(g, s, k);
    UptoInRange(g, s, k);
    CardRange(Upto(g, s, k), g.Size());
  }

  /** The first `k` in `[from, n]` whose search contains `v`, or 0 when none does. */
  ghost function FirstLevel(g: Graph, s: int, v: int, from: nat): nat
    decreases |g.adj| - from
  {
    if from > |g.adj| then 0
    else if v in Upto(g, s, from) then from
    else FirstLevel(g, s, v, from + 1)
  }

  /** The shortest edge count from `s` to `v`, or 0 when `v` is unreachable. */
  ghost function Dist(g: Graph, s: int, v: int): nat {
    FirstLevel(g, s, v, 0)
  }

  /** The distance array a breadth-first search from `s` should return. */
  ghost function Distances(g: Graph, s: int): seq<int> {
    seq(|g.adj|, v => Dist(g, s, v))
  }

  lemma {:induction false} FirstLevelFinds(g: Graph, s: int, v: int, from: nat, k: nat)
    requires from <= k <= |g.adj| && v in Level(g, s, k)
    ensures FirstLevel(g, s, v, from) == k
    decreases k - from
  {
    if from < k {
      if v in Upto(g, s, from) {
        LevelFirst(g, s, k, from, v);
      }
      FirstLevelFinds(g, s, v, from + 1, k);
    }
  }

  /** A vertex of layer `k` is at distance `k`. */
  lemma LevelDist(g: Graph, s: int, k: nat, v: int)
    requires g.Valid() && 0 <= s < g.Size() && v in Level(g, s, k)
    ensures Dist(g, s, v) == k
  {
    LevelBound(g, s, k);
    FirstLevelFinds(g, s, v, 0, k);
  }

  /** The start is at distance 0. */
  lemma DistOfStart(g: Graph, s: int)
    requires g.Valid() && 0 <= s < g.Size()
    ensures Dist(g, s, s) == 0
  {
    LevelDist(g, s, 0, s);
  }

  lemma {:induction false} FirstLevelMisses(g: Graph, s: int, v: int, from: nat)
    requires v !in Upto(g, s, |g.adj|)
    ensures FirstLevel(g, s, v, from) == 0
    decreases |g.adj| - from
  {
    if from <= |g.adj| {
      UptoMono(g, s, from, |g.adj|);
      FirstLevelMisses(g, s, v, from + 1);
    }
  }

  /** A vertex the search never reaches keeps distance 0. */
  lemma UnreachedDist(g: Graph, s: int, v: int)
    requires v !in Upto(g, s, |g.adj|)
    ensures Dist(g, s, v) == 0
  {
    FirstLevelMisses(g, s, v, 0);
  }

  /** A set that contains `s` and every successor of its members contains
      everything the search reaches. */
  lemma {:induction false} ClosedContainsUpto(g: Graph, s: int, S: set<int>, k: nat)
    requires s in S && Succ(g, S) <= S
    ensures Upto(g, s, k) <= S
  {
    if k > 0 {
      ClosedContainsUpto(g, s, S, k - 1);
      SuccMono(g, Upto(g, s, k - 1), S);
    }
  }

  /** `p` is a walk along edges of `g`. */
  ghost predicate IsWalk(g: Graph, p: seq<int>) {
    && |p| >= 1
    && (forall i :: 0 <= i < |p| ==> 0 <= p[i] < |g.adj|)
    && (forall i :: 0 <= i < |p| - 1 ==> p[i + 1] in g.adj[p[i]])
  }

  lemma {:induction false} WalkEndsWithin(g: Graph, s: int, p: seq<int>)
    requires IsWalk(g, p) && p[0] == s
    ensures p[|p| - 1] in Upto(g, s, |p| - 1)
  {
    if |p| > 1 {
      var q := p[..|p| - 1];
      assert IsWalk(g, q);
      WalkEndsWithin(g, s, q);
      var u := p[|p| - 2];
      var j :| 0 <= j < |g.adj[u]| && g.adj[u][j] == p[|p| - 1];
      assert p[|p| - 1] in Succ(g, Upto(g, s, |p| - 2));
    }
  }

  lemma {:induction false} UptoHasWalk(g: Graph, s: int, k: nat, v: int)
    requires g.Valid() && 0 <= s < g.Size() && v in Upto(g, s, k)
    ensures exists p :: IsWalk(g, p) && p[0] == s && p[|p| - 1] == v && |p| <= k + 1
  {
    if k == 0 {
      assert IsWalk(g, [s]);
    } else if v in Upto(g, s, k - 1) {
      UptoHasWalk(g, s, k - 1, v);
    } else {
      var u, j :| u in Upto(g, s, k - 1) && 0 <= u < |g.adj| && 0 <= j < |g.adj[u]| && g.adj[u][j] == v;
      assert v in g.adj[u];
      UptoHasWalk(g, s, k - 1, u);
      var p :| IsWalk(g, p) && p[0] == s && p[|p| - 1] == u && |p| <= k;
      ExtendWalk(g, p, v);
    }
  }

  /** A walk followed by an edge out of its last vertex is a walk. */
  lemma ExtendWalk(g: Graph, p: seq<int>, v: int)
    requires g.Valid() && IsWalk(g, p) && v in g.adj[p[|p| - 1]]
    ensures IsWalk(g, p + [v]) && (p + [v])[0] == p[0] && (p + [v])[|p|] == v
  {
    var q := p + [v];
    forall i | 0 <= i < |q| - 1
      ensures q[i + 1] in g.adj[q[i]]
    {
      if i < |p| - 1 {
        assert q[i] == p[i] && q[i + 1] == p[i + 1];
      }
    }
  }

  /** `Dist` is the shortest edge count: no walk from `s` to `v` has fewer
      edges, and some walk has exactly `Dist` edges. */
  lemma DistIsShortestWalk(g: Graph, s: int, p: seq<int>)
    requires g.Valid() && 0 <= s < g.Size() && IsWalk(g, p) && p[0] == s
    ensures Dist(g, s, p[|p| - 1]) <= |p| - 1
    ensures exists q :: IsWalk(g, q) && q[0] == s && q[|q| - 1] == p[|p| - 1] && |q| - 1 == Dist(g, s, p[|p| - 1])
  {
    var v := p[|p| - 1];
    WalkEndsWithin(g, s, p);
    UptoHasLevel(g, s, |p| - 1, v);
    var k: nat :| k <= |p| - 1 && v in Level(g, s, k);
    LevelDist(g, s, k, v);
    UptoHasWalk(g, s, k, v);
    var q :| IsWalk(g, q) && q[0] == s && q[|q| - 1] == v && |q| <= k + 1;
    WalkEndsWithin(g, s, q);
    LevelFirst(g, s, k, |q| - 1, v);
  }

  /** A vertex no walk from `s` reaches has distance 0. */
  lemma UnreachableDist(g: Graph, s: int, v: int)
    requires g.Valid() && 0 <= s < g.Size()
    requires forall p :: IsWalk(g, p) && p[0] == s ==> p[|p| - 1] != v
    ensures Dist(g, s, v) == 0
  {
    if v in Upto(g, s, |g.adj|) {
      UptoHasWalk(g, s, |g.adj|, v);
    }
    UnreachedDist(g, s, v);
  }
}
