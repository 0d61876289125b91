/** Model of `pBFS` (src/BFSs.kt:91-117), the layer-synchronous search.

    Each layer gathers the out-degree of every frontier vertex, scans the
    degrees into write offsets with `pscan`, allocates a buffer of `-1`s of
    the total size, claims every unclaimed neighbour with a compare-and-set
    and writes it to its slot `degree[i] + j`, and finally filters out the
    `-1` slots. The `pfor` loops run as the left-to-right loops `Pfor` is
    proved equal to; the atomic claim array becomes a `seq<bool>`, and each
    compare-and-set reads and marks one vertex at a time. */
module ParallelBfs {
  import opened Graphs
  import opened Reach
  import opened ParallelScan

  /** The claim array, the distance array and the next layer built so far. */
  datatype LayerState = LayerState(claimed: seq<bool>, dist: seq<int>, next: seq<int>)

  /** The number of unclaimed vertices. */
  function CountFalse(c: seq<bool>): nat {
    if |c| == 0 then 0 else CountFalse(c[..|c| - 1]) + (if c[|c| - 1] then 0 else 1)
  }

  lemma {:induction false} CountFalseClaim(c: seq<bool>, w: int)
    requires 0 <= w < |c| && !c[w]
    ensures CountFalse(c[w := true]) + 1 == CountFalse(c)
  {
    if w < |c| - 1 {
      assert c[w := true][..|c| - 1] == c[..|c| - 1][w := true];
      CountFalseClaim(c[..|c| - 1], w);
    } else {
      assert c[w := true][..|c| - 1] == c[..|c| - 1];
    }
  }

  lemma {:induction false} CountFalseBound(c: seq<bool>)
    ensures CountFalse(c) <= |c|
  {
    if |c| > 0 {
      CountFalseBound(c[..|c| - 1]);
    }
  }

  /** `visited.compareAndSet(w, 0, 1)`; on success `distances[w] = d` and `w`
      goes to the next layer, otherwise nothing changes. */
  function ClaimOne(st: LayerState, w: int, d: int): LayerState
    requires 0 <= w < |st.claimed| && |st.dist| == |st.claimed|
  {
    if st.claimed[w] then st
    else LayerState(st.claimed[w := true], st.dist[w := d], st.next + [w])
  }

  /** One compare-and-set marks `w` and nothing else, relabels `w` with `d`
      only when it was unmarked, and appends `w` to the next layer exactly
      then. */
  lemma ClaimOneMeaning(st: LayerState, w: int, d: int)
    requires 0 <= w < |st.claimed| && |st.dist| == |st.claimed|
    ensures var r := ClaimOne(st, w, d);
      && |r.claimed| == |st.claimed| && |r.dist| == |st.dist|
      && (forall v :: 0 <= v < |st.claimed| ==> (r.claimed[v] <==> st.claimed[v] || v == w))
      && (forall v :: 0 <= v < |st.claimed| ==> r.dist[v] == if v == w && !st.claimed[w] then d else st.dist[v])
      && r.next == st.next + (if st.claimed[w] then [] else [w])
  {
  }

  /** Claiming the vertices of `ws` in order, starting from an empty next
      layer. */
  function ClaimAll(claimed: seq<bool>, dist: seq<int>, ws: seq<int>, d: int): (r: LayerState)
    requires |claimed| == |dist| && forall k :: 0 <= k < |ws| ==> 0 <= ws[k] < |claimed|
    ensures |r.claimed| == |claimed| && |r.dist| == |dist|
    decreases |ws|
  {
    if |ws| == 0 then LayerState(claimed, dist, [])
    else ClaimOne(ClaimAll(claimed, dist, ws[..|ws| - 1], d), ws[|ws| - 1], d)
  }

  /** A vertex ends up claimed, given distance `d` and listed exactly when it
      occurs in `ws` and was unclaimed; each is listed once, and the number
      of unclaimed vertices drops by the length of the list. */
  lemma {:induction false} ClaimAllMeaning(claimed: seq<bool>, dist: seq<int>, ws: seq<int>, d: int)
    requires |claimed| == |dist| && forall k :: 0 <= k < |ws| ==> 0 <= ws[k] < |claimed|
    ensures var r := ClaimAll(claimed, dist, ws, d);
      && (forall v :: 0 <= v < |claimed| ==> (r.claimed[v] <==> claimed[v] || v in ws))
      && (forall v :: 0 <= v < |claimed| ==> r.dist[v] == if !claimed[v] && v in ws then d else dist[v])
      && (forall v :: v in r.next <==> v in ws && !claimed[v])
      && (forall k :: 0 <= k < |r.next| ==> 0 <= r.next[k] < |claimed|)
      && (forall a, b :: 0 <= a < b < |r.next| ==> r.next[a] != r.next[b])
      && CountFalse(r.claimed) + |r.next| == CountFalse(claimed)
    decreases |ws|
  {
    if |ws| > 0 {
      var w := ws[|ws| - 1];
      ClaimAllMeaning(claimed, dist, ws[..|ws| - 1], d);
      var st := ClaimAll(claimed, dist, ws[..|ws| - 1], d);
      assert forall v :: v in ws <==> v in ws[..|ws| - 1] || v == w;
      if !st.claimed[w] {
        CountFalseClaim(st.claimed, w);
      }
    }
  }

  lemma ClaimAllStep(claimed: seq<bool>, dist: seq<int>, ws: seq<int>, w: int, d: int)
    requires |claimed| == |dist| && forall k :: 0 <= k < |ws| ==> 0 <= ws[k] < |claimed|
    requires 0 <= w < |claimed|
    ensures ClaimAll(claimed, dist, ws + [w], d) == ClaimOne(ClaimAll(claimed, dist, ws, d), w, d)
  {
    assert (ws + [w])[..|ws|] == ws;
  }

  /** Every vertex of the layer is a vertex of the graph. */
  ghost predicate InGraph(g: Graph, layer: seq<int>) {
    forall k :: 0 <= k < |layer| ==> 0 <= layer[k] < |g.adj|
  }

  /** The neighbour lists of the layer's vertices, concatenated in layer
      order: the order in which the claim pass meets the neighbours. */
  function Flatten(g: Graph, layer: seq<int>): (r: seq<int>)
    requires InGraph(g, layer)
    ensures g.Valid() ==> InGraph(g, r)
  {
    if |layer| == 0 then [] else Flatten(g, layer[..|layer| - 1]) + g.adj[layer[|layer| - 1]]
  }

  /** The flattened lists hold exactly the neighbours of the layer's vertices. */
  lemma {:induction false} FlattenMembers(g: Graph, layer: seq<int>)
    requires InGraph(g, layer)
    ensures forall v :: v in Flatten(g, layer) <==> exists x :: x in layer && v in g.adj[x]
  {
    if |layer| > 0 {
      var init := layer[..|layer| - 1];
      FlattenMembers(g, init);
      assert forall x :: x in layer <==> x in init || x == layer[|layer| - 1];
    }
  }

  lemma FlattenStep(g: Graph, layer: seq<int>, i: int)
    requires InGraph(g, layer) && 0 <= i < |layer|
    ensures Flatten(g, layer[..i + 1]) == Flatten(g, layer[..i]) + g.adj[layer[i]]
  {
    assert layer[..i + 1][..i] == layer[..i];
  }

  /** The per-vertex degrees `graph.neighbours(layer[i]).size`. */
  function Degrees(g: Graph, layer: seq<int>): (r: seq<int>)
    requires InGraph(g, layer)
    ensures |r| == |layer| && forall i :: 0 <= i < |r| ==> r[i] >= 0
  {
    seq(|layer|, i requires 0 <= i < |layer| => |g.adj[layer[i]]|)
  }

  /** `nextLayer.filter { it != -1 }`: the non-sentinel entries, in order. */
  function Compact(buffer: seq<int>): (r: seq<int>)
    ensures forall x :: x in r <==> x in buffer && x != -1
    ensures |r| <= |buffer|
  {
    if |buffer| == 0 then []
    else
      var init := buffer[..|buffer| - 1];
      var last := buffer[|buffer| - 1];
      assert forall x :: x in buffer <==> x in init || x == last;
      Compact(init) + (if last == -1 then [] else [last])
  }

  lemma CompactStep(buffer: seq<int>, p: int)
    requires 0 <= p < |buffer|
    ensures Compact(buffer[..p + 1]) == Compact(buffer[..p]) + (if buffer[p] == -1 then [] else [buffer[p]])
  {
    assert buffer[..p + 1][..p] == buffer[..p];
  }

  lemma {:induction false} ScanMonotone(data: seq<int>, offsets: seq<int>, a: int, b: int)
    requires |offsets| == |data| + 1 && forall k :: 0 <= k < |data| ==> data[k] >= 0
    requires forall k :: 0 <= k < |data| ==> offsets[k + 1] == offsets[k] + data[k]
    requires 0 <= a <= b <= |data|
    ensures offsets[a] <= offsets[b]
    decreases b - a
  {
    if a < b {
      ScanMonotone(data, offsets, a + 1, b);
    }
  }

  /** Offsets that scan non-negative counts from 0 all lie between 0 and
      the total. */
  lemma ScanBounds(data: seq<int>, offsets: seq<int>)
    requires |offsets| == |data| + 1 && offsets[0] == 0
    requires forall k :: 0 <= k < |data| ==> data[k] >= 0
    requires forall k :: 0 <= k < |data| ==> offsets[k + 1] == offsets[k] + data[k]
    ensures forall i :: 0 <= i <= |data| ==> 0 <= offsets[i] <= offsets[|data|]
  {
    forall i | 0 <= i <= |data|
      ensures 0 <= offsets[i] <= offsets[|data|]
    {
      ScanMonotone(data, offsets, 0, i);
      ScanMonotone(data, offsets, i, |data|);
    }
  }

  /** Offsets that scan non-negative counts from 0 give the `j`-th item of
      the `i`-th group the slot `offsets[i] + j`: every slot lies in
      `[0, offsets[|data|])` and distinct pairs get distinct slots. */
  lemma ScanSlots(data: seq<int>, offsets: seq<int>, i: int, j: int, i': int, j': int)
    requires |offsets| == |data| + 1 && offsets[0] == 0
    requires forall k :: 0 <= k < |data| ==> data[k] >= 0
    requires forall k :: 0 <= k < |data| ==> offsets[k + 1] == offsets[k] + data[k]
    requires 0 <= i < |data| && 0 <= j < data[i]
    requires 0 <= i' < |data| && 0 <= j' < data[i']
    ensures 0 <= offsets[i] + j < offsets[|data|]
    ensures (i, j) != (i', j') ==> offsets[i] + j != offsets[i'] + j'
  {
    ScanMonotone(data, offsets, 0, i);
    ScanMonotone(data, offsets, i + 1, |data|);
    if i < i' {
      ScanMonotone(data, offsets, i + 1, i');
    } else if i' < i {
      ScanMonotone(data, offsets, i' + 1, i);
    }
  }

  /** The scanned degrees give the `j`-th neighbour of the `i`-th frontier
      vertex the slot `degree[i] + j`: every slot lies in `[0, total)` and
      distinct pairs get distinct slots, so the claim pass never writes one
      cell twice. */
  lemma SlotsDisjoint(degrees: seq<int>, i: int, j: int, i': int, j': int)
    requires |degrees| <= MaxArraySize && forall k :: 0 <= k < |degrees| ==> degrees[k] >= 0
    requires 0 <= i < |degrees| && 0 <= j < degrees[i]
    requires 0 <= i' < |degrees| && 0 <= j' < degrees[i']
    ensures var offsets := Pscan(degrees);
      0 <= offsets[i] + j < offsets[|degrees|]
    ensures var offsets := Pscan(degrees);
      (i, j) != (i', j') ==> offsets[i] + j != offsets[i'] + j'
  {
    var offsets := Pscan(degrees);
    ScanSlots(degrees, offsets, i, j, i', j');
  }

  /** The claim pass has met the neighbours `ws` so far: the claim and
      distance arrays are those of claiming `ws`, the buffer's first `p`
      cells filter to the next layer so far, and the cells from `p` on still
      hold `-1`. */
  ghost predicate BufferInv(claimed0: seq<bool>, dist0: seq<int>, d: int, ws: seq<int>,
                            claimed: seq<bool>, dist: seq<int>, buffer: seq<int>, p: int)
  {
    && 0 <= p <= |buffer|
    && |claimed0| == |dist0| && |claimed| == |claimed0|
    && (forall k :: 0 <= k < |ws| ==> 0 <= ws[k] < |claimed0|)
    && LayerState(claimed, dist, Compact(buffer[..p])) == ClaimAll(claimed0, dist0, ws, d)
    && (forall q :: p <= q < |buffer| ==> buffer[q] == -1)
  }

  /** One compare-and-set of the claim pass, for the `j`-th neighbour `w` of
      the current vertex after the neighbour lists `done`, and the write of
      `w` to slot `p` when the claim succeeds. */
  lemma ClaimSlot(claimed0: seq<bool>, dist0: seq<int>, d: int, done: seq<int>, neighbours: seq<int>, j: int,
                  claimed: seq<bool>, dist: seq<int>, buffer: seq<int>, p: int)
    requires 0 <= j < |neighbours|
    requires BufferInv(claimed0, dist0, d, done + neighbours[..j], claimed, dist, buffer, p)
    requires p < |buffer| && 0 <= neighbours[j] < |claimed0|
    ensures var w := neighbours[j];
      !claimed[w] ==>
      BufferInv(claimed0, dist0, d, done + neighbours[..j + 1], claimed[w := true], dist[w := d], buffer[p := w], p + 1)
    ensures var w := neighbours[j];
      claimed[w] ==>
      BufferInv(claimed0, dist0, d, done + neighbours[..j + 1], claimed, dist, buffer, p + 1)
  {
    var w := neighbours[j];
    var ws := done + neighbours[..j];
    assert neighbours[..j + 1] == neighbours[..j] + [w];
    assert ws + [w] == done + neighbours[..j + 1];
    ClaimAllStep(claimed0, dist0, ws, w, d);
    CompactStep(buffer, p);
    var written := buffer[p := w];
    CompactStep(written, p);
    assert written[..p] == buffer[..p];
  }

  /** The body of the claim `pfor` for one frontier vertex: the neighbours
      are tried in order, and each one claimed goes to its slot `p + j`. */
  method ClaimNeighbours(claimed0: seq<bool>, dist0: seq<int>, d: int, done: seq<int>, neighbours: seq<int>,
                         claimed: seq<bool>, dist: seq<int>, buffer: seq<int>, p: int)
    returns (claimed': seq<bool>, dist': seq<int>, buffer': seq<int>)
    requires BufferInv(claimed0, dist0, d, done, claimed, dist, buffer, p)
    requires p + |neighbours| <= |buffer|
    requires forall k :: 0 <= k < |neighbours| ==> 0 <= neighbours[k] < |claimed0|
    ensures |buffer'| == |buffer|
    ensures BufferInv(claimed0, dist0, d, done + neighbours, claimed', dist', buffer', p + |neighbours|)
  {
    claimed', dist', buffer' := claimed, dist, buffer;
    assert done + neighbours[..0] == done;
    var j := 0;
    while j < |neighbours|
      invariant 0 <= j <= |neighbours| && |buffer'| == |buffer|
      invariant BufferInv(claimed0, dist0, d, done + neighbours[..j], claimed', dist', buffer', p + j)
    {
      var w := neighbours[j];
      ClaimSlot(claimed0, dist0, d, done, neighbours, j, claimed', dist', buffer', p + j);
      if !claimed'[w] {
        claimed' := claimed'[w := true];
        dist' := dist'[w := d];
        buffer' := buffer'[p + j := w];
      }
      j := j + 1;
    }
    assert neighbours[..|neighbours|] == neighbours;
  }

  /** The write offsets of one layer: the degrees of the frontier vertices,
      filled by a `pfor`, then scanned by `pscan`. The frontier vertex `i`
      owns the slots `[degree[i], degree[i + 1])`, and these lie in order
      inside `[0, degree.last()]`. */
  method Offsets(g: Graph, layer: seq<int>) returns (degree: seq<int>)
    requires InGraph(g, layer) && |layer| <= MaxArraySize
    ensures |degree| == |layer| + 1 && degree[0] == 0
    ensures forall i :: 0 <= i < |layer| ==> degree[i + 1] == degree[i] + |g.adj[layer[i]]|
    ensures forall i :: 0 <= i <= |layer| ==> 0 <= degree[i] <= degree[|layer|]
  {
    var degrees := Degrees(g, layer);
    degree := Pscan(degrees);
    ScanBounds(degrees, degree);
    forall i | 0 <= i < |layer|
      ensures degree[i + 1] == degree[i] + |g.adj[layer[i]]|
    {
      assert degrees[i] == |g.adj[layer[i]]|;
    }
  }

  /** One round of the `while` loop of `pBFS` after `d++`: offsets by
      `pscan` of the degrees, a buffer of `-1`s of the total degree, the
      claim pass writing each newly claimed neighbour to its slot, and the
      filter. Its effect is claiming the concatenated neighbour lists in
      order. */
  method ExpandLayer(g: Graph, claimed: seq<bool>, dist: seq<int>, layer: seq<int>, d: int)
    returns (claimed': seq<bool>, dist': seq<int>, next: seq<int>)
    requires g.Valid() && |claimed| == |dist| == |g.adj| && InGraph(g, layer)
    requires |layer| <= MaxArraySize
    ensures LayerState(claimed', dist', next) == ClaimAll(claimed, dist, Flatten(g, layer), d)
  {
    var degree := Offsets(g, layer);
    var total := degree[|layer|];
    var buffer := seq(total, _ => -1);
    claimed', dist' := claimed, dist;
    assert buffer[..0] == [];
    var i := 0;
    while i < |layer|
      invariant 0 <= i <= |layer| && |buffer| == total
      invariant BufferInv(claimed, dist, d, Flatten(g, layer[..i]), claimed', dist', buffer, degree[i])
    {
      var neighbours := g.Neighbours(layer[i]);
      FlattenStep(g, layer, i);
      assert degree[i] + |neighbours| == degree[i + 1] <= total;
      assert forall k :: 0 <= k < |neighbours| ==> 0 <= neighbours[k] < |claimed|;
      claimed', dist', buffer :=
        ClaimNeighbours(claimed, dist, d, Flatten(g, layer[..i]), neighbours, claimed', dist', buffer, degree[i]);
      i := i + 1;
    }
    assert layer[..|layer|] == layer;
    assert buffer[..total] == buffer;
    next := Compact(buffer);
  }

  /** The layer loop of `pBFS` as a function: while the frontier is not
      empty, claim all neighbours of the frontier at distance `d + 1` and
      move on to the vertices just claimed. */
  function LayerBfs(g: Graph, claimed: seq<bool>, dist: seq<int>, layer: seq<int>, d: int): (r: seq<int>)
    requires g.Valid() && |claimed| == |dist| == |g.adj| && InGraph(g, layer)
    ensures |r| == |g.adj|
    ensures forall v :: 0 <= v < |g.adj| && claimed[v] ==> r[v] == dist[v]
    decreases CountFalse(claimed) + (if |layer| > 0 then 1 else 0)
  {
    if |layer| == 0 then dist
    else
      var ws := Flatten(g, layer);
      ClaimAllMeaning(claimed, dist, ws, d + 1);
      var st := ClaimAll(claimed, dist, ws, d + 1);
      LayerBfs(g, st.claimed, st.dist, st.next, d + 1)
  }

  /** The claim array marks exactly the vertices of `U` (below `|claimed|`),
      those carry their distance from `D` and every other vertex 0, and the
      frontier lists exactly `L`. */
  ghost predicate Marks(claimed: seq<bool>, dist: seq<int>, layer: seq<int>, U: set<int>, L: set<int>, D: seq<int>)
    requires |claimed| == |dist| == |D|
  {
    && (forall v :: 0 <= v < |claimed| ==> (claimed[v] <==> v in U))
    && (forall v :: 0 <= v < |claimed| ==> dist[v] == if v in U then D[v] else 0)
    && (forall v :: v in layer <==> v in L)
  }

  /** The state at the top of the `while` loop when the search from `s` has
      finished `d` layers: the claimed vertices are those within `d` edges,
      they carry their distance and every other vertex 0, and the frontier
      is layer `d`. */
  ghost predicate AtLevel(g: Graph, s: int, claimed: seq<bool>, dist: seq<int>, layer: seq<int>, d: nat)
    requires |claimed| == |dist| == |g.adj|
  {
    Marks(claimed, dist, layer, Upto(g, s, d), Level(g, s, d), Distances(g, s))
  }

  /** The neighbours of a frontier that lists the set `S` are the successors of `S`. */
  lemma FlattenIsSucc(g: Graph, layer: seq<int>, S: set<int>)
    requires InGraph(g, layer) && forall x :: x in layer <==> x in S
    ensures forall v :: v in Flatten(g, layer) <==> v in Succ(g, S)
  {
    FlattenMembers(g, layer);
    forall v | v in Succ(g, S)
      ensures exists x :: x in layer && v in g.adj[x]
    {
      var x, j :| x in S && 0 <= x < |g.adj| && 0 <= j < |g.adj[x]| && g.adj[x][j] == v;
      assert x in layer && v in g.adj[x];
    }
    forall v | exists x :: x in layer && v in g.adj[x]
      ensures v in Succ(g, S)
    {
      var x :| x in layer && v in g.adj[x];
      var k :| 0 <= k < |layer| && layer[k] == x;
      var j :| 0 <= j < |g.adj[x]| && g.adj[x][j] == v;
      assert g.adj[x][j] in Succ(g, S);
    }
  }

  /** The set-level step behind `ExpandKeepsLevels`: claiming the vertices
      `ws = N` from the state that marks `U` grows the marked set to
      `U + N`, gives the new vertices their distance and lists exactly them. */
  lemma ClaimGrows(claimed: seq<bool>, dist: seq<int>, ws: seq<int>, d: int, r: LayerState,
                   U: set<int>, N: set<int>, L: set<int>, D: seq<int>)
    requires |claimed| == |dist| == |r.claimed| == |r.dist| == |D|
    requires forall k :: 0 <= k < |ws| ==> 0 <= ws[k] < |claimed|
    requires forall v :: 0 <= v < |claimed| ==> (r.claimed[v] <==> claimed[v] || v in ws)
    requires forall v :: 0 <= v < |claimed| ==> r.dist[v] == if !claimed[v] && v in ws then d else dist[v]
    requires forall v :: v in r.next <==> v in ws && !claimed[v]
    requires forall v :: 0 <= v < |claimed| ==> (claimed[v] <==> v in U)
    requires forall v :: 0 <= v < |claimed| ==> dist[v] == if v in U then D[v] else 0
    requires forall v :: v in ws <==> v in N
    requires L == (U + N) - U
    requires forall v :: 0 <= v < |claimed| && v in L ==> D[v] == d
    ensures Marks(r.claimed, r.dist, r.next, U + N, L, D)
  {
  }

  /** Layer `d + 1` in set terms: the vertices within `d + 1` edges are
      those within `d` plus the successors of layer `d`, and the new ones
      are at distance `d + 1`. */
  lemma NextLevel(g: Graph, s: int, d: nat)
    requires g.Valid() && 0 <= s < g.Size()
    ensures Upto(g, s, d + 1) == Upto(g, s, d) + Succ(g, Level(g, s, d))
    ensures Level(g, s, d + 1) == Upto(g, s, d + 1) - Upto(g, s, d)
    ensures forall v :: 0 <= v < |g.adj| && v in Level(g, s, d + 1) ==> Distances(g, s)[v] == d + 1
  {
    UptoByLevel(g, s, d);
    forall v | 0 <= v < |g.adj| && v in Level(g, s, d + 1)
      ensures Distances(g, s)[v] == d + 1
    {
      LevelDist(g, s, d + 1, v);
    }
  }

  /** Expanding layer `d` gives the state after `d + 1` layers. */
  lemma ExpandKeepsLevels(g: Graph, s: int, claimed: seq<bool>, dist: seq<int>, layer: seq<int>, d: nat)
    requires g.Valid() && 0 <= s < g.Size() && |claimed| == |dist| == |g.adj| && InGraph(g, layer)
    requires AtLevel(g, s, claimed, dist, layer, d)
    ensures var st := ClaimAll(claimed, dist, Flatten(g, layer), d + 1);
      AtLevel(g, s, st.claimed, st.dist, st.next, d + 1)
  {
    var ws := Flatten(g, layer);
    ClaimAllMeaning(claimed, dist, ws, d + 1);
    FlattenIsSucc(g, layer, Level(g, s, d));
    NextLevel(g, s, d);
    ClaimGrows(claimed, dist, ws, d + 1, ClaimAll(claimed, dist, ws, d + 1),
               Upto(g, s, d), Succ(g, Level(g, s, d)), Level(g, s, d + 1), Distances(g, s));
  }

  /** Once the frontier is empty, the distances of the claimed vertices are
      all the distances there are. */
  lemma FinishedLevels(g: Graph, s: int, claimed: seq<bool>, dist: seq<int>, d: nat)
    requires g.Valid() && 0 <= s < g.Size() && |claimed| == |dist| == |g.adj|
    requires AtLevel(g, s, claimed, dist, [], d)
    ensures dist == Distances(g, s)
  {
    assert s in Level(g, s, 0);
    assert d >= 1 && Level(g, s, d) == {};
    forall v | 0 <= v < |g.adj| && v !in Upto(g, s, d)
      ensures Dist(g, s, v) == 0
    {
      if d <= |g.adj| {
        UptoStable(g, s, d, |g.adj|);
      } else {
        UptoMono(g, s, |g.adj|, d);
      }
      UnreachedDist(g, s, v);
    }
  }

  /** From a state after `d` layers, the layer loop returns the distances. */
  lemma {:induction false} LayerBfsComputesDistances(g: Graph, s: int, claimed: seq<bool>, dist: seq<int>,
                                                     layer: seq<int>, d: nat)
    requires g.Valid() && 0 <= s < g.Size() && |claimed| == |dist| == |g.adj| && InGraph(g, layer)
    requires AtLevel(g, s, claimed, dist, layer, d)
    ensures LayerBfs(g, claimed, dist, layer, d) == Distances(g, s)
    decreases CountFalse(claimed) + (if |layer| > 0 then 1 else 0)
  {
    if |layer| == 0 {
      FinishedLevels(g, s, claimed, dist, d);
    } else {
      var ws := Flatten(g, layer);
      ClaimAllMeaning(claimed, dist, ws, d + 1);
      var st := ClaimAll(claimed, dist, ws, d + 1);
      ExpandKeepsLevels(g, s, claimed, dist, layer, d);
      LayerBfsComputesDistances(g, s, st.claimed, st.dist, st.next, d + 1);
    }
  }

  /** The claim array of `pBFS` before the loop: only `seed` is marked. */
  function Seeded(n: nat, seed: int): (c: seq<bool>)
    ensures |c| == n && forall v :: 0 <= v < n ==> (c[v] <==> v == seed)
  {
    seq(n, v => v == seed)
  }

  /** Marking `s` and starting from the frontier `[s]` with all distances 0
      is the state after zero layers of the search from `s`. */
  lemma InitialLevel(g: Graph, s: int)
    requires g.Valid() && 0 <= s < g.Size()
    ensures AtLevel(g, s, Seeded(g.Size(), s), seq(g.Size(), _ => 0), [s], 0)
  {
    LevelDist(g, s, 0, s);
  }

  /** The body of `pBFS` with the vertex marked before the loop as the
      parameter `seed`. */
  method PBfsSeeded(g: Graph, start: int, seed: int) returns (distances: seq<int>)
    requires g.Valid() && 0 <= start < g.Size() && 0 <= seed < g.Size() && g.Size() <= MaxArraySize
    ensures distances == LayerBfs(g, Seeded(g.Size(), seed), seq(g.Size(), _ => 0), [start], 0)
  {
    var n := g.Size();
    distances := seq(n, _ => 0);
    var visited := seq(n, _ => false);
    visited := visited[seed := true];
    distances := distances[start := 0];
    assert visited == Seeded(n, seed);
    assert distances == seq(n, _ => 0);
    var layer := [start];
    var d := 0;
    while |layer| > 0
      invariant |visited| == |distances| == n && InGraph(g, layer) && |layer| <= n
      invariant LayerBfs(g, visited, distances, layer, d)
        == LayerBfs(g, Seeded(n, seed), seq(n, _ => 0), [start], 0)
      decreases CountFalse(visited) + (if |layer| > 0 then 1 else 0)
    {
      ClaimAllMeaning(visited, distances, Flatten(g, layer), d + 1);
      ghost var before := CountFalse(visited);
      d := d + 1;
      visited, distances, layer := ExpandLayer(g, visited, distances, layer, d);
      CountFalseBound(visited);
      CountFalseBound(Seeded(n, seed));
      assert CountFalse(visited) + |layer| == before;
      CountFalseBound(visited);
    }
  }

  /** `pBFS(graph, start)` as written: it marks vertex 0 rather than `start`
      before the loop. It returns the layer loop's result from that state,
      which is the distance array when `start` is 0. */
  method PBfs(g: Graph, start: int) returns (distances: seq<int>)
    requires g.Valid() && 0 <= start < g.Size() && g.Size() <= MaxArraySize
    ensures distances == LayerBfs(g, Seeded(g.Size(), 0), seq(g.Size(), _ => 0), [start], 0)
    ensures start == 0 ==> distances == Distances(g, start)
  {
    distances := PBfsSeeded(g, start, 0);
    if start == 0 {
      InitialLevel(g, start);
      LayerBfsComputesDistances(g, start, Seeded(g.Size(), 0), seq(g.Size(), _ => 0), [start], 0);
    }
  }

  /** `pBFS` marking `start` itself before the loop: it returns the distance
      array of a breadth-first search from `start`. */
  method PBfsFixed(g: Graph, start: int) returns (distances: seq<int>)
    requires g.Valid() && 0 <= start < g.Size() && g.Size() <= MaxArraySize
    ensures distances == Distances(g, start)
    ensures distances[start] == 0
  {
    distances := PBfsSeeded(g, start, start);
    DistOfStart(g, start);
    InitialLevel(g, start);
    LayerBfsComputesDistances(g, start, Seeded(g.Size(), start), seq(g.Size(), _ => 0), [start], 0);
  }

  /** The path 0 - 1 - 2. */
  function Path3(): (g: Graph)
    ensures g.Valid() && g.Size() == 3
  {
    Graph([[1], [0, 2], [1]])
  }

  /** The frontier lists of the search on the path from `start = 1`. */
  lemma Path3Neighbours()
    ensures Flatten(Path3(), [1]) == [0, 2] && Flatten(Path3(), [2]) == [1]
  {
    assert [1][..0] == [] && [2][..0] == [];
  }

  /** The first claim pass: vertex 0 is already marked, vertex 2 is claimed. */
  lemma Path3FirstClaim()
    ensures ClaimAll([true, false, false], [0, 0, 0], [0, 2], 1)
      == LayerState([true, false, true], [0, 0, 1], [2])
  {
    assert [0, 2][..1] == [0] && [0][..0] == [];
    var st := ClaimAll([true, false, false], [0, 0, 0], [0], 1);
    assert st == LayerState([true, false, false], [0, 0, 0], []);
  }

  /** The second claim pass: vertex 1, the start, is claimed at distance 2. */
  lemma Path3SecondClaim()
    ensures ClaimAll([true, false, true], [0, 0, 1], [1], 2)
      == LayerState([true, true, true], [0, 2, 1], [1])
  {
    assert [1][..0] == [];
  }

  /** The third claim pass: everything is marked, the frontier empties. */
  lemma Path3ThirdClaim()
    ensures ClaimAll([true, true, true], [0, 2, 1], [0, 2], 3)
      == LayerState([true, true, true], [0, 2, 1], [])
  {
    assert [0, 2][..1] == [0] && [0][..0] == [];
    var st := ClaimAll([true, true, true], [0, 2, 1], [0], 3);
    assert st == LayerState([true, true, true], [0, 2, 1], []);
  }

  /** The layer loop on the path from `start = 1` with vertex 0 marked:
      vertex 1 is claimed again by the second layer, at distance 2, and
      vertex 0 is never claimed. */
  lemma Path3LayersFromOne()
    ensures LayerBfs(Path3(), Seeded(3, 0), seq(3, _ => 0), [1], 0) == [0, 2, 1]
  {
    var g := Path3();
    assert Seeded(3, 0) == [true, false, false];
    assert seq(3, _ => 0) == [0, 0, 0];
    Path3Neighbours();
    Path3FirstClaim();
    Path3SecondClaim();
    Path3ThirdClaim();
    assert LayerBfs(g, [true, true, true], [0, 2, 1], [1], 2) == [0, 2, 1];
  }

  /** The distances on the path from vertex 1. */
  lemma Path3DistancesFromOne()
    ensures Distances(Path3(), 1) == [1, 0, 1]
  {
    var g := Path3();
    assert g.adj[1][0] in Succ(g, Upto(g, 1, 0));
    assert g.adj[1][1] in Succ(g, Upto(g, 1, 0));
    assert 0 in Level(g, 1, 1) && 2 in Level(g, 1, 1) && 1 in Level(g, 1, 0);
    LevelDist(g, 1, 1, 0);
    LevelDist(g, 1, 1, 2);
    LevelDist(g, 1, 0, 1);
  }

  /** On the path 0 - 1 - 2, `pBFS` as written from `start = 1` reports
      `dist[1] = 2` where the distance is 0, and `dist[0] = 0` where the
      distance is 1. */
  lemma PBfsOffZeroStartIsWrong()
    ensures LayerBfs(Path3(), Seeded(3, 0), seq(3, _ => 0), [1], 0) != Distances(Path3(), 1)
  {
    Path3LayersFromOne();
    Path3DistancesFromOne();
  }

  /** The star with centre 0 and leaves 1 and 2. */
  function Star3(): (g: Graph)
    ensures g.Valid() && g.Size() == 3
  {
    Graph([[1, 2], [0], [0]])
  }

  /** The layer loop on the star from `start = 1` with vertex 0 marked: the
      only neighbour of the start is already claimed, so the first layer is
      empty and no vertex gets a distance. */
  lemma Star3LayersFromOne()
    ensures LayerBfs(Star3(), Seeded(3, 0), seq(3, _ => 0), [1], 0) == [0, 0, 0]
  {
    var g := Star3();
    assert Seeded(3, 0) == [true, false, false];
    assert seq(3, _ => 0) == [0, 0, 0];
    assert [1][..0] == [];
    assert Flatten(g, [1]) == [0];
    assert [0][..0] == [];
    assert ClaimAll([true, false, false], [0, 0, 0], [0], 1) == LayerState([true, false, false], [0, 0, 0], []);
  }

  /** The distances on the star from leaf 1. */
  lemma Star3DistancesFromOne()
    ensures Distances(Star3(), 1) == [1, 0, 2]
  {
    var g := Star3();
    assert g.adj[1][0] in Succ(g, Upto(g, 1, 0));
    assert 0 in Level(g, 1, 1) && 1 in Level(g, 1, 0);
    assert g.adj[0][1] in Succ(g, Upto(g, 1, 1));
    assert 2 !in Upto(g, 1, 1);
    assert 2 in Level(g, 1, 2);
    LevelDist(g, 1, 1, 0);
    LevelDist(g, 1, 0, 1);
    LevelDist(g, 1, 2, 2);
  }

  /** On the star, `pBFS` as written from `start = 1` leaves every vertex
      reached only through vertex 0 at distance 0: vertex 0 reports 0 where
      the distance is 1, and vertex 2 reports 0 where it is 2. */
  lemma PBfsOffZeroStartStrandsVertices()
    ensures LayerBfs(Star3(), Seeded(3, 0), seq(3, _ => 0), [1], 0) != Distances(Star3(), 1)
  {
    Star3LayersFromOne();
    Star3DistancesFromOne();
  }
}
