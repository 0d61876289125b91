/** Model of `makeCubeGraph` (src/BFSs.kt:119-135): the `side x side x side`
    grid graph whose vertex `x + y * side + z * side * side` is joined to the
    cells one step away along each axis. */
module CubeGraph {
  import opened Graphs

  /** A cell of the cube. */
  datatype Cell = Cell(x: int, y: int, z: int)

  /** The local function `idx(x, y, z)`. */
  function Idx(side: int, c: Cell): int {
    c.x + c.y * side + c.z * side * side
  }

  /** The number of vertices, `side * side * side`. */
  function Volume(side: nat): nat {
    side * side * side
  }

  /** The coordinates the source reads back from vertex `i`: `i % side`,
      `(i / side) % side` and `(i / side / side) % side`. For `i >= 0` and
      `side > 0`, Kotlin's truncating operators agree with Dafny's. */
  function Coords(side: int, i: int): (c: Cell)
    requires side > 0 && i >= 0
    ensures InCube(side, c)
  {
    Cell(i % side, (i / side) % side, (i / side / side) % side)
  }

  /** Every coordinate lies in `[0, side)`. */
  predicate InCube(side: int, c: Cell) {
    0 <= c.x < side && 0 <= c.y < side && 0 <= c.z < side
  }

  function Abs(a: int): nat {
    if a < 0 then -a else a
  }

  /** The number of unit steps between two cells. */
  function Manhattan(a: Cell, b: Cell): nat {
    Abs(a.x - b.x) + Abs(a.y - b.y) + Abs(a.z - b.z)
  }

  lemma ManhattanSymmetric(a: Cell, b: Cell)
    ensures Manhattan(a, b) == Manhattan(b, a)
  {
  }

  /** The neighbour list of vertex `i`, in the order the source adds them:
      -x, +x, -y, +y, -z, +z, each only when it stays inside the cube. */
  function CubeNeighbours(side: int, i: int): (r: seq<int>)
    requires side > 0 && i >= 0
    ensures |r| <= 6
  {
    var c := Coords(side, i);
    (if c.x > 0 then [Idx(side, Cell(c.x - 1, c.y, c.z))] else [])
    + (if c.x < side - 1 then [Idx(side, Cell(c.x + 1, c.y, c.z))] else [])
    + (if c.y > 0 then [Idx(side, Cell(c.x, c.y - 1, c.z))] else [])
    + (if c.y < side - 1 then [Idx(side, Cell(c.x, c.y + 1, c.z))] else [])
    + (if c.z > 0 then [Idx(side, Cell(c.x, c.y, c.z - 1))] else [])
    + (if c.z < side - 1 then [Idx(side, Cell(c.x, c.y, c.z + 1))] else [])
  }

  lemma MulAtLeast(k: int, side: int)
    requires side > 0 && k >= 1
    ensures k * side >= side
  {
    assert k * side == side + (k - 1) * side;
  }

  /** Euclidean division by `side` undoes `a + b * side` for a digit `a`. */
  lemma DivMod(a: int, b: int, side: int)
    requires side > 0 && 0 <= a < side
    ensures (a + b * side) / side == b && (a + b * side) % side == a
  {
    var n := a + b * side;
    var q, r := n / side, n % side;
    assert n == q * side + r && 0 <= r < side;
    assert (q - b) * side == a - r;
    assert (b - q) * side == r - a;
    if q - b >= 1 {
      MulAtLeast(q - b, side);
      assert false;
    } else if b - q >= 1 {
      MulAtLeast(b - q, side);
      assert false;
    }
  }

  lemma DivBound(a: int, side: int, m: int)
    requires side > 0 && 0 <= a < m * side
    ensures 0 <= a / side < m
  {
    var q, r := a / side, a % side;
    assert a == q * side + r;
    assert q * side == m * side + (q - m) * side;
    assert (q - m + 1) * side == (q - m) * side + side;
    if q >= m {
      MulAtLeast(q - m + 1, side);
      assert false;
    }
  }

  lemma MulLe(a: int, b: int, c: int)
    requires a <= b && c >= 0
    ensures a * c <= b * c
  {
    assert b * c == a * c + (b - a) * c;
  }

  /** The index in mixed radix: digit `x`, then the number `y + z * side`. */
  lemma IdxAsDigits(side: int, c: Cell)
    ensures Idx(side, c) == c.x + (c.y + c.z * side) * side
  {
    assert (c.y + c.z * side) * side == c.y * side + c.z * side * side;
  }

  /** Reading back the coordinates of a cell's index gives the cell, and the
      index is a vertex of the cube. */
  lemma IdxRoundTrip(side: int, c: Cell)
    requires side > 0 && InCube(side, c)
    ensures 0 <= Idx(side, c) < Volume(side)
    ensures Coords(side, Idx(side, c)) == c
  {
    var i := Idx(side, c);
    var t := c.y + c.z * side;
    IdxAsDigits(side, c);
    DivMod(c.x, t, side);
    DivMod(c.y, c.z, side);
    DivMod(c.z, 0, side);
    assert i / side == t && t / side == c.z;
    MulLe(c.z, side - 1, side);
    assert t <= side * side - 1;
    MulLe(t, side * side - 1, side);
    assert (side * side - 1) * side == side * side * side - side;
    MulLe(0, c.z, side);
    MulLe(0, t, side);
  }

  /** Every vertex of the cube is the index of the cell its coordinates name. */
  lemma CoordsRoundTrip(side: int, i: int)
    requires side > 0 && 0 <= i < Volume(side)
    ensures InCube(side, Coords(side, i))
    ensures Idx(side, Coords(side, i)) == i
  {
    var q := i / side;
    assert i < (side * side) * side;
    DivBound(i, side, side * side);
    DivBound(q, side, side);
    var c := Coords(side, i);
    DivMod(q / side, 0, side);
    assert c.z == q / side;
    assert q == c.y + c.z * side;
    assert i == c.x + q * side;
    IdxAsDigits(side, c);
  }

  /** A listed neighbour is a vertex of the cube one unit step away. */
  lemma NeighbourIsStep(side: int, i: int, k: int)
    requires side > 0 && 0 <= i < Volume(side) && k in CubeNeighbours(side, i)
    ensures 0 <= k < Volume(side) && Manhattan(Coords(side, i), Coords(side, k)) == 1
  {
    var c := Coords(side, i);
    CoordsRoundTrip(side, i);
    var e :| InCube(side, e) && Manhattan(c, e) == 1 && k == Idx(side, e) by {
      if c.x > 0 && k == Idx(side, Cell(c.x - 1, c.y, c.z)) {
        assert InCube(side, Cell(c.x - 1, c.y, c.z));
      } else if c.x < side - 1 && k == Idx(side, Cell(c.x + 1, c.y, c.z)) {
        assert InCube(side, Cell(c.x + 1, c.y, c.z));
      } else if c.y > 0 && k == Idx(side, Cell(c.x, c.y - 1, c.z)) {
        assert InCube(side, Cell(c.x, c.y - 1, c.z));
      } else if c.y < side - 1 && k == Idx(side, Cell(c.x, c.y + 1, c.z)) {
        assert InCube(side, Cell(c.x, c.y + 1, c.z));
      } else if c.z > 0 && k == Idx(side, Cell(c.x, c.y, c.z - 1)) {
        assert InCube(side, Cell(c.x, c.y, c.z - 1));
      } else {
        assert InCube(side, Cell(c.x, c.y, c.z + 1));
      }
    }
    IdxRoundTrip(side, e);
  }

  /** A vertex one unit step away is listed as a neighbour. */
  lemma StepIsNeighbour(side: int, i: int, k: int)
    requires side > 0 && 0 <= i < Volume(side) && 0 <= k < Volume(side)
    requires Manhattan(Coords(side, i), Coords(side, k)) == 1
    ensures k in CubeNeighbours(side, i)
  {
    var c := Coords(side, i);
    var e := Coords(side, k);
    CoordsRoundTrip(side, i);
    CoordsRoundTrip(side, k);
    assert k == Idx(side, e);
  }

  /** `k` is listed as a neighbour of vertex `i` exactly when it is a vertex
      of the cube whose cell is one unit step from the cell of `i`. */
  lemma NeighbourIff(side: int, i: int, k: int)
    requires side > 0 && 0 <= i < Volume(side)
    ensures k in CubeNeighbours(side, i) <==> 0 <= k < Volume(side) && Manhattan(Coords(side, i), Coords(side, k)) == 1
  {
    if k in CubeNeighbours(side, i) {
      NeighbourIsStep(side, i, k);
    } else if 0 <= k < Volume(side) && Manhattan(Coords(side, i), Coords(side, k)) == 1 {
      StepIsNeighbour(side, i, k);
    }
  }

  lemma EmptyCube(side: int, i: int)
    requires side >= 0 && 0 <= i < Volume(side)
    ensures side > 0
  {
  }

  /** `makeCubeGraph(side)`: vertex `i` gets the neighbour list above; a
      negative `side` makes the source's array allocation fail. */
  function MakeCubeGraph(side: int): (g: Graph)
    requires side >= 0
    ensures g.Size() == Volume(side)
  {
    Graph(seq(Volume(side), i requires 0 <= i < Volume(side) =>
      EmptyCube(side, i);
      CubeNeighbours(side, i)))
  }

  lemma CubeAdj(side: int, i: int)
    requires side >= 0 && 0 <= i < Volume(side)
    ensures side > 0 && MakeCubeGraph(side).adj[i] == CubeNeighbours(side, i)
  {
  }

  /** In the cube graph, the edges out of vertex `i` go exactly to the
      vertices whose cells are one unit step from the cell of `i`. */
  lemma CubeEdges(side: int, i: int)
    requires side >= 0 && 0 <= i < MakeCubeGraph(side).Size()
    ensures side > 0
    ensures forall k :: k in MakeCubeGraph(side).adj[i] <==>
      0 <= k < MakeCubeGraph(side).Size() && Manhattan(Coords(side, i), Coords(side, k)) == 1
  {
    CubeAdj(side, i);
    forall k
      ensures k in CubeNeighbours(side, i) <==> 0 <= k < Volume(side) && Manhattan(Coords(side, i), Coords(side, k)) == 1
    {
      NeighbourIff(side, i, k);
    }
  }

  /** The cube graph is a valid graph. */
  lemma CubeValid(side: int)
    requires side >= 0
    ensures MakeCubeGraph(side).Valid()
  {
    var g := MakeCubeGraph(side);
    forall v, j | 0 <= v < |g.adj| && 0 <= j < |g.adj[v]|
      ensures 0 <= g.adj[v][j] < |g.adj|
    {
      CubeEdges(side, v);
      assert g.adj[v][j] in g.adj[v];
    }
  }

  /** The cube graph is undirected: every edge is listed from both ends. */
  lemma CubeSymmetric(side: int)
    requires side >= 0
    ensures var g := MakeCubeGraph(side);
      forall i, k :: 0 <= i < g.Size() && 0 <= k < g.Size() ==> (k in g.adj[i] <==> i in g.adj[k])
  {
    var g := MakeCubeGraph(side);
    forall i, k | 0 <= i < g.Size() && 0 <= k < g.Size()
      ensures k in g.adj[i] <==> i in g.adj[k]
    {
      CubeAdj(side, i);
      CubeAdj(side, k);
      NeighbourIff(side, i, k);
      NeighbourIff(side, k, i);
      ManhattanSymmetric(Coords(side, i), Coords(side, k));
    }
  }
}
