/** Model of `pscan` (src/BFSs.kt:49-89): the two-pass tree exclusive prefix sum.

    `countSums` fills the heap-indexed scratch array `sums` bottom-up (node
    `idx` has children `2 * idx` and `2 * idx + 1`), then `propSums` pushes
    running prefixes down the same tree and writes `res[i + 1]` at the
    leaves. Both passes fork their halves; the halves touch disjoint tree
    nodes and disjoint result cells, so the model runs them in sequence.
    Kotlin `Int` overflow is not modelled: values are mathematical
    integers. This covers the sums themselves and the size formula
    `data.size * 4`, which wraps in Kotlin once `data.size` reaches `2^29`. */
module ParallelScan {
  import opened ParallelFor

  /** `PSCAN_THRESHOLD = 1 shl 14`. */
  const PscanThreshold: int := 16384

  /** The largest length a Kotlin array can have (`Int.MAX_VALUE`). */
  const MaxArraySize: int := 0x7fff_ffff

  /** The sum of a sequence. */
  function Sum(s: seq<int>): int {
    if |s| == 0 then 0 else Sum(s[..|s| - 1]) + s[|s| - 1]
  }

  lemma {:induction false} SumConcat(a: seq<int>, b: seq<int>)
    ensures Sum(a + b) == Sum(a) + Sum(b)
    decreases |b|
  {
    if |b| == 0 {
      assert a + b == a;
    } else {
      assert (a + b)[..|a + b| - 1] == a + b[..|b| - 1];
      SumConcat(a, b[..|b| - 1]);
    }
  }

  lemma SumSplit(s: seq<int>, l: int, m: int, r: int)
    requires 0 <= l <= m <= r <= |s|
    ensures Sum(s[l..r]) == Sum(s[l..m]) + Sum(s[m..r])
  {
    assert s[l..r] == s[l..m] + s[m..r];
    SumConcat(s[l..m], s[m..r]);
  }

  lemma SumSplitAll(s: seq<int>, l: int, m: int, r: int)
    requires 0 <= l <= m <= r <= |s|
    ensures forall k :: m <= k <= r ==> Sum(s[l..k]) == Sum(s[l..m]) + Sum(s[m..k])
  {
    forall k | m <= k <= r {
      SumSplit(s, l, m, k);
    }
  }

  /** The size `data.size * 4 / PSCAN_THRESHOLD + 2 * PSCAN_THRESHOLD` of the
      scratch array, for a threshold `T`. */
  function SumsSize(n: nat, T: int): (size: nat)
    requires T >= 2
    ensures 2 * T <= size
  {
    n * 4 / T + 2 * T
  }

  /** The tree indices that `countSums(l, r, idx)` writes; `propSums(l, r, idx, _)`
      walks the same nodes and reads `sums[2 * idx]` at each split. */
  function Touched(l: int, r: int, idx: int, T: int): set<int>
    requires T >= 2
    decreases r - l
  {
    if r - l < T then
      {idx}
    else
      var m := Mid(l, r);
      MidSplitsStrictly(l, r, T);
      {idx} + Touched(l, m, 2 * idx, T) + Touched(m, r, 2 * idx + 1, T)
  }

  /** Every node touched below `idx` is a valid index of an array of length `size`. */
  predicate Fits(l: int, r: int, idx: int, T: int, size: int)
    requires T >= 2
  {
    forall j :: j in Touched(l, r, idx, T) ==> 0 <= j < size
  }

  /** A fitting subtree has its root and both halves' subtrees fitting too. */
  lemma FitsParts(l: int, r: int, idx: int, T: int, size: int)
    requires T >= 2 && Fits(l, r, idx, T, size)
    ensures 0 <= idx < size
    ensures r - l >= T ==> Fits(l, Mid(l, r), 2 * idx, T, size) && Fits(Mid(l, r), r, 2 * idx + 1, T, size)
    ensures r - l >= T ==> 0 <= 2 * idx < size && 0 <= 2 * idx + 1 < size
  {
    assert idx in Touched(l, r, idx, T);
    if r - l >= T {
      assert 2 * idx in Touched(l, Mid(l, r), 2 * idx, T);
      assert 2 * idx + 1 in Touched(Mid(l, r), r, 2 * idx + 1, T);
    }
  }

  /** `j` is `idx` or a descendant of `idx` in the heap numbering. */
  predicate InSubtree(j: int, idx: int)
    requires idx >= 1
    decreases j
  {
    j == idx || (j > idx && InSubtree(j / 2, idx))
  }

  lemma {:induction false} InChildSubtree(j: int, idx: int, c: int)
    requires idx >= 1 && (c == 2 * idx || c == 2 * idx + 1) && InSubtree(j, c)
    ensures InSubtree(j, idx)
    decreases j
  {
    if j != c {
      InChildSubtree(j / 2, idx, c);
    }
  }

  /** Two subtrees that share a node are nested. */
  lemma {:induction false} SubtreesNest(j: int, a: int, b: int)
    requires 1 <= a < b && InSubtree(j, a) && InSubtree(j, b)
    ensures InSubtree(b, a)
    decreases j
  {
    if j != b {
      SubtreesNest(j / 2, a, b);
    }
  }

  lemma {:induction false} TouchedInSubtree(l: int, r: int, idx: int, T: int)
    requires T >= 2 && idx >= 1
    ensures forall j :: j in Touched(l, r, idx, T) ==> InSubtree(j, idx)
    decreases r - l
  {
    if r - l >= T {
      var m := Mid(l, r);
      MidSplitsStrictly(l, r, T);
      TouchedInSubtree(l, m, 2 * idx, T);
      TouchedInSubtree(m, r, 2 * idx + 1, T);
      forall j | j in Touched(l, m, 2 * idx, T) {
        InChildSubtree(j, idx, 2 * idx);
      }
      forall j | j in Touched(m, r, 2 * idx + 1, T) {
        InChildSubtree(j, idx, 2 * idx + 1);
      }
    }
  }

  /** The two forked halves of a split node touch disjoint sets of tree
      nodes, and neither touches the node itself: running them in either
      order, or at once, writes the same `sums`. */
  lemma HalvesDisjoint(l: int, r: int, idx: int, T: int)
    requires T >= 2 && idx >= 1 && r - l >= T
    ensures Touched(l, Mid(l, r), 2 * idx, T) !! Touched(Mid(l, r), r, 2 * idx + 1, T)
    ensures idx !in Touched(l, Mid(l, r), 2 * idx, T)
    ensures idx !in Touched(Mid(l, r), r, 2 * idx + 1, T)
  {
    var m := Mid(l, r);
    TouchedInSubtree(l, m, 2 * idx, T);
    TouchedInSubtree(m, r, 2 * idx + 1, T);
    forall j | j in Touched(l, m, 2 * idx, T) && j in Touched(m, r, 2 * idx + 1, T)
      ensures false
    {
      SubtreesNest(j, 2 * idx, 2 * idx + 1);
    }
  }

  /** After `countSums(l, r, idx)`, every node of its subtree holds the sum of
      its range of `data`. */
  ghost predicate SumsCorrect(data: seq<int>, sums: seq<int>, l: int, r: int, idx: int, T: int)
    requires T >= 2 && 0 <= l <= r <= |data| && Fits(l, r, idx, T, |sums|)
    decreases r - l
  {
    FitsParts(l, r, idx, T, |sums|);
    && sums[idx] == Sum(data[l..r])
    && (r - l >= T ==>
         var m := Mid(l, r);
         && SumsCorrect(data, sums, l, m, 2 * idx, T)
         && SumsCorrect(data, sums, m, r, 2 * idx + 1, T))
  }

  /** `SumsCorrect` only looks at the touched nodes. */
  lemma {:induction false} SumsCorrectFrame(data: seq<int>, s1: seq<int>, s2: seq<int>, l: int, r: int, idx: int, T: int)
    requires T >= 2 && 0 <= l <= r <= |data| && |s1| == |s2| && Fits(l, r, idx, T, |s1|)
    requires forall j :: j in Touched(l, r, idx, T) ==> s1[j] == s2[j]
    requires SumsCorrect(data, s1, l, r, idx, T)
    ensures SumsCorrect(data, s2, l, r, idx, T)
    decreases r - l
  {
    FitsParts(l, r, idx, T, |s1|);
    if r - l >= T {
      var m := Mid(l, r);
      SumsCorrectFrame(data, s1, s2, l, m, 2 * idx, T);
      SumsCorrectFrame(data, s1, s2, m, r, 2 * idx + 1, T);
    }
  }

  /** `countSums(l, r, idx)`: fills the subtree of `idx` with range sums and
      writes no other cell of `sums`. */
  function CountSums(data: seq<int>, sums: seq<int>, l: int, r: int, idx: int, T: int): (s: seq<int>)
    requires T >= 2 && 0 <= l <= r <= |data| && idx >= 1 && Fits(l, r, idx, T, |sums|)
    ensures |s| == |sums|
    ensures SumsCorrect(data, s, l, r, idx, T)
    ensures forall j :: 0 <= j < |sums| && j !in Touched(l, r, idx, T) ==> s[j] == sums[j]
    decreases r - l
  {
    FitsParts(l, r, idx, T, |sums|);
    if r - l < T then
      sums[idx := Sum(data[l..r])]
    else
      var m := Mid(l, r);
      MidSplitsStrictly(l, r, T);
      var s1 := CountSums(data, sums, l, m, 2 * idx, T);
      var s2 := CountSums(data, s1, m, r, 2 * idx + 1, T);
      CombineSums(data, s1, s2, l, r, idx, T);
      s2[idx := s2[2 * idx] + s2[2 * idx + 1]]
  }

  /** The join step of `countSums`: once both halves hold their subtree
      sums, `sums[idx] = sums[2 * idx] + sums[2 * idx + 1]` completes the
      subtree of `idx`. */
  lemma CombineSums(data: seq<int>, s1: seq<int>, s2: seq<int>, l: int, r: int, idx: int, T: int)
    requires T >= 2 && 0 <= l <= r <= |data| && idx >= 1 && r - l >= T
    requires |s1| == |s2| && Fits(l, r, idx, T, |s1|) && 2 * idx + 1 < |s1|
    requires Fits(l, Mid(l, r), 2 * idx, T, |s1|) && Fits(Mid(l, r), r, 2 * idx + 1, T, |s1|)
    requires SumsCorrect(data, s1, l, Mid(l, r), 2 * idx, T)
    requires SumsCorrect(data, s2, Mid(l, r), r, 2 * idx + 1, T)
    requires forall j :: 0 <= j < |s1| && j !in Touched(Mid(l, r), r, 2 * idx + 1, T) ==> s2[j] == s1[j]
    ensures SumsCorrect(data, s2[idx := s2[2 * idx] + s2[2 * idx + 1]], l, r, idx, T)
  {
    var m := Mid(l, r);
    FitsParts(l, r, idx, T, |s1|);
    var s3 := s2[idx := s2[2 * idx] + s2[2 * idx + 1]];
    HalvesDisjoint(l, r, idx, T);
    SumsCorrectFrame(data, s1, s2, l, m, 2 * idx, T);
    SumsCorrectFrame(data, s2, s3, l, m, 2 * idx, T);
    SumsCorrectFrame(data, s2, s3, m, r, 2 * idx + 1, T);
    SumSplit(data, l, m, r);
  }

  lemma SumFrontAll(data: seq<int>, i: int, r: int)
    requires 0 <= i < r <= |data|
    ensures forall k :: i < k <= r ==> Sum(data[i..k]) == data[i] + Sum(data[i + 1..k])
  {
    assert data[i..i + 1] == [data[i]];
    assert Sum([data[i]]) == Sum([data[i]][..0]) + data[i];
    SumSplitAll(data, i, i + 1, r);
  }

  /** The leaf loop of `propSums`: `s += data[i]; res[i + 1] = s` for each `i`
      of `[i, r)`, starting from the running prefix `acc`. */
  function LeafScan(data: seq<int>, res: seq<int>, i: int, r: int, acc: int): (out: seq<int>)
    requires 0 <= i <= r <= |data| && |res| == |data| + 1
    ensures |out| == |res|
    ensures forall k :: 0 <= k < |res| && !(i < k <= r) ==> out[k] == res[k]
    ensures forall k :: i < k <= r ==> out[k] == acc + Sum(data[i..k])
    decreases r - i
  {
    if i == r then
      res
    else
      SumFrontAll(data, i, r);
      LeafScan(data, res[i + 1 := acc + data[i]], i + 1, r, acc + data[i])
  }

  /** `propSums(l, r, idx, sum)`: when `sums` holds the subtree sums and `acc`
      is the sum of `data[..l]`, writes the prefix sums `res[l + 1..r + 1]`
      and nothing else. The right half starts from `acc + sums[2 * idx]`. */
  function PropSums(data: seq<int>, sums: seq<int>, res: seq<int>, l: int, r: int, idx: int, acc: int, T: int): (out: seq<int>)
    requires T >= 2 && 0 <= l <= r <= |data| && idx >= 1 && Fits(l, r, idx, T, |sums|)
    requires |res| == |data| + 1
    ensures |out| == |res|
    ensures forall k :: 0 <= k < |res| && !(l < k <= r) ==> out[k] == res[k]
    ensures SumsCorrect(data, sums, l, r, idx, T) ==>
      forall k :: l < k <= r ==> out[k] == acc + Sum(data[l..k])
    decreases r - l
  {
    FitsParts(l, r, idx, T, |sums|);
    if r - l < T then
      LeafScan(data, res, l, r, acc)
    else
      var m := Mid(l, r);
      MidSplitsStrictly(l, r, T);
      var left := PropSums(data, sums, res, l, m, 2 * idx, acc, T);
      SumSplitAll(data, l, m, r);
      assert SumsCorrect(data, sums, l, r, idx, T) ==>
        && SumsCorrect(data, sums, l, m, 2 * idx, T)
        && SumsCorrect(data, sums, m, r, 2 * idx + 1, T)
        && sums[2 * idx] == Sum(data[l..m]);
      PropSums(data, sums, left, m, r, 2 * idx + 1, acc + sums[2 * idx], T)
  }

  /** `pscan` with threshold `T`, given a scratch array large enough for
      every node the passes touch. */
  function ScanWith(data: seq<int>, T: int): (res: seq<int>)
    requires T >= 2 && Fits(0, |data|, 1, T, SumsSize(|data|, T))
    ensures |res| == |data| + 1
    ensures forall i :: 0 <= i <= |data| ==> res[i] == Sum(data[..i])
  {
    var sums := CountSums(data, seq(SumsSize(|data|, T), _ => 0), 0, |data|, 1, T);
    var res := PropSums(data, sums, seq(|data| + 1, _ => 0), 0, |data|, 1, 0, T);
    assert forall i :: 0 <= i <= |data| ==> data[0..i] == data[..i];
    res
  }

  lemma MulMono(a: int, b: int, w: int)
    requires a <= b && w >= 0
    ensures a * w <= b * w
  {
  }

  /** A node at weight `w` fits in the scratch array. */
  lemma WeightFits(L: int, idx: int, w: int)
    requires 0 <= L <= MaxArraySize && w >= 1 && 1 <= idx < 2 * w
    requires w == 1 || (PscanThreshold - 1) * w < 2 * L
    ensures idx < SumsSize(L, PscanThreshold)
  {
    var T := PscanThreshold;
    var q := L * 4 / T;
    assert L * 4 < T * (q + 1);
    assert q < 0x8_0000;
    if w > 1 && 2 * w >= q + 2 * T {
      MulMono(q + 2 * T, 2 * w, T - 1);
      assert false;
    }
  }

  /** Splitting a node passes the weight invariant on to both children. */
  lemma HalvesWeights(L: int, l: int, r: int, w: int)
    requires 0 <= l && r - l >= PscanThreshold && w >= 1 && (r - l - 1) * w < L
    ensures (Mid(l, r) - l - 1) * (2 * w) < L && (r - Mid(l, r) - 1) * (2 * w) < L
    ensures (PscanThreshold - 1) * (2 * w) < 2 * L
  {
    var m := Mid(l, r);
    MulMono(PscanThreshold - 1, r - l - 1, w);
    MulMono(2 * (m - l - 1), r - l - 1, w);
    MulMono(2 * (r - m - 1), r - l - 1, w);
  }

  /** The depth argument behind the size formula, at the default threshold:
      a node `idx` at weight `w` (its depth's power of two) covers at most
      `L / w + 1` elements, and its parent was split only if it covered at
      least `PscanThreshold` of them. */
  lemma {:induction false} TouchedBelow(L: int, l: int, r: int, idx: int, w: int)
    requires 0 <= L <= MaxArraySize && 0 <= l <= r && w >= 1 && 1 <= idx < 2 * w
    requires (r - l - 1) * w < L
    requires w == 1 || (PscanThreshold - 1) * w < 2 * L
    ensures forall j :: j in Touched(l, r, idx, PscanThreshold) ==> 1 <= j < SumsSize(L, PscanThreshold)
    decreases r - l
  {
    var T := PscanThreshold;
    WeightFits(L, idx, w);
    if r - l >= T {
      var m := Mid(l, r);
      MidSplitsStrictly(l, r, T);
      HalvesWeights(L, l, r, w);
      TouchedBelow(L, l, m, 2 * idx, 2 * w);
      TouchedBelow(L, m, r, 2 * idx + 1, 2 * w);
    }
  }

  /** At the default threshold `2^14`, every tree index written or read by
      `countSums`/`propSums` is inside the scratch array, for every length a
      Kotlin array can have, with the size formula evaluated over
      mathematical integers. In Kotlin `data.size * 4` wraps from
      `data.size = 2^29` on (the size is negative at `2^29`), so there the
      statement holds only below `2^29`. */
  lemma TreeFitsAtDefaultThreshold(L: int)
    requires 0 <= L <= MaxArraySize
    ensures Fits(0, L, 1, PscanThreshold, SumsSize(L, PscanThreshold))
  {
    TouchedBelow(L, 0, L, 1, 1);
  }

  /** The size formula is not enough for small thresholds: with `T = 2` and
      five elements the passes touch node 15, but the scratch array has 14
      cells. */
  lemma SmallThresholdOverruns()
    ensures SumsSize(5, 2) == 14
    ensures 15 in Touched(0, 5, 1, 2)
    ensures !Fits(0, 5, 1, 2, SumsSize(5, 2))
  {
    assert Mid(0, 5) == 2 && Mid(2, 5) == 3 && Mid(3, 5) == 4;
    assert 15 in Touched(4, 5, 15, 2);
    assert 15 in Touched(3, 5, 7, 2);
    assert 15 in Touched(2, 5, 3, 2);
  }

  lemma SumPrefixStep(data: seq<int>, i: int)
    requires 0 <= i < |data|
    ensures Sum(data[..i + 1]) == Sum(data[..i]) + data[i]
  {
    assert data[..i + 1][..i] == data[..i];
  }

  /** `pscan(pool, data)`: the exclusive prefix sum of `data`, of length
      `data.size + 1`. */
  function Pscan(data: seq<int>): (res: seq<int>)
    requires |data| <= MaxArraySize
    ensures |res| == |data| + 1
    ensures res[0] == 0
    ensures forall i {:trigger data[i]} :: 0 <= i < |data| ==> res[i + 1] == res[i] + data[i]
    ensures res[|data|] == Sum(data)
    ensures forall i :: 0 <= i <= |data| ==> res[i] == Sum(data[..i])
  {
    TreeFitsAtDefaultThreshold(|data|);
    var res := ScanWith(data, PscanThreshold);
    assert data[..|data|] == data;
    forall i | 0 <= i < |data| {
      SumPrefixStep(data, i);
    }
    res
  }

  lemma {:induction false} SumOfOnes(n: nat)
    ensures Sum(seq(n, _ => 1)) == n
  {
    if n > 0 {
      assert seq(n, _ => 1)[..n - 1] == seq(n - 1, _ => 1);
      SumOfOnes(n - 1);
    }
  }

  /** The scan of `n` ones is `[0, 1, ..., n]`. */
  lemma ScanOfOnes(n: nat)
    requires n <= MaxArraySize
    ensures Pscan(seq(n, _ => 1)) == seq(n + 1, i => i)
  {
    var data := seq(n, _ => 1);
    var res := Pscan(data);
    forall i | 0 <= i <= n
      ensures res[i] == i
    {
      assert data[..i] == seq(i, _ => 1);
      SumOfOnes(i);
    }
  }
}
