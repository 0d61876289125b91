/** Model of `pfor` (src/BFSs.kt:35-47), the divide-and-conquer index fan-out.

    The two halves are submitted to a fork-join pool and joined; they write
    disjoint indices, so the model runs them one after the other, left half
    first. The per-index `call` becomes a state transformer `(S, int) -> S`. */
module ParallelFor {

  /** `PFOR_THRESHOLD = 1 shl 14`. */
  const PforThreshold: int := 16384

  /** Kotlin's `x / 2` on `Int`: rounds toward zero, unlike Dafny's Euclidean `/`. */
  function Half(x: int): (r: int)
    ensures x >= 0 ==> 0 <= x - 2 * r <= 1
    ensures x < 0 ==> -1 <= x - 2 * r <= 0
  {
    if x >= 0 then x / 2 else -((-x) / 2)
  }

  /** The split point `m = (start + end) / 2`. */
  function Mid(start: int, end: int): (m: int)
    ensures start <= end ==> start <= m <= end
  {
    Half(start + end)
  }

  /** With a threshold of at least 2, a range that is split has both halves
      strictly shorter than itself. */
  lemma MidSplitsStrictly(start: int, end: int, T: int)
    requires T >= 2 && end - start >= T
    ensures start < Mid(start, end) < end
  {
  }

  /** With threshold 1, a range of length one is still split, and one of its
      two halves is the range itself: the recursion makes no progress. */
  lemma ThresholdOneStalls(start: int)
    ensures Mid(start, start + 1) == start || Mid(start, start + 1) == start + 1
  {
  }

  /** The sequential loop `for (i in start until end) call(i)`. */
  function Loop<S>(s: S, start: int, end: int, call: (S, int) -> S): S
    decreases end - start
  {
    if start >= end then s else Loop(call(s, start), start + 1, end, call)
  }

  /** Running `[a, m)` and then `[m, b)` is running `[a, b)`. */
  lemma {:induction false} LoopSplit<S>(s: S, a: int, m: int, b: int, call: (S, int) -> S)
    requires a <= m <= b
    ensures Loop(Loop(s, a, m, call), m, b, call) == Loop(s, a, b, call)
    decreases m - a
  {
    if a < m {
      LoopSplit(call(s, a), a + 1, m, b, call);
    }
  }

  /** `pfor(pool, start, end, call)` run sequentially, with the threshold `T`
      as a parameter. It has exactly the effect of the plain loop over
      `[start, end)` in increasing order. */
  function Pfor<S>(s: S, start: int, end: int, call: (S, int) -> S, T: int): (r: S)
    requires T >= 2
    ensures r == Loop(s, start, end, call)
    decreases end - start
  {
    if end - start < T then
      Loop(s, start, end, call)
    else
      var m := Mid(start, end);
      MidSplitsStrictly(start, end, T);
      var left := Pfor(s, start, m, call, T);
      LoopSplit(s, start, m, end, call);
      Pfor(left, m, end, call, T)
  }

  /** A `call` that only records the index it is given. */
  function Record(trace: seq<int>, i: int): seq<int> {
    trace + [i]
  }

  lemma {:induction false} LoopRecords(trace: seq<int>, start: int, end: int)
    requires start <= end
    ensures Loop(trace, start, end, Record) == trace + seq(end - start, k => start + k)
    decreases end - start
  {
    if start < end {
      LoopRecords(Record(trace, start), start + 1, end);
      assert Record(trace, start) + seq(end - (start + 1), k => start + 1 + k)
          == trace + seq(end - start, k => start + k);
    }
  }

  /** `pfor` hands every index of `[start, end)` to `call` exactly once, in
      increasing order, and no other index; an empty or reversed range gives
      no calls. */
  lemma PforVisitsEachIndexOnce(start: int, end: int, T: int)
    requires T >= 2
    ensures start <= end ==> Pfor([], start, end, Record, T) == seq(end - start, k => start + k)
    ensures end <= start ==> Pfor([], start, end, Record, T) == []
  {
    if start <= end {
      LoopRecords([], start, end);
    }
  }

  /** The per-index action of the test `pfor(..., 0, 1000_000) { ar[it]++ }`. */
  function Increment(a: seq<int>, i: int): seq<int> {
    if 0 <= i < |a| then a[i := a[i] + 1] else a
  }

  lemma {:induction false} LoopIncrements(a: seq<int>, start: int, end: int)
    requires 0 <= start <= end <= |a|
    ensures |Loop(a, start, end, Increment)| == |a|
    ensures forall i :: 0 <= i < |a| ==>
      Loop(a, start, end, Increment)[i] == if start <= i < end then a[i] + 1 else a[i]
    decreases end - start
  {
    if start < end {
      LoopIncrements(Increment(a, start), start + 1, end);
    }
  }

  /** Every cell of `[start, end)` is incremented exactly once; the others are
      left alone. */
  lemma PforIncrementsEachCellOnce(a: seq<int>, start: int, end: int)
    requires 0 <= start <= end <= |a|
    ensures |Pfor(a, start, end, Increment, PforThreshold)| == |a|
    ensures forall i :: 0 <= i < |a| ==>
      Pfor(a, start, end, Increment, PforThreshold)[i] == if start <= i < end then a[i] + 1 else a[i]
  {
    LoopIncrements(a, start, end);
  }
}
