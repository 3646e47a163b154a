/**
 * How `FileView.compare_and_highlight` cuts the two buffers into chunk pairs:
 * `chunk_size = ceil(maxLen / num_threads)`, one chunk per start in
 * `range(0, maxLen, chunk_size)`, each side sliced with Python's clamping
 * `data[i:i+chunk_size]`.
 */
module Partition {
  import opened Common
  import opened ChunkScan

  /**
   * ceil(m / n), counted by repeated subtraction; CeilDivIsFloorFormula shows
   * it equals the `(m + n - 1) // n` the source writes.
   */
  function CeilDiv(m: nat, n: nat): nat
    requires n >= 1
    decreases m
  {
    if m == 0 then 0 else if m <= n then 1 else 1 + CeilDiv(m - n, n)
  }

  /** `(maxLen + num_threads - 1) // num_threads`, i.e. ceil(maxLen / num_threads). */
  function ChunkSize(maxLen: nat, numThreads: nat): nat
    requires numThreads >= 1
  {
    CeilDiv(maxLen, numThreads)
  }

  /** `(maxLen + chunk_size - 1) // chunk_size`, the value given to `active_comparisons`. */
  function ChunkCount(maxLen: nat, chunkSize: nat): nat
    requires chunkSize >= 1
  {
    CeilDiv(maxLen, chunkSize)
  }

  /** Python's `range(start, stop, step)` for a positive step. */
  function RangeStep(start: nat, stop: nat, step: nat): (r: seq<nat>)
    requires step >= 1
    decreases stop - start
  {
    if start >= stop then [] else [start] + RangeStep(start + step, stop, step)
  }

  /** Python's `s[lo:hi]` for non-negative bounds: both ends are clamped to the length. */
  function Slice<T>(s: seq<T>, lo: nat, hi: nat): (r: seq<T>)
    ensures |r| == if Min(lo, |s|) <= Min(hi, |s|) then Min(hi, |s|) - Min(lo, |s|) else 0
    ensures forall j :: 0 <= j < |r| ==> r[j] == s[lo + j]
  {
    var l, h := Min(lo, |s|), Min(hi, |s|);
    if l <= h then s[l..h] else []
  }

  /** One `ChunkComparisonWorker`: its two chunks and its offset. */
  datatype ChunkTask = ChunkTask(data1Chunk: seq<byte>, data2Chunk: seq<byte>, offset: nat)

  /** The worker built for the chunk starting at i. */
  function TaskAt(data1: seq<byte>, data2: seq<byte>, chunkSize: nat, i: nat): ChunkTask
  {
    ChunkTask(Slice(data1, i, i + chunkSize), Slice(data2, i, i + chunkSize), i)
  }

  /** The workers the dispatch loop creates for the chunk starts from i on. */
  function TasksFrom(data1: seq<byte>, data2: seq<byte>, chunkSize: nat, i: nat): seq<ChunkTask>
    requires chunkSize >= 1
    decreases Max(|data1|, |data2|) - i
  {
    if i >= Max(|data1|, |data2|) then []
    else [TaskAt(data1, data2, chunkSize, i)] + TasksFrom(data1, data2, chunkSize, i + chunkSize)
  }

  /** What a worker emits. */
  function Run(t: ChunkTask): seq<int>
  {
    ChunkDiffs(t.data1Chunk, t.data2Chunk, t.offset)
  }

  /** The workers' lists, in the order of the workers. */
  function Results(ts: seq<ChunkTask>): seq<seq<int>>
  {
    if ts == [] then [] else [Run(ts[0])] + Results(ts[1..])
  }

  lemma {:induction false} MulMono(x: int, y: int, n: int)
    ensures x <= y && n >= 0 ==> x * n <= y * n
  {
    if x <= y && n >= 0 {
      assert y * n - x * n == (y - x) * n;
    }
  }

  /** Euclidean division is determined by any quotient and remainder that fit. */
  lemma {:induction false} DivUnique(a: int, n: int, q: int, r: int)
    requires n > 0 && 0 <= r < n && a == q * n + r
    ensures a / n == q && a % n == r
  {
    var q', r' := a / n, a % n;
    assert a == q' * n + r';
    MulMono(q' + 1, q, n);
    MulMono(q + 1, q', n);
    assert (q' + 1) * n == q' * n + n;
    assert (q + 1) * n == q * n + n;
  }

  lemma {:induction false} DivStep(d: nat, step: nat)
    requires step >= 1
    ensures (d + step) / step == d / step + 1
  {
    var q, r := d / step, d % step;
    assert (q + 1) * step == q * step + step;
    DivUnique(d + step, step, q + 1, r);
  }

  lemma {:induction false} CeilBounds(m: nat, n: nat)
    requires n >= 1
    ensures ((m + n - 1) / n) * n >= m
    ensures m > 0 ==> ((m + n - 1) / n - 1) * n < m
  {
    var q, r := (m + n - 1) / n, (m + n - 1) % n;
    assert m + n - 1 == q * n + r;
    assert q * n - n == (q - 1) * n;
  }

  /** The subtraction count is the source's floor-division formula. */
  lemma {:induction false} CeilDivIsFloorFormula(m: nat, n: nat)
    requires n >= 1
    ensures CeilDiv(m, n) == (m + n - 1) / n
    decreases m
  {
    if m == 0 {
      DivUnique(n - 1, n, 0, n - 1);
    } else if m <= n {
      DivUnique(m + n - 1, n, 1, m - 1);
    } else {
      CeilDivIsFloorFormula(m - n, n);
      DivStep(m - 1, n);
    }
  }

  /** The chunk size is the least size with which num_threads chunks reach maxLen. */
  lemma {:induction false} ChunkSizeIsCeiling(maxLen: nat, numThreads: nat)
    requires numThreads >= 1
    ensures ChunkSize(maxLen, numThreads) * numThreads >= maxLen
    ensures maxLen > 0 ==> ChunkSize(maxLen, numThreads) >= 1
    ensures maxLen > 0 ==> (ChunkSize(maxLen, numThreads) - 1) * numThreads < maxLen
    ensures maxLen == 0 <==> ChunkSize(maxLen, numThreads) == 0
  {
    CeilDivIsFloorFormula(maxLen, numThreads);
    CeilBounds(maxLen, numThreads);
  }

  /** The k-th start of `range(start, stop, step)` is start + k * step, and there are ceil((stop - start) / step) of them. */
  lemma {:induction false} RangeStepShape(start: nat, stop: nat, step: nat)
    requires step >= 1
    ensures |RangeStep(start, stop, step)| == if start >= stop then 0 else (stop - start + step - 1) / step
    ensures forall k :: 0 <= k < |RangeStep(start, stop, step)| ==> RangeStep(start, stop, step)[k] == start + k * step
    decreases stop - start
  {
    if start < stop {
      RangeStepShape(start + step, stop, step);
      DivStep(stop - start - 1, step);
      var rest := RangeStep(start + step, stop, step);
      assert RangeStep(start, stop, step) == [start] + rest;
      forall k | 1 <= k < |rest| + 1
        ensures RangeStep(start, stop, step)[k] == start + k * step
      {
        assert rest[k - 1] == start + step + (k - 1) * step;
      }
    }
  }

  /** `active_comparisons` is the number of iterations of the dispatch loop. */
  lemma {:induction false} CountIsIterations(maxLen: nat, chunkSize: nat)
    requires chunkSize >= 1
    ensures |RangeStep(0, maxLen, chunkSize)| == ChunkCount(maxLen, chunkSize)
  {
    CeilDivIsFloorFormula(maxLen, chunkSize);
    RangeStepShape(0, maxLen, chunkSize);
  }

  /** There are never more chunks than threads. */
  lemma {:induction false} CountAtMostThreads(maxLen: nat, numThreads: nat)
    requires numThreads >= 1 && maxLen > 0
    ensures ChunkCount(maxLen, ChunkSize(maxLen, numThreads)) <= numThreads
  {
    var c := ChunkSize(maxLen, numThreads);
    ChunkSizeIsCeiling(maxLen, numThreads);
    CeilDivIsFloorFormula(maxLen, c);
    var q, r := (maxLen + c - 1) / c, (maxLen + c - 1) % c;
    assert maxLen + c - 1 == q * c + r;
    assert (numThreads + 1) * c == c * numThreads + c;
    MulMono(numThreads + 1, q, c);
  }

  /** The position of the chunk that holds offset x. */
  function ChunkIndex(x: nat, chunkSize: nat): nat
    requires chunkSize >= 1
  {
    x / chunkSize
  }

  /**
   * The ranges [i, min(i + chunk_size, maxLen)) for the starts i of the dispatch
   * loop lie inside [0, maxLen), are pairwise disjoint and together cover it:
   * offset x lies in the chunk numbered ChunkIndex(x).
   */
  lemma {:induction false} ChunksTile(maxLen: nat, chunkSize: nat)
    requires chunkSize >= 1
    ensures var starts := RangeStep(0, maxLen, chunkSize);
      && (forall k :: 0 <= k < |starts| ==> starts[k] < maxLen)
      && (forall k1, k2 :: 0 <= k1 < k2 < |starts| ==> Min(starts[k1] + chunkSize, maxLen) <= starts[k2])
      && (forall x: nat :: x < maxLen ==>
            ChunkIndex(x, chunkSize) < |starts|
            && starts[ChunkIndex(x, chunkSize)] <= x < Min(starts[ChunkIndex(x, chunkSize)] + chunkSize, maxLen))
  {
    var starts := RangeStep(0, maxLen, chunkSize);
    forall k | 0 <= k < |starts|
      ensures starts[k] < maxLen
    {
      StartInside(maxLen, chunkSize, k);
    }
    forall k1, k2 | 0 <= k1 < k2 < |starts|
      ensures starts[k1] + chunkSize <= starts[k2]
    {
      StartsApart(maxLen, chunkSize, k1, k2);
    }
    forall x: nat | x < maxLen
      ensures ChunkIndex(x, chunkSize) < |starts|
      ensures starts[ChunkIndex(x, chunkSize)] <= x < starts[ChunkIndex(x, chunkSize)] + chunkSize
    {
      StartCovers(maxLen, chunkSize, x);
    }
  }

  lemma {:induction false} StartInside(maxLen: nat, chunkSize: nat, k: nat)
    requires chunkSize >= 1 && k < |RangeStep(0, maxLen, chunkSize)|
    ensures RangeStep(0, maxLen, chunkSize)[k] < maxLen
  {
    RangeStepShape(0, maxLen, chunkSize);
    CeilBounds(maxLen, chunkSize);
    var n := |RangeStep(0, maxLen, chunkSize)|;
    assert RangeStep(0, maxLen, chunkSize)[k] == k * chunkSize;
    MulMono(k, n - 1, chunkSize);
  }

  lemma {:induction false} StartsApart(maxLen: nat, chunkSize: nat, k1: nat, k2: nat)
    requires chunkSize >= 1 && k1 < k2 < |RangeStep(0, maxLen, chunkSize)|
    ensures RangeStep(0, maxLen, chunkSize)[k1] + chunkSize <= RangeStep(0, maxLen, chunkSize)[k2]
  {
    RangeStepShape(0, maxLen, chunkSize);
    assert RangeStep(0, maxLen, chunkSize)[k1] == k1 * chunkSize;
    assert RangeStep(0, maxLen, chunkSize)[k2] == k2 * chunkSize;
    MulMono(k1 + 1, k2, chunkSize);
    assert (k1 + 1) * chunkSize == k1 * chunkSize + chunkSize;
  }

  lemma {:induction false} StartCovers(maxLen: nat, chunkSize: nat, x: nat)
    requires chunkSize >= 1 && x < maxLen
    ensures ChunkIndex(x, chunkSize) < |RangeStep(0, maxLen, chunkSize)|
    ensures var s := RangeStep(0, maxLen, chunkSize)[ChunkIndex(x, chunkSize)]; s <= x < s + chunkSize
  {
    var n := |RangeStep(0, maxLen, chunkSize)|;
    var k := ChunkIndex(x, chunkSize);
    assert k * chunkSize <= x < k * chunkSize + chunkSize by { DivBounds(x, chunkSize); }
    assert n * chunkSize >= maxLen by {
      RangeStepShape(0, maxLen, chunkSize);
      CeilBounds(maxLen, chunkSize);
    }
    assert k < n by { MulMono(n, k, chunkSize); }
    assert RangeStep(0, maxLen, chunkSize)[k] == k * chunkSize by { RangeStepShape(0, maxLen, chunkSize); }
  }

  /** The quotient times the divisor is at most x and within one divisor of it. */
  lemma {:induction false} DivBounds(x: nat, n: nat)
    requires n >= 1
    ensures (x / n) * n <= x < (x / n) * n + n
  {
    var q, r := x / n, x % n;
    assert x == q * n + r;
  }

  /** Reading through a slice is reading the buffer at the shifted position, the sentinel included. */
  lemma {:induction false} SliceCell(s: seq<byte>, i: nat, chunkSize: nat, j: nat)
    requires j < chunkSize
    ensures Cell(Slice(s, i, i + chunkSize), j) == Cell(s, i + j)
  {
  }

  lemma {:induction false} WindowScan(data1: seq<byte>, data2: seq<byte>, chunkSize: nat, i: nat, n: nat)
    requires n <= chunkSize
    ensures Scan(Slice(data1, i, i + chunkSize), Slice(data2, i, i + chunkSize), i, 0, n)
         == Scan(data1, data2, 0, i, i + n)
  {
    if n > 0 {
      var a, b := Slice(data1, i, i + chunkSize), Slice(data2, i, i + chunkSize);
      WindowScan(data1, data2, chunkSize, i, n - 1);
      SliceCell(data1, i, chunkSize, n - 1);
      SliceCell(data2, i, chunkSize, n - 1);
      assert Scan(a, b, i, 0, n) == Scan(a, b, i, 0, n - 1) + (if Cell(a, n - 1) != Cell(b, n - 1) then [i + n - 1] else []);
      assert Scan(data1, data2, 0, i, i + n)
          == Scan(data1, data2, 0, i, i + n - 1) + (if Cell(data1, i + n - 1) != Cell(data2, i + n - 1) then [i + n - 1] else []);
    }
  }

  /** A worker's list is the whole-buffer scan restricted to its chunk's range. */
  lemma {:induction false} ChunkIsWindow(data1: seq<byte>, data2: seq<byte>, chunkSize: nat, i: nat)
    requires chunkSize >= 1 && i < Max(|data1|, |data2|)
    ensures Run(TaskAt(data1, data2, chunkSize, i))
         == Scan(data1, data2, 0, i, Min(i + chunkSize, Max(|data1|, |data2|)))
  {
    var t := TaskAt(data1, data2, chunkSize, i);
    var m := Max(|t.data1Chunk|, |t.data2Chunk|);
    assert m == Min(i + chunkSize, Max(|data1|, |data2|)) - i;
    WindowScan(data1, data2, chunkSize, i, m);
  }

  /** The dispatched workers' lists, concatenated in start order, are the scan of [i, maxLen). */
  lemma {:induction false} TasksCoverScan(data1: seq<byte>, data2: seq<byte>, chunkSize: nat, i: nat)
    requires chunkSize >= 1
    ensures Flatten(Results(TasksFrom(data1, data2, chunkSize, i))) == Scan(data1, data2, 0, i, Max(|data1|, |data2|))
    decreases Max(|data1|, |data2|) - i
  {
    var maxLen := Max(|data1|, |data2|);
    if i < maxLen {
      var ts := TasksFrom(data1, data2, chunkSize, i);
      var rest := TasksFrom(data1, data2, chunkSize, i + chunkSize);
      assert ts[1..] == rest;
      TasksCoverScan(data1, data2, chunkSize, i + chunkSize);
      ChunkIsWindow(data1, data2, chunkSize, i);
      if i + chunkSize < maxLen {
        ScanSplit(data1, data2, 0, i, i + chunkSize, maxLen);
      }
    }
  }

  /** The dispatch loop creates one worker per start of `range(0, maxLen, chunk_size)`, in order. */
  lemma {:induction false} TasksFollowStarts(data1: seq<byte>, data2: seq<byte>, chunkSize: nat, i: nat)
    requires chunkSize >= 1
    ensures var maxLen := Max(|data1|, |data2|);
      |TasksFrom(data1, data2, chunkSize, i)| == |RangeStep(i, maxLen, chunkSize)|
      && forall k :: 0 <= k < |TasksFrom(data1, data2, chunkSize, i)| ==>
           TasksFrom(data1, data2, chunkSize, i)[k] == TaskAt(data1, data2, chunkSize, RangeStep(i, maxLen, chunkSize)[k])
    decreases Max(|data1|, |data2|) - i
  {
    if i < Max(|data1|, |data2|) {
      TasksFollowStarts(data1, data2, chunkSize, i + chunkSize);
    }
  }

  /** The workers compare_and_highlight starts for buffers data1, data2 on num_threads threads. */
  function Dispatch(data1: seq<byte>, data2: seq<byte>, numThreads: nat): seq<ChunkTask>
    requires numThreads >= 1
  {
    var chunkSize := ChunkSize(Max(|data1|, |data2|), numThreads);
    if chunkSize == 0 then [] else TasksFrom(data1, data2, chunkSize, 0)
  }

  /**
   * There are at most num_threads chunks, exactly as many as the ceiling
   * quotient compare_and_highlight stores in active_comparisons, and none
   * when both buffers are empty.
   */
  lemma {:induction false} DispatchSize(data1: seq<byte>, data2: seq<byte>, numThreads: nat)
    requires numThreads >= 1
    ensures |Dispatch(data1, data2, numThreads)| <= numThreads
    ensures Max(|data1|, |data2|) > 0 ==>
      |Dispatch(data1, data2, numThreads)| == ChunkCount(Max(|data1|, |data2|), ChunkSize(Max(|data1|, |data2|), numThreads))
    ensures Max(|data1|, |data2|) == 0 <==> Dispatch(data1, data2, numThreads) == []
  {
    var maxLen := Max(|data1|, |data2|);
    var chunkSize := ChunkSize(maxLen, numThreads);
    ChunkSizeIsCeiling(maxLen, numThreads);
    if chunkSize > 0 {
      TasksFollowStarts(data1, data2, chunkSize, 0);
      CountIsIterations(maxLen, chunkSize);
      CountAtMostThreads(maxLen, numThreads);
    }
  }

  /**
   * The union of the chunk lists, each already shifted by its start, is the
   * whole-buffer positional diff.
   */
  lemma {:induction false} DispatchCoversDiff(data1: seq<byte>, data2: seq<byte>, numThreads: nat)
    requires numThreads >= 1
    ensures Flatten(Results(Dispatch(data1, data2, numThreads))) == PositionalDiff(data1, data2)
  {
    var maxLen := Max(|data1|, |data2|);
    var chunkSize := ChunkSize(maxLen, numThreads);
    ChunkSizeIsCeiling(maxLen, numThreads);
    if chunkSize > 0 {
      TasksCoverScan(data1, data2, chunkSize, 0);
    }
  }
}
