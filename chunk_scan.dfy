/**
 * The per-chunk comparison of `ChunkComparisonWorker.run`: a linear scan of two
 * byte chunks that records `offset + i` for every position where they disagree,
 * a position past the end of one chunk reading as the sentinel -1.
 */
module ChunkScan {
  import opened Common

  /** The value the worker reads at position i: the byte, or -1 past the end. */
  function Cell(s: seq<byte>, i: nat): (r: int)
    ensures r == -1 <==> i >= |s|
    ensures i < |s| ==> r == s[i]
  {
    if i < |s| then s[i] else -1
  }

  /** The absent-byte sentinel never equals a real byte. */
  lemma {:induction false} SentinelIsNoByte(b: byte)
    ensures b != -1
  {
  }

  /**
   * The offsets `offset + i`, for i in [lo, hi) in increasing order, at which the
   * two chunks read differently. This is what the worker's loop has appended
   * once it has reached i == hi starting from lo.
   */
  function Scan(a: seq<byte>, b: seq<byte>, offset: int, lo: nat, hi: nat): seq<int>
    decreases hi - lo
  {
    if hi <= lo then []
    else Scan(a, b, offset, lo, hi - 1) + (if Cell(a, hi - 1) != Cell(b, hi - 1) then [offset + hi - 1] else [])
  }

  /** The list a worker emits for the chunk pair (a, b) starting at `offset`. */
  function ChunkDiffs(a: seq<byte>, b: seq<byte>, offset: int): seq<int>
  {
    Scan(a, b, offset, 0, Max(|a|, |b|))
  }

  /** The whole-buffer positional diff: the chunk scan over the entire buffers. */
  function PositionalDiff(a: seq<byte>, b: seq<byte>): seq<int>
  {
    ChunkDiffs(a, b, 0)
  }

  /** Reference definition: the offsets below the longer length at which the buffers differ. */
  ghost function DiffOffsets(a: seq<byte>, b: seq<byte>): set<int>
  {
    set i: nat | i < Max(|a|, |b|) && Cell(a, i) != Cell(b, i)
  }

  /** Strictly increasing, hence free of duplicates. */
  predicate StrictlyIncreasing(s: seq<int>)
  {
    forall i, j :: 0 <= i < j < |s| ==> s[i] < s[j]
  }

  lemma {:induction false} ScanMembers(a: seq<byte>, b: seq<byte>, offset: int, lo: nat, hi: nat, x: int)
    ensures x in Scan(a, b, offset, lo, hi) <==>
      offset + lo <= x < offset + hi && Cell(a, x - offset) != Cell(b, x - offset)
    decreases hi - lo
  {
    if hi > lo {
      ScanMembers(a, b, offset, lo, hi - 1, x);
    }
  }

  lemma {:induction false} ScanIncreasing(a: seq<byte>, b: seq<byte>, offset: int, lo: nat, hi: nat)
    ensures StrictlyIncreasing(Scan(a, b, offset, lo, hi))
    decreases hi - lo
  {
    if hi > lo {
      ScanIncreasing(a, b, offset, lo, hi - 1);
      var prefix := Scan(a, b, offset, lo, hi - 1);
      forall k | 0 <= k < |prefix|
        ensures prefix[k] < offset + hi - 1
      {
        ScanMembers(a, b, offset, lo, hi - 1, prefix[k]);
      }
    }
  }

  /** Scanning [lo, mid) and then [mid, hi) is scanning [lo, hi). */
  lemma {:induction false} ScanSplit(a: seq<byte>, b: seq<byte>, offset: int, lo: nat, mid: nat, hi: nat)
    requires lo <= mid <= hi
    ensures Scan(a, b, offset, lo, mid) + Scan(a, b, offset, mid, hi) == Scan(a, b, offset, lo, hi)
    decreases hi - mid
  {
    if hi > mid {
      ScanSplit(a, b, offset, lo, mid, hi - 1);
    }
  }

  /** The worker's list holds exactly the differing positions, shifted by the offset. */
  lemma {:induction false} ChunkDiffsMembers(a: seq<byte>, b: seq<byte>, offset: int, x: int)
    ensures x in ChunkDiffs(a, b, offset) <==>
      offset <= x < offset + Max(|a|, |b|) && Cell(a, x - offset) != Cell(b, x - offset)
  {
    ScanMembers(a, b, offset, 0, Max(|a|, |b|), x);
  }

  /** The worker's list is strictly increasing and lies in [offset, offset + max(len1, len2)). */
  lemma {:induction false} ChunkDiffsOrdered(a: seq<byte>, b: seq<byte>, offset: int)
    ensures StrictlyIncreasing(ChunkDiffs(a, b, offset))
    ensures forall x :: x in ChunkDiffs(a, b, offset) ==> offset <= x < offset + Max(|a|, |b|)
  {
    ScanIncreasing(a, b, offset, 0, Max(|a|, |b|));
    forall x | x in ChunkDiffs(a, b, offset)
      ensures offset <= x < offset + Max(|a|, |b|)
    {
      ChunkDiffsMembers(a, b, offset, x);
    }
  }

  /** When the lengths differ, every position past the shorter chunk is reported. */
  lemma {:induction false} TailAlwaysReported(a: seq<byte>, b: seq<byte>, offset: int, i: nat)
    requires Min(|a|, |b|) <= i < Max(|a|, |b|)
    ensures offset + i in ChunkDiffs(a, b, offset)
  {
    ChunkDiffsMembers(a, b, offset, offset + i);
    assert Cell(a, i) == -1 || Cell(b, i) == -1;
    assert Cell(a, i) != -1 || Cell(b, i) != -1;
  }

  /** Identical chunks yield an empty list. */
  lemma {:induction false} IdenticalChunksNoDiffs(a: seq<byte>, offset: int)
    ensures ChunkDiffs(a, a, offset) == []
  {
    var r := ChunkDiffs(a, a, offset);
    if r != [] {
      ChunkDiffsMembers(a, a, offset, r[0]);
    }
  }

  /** Swapping the two chunks gives the same list. */
  lemma {:induction false} ScanSymmetric(a: seq<byte>, b: seq<byte>, offset: int, lo: nat, hi: nat)
    ensures Scan(a, b, offset, lo, hi) == Scan(b, a, offset, lo, hi)
    decreases hi - lo
  {
    if hi > lo {
      ScanSymmetric(a, b, offset, lo, hi - 1);
    }
  }

  lemma {:induction false} ChunkDiffsSymmetric(a: seq<byte>, b: seq<byte>, offset: int)
    ensures ChunkDiffs(a, b, offset) == ChunkDiffs(b, a, offset)
  {
    ScanSymmetric(a, b, offset, 0, Max(|a|, |b|));
  }

  /** The whole-buffer diff is the reference set, listed in increasing order. */
  lemma {:induction false} PositionalDiffIsDiffOffsets(a: seq<byte>, b: seq<byte>)
    ensures StrictlyIncreasing(PositionalDiff(a, b))
    ensures (set x | x in PositionalDiff(a, b)) == DiffOffsets(a, b)
  {
    ChunkDiffsOrdered(a, b, 0);
    forall x
      ensures x in PositionalDiff(a, b) <==> x in DiffOffsets(a, b)
    {
      ChunkDiffsMembers(a, b, 0, x);
    }
  }

  /**
   * `ChunkComparisonWorker.run`: the loop over i in range(max_len), appending
   * offset + i whenever the two reads differ.
   */
  method ScanChunk(data1Chunk: seq<byte>, data2Chunk: seq<byte>, offset: int) returns (diffs: seq<int>)
    ensures diffs == ChunkDiffs(data1Chunk, data2Chunk, offset)
  {
    diffs := [];
    var len1 := |data1Chunk|;
    var len2 := |data2Chunk|;
    var maxLen := Max(len1, len2);
    var i := 0;
    while i < maxLen
      invariant 0 <= i <= maxLen
      invariant diffs == Scan(data1Chunk, data2Chunk, offset, 0, i)
    {
      var byte1 := if i < len1 then data1Chunk[i] else -1;
      var byte2 := if i < len2 then data2Chunk[i] else -1;
      if byte1 != byte2 {
        diffs := diffs + [offset + i];
      }
      i := i + 1;
    }
  }
}
