/**
 * `FileView` of components/delta_mode.py: the state one file pane keeps while it
 * compares its buffer with the other pane's. `compare_and_highlight` starts one
 * chunk worker per chunk on the thread pool; each worker's list comes back
 * through `collect_diffs`, which appends it, counts down `active_comparisons`
 * and sorts `all_diffs` when the count reaches zero.
 *
 * The thread pool is modelled by the field `pool`, the workers started and not
 * yet delivered. `CompleteChunk(k)` is the pool finishing worker k and Qt
 * delivering its signal to `collect_diffs` on the owning thread; choosing k
 * freely gives every possible completion order.
 */
module DeltaMode {
  import opened Common
  import opened Sorting
  import opened ChunkScan
  import opened Partition
  import opened HexDump

  /** The order `list.sort()` uses on offsets. */
  function IntLe(x: int, y: int): bool
  {
    x <= y
  }

  lemma {:induction false} IntLeIsTotalOrder()
    ensures TotalOrder(IntLe)
  {
  }

  lemma {:induction false} IncreasingIsSorted(s: seq<int>)
    requires StrictlyIncreasing(s)
    ensures SortedBy(s, IntLe)
  {
  }

  /** The multiset of all offsets the given workers will emit. */
  function PendingOffsets(ts: seq<ChunkTask>): multiset<int>
  {
    if ts == [] then multiset{} else multiset(Run(ts[0])) + PendingOffsets(ts[1..])
  }

  lemma {:induction false} PendingOffsetsAppend(xs: seq<ChunkTask>, ys: seq<ChunkTask>)
    ensures PendingOffsets(xs + ys) == PendingOffsets(xs) + PendingOffsets(ys)
  {
    if xs == [] {
      assert xs + ys == ys;
    } else {
      assert (xs + ys)[0] == xs[0];
      assert (xs + ys)[1..] == xs[1..] + ys;
      PendingOffsetsAppend(xs[1..], ys);
    }
  }

  lemma {:induction false} PendingOffsetsOfResults(ts: seq<ChunkTask>)
    ensures PendingOffsets(ts) == multiset(Flatten(Results(ts)))
  {
    if ts != [] {
      PendingOffsetsOfResults(ts[1..]);
    }
  }

  /** Concatenating the lists in any order gives the same multiset of offsets. */
  lemma {:induction false} FlattenPermutation(xs: seq<seq<int>>, ys: seq<seq<int>>)
    requires multiset(xs) == multiset(ys)
    ensures multiset(Flatten(xs)) == multiset(Flatten(ys))
    decreases |xs|
  {
    if xs != [] {
      var x := xs[0];
      assert x in multiset(ys) by {
        assert x in multiset(xs);
      }
      var j :| 0 <= j < |ys| && ys[j] == x;
      var others := ys[..j] + ys[j + 1..];
      assert multiset(xs[1..]) == multiset(others) by {
        assert xs == [x] + xs[1..];
        RemoveAt(ys, j);
      }
      FlattenPermutation(xs[1..], others);
      FlattenRemove(ys, j);
    }
  }

  lemma {:induction false} RemoveAt<T>(ys: seq<T>, j: nat)
    requires j < |ys|
    ensures multiset(ys[..j] + ys[j + 1..]) == multiset(ys) - multiset{ys[j]}
  {
    assert ys == ys[..j] + [ys[j]] + ys[j + 1..];
  }

  /** The offsets of the list at j and of all the other lists make up those of all of them. */
  lemma {:induction false} FlattenRemove(ys: seq<seq<int>>, j: nat)
    requires j < |ys|
    ensures multiset(Flatten(ys)) == multiset(ys[j]) + multiset(Flatten(ys[..j] + ys[j + 1..]))
  {
    var before, y, after := ys[..j], ys[j], ys[j + 1..];
    assert ys == (before + [y]) + after;
    calc {
      Flatten(ys);
      { FlattenAppend(before + [y], after); }
      Flatten(before + [y]) + Flatten(after);
      { FlattenAppend(before, [y]); assert Flatten([y]) == y + Flatten<int>([]); }
      Flatten(before) + y + Flatten(after);
    }
    FlattenAppend(before, after);
    assert multiset(Flatten(before) + y + Flatten(after))
        == multiset(Flatten(before)) + multiset(y) + multiset(Flatten(after));
  }

  /**
   * Whatever order the chunk workers finish in, sorting the concatenation of
   * their lists gives the whole-buffer positional diff: the offsets below the
   * longer length where the buffers differ, each once, in increasing order.
   */
  lemma {:induction false} MergedDiffIsPositionalDiff(data1: seq<byte>, data2: seq<byte>, numThreads: nat, order: seq<seq<int>>)
    requires numThreads >= 1
    requires multiset(order) == multiset(Results(Dispatch(data1, data2, numThreads)))
    ensures Sort(Flatten(order), IntLe) == PositionalDiff(data1, data2)
    ensures (set x | x in Sort(Flatten(order), IntLe)) == DiffOffsets(data1, data2)
  {
    DispatchCoversDiff(data1, data2, numThreads);
    FlattenPermutation(order, Results(Dispatch(data1, data2, numThreads)));
    PositionalDiffIsDiffOffsets(data1, data2);
    IncreasingIsSorted(PositionalDiff(data1, data2));
    IntLeIsTotalOrder();
    SortOfPermutation(Flatten(order), PositionalDiff(data1, data2), IntLe);
  }

  /**
   * The merge bookkeeping of a comparison: the counter equals the workers still
   * outstanding and, with the lists delivered so far, adds up to the dispatched
   * count; delivered and outstanding offsets together are the expected diff;
   * `all_diffs` is the delivered lists concatenated until the counter reaches
   * zero, and the expected diff from then on.
   */
  ghost predicate MergeConsistent(allDiffs: seq<int>, active: int, pool: seq<ChunkTask>,
                                  delivered: seq<seq<int>>, dispatched: nat, expected: seq<int>)
  {
    && active == |pool|
    && active + |delivered| == dispatched
    && multiset(Flatten(delivered)) + PendingOffsets(pool) == multiset(expected)
    && StrictlyIncreasing(expected)
    && (active > 0 ==> allDiffs == Flatten(delivered))
    && (active == 0 ==> allDiffs == expected)
  }

  /** The state compare_and_highlight leaves for two non-empty buffers is consistent. */
  lemma {:induction false} StartIsConsistent(data1: seq<byte>, data2: seq<byte>, numThreads: nat, allDiffs: seq<int>, active: int,
                                             pool: seq<ChunkTask>, delivered: seq<seq<int>>, dispatched: nat, expected: seq<int>)
    requires numThreads >= 1 && data1 != [] && data2 != []
    requires allDiffs == [] && delivered == [] && pool == Dispatch(data1, data2, numThreads)
    requires active == dispatched == |pool| && expected == PositionalDiff(data1, data2)
    ensures MergeConsistent(allDiffs, active, pool, delivered, dispatched, expected)
  {
    var ts := pool;
    DispatchCoversDiff(data1, data2, numThreads);
    DispatchSize(data1, data2, numThreads);
    PendingOffsetsOfResults(ts);
    PositionalDiffIsDiffOffsets(data1, data2);
    assert Flatten<int>([]) == [];
  }

  lemma {:induction false} PendingRemove(pool: seq<ChunkTask>, k: nat)
    requires k < |pool|
    ensures PendingOffsets(pool) == PendingOffsets(pool[..k] + pool[k + 1..]) + multiset(Run(pool[k]))
  {
    assert pool == pool[..k] + [pool[k]] + pool[k + 1..];
    PendingOffsetsAppend(pool[..k] + [pool[k]], pool[k + 1..]);
    PendingOffsetsAppend(pool[..k], [pool[k]]);
    PendingOffsetsAppend(pool[..k], pool[k + 1..]);
  }

  lemma {:induction false} FlattenSnoc(delivered: seq<seq<int>>, diffs: seq<int>)
    ensures Flatten(delivered + [diffs]) == Flatten(delivered) + diffs
  {
    FlattenAppend(delivered, [diffs]);
    assert Flatten([diffs]) == diffs + Flatten<int>([]);
  }

  /**
   * Delivering any outstanding worker's list keeps the bookkeeping consistent:
   * the primed values are the state after collect_diffs receives the list of
   * worker k.
   */
  lemma {:induction false} DeliveryKeepsConsistent(allDiffs: seq<int>, active: int, pool: seq<ChunkTask>,
                                delivered: seq<seq<int>>, dispatched: nat, expected: seq<int>, k: nat,
                                allDiffs': seq<int>, active': int, pool': seq<ChunkTask>, delivered': seq<seq<int>>)
    requires MergeConsistent(allDiffs, active, pool, delivered, dispatched, expected)
    requires k < |pool|
    requires active' == active - 1 && pool' == pool[..k] + pool[k + 1..] && delivered' == delivered + [Run(pool[k])]
    requires allDiffs' == if active' == 0 then Sort(allDiffs + Run(pool[k]), IntLe) else allDiffs + Run(pool[k])
    ensures MergeConsistent(allDiffs', active', pool', delivered', dispatched, expected)
  {
    var diffs := Run(pool[k]);
    var rest := pool[..k] + pool[k + 1..];
    PendingRemove(pool, k);
    FlattenSnoc(delivered, diffs);
    assert multiset(Flatten(delivered + [diffs])) + PendingOffsets(rest) == multiset(expected);
    if active - 1 == 0 {
      assert rest == [];
      IncreasingIsSorted(expected);
      IntLeIsTotalOrder();
      SortOfPermutation(Flatten(delivered + [diffs]), expected, IntLe);
    }
  }

  /** The dispatch loop of compare_and_highlight: one worker per start in range(0, maxLen, chunk_size). */
  method StartWorkers(data1: seq<byte>, data2: seq<byte>, chunkSize: nat) returns (started: seq<ChunkTask>)
    requires chunkSize >= 1
    ensures started == TasksFrom(data1, data2, chunkSize, 0)
  {
    var maxLen := Max(|data1|, |data2|);
    started := [];
    var i := 0;
    while i < maxLen
      invariant started + TasksFrom(data1, data2, chunkSize, i) == TasksFrom(data1, data2, chunkSize, 0)
      decreases maxLen - i
    {
      started := started + [ChunkTask(Slice(data1, i, i + chunkSize), Slice(data2, i, i + chunkSize), i)];
      i := i + chunkSize;
    }
  }

  /**
   * The arithmetic of compare_and_highlight for two buffers and num_threads:
   * chunk_size, the value of active_comparisons and the workers started. A
   * chunk_size of 0 starts nothing.
   */
  method PlanChunks(data1: seq<byte>, data2: seq<byte>, numThreads: nat)
    returns (chunkSize: nat, count: nat, started: seq<ChunkTask>)
    requires numThreads >= 1
    ensures chunkSize == ChunkSize(Max(|data1|, |data2|), numThreads)
    ensures chunkSize > 0 ==> count == ChunkCount(Max(|data1|, |data2|), chunkSize)
    ensures started == Dispatch(data1, data2, numThreads)
  {
    var maxLen := Max(|data1|, |data2|);
    chunkSize := ChunkSize(maxLen, numThreads);
    if chunkSize == 0 {
      count, started := 0, [];
      return;
    }
    count := ChunkCount(maxLen, chunkSize);
    started := StartWorkers(data1, data2, chunkSize);
  }

  /** What the file loader delivers to `handle_worker_finished`. */
  datatype LoadResult = Loaded(data: seq<byte>, sha256: string) | LoadError(message: string)

  class FileView {
    /** `file_data`; the empty sequence also stands for `None`, which the source treats alike. */
    var fileData: seq<byte>
    /** The text of `hex_view`. */
    var hexView: string
    /** The text of `hash_output`. */
    var hashOutput: string
    var allDiffs: seq<int>
    var activeComparisons: int
    /** The chunk workers started on the thread pool whose lists have not been delivered. */
    var pool: seq<ChunkTask>

    /** The lists delivered to collect_diffs since the last comparison started, in delivery order. */
    ghost var delivered: seq<seq<int>>
    /** The value of active_comparisons when the last comparison started. */
    ghost var dispatched: nat
    /** The positional diff of the buffers the last comparison was started on. */
    ghost var expected: seq<int>

    ghost predicate Valid()
      reads this`allDiffs, this`activeComparisons, this`pool, this`delivered, this`dispatched, this`expected
    {
      MergeConsistent(allDiffs, activeComparisons, pool, delivered, dispatched, expected)
    }

    constructor ()
      ensures Valid()
      ensures fileData == [] && hexView == "" && hashOutput == "" && allDiffs == [] && activeComparisons == 0 && pool == []
    {
      fileData, hexView, hashOutput := [], "", "";
      allDiffs, activeComparisons, pool := [], 0, [];
      delivered, dispatched, expected := [], 0, [];
    }

    /** The part of `set_file` before the loader thread starts: both boxes say "Loading...". */
    method SetFile()
      modifies this`hexView, this`hashOutput
      ensures hexView == "Loading..." && hashOutput == "Loading..."
    {
      hashOutput := "Loading...";
      hexView := "Loading...";
    }

    /**
     * `handle_worker_finished`: on an error both boxes report it and the old
     * bytes stay; otherwise the loaded bytes are kept, the hash box shows their
     * SHA-256 text and the view shows their dump.
     */
    method HandleWorkerFinished(result: LoadResult)
      modifies this`fileData, this`hexView, this`hashOutput
      ensures result.LoadError? ==>
        && fileData == old(fileData)
        && hexView == "Error reading file: " + result.message
        && hashOutput == "Error: " + result.message
      ensures result.Loaded? ==>
        && fileData == result.data
        && hashOutput == result.sha256
        && hexView == (if fileData == [] then "" else HexDumpText(fileData))
    {
      if result.LoadError? {
        hexView := "Error reading file: " + result.message;
        hashOutput := "Error: " + result.message;
        return;
      }
      fileData := result.data;
      hashOutput := result.sha256;
      DisplayHex(true);
    }

    /** `display_hex(show_content)`. */
    method DisplayHex(showContent: bool)
      modifies this`hexView
      ensures hexView == if fileData == [] then "" else if !showContent then "Comparing..." else HexDumpText(fileData)
    {
      if fileData == [] {
        hexView := "";
        return;
      }
      if !showContent {
        hexView := "Comparing...";
        return;
      }
      hexView := FormatHexDump(fileData);
    }

    /**
     * `compare_and_highlight(other_data)` on a pool of num_threads threads. With
     * nothing outstanding beforehand, the new state is a valid comparison in
     * progress whose expected result is the positional diff of the two buffers.
     */
    method CompareAndHighlight(otherData: seq<byte>, numThreads: nat)
      requires Valid() && numThreads >= 1
      modifies this`hexView, this`allDiffs, this`activeComparisons, this`pool
      modifies this`delivered, this`dispatched, this`expected
      ensures fileData == [] || otherData == [] ==>
        && hexView == (if fileData == [] then "" else HexDumpText(fileData))
        && allDiffs == old(allDiffs) && activeComparisons == old(activeComparisons) && pool == old(pool)
        && delivered == old(delivered) && dispatched == old(dispatched) && expected == old(expected)
      ensures fileData != [] && otherData != [] ==>
        && hexView == "Comparing..."
        && allDiffs == []
        && activeComparisons == |Dispatch(fileData, otherData, numThreads)| <= numThreads
        && activeComparisons == ChunkCount(Max(|fileData|, |otherData|), ChunkSize(Max(|fileData|, |otherData|), numThreads))
        && pool == old(pool) + Dispatch(fileData, otherData, numThreads)
        && expected == PositionalDiff(fileData, otherData)
      ensures old(pool) == [] ==> Valid()
    {
      if fileData == [] || otherData == [] {
        DisplayHex(true);
        return;
      }
      StartComparison(otherData, numThreads);
      if old(pool) == [] {
        StartIsConsistent(fileData, otherData, numThreads, allDiffs, activeComparisons, pool, delivered, dispatched, expected);
      }
    }

    /** The part of compare_and_highlight after both buffers are found non-empty. */
    method StartComparison(otherData: seq<byte>, numThreads: nat)
      requires fileData != [] && otherData != [] && numThreads >= 1
      modifies this`hexView, this`allDiffs, this`activeComparisons, this`pool
      modifies this`delivered, this`dispatched, this`expected
      ensures hexView == "Comparing..."
      ensures allDiffs == []
      ensures activeComparisons == |Dispatch(fileData, otherData, numThreads)| <= numThreads
      ensures activeComparisons == ChunkCount(Max(|fileData|, |otherData|), ChunkSize(Max(|fileData|, |otherData|), numThreads))
      ensures pool == old(pool) + Dispatch(fileData, otherData, numThreads)
      ensures delivered == [] && dispatched == activeComparisons
      ensures expected == PositionalDiff(fileData, otherData)
    {
      DisplayHex(false);
      allDiffs := [];
      var data := fileData;
      var chunkSize, count, started := PlanChunks(data, otherData, numThreads);
      var maxLen := Max(|data|, |otherData|);
      assert chunkSize >= 1 by { ChunkSizeIsCeiling(maxLen, numThreads); }
      if chunkSize == 0 {
        // display_hex() here in the source: unreachable, both buffers are non-empty
        assert false;
      }
      assert count == |started| <= numThreads by { DispatchSize(data, otherData, numThreads); }
      activeComparisons := count;
      pool := pool + started;
      delivered, dispatched := [], |started|;
      expected := PositionalDiff(data, otherData);
    }

    /** `collect_diffs(diffs)`: append, count down, sort once the last list is in. */
    method CollectDiffs(diffs: seq<int>)
      modifies this`allDiffs, this`activeComparisons
      ensures activeComparisons == old(activeComparisons) - 1
      ensures allDiffs == if activeComparisons == 0 then Sort(old(allDiffs) + diffs, IntLe) else old(allDiffs) + diffs
    {
      allDiffs := allDiffs + diffs;
      activeComparisons := activeComparisons - 1;
      if activeComparisons == 0 {
        allDiffs := Sort(allDiffs, IntLe);
      }
    }

    /**
     * Worker k of the pool runs and its list is delivered to collect_diffs.
     * The counter plus the number of delivered lists stays the dispatched
     * count, and once the counter is zero `all_diffs` is the positional diff
     * of the compared buffers, whatever the completion order was.
     */
    method CompleteChunk(k: nat)
      requires Valid() && k < |pool|
      modifies this`pool, this`allDiffs, this`activeComparisons, this`delivered
      ensures Valid()
      ensures pool == old(pool[..k] + pool[k + 1..])
      ensures delivered == old(delivered) + [Run(old(pool[k]))]
      ensures activeComparisons == old(activeComparisons) - 1
      ensures activeComparisons + |delivered| == dispatched
      ensures activeComparisons == 0 ==> allDiffs == expected
    {
      var task := pool[k];
      var diffs := ScanChunk(task.data1Chunk, task.data2Chunk, task.offset);
      ghost var allDiffs0, active0, pool0, delivered0 := allDiffs, activeComparisons, pool, delivered;
      pool := pool[..k] + pool[k + 1..];
      delivered := delivered + [diffs];
      CollectDiffs(diffs);
      DeliveryKeepsConsistent(allDiffs0, active0, pool0, delivered0, dispatched, expected, k,
                              allDiffs, activeComparisons, pool, delivered);
    }
  }
}
