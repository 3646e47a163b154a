# Delta: a verified model of the hash fan-out and the chunked byte diff

This project models the computational core of a desktop tool that does two jobs:

- It hashes a file under every guaranteed `hashlib` algorithm at once.
- It compares two files byte by byte ("delta mode") and highlights every
  offset at which they differ.

Modules:

- `Common` (`common.dfy`): bytes, `Option`, `Flatten`, `Distinct`, `Min`/`Max`.
- `Sorting` (`sorting.dfy`): an insertion sort over a total order, used as
  the model of `list.sort()` and `sorted()`. It is proved sorted and a
  permutation, and it is the only sorted permutation.
- `ChunkScan` (`chunk_scan.dfy`): `ChunkComparisonWorker.run`. Two chunks
  are scanned up to the longer length. A missing byte reads as the
  sentinel -1, and each disagreeing position `offset + i` is recorded.
- `Partition` (`partition.dfy`): how `compare_and_highlight` cuts the
  buffers:
  - `chunk_size = ceil(maxLen / num_threads)`, through the source's own
    formula `(m + n - 1) // n`;
  - one chunk per start of `range(0, maxLen, chunk_size)`;
  - clamped Python slices;
  - proofs that the chunks tile `[0, maxLen)` and that their lists together
    are the whole-buffer diff.
- `HexDump` (`hex_dump.dfy`): the text produced by `display_hex`. Each line
  holds 16 bytes: two upper-case hex digits per byte separated by single
  spaces, padded to 47 characters, then `" | "` and an ASCII column with
  `.` for non-printable bytes.
- `DeltaMode` (`file_view.dfy`): the `FileView` object as a class.
  - Its fields are `file_data`, `hex_view`, `hash_output`, `all_diffs` and
    `active_comparisons`.
  - The field `pool` holds the chunk workers started on the thread pool and
    not yet delivered.
  - Ghost fields record the lists delivered so far, the dispatched count and
    the expected diff.
  - `CompleteChunk(k)` runs any pending worker and delivers its list to
    `collect_diffs`, so every completion order is covered.
  - The invariant `Valid` says:
    - the counter plus the delivered lists equals the dispatched count;
    - the delivered and pending lists together hold the expected offsets;
    - once the counter reaches zero, `all_diffs` is the sorted positional
      diff.
- `Registry` (`registry.dfy`): `supported_algorithms`, which filters out the
  `shake` names and sorts the rest by Python's string order.
- `HashEngine` (`hash_engine.dfy`): `calculate_hashes`.
  - The file is a byte sequence with an optional fault planned at the open or
    at the k-th read.
  - A hasher is an object whose state is the bytes it has received.
  - Its digest is the abstract value `Digest(algo, bytes)`.

## Model

| member | source | states |
|---|---|---|
| ChunkScan.ScanChunk | components/delta_mode.py:64-77 | the worker's loop returns exactly the chunk scan ChunkDiffs of the two chunks at that offset (all loop invariants proved) |
| ChunkScan.Cell | components/delta_mode.py:71-72 | a read gives -1 exactly when the position is past the chunk's end, and the byte itself otherwise |
| ChunkScan.SentinelIsNoByte | components/delta_mode.py:71-73 | the sentinel -1 never equals a byte 0..255, so a position present on one side only always differs |
| ChunkScan.ChunkDiffsMembers | components/delta_mode.py:68-74 | offset+i is in a chunk's list if and only if i < max(len1, len2) and the two reads differ there (either a byte mismatch or exactly one side absent) |
| ChunkScan.ScanMembers | components/delta_mode.py:70-74 | membership in a partial scan over [lo, hi): exactly the shifted positions in that range where the reads differ |
| ChunkScan.ChunkDiffsOrdered | components/delta_mode.py:70-74 | a chunk's list is strictly increasing and every entry lies in [offset, offset + max(len1, len2)) |
| ChunkScan.ScanIncreasing | components/delta_mode.py:70-74 | every partial scan is strictly increasing |
| ChunkScan.ScanSplit | components/delta_mode.py:70 | scanning [lo, mid) and then [mid, hi) gives the scan of [lo, hi) |
| ChunkScan.TailAlwaysReported | components/delta_mode.py:71-73 | when the lengths differ, every position from the shorter length up to the longer is reported |
| ChunkScan.IdenticalChunksNoDiffs | components/delta_mode.py:73 | two identical chunks give an empty list |
| ChunkScan.ScanSymmetric | components/delta_mode.py:73 | swapping the chunks leaves every partial scan unchanged |
| ChunkScan.ChunkDiffsSymmetric | components/delta_mode.py:73 | swapping the two chunks gives the same list |
| ChunkScan.PositionalDiffIsDiffOffsets | components/delta_mode.py:64-77 | the whole-buffer scan is strictly increasing and, as a set, equals the reference set of offsets below max(len A, len B) where the buffers differ |
| Partition.CeilDivIsFloorFormula | components/delta_mode.py:156 | the ceiling quotient used by the model equals the source's (m + n - 1) // n for every m and n >= 1 |
| Partition.ChunkSizeIsCeiling | components/delta_mode.py:156 | chunk_size * num_threads covers maxLen, (chunk_size - 1) * num_threads does not, chunk_size >= 1 when maxLen > 0, and chunk_size == 0 exactly when maxLen == 0 |
| Partition.RangeStepShape | components/delta_mode.py:164 | range(start, stop, step) has ceil((stop - start) / step) elements, the k-th being start + k * step |
| Partition.CountIsIterations | components/delta_mode.py:162-164 | active_comparisons equals the number of iterations of the dispatch loop |
| Partition.CountAtMostThreads | components/delta_mode.py:156-162 | no more chunks are dispatched than there are threads |
| Partition.ChunksTile | components/delta_mode.py:164-166 | the chunk ranges [i, min(i + chunk_size, maxLen)) all start inside [0, maxLen), are pairwise disjoint and cover [0, maxLen); offset x lies in chunk x / chunk_size |
| Partition.StartInside | components/delta_mode.py:164 | every start of the dispatch loop is below maxLen |
| Partition.StartsApart | components/delta_mode.py:164-166 | later chunks start at least chunk_size after earlier ones |
| Partition.StartCovers | components/delta_mode.py:164-166 | every offset below maxLen falls in the chunk numbered offset / chunk_size |
| Partition.Slice | components/delta_mode.py:165-166 | `data[i:i+chunk_size]` clamps both ends to the buffer: its length and its elements are those of the clamped range |
| Partition.SliceCell | components/delta_mode.py:165-166 | reading position j of the slice starting at i is reading position i + j of the buffer, the sentinel included |
| Partition.WindowScan | components/delta_mode.py:165-171 | scanning the two slices at offset i gives the whole-buffer scan restricted to the window |
| Partition.ChunkIsWindow | components/delta_mode.py:164-171 | a worker's list is the whole-buffer scan restricted to [i, min(i + chunk_size, maxLen)) |
| Partition.TasksCoverScan | components/delta_mode.py:164-174 | the dispatched workers' lists, concatenated in start order, are the scan of the buffers from i on |
| Partition.TasksFollowStarts | components/delta_mode.py:164-174 | the dispatch loop creates one worker per start of range(0, maxLen, chunk_size), in order |
| Partition.DispatchSize | components/delta_mode.py:156-164 | the number of workers started is at most num_threads, equals the value stored in active_comparisons, and is zero exactly when both buffers are empty |
| Partition.DispatchCoversDiff | components/delta_mode.py:164-174 | the union of all chunk lists, each already shifted by its start, is the whole-buffer positional diff |
| DeltaMode.IntLeIsTotalOrder | components/delta_mode.py:181 | the order `all_diffs.sort()` uses on offsets is a total order |
| DeltaMode.IncreasingIsSorted | components/delta_mode.py:181 | a strictly increasing list is sorted |
| DeltaMode.PendingOffsetsOfResults | components/delta_mode.py:176-182 | the offsets still owed by the pending workers are the multiset of their concatenated lists |
| DeltaMode.FlattenPermutation | components/delta_mode.py:177 | concatenating the chunk lists in any order yields the same multiset of offsets |
| DeltaMode.MergedDiffIsPositionalDiff | components/delta_mode.py:176-182 | for any delivery order of the dispatched lists, extending and then sorting yields exactly the positional diff, whose set is the reference set of differing offsets |
| DeltaMode.StartIsConsistent | components/delta_mode.py:152-174 | the state compare_and_highlight leaves for two non-empty buffers meets the merge invariant |
| DeltaMode.DeliveryKeepsConsistent | components/delta_mode.py:176-182 | delivering any one pending worker's list to collect_diffs preserves the merge invariant |
| DeltaMode.StartWorkers | components/delta_mode.py:164-174 | the dispatch loop produces the workers of every chunk start, in order |
| DeltaMode.PlanChunks | components/delta_mode.py:154-174 | chunk_size is the ceiling quotient, active_comparisons is the chunk count when chunk_size > 0, and the workers started are the dispatch |
| DeltaMode.FileView.constructor | components/delta_mode.py:88-118 | a new view has no data, no diffs, a zero counter and nothing pending, and it satisfies the merge invariant |
| DeltaMode.FileView.SetFile | components/delta_mode.py:121-124 | both the hash box and the hex view say "Loading..." while the file loads |
| DeltaMode.FileView.HandleWorkerFinished | components/delta_mode.py:134-143 | on an error both boxes show it and the bytes are kept; otherwise the loaded bytes are kept, the hash box shows their SHA-256 text and the hex view shows their dump |
| DeltaMode.FileView.DisplayHex | components/delta_mode.py:251-273 | no data gives "", show_content false gives "Comparing...", and otherwise the view holds the full hex dump of file_data |
| DeltaMode.FileView.CompareAndHighlight | components/delta_mode.py:147-174 | if either buffer is empty, the dump is shown and no counter, diff or worker changes; otherwise the view says "Comparing...", all_diffs is cleared, the counter is the number of chunks (at most num_threads), one worker per chunk is started, and from an idle view the merge invariant holds |
| DeltaMode.FileView.StartComparison | components/delta_mode.py:152-174 | the main path of compare_and_highlight: the chunk_size == 0 branch is unreachable for non-empty buffers, and the counter equals the number of workers started |
| DeltaMode.FileView.CollectDiffs | components/delta_mode.py:176-182 | the list is appended and the counter drops by one; all_diffs is sorted exactly when the counter reaches zero |
| DeltaMode.FileView.CompleteChunk | components/delta_mode.py:176-182 | any pending worker runs and is delivered; the invariant is kept, counter plus delivered lists stays the dispatched count, and at zero all_diffs is the positional diff of the compared buffers, whatever the completion order |
| Sorting.InsertPermutes | components/delta_mode.py:181 | inserting keeps the multiset of elements |
| Sorting.InsertSorted | components/delta_mode.py:181 | inserting into a sorted list under a total order keeps it sorted |
| Sorting.SortCorrect | components/delta_mode.py:181 | the sort is sorted and a permutation of its input |
| Sorting.SortedUnique | components/delta_mode.py:181 | two sorted lists with the same multiset are equal |
| Sorting.SortOfPermutation | components/delta_mode.py:181 | a sorted permutation of a list is its sort, so the result does not depend on the input order |
| HexDump.HexByteRoundTrip | components/delta_mode.py:265 | each byte becomes exactly two upper-case hex digits whose value, read back, is the byte |
| HexDump.JoinTokens | components/delta_mode.py:265 | joining n two-character tokens with one separator gives 3n - 1 characters, token k at position 3k, followed by the separator |
| HexDump.HexLineLayout | components/delta_mode.py:262-271 | the exact layout of one line: the hex tokens at positions 3k, single spaces between them, space padding to 47, then " \| ", then the bytes 32..126 as themselves and every other byte as "." |
| HexDump.HexLineHasNoNewline | components/delta_mode.py:265-271 | a line never holds a newline |
| HexDump.JoinPrintable | components/delta_mode.py:265-271 | joining printable parts with a printable separator gives a printable string |
| HexDump.JoinCount | components/delta_mode.py:273 | joining n parts that contain no separator character gives n - 1 separators |
| HexDump.HexLinesCount | components/delta_mode.py:261 | there are ceil(len / 16) lines |
| HexDump.HexLinesShape | components/delta_mode.py:261-271 | there are ceil(len / 16) lines, and line k is the line of bytes [16k, min(16k + 16, len)) |
| HexDump.LineOfRest | components/delta_mode.py:261-262 | line k of the rest after the first 16 bytes is line k + 1 of the whole data |
| HexDump.HexDumpLines | components/delta_mode.py:252-273 | the dump is empty exactly when the data is, and otherwise has ceil(len / 16) lines joined by exactly ceil(len / 16) - 1 newlines |
| HexDump.FormatHexDump | components/delta_mode.py:260-273 | the line-building loop returns exactly the specified dump text |
| Registry.StrLeIsTotalOrder | __main__.py:83 | the code-point order sorted() uses on names is transitive, total and antisymmetric |
| Registry.StrLeAntisymmetric | __main__.py:83 | two names each at most the other are equal |
| Registry.StrLeTransitive | __main__.py:83 | the name order is transitive |
| Registry.StrLeTotal | __main__.py:83 | any two names are ordered one way or the other |
| Registry.KeepFixedLength | __main__.py:83 | the comprehension keeps exactly the names without the "shake" prefix, and never adds any |
| Registry.KeepCounts | __main__.py:83 | every name without the prefix is kept as often as it occurs |
| Registry.KeepPreservesPermutation | __main__.py:83 | filtering two listings of the same names gives the same multiset |
| Registry.SupportedAlgorithmsSpec | __main__.py:83 | the list is ascending, holds a name if and only if it is guaranteed and does not start with "shake", and keeps every such name as often as the input does |
| Registry.SupportedAlgorithmsStrict | __main__.py:83 | from a set of names the list has no repeats |
| Registry.SupportedAlgorithmsOrderFree | __main__.py:83 | the list does not depend on the set's iteration order |
| HashEngine.ReadBlock | __main__.py:159 | each read returns at most 65536 bytes, is empty exactly at end of file, is short only at the end, and continues the bytes read so far |
| HashEngine.BlocksFromTile | __main__.py:159 | the blocks read from a position concatenate to the rest of the file |
| HashEngine.BlocksFromShape | __main__.py:159 | from a position there are ceil(rest / 65536) blocks, each 1..65536 bytes, all full but the last |
| HashEngine.BlocksSpec | __main__.py:159 | the loop stops at the first empty read; the blocks concatenate to the file, number ceil(len / 65536), are each 1..65536 bytes, are all full but the last, and there are none for an empty file |
| HashEngine.Hasher.constructor | __main__.py:154 | a new hasher for algo has received nothing |
| HashEngine.Hasher.Update | __main__.py:162 | update appends the block to what the hasher has received |
| HashEngine.NewHashers | __main__.py:154 | one fresh, distinct, empty hasher per supported name, in order |
| HashEngine.ReadStep | __main__.py:159-162 | one more non-empty read extends both the blocks fed and the bytes fed, in order |
| HashEngine.FeedBlock | __main__.py:161-162 | every hasher, and only those, receives the block once |
| HashEngine.FeedFile | __main__.py:156-162 | the failure is the fault the open or a read runs into, if any; the blocks fed are the file's first blocks in order, all of them on success; every hasher received exactly their concatenation |
| HashEngine.CalculateHashes | __main__.py:152-169 | the keys are exactly the supported names on both paths; without a fault each value is the digest of the whole file under its own algorithm; with one every value is the same "Error: " + message |

## Left out

- The Qt front end is left out: widgets, layouts, stylesheets, drop zones,
  the clipboard, `DeltaModeWidget`, `process_file`'s box updates and the
  whole of `components/hash_mode.py`.
- `QThread`, `QThreadPool` and signal/slot dispatch are left out.
  - A chunk worker runs atomically when the pool picks it, in any order.
  - `collect_diffs` is called once per worker, one call at a time, as Qt
    delivers it on the owning thread.
- `num_threads` is a parameter with `num_threads >= 1`, which is what
  `maxThreadCount()` returns.
- `apply_highlights` renders HTML spans from the diff set and reads the other
  view's widget, so it is presentation and is left out.
  `highlight_diffs` is an empty placeholder.
- File I/O is not modelled.
  - `Worker.run`'s `open`/`read` and its SHA-256 are not modelled:
    `HandleWorkerFinished` receives their outcome as a `LoadResult`.
    `set_file_old` is not modelled either.
  - In `calculate_hashes`, the file is a `FileModel` (its content plus an
    optional fault at the open, call 0, or at the k-th read).
- The UI side effects are left out: `update_hashes_signal.emit()`,
  `self.thread.quit()` and the thread start in `set_file`.
- `hashlib` digests are abstract: `HexDigest` returns `Digest(algo, bytes)`.
  `hashlib.algorithms_guaranteed` is a parameter listing the set in some
  iteration order.
- `file_data` being `None` is modelled by the empty sequence. Both are
  falsy, and the source treats them alike.
- `list.sort()` and `sorted()` are modelled by one insertion sort. The model
  proves it is the unique sorted permutation, so any correct sort gives the
  same list.
- DeltaMode.FileView.CompareAndHighlight does not promise the merge invariant
  when called while workers from an earlier comparison are still pending.
  The source has no guard for that case: it resets `all_diffs` and the
  counter, and the late lists of the old run are then counted against the
  new one.
- The system's design description has more than the code:
  - a size guard (1 MiB);
  - a short-circuit on equal digests;
  - generation-based cancellation of stale comparisons;
  - streaming the delta-mode file load instead of reading it whole.

  The code has none of these, and the model follows the code.
