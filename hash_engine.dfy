/**
 * The hash mode's `calculate_hashes`: one fresh hasher per supported
 * algorithm, the file read in 64 KiB blocks, every block fed in order to
 * every hasher, and one result text per algorithm, or one and the same
 * error text for all of them. A hasher is abstract: its state is the bytes
 * it has received, and its hex digest is named by the algorithm and those
 * bytes.
 */
module HashEngine {
  import opened Common
  import opened Partition

  /** The size `calculate_hashes` passes to every `f.read`. */
  const BlockSize: nat := 65536

  /** An exception raised by `open` (call 0) or by the call-th `f.read` (calls 1, 2, ...), with its `str(e)`. */
  datatype Fault = Fault(call: nat, message: string)

  /** A file as `calculate_hashes` meets it: its bytes, and the file operation that raises, if any. */
  datatype FileModel = FileModel(content: seq<byte>, fault: Option<Fault>)

  /** `f.read(65536)` with the file position at pos. */
  function ReadBlock(content: seq<byte>, pos: nat): (r: seq<byte>)
    ensures |r| <= BlockSize
    ensures r == [] <==> pos >= |content|
    ensures |r| < BlockSize ==> pos + |r| >= |content|
    ensures pos <= |content| ==> pos + |r| <= |content| && content[..pos] + r == content[..pos + |r|]
  {
    content[Min(pos, |content|)..Min(pos + BlockSize, |content|)]
  }

  /** The blocks the read loop hands on from position pos: every read up to the first empty one. */
  function BlocksFrom(content: seq<byte>, pos: nat): seq<seq<byte>>
    decreases |content| - pos
  {
    var block := ReadBlock(content, pos);
    if block == [] then [] else [block] + BlocksFrom(content, pos + |block|)
  }

  /** The blocks `iter(lambda: f.read(65536), b"")` yields for a whole file. */
  function Blocks(content: seq<byte>): seq<seq<byte>>
  {
    BlocksFrom(content, 0)
  }

  lemma {:induction false} BlocksFromTile(content: seq<byte>, pos: nat)
    requires pos <= |content|
    ensures Flatten(BlocksFrom(content, pos)) == content[pos..]
    decreases |content| - pos
  {
    var block := ReadBlock(content, pos);
    if block != [] {
      BlocksFromTile(content, pos + |block|);
      assert content[pos..] == block + content[pos + |block|..];
    }
  }

  lemma {:induction false} BlocksFromShape(content: seq<byte>, pos: nat)
    ensures |BlocksFrom(content, pos)| == CeilDiv(if pos <= |content| then |content| - pos else 0, BlockSize)
    ensures forall k :: 0 <= k < |BlocksFrom(content, pos)| ==> 1 <= |BlocksFrom(content, pos)[k]| <= BlockSize
    ensures forall k :: 0 <= k < |BlocksFrom(content, pos)| - 1 ==> |BlocksFrom(content, pos)[k]| == BlockSize
    decreases |content| - pos
  {
    var block := ReadBlock(content, pos);
    if block != [] {
      BlocksFromShape(content, pos + |block|);
      var rest := BlocksFrom(content, pos + |block|);
      assert BlocksFrom(content, pos) == [block] + rest;
      if |block| < BlockSize {
        assert rest == [];
      }
    }
  }

  /**
   * Reading a file block by block gives back its bytes in order, in
   * ceil(len / 65536) blocks of 65536 bytes each but the last, which is
   * shorter or full; an empty file gives no block at all.
   */
  lemma {:induction false} BlocksSpec(content: seq<byte>)
    ensures Flatten(Blocks(content)) == content
    ensures |Blocks(content)| == CeilDiv(|content|, BlockSize)
    ensures Blocks(content) == [] <==> content == []
    ensures forall k :: 0 <= k < |Blocks(content)| ==> 1 <= |Blocks(content)[k]| <= BlockSize
    ensures forall k :: 0 <= k < |Blocks(content)| - 1 ==> |Blocks(content)[k]| == BlockSize
  {
    BlocksFromTile(content, 0);
    BlocksFromShape(content, 0);
  }

  /**
   * The `str(e)` of the exception the call runs into: the open, or one of the
   * |Blocks| + 1 reads the loop makes, the last of which returns `b""`. A fault
   * planned for a later call is never reached.
   */
  function FaultMessage(file: FileModel): Option<string>
  {
    match file.fault
    case None => None
    case Some(f) => if f.call <= |Blocks(file.content)| + 1 then Some(f.message) else None
  }

  /** What ends up in an algorithm's output box. */
  datatype HashOutput =
    | Digest(algo: string, input: seq<byte>)  // `hexdigest()` of algo over input
    | Message(text: string)

  /** A `hashlib.new(algo)` object, abstracted to the bytes it has been fed. */
  class Hasher {
    const algo: string
    var received: seq<byte>

    constructor (algo: string)
      ensures this.algo == algo && received == []
    {
      this.algo := algo;
      received := [];
    }

    /** `update(block)`. */
    method Update(block: seq<byte>)
      modifies this`received
      ensures received == old(received) + block
    {
      received := received + block;
    }

    /** `hexdigest()`. */
    function HexDigest(): HashOutput
      reads this`received
    {
      Digest(algo, received)
    }
  }

  /** `{algo: hashlib.new(algo) for algo in supported}`: a new, empty hasher per name, in order. */
  method NewHashers(supported: seq<string>) returns (hashers: seq<Hasher>)
    ensures |hashers| == |supported| && Distinct(hashers)
    ensures forall k :: 0 <= k < |hashers| ==> fresh(hashers[k]) && hashers[k].algo == supported[k] && hashers[k].received == []
  {
    hashers := [];
    var i := 0;
    while i < |supported|
      invariant i <= |supported| && |hashers| == i && Distinct(hashers)
      invariant forall k :: 0 <= k < i ==> fresh(hashers[k]) && hashers[k].algo == supported[k] && hashers[k].received == []
    {
      var h := new Hasher(supported[i]);
      hashers := hashers + [h];
      i := i + 1;
    }
  }

  lemma {:induction false} PrefixOf<T>(xs: seq<T>, ys: seq<T>, zs: seq<T>)
    requires xs + ys == zs
    ensures |xs| <= |zs| && xs == zs[..|xs|]
  {
    assert zs[..|xs|] == (xs + ys)[..|xs|];
  }

  /** One more non-empty read extends both the list of blocks and the bytes read, in order. */
  lemma {:induction false} ReadStep(content: seq<byte>, pos: nat, fed: seq<seq<byte>>)
    requires pos < |content|
    requires fed + BlocksFrom(content, pos) == Blocks(content) && Flatten(fed) == content[..pos]
    ensures var block := ReadBlock(content, pos);
      && (fed + [block]) + BlocksFrom(content, pos + |block|) == Blocks(content)
      && Flatten(fed + [block]) == content[..pos + |block|]
  {
    var block := ReadBlock(content, pos);
    assert BlocksFrom(content, pos) == [block] + BlocksFrom(content, pos + |block|);
    FlattenAppend(fed, [block]);
    assert Flatten([block]) == block + Flatten<byte>([]);
  }

  /** `for hasher in hashers.values(): hasher.update(byte_block)`. */
  method FeedBlock(hashers: seq<Hasher>, block: seq<byte>)
    requires Distinct(hashers)
    modifies set h | h in hashers
    ensures forall k :: 0 <= k < |hashers| ==> hashers[k].received == old(hashers[k].received) + block
  {
    var j := 0;
    while j < |hashers|
      invariant j <= |hashers|
      invariant forall k :: 0 <= k < j ==> hashers[k].received == old(hashers[k].received) + block
      invariant forall k :: j <= k < |hashers| ==> hashers[k].received == old(hashers[k].received)
    {
      hashers[j].Update(block);
      j := j + 1;
    }
  }

  /**
   * The `try` block of calculate_hashes up to the digests: open the file, then
   * read blocks until the first empty one, feeding each block to every
   * hasher. Returns the message of the exception that ends it, if one is
   * raised, and the blocks fed: the first blocks of the file in order, all of
   * them when nothing is raised. Every hasher has received exactly those
   * blocks, one after the other.
   */
  method FeedFile(hashers: seq<Hasher>, file: FileModel) returns (failure: Option<string>, ghost fed: seq<seq<byte>>)
    requires Distinct(hashers)
    requires forall k :: 0 <= k < |hashers| ==> hashers[k].received == []
    modifies set h | h in hashers
    ensures failure == FaultMessage(file)
    ensures |fed| <= |Blocks(file.content)| && fed == Blocks(file.content)[..|fed|]
    ensures failure.None? ==> fed == Blocks(file.content)
    ensures forall k :: 0 <= k < |hashers| ==> hashers[k].received == Flatten(fed)
  {
    fed := [];
    if file.fault.Some? && file.fault.value.call == 0 {
      failure := Some(file.fault.value.message);
      return;
    }
    var content := file.content;
    var pos, calls := 0, 0;
    while true
      invariant pos <= |content| && calls == |fed|
      invariant fed + BlocksFrom(content, pos) == Blocks(content)
      invariant Flatten(fed) == content[..pos]
      invariant file.fault.Some? ==> file.fault.value.call > |fed|
      invariant forall k :: 0 <= k < |hashers| ==> hashers[k].received == content[..pos]
      decreases |content| - pos
    {
      calls := calls + 1;
      if file.fault.Some? && file.fault.value.call == calls {
        PrefixOf(fed, BlocksFrom(content, pos), Blocks(content));
        failure := Some(file.fault.value.message);
        return;
      }
      var block := ReadBlock(content, pos);
      if block == [] {
        break;
      }
      FeedBlock(hashers, block);
      ReadStep(content, pos, fed);
      fed := fed + [block];
      pos := pos + |block|;
    }
    assert fed == Blocks(content);
    failure := None;
  }

  /**
   * `calculate_hashes(file_path)` on the supported algorithms. The keys are
   * exactly the supported names on both paths; without a fault each digest is
   * over the whole file, and with one every name gets the same error text, so
   * no mapping is partial. The result depends on the arguments alone: the
   * hashers are new on every call, so none carries bytes over from another.
   */
  method CalculateHashes(supported: seq<string>, file: FileModel) returns (result: map<string, HashOutput>)
    ensures result.Keys == set a | a in supported
    ensures FaultMessage(file).None? ==> forall a :: a in result ==> result[a] == Digest(a, file.content)
    ensures FaultMessage(file).Some? ==> forall a :: a in result ==> result[a] == Message("Error: " + FaultMessage(file).value)
  {
    var hashers := NewHashers(supported);
    var failure, fed := FeedFile(hashers, file);
    if failure.Some? {
      result := map a | a in supported :: Message("Error: " + failure.value);
      return;
    }
    BlocksSpec(file.content);
    result := map k | 0 <= k < |hashers| :: hashers[k].algo := hashers[k].HexDigest();
    forall a | a in supported
      ensures a in result
    {
      var k :| 0 <= k < |supported| && supported[k] == a;
      assert hashers[k].algo == a;
    }
  }
}
