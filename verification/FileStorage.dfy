/** Files as blobs that downloads are written into block by block. */
module FileStorage {
  import opened Octets

  type Handle = nat

  datatype Blob = Blob(kind: string, bytes: Bytes)

  function Min(a: int, b: int): int { if a < b then a else b }

  function Max(a: int, b: int): int { if a < b then b else a }

  /** A slice bound as the File API clamps it (section 3.3.1): from the end if negative, and within the blob. */
  function Clamp(at: int, size: nat): nat {
    if at < 0 then Max(size + at, 0) else Min(at, size)
  }

  function Slice(bytes: Bytes, start: int, end: int): Bytes {
    var from, to := Clamp(start, |bytes|), Clamp(end, |bytes|);
    bytes[from..Max(from, to)]
  }

  function Zeros(n: nat): Bytes { seq(n, _ => 0) }

  /** The bytes of the new blob. */
  function Spliced(bytes: Bytes, offset: int, data: Bytes): Bytes {
    var header := Slice(bytes, 0, offset);
    var trailer := Slice(bytes, offset + |data|, |bytes|);
    var fill := Max(0, offset - |header|);
    header + Zeros(fill) + data + trailer
  }

  class Storage {
    var files: map<Handle, Blob>
    var nextHandle: Handle

    ghost predicate Valid()
      reads this
    {
      forall h | h in files :: h < nextHandle
    }

    constructor ()
      ensures Valid() && files == map[] && nextHandle == 1
    {
      files, nextHandle := map[], 1;
    }

    method Create(kind: string) returns (handle: Handle)
      requires Valid()
      modifies this
      ensures Valid() && handle !in old(files) && files == old(files)[handle := Blob(kind, [])]
      ensures old(nextHandle) <= handle < nextHandle
    {
      handle := nextHandle;
      files, nextHandle := files[handle := Blob(kind, [])], handle + 1;
    }

    method Delete(handle: Handle)
      requires Valid()
      modifies this
      ensures Valid() && nextHandle == old(nextHandle) && files == old(files) - {handle}
    {
      files := files - {handle};
    }

    /** Writing to a file that is gone fails before anything is stored. */
    method Write(handle: Handle, offset: nat, data: Bytes)
      requires Valid()
      modifies this
      ensures Valid() && nextHandle == old(nextHandle)
      ensures handle !in old(files) ==> files == old(files)
      ensures handle in old(files) ==>
                && files.Keys == old(files).Keys && (forall h | h in files && h != handle :: files[h] == old(files)[h])
                && files[handle].kind == old(files)[handle].kind
                && Overwritten(old(files)[handle].bytes, offset, data, files[handle].bytes)
    {
      if handle !in files { return; }
      var blob := files[handle];
      var header := Slice(blob.bytes, 0, offset);
      var trailer := Slice(blob.bytes, offset + |data|, |blob.bytes|);
      var fill := Max(0, offset - |header|);
      SpliceOverwrites(blob.bytes, offset, data);
      files := files[handle := Blob(blob.kind, header + Zeros(fill) + data + trailer)];
    }
  }

  // ---------------------------------------------------------------- what a write means

  /** `after` is `before` with data over it from offset on, zeros in a gap, and no byte lost. */
  predicate Overwritten(before: Bytes, offset: nat, data: Bytes, after: Bytes) {
    && |after| == Max(|before|, offset + |data|)
    && forall i | 0 <= i < |after| ::
         after[i] == if offset <= i < offset + |data| then data[i - offset] else if i < |before| then before[i] else 0
  }

  lemma {:induction false} SpliceOverwrites(bytes: Bytes, offset: nat, data: Bytes)
    ensures Overwritten(bytes, offset, data, Spliced(bytes, offset, data))
  {
    var after := Spliced(bytes, offset, data);
    if offset <= |bytes| {
      assert Slice(bytes, 0, offset) == bytes[..offset];
    } else {
      assert Slice(bytes, 0, offset) == bytes;
    }
    var end := offset + |data|;
    if end <= |bytes| {
      assert Slice(bytes, end, |bytes|) == bytes[end..];
    } else {
      assert Slice(bytes, end, |bytes|) == [];
    }
  }

  // ---------------------------------------------------------------- reassembly

  /** A block of a file: where it starts and how long it is. */
  datatype Block = Block(offset: nat, length: nat)

  predicate AllWithin(blocks: seq<Block>, size: nat) {
    forall i | 0 <= i < |blocks| :: blocks[i].offset + blocks[i].length <= size
  }

  /** The bytes left by writing blocks of `file` one after the other. */
  function Reassembled(file: Bytes, blocks: seq<Block>, bytes: Bytes): Bytes
    requires AllWithin(blocks, |file|)
    decreases |blocks|
  {
    if blocks == [] then bytes else
    var b := blocks[0];
    Reassembled(file, blocks[1..], Spliced(bytes, b.offset, file[b.offset..b.offset + b.length]))
  }

  predicate Covered(blocks: seq<Block>, i: nat) {
    exists b | b in blocks :: b.offset <= i < b.offset + b.length
  }

  /** The end of the block that reaches furthest. */
  function Reach(blocks: seq<Block>): nat
    decreases |blocks|
  {
    if blocks == [] then 0 else Max(blocks[0].offset + blocks[0].length, Reach(blocks[1..]))
  }

  /** At i, `after` holds what the file does if the blocks cover it, else what was there before. */
  predicate RebuiltAt(file: Bytes, blocks: seq<Block>, before: Bytes, after: Bytes, i: nat) {
    && |after| == Max(|before|, Reach(blocks))
    && (Covered(blocks, i) ==> i < |after| && i < |file|)
    && (i < |after| ==> after[i] == if Covered(blocks, i) then file[i] else if i < |before| then before[i] else 0)
  }

  /** Writing blocks, in any order and with repeats, rebuilds the file where they cover it. */
  lemma {:induction false} ReassembledAt(file: Bytes, blocks: seq<Block>, bytes: Bytes, i: nat)
    requires AllWithin(blocks, |file|)
    ensures RebuiltAt(file, blocks, bytes, Reassembled(file, blocks, bytes), i)
    decreases |blocks|
  {
    hide Spliced, RebuiltAt;
    if blocks == [] {
      NoBlocks(file, bytes, i);
    } else {
      var b := blocks[0];
      BlockAt(file, b, bytes, i);
      var after := Spliced(bytes, b.offset, file[b.offset..b.offset + b.length]);
      ReassembledAt(file, blocks[1..], after, i);
      OneMoreBlock(file, blocks, bytes, after, Reassembled(file, blocks[1..], after), i);
    }
  }

  lemma {:induction false} NoBlocks(file: Bytes, bytes: Bytes, i: nat)
    ensures RebuiltAt(file, [], bytes, bytes, i)
  {
  }

  lemma {:induction false} OneMoreBlock(file: Bytes, blocks: seq<Block>, before: Bytes, middle: Bytes, after: Bytes,
          i: nat)
    requires blocks != [] && blocks[0].offset + blocks[0].length <= |file|
             && RebuiltAt(file, blocks[1..], middle, after, i)
    requires WrittenAt(file, blocks[0], before, middle, i)
    ensures RebuiltAt(file, blocks, before, after, i)
  {
    CoveredFirst(blocks, i);
    hide Covered;
  }

  predicate WrittenAt(file: Bytes, b: Block, before: Bytes, after: Bytes, i: nat)
    requires b.offset + b.length <= |file|
  {
    && |after| == Max(|before|, b.offset + b.length)
    && (i < |after| ==>
          after[i] ==
          if b.offset <= i < b.offset + b.length then file[i] else if i < |before| then before[i] else 0)
  }

  lemma {:induction false} BlockAt(file: Bytes, b: Block, bytes: Bytes, i: nat)
    requires b.offset + b.length <= |file|
    ensures WrittenAt(file, b, bytes, Spliced(bytes, b.offset, file[b.offset..b.offset + b.length]), i)
  {
    var data := file[b.offset..b.offset + b.length];
    hide Spliced;
    SpliceOverwrites(bytes, b.offset, data);
  }

  lemma {:induction false} CoveredFirst(blocks: seq<Block>, i: nat)
    requires blocks != []
    ensures Covered(blocks, i) <==>
            blocks[0].offset <= i < blocks[0].offset + blocks[0].length || Covered(blocks[1..], i)
  {
    assert blocks == [blocks[0]] + blocks[1..];
  }

  /** A download that starts empty rebuilds the file exactly when its blocks reach the end of the file and cover
      every byte of it that is not zero. */
  lemma {:induction false} RebuildsIff(file: Bytes, blocks: seq<Block>)
    requires AllWithin(blocks, |file|)
    ensures Reassembled(file, blocks, []) == file <==>
              Reach(blocks) == |file| && forall i | 0 <= i < |file| && file[i] != 0 :: Covered(blocks, i)
  {
    var r := Reassembled(file, blocks, []);
    forall i | 0 <= i < |file|
      ensures |r| == Reach(blocks)
      ensures i < |r| ==> r[i] == if Covered(blocks, i) then file[i] else 0
    {
      ReassembledAt(file, blocks, [], i);
    }
    ReassembledAt(file, blocks, [], 0);
    if r == file {
      forall i | 0 <= i < |file| && file[i] != 0 ensures Covered(blocks, i) { assert r[i] == file[i]; }
    }
  }

  /** In particular, blocks that cover the file rebuild it, in any order and with repeats. */
  lemma {:induction false} CoveringBlocksRebuild(file: Bytes, blocks: seq<Block>)
    requires AllWithin(blocks, |file|)
    requires forall i | 0 <= i < |file| :: Covered(blocks, i)
    ensures Reassembled(file, blocks, []) == file
  {
    RebuildsIff(file, blocks);
    ReassembledAt(file, blocks, [], 0);
    if file != [] { ReassembledAt(file, blocks, [], |file| - 1); }
    ReachWithin(blocks, |file|);
  }

  lemma {:induction false} ReachWithin(blocks: seq<Block>, size: nat)
    requires AllWithin(blocks, size)
    ensures Reach(blocks) <= size
    decreases |blocks|
  {
    if blocks != [] { ReachWithin(blocks[1..], size); }
  }

  /** What a download leaves depends only on which blocks were written. */
  lemma {:induction false} OrderDoesNotMatter(file: Bytes, blocks: seq<Block>, others: seq<Block>)
    requires AllWithin(blocks, |file|) && AllWithin(others, |file|) && forall b :: b in blocks <==> b in others
    ensures Reassembled(file, blocks, []) == Reassembled(file, others, [])
  {
    var r, r' := Reassembled(file, blocks, []), Reassembled(file, others, []);
    ReachOfSame(blocks, others);
    ReachOfSame(others, blocks);
    ReassembledAt(file, blocks, [], 0);
    ReassembledAt(file, others, [], 0);
    assert |r| == |r'|;
    forall i | 0 <= i < |r| ensures r[i] == r'[i] {
      ReassembledAt(file, blocks, [], i);
      ReassembledAt(file, others, [], i);
      assert Covered(blocks, i) <==> Covered(others, i);
    }
  }

  lemma {:induction false} ReachOfSame(blocks: seq<Block>, others: seq<Block>)
    requires forall b | b in blocks :: b in others
    ensures Reach(blocks) <= Reach(others)
    decreases |blocks|
  {
    if blocks != [] {
      ReachesEach(others, blocks[0]);
      ReachOfSame(blocks[1..], others);
    }
  }

  lemma {:induction false} ReachesEach(blocks: seq<Block>, b: Block)
    requires b in blocks
    ensures b.offset + b.length <= Reach(blocks)
    decreases |blocks|
  {
    if b != blocks[0] { ReachesEach(blocks[1..], b); }
  }
}
