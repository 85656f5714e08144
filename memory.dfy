/**
 * The emulator's memory unit: a vector of contiguous blocks, each covering
 * the addresses start <= a < end with its own byte buffer.
 */
module MemoryUnit {
  import opened FixedWidth
  import opened Wrappers

  /** The value a block holds at one moment: its address range and its bytes. */
  datatype BlockView = BlockView(start: Uint32, end: Uint32, bytes: seq<Byte>)

  predicate Contains(b: BlockView, address: int)
  {
    b.start <= address < b.end
  }

  /** The blocks as the emulator lays them out: each buffer covers the block's range exactly. */
  predicate WellFormed(blocks: seq<BlockView>)
  {
    forall i :: 0 <= i < |blocks| ==> blocks[i].start <= blocks[i].end && |blocks[i].bytes| == blocks[i].end - blocks[i].start
  }

  /** The index of the first block, in vector order, that contains the address. */
  function FindBlock(blocks: seq<BlockView>, address: int): (r: Option<nat>)
    ensures r.None? <==> forall i :: 0 <= i < |blocks| ==> !Contains(blocks[i], address)
    ensures r.Some? ==> r.value < |blocks| && Contains(blocks[r.value], address)
    ensures r.Some? ==> forall j :: 0 <= j < r.value ==> !Contains(blocks[j], address)
  {
    if |blocks| == 0 then None
    else if Contains(blocks[0], address) then Some(0)
    else match FindBlock(blocks[1..], address)
      case None => None
      case Some(i) => Some(i + 1)
  }

  /** The first block that contains the address is the one FindBlock names. */
  lemma FindBlockFirst(blocks: seq<BlockView>, address: int, i: nat)
    requires i < |blocks| && Contains(blocks[i], address)
    requires forall j :: 0 <= j < i ==> !Contains(blocks[j], address)
    ensures FindBlock(blocks, address) == Some(i)
  {
  }

  class MemoryBlock {
    var startAddress: Uint32
    var endAddress: Uint32
    /** An empty buffer stands for the null storage of a default or moved-from block. */
    var storage: array<Byte>

    constructor ()
      ensures startAddress == 0 && endAddress == 0 && storage.Length == 0
    {
      startAddress, endAddress := 0, 0;
      storage := new Byte[0];
    }

    /** The move constructor takes the range and the buffer; the source is left without storage. */
    constructor Move(that: MemoryBlock)
      modifies that
      ensures startAddress == old(that.startAddress) && endAddress == old(that.endAddress)
      ensures storage == old(that.storage)
      ensures that.storage.Length == 0 && fresh(that.storage)
      ensures that.startAddress == old(that.startAddress) && that.endAddress == old(that.endAddress)
    {
      startAddress := that.startAddress;
      endAddress := that.endAddress;
      storage := that.storage;
      new;
      that.storage := new Byte[0];
    }

    /** Returns true if startAddress <= address < endAddress. */
    predicate ContainsAddress(address: Uint32)
      reads this
    {
      address >= startAddress && address < endAddress
    }
  }

  class Memory {
    var blocks: seq<MemoryBlock>
    /** The blocks with their current contents, in vector order. */
    ghost var contents: seq<BlockView>
    ghost var Repr: set<object>

    ghost predicate Valid()
      reads this, Repr
    {
      this in Repr && |contents| == |blocks| && WellFormed(contents) &&
      (forall i :: 0 <= i < |blocks| ==> blocks[i] in Repr && blocks[i].storage in Repr) &&
      (forall i :: 0 <= i < |blocks| ==>
         contents[i] == BlockView(blocks[i].startAddress, blocks[i].endAddress, blocks[i].storage[..])) &&
      (forall i, j :: 0 <= i < j < |blocks| ==> blocks[i] != blocks[j] && blocks[i].storage != blocks[j].storage)
    }

    /** A memory of one zero-filled block covering start <= a < end. */
    constructor (start: Uint32, end: Uint32)
      requires start <= end
      ensures Valid() && fresh(Repr)
      ensures contents == [BlockView(start, end, seq(end - start, _ => 0))]
    {
      var block := new MemoryBlock();
      block.startAddress := start;
      block.endAddress := end;
      var moved := new MemoryBlock.Move(block);
      blocks := [moved];
      new;
      var buffer := new Byte[end - start](_ => 0);
      moved.storage := buffer;
      contents := [BlockView(start, end, buffer[..])];
      Repr := {this, moved, buffer};
      assert buffer[..] == seq(end - start, _ => 0);
    }

    /** The first block, in vector order, that contains the address, or null. */
    method Lookup(address: Uint32) returns (block: MemoryBlock?)
      requires Valid()
      ensures FindBlock(contents, address).None? ==> block == null
      ensures FindBlock(contents, address).Some? ==> block == blocks[FindBlock(contents, address).value]
      ensures block != null ==> contents[FindBlock(contents, address).value]
                                  == BlockView(block.startAddress, block.endAddress, block.storage[..])
    {
      var i := 0;
      while i < |blocks|
        invariant 0 <= i <= |blocks|
        invariant forall j :: 0 <= j < i ==> !Contains(contents[j], address)
      {
        if blocks[i].ContainsAddress(address) {
          FindBlockFirst(contents, address, i);
          return blocks[i];
        }
        i := i + 1;
      }
      return null;
    }

    /** Valid, except that block i's recorded bytes may lag behind its storage. */
    ghost predicate ValidExcept(i: nat)
      reads this, Repr
    {
      this in Repr && |contents| == |blocks| && WellFormed(contents) && i < |blocks| &&
      (forall j :: 0 <= j < |blocks| ==> blocks[j] in Repr && blocks[j].storage in Repr) &&
      (forall j :: 0 <= j < |blocks| && j != i ==>
         contents[j] == BlockView(blocks[j].startAddress, blocks[j].endAddress, blocks[j].storage[..])) &&
      contents[i].start == blocks[i].startAddress && contents[i].end == blocks[i].endAddress &&
      blocks[i].storage.Length == |contents[i].bytes| &&
      (forall j, k :: 0 <= j < k < |blocks| ==> blocks[j] != blocks[k] && blocks[j].storage != blocks[k].storage)
    }

    /** Brings the recorded contents of block i up to date after a write into its storage. */
    method Refresh(block: MemoryBlock, ghost i: nat)
      requires ValidExcept(i) && blocks[i] == block
      modifies this`contents
      ensures Valid()
      ensures contents == old(contents)[i := old(contents)[i].(bytes := block.storage[..])]
    {
      contents := contents[i := contents[i].(bytes := block.storage[..])];
    }

    method StoreByte(block: MemoryBlock, ghost i: nat, offset: nat, value: Byte)
      requires Valid() && i < |blocks| && blocks[i] == block && offset < |contents[i].bytes|
      modifies block.storage, this`contents
      ensures Valid()
      ensures contents == old(contents)[i := old(contents)[i].(bytes := old(contents)[i].bytes[offset := value])]
    {
      var storage := block.storage;
      storage[offset] := value;
      contents := contents[i := contents[i].(bytes := contents[i].bytes[offset := value])];
      assert forall j :: 0 <= j < |blocks| && j != i ==> blocks[j].storage != storage;
    }
  }

  /** Overwriting the next byte of a partly copied buffer extends the copied prefix by one. */
  lemma SpliceStep(data: seq<Byte>, buffer: seq<Byte>, k: nat)
    requires k < |data| <= |buffer|
    ensures (data[..k] + buffer[k..])[k := data[k]] == data[..k + 1] + buffer[k + 1..]
  {
    var a, b := (data[..k] + buffer[k..])[k := data[k]], data[..k + 1] + buffer[k + 1..];
    assert |a| == |b|;
    forall j | 0 <= j < |a| ensures a[j] == b[j] {
      if j < k {
        assert a[j] == data[j] == b[j];
      } else if j > k {
        assert a[j] == buffer[j] == b[j];
      }
    }
  }

  /** A memcpy of `data` to the start of the first block's buffer. */
  method CopyToFirstBlock(mem: Memory, data: seq<Byte>)
    requires mem.Valid() && |mem.contents| > 0 && |data| <= |mem.contents[0].bytes|
    modifies mem.blocks[0].storage, mem`contents
    ensures mem.Valid()
    ensures mem.contents == old(mem.contents)[0 := old(mem.contents)[0].(bytes := data + old(mem.contents)[0].bytes[|data|..])]
  {
    ghost var before := mem.contents[0];
    var k := 0;
    assert data[..0] + before.bytes[0..] == before.bytes;
    assert mem.contents[0 := before] == mem.contents;
    while k < |data|
      invariant 0 <= k <= |data| && mem.Valid()
      invariant mem.blocks == old(mem.blocks) && mem.Repr == old(mem.Repr)
      invariant mem.contents == old(mem.contents)[0 := before.(bytes := data[..k] + before.bytes[k..])]
    {
      mem.StoreByte(mem.blocks[0], 0, k, data[k]);
      SpliceStep(data, before.bytes, k);
      k := k + 1;
    }
    assert data[..k] == data;
  }

}
