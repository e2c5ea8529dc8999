/** A segment of the linker: a list of chunks, kept sorted, one of which is written to. */
module SegmentModel {
  import opened Basics
  import opened Layout

  class Segment {
    var chunks: seq<Chunk>
    // The index of the chunk that is written to.
    var currentChunk: nat

    constructor ()
      ensures chunks == []
    {
      chunks, currentChunk := [], 0;
    }

    method EndAddress() returns (endAddr: nat)
      ensures endAddr == End(chunks)
    {
      endAddr := 0;
      for i := 0 to |chunks|
        invariant endAddr == End(chunks[..i])
      {
        assert chunks[..i + 1][..i] == chunks[..i];
        if chunks[i].EndAddress() > endAddr {
          endAddr := chunks[i].EndAddress();
        }
      }
      assert chunks[..|chunks|] == chunks;
    }

    method ChunkFromAddress(address: nat) returns (index: Option<nat>)
      ensures index == Find(chunks, address)
    {
      for i := 0 to |chunks|
        invariant Find(chunks, address) == FindFrom(chunks, address, i)
      {
        if address >= chunks[i].load && chunks[i].EndAddress() > address { return Some(i); }
      }
      return None;
    }

    /** The chunk joins the list, and the list is sorted again. */
    method AddChunk(chunk: Chunk)
      modifies this
      ensures chunks == SortedInsert(old(chunks), chunk)
      ensures currentChunk < |chunks| && chunks[currentChunk] == chunk
      ensures forall i :: currentChunk < i < |chunks| ==> chunks[i].load > chunk.load
    {
      hide *;
      ghost var all := chunks;
      var sorted := chunks + [chunk];
      var k: nat := |chunks|;
      while k > 0 && sorted[k - 1].load > chunk.load
        invariant k <= |all| && sorted == all[..k] + [chunk] + all[k..]
        invariant forall i :: k <= i < |all| ==> all[i].load > chunk.load
      {
        SwapDown(all, chunk, k);
        sorted := sorted[k := sorted[k - 1]][k - 1 := chunk];
        k := k - 1;
      }
      InsertedAt(all, chunk, k);
      chunks, currentChunk := sorted, k;
    }

    method CreateChunk(loadAddress: nat)
      modifies this
      ensures chunks == SortedInsert(old(chunks), Chunk(loadAddress, []))
      ensures currentChunk < |chunks| && chunks[currentChunk] == Chunk(loadAddress, [])
      ensures forall i :: currentChunk < i < |chunks| ==> chunks[i].load > loadAddress
    {
      AddChunk(Chunk(loadAddress, []));
    }

    method Write(srcData: seq<Byte>)
      requires currentChunk < |chunks|
      modifies this`chunks
      ensures chunks == old(chunks)[currentChunk := Chunk(old(chunks)[currentChunk].load, old(chunks)[currentChunk].data + srcData)]
    {
      var chunk := chunks[currentChunk];
      chunks := chunks[currentChunk := chunk.(data := chunk.data + srcData)];
    }

    /** Overwrites a number inside chunk k, if it lies inside. */
    method ReplaceAt(k: nat, offset: nat, newValue: nat, opSize: nat) returns (ok: bool)
      requires k < |chunks| && OperandSize(opSize)
      modifies this`chunks
      ensures ok <==> offset + opSize <= |old(chunks)[k].data|
      ensures chunks == if ok then old(chunks)[k := Chunk(old(chunks)[k].load, Patched(old(chunks)[k].data, offset, newValue, opSize))]
                        else old(chunks)
    {
      var chunk := chunks[k];
      if |chunk.data| < opSize { return false; }
      if offset > |chunk.data| - opSize { return false; }
      chunks := chunks[k := chunk.(data := Patched(chunk.data, offset, newValue, opSize))];
      return true;
    }
  }
}
