/** Chunks in an address space: where they lie, and the numbers patched into them. */
module Layout {
  import opened Basics
  import opened Numbers

  datatype Chunk = Chunk(load: nat, data: seq<Byte>) {
    function EndAddress(): nat
    {
      load + |data|
    }
  }

  /** The highest end of the chunks. */
  function End(chunks: seq<Chunk>): (r: nat)
    ensures forall i :: 0 <= i < |chunks| ==> chunks[i].load + |chunks[i].data| <= r
    ensures r == 0 || exists i :: 0 <= i < |chunks| && chunks[i].load + |chunks[i].data| == r
  {
    if |chunks| == 0 then 0
    else
      var init, last := chunks[..|chunks| - 1], chunks[|chunks| - 1];
      assert forall i :: 0 <= i < |init| ==> chunks[i] == init[i];
      if last.EndAddress() > End(init) then last.EndAddress() else End(init)
  }

  /** Each chunk begins where the ones before it have ended. */
  ghost predicate Ordered(chunks: seq<Chunk>)
  {
    forall i, j :: 0 <= i < j < |chunks| ==> chunks[i].EndAddress() <= chunks[j].load
  }

  /** No chunk of one list overlaps one of the other. */
  ghost predicate Apart(a: seq<Chunk>, b: seq<Chunk>)
  {
    forall i, j :: 0 <= i < |a| && 0 <= j < |b| ==> a[i].EndAddress() <= b[j].load || b[j].EndAddress() <= a[i].load
  }

  /** A list sorted by load address with one more chunk put into its place. */
  function SortedInsert(chunks: seq<Chunk>, chunk: Chunk): seq<Chunk>
  {
    if |chunks| == 0 || chunks[|chunks| - 1].load <= chunk.load then chunks + [chunk]
    else SortedInsert(chunks[..|chunks| - 1], chunk) + [chunks[|chunks| - 1]]
  }

  lemma {:induction false} InsertedAt(all: seq<Chunk>, chunk: Chunk, k: nat)
    requires k <= |all| && (k > 0 ==> all[k - 1].load <= chunk.load)
    requires forall i :: k <= i < |all| ==> all[i].load > chunk.load
    ensures SortedInsert(all, chunk) == all[..k] + [chunk] + all[k..]
  {
    if k < |all| {
      var init := all[..|all| - 1];
      InsertedAt(init, chunk, k);
      assert init[..k] == all[..k] && init[k..] + [all[|all| - 1]] == all[k..];
    } else {
      assert all[..k] == all && all[k..] == [];
    }
  }

  lemma SwapDown(all: seq<Chunk>, chunk: Chunk, k: nat)
    requires 0 < k <= |all|
    ensures var s := all[..k] + [chunk] + all[k..];
            s[k - 1] == all[k - 1] && s[k := s[k - 1]][k - 1 := chunk] == all[..k - 1] + [chunk] + all[k - 1..]
  {
  }

  /** Behind the end of everything, sorting is appending, and no order is disturbed. */
  lemma InsertBehind(chunks: seq<Chunk>, other: seq<Chunk>, chunk: Chunk)
    requires Ordered(chunks) && Apart(chunks, other) && End(chunks) <= chunk.load && End(other) <= chunk.load
    ensures SortedInsert(chunks, chunk) == chunks + [chunk]
    ensures Ordered(chunks + [chunk]) && Apart(chunks + [chunk], other)
  {
    AppendOrdered(chunks, chunk);
    AppendApart(chunks, other, chunk);
    if |chunks| > 0 {
      assert chunks[|chunks| - 1].EndAddress() <= End(chunks);
    }
  }

  lemma AppendOrdered(chunks: seq<Chunk>, chunk: Chunk)
    requires Ordered(chunks) && End(chunks) <= chunk.load
    ensures Ordered(chunks + [chunk])
  {
    hide End;
  }

  lemma AppendApart(chunks: seq<Chunk>, other: seq<Chunk>, chunk: Chunk)
    requires Apart(chunks, other) && End(other) <= chunk.load
    ensures Apart(chunks + [chunk], other)
  {
    hide End;
  }

  lemma ApartSymmetric(a: seq<Chunk>, b: seq<Chunk>)
    requires Apart(a, b)
    ensures Apart(b, a)
  {
  }

  /** What is written into a chunk leaves the layout as it is, as long as nothing lies behind it or the length stays. */
  predicate SameLayout(a: seq<Chunk>, b: seq<Chunk>)
  {
    |a| == |b| && forall i :: 0 <= i < |a| ==> a[i].load == b[i].load && |a[i].data| == |b[i].data|
  }

  /** The chunk that holds an address: the first that does, or none. */
  function Find(chunks: seq<Chunk>, address: nat): Option<nat>
  {
    FindFrom(chunks, address, 0)
  }

  function FindFrom(chunks: seq<Chunk>, address: nat, i: nat): Option<nat>
    requires i <= |chunks|
    decreases |chunks| - i
  {
    if i == |chunks| then None
    else if chunks[i].load <= address < chunks[i].EndAddress() then Some(i)
    else FindFrom(chunks, address, i + 1)
  }

  /** The lookup gives the first chunk that has the address among its bytes, and nothing if none has. */
  lemma {:induction false} FindExact(chunks: seq<Chunk>, address: nat, i: nat)
    requires i <= |chunks|
    ensures match FindFrom(chunks, address, i)
            case None => forall j :: i <= j < |chunks| ==> !(chunks[j].load <= address < chunks[j].load + |chunks[j].data|)
            case Some(k) =>
              && i <= k < |chunks| && chunks[k].load <= address < chunks[k].load + |chunks[k].data|
              && forall j :: i <= j < k ==> !(chunks[j].load <= address < chunks[j].load + |chunks[j].data|)
    decreases |chunks| - i
  {
    if i < |chunks| {
      FindExact(chunks, address, i + 1);
    }
  }

  /** An address inside a chunk finds that chunk and no other. */
  lemma {:induction false} FindOwn(chunks: seq<Chunk>, address: nat, k: nat, i: nat)
    requires Ordered(chunks) && i <= k < |chunks| && chunks[k].load <= address < chunks[k].EndAddress()
    ensures FindFrom(chunks, address, i) == Some(k)
    decreases k - i
  {
    if i < k {
      assert chunks[i].EndAddress() <= chunks[k].load;
      FindOwn(chunks, address, k, i + 1);
    }
  }

  /** The sizes an operand can have, in bytes. */
  predicate OperandSize(size: nat)
  {
    size == 1 || size == 2 || size == 4 || size == 8
  }

  /** data with a number laid over it at an offset. */
  function Patched(data: seq<Byte>, offset: nat, value: nat, size: nat): (r: seq<Byte>)
    requires offset + size <= |data|
    ensures |r| == |data| && r[offset..offset + size] == BigEndian(value, size)
    ensures forall j :: 0 <= j < |data| && !(offset <= j < offset + size) ==> r[j] == data[j]
  {
    Overlay(data, offset, BigEndian(value, size))
  }

  lemma SameLayoutSelf(a: seq<Chunk>)
    ensures SameLayout(a, a)
  {
  }

  lemma SameLayoutThen(a: seq<Chunk>, b: seq<Chunk>, c: seq<Chunk>)
    requires SameLayout(a, b) && SameLayout(b, c)
    ensures SameLayout(a, c)
  {
  }
}
