/** The dispatch queue: framed items over the byte ring. */
module DispatchModel {
  import opened Basics
  import opened RingbufferModel

  datatype Item = Item(instrTypeId: Byte, data: seq<Byte>)

  datatype Header = Header(szItem: nat, instrTypeId: Byte)

  const HEADER_SIZE := 4
  const MAX_ITEM := 0xFFFF

  /** The header as it lies in memory: a 16-bit size, the type, and a reserved byte. */
  function HeaderBytes(size: nat, instrTypeId: Byte): (h: seq<Byte>)
    ensures |h| == HEADER_SIZE
  {
    [size % 0x100, size / 0x100 % 0x100, instrTypeId, 0]
  }

  function ReadHeader(h: seq<Byte>): Header
    requires |h| == HEADER_SIZE
  {
    var low: int, high: int := h[0], h[1];
    Header(low + 0x100 * high, h[2])
  }

  /** The size comes first, low byte before high byte, as a little-endian struct has it. */
  lemma HeaderLayout(size: nat, instrTypeId: Byte)
    requires size <= 0xFFFF
    ensures 0 <= size / 0x100 < 0x100 && HeaderBytes(size, instrTypeId) == [size % 0x100, size / 0x100, instrTypeId, 0]
  {
    assert size / 0x100 % 0x100 == size / 0x100;
  }

  lemma HeaderReadsBack(size: nat, instrTypeId: Byte)
    requires size <= MAX_ITEM
    ensures ReadHeader(HeaderBytes(size, instrTypeId)) == Header(size, instrTypeId)
  {
    assert size / 0x100 % 0x100 == size / 0x100;
  }

  function Framed(item: Item): seq<Byte>
  {
    HeaderBytes(|item.data|, item.instrTypeId) + item.data
  }

  function Frame(items: seq<Item>): seq<Byte>
  {
    if |items| == 0 then [] else Framed(items[0]) + Frame(items[1..])
  }

  predicate Fitting(items: seq<Item>)
  {
    forall i :: 0 <= i < |items| ==> |items[i].data| <= MAX_ITEM
  }

  lemma {:induction false} FrameAppend(items: seq<Item>, item: Item)
    ensures Frame(items + [item]) == Frame(items) + Framed(item)
  {
    hide Framed;
    if |items| == 0 {
      assert items + [item] == [item];
      assert Frame([item]) == Framed(item) + Frame([item][1..]);
      assert Frame([item][1..]) == [];
    } else {
      FrameAppend(items[1..], item);
      assert (items + [item])[1..] == items[1..] + [item];
      assert (items + [item])[0] == items[0];
      Associate(Framed(items[0]), Frame(items[1..]), Framed(item));
    }
  }

  lemma Associate(a: seq<Byte>, b: seq<Byte>, c: seq<Byte>)
    ensures a + (b + c) == a + b + c
  {
  }

  lemma Split(h: seq<Byte>, d: seq<Byte>, rest: seq<Byte>)
    ensures var f := h + d + rest;
            && f[..|h|] == h && f[|h|..][..|d|] == d && f[|h|..][|d|..] == rest
  {
    assert (h + d + rest)[|h|..] == d + rest;
  }

  /** What the first bytes of a queue say about its first item. */
  lemma FrameFirst(items: seq<Item>)
    requires |items| > 0 && Fitting(items)
    ensures var f := Frame(items); var n := |items[0].data|;
            && |f| >= HEADER_SIZE + n && ReadHeader(f[..HEADER_SIZE]) == Header(n, items[0].instrTypeId)
            && f[HEADER_SIZE..][..n] == items[0].data && f[HEADER_SIZE..][n..] == Frame(items[1..])
  {
    hide HeaderBytes, ReadHeader;
    var h := HeaderBytes(|items[0].data|, items[0].instrTypeId);
    Split(h, items[0].data, Frame(items[1..]));
    HeaderReadsBack(|items[0].data|, items[0].instrTypeId);
  }

  /** The framing loses nothing: a byte string is the frame of one queue at most. */
  lemma {:induction false} FrameInjective(a: seq<Item>, b: seq<Item>)
    requires Fitting(a) && Fitting(b) && Frame(a) == Frame(b)
    ensures a == b
  {
    if |a| == 0 || |b| == 0 {
      assert |a| == 0 == |b|;
    } else {
      FrameFirst(a);
      FrameFirst(b);
      FrameInjective(a[1..], b[1..]);
      assert a == [a[0]] + a[1..] && b == [b[0]] + b[1..];
    }
  }

  class Dispatch {
    const ringbuffer: Ringbuffer
    ghost var items: seq<Item>

    ghost predicate Valid()
      reads this, ringbuffer, ringbuffer.data
    {
      ringbuffer.Valid() && ringbuffer.Contents() == Frame(items) && Fitting(items)
    }

    constructor (szRam: nat)
      requires szRam > 0
      ensures Valid() && items == [] && fresh(ringbuffer) && fresh(ringbuffer.data)
      ensures ringbuffer.szBuffer == szRam && !ringbuffer.isFull
    {
      ringbuffer := new Ringbuffer(szRam);
      items := [];
    }

    predicate IsEmpty()
      requires ringbuffer.Valid()
      reads ringbuffer
    {
      ringbuffer.BytesAvailable() == 0
    }

    predicate CanInsert(szItem: nat)
      requires ringbuffer.Valid()
      reads ringbuffer
    {
      !(ringbuffer.BytesFree() <= szItem)
    }

    /** A push fails only for lack of room or for an item the header cannot describe. */
    method Push(instrTypeId: Byte, item: seq<Byte>) returns (ok: bool)
      requires Valid()
      modifies this, ringbuffer, ringbuffer.data
      ensures Valid()
      ensures ok <==> |old(ringbuffer.Contents())| + 4 + |item| <= ringbuffer.szBuffer && |item| <= 0xFFFF
      ensures ok ==> ringbuffer.Contents() == old(ringbuffer.Contents()) + [|item| % 0x100, |item| / 0x100, instrTypeId, 0] + item
      ensures !ok ==> ringbuffer.Contents() == old(ringbuffer.Contents())
      ensures items == if ok then old(items) + [Item(instrTypeId, item)] else old(items)
      ensures ringbuffer.isFull <==> |Frame(items)| == ringbuffer.szBuffer
    {
      hide Frame, HeaderBytes, Ring;
      ringbuffer.CountsBytes();
      if ringbuffer.BytesFree() < |item| + HEADER_SIZE { return false; }
      if |item| > MAX_ITEM { return false; }
      FrameAppend(items, Item(instrTypeId, item));
      HeaderLayout(|item|, instrTypeId);
      var res := ringbuffer.Write(HeaderBytes(|item|, instrTypeId));
      if res < 0 { return false; }
      res := ringbuffer.Write(item);
      if res < 0 { return false; }
      items := items + [Item(instrTypeId, item)];
      return true;
    }

    /**
     Looks at the next header: 0 for an empty queue, 1 with the header of the first item, and
     -1, the code for a corrupt queue, for a queue of nothing but one empty item. The queue
     does not change unless the ring was exactly full: then all of it is lost.
     */
    method Peek() returns (res: int, header: Header)
      requires Valid()
      requires ringbuffer.isFull ==> ringbuffer.idxRead + HEADER_SIZE <= ringbuffer.szBuffer
      modifies this, ringbuffer
      ensures Valid()
      ensures old(|items|) == 0 ==> res == 0
      ensures old(|items|) > 0 ==> res == if |old(ringbuffer.Contents())| == 4 then -1 else 1
      ensures res == 1 ==> header == Header(|old(items)[0].data|, old(items)[0].instrTypeId)
      ensures ringbuffer.Contents() == if old(ringbuffer.isFull) && res == 1 then [] else old(ringbuffer.Contents())
      ensures items == if old(ringbuffer.isFull) && res == 1 then [] else old(items)
      ensures !old(ringbuffer.isFull) ==> !ringbuffer.isFull
    {
      ringbuffer.CountsBytes();
      header := Header(0, 0);
      if |items| > 0 { FrameFirst(items); }
      if IsEmpty() { return 0, header; }
      if ringbuffer.BytesAvailable() <= HEADER_SIZE { return -1, header; }
      ghost var full := ringbuffer.isFull;
      var read, bytes := ringbuffer.Peek(HEADER_SIZE);
      if read < 0 { return -1, header; }
      header := ReadHeader(bytes);
      if full { items := []; }
      return 1, header;
    }

    /** Takes the first item, if it is asked for with the size that its header states. */
    method Pop(szItem: nat) returns (ok: bool, out: seq<Byte>)
      requires Valid()
      requires |items| > 0 ==> szItem == |items[0].data|
      requires ringbuffer.isFull ==> ringbuffer.idxRead + HEADER_SIZE <= ringbuffer.szBuffer
      modifies this, ringbuffer
      ensures Valid()
      ensures ok <==> |old(items)| > 0
      ensures ok ==> out == old(items)[0].data && items == old(items)[1..] && !ringbuffer.isFull
      ensures ok ==> 4 + szItem <= |old(ringbuffer.Contents())|
                     && out == old(ringbuffer.Contents())[4..4 + szItem] && ringbuffer.Contents() == old(ringbuffer.Contents())[4 + szItem..]
      ensures !ok ==> items == old(items)
    {
      ringbuffer.CountsBytes();
      if |items| > 0 { FrameFirst(items); }
      if ringbuffer.BytesAvailable() < szItem + HEADER_SIZE { return false, []; }
      var res, bytes := ringbuffer.Read(HEADER_SIZE);
      if res < 0 { return false, []; }
      var header := ReadHeader(bytes);
      if header.szItem != szItem { return false, []; }
      res, out := ringbuffer.Read(szItem);
      if res < 0 { return false, []; }
      items := items[1..];
      return true, out;
    }
  }
}
