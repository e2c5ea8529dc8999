/** The byte ring buffer under the dispatch queue. */
module RingbufferModel {
  import opened Basics

  /** The bytes between the read and the write index of a ring, oldest first. */
  function Ring(d: seq<Byte>, r: nat, w: nat, full: bool): seq<Byte>
    requires r < |d| && w < |d|
  {
    if r < w || (r == w && !full) then d[r..w] else d[r..] + d[..w]
  }

  lemma WriteBehind(d: seq<Byte>, r: nat, w: nat, src: seq<Byte>)
    requires w < r < |d| && w + |src| <= r && |src| > 0
    ensures Ring(Overlay(d, w, src), r, w + |src|, w + |src| == r) == Ring(d, r, w, false) + src
  {
    var d2 := Overlay(d, w, src);
    OverlayParts(d, w, src, r);
    hide Overlay;
    Associate(d[r..], d[..w], src);
  }

  lemma OverlayParts(d: seq<Byte>, w: nat, src: seq<Byte>, r: nat)
    requires w + |src| <= r <= |d|
    ensures |Overlay(d, w, src)| == |d| && Overlay(d, w, src)[..w + |src|] == d[..w] + src && Overlay(d, w, src)[r..] == d[r..]
  {
  }

  lemma Associate(a: seq<Byte>, b: seq<Byte>, c: seq<Byte>)
    ensures a + (b + c) == (a + b) + c
  {
  }

  lemma WriteAhead(d: seq<Byte>, r: nat, w: nat, src: seq<Byte>)
    requires r <= w < |d| && w + |src| < |d| && |src| > 0
    ensures Ring(Overlay(d, w, src), r, w + |src|, false) == Ring(d, r, w, false) + src
  {
  }

  /** The copy in two parts keeps the order of the bytes. */
  lemma WriteWrapped(d: seq<Byte>, r: nat, w: nat, src: seq<Byte>)
    requires r <= w < |d| && |d| <= w + |src| && w + |src| - |d| <= r
    ensures var e := |d| - w;
            Ring(Overlay(Overlay(d, w, src[..e]), 0, src[e..]), r, |src| - e, |src| - e == r) == Ring(d, r, w, false) + src
  {
    hide Overlay, Ring;
    var e := |d| - w;
    BothParts(d, w, src[..e], src[e..]);
    WrappedRing(d, r, w, src[..e], src[e..]);
    assert src == src[..e] + src[e..];
    assert d[r..w] + (src[..e] + src[e..]) == d[r..w] + src[..e] + src[e..];
    StraightRing(d, r, w);
  }

  lemma StraightRing(d: seq<Byte>, r: nat, w: nat)
    requires r <= w < |d|
    ensures Ring(d, r, w, false) == d[r..w]
  {
  }

  lemma WrappedRing(d: seq<Byte>, r: nat, w: nat, first: seq<Byte>, second: seq<Byte>)
    requires r <= w < |d| == w + |first| && |second| <= r
    ensures Ring(second + d[|second|..w] + first, r, |second|, |second| == r) == d[r..w] + first + second
  {
    var d2 := second + d[|second|..w] + first;
    assert d2[..|second|] == second;
    assert d2[r..] == d[r..w] + first;
  }

  lemma BothParts(d: seq<Byte>, w: nat, first: seq<Byte>, second: seq<Byte>)
    requires w + |first| == |d| && |second| <= w
    ensures Overlay(Overlay(d, w, first), 0, second) == second + d[|second|..w] + first
  {
  }

  lemma ReadAhead(d: seq<Byte>, r: nat, w: nat, full: bool, num: nat)
    requires r < |d| && w < |d| && (full ==> r == w) && num <= |Ring(d, r, w, full)| && w >= r && r + num <= |d| && num > 0
    ensures Ring(d, r, w, full)[..num] == d[r..r + num]
    ensures Ring(d, r, w, full)[num..] == Ring(d, if r + num == |d| then 0 else r + num, w, false)
  {
  }

  /** The read in two parts, and what is left. */
  lemma ReadWrapped(d: seq<Byte>, r: nat, w: nat, num: nat)
    requires w < r < |d| && num <= |Ring(d, r, w, false)| && num >= |d| - r
    ensures Ring(d, r, w, false)[..num] == d[r..] + d[..num - (|d| - r)]
    ensures Ring(d, r, w, false)[num..] == Ring(d, num - (|d| - r), w, false)
  {
  }

  lemma ReadBehind(d: seq<Byte>, r: nat, w: nat, num: nat)
    requires w < r < |d| && num < |d| - r
    ensures Ring(d, r, w, false)[..num] == d[r..r + num]
    ensures Ring(d, r, w, false)[num..] == Ring(d, r + num, w, false)
  {
  }

  lemma Wrap(x: nat, size: nat)
    requires size > 0 && x < 2 * size
    ensures x % size == if x < size then x else x - size
  {
    if x >= size { assert x == size + (x - size) && (x - size) % size == x - size; WrapOnce(x - size, size); }
  }

  lemma WrapOnce(x: nat, size: nat)
    requires x < size
    ensures (size + x) % size == x
  {
    assert (size + x) / size == 1;
  }

  class Ringbuffer {
    const szBuffer: nat
    const data: array<Byte>
    var isFull: bool
    var idxRead: nat
    var idxWrite: nat

    ghost predicate Valid()
      reads this
    {
      0 < szBuffer == data.Length && idxRead < szBuffer && idxWrite < szBuffer && (isFull ==> idxRead == idxWrite)
    }

    /** The bytes written and not yet read, oldest first. */
    ghost function Contents(): seq<Byte>
      requires Valid()
      reads this, data
    {
      Ring(data[..], idxRead, idxWrite, isFull)
    }

    constructor (size: nat)
      requires size > 0
      ensures Valid() && fresh(data) && szBuffer == size && Contents() == [] && !isFull
    {
      szBuffer := size;
      data := new Byte[size](_ => 0);
      isFull, idxRead, idxWrite := false, 0, 0;
    }

    function BytesAvailable(): (n: nat)
      requires Valid()
      reads this
    {
      if isFull then szBuffer else (szBuffer + idxWrite - idxRead) % szBuffer
    }

    function BytesFree(): int
      requires Valid()
      reads this
    {
      szBuffer - BytesAvailable()
    }

    lemma CountsBytes()
      requires Valid()
      ensures BytesAvailable() == |Contents()| && BytesFree() == szBuffer - |Contents()| >= 0
      ensures |Contents()| == szBuffer <==> isFull
      ensures |Contents()| == if isFull then szBuffer else if idxRead <= idxWrite then idxWrite - idxRead else szBuffer - idxRead + idxWrite
    {
      Wrap(szBuffer + idxWrite - idxRead, szBuffer);
    }

    /** memcpy into the buffer. */
    method CopyIn(at: nat, src: seq<Byte>)
      requires at + |src| <= data.Length
      modifies data
      ensures data[..] == Overlay(old(data[..]), at, src)
    {
      forall i | 0 <= i < |src| { data[at + i] := src[i]; }
    }

    /** All of src goes in, or nothing does. */
    method Write(src: seq<Byte>) returns (res: int)
      requires Valid()
      modifies this`isFull, this`idxWrite, data
      ensures Valid()
      ensures old(|Contents()|) + |src| <= szBuffer ==> res == |src| && Contents() == old(Contents()) + src
      ensures old(|Contents()|) + |src| > szBuffer ==> res == -1 && Contents() == old(Contents())
      ensures isFull <==> |Contents()| == szBuffer
    {
      hide Ring, BytesAvailable, BytesFree, Overlay;
      CountsBytes();
      if |src| > szBuffer { return -1; }
      var nFree := BytesFree();
      if nFree < |src| { return -1; }
      if |src| == 0 { return 0; }
      if idxWrite < idxRead {
        WriteBehind(data[..], idxRead, idxWrite, src);
        CopyIn(idxWrite, src);
        idxWrite := idxWrite + |src|;
      } else {
        var byteUntilEnd := szBuffer - idxWrite;
        if |src| < byteUntilEnd {
          WriteAhead(data[..], idxRead, idxWrite, src);
          CopyIn(idxWrite, src);
          idxWrite := idxWrite + |src|;
        } else {
          WriteWrapped(data[..], idxRead, idxWrite, src);
          var overrun := |src| - byteUntilEnd;
          CopyIn(idxWrite, src[..byteUntilEnd]);
          CopyIn(0, src[byteUntilEnd..]);
          idxWrite := overrun;
        }
      }
      if idxRead == idxWrite { isFull := true; }
      assert idxWrite < szBuffer;  // the wrap at the end of the original never applies
      CountsBytes();
      return |src|;
    }

    /**
     Takes num bytes off the front. From a full ring the code takes the straight branch, so a
     read that would have to wrap runs past the buffer; that is the caller's to avoid.
     */
    method Read(num: nat) returns (res: int, out: seq<Byte>)
      requires Valid()
      requires isFull && num <= szBuffer ==> idxRead + num <= szBuffer
      modifies this`isFull, this`idxRead
      ensures Valid()
      ensures num <= old(|Contents()|) ==>
                res == num && out == old(Contents())[..num] && Contents() == old(Contents())[num..]
      ensures num > old(|Contents()|) ==> res == -1 && out == [] && Contents() == old(Contents())
      ensures isFull <==> old(isFull) && (num == 0 || num > szBuffer)
    {
      hide Ring, BytesAvailable;
      CountsBytes();
      if num > szBuffer { return -1, []; }
      if BytesAvailable() < num { return -1, []; }
      if num > 0 {
        if idxWrite >= idxRead {
          ReadAhead(data[..], idxRead, idxWrite, isFull, num);
        } else if num < szBuffer - idxRead {
          ReadBehind(data[..], idxRead, idxWrite, num);
        } else {
          ReadWrapped(data[..], idxRead, idxWrite, num);
        }
      }
      if idxWrite >= idxRead {
        out := data[idxRead..idxRead + num];
        idxRead := idxRead + num;
      } else {
        var leftInBuffer := szBuffer - idxRead;
        if num < leftInBuffer {
          out := data[idxRead..idxRead + num];
          idxRead := idxRead + num;
        } else {
          var overrun := num - leftInBuffer;
          out := data[idxRead..] + data[..overrun];
          idxRead := overrun;
        }
      }
      if num > 0 && isFull { isFull := false; }
      if idxRead >= szBuffer { idxRead := idxRead - szBuffer; }
      return num, out;
    }

    /**
     Reads and puts the read index back. Nothing changes, unless the ring was full: the flag
     is not put back, and the whole contents are gone.
     */
    method Peek(num: nat) returns (res: int, out: seq<Byte>)
      requires Valid()
      requires isFull && num <= szBuffer ==> idxRead + num <= szBuffer
      modifies this`isFull, this`idxRead
      ensures Valid()
      ensures num <= old(|Contents()|) ==> res == num && out == old(Contents())[..num]
      ensures num > old(|Contents()|) ==> res == -1 && out == []
      ensures idxRead == old(idxRead)
      ensures Contents() == if old(isFull) && 0 < num <= szBuffer then [] else old(Contents())
      ensures isFull <==> old(isFull) && (num == 0 || num > szBuffer)
    {
      CountsBytes();
      var idxReadSave := idxRead;
      res, out := Read(num);
      idxRead := idxReadSave;
    }
  }
}
