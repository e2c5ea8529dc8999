/** The branchless decoder of the formatting library and its walk over a string. */
module Codepoints {
  import opened Utf
  import opened Conversion
  import opened ConversionLaws
  import opened Transcoding

  const INVALID := 0xFFFF_FFFF

  /** The length table, indexed by the five high bits; zero for bytes that start no character. */
  function TableLength(b: int): nat
  {
    if b / 8 < 16 then 1 else if b / 8 < 24 then 0 else if b / 8 < 28 then 2 else if b / 8 < 30 then 3
    else if b / 8 < 31 then 4 else 0
  }

  /** *c: the masked first byte and three times six bits, shifted right by what is not used. */
  function BlockValue(b: seq<int>, len: nat): int
    requires |b| == 4
  {
    var first := if len == 0 then 0 else if len == 1 then b[0] % 0x80 else if len == 2 then b[0] % 0x20
                 else if len == 3 then b[0] % 0x10 else b[0] % 0x08;
    var all := first * 0x40000 + b[1] % 0x40 * 0x1000 + b[2] % 0x40 * 0x40 + b[3] % 0x40;
    if len == 1 then all / 0x40000 else if len == 2 then all / 0x1000 else if len == 3 then all / 0x40 else all
  }

  function Least(len: nat): int
  {
    if len == 0 then 4194304 else if len == 1 then 0 else if len == 2 then 128 else if len == 3 then 2048 else 65536
  }

  /** The top two bits of a byte, exclusive-or 10 as the mask 2a applies it. */
  function Flipped(b: int): int
  {
    (b / 0x40 + 2) % 4
  }

  /** *e: one bit for every complaint, the unused tail bytes shifted out. */
  function BlockError(b: seq<int>, len: nat): int
    requires |b| == 4
  {
    var c := BlockValue(b, len);
    var e := (if c < Least(len) then 0x40 else 0) + (if c / 0x800 == 0x1B then 0x80 else 0)
             + (if c > 0x10FFFF then 0x100 else 0)
             + Flipped(b[1]) * 16 + Flipped(b[2]) * 4 + Flipped(b[3]);
    if len == 1 then e / 64 else if len == 2 then e / 16 else if len == 3 then e / 4 else e
  }

  /** A four-byte block decodes without error exactly if it starts with an RFC character. */
  lemma BlockDecodes(b: seq<int>)
    requires |b| == 4 && Bytes(b)
    ensures var len := TableLength(b[0]);
            if len > 0 && IsUtf8Char(b[..len]) then BlockError(b, len) == 0 && BlockValue(b, len) == ScalarOf(b[..len])
            else BlockError(b, len) != 0
  {
    var len := TableLength(b[0]);
    if len == 1 { Block1(b); } else if len == 2 { Block2(b); } else if len == 3 { Block3(b); } else if len == 4 { Block4(b); }
  }

  lemma Block1(b: seq<int>)
    requires |b| == 4 && Bytes(b) && TableLength(b[0]) == 1
    ensures IsUtf8Char(b[..1]) && BlockError(b, 1) == 0 && BlockValue(b, 1) == b[0]
  {
  }

  lemma Block2(b: seq<int>)
    requires |b| == 4 && Bytes(b) && TableLength(b[0]) == 2
    ensures if IsUtf8Char(b[..2]) then BlockError(b, 2) == 0 && BlockValue(b, 2) == ScalarOf(b[..2]) else BlockError(b, 2) != 0
  {
    var c := BlockValue(b, 2);
    assert c == b[0] % 0x20 * 0x40 + b[1] % 0x40;
    assert BlockError(b, 2) == 0 <==> c >= 128 && Flipped(b[1]) == 0;
  }

  lemma Block3(b: seq<int>)
    requires |b| == 4 && Bytes(b) && TableLength(b[0]) == 3
    ensures if IsUtf8Char(b[..3]) then BlockError(b, 3) == 0 && BlockValue(b, 3) == ScalarOf(b[..3]) else BlockError(b, 3) != 0
  {
    hide BlockError, BlockValue;
    Complaints3(b);
    Chars3(b[0], b[1], b[2]);
    assert b[..3] == [b[0], b[1], b[2]];
  }

  lemma Complaints3(b: seq<int>)
    requires |b| == 4 && Bytes(b)
    ensures BlockValue(b, 3) == b[0] % 0x10 * 0x1000 + b[1] % 0x40 * 0x40 + b[2] % 0x40
    ensures var c := BlockValue(b, 3);
            BlockError(b, 3) == 0 <==> c >= 2048 && c / 0x800 != 0x1B && Flipped(b[1]) == 0 && Flipped(b[2]) == 0
  {
  }

  lemma FlippedIsTail(b: int)
    requires IsByte(b)
    ensures Flipped(b) == 0 <==> Tail(b)
    ensures Tail(b) ==> b % 0x40 == b - 0x80
  {
  }

  lemma Chars3(x: int, y: int, z: int)
    requires IsByte(x) && IsByte(y) && IsByte(z) && TableLength(x) == 3
    ensures var c := x % 0x10 * 0x1000 + y % 0x40 * 0x40 + z % 0x40;
            && (IsUtf8Char([x, y, z]) <==> c >= 2048 && c / 0x800 != 0x1B && Flipped(y) == 0 && Flipped(z) == 0)
            && (IsUtf8Char([x, y, z]) ==> c == ScalarOf([x, y, z]))
  {
    FlippedIsTail(y);
    FlippedIsTail(z);
    assert x % 0x10 == x - 0xE0;
    hide Flipped;
    if Tail(y) && Tail(z) {
      var c := (x - 0xE0) * 0x1000 + (y - 0x80) * 0x40 + (z - 0x80);
      assert c / 0x800 == 0x1B <==> 0xD800 <= c < 0xE000;
    }
  }

  lemma Block4(b: seq<int>)
    requires |b| == 4 && Bytes(b) && TableLength(b[0]) == 4
    ensures if IsUtf8Char(b[..4]) then BlockError(b, 4) == 0 && BlockValue(b, 4) == ScalarOf(b[..4]) else BlockError(b, 4) != 0
  {
    hide BlockError, BlockValue;
    Complaints4(b);
    Chars4(b[0], b[1], b[2], b[3]);
    assert b[..4] == [b[0], b[1], b[2], b[3]];
  }

  lemma Complaints4(b: seq<int>)
    requires |b| == 4 && Bytes(b)
    ensures BlockValue(b, 4) == b[0] % 0x08 * 0x40000 + b[1] % 0x40 * 0x1000 + b[2] % 0x40 * 0x40 + b[3] % 0x40
    ensures var c := BlockValue(b, 4);
            BlockError(b, 4) == 0 <==>
            65536 <= c <= 0x10FFFF && c / 0x800 != 0x1B && Flipped(b[1]) == 0 && Flipped(b[2]) == 0 && Flipped(b[3]) == 0
  {
  }

  lemma Chars4(w: int, x: int, y: int, z: int)
    requires IsByte(w) && IsByte(x) && IsByte(y) && IsByte(z) && TableLength(w) == 4
    ensures var c := w % 0x08 * 0x40000 + x % 0x40 * 0x1000 + y % 0x40 * 0x40 + z % 0x40;
            && (IsUtf8Char([w, x, y, z]) <==> 65536 <= c <= 0x10FFFF && Flipped(x) == 0 && Flipped(y) == 0 && Flipped(z) == 0)
            && (IsUtf8Char([w, x, y, z]) ==> c == ScalarOf([w, x, y, z]))
  {
    FlippedIsTail(x);
    FlippedIsTail(y);
    FlippedIsTail(z);
    assert w % 0x08 == w - 0xF0;
    hide Flipped;
  }

  /** What the callback is told: a code point, or INVALID, and the part of the string it stands for. */
  datatype View = View(cp: int, at: nat, size: nat)

  /** The four bytes the decoder reads at a position, zeros standing for what is not there. */
  function Block(s: seq<int>, at: nat): (b: seq<int>)
    ensures |b| == 4
  {
    seq(4, i requires 0 <= i < 4 => if at + i < |s| then s[at + i] else 0)
  }

  function ViewAt(s: seq<int>, at: nat): (v: View)
    requires at < |s|
    ensures v.at == at && 1 <= v.size <= 4
  {
    Seen(Block(s, at), at)
  }

  /** What is reported for a block that stands at a position. */
  function Seen(b: seq<int>, at: nat): (v: View)
    requires |b| == 4
    ensures v.at == at && 1 <= v.size <= 4
  {
    var len := TableLength(b[0]);
    if BlockError(b, len) != 0 then View(INVALID, at, 1) else View(BlockValue(b, len), at, if len == 0 then 1 else len)
  }

  function Views(s: seq<int>, at: nat): seq<View>
    decreases |s| - at
  {
    if at >= |s| then [] else [ViewAt(s, at)] + Views(s, at + ViewAt(s, at).size)
  }

  /** Zeros never complete a character: a view without error is a whole RFC character of the string. */
  lemma ViewIsCharacter(s: seq<int>, at: nat)
    requires at < |s| && Bytes(s)
    ensures var v, n := ViewAt(s, at), CharLength(s[at]);
            if at + n <= |s| && IsUtf8Char(s[at..at + n])
            then v == View(ScalarOf(s[at..at + n]), at, n) && IsScalar(v.cp)
            else v == View(0xFFFF_FFFF, at, 1)
  {
    hide BlockError, BlockValue, ScalarOf;
    var b := Block(s, at);
    BlockDecodes(b);
    var n, len := CharLength(s[at]), TableLength(b[0]);
    if at + n <= |s| {
      Prefix(s, at, n);
      if IsUtf8Char(s[at..at + n]) { DecodedIsScalar(s[at..at + n]); LengthFromFirstByte(s[at..at + n]); }
    }
    if len > 0 && IsUtf8Char(b[..len]) {
      LengthFromFirstByte(b[..len]);
      NoZeroTail(b[..len]);
    }
  }

  lemma Prefix(s: seq<int>, at: nat, n: nat)
    requires at + n <= |s|
    ensures n <= 4 ==> Block(s, at)[..n] == s[at..at + n]
  {
  }

  lemma NoZeroTail(s: seq<int>)
    requires IsUtf8Char(s)
    ensures forall i :: 0 < i < |s| ==> s[i] != 0
  {
  }

  function Sizes(views: seq<View>): nat
  {
    if |views| == 0 then 0 else views[0].size + Sizes(views[1..])
  }

  /** The views lie side by side from a position to the end of the string. */
  predicate Tiles(views: seq<View>, at: nat, end: nat)
  {
    if |views| == 0 then at == end
    else views[0].at == at && views[0].size >= 1 && Tiles(views[1..], at + views[0].size, end)
  }

  function CodePoints(views: seq<View>): seq<int>
  {
    if |views| == 0 then [] else [views[0].cp] + CodePoints(views[1..])
  }

  predicate AllValid(views: seq<View>)
  {
    forall i :: 0 <= i < |views| ==> views[i].cp != INVALID
  }

  /**
   The views partition the string; none is invalid exactly if the string is well formed, and
   then they spell it.
   */
  lemma {:induction false} ViewsSpell(s: seq<int>, at: nat)
    requires at <= |s| && Bytes(s)
    ensures var views := Views(s, at);
            && Tiles(views, at, |s|)
            && (AllValid(views) <==> WellFormed(s[at..]))
            && (AllValid(views) ==> Scalars(CodePoints(views)) && EncodeAll8(CodePoints(views)) == s[at..])
    decreases |s| - at
  {
    hide ScalarOf, IsUtf8Char, Encode8, ViewAt, CharLength, WellFormed, EncodeAll8, CodePoints, AllValid, Views;
    ViewsUnfold(s, at);
    if at == |s| {
      assert s[at..] == [];
      EmptyIsWellFormed();
    } else {
      var v, n := ViewAt(s, at), CharLength(s[at]);
      ViewIsCharacter(s, at);
      WellFormedStep(s[at..]);
      assert at + n <= |s| ==> s[at..][..n] == s[at..at + n] && s[at..][n..] == s[at + n..];
      var rest := Views(s, at + v.size);
      ViewsSpell(s, at + v.size);
      FirstView(v, rest);
      if v.cp != INVALID {
        DecodedIsScalar(s[at..at + n]);
        EncodeAllCons(v.cp, CodePoints(rest));
        assert s[at..] == s[at..at + n] + s[at + n..];
      }
    }
  }

  lemma ViewsUnfold(s: seq<int>, at: nat)
    ensures at >= |s| ==> Views(s, at) == [] && AllValid([]) && CodePoints([]) == []
    ensures at < |s| ==> Views(s, at) == [ViewAt(s, at)] + Views(s, at + ViewAt(s, at).size)
  {
  }

  lemma FirstView(v: View, rest: seq<View>)
    ensures AllValid([v] + rest) <==> v.cp != INVALID && AllValid(rest)
    ensures CodePoints([v] + rest) == [v.cp] + CodePoints(rest)
    ensures ([v] + rest)[0] == v && ([v] + rest)[1..] == rest
  {
    var views := [v] + rest;
    assert views[0] == v && views[1..] == rest;
    if AllValid(views) {
      forall i | 0 <= i < |rest| ensures rest[i].cp != INVALID { assert rest[i] == views[i + 1]; }
    }
  }

  /** The views a callback hears: it may end the walk by returning false. */
  function Heard(views: seq<View>, accept: View -> bool): seq<View>
  {
    if |views| == 0 then []
    else if accept(views[0]) then [views[0]] + Heard(views[1..], accept)
    else [views[0]]
  }

  /** The walk goes on until the callback returns false, and that view is the last it hears. */
  lemma {:induction false} HeardUntil(views: seq<View>, accept: View -> bool, n: nat)
    requires n < |views| && forall i :: 0 <= i < n ==> accept(views[i])
    ensures if accept(views[n]) then views[..n + 1] <= Heard(views, accept) else Heard(views, accept) == views[..n + 1]
    ensures n + 1 == |views| ==> Heard(views, accept) == views
  {
    if n > 0 {
      HeardUntil(views[1..], accept, n - 1);
      assert views[..n + 1] == [views[0]] + views[1..][..n];
      assert views == [views[0]] + views[1..];
    } else {
      assert views[..1] == [views[0]];
      if |views| == 1 { assert views == [views[0]]; }
    }
  }

  lemma HeardStep(s: seq<int>, at: nat, accept: View -> bool)
    requires at < |s|
    ensures var v := ViewAt(s, at);
            Heard(Views(s, at), accept) == [v] + if accept(v) then Heard(Views(s, at + v.size), accept) else []
  {
    hide ViewAt, BlockError, BlockValue, TableLength;
    var v := ViewAt(s, at);
    assert Views(s, at)[1..] == Views(s, at + v.size);
  }

  /** The decode lambda: what to report for the block at hand, and how far to go on. */
  method Decode(block: seq<int>, at: nat) returns (v: View)
    requires |block| == 4
    ensures v == Seen(block, at)
  {
    var len := TableLength(block[0]);
    var error := BlockError(block, len);
    v := View(if error != 0 then INVALID else BlockValue(block, len), at, if error != 0 || len == 0 then 1 else len);
  }

  lemma SeenAt(s: seq<int>, at: nat, v: View)
    requires at < |s| && v == Seen(Block(s, at), at)
    ensures v == ViewAt(s, at)
  {
  }

  lemma BlockInside(s: seq<int>, at: nat)
    requires at + 4 <= |s|
    ensures s[at..at + 4] == Block(s, at)
  {
  }

  /** for_each_codepoint: whole blocks in the string, then the last bytes in a zero-padded copy. */
  method ForEachCodepoint(s: seq<int>, accept: View -> bool) returns (heard: seq<View>)
    requires Bytes(s)
    ensures heard == Heard(Views(s, 0), accept)
  {
    hide BlockError, BlockValue, TableLength, Views, Heard, ViewAt, Bytes, Block;
    heard := [];
    var p := 0;
    if |s| >= 4 {
      while p < |s| - 3
        invariant 0 <= p <= |s|
        invariant Heard(Views(s, 0), accept) == heard + Heard(Views(s, p), accept)
        decreases |s| - p
      {
        HeardStep(s, p, accept);
        WithinString(s, p);
        BlockInside(s, p);
        var v := Decode(s[p..p + 4], p);
        SeenAt(s, p, v);
        heard := heard + [v];
        if !accept(v) { return; }
        p := p + v.size;
      }
    }
    heard := HearTail(s, p, accept, heard);
  }

  /** The last bytes, decoded out of a buffer of seven that is zero behind them. */
  method HearTail(s: seq<int>, from: nat, accept: View -> bool, before: seq<View>) returns (heard: seq<View>)
    requires Bytes(s) && from <= |s| <= from + 3
    ensures heard == before + Heard(Views(s, from), accept)
  {
    hide BlockError, BlockValue, TableLength, Views, Heard;
    heard := before;
    var p, numCharsLeft := from, |s| - from;
    NoViews(s, accept);
    if numCharsLeft == 0 { return; }
    var buf := s[from..] + Padding(7 - numCharsLeft);
    var bufPtr := 0;
    while bufPtr < numCharsLeft
      invariant 0 <= bufPtr <= numCharsLeft && p == from + bufPtr
      invariant before + Heard(Views(s, from), accept) == heard + Heard(Views(s, p), accept)
      decreases numCharsLeft - bufPtr
    {
      HeardStep(s, p, accept);
      WithinString(s, p);
      assert buf[bufPtr..bufPtr + 4] == Block(s, p);
      var v := Decode(buf[bufPtr..bufPtr + 4], p);
      SeenAt(s, p, v);
      heard := heard + [v];
      if !accept(v) { return; }
      p, bufPtr := p + v.size, bufPtr + v.size;
    }
  }

  function Padding(n: nat): (z: seq<int>)
    ensures |z| == n && forall i :: 0 <= i < n ==> z[i] == 0
  {
    seq(n, _ => 0)
  }

  lemma NoViews(s: seq<int>, accept: View -> bool)
    ensures Heard(Views(s, |s|), accept) == []
  {
  }

  lemma WithinString(s: seq<int>, at: nat)
    requires at < |s| && Bytes(s)
    ensures at + ViewAt(s, at).size <= |s|
  {
    hide ViewAt;
    ViewIsCharacter(s, at);
  }

  /**
   The branchless walk and the strict converter agree on every string they should agree on:
   all views are valid exactly if the string is well formed, that is exactly if the converter
   succeeds and no ED or F4 stands before an ASCII byte; the code points are then the same.
   */
  lemma WalkAgreesWithConverter(s: seq<int>, room: nat)
    requires Bytes(s) && room >= |s|
    ensures var views, r := Views(s, 0), Run(From8To32, true, s, room, ConversionOK);
            && Tiles(views, 0, |s|)
            && (AllValid(views) <==> r.status == ConversionOK && Guarded(s))
            && (AllValid(views) ==> r.out == CodePoints(views))
  {
    hide Run, Views, WellFormed, Guarded;
    assert s[0..] == s;
    ViewsSpell(s, 0);
    StrictDecoding(true, s, room);
    if AllValid(Views(s, 0)) {
      var cps := CodePoints(Views(s, 0));
      SourceIsEncoding(From8To32, cps);
      TargetIsEncoding(From8To32, cps);
      EncodedLength(cps);
      Transcodes(From8To32, true, cps, room);
    }
  }
}
