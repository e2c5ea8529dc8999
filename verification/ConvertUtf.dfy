/** The converter loops of ConvertUTF, writing into the caller's buffer. */
module ConvertUtf {
  import opened Utf
  import opened Conversion

  /**
   What a loop has done so far: the units between start and target are the text of the source
   up to this point, and the rest of the loop completes the report of the whole call.
   */
  ghost predicate Sofar(kind: Kind, strict: bool, src: seq<int>, start: nat, source: nat, done: seq<int>, room: nat, left: int, result: Status)
  {
    && start <= source <= |src| && left >= 0
    && Run(kind, strict, src[start..], room, ConversionOK) ==
       Then(source - start, done, Run(kind, strict, src[source..], left, result))
  }

  lemma Begin(kind: Kind, strict: bool, src: seq<int>, start: nat, room: nat)
    requires start <= |src|
    ensures Sofar(kind, strict, src, start, start, [], room, room, ConversionOK)
  {
    hide Run;
    ThenNothing(Run(kind, strict, src[start..], room, ConversionOK));
  }

  /** One more round has been written. */
  lemma Emitted(kind: Kind, strict: bool, src: seq<int>, start: nat, source: nat, done: seq<int>, room: nat, left: int, result: Status)
    requires Sofar(kind, strict, src, start, source, done, room, left, result) && source < |src|
    ensures var o := Step(kind, strict, src[source..], left);
            if o.Stop? then Run(kind, strict, src[start..], room, ConversionOK) == Report(o.status, source - start, done)
            else Sofar(kind, strict, src, start, source + o.units, done + o.out, room, left - |o.out|, if o.bad then SourceIllegal else result)
  {
    hide Run, Step;
    var o := Step(kind, strict, src[source..], left);
    RunRound(kind, strict, src[source..], left, result);
    if o.Stop? {
      ThenStop(source - start, done, o.status);
    } else {
      assert src[source..][o.units..] == src[source + o.units..];
      ThenThen(source - start, done, o.units, o.out,
               Run(kind, strict, src[source + o.units..], left - |o.out|, if o.bad then SourceIllegal else result));
    }
  }

  /** The source is used up. */
  lemma End(kind: Kind, strict: bool, src: seq<int>, start: nat, done: seq<int>, room: nat, left: int, result: Status)
    requires Sofar(kind, strict, src, start, |src|, done, room, left, result)
    ensures Run(kind, strict, src[start..], room, ConversionOK) == Report(result, |src| - start, done)
  {
    ThenStop(|src| - start, done, result);
  }

  /** The add-and-shift switch, as the loop it abbreviates. */
  method Gather(src: seq<int>, source: nat, extra: nat) returns (ch: int)
    requires source + extra < |src|
    ensures ch == Accumulate(src[source..source + extra + 1])
  {
    ch := 0;
    var i := 0;
    assert src[source..source] == [];
    while i <= extra
      invariant 0 <= i <= extra + 1 && ch == Accumulate(src[source..source + i])
    {
      var s := src[source..source + i + 1];
      assert s[..|s| - 1] == src[source..source + i];
      ch := ch * 0x40 + src[source + i];
      i := i + 1;
    }
  }

  /** A unit, or a surrogate pair, at source; the position stays if neither can be taken. */
  method ReadSurrogates(src: seq<int>, oldSource: nat, strict: bool, result: Status) returns (result': Status, ch: int, source: nat)
    requires oldSource < |src|
    ensures match See16(src[oldSource..], strict)
            case Fail(status) => result' == status && source == oldSource
            case Char(c, units) => result' == result && ch == c && source == oldSource + units
  {
    result', source := result, oldSource;
    ch := src[source];
    source := source + 1;
    if 0xD800 <= ch <= 0xDBFF {
      if source < |src| {
        var ch2 := src[source];
        if 0xDC00 <= ch2 <= 0xDFFF {
          ch := (ch - 0xD800) * 0x400 + (ch2 - 0xDC00) + 0x10000;
          source := source + 1;
        } else if strict {
          source := source - 1;
          result' := SourceIllegal;
        }
      } else {
        source := source - 1;
        result' := SourceExhausted;
      }
    } else if strict {
      if 0xDC00 <= ch <= 0xDFFF {
        source := source - 1;
        result' := SourceIllegal;
      }
    }
  }

  lemma SeenUnits(s: seq<int>, strict: bool)
    requires |s| > 0
    ensures See16(s, strict).Char? ==> 1 <= See16(s, strict).units <= |s|
  {
  }

  /** *target++ = unit; */
  method Put(dst: array<int>, start: nat, target: nat, unit: int) returns (target': nat)
    requires start <= target < dst.Length
    modifies dst
    ensures target' == target + 1
    ensures dst[start..target + 1] == old(dst[start..target]) + [unit]
    ensures forall i :: 0 <= i < start || target + 1 <= i < dst.Length ==> dst[i] == old(dst[i])
  {
    dst[target] := unit;
    target' := target + 1;
  }

  /** A code point beyond the basic plane as two units, high ten bits first. */
  method PutPair(dst: array<int>, start: nat, target: nat, c: int) returns (target': nat)
    requires start <= target && target + 1 < dst.Length && c >= 0x10000
    modifies dst
    ensures target' == target + 2
    ensures dst[start..target + 2] == old(dst[start..target]) + Encode16(c)
    ensures forall i :: 0 <= i < start || target + 2 <= i < dst.Length ==> dst[i] == old(dst[i])
  {
    var ch := c - 0x10000;
    dst[target] := ch / 0x400 + 0xD800;
    dst[target + 1] := ch % 0x400 + 0xDC00;
    target' := target + 2;
  }

  /** How many bytes a code point takes; one out of range is replaced. */
  method BytesNeeded(c: int) returns (bytesToWrite: nat, ch: int, outOfRange: bool)
    ensures outOfRange <==> c > 0x10FFFF
    ensures ch == (if c > 0x10FFFF then REPLACEMENT else c) && bytesToWrite == |Encode8(ch)|
  {
    ch, outOfRange := c, false;
    if ch < 0x80 {
      bytesToWrite := 1;
    } else if ch < 0x800 {
      bytesToWrite := 2;
    } else if ch < 0x10000 {
      bytesToWrite := 3;
    } else if ch < 0x110000 {
      bytesToWrite := 4;
    } else {
      bytesToWrite := 3;
      ch := REPLACEMENT;
      outOfRange := true;
    }
  }

  /** firstByteMark */
  function FirstByteMark(n: nat): int
  {
    if n <= 1 then 0x00 else if n == 2 then 0xC0 else if n == 3 then 0xE0 else if n == 4 then 0xF0 else if n == 5 then 0xF8 else 0xFC
  }

  /** The falling-through switch that writes bytes backwards; (ch | 80) & BF keeps the low six bits. */
  method WriteBytes(dst: array<int>, target: nat, c: int, bytesToWrite: nat)
    requires target + bytesToWrite <= dst.Length && bytesToWrite == |Encode8(c)|
    modifies dst
    ensures forall i :: 0 <= i < bytesToWrite ==> dst[target + i] == Encode8(c)[i]
    ensures forall i :: 0 <= i < target || target + bytesToWrite <= i < dst.Length ==> dst[i] == old(dst[i])
  {
    var ch := c;
    if bytesToWrite == 4 { dst[target + 3], ch := 0x80 + ch % 0x40, ch / 0x40; }
    if bytesToWrite >= 3 { dst[target + 2], ch := 0x80 + ch % 0x40, ch / 0x40; }
    if bytesToWrite >= 2 { dst[target + 1], ch := 0x80 + ch % 0x40, ch / 0x40; }
    dst[target] := ch + FirstByteMark(bytesToWrite);
  }

  method PutBytes(dst: array<int>, start: nat, target: nat, c: int, bytesToWrite: nat) returns (target': nat)
    requires start <= target && target + bytesToWrite <= dst.Length && bytesToWrite == |Encode8(c)|
    modifies dst
    ensures target' == target + bytesToWrite
    ensures dst[start..target + bytesToWrite] == old(dst[start..target]) + Encode8(c)
    ensures forall i :: 0 <= i < start || target + bytesToWrite <= i < dst.Length ==> dst[i] == old(dst[i])
  {
    hide Encode8;
    WriteBytes(dst, target, c, bytesToWrite);
    target' := target + bytesToWrite;
    assert dst[target..target + bytesToWrite] == Encode8(c);
    assert dst[start..target + bytesToWrite] == dst[start..target] + dst[target..target + bytesToWrite];
  }

  method ConvertUTF8toUTF32(src: seq<int>, sourceStart: nat, dst: array<int>, targetStart: nat, targetEnd: nat, strict: bool)
    returns (result: Status, source: nat, target: nat)
    requires sourceStart <= |src| && targetStart <= targetEnd <= dst.Length
    modifies dst
    ensures sourceStart <= source <= |src| && targetStart <= target <= targetEnd
    ensures Run(From8To32, strict, src[sourceStart..], targetEnd - targetStart, ConversionOK)
         == Report(result, source - sourceStart, dst[targetStart..target])
    ensures forall i :: 0 <= i < targetStart || target <= i < dst.Length ==> dst[i] == old(dst[i])
  {
    hide Run, Sofar, IsLegalUTF8, Accumulate, Offset, Encode8, Encode16;
    ghost var room := targetEnd - targetStart;
    result, source, target := ConversionOK, sourceStart, targetStart;
    Begin(From8To32, strict, src, sourceStart, room);
    assert dst[targetStart..target] == [];
    while source < |src|
      invariant sourceStart <= source <= |src| && targetStart <= target <= targetEnd
      invariant Sofar(From8To32, strict, src, sourceStart, source, dst[targetStart..target], room, targetEnd - target, result)
      invariant forall i :: 0 <= i < targetStart || target <= i < dst.Length ==> dst[i] == old(dst[i])
    {
      Emitted(From8To32, strict, src, sourceStart, source, dst[targetStart..target], room, targetEnd - target, result);
      var extraBytesToRead := TrailingBytes(src[source]);
      if source + extraBytesToRead >= |src| { result := SourceExhausted; return; }
      if !IsLegalUTF8(src[source..], extraBytesToRead + 1) { result := SourceIllegal; return; }
      var ch := Gather(src, source, extraBytesToRead);
      assert src[source..source + extraBytesToRead + 1] == src[source..][..extraBytesToRead + 1];
      ch := (ch - Offset(extraBytesToRead)) % 0x1_0000_0000;
      source := source + extraBytesToRead + 1;
      if target >= targetEnd {
        source := source - (extraBytesToRead + 1);
        result := TargetExhausted; return;
      }
      if ch <= 0x10FFFF {
        if Surrogate(ch) {
          if strict {
            source := source - (extraBytesToRead + 1);
            result := SourceIllegal; return;
          } else {
            target := Put(dst, targetStart, target, REPLACEMENT);
          }
        } else {
          target := Put(dst, targetStart, target, ch);
        }
      } else {
        result := SourceIllegal;
        target := Put(dst, targetStart, target, REPLACEMENT);
      }
    }
    End(From8To32, strict, src, sourceStart, dst[targetStart..target], room, targetEnd - target, result);
  }

  method ConvertUTF8toUTF16(src: seq<int>, sourceStart: nat, dst: array<int>, targetStart: nat, targetEnd: nat, strict: bool)
    returns (result: Status, source: nat, target: nat)
    requires sourceStart <= |src| && targetStart <= targetEnd <= dst.Length
    modifies dst
    ensures sourceStart <= source <= |src| && targetStart <= target <= targetEnd
    ensures Run(From8To16, strict, src[sourceStart..], targetEnd - targetStart, ConversionOK)
         == Report(result, source - sourceStart, dst[targetStart..target])
    ensures forall i :: 0 <= i < targetStart || target <= i < dst.Length ==> dst[i] == old(dst[i])
  {
    hide Run, Sofar, IsLegalUTF8, Accumulate, Offset, Encode8, Encode16;
    ghost var room := targetEnd - targetStart;
    result, source, target := ConversionOK, sourceStart, targetStart;
    Begin(From8To16, strict, src, sourceStart, room);
    assert dst[targetStart..target] == [];
    while source < |src|
      invariant sourceStart <= source <= |src| && targetStart <= target <= targetEnd
      invariant Sofar(From8To16, strict, src, sourceStart, source, dst[targetStart..target], room, targetEnd - target, result)
      invariant forall i :: 0 <= i < targetStart || target <= i < dst.Length ==> dst[i] == old(dst[i])
    {
      Emitted(From8To16, strict, src, sourceStart, source, dst[targetStart..target], room, targetEnd - target, result);
      var extraBytesToRead := TrailingBytes(src[source]);
      if source + extraBytesToRead >= |src| { result := SourceExhausted; return; }
      if !IsLegalUTF8(src[source..], extraBytesToRead + 1) { result := SourceIllegal; return; }
      var ch := Gather(src, source, extraBytesToRead);
      assert src[source..source + extraBytesToRead + 1] == src[source..][..extraBytesToRead + 1];
      ch := (ch - Offset(extraBytesToRead)) % 0x1_0000_0000;
      source := source + extraBytesToRead + 1;
      if target >= targetEnd {
        source := source - (extraBytesToRead + 1);
        result := TargetExhausted; return;
      }
      if ch <= 0xFFFF {
        if Surrogate(ch) {
          if strict {
            source := source - (extraBytesToRead + 1);
            result := SourceIllegal; return;
          } else {
            target := Put(dst, targetStart, target, REPLACEMENT);
          }
        } else {
          target := Put(dst, targetStart, target, ch);
        }
      } else if ch > 0x10FFFF {
        if strict {
          result := SourceIllegal;
          source := source - (extraBytesToRead + 1);
          return;
        } else {
          target := Put(dst, targetStart, target, REPLACEMENT);
        }
      } else {
        if target + 1 >= targetEnd {
          source := source - (extraBytesToRead + 1);
          result := TargetExhausted; return;
        }
        target := PutPair(dst, targetStart, target, ch);
      }
    }
    End(From8To16, strict, src, sourceStart, dst[targetStart..target], room, targetEnd - target, result);
  }

  method ConvertUTF32toUTF16(src: seq<int>, sourceStart: nat, dst: array<int>, targetStart: nat, targetEnd: nat, strict: bool)
    returns (result: Status, source: nat, target: nat)
    requires sourceStart <= |src| && targetStart <= targetEnd <= dst.Length
    modifies dst
    ensures sourceStart <= source <= |src| && targetStart <= target <= targetEnd
    ensures Run(From32To16, strict, src[sourceStart..], targetEnd - targetStart, ConversionOK)
         == Report(result, source - sourceStart, dst[targetStart..target])
    ensures forall i :: 0 <= i < targetStart || target <= i < dst.Length ==> dst[i] == old(dst[i])
  {
    hide Run, Sofar, Encode8, Encode16;
    ghost var room := targetEnd - targetStart;
    result, source, target := ConversionOK, sourceStart, targetStart;
    Begin(From32To16, strict, src, sourceStart, room);
    assert dst[targetStart..target] == [];
    while source < |src|
      invariant sourceStart <= source <= |src| && targetStart <= target <= targetEnd
      invariant Sofar(From32To16, strict, src, sourceStart, source, dst[targetStart..target], room, targetEnd - target, result)
      invariant forall i :: 0 <= i < targetStart || target <= i < dst.Length ==> dst[i] == old(dst[i])
    {
      Emitted(From32To16, strict, src, sourceStart, source, dst[targetStart..target], room, targetEnd - target, result);
      if target >= targetEnd { result := TargetExhausted; return; }
      var ch := src[source];
      source := source + 1;
      if ch <= 0xFFFF {
        if Surrogate(ch) {
          if strict {
            source := source - 1;
            result := SourceIllegal; return;
          } else {
            target := Put(dst, targetStart, target, REPLACEMENT);
          }
        } else {
          target := Put(dst, targetStart, target, ch);
        }
      } else if ch > 0x10FFFF {
        if strict {
          result := SourceIllegal;
          assert dst[targetStart..target] + [] == dst[targetStart..target];
        } else {
          target := Put(dst, targetStart, target, REPLACEMENT);
        }
      } else {
        if target + 1 >= targetEnd {
          source := source - 1;
          result := TargetExhausted; return;
        }
        target := PutPair(dst, targetStart, target, ch);
      }
    }
    End(From32To16, strict, src, sourceStart, dst[targetStart..target], room, targetEnd - target, result);
  }

  method ConvertUTF16toUTF32(src: seq<int>, sourceStart: nat, dst: array<int>, targetStart: nat, targetEnd: nat, strict: bool)
    returns (result: Status, source: nat, target: nat)
    requires sourceStart <= |src| && targetStart <= targetEnd <= dst.Length
    modifies dst
    ensures sourceStart <= source <= |src| && targetStart <= target <= targetEnd
    ensures Run(From16To32, strict, src[sourceStart..], targetEnd - targetStart, ConversionOK)
         == Report(result, source - sourceStart, dst[targetStart..target])
    ensures forall i :: 0 <= i < targetStart || target <= i < dst.Length ==> dst[i] == old(dst[i])
  {
    hide Run, Sofar, Encode8, Encode16, See16;
    ghost var room := targetEnd - targetStart;
    result, source, target := ConversionOK, sourceStart, targetStart;
    Begin(From16To32, strict, src, sourceStart, room);
    assert dst[targetStart..target] == [];
    while source < |src|
      invariant sourceStart <= source <= |src| && targetStart <= target <= targetEnd
      invariant Sofar(From16To32, strict, src, sourceStart, source, dst[targetStart..target], room, targetEnd - target, result)
      invariant forall i :: 0 <= i < targetStart || target <= i < dst.Length ==> dst[i] == old(dst[i])
    {
      Emitted(From16To32, strict, src, sourceStart, source, dst[targetStart..target], room, targetEnd - target, result);
      SeenUnits(src[source..], strict);
      var oldSource := source;
      var ch;
      result, ch, source := ReadSurrogates(src, source, strict, result);
      if source == oldSource { return; }
      if target >= targetEnd {
        source := oldSource;
        result := TargetExhausted; return;
      }
      target := Put(dst, targetStart, target, ch);
    }
    End(From16To32, strict, src, sourceStart, dst[targetStart..target], room, targetEnd - target, result);
  }

  method ConvertUTF16toUTF8(src: seq<int>, sourceStart: nat, dst: array<int>, targetStart: nat, targetEnd: nat, strict: bool)
    returns (result: Status, source: nat, target: nat)
    requires sourceStart <= |src| && targetStart <= targetEnd <= dst.Length
    modifies dst
    ensures sourceStart <= source <= |src| && targetStart <= target <= targetEnd
    ensures Run(From16To8, strict, src[sourceStart..], targetEnd - targetStart, ConversionOK)
         == Report(result, source - sourceStart, dst[targetStart..target])
    ensures forall i :: 0 <= i < targetStart || target <= i < dst.Length ==> dst[i] == old(dst[i])
  {
    hide Run, Sofar, Encode16, Encode8, See16;
    ghost var room := targetEnd - targetStart;
    result, source, target := ConversionOK, sourceStart, targetStart;
    Begin(From16To8, strict, src, sourceStart, room);
    assert dst[targetStart..target] == [];
    while source < |src|
      invariant sourceStart <= source <= |src| && targetStart <= target <= targetEnd
      invariant Sofar(From16To8, strict, src, sourceStart, source, dst[targetStart..target], room, targetEnd - target, result)
      invariant forall i :: 0 <= i < targetStart || target <= i < dst.Length ==> dst[i] == old(dst[i])
    {
      Emitted(From16To8, strict, src, sourceStart, source, dst[targetStart..target], room, targetEnd - target, result);
      SeenUnits(src[source..], strict);
      var oldSource := source;
      var ch;
      result, ch, source := ReadSurrogates(src, source, strict, result);
      if source == oldSource { return; }
      var bytesToWrite, outOfRange;
      bytesToWrite, ch, outOfRange := BytesNeeded(ch);
      target := target + bytesToWrite;
      if target > targetEnd {
        source := oldSource;
        target := target - bytesToWrite;
        result := TargetExhausted; return;
      }
      target := PutBytes(dst, targetStart, target - bytesToWrite, ch, bytesToWrite);
    }
    End(From16To8, strict, src, sourceStart, dst[targetStart..target], room, targetEnd - target, result);
  }

  method ConvertUTF32toUTF8(src: seq<int>, sourceStart: nat, dst: array<int>, targetStart: nat, targetEnd: nat, strict: bool)
    returns (result: Status, source: nat, target: nat)
    requires sourceStart <= |src| && targetStart <= targetEnd <= dst.Length
    modifies dst
    ensures sourceStart <= source <= |src| && targetStart <= target <= targetEnd
    ensures Run(From32To8, strict, src[sourceStart..], targetEnd - targetStart, ConversionOK)
         == Report(result, source - sourceStart, dst[targetStart..target])
    ensures forall i :: 0 <= i < targetStart || target <= i < dst.Length ==> dst[i] == old(dst[i])
  {
    hide Run, Sofar, Encode16, Encode8;
    ghost var room := targetEnd - targetStart;
    result, source, target := ConversionOK, sourceStart, targetStart;
    Begin(From32To8, strict, src, sourceStart, room);
    assert dst[targetStart..target] == [];
    while source < |src|
      invariant sourceStart <= source <= |src| && targetStart <= target <= targetEnd
      invariant Sofar(From32To8, strict, src, sourceStart, source, dst[targetStart..target], room, targetEnd - target, result)
      invariant forall i :: 0 <= i < targetStart || target <= i < dst.Length ==> dst[i] == old(dst[i])
    {
      Emitted(From32To8, strict, src, sourceStart, source, dst[targetStart..target], room, targetEnd - target, result);
      var ch := src[source];
      source := source + 1;
      if strict {
        if Surrogate(ch) {
          source := source - 1;
          result := SourceIllegal; return;
        }
      }
      var bytesToWrite, outOfRange;
      bytesToWrite, ch, outOfRange := BytesNeeded(ch);
      if outOfRange { result := SourceIllegal; }
      target := target + bytesToWrite;
      if target > targetEnd {
        source := source - 1;
        target := target - bytesToWrite;
        result := TargetExhausted; return;
      }
      target := PutBytes(dst, targetStart, target - bytesToWrite, ch, bytesToWrite);
    }
    End(From32To8, strict, src, sourceStart, dst[targetStart..target], room, targetEnd - target, result);
  }
}
