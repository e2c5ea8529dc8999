/** What the converters make of text that is not well formed, and samples of text that is. */
module IllFormed {
  import opened Utf
  import opened Conversion
  import opened ConversionLaws
  import opened Transcoding

  predicate High(u: int) { 0xD800 <= u <= 0xDBFF }

  predicate Low(u: int) { 0xDC00 <= u <= 0xDFFF }

  predicate Units16(s: seq<int>)
  {
    forall i :: 0 <= i < |s| ==> 0 <= s[i] <= 0xFFFF
  }

  /** Surrogates come in pairs, high before low: RFC 2781 section 2.2. */
  predicate WellFormed16(s: seq<int>)
  {
    |s| == 0 ||
    (if High(s[0]) then |s| > 1 && Low(s[1]) && WellFormed16(s[2..]) else !Low(s[0]) && WellFormed16(s[1..]))
  }

  /** The reason for which decoding UTF-8 stops in front of these bytes, with room left. */
  predicate Stops8(rest: seq<int>, status: Status)
  {
    && |rest| > 0
    && var n := CharLength(rest[0]);
       if n > |rest| then status == SourceExhausted else status == SourceIllegal && !LooseChar(rest[..n])
  }

  lemma Sees8Exactly(s: seq<int>)
    requires |s| > 0 && Bytes(s)
    ensures var n := CharLength(s[0]);
            if n > |s| then See8(s) == Fail(SourceExhausted)
            else if LooseChar(s[..n]) then See8(s) == Char(ScalarOf(s[..n]), n) && IsScalar(ScalarOf(s[..n]))
            else See8(s) == Fail(SourceIllegal)
  {
    hide IsLegalUTF8, LooseChar, TableDecode, ScalarOf;
    SeesCharacters(s);
    var n := CharLength(s[0]);
    assert n == TrailingBytes(s[0]) + 1;
    if n <= |s| { LegalIsLoose(s, n); }
  }

  lemma Round8(kind: Kind, strict: bool, s: seq<int>, room: nat)
    requires |s| > 0 && Bytes(s) && room >= 2 && (kind == From8To16 || kind == From8To32)
    ensures var o := Step(kind, strict, s, room);
            if o.Emit? then 1 <= o.units <= |s| && |o.out| <= 2 && !o.bad else Stops8(s, o.status)
  {
    hide See8, LooseChar, ScalarOf, CharLength;
    Sees8Exactly(s);
    StepShape(kind, strict, s, room);
  }

  /** A decoding stops for lack of bytes exactly when fewer are left than the first one announces; else they are illegal. */
  lemma {:induction false} Failure8(kind: Kind, strict: bool, s: seq<int>, room: nat)
    requires Bytes(s) && room >= 2 * |s| && (kind == From8To16 || kind == From8To32)
    ensures var r := Run(kind, strict, s, room, ConversionOK);
            r.consumed <= |s| && (r.status != ConversionOK ==> Stops8(s[r.consumed..], r.status))
    decreases |s|
  {
    hide Step, Stops8, Run;
    if |s| == 0 {
      NothingToDo(kind, strict, room, ConversionOK);
    } else {
      Round8(kind, strict, s, room);
      RunRound(kind, strict, s, room, ConversionOK);
      var o := Step(kind, strict, s, room);
      if o.Emit? {
        Failure8(kind, strict, s[o.units..], room - |o.out|);
        var rest := Run(kind, strict, s[o.units..], room - |o.out|, ConversionOK);
        assert s[o.units..][rest.consumed..] == s[o.units + rest.consumed..];
      } else {
        assert s[0..] == s;
      }
    }
  }

  /** The reason for which decoding UTF-16 stops in front of these units. */
  predicate Stops16(rest: seq<int>, strict: bool, status: Status)
  {
    && |rest| > 0
    && if High(rest[0]) && |rest| == 1 then status == SourceExhausted
       else status == SourceIllegal && strict && (Low(rest[0]) || (High(rest[0]) && !Low(rest[1])))
  }

  lemma Round16(kind: Kind, strict: bool, s: seq<int>, room: nat)
    requires |s| > 0 && Units16(s) && room >= 4 && (kind == From16To32 || kind == From16To8)
    ensures var o := Step(kind, strict, s, room);
            if o.Emit? then
              && o.units == (if High(s[0]) && |s| > 1 && Low(s[1]) then 2 else 1) && |o.out| <= 3 * o.units && !o.bad
              && (High(s[0]) ==> |s| > 1) && (strict ==> (WellFormed16(s) <==> WellFormed16(s[o.units..])))
            else Stops16(s, strict, o.status) && o.status != ConversionOK && !WellFormed16(s)
  {
    hide Encode8;
    LengthOfEncoding(s[0]);
  }

  lemma LengthOfEncoding(c: int)
    ensures c <= 0xFFFF ==> |Encode8(c)| <= 3
  {
  }

  /**
   Strict decoding of UTF-16 succeeds exactly on well-formed text, lenient decoding exactly on
   text that does not end inside a pair; and where it stops it says why.
   */
  lemma {:induction false} Decoding16(kind: Kind, strict: bool, s: seq<int>, room: nat)
    requires Units16(s) && room >= 4 * |s| && (kind == From16To32 || kind == From16To8)
    ensures var r := Run(kind, strict, s, room, ConversionOK);
            && r.consumed <= |s| && (r.status == ConversionOK <==> r.consumed == |s|)
            && (r.status != ConversionOK ==> Stops16(s[r.consumed..], strict, r.status))
            && (strict ==> (r.status == ConversionOK <==> WellFormed16(s)))
            && (!strict ==> (r.status == ConversionOK <==> |s| == 0 || !High(s[|s| - 1])))
    decreases |s|
  {
    hide Step, Stops16, Run;
    if |s| == 0 {
      NothingToDo(kind, strict, room, ConversionOK);
    } else {
      Round16(kind, strict, s, room);
      RunRound(kind, strict, s, room, ConversionOK);
      var o := Step(kind, strict, s, room);
      if o.Emit? {
        Decoding16(kind, strict, s[o.units..], room - |o.out|);
        var rest := Run(kind, strict, s[o.units..], room - |o.out|, ConversionOK);
        assert s[o.units..][rest.consumed..] == s[o.units + rest.consumed..];
        LastUnit(s, strict, kind, room);
      } else {
        assert s[0..] == s;
        LastUnit(s, strict, kind, room);
      }
    }
  }

  lemma LastUnit(s: seq<int>, strict: bool, kind: Kind, room: nat)
    requires |s| > 0 && Units16(s) && room >= 4 && (kind == From16To32 || kind == From16To8)
    ensures var o := Step(kind, strict, s, room);
            !strict ==> if o.Stop? then High(s[|s| - 1])
                        else (|s| == o.units ==> !High(s[|s| - 1])) && (|s| > o.units ==> s[o.units..][|s| - o.units - 1] == s[|s| - 1])
  {
    hide Step;
    Round16(kind, strict, s, room);
  }

  /** The values that are no scalars: what each mode of the converters from UTF-32 does with one. */
  lemma NoScalar(c: int, rest: seq<int>, room: nat)
    requires c >= 0 && !IsScalar(c) && room >= 4
    ensures var s := [c] + rest;
            && Step(From32To16, false, s, room) == Emit(1, [0xFFFD], false)
            && Step(From32To16, true, s, room) == (if c > 0x10FFFF then Emit(1, [], true) else Stop(SourceIllegal))
            && Step(From32To8, true, s, room) == (if c > 0x10FFFF then Emit(1, [0xEF, 0xBF, 0xBD], true) else Stop(SourceIllegal))
            && Step(From32To8, false, s, room) ==
               (if c > 0x10FFFF then Emit(1, [0xEF, 0xBF, 0xBD], true)
                else Emit(1, [0xE0 + c / 0x1000, 0x80 + c / 0x40 % 0x40, 0x80 + c % 0x40], false))
  {
  }

  /** A strict conversion from UTF-32 succeeds exactly on scalar values. */
  lemma {:induction false} Strict32(kind: Kind, s: seq<int>, room: nat, pending: Status)
    requires room >= 4 * |s| && (kind == From32To16 || kind == From32To8) && forall i :: 0 <= i < |s| ==> s[i] >= 0
    ensures Run(kind, true, s, room, pending).status == ConversionOK <==> pending == ConversionOK && Scalars(s)
    decreases |s|
  {
    hide Run, Encode8, Encode16, Step;
    if |s| == 0 {
      NothingToDo(kind, true, room, pending);
    } else {
      RunRound(kind, true, s, room, pending);
      assert s == [s[0]] + s[1..];
      Round32(kind, s, room);
      var o := Step(kind, true, s, room);
      if o.Emit? { Strict32(kind, s[1..], room - |o.out|, if o.bad then SourceIllegal else pending); }
    }
  }

  lemma Round32(kind: Kind, s: seq<int>, room: nat)
    requires |s| > 0 && room >= 4 && (kind == From32To16 || kind == From32To8) && s[0] >= 0
    ensures var o := Step(kind, true, s, room);
            if IsScalar(s[0]) then o.Emit? && o.units == 1 && |o.out| <= 4 && !o.bad
            else if o.Emit? then o.units == 1 && |o.out| <= 4 && o.bad else o.status != ConversionOK
  {
  }

  /** Text from RFC 3629 section 7 and RFC 2781 section 5, and U+233B4 in all three forms. */
  lemma Samples(strict: bool)
    ensures Run(From32To8, strict, [0x41, 0x2262, 0x391, 0x2E], 7, ConversionOK)
         == Report(ConversionOK, 4, [0x41, 0xE2, 0x89, 0xA2, 0xCE, 0x91, 0x2E])
    ensures Run(From32To16, strict, [0x12345], 2, ConversionOK) == Report(ConversionOK, 1, [0xD808, 0xDF45])
    ensures Run(From8To16, strict, [0xF0, 0xA3, 0x8E, 0xB4], 2, ConversionOK) == Report(ConversionOK, 4, [0xD84C, 0xDFB4])
    ensures Run(From16To8, strict, [0xD84C, 0xDFB4], 4, ConversionOK) == Report(ConversionOK, 2, [0xF0, 0xA3, 0x8E, 0xB4])
  {
    hide Run;
    var text := [0x41, 0x2262, 0x391, 0x2E];
    assert text[1..] == [0x2262, 0x391, 0x2E] && text[1..][1..] == [0x391, 0x2E] && text[1..][1..][1..] == [0x2E];
    SampleText(text);
    Transcodes(From32To8, strict, text, 7);
    OneSource(From32To16, 0x12345);
    Transcodes(From32To16, strict, [0x12345], 2);
    OneSource(From8To16, 0x233B4);
    Transcodes(From8To16, strict, [0x233B4], 2);
    OneSource(From16To8, 0x233B4);
    Transcodes(From16To8, strict, [0x233B4], 4);
  }

  lemma OneSource(kind: Kind, c: int)
    ensures Source(kind, [c]) == SourceUnits(kind, c) && Target(kind, [c]) == TargetUnits(kind, c)
  {
    assert [c][1..] == [];
  }

  lemma SampleText(text: seq<int>)
    requires text == [0x41, 0x2262, 0x391, 0x2E]
    ensures Source(From32To8, text) == text && Target(From32To8, text) == [0x41, 0xE2, 0x89, 0xA2, 0xCE, 0x91, 0x2E]
  {
    SourceIsEncoding(From32To8, text);
    TargetIsEncoding(From32To8, text);
    EncodeAllCons(0x2E, []);
    EncodeAllCons(0x391, [0x2E]);
    EncodeAllCons(0x2262, [0x391, 0x2E]);
    EncodeAllCons(0x41, [0x2262, 0x391, 0x2E]);
    assert [0x2E] + [] == [0x2E] && [0x391] + [0x2E] == [0x391, 0x2E];
    assert [0x2262] + [0x391, 0x2E] == [0x2262, 0x391, 0x2E] && [0x41] + [0x2262, 0x391, 0x2E] == text;
  }
}
