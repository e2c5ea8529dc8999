/** One theorem for all six converters, and the agreement of the direct and the two-step path. */
module Transcoding {
  import opened Utf
  import opened Conversion
  import opened ConversionLaws

  /** The scalar values as the source, or the target, of a converter spells them. */
  function SourceUnits(kind: Kind, c: int): (u: seq<int>)
    ensures 1 <= |u| <= 4
  {
    match kind
    case From32To16 => [c]
    case From32To8 => [c]
    case From16To32 => Encode16(c)
    case From16To8 => Encode16(c)
    case From8To16 => Encode8(c)
    case From8To32 => Encode8(c)
  }

  function TargetUnits(kind: Kind, c: int): (u: seq<int>)
    ensures 1 <= |u| <= 4
  {
    match kind
    case From32To16 => Encode16(c)
    case From8To16 => Encode16(c)
    case From32To8 => Encode8(c)
    case From16To8 => Encode8(c)
    case From16To32 => [c]
    case From8To32 => [c]
  }

  function Source(kind: Kind, s: seq<int>): seq<int>
  {
    if |s| == 0 then [] else SourceUnits(kind, s[0]) + Source(kind, s[1..])
  }

  function Target(kind: Kind, s: seq<int>): seq<int>
  {
    if |s| == 0 then [] else TargetUnits(kind, s[0]) + Target(kind, s[1..])
  }

  lemma {:induction false} EncodedLength(s: seq<int>)
    ensures |s| <= |EncodeAll8(s)| <= 4 * |s|
  {
    if |s| > 0 { EncodedLength(s[1..]); }
  }

  lemma EncodedBytes(s: seq<int>)
    requires Scalars(s)
    ensures Bytes(EncodeAll8(s))
  {
    if |s| > 0 { EncodedBytes(s[1..]); }
  }

  /** The decoding halves take exactly the units of one scalar value. */
  lemma SeesEncoded(c: int, rest: seq<int>, strict: bool)
    requires IsScalar(c) && Bytes(rest)
    ensures See8(Encode8(c) + rest) == Char(c, |Encode8(c)|)
  {
    hide ScalarOf, See8, LooseChar;
    var e := Encode8(c);
    EncodedIsChar(c);
    CharsAreLoose(e);
    LengthFromFirstByte(e);
    assert (e + rest)[0] == e[0] && (e + rest)[..|e|] == e;
    assert Bytes(e + rest);
    SeesCharacters(e + rest);
  }

  lemma SeesPair(c: int, rest: seq<int>, strict: bool)
    requires IsScalar(c)
    ensures See16(Encode16(c) + rest, strict) == Char(c, |Encode16(c)|)
  {
    var e := Encode16(c);
    assert (e + rest)[0] == e[0] && (|e| == 2 ==> (e + rest)[1] == e[1]);
  }

  /** With room for it, every converter turns one scalar value into its target units. */
  lemma TranscodesOne(kind: Kind, strict: bool, c: int, rest: seq<int>, room: nat)
    requires IsScalar(c) && room >= |TargetUnits(kind, c)|
    requires kind == From8To16 || kind == From8To32 ==> Bytes(rest)
    ensures Step(kind, strict, SourceUnits(kind, c) + rest, room) == Emit(|SourceUnits(kind, c)|, TargetUnits(kind, c), false)
  {
    hide See8, See16;
    match kind
    case From32To16 =>
    case From32To8 =>
    case From16To32 => SeesPair(c, rest, strict);
    case From16To8 => SeesPair(c, rest, strict);
    case From8To16 => SeesEncoded(c, rest, strict);
    case From8To32 => SeesEncoded(c, rest, strict);
  }

  /**
   Every converter, strict or lenient, maps the spelling of any scalar sequence in its source
   form to the spelling in its target form, as soon as the target holds that many units.
   */
  lemma {:induction false} Transcodes(kind: Kind, strict: bool, s: seq<int>, room: nat)
    requires Scalars(s) && room >= |Target(kind, s)|
    ensures Run(kind, strict, Source(kind, s), room, ConversionOK) == Report(ConversionOK, |Source(kind, s)|, Target(kind, s))
  {
    hide Step, SourceUnits, TargetUnits, Run;
    if |s| == 0 {
      NothingToDo(kind, strict, room, ConversionOK);
    } else {
      var u, rest := SourceUnits(kind, s[0]), Source(kind, s[1..]);
      if kind == From8To16 || kind == From8To32 { SourceIsEncoding(kind, s[1..]); EncodedBytes(s[1..]); }
      TranscodesOne(kind, strict, s[0], rest, room);
      RunRound(kind, strict, u + rest, room, ConversionOK);
      assert (u + rest)[|u|..] == rest;
      Transcodes(kind, strict, s[1..], room - |TargetUnits(kind, s[0])|);
    }
  }

  lemma {:induction false} SourceIsEncoding(kind: Kind, s: seq<int>)
    ensures kind == From8To16 || kind == From8To32 ==> Source(kind, s) == EncodeAll8(s)
    ensures kind == From16To8 || kind == From16To32 ==> Source(kind, s) == EncodeAll16(s)
    ensures kind == From32To8 || kind == From32To16 ==> Source(kind, s) == s
  {
    if |s| > 0 { SourceIsEncoding(kind, s[1..]); }
  }

  lemma {:induction false} TargetIsEncoding(kind: Kind, s: seq<int>)
    ensures kind == From32To8 || kind == From16To8 ==> Target(kind, s) == EncodeAll8(s)
    ensures kind == From32To16 || kind == From8To16 ==> Target(kind, s) == EncodeAll16(s)
    ensures kind == From16To32 || kind == From8To32 ==> Target(kind, s) == s
  {
    if |s| > 0 { TargetIsEncoding(kind, s[1..]); }
  }

  /** utf8to32(utf32to8(s)) == s, and the same through UTF-16. */
  lemma RoundTrips(strict: bool, s: seq<int>, room: nat)
    requires Scalars(s) && room >= |EncodeAll8(s)| && room >= |EncodeAll16(s)| && room >= |s|
    ensures Run(From32To8, strict, s, room, ConversionOK) == Report(ConversionOK, |s|, EncodeAll8(s))
    ensures Run(From8To32, strict, EncodeAll8(s), room, ConversionOK) == Report(ConversionOK, |EncodeAll8(s)|, s)
    ensures Run(From32To16, strict, s, room, ConversionOK) == Report(ConversionOK, |s|, EncodeAll16(s))
    ensures Run(From16To32, strict, EncodeAll16(s), room, ConversionOK) == Report(ConversionOK, |EncodeAll16(s)|, s)
    ensures Run(From8To16, strict, EncodeAll8(s), room, ConversionOK) == Report(ConversionOK, |EncodeAll8(s)|, EncodeAll16(s))
    ensures Run(From16To8, strict, EncodeAll16(s), room, ConversionOK) == Report(ConversionOK, |EncodeAll16(s)|, EncodeAll8(s))
  {
    hide Run;
    RoundTrip(From32To8, strict, s, room);
    RoundTrip(From8To32, strict, s, room);
    RoundTrip(From32To16, strict, s, room);
    RoundTrip(From16To32, strict, s, room);
    RoundTrip(From8To16, strict, s, room);
    RoundTrip(From16To8, strict, s, room);
  }

  lemma RoundTrip(kind: Kind, strict: bool, s: seq<int>, room: nat)
    requires Scalars(s) && room >= |EncodeAll8(s)| && room >= |EncodeAll16(s)| && room >= |s|
    ensures Run(kind, strict, Source(kind, s), room, ConversionOK) == Report(ConversionOK, |Source(kind, s)|, Target(kind, s))
    ensures kind == From8To16 || kind == From8To32 ==> Source(kind, s) == EncodeAll8(s)
    ensures kind == From16To8 || kind == From16To32 ==> Source(kind, s) == EncodeAll16(s)
    ensures kind == From32To8 || kind == From32To16 ==> Source(kind, s) == s
    ensures kind == From32To8 || kind == From16To8 ==> Target(kind, s) == EncodeAll8(s)
    ensures kind == From32To16 || kind == From8To16 ==> Target(kind, s) == EncodeAll16(s)
    ensures kind == From16To32 || kind == From8To32 ==> Target(kind, s) == s
  {
    hide Run;
    SourceIsEncoding(kind, s);
    TargetIsEncoding(kind, s);
    Transcodes(kind, strict, s, room);
  }

  /** A UTF-8 round that writes UTF-16 sees the same character as one that writes UTF-32. */
  lemma SameRound(strict: bool, s: seq<int>, room: nat, room16: nat)
    requires |s| > 0 && Bytes(s) && room >= CharLength(s[0]) && room16 >= CharLength(s[0])
    ensures var o := Step(From8To32, strict, s, room);
            if o.Emit?
            then |o.out| == 1 && IsScalar(o.out[0]) && !o.bad && o.units == CharLength(s[0]) && |Encode16(o.out[0])| <= o.units
                 && Step(From8To16, strict, s, room16) == Emit(o.units, Encode16(o.out[0]), false)
            else Step(From8To16, strict, s, room16) == o
  {
    hide See8, LooseChar;
    SeesCharacters(s);
    var n := CharLength(s[0]);
    if n <= |s| && LooseChar(s[..n]) { SmallWhenShort(s[..n]); }
  }

  lemma SmallWhenShort(s: seq<int>)
    requires LooseChar(s)
    ensures |s| < 4 ==> ScalarOf(s) < 0x10000
    ensures 1 <= |s| <= 4
  {
  }

  /** On every byte string the direct path and the path over UTF-32 stop at the same place with the same text. */
  lemma {:induction false} PathsAgree(strict: bool, s: seq<int>, room: nat)
    requires Bytes(s) && room >= |s|
    ensures var direct, first := Run(From8To16, strict, s, room, ConversionOK), Run(From8To32, strict, s, room, ConversionOK);
            && direct == Report(first.status, first.consumed, EncodeAll16(first.out))
            && Scalars(first.out) && |direct.out| <= direct.consumed <= |s|
            && Run(From32To16, strict, first.out, room, ConversionOK) == Report(ConversionOK, |first.out|, direct.out)
    decreases |s|
  {
    hide Run, Step;
    SamePath(strict, s, room, room);
    var first := Run(From8To32, strict, s, room, ConversionOK);
    TargetIsEncoding(From32To16, first.out);
    SourceIsEncoding(From32To16, first.out);
    Transcodes(From32To16, strict, first.out, room);
  }

  lemma {:induction false} SamePath(strict: bool, s: seq<int>, room: nat, room16: nat)
    requires Bytes(s) && room >= |s| && room16 >= |s|
    ensures var direct, first := Run(From8To16, strict, s, room16, ConversionOK), Run(From8To32, strict, s, room, ConversionOK);
            && direct == Report(first.status, first.consumed, EncodeAll16(first.out))
            && Scalars(first.out) && |direct.out| <= direct.consumed <= |s|
    decreases |s|
  {
    hide Run, Step, Encode16, CharLength;
    if |s| == 0 {
      NothingToDo(From8To16, strict, room16, ConversionOK);
      NothingToDo(From8To32, strict, room, ConversionOK);
    } else {
      RunRound(From8To16, strict, s, room16, ConversionOK);
      RunRound(From8To32, strict, s, room, ConversionOK);
      if CharLength(s[0]) > |s| {
        TooShort(strict, s, room);
        TooShort(strict, s, room16);
      } else {
        SameRound(strict, s, room, room16);
        var o := Step(From8To32, strict, s, room);
        if o.Emit? {
          var c := o.out[0];
          SamePath(strict, s[o.units..], room - 1, room16 - |Encode16(c)|);
          EncodeAllCons(c, Run(From8To32, strict, s[o.units..], room - 1, ConversionOK).out);
        }
      }
    }
  }

  lemma TooShort(strict: bool, s: seq<int>, room: nat)
    requires |s| > 0 && CharLength(s[0]) > |s|
    ensures Step(From8To16, strict, s, room) == Stop(SourceExhausted) == Step(From8To32, strict, s, room)
  {
  }
}
