/**
 The six UTF converters as one machine: Step says what the code does with the first
 character of the source and a given room in the target, Run repeats it.
 */
module Conversion {
  import opened Utf

  datatype Kind = From32To16 | From16To32 | From16To8 | From8To16 | From32To8 | From8To32

  datatype Status = ConversionOK | SourceExhausted | TargetExhausted | SourceIllegal

  /** Stop with a result, or consume units, write out, and (bad) mark the result illegal on the way. */
  datatype Outcome = Stop(status: Status) | Emit(units: nat, out: seq<int>, bad: bool)

  datatype Report = Report(status: Status, consumed: nat, out: seq<int>)

  const REPLACEMENT := 0xFFFD

  predicate Surrogate(c: int) { 0xD800 <= c <= 0xDFFF }

  /** trailingBytesForUTF8 */
  function TrailingBytes(b: int): nat
  {
    if b < 192 then 0 else if b < 224 then 1 else if b < 240 then 2 else if b < 248 then 3 else if b < 252 then 4 else 5
  }

  /** offsetsFromUTF8 */
  function Offset(extra: nat): int
  {
    if extra == 0 then 0x00000000 else if extra == 1 then 0x00003080 else if extra == 2 then 0x000E2080
    else if extra == 3 then 0x03C82080 else if extra == 4 then 0xFA082080 else 0x82082080
  }

  /** isLegalUTF8: the cases fall through from the last byte down to the first. */
  predicate IsLegalUTF8(s: seq<int>, length: nat)
    requires 1 <= length <= |s|
  {
    if length > 4 then false
    else if length == 4 && (s[3] < 0x80 || s[3] > 0xBF) then false
    else if length >= 3 && (s[2] < 0x80 || s[2] > 0xBF) then false
    else if length >= 2 && s[1] > 0xBF then false
    else if length >= 2 && (if s[0] == 0xE0 then s[1] < 0xA0
                            else if s[0] == 0xED then s[1] > 0x9F
                            else if s[0] == 0xF0 then s[1] < 0x90
                            else if s[0] == 0xF4 then s[1] > 0x8F
                            else s[1] < 0x80) then false
    else if 0x80 <= s[0] < 0xC2 then false
    else s[0] <= 0xF4
  }

  /** The bytes added up and shifted by six each, before the offset is taken off. */
  function Accumulate(s: seq<int>): int
  {
    if |s| == 0 then 0 else Accumulate(s[..|s| - 1]) * 0x40 + s[|s| - 1]
  }

  /** The 32-bit result of the add-and-shift switch and the subtraction of the offset. */
  function TableDecode(s: seq<int>): int
    requires |s| > 0
  {
    (Accumulate(s) - Offset(|s| - 1)) % 0x1_0000_0000
  }

  /** What the decoding half of the UTF-8 converters sees. */
  datatype Seen = Char(c: int, units: nat) | Fail(status: Status)

  function See8(s: seq<int>): Seen
    requires |s| > 0
  {
    var extra := TrailingBytes(s[0]);
    if extra >= |s| then Fail(SourceExhausted)
    else if !IsLegalUTF8(s, extra + 1) then Fail(SourceIllegal)
    else Char(TableDecode(s[..extra + 1]), extra + 1)
  }

  function See16(s: seq<int>, strict: bool): Seen
    requires |s| > 0
  {
    var ch := s[0];
    if 0xD800 <= ch <= 0xDBFF then
      if |s| == 1 then Fail(SourceExhausted)
      else if 0xDC00 <= s[1] <= 0xDFFF then Char((ch - 0xD800) * 0x400 + (s[1] - 0xDC00) + 0x10000, 2)
      else if strict then Fail(SourceIllegal)
      else Char(ch, 1)
    else if strict && 0xDC00 <= ch <= 0xDFFF then Fail(SourceIllegal)
    else Char(ch, 1)
  }

  /** The UTF-16 half of two converters; room for one unit has been checked already. */
  function Write16(c: int, units: nat, room: nat, surrogateStops: bool, bigStops: bool): Outcome
  {
    if c <= 0xFFFF then
      if Surrogate(c) then if surrogateStops then Stop(SourceIllegal) else Emit(units, [REPLACEMENT], false)
      else Emit(units, [c], false)
    else if c > 0x10FFFF then if bigStops then Stop(SourceIllegal) else Emit(units, [REPLACEMENT], false)
    else if room < 2 then Stop(TargetExhausted)
    else Emit(units, Encode16(c), false)
  }

  /** The UTF-8 half; only the converter from UTF-32 marks the result for a value out of range. */
  function Write8(c: int, units: nat, room: nat, marks: bool): Outcome
  {
    var bad := c > 0x10FFFF;
    var out := Encode8(if bad then REPLACEMENT else c);
    if |out| > room then Stop(TargetExhausted) else Emit(units, out, bad && marks)
  }

  /** One round of the loop of a converter. */
  function Step(kind: Kind, strict: bool, s: seq<int>, room: nat): Outcome
    requires |s| > 0
  {
    match kind
    case From32To16 =>
      if room < 1 then Stop(TargetExhausted)
      else if s[0] > 0x10FFFF && strict then Emit(1, [], true)
      else Write16(s[0], 1, room, strict, false)
    case From16To32 =>
      (match See16(s, strict)
       case Fail(status) => Stop(status)
       case Char(c, units) => if room < 1 then Stop(TargetExhausted) else Emit(units, [c], false))
    case From16To8 =>
      (match See16(s, strict)
       case Fail(status) => Stop(status)
       case Char(c, units) => Write8(c, units, room, false))
    case From8To16 =>
      (match See8(s)
       case Fail(status) => Stop(status)
       case Char(c, units) => if room < 1 then Stop(TargetExhausted) else Write16(c, units, room, strict, strict))
    case From32To8 =>
      if strict && Surrogate(s[0]) then Stop(SourceIllegal) else Write8(s[0], 1, room, true)
    case From8To32 =>
      (match See8(s)
       case Fail(status) => Stop(status)
       case Char(c, units) =>
         if room < 1 then Stop(TargetExhausted)
         else if c <= 0x10FFFF then
           if Surrogate(c) then if strict then Stop(SourceIllegal) else Emit(units, [REPLACEMENT], false)
           else Emit(units, [c], false)
         else Emit(units, [REPLACEMENT], true))
  }

  lemma StepShape(kind: Kind, strict: bool, s: seq<int>, room: nat)
    requires |s| > 0
    ensures var o := Step(kind, strict, s, room); o.Emit? ==> 1 <= o.units <= |s| && |o.out| <= room
  {
  }

  /** The whole loop; pending is what result holds when no break has happened yet. */
  function Run(kind: Kind, strict: bool, s: seq<int>, room: nat, pending: Status): Report
    decreases |s|
  {
    if |s| == 0 then Report(pending, 0, [])
    else
      StepShape(kind, strict, s, room);
      match Step(kind, strict, s, room)
      case Stop(status) => Report(status, 0, [])
      case Emit(units, out, bad) =>
        var rest := Run(kind, strict, s[units..], room - |out|, if bad then SourceIllegal else pending);
        Report(rest.status, units + rest.consumed, out + rest.out)
  }

  /** Putting one round in front of what the rest of the loop reports. */
  function Then(units: nat, out: seq<int>, rest: Report): Report
  {
    Report(rest.status, units + rest.consumed, out + rest.out)
  }

  lemma RunRound(kind: Kind, strict: bool, s: seq<int>, room: nat, pending: Status)
    requires |s| > 0
    ensures var o := Step(kind, strict, s, room);
            if o.Stop? then Run(kind, strict, s, room, pending) == Report(o.status, 0, [])
            else
              && 1 <= o.units <= |s| && |o.out| <= room
              && Run(kind, strict, s, room, pending) ==
                 Then(o.units, o.out, Run(kind, strict, s[o.units..], room - |o.out|, if o.bad then SourceIllegal else pending))
  {
    hide Step;
    StepShape(kind, strict, s, room);
  }

  lemma ThenStop(m: nat, a: seq<int>, status: Status)
    ensures Then(m, a, Report(status, 0, [])) == Report(status, m, a)
  {
    assert a + [] == a;
  }

  lemma ThenThen(m: nat, a: seq<int>, n: nat, b: seq<int>, rest: Report)
    ensures Then(m, a, Then(n, b, rest)) == Then(m + n, a + b, rest)
  {
    assert a + (b + rest.out) == (a + b) + rest.out;
  }

  lemma ThenNothing(rest: Report)
    ensures Then(0, [], rest) == rest
  {
    assert [] + rest.out == rest.out;
  }
}
