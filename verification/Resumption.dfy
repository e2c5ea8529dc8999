/** Running a converter again on what a full target left over. */
module Resumption {
  import opened Utf
  import opened Conversion
  import opened ConversionLaws

  /** More room never changes a round that did not run out of it. */
  lemma RoomMonotone(kind: Kind, strict: bool, s: seq<int>, room: nat, more: nat)
    requires |s| > 0 && room <= more
    ensures var o := Step(kind, strict, s, room); o != Stop(TargetExhausted) ==> Step(kind, strict, s, more) == o
  {
    hide See8, See16, Encode8, Encode16;
  }

  /** The units one character can take in the target. */
  function Widest(kind: Kind): nat
  {
    match kind
    case From32To16 => 2
    case From8To16 => 2
    case From16To8 => 4
    case From32To8 => 4
    case From16To32 => 1
    case From8To32 => 1
  }

  lemma WideEnough(kind: Kind, strict: bool, s: seq<int>, room: nat)
    requires |s| > 0 && room >= Widest(kind)
    ensures Step(kind, strict, s, room) != Stop(TargetExhausted)
  {
    hide See8, See16;
    if kind == From8To16 || kind == From8To32 { See8NeverFull(s); }
    if kind == From16To8 || kind == From16To32 { See16NeverFull(s, strict); }
  }

  lemma See8NeverFull(s: seq<int>)
    requires |s| > 0
    ensures See8(s) != Fail(TargetExhausted)
  {
  }

  lemma See16NeverFull(s: seq<int>, strict: bool)
    requires |s| > 0
    ensures See16(s, strict) != Fail(TargetExhausted)
  {
  }

  lemma OutputBound(kind: Kind, strict: bool, s: seq<int>, room: nat)
    requires |s| > 0
    ensures var o := Step(kind, strict, s, room); o.Emit? ==> |o.out| <= Widest(kind)
  {
    hide See8, See16;
  }

  /** The value of result when the loop leaves: illegal values on the way mark it without stopping. */
  function Pending(kind: Kind, strict: bool, s: seq<int>, room: nat, pending: Status): Status
    decreases |s|
  {
    if |s| == 0 then pending
    else
      StepShape(kind, strict, s, room);
      match Step(kind, strict, s, room)
      case Stop(_) => pending
      case Emit(units, out, bad) =>
        Pending(kind, strict, s[units..], room - |out|, if bad then SourceIllegal else pending)
  }

  lemma PendingRound(kind: Kind, strict: bool, s: seq<int>, room: nat, pending: Status)
    requires |s| > 0
    ensures var o := Step(kind, strict, s, room);
            if o.Stop? then Pending(kind, strict, s, room, pending) == pending
            else 1 <= o.units <= |s| && |o.out| <= room && Pending(kind, strict, s, room, pending) ==
                 Pending(kind, strict, s[o.units..], room - |o.out|, if o.bad then SourceIllegal else pending)
  {
    hide Step;
    StepShape(kind, strict, s, room);
  }

  lemma {:induction false} RunBounds(kind: Kind, strict: bool, s: seq<int>, room: nat, pending: Status)
    ensures var r := Run(kind, strict, s, room, pending);
            r.consumed <= |s| && |r.out| <= room && |r.out| <= Widest(kind) * r.consumed
    decreases |s|
  {
    hide Step, Widest;
    if |s| > 0 {
      RunRound(kind, strict, s, room, pending);
      OutputBound(kind, strict, s, room);
      var o := Step(kind, strict, s, room);
      if o.Emit? {
        var next := if o.bad then SourceIllegal else pending;
        RunBounds(kind, strict, s[o.units..], room - |o.out|, next);
        Linear(Widest(kind), o.units, Run(kind, strict, s[o.units..], room - |o.out|, next).consumed);
      }
    }
  }

  lemma Linear(w: nat, m: nat, n: nat)
    requires m >= 1
    ensures w + w * n <= w * (m + n)
  {
    assert w * (m + n) == w * m + w * n;
    assert w * m >= w;
  }

  /** What a second call has to do after r. */
  function Continuation(kind: Kind, strict: bool, s: seq<int>, r: Report, room: int, pending: Status): Report
    requires r.consumed <= |s| && |r.out| <= room
  {
    Then(r.consumed, r.out, Run(kind, strict, s[r.consumed..], room - |r.out|, pending))
  }

  /**
   Stopping for a full target loses nothing: with more room the loop would have gone on from
   exactly there. Stopping for any other reason, it would have stopped all the same.
   */
  lemma {:induction false} Resumes(kind: Kind, strict: bool, s: seq<int>, room: nat, more: nat, pending: Status)
    requires room <= more && pending != TargetExhausted
    ensures var r, whole := Run(kind, strict, s, room, pending), Run(kind, strict, s, more, pending);
            && r.consumed <= |s| && |r.out| <= room
            && whole == if r.status == TargetExhausted
                        then Continuation(kind, strict, s, r, more, Pending(kind, strict, s, room, pending))
                        else r
    decreases |s|
  {
    hide Step, Run, Pending, Continuation;
    RunBounds(kind, strict, s, room, pending);
    if |s| == 0 {
      NothingToDo(kind, strict, room, pending);
      NothingToDo(kind, strict, more, pending);
    } else {
      RunRound(kind, strict, s, room, pending);
      RunRound(kind, strict, s, more, pending);
      PendingRound(kind, strict, s, room, pending);
      RoomMonotone(kind, strict, s, room, more);
      var o := Step(kind, strict, s, room);
      if o.Emit? {
        var next := if o.bad then SourceIllegal else pending;
        var tail := s[o.units..];
        Resumes(kind, strict, tail, room - |o.out|, more - |o.out|, next);
        var rest := Run(kind, strict, tail, room - |o.out|, next);
        if rest.status == TargetExhausted {
          ContinueBehind(kind, strict, s, o.units, o.out, rest, more, Pending(kind, strict, tail, room - |o.out|, next));
        }
      } else if o == Stop(TargetExhausted) {
        ContinueAtOnce(kind, strict, s, more, pending);
      }
    }
  }

  lemma ContinueBehind(kind: Kind, strict: bool, s: seq<int>, units: nat, out: seq<int>, rest: Report, more: int, pending: Status)
    requires units <= |s| && rest.consumed <= |s| - units && |out| + |rest.out| <= more
    ensures Then(units, out, Continuation(kind, strict, s[units..], rest, more - |out|, pending))
         == Continuation(kind, strict, s, Then(units, out, rest), more, pending)
  {
    hide Run;
    assert s[units..][rest.consumed..] == s[units + rest.consumed..];
    ThenThen(units, out, rest.consumed, rest.out,
             Run(kind, strict, s[units..][rest.consumed..], more - |out| - |rest.out|, pending));
  }

  lemma ContinueAtOnce(kind: Kind, strict: bool, s: seq<int>, more: nat, pending: Status)
    ensures Continuation(kind, strict, s, Report(TargetExhausted, 0, []), more, pending) == Run(kind, strict, s, more, pending)
  {
    hide Run;
    assert s[0..] == s;
    assert [] + Run(kind, strict, s, more, pending).out == Run(kind, strict, s, more, pending).out;
  }

  /** With room for one character, a full target means that something was converted. */
  lemma Progress(kind: Kind, strict: bool, s: seq<int>, size: nat, pending: Status)
    requires size >= Widest(kind) && pending != TargetExhausted
    ensures var r := Run(kind, strict, s, size, pending);
            r.status == TargetExhausted ==> 1 <= r.consumed <= |s| && |r.out| <= Widest(kind) * r.consumed && |r.out| <= size
  {
    hide Step, Run;
    RunBounds(kind, strict, s, size, pending);
    if |s| == 0 {
      NothingToDo(kind, strict, size, pending);
    } else {
      WideEnough(kind, strict, s, size);
      RunRound(kind, strict, s, size, pending);
    }
  }

  /** Converting with target buffers of a given size, a fresh one whenever the last is full. */
  function Chunks(kind: Kind, strict: bool, s: seq<int>, size: nat): Report
    requires size >= Widest(kind)
    decreases |s|
  {
    Progress(kind, strict, s, size, ConversionOK);
    var r := Run(kind, strict, s, size, ConversionOK);
    if r.status == TargetExhausted then Then(r.consumed, r.out, Chunks(kind, strict, s[r.consumed..], size)) else r
  }

  /** The source units are of the source's width, and no UTF-32 unit lies beyond the last code point. */
  predicate InRange(kind: Kind, s: seq<int>)
  {
    match kind
    case From8To16 => Bytes(s)
    case From8To32 => Bytes(s)
    case From16To8 => forall i :: 0 <= i < |s| ==> 0 <= s[i] < 0x10000
    case From16To32 => forall i :: 0 <= i < |s| ==> 0 <= s[i] < 0x10000
    case From32To8 => forall i :: 0 <= i < |s| ==> 0 <= s[i] <= 0x10FFFF
    case From32To16 => forall i :: 0 <= i < |s| ==> 0 <= s[i] <= 0x10FFFF
  }

  /** Such a source never marks the result without stopping. */
  lemma NeverMarked(kind: Kind, strict: bool, s: seq<int>, room: nat)
    requires |s| > 0 && InRange(kind, s)
    ensures var o := Step(kind, strict, s, room); o.Emit? ==> !o.bad
  {
    hide See8, See16, LooseChar, ScalarOf, Encode8;
    if kind == From8To32 || kind == From8To16 { SeesCharacters(s); }
    if kind == From16To8 || kind == From16To32 { See16InRange(s, strict); }
  }

  lemma See16InRange(s: seq<int>, strict: bool)
    requires |s| > 0 && forall i :: 0 <= i < |s| ==> 0 <= s[i] < 0x10000
    ensures See16(s, strict).Char? ==> See16(s, strict).c <= 0x10FFFF
  {
  }

  lemma {:induction false} PendingKept(kind: Kind, strict: bool, s: seq<int>, room: nat, pending: Status)
    requires InRange(kind, s)
    ensures Pending(kind, strict, s, room, pending) == pending
    decreases |s|
  {
    hide Step;
    if |s| > 0 {
      PendingRound(kind, strict, s, room, pending);
      NeverMarked(kind, strict, s, room);
      var o := Step(kind, strict, s, room);
      if o.Emit? { PendingKept(kind, strict, s[o.units..], room - |o.out|, pending); }
    }
  }

  /** What is written and consumed does not depend on the result so far. */
  lemma {:induction false} SameText(kind: Kind, strict: bool, s: seq<int>, room: nat, p: Status, q: Status)
    ensures var a, b := Run(kind, strict, s, room, p), Run(kind, strict, s, room, q); a.out == b.out && a.consumed == b.consumed
    decreases |s|
  {
    hide Step;
    if |s| > 0 {
      RunRound(kind, strict, s, room, p);
      RunRound(kind, strict, s, room, q);
      var o := Step(kind, strict, s, room);
      if o.Emit? {
        SameText(kind, strict, s[o.units..], room - |o.out|, if o.bad then SourceIllegal else p, if o.bad then SourceIllegal else q);
      }
    }
  }

  /**
   Converting in buffers of any size that holds one character, and joining the pieces, gives
   what one call with a large buffer gives: the same text and the same position for every
   source, and the same result whenever no UTF-32 unit is out of range.
   */
  lemma {:induction false} ChunksAgree(kind: Kind, strict: bool, s: seq<int>, size: nat, big: nat)
    requires size >= Widest(kind) && big >= size + Widest(kind) * |s|
    ensures var pieces, whole := Chunks(kind, strict, s, size), Run(kind, strict, s, big, ConversionOK);
            && pieces.out == whole.out && pieces.consumed == whole.consumed
            && (InRange(kind, s) ==> pieces == whole)
    decreases |s|
  {
    hide Step, Run, Pending, Widest;
    Progress(kind, strict, s, size, ConversionOK);
    NotNegative(Widest(kind), |s|);
    Resumes(kind, strict, s, size, big, ConversionOK);
    var r := Run(kind, strict, s, size, ConversionOK);
    if r.status == TargetExhausted {
      var tail, room, mark := s[r.consumed..], big - |r.out|, Pending(kind, strict, s, size, ConversionOK);
      Remaining(Widest(kind), |s|, r.consumed);
      ChunksAgree(kind, strict, tail, size, room);
      SameText(kind, strict, tail, room, ConversionOK, mark);
      if InRange(kind, s) { PendingKept(kind, strict, s, size, ConversionOK); }
    }
  }

  lemma NotNegative(w: nat, n: nat)
    ensures w * n >= 0
  {
  }

  lemma Remaining(w: nat, n: nat, k: nat)
    requires k <= n
    ensures w * (n - k) == w * n - w * k
  {
  }
}
