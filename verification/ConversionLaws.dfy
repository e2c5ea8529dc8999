/** What the converters guarantee, for every input. */
module ConversionLaws {
  import opened Utf
  import opened Conversion

  /**
   What isLegalUTF8 accepts: the RFC grammar, and after ED or F4 also a second byte below 80,
   because those two cases only check the upper end of its range.
   */
  predicate LooseChar(s: seq<int>)
  {
    || IsUtf8Char(s)
    || (|s| == 3 && s[0] == 0xED && 0 <= s[1] < 0x80 && Tail(s[2]))
    || (|s| == 4 && s[0] == 0xF4 && 0 <= s[1] < 0x80 && Tail(s[2]) && Tail(s[3]))
  }

  /** What a caller can check beforehand: no ED or F4 with an ASCII byte behind it. */
  predicate Guarded(s: seq<int>)
  {
    forall i :: 0 <= i < |s| - 1 && (s[i] == 0xED || s[i] == 0xF4) ==> s[i + 1] >= 0x80
  }

  lemma LegalIsLoose(s: seq<int>, n: nat)
    requires 1 <= n <= |s| && Bytes(s) && n == CharLength(s[0])
    ensures IsLegalUTF8(s, n) <==> LooseChar(s[..n])
  {
    var t := s[..n];
    assert t[0] == s[0];
    if n >= 2 { assert t[1] == s[1]; }
    if n >= 3 { assert t[2] == s[2]; }
    if n >= 4 { assert t[3] == s[3]; }
  }

  /** The tables decode the bit distribution of the RFC, and never to a surrogate. */
  lemma TablesDecode(s: seq<int>)
    requires LooseChar(s)
    ensures TableDecode(s) == ScalarOf(s) && IsScalar(ScalarOf(s))
  {
    if |s| == 1 {
      Unroll1(s);
    } else if |s| == 2 {
      Unroll2(s);
    } else if |s| == 3 {
      Unroll3(s);
    } else {
      Unroll4(s);
    }
  }

  lemma SeesCharacters(s: seq<int>)
    requires |s| > 0 && Bytes(s)
    ensures var n := CharLength(s[0]);
            if n <= |s| && LooseChar(s[..n])
            then See8(s) == Char(ScalarOf(s[..n]), n) && IsScalar(ScalarOf(s[..n]))
            else See8(s) == Fail(SourceExhausted) || See8(s) == Fail(SourceIllegal)
  {
    hide IsLegalUTF8, LooseChar, TableDecode, ScalarOf;
    var n := CharLength(s[0]);
    assert n == TrailingBytes(s[0]) + 1;
    if n <= |s| {
      LegalIsLoose(s, n);
      if IsLegalUTF8(s, n) { TablesDecode(s[..n]); }
    }
  }

  lemma Unroll1(s: seq<int>)
    requires |s| == 1
    ensures Accumulate(s) == s[0]
  {
    assert Accumulate(s[..0]) == 0;
  }

  lemma Unroll2(s: seq<int>)
    requires |s| == 2
    ensures Accumulate(s) == s[0] * 0x40 + s[1]
  {
    Unroll1(s[..1]);
  }

  lemma Unroll3(s: seq<int>)
    requires |s| == 3
    ensures Accumulate(s) == s[0] * 0x1000 + s[1] * 0x40 + s[2]
  {
    Unroll2(s[..2]);
  }

  lemma Unroll4(s: seq<int>)
    requires |s| == 4
    ensures Accumulate(s) == s[0] * 0x40000 + s[1] * 0x1000 + s[2] * 0x40 + s[3]
  {
    Unroll3(s[..3]);
  }

  /** A UTF-8 decoding round with room for a unit either takes one whole character or stops. */
  lemma DecodingRound(strict: bool, s: seq<int>, room: nat)
    requires |s| > 0 && Bytes(s) && room >= 1
    ensures var n := CharLength(s[0]); var o := Step(From8To32, strict, s, room);
            if n <= |s| && LooseChar(s[..n])
            then o == Emit(n, [ScalarOf(s[..n])], false) && IsScalar(ScalarOf(s[..n]))
            else o == Stop(SourceExhausted) || o == Stop(SourceIllegal)
  {
    hide See8, ScalarOf, LooseChar;
    SeesCharacters(s);
  }

  /** The guard splits at a character boundary, and is what tells RFC characters from loose ones. */
  lemma GuardStep(s: seq<int>, n: nat)
    requires 1 <= n <= |s| && LooseChar(s[..n])
    ensures Guarded(s) <==> IsUtf8Char(s[..n]) && Guarded(s[n..])
  {
    var t, rest := s[..n], s[n..];
    assert t[0] == s[0];
    if n >= 2 { assert t[1] == s[1]; }
    if n >= 3 { assert t[2] == s[2]; }
    if n >= 4 { assert t[3] == s[3]; }
    forall i | 0 <= i < |rest| ensures rest[i] == s[n + i] {}
    if IsUtf8Char(t) && Guarded(rest) {
      forall i | 0 <= i < |s| - 1 && (s[i] == 0xED || s[i] == 0xF4) ensures s[i + 1] >= 0x80 {
        if i >= n { assert rest[i - n] == s[i] && rest[i - n + 1] == s[i + 1]; } else { assert i == 0; }
      }
    }
  }

  /**
   Decoding UTF-8 with ample room succeeds, on guarded strings, exactly when they are well
   formed; an unguarded string is never well formed. The output are always scalar values, and
   on guarded strings their encoding is the consumed prefix.
   */
  lemma {:induction false} StrictDecoding(strict: bool, s: seq<int>, room: nat)
    requires Bytes(s) && room >= |s|
    ensures var r := Run(From8To32, strict, s, room, ConversionOK);
            && (WellFormed(s) <==> r.status == ConversionOK && Guarded(s))
            && (r.status == ConversionOK <==> r.consumed == |s|)
            && r.status != TargetExhausted && r.consumed <= |s| && Scalars(r.out)
            && (Guarded(s) ==> EncodeAll8(r.out) == s[..r.consumed])
    decreases |s|
  {
    hide Step, ScalarOf, IsUtf8Char, LooseChar, Encode8, CharLength, WellFormed, Guarded, Run, EncodeAll8;
    EmptyIsWellFormed();
    if |s| == 0 {
      NothingToDo(From8To32, strict, room, ConversionOK);
    } else {
      DecodingRound(strict, s, room);
      WellFormedStep(s);
      RunRound(From8To32, strict, s, room, ConversionOK);
      var n := CharLength(s[0]);
      if n <= |s| && LooseChar(s[..n]) {
        CharsAreLoose(s[..n]);
        StrictDecoding(strict, s[n..], room - 1);
        Prepend(s, n, Run(From8To32, strict, s[n..], room - 1, ConversionOK));
      } else if n <= |s| {
        CharsAreLoose(s[..n]);
      }
    }
  }

  lemma CharsAreLoose(s: seq<int>)
    ensures IsUtf8Char(s) ==> LooseChar(s)
    ensures LooseChar(s) ==> 1 <= |s| <= 4
  {
  }

  /** One more character in front of a decoded rest. */
  lemma Prepend(s: seq<int>, n: nat, rest: Report)
    requires 1 <= n <= |s| && Bytes(s) && LooseChar(s[..n]) && IsScalar(ScalarOf(s[..n]))
    requires rest.consumed <= |s| - n && Scalars(rest.out)
    requires Guarded(s[n..]) ==> EncodeAll8(rest.out) == s[n..][..rest.consumed]
    ensures var r := Then(n, [ScalarOf(s[..n])], rest);
            && Scalars(r.out)
            && (Guarded(s) ==> EncodeAll8(r.out) == s[..r.consumed])
            && (Guarded(s) <==> IsUtf8Char(s[..n]) && Guarded(s[n..]))
  {
    hide ScalarOf, IsUtf8Char, LooseChar, Encode8, Guarded, EncodeAll8;
    GuardStep(s, n);
    CharsAreLoose(s[..n]);
    EncodeAllCons(ScalarOf(s[..n]), rest.out);
    if IsUtf8Char(s[..n]) { DecodedIsScalar(s[..n]); }
    assert s[..n] + s[n..][..rest.consumed] == s[..n + rest.consumed];
  }

  lemma NothingToDo(kind: Kind, strict: bool, room: nat, pending: Status)
    ensures Run(kind, strict, [], room, pending) == Report(pending, 0, [])
  {
  }

  lemma EmptyIsWellFormed()
    ensures WellFormed([]) && Guarded([]) && EncodeAll8([]) == []
  {
  }

  lemma EncodeAllCons(c: int, s: seq<int>)
    ensures EncodeAll8([c] + s) == Encode8(c) + EncodeAll8(s)
    ensures EncodeAll16([c] + s) == Encode16(c) + EncodeAll16(s)
  {
    assert ([c] + s)[1..] == s;
  }

  /** Three bytes that no grammar of UTF-8 allows, taken for U+C040. */
  lemma AcceptedThoughMalformed()
    ensures Run(From8To32, true, [0xED, 0x41, 0x80], 3, ConversionOK) == Report(ConversionOK, 3, [0xC040])
    ensures !WellFormed([0xED, 0x41, 0x80])
  {
    var s := [0xED, 0x41, 0x80];
    SeesCharacters(s);
    WellFormedStep(s);
    assert s[..3] == s && s[3..] == [];
    assert Step(From8To32, true, s, 3) == Emit(3, [0xC040], false);
  }
}
