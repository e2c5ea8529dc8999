/** The buffer sizing around the converters. */
module UnicodeHelper {
  import opened Utf
  import opened Conversion
  import opened ConversionLaws
  import opened Transcoding
  import opened ConvertUtf

  /** ConvertUTF8ToUTF32String: one UTF-32 unit for every source byte, or whatever more the string reserved. */
  method ConvertUTF8ToUTF32String(src: seq<int>, spare: nat) returns (ok: bool, out: seq<int>)
    ensures ok && Bytes(src) ==> Scalars(out)
    ensures Bytes(src) ==> (WellFormed(src) <==> ok && Guarded(src))
    ensures Bytes(src) && WellFormed(src) ==> EncodeAll8(out) == src
    ensures forall s | Scalars(s) && src == EncodeAll8(s) :: ok && out == s
  {
    hide Run, WellFormed, Guarded;
    if |src| == 0 {
      EmptyIsWellFormed();
      EncodesEmpty();
      return true, [];
    }
    var buffer := new int[|src| + spare];
    var result, source, target := ConvertUTF8toUTF32(src, 0, buffer, 0, buffer.Length, true);
    assert src[0..] == src;
    if Bytes(src) { StrictDecoding(true, src, |src| + spare); }
    forall s | Scalars(s) && src == EncodeAll8(s) ensures result == ConversionOK && buffer[0..target] == s {
      EncodedLength(s);
      TargetIsEncoding(From8To32, s);
      SourceIsEncoding(From8To32, s);
      Transcodes(From8To32, true, s, |src| + spare);
    }
    out := if result != ConversionOK then buffer[..|src|] else buffer[..target];
    ok := result == ConversionOK;
  }

  lemma EncodesEmpty()
    ensures forall s | Scalars(s) && EncodeAll8(s) == [] :: s == []
  {
    forall s | Scalars(s) && EncodeAll8(s) == [] ensures s == [] { EncodedLength(s); }
  }

  /** A surrogate stops the strict converter, and a value out of range marks its result. */
  lemma {:induction false} OnlyScalars(s: seq<int>, room: nat, pending: Status)
    requires forall i :: 0 <= i < |s| ==> s[i] >= 0
    ensures Run(From32To8, true, s, room, pending).status == ConversionOK ==> pending == ConversionOK && Scalars(s)
    decreases |s|
  {
    hide Run, Encode8;
    if |s| == 0 {
      NothingToDo(From32To8, true, room, pending);
    } else {
      RunRound(From32To8, true, s, room, pending);
      var o := Step(From32To8, true, s, room);
      if o.Emit? {
        OnlyScalars(s[1..], room - |o.out|, if o.bad then SourceIllegal else pending);
        assert s == [s[0]] + s[1..];
      }
    }
  }

  /** ConvertUTF32ToUTF8String: four bytes for every source unit and one more. It succeeds exactly on scalar values. */
  method ConvertUTF32ToUTF8String(src: seq<int>, spare: nat) returns (ok: bool, out: seq<int>)
    ensures (forall i :: 0 <= i < |src| ==> src[i] >= 0) ==> (ok <==> Scalars(src))
    ensures Scalars(src) ==> ok && out == EncodeAll8(src)
    ensures !ok ==> out == []
  {
    hide Run;
    if |src| == 0 { return true, []; }
    var buffer := new int[4 * |src| + 1 + spare];
    var result, source, target := ConvertUTF32toUTF8(src, 0, buffer, 0, buffer.Length, true);
    assert src[0..] == src;
    if Scalars(src) {
      EncodedLength(src);
      TargetIsEncoding(From32To8, src);
      SourceIsEncoding(From32To8, src);
      Transcodes(From32To8, true, src, buffer.Length);
    }
    if forall i :: 0 <= i < |src| ==> src[i] >= 0 {
      OnlyScalars(src, buffer.Length, ConversionOK);
    }
    if result != ConversionOK { return false, []; }
    return true, buffer[..target];
  }

  /** utf8to32(utf32to8(s)) gives s back for every sequence of scalar values. */
  method ThereAndBack(s: seq<int>, spare: nat) returns (back: seq<int>)
    requires Scalars(s)
    ensures back == s
  {
    var _, bytes := ConvertUTF32ToUTF8String(s, spare);
    var _, there := ConvertUTF8ToUTF32String(bytes, spare);
    back := there;
  }
}
