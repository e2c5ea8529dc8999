/** Unicode scalar values and their encodings: RFC 3629 sections 3 and 4, RFC 2781 section 2. */
module Utf {

  predicate IsScalar(c: int)
  {
    0 <= c <= 0xD7FF || 0xE000 <= c <= 0x10FFFF
  }

  predicate IsByte(b: int) { 0 <= b < 0x100 }

  predicate Bytes(s: seq<int>)
  {
    forall i :: 0 <= i < |s| ==> IsByte(s[i])
  }

  predicate Scalars(s: seq<int>)
  {
    forall i :: 0 <= i < |s| ==> IsScalar(s[i])
  }

  predicate Tail(b: int) { 0x80 <= b <= 0xBF }

  /** The grammar UTF8-char of RFC 3629 section 4. */
  predicate IsUtf8Char(s: seq<int>)
  {
    if |s| == 1 then 0x00 <= s[0] <= 0x7F
    else if |s| == 2 then 0xC2 <= s[0] <= 0xDF && Tail(s[1])
    else if |s| == 3 then
      && Tail(s[2])
      && ((s[0] == 0xE0 && 0xA0 <= s[1] <= 0xBF) || (0xE1 <= s[0] <= 0xEC && Tail(s[1]))
          || (s[0] == 0xED && 0x80 <= s[1] <= 0x9F) || (0xEE <= s[0] <= 0xEF && Tail(s[1])))
    else if |s| == 4 then
      && Tail(s[2]) && Tail(s[3])
      && ((s[0] == 0xF0 && 0x90 <= s[1] <= 0xBF) || (0xF1 <= s[0] <= 0xF3 && Tail(s[1]))
          || (s[0] == 0xF4 && 0x80 <= s[1] <= 0x8F))
    else false
  }

  /** A byte string is well formed if it is a row of UTF8-chars. */
  ghost predicate WellFormed(s: seq<int>)
    decreases |s|
  {
    s == [] || exists n :: 1 <= n <= |s| && IsUtf8Char(s[..n]) && WellFormed(s[n..])
  }

  /** The bit distribution of RFC 3629 section 3, with the marker bits taken off. */
  function ScalarOf(s: seq<int>): int
    requires 1 <= |s| <= 4
  {
    if |s| == 1 then s[0]
    else if |s| == 2 then (s[0] - 0xC0) * 0x40 + (s[1] - 0x80)
    else if |s| == 3 then (s[0] - 0xE0) * 0x1000 + (s[1] - 0x80) * 0x40 + (s[2] - 0x80)
    else (s[0] - 0xF0) * 0x40000 + (s[1] - 0x80) * 0x1000 + (s[2] - 0x80) * 0x40 + (s[3] - 0x80)
  }

  function Encode8(c: int): (s: seq<int>)
    ensures 1 <= |s| <= 4
  {
    if c < 0x80 then [c]
    else if c < 0x800 then [0xC0 + c / 0x40, 0x80 + c % 0x40]
    else if c < 0x10000 then [0xE0 + c / 0x40 / 0x40, 0x80 + c / 0x40 % 0x40, 0x80 + c % 0x40]
    else [0xF0 + c / 0x40 / 0x40 / 0x40, 0x80 + c / 0x40 / 0x40 % 0x40, 0x80 + c / 0x40 % 0x40, 0x80 + c % 0x40]
  }

  function Encode16(c: int): (s: seq<int>)
    ensures 1 <= |s| <= 2
  {
    if c < 0x10000 then [c]
    else [0xD800 + (c - 0x10000) / 0x400, 0xDC00 + (c - 0x10000) % 0x400]
  }

  function EncodeAll8(s: seq<int>): seq<int>
  {
    if |s| == 0 then [] else Encode8(s[0]) + EncodeAll8(s[1..])
  }

  function EncodeAll16(s: seq<int>): seq<int>
  {
    if |s| == 0 then [] else Encode16(s[0]) + EncodeAll16(s[1..])
  }

  lemma EncodedIsChar(c: int)
    requires IsScalar(c)
    ensures IsUtf8Char(Encode8(c)) && ScalarOf(Encode8(c)) == c
  {
  }

  lemma DecodedIsScalar(s: seq<int>)
    requires IsUtf8Char(s)
    ensures IsScalar(ScalarOf(s)) && Encode8(ScalarOf(s)) == s
  {
    var c := ScalarOf(s);
    if |s| == 2 {
      assert c / 0x40 == s[0] - 0xC0;
    } else if |s| == 3 {
      assert c / 0x40 == (s[0] - 0xE0) * 0x40 + (s[1] - 0x80);
      assert c / 0x40 / 0x40 == s[0] - 0xE0;
    } else if |s| == 4 {
      assert c / 0x40 == (s[0] - 0xF0) * 0x1000 + (s[1] - 0x80) * 0x40 + (s[2] - 0x80);
      assert c / 0x40 / 0x40 == (s[0] - 0xF0) * 0x40 + (s[1] - 0x80);
      assert c / 0x40 / 0x40 / 0x40 == s[0] - 0xF0;
    }
  }

  /** The first byte fixes the length of a character. */
  function CharLength(b: int): (n: nat)
    ensures 1 <= n <= 6
  {
    if b < 0xC0 then 1 else if b < 0xE0 then 2 else if b < 0xF0 then 3 else if b < 0xF8 then 4 else if b < 0xFC then 5 else 6
  }

  lemma LengthFromFirstByte(s: seq<int>)
    requires IsUtf8Char(s)
    ensures |s| == CharLength(s[0])
  {
  }

  /** The row can only be split in one way: a well-formed string starts with the character its first byte announces. */
  lemma WellFormedStep(s: seq<int>)
    requires |s| > 0
    ensures WellFormed(s) <==> CharLength(s[0]) <= |s| && IsUtf8Char(s[..CharLength(s[0])]) && WellFormed(s[CharLength(s[0])..])
  {
    if WellFormed(s) {
      var n :| 1 <= n <= |s| && IsUtf8Char(s[..n]) && WellFormed(s[n..]);
      LengthFromFirstByte(s[..n]);
    }
  }
}
