/**
 A bigint read as an infinite row of digits: bigits s shifted up by e places.
 High drops the digits below a position; compare and add_compare walk it downward.
 */
module Positions {
  import opened Bigits
  import opened Powers

  /** The integer a bigint with bigits s and exponent e stands for. */
  function Value(s: seq<Bigit>, e: nat): int
  {
    Shl(Val(s), e)
  }

  lemma ValueUnshifted(s: seq<Bigit>)
    ensures Value(s, 0) == Val(s)
  {
  }

  function Digit(s: seq<Bigit>, e: nat, p: nat): Bigit
  {
    if e <= p < |s| + e then s[p - e] else 0
  }

  /** The number formed by the digits at position p and above. */
  function High(s: seq<Bigit>, e: nat, p: nat): int
  {
    if p >= |s| + e then 0
    else if p >= e then Val(s[p - e..])
    else Value(s, e - p)
  }

  lemma HighStep(s: seq<Bigit>, e: nat, p: nat)
    ensures High(s, e, p) == B * High(s, e, p + 1) + Digit(s, e, p)
  {
    if |s| == 0 {
      if p < e { ShlSign(0, e - p); }
      if p + 1 < e { ShlSign(0, e - p - 1); }
    } else if p + 1 < e {
      assert Shl(Val(s), e - p) == B * Shl(Val(s), e - p - 1);
    } else if p + 1 == e {
      assert s[p + 1 - e..] == s;
      assert e - p == 1 && Shl(Val(s), 1) == B * Shl(Val(s), 0);
    } else if p < |s| + e {
      assert s[p - e..][1..] == s[p - e + 1..];
    }
  }

  lemma HighAbove(s: seq<Bigit>, e: nat, p: nat)
    requires p >= |s| + e
    ensures High(s, e, p) == 0
  {
  }

  /** Position zero sees the whole number. */
  lemma HighAll(s: seq<Bigit>, e: nat)
    ensures High(s, e, 0) == Value(s, e)
  {
    assert s[0..] == s;
    if |s| == 0 { ShlSign(Val(s), e); }
  }

  lemma {:induction false} HighBounds(s: seq<Bigit>, e: nat, p: nat)
    ensures Shl(High(s, e, p), p) <= Value(s, e) < Shl(High(s, e, p) + 1, p)
  {
    if p == 0 {
      HighAll(s, e);
    } else {
      HighBounds(s, e, p - 1);
      HighStep(s, e, p - 1);
      var h, g := High(s, e, p), High(s, e, p - 1);
      ShlMono(B * h, g, p - 1);
      ShlMono(g + 1, B * (h + 1), p - 1);
      ShlB(h, p - 1);
      ShlB(h + 1, p - 1);
    }
  }

  /** Nothing is lost below the exponent. */
  lemma {:induction false} HighExact(s: seq<Bigit>, e: nat, p: nat)
    requires p <= e
    ensures Value(s, e) == Shl(High(s, e, p), p)
  {
    if p == 0 {
      HighAll(s, e);
    } else {
      HighExact(s, e, p - 1);
      HighStep(s, e, p - 1);
      ShlB(High(s, e, p), p - 1);
    }
  }

  lemma ValueTop(s: seq<Bigit>, e: nat)
    requires |s| > 0 && s[|s| - 1] != 0
    ensures Value(s, e) >= Shl(1, |s| + e - 1) > 0
  {
    ValTop(s);
    ShlMono(Shl(1, |s| - 1), Val(s), e);
    ShlShl(1, |s| - 1, e);
    ShlSign(1, |s| + e - 1);
  }

  lemma ValueBound(s: seq<Bigit>, e: nat)
    ensures 0 <= Value(s, e) < Shl(1, |s| + e)
  {
    ValBound(s);
    ShlMono(Val(s), Shl(1, |s|), e);
    ShlShl(1, |s|, e);
    ShlSign(Val(s), e);
  }

  /** Low zero bigits trade against the exponent. */
  lemma ShiftedByZeros(s: seq<Bigit>, n: nat, e: nat)
    ensures Value(Zeros(n) + s, e) == Value(s, n + e)
  {
    hide Val, Shl;
    ValAppend(Zeros(n), s);
    ValZeros(n);
    ShlShl(Val(s), n, e);
  }

  lemma {:induction false} ShlIsPow(x: int, k: nat)
    ensures Shl(x, k) == Pow(2, 32 * k) * x
  {
    if k > 0 {
      ShlIsPow(x, k - 1);
      PowAdd(2, 32, 32 * (k - 1));
      TwoTo32();
      MulAssoc(B, Pow(2, 32 * (k - 1)), x);
    }
  }

  /** A left shift splits into whole bigits and a rest below 32. */
  lemma ShiftSplit(s: seq<Bigit>, e: nat, shift: nat)
    ensures Pow(2, shift) * Value(s, e) == Shl(Pow(2, shift % 32) * Val(s), e + shift / 32)
  {
    hide Val, Shl;
    var k, r := shift / 32, shift % 32;
    var v := Val(s);
    ShlShl(v, k, e);
    ShlShl(v, e, k);
    ShlIsPow(Shl(v, e), k);
    PowAdd(2, r, 32 * k);
    MulAssoc(Pow(2, r), Pow(2, 32 * k), Shl(v, e));
    ShlScale(Pow(2, r), v, e + k);
  }

  lemma {:induction false} FiveBelowB(x: nat)
    requires x > 0
    ensures Pow(5, x) < Shl(1, x)
  {
    if x > 1 { FiveBelowB(x - 1); }
  }
}
