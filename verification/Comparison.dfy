/** What compare and add_compare answer, and when that is the order of the values. */
module Comparison {
  import opened Bigits
  import opened Positions
  import opened Powers

  function Sign(x: int): int {
    if x > 0 then 1 else if x < 0 then -1 else 0
  }

  function Max(a: int, b: int): int { if a > b then a else b }

  function Min(a: int, b: int): int { if a < b then a else b }

  /** The top bigit is not a superfluous zero; zero is [0] or []. */
  predicate TopNormal(s: seq<Bigit>)
  {
    |s| <= 1 || s[|s| - 1] != 0
  }

  /**
   What compare answers: the lengths decide first, then the values, and equal values
   written with different exponents are ordered by the number of stored bigits.
   */
  function CompareResult(ls: seq<Bigit>, le: nat, rs: seq<Bigit>, re: nat): int
  {
    if |ls| + le != |rs| + re then Sign(|ls| + le - |rs| - re)
    else if Value(ls, le) != Value(rs, re) then Sign(Value(ls, le) - Value(rs, re))
    else Sign(re - le)
  }

  /** The first differing digit from the top decides. */
  lemma FirstDifference(ls: seq<Bigit>, le: nat, rs: seq<Bigit>, re: nat, p: nat)
    requires High(ls, le, p) > High(rs, re, p)
    ensures Value(ls, le) > Value(rs, re)
  {
    HighBounds(ls, le, p);
    HighBounds(rs, re, p);
    ShlMono(High(rs, re, p) + 1, High(ls, le, p), p);
  }

  /** One round of compare at position p. */
  lemma CompareStep(ls: seq<Bigit>, le: nat, rs: seq<Bigit>, re: nat, p: nat)
    requires |ls| + le == |rs| + re
    requires High(ls, le, p + 1) == High(rs, re, p + 1)
    ensures Digit(ls, le, p) == Digit(rs, re, p) ==> High(ls, le, p) == High(rs, re, p)
    ensures Digit(ls, le, p) > Digit(rs, re, p) ==> CompareResult(ls, le, rs, re) == 1
    ensures Digit(ls, le, p) < Digit(rs, re, p) ==> CompareResult(ls, le, rs, re) == -1
  {
    HighStep(ls, le, p);
    HighStep(rs, re, p);
    if Digit(ls, le, p) > Digit(rs, re, p) {
      FirstDifference(ls, le, rs, re, p);
    } else if Digit(ls, le, p) < Digit(rs, re, p) {
      FirstDifference(rs, re, ls, le, p);
    }
  }

  /** When the shared digits agree, the operand with more stored bigits wins. */
  lemma TailDecides(ls: seq<Bigit>, le: nat, rs: seq<Bigit>, re: nat, p: nat)
    requires |ls| + le == |rs| + re
    requires p == if le < re then re else le
    requires High(ls, le, p) == High(rs, re, p)
    ensures CompareResult(ls, le, rs, re) == Sign(re - le)
  {
    HighBounds(ls, le, p);
    HighBounds(rs, re, p);
    if le <= re { HighExact(rs, re, p); }
    if le >= re { HighExact(ls, le, p); }
  }

  /**
   Exactly when compare orders two top-normalised operands by value: equal values must
   have the same layout, and a zero must not be spread wider than the other operand.
   */
  lemma CompareExact(ls: seq<Bigit>, le: nat, rs: seq<Bigit>, re: nat)
    requires TopNormal(ls) && TopNormal(rs)
    ensures CompareResult(ls, le, rs, re) == Sign(Value(ls, le) - Value(rs, re)) <==>
            && (Value(ls, le) == Value(rs, re) ==> |ls| == |rs| && le == re)
            && (Value(ls, le) == 0 < Value(rs, re) ==> |ls| + le <= |rs| + re)
            && (Value(rs, re) == 0 < Value(ls, le) ==> |rs| + re <= |ls| + le)
  {
    ValueBound(ls, le);
    ValueBound(rs, re);
    if |ls| + le > |rs| + re && Value(ls, le) > 0 { Longer(ls, le, rs, re); }
    if |ls| + le < |rs| + re && Value(rs, re) > 0 { Longer(rs, re, ls, le); }
  }

  /** 2^32 with a spare zero bigit counts as more than 2^32 without. */
  lemma ComparedUnequal()
    ensures Value([0, 1], 0) == Value([1], 1) && CompareResult([0, 1], 0, [1], 1) == 1
  {
    assert Val([1]) == 1 && Val([0, 1]) == B && Shl(1, 1) == B;
  }

  /** How compare orders a dividend against a nonzero divisor. */
  lemma CompareLess(ls: seq<Bigit>, le: nat, rs: seq<Bigit>, re: nat)
    requires TopNormal(ls) && TopNormal(rs) && Value(rs, re) > 0
    requires Value(ls, le) == 0 ==> |ls| + le <= |rs| + re
    ensures CompareResult(ls, le, rs, re) < 0 <==>
            Value(ls, le) < Value(rs, re) || (Value(ls, le) == Value(rs, re) && le > re)
  {
    hide Val, Shl;
    ValueBound(ls, le);
    if |ls| + le > |rs| + re { Longer(ls, le, rs, re); }
    if |ls| + le < |rs| + re { Longer(rs, re, ls, le); }
  }

  lemma Longer(s: seq<Bigit>, e: nat, rs: seq<Bigit>, re: nat)
    requires TopNormal(s) && Value(s, e) > 0
    requires |s| + e > |rs| + re
    ensures Value(s, e) > Value(rs, re)
  {
    Extent(s, e);
    Fits(rs, re, |s| + e - 1);
  }

  /** A nonzero top-normalised bigint is at least the power of the base its length suggests. */
  lemma Extent(s: seq<Bigit>, e: nat)
    requires TopNormal(s) && Value(s, e) > 0
    ensures |s| > 0 && s[|s| - 1] != 0 && Value(s, e) >= Shl(1, |s| + e - 1)
  {
    ShlSign(Val(s), e);
    if |s| == 1 { assert Val(s[1..]) == 0; }
    ValueTop(s, e);
  }

  lemma ZeroIsShort(s: seq<Bigit>, e: nat)
    requires TopNormal(s) && Value(s, e) == 0
    ensures |s| <= 1
  {
    if |s| > 1 { ValueTop(s, e); }
  }

  lemma Fits(s: seq<Bigit>, e: nat, n: nat)
    requires |s| + e <= n
    ensures Value(s, e) < Shl(1, n)
  {
    ValueBound(s, e);
    ShlLonger(1, |s| + e, n);
  }

  /** What add_compare answers: lengths first, then the sign of lhs1 + lhs2 - rhs. */
  function AddCompareResult(s1: seq<Bigit>, e1: nat, s2: seq<Bigit>, e2: nat, rs: seq<Bigit>, re: nat): int
  {
    var longest := Max(|s1| + e1, |s2| + e2);
    if longest + 1 < |rs| + re then -1
    else if longest > |rs| + re then 1
    else Sign(Value(s1, e1) + Value(s2, e2) - Value(rs, re))
  }

  /** How far rhs is ahead of lhs1 + lhs2, looking only at positions p and above. */
  function Ahead(s1: seq<Bigit>, e1: nat, s2: seq<Bigit>, e2: nat, rs: seq<Bigit>, re: nat, p: nat): int
  {
    High(rs, re, p) - High(s1, e1, p) - High(s2, e2, p)
  }

  /** Deciding early is safe: lower digits cannot make up a lead of 2, nor lose a deficit. */
  lemma AheadStep(s1: seq<Bigit>, e1: nat, s2: seq<Bigit>, e2: nat, rs: seq<Bigit>, re: nat, p: nat)
    ensures Ahead(s1, e1, s2, e2, rs, re, p) ==
            B * Ahead(s1, e1, s2, e2, rs, re, p + 1) + Digit(rs, re, p) - Digit(s1, e1, p) - Digit(s2, e2, p)
    ensures Ahead(s1, e1, s2, e2, rs, re, p) < 0 ==> Value(s1, e1) + Value(s2, e2) > Value(rs, re)
    ensures Ahead(s1, e1, s2, e2, rs, re, p) > 1 ==> Value(s1, e1) + Value(s2, e2) < Value(rs, re)
  {
    HighStep(s1, e1, p);
    HighStep(s2, e2, p);
    HighStep(rs, re, p);
    AheadDecides(s1, e1, s2, e2, rs, re, p);
  }

  lemma AheadDecides(s1: seq<Bigit>, e1: nat, s2: seq<Bigit>, e2: nat, rs: seq<Bigit>, re: nat, p: nat)
    ensures Ahead(s1, e1, s2, e2, rs, re, p) < 0 ==> Value(s1, e1) + Value(s2, e2) > Value(rs, re)
    ensures Ahead(s1, e1, s2, e2, rs, re, p) > 1 ==> Value(s1, e1) + Value(s2, e2) < Value(rs, re)
  {
    HighBounds(s1, e1, p);
    HighBounds(s2, e2, p);
    HighBounds(rs, re, p);
    var h1, h2, hr := High(s1, e1, p), High(s2, e2, p), High(rs, re, p);
    ShlAdd(h1, h2, p);
    ShlAdd(h1 + 1, h2 + 1, p);
    ShlMono(hr + 1, h1 + h2, p);
    ShlMono(h1 + 1 + (h2 + 1), hr, p);
  }

  /** Above all numbers neither side is ahead. */
  lemma AheadAtTop(s1: seq<Bigit>, e1: nat, s2: seq<Bigit>, e2: nat, rs: seq<Bigit>, re: nat, p: nat)
    requires |s1| + e1 <= p && |s2| + e2 <= p && |rs| + re <= p
    ensures Ahead(s1, e1, s2, e2, rs, re, p) == 0
  {
  }

  /** Below every exponent there is nothing left to compare. */
  lemma AheadAtBottom(s1: seq<Bigit>, e1: nat, s2: seq<Bigit>, e2: nat, rs: seq<Bigit>, re: nat, p: nat)
    requires p <= e1 && p <= e2 && p <= re
    ensures Sign(Value(s1, e1) + Value(s2, e2) - Value(rs, re)) == -Sign(Ahead(s1, e1, s2, e2, rs, re, p))
  {
    HighExact(s1, e1, p);
    HighExact(s2, e2, p);
    HighExact(rs, re, p);
    var h1: int, h2: int, hr: int := High(s1, e1, p), High(s2, e2, p), High(rs, re, p);
    ShlSub(hr, h1, p);
    ShlSub(hr - h1, h2, p);
    ShlSign(hr - h1 - h2, p);
  }

  /** A zero that is spread over more positions than rhs has. */
  predicate WideZero(s: seq<Bigit>, e: nat, rs: seq<Bigit>, re: nat)
  {
    Value(s, e) == 0 && |s| + e > |rs| + re
  }

  /**
   Exactly when add_compare answers the sign of lhs1 + lhs2 - rhs. Only zeros that are spread
   too wide can mislead it: one on the left, unless the sum is larger anyway, or one on the right.
   */
  lemma AddCompareExact(s1: seq<Bigit>, e1: nat, s2: seq<Bigit>, e2: nat, rs: seq<Bigit>, re: nat)
    requires TopNormal(s1) && TopNormal(s2) && TopNormal(rs)
    ensures AddCompareResult(s1, e1, s2, e2, rs, re) == Sign(Value(s1, e1) + Value(s2, e2) - Value(rs, re)) <==>
            && (Value(rs, re) == 0 ==> |rs| + re <= Max(|s1| + e1, |s2| + e2) + 1)
            && (WideZero(s1, e1, rs, re) || WideZero(s2, e2, rs, re) ==> Value(s1, e1) + Value(s2, e2) > Value(rs, re))
  {
    var n1, n2, nr := |s1| + e1, |s2| + e2, |rs| + re;
    ValueBound(s1, e1);
    ValueBound(s2, e2);
    ValueBound(rs, re);
    if Max(n1, n2) + 1 < nr {
      if Value(rs, re) > 0 { ShortSum(s1, e1, s2, e2, rs, re); }
    } else {
      if n1 > nr && Value(s1, e1) > 0 { Longer(s1, e1, rs, re); }
      if n2 > nr && Value(s2, e2) > 0 { Longer(s2, e2, rs, re); }
    }
  }

  /** 0 + 1 counts as more than 2 when the zero is spread over six bigits. */
  lemma AddedWrong()
    ensures AddCompareResult([0], 5, [1], 0, [2], 0) == 1 && Value([0], 5) + Value([1], 0) < Value([2], 0)
  {
    assert Val([0]) == 0 && Val([1]) == 1 && Val([2]) == 2;
    ShlSign(0, 5);
  }

  lemma ShortSum(s1: seq<Bigit>, e1: nat, s2: seq<Bigit>, e2: nat, rs: seq<Bigit>, re: nat)
    requires TopNormal(rs) && Value(rs, re) > 0
    requires |s1| + e1 + 1 < |rs| + re && |s2| + e2 + 1 < |rs| + re
    ensures Value(s1, e1) + Value(s2, e2) < Value(rs, re)
  {
    Fits(s1, e1, |rs| + re - 2);
    Fits(s2, e2, |rs| + re - 2);
    Extent(rs, re);
  }

  /** A power of five has no more bigits than its exponent. */
  lemma FivePowerSize(s: seq<Bigit>, x: nat)
    requires |s| > 0 && TopNormal(s) && x > 0 && Val(s) == Pow(5, x)
    ensures |s| <= x
  {
    hide Val, Shl;
    ValueUnshifted(s);
    Extent(s, 0);
    FiveBelowB(x);
    if |s| > x { ShlLonger(1, x, |s| - 1); }
  }
}
