/** One-digit steps of the carry and borrow loops, free of the heap. */
module Carries {
  import opened Bigits
  import opened Positions
  import opened Comparison
  import opened Powers

  /** Moving the low digit of what is left onto the top of s. */
  lemma AppendDigit(s: seq<Bigit>, d: Bigit, q: nat)
    ensures Val(s + [d]) + Shl(q, |s| + 1) == Val(s) + Shl(d + B * q, |s|)
  {
    ValSnoc(s, d);
    ShlAdd(d, B * q, |s|);
    ShlB(q, |s|);
  }

  lemma ReplaceDigit(s: seq<Bigit>, i: nat, d: Bigit)
    requires i < |s|
    ensures Val(s[i := d]) == Val(s) + Shl(d - s[i], i)
  {
    var t := s[i := d];
    ValSplit(s, i);
    ValSplit(t, i);
    assert t[..i] == s[..i];
    assert t[i..][1..] == s[i..][1..];
    ShlSub(Val(t[i..]), Val(s[i..]), i);
  }

  /** One round of the borrow loop: bigit j of o is subtracted at position k + j of s. */
  lemma BorrowStep(s: seq<Bigit>, o: seq<Bigit>, k: nat, j: nat, borrow: nat, borrow': nat, d: Bigit)
    requires j < |o| && k + j < |s|
    requires d == s[k + j] - o[j] - borrow + B * borrow'
    ensures Val(s[k + j := d]) + Shl(borrow, k + j) + Shl(Val(o[..j + 1]), k)
         == Val(s) + Shl(borrow', k + j + 1) + Shl(Val(o[..j]), k)
  {
    hide *;
    ReplaceDigit(s, k + j, d);
    ValNext(o, j);
    ShlShl(o[j], j, k);
    ShlAdd(Val(o[..j]), Shl(o[j], j), k);
    ShlB(borrow', k + j);
    ShlAdd(d - s[k + j], o[j] + borrow, k + j);
    ShlAdd(o[j], borrow, k + j);
  }

  /** A borrow is due just above o, and the digit there is zero: the borrow loop does not move on. */
  predicate BorrowStuck(s: seq<Bigit>, k: nat, o: seq<Bigit>)
  {
    k + |o| < |s| && s[k + |o|] == 0 && Val(s[..k + |o|]) < Shl(Val(o), k)
  }

  /** 2^64 minus one, on three bigits: the borrow stops at the zero and leaves the digits above as they are. */
  lemma StuckExample()
    ensures BorrowStuck([0, 0, 1], 0, [1])
  {
    assert [0, 0, 1][..0 + |[1]|] == [0];
    assert Val([1]) == 1 && Val([0]) == 0;
  }

  /** After the last bigit of o, the borrow tells which low part was smaller. */
  lemma BorrowMeaning(s: seq<Bigit>, t: seq<Bigit>, i: nat, v: int, borrow: nat)
    requires i <= |s| == |t| && s[i..] == t[i..] && borrow <= 1
    requires Val(t) == Val(s) - v + Shl(borrow, i)
    ensures borrow == 1 <==> Val(s[..i]) < v
  {
    hide *;
    ValSplit(s, i);
    ValSplit(t, i);
    ValBound(t[..i]);
    ShlSign(borrow, i);
  }

  /** A minuend that is large enough has room for every bigit of o and for a last borrow. */
  lemma RoomForBorrow(s: seq<Bigit>, k: nat, o: seq<Bigit>)
    requires |o| > 0 && o[|o| - 1] != 0
    requires Val(s) >= Shl(Val(o), k)
    ensures k + |o| <= |s|
  {
    hide *;
    ValTop(o);
    ValBound(s);
    ShlMono(Shl(1, |o| - 1), Val(o), k);
    ShlShl(1, |o| - 1, k);
    if |s| < k + |o| { ShlLonger(1, |s|, k + |o| - 1); }
  }

  /** The borrow settles in the digit at i, one above o. */
  lemma BorrowSettled(t: seq<Bigit>, i: nat, d: Bigit)
    requires i < |t|
    requires d == if t[i] == 0 then B - 2 else t[i] - 1
    ensures Val(t[i := d]) == Val(t) - Shl(1, i) + if t[i] == 0 then Shl(B - 1, i) else 0
  {
    hide *;
    ReplaceDigit(t, i, d);
    ShlAdd(d - t[i], 1, i);
    ShlSign(0, i);
  }

  lemma NothingYet(o: seq<Bigit>, k: nat)
    ensures Shl(Val(o[..0]), k) == 0
  {
    ShlSign(0, k);
  }

  function Settled(t: seq<Bigit>, i: nat, borrow: nat): seq<Bigit>
    requires borrow == 1 ==> i < |t|
  {
    if borrow == 1 then t[i := if t[i] == 0 then B - 2 else t[i] - 1] else t
  }

  /** What the whole of subtract_aligned leaves, before leading zeros go. */
  lemma LastBorrow(s: seq<Bigit>, t: seq<Bigit>, k: nat, o: seq<Bigit>, borrow: nat)
    requires k + |o| <= |s| == |t| && s[k + |o|..] == t[k + |o|..] && borrow <= 1
    requires Val(s) >= Shl(Val(o), k)
    requires Val(t) == Val(s) - Shl(Val(o), k) + Shl(borrow, k + |o|)
    ensures borrow == 1 ==> k + |o| < |s|
    ensures Val(Settled(t, k + |o|, borrow)) == Val(s) - Shl(Val(o), k) + if BorrowStuck(s, k, o) then Shl(B - 1, k + |o|) else 0
  {
    var i := k + |o|;
    BorrowMeaning(s, t, i, Shl(Val(o), k), borrow);
    if borrow == 1 {
      ValBound(t);
      assert i < |s|;
      assert t[i] == t[i..][0] == s[i..][0] == s[i];
      BorrowSettled(t, i, if t[i] == 0 then B - 2 else t[i] - 1);
    } else {
      ShlSign(0, i);
    }
  }

  /** Aligned operands compare and subtract like their bigits. */
  lemma AlignedDifference(s: seq<Bigit>, e: nat, o: seq<Bigit>, oe: nat)
    requires e <= oe
    ensures Value(s, e) - Value(o, oe) == Shl(Val(s) - Shl(Val(o), oe - e), e)
    ensures Value(s, e) >= Value(o, oe) <==> Val(s) >= Shl(Val(o), oe - e)
  {
    hide Val, Shl;
    ShlShl(Val(o), oe - e, e);
    ShlSub(Val(s), Shl(Val(o), oe - e), e);
    ShlSign(Val(s) - Shl(Val(o), oe - e), e);
  }

  /** A dividend below 2^32 divisors is at most one bigit wider, so its borrow cannot get stuck. */
  lemma NeverStuck(s: seq<Bigit>, e: nat, o: seq<Bigit>, oe: nat)
    requires TopNormal(s) && |o| > 0 && e <= oe
    requires 0 < Value(s, e) < B * Value(o, oe)
    ensures !BorrowStuck(s, oe - e, o)
  {
    hide Val, Shl;
    Extent(s, e);
    ValueBound(o, oe);
    ShlB(1, |o| + oe);
    if |s| + e > |o| + oe + 1 {
      ShlLonger(1, |o| + oe + 1, |s| + e - 1);
      assert false;
    }
  }

  /** One round of a multiplication by v: digit i of s becomes d, c' is carried on. */
  lemma MulStep(s: seq<Bigit>, cur: seq<Bigit>, i: nat, v: int, c: int, c': int, d: Bigit)
    requires i < |s| == |cur| && cur[i] == s[i]
    requires Val(cur) + Shl(c, i) == Val(s) + (v - 1) * Val(s[..i])
    requires d + B * c' == s[i] * v + c
    ensures Val(cur[i := d]) + Shl(c', i + 1) == Val(s) + (v - 1) * Val(s[..i + 1])
  {
    hide *;
    var b: int := s[i];
    ReplaceDigit(cur, i, d);
    ShlB(c', i);
    ShlAdd(d - b, B * c', i);
    Distribute(b, v - 1, 1);
    ShlAdd((v - 1) * b, c, i);
    ShlScale(v - 1, b, i);
    ValNext(s, i);
    Distribute(v - 1, Val(s[..i]), Shl(b, i));
  }

  /** The low product of a wide multiplication, with the low bigit of the carry. */
  function WideResult(lower: nat, b: Bigit, carry: nat): nat
  {
    lower * b + carry % B
  }

  /** The next carry; scale is 2^shift, the distance of the upper half from a bigit. */
  function WideCarry(upper: nat, b: Bigit, scale: nat, result: nat, carry: nat): nat
  {
    upper * b * scale + result / B + carry / B
  }

  /** One round of the wide multiplication: nothing overflows the carry type, even at its maximum. */
  lemma WideStep(half: nat, scale: nat, lower: nat, upper: nat, b: Bigit, carry: nat)
    requires (half == B && scale == 1) || (half == B * B && scale == B)
    requires lower < half && upper < half && carry < half * half
    ensures var result := WideResult(lower, b, carry);
            var carry' := WideCarry(upper, b, scale, result, carry);
            && result < half * half && carry' < half * half
            && result % B + B * carry' == b * (half * upper + lower) + carry
  {
    WideValue(half, lower, upper, b);
    WideBounds(half, lower, upper, b);
    if half == B { Wide64(lower * b, upper * b, carry); } else { Wide128(lower * b, upper * b, carry); }
  }

  lemma WideValue(half: nat, lower: nat, upper: nat, b: nat)
    ensures b * (half * upper + lower) == half * (upper * b) + lower * b
  {
    Distribute(b, half * upper, lower);
    MulExchange(b, half, upper);
  }

  lemma WideBounds(half: nat, lower: nat, upper: nat, b: Bigit)
    requires lower < half && upper < half
    ensures 0 <= lower * b <= (half - 1) * (B - 1) && 0 <= upper * b <= (half - 1) * (B - 1)
  {
    MulMono(lower, half - 1, b);
    MulMono(upper, half - 1, b);
    MulMono(b, B - 1, half - 1);
  }

  lemma WideSplit(value: nat, half: nat)
    requires 0 < value < half * half
    ensures value == half * (value / half) + value % half
    ensures value / half < half && value % half < half
  {
    DivModIdentity(value, half);
    if value / half >= half { MulMono(half, value / half, half); }
  }

  lemma Wide64(x: nat, y: nat, carry: nat)
    requires x <= (B - 1) * (B - 1) && y <= (B - 1) * (B - 1) && carry < B * B
    ensures var result := x + carry % B;
            var carry' := y + result / B + carry / B;
            result < B * B && carry' < B * B && result % B + B * carry' == B * y + x + carry
  {
  }

  lemma Wide128(x: nat, y: nat, carry: nat)
    requires x <= (B * B - 1) * (B - 1) && y <= (B * B - 1) * (B - 1) && carry < B * B * B * B
    ensures var result := x + carry % B;
            var carry' := y * B + result / B + carry / B;
            result < B * B * B * B && carry' < B * B * B * B && result % B + B * carry' == B * B * y + x + carry
  {
  }

  /** Multiplying by p = 2^r, where p * q = 2^32 and the bigit is q * c + rest: c moves up, rest stays. */
  lemma ShiftStep(p: nat, q: nat, c: nat, rest: nat, carry: nat)
    requires p > 0 && p * q == B && rest < q && carry < p && q * c + rest < B
    ensures c < p && ((q * c + rest) * p) % B == rest * p && rest * p + carry < B
    ensures rest * p + carry + B * c == (q * c + rest) * p + carry
  {
    ShiftCore(p, q, c, rest);
    DivModUnique((q * c + rest) * p, B, c, rest * p);
  }

  /** The two halves of a 32-bit shift by r. */
  lemma ShiftFactors(r: nat)
    requires 0 < r < 32
    ensures Pow(2, r) * Pow(2, 32 - r) == B
  {
    TwoTo32();
    PowAdd(2, r, 32 - r);
  }

  lemma ShiftCore(p: nat, q: nat, c: nat, rest: nat)
    requires p * q == B && rest < q
    ensures (q * c + rest) * p == B * c + rest * p
    ensures rest * p <= B - p
    ensures q * c + rest < B ==> c < p
  {
    MulAssoc(p, q, c);
    Distribute(p, q * c, rest);
    MulMono(rest, q - 1, p);
    Distribute(p, q, -1);
    if c >= p { MulMono(p, c, q); }
  }

  /** A bigit that is moved up within its 32 bits by a factor, and what of it is moved out. */
  function MovedBits(b: Bigit, factor: nat): nat
  {
    (b * factor) % B
  }

  function LostBits(b: Bigit, divisor: nat): nat
    requires divisor > 0
  {
    b / divisor
  }

  /** One bigit of a shift: the high bits go on as the carry, the low bits take the old one in. */
  lemma ShiftRound(s: seq<Bigit>, cur: seq<Bigit>, i: nat, p: nat, q: nat, carry: nat)
    requires p > 0 && q > 0 && p * q == B && carry < p && i < |s| == |cur| && cur[i] == s[i]
    requires Val(cur) + Shl(carry, i) == Val(s) + (p - 1) * Val(s[..i])
    ensures LostBits(s[i], q) < p && MovedBits(s[i], p) + carry < B
    ensures Val(cur[i := MovedBits(s[i], p) + carry]) + Shl(LostBits(s[i], q), i + 1) == Val(s) + (p - 1) * Val(s[..i + 1])
  {
    hide Val, Shl;
    var b: nat := s[i];
    DivModIdentity(b, q);
    ShiftStep(p, q, b / q, b % q, carry);
    MulStep(s, cur, i, p, carry, b / q, (b * p) % B + carry);
  }

  lemma MulStart(s: seq<Bigit>, v: int)
    ensures Val(s) + Shl(0, 0) == Val(s) + (v - 1) * Val(s[..0])
  {
  }

  lemma MulDigit(b: Bigit, v: Bigit, c: Bigit)
    ensures 0 <= b * v + c < B * B
  {
    MulMono(b, B - 1, v);
    MulMono(0, b, v);
  }

  /** What the loop leaves in the bigits and the carry, and why the top stays nonzero. */
  lemma MulEnd(s: seq<Bigit>, t: seq<Bigit>, v: nat, c: nat)
    requires v > 0 && |s| == |t| > 0 && TopNormal(s)
    requires Val(t) + Shl(c, |t|) == Val(s) + (v - 1) * Val(s[..|s|])
    ensures Val(t) + Shl(c, |t|) == v * Val(s)
    ensures c == 0 ==> Val(t) == v * Val(s) && TopNormal(t)
    ensures 0 < c < B ==> Val(t + [c]) == v * Val(s)
  {
    hide Val, Shl;
    assert s[..|s|] == s;
    OneMore(v - 1, Val(s));
    ShlSign(0, |t|);
    if c == 0 { TopKept(s, t, v); }
    if 0 < c < B { ValSnoc(t, c); }
  }

  lemma TopKept(s: seq<Bigit>, t: seq<Bigit>, v: nat)
    requires v > 0 && |s| == |t| > 0 && TopNormal(s) && Val(t) == v * Val(s)
    ensures TopNormal(t)
  {
    hide Val, Shl;
    if |t| > 1 {
      ValTop(s);
      MulMono(1, v, Val(s));
      TopFromValue(t);
    }
  }
}
