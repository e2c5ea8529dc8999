/** The multi-precision integer of the formatting library (detail::bigint). */
module BigintModel {
  import opened Powers
  import opened Bigits
  import opened Positions
  import opened Comparison
  import opened Carries
  import opened Convolution

  class Bigint {
    var bigits: seq<Bigit>
    var exp: nat

    function NumBigits(): nat
      reads this
    {
      |bigits| + exp
    }

    ghost function Value(): int
      reads this
    {
      Positions.Value(bigits, exp)
    }

    /** Nonempty and without superfluous zeros on top. */
    ghost predicate Normal()
      reads this
    {
      |bigits| > 0 && TopNormal(bigits)
    }

    constructor ()
      ensures bigits == [] && exp == 0
    {
      bigits := [];
      exp := 0;
    }

    /** assign(UInt): splits n into bigits. */
    method Assign(n: nat)
      modifies this
      ensures Normal() && exp == 0 && Value() == n
    {
      bigits := [n % B];
      var rest: nat := n / B;
      while rest != 0
        invariant |bigits| > 0 && (rest == 0 ==> TopNormal(bigits))
        invariant Val(bigits) + Shl(rest, |bigits|) == n
      {
        AppendDigit(bigits, rest % B, rest / B);
        bigits := bigits + [rest % B];
        rest := rest / B;
      }
      ShlSign(0, |bigits|);
      exp := 0;
    }

    method AssignFrom(other: Bigint)
      modifies this
      ensures bigits == old(other.bigits) && exp == old(other.exp)
    {
      bigits := other.bigits;
      exp := other.exp;
    }

    method RemoveLeadingZeros()
      requires |bigits| > 0
      modifies this`bigits
      ensures Normal() && Val(bigits) == old(Val(bigits))
      ensures bigits <= old(bigits)
    {
      var numBigits: int := |bigits| - 1;
      assert bigits[..numBigits + 1] == bigits;
      while numBigits > 0 && bigits[numBigits] == 0
        invariant 0 <= numBigits < |bigits| && bigits == old(bigits)
        invariant Val(bigits[..numBigits + 1]) == Val(bigits)
      {
        ValNext(bigits, numBigits);
        ShlSign(0, numBigits);
        numBigits := numBigits - 1;
      }
      bigits := bigits[..numBigits + 1];
    }

    /** 64-bit wrap-around subtraction; the borrow is the sign bit. */
    method SubtractBigits(index: nat, other: Bigit, borrow: nat) returns (borrow': nat)
      requires index < |bigits| && borrow <= 1
      modifies this`bigits
      ensures borrow' <= 1
      ensures var d := old(bigits)[index] - other - borrow + B * borrow';
              0 <= d < B && bigits == old(bigits)[index := d]
    {
      var result := (bigits[index] - other - borrow) % 0x1_0000_0000_0000_0000;
      bigits := bigits[index := result % B];
      borrow' := result / 0x8000_0000_0000_0000;
    }

    /** The top bigit is not zero, as divmod_assign asserts of its divisor. */
    ghost predicate Positive()
      reads this
    {
      |bigits| > 0 && bigits[|bigits| - 1] != 0
    }

    /** multiply(uint32_t). */
    method Multiply(value: Bigit)
      requires value > 0 && Normal()
      modifies this`bigits
      ensures Normal() && Val(bigits) == value * old(Val(bigits))
      ensures Value() == value * old(Value())
    {
      hide Val, Shl;
      ghost var s := bigits;
      ShlScale(value, Val(bigits), exp);
      var carry: nat := 0;
      var i, n := 0, |bigits|;
      MulStart(s, value);
      while i < n
        invariant i <= n == |s| == |bigits| && carry < B && bigits[i..] == s[i..]
        invariant Val(bigits) + Shl(carry, i) == Val(s) + (value - 1) * Val(s[..i])
      {
        MulDigit(bigits[i], value, carry);
        var result := bigits[i] * value + carry;
        assert bigits[i] == bigits[i..][0] == s[i];
        MulStep(s, bigits, i, value, carry, result / B, result % B);
        assert bigits[i + 1..] == bigits[i..][1..] == s[i + 1..];
        bigits := bigits[i := result % B];
        carry := result / B;
        i := i + 1;
      }
      MulEnd(s, bigits, value, carry);
      if carry != 0 { bigits := bigits + [carry]; }
    }

    /** multiply(UInt) for 64 bits (half == 2^32) and for 128 bits (half == 2^64). */
    method MultiplyWide(value: nat, half: nat)
      requires half == B || half == B * B
      requires 0 < value < half * half && Normal()
      modifies this`bigits
      ensures Normal() && Val(bigits) == value * old(Val(bigits))
      ensures Value() == value * old(Value())
    {
      hide Val, Shl, WideResult, WideCarry;
      ghost var s := bigits;
      ShlScale(value, Val(bigits), exp);
      var shift := if half == B then 1 else B;
      var lower, upper := value % half, value / half;
      WideSplit(value, half);
      var carry: nat := 0;
      var i, n := 0, |bigits|;
      MulStart(s, value);
      while i < n
        invariant i <= n == |s| == |bigits| && carry < half * half && bigits[i..] == s[i..]
        invariant Val(bigits) + Shl(carry, i) == Val(s) + (value - 1) * Val(s[..i])
      {
        WideStep(half, shift, lower, upper, bigits[i], carry);
        var result := WideResult(lower, bigits[i], carry);
        var carry' := WideCarry(upper, bigits[i], shift, result, carry);
        assert bigits[i] == bigits[i..][0] == s[i];
        MulStep(s, bigits, i, value, carry, carry', result % B);
        assert bigits[i + 1..] == bigits[i..][1..] == s[i + 1..];
        bigits := bigits[i := result % B];
        carry := carry';
        i := i + 1;
      }
      MulEnd(s, bigits, value, carry);
      PushCarry(carry);
    }

    /** The bit part of operator<<=. */
    method ShiftBits(r: nat)
      requires Normal() && 0 < r < 32
      modifies this`bigits
      ensures Normal() && Val(bigits) == Pow(2, r) * old(Val(bigits))
    {
      hide Val, Shl;
      ghost var s := bigits;
      var p, q := Pow(2, r), Pow(2, 32 - r);
      ShiftFactors(r);
      hide Pow, MovedBits, LostBits;
      var carry: nat := 0;
      var i, n := 0, |bigits|;
      MulStart(s, p);
      while i < n
        invariant i <= n == |s| == |bigits| && carry < p && bigits[i..] == s[i..]
        invariant Val(bigits) + Shl(carry, i) == Val(s) + (p - 1) * Val(s[..i])
      {
        var bigit := bigits[i];
        assert bigit == bigits[i..][0] == s[i];
        ShiftRound(s, bigits, i, p, q, carry);
        assert bigits[i + 1..] == bigits[i..][1..] == s[i + 1..];
        bigits := bigits[i := MovedBits(bigit, p) + carry];
        carry := LostBits(bigit, q);
        i := i + 1;
      }
      MulEnd(s, bigits, p, carry);
      if carry != 0 { bigits := bigits + [carry]; }
    }

    /** operator<<=: whole bigits go to the exponent, the rest is shifted through the bigits. */
    method ShiftLeft(shift: nat)
      requires Normal()
      modifies this
      ensures Normal() && Value() == Pow(2, shift) * old(Value())
      ensures exp == old(exp) + shift / 32
    {
      hide Val, Shl;
      ShiftSplit(bigits, exp, shift);
      exp := exp + shift / 32;
      if shift % 32 == 0 { return; }
      hide Pow;
      ShiftBits(shift % 32);
    }

    /** Appends what is left of the carry, bigit by bigit. */
    method PushCarry(carry: nat)
      requires carry == 0 ==> Normal()
      modifies this`bigits
      ensures Normal() && Val(bigits) == old(Val(bigits)) + Shl(carry, old(|bigits|))
    {
      hide Val, Shl;
      var rest: nat := carry;
      while rest != 0
        invariant rest == 0 ==> Normal()
        invariant Val(bigits) + Shl(rest, |bigits|) == old(Val(bigits)) + Shl(carry, old(|bigits|))
      {
        AppendDigit(bigits, rest % B, rest / B);
        bigits := bigits + [rest % B];
        rest := rest / B;
      }
      ShlSign(0, |bigits|);
    }

    /** The first loop of subtract_aligned: every bigit of other, from place k up. */
    method SubtractDigits(other: Bigint, k: nat) returns (borrow: nat)
      requires this != other && k + |other.bigits| <= |bigits|
      modifies this`bigits
      ensures borrow <= 1 && |bigits| == |old(bigits)|
      ensures bigits[k + |other.bigits|..] == old(bigits[k + |other.bigits|..])
      ensures Val(bigits) == old(Val(bigits)) - Shl(Val(other.bigits), k) + Shl(borrow, k + |other.bigits|)
    {
      hide *;
      ghost var s := bigits;
      borrow := 0;
      var i, j := k, 0;
      ShlSign(0, k);
      NothingYet(other.bigits, k);
      while j != |other.bigits|
        invariant 0 <= j <= |other.bigits| && i == k + j && borrow <= 1
        invariant |bigits| == |s| && bigits[i..] == s[i..]
        invariant Val(bigits) == Val(s) - Shl(Val(other.bigits[..j]), k) + Shl(borrow, i)
        decreases |other.bigits| - j
      {
        ghost var cur, was := bigits, borrow;
        borrow := SubtractBigits(i, other.bigits[j], borrow);
        BorrowStep(cur, other.bigits, k, j, was, borrow, bigits[i]);
        assert bigits[i + 1..] == cur[i..][1..] == s[i + 1..];
        i, j := i + 1, j + 1;
      }
      assert other.bigits[..j] == other.bigits;
    }

    /** The second loop of subtract_aligned, which never advances i. */
    method SettleBorrow(i: nat, borrow: nat)
      requires borrow <= 1 && (borrow == 1 ==> i < |bigits|)
      modifies this`bigits
      ensures borrow == 0 ==> bigits == old(bigits)
      ensures borrow == 1 ==> bigits == old(bigits)[i := if old(bigits[i]) == 0 then B - 2 else old(bigits[i]) - 1]
    {
      var due := borrow;
      while due > 0
        invariant due <= 1 && |bigits| == old(|bigits|)
        invariant due == 1 && borrow == 1 ==> bigits == old(bigits) || (old(bigits[i]) == 0 && bigits == old(bigits)[i := B - 1])
        invariant due == 0 && borrow == 0 ==> bigits == old(bigits)
        invariant due == 0 && borrow == 1 ==> bigits == old(bigits)[i := if old(bigits[i]) == 0 then B - 2 else old(bigits[i]) - 1]
        invariant due == 1 ==> borrow == 1
        decreases due, if due == 0 then 0 else B - 1 - bigits[i]
      {
        due := SubtractBigits(i, 0, due);
      }
    }

    method SubtractAligned(other: Bigint)
      requires this != other && |bigits| > 0 && other.Positive()
      requires other.exp >= exp && Val(bigits) >= Shl(Val(other.bigits), other.exp - exp)
      modifies this`bigits
      ensures Normal()
      ensures var k := other.exp - exp;
              Val(bigits) == old(Val(bigits)) - Shl(Val(other.bigits), k) +
                if BorrowStuck(old(bigits), k, other.bigits) then Shl(B - 1, k + |other.bigits|) else 0
    {
      hide Val, Shl, BorrowStuck;
      ghost var s, k := bigits, other.exp - exp;
      RoomForBorrow(s, k, other.bigits);
      var borrow := SubtractDigits(other, other.exp - exp);
      ghost var t := bigits;
      LastBorrow(s, t, k, other.bigits, borrow);
      SettleBorrow(other.exp - exp + |other.bigits|, borrow);
      RemoveLeadingZeros();
    }

    /** Moves every bigit n places up, from the top down, and clears the low ones. */
    method MoveUp(n: nat)
      modifies this`bigits
      ensures bigits == Zeros(n) + old(bigits)
    {
      var numBigits := |bigits|;
      ghost var s := bigits;
      bigits := bigits + Zeros(n);
      var i: int, j: int := numBigits - 1, numBigits - 1 + n;
      while i >= 0
        invariant -1 <= i < numBigits && j == i + n && |bigits| == numBigits + n
        invariant bigits[..i + 1] == s[..i + 1]
        invariant forall q :: j < q < |bigits| ==> bigits[q] == s[q - n]
      {
        assert bigits[i] == bigits[..i + 1][i];
        bigits := bigits[j := bigits[i]];
        i, j := i - 1, j - 1;
      }
      bigits := Zeros(n) + bigits[n..];
    }

    /** Adds low zero bigits until the exponent is no larger than that of other. */
    method Align(other: Bigint)
      requires this != other
      modifies this
      ensures Value() == old(Value()) && NumBigits() == old(NumBigits())
      ensures exp == Min(old(exp), other.exp)
      ensures bigits == Zeros(Max(old(exp) - other.exp, 0)) + old(bigits)
    {
      hide Val, Shl;
      var expDifference: int := exp - other.exp;
      if expDifference <= 0 {
        assert Zeros(0) + bigits == bigits;
        return;
      }
      ShiftedByZeros(bigits, expDifference, exp - expDifference);
      MoveUp(expDifference);
      exp := exp - expDifference;
    }

    /** One round of division: a dividend this close to the divisor loses exactly one divisor. */
    method SubtractDivisor(divisor: Bigint)
      requires this != divisor && Normal() && divisor.Positive() && exp <= divisor.exp
      requires 0 < divisor.Value() <= Value() < B * divisor.Value()
      modifies this`bigits
      ensures Normal() && Value() == old(Value()) - divisor.Value()
      ensures Value() == 0 ==> NumBigits() <= divisor.NumBigits()
    {
      hide Val, Shl;
      NeverStuck(bigits, exp, divisor.bigits, divisor.exp);
      AlignedDifference(bigits, exp, divisor.bigits, divisor.exp);
      SubtractAligned(divisor);
      if Value() == 0 { ZeroIsShort(bigits, exp); }
    }

    /** Divides by repeated subtraction, leaving the remainder. */
    method DivmodAssign(divisor: Bigint) returns (quotient: nat)
      requires this != divisor && Normal() && divisor.Positive()
      requires Value() == 0 ==> NumBigits() <= divisor.NumBigits()
      requires Value() < 0x8000_0000 * divisor.Value()
      modifies this
      ensures Normal()
      ensures quotient == 0 ==> bigits == old(bigits)
      ensures old(Value()) == divisor.Value() && old(exp) > divisor.exp ==> quotient == 0
      ensures !(old(Value()) == divisor.Value() && old(exp) > divisor.exp) ==>
                old(Value()) == quotient * divisor.Value() + Value() && 0 <= Value() < divisor.Value()
      ensures exp == if quotient == 0 then old(exp) else Min(old(exp), divisor.exp)
      ensures quotient > 0 && Value() == 0 ==> NumBigits() <= divisor.NumBigits()
    {
      hide Val, Shl, High, Positions.Value, CompareResult;
      ValueBound(bigits, exp);
      ValueTop(divisor.bigits, divisor.exp);
      CompareLess(bigits, exp, divisor.bigits, divisor.exp);
      var order := Compare(this, divisor);
      if order < 0 { return 0; }
      ghost var v, d := Value(), divisor.Value();
      Extent(bigits, exp);
      Align(divisor);
      quotient := 0;
      while order >= 0
        invariant Normal() && exp == Min(old(exp), divisor.exp)
        invariant v == quotient * d + Value() && 0 <= Value() <= v
        invariant order >= 0 ==> Value() >= d
        invariant order < 0 ==> Value() < d && quotient > 0
        invariant Value() == 0 ==> NumBigits() <= divisor.NumBigits()
        decreases Value(), order
      {
        SubtractDivisor(divisor);
        OneMore(quotient, d);
        quotient := quotient + 1;
        CompareLess(bigits, exp, divisor.bigits, divisor.exp);
        order := Compare(this, divisor);
      }
    }

    /** square(): one column of digit products at a time, in a 128-bit accumulator. */
    method Square()
      requires 0 < |bigits| <= 0x4000_0000
      modifies this
      ensures Normal() && Val(bigits) == old(Val(bigits)) * old(Val(bigits)) && exp == 2 * old(exp)
    {
      hide Val, Shl, Diagonal, Diagonals;
      var numBigits := |bigits|;
      var numResultBigits := 2 * numBigits;
      var n := bigits;
      bigits := Zeros(numResultBigits);
      var sum: nat := 0;
      var bigitIndex := 0;
      ColumnsStart(n, bigits);
      while bigitIndex < numResultBigits
        invariant 0 <= bigitIndex <= numResultBigits == |bigits| && exp == old(exp)
        invariant Val(bigits[..bigitIndex]) + Shl(sum, bigitIndex) == Diagonals(n, n, bigitIndex)
        invariant sum <= numBigits * (B - 1)
      {
        ghost var carry := sum;
        var i, j;
        if bigitIndex < numBigits {
          i, j := 0, bigitIndex;
        } else {
          i, j := bigitIndex - (numBigits - 1), numBigits - 1;
        }
        sum := AddColumn(n, i, j, sum);
        ColumnWhole(n, bigitIndex, i);
        ColumnDone(n, bigits, bigitIndex, carry, sum);
        bigits := bigits[bigitIndex := sum % B];
        sum := sum / B;
        bigitIndex := bigitIndex + 1;
      }
      assert bigits[..bigitIndex] == bigits;
      NoCarryLeft(n, bigits, sum);
      RemoveLeadingZeros();
      exp := 2 * exp;
    }

    /** assign_pow10: 5^exp by squaring along the bits of exp, then a shift by exp. */
    method AssignPow10(exponent: nat)
      requires exponent < 0x4000_0000
      modifies this
      ensures Normal() && Value() == Pow(10, exponent) && exp == exponent / 32
    {
      hide Val, Shl, LeadingBits, Pow;
      if exponent == 0 {
        PowFive();
        Assign(1);
        return;
      }
      var bitmask := TopBit(exponent);
      Assign(5);
      ValueUnshifted(bigits);
      PowFive();
      TopIsOne(exponent, bitmask);
      ghost var mask := bitmask;
      bitmask := bitmask / 2;
      while bitmask != 0
        invariant Normal() && exp == 0
        invariant mask > 0 && bitmask == mask / 2 && (mask == 1 || mask % 2 == 0) && IsPowerOfTwo(mask)
        invariant LeadingBits(exponent, mask) > 0 && Val(bigits) == Pow(5, LeadingBits(exponent, mask))
      {
        NextBit(exponent, bitmask, mask);
        BitsWithin(exponent, mask);
        FivePowerSize(bigits, LeadingBits(exponent, mask));
        FiveDoubles(LeadingBits(exponent, mask), LeadingBits(exponent, bitmask));
        Square();
        if LeadingBits(exponent, bitmask) % 2 != 0 {
          Multiply(5);
        }
        mask := bitmask;
        bitmask := bitmask / 2;
      }
      AllBits(exponent);
      PowProduct(2, 5, exponent);
      ValueUnshifted(bigits);
      ShiftLeft(exponent);
    }
  }

  lemma PowFive()
    ensures Pow(10, 0) == 1 && Pow(5, 1) == 5
  {
  }

  lemma TopIsOne(x: nat, m: nat)
    requires m <= x < 2 * m
    ensures LeadingBits(x, m) == 1
  {
    DivModUnique(x, m, 1, x - m);
  }

  lemma BitsWithin(x: nat, m: nat)
    requires m > 0
    ensures LeadingBits(x, m) <= x
  {
    var r := LeadingBitsSplit(x, m);
    MulMono(1, m, LeadingBits(x, m));
  }

  lemma AllBits(x: nat)
    ensures LeadingBits(x, 1) == x
  {
  }

  lemma FiveDoubles(a: nat, b: nat)
    requires b == 2 * a + b % 2
    ensures Pow(5, b) == if b % 2 != 0 then 5 * (Pow(5, a) * Pow(5, a)) else Pow(5, a) * Pow(5, a)
  {
    PowAdd(5, a, a);
  }

  predicate IsPowerOfTwo(n: nat)
  {
    n == 1 || (n > 1 && n % 2 == 0 && IsPowerOfTwo(n / 2))
  }

  /** The highest bit of a positive number. */
  method TopBit(x: nat) returns (bitmask: nat)
    requires x > 0
    ensures IsPowerOfTwo(bitmask) && bitmask <= x < 2 * bitmask
  {
    bitmask := 1;
    while x >= bitmask
      invariant IsPowerOfTwo(bitmask)
      invariant bitmask == 1 || bitmask / 2 <= x
      decreases 2 * x - bitmask
    {
      bitmask := bitmask * 2;
    }
    bitmask := bitmask / 2;
  }

  method Compare(lhs: Bigint, rhs: Bigint) returns (r: int)
    ensures r == CompareResult(lhs.bigits, lhs.exp, rhs.bigits, rhs.exp)
  {
    hide Val, Shl, High;
    if lhs.NumBigits() != rhs.NumBigits() {
      return if lhs.NumBigits() > rhs.NumBigits() then 1 else -1;
    }
    var i := |lhs.bigits| - 1;
    var j := |rhs.bigits| - 1;
    var end := i - j;
    if end < 0 { end := 0; }
    HighAbove(lhs.bigits, lhs.exp, lhs.NumBigits());
    HighAbove(rhs.bigits, rhs.exp, lhs.NumBigits());
    while i >= end
      invariant end - 1 <= i < |lhs.bigits| && -1 <= j < |rhs.bigits|
      invariant i + lhs.exp == j + rhs.exp
      invariant High(lhs.bigits, lhs.exp, i + 1 + lhs.exp) == High(rhs.bigits, rhs.exp, i + 1 + lhs.exp)
    {
      var lhsBigit, rhsBigit := lhs.bigits[i], rhs.bigits[j];
      CompareStep(lhs.bigits, lhs.exp, rhs.bigits, rhs.exp, i + lhs.exp);
      if lhsBigit != rhsBigit {
        return if lhsBigit > rhsBigit then 1 else -1;
      }
      i, j := i - 1, j - 1;
    }
    TailDecides(lhs.bigits, lhs.exp, rhs.bigits, rhs.exp, i + 1 + lhs.exp);
    return if i != j then (if i > j then 1 else -1) else 0;
  }

  function GetBigit(n: Bigint, i: nat): Bigit
    reads n
  {
    if i >= n.exp && i < n.NumBigits() then n.bigits[i - n.exp] else 0
  }

  method AddCompare(lhs1: Bigint, lhs2: Bigint, rhs: Bigint) returns (r: int)
    ensures r == AddCompareResult(lhs1.bigits, lhs1.exp, lhs2.bigits, lhs2.exp, rhs.bigits, rhs.exp)
  {
    hide Val, Shl, Positions.Value, High, Ahead;
    var maxLhsBigits := Max(lhs1.NumBigits(), lhs2.NumBigits());
    var numRhsBigits: int := rhs.NumBigits();
    if maxLhsBigits + 1 < numRhsBigits { return -1; }
    if maxLhsBigits > numRhsBigits { return 1; }
    AheadAtTop(lhs1.bigits, lhs1.exp, lhs2.bigits, lhs2.exp, rhs.bigits, rhs.exp, rhs.NumBigits());
    var borrow := 0;
    var minExp := Min(Min(lhs1.exp, lhs2.exp), rhs.exp);
    var i: int := numRhsBigits - 1;
    while i >= minExp
      invariant minExp - 1 <= i < numRhsBigits
      invariant borrow == B * Ahead(lhs1.bigits, lhs1.exp, lhs2.bigits, lhs2.exp, rhs.bigits, rhs.exp, i + 1)
      invariant borrow == 0 || borrow == B
    {
      AheadStep(lhs1.bigits, lhs1.exp, lhs2.bigits, lhs2.exp, rhs.bigits, rhs.exp, i);
      var sum := GetBigit(lhs1, i) + GetBigit(lhs2, i);
      var rhsBigit := GetBigit(rhs, i);
      if sum > rhsBigit + borrow { return 1; }
      borrow := rhsBigit + borrow - sum;
      if borrow > 1 { return -1; }
      borrow := borrow * B;
      i := i - 1;
    }
    AheadAtBottom(lhs1.bigits, lhs1.exp, lhs2.bigits, lhs2.exp, rhs.bigits, rhs.exp, i + 1);
    return if borrow != 0 then -1 else 0;
  }
}
