/** format_dragon: Steele and White's digit generation on multi-precision integers. */
module Dragon {
  import opened Powers
  import opened Bigits
  import opened Positions
  import opened Comparison
  import opened BigintModel
  import opened Decimal
  import opened SteeleWhite

  function Bit(b: bool): int { if b then 1 else 0 }

  /**
   compare against the lower distance: on a tie the larger exponent counts as less, and a zero
   that is spread wider than the distance counts as more.
   */
  lemma LowDecision(ns: seq<Bigit>, ne: nat, ls: seq<Bigit>, le: nat)
    requires |ns| > 0 && TopNormal(ns) && TopNormal(ls) && Value(ls, le) > 0 && Value(ns, ne) >= 0
    ensures CompareResult(ns, ne, ls, le) ==
            if Value(ns, ne) == 0 then (if Value(ls, le) < Shl(1, ne) then 1 else -1)
            else if Value(ns, ne) == Value(ls, le) then Sign(le - ne)
            else Sign(Value(ns, ne) - Value(ls, le))
  {
    hide Val, Shl;
    Extent(ls, le);
    if Value(ns, ne) == 0 {
      ZeroIsShort(ns, ne);
      if ne + 1 > |ls| + le { Fits(ls, le, ne); } else { ShlLonger(1, ne, |ls| + le - 1); }
    } else {
      if |ns| + ne > |ls| + le { Longer(ns, ne, ls, le); }
      if |ns| + ne < |ls| + le { Longer(ls, le, ns, ne); }
    }
  }

  /** A remainder of zero that the comparison with the lower distance takes for more. */
  predicate WideRemainder(r: int, l: int, m: nat)
  {
    r == 0 && l < Shl(1, m)
  }

  /** Whether the comparison lets the lower end of the interval in. */
  predicate LowEndSeen(lowerExp: nat, m: nat, even: bool)
  {
    lowerExp < m || (even && lowerExp == m)
  }

  /** One division and the two comparisons of the shortest loop. */
  method Step(numerator: Bigint, denominator: Bigint, lower: Bigint, upper: Bigint, even: bool)
    returns (digit: nat, low: bool, high: bool)
    requires numerator != denominator && numerator != lower && numerator != upper
    requires numerator.Normal() && denominator.Positive() && lower.Normal() && upper.Normal()
    requires lower.Value() > 0 && upper.Value() > 0
    requires 0 <= numerator.Value() < 10 * denominator.Value()
    requires numerator.Value() == 0 ==> numerator.NumBigits() <= denominator.NumBigits()
    requires numerator.exp <= denominator.exp || numerator.Value() > lower.Value()
    requires numerator.exp <= denominator.exp || numerator.Value() != denominator.Value()
    modifies numerator
    ensures numerator.Normal()
    ensures old(numerator.Value()) == digit * denominator.Value() + numerator.Value()
    ensures 0 <= numerator.Value() < denominator.Value()
    ensures numerator.exp == if digit == 0 then old(numerator.exp) else Min(old(numerator.exp), denominator.exp)
    ensures numerator.Value() == 0 ==> numerator.NumBigits() <= denominator.NumBigits()
    ensures var m := Min(old(numerator.exp), denominator.exp);
            low <==> !WideRemainder(numerator.Value(), lower.Value(), m) &&
                     (numerator.Value() < lower.Value() || (numerator.Value() == lower.Value() && LowEndSeen(lower.exp, m, even)))
    ensures high <==> numerator.Value() + upper.Value() > denominator.Value() ||
                      (numerator.Value() + upper.Value() == denominator.Value() && even)
  {
    hide Val, Shl, High, Positions.Value, CompareResult, AddCompareResult;
    ValueTop(denominator.bigits, denominator.exp);
    digit := numerator.DivmodAssign(denominator);
    LowDecision(numerator.bigits, numerator.exp, lower.bigits, lower.exp);
    var lowOrder := Compare(numerator, lower);
    low := lowOrder - Bit(even) < 0;
    AddCompareExact(numerator.bigits, numerator.exp, upper.bigits, upper.exp, denominator.bigits, denominator.exp);
    var highOrder := AddCompare(numerator, upper, denominator);
    high := highOrder + Bit(even) > 0;
  }

  /** The interval the comparisons really use: at the low end the layouts decide a tie. */
  ghost function Seen(numerator: Bigint, denominator: Bigint, lower: Bigint, upper: Bigint, even: bool): Target
    reads numerator, denominator, lower, upper
  {
    Target(numerator.Value(), denominator.Value(), lower.Value(), upper.Value(),
           LowEndSeen(lower.exp, Min(numerator.exp, denominator.exp), even), even)
  }

  /** The first digit is the whole value, but its remainder is taken for more than the lower distance. */
  predicate Blind(t: Target, m: nat)
    requires t.d > 0
  {
    t.l < Shl(1, m) && t.n % t.d == 0
  }

  /** Room for a lower distance that is stored below the unit of the others: ten times it fills the unit. */
  predicate Room(t: Target, m: nat)
  {
    10 * t.l >= Shl(1, m) && t.l <= t.u && 10 * t.u < t.d
  }

  lemma LowEndAtLeast(ls: seq<Bigit>, le: nat, m: nat)
    requires TopNormal(ls) && Value(ls, le) > 0 && le >= m
    ensures Value(ls, le) >= Shl(1, m)
  {
    hide Val, Shl;
    Extent(ls, le);
    ShlLonger(1, m, |ls| + le - 1);
  }

  /** The state of the loop; when it is blind, it produces the one digit and then a zero. */
  ghost predicate Going(t: Target, blind: bool, a: int, j: nat, num: int, lv: int, uv: int)
  {
    if !blind then Progress(t, a, j, num, lv, uv)
    else if j == 0 then a == 0 && num == t.n && lv == t.l && uv == t.u
    else j == 1 && num == 0 && lv == 10 * t.l && uv == 10 * t.u && a * t.d == t.n
  }

  function Raise(r: int, d: int, digit: nat, low: bool, high: bool): nat
  {
    if !low || (high && (2 * r > d || (2 * r == d && digit % 2 != 0))) then 1 else 0
  }

  /** Appends the last digit, raised by one if that is the better choice. */
  method LastDigit(data: seq<char>, digit: nat, low: bool, high: bool, numerator: Bigint, denominator: Bigint)
    returns (data': seq<char>)
    requires IsDigits(data) && digit <= 9 && (low || high) && (digit == 9 ==> !high)
    requires numerator.Normal() && denominator.Positive()
    requires numerator.Value() == 0 ==> numerator.NumBigits() <= denominator.NumBigits()
    ensures IsDigits(data') && |data'| == |data| + 1
    ensures var r, d := numerator.Value(), denominator.Value();
            Number(data') == 10 * Number(data) + digit + Raise(r, d, digit, low, high)
  {
    hide Val, Shl, Positions.Value;
    var last := DigitChar(digit);
    if !low {
      last := DigitChar(digit + 1);
    } else if high {
      ValueTop(denominator.bigits, denominator.exp);
      AddCompareExact(numerator.bigits, numerator.exp, numerator.bigits, numerator.exp, denominator.bigits, denominator.exp);
      var result := AddCompare(numerator, numerator, denominator);
      if result > 0 || (result == 0 && digit % 2 != 0) { last := DigitChar(digit + 1); }
    }
    NumberAppend(data, last);
    data' := data + [last];
  }

  /** upper may be the same bigint as lower, and is then scaled only once. */
  method TimesTen(numerator: Bigint, lower: Bigint, upper: Bigint)
    requires numerator != lower && numerator != upper
    requires numerator.Normal() && lower.Normal() && upper.Normal()
    modifies numerator`bigits, lower`bigits, upper`bigits
    ensures numerator.Normal() && lower.Normal() && upper.Normal()
    ensures numerator.Value() == 10 * old(numerator.Value())
    ensures lower.Value() == 10 * old(lower.Value())
    ensures upper.Value() == 10 * old(upper.Value())
  {
    hide Val, Shl, Positions.Value;
    numerator.Multiply(10);
    lower.Multiply(10);
    if upper != lower { upper.Multiply(10); }
  }

  /** Before the first digit; a lower distance that is stored high enough never starts blind. */
  lemma Begin(t: Target, m: nat, ls: seq<Bigit>, le: nat)
    requires Proper(t) && Running(t, 0, 0, t.n) && TopNormal(ls) && Value(ls, le) == t.l && (le >= m || Room(t, m))
    ensures Going(t, Blind(t, m), 0, 0, t.n, t.l, t.u) && 10 * t.l >= Shl(1, m) && t.n < 10 * t.d
    ensures Blind(t, m) ==> Room(t, m)
  {
    hide Val, Shl, NoneUpTo, Progress;
    if le >= m { LowEndAtLeast(ls, le, m); }
    Start(t);
    PowZeroOne();
  }

  lemma GoingBound(t: Target, blind: bool, a: int, j: nat, num: int, lv: int, uv: int)
    requires Proper(t) && Running(t, 0, 0, t.n) && Going(t, blind, a, j, num, lv, uv)
    ensures 0 <= num < 10 * t.d
  {
    hide Pow, NoneUpTo;
    Scale(Pow(10, j), t.u);
    Scale(Pow(10, 0), t.u);
  }

  /** Only a blind start has a remainder that is taken for more than the lower distance. */
  lemma SeeingStep(t: Target, m: nat, first: bool, num: int, lv: int, digit: nat, r: int)
    requires Proper(t) && !Blind(t, m) && num == digit * t.d + r && 0 <= r < t.d
    requires if first then num == t.n && lv == t.l else lv >= Shl(1, m)
    ensures !WideRemainder(r, lv, m)
  {
    if first && r == 0 { DivModUnique(t.n, t.d, digit, r); }
  }

  /** A blind start takes neither candidate, and the next digit is a zero that is taken. */
  lemma BlindStep(t: Target, m: nat, a: int, j: nat, num: int, lv: int, uv: int, digit: nat, r: int, low: bool, high: bool)
    requires Proper(t) && Blind(t, m) && Room(t, m) && t.n < 10 * t.d && Going(t, true, a, j, num, lv, uv)
    requires num == digit * t.d + r && 0 <= r < t.d
    requires low <==> !WideRemainder(r, lv, m) && (r < lv || (r == lv && t.lowIn))
    requires high <==> r + uv > t.d || (r + uv == t.d && t.highIn)
    ensures digit <= 9 && r == 0 && !high && (low <==> j == 1) && (low ==> digit == 0)
    ensures !low ==> j == 0 && 0 < digit && digit * t.d == t.n && 10 * t.l < t.d
  {
    hide Shl;
    if j == 0 {
      DivModUnique(t.n, t.d, digit, r);
    } else {
      DivModUnique(0, t.d, digit, r);
    }
    if digit > 9 { MulMono(10, digit, t.d); }
  }

  lemma WholeInside(t: Target, q: int)
    requires Proper(t) && t.n == q * t.d
    ensures Inside(t, q, 0)
  {
    assert Pow(10, 0) == 1;
  }

  lemma FewerPlaces(t: Target, a: int, j: nat, c: int, i: nat)
    requires Inside(t, c, i) && i < j
    ensures !Shortest(t, a, j)
  {
    hide Inside;
  }

  lemma NotShortest(t: Target, a: int)
    requires Proper(t) && t.n % t.d == 0
    ensures !Shortest(t, a, 1)
  {
    hide Shortest, Inside;
    DivModIdentity(t.n, t.d);
    WholeInside(t, t.n / t.d);
    FewerPlaces(t, a, 1, t.n / t.d, 0);
  }

  /** What the loop has printed: the shortest form exactly when it did not start blind, else one zero too many. */
  ghost predicate Printed(t: Target, m: nat, a: int, j: nat)
    requires t.d > 0
  {
    (Shortest(t, a, j) <==> !Blind(t, m)) && (Blind(t, m) ==> j == 1 && a * t.d == 10 * t.n)
  }

  /** One round of the loop, whichever start it had. */
  lemma Round(t: Target, m: nat, a: int, j: nat, num: int, lv: int, uv: int, digit: nat, r: int, low: bool, high: bool)
    requires Proper(t) && t.n < 10 * t.d && (Blind(t, m) ==> Room(t, m)) && Going(t, Blind(t, m), a, j, num, lv, uv)
    requires if j == 0 then a == 0 && num == t.n && lv == t.l else lv >= Shl(1, m)
    requires num == digit * t.d + r && 0 <= r < t.d
    requires low <==> !WideRemainder(r, lv, m) && (r < lv || (r == lv && t.lowIn))
    requires high <==> r + uv > t.d || (r + uv == t.d && t.highIn)
    ensures digit <= 9 && (digit == 9 ==> !high)
    ensures !low && !high ==> lv < t.d && Going(t, Blind(t, m), 10 * a + digit, j + 1, 10 * r, 10 * lv, 10 * uv)
    ensures !low && !high && j == 0 && (t.n >= t.d || BelowHigh(t, 1, 0)) ==> digit > 0
    ensures low || high ==> Printed(t, m, 10 * a + digit + Raise(r, t.d, digit, low, high), j)
  {
    hide Shortest, Shl, Progress, AboveLow, BelowHigh;
    if Blind(t, m) {
      BlindStep(t, m, a, j, num, lv, uv, digit, r, low, high);
      if low {
        NotShortest(t, 10 * a);
        MulAssoc(10, a, t.d);
      }
    } else {
      SeeingStep(t, m, j == 0, num, lv, digit, r);
      Advance(t, a, j, num, lv, uv, digit, r, low, high);
    }
  }

  /**
   The loop that generates the shortest representation. It fails to do so exactly when it
   starts blind: then it prints the whole value as one digit with a zero behind.
   */
  method ShortestDigits(numerator: Bigint, denominator: Bigint, lower: Bigint, upper: Bigint, even: bool)
    returns (data: seq<char>)
    requires numerator != denominator && numerator != lower && numerator != upper
    requires denominator != lower && denominator != upper
    requires numerator.Normal() && denominator.Positive() && lower.Normal() && upper.Normal()
    requires var t := Seen(numerator, denominator, lower, upper, even);
             && Proper(t) && Running(t, 0, 0, t.n) && (t.n >= t.d || BelowHigh(t, 1, 0))
             && var m := Min(numerator.exp, denominator.exp); lower.exp >= m || Room(t, m)
    requires numerator.exp <= denominator.exp || numerator.Value() != denominator.Value()
    modifies numerator, lower, upper
    ensures |data| > 0 && IsDigits(data)
    ensures Printed(old(Seen(numerator, denominator, lower, upper, even)), old(Min(numerator.exp, denominator.exp)),
                    Number(data), |data| - 1)
  {
    hide Val, Shl, Positions.Value, AboveLow, BelowHigh, Shortest, Pow, LowEndSeen, Running, Printed, Going, WideRemainder, Blind, Room;
    ghost var t := Seen(numerator, denominator, lower, upper, even);
    ghost var exp0, m := numerator.exp, Min(numerator.exp, denominator.exp);
    Begin(t, m, lower.bigits, lower.exp);
    data := [];
    while true
      invariant numerator.Normal() && lower.Normal() && upper.Normal()
      invariant IsDigits(data) && denominator.Value() == t.d
      invariant Going(t, Blind(t, m), Number(data), |data|, numerator.Value(), lower.Value(), upper.Value())
      invariant lower.Value() > 0 && upper.Value() > 0
      invariant |data| == 0 ==> numerator.exp == exp0 && numerator.Value() == t.n && lower.Value() == t.l
      invariant |data| > 0 ==> numerator.exp == m && lower.Value() >= Shl(1, m)
      invariant lower.exp == old(lower.exp)
      invariant numerator.Value() == 0 ==> numerator.NumBigits() <= denominator.NumBigits()
      decreases t.d - lower.Value()
    {
      ghost var num := numerator.Value();
      GoingBound(t, Blind(t, m), Number(data), |data|, num, lower.Value(), upper.Value());
      var digit, low, high := Step(numerator, denominator, lower, upper, even);
      Round(t, m, Number(data), |data|, num, lower.Value(), upper.Value(), digit, numerator.Value(), low, high);
      if low || high {
        data := LastDigit(data, digit, low, high, numerator, denominator);
        return;
      }
      NumberAppend(data, DigitChar(digit));
      data := data + [DigitChar(digit)];
      TimesTen(numerator, lower, upper);
      if numerator.Value() == 0 { ZeroIsShort(numerator.bigits, numerator.exp); }
    }
  }

  /** The carry that a raised '9' sends through the buffer, and where it leaves at the front. */
  method PropagateCarry(digits: seq<char>, fixed: bool, exp10: int) returns (buf: seq<char>, exp10': int)
    requires |digits| > 0 && IsDigits(digits[..|digits| - 1]) && Numeral(digits[|digits| - 1]) == 10
    ensures IsDigits(buf) && exp10 <= exp10' <= exp10 + 1 && (fixed ==> exp10' == exp10)
    ensures Number(buf) * Pow(10, exp10' - exp10) == Number(digits)
    ensures |buf| == |digits| || (fixed && |buf| == |digits| + 1 && Number(digits) == Pow(10, |digits|))
  {
    hide Number, Pow;
    buf := digits;
    var i := |digits| - 1;
    assert forall q :: 0 <= q < |digits| - 1 ==> digits[q] == digits[..|digits| - 1][q];
    while i > 0 && Numeral(buf[i]) == 10
      invariant 0 <= i < |buf| == |digits| && Number(buf) == Number(digits)
      invariant forall q :: 0 <= q < i ==> 0 <= Numeral(buf[q]) <= 9
      invariant 0 <= Numeral(buf[i]) <= 10
      invariant forall q :: i < q < |buf| ==> buf[q] == '0'
    {
      CarryOne(buf, i);
      buf := buf[i := '0'][i - 1 := DigitChar(Numeral(buf[i - 1]) + 1)];
      i := i - 1;
    }
    exp10' := exp10;
    if Numeral(buf[0]) == 10 {
      NumberZeros(buf);
      TenIsOne(|buf|);
      buf := buf[0 := '1'];
      NumberZeros(buf);
      if fixed {
        NumberAppend(buf, '0');
        buf := buf + ['0'];
      } else {
        exp10' := exp10 + 1;
      }
    }
    PowZeroOne();
  }

  lemma PowZeroOne()
    ensures Pow(10, 0) == 1 && Pow(10, 1) == 10
  {
  }

  lemma TenIsOne(n: nat)
    requires n > 0
    ensures 10 * Pow(10, n - 1) == Pow(10, n)
  {
  }

  lemma CarryOne(s: seq<char>, i: nat)
    requires 0 < i < |s| && Numeral(s[i]) == 10 && 0 <= Numeral(s[i - 1]) <= 9
    ensures Number(s[i := '0'][i - 1 := DigitChar(Numeral(s[i - 1]) + 1)]) == Number(s)
  {
    hide Number;
    NumberUpdate(s, i, '0');
    NumberUpdate(s[i := '0'], i - 1, DigitChar(Numeral(s[i - 1]) + 1));
    assert Pow(10, |s| - i) == 10 * Pow(10, |s| - 1 - i);
  }

  /** n never meets d on its way through the tenfold multiples: n / d is no power of ten below 10. */
  ghost predicate NeverEqual(n: int, d: int)
  {
    forall i: nat :: Pow(10, i) * n != d
  }

  /** A power of ten stored with a larger exponent than the denominator would divide to zero. */
  ghost predicate Divisible(numerator: Bigint, denominator: Bigint)
    reads numerator, denominator
  {
    numerator.exp <= denominator.exp || NeverEqual(numerator.Value(), denominator.Value())
  }

  /** The loop for all digits but the last of a given number of them. */
  method LeadingDigits(numerator: Bigint, denominator: Bigint, count: nat) returns (buf: seq<char>)
    requires numerator != denominator && numerator.Normal() && denominator.Positive()
    requires 0 < numerator.Value() < 10 * denominator.Value() && Divisible(numerator, denominator)
    modifies numerator
    ensures |buf| == count && IsDigits(buf) && numerator.Normal()
    ensures numerator.Value() == Pow(10, count) * old(numerator.Value()) - 10 * (Number(buf) * denominator.Value())
    ensures 0 <= numerator.Value() < 10 * denominator.Value()
    ensures numerator.Value() == 0 ==> numerator.NumBigits() <= denominator.NumBigits()
    ensures numerator.exp <= denominator.exp || numerator.Value() != denominator.Value()
  {
    hide Val, Shl, Positions.Value, Number, Pow;
    ghost var n, d := numerator.Value(), denominator.Value();
    buf := [];
    NothingProduced(n, d);
    while |buf| < count
      invariant |buf| <= count && IsDigits(buf) && numerator.Normal()
      invariant numerator.Value() == Pow(10, |buf|) * n - 10 * (Number(buf) * d)
      invariant 0 <= numerator.Value() < 10 * d
      invariant numerator.Value() == 0 ==> numerator.NumBigits() <= denominator.NumBigits()
      invariant numerator.exp <= denominator.exp || (Number(buf) == 0 && numerator.exp == old(numerator.exp))
    {
      ghost var num := numerator.Value();
      var digit := numerator.DivmodAssign(denominator);
      QuotientIsDigit(num, digit, d, numerator.Value());
      NextDigit(Number(buf), Pow(10, |buf|), n, d, num, digit, numerator.Value());
      NumberAppend(buf, DigitChar(digit));
      TenIsOne(|buf| + 1);
      buf := buf + [DigitChar(digit)];
      numerator.Multiply(10);
      if numerator.Value() == 0 { ZeroIsShort(numerator.bigits, numerator.exp); }
    }
  }

  lemma NothingProduced(n: int, d: int)
    ensures Number([]) == 0 && n == Pow(10, 0) * n - 10 * (Number([]) * d)
  {
  }

  /** num_digits > 0: exactly that many digits, the last one rounded half to even. */
  method FixedDigits(numerator: Bigint, denominator: Bigint, numDigits: nat, fixed: bool, exp10: int)
    returns (buf: seq<char>, exp10': int)
    requires numDigits > 0
    requires numerator != denominator && numerator.Normal() && denominator.Positive()
    requires 0 < numerator.Value() < 10 * denominator.Value() && Divisible(numerator, denominator)
    modifies numerator
    ensures IsDigits(buf) && exp10 - (numDigits - 1) <= exp10' <= exp10 - (numDigits - 1) + 1
    ensures NearestEven(Number(buf) * Pow(10, exp10' - (exp10 - (numDigits - 1))),
                        Pow(10, numDigits - 1) * old(numerator.Value()), denominator.Value())
    ensures fixed ==> exp10' == exp10 - (numDigits - 1)
    ensures |buf| == numDigits || (fixed && |buf| == numDigits + 1 && Number(buf) == Pow(10, numDigits))
  {
    hide Val, Shl, Positions.Value, Number, Pow, NearestEven;
    ghost var n, d := numerator.Value(), denominator.Value();
    ValueTop(denominator.bigits, denominator.exp);
    exp10' := exp10 - (numDigits - 1);
    buf := LeadingDigits(numerator, denominator, numDigits - 1);
    ghost var a, num := Number(buf), numerator.Value();
    var digit := numerator.DivmodAssign(denominator);
    ghost var r := numerator.Value();
    QuotientIsDigit(num, digit, d, r);
    NextDigit(a, Pow(10, numDigits - 1), n, d, num, digit, r);
    RoundHalfEven(a, digit, Pow(10, numDigits - 1) * n, d, r);
    AddCompareExact(numerator.bigits, numerator.exp, numerator.bigits, numerator.exp, denominator.bigits, denominator.exp);
    var result := AddCompare(numerator, numerator, denominator);
    if result > 0 || (result == 0 && digit % 2 != 0) {
      digit := digit + 1;
    }
    NumberAppend(buf, DigitChar(digit));
    PowZeroOne();
    assert (buf + [DigitChar(digit)])[..|buf|] == buf;
    buf := buf + [DigitChar(digit)];
    if digit == 10 {
      buf, exp10' := PropagateCarry(buf, fixed, exp10');
    }
  }

  /** num_digits <= 0: a single '1' or '0', whatever num_digits is. */
  method NoDigits(numerator: Bigint, denominator: Bigint, numDigits: int, exp10: int)
    returns (buf: seq<char>, exp10': int)
    requires numDigits <= 0
    requires numerator != denominator && numerator.Normal() && denominator.Positive()
    requires 0 < numerator.Value() < 10 * denominator.Value()
    modifies denominator
    ensures exp10' == exp10 - (numDigits - 1)
    ensures buf == [if 2 * numerator.Value() > 10 * old(denominator.Value()) then '1' else '0']
  {
    hide Val, Shl, Positions.Value, Number, Pow;
    ValueTop(denominator.bigits, denominator.exp);
    exp10' := exp10 - (numDigits - 1);
    denominator.Multiply(10);
    AddCompareExact(numerator.bigits, numerator.exp, numerator.bigits, numerator.exp, denominator.bigits, denominator.exp);
    var order := AddCompare(numerator, numerator, denominator);
    buf := [if order > 0 then '1' else '0'];
  }

  /**
   The single digit is the correctly rounded value exactly when no digit at all was asked
   for, or the value is at most half a unit of the highest place: below that place the code
   still answers '1'.
   */
  lemma NoDigitsExact(n: int, d: int, numDigits: int)
    requires numDigits <= 0 && 0 < n < 10 * d
    ensures NearestEven(if 2 * n > 10 * d then 1 else 0, n, Pow(10, 1 - numDigits) * d) <==> numDigits == 0 || 2 * n <= 10 * d
  {
    PowZeroOne();
    if numDigits < 0 {
      var w := Pow(10, 1 - numDigits);
      PowMono(10, 2, 1 - numDigits);
      assert Pow(10, 2) == 100;
      MulMono(100, w, d);
    }
  }

  /** The value 6 with no digit before the place of the hundreds: printed as 1, which stands for 100. */
  lemma NoDigitsExample()
    ensures 2 * 6 > 10 * 1 && !NearestEven(1, 6, Pow(10, 1 - -1) * 1)
  {
    assert Pow(10, 2) == 100;
  }
}
