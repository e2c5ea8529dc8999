/** The whole of format_dragon: scaling, the fixup of the exponent, and the digit loops. */
module FormatDragon {
  import opened Powers
  import opened Bigits
  import opened Positions
  import opened Comparison
  import opened BigintModel
  import opened Decimal
  import opened SteeleWhite
  import opened Dragon

  /** What format_dragon is asked to print: f * 2^e, with an estimate of its decimal exponent. */
  datatype Request = Request(f: nat, e: int, exp10: int, predecessorCloser: bool)
  {
    function Shift(): nat { if predecessorCloser then 2 else 1 }

    function Even(): bool { f % 2 == 0 }

    predicate Valid()
    {
      && 0 < f < 0x1_0000_0000_0000_0000_0000_0000_0000_0000
      && -0x4000_0000 < exp10 < 0x4000_0000
      && (e >= 0 ==> exp10 >= 0)
    }

    function Lower(): nat
      requires Valid()
    {
      if e >= 0 then Pow(2, e) else if exp10 < 0 then Pow(10, -exp10) else 1
    }

    function Upper(): nat
      requires Valid()
    {
      if predecessorCloser then 2 * Lower() else Lower()
    }

    function Numerator(): nat
      requires Valid()
    {
      Pow(2, Shift()) * (f * Lower())
    }

    function Denominator(): nat
      requires Valid()
    {
      Pow(2, if e >= 0 then Shift() else Shift() - e) * (if exp10 < 0 then 1 else Pow(10, exp10))
    }

    /** How far each bigint of the setup has been moved into its exponent. */
    function NumeratorExp(): nat
      requires Valid()
    {
      if e >= 0 then (e + Shift()) / 32 else if exp10 < 0 then (-exp10) / 32 else 0
    }

    function DenominatorExp(): nat
      requires Valid()
    {
      if e >= 0 then exp10 / 32
      else if exp10 < 0 then (Shift() - e) / 32
      else exp10 / 32 + (Shift() - e) / 32
    }

    function LowerExp(): nat
      requires Valid()
    {
      if e >= 0 then e / 32 else if exp10 < 0 then (-exp10) / 32 else 0
    }

    /** How far the numerator is moved once it has been divided. */
    function Unit(): nat
      requires Valid()
    {
      Min(NumeratorExp(), DenominatorExp())
    }
  }

  /** The fraction denotes the value: f * 2^e == numerator / denominator * 10^exp10, cross-multiplied. */
  lemma SetupExact(q: Request)
    requires q.Valid()
    ensures q.e >= 0 ==> (q.f * Pow(2, q.e)) * q.Denominator() == q.Numerator() * Pow(10, q.exp10)
    ensures q.e < 0 && q.exp10 >= 0 ==> q.f * q.Denominator() == q.Numerator() * (Pow(2, -q.e) * Pow(10, q.exp10))
    ensures q.e < 0 && q.exp10 < 0 ==> (q.f * Pow(10, -q.exp10)) * q.Denominator() == q.Numerator() * Pow(2, -q.e)
  {
    hide Pow;
    var s := Pow(2, q.Shift());
    if q.e >= 0 {
      Regroup(q.f * Pow(2, q.e), s, Pow(10, q.exp10));
    } else {
      var two := Pow(2, -q.e);
      PowAdd(2, q.Shift(), -q.e);
      assert Pow(2, q.Shift() - q.e) == s * two;
      if q.exp10 >= 0 {
        MixedExact(q.f, s, two, Pow(10, q.exp10));
      } else {
        Regroup(q.f * Pow(10, -q.exp10), s, two);
      }
    }
  }

  lemma MixedExact(f: int, s: int, two: int, ten: int)
    ensures f * ((s * two) * ten) == (s * f) * (two * ten)
  {
    MulAssoc(s, two, ten);
    Regroup(f, s, two * ten);
  }

  lemma Regroup(x: int, a: int, b: int)
    ensures x * (a * b) == (a * x) * b
  {
    MulAssoc(x, a, b);
  }

  /** The three ways to scale the fraction to integers. */
  method Setup(q: Request) returns (numerator: Bigint, denominator: Bigint, lower: Bigint, upper: Bigint)
    requires q.Valid()
    ensures fresh(numerator) && fresh(denominator) && fresh(lower) && fresh(upper)
    ensures numerator != denominator && numerator != lower && numerator != upper
    ensures denominator != lower && denominator != upper && (upper == lower <==> !q.predecessorCloser)
    ensures numerator.Normal() && denominator.Normal() && lower.Normal() && upper.Normal()
    ensures numerator.Value() == q.Numerator() && numerator.exp == q.NumeratorExp()
    ensures denominator.Value() == q.Denominator() && denominator.exp == q.DenominatorExp()
    ensures lower.Value() == q.Lower() && lower.exp == q.LowerExp() && upper.Value() == q.Upper()
  {
    hide Val, Shl, Positions.Value, Pow;
    numerator := new Bigint();
    denominator := new Bigint();
    lower := new Bigint();
    upper := lower;
    if q.predecessorCloser { upper := new Bigint(); }
    if q.e >= 0 {
      ScaleIntegers(q, numerator, denominator, lower, upper);
    } else if q.exp10 < 0 {
      ScaleSmall(q, numerator, denominator, lower, upper);
    } else {
      ScaleMixed(q, numerator, denominator, lower, upper);
    }
  }

  /** value.e >= 0. */
  method ScaleIntegers(q: Request, numerator: Bigint, denominator: Bigint, lower: Bigint, upper: Bigint)
    requires q.Valid() && q.e >= 0
    requires numerator != denominator && numerator != lower && numerator != upper
    requires denominator != lower && denominator != upper && (upper == lower <==> !q.predecessorCloser)
    modifies numerator, denominator, lower, upper
    ensures numerator.Normal() && denominator.Normal() && lower.Normal() && upper.Normal()
    ensures numerator.Value() == q.Numerator() && numerator.exp == q.NumeratorExp()
    ensures denominator.Value() == q.Denominator() && denominator.exp == q.DenominatorExp()
    ensures lower.Value() == q.Lower() && lower.exp == q.LowerExp() && upper.Value() == q.Upper()
  {
    hide Val, Shl, Positions.Value, Pow;
    PowAdd(2, q.Shift(), q.e);
    MulExchange(Pow(2, q.Shift()), Pow(2, q.e), q.f);
    numerator.Assign(q.f);
    numerator.ShiftLeft(q.e + q.Shift());
    lower.Assign(1);
    lower.ShiftLeft(q.e);
    if q.predecessorCloser {
      TwoMore(q.e);
      upper.Assign(1);
      upper.ShiftLeft(q.e + 1);
    }
    denominator.AssignPow10(q.exp10);
    denominator.ShiftLeft(q.Shift());
  }

  lemma TwoMore(e: nat)
    ensures Pow(2, e + 1) == 2 * Pow(2, e)
  {
  }

  /** value.e < 0 and exp10 < 0. */
  method ScaleSmall(q: Request, numerator: Bigint, denominator: Bigint, lower: Bigint, upper: Bigint)
    requires q.Valid() && q.e < 0 && q.exp10 < 0
    requires numerator != denominator && numerator != lower && numerator != upper
    requires denominator != lower && denominator != upper && (upper == lower <==> !q.predecessorCloser)
    modifies numerator, denominator, lower, upper
    ensures numerator.Normal() && denominator.Normal() && lower.Normal() && upper.Normal()
    ensures numerator.Value() == q.Numerator() && numerator.exp == q.NumeratorExp()
    ensures denominator.Value() == q.Denominator() && denominator.exp == q.DenominatorExp()
    ensures lower.Value() == q.Lower() && lower.exp == q.LowerExp() && upper.Value() == q.Upper()
  {
    hide Val, Shl, Positions.Value, Pow;
    numerator.AssignPow10(-q.exp10);
    lower.AssignFrom(numerator);
    if q.predecessorCloser {
      TwoMore(0);
      PowOne(2);
      upper.AssignFrom(numerator);
      upper.ShiftLeft(1);
    }
    numerator.MultiplyWide(q.f, B * B);
    numerator.ShiftLeft(q.Shift());
    denominator.Assign(1);
    denominator.ShiftLeft(q.Shift() - q.e);
  }

  lemma PowOne(b: nat)
    ensures Pow(b, 1) == b && Pow(b, 0) == 1
  {
  }

  /** value.e < 0 and exp10 >= 0. */
  method ScaleMixed(q: Request, numerator: Bigint, denominator: Bigint, lower: Bigint, upper: Bigint)
    requires q.Valid() && q.e < 0 && q.exp10 >= 0
    requires numerator != denominator && numerator != lower && numerator != upper
    requires denominator != lower && denominator != upper && (upper == lower <==> !q.predecessorCloser)
    modifies numerator, denominator, lower, upper
    ensures numerator.Normal() && denominator.Normal() && lower.Normal() && upper.Normal()
    ensures numerator.Value() == q.Numerator() && numerator.exp == q.NumeratorExp()
    ensures denominator.Value() == q.Denominator() && denominator.exp == q.DenominatorExp()
    ensures lower.Value() == q.Lower() && lower.exp == q.LowerExp() && upper.Value() == q.Upper()
  {
    hide Val, Shl, Positions.Value, Pow;
    numerator.Assign(q.f);
    numerator.ShiftLeft(q.Shift());
    denominator.AssignPow10(q.exp10);
    denominator.ShiftLeft(q.Shift() - q.e);
    lower.Assign(1);
    if q.predecessorCloser { upper.Assign(2); }
  }

  const INT_MAX := 0x7fff_ffff

  /** value + upper has reached 10^exp10, the end counting only if the significand is even. */
  predicate Reaches(n: int, u: int, d: int, even: bool)
  {
    n + u > d || (n + u == d && even)
  }

  /**
   What the shortest form asks of the estimate of the exponent: the interval stays below
   10^(exp10+1); with the fixup exp10 may be one too large, without it it is not. The counted
   digits need no more than a value below 10^(exp10+1).
   */
  predicate EstimateOk(q: Request, fixup: bool)
    requires q.Valid()
  {
    var n, d, u := q.Numerator(), q.Denominator(), q.Upper();
    && !Reaches(n, u, 10 * d, q.Even())
    && if fixup then 10 * n >= d else n >= d || Reaches(n, u, d, q.Even())
  }

  /** The value is no power of ten, or the numerator is not moved further than the denominator. */
  ghost predicate Splittable(q: Request)
    requires q.Valid()
  {
    q.NumeratorExp() <= q.DenominatorExp() || NeverEqual(q.Numerator(), q.Denominator())
  }

  predicate FixesUp(q: Request, fixup: bool)
    requires q.Valid()
  {
    fixup && !Reaches(q.Numerator(), q.Upper(), q.Denominator(), q.Even())
  }

  /** The rounding interval of the value, after the fixup: its ends belong to it if the significand is even. */
  function Interval(q: Request, fixup: bool): Target
    requires q.Valid()
  {
    var k := if FixesUp(q, fixup) then 10 else 1;
    Target(k * q.Numerator(), q.Denominator(), k * q.Lower(), k * q.Upper(), q.Even(), q.Even())
  }

  /** The interval that the shortest loop works on. */
  function SeenInterval(q: Request, fixup: bool): Target
    requires q.Valid()
  {
    Interval(q, fixup).(lowIn := LowEndSeen(q.LowerExp(), q.Unit(), q.Even()))
  }

  function Exponent(q: Request, fixup: bool): int
    requires q.Valid()
  {
    if FixesUp(q, fixup) then q.exp10 - 1 else q.exp10
  }

  /** buf and exp10 denote t.n / t.d * 10^e rounded to w digits, or the single digit for w <= 0. */
  predicate Rounded(t: Target, e: int, w: int, fixed: bool, buf: seq<char>, exp10: int)
  {
    var place := e - (w - 1);
    if w <= 0 then
      exp10 == place && buf == [if 2 * t.n > 10 * t.d then '1' else '0']
    else
      && IsDigits(buf) && (|buf| == w || (fixed && |buf| == w + 1 && Number(buf) == Pow(10, w)))
      && place <= exp10 <= place + 1 && (fixed ==> exp10 == place)
      && NearestEven(Number(buf) * Pow(10, exp10 - place), Pow(10, w - 1) * t.n, t.d)
  }

  /** The value f * 2^e as a fraction. */
  function Top(q: Request): nat { if q.e >= 0 then q.f * Pow(2, q.e) else q.f }

  function Bottom(q: Request): nat { if q.e >= 0 then 1 else Pow(2, -q.e) }

  /** a * 10^place is f * 2^e rounded to a multiple of 10^place, to nearest, ties to even. */
  predicate RoundedAt(a: int, place: int, q: Request)
  {
    if place <= 0 then NearestEven(a, Pow(10, -place) * Top(q), Bottom(q)) else NearestEven(a, Top(q), Pow(10, place) * Bottom(q))
  }

  /** What the fraction and the value have to do with each other, free of signs. */
  lemma ScaledRatio(k: int, w: int, n: int, bottom: int, top: int, d: int, z: int, y: int, pa: int, pb: int)
    requires (top * pb) * d == (n * bottom) * pa && (k * w) * (z * pb) == y * pa && pb > 0
    ensures (w * (k * n)) * (bottom * z) == (y * top) * d
  {
    var left, right := (w * (k * n)) * (bottom * z), (y * top) * d;
    assert pb * left == ((k * w) * (z * pb)) * (n * bottom);
    assert (y * pa) * (n * bottom) == y * ((n * bottom) * pa);
    assert y * ((top * pb) * d) == pb * right;
    OnlyIfBelow(pb, left, right);
  }

  /** The powers of ten on both sides of the ratio. */
  lemma PowersMatch(k: int, exp10: int, e: int, w: nat)
    requires (k == 1 && e == exp10) || (k == 10 && e == exp10 - 1)
    ensures var place := e - w;
            (k * Pow(10, w)) * (Pow(10, Up(place)) * Pow(10, Up(-exp10))) == Pow(10, Up(-place)) * Pow(10, Up(exp10))
  {
    var place := e - w;
    PowAdd(10, Up(place), Up(-exp10));
    PowAdd(10, Up(-place), Up(exp10));
    PowAdd(10, w, Up(place) + Up(-exp10));
    MulAssoc(k, Pow(10, w), Pow(10, Up(place)) * Pow(10, Up(-exp10)));
    var sum := w + Up(place) + Up(-exp10);
    assert Pow(10, sum + 1) == 10 * Pow(10, sum);
  }

  function Up(x: int): nat { if x > 0 then x else 0 }

  lemma CountedRatio(q: Request, fixup: bool, w: nat)
    requires q.Valid()
    ensures var t, place := Interval(q, fixup), Exponent(q, fixup) - w;
            (Pow(10, w) * t.n) * (Bottom(q) * Pow(10, Up(place))) == (Pow(10, Up(-place)) * Top(q)) * t.d
  {
    hide Pow, Request.Numerator, Request.Denominator, FixesUp;
    var top, bottom := Top(q), Bottom(q);
    var n, d, pa, pb := q.Numerator(), q.Denominator(), Pow(10, Up(q.exp10)), Pow(10, Up(-q.exp10));
    SetupExact(q);
    PowZeroOne();
    ValueIs(q, top, bottom, n, d, pa, pb);
    var k := if FixesUp(q, fixup) then 10 else 1;
    PowersMatch(k, q.exp10, Exponent(q, fixup), w);
    var place := Exponent(q, fixup) - w;
    ScaledRatio(k, Pow(10, w), n, bottom, top, d, Pow(10, Up(place)), Pow(10, Up(-place)), pa, pb);
  }

  lemma ValueIs(q: Request, top: int, bottom: int, n: int, d: int, pa: int, pb: int)
    requires q.e >= 0 ==> q.exp10 >= 0
    requires Pow(10, 0) == 1 && pa == Pow(10, Up(q.exp10)) && pb == Pow(10, Up(-q.exp10))
    requires q.e >= 0 ==> top == q.f * Pow(2, q.e) && bottom == 1 && top * d == n * Pow(10, q.exp10)
    requires q.e < 0 ==> top == q.f && bottom == Pow(2, -q.e)
    requires q.e < 0 && q.exp10 >= 0 ==> q.f * d == n * (Pow(2, -q.e) * Pow(10, q.exp10))
    requires q.e < 0 && q.exp10 < 0 ==> (q.f * Pow(10, -q.exp10)) * d == n * Pow(2, -q.e)
    ensures (top * pb) * d == (n * bottom) * pa
  {
    hide Pow;
    MulAssoc(n, bottom, pa);
  }

  lemma CountedFromPoint(q: Request, fixup: bool, digits: int, fixed: bool, buf: seq<char>, exp10: int)
    requires q.Valid() && digits > 0 && Rounded(Interval(q, fixup), Exponent(q, fixup), digits, fixed, buf, exp10)
    ensures var place := Exponent(q, fixup) - (digits - 1);
            && IsDigits(buf) && (|buf| == digits || (fixed && |buf| == digits + 1 && Number(buf) == Pow(10, digits)))
            && place <= exp10 <= place + 1 && (fixed ==> exp10 == place)
            && RoundedAt(Number(buf) * Pow(10, exp10 - place), place, q)
            && (fixed ==> RoundedAt(Number(buf), place, q))
  {
    hide Pow, Request.Numerator, Request.Denominator, FixesUp, NearestEven, Interval, Number, IsDigits;
    var t, place := Interval(q, fixup), Exponent(q, fixup) - (digits - 1);
    CountedRatio(q, fixup, digits - 1);
    IntervalPositive(q, fixup);
    PowZeroOne();
    RatioRounds(q, Number(buf) * Pow(10, exp10 - place), place, Pow(10, digits - 1) * t.n, t.d);
    if fixed { assert exp10 == place && Pow(10, 0) == 1; }
  }

  lemma RatioRounds(q: Request, a: int, place: int, x: int, d: int)
    requires d > 0 && NearestEven(a, x, d)
    requires x * (Bottom(q) * Pow(10, Up(place))) == (Pow(10, Up(-place)) * Top(q)) * d
    ensures RoundedAt(a, place, q)
  {
    hide Pow, NearestEven;
    PowZeroOne();
    var top, bottom := Top(q), Bottom(q);
    var p, m := Pow(10, Up(place)), Pow(10, Up(-place));
    MulMono(1, p, bottom);
    SameRatio(a, x, d, m * top, bottom * p);
  }

  lemma IntervalPositive(q: Request, fixup: bool)
    requires q.Valid()
    ensures Interval(q, fixup).d > 0
  {
    SetupPositive(q);
  }

  lemma NoneCounted(q: Request, fixup: bool, digits: int, fixed: bool, buf: seq<char>, exp10: int)
    requires q.Valid() && digits <= 0 && Rounded(Interval(q, fixup), Exponent(q, fixup), digits, fixed, buf, exp10)
    ensures exp10 == Exponent(q, fixup) - (digits - 1)
  {
  }

  method FormatDragon(q: Request, fixup: bool, fixed: bool, numDigits: int)
    returns (ok: bool, buf: seq<char>, exp10: int)
    requires q.Valid() && Splittable(q) && q.Numerator() < 10 * q.Denominator()
    requires numDigits < 0 ==> EstimateOk(q, fixup)
    ensures !ok <==> fixup && fixed && Exponent(q, fixup) + 1 > 0 && numDigits > INT_MAX - (Exponent(q, fixup) + 1)
    ensures ok && numDigits < 0 ==> IsDigits(buf) && |buf| > 0 && exp10 == Exponent(q, fixup) - (|buf| - 1)
    ensures ok && numDigits < 0 ==> Printed(SeenInterval(q, fixup), q.Unit(), Number(buf), |buf| - 1)
    ensures ok && numDigits >= 0 && !(fixup && fixed) ==>
              Rounded(Interval(q, fixup), Exponent(q, fixup), numDigits, fixed, buf, exp10)
    ensures ok && numDigits > 0 && !(fixup && fixed) ==>
              var place := Exponent(q, fixup) - (numDigits - 1);
              && IsDigits(buf) && (|buf| == numDigits || (fixed && |buf| == numDigits + 1 && Number(buf) == Pow(10, numDigits)))
              && place <= exp10 <= place + 1 && (fixed ==> exp10 == place)
              && RoundedAt(Number(buf) * Pow(10, exp10 - place), place, q)
    ensures ok && numDigits >= 0 && fixup && fixed ==> exp10 == -numDigits
    ensures ok && numDigits >= 0 && fixup && fixed && Exponent(q, fixup) + 1 + numDigits > 0 ==>
              IsDigits(buf) && RoundedAt(Number(buf), -numDigits, q)
    ensures ok && numDigits >= 0 && fixup && fixed && Exponent(q, fixup) + 1 + numDigits <= 0 ==>
              Rounded(Interval(q, fixup), Exponent(q, fixup), Exponent(q, fixup) + 1 + numDigits, fixed, buf, exp10)
  {
    var numerator, denominator, lower, upper;
    numerator, denominator, lower, upper, exp10 := Prepare(q, fixup, numDigits < 0);
    Divided(q, fixup);
    if numDigits < 0 { Ready(q, fixup); }
    hide Request.Numerator, Request.Denominator, Request.Lower, Request.Upper;
    hide Request.NumeratorExp, Request.DenominatorExp, Request.LowerExp, EstimateOk, Splittable, NeverEqual, Reaches, Running, Proper;
    hide Val, Shl, Positions.Value, Pow, Shortest, Rounded;
    var digits := numDigits;
    if fixup && fixed {
      if exp10 + 1 > 0 && digits > INT_MAX - (exp10 + 1) { return false, [], exp10; }
      digits := digits + exp10 + 1;
    }
    ok := true;
    if numDigits < 0 {
      buf := ShortestDigits(numerator, denominator, lower, upper, q.f % 2 == 0);
      exp10 := exp10 - (|buf| - 1);
    } else {
      buf, exp10 := CountedDigits(Interval(q, fixup), numerator, denominator, digits, fixed, exp10);
      if digits > 0 { CountedFromPoint(q, fixup, digits, fixed, buf, exp10); } else { NoneCounted(q, fixup, digits, fixed, buf, exp10); }
    }
  }

  method CountedDigits(ghost t: Target, numerator: Bigint, denominator: Bigint, digits: int, fixed: bool, exp: int)
    returns (buf: seq<char>, exp10: int)
    requires numerator != denominator && numerator.Normal() && denominator.Positive()
    requires numerator.Value() == t.n && denominator.Value() == t.d && 0 < t.n < 10 * t.d
    requires Divisible(numerator, denominator)
    modifies numerator, denominator
    ensures Rounded(t, exp, digits, fixed, buf, exp10)
  {
    hide Val, Shl, Positions.Value, Pow, NearestEven, Number;
    if digits <= 0 {
      buf, exp10 := NoDigits(numerator, denominator, digits, exp);
    } else {
      buf, exp10 := FixedDigits(numerator, denominator, digits, fixed, exp);
    }
  }

  /** The bigints as they stand when the digits are about to be generated. */
  method Prepare(q: Request, fixup: bool, shortest: bool)
    returns (numerator: Bigint, denominator: Bigint, lower: Bigint, upper: Bigint, exp10: int)
    requires q.Valid()
    ensures fresh(numerator) && fresh(denominator) && fresh(lower) && fresh(upper)
    ensures numerator != denominator && numerator != lower && numerator != upper
    ensures denominator != lower && denominator != upper
    ensures numerator.Normal() && denominator.Positive() && lower.Normal() && upper.Normal()
    ensures exp10 == Exponent(q, fixup)
    ensures var t := SeenInterval(q, fixup);
            && numerator.Value() == t.n && denominator.Value() == t.d
            && (shortest ==> Seen(numerator, denominator, lower, upper, q.Even()) == t)
    ensures numerator.exp == q.NumeratorExp() && denominator.exp == q.DenominatorExp() && lower.exp == q.LowerExp()
  {
    hide Val, Shl, Positions.Value, Pow;
    numerator, denominator, lower, upper := Setup(q);
    SetupPositive(q);
    Extent(denominator.bigits, denominator.exp);
    exp10 := q.exp10;
    if fixup {
      hide Request.Numerator, Request.Denominator, Request.Lower, Request.Upper;
      var applied := Fixup(numerator, denominator, lower, upper, q.f % 2 == 0, shortest);
      if applied { exp10 := exp10 - 1; }
    }
  }

  /** The value is below ten denominators, and never meets one that it cannot be divided by. */
  lemma Divided(q: Request, fixup: bool)
    requires q.Valid() && Splittable(q) && q.Numerator() < 10 * q.Denominator()
    ensures var t := Interval(q, fixup);
            0 < t.n < 10 * t.d && (q.NumeratorExp() <= q.DenominatorExp() || (NeverEqual(t.n, t.d) && t.n != t.d))
  {
    SetupPositive(q);
    PowZeroOne();
    hide Pow, Request.Numerator, Request.Denominator, Request.Lower, Request.Upper;
    var n, d := q.Numerator(), q.Denominator();
    if q.NumeratorExp() > q.DenominatorExp() {
      assert Pow(10, 0) * n != d && Pow(10, 1) * n != d;
      assert forall i: nat :: Pow(10, i + 1) == 10 * Pow(10, i) by { TenTimes(); }
      forall i: nat ensures Pow(10, i) * (10 * n) != d {
        assert Pow(10, i + 1) * n != d;
        MulExchange(Pow(10, i), 10, n);
        MulAssoc(10, Pow(10, i), n);
      }
    }
  }

  /** The estimate is what the shortest loop needs to start. */
  lemma Ready(q: Request, fixup: bool)
    requires q.Valid() && EstimateOk(q, fixup)
    ensures var t := SeenInterval(q, fixup);
            && Proper(t) && Running(t, 0, 0, t.n) && (t.n >= t.d || BelowHigh(t, 1, 0))
            && (q.LowerExp() >= q.Unit() || Room(t, q.Unit()))
  {
    SetupPositive(q);
    EnoughRoom(q, fixup);
    PowZeroOne();
    hide Pow, Room, Request.LowerExp, LowEndSeen;
    hide Request.Numerator, Request.Denominator, Request.Lower, Request.Upper;
  }

  lemma TenTimes()
    ensures forall i: nat :: Pow(10, i + 1) == 10 * Pow(10, i)
  {
  }

  /** All four integers are positive, and the value is larger than its distance to the lower boundary. */
  lemma SetupPositive(q: Request)
    requires q.Valid()
    ensures 0 < q.Lower() < q.Numerator() && q.Denominator() > 0 && q.Upper() > 0
  {
    hide Pow;
    PowMono(2, 1, q.Shift());
    PowOne(2);
    MulMono(1, q.f, q.Lower());
    MulMono(2, Pow(2, q.Shift()), q.f * q.Lower());
    if q.exp10 >= 0 { MulMono(1, Pow(10, q.exp10), Pow(2, if q.e >= 0 then q.Shift() else q.Shift() - q.e)); }
  }

  /** A lower distance that is stored below the divided numerator nearly fills the unit of that. */
  lemma EnoughRoom(q: Request, fixup: bool)
    requires q.Valid()
    ensures q.LowerExp() >= q.Unit() || Room(SeenInterval(q, fixup), q.Unit())
  {
    hide Pow, Shl, LowEndSeen, Reaches;
    var m := q.Unit();
    if q.LowerExp() < m {
      assert q.e >= 0 && 32 * m - 2 <= q.e < 32 * m <= q.exp10;
      ShlIsPow(1, m);
      RoomInPowers(q.e, q.exp10, m, q.Shift());
      NarrowInterval(Pow(2, 32 * m), q.Lower(), q.Upper(), q.Denominator());
    }
  }

  /** In this case the lower distance is between a quarter of the unit and the unit, and the denominator far above. */
  lemma RoomInPowers(e: nat, exp10: nat, m: nat, shift: nat)
    requires 1 <= m && 32 * m - 2 <= e < 32 * m <= exp10 && 1 <= shift
    ensures Pow(2, 32 * m) <= 4 * Pow(2, e) && Pow(2, e) <= Pow(2, 32 * m)
    ensures 1250 * Pow(2, 32 * m) <= Pow(2, shift) * Pow(10, exp10)
  {
    hide Pow;
    PowFew();
    PowAdd(2, 32 * m - 2, 2);
    PowMono(2, 32 * m - 2, e);
    PowMono(2, e, 32 * m);
    PowMono(2, 1, shift);
    PowMono(10, 32 * m, exp10);
    TenDwarfsTwo(32 * m);
    MulMono(2, Pow(2, shift), Pow(10, exp10));
  }

  lemma NarrowInterval(p: nat, l: nat, u: nat, d: nat)
    requires p > 0 && p <= 4 * l && l <= p && l <= u <= 2 * l && 1250 * p <= d
    ensures forall k: nat :: k == 1 || k == 10 ==> 10 * (k * l) >= p && k * l <= k * u && 10 * (k * u) < d
  {
  }

  lemma PowFew()
    ensures Pow(2, 1) == 2 && Pow(2, 2) == 4
  {
  }

  lemma TenDwarfsTwo(n: nat)
    requires n >= 4
    ensures 625 * Pow(2, n) <= Pow(10, n)
  {
    assert Pow(5, 4) == 625;
    hide Pow;
    PowProduct(2, 5, n);
    PowMono(5, 4, n);
    MulMono(625, Pow(5, n), Pow(2, n));
  }

  /** Multiplies by ten when the whole interval lies below 10^exp10. */
  method Fixup(numerator: Bigint, denominator: Bigint, lower: Bigint, upper: Bigint, even: bool, shortest: bool)
    returns (applied: bool)
    requires numerator != denominator && numerator != lower && numerator != upper
    requires denominator != lower && denominator != upper
    requires numerator.Normal() && denominator.Normal() && lower.Normal() && upper.Normal()
    requires numerator.Value() > 0 && denominator.Value() > 0 && upper.Value() > 0
    modifies numerator`bigits, lower`bigits, upper`bigits
    ensures numerator.Normal() && lower.Normal() && upper.Normal()
    ensures applied <==> old(numerator.Value() + upper.Value() < denominator.Value())
                         || (old(numerator.Value() + upper.Value() == denominator.Value()) && !even)
    ensures numerator.Value() == old(if applied then 10 * numerator.Value() else numerator.Value())
    ensures shortest ==> lower.Value() == old(if applied then 10 * lower.Value() else lower.Value())
    ensures shortest ==> upper.Value() == old(if applied then 10 * upper.Value() else upper.Value())
  {
    hide Val, Shl, Positions.Value;
    AddCompareExact(numerator.bigits, numerator.exp, upper.bigits, upper.exp, denominator.bigits, denominator.exp);
    var order := AddCompare(numerator, upper, denominator);
    applied := order + Bit(even) <= 0;
    if applied {
      if shortest {
        TimesTen(numerator, lower, upper);
      } else {
        numerator.Multiply(10);
      }
    }
  }
}
