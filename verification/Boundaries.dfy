/** The interval of format_dragon in terms of the number that is printed and its two neighbours. */
module Boundaries {
  import opened Powers
  import opened SteeleWhite
  import opened FormatDragon

  /** b^k as a number, for any sign of k. */
  function RealPow(b: nat, k: int): (r: real)
    requires b > 0
    ensures r > 0.0
  {
    if k >= 0 then Pow(b, k) as real else 1.0 / (Pow(b, -k) as real)
  }

  lemma {:induction false} RealTimes(a: nat, x: int)
    ensures (a * x) as real == a as real * x as real
  {
    if a > 0 {
      RealTimes(a - 1, x);
      OneMore(a - 1, x);
      RealDistribute(x as real, (a - 1) as real, 1.0);
    }
  }

  lemma RealDistribute(w: real, x: real, y: real)
    ensures w * (x + y) == w * x + w * y
  {
  }

  lemma RealAssoc(x: real, y: real, z: real)
    ensures (x * y) * z == x * (y * z)
  {
  }

  lemma DivideEquals(x: real, y: real, z: real)
    requires y > 0.0
    ensures x / y == z <==> x == z * y
  {
  }

  /** One step up is one more factor, whatever the sign of the exponent. */
  lemma RealPowNext(b: nat, k: int)
    requires b > 0
    ensures RealPow(b, k + 1) == b as real * RealPow(b, k)
  {
    if k >= 0 {
      RealTimes(b, Pow(b, k));
    } else {
      var p := Pow(b, -k - 1);
      assert Pow(b, -k) == b * p;
      RealTimes(b, p);
      hide Pow;
      DivideEquals(1.0, (b as real) * (p as real), RealPow(b, k));
      RealAssoc(RealPow(b, k), b as real, p as real);
      DivideEquals(1.0, p as real, b as real * RealPow(b, k));
    }
  }

  lemma {:induction false} RealPowAdd(b: nat, k: int, n: nat)
    requires b > 0
    ensures RealPow(b, k + n) == Pow(b, n) as real * RealPow(b, k)
  {
    hide RealPow;
    if n > 0 {
      RealPowAdd(b, k, n - 1);
      RealPowNext(b, k + n - 1);
      RealTimes(b, Pow(b, n - 1));
      RealAssoc(b as real, Pow(b, n - 1) as real, RealPow(b, k));
    }
  }

  /** x / d * 10^k */
  function Scaled(x: int, d: int, k: int): real
    requires d > 0
  {
    x as real / d as real * RealPow(10, k)
  }

  lemma ScaledTimes(c: nat, x: int, d: int, k: int)
    requires d > 0
    ensures Scaled(c * x, d, k) == c as real * Scaled(x, d, k)
  {
    RealTimes(c, x);
    DivideEquals((c * x) as real, d as real, c as real * (x as real / d as real));
    RealAssoc(c as real, x as real / d as real, d as real);
    DivideEquals(x as real, d as real, x as real / d as real);
    RealAssoc(c as real, x as real / d as real, RealPow(10, k));
  }

  lemma ScaledPlus(x: int, y: int, d: int, k: int)
    requires d > 0
    ensures Scaled(x + y, d, k) == Scaled(x, d, k) + Scaled(y, d, k)
  {
    var u, v, p := x as real / d as real, y as real / d as real, RealPow(10, k);
    DivideEquals(x as real, d as real, u);
    DivideEquals(y as real, d as real, v);
    RealDistribute(d as real, u, v);
    DivideEquals((x + y) as real, d as real, u + v);
    RealDistribute(p, u, v);
  }

  lemma ScaledTen(x: int, d: int, k: int)
    requires d > 0
    ensures Scaled(10 * x, d, k - 1) == Scaled(x, d, k)
  {
    ScaledTimes(10, x, d, k - 1);
    RealPowNext(10, k - 1);
    hide RealPow;
    RealAssoc(10.0, x as real / d as real, RealPow(10, k - 1));
    RealAssoc(x as real / d as real, 10.0, RealPow(10, k - 1));
  }

  /** The order of two fractions, cross-multiplied. */
  lemma ScaledOrder(c: int, w: nat, x: int, d: nat, k: int)
    requires w > 0 && d > 0
    ensures d * c < w * x <==> Scaled(c, w, k) < Scaled(x, d, k)
    ensures d * c == w * x <==> Scaled(c, w, k) == Scaled(x, d, k)
  {
    hide RealPow;
    CrossOrder(c, w, x, d);
    TimesOrder(c as real / w as real, x as real / d as real, RealPow(10, k));
  }

  lemma CrossOrder(c: int, w: nat, x: int, d: nat)
    requires w > 0 && d > 0
    ensures d * c < w * x <==> c as real / w as real < x as real / d as real
    ensures d * c == w * x <==> c as real / w as real == x as real / d as real
  {
    RealTimes(d, c);
    RealTimes(w, x);
    CrossReals(c as real, w as real, x as real, d as real, c as real / w as real, x as real / d as real);
  }

  lemma CrossReals(c: real, w: real, x: real, d: real, u: real, v: real)
    requires w > 0.0 && d > 0.0 && u == c / w && v == x / d
    ensures d * c < w * x <==> u < v
    ensures d * c == w * x <==> u == v
  {
    DivideEquals(c, w, u);
    DivideEquals(x, d, v);
    RealAssoc(d, w, u);
    RealAssoc(w, d, v);
    TimesOrder(u, v, d * w);
  }

  lemma TimesOrder(u: real, v: real, p: real)
    requires p > 0.0
    ensures u * p < v * p <==> u < v
    ensures u * p == v * p <==> u == v
  {
  }

  /** The number that is printed. */
  function Number(q: Request): real
  {
    q.f as real * RealPow(2, q.e)
  }

  /** The next number above. */
  function Above(q: Request): real
  {
    (q.f + 1) as real * RealPow(2, q.e)
  }

  /** The next number below, which is closer when the significand is the smallest of its binade. */
  function Below(q: Request): real
  {
    if q.predecessorCloser then (2 * q.f - 1) as real * RealPow(2, q.e - 1) else (q.f - 1) as real * RealPow(2, q.e)
  }

  lemma FromCross(l: real, d: real, p: real, r: real)
    requires d > 0.0 && l * p == r * d
    ensures l / d * p == r
  {
    var x := l / d;
    DivideEquals(l, d, x);
    RealAssoc(x, d, p);
    RealAssoc(x, p, d);
    TimesOrder(x * p, r, d);
  }

  lemma IntoCross(e: real, a: real, r: real, b: real)
    requires e == a * r
    ensures e * b == r * (a * b)
  {
    RealAssoc(r, a, b);
  }

  lemma RealPowPositive(b: nat, k: nat)
    requires b > 0
    ensures RealPow(b, k) == Pow(b, k) as real
    ensures Pow(b, k) as real * RealPow(b, -(k as int)) == 1.0
  {
    hide Pow;
    if k == 0 { PowOne(b); }
    DivideEquals(1.0, Pow(b, k) as real, 1.0 / (Pow(b, k) as real));
  }

  lemma LowerCross(q: Request)
    requires q.Valid()
    ensures q.Lower() as real * RealPow(10, q.exp10) == RealPow(2, q.e - q.Shift()) * q.Denominator() as real
  {
    hide Pow, RealPow;
    var s, r := q.Shift(), RealPow(2, q.e - q.Shift());
    var a := Pow(2, if q.e >= 0 then s else s - q.e);
    RealPowAdd(2, q.e - s, if q.e >= 0 then s else s - q.e);
    RealPowPositive(2, if q.e >= 0 then q.e else 0);
    PowOne(2);
    if q.exp10 >= 0 {
      RealPowPositive(10, q.exp10);
      RealTimes(a, Pow(10, q.exp10));
      IntoCross(q.Lower() as real, a as real, r, Pow(10, q.exp10) as real);
    } else {
      RealPowPositive(10, -q.exp10);
    }
  }

  /** The lower distance is 2^(e - shift). */
  lemma LowerExact(q: Request)
    requires q.Valid() && q.Denominator() > 0
    ensures Scaled(q.Lower(), q.Denominator(), q.exp10) == RealPow(2, q.e - q.Shift())
  {
    hide RealPow, Request.Lower, Request.Denominator;
    LowerCross(q);
    FromCross(q.Lower() as real, q.Denominator() as real, RealPow(10, q.exp10), RealPow(2, q.e - q.Shift()));
  }

  /** The integers of the setup stand for the number and for half the distances to its neighbours. */
  lemma DistancesExact(q: Request)
    requires q.Valid() && q.Denominator() > 0
    ensures Scaled(q.Numerator(), q.Denominator(), q.exp10) == Number(q)
    ensures Scaled(q.Upper(), q.Denominator(), q.exp10) == (Above(q) - Number(q)) / 2.0
    ensures Scaled(q.Lower(), q.Denominator(), q.exp10) == (Number(q) - Below(q)) / 2.0
  {
    hide RealPow, Pow, Scaled, Request.Lower, Request.Denominator, Number, Above, Below;
    LowerExact(q);
    NumberScaled(q);
    ScaledTimes(2, q.Lower(), q.Denominator(), q.exp10);
    HalfGaps(q);
  }

  lemma NumberScaled(q: Request)
    requires q.Valid() && q.Denominator() > 0
    ensures Scaled(q.Numerator(), q.Denominator(), q.exp10) == Number(q)
  {
    hide RealPow, Pow, Scaled, Request.Lower, Request.Denominator;
    var s, d, r := q.Shift(), q.Denominator(), RealPow(2, q.e - q.Shift());
    LowerExact(q);
    ScaledTimes(q.f, q.Lower(), d, q.exp10);
    ScaledTimes(Pow(2, s), q.f * q.Lower(), d, q.exp10);
    RealPowAdd(2, q.e - s, s);
    RealAssoc(Pow(2, s) as real, q.f as real, r);
    RealAssoc(q.f as real, Pow(2, s) as real, r);
  }

  lemma HalfGaps(q: Request)
    requires q.Valid()
    ensures Above(q) - Number(q) == 2.0 * RealPow(2, q.e - 1)
    ensures Number(q) - Below(q) == 2.0 * RealPow(2, q.e - q.Shift())
    ensures 2.0 * RealPow(2, q.e - 2) == RealPow(2, q.e - 1)
  {
    hide RealPow;
    RealPowNext(2, q.e - 1);
    RealPowNext(2, q.e - 2);
    Gaps(q.f as real, RealPow(2, q.e), RealPow(2, q.e - 1));
  }

  lemma Gaps(f: real, x: real, h: real)
    requires x == 2.0 * h
    ensures (f + 1.0) * x - f * x == x && f * x - (f - 1.0) * x == x && f * x - (2.0 * f - 1.0) * h == h
  {
  }

  /** c / 10^j, in units of 10^exp10, as the code prints it. */
  function Printed(c: int, j: nat, exp10: int): real
  {
    Scaled(c, Pow(10, j), exp10)
  }

  /** A decimal against a boundary. */
  lemma InsideOrder(t: Target, c: int, j: nat)
    ensures var w := Pow(10, j);
            Inside(t, c, j) <==>
              && (if t.lowIn then t.d * c >= w * (t.n - t.l) else t.d * c > w * (t.n - t.l))
              && (if t.highIn then t.d * c <= w * (t.n + t.u) else t.d * c < w * (t.n + t.u))
  {
    hide Pow;
    Distribute(Pow(10, j), t.n, -t.l);
    Distribute(Pow(10, j), t.n, t.u);
  }

  /**
   A decimal lies in the interval of the digit loops exactly when it is no further away than
   half way to the neighbours: when reading it back gives the number.
   */
  lemma IntervalExact(q: Request, fixup: bool, c: int, j: nat)
    requires q.Valid()
    ensures var x := Printed(c, j, Exponent(q, fixup)); var low, high := (Below(q) + Number(q)) / 2.0, (Number(q) + Above(q)) / 2.0;
            Inside(Interval(q, fixup), c, j) <==> if q.Even() then low <= x <= high else low < x < high
  {
    hide RealPow, Pow, Scaled, Number, Above, Below, Interval, Exponent, Inside, Request.Denominator, Request.Numerator;
    hide Request.Lower, Request.Upper;
    SetupPositive(q);
    DistancesExact(q);
    TargetExact(q, fixup);
    var t, e, w := Interval(q, fixup), Exponent(q, fixup), Pow(10, j);
    InsideOrder(t, c, j);
    BoundaryOrder(t, c, w, e);
  }

  lemma BoundaryOrder(t: Target, c: int, w: nat, e: int)
    requires t.d > 0 && w > 0
    ensures t.d * c < w * (t.n - t.l) <==> Scaled(c, w, e) < Scaled(t.n, t.d, e) - Scaled(t.l, t.d, e)
    ensures t.d * c == w * (t.n - t.l) <==> Scaled(c, w, e) == Scaled(t.n, t.d, e) - Scaled(t.l, t.d, e)
    ensures t.d * c < w * (t.n + t.u) <==> Scaled(c, w, e) < Scaled(t.n, t.d, e) + Scaled(t.u, t.d, e)
    ensures t.d * c == w * (t.n + t.u) <==> Scaled(c, w, e) == Scaled(t.n, t.d, e) + Scaled(t.u, t.d, e)
  {
    hide Scaled;
    ScaledPlus(t.n - t.l, t.l, t.d, e);
    ScaledPlus(t.n, t.u, t.d, e);
    ScaledOrder(c, w, t.n - t.l, t.d, e);
    ScaledOrder(c, w, t.n + t.u, t.d, e);
  }

  /** The fixup moves the exponent and scales the interval, and changes nothing. */
  lemma TargetExact(q: Request, fixup: bool)
    requires q.Valid() && q.Denominator() > 0
    ensures var t, e := Interval(q, fixup), Exponent(q, fixup);
            && t.d == q.Denominator() && t.lowIn == t.highIn == q.Even()
            && Scaled(t.n, t.d, e) == Scaled(q.Numerator(), t.d, q.exp10)
            && Scaled(t.l, t.d, e) == Scaled(q.Lower(), t.d, q.exp10)
            && Scaled(t.u, t.d, e) == Scaled(q.Upper(), t.d, q.exp10)
  {
    hide Scaled, Request.Lower, Request.Upper, Request.Numerator, Request.Denominator;
    if FixesUp(q, fixup) {
      ScaledTen(q.Numerator(), q.Denominator(), q.exp10);
      ScaledTen(q.Lower(), q.Denominator(), q.exp10);
      ScaledTen(q.Upper(), q.Denominator(), q.exp10);
    }
  }

  function AbsReal(x: real): real { if x < 0.0 then -x else x }

  /** The decimal a / 10^j reads back as the number. */
  predicate ReadsBack(q: Request, x: real)
  {
    var low, high := (Below(q) + Number(q)) / 2.0, (Number(q) + Above(q)) / 2.0;
    if q.Even() then low <= x <= high else low < x < high
  }

  /** How far a decimal is from the value, as a fraction. */
  lemma GapExact(t: Target, c: int, j: nat, e: int)
    requires t.d > 0
    ensures var w := Pow(10, j); w * t.d > 0 && Scaled(c, w, e) - Scaled(t.n, t.d, e) == Scaled(c * t.d - w * t.n, w * t.d, e)
  {
    hide Scaled, Pow;
    var w := Pow(10, j);
    MulMono(1, w, t.d);
    MulAssoc(w, t.d, c);
    MulAssoc(t.d, w, t.n);
    ScaledOrder(c, w, c * t.d, w * t.d, e);
    ScaledOrder(t.n, t.d, w * t.n, w * t.d, e);
    ScaledPlus(c * t.d - w * t.n, w * t.n, w * t.d, e);
  }

  lemma AbsScaled(x: int, d: nat, e: int)
    requires d > 0
    ensures AbsReal(Scaled(x, d, e)) == Scaled(if x < 0 then -x else x, d, e)
  {
    hide RealPow;
    ScaledPlus(x, -x, d, e);
    ScaledOrder(0, 1, x, d, e);
    assert Scaled(0, 1, e) == 0.0 && Scaled(0, d, e) == 0.0;
  }

  lemma DistanceOrder(t: Target, a: int, c: int, j: nat, e: int)
    requires t.d > 0
    ensures var v, w := Scaled(t.n, t.d, e), Pow(10, j);
            && (Distance(t, a, j) <= Distance(t, c, j) <==> AbsReal(Scaled(a, w, e) - v) <= AbsReal(Scaled(c, w, e) - v))
            && (Distance(t, a, j) == Distance(t, c, j) <==> AbsReal(Scaled(a, w, e) - v) == AbsReal(Scaled(c, w, e) - v))
  {
    hide Scaled, Pow, AbsReal;
    var w := Pow(10, j);
    var m := w * t.d;
    GapExact(t, a, j, e);
    GapExact(t, c, j, e);
    AbsScaled(a * t.d - w * t.n, m, e);
    AbsScaled(c * t.d - w * t.n, m, e);
    var x, y := Distance(t, a, j), Distance(t, c, j);
    ScaledOrder(x, m, y, m, e);
    SameFactor(m, x, y);
  }

  lemma SameFactor(m: nat, x: int, y: int)
    requires m > 0
    ensures m * x < m * y <==> x < y
    ensures m * x == m * y <==> x == y
  {
    if x < y { MulMono(x + 1, y, m); Distribute(m, x, 1); }
    if y < x { MulMono(y + 1, x, m); Distribute(m, y, 1); }
  }

  /**
   What the shortest form is: it reads back as the number, nothing with fewer places does, and
   of those with as many places none is closer, the even one being taken of two.
   */
  lemma ShortestExact(q: Request, fixup: bool, a: int, j: nat)
    requires q.Valid() && Shortest(Interval(q, fixup), a, j)
    ensures var e, v := Exponent(q, fixup), Number(q); var x := Printed(a, j, e);
            && ReadsBack(q, x)
            && (forall c, i: nat :: i < j ==> !ReadsBack(q, Printed(c, i, e)))
            && (forall c :: ReadsBack(q, Printed(c, j, e)) ==> AbsReal(x - v) <= AbsReal(Printed(c, j, e) - v))
            && (forall c :: ReadsBack(q, Printed(c, j, e)) && AbsReal(x - v) == AbsReal(Printed(c, j, e) - v) ==> c == a || a % 2 == 0)
  {
    hide RealPow, Pow, Scaled, Number, Above, Below, Interval, Exponent, Inside, Request.Denominator, Request.Numerator;
    hide Request.Lower, Request.Upper, Distance, AbsReal;
    var t, e, v := Interval(q, fixup), Exponent(q, fixup), Number(q);
    SetupPositive(q);
    DistancesExact(q);
    TargetExact(q, fixup);
    forall c, i: nat ensures Inside(t, c, i) <==> ReadsBack(q, Printed(c, i, e)) {
      IntervalExact(q, fixup, c, i);
    }
    forall c
      ensures Distance(t, a, j) <= Distance(t, c, j) <==> AbsReal(Printed(a, j, e) - v) <= AbsReal(Printed(c, j, e) - v)
      ensures Distance(t, a, j) == Distance(t, c, j) <==> AbsReal(Printed(a, j, e) - v) == AbsReal(Printed(c, j, e) - v)
    {
      DistanceOrder(t, a, c, j, e);
    }
  }
}
