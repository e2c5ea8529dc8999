/**
 The rounding interval of a binary floating-point number and what it means for a decimal
 to be the shortest in it. All numbers are in units of 10^exp10 / d.
 */
module SteeleWhite {
  import opened Powers
  import opened Decimal

  /** The value n / d, the distances l / d and u / d to its boundaries, and which ends belong. */
  datatype Target = Target(n: int, d: int, l: int, u: int, lowIn: bool, highIn: bool)

  predicate Proper(t: Target)
  {
    t.d > 0 && 0 < t.l < t.n && t.u > 0
  }

  predicate AboveLow(t: Target, c: int, j: nat)
  {
    var w := Pow(10, j);
    if t.lowIn then c * t.d >= w * t.n - w * t.l else c * t.d > w * t.n - w * t.l
  }

  predicate BelowHigh(t: Target, c: int, j: nat)
  {
    var w := Pow(10, j);
    if t.highIn then c * t.d <= w * t.n + w * t.u else c * t.d < w * t.n + w * t.u
  }

  /** The decimal c / 10^j lies in the rounding interval. */
  predicate Inside(t: Target, c: int, j: nat)
  {
    AboveLow(t, c, j) && BelowHigh(t, c, j)
  }

  /** No decimal with at most j places lies in the interval. */
  ghost predicate NoneUpTo(t: Target, j: int)
  {
    forall c, i: nat :: i < j ==> !Inside(t, c, i)
  }

  /** How far c / 10^j is from the value, scaled. */
  function Distance(t: Target, c: int, j: nat): nat
  {
    Abs(c * t.d - Pow(10, j) * t.n)
  }

  /** a / 10^j lies in the interval, nothing with fewer places does, and a is the closest choice, the even one of two. */
  ghost predicate Shortest(t: Target, a: int, j: nat)
  {
    && Inside(t, a, j)
    && NoneUpTo(t, j)
    && (forall c :: Inside(t, c, j) ==> Distance(t, a, j) <= Distance(t, c, j))
    && (forall c :: Inside(t, c, j) && Distance(t, a, j) == Distance(t, c, j) ==> c == a || a % 2 == 0)
  }

  /** The digit loop before it produces digit j: the digits so far spell a, num is left. */
  predicate Running(t: Target, a: int, j: nat, num: int)
  {
    && num == Pow(10, j) * t.n - 10 * (a * t.d)
    && num > 0
    && num + Pow(10, j) * t.u <= 10 * t.d
    && (t.highIn ==> num + Pow(10, j) * t.u < 10 * t.d)
  }

  /** The division step: a is the floor of the scaled value and r the remainder. */
  predicate Floor(t: Target, a: int, j: nat, r: int)
  {
    r == Pow(10, j) * t.n - a * t.d && 0 <= r < t.d
  }

  lemma Divide(t: Target, a: int, j: nat, num: int, q: int, r: int)
    requires Proper(t) && Running(t, a, j, num)
    requires num == q * t.d + r && 0 <= r < t.d
    ensures Floor(t, 10 * a + q, j, r) && 0 <= q <= 9
    ensures q == 9 ==> !BelowHigh(t, 10 * a + q + 1, j)
  {
    hide Pow;
    Scale(Pow(10, j), t.u);
    Distribute(t.d, 10 * a, q);
    MulAssoc(10, a, t.d);
    Distribute(t.d, 10 * a + q, 1);
    if q >= 10 { MulMono(10, q, t.d); }
    if q < 0 { MulMono(q, -1, t.d); }
  }

  lemma Scale(w: nat, x: int)
    requires w > 0 && x > 0
    ensures w * x > 0
  {
  }

  /** The two comparisons of the loop decide the two candidates. */
  lemma Candidates(t: Target, a: int, j: nat, r: int)
    requires Proper(t) && Floor(t, a, j, r)
    ensures var w := Pow(10, j);
            && (Inside(t, a, j) <==> r < w * t.l || (r == w * t.l && t.lowIn))
            && (Inside(t, a + 1, j) <==> r + w * t.u > t.d || (r + w * t.u == t.d && t.highIn))
            && (BelowHigh(t, a + 1, j) <==> Inside(t, a + 1, j))
    ensures forall c :: c < a && Inside(t, c, j) ==> Inside(t, a, j)
    ensures forall c :: c > a + 1 && Inside(t, c, j) ==> Inside(t, a + 1, j)
  {
    LowerCandidate(t, a, j, r);
    UpperCandidate(t, a, j, r);
    hide Pow, Inside, Floor;
    forall c | c < a && Inside(t, c, j) ensures Inside(t, a, j) { LowerRises(t, a, j, r, c); }
    forall c | c > a + 1 && Inside(t, c, j) ensures Inside(t, a + 1, j) { UpperFalls(t, a, j, r, c); }
  }

  lemma LowerCandidate(t: Target, a: int, j: nat, r: int)
    requires Proper(t) && Floor(t, a, j, r)
    ensures Inside(t, a, j) <==> r < Pow(10, j) * t.l || (r == Pow(10, j) * t.l && t.lowIn)
  {
    hide Pow;
    Scale(Pow(10, j), t.u);
  }

  lemma UpperCandidate(t: Target, a: int, j: nat, r: int)
    requires Proper(t) && Floor(t, a, j, r)
    ensures Inside(t, a + 1, j) <==> r + Pow(10, j) * t.u > t.d || (r + Pow(10, j) * t.u == t.d && t.highIn)
    ensures BelowHigh(t, a + 1, j) <==> Inside(t, a + 1, j)
  {
    hide Pow;
    Scale(Pow(10, j), t.l);
    Distribute(t.d, a, 1);
  }

  lemma LowerRises(t: Target, a: int, j: nat, r: int, c: int)
    requires Proper(t) && Floor(t, a, j, r) && c < a && Inside(t, c, j)
    ensures Inside(t, a, j)
  {
    hide Pow;
    Scale(Pow(10, j), t.u);
    MulMono(c, a, t.d);
  }

  lemma UpperFalls(t: Target, a: int, j: nat, r: int, c: int)
    requires Proper(t) && Floor(t, a, j, r) && c > a + 1 && Inside(t, c, j)
    ensures Inside(t, a + 1, j)
  {
    hide Pow;
    Scale(Pow(10, j), t.l);
    Distribute(t.d, a, 1);
    MulMono(a + 1, c, t.d);
  }

  /** Neither candidate fits: no decimal with j places does, and one more digit is due. */
  lemma Continue(t: Target, a: int, j: nat, r: int)
    requires Proper(t) && Floor(t, a, j, r) && NoneUpTo(t, j)
    requires !Inside(t, a, j) && !Inside(t, a + 1, j)
    ensures NoneUpTo(t, j + 1) && Running(t, a, j + 1, 10 * r)
    ensures Pow(10, j) * t.l <= r
  {
    Candidates(t, a, j, r);
    Scale(Pow(10, j), t.l);
    MulAssoc(10, Pow(10, j), t.n);
    MulAssoc(10, Pow(10, j), t.u);
    forall c, i: nat | i < j + 1 ensures !Inside(t, c, i) {
    }
  }

  /** Which of the two candidates the code keeps. */
  function Choice(t: Target, a: int, j: nat, r: int): int
  {
    if !Inside(t, a, j) then a + 1
    else if Inside(t, a + 1, j) && (2 * r > t.d || (2 * r == t.d && a % 2 != 0)) then a + 1
    else a
  }

  lemma Finish(t: Target, a: int, j: nat, r: int)
    requires Proper(t) && Floor(t, a, j, r) && NoneUpTo(t, j)
    requires Inside(t, a, j) || Inside(t, a + 1, j)
    ensures Shortest(t, Choice(t, a, j, r), j)
  {
    hide AboveLow, BelowHigh, Inside, Floor, Distance, Pow, NoneUpTo;
    var b := Choice(t, a, j, r);
    Candidates(t, a, j, r);
    assert 0 <= r < t.d by { FloorRemainder(t, a, j, r); }
    forall c | Inside(t, c, j)
      ensures Distance(t, b, j) <= Distance(t, c, j)
      ensures Distance(t, b, j) == Distance(t, c, j) ==> c == b || b % 2 == 0
    {
      Farther(t, a, j, r, c);
    }
  }

  lemma FloorRemainder(t: Target, a: int, j: nat, r: int)
    requires Floor(t, a, j, r)
    ensures 0 <= r < t.d
  {
  }

  lemma Farther(t: Target, a: int, j: nat, r: int, c: int)
    requires Proper(t) && Floor(t, a, j, r)
    ensures Distance(t, a, j) == r && Distance(t, a + 1, j) == t.d - r
    ensures c < a ==> Distance(t, c, j) > r && Distance(t, c, j) >= t.d
    ensures c > a + 1 ==> Distance(t, c, j) > t.d - r && Distance(t, c, j) >= t.d
  {
    hide Pow;
    Distribute(t.d, a, 1);
    Distribute(t.d, a, -1);
    Distribute(t.d, a, 2);
    if c < a { MulMono(c, a - 1, t.d); }
    if c > a + 1 { MulMono(a + 2, c, t.d); }
  }

  /** c / 10^i is exactly the lower boundary. */
  predicate LowEnd(t: Target, c: int, i: nat)
  {
    c * t.d == Pow(10, i) * t.n - Pow(10, i) * t.l
  }

  /**
   Leaving the lower boundary out of the interval although it belongs to it costs the shortest
   form exactly when the boundary itself is a decimal with fewer places.
   */
  lemma MissedLowEnd(t: Target, a: int, j: nat)
    requires Proper(t) && t.lowIn && Shortest(t.(lowIn := false), a, j)
    ensures Inside(t, a, j)
    ensures NoneUpTo(t, j) <==> forall c, i: nat :: i < j ==> !LowEnd(t, c, i)
  {
    var t0 := t.(lowIn := false);
    forall c, i: nat | i < j ensures Inside(t, c, i) <==> LowEnd(t, c, i) {
      assert !Inside(t0, c, i);
      if LowEnd(t, c, i) {
        Scale(Pow(10, i), t.l);
        Scale(Pow(10, i), t.u);
      }
    }
    assert Inside(t0, a, j);
  }

  /**
   Letting the lower boundary in although it does not belong to the interval costs correctness
   exactly when the boundary is what is printed: when it is itself a decimal, and no decimal
   with as few places lies in the interval.
   */
  lemma ExtraLowEnd(t: Target, a: int, j: nat)
    requires Proper(t) && t.lowIn && !t.highIn && t.u == t.l && Shortest(t, a, j)
    ensures Shortest(t.(lowIn := false), a, j) <==> !LowEnd(t, a, j)
    ensures LowEnd(t, a, j) <==> exists c, i: nat :: LowEnd(t, c, i) && NoneUpTo(t.(lowIn := false), i + 1)
  {
    var t0 := t.(lowIn := false);
    forall c, i: nat ensures Inside(t0, c, i) <==> Inside(t, c, i) && !LowEnd(t, c, i) {
    }
    if LowEnd(t, a, j) {
      forall c, i: nat | i < j + 1 ensures !Inside(t0, c, i) {
        if i == j && Inside(t0, c, j) { CloserThanEnd(t, a, j, c); }
      }
      assert NoneUpTo(t0, j + 1);
    }
    forall c, i: nat | LowEnd(t, c, i) && NoneUpTo(t0, i + 1) ensures LowEnd(t, a, j) {
      EndInside(t, c, i);
    }
  }

  lemma EndInside(t: Target, c: int, i: nat)
    requires Proper(t) && t.lowIn && LowEnd(t, c, i)
    ensures Inside(t, c, i)
  {
    Scale(Pow(10, i), t.l);
    Scale(Pow(10, i), t.u);
  }

  /** In an interval that is open on both sides every decimal is closer than the lower boundary. */
  lemma CloserThanEnd(t: Target, a: int, j: nat, c: int)
    requires Proper(t) && !t.highIn && t.u == t.l && LowEnd(t, a, j) && Inside(t.(lowIn := false), c, j)
    ensures Distance(t, c, j) < Distance(t, a, j)
  {
    Scale(Pow(10, j), t.l);
  }

  /** In an interval narrower than a unit of the last place the lower boundary is alone. */
  lemma OnlyLowEnd(t: Target, e: int, n: nat, c: int, i: nat)
    requires Proper(t) && LowEnd(t, e, n) && Pow(10, n) * (t.l + t.u) < t.d && i <= n && Inside(t, c, i)
    ensures c * Pow(10, n - i) == e
  {
    var k := Pow(10, n - i);
    PowAdd(10, i, n - i);
    InsideScaled(t, c, i, k);
    hide Pow, Inside;
    var x, y := Pow(10, n) * t.l, Pow(10, n) * t.u;
    Distribute(Pow(10, n), t.l, t.u);
    Alone(e, c * k, t.d, Pow(10, n) * t.n, x, y);
  }

  lemma Alone(e: int, c: int, d: int, n: int, l: int, u: int)
    requires e * d == n - l && n - l <= c * d <= n + u && l + u < d
    ensures c == e
  {
    if c < e { MulMono(c + 1, e, d); Distribute(d, c, 1); }
    if c > e { MulMono(e + 1, c, d); Distribute(d, e, 1); }
  }

  /** An inside decimal with more places written out. */
  lemma InsideScaled(t: Target, c: int, i: nat, k: nat)
    requires Inside(t, c, i)
    ensures var v := k * Pow(10, i); v * t.n - v * t.l <= (c * k) * t.d <= v * t.n + v * t.u
  {
    hide Pow;
    var w := Pow(10, i);
    ScaledLow(k, w, t.n, t.l, c, t.d);
    ScaledHigh(k, w, t.n, t.u, c, t.d);
  }

  lemma ScaledLow(k: nat, w: nat, n: int, l: int, c: int, d: int)
    requires w * n - w * l <= c * d
    ensures (k * w) * n - (k * w) * l <= (c * k) * d
  {
    var x, y, z := w * n, w * l, c * d;
    MulAssoc(k, w, n);
    MulAssoc(k, w, l);
    MulExchange(k, c, d);
    MulAssoc(c, k, d);
    ScaledGap(k, x, y, z);
  }

  lemma ScaledHigh(k: nat, w: nat, n: int, u: int, c: int, d: int)
    requires c * d <= w * n + w * u
    ensures (c * k) * d <= (k * w) * n + (k * w) * u
  {
    var x, y, z := w * n, w * u, c * d;
    MulAssoc(k, w, n);
    MulAssoc(k, w, u);
    MulExchange(k, c, d);
    MulAssoc(c, k, d);
    MulMono(z, x + y, k);
    Distribute(k, x, y);
  }

  lemma ScaledGap(k: nat, x: int, y: int, z: int)
    requires x - y <= z
    ensures k * x - k * y <= k * z
  {
    MulMono(x - y, z, k);
    Distribute(k, x - y, y);
  }

  /** The shortest form has the fewest significant digits of all decimals in the interval. */
  lemma FewestDigits(t: Target, a: int, j: nat, c: int, i: nat)
    requires Proper(t) && Shortest(t, a, j) && (t.n >= t.d || j == 0)
    requires 0 <= c < Pow(10, j)
    ensures !Inside(t, c, i)
  {
    hide AboveLow, BelowHigh;
    if j == 0 {
      ZeroOutside(t, i);
      assert Pow(10, 0) == 1;
    } else if i >= j && Inside(t, c, i) {
      PowMono(10, j, i);
      BelowOne(t, c, i, Pow(10, i));
      OneInside(t);
      assert false;
    }
  }

  lemma ZeroOutside(t: Target, i: nat)
    requires Proper(t)
    ensures !AboveLow(t, 0, i)
  {
    var w := Pow(10, i);
    MulMono(t.l + 1, t.n, w);
    Distribute(w, t.l, 1);
  }

  lemma OneInside(t: Target)
    requires Proper(t) && t.n >= t.d > t.n - t.l
    ensures Inside(t, 1, 0)
  {
    assert Pow(10, 0) == 1;
  }

  lemma BelowOne(t: Target, c: int, i: nat, w: nat)
    requires Proper(t) && t.n >= t.d && w == Pow(10, i) && c < w && AboveLow(t, c, i)
    ensures t.d > t.n - t.l
  {
    MulMono(c, w - 1, t.d);
    Distribute(t.d, w, -1);
    if t.d <= t.n - t.l {
      MulMono(t.d, t.n - t.l, w);
      Distribute(w, t.n, -t.l);
    }
  }

  /** One division by the code's comparisons: both candidates are judged, and a nine is never raised. */
  lemma Judged(t: Target, a: int, j: nat, num: int, q: int, r: int, low: bool, high: bool, lv: int, uv: int)
    requires Proper(t) && Running(t, a, j, num)
    requires num == q * t.d + r && 0 <= r < t.d
    requires lv == Pow(10, j) * t.l && uv == Pow(10, j) * t.u
    requires low <==> r < lv || (r == lv && t.lowIn)
    requires high <==> r + uv > t.d || (r + uv == t.d && t.highIn)
    ensures 0 <= q <= 9 && (q == 9 ==> !high)
    ensures Floor(t, 10 * a + q, j, r)
    ensures low <==> Inside(t, 10 * a + q, j)
    ensures high <==> Inside(t, 10 * a + q + 1, j)
  {
    hide Pow, AboveLow, BelowHigh, Running, Floor;
    Divide(t, a, j, num, q, r);
    Candidates(t, 10 * a + q, j, r);
  }

  /** The state of the shortest loop after j digits that spell a. */
  ghost predicate Progress(t: Target, a: int, j: nat, num: int, lv: int, uv: int)
  {
    && Running(t, a, j, num) && NoneUpTo(t, j)
    && lv == Pow(10, j) * t.l && uv == Pow(10, j) * t.u
  }

  lemma Start(t: Target)
    requires Proper(t) && Running(t, 0, 0, t.n)
    ensures Progress(t, 0, 0, t.n, t.l, t.u)
  {
  }

  lemma Advance(t: Target, a: int, j: nat, num: int, lv: int, uv: int, q: nat, r: int, low: bool, high: bool)
    requires Proper(t) && Progress(t, a, j, num, lv, uv)
    requires num == q * t.d + r && 0 <= r < t.d
    requires low <==> r < lv || (r == lv && t.lowIn)
    requires high <==> r + uv > t.d || (r + uv == t.d && t.highIn)
    ensures q <= 9 && (q == 9 ==> !high)
    ensures !low && !high ==> Progress(t, 10 * a + q, j + 1, 10 * r, 10 * lv, 10 * uv) && lv <= r
    ensures low || high ==> Shortest(t, 10 * a + q + (if !low || (high && (2 * r > t.d || (2 * r == t.d && q % 2 != 0))) then 1 else 0), j)
    ensures j == 0 && q == 0 && a == 0 && BelowHigh(t, 1, 0) ==> high
  {
    hide AboveLow, BelowHigh, Inside, Shortest, NoneUpTo, Pow, Running, Floor, Choice;
    Judged(t, a, j, num, q, r, low, high, lv, uv);
    Candidates(t, 10 * a + q, j, r);
    if low || high {
      Finish(t, 10 * a + q, j, r);
      ChoiceByDigit(t, a, q, j, r, low, high);
    } else {
      StillRunning(t, 10 * a + q, j, r, lv, uv);
    }
  }

  /** The code looks at the parity of the last digit only. */
  lemma ChoiceByDigit(t: Target, a: int, q: nat, j: nat, r: int, low: bool, high: bool)
    requires low <==> Inside(t, 10 * a + q, j)
    requires high <==> Inside(t, 10 * a + q + 1, j)
    requires low || high
    ensures Choice(t, 10 * a + q, j, r) ==
            10 * a + q + if !low || (high && (2 * r > t.d || (2 * r == t.d && q % 2 != 0))) then 1 else 0
  {
    hide Inside;
    assert (10 * a + q) % 2 == q % 2;
  }

  lemma StillRunning(t: Target, a: int, j: nat, r: int, lv: int, uv: int)
    requires Proper(t) && Floor(t, a, j, r) && NoneUpTo(t, j)
    requires lv == Pow(10, j) * t.l && uv == Pow(10, j) * t.u
    requires !Inside(t, a, j) && !Inside(t, a + 1, j)
    ensures Progress(t, a, j + 1, 10 * r, 10 * lv, 10 * uv) && lv <= r
  {
    hide Inside, NoneUpTo, Pow, Running, Floor;
    Continue(t, a, j, r);
    NextScale(t, j);
  }

  lemma NextScale(t: Target, j: nat)
    ensures Pow(10, j + 1) * t.l == 10 * (Pow(10, j) * t.l)
    ensures Pow(10, j + 1) * t.u == 10 * (Pow(10, j) * t.u)
  {
    MulAssoc(10, Pow(10, j), t.l);
    MulAssoc(10, Pow(10, j), t.u);
  }
}
