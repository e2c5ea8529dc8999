/** Requests on which format_dragon does not do what one would expect of it. */
module DragonCases {
  import opened Powers
  import opened Bigits
  import opened Positions
  import opened Comparison
  import opened Decimal
  import opened SteeleWhite
  import opened Dragon
  import opened FormatDragon

  /**
   When what the loop takes for the shortest form is the shortest form: always if it sees the
   lower boundary as it is; if it misses the boundary, unless that is a decimal with fewer
   places; if it lets it in, unless that is a decimal with no more places than any inside.
   */
  lemma SeenOrNot(q: Request, fixup: bool, a: int, j: nat)
    requires q.Valid() && Shortest(SeenInterval(q, fixup), a, j)
    ensures var t := Interval(q, fixup); var seen := LowEndSeen(q.LowerExp(), q.Unit(), q.Even());
            && (seen == q.Even() ==> Shortest(t, a, j))
            && (!seen && q.Even() ==> Inside(t, a, j) && (NoneUpTo(t, j) <==> forall c, i: nat :: i < j ==> !LowEnd(t, c, i)))
            && (seen && !q.Even() && !q.predecessorCloser ==>
                  (Shortest(t, a, j) <==> !exists c, i: nat :: LowEnd(t, c, i) && NoneUpTo(t, i + 1)))
  {
    SetupPositive(q);
    hide Request.Numerator, Request.Denominator, Request.Lower, Request.LowerExp, Request.Unit, LowEndSeen, Shortest;
    var t, seen := Interval(q, fixup), LowEndSeen(q.LowerExp(), q.Unit(), q.Even());
    assert Proper(t);
    assert SeenInterval(q, fixup) == t.(lowIn := seen);
    if !seen && q.Even() {
      assert t.(lowIn := false).(lowIn := true) == t;
      MissedLowEnd(t, a, j);
    }
    if seen && !q.Even() && !q.predecessorCloser {
      SameLowEnd(t, true);
      ExtraLowEnd(t.(lowIn := true), a, j);
      assert t.(lowIn := true).(lowIn := false) == t;
    }
  }

  lemma SameLowEnd(t: Target, seen: bool)
    ensures forall c, i: nat :: LowEnd(t.(lowIn := seen), c, i) <==> LowEnd(t, c, i)
  {
  }

  /** The double 8344650268554688 * 2^64, whose lower boundary is 15393162788864e22. */
  const Big := Request(8344650268554688, 64, 35, false)

  lemma PowersOfTheExample()
    ensures Pow(2, 1) == 2 && Pow(2, 64) == 18446744073709551616
    ensures Pow(10, 13) == 10_000_000_000_000 && Pow(10, 22) == 10_000_000_000_000_000_000_000
    ensures Pow(10, 35) == 100_000_000_000_000_000_000_000_000_000_000_000
  {
    TwoTo32();
    PowAdd(2, 32, 32);
    assert Pow(10, 4) == 10_000 && Pow(10, 5) == 100_000;
    PowAdd(10, 4, 4);
    PowAdd(10, 8, 5);
    PowAdd(10, 8, 8);
    PowAdd(10, 9, 13);
    PowAdd(10, 4, 5);
    PowAdd(10, 22, 13);
  }

  /**
   A request on which the shortest loop misses a tie: its lower boundary belongs to the
   interval and has 14 digits, but the layouts differ, and the code prints at least 15.
   */
  lemma MissedBoundary(a: int, j: nat)
    requires Big.Valid() && Shortest(SeenInterval(Big, false), a, j)
    ensures EstimateOk(Big, false) && Splittable(Big)
    ensures Inside(Interval(Big, false), 15393162788864, 13) && j >= 14
  {
    PowersOfTheExample();
    NotPowerOfTen();
    if j <= 13 { TooCoarse(a, j); }
  }

  lemma NotPowerOfTen()
    requires Big.Valid()
    ensures NeverEqual(Big.Numerator(), Big.Denominator())
  {
    PowersOfTheExample();
    forall i: nat ensures Pow(10, i) * Big.Numerator() != Big.Denominator() {
      MulMono(1, Pow(10, i), Big.Numerator());
    }
  }

  lemma TooCoarse(c: int, i: nat)
    requires Big.Valid() && i <= 13
    ensures !Inside(SeenInterval(Big, false), c, i)
  {
    PowersOfTheExample();
    PowAdd(10, i, 13 - i);
    var t := SeenInterval(Big, false);
    var w, m := Pow(10, i), Pow(10, 13 - i);
    hide Pow;
    // in units of 2 * 10^22 the interval is open at K and closed below K + 1
    var K := 15393162788864;
    assert t.n - t.l == 2 * (K * 10_000_000_000_000_000_000_000) && t.u < 20_000_000_000_000_000_000_000;
    assert t.d == 2 * 100_000_000_000_000_000_000_000_000_000_000_000;
    NoRoom(c, w, m, t.n, t.l, t.u, K);
  }

  /** A multiple of 10^22 cannot lie strictly above a multiple of 10^22 by less than 10^22. */
  lemma NoRoom(c: int, w: nat, m: nat, n: int, l: int, u: int, K: int)
    requires w > 0 && w * m == 10_000_000_000_000
    requires n - l == K * 20_000_000_000_000_000_000_000 && l + u < 20_000_000_000_000_000_000_000
    ensures var x := c * 200_000_000_000_000_000_000_000_000_000_000_000;
            x <= w * n - w * l || x > w * n + w * u
  {
    var S := 20_000_000_000_000_000_000_000;
    var x := c * m;
    Distribute(w, n - l, l);
    Distribute(w, n, u);
    assert w * (x * S) == c * (10_000_000_000_000 * S) by {
      MulExchange(w, c, m);
      MulAssoc(w, x, S);
    }
    if x <= K { MulMono(x * S, K * S, w); } else { MulMono(n + u + 1, x * S, w); Distribute(w, n + u, 1); }
  }

  /** The double 10^23, which lies just below the power of ten: its upper boundary reaches that. */
  const Short := Request(5960464477539062, 24, 22, false)

  /** Its digits can be counted, with the exponent that it has, though the shortest form asks for more. */
  lemma CountedOnly()
    ensures Short.Valid() && Short.Denominator() <= Short.Numerator() < 10 * Short.Denominator() && Splittable(Short)
    ensures !EstimateOk(Short, false)
  {
    PowersOfTheExample();
    assert Pow(2, 24) == 16777216 by { assert Pow(2, 4) == 16; PowAdd(2, 4, 4); PowAdd(2, 8, 8); PowAdd(2, 16, 8); }
    hide Pow;
  }

  /** An odd significand of 113 bits, times 2^31. */
  const Quad := Request(5192296858534827628530496333007813, 31, 44, false)

  lemma PowersOfTheQuad()
    ensures Pow(2, 1) == 2 && Pow(2, 31) == 0x8000_0000
    ensures Pow(10, 33) == 1_000_000_000_000_000_000_000_000_000_000_000
    ensures Pow(10, 44) == 100_000_000_000_000_000_000_000_000_000_000_000_000_000_000
  {
    TwoTo32();
    PowersOfTheExample();
    PowAdd(2, 31, 1);
    PowAdd(10, 22, 22);
    PowAdd(10, 33, 11);
    assert Pow(10, 4) == 10_000 && Pow(10, 7) == 10_000_000;
    PowAdd(10, 4, 7);
  }

  lemma QuadInterval()
    requires Quad.Valid()
    ensures EstimateOk(Quad, true) && Splittable(Quad) && Quad.Unit() == 1 && Shl(1, 1) == 0x1_0000_0000
    ensures SeenInterval(Quad, true) ==
            Target(223007451985306231415357182889164821474836480, 2 * 100_000_000_000_000_000_000_000_000_000_000_000_000_000_000,
                   21474836480, 21474836480, true, false)
  {
    PowersOfTheQuad();
    hide Pow;
  }

  /**
   A request on which the lower boundary is printed although it does not belong to the
   interval: it lies half way to the number below, to which a reader would round it.
   */
  lemma PrintedBoundary(a: int, j: nat)
    requires Quad.Valid() && Shortest(SeenInterval(Quad, true), a, j)
    ensures EstimateOk(Quad, true) && Splittable(Quad) && !Blind(SeenInterval(Quad, true), Quad.Unit())
    ensures a == 1115037259926531157076785914445824 && j == 33
    ensures LowEnd(Interval(Quad, true), a, j) && !Inside(Interval(Quad, true), a, j)
  {
    QuadInterval();
    PowersOfTheQuad();
    hide Pow, EstimateOk, Splittable, Request.Unit, Request.LowerExp;
    var t, e := SeenInterval(Quad, true), 1115037259926531157076785914445824;
    assert LowEnd(t, e, 33);
    EndInside(t, e, 33);
    assert j <= 33;
    OnlyLowEnd(t, e, 33, a, j);
    LastPlace(a, 33 - j, e);
  }

  /** A number that does not end in 0 is no multiple of a power of ten. */
  lemma LastPlace(a: int, k: nat, e: int)
    requires a * Pow(10, k) == e && e % 10 != 0
    ensures k == 0 && a == e
  {
    if k > 0 {
      MulExchange(a, 10, Pow(10, k - 1));
    } else {
      assert Pow(10, 0) == 1;
    }
  }

  /** The value 10^32, written with a significand of 76 bits. */
  const Ten32 := Request(46566128730773925781250, 31, 32, false)

  /** It starts blind, with or without the fixup: the loop prints 10 for the value 10^32, one digit too many. */
  lemma BlindExample(fixup: bool)
    requires Ten32.Valid()
    ensures EstimateOk(Ten32, fixup) && Splittable(Ten32)
    ensures Blind(SeenInterval(Ten32, fixup), Ten32.Unit()) && Inside(Interval(Ten32, fixup), 1, 0)
  {
    PowersOfTheQuad();
    PowersOfTheExample();
    PowAdd(10, 22, 10);
    assert Pow(10, 10) == 10_000_000_000 by { assert Pow(10, 5) == 100_000; PowAdd(10, 5, 5); }
    assert Shl(1, 1) == 0x1_0000_0000;
    assert Pow(10, 0) == 1;
    hide Pow, Shl;
  }

  /** The only significands with which a power of ten can be moved further than its denominator. */
  predicate FiveSignificand(f: nat)
  {
    f == 931322574615478515625 || f == 4656612873077392578125 || f == 2 * 4656612873077392578125
  }

  /** Every significand of 24, 53, 64 or 113 bits, with its top bit set. */
  predicate Normalised(f: nat)
  {
    f < 0x1_0000_0000_0000_0000 || 0x1_0000_0000_0000_0000_0000_0000_0000 <= f
  }

  /** Only a value that is 5^30, 5^31 or 2 * 5^31 times a power of two is not split into digits. */
  lemma AlwaysSplittable(q: Request)
    requires q.Valid()
    ensures FiveSignificand(q.f) || Splittable(q)
    ensures Normalised(q.f) ==> Splittable(q)
  {
    hide Pow, FiveSignificand, Request.Numerator, Request.Denominator;
    if q.NumeratorExp() > q.DenominatorExp() && !FiveSignificand(q.f) {
      forall i: nat ensures Pow(10, i) * q.Numerator() != q.Denominator() {
        if Pow(10, i) * q.Numerator() == q.Denominator() { EqualMeans(q, i); }
      }
    }
    FiveIsNotNormalised(q.f);
  }

  lemma FiveIsNotNormalised(f: nat)
    ensures Normalised(f) ==> !FiveSignificand(f)
  {
  }

  lemma EqualMeans(q: Request, i: nat)
    requires q.Valid() && q.NumeratorExp() > q.DenominatorExp() && Pow(10, i) * q.Numerator() == q.Denominator()
    ensures FiveSignificand(q.f)
  {
    hide Pow, FiveSignificand;
    if q.e >= 0 {
      var p := Pow(2, q.Shift());
      MulExchange(Pow(10, i), p, q.f * Pow(2, q.e));
      Cancel(p, Pow(10, i) * (q.f * Pow(2, q.e)), Pow(10, q.exp10));
      SplitPower(q.f, q.e, q.exp10, i);
      hide Request.Numerator, Request.Denominator;
      Significand(q.f, q.e, q.Shift(), q.exp10, q.exp10 - i);
    } else {
      var y := -q.exp10;
      assert Pow(10, y) == 10 * Pow(10, y - 1) by { TenTimes(); }
      FiveDivides(Pow(10, i), Pow(2, q.Shift()), q.f, Pow(10, y - 1));
      NoFive(q.Shift() - q.e);
    }
  }

  lemma FiveDivides(a: int, b: int, c: int, d: int)
    ensures (a * (b * (c * (10 * d)))) % 5 == 0
  {
    var x := a * (b * (c * d));
    MulExchange(c, 10, d);
    MulExchange(b, 10, c * d);
    MulExchange(a, 10, b * (c * d));
    assert a * (b * (c * (10 * d))) == 5 * (2 * x);
  }

  lemma FiveTimes(x: int)
    ensures (5 * x) % 2 == x % 2
  {
  }

  lemma TwoTimes(x: int)
    ensures x % 5 != 0 ==> (2 * x) % 5 != 0
  {
  }

  lemma {:induction false} NoFive(n: nat)
    ensures Pow(2, n) % 5 != 0
  {
    if n > 0 {
      NoFive(n - 1);
      TwoTimes(Pow(2, n - 1));
    }
  }

  lemma {:induction false} OddPower(n: nat)
    ensures Pow(5, n) % 2 == 1
  {
    if n > 0 {
      OddPower(n - 1);
      FiveTimes(Pow(5, n - 1));
    }
  }

  lemma Cancel(a: nat, x: int, y: int)
    requires a > 0 && a * x == a * y
    ensures x == y
  {
    if x < y { MulMono(x + 1, y, a); Distribute(a, x, 1); }
    if y < x { MulMono(y + 1, x, a); Distribute(a, y, 1); }
  }

  /** A number that a power of ten completes to a power of ten is a power of five times one of two. */
  lemma SplitPower(f: nat, e: nat, x: nat, i: nat)
    requires f > 0 && Pow(10, i) * (f * Pow(2, e)) == Pow(10, x)
    ensures e <= x - i && f == Pow(5, x - i) * Pow(2, x - i - e)
  {
    hide Pow;
    MulMono(1, Pow(2, e), f);
    MulMono(1, f * Pow(2, e), Pow(10, i));
    if i > x {
      PowMono(10, x + 1, i);
      TenTimes();
    } else {
      var k := x - i;
      PowAdd(10, i, k);
      Cancel(Pow(10, i), f * Pow(2, e), Pow(10, k));
      PowProduct(2, 5, k);
      OddPower(k);
      if k < e {
        PowAdd(2, k, e - k);
        PowAdd(2, 1, e - k - 1);
        PowFew();
        MulExchange(f, Pow(2, k), Pow(2, e - k));
        Cancel(Pow(2, k), f * Pow(2, e - k), Pow(5, k));
        MulExchange(f, 2, Pow(2, e - k - 1));
      } else {
        PowAdd(2, e, k - e);
        MulExchange(f, Pow(2, e), 1);
        MulAssoc(Pow(2, e), Pow(2, k - e), Pow(5, k));
        Cancel(Pow(2, e), f, Pow(2, k - e) * Pow(5, k));
      }
    }
  }

  lemma Significand(f: nat, e: nat, shift: nat, x: nat, k: nat)
    requires 1 <= shift <= 2 && (e + shift) / 32 > x / 32 && e <= k <= x
    requires f == Pow(5, k) * Pow(2, k - e) && f < 0x1_0000_0000_0000_0000_0000_0000_0000_0000
    ensures FiveSignificand(f)
  {
    FivesFew();
    PowFew();
    PowZeroTwo();
    hide Pow;
    var w := (e + shift) / 32;
    assert x < 32 * w <= e + shift;
    MulMono(1, Pow(2, k - e), Pow(5, k));
    if e >= 62 {
      PowMono(5, 62, k);
    } else {
      assert w == 1;
    }
  }

  lemma PowZeroTwo()
    ensures Pow(2, 0) == 1
  {
  }

  lemma FivesFew()
    ensures Pow(5, 30) == 931322574615478515625 && Pow(5, 31) == 4656612873077392578125
    ensures Pow(5, 62) > 0x1_0000_0000_0000_0000_0000_0000_0000_0000
  {
    assert Pow(5, 5) == 3125;
    hide Pow;
    PowAdd(5, 5, 5);
    PowAdd(5, 10, 10);
    PowAdd(5, 20, 10);
    PowAdd(5, 30, 1);
    PowAdd(5, 31, 31);
    PowOne(5);
  }
}
