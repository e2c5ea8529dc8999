/** Integer powers and the few nonlinear facts the other modules need. */
module Powers {

  function Pow(b: nat, e: nat): (p: nat)
    ensures b > 0 ==> p > 0
  {
    if e == 0 then 1 else b * Pow(b, e - 1)
  }

  lemma MulAssoc(a: int, b: int, c: int)
    ensures (a * b) * c == a * (b * c)
  {
  }

  lemma Distribute(w: int, x: int, y: int)
    ensures w * (x + y) == w * x + w * y
  {
  }

  lemma OneMore(q: int, x: int)
    ensures (q + 1) * x == q * x + x
  {
  }

  lemma MulExchange(a: int, b: int, c: int)
    ensures a * (b * c) == b * (a * c)
  {
    MulAssoc(a, b, c);
    MulAssoc(b, a, c);
  }

  lemma MulSwap(a: int, b: int, x: int, y: int)
    ensures (a * b) * (x * y) == (a * x) * (b * y)
  {
    MulAssoc(a, b, x * y);
    MulAssoc(b, x, y);
    MulAssoc(x, b, y);
    MulAssoc(a, x, b * y);
  }

  lemma MulMono(a: int, b: int, k: int)
    requires a <= b && 0 <= k
    ensures a * k <= b * k
    ensures k * a <= k * b
  {
  }

  lemma {:induction false} PowAdd(b: nat, m: nat, n: nat)
    ensures Pow(b, m + n) == Pow(b, m) * Pow(b, n)
  {
    if m == 0 {
    } else {
      PowAdd(b, m - 1, n);
      MulAssoc(b, Pow(b, m - 1), Pow(b, n));
    }
  }

  lemma {:induction false} PowMono(b: nat, m: nat, n: nat)
    requires b > 0 && m <= n
    ensures Pow(b, m) <= Pow(b, n)
  {
    PowAdd(b, m, n - m);
    MulMono(1, Pow(b, n - m), Pow(b, m));
  }

  lemma {:induction false} PowProduct(a: nat, b: nat, e: nat)
    ensures Pow(a * b, e) == Pow(a, e) * Pow(b, e)
  {
    if e > 0 {
      PowProduct(a, b, e - 1);
      MulSwap(a, b, Pow(a, e - 1), Pow(b, e - 1));
    }
  }

  lemma {:induction false} PowBaseMono(a: nat, b: nat, e: nat)
    requires a <= b
    ensures Pow(a, e) <= Pow(b, e)
  {
    if e > 0 {
      PowBaseMono(a, b, e - 1);
      MulMono(a, b, Pow(a, e - 1));
      MulMono(Pow(a, e - 1), Pow(b, e - 1), b);
    }
  }

  lemma DivModIdentity(x: nat, q: nat)
    requires q > 0
    ensures x == q * (x / q) + x % q
    ensures 0 <= x % q < q
  {
  }

  /** Quotient and remainder are the only pair that fits. */
  lemma DivModUnique(x: nat, q: nat, c: nat, r: nat)
    requires q > 0 && x == q * c + r && r < q
    ensures x / q == c && x % q == r
  {
    DivModIdentity(x, q);
    var c', r' := x / q, x % q;
    if c' < c { MulMono(c' + 1, c, q); Distribute(q, c', 1); }
    if c' > c { MulMono(c + 1, c', q); Distribute(q, c, 1); }
  }

  lemma TwoTo32()
    ensures Pow(2, 32) == 0x1_0000_0000
  {
    assert Pow(2, 4) == 16;
    hide Pow;
    PowAdd(2, 4, 4);
    PowAdd(2, 8, 8);
    PowAdd(2, 16, 16);
  }

  /** The leading bits of x, down to the one that the mask m selects. */
  function LeadingBits(x: nat, m: nat): nat
    requires m > 0
  {
    x / m
  }

  lemma LeadingBitsSplit(x: nat, m: nat) returns (r: nat)
    requires m > 0
    ensures x == m * LeadingBits(x, m) + r && r < m
  {
    DivModIdentity(x, m);
    r := x % m;
  }

  /** Reading one more bit of x: with a mask of half the size the prefix doubles and gains the bit. */
  lemma NextBit(x: nat, m: nat, d: nat)
    requires m > 0 && d == 2 * m
    ensures LeadingBits(x, m) == 2 * LeadingBits(x, d) + LeadingBits(x, m) % 2
  {
    hide LeadingBits;
    var r := LeadingBitsSplit(x, d);
    Halve(x, m, d, LeadingBits(x, d), r);
  }

  lemma Halve(x: nat, m: nat, d: nat, c: nat, r: nat)
    requires m > 0 && d == 2 * m && x == d * c + r && r < d
    ensures LeadingBits(x, m) == 2 * c + LeadingBits(x, m) % 2
  {
    MulAssoc(2, m, c);
    MulExchange(2, m, c);
    if r < m {
      DivModUnique(x, m, 2 * c, r);
    } else {
      Distribute(m, 2 * c, 1);
      DivModUnique(x, m, 2 * c + 1, r - m);
    }
  }
}
