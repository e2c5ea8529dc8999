/** remove_trailing_zeros: divisibility by powers of ten through modular inverses. */
module TrailingZeros {
  import opened Powers

  const W32 := 0x1_0000_0000
  const W64 := 0x1_0000_0000_0000_0000

  /** n rotated right within w = 2^bits values, p = 2^r; the two shifted parts do not overlap. */
  function Rotr(n: nat, p: nat, w: nat): nat
    requires p > 0
  {
    n / p + (n % p) * (w / p)
  }

  /** rotr(n * mod_inv_25, 2) and rotr(n * mod_inv_5, 1) on 32 and on 64 bits. */
  function Rotr25(n: nat): nat { Rotr((n * 0xc28f_5c29) % W32, 4, W32) }

  function Rotr5(n: nat): nat { Rotr((n * 0xcccc_cccd) % W32, 2, W32) }

  function Rotr25Wide(n: nat): nat { Rotr((n * 0x8f5c_28f5_c28f_5c29) % W64, 4, W64) }

  function Rotr5Wide(n: nat): nat { Rotr((n * 0xcccc_cccc_cccc_cccd) % W64, 2, W64) }

  /** The rotated product with the inverse of 25 is small exactly for the multiples of 100. */
  lemma Hundred32(n: nat)
    requires n < W32
    ensures Rotr25(n) <= 0xffff_ffff / 100 <==> n % 100 == 0
    ensures n % 100 == 0 ==> n == 100 * Rotr25(n)
  {
    var m, h := (n * 0xc28f_5c29) % W32, (n * 0xc28f_5c29) / W32;
    assert 25 * m == n + W32 * (19 * n - 25 * h);
    if Rotr25(n) <= 0xffff_ffff / 100 {
      Hundred32Small(n, m, 19 * n - 25 * h);
    }
    if n % 100 == 0 {
      DivModUnique(n * 0xc28f_5c29, W32, 76 * (n / 100), 4 * (n / 100));
    }
  }

  lemma Hundred32Small(n: nat, m: nat, k: int)
    requires n < W32 && m < W32 && 25 * m == n + W32 * k
    requires Rotr(m, 4, W32) <= 0xffff_ffff / 100
    ensures n == 100 * Rotr(m, 4, W32)
  {
    assert m % 4 == 0;
    assert m == 4 * Rotr(m, 4, W32);
  }

  /** The same for 5 and 10. */
  lemma Ten32(n: nat)
    requires n < W32
    ensures Rotr5(n) <= 0xffff_ffff / 10 <==> n % 10 == 0
    ensures n % 10 == 0 ==> n == 10 * Rotr5(n)
  {
    var m, h := (n * 0xcccc_cccd) % W32, (n * 0xcccc_cccd) / W32;
    assert 5 * m == n + W32 * (4 * n - 5 * h);
    if Rotr5(n) <= 0xffff_ffff / 10 {
      Ten32Small(n, m, 4 * n - 5 * h);
    }
    if n % 10 == 0 {
      DivModUnique(n * 0xcccc_cccd, W32, 8 * (n / 10), 2 * (n / 10));
    }
  }

  lemma Ten32Small(n: nat, m: nat, k: int)
    requires n < W32 && m < W32 && 5 * m == n + W32 * k
    requires Rotr(m, 2, W32) <= 0xffff_ffff / 10
    ensures n == 10 * Rotr(m, 2, W32)
  {
    assert m % 2 == 0;
    assert m == 2 * Rotr(m, 2, W32);
  }

  lemma Hundred64(n: nat)
    requires n < W64
    ensures Rotr25Wide(n) <= 0xffff_ffff_ffff_ffff / 100 <==> n % 100 == 0
    ensures n % 100 == 0 ==> n == 100 * Rotr25Wide(n)
  {
    var m, h := (n * 0x8f5c_28f5_c28f_5c29) % W64, (n * 0x8f5c_28f5_c28f_5c29) / W64;
    assert 25 * m == n + W64 * (14 * n - 25 * h);
    if Rotr25Wide(n) <= 0xffff_ffff_ffff_ffff / 100 {
      Hundred64Small(n, m, 14 * n - 25 * h);
    }
    if n % 100 == 0 {
      DivModUnique(n * 0x8f5c_28f5_c28f_5c29, W64, 56 * (n / 100), 4 * (n / 100));
    }
  }

  lemma Hundred64Small(n: nat, m: nat, k: int)
    requires n < W64 && m < W64 && 25 * m == n + W64 * k
    requires Rotr(m, 4, W64) <= 0xffff_ffff_ffff_ffff / 100
    ensures n == 100 * Rotr(m, 4, W64)
  {
    assert m % 4 == 0;
    assert m == 4 * Rotr(m, 4, W64);
  }

  lemma Ten64(n: nat)
    requires n < W64
    ensures Rotr5Wide(n) <= 0xffff_ffff_ffff_ffff / 10 <==> n % 10 == 0
    ensures n % 10 == 0 ==> n == 10 * Rotr5Wide(n)
  {
    var m, h := (n * 0xcccc_cccc_cccc_cccd) % W64, (n * 0xcccc_cccc_cccc_cccd) / W64;
    assert 5 * m == n + W64 * (4 * n - 5 * h);
    if Rotr5Wide(n) <= 0xffff_ffff_ffff_ffff / 10 {
      Ten64Small(n, m, 4 * n - 5 * h);
    }
    if n % 10 == 0 {
      DivModUnique(n * 0xcccc_cccc_cccc_cccd, W64, 8 * (n / 10), 2 * (n / 10));
    }
  }

  lemma Ten64Small(n: nat, m: nat, k: int)
    requires n < W64 && m < W64 && 5 * m == n + W64 * k
    requires Rotr(m, 2, W64) <= 0xffff_ffff_ffff_ffff / 10
    ensures n == 10 * Rotr(m, 2, W64)
  {
    assert m % 2 == 0;
    assert m == 2 * Rotr(m, 2, W64);
  }

  const MAGIC: nat := 12379400392853802749
  const TWO90: nat := 0x4000000_0000_0000_0000_0000

  /** The 2^90 / 10^8 test: exact for every 64-bit n, and the quotient comes with it. */
  lemma HundredMillion(n: nat)
    requires n < W64
    ensures (n * MAGIC) % TWO90 < MAGIC <==> n % 100_000_000 == 0
    ensures n % 100_000_000 == 0 ==> (n * MAGIC) / TWO90 == n / 100_000_000
  {
    var c, r := n / 100_000_000, n % 100_000_000;
    assert 100_000_000 * MAGIC == TWO90 + 875776;
    assert n * MAGIC == c * TWO90 + (c * 875776 + r * MAGIC);
    DivModUnique(n * MAGIC, TWO90, c, c * 875776 + r * MAGIC);
  }

  /** The portable product of two 64-bit words (high, low) from four 32-bit products. */
  function Umul128(x: nat, y: nat): (nat, nat)
  {
    var a, b, c, d := Upper32(x), Lower32(x), Upper32(y), Lower32(y);
    var ac, bc, ad, bd := a * c, b * c, a * d, b * d;
    (Lower64(UmulHigh(ac, bc, ad, bd)), Lower64(UmulLow(bc, ad, bd)))
  }

  function Upper32(x: nat): nat { x / W32 }

  function Lower32(x: nat): nat { x % W32 }

  function Lower64(x: nat): nat { x % W64 }

  lemma HalvesOf(x: nat)
    requires x < W64
    ensures Upper32(x) < W32 && Lower32(x) < W32 && x == Upper32(x) * W32 + Lower32(x)
  {
  }

  lemma FitsWord(x: nat)
    requires x < W64
    ensures Lower64(x) == x
  {
  }

  function Intermediate(bc: nat, ad: nat, bd: nat): nat
  {
    bd / W32 + ad % W32 + bc % W32
  }

  function UmulHigh(ac: nat, bc: nat, ad: nat, bd: nat): nat
  {
    ac + Intermediate(bc, ad, bd) / W32 + ad / W32 + bc / W32
  }

  function UmulLow(bc: nat, ad: nat, bd: nat): nat
  {
    (Intermediate(bc, ad, bd) % W32) * W32 + bd % W32
  }

  lemma Umul128Exact(x: nat, y: nat)
    requires x < W64 && y < W64
    ensures var p := Umul128(x, y); p.0 < W64 && p.1 < W64 && p.0 * W64 + p.1 == x * y
  {
    hide UmulHigh, UmulLow, Upper32, Lower32, Lower64;
    var a, b, c, d := Upper32(x), Lower32(x), Upper32(y), Lower32(y);
    HalvesOf(x);
    HalvesOf(y);
    UmulOfHalves(x, y, a, b, c, d);
    FitsWord(UmulHigh(a * c, b * c, a * d, b * d));
    FitsWord(UmulLow(b * c, a * d, b * d));
  }

  lemma UmulOfHalves(x: int, y: int, a: nat, b: nat, c: nat, d: nat)
    requires a < W32 && b < W32 && c < W32 && d < W32
    requires x == a * W32 + b && y == c * W32 + d
    ensures var hi, lo := UmulHigh(a * c, b * c, a * d, b * d), UmulLow(b * c, a * d, b * d);
            hi < W64 && lo < W64 && hi * W64 + lo == x * y
  {
    hide *;
    Halves(a, b, c, d);
    assert (a * W32 + b) * (c * W32 + d) == x * y;
    Assembled(a * c, b * c, a * d, b * d);
  }

  lemma Halves(a: nat, b: nat, c: nat, d: nat)
    requires a < W32 && b < W32 && c < W32 && d < W32
    ensures (a * W32 + b) * (c * W32 + d) == a * c * W64 + (b * c + a * d) * W32 + b * d
    ensures 0 <= a * c <= (W32 - 1) * (W32 - 1) && 0 <= b * c <= (W32 - 1) * (W32 - 1)
    ensures 0 <= a * d <= (W32 - 1) * (W32 - 1) && 0 <= b * d <= (W32 - 1) * (W32 - 1)
  {
    ProductBelow(a, c);
    ProductBelow(b, c);
    ProductBelow(a, d);
    ProductBelow(b, d);
    Expand(a, b, c, d);
  }

  lemma Expand(a: int, b: int, c: int, d: int)
    ensures (a * W32 + b) * (c * W32 + d) == a * c * W64 + (b * c + a * d) * W32 + b * d
  {
    Distribute(a * W32 + b, c * W32, d);
    Distribute(c, a * W32, b);
    Distribute(d, a * W32, b);
    MulAssoc(a, W32, c);
  }

  lemma ProductBelow(x: nat, y: nat)
    requires x < W32 && y < W32
    ensures 0 <= x * y <= (W32 - 1) * (W32 - 1)
  {
    MulMono(x, W32 - 1, y);
    MulMono(0, x, y);
  }

  lemma Assembled(ac: nat, bc: nat, ad: nat, bd: nat)
    requires ac <= (W32 - 1) * (W32 - 1) && bc <= (W32 - 1) * (W32 - 1)
    requires ad <= (W32 - 1) * (W32 - 1) && bd <= (W32 - 1) * (W32 - 1)
    ensures var hi, lo := UmulHigh(ac, bc, ad, bd), UmulLow(bc, ad, bd);
            hi < W64 && lo < W64 && hi * W64 + lo == ac * W64 + (bc + ad) * W32 + bd
  {
  }

  /** One pair of zeros after another, then at most one more; s counts them. */
  method RemoveTrailingZeros32(n: nat, s: nat) returns (n': nat, s': nat)
    requires 0 < n < W32 && s % 2 == 0
    ensures s' >= s && n == n' * Pow(10, s' - s) && n' % 10 != 0
  {
    hide Rotr25, Rotr5, Pow;
    PowBase();
    n', s' := n, s;
    while true
      invariant 0 < n' < W32 && s' >= s && s' % 2 == 0 && n == n' * Pow(10, s' - s)
      decreases n'
    {
      Hundred32(n');
      var q := Rotr25(n');
      if q > 0xffff_ffff / 100 { break; }
      TwoZeros(n', q, s' - s);
      n' := q;
      s' := s' + 2;
    }
    Ten32(n');
    var q := Rotr5(n');
    if q <= 0xffff_ffff / 10 {
      OneZero(n', q, s' - s);
      LastZero(n', q);
      n' := q;
      s' := s' + 1;
    }
  }

  lemma LastZero(n: nat, q: nat)
    requires n == 10 * q
    ensures n % 100 == 0 <==> q % 10 == 0
  {
    assert n == 100 * (q / 10) + 10 * (q % 10);
  }

  lemma PowBase()
    ensures Pow(10, 0) == 1
  {
  }

  lemma TwoZeros(n: nat, q: nat, k: nat)
    requires n == 100 * q
    ensures n * Pow(10, k) == q * Pow(10, k + 2)
  {
    OneZero(n, 10 * q, k);
    OneZero(10 * q, q, k + 1);
  }

  lemma OneZero(n: nat, q: nat, k: nat)
    requires n == 10 * q
    ensures n * Pow(10, k) == q * Pow(10, k + 1)
  {
    MulAssoc(10, q, Pow(10, k));
    MulExchange(10, q, Pow(10, k));
  }

  /** The work on n itself, when it is no multiple of 10^8. */
  method RemovePairs64(n: nat) returns (n': nat, s: nat)
    requires 0 < n < W64
    ensures n == n' * Pow(10, s) && n' % 10 != 0
  {
    hide Rotr25Wide, Rotr5Wide, Pow;
    PowBase();
    n', s := n, 0;
    while true
      invariant 0 < n' < W64 && s % 2 == 0 && n == n' * Pow(10, s)
      decreases n'
    {
      Hundred64(n');
      var q := Rotr25Wide(n');
      if q > 0xffff_ffff_ffff_ffff / 100 { break; }
      TwoZeros(n', q, s);
      n' := q;
      s := s + 2;
    }
    Ten64(n');
    var q := Rotr5Wide(n');
    if q <= 0xffff_ffff_ffff_ffff / 10 {
      OneZero(n', q, s);
      LastZero(n', q);
      n' := q;
      s := s + 1;
    }
  }

  /**
   Exact for every n but the multiples of 10^8 from 2^32 * 10^8 on, whose quotient the cast
   to 32 bits cuts; a quotient that is cut to zero violates the callee's assertion.
   */
  method RemoveTrailingZeros64(n: nat) returns (n': nat, s: nat)
    requires 0 < n < W64
    requires n % 100_000_000 == 0 ==> (n / 100_000_000) % W32 != 0
    ensures n == n' * Pow(10, s) && n' % 10 != 0 <==> n % 100_000_000 != 0 || n < W32 * 100_000_000
  {
    hide Pow, Umul128;
    var nm := Umul128(n, MAGIC);
    Umul128Exact(n, MAGIC);
    HundredMillion(n);
    HighLow(nm.0, nm.1, n * MAGIC);
    if nm.0 % 0x400_0000 == 0 && nm.1 < MAGIC {
      var n32 := (nm.0 / 0x400_0000) % W32;
      n', s := RemoveTrailingZeros32(n32, 8);
      CutQuotient(n, n32, n', s);
      return;
    }
    n', s := RemovePairs64(n);
  }

  lemma HighLow(hi: nat, lo: nat, x: nat)
    requires lo < W64 && x == hi * W64 + lo
    ensures x / TWO90 == hi / 0x400_0000
    ensures x % TWO90 < MAGIC <==> hi % 0x400_0000 == 0 && lo < MAGIC
  {
  }

  /** Eight zeros and those of the quotient, if the quotient was not cut. */
  lemma CutQuotient(n: nat, n32: nat, n': nat, s: nat)
    requires 0 < n < W64 && n % 100_000_000 == 0 && n32 == (n / 100_000_000) % W32 && s >= 8
    requires n32 == n' * Pow(10, s - 8)
    ensures n == n' * Pow(10, s) <==> n < W32 * 100_000_000
  {
    var c := n / 100_000_000;
    DivModIdentity(n, 100_000_000);
    TenTo8();
    PowAdd(10, 8, s - 8);
    hide Pow;
    MulExchange(n', Pow(10, 8), Pow(10, s - 8));
    SmallRemainder(c, W32);
  }

  /** (2^32 + 1) * 10^8 is taken for 10^8. */
  lemma CutExample(n': nat, s: nat)
    requires var n := (W32 + 1) * 100_000_000; s >= 8 && (n / 100_000_000) % W32 == n' * Pow(10, s - 8)
    ensures n' * Pow(10, s) == 100_000_000
  {
    TenTo8();
    PowAdd(10, 8, s - 8);
    hide Pow;
    MulExchange(n', Pow(10, 8), Pow(10, s - 8));
  }

  lemma TenTo8()
    ensures Pow(10, 8) == 100_000_000
  {
    PowAdd(10, 4, 4);
    assert Pow(10, 4) == 10_000;
  }

  lemma SmallRemainder(c: nat, m: nat)
    requires m > 0
    ensures c % m == c <==> c < m
  {
    if c < m { DivModUnique(c, m, 0, c); }
  }
}
