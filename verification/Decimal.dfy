/** Decimal digit buffers. */
module Decimal {
  import opened Powers

  /** A buffer cell as a number; one past '9' counts ten, as the carry loop uses it. */
  function Numeral(c: char): int
  {
    c as int - '0' as int
  }

  function DigitChar(d: nat): (c: char)
    requires d <= 10
    ensures Numeral(c) == d
  {
    ('0' as int + d) as char
  }

  predicate IsDigits(s: seq<char>)
  {
    forall i :: 0 <= i < |s| ==> 0 <= Numeral(s[i]) <= 9
  }

  /** The number a buffer spells. */
  function Number(s: seq<char>): int
  {
    if |s| == 0 then 0 else 10 * Number(s[..|s| - 1]) + Numeral(s[|s| - 1])
  }

  /** The characters are the ten decimal digits, and a buffer reads from the left. */
  lemma DigitsAreDecimal(s: seq<char>)
    ensures IsDigits(s) <==> forall i :: 0 <= i < |s| ==> s[i] in "0123456789"
    ensures Number("1907") == 1907
  {
    forall c: char ensures 0 <= Numeral(c) <= 9 <==> c in "0123456789" {
      var n := Numeral(c);
      if 0 <= n <= 9 { assert "0123456789"[n] == c; }
    }
    assert "1907"[..3] == "190" && "190"[..2] == "19" && "19"[..1] == "1" && "1"[..0] == "";
  }

  lemma NumberAppend(s: seq<char>, c: char)
    ensures Number(s + [c]) == 10 * Number(s) + Numeral(c)
  {
    assert (s + [c])[..|s|] == s;
  }

  lemma {:induction false} NumberUpdate(s: seq<char>, i: nat, c: char)
    requires i < |s|
    ensures Number(s[i := c]) == Number(s) + (Numeral(c) - Numeral(s[i])) * Pow(10, |s| - 1 - i)
  {
    var n := |s| - 1;
    if i == n {
      assert s[i := c][..n] == s[..n];
    } else {
      NumberUpdate(s[..n], i, c);
      assert s[i := c][..n] == s[..n][i := c];
      MulExchange(10, Numeral(c) - Numeral(s[i]), Pow(10, n - 1 - i));
    }
  }

  lemma {:induction false} NumberRange(s: seq<char>)
    requires IsDigits(s)
    ensures 0 <= Number(s) < Pow(10, |s|)
  {
    if |s| > 0 { NumberRange(s[..|s| - 1]); }
  }

  lemma {:induction false} NumberZeros(s: seq<char>)
    requires |s| > 0 && forall i :: 0 < i < |s| ==> s[i] == '0'
    ensures Number(s) == Numeral(s[0]) * Pow(10, |s| - 1)
  {
    if |s| > 1 {
      NumberZeros(s[..|s| - 1]);
      MulExchange(10, Numeral(s[0]), Pow(10, |s| - 2));
    } else {
      assert s[..0] == [];
    }
  }

  function Abs(x: int): nat { if x < 0 then -x else x }

  /** a is x / d rounded to the nearest integer, ties going to the even one. */
  predicate NearestEven(a: int, x: int, d: int)
  {
    2 * Abs(a * d - x) <= d && (2 * Abs(a * d - x) == d ==> a % 2 == 0)
  }

  lemma NearestEvenUnique(a: int, b: int, x: int, d: int)
    requires d > 0 && NearestEven(a, x, d) && NearestEven(b, x, d)
    ensures a == b
  {
    if a < b {
      MulMono(a + 1, b, d);
      Distribute(d, a, 1);
      if a + 1 < b { MulMono(a + 2, b, d); Distribute(d, a, 2); }
    }
    if b < a {
      MulMono(b + 1, a, d);
      Distribute(d, b, 1);
      if b + 1 < a { MulMono(b + 2, a, d); Distribute(d, b, 2); }
    }
  }

  lemma AbsTimes(k: int, y: int)
    requires k > 0
    ensures Abs(k * y) == k * Abs(y)
  {
  }

  lemma OnlyIfBelow(k: int, x: int, y: int)
    requires k > 0
    ensures k * x <= k * y <==> x <= y
    ensures k * x == k * y <==> x == y
  {
    if x < y { MulMono(x + 1, y, k); Distribute(k, x, 1); }
    if y < x { MulMono(y + 1, x, k); Distribute(k, y, 1); }
  }

  lemma CrossGap(a: int, x: int, d: int, x': int, d': int)
    requires x * d' == x' * d
    ensures d' * (a * d - x) == d * (a * d' - x')
  {
    Distribute(d', a * d, -x);
    Distribute(d, a * d', -x');
    MulExchange(d', a, d);
  }

  /** Rounding looks at the ratio alone. */
  lemma SameRatio(a: int, x: int, d: int, x': int, d': int)
    requires d > 0 && d' > 0 && x * d' == x' * d
    ensures NearestEven(a, x, d) <==> NearestEven(a, x', d')
  {
    CrossGap(a, x, d, x', d');
    SameGap(a * d - x, d, a * d' - x', d');
  }

  lemma SameGap(u: int, d: int, v: int, d': int)
    requires d > 0 && d' > 0 && d' * u == d * v
    ensures 2 * Abs(u) <= d <==> 2 * Abs(v) <= d'
    ensures 2 * Abs(u) == d <==> 2 * Abs(v) == d'
  {
    var g, h := Abs(u), Abs(v);
    AbsTimes(d', u);
    AbsTimes(d, v);
    hide Abs;
    assert d' * (2 * g) == 2 * (d' * g) && d * (2 * h) == 2 * (d * h) && d' * d == d * d';
    OnlyIfBelow(d', 2 * g, d);
    OnlyIfBelow(d, 2 * h, d');
  }

  /** A decimal digit behind other digits decides whether the number is even. */
  lemma LastDigitParity(a: int, q: nat)
    ensures (10 * a + q) % 2 == q % 2
    ensures (10 * a + q + 1) % 2 == 1 - q % 2
  {
    var h, b := q / 2, q % 2;
    Parity(10 * a + q, 5 * a + h, b);
    Parity(10 * a + q + 1, if b == 0 then 5 * a + h else 5 * a + h + 1, 1 - b);
  }

  lemma Parity(m: int, h: int, b: nat)
    requires m == 2 * h + b && b < 2
    ensures m % 2 == b
  {
  }

  /** Floor and remainder, rounded half to even by the parity of the last digit. */
  lemma RoundHalfEven(a: int, q: nat, x: int, d: int, r: int)
    requires r == x - (10 * a + q) * d && 0 <= r < d
    ensures NearestEven(10 * a + q + (if 2 * r > d || (2 * r == d && q % 2 != 0) then 1 else 0), x, d)
  {
    LastDigitParity(a, q);
    RoundedBy(10 * a + q, q % 2 == 0, x, d, r);
  }

  /** The same for a floor that is known to be even or odd. */
  lemma RoundedBy(m: int, even: bool, x: int, d: int, r: int)
    requires r == x - m * d && 0 <= r < d && (even <==> m % 2 == 0) && (even <==> (m + 1) % 2 != 0)
    ensures NearestEven(m + (if 2 * r > d || (2 * r == d && !even) then 1 else 0), x, d)
  {
    OneMore(m, d);
  }

  /** Appending a digit to the part already produced. */
  lemma NextDigit(a: int, w: int, n: int, d: int, num: int, q: int, r: int)
    requires num == w * n - 10 * (a * d) && num == q * d + r
    ensures r == w * n - (10 * a + q) * d
    ensures 10 * r == (10 * w) * n - 10 * ((10 * a + q) * d)
  {
    Distribute(d, 10 * a, q);
    MulAssoc(10, a, d);
    MulAssoc(10, w, n);
  }

  /** A quotient below ten divisors is a decimal digit. */
  lemma QuotientIsDigit(num: int, q: nat, d: int, r: int)
    requires num == q * d + r && 0 <= r && num < 10 * d && d > 0
    ensures q <= 9
    ensures num < d ==> q == 0
    ensures num > 0 && r == 0 ==> q > 0
  {
    if q >= 10 { MulMono(10, q, d); }
    if q >= 1 { MulMono(1, q, d); }
  }
}
