/** Schoolbook squaring: the digit products on one diagonal, and their weighted sum. */
module Convolution {
  import opened Bigits
  import opened Powers
  import opened Carries

  function At(b: seq<Bigit>, k: int): Bigit
  {
    if 0 <= k < |b| then b[k] else 0
  }

  /** The sum of a[i] * b[k - i] over all i. */
  function Diagonal(a: seq<Bigit>, b: seq<Bigit>, k: int): nat
  {
    if |a| == 0 || k < 0 then 0 else a[0] * At(b, k) + Diagonal(a[1..], b, k - 1)
  }

  /** The first n diagonals, each in its place. */
  function Diagonals(a: seq<Bigit>, b: seq<Bigit>, n: nat): int
  {
    if n == 0 then 0 else Diagonals(a, b, n - 1) + Shl(Diagonal(a, b, n - 1), n - 1)
  }

  function Prefix(b: seq<Bigit>, n: nat): seq<Bigit>
  {
    if n < |b| then b[..n] else b
  }

  lemma PrefixNext(b: seq<Bigit>, n: nat)
    ensures Val(Prefix(b, n + 1)) == Val(Prefix(b, n)) + Shl(At(b, n), n)
  {
    if n < |b| {
      ValNext(b, n);
      assert b[..|b|] == b;
    } else {
      ShlSign(0, n);
    }
  }

  /** Taking the lowest bigit off a shifts the rest of the product by one place. */
  lemma {:induction false} DiagonalsStep(a: seq<Bigit>, b: seq<Bigit>, n: nat)
    requires |a| > 0
    ensures Diagonals(a, b, n) == a[0] * Val(Prefix(b, n)) + if n == 0 then 0 else B * Diagonals(a[1..], b, n - 1)
  {
    if n == 0 {
      assert Prefix(b, 0) == [];
    } else {
      DiagonalsStep(a, b, n - 1);
      PrefixNext(b, n - 1);
      DiagonalShift(a, b, n - 1);
      Distribute(a[0], Val(Prefix(b, n - 1)), Shl(At(b, n - 1), n - 1));
    }
  }

  lemma DiagonalShift(a: seq<Bigit>, b: seq<Bigit>, k: nat)
    requires |a| > 0
    ensures Shl(Diagonal(a, b, k), k) ==
            a[0] * Shl(At(b, k), k) + if k == 0 then 0 else B * Shl(Diagonal(a[1..], b, k - 1), k - 1)
  {
    var x: int, y: int := a[0] * At(b, k), Diagonal(a[1..], b, k - 1);
    ShlAdd(x, y, k);
    ShlScale(a[0], At(b, k), k);
    if k == 0 { assert Shl(y, 0) == 0; }
  }

  /** All the diagonals together are the product. */
  lemma {:induction false} DiagonalsAreProduct(a: seq<Bigit>, b: seq<Bigit>, n: nat)
    requires n >= |a| + |b|
    ensures Diagonals(a, b, n) == Val(a) * Val(b)
  {
    if |a| == 0 {
      NoDiagonals(a, b, n);
    } else {
      DiagonalsAreProduct(a[1..], b, n - 1);
      DiagonalsStep(a, b, n);
      assert Prefix(b, n) == b;
      ProductStep(a[0], Val(a[1..]), Val(b));
    }
  }

  lemma ProductStep(d: int, h: int, v: int)
    ensures (d + B * h) * v == d * v + B * (h * v)
  {
    MulAssoc(B, h, v);
    Distribute(v, d, B * h);
  }

  lemma {:induction false} NoDiagonals(a: seq<Bigit>, b: seq<Bigit>, n: nat)
    requires |a| == 0
    ensures Diagonals(a, b, n) == 0
  {
    if n > 0 {
      NoDiagonals(a, b, n - 1);
      ShlSign(0, n - 1);
    }
  }

  /** Terms whose partner lies above b contribute nothing: the top half may start late. */
  lemma {:induction false} SkipAbove(a: seq<Bigit>, b: seq<Bigit>, k: int, i: nat)
    requires i <= |a| && k - i >= |b| - 1
    ensures Diagonal(a, b, k) == Diagonal(a[i..], b, k - i)
  {
    if i == 0 {
      assert a[0..] == a;
    } else {
      SkipAbove(a[1..], b, k - 1, i - 1);
      assert a[1..][i - 1..] == a[i..];
    }
  }

  /** A column sum is at most so many products of two bigits. */
  lemma {:induction false} DiagonalBound(a: seq<Bigit>, b: seq<Bigit>, k: int)
    ensures Diagonal(a, b, k) <= |a| * ((B - 1) * (B - 1))
  {
    if |a| > 0 && k >= 0 {
      DiagonalBound(a[1..], b, k - 1);
      MulMono(a[0], B - 1, At(b, k));
      MulMono(At(b, k), B - 1, B - 1);
    }
  }

  /** With what was carried in, it fits the 128-bit accumulator. */
  lemma ColumnFits(a: seq<Bigit>, b: seq<Bigit>, k: int, carry: nat)
    requires |a| <= 0x4000_0000 && carry <= |a| * (B - 1)
    ensures Diagonal(a, b, k) + carry < B * B * B * B
  {
    DiagonalBound(a, b, k);
    MulMono(|a|, 0x4000_0000, (B - 1) * (B - 1));
    MulMono(|a|, 0x4000_0000, B - 1);
  }

  lemma SquareFits(v: nat, m: nat)
    requires v < Shl(1, m)
    ensures v * v < Shl(1, 2 * m)
  {
    hide Shl;
    var w := Shl(1, m);
    ShlShl(1, m, m);
    ShlScale(w, 1, m);
    MulMono(v, w - 1, v);
    MulMono(v, w - 1, w - 1);
    Distribute(w, w, -1);
  }

  /** One column is finished: its digit stays, the rest is carried. */
  lemma ColumnDone(n: seq<Bigit>, s: seq<Bigit>, k: nat, carry: nat, sum: nat)
    requires k < |s|
    requires Val(s[..k]) + Shl(carry, k) == Diagonals(n, n, k)
    requires sum == carry + Diagonal(n, n, k)
    ensures Val(s[k := sum % B][..k + 1]) + Shl(sum / B, k + 1) == Diagonals(n, n, k + 1)
  {
    hide Val, Shl;
    assert s[k := sum % B][..k + 1] == s[..k] + [sum % B];
    AppendDigit(s[..k], sum % B, sum / B);
    ShlAdd(carry, Diagonal(n, n, k), k);
  }

  /** After the last column nothing is left to carry. */
  lemma NoCarryLeft(n: seq<Bigit>, s: seq<Bigit>, carry: nat)
    requires |s| == 2 * |n|
    requires Val(s) + Shl(carry, |s|) == Diagonals(n, n, |s|)
    ensures carry == 0 && Val(s) == Val(n) * Val(n)
  {
    hide Val, Shl;
    DiagonalsAreProduct(n, n, |s|);
    ValBound(n);
    SquareFits(Val(n), |n|);
    ShlMono(1, carry, |s|);
    ShlSign(0, |s|);
  }

  lemma ColumnsStart(n: seq<Bigit>, s: seq<Bigit>)
    ensures Val(s[..0]) + Shl(0, 0) == Diagonals(n, n, 0)
  {
  }

  /** Starting the upper columns late skips only empty terms. */
  lemma ColumnWhole(n: seq<Bigit>, k: nat, i: nat)
    requires k < 2 * |n|
    requires i == if k < |n| then 0 else k - (|n| - 1)
    ensures Diagonal(n[i..], n, k - i) == Diagonal(n, n, k)
  {
    hide *;
    if i == 0 { assert n[0..] == n; } else { SkipAbove(n, n, k, i); }
  }

  const U128 := 0x1_0000_0000_0000_0000_0000_0000_0000_0000

  /** Adds n[i] * n[j] along a diagonal, wrapping at 128 bits as the accumulator would; it never does. */
  method AddColumn(n: seq<Bigit>, start: nat, top: nat, carry: nat) returns (sum: nat)
    requires 0 < |n| <= 0x4000_0000 && start <= |n| && top < |n|
    requires start == 0 || start + top >= |n| - 1
    requires carry <= |n| * (B - 1)
    ensures sum == carry + Diagonal(n[start..], n, top)
    ensures sum <= |n| * (B - 1) * B
  {
    hide Diagonal;
    sum := carry;
    var i, j: int := start, top;
    ColumnBound(n, start, top);
    while j >= 0 && i < |n|
      invariant start <= i <= |n| && -1 <= j == top - (i - start)
      invariant sum + Diagonal(n[i..], n, j) == carry + Diagonal(n[start..], n, top)
      decreases |n| - i
    {
      ColumnTerm(n, i, j);
      sum := (sum + Product(n[i], n[j])) % U128;
      i, j := i + 1, j - 1;
    }
    ColumnEnd(n, i, j);
  }

  function Product(x: Bigit, y: Bigit): nat
  {
    MulMono(0, x, y);
    x as int * y as int
  }

  lemma ColumnTerm(n: seq<Bigit>, i: nat, j: nat)
    requires i < |n| && j < |n|
    ensures Diagonal(n[i..], n, j) == Product(n[i], n[j]) + Diagonal(n[i + 1..], n, j - 1)
  {
    assert n[i..][1..] == n[i + 1..];
  }

  lemma ColumnEnd(n: seq<Bigit>, i: nat, j: int)
    requires i <= |n| && (j < 0 || i == |n|)
    ensures Diagonal(n[i..], n, j) == 0
  {
  }

  lemma ColumnBound(n: seq<Bigit>, start: nat, k: int)
    requires start <= |n| <= 0x4000_0000
    ensures Diagonal(n[start..], n, k) <= |n| * (B - 1) * (B - 1)
  {
    DiagonalBound(n[start..], n, k);
  }
}
