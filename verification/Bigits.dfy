/** Little-endian sequences of 32-bit bigits and the integers they denote. */
module Bigits {

  const B := 0x1_0000_0000

  type Bigit = x: int | 0 <= x < B

  /** x moved up by k bigits: x times 2^(32k), by steps the verifier can follow linearly. */
  function Shl(x: int, k: nat): int
  {
    if k == 0 then x else B * Shl(x, k - 1)
  }

  function Val(s: seq<Bigit>): nat
  {
    if |s| == 0 then 0 else s[0] + B * Val(s[1..])
  }

  lemma {:induction false} ShlAdd(x: int, y: int, k: nat)
    ensures Shl(x + y, k) == Shl(x, k) + Shl(y, k)
  {
    if k > 0 { ShlAdd(x, y, k - 1); }
  }

  lemma ShlSub(x: int, y: int, k: nat)
    ensures Shl(x - y, k) == Shl(x, k) - Shl(y, k)
  {
    ShlAdd(x - y, y, k);
  }

  lemma {:induction false} ShlShl(x: int, j: nat, k: nat)
    ensures Shl(Shl(x, j), k) == Shl(x, j + k)
  {
    if k > 0 { ShlShl(x, j, k - 1); }
  }

  lemma {:induction false} ShlB(x: int, k: nat)
    ensures Shl(B * x, k) == Shl(x, k + 1) == B * Shl(x, k)
  {
    if k > 0 { ShlB(x, k - 1); }
  }

  lemma {:induction false} ShlMono(x: int, y: int, k: nat)
    ensures x <= y ==> Shl(x, k) <= Shl(y, k)
    ensures x < y ==> Shl(x, k) < Shl(y, k)
  {
    if k > 0 { ShlMono(x, y, k - 1); }
  }

  lemma {:induction false} ShlSign(x: int, k: nat)
    ensures x == 0 ==> Shl(x, k) == 0
    ensures x > 0 ==> Shl(x, k) >= x
    ensures x < 0 ==> Shl(x, k) <= x
  {
    if k > 0 { ShlSign(x, k - 1); }
  }

  /** A longer shift of a positive number is at least as large. */
  lemma ShlLonger(x: int, j: nat, k: nat)
    requires x >= 0 && j <= k
    ensures Shl(x, j) <= Shl(x, k)
  {
    ShlShl(x, j, k - j);
    ShlSign(x, j);
    ShlSign(Shl(x, j), k - j);
  }

  lemma {:induction false} ShlScale(c: int, x: int, k: nat)
    ensures Shl(c * x, k) == c * Shl(x, k)
  {
    if k > 0 {
      ShlScale(c, x, k - 1);
      ScaleB(c, Shl(x, k - 1));
    }
  }

  lemma ScaleB(c: int, x: int)
    ensures c * (B * x) == B * (c * x)
  {
  }

  lemma {:induction false} ValAppend(s: seq<Bigit>, t: seq<Bigit>)
    ensures Val(s + t) == Val(s) + Shl(Val(t), |s|)
  {
    if |s| == 0 {
      assert s + t == t;
    } else {
      ValAppend(s[1..], t);
      assert (s + t)[1..] == s[1..] + t;
    }
  }

  lemma ValSnoc(s: seq<Bigit>, d: Bigit)
    ensures Val(s + [d]) == Val(s) + Shl(d, |s|)
  {
    ValAppend(s, [d]);
    assert Val([d]) == d;
  }

  /** Adding the next bigit to a prefix. */
  lemma ValNext(s: seq<Bigit>, i: nat)
    requires i < |s|
    ensures Val(s[..i + 1]) == Val(s[..i]) + Shl(s[i], i)
  {
    assert s[..i + 1] == s[..i] + [s[i]];
    ValSnoc(s[..i], s[i]);
  }

  lemma ValSplit(s: seq<Bigit>, i: nat)
    requires i <= |s|
    ensures Val(s) == Val(s[..i]) + Shl(Val(s[i..]), i)
  {
    var lo, hi := s[..i], s[i..];
    assert s == lo + hi;
    ValAppend(lo, hi);
  }

  lemma {:induction false} ValBound(s: seq<Bigit>)
    ensures Val(s) < Shl(1, |s|)
  {
    if |s| > 0 { ValBound(s[1..]); }
  }

  /** A top bigit other than zero bounds the value from below. */
  lemma {:induction false} ValTop(s: seq<Bigit>)
    requires |s| > 0 && s[|s| - 1] != 0
    ensures Val(s) >= Shl(1, |s| - 1)
  {
    if |s| > 1 { ValTop(s[1..]); }
  }

  /** Conversely, a value this large needs its top bigit. */
  lemma TopFromValue(s: seq<Bigit>)
    requires |s| > 0 && Val(s) >= Shl(1, |s| - 1)
    ensures s[|s| - 1] != 0
  {
    var n := |s| - 1;
    assert s[..n + 1] == s;
    ValNext(s, n);
    ValBound(s[..n]);
    ShlSign(s[n], n);
  }

  function Zeros(n: nat): (z: seq<Bigit>)
    ensures |z| == n
  {
    seq(n, _ => 0)
  }

  lemma {:induction false} ValZeros(n: nat)
    ensures Val(Zeros(n)) == 0
  {
    if n > 0 {
      assert Zeros(n)[1..] == Zeros(n - 1);
      ValZeros(n - 1);
    }
  }

  lemma {:induction false} ValZeroDigits(s: seq<Bigit>)
    requires Val(s) == 0
    ensures forall i :: 0 <= i < |s| ==> s[i] == 0
  {
    if |s| > 0 {
      ValZeroDigits(s[1..]);
      forall i | 0 <= i < |s| ensures s[i] == 0 {
        assert i > 0 ==> s[i] == s[1..][i - 1];
      }
    }
  }
}
