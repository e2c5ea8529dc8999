/** Numbers as bytes, highest byte first. */
module Numbers {
  import opened Basics
  import opened Powers

  /** The low bytes of a value, highest first. */
  function BigEndian(value: nat, size: nat): (r: seq<Byte>)
    ensures |r| == size
  {
    if size == 0 then [] else BigEndian(value / 0x100, size - 1) + [value % 0x100]
  }

  function FromBigEndian(s: seq<Byte>): nat
  {
    if |s| == 0 then 0 else FromBigEndian(s[..|s| - 1]) * 0x100 + s[|s| - 1]
  }

  /** What is read back is the value as far as the operand is wide. */
  lemma {:induction false} ReadsBack(value: nat, size: nat)
    ensures FromBigEndian(BigEndian(value, size)) == value % Pow(0x100, size)
  {
    if size > 0 {
      ReadsBack(value / 0x100, size - 1);
      var s := BigEndian(value, size);
      assert s[..|s| - 1] == BigEndian(value / 0x100, size - 1);
      LowByte(value, Pow(0x100, size - 1));
    }
  }

  /** Byte k of a number is its digit to the base 256, the highest digit first. */
  lemma {:induction false} HighestFirst(value: nat, size: nat, k: nat)
    requires k < size
    ensures BigEndian(value, size)[k] == value / Pow(0x100, size - 1 - k) % 0x100
  {
    var b := BigEndian(value, size);
    if k < size - 1 {
      var p := Pow(0x100, size - 2 - k);
      HighestFirst(value / 0x100, size - 1, k);
      DivTwice(value, p);
    } else {
      assert Pow(0x100, 0) == 1;
    }
  }

  lemma DivTwice(value: nat, p: nat)
    requires p > 0
    ensures value / 0x100 / p == value / (0x100 * p)
  {
    var q, r := value / 0x100, value % 0x100;
    var k, m := q / p, q % p;
    MulAssoc(0x100, p, k);
    assert value == (0x100 * p) * k + (0x100 * m + r);
    DivModUnique(value, 0x100 * p, k, 0x100 * m + r);
  }

  lemma LowByte(value: nat, p: nat)
    requires p > 0
    ensures value / 0x100 % p * 0x100 + value % 0x100 == value % (0x100 * p)
  {
    var q := value / 0x100;
    var r := q % p * 0x100 + value % 0x100;
    var k := q / p;
    assert q == p * k + q % p;
    assert value == 0x100 * q + value % 0x100;
    calc {
      value;
      0x100 * (p * k + q % p) + value % 0x100;
      0x100 * (p * k) + r;
      { assert 0x100 * (p * k) == 0x100 * p * k; }
      0x100 * p * k + r;
    }
    assert q % p <= p - 1;
    assert 0 <= r < 0x100 * p;
    DivModUnique(value, 0x100 * p, k, r);
  }
}
