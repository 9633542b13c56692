/** Powers of two, and bitwise or of two's-complement integers. */
module Bits {
  function Pow2(n: nat): nat {
    if n == 0 then 1 else 2 * Pow2(n - 1)
  }

  function Pow256(n: nat): (r: nat)
    ensures r > 0
  {
    if n == 0 then 1 else 256 * Pow256(n - 1)
  }

  function Magnitude(a: int): nat {
    if a >= 0 then a else -1 - a
  }

  /** Bitwise or; halving rounds down. */
  function Or(a: int, b: int): int
    decreases Magnitude(a) + Magnitude(b)
  {
    if Magnitude(a) == 0 && Magnitude(b) == 0 then (if a == 0 then b else a)
    else 2 * Or(a / 2, b / 2) + if a % 2 == 1 || b % 2 == 1 then 1 else 0
  }

  lemma {:induction false} OrZero(a: int)
    ensures Or(a, 0) == a && Or(a, -1) == -1
    decreases Magnitude(a)
  {
    if Magnitude(a) != 0 { OrZero(a / 2); }
  }

  lemma {:induction false} ZeroOr(a: int)
    ensures Or(0, a) == a
    decreases Magnitude(a)
  {
    if Magnitude(a) != 0 { ZeroOr(a / 2); }
  }

  lemma OrDouble(t: int, x: int)
    ensures Or(2 * t, x) == 2 * Or(t, x / 2) + x % 2
  {
    var y := 2 * t;
    assert y / 2 == t && y % 2 == 0;
    assert Or(y, x) == 2 * Or(y / 2, x / 2) + x % 2;
  }

  lemma DoubleOr(x: int, t: int)
    ensures Or(x, 2 * t) == 2 * Or(x / 2, t) + x % 2
  {
    var y := 2 * t;
    assert y / 2 == t && y % 2 == 0;
    assert Or(x, y) == 2 * Or(x / 2, y / 2) + x % 2;
  }

  /** Numbers without a bit in common: the or is the sum. */
  lemma {:induction false} OrDisjoint(n: nat, a: nat, b: nat)
    requires a < Pow2(n)
    ensures Or(a, b * Pow2(n)) == a + b * Pow2(n)
    decreases n
  {
    hide Or;
    if n == 0 {
      ZeroOr(b);
    } else {
      var t := b * Pow2(n - 1);
      assert b * Pow2(n) == 2 * t;
      DoubleOr(a, t);
      OrDisjoint(n - 1, a / 2, b);
    }
  }

  lemma {:induction false} ByteBits(n: nat)
    ensures Pow2(8 * n) == Pow256(n)
  {
    if n > 0 {
      ByteBits(n - 1);
      EightBits(8 * (n - 1));
    }
  }

  lemma EightBits(n: nat)
    ensures Pow2(n + 8) == 256 * Pow2(n)
  {
    FourBits(n);
    FourBits(n + 4);
  }

  lemma FourBits(n: nat)
    ensures Pow2(n + 4) == 16 * Pow2(n)
  {
    assert Pow2(n + 2) == 4 * Pow2(n);
  }
}
