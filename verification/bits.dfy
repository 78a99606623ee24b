/** Bits of a number, by arithmetic: what masks, shifts and or-ing do to them. */
module Bits {

  function Pow2(k: nat): (p: nat)
    ensures p > 0
  {
    if k == 0 then 1 else 2 * Pow2(k - 1)
  }

  predicate Bit(n: nat, k: nat) {
    n / Pow2(k) % 2 == 1
  }

  lemma LowestBit(n: nat)
    ensures Bit(n, 0) <==> n % 2 == 1
  {
  }

  lemma BitOfHalf(n: nat, k: nat)
    ensures Bit(n / 2, k) == Bit(n, k + 1)
  {
    DivTwice(n, Pow2(k));
  }

  lemma DivTwice(n: nat, m: nat)
    requires m > 0
    ensures n / 2 / m == n / (2 * m)
  {
    var q, r := n / 2 / m, n / 2 % m;
    assert n / 2 == m * q + r;
    assert n == (2 * m) * q + (2 * r + n % 2);
    QuotientIs(n, 2 * m, q, 2 * r + n % 2);
  }

  lemma QuotientIs(n: int, d: int, q: int, r: int)
    requires d > 0 && n == d * q + r && 0 <= r < d
    ensures n / d == q
  {
    var e := q - n / d;
    assert d * e == n % d - r;
    Between(d, e);
  }

  lemma Between(d: int, e: int)
    requires d > 0 && -d < d * e < d
    ensures e == 0
  {
    assert e >= 1 ==> d * e >= d * 1;
    assert e <= -1 ==> d * e <= d * -1;
  }

  /** Adding 2^w where bit w is clear is or-ing it in. */
  lemma {:induction false} SetBit(n: nat, w: nat, k: nat)
    requires !Bit(n, w)
    ensures Bit(n + Pow2(w), k) <==> k == w || Bit(n, k)
  {
    hide Bit;
    var m := n + Pow2(w);
    LowestBit(n);
    LowestBit(m);
    assert w > 0 ==> Pow2(w) == 2 * Pow2(w - 1);
    assert Pow2(0) == 1;
    if k > 0 {
      BitOfHalf(n, k - 1);
      BitOfHalf(m, k - 1);
    }
    if w == 0 {
      assert m / 2 == n / 2;
    } else {
      BitOfHalf(n, w - 1);
      assert m / 2 == n / 2 + Pow2(w - 1);
      if k > 0 {
        SetBit(n / 2, w - 1, k - 1);
      }
    }
  }

  /** A set bit is 2^w more than the number without it. */
  lemma {:induction false} ClearBit(n: nat, w: nat)
    requires Bit(n, w)
    ensures n >= Pow2(w) && !Bit(n - Pow2(w), w)
  {
    hide Bit;
    LowestBit(n);
    if w == 0 {
      LowestBit(n - 1);
    } else {
      assert Pow2(w) == 2 * Pow2(w - 1);
      BitOfHalf(n, w - 1);
      ClearBit(n / 2, w - 1);
      BitOfHalf(n - Pow2(w), w - 1);
      assert (n - Pow2(w)) / 2 == n / 2 - Pow2(w - 1);
    }
  }

  /** Or-ing in a bit below b keeps a number of b bits one of b bits. */
  lemma {:induction false} SetBitBelow(n: nat, w: nat, b: nat)
    requires n < Pow2(b) && w < b && !Bit(n, w)
    ensures n + Pow2(w) < Pow2(b)
  {
    hide Bit;
    LowestBit(n);
    assert Pow2(b) == 2 * Pow2(b - 1) && Pow2(0) == 1;
    if w > 0 {
      assert Pow2(w) == 2 * Pow2(w - 1);
      BitOfHalf(n, w - 1);
      SetBitBelow(n / 2, w - 1, b - 1);
    }
  }

  lemma {:induction false} NoBitAbove(n: nat, b: nat)
    requires n < Pow2(b)
    ensures !Bit(n, b)
  {
    if b > 0 {
      assert Pow2(b) == 2 * Pow2(b - 1);
      BitOfHalf(n, b - 1);
      NoBitAbove(n / 2, b - 1);
    }
  }

  lemma TopPower()
    ensures Pow2(31) == 0x80000000
  {
    assert Pow2(7) == 128;
    assert Pow2(14) == 16384;
    assert Pow2(21) == 2097152;
    assert Pow2(28) == 268435456;
  }
}
