/** Powers of two, base-two logarithms and bit reversal. */
module Bits {

  function Pow2(n: nat): (p: nat)
    ensures p >= 1
  {
    if n == 0 then 1 else 2 * Pow2(n - 1)
  }

  lemma Pow2Step(n: nat)
    ensures Pow2(n) == if n == 0 then 1 else 2 * Pow2(n - 1)
  {
  }

  lemma {:induction false} Pow2Add(m: nat, n: nat)
    ensures Pow2(m + n) == Pow2(m) * Pow2(n)
  {
    hide Pow2;
    Pow2Step(m);
    Pow2Step(m + n);
    if m == 0 {
    } else {
      Pow2Add(m - 1, n);
      assert Pow2(m) * Pow2(n) == 2 * (Pow2(m - 1) * Pow2(n));
    }
  }

  lemma {:induction false} Pow2Monotonic(m: nat, n: nat)
    requires m <= n
    ensures Pow2(m) <= Pow2(n)
  {
    if m == n {
    } else {
      Pow2Monotonic(m, n - 1);
    }
  }

  /** `31 - __builtin_clz(x)`: the position of the highest set bit. */
  function Log2(x: nat): nat
    requires x >= 1
  {
    if x == 1 then 0 else 1 + Log2(x / 2)
  }

  lemma {:induction false} Log2OfPow2(n: nat)
    ensures Log2(Pow2(n)) == n
  {
    if n == 0 {
    } else {
      Log2OfPow2(n - 1);
      assert Pow2(n) / 2 == Pow2(n - 1);
    }
  }

  /** The n low bits of k in reverse order. */
  function Rev(k: nat, n: nat): (r: nat)
    ensures k < Pow2(n) ==> r < Pow2(n)
  {
    if n == 0 then 0 else (if k % 2 == 1 then Pow2(n - 1) else 0) + Rev(k / 2, n - 1)
  }

  /** The lowest bit b of 2q + b becomes the highest. */
  lemma RevStep(q: nat, b: nat, n: nat)
    requires n >= 1 && b < 2
    ensures Rev(2 * q + b, n) == (if b == 1 then Pow2(n - 1) else 0) + Rev(q, n - 1)
  {
    assert (2 * q + b) / 2 == q && (2 * q + b) % 2 == b;
  }

  lemma RevNoBits(k: nat)
    ensures Rev(k, 0) == 0
  {
  }

  /** Setting bit i of k (not set before) sets bit n - 1 - i of the reversal. */
  lemma {:induction false} RevSetBit(k: nat, i: nat, n: nat)
    requires i < n && k < Pow2(i)
    ensures Rev(k + Pow2(i), n) == Rev(k, n) + Pow2(n - 1 - i)
  {
    hide Rev, Pow2;
    Pow2Step(i);
    if i == 0 {
      RevStep(0, 0, n);
      RevStep(0, 1, n);
    } else {
      var q, b := k / 2, k % 2;
      RevSetBit(q, i - 1, n - 1);
      RevStep(q, b, n);
      RevStep(q + Pow2(i - 1), b, n);
    }
  }

  /** A number below 2^(n-1) has a clear top bit, so its n-bit reversal is even. */
  lemma {:induction false} RevClearTop(k: nat, n: nat)
    requires n >= 1 && k < Pow2(n - 1)
    ensures Rev(k, n) == 2 * Rev(k, n - 1)
  {
    hide Rev, Pow2;
    Pow2Step(n - 1);
    if n == 1 {
      RevStep(0, 0, 1);
      RevNoBits(0);
    } else {
      var q, b := k / 2, k % 2;
      RevClearTop(q, n - 1);
      RevStep(q, b, n);
      RevStep(q, b, n - 1);
    }
  }

  /** Bit reversal is an involution. */
  lemma {:induction false} RevRev(k: nat, n: nat)
    requires k < Pow2(n)
    ensures Rev(Rev(k, n), n) == k
  {
    hide Rev, Pow2;
    Pow2Step(n);
    Pow2Step(0);
    if n == 0 {
      RevNoBits(k);
      RevNoBits(Rev(k, 0));
    } else {
      var q, b := k / 2, k % 2;
      var r := Rev(q, n - 1);
      RevRev(q, n - 1);
      RevClearTop(r, n);
      RevStep(q, b, n);
      if b == 1 {
        RevSetBit(r, n - 1, n);
      }
    }
  }
}
