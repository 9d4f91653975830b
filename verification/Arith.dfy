/** Products, quotients and remainders of natural numbers. */
module Arith {

  /** A product that the solver need not look into. */
  function Times(a: int, b: int): (p: int)
    ensures a >= 0 && b >= 0 ==> p >= 0
  {
    a * b
  }

  lemma MulLe(a: nat, x: int, y: int)
    requires x <= y
    ensures a * x <= a * y
  {
  }

  /** Quotient and remainder are unique. */
  lemma DivModUnique(x: nat, d: nat, q: nat, r: nat)
    requires r < d && x == d * q + r
    ensures x / d == q && x % d == r
  {
    var q' := x / d;
    assert x == d * q' + x % d;
    if q' > q {
      MulLe(d, q + 1, q');
    } else if q' < q {
      MulLe(d, q' + 1, q);
    }
  }

  lemma ShiftMod(p: nat, n: nat, d: nat)
    requires d >= 1 && n % d == 0
    ensures (n + p) % d == p % d && (n + p) / d == n / d + p / d
  {
    var q, b := n / d, p / d;
    assert n == d * q && p == d * b + p % d;
    assert d * (q + b) == d * q + d * b;
    DivModUnique(n + p, d, q + b, p % d);
  }

  /** The whole block that holds p lies below n. */
  lemma BlockBelow(p: nat, n: nat, d: nat)
    requires d >= 1 && n % d == 0 && p < n
    ensures p - p % d + d <= n && p % d <= p && p / d < n / d
  {
    var q, b := n / d, p / d;
    assert n == d * q && p == d * b + p % d;
    if b >= q {
      MulLe(d, q, b);
    } else {
      MulLe(d, b + 1, q);
      assert d * (b + 1) == d * b + d;
    }
  }

  lemma MulDivMod(q: nat, d: nat)
    requires d >= 1
    ensures (d * q) / d == q && (d * q) % d == 0
  {
    DivModUnique(d * q, d, q, 0);
  }
}
