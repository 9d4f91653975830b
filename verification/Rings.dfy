/**
  Commutative rings given as a record of operations.  The float kernels are modelled over an
  arbitrary commutative ring (the reals and the complex numbers over them are instances), and the
  64-bit integer kernels over the integers modulo 2^64, so one proof serves both.

  The laws are stated per triple of elements (`RingLaw`), which keeps them out of the solver's way:
  a proof step that needs a law asks for it by asserting `RingLaw(R, a, b, c)`.
 */
module Rings {
  import opened Arith

  datatype Ring<!T> = Ring(zero: T, one: T, add: (T, T) -> T, sub: (T, T) -> T, mul: (T, T) -> T)

  function Add<T>(R: Ring<T>, a: T, b: T): T { (R.add)(a, b) }

  function Sub<T>(R: Ring<T>, a: T, b: T): T { (R.sub)(a, b) }

  function Mul<T>(R: Ring<T>, a: T, b: T): T { (R.mul)(a, b) }

  function Neg<T>(R: Ring<T>, a: T): T { Sub(R, R.zero, a) }

  ghost predicate RingLaw<T>(R: Ring<T>, a: T, b: T, c: T) {
    && Add(R, Add(R, a, b), c) == Add(R, a, Add(R, b, c))
    && Add(R, a, b) == Add(R, b, a)
    && Add(R, a, R.zero) == a
    && Add(R, a, Neg(R, a)) == R.zero
    && Sub(R, a, b) == Add(R, a, Neg(R, b))
    && Mul(R, Mul(R, a, b), c) == Mul(R, a, Mul(R, b, c))
    && Mul(R, a, b) == Mul(R, b, a)
    && Mul(R, a, R.one) == a
    && Mul(R, a, Add(R, b, c)) == Add(R, Mul(R, a, b), Mul(R, a, c))
  }

  ghost predicate CommRing<T(!new)>(R: Ring<T>) {
    forall a, b, c :: RingLaw(R, a, b, c)
  }

  // ---------- Consequences of the laws ----------

  lemma SubIsAddNeg<T(!new)>(R: Ring<T>, a: T, b: T)
    requires CommRing(R)
    ensures Sub(R, a, b) == Add(R, a, Neg(R, b))
  {
    assert RingLaw(R, a, b, b);
  }

  lemma AddZero<T(!new)>(R: Ring<T>, a: T)
    requires CommRing(R)
    ensures Add(R, R.zero, a) == a && Add(R, a, R.zero) == a
  {
    assert RingLaw(R, a, R.zero, a);
  }

  /** (a + b) + (c + d) == (a + c) + (b + d) */
  lemma AddSwap<T(!new)>(R: Ring<T>, a: T, b: T, c: T, d: T)
    requires CommRing(R)
    ensures Add(R, Add(R, a, b), Add(R, c, d)) == Add(R, Add(R, a, c), Add(R, b, d))
  {
    assert RingLaw(R, a, b, Add(R, c, d));
    assert RingLaw(R, b, c, d);
    assert RingLaw(R, c, b, d);
    assert RingLaw(R, a, c, Add(R, b, d));
  }

  /** Cancellation: the additive inverse is unique. */
  lemma NegUnique<T(!new)>(R: Ring<T>, a: T, b: T)
    requires CommRing(R)
    requires Add(R, a, b) == R.zero
    ensures b == Neg(R, a)
  {
    calc {
      b;
    ==  { AddZero(R, b); }
      Add(R, b, R.zero);
    ==  { assert RingLaw(R, a, a, a); }
      Add(R, b, Add(R, a, Neg(R, a)));
    ==  { assert RingLaw(R, b, a, Neg(R, a)); }
      Add(R, Add(R, b, a), Neg(R, a));
    ==  { assert RingLaw(R, a, b, a); }
      Add(R, R.zero, Neg(R, a));
    ==  { AddZero(R, Neg(R, a)); }
      Neg(R, a);
    }
  }

  lemma MulZero<T(!new)>(R: Ring<T>, a: T)
    requires CommRing(R)
    ensures Mul(R, a, R.zero) == R.zero && Mul(R, R.zero, a) == R.zero
  {
    var z := Mul(R, a, R.zero);
    assert z == Add(R, z, z) by {
      AddZero(R, R.zero);
      assert RingLaw(R, a, R.zero, R.zero);
    }
    calc {
      z;
    ==  { AddZero(R, z); }
      Add(R, z, R.zero);
    ==  { assert RingLaw(R, z, z, z); }
      Add(R, z, Add(R, z, Neg(R, z)));
    ==  { assert RingLaw(R, z, z, Neg(R, z)); }
      Add(R, Add(R, z, z), Neg(R, z));
    ==  { assert RingLaw(R, z, z, z); }
      R.zero;
    }
    assert RingLaw(R, a, R.zero, a);
  }

  lemma MulNeg<T(!new)>(R: Ring<T>, a: T, b: T)
    requires CommRing(R)
    ensures Mul(R, a, Neg(R, b)) == Neg(R, Mul(R, a, b))
    ensures Mul(R, Neg(R, b), a) == Neg(R, Mul(R, a, b))
  {
    assert RingLaw(R, a, b, Neg(R, b));
    assert RingLaw(R, b, b, b);
    MulZero(R, a);
    NegUnique(R, Mul(R, a, b), Mul(R, a, Neg(R, b)));
    assert RingLaw(R, a, Neg(R, b), a);
  }

  lemma NegNeg<T(!new)>(R: Ring<T>, a: T)
    requires CommRing(R)
    ensures Neg(R, Neg(R, a)) == a
  {
    assert RingLaw(R, a, Neg(R, a), a);
    NegUnique(R, Neg(R, a), a);
  }

  lemma MulSub<T(!new)>(R: Ring<T>, a: T, b: T, c: T)
    requires CommRing(R)
    ensures Mul(R, Sub(R, a, b), c) == Sub(R, Mul(R, a, c), Mul(R, b, c))
  {
    SubIsAddNeg(R, a, b);
    SubIsAddNeg(R, Mul(R, a, c), Mul(R, b, c));
    assert RingLaw(R, c, a, Neg(R, b));
    assert RingLaw(R, c, Sub(R, a, b), a);
    assert RingLaw(R, c, a, a);
    assert RingLaw(R, c, b, a);
    MulNeg(R, c, b);
  }

  lemma MulAdd<T(!new)>(R: Ring<T>, a: T, b: T, c: T)
    requires CommRing(R)
    ensures Mul(R, Add(R, a, b), c) == Add(R, Mul(R, a, c), Mul(R, b, c))
  {
    assert RingLaw(R, c, a, b);
    assert RingLaw(R, c, Add(R, a, b), a);
    assert RingLaw(R, c, a, a);
    assert RingLaw(R, c, b, a);
  }

  // ---------- Powers ----------

  function Pow<T>(R: Ring<T>, w: T, k: nat): T {
    if k == 0 then R.one else Mul(R, w, Pow(R, w, k - 1))
  }

  lemma {:induction false} PowAdd<T(!new)>(R: Ring<T>, w: T, j: nat, k: nat)
    requires CommRing(R)
    ensures Pow(R, w, j + k) == Mul(R, Pow(R, w, j), Pow(R, w, k))
  {
    if j == 0 {
      assert RingLaw(R, Pow(R, w, k), R.one, w);
    } else {
      PowAdd(R, w, j - 1, k);
      assert RingLaw(R, w, Pow(R, w, j - 1), Pow(R, w, k));
    }
  }

  lemma FirstPower<T(!new)>(R: Ring<T>, w: T)
    requires CommRing(R)
    ensures Pow(R, w, 1) == w
  {
    assert Pow(R, w, 1) == Mul(R, w, Pow(R, w, 0));
    assert RingLaw(R, w, R.one, R.one);
  }

  lemma {:induction false} PowMul<T(!new)>(R: Ring<T>, w: T, j: nat, k: nat)
    requires CommRing(R)
    ensures Pow(R, Pow(R, w, j), k) == Pow(R, w, j * k)
  {
    if k == 0 {
    } else {
      PowMul(R, w, j, k - 1);
      assert j * k == j + j * (k - 1);
      PowAdd(R, w, j, j * (k - 1));
    }
  }

  lemma {:induction false} PowOne<T(!new)>(R: Ring<T>, k: nat)
    requires CommRing(R)
    ensures Pow(R, R.one, k) == R.one
  {
    if k == 0 {
    } else {
      PowOne(R, k - 1);
      assert RingLaw(R, R.one, R.one, R.one);
    }
  }

  // ---------- The complex numbers over a ring ----------

  datatype Complex<T> = Complex(re: T, im: T)

  /** Complex arithmetic as `cplxmuls_float` and the vector extension on pairs compute it. */
  function ComplexOver<T>(K: Ring<T>): Ring<Complex<T>> {
    Ring(Complex(K.zero, K.zero),
         Complex(K.one, K.zero),
         (a: Complex<T>, b: Complex<T>) => Complex(Add(K, a.re, b.re), Add(K, a.im, b.im)),
         (a: Complex<T>, b: Complex<T>) => Complex(Sub(K, a.re, b.re), Sub(K, a.im, b.im)),
         (a: Complex<T>, b: Complex<T>) =>
           Complex(Sub(K, Mul(K, a.re, b.re), Mul(K, a.im, b.im)),
                   Add(K, Mul(K, a.re, b.im), Mul(K, a.im, b.re))))
  }

  lemma ComplexOps<T>(K: Ring<T>, a: Complex<T>, b: Complex<T>)
    ensures Add(ComplexOver(K), a, b) == Complex(Add(K, a.re, b.re), Add(K, a.im, b.im))
    ensures Sub(ComplexOver(K), a, b) == Complex(Sub(K, a.re, b.re), Sub(K, a.im, b.im))
    ensures Mul(ComplexOver(K), a, b)
         == Complex(Sub(K, Mul(K, a.re, b.re), Mul(K, a.im, b.im)),
                    Add(K, Mul(K, a.re, b.im), Mul(K, a.im, b.re)))
  {
  }

  /** Complex numbers over a commutative ring form a commutative ring. */
  lemma ComplexIsCommRing<T(!new)>(K: Ring<T>)
    requires CommRing(K)
    ensures CommRing(ComplexOver(K))
  {
    var R := ComplexOver(K);
    forall a: Complex<T>, b: Complex<T>, c: Complex<T> ensures RingLaw(R, a, b, c) {
      assert RingLaw(K, a.re, b.re, c.re) && RingLaw(K, a.im, b.im, c.im);
      ComplexSubLaw(K, a, b);
      ComplexMulZeroOne(K, a);
      ComplexMulComm(K, a, b);
      ComplexMulAssoc(K, a, b, c);
      ComplexDistrib(K, a, b, c);
    }
  }

  lemma ComplexMulZeroOne<T(!new)>(K: Ring<T>, a: Complex<T>)
    requires CommRing(K)
    ensures Mul(ComplexOver(K), a, ComplexOver(K).one) == a
  {
    MulZero(K, a.re);
    MulZero(K, a.im);
    SubIsAddNeg(K, a.re, K.zero);
    assert RingLaw(K, a.re, K.one, K.one) && RingLaw(K, a.im, K.one, K.one);
    assert RingLaw(K, K.zero, K.zero, K.zero);
    AddZero(K, Neg(K, K.zero));
    AddZero(K, a.im);
    AddZero(K, a.re);
  }

  lemma ComplexMulComm<T(!new)>(K: Ring<T>, a: Complex<T>, b: Complex<T>)
    requires CommRing(K)
    ensures Mul(ComplexOver(K), a, b) == Mul(ComplexOver(K), b, a)
  {
    assert RingLaw(K, a.re, b.re, a.re) && RingLaw(K, a.im, b.im, a.im);
    assert RingLaw(K, a.re, b.im, a.re) && RingLaw(K, a.im, b.re, a.im);
    assert RingLaw(K, Mul(K, a.re, b.im), Mul(K, a.im, b.re), a.re);
  }

  lemma NegAdd<T(!new)>(K: Ring<T>, a: T, b: T)
    requires CommRing(K)
    ensures Neg(K, Add(K, a, b)) == Add(K, Neg(K, a), Neg(K, b))
  {
    AddSwap(K, a, b, Neg(K, a), Neg(K, b));
    assert RingLaw(K, a, a, a) && RingLaw(K, b, b, b);
    AddZero(K, K.zero);
    NegUnique(K, Add(K, a, b), Add(K, Neg(K, a), Neg(K, b)));
  }

  /** (p - q)·x distributed, with the products re-associated: p = u·v, q = s·t. */
  lemma MulAssocSub<T(!new)>(K: Ring<T>, u: T, v: T, s: T, t: T, x: T)
    requires CommRing(K)
    ensures Mul(K, Sub(K, Mul(K, u, v), Mul(K, s, t)), x)
         == Sub(K, Mul(K, u, Mul(K, v, x)), Mul(K, s, Mul(K, t, x)))
    ensures Mul(K, Add(K, Mul(K, u, v), Mul(K, s, t)), x)
         == Add(K, Mul(K, u, Mul(K, v, x)), Mul(K, s, Mul(K, t, x)))
  {
    MulSub(K, Mul(K, u, v), Mul(K, s, t), x);
    MulAdd(K, Mul(K, u, v), Mul(K, s, t), x);
    assert RingLaw(K, u, v, x) && RingLaw(K, s, t, x);
  }

  /** a·(p - q) and a·(p + q) for products p, q. */
  lemma MulOverSub<T(!new)>(K: Ring<T>, a: T, p: T, q: T)
    requires CommRing(K)
    ensures Mul(K, a, Sub(K, p, q)) == Sub(K, Mul(K, a, p), Mul(K, a, q))
    ensures Mul(K, a, Add(K, p, q)) == Add(K, Mul(K, a, p), Mul(K, a, q))
  {
    SubIsAddNeg(K, p, q);
    SubIsAddNeg(K, Mul(K, a, p), Mul(K, a, q));
    assert RingLaw(K, a, p, Neg(K, q)) && RingLaw(K, a, p, q);
    MulNeg(K, a, q);
  }

  lemma ComplexMulAssoc<T(!new)>(K: Ring<T>, a: Complex<T>, b: Complex<T>, c: Complex<T>)
    requires CommRing(K)
    ensures Mul(ComplexOver(K), Mul(ComplexOver(K), a, b), c) == Mul(ComplexOver(K), a, Mul(ComplexOver(K), b, c))
  {
    MulAssocSub(K, a.re, b.re, a.im, b.im, c.re);
    MulAssocSub(K, a.re, b.re, a.im, b.im, c.im);
    MulAssocSub(K, a.re, b.im, a.im, b.re, c.re);
    MulAssocSub(K, a.re, b.im, a.im, b.re, c.im);
    MulOverSub(K, a.re, Mul(K, b.re, c.re), Mul(K, b.im, c.im));
    MulOverSub(K, a.im, Mul(K, b.re, c.re), Mul(K, b.im, c.im));
    MulOverSub(K, a.re, Mul(K, b.re, c.im), Mul(K, b.im, c.re));
    MulOverSub(K, a.im, Mul(K, b.re, c.im), Mul(K, b.im, c.re));
    FourTerms(K, Mul(K, a.re, Mul(K, b.re, c.re)), Mul(K, a.im, Mul(K, b.im, c.re)),
              Mul(K, a.re, Mul(K, b.im, c.im)), Mul(K, a.im, Mul(K, b.re, c.im)));
    FourTerms(K, Mul(K, a.re, Mul(K, b.re, c.im)), Mul(K, a.im, Mul(K, b.im, c.im)),
              Mul(K, a.re, Mul(K, b.im, c.re)), Mul(K, a.im, Mul(K, b.re, c.re)));
  }

  /** (p - q) - (r + s) == (p - r) - (s + q)   and   (p - q) + (r + s) == (p + r) + (s - q) */
  lemma FourTerms<T(!new)>(K: Ring<T>, p: T, q: T, r: T, s: T)
    requires CommRing(K)
    ensures Sub(K, Sub(K, p, q), Add(K, r, s)) == Sub(K, Sub(K, p, r), Add(K, s, q))
    ensures Add(K, Sub(K, p, q), Add(K, r, s)) == Add(K, Add(K, p, r), Sub(K, s, q))
  {
    SubIsAddNeg(K, p, q);
    SubIsAddNeg(K, p, r);
    SubIsAddNeg(K, s, q);
    SubIsAddNeg(K, Sub(K, p, q), Add(K, r, s));
    SubIsAddNeg(K, Sub(K, p, r), Add(K, s, q));
    NegAdd(K, r, s);
    NegAdd(K, s, q);
    AddSwap(K, p, Neg(K, q), Neg(K, r), Neg(K, s));
    assert RingLaw(K, Neg(K, q), Neg(K, s), p);
    AddSwap(K, p, Neg(K, q), r, s);
    assert RingLaw(K, Neg(K, q), s, p);
  }

  /** (p - r) + (q - s) == (p + q) - (r + s) */
  lemma AddOfSubs<T(!new)>(K: Ring<T>, p: T, q: T, r: T, s: T)
    requires CommRing(K)
    ensures Add(K, Sub(K, p, r), Sub(K, q, s)) == Sub(K, Add(K, p, q), Add(K, r, s))
  {
    SubIsAddNeg(K, p, r);
    SubIsAddNeg(K, q, s);
    SubIsAddNeg(K, Add(K, p, q), Add(K, r, s));
    NegAdd(K, r, s);
    AddSwap(K, p, q, Neg(K, r), Neg(K, s));
  }

  lemma ComplexDistrib<T(!new)>(K: Ring<T>, a: Complex<T>, b: Complex<T>, c: Complex<T>)
    requires CommRing(K)
    ensures Mul(ComplexOver(K), a, Add(ComplexOver(K), b, c))
         == Add(ComplexOver(K), Mul(ComplexOver(K), a, b), Mul(ComplexOver(K), a, c))
  {
    MulOverSub(K, a.re, b.re, c.re);
    MulOverSub(K, a.im, b.im, c.im);
    MulOverSub(K, a.re, b.im, c.im);
    MulOverSub(K, a.im, b.re, c.re);
    AddOfSubs(K, Mul(K, a.re, b.re), Mul(K, a.re, c.re), Mul(K, a.im, b.im), Mul(K, a.im, c.im));
    AddSwap(K, Mul(K, a.re, b.im), Mul(K, a.re, c.im), Mul(K, a.im, b.re), Mul(K, a.im, c.re));
  }

  lemma ComplexSubLaw<T(!new)>(K: Ring<T>, a: Complex<T>, b: Complex<T>)
    requires CommRing(K)
    ensures Sub(ComplexOver(K), a, b) == Add(ComplexOver(K), a, Neg(ComplexOver(K), b))
  {
    SubIsAddNeg(K, a.re, b.re);
    SubIsAddNeg(K, a.im, b.im);
  }

  // ---------- The two base rings of the kernels ----------

  /** Exact reals: the float kernels without rounding. */
  function Reals(): Ring<real> {
    Ring(0.0, 1.0, (a: real, b: real) => a + b, (a: real, b: real) => a - b, (a: real, b: real) => a * b)
  }

  lemma RealOps(a: real, b: real)
    ensures Add(Reals(), a, b) == a + b
    ensures Sub(Reals(), a, b) == a - b
    ensures Mul(Reals(), a, b) == a * b
    ensures Reals().zero == 0.0 && Reals().one == 1.0
  {
  }

  lemma RealsAreCommRing()
    ensures CommRing(Reals())
  {
    forall a: real, b: real, c: real ensures RingLaw(Reals(), a, b, c) {
      assert (a * b) * c == a * (b * c);
      assert a * (b + c) == a * b + a * c;
    }
  }

  const TWO64: int := 0x1_0000_0000_0000_0000

  type int64 = x: int | -0x8000_0000_0000_0000 <= x < 0x8000_0000_0000_0000

  /** Two's complement reduction: the only 64-bit value congruent to x modulo 2^64. */
  function Wrap64(x: int): (r: int64)
    ensures (r - x) % TWO64 == 0
  {
    (x + 0x8000_0000_0000_0000) % TWO64 - 0x8000_0000_0000_0000
  }

  /** 64-bit machine integers: every operation reduces modulo 2^64. */
  function Int64s(): Ring<int64> {
    Ring(0, 1, (a: int64, b: int64) => Wrap64(a + b), (a: int64, b: int64) => Wrap64(a - b), (a: int64, b: int64) => Wrap64(a * b))
  }

  /** Congruent numbers wrap to the same value. */
  lemma WrapCongruent(x: int, k: int)
    ensures Wrap64(x + TWO64 * k) == Wrap64(x)
  {
  }

  lemma WrapQuotient(x: int) returns (k: int)
    ensures Wrap64(x) == x + TWO64 * k
  {
    k := (Wrap64(x) - x) / TWO64;
  }

  lemma WrapAdd(x: int, y: int)
    ensures Wrap64(Wrap64(x) + y) == Wrap64(x + y)
  {
    var k := WrapQuotient(x);
    WrapCongruent(x + y, k);
  }

  lemma WrapMul(x: int, y: int)
    ensures Wrap64(Wrap64(x) * y) == Wrap64(x * y)
  {
    var k := WrapQuotient(x);
    assert (x + TWO64 * k) * y == x * y + TWO64 * (k * y);
    WrapCongruent(x * y, k * y);
  }

  lemma WrapMulAssoc(a: int, b: int, c: int)
    ensures Wrap64(Wrap64(a * b) * c) == Wrap64(a * Wrap64(b * c))
  {
    WrapMul(a * b, c);
    WrapMul(b * c, a);
    assert (a * b) * c == (b * c) * a;
    assert a * Wrap64(b * c) == Wrap64(b * c) * a;
  }

  lemma WrapDistrib(a: int, b: int, c: int)
    ensures Wrap64(a * Wrap64(b + c)) == Wrap64(Wrap64(a * b) + Wrap64(a * c))
  {
    WrapMul(b + c, a);
    WrapAdd(a * b, Wrap64(a * c));
    WrapAdd(a * c, a * b);
    assert a * Wrap64(b + c) == Wrap64(b + c) * a;
    assert (b + c) * a == a * b + a * c;
  }

  lemma WrapAddAssoc(a: int, b: int, c: int)
    ensures Wrap64(Wrap64(a + b) + c) == Wrap64(a + Wrap64(b + c))
  {
    WrapAdd(a + b, c);
    WrapAdd(b + c, a);
  }

  lemma Int64Ops(a: int64, b: int64)
    ensures Add(Int64s(), a, b) == Wrap64(a + b)
    ensures Mul(Int64s(), a, b) == Wrap64(a * b)
    ensures Sub(Int64s(), a, b) == Wrap64(a - b)
  {
  }

  lemma WrapTwice(x: int, y: int)
    ensures Wrap64(Wrap64(x) + Wrap64(y)) == Wrap64(x + y)
  {
    WrapAdd(x, Wrap64(y));
    WrapAdd(y, x);
  }

  lemma Int64Step(s: int64, x: int64, y: int64, exact: int)
    requires s == Wrap64(exact)
    ensures Add(Int64s(), s, Mul(Int64s(), x, y)) == Wrap64(exact + Times(x, y))
  {
    hide Wrap64;
    Int64Ops(x, y);
    Int64Ops(s, Mul(Int64s(), x, y));
    WrapTwice(exact, x * y);
  }

  lemma Int64Units()
    ensures Int64s().zero == 0 && Int64s().one == 1
  {
  }

  lemma Int64AddTwice(a: int64, b: int64, c: int64)
    ensures Add(Int64s(), Add(Int64s(), a, b), c) == Wrap64(Wrap64(a + b) + c)
    ensures Add(Int64s(), c, Add(Int64s(), a, b)) == Wrap64(c + Wrap64(a + b))
  {
    var x: int64 := Wrap64(a + b);
    assert Add(Int64s(), a, b) == x;
    assert Add(Int64s(), x, c) == Wrap64(x + c);
    assert Add(Int64s(), c, x) == Wrap64(c + x);
  }

  lemma Int64AddLaws(a: int64, b: int64, c: int64)
    ensures Add(Int64s(), Add(Int64s(), a, b), c) == Add(Int64s(), a, Add(Int64s(), b, c))
    ensures Add(Int64s(), a, b) == Add(Int64s(), b, a)
  {
    Int64AddTwice(a, b, c);
    Int64AddTwice(b, c, a);
    WrapAddAssoc(a, b, c);
  }

  lemma Int64MulLaws(a: int64, b: int64, c: int64)
    ensures Mul(Int64s(), Mul(Int64s(), a, b), c) == Mul(Int64s(), a, Mul(Int64s(), b, c))
    ensures Mul(Int64s(), a, b) == Mul(Int64s(), b, a)
  {
    var R := Int64s();
    Int64Ops(a, b);
    Int64Ops(b, a);
    Int64Ops(b, c);
    Int64Ops(Mul(R, a, b), c);
    Int64Ops(a, Mul(R, b, c));
    WrapMulAssoc(a, b, c);
    assert a * b == b * a;
  }

  lemma Int64DistribLaw(a: int64, b: int64, c: int64)
    ensures Mul(Int64s(), a, Add(Int64s(), b, c)) == Add(Int64s(), Mul(Int64s(), a, b), Mul(Int64s(), a, c))
  {
    var x: int64, y: int64, z: int64 := Wrap64(a * b), Wrap64(a * c), Wrap64(b + c);
    assert Mul(Int64s(), a, Add(Int64s(), b, c)) == Wrap64(a * z);
    assert Add(Int64s(), Mul(Int64s(), a, b), Mul(Int64s(), a, c)) == Wrap64(x + y);
    WrapDistrib(a, b, c);
  }

  lemma WrapNeg(a: int64, b: int64)
    ensures Wrap64(a + Wrap64(0 - b)) == Wrap64(a - b)
  {
    WrapAdd(0 - b, a);
  }

  lemma WrapFits(a: int64)
    ensures Wrap64(a) == a
  {
  }

  lemma Int64UnitLaws(a: int64)
    ensures Add(Int64s(), a, Int64s().zero) == a
    ensures Mul(Int64s(), a, Int64s().one) == a
  {
    WrapFits(a);
  }

  lemma Int64Neg(b: int64)
    ensures Neg(Int64s(), b) == Wrap64(0 - b)
  {
    Int64Ops(0, b);
    hide Wrap64;
  }

  lemma Int64SubLaw(a: int64, b: int64)
    ensures Sub(Int64s(), a, b) == Add(Int64s(), a, Neg(Int64s(), b))
  {
    hide *;
    Int64Neg(b);
    Int64Ops(a, b);
    Int64Ops(a, Wrap64(0 - b));
    WrapNeg(a, b);
  }

  lemma Int64NegLaw(a: int64)
    ensures Add(Int64s(), a, Neg(Int64s(), a)) == Int64s().zero
  {
    Int64SubLaw(a, a);
    WrapFits(0);
  }

  lemma Int64sAreCommRing()
    ensures CommRing(Int64s())
  {
    forall a: int64, b: int64, c: int64 ensures RingLaw(Int64s(), a, b, c) {
      Int64AddLaws(a, b, c);
      Int64MulLaws(a, b, c);
      Int64DistribLaw(a, b, c);
      Int64UnitLaws(a);
      Int64NegLaw(a);
      Int64SubLaw(a, b);
    }
  }
}
