/**
  How far the fixed-point `Radix2FFT_DIF` is from the discrete Fourier transform: the distance of every
  output from the transform of the same samples, scaled by 2^(n-1), over exact reals.
 */
module FftError {
  import opened Bits
  import opened Butterflies
  import opened Rings
  import opened FftScalar
  import opened FftFixed
  import Dft

  // ---------- Distances in the plane ----------

  function Sq(x: real): real { x * x }

  /** A product that the solver need not look into. */
  function Mult(x: real, y: real): real { x * y }

  /** The vector (p, q) has length at most r. */
  predicate Within(p: real, q: real, r: real) { r >= 0.0 && Sq(p) + Sq(q) <= Sq(r) }

  lemma SqSign(x: real)
    ensures Sq(x) >= 0.0 && Sq(-x) == Sq(x)
  {
  }

  lemma SqLe(x: real, y: real)
    requires 0.0 <= x <= y
    ensures Sq(x) <= Sq(y)
  {
    assert x * x <= x * y <= y * y;
  }

  lemma SqLess(x: real, y: real)
    requires 0.0 <= y < x
    ensures Sq(y) < Sq(x)
  {
    var d := x - y;
    Positive(x, d);
    Positive(y, d);
    assert x * d == Sq(x) - x * y && y * d == x * y - Sq(y);
  }

  lemma SqRoot(x: real, y: real)
    requires y >= 0.0 && Sq(x) <= Sq(y)
    ensures x <= y
  {
    if x > y {
      SqLess(x, y);
    }
  }

  lemma Positive(a: real, b: real)
    requires a >= 0.0 && b >= 0.0
    ensures a * b >= 0.0 && (a > 0.0 && b > 0.0 ==> a * b > 0.0)
  {
  }

  lemma SqTimes(x: real, y: real)
    ensures Sq(x * y) == Sq(x) * Sq(y)
  {
    assert (x * y) * (x * y) == (x * x) * (y * y);
  }

  lemma SqSum(x: real, y: real)
    ensures Sq(x + y) == Sq(x) + 2.0 * (x * y) + Sq(y) && Sq(x - y) == Sq(x) - 2.0 * (x * y) + Sq(y)
  {
  }

  lemma Expand(a: real, b: real, c: real, d: real)
    ensures (a + b) * (c + d) == a * c + a * d + b * c + b * d
  {
  }

  lemma Parallel(p: real, q: real, u: real, v: real)
    ensures Mult(Mult(p, u), Mult(q, v)) == Mult(Mult(p, v), Mult(q, u))
  {
    assert (p * u) * (q * v) == (p * v) * (q * u);
  }

  lemma MultForms(x: real, y: real)
    ensures Sq(x + y) == Sq(x) + 2.0 * Mult(x, y) + Sq(y) && Sq(x - y) == Sq(x) - 2.0 * Mult(x, y) + Sq(y)
    ensures Sq(Mult(x, y)) == Mult(Sq(x), Sq(y))
  {
    SqSum(x, y);
    SqTimes(x, y);
    hide Sq;
  }

  lemma MultExpand(a: real, b: real, c: real, d: real)
    ensures Mult(a + b, c + d) == Mult(a, c) + Mult(a, d) + Mult(b, c) + Mult(b, d)
  {
    Expand(a, b, c, d);
  }

  /** (pu - qv)² + (pv + qu)² == (p² + q²)(u² + v²) */
  lemma ProductLength(p: real, q: real, u: real, v: real)
    ensures Sq(Mult(p, u) - Mult(q, v)) + Sq(Mult(p, v) + Mult(q, u)) == Mult(Sq(p) + Sq(q), Sq(u) + Sq(v))
  {
    hide Sq, Mult;
    MultForms(Mult(p, u), Mult(q, v));
    MultForms(Mult(p, v), Mult(q, u));
    Parallel(p, q, u, v);
    MultForms(p, u);
    MultForms(q, v);
    MultForms(p, v);
    MultForms(q, u);
    MultExpand(Sq(p), Sq(q), Sq(u), Sq(v));
  }

  lemma ProductLe(a: real, b: real, c: real, d: real)
    requires 0.0 <= a <= b && 0.0 <= c <= d
    ensures a * c <= b * d
  {
    assert a * c <= b * c <= b * d;
  }

  /** The length of a product is the product of the lengths. */
  lemma TimesWithin(p: real, q: real, r: real, u: real, v: real, s: real)
    requires Within(p, q, r) && Within(u, v, s)
    ensures Within(Mult(p, u) - Mult(q, v), Mult(p, v) + Mult(q, u), Mult(r, s))
  {
    hide Sq;
    SqSign(p);
    SqSign(q);
    SqSign(u);
    SqSign(v);
    ProductLength(p, q, u, v);
    ProductLe(Sq(p) + Sq(q), Sq(r), Sq(u) + Sq(v), Sq(s));
    SqTimes(r, s);
    ProductLe(0.0, r, 0.0, s);
  }

  /** The inner product is at most the product of the lengths. */
  lemma InnerLe(p: real, q: real, r: real, u: real, v: real, s: real)
    requires Within(p, q, r) && Within(u, v, s)
    ensures p * u + q * v <= r * s
  {
    hide Sq;
    var m := -v;
    SqSign(v);
    assert Within(u, m, s);
    TimesWithin(p, q, r, u, m, s);
    FirstLe(Mult(p, u) - Mult(q, m), Mult(p, m) + Mult(q, u), Mult(r, s));
    assert q * m == -(q * v);
  }

  lemma FirstLe(p: real, q: real, r: real)
    requires Within(p, q, r)
    ensures p <= r
  {
    SqSign(q);
    SqRoot(p, r);
  }

  /** The triangle inequality. */
  lemma AddWithin(p: real, q: real, r: real, u: real, v: real, s: real)
    requires Within(p, q, r) && Within(u, v, s)
    ensures Within(p + u, q + v, r + s)
  {
    hide Sq;
    InnerLe(p, q, r, u, v, s);
    SqSum(p, u);
    SqSum(q, v);
    SqSum(r, s);
  }

  lemma NegWithin(p: real, q: real, r: real)
    requires Within(p, q, r)
    ensures Within(-p, -q, r)
  {
    hide Sq;
    SqSign(p);
    SqSign(q);
  }

  lemma ScaleWithin(c: real, p: real, q: real, r: real)
    requires c >= 0.0 && Within(p, q, r)
    ensures Within(Mult(c, p), Mult(c, q), Mult(c, r))
  {
    hide Sq;
    SqTimes(c, p);
    SqTimes(c, q);
    SqTimes(c, r);
    SqSign(c);
    Factor(Sq(c), Sq(p), Sq(q));
    ProductLe(Sq(c), Sq(c), Sq(p) + Sq(q), Sq(r)) by { SqSign(p); SqSign(q); }
    ProductLe(0.0, c, 0.0, r);
  }

  lemma Factor(a: real, b: real, c: real)
    ensures a * (b + c) == a * b + a * c
  {
  }

  lemma WiderWithin(p: real, q: real, r: real, s: real)
    requires Within(p, q, r) && r <= s
    ensures Within(p, q, s)
  {
    SqLe(r, s);
  }

  /** Both components at most one in size. */
  lemma UnitSquare(p: real, q: real)
    requires -1.0 <= p <= 1.0 && -1.0 <= q <= 1.0
    ensures Within(p, q, 1.5)
  {
    Positive(1.0 - p, 1.0 + p);
    Positive(1.0 - q, 1.0 + q);
    assert (1.0 - p) * (1.0 + p) == 1.0 - Sq(p) && (1.0 - q) * (1.0 + q) == 1.0 - Sq(q);
  }

  // ---------- Complex numbers ----------

  type C = Complex<real>

  function Plus(x: C, y: C): C { Complex(x.re + y.re, x.im + y.im) }

  function Minus(x: C, y: C): C { Complex(x.re - y.re, x.im - y.im) }

  function Product(x: C, y: C): C { Complex(Mult(x.re, y.re) - Mult(x.im, y.im), Mult(x.re, y.im) + Mult(x.im, y.re)) }

  function Scale(c: real, x: C): C { Complex(Mult(c, x.re), Mult(c, x.im)) }

  /** The modulus is at most r. */
  predicate Small(x: C, r: real) { Within(x.re, x.im, r) }

  lemma SmallPlus(x: C, y: C, r: real, s: real)
    requires Small(x, r) && Small(y, s)
    ensures Small(Plus(x, y), r + s)
  {
    AddWithin(x.re, x.im, r, y.re, y.im, s);
  }

  lemma SmallMinus(x: C, y: C, r: real, s: real)
    requires Small(x, r) && Small(y, s)
    ensures Small(Minus(x, y), r + s)
  {
    NegWithin(y.re, y.im, s);
    AddWithin(x.re, x.im, r, -y.re, -y.im, s);
  }

  lemma SmallProduct(x: C, y: C, r: real, s: real, t: real)
    requires Small(x, r) && Small(y, s) && Mult(r, s) <= t
    ensures Small(Product(x, y), t)
  {
    hide Within, Mult;
    TimesWithin(x.re, x.im, r, y.re, y.im, s);
    WiderWithin(Mult(x.re, y.re) - Mult(x.im, y.im), Mult(x.re, y.im) + Mult(x.im, y.re), Mult(r, s), t);
  }

  lemma SmallScale(c: real, x: C, r: real, t: real)
    requires c >= 0.0 && Small(x, r) && Mult(c, r) <= t
    ensures Small(Scale(c, x), t)
  {
    hide Within, Mult;
    ScaleWithin(c, x.re, x.im, r);
    WiderWithin(Mult(c, x.re), Mult(c, x.im), Mult(c, r), t);
  }

  lemma Wider(x: C, r: real, s: real)
    requires Small(x, r) && r <= s
    ensures Small(x, s)
  {
    WiderWithin(x.re, x.im, r, s);
  }

  /** Both components between -1 and 0. */
  lemma SmallUnit(x: C)
    requires -1.0 <= x.re <= 0.0 && -1.0 <= x.im <= 0.0
    ensures Small(x, 1.5)
  {
    UnitSquare(x.re, x.im);
  }

  // ---------- One butterfly ----------

  function OfInt(a: V2s): C { Complex(a.re as real, a.im as real) }

  /** c times the integer value differs from the complex number by at most e. */
  predicate Near(c: real, a: V2s, A: C, e: real) {
    Small(Minus(Scale(c, OfInt(a)), A), e)
  }

  lemma HalfSum(c: real, a: V2s, b: V2s, u: V2s, A: C, B: C)
    ensures var f := Complex((2 * u.re - a.re - b.re) as real, (2 * u.im - a.im - b.im) as real);
            Minus(Scale(2.0 * c, OfInt(u)), Plus(A, B))
            == Plus(Plus(Minus(Scale(c, OfInt(a)), A), Minus(Scale(c, OfInt(b)), B)), Scale(c, f))
  {
    hide Mult;
    HalfSumPart(c, a.re, b.re, u.re, A.re, B.re);
    HalfSumPart(c, a.im, b.im, u.im, A.im, B.im);
  }

  lemma HalfSumPart(c: real, a: int, b: int, u: int, A: real, B: real)
    ensures Mult(2.0 * c, u as real) - (A + B) == (Mult(c, a as real) - A) + (Mult(c, b as real) - B) + Mult(c, (2 * u - a - b) as real)
  {
    var f := (2 * u - a - b) as real;
    assert f == 2.0 * u as real - a as real - b as real;
    assert c * f == 2.0 * c * u as real - c * a as real - c * b as real;
  }

  /** The half sum doubles the scale and the error, and rounding adds at most 3/2. */
  lemma NearUp(c: real, a: V2s, b: V2s, u: V2s, A: C, B: C, e: real)
    requires c >= 0.0 && Near(c, a, A, e) && Near(c, b, B, e)
    requires 2 * u.re <= a.re + b.re <= 2 * u.re + 1 && 2 * u.im <= a.im + b.im <= 2 * u.im + 1
    ensures Near(2.0 * c, u, Plus(A, B), 2.0 * e + 1.5 * c)
  {
    hide Small, Plus, Minus, Scale, OfInt;
    var f := Complex((2 * u.re - a.re - b.re) as real, (2 * u.im - a.im - b.im) as real);
    var x, y := Minus(Scale(c, OfInt(a)), A), Minus(Scale(c, OfInt(b)), B);
    HalfSum(c, a, b, u, A, B);
    SmallUnit(f);
    SmallScale(c, f, 1.5, 1.5 * c);
    SmallPlus(x, y, e, e);
    SmallPlus(Plus(x, y), Scale(c, f), e + e, 1.5 * c);
    Wider(Plus(Plus(x, y), Scale(c, f)), e + e + 1.5 * c, 2.0 * e + 1.5 * c);
  }

  /** c·(d·v) - E·w == c·(d·(v - w)) + (c·d - E)·w */
  lemma Bilinear(c: real, d: C, v: C, E: C, W: C)
    ensures Minus(Scale(c, Product(d, v)), Product(E, W))
         == Plus(Scale(c, Product(d, Minus(v, W))), Product(Minus(Scale(c, d), E), W))
  {
    hide Mult;
    BilinearParts(c, d.re, d.im, v.re, v.im, W.re, W.im, E.re, E.im);
  }

  lemma BilinearParts(c: real, dr: real, di: real, vr: real, vi: real, wr: real, wi: real, er: real, ei: real)
    ensures Mult(c, Mult(dr, vr) - Mult(di, vi)) - (Mult(er, wr) - Mult(ei, wi))
         == Mult(c, Mult(dr, vr - wr) - Mult(di, vi - wi)) + (Mult(Mult(c, dr) - er, wr) - Mult(Mult(c, di) - ei, wi))
    ensures Mult(c, Mult(dr, vi) + Mult(di, vr)) - (Mult(er, wi) + Mult(ei, wr))
         == Mult(c, Mult(dr, vi - wi) + Mult(di, vr - wr)) + (Mult(Mult(c, dr) - er, wi) + Mult(Mult(c, di) - ei, wr))
  {
  }

  /** The product with the code's twiddle, against that with the exact one. */
  lemma NearProduct(c: real, d: C, v: C, E: C, W: C, e: real, rad: real, delta: real, t: real)
    requires c >= 0.0 && Small(Minus(Scale(c, d), E), e) && Small(d, rad) && Small(Minus(v, W), delta) && Small(W, 1.0)
    requires Mult(c, Mult(rad, delta)) <= t
    ensures Small(Minus(Scale(c, Product(d, v)), Product(E, W)), t + e)
  {
    hide Small, Plus, Minus, Scale, Product;
    Bilinear(c, d, v, E, W);
    SmallProduct(d, Minus(v, W), rad, delta, Mult(rad, delta));
    SmallScale(c, Product(d, Minus(v, W)), Mult(rad, delta), t);
    SmallProduct(Minus(Scale(c, d), E), W, e, 1.0, e);
    SmallPlus(Scale(c, Product(d, Minus(v, W))), Product(Minus(Scale(c, d), E), W), t, e);
  }

  /** The value of a Q15 twiddle factor. */
  function OfQ15(w: V2s): C { Complex(w.re as real / 32768.0, w.im as real / 32768.0) }

  lemma DifferenceNear(c: real, a: V2s, b: V2s, A: C, B: C, e: real)
    requires Near(c, a, A, e) && Near(c, b, B, e)
    ensures Small(Minus(Scale(c, OfInt(DiffV(a, b))), Minus(A, B)), 2.0 * e)
  {
    hide Small;
    var x, y := Minus(Scale(c, OfInt(a)), A), Minus(Scale(c, OfInt(b)), B);
    SmallMinus(x, y, e, e);
    DifferenceIs(c, a, b, A, B);
    Wider(Minus(x, y), e + e, 2.0 * e);
  }

  lemma DifferenceIs(c: real, a: V2s, b: V2s, A: C, B: C)
    ensures Minus(Scale(c, OfInt(DiffV(a, b))), Minus(A, B))
         == Minus(Minus(Scale(c, OfInt(a)), A), Minus(Scale(c, OfInt(b)), B))
  {
    hide Mult;
    IntsDistribute(c, a.re, b.re);
    IntsDistribute(c, a.im, b.im);
  }

  lemma IntsDistribute(c: real, x: int, y: int)
    ensures Mult(c, (x - y) as real) == Mult(c, x as real) - Mult(c, y as real)
    ensures Mult(c, (x + y) as real) == Mult(c, x as real) + Mult(c, y as real)
  {
    assert (x - y) as real == x as real - y as real && (x + y) as real == x as real + y as real;
  }

  /** What rounding takes from the halved product: less than one in each component. */
  lemma HalfProduct(c: real, d: V2s, w: V2s, l: V2s, Z: C)
    ensures var f := Minus(OfInt(l), Scale(0.5, Product(OfInt(d), OfQ15(w))));
            Minus(Scale(2.0 * c, OfInt(l)), Z) == Plus(Minus(Scale(c, Product(OfInt(d), OfQ15(w))), Z), Scale(2.0 * c, f))
  {
    hide OfInt, OfQ15, Product, Mult;
    HalvedPart(c, OfInt(l).re, Product(OfInt(d), OfQ15(w)).re);
    HalvedPart(c, OfInt(l).im, Product(OfInt(d), OfQ15(w)).im);
  }

  lemma HalvedPart(c: real, l: real, p: real)
    ensures Mult(2.0 * c, l) == Mult(c, p) + Mult(2.0 * c, l - Mult(0.5, p))
  {
  }

  lemma ProductIs(d: V2s, w: V2s)
    ensures Product(OfInt(d), OfQ15(w))
         == Complex((d.re * w.re - d.im * w.im) as real / 32768.0, (d.re * w.im + d.im * w.re) as real / 32768.0)
  {
    hide Mult;
    Quotient(d.re, w.re);
    Quotient(d.im, w.im);
    Quotient(d.re, w.im);
    Quotient(d.im, w.re);
  }

  lemma Quotient(x: int, y: int)
    ensures Mult(x as real, y as real / 32768.0) == (x * y) as real / 32768.0
  {
    var q := y as real / 32768.0;
    assert (x * y) as real == x as real * y as real;
    assert x as real * (q * 32768.0) == (x as real * q) * 32768.0;
  }

  lemma RoundingPart(x: int, l: int)
    requires 65536 * l <= x < 65536 * (l + 1)
    ensures -1.0 <= l as real - Mult(0.5, x as real / 32768.0) <= 0.0
  {
    var q := x as real / 65536.0;
    assert 0.5 * (x as real / 32768.0) == q;
    assert l as real <= q < l as real + 1.0;
  }

  /** The twiddled half difference doubles the scale and the error; the twiddle and rounding add to it. */
  lemma NearLow(c: real, a: V2s, b: V2s, w: V2s, l: V2s, A: C, B: C, W: C, e: real, rad: real, delta: real, t: real)
    requires c >= 0.0 && Near(c, a, A, e) && Near(c, b, B, e) && Small(Minus(OfQ15(w), W), delta) && Small(W, 1.0)
    requires Small(OfInt(DiffV(a, b)), rad) && Mult(c, Mult(rad, delta)) <= t
    requires 65536 * l.re <= (a.re - b.re) * w.re - (a.im - b.im) * w.im < 65536 * (l.re + 1)
    requires 65536 * l.im <= (a.re - b.re) * w.im + (a.im - b.im) * w.re < 65536 * (l.im + 1)
    ensures Near(2.0 * c, l, Product(Minus(A, B), W), 2.0 * e + 3.0 * c + t)
  {
    var d := DiffV(a, b);
    RoundingPart(d.re * w.re - d.im * w.im, l.re);
    RoundingPart(d.re * w.im + d.im * w.re, l.im);
    ProductIs(d, w);
    NearRounded(c, a, b, w, l, A, B, W, e, rad, delta, t);
  }

  lemma NearRounded(c: real, a: V2s, b: V2s, w: V2s, l: V2s, A: C, B: C, W: C, e: real, rad: real, delta: real, t: real)
    requires c >= 0.0 && Near(c, a, A, e) && Near(c, b, B, e) && Small(Minus(OfQ15(w), W), delta) && Small(W, 1.0)
    requires Small(OfInt(DiffV(a, b)), rad) && Mult(c, Mult(rad, delta)) <= t
    requires var f := Minus(OfInt(l), Scale(0.5, Product(OfInt(DiffV(a, b)), OfQ15(w))));
             -1.0 <= f.re <= 0.0 && -1.0 <= f.im <= 0.0
    ensures Near(2.0 * c, l, Product(Minus(A, B), W), 2.0 * e + 3.0 * c + t)
  {
    hide Small, Plus, Minus, Scale, OfInt, OfQ15, Product, DiffV;
    var d, E := DiffV(a, b), Minus(A, B);
    var f := Minus(OfInt(l), Scale(0.5, Product(OfInt(d), OfQ15(w))));
    var x := Minus(Scale(c, Product(OfInt(d), OfQ15(w))), Product(E, W));
    DifferenceNear(c, a, b, A, B, e);
    NearProduct(c, OfInt(d), OfQ15(w), E, W, 2.0 * e, rad, delta, t);
    HalfProduct(c, d, w, l, Product(E, W));
    SmallUnit(f);
    SmallScale(2.0 * c, f, 1.5, 3.0 * c);
    SmallPlus(x, Scale(2.0 * c, f), t + 2.0 * e, 3.0 * c);
    Wider(Plus(x, Scale(2.0 * c, f)), t + 2.0 * e + 3.0 * c, 2.0 * e + 3.0 * c + t);
  }

  /** The last layer keeps the scale and doubles the error. */
  lemma NearLast(c: real, a: V2s, b: V2s, A: C, B: C, e: real)
    requires Near(c, a, A, e) && Near(c, b, B, e)
    ensures Near(c, SumV(a, b), Plus(A, B), 2.0 * e) && Near(c, DiffV(a, b), Minus(A, B), 2.0 * e)
  {
    hide Small;
    DifferenceNear(c, a, b, A, B, e);
    var x, y := Minus(Scale(c, OfInt(a)), A), Minus(Scale(c, OfInt(b)), B);
    SmallPlus(x, y, e, e);
    SumIs(c, a, b, A, B);
    Wider(Plus(x, y), e + e, 2.0 * e);
  }

  lemma SumIs(c: real, a: V2s, b: V2s, A: C, B: C)
    ensures Minus(Scale(c, OfInt(SumV(a, b))), Plus(A, B)) == Plus(Minus(Scale(c, OfInt(a)), A), Minus(Scale(c, OfInt(b)), B))
  {
    hide Mult;
    IntsDistribute(c, a.re, b.re);
    IntsDistribute(c, a.im, b.im);
  }

  // ---------- The ring ----------

  function R(): Ring<C> { ComplexOver(Reals()) }

  lemma RingIs(x: C, y: C)
    ensures Add(R(), x, y) == Plus(x, y) && Sub(R(), x, y) == Minus(x, y) && Mul(R(), x, y) == Product(x, y)
    ensures R().one == Complex(1.0, 0.0) && R().zero == Complex(0.0, 0.0)
  {
    hide Reals, Mult;
    ComplexOps(Reals(), x, y);
    RealIs(x.re, y.re);
    RealIs(x.im, y.im);
    RealIs(x.re, y.im);
    RealIs(x.im, y.re);
    RealIs(Mult(x.re, y.re), Mult(x.im, y.im));
    RealIs(Mult(x.re, y.im), Mult(x.im, y.re));
  }

  lemma RealIs(a: real, b: real)
    ensures Add(Reals(), a, b) == a + b && Sub(Reals(), a, b) == a - b && Mul(Reals(), a, b) == Mult(a, b)
    ensures Reals().zero == 0.0 && Reals().one == 1.0
  {
    RealOps(a, b);
  }

  // ---------- The root lies on the unit circle ----------

  function Norm(x: C): real { Sq(x.re) + Sq(x.im) }

  lemma NormTimes(x: C, y: C)
    ensures Norm(Product(x, y)) == Mult(Norm(x), Norm(y))
  {
    ProductLength(x.re, x.im, y.re, y.im);
  }

  function RealPow(x: real, k: nat): real {
    if k == 0 then 1.0 else Mult(x, RealPow(x, k - 1))
  }

  lemma {:induction false} NormOfPow(w: C, k: nat)
    ensures Norm(Pow(R(), w, k)) == RealPow(Norm(w), k)
  {
    hide Norm, Mult, R;
    if k == 0 {
      NormOfOne();
    } else {
      NormOfPow(w, k - 1);
      RingIs(w, Pow(R(), w, k - 1));
      NormTimes(w, Pow(R(), w, k - 1));
    }
  }

  lemma NormOfOne()
    ensures Norm(R().one) == 1.0
  {
    hide R, Mult;
    RingIs(R().one, R().one);
  }

  lemma {:induction false} PowTooBig(x: real, k: nat)
    requires x > 1.0 && k >= 1
    ensures RealPow(x, k) >= x
  {
    if k == 1 {
      assert RealPow(x, 0) == 1.0;
    } else {
      PowTooBig(x, k - 1);
      Positive(x, RealPow(x, k - 1) - 1.0);
    }
  }

  lemma {:induction false} PowTooSmall(x: real, k: nat)
    requires 0.0 <= x < 1.0 && k >= 1
    ensures 0.0 <= RealPow(x, k) <= x
  {
    if k == 1 {
      assert RealPow(x, 0) == 1.0;
    } else {
      PowTooSmall(x, k - 1);
      Positive(x, RealPow(x, k - 1));
      Positive(x, 1.0 - RealPow(x, k - 1));
    }
  }

  lemma {:induction false} PowOfOne(k: nat)
    ensures RealPow(1.0, k) == 1.0
  {
    if k == 0 {
    } else {
      PowOfOne(k - 1);
    }
  }

  lemma RootIsUnit(w: C, n: nat)
    requires n >= 1 && IsRoot(R(), w, n)
    ensures Norm(w) == 1.0
  {
    var k := Pow2(n - 1);
    NormOfPow(w, k);
    MinusOne();
    SqSign(w.re);
    SqSign(w.im);
    hide Sq, RealPow, Pow2, R;
    if Norm(w) > 1.0 {
      PowTooBig(Norm(w), k);
    } else if Norm(w) < 1.0 {
      PowTooSmall(Norm(w), k);
    }
  }

  lemma MinusOne()
    ensures Norm(Neg(R(), R().one)) == 1.0
  {
    hide R, Mult;
    RingIs(R().zero, R().one);
    assert Sq(-1.0) == 1.0 && Sq(0.0) == 0.0;
  }

  lemma PowersAreUnits(w: C, n: nat, q: nat)
    requires n >= 1 && IsRoot(R(), w, n)
    ensures Small(Pow(R(), w, q), 1.0)
  {
    hide Pow, R, RealPow, IsRoot;
    RootIsUnit(w, n);
    NormOfPow(w, q);
    PowOfOne(q);
    assert Sq(1.0) == 1.0;
  }

  // ---------- One layer ----------

  ghost predicate AllNear(c: real, x: seq<V2s>, z: seq<C>, e: real) {
    |x| == |z| && forall p: nat :: p < |x| ==> Near(c, x[p], z[p], e)
  }

  /** The first `len` entries of the tables agree up to delta, and the exact ones are at most one. */
  ghost predicate NearTables(tw: seq<V2s>, zw: seq<C>, len: nat, delta: real) {
    && len <= |tw| && len <= |zw|
    && forall q: nat :: q < len ==> Small(Minus(OfQ15(tw[q]), zw[q]), delta) && Small(zw[q], 1.0)
  }

  lemma DiscIsSmall(a: V2s, r: int)
    requires InDisc(a, r)
    ensures Small(OfInt(a), r as real)
  {
    SquareAsReal(a.re);
    SquareAsReal(a.im);
    SquareAsReal(r);
    hide Square, Sq;
    assert (Square(a.re) + Square(a.im)) as real == Square(a.re) as real + Square(a.im) as real;
  }

  lemma SquareAsReal(x: int)
    ensures Square(x) as real == Sq(x as real)
  {
  }

  /** What one layer adds to the error, per unit of scale. */
  function Step(delta: real): real { 3.0 + Mult(32766.0, delta) }

  lemma StepIs(c: real, e: real, delta: real)
    requires c >= 0.0 && delta >= 0.0
    ensures 2.0 * e + 3.0 * c + Mult(c, Mult(32766.0, delta)) == 2.0 * e + Mult(c, Step(delta))
    ensures 2.0 * e + 1.5 * c <= 2.0 * e + Mult(c, Step(delta))
  {
    Positive(c, Mult(32766.0, delta));
  }

  lemma DifferenceIsSmall(a: V2s, b: V2s, r: int)
    requires InDisc(a, r) && InDisc(b, r) && r <= LIMIT
    ensures Small(OfInt(DiffV(a, b)), 32766.0)
  {
    hide InDisc, Small;
    SumInDisc(a, b, r);
    DiscIsSmall(DiffV(a, b), 2 * r);
    Wider(OfInt(DiffV(a, b)), (2 * r) as real, 32766.0);
  }

  /** The butterfly of the integers against the butterfly of the complex numbers. */
  lemma NearButterfly(c: real, a: V2s, b: V2s, w: V2s, A: C, B: C, W: C, e: real, delta: real, r: int)
    requires c >= 0.0 && delta >= 0.0 && Near(c, a, A, e) && Near(c, b, B, e) && InDisc(a, r) && InDisc(b, r) && r <= LIMIT
    requires Small(Minus(OfQ15(w), W), delta) && Small(W, 1.0)
    ensures Near(2.0 * c, Up(ExactButterfly(), a, b, w), Up(DifButterfly(R()), A, B, W), 2.0 * e + Mult(c, Step(delta)))
    ensures Near(2.0 * c, Low(ExactButterfly(), a, b, w), Low(DifButterfly(R()), A, B, W), 2.0 * e + Mult(c, Step(delta)))
  {
    hide Small, InDisc, Minus, Plus, Product, Scale, ExactButterfly, DifButterfly, Up, Low, R, Step, Mult, OfInt, OfQ15;
    var u, l := Up(ExactButterfly(), a, b, w), Low(ExactButterfly(), a, b, w);
    ExactIsRounded(a, b, w);
    DifOutputs(A, B, W);
    DifferenceIsSmall(a, b, r);
    StepIs(c, e, delta);
    NearUp(c, a, b, u, A, B, e);
    Wider(Minus(Scale(2.0 * c, OfInt(u)), Plus(A, B)), 2.0 * e + 1.5 * c, 2.0 * e + Mult(c, Step(delta)));
    NearLow(c, a, b, w, l, A, B, W, e, 32766.0, delta, Mult(c, Mult(32766.0, delta)));
  }

  lemma DifOutputs(A: C, B: C, W: C)
    ensures Up(DifButterfly(R()), A, B, W) == Plus(A, B) && Low(DifButterfly(R()), A, B, W) == Product(Minus(A, B), W)
    ensures Up(PlainButterfly(R()), A, B, W) == Plus(A, B) && Low(PlainButterfly(R()), A, B, W) == Minus(A, B)
  {
    hide R, Plus, Minus, Product;
    RingIs(A, B);
    RingIs(Minus(A, B), W);
  }

  lemma NearLane(c: real, x: seq<V2s>, z: seq<C>, M: nat, L: nat, tw: seq<V2s>, zw: seq<C>, e: real, delta: real, r: int, p: nat)
    requires c >= 0.0 && delta >= 0.0 && M >= 1 && L >= 1 && AllNear(c, x, z, e) && AllInDisc(x, r) && r <= LIMIT
    requires NearTables(tw, zw, M * L, delta) && p < |x|
    ensures Near(2.0 * c, LayerAt(ExactButterfly(), x, M, L, tw, p), LayerAt(DifButterfly(R()), z, M, L, zw, p),
                 2.0 * e + Mult(c, Step(delta)))
  {
    hide Near, InDisc, Small, Minus, OfQ15, ExactButterfly, DifButterfly, Up, Low, R, Step, Mult;
    var s := p % (2 * M);
    if s < M {
      TwiddleStep(M, L, M * L, s);
      NearButterfly(c, x[p], At(x, p + M, x[p]), tw[s * L], z[p], At(z, p + M, z[p]), zw[s * L], e, delta, r);
    } else {
      TwiddleStep(M, L, M * L, s - M);
      NearButterfly(c, At(x, p - M, x[p]), x[p], tw[(s - M) * L], At(z, p - M, z[p]), z[p], zw[(s - M) * L], e, delta, r);
    }
  }

  lemma NearLayer(c: real, x: seq<V2s>, z: seq<C>, M: nat, L: nat, tw: seq<V2s>, zw: seq<C>, e: real, delta: real, r: int)
    requires c >= 0.0 && delta >= 0.0 && M >= 1 && L >= 1 && AllNear(c, x, z, e) && AllInDisc(x, r) && r <= LIMIT
    requires NearTables(tw, zw, M * L, delta)
    ensures AllNear(2.0 * c, Layer(ExactButterfly(), x, M, L, tw), Layer(DifButterfly(R()), z, M, L, zw), 2.0 * e + Mult(c, Step(delta)))
  {
    hide Near, AllInDisc, NearTables, LayerAt, Layer, Step, Mult, ExactButterfly, DifButterfly, R;
    forall p: nat | p < |x|
      ensures Near(2.0 * c, Layer(ExactButterfly(), x, M, L, tw)[p], Layer(DifButterfly(R()), z, M, L, zw)[p], 2.0 * e + Mult(c, Step(delta)))
    {
      LayerElement(ExactButterfly(), x, M, L, tw, p);
      LayerElement(DifButterfly(R()), z, M, L, zw, p);
      NearLane(c, x, z, M, L, tw, zw, e, delta, r, p);
    }
  }

  /** The last layer: sums and differences of neighbours. */
  lemma NearLastLayer(c: real, x: seq<V2s>, z: seq<C>, one: V2s, e: real)
    requires AllNear(c, x, z, e) && |x| % 2 == 0
    ensures AllNear(c, PairLayer(ExactLast(), one, x), PairLayer(PlainButterfly(R()), R().one, z), 2.0 * e)
  {
    hide Near, Layer, ExactLast, PlainButterfly, R, Up, Low;
    forall p: nat | p < |x|
      ensures Near(c, PairLayer(ExactLast(), one, x)[p], PairLayer(PlainButterfly(R()), R().one, z)[p], 2.0 * e)
    {
      LayerElement(ExactLast(), x, 1, 0, [one], p);
      LayerElement(PlainButterfly(R()), z, 1, 0, [R().one], p);
      if p % 2 == 0 {
        NearPair(c, x[p], x[p + 1], one, z[p], z[p + 1], e);
      } else {
        NearPair(c, x[p - 1], x[p], one, z[p - 1], z[p], e);
      }
    }
  }

  lemma NearPair(c: real, a: V2s, b: V2s, one: V2s, A: C, B: C, e: real)
    requires Near(c, a, A, e) && Near(c, b, B, e)
    ensures Near(c, Up(ExactLast(), a, b, one), Up(PlainButterfly(R()), A, B, R().one), 2.0 * e)
    ensures Near(c, Low(ExactLast(), a, b, one), Low(PlainButterfly(R()), A, B, R().one), 2.0 * e)
  {
    hide *;
    NearLast(c, a, b, A, B, e);
    ExactLastOutputs(a, b, one);
    DifOutputs(A, B, R().one);
  }

  // ---------- All layers ----------

  function ScaleAfter(c: real, n: nat): real
    decreases n
  {
    if n <= 1 then c else ScaleAfter(2.0 * c, n - 1)
  }

  function ErrorAfter(c: real, e: real, k: real, n: nat): real
    decreases n
  {
    if n <= 1 then 2.0 * e else ErrorAfter(2.0 * c, 2.0 * e + Mult(c, k), k, n - 1)
  }

  lemma {:induction false} NearRun(c: real, x: seq<V2s>, z: seq<C>, one: V2s, n: nat, L: nat, tw: seq<V2s>, zw: seq<C>,
                                   e: real, delta: real, r: int)
    requires c >= 0.0 && delta >= 0.0 && n >= 1 && L >= 1 && |x| % 2 == 0 && AllNear(c, x, z, e)
    requires AllInDisc(x, r) && AllInDisc(tw, 0x7FFF) && r + 2 * n <= LIMIT + 2 && NearTables(tw, zw, Pow2(n - 1) * L, delta)
    ensures AllNear(ScaleAfter(c, n), DifLayers(ExactButterfly(), ExactLast(), one, x, n, L, tw, n), DifAll(R(), z, n, L, zw),
                    ErrorAfter(c, e, Step(delta), n))
    decreases n
  {
    hide AllNear, AllInDisc, NearTables, Layer, PairLayer, DifLayers, Pow2, Step, Mult, ExactButterfly, ExactLast, DifButterfly, PlainButterfly, R;
    DifLayersStep(ExactButterfly(), ExactLast(), one, x, n, L, tw, n);
    DifLayersStep(DifButterfly(R()), PlainButterfly(R()), R().one, z, n, L, zw, n);
    if n == 1 {
      NearLastLayer(c, x, z, one, e);
    } else {
      var M := Pow2(n - 1);
      NearLayer(c, x, z, M, L, tw, zw, e, delta, r);
      LayerInDisc(x, M, L, tw, r);
      HalfTables(n, L, tw, zw, delta);
      NearRun(2.0 * c, Layer(ExactButterfly(), x, M, L, tw), Layer(DifButterfly(R()), z, M, L, zw), one, n - 1, 2 * L, tw, zw,
              2.0 * e + Mult(c, Step(delta)), delta, r + 2);
    }
  }

  lemma HalfTables(n: nat, L: nat, tw: seq<V2s>, zw: seq<C>, delta: real)
    requires n >= 2 && NearTables(tw, zw, Pow2(n - 1) * L, delta)
    ensures NearTables(tw, zw, Pow2(n - 2) * (2 * L), delta)
  {
    HalfStride(n, L);
    hide Small, Minus, OfQ15, Pow2;
  }

  // ---------- The distance from the transform ----------

  lemma {:induction false} ScaleIs(c: real, n: nat)
    requires n >= 1
    ensures ScaleAfter(c, n) == Mult(Pow2(n - 1) as real, c)
    decreases n
  {
    if n == 1 {
      assert Pow2(0) == 1;
    } else {
      ScaleIs(2.0 * c, n - 1);
      var p := Pow2(n - 2) as real;
      assert Pow2(n - 1) as real == 2.0 * p;
      assert p * (2.0 * c) == (2.0 * p) * c;
    }
  }

  /** 2·p·e + (n - 1)·p·c·k, with p = 2^(n-1) */
  function Total(p: real, n: nat, c: real, e: real, k: real): real {
    2.0 * p * e + (n as real - 1.0) * p * c * k
  }

  lemma TotalStep(p: real, n: nat, c: real, e: real, k: real)
    requires n >= 1
    ensures Total(p, n - 1, 2.0 * c, 2.0 * e + Mult(c, k), k) == Total(2.0 * p, n, c, e, k)
  {
    var m := n as real - 1.0;
    assert (n - 1) as real - 1.0 == m - 1.0;
    assert 2.0 * p * (2.0 * e + c * k) == 4.0 * p * e + 2.0 * (p * (c * k));
    assert (m - 1.0) * p * (2.0 * c) * k == 2.0 * (m * p * c * k) - 2.0 * (p * (c * k));
    assert 2.0 * (2.0 * p) * e + m * (2.0 * p) * c * k == 4.0 * p * e + 2.0 * (m * p * c * k);
  }

  lemma NoSteps(c: real, e: real, k: real)
    ensures Total(1.0, 1, c, e, k) == 2.0 * e
  {
    var m := 1 as real - 1.0;
    assert m * 1.0 * c * k == 0.0;
  }

  lemma {:induction false} ErrorIs(c: real, e: real, k: real, n: nat)
    requires n >= 1
    ensures ErrorAfter(c, e, k, n) == Total(Pow2(n - 1) as real, n, c, e, k)
    decreases n
  {
    hide Total, Mult;
    if n == 1 {
      assert Pow2(0) as real == 1.0;
      NoSteps(c, e, k);
    } else {
      ErrorIs(2.0 * c, 2.0 * e + Mult(c, k), k, n - 1);
      assert Pow2(n - 1) as real == 2.0 * Pow2(n - 2) as real;
      TotalStep(Pow2(n - 2) as real, n, c, e, k);
    }
  }

  /** The integer value a differs from z / p by at most t. */
  predicate NearScaled(a: V2s, z: C, p: real, t: real)
    requires p > 0.0
  {
    Within(a.re as real - z.re / p, a.im as real - z.im / p, t)
  }

  lemma Unscale(p: real, a: real, z: real)
    requires p > 0.0
    ensures Mult(1.0 / p, Mult(p, a) - z) == a - z / p
  {
    var q := 1.0 / p;
    assert q * p == 1.0;
    assert q * (p * a - z) == (q * p) * a - q * z;
    assert q * z == z / p;
  }

  lemma Unscaled(p: real, a: V2s, z: C, e: real, t: real)
    requires p > 0.0 && Near(p, a, z, e) && e == Mult(p, t)
    ensures NearScaled(a, z, p, t)
  {
    hide Within, Mult;
    ScaleWithin(1.0 / p, Mult(p, a.re as real) - z.re, Mult(p, a.im as real) - z.im, e);
    Unscale(p, a.re as real, z.re);
    Unscale(p, a.im as real, z.im);
    UnscaleRadius(p, t);
  }

  lemma UnscaleRadius(p: real, t: real)
    requires p > 0.0
    ensures Mult(1.0 / p, Mult(p, t)) == t
  {
    var q := 1.0 / p;
    assert q * p == 1.0;
    assert q * (p * t) == (q * p) * t;
  }

  lemma TotalIs(p: real, n: nat, k: real)
    ensures Total(p, n, 1.0, 0.0, k) == Mult(p, Mult(n as real - 1.0, k))
  {
    var m := n as real - 1.0;
    assert 2.0 * p * 0.0 == 0.0;
    assert m * p * 1.0 * k == p * (m * k);
  }

  /** The samples as complex numbers. */
  function OfInts(x: seq<V2s>): (z: seq<C>)
    ensures |z| == |x| && forall p: nat :: p < |x| ==> z[p] == OfInt(x[p])
  {
    if x == [] then [] else OfInts(x[..|x| - 1]) + [OfInt(x[|x| - 1])]
  }

  lemma StartsNear(x: seq<V2s>)
    ensures AllNear(1.0, x, OfInts(x), 0.0)
  {
    forall p: nat | p < |x| ensures Near(1.0, x[p], OfInts(x)[p], 0.0) {
      assert Sq(0.0) == 0.0;
      assert Minus(Scale(1.0, OfInt(x[p])), OfInt(x[p])) == Complex(0.0, 0.0);
    }
  }

  /** The code's table holds the powers of w in Q15, up to delta. */
  ghost predicate IsQ15Table(tw: seq<V2s>, w: C, len: nat, delta: real) {
    len <= |tw| && forall q: nat :: q < len ==> Small(Minus(OfQ15(tw[q]), Pow(R(), w, q)), delta)
  }

  lemma TablesAreNear(tw: seq<V2s>, zw: seq<C>, w: C, n: nat, L: nat, delta: real)
    requires L == 1 && n >= 1 && IsRoot(R(), w, n) && IsQ15Table(tw, w, Pow2(n - 1), delta) && IsTwiddles(R(), zw, w, Pow2(n - 1))
    ensures NearTables(tw, zw, Pow2(n - 1) * L, delta)
  {
    hide Small, Minus, OfQ15, R, Pow, Pow2, IsRoot;
    forall q: nat | q < Pow2(n - 1) ensures Small(Minus(OfQ15(tw[q]), zw[q]), delta) && Small(zw[q], 1.0) {
      PowersAreUnits(w, n, q);
    }
  }

  /**
    Output k, at the bit reversal of k, differs from the transform divided by 2^(n-1) by at most
    (n - 1)·(3 + 32766·delta).
   */
  lemma DistanceFromDft(x: seq<V2s>, one: V2s, tw: seq<V2s>, zw: seq<C>, w: C, delta: real, n: nat, k: nat)
    requires 1 <= n <= 2399 && |x| == Pow2(n) && k < Pow2(n) && AllInDisc(x, 11586) && AllInDisc(tw, 0x7FFF) && delta >= 0.0
    requires IsRoot(R(), w, n) && IsQ15Table(tw, w, Pow2(n - 1), delta) && IsTwiddles(R(), zw, w, Pow2(n - 1))
    ensures NearScaled(DifLayers(ExactButterfly(), ExactLast(), one, x, n, 1, tw, n)[Rev(k, n)],
                       Dft.SumTo(R(), OfInts(x), w, k, |x|), Pow2(n - 1) as real, (n as real - 1.0) * (3.0 + 32766.0 * delta))
  {
    hide *;
    Pow2Step(n);
    StartsNear(x);
    RadiusFits(0, n);
    TablesAreNear(tw, zw, w, n, 1, delta);
    NearRun(1.0, x, OfInts(x), one, n, 1, tw, zw, 0.0, delta, 11586);
    OutputIs(OfInts(x), zw, w, n, k);
    FinalBound(n, delta);
    var y, Y := DifLayers(ExactButterfly(), ExactLast(), one, x, n, 1, tw, n), DifAll(R(), OfInts(x), n, 1, zw);
    OneNear(ScaleAfter(1.0, n), y, Y, ErrorAfter(1.0, 0.0, Step(delta), n), Rev(k, n));
    Unscaled(Pow2(n - 1) as real, y[Rev(k, n)], Y[Rev(k, n)], ErrorAfter(1.0, 0.0, Step(delta), n), (n as real - 1.0) * (3.0 + 32766.0 * delta));
  }

  lemma OneNear(c: real, x: seq<V2s>, z: seq<C>, e: real, p: nat)
    requires AllNear(c, x, z, e) && p < |x|
    ensures p < |z| && Near(c, x[p], z[p], e)
  {
  }

  lemma FinalBound(n: nat, delta: real)
    requires n >= 1
    ensures ScaleAfter(1.0, n) == Pow2(n - 1) as real
    ensures ErrorAfter(1.0, 0.0, Step(delta), n) == Mult(Pow2(n - 1) as real, (n as real - 1.0) * (3.0 + 32766.0 * delta))
  {
    ScaleIs(1.0, n);
    ErrorIs(1.0, 0.0, Step(delta), n);
    TotalIs(Pow2(n - 1) as real, n, Step(delta));
    hide ScaleAfter, ErrorAfter, Total;
  }

  lemma OutputIs(z: seq<C>, zw: seq<C>, w: C, n: nat, k: nat)
    requires n >= 1 && |z| == Pow2(n) && k < Pow2(n) && IsRoot(R(), w, n) && IsTwiddles(R(), zw, w, Pow2(n - 1))
    ensures Rev(k, n) < |z| && DifAll(R(), z, n, 1, zw)[Rev(k, n)] == Dft.SumTo(R(), z, w, k, |z|)
  {
    hide IsRoot, IsTwiddles, Pow, Dft.SumTo, Dft.Part, R, DifAll, Rev, Pow2, CommRing;
    RIsRing();
    FirstTable(zw, w, n);
    DifIsDft(R(), z, n, 1, zw, w, k);
    FirstPower(R(), w);
    Dft.SumToIsPart(R(), z, w, k, |z|);
  }

  lemma FirstTable(zw: seq<C>, w: C, n: nat)
    requires n >= 1 && CommRing(R()) && IsRoot(R(), w, n) && IsTwiddles(R(), zw, w, Pow2(n - 1))
    ensures Tables(R(), n, 1, zw, w)
  {
    hide IsRoot, IsTwiddles, R, CommRing, Pow, Pow2;
    FirstPower(R(), w);
  }

  lemma RIsRing()
    ensures CommRing(R())
  {
    hide Reals, CommRing;
    RealsAreCommRing();
    ComplexIsCommRing(Reals());
  }

  /**
    `Radix2FFT_DIF` on 13-bit samples with a Q15 table of the powers of w, exact up to delta: every output
    differs from the transform of the samples, divided by 2^(n-1), by at most (n - 1)·(3 + 32766·delta).
   */
  method DifOfInts(data: array<V2s>, tw: array<V2s>, ghost w: C, ghost delta: real, ghost n: nat)
    requires 1 <= n <= 2399 && data.Length == Pow2(n) && tw.Length >= data.Length / 2 && data != tw && delta >= 0.0
    requires forall p :: 0 <= p < data.Length ==> -0x2000 <= data[p].re <= 0x2000 && -0x2000 <= data[p].im <= 0x2000
    requires AllInDisc(tw[..], 0x7FFF) && IsRoot(R(), w, n) && IsQ15Table(tw[..], w, Pow2(n - 1), delta)
    modifies data
    ensures IsScaledTransform(old(data[..]), w, delta, n, data[..])
  {
    ghost var x, t := data[..], tw[..];
    SamplesInDisc(x);
    Radix2FFTDif(data, tw, n);
    AllOutputs(x, t, w, delta, n, data[..]);
  }

  /** Position Rev(k, n) of y holds output k of the transform of x, divided by 2^(n-1), up to the bound. */
  ghost predicate IsScaledTransform(x: seq<V2s>, w: C, delta: real, n: nat, y: seq<V2s>) {
    && n >= 1 && |y| == |x| == Pow2(n)
    && forall k: nat :: k < Pow2(n) ==>
         Rev(k, n) < |y| && NearScaled(y[Rev(k, n)], Dft.SumTo(R(), OfInts(x), w, k, |x|), Pow2(n - 1) as real, (n as real - 1.0) * (3.0 + 32766.0 * delta))
  }

  lemma AllOutputs(x: seq<V2s>, tw: seq<V2s>, w: C, delta: real, n: nat, y: seq<V2s>)
    requires 1 <= n <= 2399 && |x| == Pow2(n) && AllInDisc(x, 11586) && AllInDisc(tw, 0x7FFF) && delta >= 0.0
    requires IsRoot(R(), w, n) && IsQ15Table(tw, w, Pow2(n - 1), delta)
    requires y == DifLayers(ExactButterfly(), ExactLast(), V2s(1, 0), x, n, 1, tw, n)
    ensures IsScaledTransform(x, w, delta, n, y)
  {
    hide AllInDisc, IsRoot, IsQ15Table, DifLayers, Rev, NearScaled, Dft.SumTo, R, Pow, Pow2, OfInts;
    forall k: nat | k < Pow2(n)
      ensures Rev(k, n) < |y|
      ensures NearScaled(y[Rev(k, n)], Dft.SumTo(R(), OfInts(x), w, k, |x|), Pow2(n - 1) as real, (n as real - 1.0) * (3.0 + 32766.0 * delta))
    {
      DistanceFromDft(x, V2s(1, 0), tw, Powers(R(), w, Pow2(n - 1)), w, delta, n, k);
    }
  }
}
