/**
  The transform on complex numbers, written out with the operations of the reals: what every route of
  Fft.dfy and FftVector.dfy leaves when its ring is the complex numbers.
 */
module FftReals {
  import opened Bits
  import opened Rings
  import opened FftScalar
  import opened FftError
  import Dft

  /** Real and imaginary part of (u + iv)^k. */
  function Power(u: real, v: real, k: nat): (real, real) {
    if k == 0 then (1.0, 0.0)
    else
      var p := Power(u, v, k - 1);
      (Mult(u, p.0) - Mult(v, p.1), Mult(u, p.1) + Mult(v, p.0))
  }

  lemma {:induction false} PowIsPower(u: real, v: real, k: nat)
    ensures Pow(R(), Complex(u, v), k) == Complex(Power(u, v, k).0, Power(u, v, k).1)
  {
    hide R, Mult;
    if k == 0 {
      RingIs(R().one, R().one);
    } else {
      PowIsPower(u, v, k - 1);
      RingIs(Complex(u, v), Pow(R(), Complex(u, v), k - 1));
    }
  }

  /** The real part of the sum of x[j]·(u + iv)^(jk), over the first n samples. */
  function SumRe(x: seq<Complex<real>>, u: real, v: real, k: nat, n: nat): real
    requires n <= |x|
  {
    if n == 0 then 0.0
    else
      var p := Power(u, v, (n - 1) * k);
      SumRe(x, u, v, k, n - 1) + (Mult(x[n - 1].re, p.0) - Mult(x[n - 1].im, p.1))
  }

  /** The imaginary part. */
  function SumIm(x: seq<Complex<real>>, u: real, v: real, k: nat, n: nat): real
    requires n <= |x|
  {
    if n == 0 then 0.0
    else
      var p := Power(u, v, (n - 1) * k);
      SumIm(x, u, v, k, n - 1) + (Mult(x[n - 1].re, p.1) + Mult(x[n - 1].im, p.0))
  }

  lemma TermIs(x: Complex<real>, u: real, v: real, s: Complex<real>, k: nat)
    ensures Add(R(), s, Mul(R(), x, Pow(R(), Complex(u, v), k)))
         == (var p := Power(u, v, k); Complex(s.re + (Mult(x.re, p.0) - Mult(x.im, p.1)), s.im + (Mult(x.re, p.1) + Mult(x.im, p.0))))
  {
    hide R, Power, Mult, Pow;
    PowIsPower(u, v, k);
    RingIs(x, Pow(R(), Complex(u, v), k));
    RingIs(s, Product(x, Pow(R(), Complex(u, v), k)));
  }

  lemma {:induction false} SumIs(x: seq<Complex<real>>, u: real, v: real, k: nat, n: nat)
    requires n <= |x|
    ensures Dft.SumTo(R(), x, Complex(u, v), k, n) == Complex(SumRe(x, u, v, k, n), SumIm(x, u, v, k, n))
  {
    hide R, Power, Pow, Mult;
    if n == 0 {
      RingIs(R().zero, R().zero);
    } else {
      SumIs(x, u, v, k, n - 1);
      TermIs(x[n - 1], u, v, Complex(SumRe(x, u, v, k, n - 1), SumIm(x, u, v, k, n - 1)), (n - 1) * k);
    }
  }

  /** Every output of a transform on complex numbers, in real arithmetic. */
  lemma TransformIs(x: seq<Complex<real>>, u: real, v: real, y: seq<Complex<real>>, k: nat)
    requires Dft.IsTransform(ComplexOver(Reals()), x, Complex(u, v), y) && k < |x|
    ensures |y| == |x| && y[k].re == SumRe(x, u, v, k, |x|) && y[k].im == SumIm(x, u, v, k, |x|)
  {
    hide SumRe, SumIm, Dft.SumTo;
    SumIs(x, u, v, k, |x|);
  }

  /** What is asked of the root: its half power is -1. */
  lemma RootIs(u: real, v: real, n: nat)
    requires n >= 1
    ensures IsRoot(R(), Complex(u, v), n) <==> Power(u, v, Pow2(n - 1)) == (-1.0, 0.0)
  {
    hide Power, Pow, Pow2, R, Mult;
    PowIsPower(u, v, Pow2(n - 1));
    RingIs(R().zero, R().one);
  }

  // ---------- Four samples ----------

  lemma SumNext(x: seq<Complex<real>>, u: real, v: real, k: nat, n: nat, p: (real, real))
    requires n < |x| && p == Power(u, v, n * k)
    ensures SumRe(x, u, v, k, n + 1) == SumRe(x, u, v, k, n) + (Mult(x[n].re, p.0) - Mult(x[n].im, p.1))
    ensures SumIm(x, u, v, k, n + 1) == SumIm(x, u, v, k, n) + (Mult(x[n].re, p.1) + Mult(x[n].im, p.0))
    ensures SumRe(x, u, v, k, 0) == 0.0 && SumIm(x, u, v, k, 0) == 0.0
  {
    hide Power, Mult;
  }

  lemma FourTerms(x: seq<Complex<real>>, u: real, v: real, k: nat, q: (real, real), r: (real, real), s: (real, real))
    requires |x| == 4 && q == Power(u, v, k) && r == Power(u, v, 2 * k) && s == Power(u, v, 3 * k)
    ensures SumRe(x, u, v, k, 4) == x[0].re + (Mult(x[1].re, q.0) - Mult(x[1].im, q.1))
                                  + (Mult(x[2].re, r.0) - Mult(x[2].im, r.1)) + (Mult(x[3].re, s.0) - Mult(x[3].im, s.1))
    ensures SumIm(x, u, v, k, 4) == x[0].im + (Mult(x[1].re, q.1) + Mult(x[1].im, q.0))
                                  + (Mult(x[2].re, r.1) + Mult(x[2].im, r.0)) + (Mult(x[3].re, s.1) + Mult(x[3].im, s.0))
  {
    hide SumRe, SumIm, Mult;
    assert Power(u, v, 0) == (1.0, 0.0);
    SumNext(x, u, v, k, 0, (1.0, 0.0));
    SumNext(x, u, v, k, 1, q);
    SumNext(x, u, v, k, 2, r);
    SumNext(x, u, v, k, 3, s);
    MultUnits(x[0].re);
    MultUnits(x[0].im);
  }

  lemma MultUnits(x: real)
    ensures Mult(x, 1.0) == x && Mult(x, 0.0) == 0.0 && Mult(x, -1.0) == -x
  {
  }

  lemma NextPower(k: nat)
    ensures Power(0.0, -1.0, 0) == (1.0, 0.0)
    ensures Power(0.0, -1.0, k + 1) == (Power(0.0, -1.0, k).1, -Power(0.0, -1.0, k).0)
  {
  }

  lemma PowersOfMinusI()
    ensures Power(0.0, -1.0, 0) == (1.0, 0.0) && Power(0.0, -1.0, 1) == (0.0, -1.0)
    ensures Power(0.0, -1.0, 2) == (-1.0, 0.0) && Power(0.0, -1.0, 3) == (0.0, 1.0)
    ensures Power(0.0, -1.0, 4) == (1.0, 0.0) && Power(0.0, -1.0, 6) == (-1.0, 0.0) && Power(0.0, -1.0, 9) == (0.0, -1.0)
  {
    hide Power;
    NextPower(0);
    NextPower(1);
    NextPower(2);
    NextPower(3);
    NextPower(4);
    NextPower(5);
    NextPower(6);
    NextPower(7);
    NextPower(8);
  }

  /** The transform of four samples with the root -i. */
  lemma FourSamples(x: seq<Complex<real>>, y: seq<Complex<real>>)
    requires |x| == 4 && Dft.IsTransform(ComplexOver(Reals()), x, Complex(0.0, -1.0), y)
    ensures |y| == 4 && y[0].re == x[0].re + x[1].re + x[2].re + x[3].re && y[0].im == x[0].im + x[1].im + x[2].im + x[3].im
    ensures y[1].re == x[0].re + x[1].im - x[2].re - x[3].im && y[1].im == x[0].im - x[1].re - x[2].im + x[3].re
    ensures y[2].re == x[0].re - x[1].re + x[2].re - x[3].re && y[2].im == x[0].im - x[1].im + x[2].im - x[3].im
    ensures y[3].re == x[0].re - x[1].im - x[2].re + x[3].im && y[3].im == x[0].im + x[1].re - x[2].im - x[3].re
  {
    hide *;
    PowersOfMinusI();
    FourOutputs(x, y);
    forall j | 0 <= j < 4
      ensures Mult(x[j].re, 1.0) == x[j].re && Mult(x[j].re, 0.0) == 0.0 && Mult(x[j].re, -1.0) == -x[j].re
      ensures Mult(x[j].im, 1.0) == x[j].im && Mult(x[j].im, 0.0) == 0.0 && Mult(x[j].im, -1.0) == -x[j].im
    {
      MultUnits(x[j].re);
      MultUnits(x[j].im);
    }
    FourTerms(x, 0.0, -1.0, 0, (1.0, 0.0), (1.0, 0.0), (1.0, 0.0));
    FourTerms(x, 0.0, -1.0, 1, (0.0, -1.0), (-1.0, 0.0), (0.0, 1.0));
    FourTerms(x, 0.0, -1.0, 2, (-1.0, 0.0), (1.0, 0.0), (-1.0, 0.0));
    FourTerms(x, 0.0, -1.0, 3, (0.0, 1.0), (-1.0, 0.0), (0.0, -1.0));
  }

  lemma FourOutputs(x: seq<Complex<real>>, y: seq<Complex<real>>)
    requires |x| == 4 && Dft.IsTransform(ComplexOver(Reals()), x, Complex(0.0, -1.0), y)
    ensures |y| == 4 && forall k: nat :: k < 4 ==>
      y[k].re == SumRe(x, 0.0, -1.0, k, 4) && y[k].im == SumIm(x, 0.0, -1.0, k, 4)
  {
    hide SumRe, SumIm, Dft.SumTo, ComplexOver, Reals;
    forall k: nat | k < 4 ensures |y| == 4 && y[k].re == SumRe(x, 0.0, -1.0, k, 4) && y[k].im == SumIm(x, 0.0, -1.0, k, 4) {
      TransformIs(x, 0.0, -1.0, y, k);
    }
  }
}
