/** The discrete Fourier transform over a commutative ring, and its halving laws. */
module Dft {
  import opened Rings

  /** The sum of x[j]·w^(jk) over the first n samples. */
  function SumTo<T>(R: Ring<T>, x: seq<T>, w: T, k: nat, n: nat): T
    requires n <= |x|
  {
    if n == 0 then R.zero
    else Add(R, SumTo(R, x, w, k, n - 1), Mul(R, x[n - 1], Pow(R, w, (n - 1) * k)))
  }

  /** y is the transform of x in natural order: y[k] is the sum over all j of x[j]·w^(jk). */
  ghost predicate IsTransform<T>(R: Ring<T>, x: seq<T>, w: T, y: seq<T>) {
    |y| == |x| && forall k :: 0 <= k < |x| ==> y[k] == SumTo(R, x, w, k, |x|)
  }

  // ---------- The transform evaluates a polynomial at the powers of w ----------

  /** The sum of x[j]·z^j for lo <= j < hi. */
  function Part<T>(R: Ring<T>, x: seq<T>, z: T, lo: nat, hi: nat): T
    requires lo <= hi <= |x|
    decreases hi
  {
    if hi == lo then R.zero
    else Add(R, Part(R, x, z, lo, hi - 1), Mul(R, x[hi - 1], Pow(R, z, hi - 1)))
  }

  function Eval<T>(R: Ring<T>, x: seq<T>, z: T): T {
    Part(R, x, z, 0, |x|)
  }

  /** Output k of the transform. */
  function At<T>(R: Ring<T>, x: seq<T>, w: T, k: nat): T {
    Eval(R, x, Pow(R, w, k))
  }

  lemma {:induction false} SumToIsPart<T(!new)>(R: Ring<T>, x: seq<T>, w: T, k: nat, n: nat)
    requires CommRing(R) && n <= |x|
    ensures SumTo(R, x, w, k, n) == Part(R, x, Pow(R, w, k), 0, n)
  {
    if n == 0 {
    } else {
      SumToIsPart(R, x, w, k, n - 1);
      PowMul(R, w, k, n - 1);
      assert k * (n - 1) == (n - 1) * k;
    }
  }

  lemma OutputsAreTransform<T(!new)>(R: Ring<T>, x: seq<T>, w: T, y: seq<T>)
    requires CommRing(R) && |y| == |x|
    requires forall k: nat :: k < |x| ==> y[k] == At(R, x, w, k)
    ensures IsTransform(R, x, w, y)
  {
    forall k: nat | k < |x| ensures y[k] == SumTo(R, x, w, k, |x|) {
      SumToIsPart(R, x, w, k, |x|);
    }
  }

  lemma {:induction false} PartSplit<T(!new)>(R: Ring<T>, x: seq<T>, z: T, lo: nat, mid: nat, hi: nat)
    requires CommRing(R) && lo <= mid <= hi <= |x|
    ensures Part(R, x, z, lo, hi) == Add(R, Part(R, x, z, lo, mid), Part(R, x, z, mid, hi))
    decreases hi
  {
    if mid == hi {
      AddZero(R, Part(R, x, z, lo, mid));
    } else {
      PartSplit(R, x, z, lo, mid, hi - 1);
      assert RingLaw(R, Part(R, x, z, lo, mid), Part(R, x, z, mid, hi - 1), Mul(R, x[hi - 1], Pow(R, z, hi - 1)));
    }
  }

  lemma {:induction false} PowBase<T(!new)>(R: Ring<T>, u: T, v: T, k: nat)
    requires CommRing(R)
    ensures Pow(R, Mul(R, u, v), k) == Mul(R, Pow(R, u, k), Pow(R, v, k))
  {
    if k == 0 {
      assert RingLaw(R, R.one, R.one, R.one);
    } else {
      PowBase(R, u, v, k - 1);
      var p, q := Pow(R, u, k - 1), Pow(R, v, k - 1);
      assert RingLaw(R, u, v, Mul(R, p, q));
      assert RingLaw(R, v, p, q);
      assert RingLaw(R, p, v, q);
      assert RingLaw(R, u, p, Mul(R, v, q));
    }
  }

  lemma SquarePow<T(!new)>(R: Ring<T>, w: T, k: nat)
    requires CommRing(R)
    ensures Mul(R, Pow(R, w, k), Pow(R, w, k)) == Pow(R, Mul(R, w, w), k)
    ensures Pow(R, w, 2 * k) == Pow(R, Mul(R, w, w), k)
  {
    PowBase(R, w, w, k);
    PowAdd(R, w, k, k);
  }

  lemma SquareMinusOne<T(!new)>(R: Ring<T>)
    requires CommRing(R)
    ensures Mul(R, Neg(R, R.one), Neg(R, R.one)) == R.one
  {
    MulNeg(R, Neg(R, R.one), R.one);
    NegNeg(R, R.one);
    assert RingLaw(R, Neg(R, R.one), R.one, R.one);
  }

  lemma SwapExponents<T(!new)>(R: Ring<T>, w: T, j: nat, k: nat)
    requires CommRing(R)
    ensures Pow(R, Pow(R, w, j), k) == Pow(R, Pow(R, w, k), j)
  {
    PowMul(R, w, j, k);
    PowMul(R, w, k, j);
    assert j * k == k * j;
  }

  /** (w^k)^M is 1 for even k and -1 for odd k. */
  lemma HalfTurn<T(!new)>(R: Ring<T>, w: T, M: nat, q: nat)
    requires CommRing(R) && Pow(R, w, M) == Neg(R, R.one)
    ensures Pow(R, Pow(R, w, 2 * q), M) == R.one
    ensures Pow(R, Pow(R, w, 2 * q + 1), M) == Neg(R, R.one)
  {
    SwapExponents(R, w, 2 * q, M);
    SwapExponents(R, w, 2 * q + 1, M);
    var m := Neg(R, R.one);
    SquarePow(R, m, q);
    SquareMinusOne(R);
    PowOne(R, q);
    assert RingLaw(R, m, R.one, R.one);
  }

  // ---------- Decimation in frequency: halves of the input ----------

  /** h is the first half of x plus the second. */
  ghost predicate IsHalfSum<T>(R: Ring<T>, x: seq<T>, M: nat, h: seq<T>) {
    |x| == 2 * M && |h| == M && forall j {:trigger h[j]} :: 0 <= j < M ==> h[j] == Add(R, x[j], x[j + M])
  }

  /** h is the difference of the halves, sample j multiplied by w^j. */
  ghost predicate IsHalfDiff<T>(R: Ring<T>, x: seq<T>, M: nat, w: T, h: seq<T>) {
    |x| == 2 * M && |h| == M
    && forall j {:trigger h[j]} :: 0 <= j < M ==> h[j] == Mul(R, Sub(R, x[j], x[j + M]), Pow(R, w, j))
  }

  /** Two terms of x, M apart, that add up to one term of h. */
  ghost predicate Folds<T>(R: Ring<T>, x: seq<T>, z: T, M: nat, h: seq<T>, v: T, j: nat)
    requires |x| == 2 * M && |h| == M && j < M
  {
    Add(R, Mul(R, x[j], Pow(R, z, j)), Mul(R, x[j + M], Pow(R, z, j + M))) == Mul(R, h[j], Pow(R, v, j))
  }

  lemma {:induction false} FoldHalves<T(!new)>(R: Ring<T>, x: seq<T>, z: T, M: nat, h: seq<T>, v: T, m: nat)
    requires CommRing(R) && |x| == 2 * M && |h| == M && m <= M
    requires forall j: nat :: j < m ==> Folds(R, x, z, M, h, v, j)
    ensures Add(R, Part(R, x, z, 0, m), Part(R, x, z, M, M + m)) == Part(R, h, v, 0, m)
  {
    if m == 0 {
      AddZero(R, R.zero);
    } else {
      FoldHalves(R, x, z, M, h, v, m - 1);
      assert Folds(R, x, z, M, h, v, m - 1);
      AddSwap(R, Part(R, x, z, 0, m - 1), Mul(R, x[m - 1], Pow(R, z, m - 1)),
              Part(R, x, z, M, M + m - 1), Mul(R, x[M + m - 1], Pow(R, z, M + m - 1)));
    }
  }

  lemma FoldedEval<T(!new)>(R: Ring<T>, x: seq<T>, z: T, M: nat, h: seq<T>, v: T)
    requires CommRing(R) && |x| == 2 * M && |h| == M
    requires forall j: nat :: j < M ==> Folds(R, x, z, M, h, v, j)
    ensures Eval(R, x, z) == Eval(R, h, v)
  {
    PartSplit(R, x, z, 0, M, 2 * M);
    FoldHalves(R, x, z, M, h, v, M);
  }

  lemma EvenTerm<T(!new)>(R: Ring<T>, x: T, y: T, z: T, M: nat, j: nat)
    requires CommRing(R) && Pow(R, z, M) == R.one
    ensures Add(R, Mul(R, x, Pow(R, z, j)), Mul(R, y, Pow(R, z, j + M))) == Mul(R, Add(R, x, y), Pow(R, z, j))
  {
    PowAdd(R, z, j, M);
    assert RingLaw(R, Pow(R, z, j), R.one, R.one);
    MulAdd(R, x, y, Pow(R, z, j));
  }

  /** Even outputs are the half-size transform of the sums. */
  lemma EvenOutput<T(!new)>(R: Ring<T>, x: seq<T>, M: nat, w: T, h: seq<T>, q: nat)
    requires CommRing(R) && Pow(R, w, M) == Neg(R, R.one) && IsHalfSum(R, x, M, h)
    ensures At(R, x, w, 2 * q) == At(R, h, Mul(R, w, w), q)
  {
    var z := Pow(R, w, 2 * q);
    HalfTurn(R, w, M, q);
    forall j: nat | j < M ensures Folds(R, x, z, M, h, z, j) {
      EvenTerm(R, x[j], x[j + M], z, M, j);
    }
    FoldedEval(R, x, z, M, h, z);
    SquarePow(R, w, q);
  }

  /** x·(vw)^j + y·(vw)^(j+M) == ((x - y)·w^j)·v^j when (vw)^M == -1 */
  lemma OddTerm<T(!new)>(R: Ring<T>, x: T, y: T, v: T, w: T, M: nat, j: nat)
    requires CommRing(R) && Pow(R, Mul(R, v, w), M) == Neg(R, R.one)
    ensures Add(R, Mul(R, x, Pow(R, Mul(R, v, w), j)), Mul(R, y, Pow(R, Mul(R, v, w), j + M)))
         == Mul(R, Mul(R, Sub(R, x, y), Pow(R, w, j)), Pow(R, v, j))
  {
    var p := Pow(R, Mul(R, v, w), j);
    PowAdd(R, Mul(R, v, w), j, M);
    MulNeg(R, p, R.one);
    assert RingLaw(R, p, R.one, R.one);
    MulNeg(R, y, p);
    MulSub(R, x, y, p);
    SubIsAddNeg(R, Mul(R, x, p), Mul(R, y, p));
    PowBase(R, v, w, j);
    assert RingLaw(R, Pow(R, v, j), Pow(R, w, j), p);
    assert RingLaw(R, Sub(R, x, y), Pow(R, w, j), Pow(R, v, j));
  }

  /** Odd outputs are the half-size transform of the twiddled differences. */
  lemma OddOutput<T(!new)>(R: Ring<T>, x: seq<T>, M: nat, w: T, h: seq<T>, q: nat)
    requires CommRing(R) && Pow(R, w, M) == Neg(R, R.one) && IsHalfDiff(R, x, M, w, h)
    ensures At(R, x, w, 2 * q + 1) == At(R, h, Mul(R, w, w), q)
  {
    var v, z := Pow(R, Mul(R, w, w), q), Pow(R, w, 2 * q + 1);
    HalfTurn(R, w, M, q);
    SquarePow(R, w, q);
    assert z == Mul(R, v, w) by { assert RingLaw(R, w, v, v); }
    forall j: nat | j < M ensures Folds(R, x, z, M, h, v, j) {
      OddTerm(R, x[j], x[j + M], v, w, M, j);
    }
    FoldedEval(R, x, z, M, h, v);
  }

  // ---------- Decimation in time: even and odd samples ----------

  /** e and o are the samples of x at even and at odd positions. */
  ghost predicate AreSamples<T>(x: seq<T>, M: nat, e: seq<T>, o: seq<T>) {
    |x| == 2 * M && |e| == M && |o| == M
    && (forall j {:trigger e[j]} :: 0 <= j < M ==> e[j] == x[2 * j])
    && (forall j {:trigger o[j]} :: 0 <= j < M ==> o[j] == x[2 * j + 1])
  }

  lemma SampleTerm<T(!new)>(R: Ring<T>, y: T, z: T, j: nat)
    requires CommRing(R)
    ensures Pow(R, z, 2 * j) == Pow(R, Mul(R, z, z), j)
    ensures Mul(R, y, Pow(R, z, 2 * j + 1)) == Mul(R, z, Mul(R, y, Pow(R, Mul(R, z, z), j)))
  {
    SquarePow(R, z, j);
    var u := Pow(R, z, 2 * j);
    assert Pow(R, z, 2 * j + 1) == Mul(R, z, u);
    assert RingLaw(R, y, z, u);
    assert RingLaw(R, z, y, u);
  }

  lemma {:induction false} EvalSamples<T(!new)>(R: Ring<T>, x: seq<T>, M: nat, e: seq<T>, o: seq<T>, z: T, m: nat)
    requires CommRing(R) && AreSamples(x, M, e, o) && m <= M
    ensures Part(R, x, z, 0, 2 * m) == Add(R, Part(R, e, Mul(R, z, z), 0, m), Mul(R, z, Part(R, o, Mul(R, z, z), 0, m)))
  {
    if m == 0 {
      MulZero(R, z);
      AddZero(R, R.zero);
    } else {
      EvalSamples(R, x, M, e, o, z, m - 1);
      SampleTerm(R, o[m - 1], z, m - 1);
      var v := Mul(R, z, z);
      var a, b := Part(R, e, v, 0, m - 1), Part(R, o, v, 0, m - 1);
      var c, d := Mul(R, e[m - 1], Pow(R, v, m - 1)), Mul(R, o[m - 1], Pow(R, v, m - 1));
      assert Part(R, x, z, 0, 2 * m - 1) == Add(R, Part(R, x, z, 0, 2 * m - 2), c);
      assert Part(R, x, z, 0, 2 * m) == Add(R, Add(R, Add(R, a, Mul(R, z, b)), c), Mul(R, z, d));
      assert RingLaw(R, Add(R, a, Mul(R, z, b)), c, Mul(R, z, d));
      AddSwap(R, a, Mul(R, z, b), c, Mul(R, z, d));
      assert RingLaw(R, z, b, d);
    }
  }

  /** Output k from the half-size transforms of the even and the odd samples. */
  lemma LowOutput<T(!new)>(R: Ring<T>, x: seq<T>, M: nat, e: seq<T>, o: seq<T>, w: T, k: nat)
    requires CommRing(R) && AreSamples(x, M, e, o)
    ensures At(R, x, w, k) == Add(R, At(R, e, Mul(R, w, w), k), Mul(R, Pow(R, w, k), At(R, o, Mul(R, w, w), k)))
  {
    SquarePow(R, w, k);
    EvalSamples(R, x, M, e, o, Pow(R, w, k), M);
  }

  lemma SquareNeg<T(!new)>(R: Ring<T>, z: T)
    requires CommRing(R)
    ensures Mul(R, Neg(R, z), Neg(R, z)) == Mul(R, z, z)
  {
    MulNeg(R, Neg(R, z), z);
    MulNeg(R, z, z);
    NegNeg(R, Mul(R, z, z));
  }

  lemma EvalAtNeg<T(!new)>(R: Ring<T>, x: seq<T>, M: nat, e: seq<T>, o: seq<T>, z: T)
    requires CommRing(R) && AreSamples(x, M, e, o)
    ensures Eval(R, x, Neg(R, z)) == Sub(R, Eval(R, e, Mul(R, z, z)), Mul(R, z, Eval(R, o, Mul(R, z, z))))
  {
    EvalSamples(R, x, M, e, o, Neg(R, z), M);
    SquareNeg(R, z);
    var b := Eval(R, o, Mul(R, z, z));
    MulNeg(R, b, z);
    assert RingLaw(R, z, b, z);
    SubIsAddNeg(R, Eval(R, e, Mul(R, z, z)), Mul(R, z, b));
  }

  lemma PowShift<T(!new)>(R: Ring<T>, w: T, k: nat, M: nat)
    requires CommRing(R) && Pow(R, w, M) == Neg(R, R.one)
    ensures Pow(R, w, k + M) == Neg(R, Pow(R, w, k))
  {
    var z := Pow(R, w, k);
    PowAdd(R, w, k, M);
    MulNeg(R, z, R.one);
    assert RingLaw(R, z, R.one, R.one);
  }

  /** Output k + M: w^(k+M) = -w^k, whose square is the square of w^k. */
  lemma HighOutput<T(!new)>(R: Ring<T>, x: seq<T>, M: nat, e: seq<T>, o: seq<T>, w: T, k: nat)
    requires CommRing(R) && AreSamples(x, M, e, o) && Pow(R, w, M) == Neg(R, R.one)
    ensures At(R, x, w, k + M) == Sub(R, At(R, e, Mul(R, w, w), k), Mul(R, Pow(R, w, k), At(R, o, Mul(R, w, w), k)))
  {
    PowShift(R, w, k, M);
    SquarePow(R, w, k);
    EvalAtNeg(R, x, M, e, o, Pow(R, w, k));
  }
}
