/**
  What the whole Haar transform of apps/dwt/kernel/wavelet.c computes, in closed form.  Every level goes on
  with the differences, so each output is a signed sum of a stretch of the samples.
 */
module DwtWalsh {
  import opened Arith
  import opened Bits
  import opened Dwt
  import opened DwtInverse

  /** x if t has an even number of one bits, -x otherwise. */
  function Signed(t: nat, x: real): real {
    if t == 0 then x else Signed(t / 2, if t % 2 == 1 then -x else x)
  }

  /** The sum of the samples from `start` on, n of them, with these signs. */
  function SignedSum(s: seq<real>, start: nat, n: nat): real
    requires start + n <= |s|
  {
    if n == 0 then 0.0 else SignedSum(s, start, n - 1) + Signed(n - 1, s[start + (n - 1)])
  }

  function Power(c: real, k: nat): real {
    if k == 0 then 1.0 else c * Power(c, k - 1)
  }

  /** Stretch i of 2^k samples lies inside s. */
  predicate Inside(s: seq<real>, k: nat, i: nat) {
    Times(i, Pow2(k)) + Pow2(k) <= |s|
  }

  /** Differences of differences, k levels deep: the signed sum of stretch i of 2^k samples, times c^k. */
  function Differences(c: real, s: seq<real>, k: nat, i: nat): real
    requires Inside(s, k, i)
  {
    Product(Power(c, k), SignedSum(s, Times(i, Pow2(k)), Pow2(k)))
  }

  // ---------- One level ----------

  /** One level on n samples, with the Haar coefficients written out. */
  lemma HaarStep(w: Wavelet, c: real, s: seq<real>, n: nat, i: nat)
    requires Haar(w, c) && n % 2 == 0 && n <= |s| && i < n / 2
    ensures Step(w, s, n)[i] == Product(c, s[2 * i] - s[2 * i + 1])
    ensures Step(w, s, n)[n / 2 + i] == Product(c, s[2 * i] + s[2 * i + 1])
  {
    hide Haar, Smooth, Detail, Product;
    HaarIsTwoTap(w, c);
    StripLane(w, s, n, i);
    HaarPair(w, c, s[2 * i], s[2 * i + 1]);
  }

  lemma HaarPair(w: Wavelet, c: real, x: real, y: real)
    requires Haar(w, c)
    ensures Detail(w, x, y) == Product(c, x - y) && Smooth(w, x, y) == Product(c, x + y)
  {
    assert (-c) * y == -(c * y);
  }

  /** And it leaves the samples behind alone. */
  lemma StepBehind(w: Wavelet, s: seq<real>, n: nat, p: nat)
    requires TwoTap(w) && n % 2 == 0 && n <= p < |s|
    ensures Step(w, s, n)[p] == s[p]
  {
  }

  lemma {:induction false} LevelsBehind(w: Wavelet, s: seq<real>, m: nat, p: nat)
    requires TwoTap(w) && Pow2(m) <= p < |s|
    ensures Levels(w, s, m, false)[p] == s[p]
    decreases m
  {
    hide TwoTap, Step;
    if m == 0 {
    } else {
      HalfOfPow2(m);
      StepBehind(w, s, Pow2(m), p);
      LevelsBehind(w, Step(w, s, Pow2(m)), m - 1, p);
    }
  }

  // ---------- Signs ----------

  lemma ProductNeg(c: real, x: real)
    ensures -Product(c, x) == Product(c, -x)
  {
  }

  lemma {:induction false} SignedTimes(t: nat, c: real, x: real)
    ensures Signed(t, Product(c, x)) == Product(c, Signed(t, x))
  {
    hide Product;
    if t == 0 {
    } else {
      ProductNeg(c, x);
      SignedTimes(t / 2, c, if t % 2 == 1 then -x else x);
    }
  }

  lemma {:induction false} SignedMinus(t: nat, x: real, y: real)
    ensures Signed(t, x - y) == Signed(t, x) - Signed(t, y)
  {
    if t == 0 {
    } else if t % 2 == 1 {
      assert -(x - y) == -x - -y;
      SignedMinus(t / 2, -x, -y);
    } else {
      SignedMinus(t / 2, x, y);
    }
  }

  lemma {:induction false} SignedNeg(t: nat, x: real)
    ensures Signed(t, -x) == -Signed(t, x)
  {
    if t == 0 {
    } else {
      SignedNeg(t / 2, if t % 2 == 1 then -x else x);
    }
  }

  lemma SignedNext(t: nat, x: real)
    ensures Signed(2 * t, x) == Signed(t, x) && Signed(2 * t + 1, x) == Signed(t, -x)
  {
    assert (2 * t) / 2 == t && (2 * t + 1) / 2 == t && (2 * t) % 2 == 0 && (2 * t + 1) % 2 == 1;
  }

  /** A sample of the next level, with its sign, is two samples of this one with theirs. */
  lemma SignedPair(t: nat, c: real, x: real, y: real)
    ensures Signed(t, Product(c, x - y)) == Product(c, Signed(2 * t, x) + Signed(2 * t + 1, y))
  {
    hide Signed, Product;
    SignedTimes(t, c, x - y);
    SignedMinus(t, x, y);
    SignedNext(t, x);
    SignedNext(t, y);
    SignedNeg(t, y);
  }

  /** y holds c times the differences of neighbouring samples. */
  ghost predicate AreDifferences(c: real, s: seq<real>, y: seq<real>, n: nat) {
    2 * n <= |s| && n <= |y| && forall i :: 0 <= i < n ==> y[i] == Product(c, s[2 * i] - s[2 * i + 1])
  }

  lemma {:induction false} SumOfDifferences(c: real, s: seq<real>, y: seq<real>, h: nat, a: nat, n: nat)
    requires AreDifferences(c, s, y, h) && a + n <= h
    ensures SignedSum(y, a, n) == Product(c, SignedSum(s, 2 * a, 2 * n))
  {
    hide SignedSum, Signed, Product;
    if n == 0 {
      NoSum(c, s, y, a);
    } else {
      var t, i := n - 1, a + (n - 1);
      SumOfDifferences(c, s, y, h, a, t);
      OneMore(y, a, n);
      SignedPair(t, c, s[2 * i], s[2 * i + 1]);
      LastPair(s, 2 * a, 2 * t, 2 * i);
      Distribute(c, SignedSum(s, 2 * a, 2 * t), Signed(2 * t, s[2 * i]) + Signed(2 * t + 1, s[2 * i + 1]));
    }
  }

  lemma NoSum(c: real, s: seq<real>, y: seq<real>, a: nat)
    requires a <= |y| && 2 * a <= |s|
    ensures SignedSum(y, a, 0) == Product(c, SignedSum(s, 2 * a, 0))
  {
  }

  lemma OneMore(y: seq<real>, a: nat, n: nat)
    requires n >= 1 && a + n <= |y|
    ensures SignedSum(y, a, n) == SignedSum(y, a, n - 1) + Signed(n - 1, y[a + (n - 1)])
  {
    hide Signed;
  }

  lemma LastPair(s: seq<real>, a: nat, n: nat, p: nat)
    requires p == a + n && p + 1 < |s|
    ensures SignedSum(s, a, n + 2) == SignedSum(s, a, n) + (Signed(n, s[p]) + Signed(n + 1, s[p + 1]))
  {
    hide SignedSum, Signed;
    OneMoreAt(s, a, n, p);
    OneMoreAt(s, a, n + 1, p + 1);
  }

  lemma OneMoreAt(s: seq<real>, a: nat, n: nat, p: nat)
    requires p == a + n && p < |s|
    ensures SignedSum(s, a, n + 1) == SignedSum(s, a, n) + Signed(n, s[p])
  {
    hide Signed;
  }

  lemma Distribute(c: real, x: real, y: real)
    ensures Product(c, x + y) == Product(c, x) + Product(c, y)
  {
  }

  // ---------- All levels ----------

  /** Stretch i of 2^k samples lies inside the first 2^m. */
  lemma StretchInside(i: nat, k: nat, m: nat)
    requires k <= m && i < Pow2(m - k)
    ensures Times(i + 1, Pow2(k)) == Times(i, Pow2(k)) + Pow2(k) <= Pow2(m)
  {
    Pow2Add(k, m - k);
    MulLe(Pow2(k), i + 1, Pow2(m - k));
    assert (i + 1) * Pow2(k) == i * Pow2(k) + Pow2(k);
  }

  lemma NextDifferences(c: real, s: seq<real>, y: seq<real>, m: nat, k: nat, i: nat)
    requires m >= 1 && Pow2(m) <= |s| == |y| && AreDifferences(c, s, y, Pow2(m - 1)) && k < m && i < Pow2(m - 1 - k)
    ensures Inside(y, k, i) && Inside(s, k + 1, i) && Differences(c, y, k, i) == Differences(c, s, k + 1, i)
  {
    hide SignedSum, Power, Pow2, Times, Product;
    Pow2Step(m);
    StretchInside(i, k, m - 1);
    StretchInside(i, k + 1, m);
    DoubleStretch(i, k);
    SumOfDifferences(c, s, y, Pow2(m - 1), Times(i, Pow2(k)), Pow2(k));
    PowerStep(c, k, SignedSum(s, Times(i, Pow2(k + 1)), Pow2(k + 1)));
  }

  lemma DoubleStretch(i: nat, k: nat)
    ensures 2 * Times(i, Pow2(k)) == Times(i, Pow2(k + 1)) && Pow2(k + 1) == 2 * Pow2(k)
  {
    assert i * (2 * Pow2(k)) == 2 * (i * Pow2(k));
  }

  lemma PowerStep(c: real, k: nat, x: real)
    ensures Product(Power(c, k), Product(c, x)) == Product(Power(c, k + 1), x)
  {
    var p := Power(c, k);
    assert Power(c, k + 1) == c * p;
    assert p * (c * x) == (c * p) * x;
  }

  /** Output 2^k + j of the transform of 2^m samples. */
  ghost predicate SumAt(c: real, s: seq<real>, m: nat, out: seq<real>, k: nat, j: nat) {
    && k < m && Pow2(k) + j < |out| && Inside(s, m - k - 1, 2 * j) && Inside(s, m - k - 1, 2 * j + 1)
    && out[Pow2(k) + j] == Product(c, Differences(c, s, m - k - 1, 2 * j) + Differences(c, s, m - k - 1, 2 * j + 1))
  }

  /** The first half of one level, and what the last level of all does. */
  lemma FirstLevel(w: Wavelet, c: real, s: seq<real>, m: nat)
    requires Haar(w, c) && m >= 1 && Pow2(m) <= |s|
    ensures Pow2(m) % 2 == 0 && AreDifferences(c, s, Step(w, s, Pow2(m)), Pow2(m - 1))
  {
    hide Haar, StepAt, Product;
    HaarIsTwoTap(w, c);
    HalfOfPow2(m);
    var y := Step(w, s, Pow2(m));
    forall i | 0 <= i < Pow2(m - 1) ensures y[i] == Product(c, s[2 * i] - s[2 * i + 1]) {
      HaarStep(w, c, s, Pow2(m), i);
    }
  }

  lemma NoDifferences(c: real, s: seq<real>, i: nat)
    requires i < |s|
    ensures Inside(s, 0, i) && Differences(c, s, 0, i) == s[i]
  {
    OneMore(s, i, 1);
    assert SignedSum(s, i, 0) == 0.0 && Signed(0, s[i]) == s[i];
    assert Pow2(0) == 1 && Times(i, 1) == i && Power(c, 0) == 1.0;
  }

  /**
    Output 0 is the signed sum of all samples, scaled; output 2^k + j, for j below 2^k, adds the signed sums of
    stretches 2j and 2j + 1 of 2^(m - k - 1) samples each.
   */
  lemma {:induction false} TransformIs(w: Wavelet, c: real, s: seq<real>, m: nat, k: nat, j: nat)
    requires Haar(w, c) && Pow2(m) <= |s|
    ensures Inside(s, m, 0) && Levels(w, s, m, false)[0] == Differences(c, s, m, 0)
    ensures k < m && j < Pow2(k) ==> SumAt(c, s, m, Levels(w, s, m, false), k, j)
    decreases m
  {
    hide Haar, Step, Differences, Product, TwoTap, SumAt, Inside, Pow2;
    HaarIsTwoTap(w, c);
    Pow2Step(0);
    if m == 0 {
      NoDifferences(c, s, 0);
    } else {
      FirstLevel(w, c, s, m);
      var y := Step(w, s, Pow2(m));
      Pow2Step(m);
      TransformIs(w, c, y, m - 1, k, j);
      NextDifferences(c, s, y, m, m - 1, 0);
      if k < m && j < Pow2(k) {
        if k == m - 1 {
          LastLevel(w, c, s, m, j);
        } else {
          SumsAgree(c, s, y, m, Levels(w, y, m - 1, false), k, j);
        }
      }
    }
  }

  lemma StretchesInside(m: nat, k: nat, j: nat)
    requires k < m && j < Pow2(k)
    ensures 2 * j + 1 < Pow2(k + 1) == Pow2(m - (m - k - 1))
  {
  }

  lemma SumsAgree(c: real, s: seq<real>, y: seq<real>, m: nat, out: seq<real>, k: nat, j: nat)
    requires m >= 1 && Pow2(m) <= |s| == |y| && AreDifferences(c, s, y, Pow2(m - 1))
    requires k < m - 1 && j < Pow2(k) && SumAt(c, y, m - 1, out, k, j)
    ensures SumAt(c, s, m, out, k, j)
  {
    hide Inside, Differences, Product, Pow2, AreDifferences;
    StretchesInside(m - 1, k, j);
    NextDifferences(c, s, y, m, m - 1 - k - 1, 2 * j);
    NextDifferences(c, s, y, m, m - 1 - k - 1, 2 * j + 1);
  }

  /** Outputs from 2^(m-1) on are the averages of the first level. */
  lemma LastLevel(w: Wavelet, c: real, s: seq<real>, m: nat, j: nat)
    requires Haar(w, c) && m >= 1 && Pow2(m) <= |s| && j < Pow2(m - 1)
    ensures TwoTap(w) && SumAt(c, s, m, Levels(w, s, m, false), m - 1, j)
  {
    hide Haar, Differences, Product, TwoTap, StepAt;
    HaarIsTwoTap(w, c);
    HalfOfPow2(m);
    Pow2Step(m);
    HaarStep(w, c, s, Pow2(m), j);
    LevelsBehind(w, Step(w, s, Pow2(m)), m - 1, Pow2(m - 1) + j);
    NoDifferences(c, s, 2 * j);
    NoDifferences(c, s, 2 * j + 1);
  }
}
