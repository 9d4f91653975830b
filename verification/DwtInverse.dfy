/**
  What the Haar coefficients of apps/dwt/kernel/wavelet.h are for: every level, and so the whole
  transform, is orthonormal.  It keeps the sum of the squares and loses nothing.
 */
module DwtInverse {
  import opened Bits
  import opened Dwt

  /** ch_2 and cg_2, with c the exact square root of one half. */
  ghost predicate Haar(w: Wavelet, c: real) {
    w == Wavelet([c, c], [c, -c], 2, 0) && c * c == 0.5
  }

  lemma HaarIsTwoTap(w: Wavelet, c: real)
    requires Haar(w, c)
    ensures TwoTap(w)
  {
  }

  /** The sum of the squares of samples lo .. hi - 1. */
  function SumOfSquares(s: seq<real>, lo: nat, hi: nat): real
    requires lo <= hi <= |s|
  {
    if lo == hi then 0.0 else SumOfSquares(s, lo, hi - 1) + Product(s[hi - 1], s[hi - 1])
  }

  lemma {:induction false} EnergySplit(s: seq<real>, lo: nat, mid: nat, hi: nat)
    requires lo <= mid <= hi <= |s|
    ensures SumOfSquares(s, lo, hi) == SumOfSquares(s, lo, mid) + SumOfSquares(s, mid, hi)
  {
    if mid == hi {
    } else {
      EnergySplit(s, lo, mid, hi - 1);
    }
  }

  lemma {:induction false} EnergySame(s: seq<real>, r: seq<real>, lo: nat, hi: nat)
    requires lo <= hi <= |s| == |r| && forall p :: lo <= p < hi ==> r[p] == s[p]
    ensures SumOfSquares(s, lo, hi) == SumOfSquares(r, lo, hi)
  {
    if lo == hi {
    } else {
      EnergySame(s, r, lo, hi - 1);
    }
  }

  lemma ScaledSquare(c: real, x: real)
    requires c * c == 0.5
    ensures (c * x) * (c * x) == 0.5 * (x * x)
  {
    assert (c * x) * (c * x) == (c * c) * (x * x);
  }

  /** One pair of neighbours keeps its energy. */
  lemma PairEnergy(w: Wavelet, c: real, x: real, y: real)
    requires Haar(w, c)
    ensures Product(Detail(w, x, y), Detail(w, x, y)) + Product(Smooth(w, x, y), Smooth(w, x, y)) == Product(x, x) + Product(y, y)
  {
    var p, q := c * x, c * y;
    assert Smooth(w, x, y) == p + q;
    assert Detail(w, x, y) == p - q by { assert (-c) * y == -q; }
    assert (p - q) * (p - q) + (p + q) * (p + q) == 2.0 * (p * p) + 2.0 * (q * q);
    ScaledSquare(c, x);
    ScaledSquare(c, y);
  }

  /** The first k pairs, which one level spreads over both halves. */
  lemma {:induction false} PairsEnergy(w: Wavelet, c: real, s: seq<real>, n: nat, k: nat)
    requires Haar(w, c) && n % 2 == 0 && n <= |s| && k <= n / 2
    ensures SumOfSquares(Step(w, s, n), 0, k) + SumOfSquares(Step(w, s, n), n / 2, n / 2 + k) == SumOfSquares(s, 0, 2 * k)
  {
    if k == 0 {
    } else {
      PairsEnergy(w, c, s, n, k - 1);
      PairEnergy(w, c, s[2 * k - 2], s[2 * k - 1]);
      StripLane(w, s, n, k - 1);
      var r := Step(w, s, n);
      hide Product, Step, Detail, Smooth, StepAt;
      assert SumOfSquares(s, 0, 2 * k) == SumOfSquares(s, 0, 2 * k - 1) + Product(s[2 * k - 1], s[2 * k - 1]);
      assert SumOfSquares(s, 0, 2 * k - 1) == SumOfSquares(s, 0, 2 * k - 2) + Product(s[2 * k - 2], s[2 * k - 2]);
      assert SumOfSquares(r, n / 2, n / 2 + k) == SumOfSquares(r, n / 2, n / 2 + (k - 1)) + Product(r[n / 2 + (k - 1)], r[n / 2 + (k - 1)]);
    }
  }

  lemma StepEnergy(w: Wavelet, c: real, s: seq<real>, n: nat)
    requires Haar(w, c) && n % 2 == 0 && n <= |s|
    ensures SumOfSquares(Step(w, s, n), 0, |s|) == SumOfSquares(s, 0, |s|)
  {
    hide Haar, TwoTap, Product, Smooth, Detail, SumOfSquares;
    HaarIsTwoTap(w, c);
    var r := Step(w, s, n);
    PairsEnergy(w, c, s, n, n / 2);
    EnergySplit(r, 0, n / 2, n);
    EnergySplit(r, 0, n, |s|);
    EnergySplit(s, 0, n, |s|);
    EnergySame(s, r, n, |s|);
  }

  /** The whole transform keeps the sum of the squares of the data. */
  lemma {:induction false} LevelsEnergy(w: Wavelet, c: real, s: seq<real>, m: nat, firstOnly: bool)
    requires Haar(w, c) && Pow2(m) <= |s|
    ensures SumOfSquares(Levels(w, s, m, firstOnly), 0, |s|) == SumOfSquares(s, 0, |s|)
    decreases m
  {
    hide Haar, TwoTap, Step, SumOfSquares;
    HaarIsTwoTap(w, c);
    if m == 0 {
    } else {
      HalfOfPow2(m);
      StepEnergy(w, c, s, Pow2(m));
      if !firstOnly {
        LevelsEnergy(w, c, Step(w, s, Pow2(m)), m - 1, firstOnly);
      }
    }
  }

  // ---------- The inverse: the same filters, transposed ----------

  function UnStepAt(w: Wavelet, r: seq<real>, n: nat, p: nat): real
    requires TwoTap(w) && n % 2 == 0 && n <= |r| && p < |r|
  {
    if p < n then Product(w.g1[p % 2], r[p / 2]) + Product(w.h1[p % 2], r[n / 2 + p / 2]) else r[p]
  }

  function UnStep(w: Wavelet, r: seq<real>, n: nat): (s: seq<real>)
    requires TwoTap(w) && n % 2 == 0 && n <= |r|
    ensures |s| == |r| && forall p :: 0 <= p < |r| ==> s[p] == UnStepAt(w, r, n, p)
  {
    seq(|r|, p requires 0 <= p < |r| => UnStepAt(w, r, n, p))
  }

  function UnLevels(w: Wavelet, r: seq<real>, m: nat, firstOnly: bool): (s: seq<real>)
    requires TwoTap(w) && Pow2(m) <= |r|
    ensures |s| == |r|
    decreases m
  {
    if m == 0 then r
    else if firstOnly then UnStep(w, r, Pow2(m))
    else UnStep(w, UnLevels(w, r, m - 1, firstOnly), Pow2(m))
  }

  lemma HalfTwice(c: real, x: real)
    requires c * c == 0.5
    ensures c * (c * x) == 0.5 * x
  {
    assert c * (c * x) == (c * c) * x;
  }

  /** From difference and average back to the pair. */
  lemma PairBack(w: Wavelet, c: real, x: real, y: real)
    requires Haar(w, c)
    ensures Product(w.g1[0], Detail(w, x, y)) + Product(w.h1[0], Smooth(w, x, y)) == x
    ensures Product(w.g1[1], Detail(w, x, y)) + Product(w.h1[1], Smooth(w, x, y)) == y
  {
    var p, q := c * x, c * y;
    assert Smooth(w, x, y) == p + q;
    assert Detail(w, x, y) == p - q by { assert (-c) * y == -q; }
    HalfTwice(c, x);
    HalfTwice(c, y);
    assert c * (p - q) == c * p - c * q && c * (p + q) == c * p + c * q;
    assert (-c) * (p - q) == c * q - c * p;
  }

  /** From a pair to difference and average, for the pair that the inverse makes of d and a. */
  lemma PairForth(w: Wavelet, c: real, d: real, a: real)
    requires Haar(w, c)
    ensures var x, y := Product(w.g1[0], d) + Product(w.h1[0], a), Product(w.g1[1], d) + Product(w.h1[1], a);
            Detail(w, x, y) == d && Smooth(w, x, y) == a
  {
    var p, q := c * d, c * a;
    var x, y := Product(w.g1[0], d) + Product(w.h1[0], a), Product(w.g1[1], d) + Product(w.h1[1], a);
    assert x == p + q;
    assert y == q - p by { assert (-c) * d == -p; }
    HalfTwice(c, d);
    HalfTwice(c, a);
    assert c * (p + q) == c * p + c * q && c * (q - p) == c * q - c * p;
    assert (-c) * (q - p) == c * p - c * q;
  }

  lemma StepBack(w: Wavelet, c: real, s: seq<real>, n: nat)
    requires Haar(w, c) && n % 2 == 0 && n <= |s|
    ensures UnStep(w, Step(w, s, n), n) == s
  {
    hide Haar, TwoTap, Product, Detail, Smooth;
    HaarIsTwoTap(w, c);
    var r := Step(w, s, n);
    forall p | 0 <= p < |s| ensures UnStepAt(w, r, n, p) == s[p] {
      if p < n {
        StripLane(w, s, n, p / 2);
        PairBack(w, c, s[2 * (p / 2)], s[2 * (p / 2) + 1]);
        assert r[p / 2] == StepAt(w, s, n, p / 2) && r[n / 2 + p / 2] == StepAt(w, s, n, n / 2 + p / 2);
      }
    }
  }

  /** The pair that the inverse makes of positions q and n / 2 + q. */
  lemma LaneForth(w: Wavelet, c: real, r: seq<real>, n: nat, q: nat)
    requires Haar(w, c) && n % 2 == 0 && n <= |r| && q < n / 2
    ensures StepAt(w, UnStep(w, r, n), n, q) == r[q] && StepAt(w, UnStep(w, r, n), n, n / 2 + q) == r[n / 2 + q]
  {
    var s := UnStep(w, r, n);
    StripLane(w, s, n, q);
    PairForth(w, c, r[q], r[n / 2 + q]);
    assert s[2 * q] == UnStepAt(w, r, n, 2 * q) && s[2 * q + 1] == UnStepAt(w, r, n, 2 * q + 1);
    assert (2 * q) % 2 == 0 && (2 * q + 1) % 2 == 1 && (2 * q) / 2 == q && (2 * q + 1) / 2 == q;
    hide Product, Detail, Smooth, StepAt;
  }

  lemma BehindStays(w: Wavelet, r: seq<real>, n: nat, p: nat)
    requires TwoTap(w) && n % 2 == 0 && n <= p < |r|
    ensures StepAt(w, UnStep(w, r, n), n, p) == r[p]
  {
  }

  lemma StepForth(w: Wavelet, c: real, r: seq<real>, n: nat)
    requires Haar(w, c) && n % 2 == 0 && n <= |r|
    ensures Step(w, UnStep(w, r, n), n) == r
  {
    hide Haar, TwoTap, StepAt;
    HaarIsTwoTap(w, c);
    forall p | 0 <= p < |r| ensures StepAt(w, UnStep(w, r, n), n, p) == r[p] {
      if p < n {
        LaneForth(w, c, r, n, if p < n / 2 then p else p - n / 2);
      } else {
        BehindStays(w, r, n, p);
      }
    }
  }

  /** The inverse restores every input. */
  lemma {:induction false} LevelsBack(w: Wavelet, c: real, s: seq<real>, m: nat, firstOnly: bool)
    requires Haar(w, c) && Pow2(m) <= |s|
    ensures UnLevels(w, Levels(w, s, m, firstOnly), m, firstOnly) == s
    decreases m
  {
    hide Haar, TwoTap, Step, UnStep;
    HaarIsTwoTap(w, c);
    if m == 0 {
    } else {
      HalfOfPow2(m);
      StepBack(w, c, s, Pow2(m));
      if !firstOnly {
        LevelsBack(w, c, Step(w, s, Pow2(m)), m - 1, firstOnly);
      }
    }
  }

  /** And every output comes from some input. */
  lemma {:induction false} LevelsForth(w: Wavelet, c: real, r: seq<real>, m: nat, firstOnly: bool)
    requires Haar(w, c) && Pow2(m) <= |r|
    ensures Levels(w, UnLevels(w, r, m, firstOnly), m, firstOnly) == r
    decreases m
  {
    hide Haar, TwoTap, Step, UnStep;
    HaarIsTwoTap(w, c);
    if m == 0 {
    } else {
      HalfOfPow2(m);
      if firstOnly {
        StepForth(w, c, r, Pow2(m));
      } else {
        var s := UnLevels(w, r, m - 1, firstOnly);
        StepForth(w, c, s, Pow2(m));
        LevelsForth(w, c, r, m - 1, firstOnly);
      }
    }
  }
}
