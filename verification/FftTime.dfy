/** Decimation in time: bit-reversed input, growing blocks, natural output order. */
module FftTime {
  import opened Bits
  import opened Butterflies
  import opened Rings
  import opened FftScalar
  import Dft

  /** The layers from pairs up to blocks of 2^m; the first one, of pairs, has its own butterfly. */
  function DitLayers<T>(f: Butterfly<T>, first: Butterfly<T>, one: T, x: seq<T>, m: nat, L: nat, tw: seq<T>): (y: seq<T>)
    ensures |y| == |x|
    decreases m
  {
    if m == 0 then x
    else if m == 1 then PairLayer(first, one, x)
    else Layer(f, DitLayers(f, first, one, x, m - 1, 2 * L, tw), Pow2(m - 1), L, tw)
  }

  lemma DitStrides(n: nat, s: nat, t: nat)
    requires s < n && Pow2(n) / 2 <= t
    ensures AreBlocks(Pow2(n), Pow2(s), Pow2(n - 1 - s), t)
    ensures Pow2(s) * 2 == Pow2(s + 1)
    ensures s + 1 < n ==> Pow2(n - 1 - s) / 2 == Pow2(n - 2 - s)
  {
    Pow2Add(s, n - 1 - s);
    Pow2Add(s + 1, n - 1 - s);
  }

  /** The loop counters behind the layer of pairs, and the stride of the last layer. */
  lemma DitStart(n: nat)
    requires n >= 1
    ensures Pow2(n) % 2 == 0 && Pow2(0) == 1 && Pow2(1) == 2
    ensures n >= 2 ==> Pow2(n) / 2 / 2 == Pow2(n - 2)
  {
  }

  lemma DitLayersStep<T>(f: Butterfly<T>, first: Butterfly<T>, one: T, x: seq<T>, m: nat, L: nat, tw: seq<T>)
    ensures DitLayers(f, first, one, x, 1, L, tw) == PairLayer(first, one, x)
    ensures var y := DitLayers(f, first, one, x, m, 2 * L, tw);
            m >= 1 ==> DitLayers(f, first, one, x, m + 1, L, tw) == Layer(f, y, Pow2(m), L, tw)
  {
  }

  /** `Radix2FFT_DIT` and `Radix2FFT_DIT_float`. */
  method RunDit<T>(f: Butterfly<T>, first: Butterfly<T>, one: T, data: array<T>, tw: array<T>, ghost n: nat)
    requires n >= 1 && data.Length == Pow2(n) && tw.Length >= data.Length / 2 && data != tw
    modifies data
    ensures data[..] == DitLayers(f, first, one, old(data[..]), n, 1, tw[..])
  {
    hide DitLayers, Layer, PairLayer, Log2, AreBlocks, Pow2;
    Log2OfPow2(n);
    DitStart(n);
    ghost var x, t := data[..], tw[..];
    var iLog2N := Log2(data.Length);
    var iL, iM := data.Length / 2, 1;
    RunPairLayer(first, one, data);
    DitLayersStep(f, first, one, x, 0, Pow2(n - 1), t);
    iL := iL / 2;
    iM := iM * 2;
    for iCnt1 := 1 to iLog2N
      invariant tw[..] == t && iM == Pow2(iCnt1) && (iCnt1 < n ==> iL == Pow2(n - 1 - iCnt1))
      invariant data[..] == DitLayers(f, first, one, x, iCnt1, Pow2(n - iCnt1), t)
    {
      DitStrides(n, iCnt1, tw.Length);
      Pow2Step(n - iCnt1);
      DitLayersStep(f, first, one, x, iCnt1, Pow2(n - 1 - iCnt1), t);
      RunLayer(f, data, tw, iM, iL);
      iL := iL / 2;
      iM := iM * 2;
    }
  }

  /** The layers act on each run of whole blocks separately. */
  lemma {:induction false} DitConcat<T>(f: Butterfly<T>, first: Butterfly<T>, one: T, x: seq<T>, y: seq<T>, m: nat, L: nat, tw: seq<T>, q: nat)
    requires |x| == Pow2(m) * q
    ensures DitLayers(f, first, one, x + y, m, L, tw)
         == DitLayers(f, first, one, x, m, L, tw) + DitLayers(f, first, one, y, m, L, tw)
    decreases m
  {
    if m == 1 {
      LayerConcat(first, x, y, 1, 0, [one], q);
    } else if m >= 2 {
      assert Pow2(m) * q == Pow2(m - 1) * (2 * q);
      DitConcat(f, first, one, x, y, m - 1, 2 * L, tw, 2 * q);
      LayerConcat(f, DitLayers(f, first, one, x, m - 1, 2 * L, tw), DitLayers(f, first, one, y, m - 1, 2 * L, tw), Pow2(m - 1), L, tw, q);
    }
  }

  /** (a + b·w, a - b·w), with the exact arithmetic of a ring. */
  function DitButterfly<T>(R: Ring<T>): Butterfly<T> {
    Butterfly((a: T, b: T, w: T) => Add(R, a, Mul(R, b, w)), (a: T, b: T, w: T) => Sub(R, a, Mul(R, b, w)))
  }

  /** The result of all layers. */
  function DitAll<T>(R: Ring<T>, x: seq<T>, m: nat, L: nat, tw: seq<T>): (y: seq<T>)
    ensures |y| == |x|
  {
    DitLayers(DitButterfly(R), PlainButterfly(R), R.one, x, m, L, tw)
  }

  /** The pair of two samples. */
  lemma DitPair<T(!new)>(R: Ring<T>, z: seq<T>, L: nat, tw: seq<T>, v: T)
    requires CommRing(R) && |z| == 2
    ensures var a, b := DitAll(R, z[..1], 0, 2 * L, tw), DitAll(R, z[1..], 0, 2 * L, tw);
            && DitAll(R, z, 1, L, tw)[0] == Add(R, a[0], Mul(R, Pow(R, v, 0), b[0]))
            && DitAll(R, z, 1, L, tw)[1] == Sub(R, a[0], Mul(R, Pow(R, v, 0), b[0]))
  {
    FirstBlock(PlainButterfly(R), z, 1, 0, [R.one], 0);
    assert RingLaw(R, z[1], R.one, R.one);
    assert RingLaw(R, R.one, z[1], R.one);
    hide CommRing;
  }

  /** The last layer combines output j of the two halves. */
  lemma DitCombine<T(!new)>(R: Ring<T>, z: seq<T>, m: nat, L: nat, tw: seq<T>, w: T, j: nat)
    requires CommRing(R) && m >= 1 && |z| == Pow2(m) && Tables(R, m, L, tw, w) && j < Pow2(m - 1)
    ensures var M, v := Pow2(m - 1), Pow(R, w, L);
            var a, b := DitAll(R, z[..M], m - 1, 2 * L, tw), DitAll(R, z[M..], m - 1, 2 * L, tw);
            && DitAll(R, z, m, L, tw)[j] == Add(R, a[j], Mul(R, Pow(R, v, j), b[j]))
            && DitAll(R, z, m, L, tw)[j + M] == Sub(R, a[j], Mul(R, Pow(R, v, j), b[j]))
  {
    var M, v := Pow2(m - 1), Pow(R, w, L);
    var a, b := DitAll(R, z[..M], m - 1, 2 * L, tw), DitAll(R, z[M..], m - 1, 2 * L, tw);
    assert z == z[..M] + z[M..];
    if m == 1 {
      assert M == 1;
      DitPair(R, z, L, tw, v);
    } else {
      DitConcat(DitButterfly(R), PlainButterfly(R), R.one, z[..M], z[M..], m - 1, 2 * L, tw, 1);
      TwiddleAt(R, tw, w, L, M, j);
      FirstBlock(DitButterfly(R), a + b, M, L, tw, j);
      assert RingLaw(R, b[j], Pow(R, v, j), R.one);
    }
  }

  /** z is x in bit-reversed order. */
  ghost predicate IsReversed<T>(x: seq<T>, n: nat, z: seq<T>) {
    |x| == |z| == Pow2(n) && forall p: nat :: p < Pow2(n) ==> z[p] == x[Rev(p, n)]
  }

  function Every2nd<T>(x: seq<T>): (r: seq<T>)
    ensures |r| == (|x| + 1) / 2
  {
    if |x| <= 1 then x else [x[0]] + Every2nd(x[2..])
  }

  lemma {:induction false} Every2ndAt<T>(x: seq<T>, j: nat)
    requires j < (|x| + 1) / 2
    ensures Every2nd(x)[j] == x[2 * j]
  {
    if j == 0 {
    } else {
      Every2ndAt(x[2..], j - 1);
    }
  }

  /** The halves of the reversed input are the reversed even and odd samples. */
  lemma ReversedHalves<T>(x: seq<T>, n: nat, z: seq<T>) returns (e: seq<T>, o: seq<T>, lo: seq<T>, hi: seq<T>)
    requires n >= 1 && IsReversed(x, n, z)
    ensures Dft.AreSamples(x, Pow2(n - 1), e, o)
    ensures z == lo + hi && IsReversed(e, n - 1, lo) && IsReversed(o, n - 1, hi)
  {
    hide Rev, Pow2, Every2nd;
    Pow2Step(n);
    var M := Pow2(n - 1);
    e, o, lo, hi := Every2nd(x), Every2nd(x[1..]), z[..M], z[M..];
    forall j: nat | j < M ensures e[j] == x[2 * j] && o[j] == x[2 * j + 1] {
      Every2ndAt(x, j);
      Every2ndAt(x[1..], j);
    }
    forall p: nat | p < M ensures lo[p] == e[Rev(p, n - 1)] && hi[p] == o[Rev(p, n - 1)] {
      ReversedAt(x, n, z, p);
    }
  }

  lemma ReversedAt<T>(x: seq<T>, n: nat, z: seq<T>, p: nat)
    requires n >= 1 && IsReversed(x, n, z) && p < Pow2(n - 1)
    ensures var j := Rev(p, n - 1);
            j < Pow2(n - 1) && z[p] == x[2 * j] && z[p + Pow2(n - 1)] == x[2 * j + 1]
  {
    hide Rev, Pow2;
    RevClearTop(p, n);
    RevSetBit(p, n - 1, n);
    Pow2Step(n);
    Pow2Step(0);
    assert z[p] == x[Rev(p, n)];
    assert z[p + Pow2(n - 1)] == x[Rev(p + Pow2(n - 1), n)];
  }

  /** Output k of the transform of x lies at position k, when the input was z. */
  ghost predicate DitHolds<T(!new)>(R: Ring<T>, x: seq<T>, z: seq<T>, n: nat, L: nat, tw: seq<T>, w: T, k: nat) {
    k < |z| && DitAll(R, z, n, L, tw)[k] == Dft.At(R, x, Pow(R, w, L), k)
  }

  lemma DitOfOne<T(!new)>(R: Ring<T>, x: seq<T>, z: seq<T>, L: nat, tw: seq<T>, w: T)
    requires CommRing(R) && IsReversed(x, 0, z)
    ensures DitHolds(R, x, z, 0, L, tw, w, 0)
  {
    assert Rev(0, 0) == 0 && Pow2(0) == 1 && z[0] == x[Rev(0, 0)];
    DftOfOne(R, x, Pow(R, w, L));
  }

  /** If the halves hold the half-size transforms of the samples, the last layer completes the whole. */
  lemma DitOutputs<T(!new)>(R: Ring<T>, x: seq<T>, e: seq<T>, o: seq<T>, z: seq<T>, lo: seq<T>, hi: seq<T>, n: nat, L: nat, tw: seq<T>, w: T, k: nat)
    requires CommRing(R) && n >= 1 && Tables(R, n, L, tw, w) && k < Pow2(n)
    requires Dft.AreSamples(x, Pow2(n - 1), e, o)
    requires z == lo + hi && |lo| == |hi| == Pow2(n - 1)
    requires DitHolds(R, e, lo, n - 1, 2 * L, tw, w, LowOf(n, k)) && DitHolds(R, o, hi, n - 1, 2 * L, tw, w, LowOf(n, k))
    ensures DitHolds(R, x, z, n, L, tw, w, k)
  {
    var M, v, j := Pow2(n - 1), Pow(R, w, L), LowOf(n, k);
    assert z[..M] == lo && z[M..] == hi && j < M && (k == j || k == j + M);
    TablesStep(R, n, L, tw, w);
    DitCombine(R, z, n, L, tw, w, j);
    Dft.LowOutput(R, x, M, e, o, v, j);
    Dft.HighOutput(R, x, M, e, o, v, j);
    hide DitAll, CommRing, Tables;
  }

  /** k without its bit n - 1. */
  function LowOf(n: nat, k: nat): (j: nat)
    requires n >= 1
    ensures k < Pow2(n) ==> j < Pow2(n - 1)
  {
    if k < Pow2(n - 1) then k else k - Pow2(n - 1)
  }

  /** On bit-reversed input all layers leave the transform in natural order. */
  lemma {:induction false} DitIsDft<T(!new)>(R: Ring<T>, x: seq<T>, z: seq<T>, n: nat, L: nat, tw: seq<T>, w: T, k: nat)
    requires CommRing(R) && IsReversed(x, n, z) && Tables(R, n, L, tw, w) && k < Pow2(n)
    ensures DitHolds(R, x, z, n, L, tw, w, k)
    decreases n
  {
    if n == 0 {
      DitOfOne(R, x, z, L, tw, w);
    } else {
      var e, o, lo, hi := ReversedHalves(x, n, z);
      var j := LowOf(n, k);
      assert |lo| == |hi| == Pow2(n - 1);
      hide *;
      TablesHalf(R, n, L, tw, w);
      DitIsDft(R, e, lo, n - 1, 2 * L, tw, w, j);
      DitIsDft(R, o, hi, n - 1, 2 * L, tw, w, j);
      DitOutputs(R, x, e, o, z, lo, hi, n, L, tw, w, k);
    }
  }
}
