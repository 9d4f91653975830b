/**
  The in-place radix-2 transforms of apps/fft/kernel/fft.c: decimation in frequency and decimation
  in time, proved equal to the discrete Fourier transform up to bit reversal.
 */
module FftScalar {
  import opened Arith
  import opened Bits
  import opened Butterflies
  import opened Rings
  import Dft

  // ---------- Twiddle factors ----------

  /** The table holds the first powers of w. */
  ghost predicate IsTwiddles<T>(R: Ring<T>, tw: seq<T>, w: T, len: nat) {
    len <= |tw| && forall q: nat :: q < len ==> tw[q] == Pow(R, w, q)
  }

  /** The first powers of w. */
  function Powers<T>(R: Ring<T>, w: T, len: nat): (tw: seq<T>)
    ensures |tw| == len && forall q: nat :: q < len ==> tw[q] == Pow(R, w, q)
  {
    if len == 0 then [] else Powers(R, w, len - 1) + [Pow(R, w, len - 1)]
  }

  /** w is a 2^n-th root of unity whose half power is -1. */
  ghost predicate IsRoot<T>(R: Ring<T>, w: T, n: nat) {
    n >= 1 ==> Pow(R, w, Pow2(n - 1)) == Neg(R, R.one)
  }

  lemma RootStep<T(!new)>(R: Ring<T>, w: T, L: nat, n: nat)
    requires CommRing(R) && n >= 1 && IsRoot(R, Pow(R, w, L), n)
    ensures Mul(R, Pow(R, w, L), Pow(R, w, L)) == Pow(R, w, 2 * L)
    ensures IsRoot(R, Pow(R, w, 2 * L), n - 1)
  {
    var v := Pow(R, w, L);
    PowAdd(R, w, L, L);
    if n >= 2 {
      Dft.SquarePow(R, v, Pow2(n - 2));
    }
  }

  /** With stride L the table holds the powers of w^L. */
  lemma TwiddleAt<T(!new)>(R: Ring<T>, tw: seq<T>, w: T, L: nat, M: nat, j: nat)
    requires CommRing(R) && IsTwiddles(R, tw, w, M * L) && j < M && L >= 1
    ensures 0 <= j * L < |tw| && tw[j * L] == Pow(R, Pow(R, w, L), j)
  {
    MulLe(L, j + 1, M);
    assert L * (j + 1) == j * L + L;
    PowMul(R, w, L, j);
    assert L * j == j * L;
  }

  lemma HalfStride(n: nat, L: nat)
    requires n >= 2
    ensures Pow2(n - 1) * L == Pow2(n - 2) * (2 * L)
  {
  }

  /** The loop counters of layer s. */
  lemma StridesAt(n: nat, s: nat, t: nat)
    requires s < n && Pow2(n) / 2 <= t
    ensures AreBlocks(Pow2(n), Pow2(n - 1 - s), Pow2(s), t)
    ensures Pow2(s) * 2 == Pow2(s + 1)
    ensures s + 1 < n ==> Pow2(n - 1 - s) / 2 == Pow2(n - 2 - s)
  {
    Pow2Add(n - 1 - s, s);
    Pow2Add(n - s, s);
  }

  lemma DftOfOne<T(!new)>(R: Ring<T>, x: seq<T>, w: T)
    requires CommRing(R) && |x| == 1
    ensures Dft.At(R, x, w, 0) == x[0]
  {
    AddZero(R, x[0]);
    assert RingLaw(R, x[0], R.one, R.one);
    assert Dft.At(R, x, w, 0) == Add(R, Dft.Part(R, x, Pow(R, w, 0), 0, 0), Mul(R, x[0], Pow(R, Pow(R, w, 0), 0)));
  }

  /** (a + b, a - b): the butterfly with twiddle (1, 0). */
  function PlainButterfly<T>(R: Ring<T>): Butterfly<T> {
    Butterfly((a: T, b: T, w: T) => Add(R, a, b), (a: T, b: T, w: T) => Sub(R, a, b))
  }

  // ---------- Decimation in frequency ----------

  /** The layer of blocks of 2^n: the last one, of pairs, has its own butterfly. */
  function DifLayer<T>(f: Butterfly<T>, last: Butterfly<T>, one: T, x: seq<T>, n: nat, L: nat, tw: seq<T>): (y: seq<T>)
    requires n >= 1
    ensures |y| == |x|
  {
    if n == 1 then PairLayer(last, one, x) else Layer(f, x, Pow2(n - 1), L, tw)
  }

  /** The first c layers, from blocks of 2^n down. */
  function DifLayers<T>(f: Butterfly<T>, last: Butterfly<T>, one: T, x: seq<T>, n: nat, L: nat, tw: seq<T>, c: nat): (y: seq<T>)
    ensures |y| == |x|
    decreases n
  {
    if n == 0 || c == 0 then x
    else DifLayers(f, last, one, DifLayer(f, last, one, x, n, L, tw), n - 1, 2 * L, tw, c - 1)
  }

  /** How many layers a given n_break lets through. */
  function LayersRun(n: nat, nBreak: int): nat {
    if nBreak < 0 then 0 else if nBreak < n then nBreak else n
  }

  lemma DifLayersStep<T>(f: Butterfly<T>, last: Butterfly<T>, one: T, y: seq<T>, n: nat, L: nat, tw: seq<T>, c: nat)
    requires n >= 1
    ensures c == 0 ==> DifLayers(f, last, one, y, n, L, tw, c) == y
    ensures c >= 1 && n == 1 ==> DifLayers(f, last, one, y, n, L, tw, c) == PairLayer(last, one, y)
    ensures c >= 1 && n >= 2 ==>
              DifLayers(f, last, one, y, n, L, tw, c) == DifLayers(f, last, one, Layer(f, y, Pow2(n - 1), L, tw), n - 1, 2 * L, tw, c - 1)
  {
    hide Layer, PairLayer;
  }

  /** `Radix2FFT_DIF` and `Radix2FFT_DIF_float`: layers of shrinking blocks, the last one of pairs. */
  method RunDif<T>(f: Butterfly<T>, last: Butterfly<T>, one: T, data: array<T>, tw: array<T>, nBreak: int, ghost n: nat)
    requires n >= 1 && data.Length == Pow2(n) && tw.Length >= data.Length / 2 && data != tw
    modifies data
    ensures data[..] == DifLayers(f, last, one, old(data[..]), n, 1, tw[..], LayersRun(n, nBreak))
  {
    hide Layer, PairLayer, Log2, AreBlocks, Pow2, DifLayers, DifLayer;
    Log2OfPow2(n);
    Pow2Step(n);
    Pow2Step(0);
    ghost var x, t, c := data[..], tw[..], LayersRun(n, nBreak);
    var iLog2N := Log2(data.Length);
    var iL, iM, iCnt1 := 1, data.Length / 2, 0;
    while iCnt1 < iLog2N - 1
      invariant iCnt1 <= n - 1 && iCnt1 <= c && tw[..] == t
      invariant iL == Pow2(iCnt1) && iM == Pow2(n - 1 - iCnt1)
      invariant DifLayers(f, last, one, data[..], n - iCnt1, iL, t, c - iCnt1) == DifLayers(f, last, one, x, n, 1, t, c)
    {
      if iCnt1 >= nBreak {
        break;
      }
      StridesAt(n, iCnt1, tw.Length);
      DifLayersStep(f, last, one, data[..], n - iCnt1, iL, t, c - iCnt1);
      RunLayer(f, data, tw, iM, iL);
      iL := iL * 2;
      iM := iM / 2;
      iCnt1 := iCnt1 + 1;
    }
    DifLayersStep(f, last, one, data[..], n - iCnt1, iL, t, c - iCnt1);
    if iCnt1 < nBreak {
      RunPairLayer(last, one, data);
    }
  }

  lemma DifLayerConcat<T>(f: Butterfly<T>, last: Butterfly<T>, one: T, x: seq<T>, y: seq<T>, n: nat, L: nat, tw: seq<T>, q: nat)
    requires n >= 1 && |x| == Pow2(n) * q
    ensures DifLayer(f, last, one, x + y, n, L, tw) == DifLayer(f, last, one, x, n, L, tw) + DifLayer(f, last, one, y, n, L, tw)
  {
    if n == 1 {
      LayerConcat(last, x, y, 1, 0, [one], q);
    } else {
      LayerConcat(f, x, y, Pow2(n - 1), L, tw, q);
    }
  }

  /** The layers act on each run of whole blocks separately. */
  lemma {:induction false} DifConcat<T>(f: Butterfly<T>, last: Butterfly<T>, one: T, x: seq<T>, y: seq<T>, n: nat, L: nat, tw: seq<T>, c: nat, q: nat)
    requires |x| == Pow2(n) * q
    ensures DifLayers(f, last, one, x + y, n, L, tw, c)
         == DifLayers(f, last, one, x, n, L, tw, c) + DifLayers(f, last, one, y, n, L, tw, c)
    decreases n
  {
    if n == 0 || c == 0 {
    } else {
      DifLayerConcat(f, last, one, x, y, n, L, tw, q);
      assert Pow2(n) * q == Pow2(n - 1) * (2 * q);
      DifConcat(f, last, one, DifLayer(f, last, one, x, n, L, tw), DifLayer(f, last, one, y, n, L, tw), n - 1, 2 * L, tw, c - 1, 2 * q);
    }
  }

  /** (a + b, (a - b)·w), with the exact arithmetic of a ring. */
  function DifButterfly<T>(R: Ring<T>): Butterfly<T> {
    Butterfly((a: T, b: T, w: T) => Add(R, a, b), (a: T, b: T, w: T) => Mul(R, Sub(R, a, b), w))
  }

  /** What the table and the root must be for blocks of 2^n at stride L. */
  ghost predicate Tables<T>(R: Ring<T>, n: nat, L: nat, tw: seq<T>, w: T) {
    && L >= 1
    && IsRoot(R, Pow(R, w, L), n)
    && (n >= 2 ==> IsTwiddles(R, tw, w, Pow2(n - 1) * L))
  }

  lemma TablesStep<T(!new)>(R: Ring<T>, n: nat, L: nat, tw: seq<T>, w: T)
    requires CommRing(R) && n >= 1 && Tables(R, n, L, tw, w)
    ensures Tables(R, n - 1, 2 * L, tw, w)
    ensures Pow(R, Pow(R, w, L), Pow2(n - 1)) == Neg(R, R.one)
    ensures Mul(R, Pow(R, w, L), Pow(R, w, L)) == Pow(R, w, 2 * L)
  {
    RootStep(R, w, L, n);
    if n >= 2 {
      HalfStride(n, L);
    }
  }

  lemma TablesHalf<T(!new)>(R: Ring<T>, n: nat, L: nat, tw: seq<T>, w: T)
    requires CommRing(R) && n >= 1 && Tables(R, n, L, tw, w)
    ensures Tables(R, n - 1, 2 * L, tw, w)
  {
    hide *;
    TablesStep(R, n, L, tw, w);
  }

  /** One layer over a single block leaves the half sums and the twiddled half differences. */
  lemma DifHalves<T(!new)>(R: Ring<T>, x: seq<T>, n: nat, L: nat, tw: seq<T>, w: T)
    requires CommRing(R) && n >= 1 && |x| == Pow2(n) && Tables(R, n, L, tw, w)
    ensures var y := DifLayer(DifButterfly(R), PlainButterfly(R), R.one, x, n, L, tw);
            Dft.IsHalfSum(R, x, Pow2(n - 1), y[..Pow2(n - 1)]) && Dft.IsHalfDiff(R, x, Pow2(n - 1), Pow(R, w, L), y[Pow2(n - 1)..])
  {
    var M := Pow2(n - 1);
    var y := DifLayer(DifButterfly(R), PlainButterfly(R), R.one, x, n, L, tw);
    forall j | 0 <= j < M
      ensures y[j] == Add(R, x[j], x[j + M]) && y[j + M] == Mul(R, Sub(R, x[j], x[j + M]), Pow(R, Pow(R, w, L), j))
    {
      if n >= 2 {
        TwiddleAt(R, tw, w, L, M, j);
        FirstBlock(DifButterfly(R), x, M, L, tw, j);
      } else {
        FirstBlock(PlainButterfly(R), x, 1, 0, [R.one], 0);
        assert RingLaw(R, Sub(R, x[0], x[1]), R.one, R.one);
      }
    }
  }

  /** After the first layer, the two halves are transformed separately. */
  lemma DifSplit<T>(f: Butterfly<T>, last: Butterfly<T>, one: T, x: seq<T>, n: nat, L: nat, tw: seq<T>)
    requires n >= 1 && |x| == Pow2(n)
    ensures var y := DifLayer(f, last, one, x, n, L, tw);
            DifLayers(f, last, one, x, n, L, tw, n)
            == DifLayers(f, last, one, y[..Pow2(n - 1)], n - 1, 2 * L, tw, n - 1)
             + DifLayers(f, last, one, y[Pow2(n - 1)..], n - 1, 2 * L, tw, n - 1)
  {
    hide DifLayer, Pow2;
    Pow2Step(n);
    var y, M := DifLayer(f, last, one, x, n, L, tw), Pow2(n - 1);
    assert y == y[..M] + y[M..];
    DifConcat(f, last, one, y[..M], y[M..], n - 1, 2 * L, tw, n - 1, 1);
  }

  /** Even outputs come from the first half, odd outputs from the second. */
  lemma {:induction false} DifPick<T>(f: Butterfly<T>, last: Butterfly<T>, one: T, x: seq<T>, n: nat, L: nat, tw: seq<T>, q: nat)
    requires n >= 1 && |x| == Pow2(n) && q < Pow2(n - 1)
    ensures DifLayers(f, last, one, x, n, L, tw, n)[Rev(2 * q, n)]
         == DifLayers(f, last, one, DifLayer(f, last, one, x, n, L, tw)[..Pow2(n - 1)], n - 1, 2 * L, tw, n - 1)[Rev(q, n - 1)]
    ensures DifLayers(f, last, one, x, n, L, tw, n)[Rev(2 * q + 1, n)]
         == DifLayers(f, last, one, DifLayer(f, last, one, x, n, L, tw)[Pow2(n - 1)..], n - 1, 2 * L, tw, n - 1)[Rev(q, n - 1)]
  {
    hide Rev, DifLayer, DifLayers, Pow2;
    Pow2Step(n);
    DifSplit(f, last, one, x, n, L, tw);
    RevStep(q, 0, n);
    RevStep(q, 1, n);
  }

  /** The result of all layers. */
  function DifAll<T>(R: Ring<T>, x: seq<T>, n: nat, L: nat, tw: seq<T>): (y: seq<T>)
    ensures |y| == |x|
  {
    DifLayers(DifButterfly(R), PlainButterfly(R), R.one, x, n, L, tw, n)
  }

  /** Output k of the transform lies at the bit reversal of k. */
  ghost predicate DifHolds<T(!new)>(R: Ring<T>, x: seq<T>, n: nat, L: nat, tw: seq<T>, w: T, k: nat) {
    |x| == Pow2(n) && k < Pow2(n) && DifAll(R, x, n, L, tw)[Rev(k, n)] == Dft.At(R, x, Pow(R, w, L), k)
  }

  lemma DifOfOne<T(!new)>(R: Ring<T>, x: seq<T>, L: nat, tw: seq<T>, w: T)
    requires CommRing(R) && |x| == 1
    ensures DifHolds(R, x, 0, L, tw, w, 0)
  {
    DftOfOne(R, x, Pow(R, w, L));
    assert Rev(0, 0) == 0 && Pow2(0) == 1;
  }

  /** What the first layer leaves. */
  ghost predicate AreHalves<T>(R: Ring<T>, x: seq<T>, n: nat, L: nat, tw: seq<T>, lo: seq<T>, hi: seq<T>)
    requires n >= 1
  {
    |x| == Pow2(n) && |lo| == |hi| == Pow2(n - 1)
    && DifLayer(DifButterfly(R), PlainButterfly(R), R.one, x, n, L, tw) == lo + hi
  }

  lemma FirstHalves<T>(R: Ring<T>, x: seq<T>, n: nat, L: nat, tw: seq<T>) returns (lo: seq<T>, hi: seq<T>)
    requires n >= 1 && |x| == Pow2(n)
    ensures |lo| == |hi| == Pow2(n - 1) && AreHalves(R, x, n, L, tw, lo, hi)
  {
    var y := DifLayer(DifButterfly(R), PlainButterfly(R), R.one, x, n, L, tw);
    lo, hi := y[..Pow2(n - 1)], y[Pow2(n - 1)..];
  }

  /** If the halves of the first layer hold their half-size transforms in bit-reversed order, so does the whole. */
  lemma DifOutputs<T(!new)>(R: Ring<T>, x: seq<T>, n: nat, L: nat, tw: seq<T>, w: T, lo: seq<T>, hi: seq<T>, q: nat)
    requires CommRing(R) && n >= 1 && Tables(R, n, L, tw, w) && AreHalves(R, x, n, L, tw, lo, hi) && q < Pow2(n - 1)
    requires DifHolds(R, lo, n - 1, 2 * L, tw, w, q) && DifHolds(R, hi, n - 1, 2 * L, tw, w, q)
    ensures DifHolds(R, x, n, L, tw, w, 2 * q) && DifHolds(R, x, n, L, tw, w, 2 * q + 1)
  {
    var M := Pow2(n - 1);
    var y := DifLayer(DifButterfly(R), PlainButterfly(R), R.one, x, n, L, tw);
    assert y[..M] == lo && y[M..] == hi;
    TablesStep(R, n, L, tw, w);
    DifHalves(R, x, n, L, tw, w);
    DifPick(DifButterfly(R), PlainButterfly(R), R.one, x, n, L, tw, q);
    Dft.EvenOutput(R, x, M, Pow(R, w, L), lo, q);
    Dft.OddOutput(R, x, M, Pow(R, w, L), hi, q);
    hide DifLayer, DifLayers, Rev, CommRing;
  }

  lemma DifOutput<T(!new)>(R: Ring<T>, x: seq<T>, n: nat, L: nat, tw: seq<T>, w: T, lo: seq<T>, hi: seq<T>, k: nat)
    requires CommRing(R) && n >= 1 && Tables(R, n, L, tw, w) && AreHalves(R, x, n, L, tw, lo, hi) && k / 2 < Pow2(n - 1)
    requires DifHolds(R, lo, n - 1, 2 * L, tw, w, k / 2) && DifHolds(R, hi, n - 1, 2 * L, tw, w, k / 2)
    ensures DifHolds(R, x, n, L, tw, w, k)
  {
    hide *;
    DifOutputs(R, x, n, L, tw, w, lo, hi, k / 2);
    assert k == 2 * (k / 2) || k == 2 * (k / 2) + 1;
  }

  /** All layers leave output k of the transform at the bit reversal of k. */
  lemma {:induction false} DifIsDft<T(!new)>(R: Ring<T>, x: seq<T>, n: nat, L: nat, tw: seq<T>, w: T, k: nat)
    requires CommRing(R) && |x| == Pow2(n) && Tables(R, n, L, tw, w) && k < Pow2(n)
    ensures DifHolds(R, x, n, L, tw, w, k)
    decreases n
  {
    if n == 0 {
      DifOfOne(R, x, L, tw, w);
    } else {
      assert k / 2 < Pow2(n - 1);
      hide *;
      var lo, hi := FirstHalves(R, x, n, L, tw);
      TablesHalf(R, n, L, tw, w);
      DifIsDft(R, lo, n - 1, 2 * L, tw, w, k / 2);
      DifIsDft(R, hi, n - 1, 2 * L, tw, w, k / 2);
      DifOutput(R, x, n, L, tw, w, lo, hi, k);
    }
  }
}
