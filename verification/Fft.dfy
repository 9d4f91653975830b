/** The two complete scalar routes: both leave the discrete Fourier transform in natural order. */
module Fft {
  import opened Bits
  import opened Butterflies
  import opened Rings
  import opened FftScalar
  import opened FftSwap
  import opened FftTime
  import Dft
  import FftVector

  lemma FirstTables<T(!new)>(R: Ring<T>, tw: seq<T>, w: T, n: nat)
    requires CommRing(R) && n >= 1 && IsRoot(R, w, n) && IsTwiddles(R, tw, w, Pow2(n) / 2)
    ensures Pow(R, w, 1) == w && Tables(R, n, 1, tw, w)
  {
    FirstPower(R, w);
  }

  /** Reordering the result of the frequency route gives the transform. */
  lemma DifReordered<T(!new)>(R: Ring<T>, x: seq<T>, y: seq<T>, table: seq<int16>, tw: seq<T>, w: T, n: nat)
    requires CommRing(R) && n >= 1 && |x| == Pow2(n) && IsRoot(R, w, n) && IsTwiddles(R, tw, w, Pow2(n) / 2)
    requires IsRevTable(table, Pow2(n), n) && IsInvolution(table, Pow2(n))
    requires IsPermuted(DifAll(R, x, n, 1, tw), table, y)
    ensures Dft.IsTransform(R, x, w, y)
  {
    FirstTables(R, tw, w, n);
    forall k: nat | k < |x| ensures y[k] == Dft.At(R, x, w, k) {
      assert table[k] as int == Rev(k, n);
      DifIsDft(R, x, n, 1, tw, w, k);
    }
    Dft.OutputsAreTransform(R, x, w, y);
  }

  /** Reordering the input of the time route gives the transform. */
  lemma DitReordered<T(!new)>(R: Ring<T>, x: seq<T>, z: seq<T>, table: seq<int16>, tw: seq<T>, w: T, n: nat)
    requires CommRing(R) && n >= 1 && |x| == Pow2(n) && IsRoot(R, w, n) && IsTwiddles(R, tw, w, Pow2(n) / 2)
    requires IsRevTable(table, Pow2(n), n) && IsInvolution(table, Pow2(n))
    requires IsPermuted(x, table, z)
    ensures Dft.IsTransform(R, x, w, DitAll(R, z, n, 1, tw))
  {
    FirstTables(R, tw, w, n);
    forall p: nat | p < |x| ensures z[p] == x[Rev(p, n)] {
      assert table[p] as int == Rev(p, n);
    }
    var y := DitAll(R, z, n, 1, tw);
    forall k: nat | k < |x| ensures y[k] == Dft.At(R, x, w, k) {
      DitIsDft(R, x, z, n, 1, tw, w, k);
    }
    Dft.OutputsAreTransform(R, x, w, y);
  }

  /** The transform is unique, so both routes leave the same array. */
  lemma RoutesAgree<T(!new)>(R: Ring<T>, x: seq<T>, y: seq<T>, z: seq<T>, table: seq<int16>, tw: seq<T>, w: T, n: nat)
    requires CommRing(R) && n >= 1 && |x| == Pow2(n) && IsRoot(R, w, n) && IsTwiddles(R, tw, w, Pow2(n) / 2)
    requires IsRevTable(table, Pow2(n), n) && IsInvolution(table, Pow2(n))
    requires IsPermuted(DifAll(R, x, n, 1, tw), table, y) && IsPermuted(x, table, z)
    ensures y == DitAll(R, z, n, 1, tw)
  {
    DifReordered(R, x, y, table, tw, w, n);
    DitReordered(R, x, z, table, tw, w, n);
  }

  /** SwapSamples unscrambles, so `fft_r2dif_vec` leaves exactly what the in-place frequency route leaves. */
  lemma VectorIsDifRoute<T>(R: Ring<T>, x: seq<T>, y: seq<T>, out: seq<T>, table: seq<int16>, tw: seq<T>, n: nat)
    requires |x| == Pow2(n) && IsRevTable(table, Pow2(n), n) && IsInvolution(table, Pow2(n))
    requires IsPermuted(DifAll(R, x, n, 1, tw), table, y) && FftVector.Unscrambled(DifAll(R, x, n, 1, tw), n, out)
    ensures out == y
  {
    forall k: nat | k < Pow2(n) ensures out[k] == y[k] {
      assert table[k] as int == Rev(k, n);
    }
  }

  /** `Radix2FFT_DIF_float` with n_break at least log2 N, then `SwapSamples`. */
  method DifRoute<T(!new)>(R: Ring<T>, data: array<T>, tw: array<T>, table: array<int16>, nBreak: int, ghost w: T, ghost n: nat)
    requires CommRing(R) && 1 <= n <= 15 && data.Length == table.Length == Pow2(n) && nBreak >= n
    requires data != tw && table as object != data as object && table as object != tw as object
    requires IsRoot(R, w, n) && IsTwiddles(R, tw[..], w, Pow2(n) / 2)
    modifies data, table
    ensures Dft.IsTransform(R, old(data[..]), w, data[..])
  {
    ghost var x, t := data[..], tw[..];
    SetupR2SwapTable(table, n);
    RevTableIsInvolution(table[..], n);
    ghost var p := table[..];
    RunDif(DifButterfly(R), PlainButterfly(R), R.one, data, tw, nBreak, n);
    assert data[..] == DifAll(R, x, n, 1, t);
    SwapSamples(data, table);
    DifReordered(R, x, data[..], p, t, w, n);
  }

  /** `SwapSamples`, then `Radix2FFT_DIT_float`. */
  method DitRoute<T(!new)>(R: Ring<T>, data: array<T>, tw: array<T>, table: array<int16>, ghost w: T, ghost n: nat)
    requires CommRing(R) && 1 <= n <= 15 && data.Length == table.Length == Pow2(n)
    requires data != tw && table as object != data as object && table as object != tw as object
    requires IsRoot(R, w, n) && IsTwiddles(R, tw[..], w, Pow2(n) / 2)
    modifies data, table
    ensures Dft.IsTransform(R, old(data[..]), w, data[..])
  {
    ghost var x, t := data[..], tw[..];
    SetupR2SwapTable(table, n);
    RevTableIsInvolution(table[..], n);
    SwapSamples(data, table);
    DitReordered(R, x, data[..], table[..], t, w, n);
    RunDit(DitButterfly(R), PlainButterfly(R), R.one, data, tw, n);
  }
}
