/**
  apps/dwt/kernel/wavelet.c: the two-tap wavelet transform, in place, scalar and vector.
  Over exact reals; what the transform means is in DwtInverse.dfy.
 */
module Dwt {
  import opened Arith
  import opened Bits
  import opened VectorUnit

  /** The filters as gsl_wavelet_transform sets them up: nc == 2, offset == 0. */
  datatype Wavelet = Wavelet(h1: seq<real>, g1: seq<real>, nc: nat, offset: nat)

  predicate TwoTap(w: Wavelet) {
    |w.h1| == 2 && |w.g1| == 2 && w.nc == 2 && w.offset == 0
  }

  function Product(x: real, y: real): real {
    x * y
  }

  function Smooth(w: Wavelet, x: real, y: real): real
    requires TwoTap(w)
  {
    Product(w.h1[0], x) + Product(w.h1[1], y)
  }

  function Detail(w: Wavelet, x: real, y: real): real
    requires TwoTap(w)
  {
    Product(w.g1[0], x) + Product(w.g1[1], y)
  }

  // ---------- What one level computes, out of place ----------

  function StepAt(w: Wavelet, s: seq<real>, n: nat, p: nat): real
    requires TwoTap(w) && n % 2 == 0 && n <= |s| && p < |s|
  {
    if p < n / 2 then Detail(w, s[2 * p], s[2 * p + 1])
    else if p < n then Smooth(w, s[2 * (p - n / 2)], s[2 * (p - n / 2) + 1])
    else s[p]
  }

  /** One level on the first n samples: differences, then averages of neighbours. */
  function Step(w: Wavelet, s: seq<real>, n: nat): (r: seq<real>)
    requires TwoTap(w) && n % 2 == 0 && n <= |s|
    ensures |r| == |s| && forall p :: 0 <= p < |s| ==> r[p] == StepAt(w, s, n, p)
  {
    seq(|s|, p requires 0 <= p < |s| => StepAt(w, s, n, p))
  }

  /** All levels, from 2^m samples down to two; or only the first. */
  function Levels(w: Wavelet, s: seq<real>, m: nat, firstOnly: bool): (r: seq<real>)
    requires TwoTap(w) && Pow2(m) <= |s|
    ensures |r| == |s|
    decreases m
  {
    if m == 0 then s
    else if firstOnly then Step(w, s, Pow2(m))
    else Levels(w, Step(w, s, Pow2(m)), m - 1, firstOnly)
  }

  // ---------- The masked index ----------

  /** Bitwise and. */
  function And(x: nat, y: nat): nat
    decreases x
  {
    if x == 0 || y == 0 then 0 else 2 * And(x / 2, y / 2) + (if x % 2 == 1 && y % 2 == 1 then 1 else 0)
  }

  lemma AndOdd(q: nat, y: nat)
    ensures And(2 * q + 1, y) == 2 * And(q, y / 2) + y % 2
  {
    assert (2 * q + 1) / 2 == q && (2 * q + 1) % 2 == 1;
  }

  /** Masking with n - 1 is reduction modulo n, for n a power of two. */
  lemma {:induction false} MaskIsModulo(m: nat, y: nat)
    ensures And(Pow2(m) - 1, y) == y % Pow2(m)
  {
    if m == 0 {
    } else {
      var p := Pow2(m - 1);
      assert Pow2(m) == 2 * p;
      hide Pow2, And;
      MaskIsModulo(m - 1, y / 2);
      AndOdd(p - 1, y);
      HalfModulo(y, p);
    }
  }

  lemma HalfModulo(y: nat, p: nat)
    requires p >= 1
    ensures y % (2 * p) == 2 * (y / 2 % p) + y % 2
  {
    var q := y / 2 / p;
    assert y / 2 == p * q + y / 2 % p;
    assert y == (2 * p) * q + (2 * (y / 2 % p) + y % 2);
    DivModUnique(y, 2 * p, q, 2 * (y / 2 % p) + y % 2);
  }

  /** With an even start i below n - 1 the mask does nothing: the two taps read samples i and i + 1. */
  lemma TapIndex(m: nat, i: nat, k: nat)
    requires m >= 1 && i % 2 == 0 && i < Pow2(m) && k < 2
    ensures i + 1 < Pow2(m) && And(Pow2(m) - 1, i + 2 * Pow2(m) + k) == i + k
  {
    var n := Pow2(m);
    assert n == 2 * Pow2(m - 1);
    MaskIsModulo(m, i + 2 * n + k);
    assert i + 2 * n + k == n * 2 + (i + k);
    DivModUnique(i + 2 * n + k, n, 2, i + k);
  }

  // ---------- dwt_step ----------

  /** Positions before k are differences already, the others still hold their samples. */
  ghost predicate Halfway(w: Wavelet, s: seq<real>, n: nat, k: nat, a: seq<real>)
    requires TwoTap(w) && n % 2 == 0 && n <= |s|
  {
    && |a| == |s| && k <= n / 2
    && (forall p :: 0 <= p < k ==> a[p] == StepAt(w, s, n, p))
    && forall p :: k <= p < |s| ==> a[p] == s[p]
  }

  /** The buffer holds the averages. */
  ghost predicate Buffered(w: Wavelet, s: seq<real>, n: nat, k: nat, buf: seq<real>)
    requires TwoTap(w) && n % 2 == 0 && n <= |s|
  {
    k <= n / 2 <= |buf| && forall p :: 0 <= p < k ==> buf[p] == StepAt(w, s, n, n / 2 + p)
  }

  lemma HalfOfPow2(m: nat)
    requires m >= 1
    ensures Pow2(m) % 2 == 0 && Pow2(m) / 2 == Pow2(m - 1)
  {
  }

  /** The two taps at samples i and i + 1. */
  method Taps(w: Wavelet, a: array<real>, m: nat, i: nat) returns (h: real, g: real)
    requires TwoTap(w) && m >= 1 && i % 2 == 0 && i < Pow2(m) <= a.Length
    ensures i + 1 < a.Length && h == Smooth(w, a[i], a[i + 1]) && g == Detail(w, a[i], a[i + 1])
  {
    var n := Pow2(m);
    var nmod := w.nc * n - w.offset;
    h, g := 0.0, 0.0;
    var ni := i + nmod;
    TapIndex(m, i, 0);
    TapIndex(m, i, 1);
    for k := 0 to w.nc
      invariant k == 0 ==> h == 0.0 && g == 0.0
      invariant k == 1 ==> h == Product(w.h1[0], a[i]) && g == Product(w.g1[0], a[i])
      invariant k == 2 ==> h == Smooth(w, a[i], a[i + 1]) && g == Detail(w, a[i], a[i + 1])
    {
      hide Product, And, Pow2;
      var jf := And(n - 1, ni + k);
      h := h + Product(w.h1[k], a[jf]);
      g := g + Product(w.g1[k], a[jf]);
    }
  }

  /** dwt_step in place: no sample is overwritten before its last read. */
  method DwtStep(w: Wavelet, a: array<real>, m: nat, buf: array<real>)
    requires TwoTap(w) && m >= 1 && Pow2(m) <= a.Length && Pow2(m) / 2 <= buf.Length && a != buf
    modifies a, buf
    ensures Pow2(m) % 2 == 0 && a[..] == Step(w, old(a[..]), Pow2(m))
  {
    hide Product, Smooth, Detail;
    var n := Pow2(m);
    HalfOfPow2(m);
    hide Pow2;
    ghost var s := a[..];
    var i, ii := 0, 0;
    while i < n
      invariant i == 2 * ii && i <= n
      invariant Halfway(w, s, n, ii, a[..]) && Buffered(w, s, n, ii, buf[..])
    {
      var h, g := Taps(w, a, m, i);
      a[ii] := g;
      buf[ii] := h;
      i, ii := i + 2, ii + 1;
    }
    CopyBuffer(w, a, n, buf, s);
  }

  lemma SamplesUnchanged(w: Wavelet, s: seq<real>, n: nat, a: seq<real>)
    requires TwoTap(w) && n % 2 == 0 && n <= |s| && |a| == |s|
    requires forall p :: 0 <= p < n ==> a[p] == StepAt(w, s, n, p)
    requires forall p :: n <= p < |s| ==> a[p] == s[p]
    ensures a == Step(w, s, n)
  {
  }

  /** The second loop of dwt_step. */
  method CopyBuffer(w: Wavelet, a: array<real>, n: nat, buf: array<real>, ghost s: seq<real>)
    requires TwoTap(w) && n % 2 == 0 && n <= |s| && a != buf
    requires Halfway(w, s, n, n / 2, a[..]) && Buffered(w, s, n, n / 2, buf[..])
    modifies a
    ensures a[..] == Step(w, s, n)
  {
    assert a.Length == |s|;
    hide StepAt, TwoTap;
    var nh := n / 2;
    for k := 0 to n / 2
      invariant Buffered(w, s, n, nh, buf[..])
      invariant forall p :: 0 <= p < nh + k ==> a[p] == StepAt(w, s, n, p)
      invariant forall p :: nh + k <= p < a.Length ==> a[p] == s[p]
    {
      a[k + nh] := buf[k];
    }
    SamplesUnchanged(w, s, n, a[..]);
  }

  /** gsl_wavelet_transform; main.c passes a power of two. */
  method WaveletTransform(w: Wavelet, data: array<real>, m: nat, buf: array<real>, firstIterOnly: bool)
    requires TwoTap(w) && Pow2(m) <= data.Length && Pow2(m) / 2 <= buf.Length && data != buf
    modifies data, buf
    ensures data[..] == Levels(w, old(data[..]), m, firstIterOnly)
  {
    var i := Pow2(m);
    var l := m;
    ghost var s := data[..];
    while i >= 2
      invariant i == 0 || i == Pow2(l)
      invariant i == Pow2(l) ==> i <= data.Length && i / 2 <= buf.Length
      invariant i == Pow2(l) ==> Levels(w, data[..], l, firstIterOnly) == Levels(w, s, m, firstIterOnly)
      invariant i == 0 ==> data[..] == Levels(w, s, m, firstIterOnly)
      decreases i
    {
      HalfOfPow2(l);
      DwtStep(w, data, l, buf);
      if firstIterOnly {
        i := 0;
      }
      i := i / 2;
      l := l - 1;
    }
  }

  // ---------- dwt_step_vector ----------

  /** `vlse32.v` with a stride of two elements */
  method VLoadStrided(a: array<real>, base: nat, vl: nat) returns (v: seq<real>)
    requires vl > 0 ==> base + 2 * (vl - 1) < a.Length
    ensures |v| == vl && forall k :: 0 <= k < vl ==> v[k] == a[base + 2 * k]
  {
    v := [];
    for k := 0 to vl
      invariant |v| == k && forall j :: 0 <= j < k ==> v[j] == a[base + 2 * j]
    {
      v := v + [a[base + 2 * k]];
    }
  }

  /** `vfmul.vf` and `vfmacc.vf`: f0 · v0 + f1 · v1 */
  method VTwoTaps(f0: real, v0: seq<real>, f1: real, v1: seq<real>) returns (r: seq<real>)
    requires |v0| == |v1|
    ensures |r| == |v0| && forall k :: 0 <= k < |v0| ==> r[k] == Product(f0, v0[k]) + Product(f1, v1[k])
  {
    var t := [];
    for k := 0 to |v0|
      invariant |t| == k && forall j :: 0 <= j < k ==> t[j] == Product(f0, v0[j])
    {
      t := t + [Product(f0, v0[k])];
    }
    r := [];
    hide Product;
    for k := 0 to |v0|
      invariant |r| == k && forall j :: 0 <= j < k ==> r[j] == Product(f0, v0[j]) + Product(f1, v1[j])
    {
      r := r + [t[k] + Product(f1, v1[k])];
    }
  }

  /** The lengths of the strips: an even number of samples, and never past the end. */
  function StripLength(avl: nat, vlmax: nat): nat {
    var vl := SetVl(avl, vlmax);
    if avl >= 2 * vl then 2 * vl else vl
  }

  /** What is left to do: whole double strips, or one last even strip. */
  ghost predicate StripsLeft(avl: nat, p: nat)
    requires p >= 1
  {
    avl % (2 * p) == 0 || (avl <= p && avl % 2 == 0)
  }

  lemma StripFits(avl: nat, p: nat)
    requires p >= 1 && avl > 0 && StripsLeft(avl, p)
    ensures var vl := StripLength(avl, p);
            vl >= 2 && vl % 2 == 0 && vl <= avl && StripsLeft(avl - vl, p)
  {
    if avl % (2 * p) == 0 {
      BlockBelow(0, avl, 2 * p);
      var q := avl / (2 * p);
      assert avl == 2 * p * q;
      assert avl - 2 * p == 2 * p * (q - 1);
      MulDivMod(q - 1, 2 * p);
    }
  }

  lemma Multiple(x: nat, q: nat, d: nat)
    requires d >= 1 && x == q * d
    ensures x % d == 0
  {
    assert x == d * q;
    MulDivMod(q, d);
  }

  lemma Pow2Strips(m: nat, v: nat)
    requires m >= 1
    ensures StripsLeft(Pow2(m), Pow2(v))
    ensures Pow2(m) / 2 <= Pow2(v) || Pow2(m) / 2 % Pow2(v) == 0
  {
    HalfOfPow2(m);
    if m <= v {
      Pow2Monotonic(m, v);
    } else {
      LongPow2(m, v);
    }
  }

  lemma LongPow2(m: nat, v: nat)
    requires m > v
    ensures Pow2(m) % (2 * Pow2(v)) == 0 && Pow2(m - 1) % Pow2(v) == 0
  {
    var q := Pow2(m - v - 1);
    Pow2Add(m - v - 1, v + 1);
    assert Pow2(v + 1) == 2 * Pow2(v);
    Multiple(Pow2(m), q, 2 * Pow2(v));
    Pow2Add(m - v - 1, v);
    Multiple(Pow2(m - 1), q, Pow2(v));
  }

  lemma StripLane(w: Wavelet, s: seq<real>, n: nat, p: nat)
    requires TwoTap(w) && n % 2 == 0 && n <= |s| && p < n / 2
    ensures StepAt(w, s, n, p) == Detail(w, s[2 * p], s[2 * p + 1])
    ensures StepAt(w, s, n, n / 2 + p) == Smooth(w, s[2 * p], s[2 * p + 1])
  {
  }

  /** One strip of 2 * half samples, in registers. */
  method StripRegisters(w: Wavelet, samples: array<real>, n: nat, k: nat, half: nat, ghost s: seq<real>)
      returns (g: seq<real>, h: seq<real>)
    requires TwoTap(w) && n % 2 == 0 && n <= |s| && k + half <= n / 2 && Halfway(w, s, n, k, samples[..])
    ensures |g| == |h| == half
    ensures forall i :: 0 <= i < half ==> g[i] == StepAt(w, s, n, k + i)
    ensures forall i :: 0 <= i < half ==> h[i] == StepAt(w, s, n, n / 2 + (k + i))
  {
    assert samples.Length == |s|;
    hide Product, StepAt;
    var vec0 := VLoadStrided(samples, 2 * k, half);
    var vec1 := VLoadStrided(samples, 2 * k + 1, half);
    g := VTwoTaps(w.g1[0], vec0, w.g1[1], vec1);
    h := VTwoTaps(w.h1[0], vec0, w.h1[1], vec1);
    forall i | 0 <= i < half
      ensures g[i] == StepAt(w, s, n, k + i) && h[i] == StepAt(w, s, n, n / 2 + (k + i))
    {
      StripLane(w, s, n, k + i);
      assert vec0[i] == s[2 * (k + i)] && vec1[i] == s[2 * (k + i) + 1];
    }
  }

  /** One strip: its differences go back in place, its averages to the buffer. */
  method Strip(w: Wavelet, samples: array<real>, n: nat, buf: array<real>, k: nat, half: nat, ghost s: seq<real>)
    requires TwoTap(w) && n % 2 == 0 && n <= |s| && k + half <= n / 2 && samples != buf
    requires Halfway(w, s, n, k, samples[..]) && Buffered(w, s, n, k, buf[..])
    modifies samples, buf
    ensures Halfway(w, s, n, k + half, samples[..]) && Buffered(w, s, n, k + half, buf[..])
  {
    var g, h := StripRegisters(w, samples, n, k, half, s);
    hide StepAt, TwoTap;
    VStore(samples, k, g);
    VStore(buf, k, h);
    ghost var b := buf[..];
    forall p | 0 <= p < k + half ensures b[p] == StepAt(w, s, n, n / 2 + p) {
      if p >= k {
        assert b[p] == h[p - k];
        assert k + (p - k) == p;
      }
    }
  }

  lemma StripStart(w: Wavelet, s: seq<real>, n: nat, buf: seq<real>)
    requires TwoTap(w) && n % 2 == 0 && n <= |s| && n / 2 <= |buf|
    ensures Halfway(w, s, n, 0, s) && Buffered(w, s, n, 0, buf)
  {
  }

  /** The length of the next strip: twice vl if that many samples are left. */
  method StripSamples(avl: nat, vlmax: nat) returns (vl: nat)
    requires vlmax >= 1 && avl > 0 && StripsLeft(avl, vlmax)
    ensures 2 <= vl <= avl && vl % 2 == 0 && StripsLeft(avl - vl, vlmax)
  {
    vl := SetVl(avl, vlmax);
    if avl >= 2 * vl {
      vl := vl * 2;
    }
    StripFits(avl, vlmax);
  }

  /** dwt_step_vector. */
  method DwtStepVector(w: Wavelet, samples: array<real>, m: nat, buf: array<real>, v: nat)
    requires TwoTap(w) && m >= 1 && Pow2(m) <= samples.Length && Pow2(m) / 2 <= buf.Length && samples != buf
    modifies samples, buf
    ensures Pow2(m) % 2 == 0 && samples[..] == Step(w, old(samples[..]), Pow2(m))
  {
    var n, vlmax := Pow2(m), Pow2(v);
    HalfOfPow2(m);
    Pow2Strips(m, v);
    ghost var s := samples[..];
    StripStart(w, s, n, buf[..]);
    hide *;
    var avl: nat := n;
    var samplesR, samplesW := 0, 0;
    while avl > 0
      invariant samplesR == n - avl && samplesR == 2 * samplesW && avl <= n
      invariant StripsLeft(avl, vlmax)
      invariant Halfway(w, s, n, samplesW, samples[..]) && Buffered(w, s, n, samplesW, buf[..])
    {
      var vl := StripSamples(avl, vlmax);
      Strip(w, samples, n, buf, samplesW, vl / 2, s);
      samplesR := samplesR + vl;
      samplesW := samplesW + vl / 2;
      avl := avl - vl;
    }
    CopyBack(w, samples, n, buf, vlmax, s);
  }

  /** k of the averages in the buffer are back behind the differences. */
  ghost predicate CopiedBack(w: Wavelet, s: seq<real>, n: nat, k: nat, a: seq<real>)
    requires TwoTap(w) && n % 2 == 0 && n <= |s|
  {
    && |a| == |s| && k <= n / 2
    && (forall p :: 0 <= p < n / 2 + k ==> a[p] == StepAt(w, s, n, p))
    && forall p :: n / 2 + k <= p < |s| ==> a[p] == s[p]
  }

  lemma CopyStart(w: Wavelet, s: seq<real>, n: nat, a: seq<real>)
    requires TwoTap(w) && n % 2 == 0 && n <= |s| && Halfway(w, s, n, n / 2, a)
    ensures CopiedBack(w, s, n, 0, a)
  {
  }

  lemma CopyEnd(w: Wavelet, s: seq<real>, n: nat, a: seq<real>)
    requires TwoTap(w) && n % 2 == 0 && n <= |s| && CopiedBack(w, s, n, n / 2, a)
    ensures a == Step(w, s, n)
  {
    SamplesUnchanged(w, s, n, a);
  }

  method CopyStrip(w: Wavelet, samples: array<real>, n: nat, buf: array<real>, k: nat, vl: nat, ghost s: seq<real>)
    requires TwoTap(w) && n % 2 == 0 && n <= |s| && samples != buf && k + vl <= n / 2
    requires CopiedBack(w, s, n, k, samples[..]) && Buffered(w, s, n, n / 2, buf[..])
    modifies samples
    ensures CopiedBack(w, s, n, k + vl, samples[..])
  {
    ghost var b := buf[..];
    assert samples.Length == |s| && forall p :: 0 <= p < n / 2 ==> b[p] == StepAt(w, s, n, n / 2 + p);
    hide StepAt, TwoTap, Buffered;
    VStore(samples, n / 2 + k, buf[k..k + vl]);
    forall p | n / 2 + k <= p < n / 2 + k + vl ensures samples[p] == StepAt(w, s, n, p) {
      assert samples[p] == b[p - n / 2];
    }
  }

  /** The last loop of dwt_step_vector: vl is set once. */
  method CopyBack(w: Wavelet, samples: array<real>, n: nat, buf: array<real>, vlmax: nat, ghost s: seq<real>)
    requires TwoTap(w) && n % 2 == 0 && n <= |s| && vlmax >= 1 && samples != buf && (n / 2 <= vlmax || n / 2 % vlmax == 0)
    requires Halfway(w, s, n, n / 2, samples[..]) && Buffered(w, s, n, n / 2, buf[..])
    modifies samples
    ensures samples[..] == Step(w, s, n)
  {
    var avl: nat := n / 2;
    var vl := SetVl(avl, vlmax);
    EqualStrips(avl, vlmax);
    CopyStart(w, s, n, samples[..]);
    hide *;
    var bufR := 0;
    while avl > 0
      invariant bufR == n / 2 - avl && (avl > 0 ==> vl > 0 && avl % vl == 0) && avl <= n / 2
      invariant CopiedBack(w, s, n, bufR, samples[..])
    {
      LessOneStrip(avl, vl);
      CopyStrip(w, samples, n, buf, bufR, vl, s);
      bufR := bufR + vl;
      avl := avl - vl;
    }
    CopyEnd(w, s, n, samples[..]);
  }

  lemma EqualStrips(avl: nat, vlmax: nat)
    requires vlmax >= 1 && (avl <= vlmax || avl % vlmax == 0)
    ensures avl > 0 ==> SetVl(avl, vlmax) > 0 && avl % SetVl(avl, vlmax) == 0
  {
    if 0 < avl <= vlmax {
      MulDivMod(1, avl);
    }
  }

  lemma LessOneStrip(avl: nat, vl: nat)
    requires vl >= 1 && avl % vl == 0 && avl > 0
    ensures vl <= avl && (avl - vl) % vl == 0
  {
    BlockBelow(0, avl, vl);
    var q := avl / vl;
    assert avl - vl == vl * (q - 1);
    MulDivMod(q - 1, vl);
  }

  /** gsl_wavelet_transform_vector leaves what gsl_wavelet_transform leaves. */
  method WaveletTransformVector(w: Wavelet, data: array<real>, m: nat, buf: array<real>, firstIterOnly: bool, v: nat)
    requires TwoTap(w) && Pow2(m) <= data.Length && Pow2(m) / 2 <= buf.Length && data != buf
    modifies data, buf
    ensures data[..] == Levels(w, old(data[..]), m, firstIterOnly)
  {
    var i := Pow2(m);
    var l := m;
    ghost var s := data[..];
    while i >= 2
      invariant i == 0 || i == Pow2(l)
      invariant i == Pow2(l) ==> i <= data.Length && i / 2 <= buf.Length
      invariant i == Pow2(l) ==> Levels(w, data[..], l, firstIterOnly) == Levels(w, s, m, firstIterOnly)
      invariant i == 0 ==> data[..] == Levels(w, s, m, firstIterOnly)
      decreases i
    {
      HalfOfPow2(l);
      DwtStepVector(w, data, l, buf, v);
      if firstIterOnly {
        i := 0;
      }
      i := i / 2;
      l := l - 1;
    }
  }
}
