/**
  `fft_r2dif_vec`: the constant-geometry vector transform.  The two wings of half the samples each
  stay in registers; slides under a mask move samples so that lane t of the upper wing always meets
  its partner in lane t of the lower wing, and an indexed store undoes the order at the end.
 */
module FftVector {
  import opened Arith
  import opened Bits
  import opened Butterflies
  import opened Rings
  import opened FftScalar
  import opened VectorUnit
  import Dft

  /** Where the in-place transform keeps lane t of the upper wing, for half blocks of S. */
  function Position(t: nat, S: nat): nat
    requires S >= 1
  {
    2 * S * (t / S) + t % S
  }

  /** Lane t of the wings holds positions P and P + S of y. */
  ghost predicate Wings<T>(upRe: seq<T>, upIm: seq<T>, lowRe: seq<T>, lowIm: seq<T>, y: seq<Complex<T>>, S: nat, H: nat) {
    && S >= 1 && |y| == 2 * H && |upRe| == |upIm| == |lowRe| == |lowIm| == H
    && forall t: nat {:trigger upRe[t]} {:trigger upIm[t]} {:trigger lowRe[t]} {:trigger lowIm[t]} :: t < H ==>
         LaneOk(upRe[t], upIm[t], lowRe[t], lowIm[t], y, t, S)
  }

  ghost predicate LaneOk<T>(ur: T, ui: T, lr: T, li: T, y: seq<Complex<T>>, t: nat, S: nat)
    requires S >= 1
  {
    && Position(t, S) + S < |y|
    && y[Position(t, S)] == Complex(ur, ui)
    && y[Position(t, S) + S] == Complex(lr, li)
  }

  // ---------- Index arithmetic ----------

  lemma PositionAt(b: nat, r: nat, S: nat)
    requires r < S
    ensures Position(S * b + r, S) == 2 * S * b + r && (S * b + r) / S == b
  {
    DivModUnique(S * b + r, S, b, r);
  }

  lemma Products(S: nat, b: nat)
    ensures S * (2 * b) == 2 * (S * b) && S * (2 * b + 1) == 2 * (S * b) + S
    ensures 2 * S * b == 2 * (S * b) && 2 * S * (2 * b) == 4 * (S * b)
    ensures 2 * S * (2 * b + 1) == 4 * (S * b) + 2 * S && 2 * (2 * S) * b == 4 * (S * b)
    ensures S * b >= 0
  {
  }

  /** An even block of S is the first half of a block of 2S, an odd one the second half. */
  lemma HalvePositionIn(t: nat, b: nat, r: nat, S: nat)
    requires r < S
    ensures t == 2 * (S * b) + r ==> Position(t, S) == Position(t, 2 * S) && Position(t, S) + S == Position(t + S, 2 * S)
    ensures t == 2 * (S * b) + S + r ==> t >= S && Position(t, S) == Position(t - S, 2 * S) + 2 * S
    ensures t == 2 * (S * b) + S + r ==> Position(t, S) + S == Position(t, 2 * S) + 2 * S
  {
    Products(S, b);
    PositionAt(2 * b, r, S);
    PositionAt(2 * b + 1, r, S);
    PositionAt(b, r, 2 * S);
    PositionAt(b, r + S, 2 * S);
  }

  lemma SplitBlock(t: nat, S: nat) returns (b: nat, r: nat)
    requires S >= 1
    ensures r < S && (t / S) % 2 == 0 ==> t == 2 * (S * b) + r
    ensures r < S && (t / S) % 2 == 1 ==> t == 2 * (S * b) + S + r
    ensures r < S
  {
    var c := t / S;
    b, r := c / 2, t % S;
    Products(S, b);
    assert t == S * c + r;
    assert c == 2 * b || c == 2 * b + 1;
  }

  predicate InOddBlock(t: nat, S: nat)
    requires S >= 1
  {
    (t / S) % 2 == 1
  }

  /** Halving the block size: where the lanes of the two wings come from. */
  lemma HalvePosition(t: nat, S: nat)
    requires S >= 1
    ensures !InOddBlock(t, S) ==> Position(t, S) == Position(t, 2 * S) && Position(t, S) + S == Position(t + S, 2 * S)
    ensures InOddBlock(t, S) ==> t >= S && Position(t, S) == Position(t - S, 2 * S) + 2 * S
    ensures InOddBlock(t, S) ==> Position(t, S) + S == Position(t, 2 * S) + 2 * S
  {
    var b, r := SplitBlock(t, S);
    HalvePositionIn(t, b, r, S);
  }

  lemma EvenBlockEnd(t: nat, S: nat, q: nat)
    requires S >= 1 && t < 2 * S * q && !InOddBlock(t, S)
    ensures t + S < 2 * S * q
  {
    var b, r := SplitBlock(t, S);
    Products(S, b);
    DivModUnique(t, 2 * S, b, r);
    MulDivMod(q, 2 * S);
    BlockBelow(t, 2 * S * q, 2 * S);
  }

  // ---------- One stage ----------

  /** Twiddle t of stage s: w to the power (2^s · t) mod (N / 2). */
  ghost predicate StageTwiddles<T>(R: Ring<Complex<T>>, re: seq<T>, im: seq<T>, w: Complex<T>, L: nat, H: nat) {
    && |re| == |im| == H
    && forall t: nat {:trigger re[t]} {:trigger im[t]} :: t < H ==> Complex(re[t], im[t]) == Pow(R, w, (L * t) % H)
  }

  lemma TwiddleExponent(t: nat, S: nat, L: nat)
    requires S >= 1 && L >= 1
    ensures (L * t) % (S * L) == (t % S) * L
  {
    var b, r := t / S, t % S;
    assert t == S * b + r;
    assert L * t == (S * L) * b + r * L;
    MulLe(L, r + 1, S);
    assert L * (r + 1) == r * L + L && L * S == S * L;
    assert r * L >= 0;
    DivModUnique(L * t, S * L, b, r * L);
  }

  /** Adding the wings, and twiddling their difference, is one layer of the in-place transform. */
  lemma StageIsLayer<T(!new)>(K: Ring<T>, y: seq<Complex<T>>, S: nat, L: nat, w: Complex<T>, tw: seq<Complex<T>>, t: nat,
                              a: Complex<T>, b: Complex<T>)
    requires CommRing(K) && S >= 1 && L >= 1 && |y| == 2 * (S * L) && t < S * L
    requires IsTwiddles(ComplexOver(K), tw, w, S * L)
    requires Position(t, S) + S < |y| && y[Position(t, S)] == a && y[Position(t, S) + S] == b
    ensures var z := Layer(DifButterfly(ComplexOver(K)), y, S, L, tw);
            && z[Position(t, S)] == Add(ComplexOver(K), a, b)
            && z[Position(t, S) + S] == Mul(ComplexOver(K), Sub(ComplexOver(K), a, b), Pow(ComplexOver(K), w, (L * t) % (S * L)))
  {
    hide CommRing, Layer, LayerAt, Add, Mul, Sub, Pow;
    var R := ComplexOver(K);
    ComplexIsCommRing(K);
    TwiddleExponent(t, S, L);
    TwiddleStep(S, L, |tw|, t % S);
    MulLe(L, t % S + 1, S);
    assert L * (t % S + 1) == (t % S) * L + L;
    ButterflyAt(DifButterfly(R), y, S, L, tw, t % S, t / S);
    LayerElement(DifButterfly(R), y, S, L, tw, Position(t, S));
    LayerElement(DifButterfly(R), y, S, L, tw, Position(t, S) + S);
  }

  // ---------- The registers of one stage ----------

  /** s = u + l and p = (u - l)·tw, real and imaginary parts in separate registers. */
  ghost predicate AreButterflies<T>(K: Ring<T>, ur: seq<T>, ui: seq<T>, lr: seq<T>, li: seq<T>, twRe: seq<T>, twIm: seq<T>,
                                    sr: seq<T>, si: seq<T>, pr: seq<T>, pi: seq<T>, H: nat)
    requires |ur| == |ui| == |lr| == |li| == |twRe| == |twIm| == H
  {
    && |sr| == |si| == |pr| == |pi| == H
    && (forall t: nat {:trigger sr[t]} :: t < H ==> sr[t] == Add(K, ur[t], lr[t]))
    && (forall t: nat {:trigger si[t]} :: t < H ==> si[t] == Add(K, ui[t], li[t]))
    && (forall t: nat {:trigger pr[t]} :: t < H ==>
         pr[t] == Sub(K, Mul(K, Sub(K, ur[t], lr[t]), twRe[t]), Mul(K, Sub(K, ui[t], li[t]), twIm[t])))
    && (forall t: nat {:trigger pi[t]} :: t < H ==>
         pi[t] == Add(K, Mul(K, Sub(K, ur[t], lr[t]), twIm[t]), Mul(K, Sub(K, ui[t], li[t]), twRe[t])))
  }

  lemma StageSums<T(!new)>(K: Ring<T>, y: seq<Complex<T>>, S: nat, L: nat, w: Complex<T>, tw: seq<Complex<T>>, H: nat,
                           ur: seq<T>, ui: seq<T>, lr: seq<T>, li: seq<T>, twRe: seq<T>, twIm: seq<T>,
                           sr: seq<T>, si: seq<T>, pr: seq<T>, pi: seq<T>)
    requires CommRing(K) && S >= 1 && L >= 1 && H == S * L
    requires IsTwiddles(ComplexOver(K), tw, w, H) && StageTwiddles(ComplexOver(K), twRe, twIm, w, L, H)
    requires Wings(ur, ui, lr, li, y, S, H)
    requires AreButterflies(K, ur, ui, lr, li, twRe, twIm, sr, si, pr, pi, H)
    ensures Wings(sr, si, pr, pi, Layer(DifButterfly(ComplexOver(K)), y, S, L, tw), S, H)
  {
    var R, z := ComplexOver(K), Layer(DifButterfly(ComplexOver(K)), y, S, L, tw);
    forall t: nat | t < H ensures LaneOk(sr[t], si[t], pr[t], pi[t], z, t, S) {
      var a, b := Complex(ur[t], ui[t]), Complex(lr[t], li[t]);
      assert LaneOk(ur[t], ui[t], lr[t], li[t], y, t, S);
      StageIsLayer(K, y, S, L, w, tw, t, a, b);
      ComplexOps(K, a, b);
      ComplexOps(K, Sub(R, a, b), Complex(twRe[t], twIm[t]));
    }
  }

  /** The mask of a stage: the lanes of odd blocks of S. */
  ghost predicate IsMask(m: seq<bool>, S: nat, H: nat)
    requires S >= 1
  {
    |m| == H && forall t: nat {:trigger m[t]} :: t < H ==> m[t] == InOddBlock(t, S)
  }

  /** An unmasked lane never reaches past the end of the wing. */
  lemma MaskBound(m: seq<bool>, S: nat, H: nat, q: nat)
    requires S >= 1 && IsMask(m, S, H) && H == 2 * S * q
    ensures forall t: nat :: t < H && !m[t] ==> t + S < H
    ensures forall t: nat :: t < H && m[t] ==> t >= S
  {
    hide Position, InOddBlock;
    forall t: nat | t < H ensures (!m[t] ==> t + S < H) && (m[t] ==> t >= S) {
      HalvePosition(t, S);
      if !m[t] {
        EvenBlockEnd(t, S, q);
      }
    }
  }

  /** u' and l' are the wings regrouped for half the block size. */
  ghost predicate AreRegrouped<T>(m: seq<bool>, s: seq<T>, p: seq<T>, u': seq<T>, l': seq<T>, S: nat, H: nat) {
    && |m| == |s| == |p| == |u'| == |l'| == H
    && (forall t: nat {:trigger u'[t]} :: t < H ==> u'[t] == if m[t] && t >= S then p[t - S] else s[t])
    && (forall t: nat {:trigger l'[t]} :: t < H ==> l'[t] == if m[t] then p[t] else if t + S < H then s[t + S] else s[t])
  }

  lemma StageRegroup<T>(z: seq<Complex<T>>, S: nat, H: nat, q: nat, m: seq<bool>,
                        sr: seq<T>, si: seq<T>, pr: seq<T>, pi: seq<T>,
                        ur: seq<T>, ui: seq<T>, lr: seq<T>, li: seq<T>)
    requires S >= 1 && H == 2 * S * q && IsMask(m, S, H)
    requires Wings(sr, si, pr, pi, z, 2 * S, H)
    requires AreRegrouped(m, sr, pr, ur, lr, S, H) && AreRegrouped(m, si, pi, ui, li, S, H)
    ensures Wings(ur, ui, lr, li, z, S, H)
  {
    MaskBound(m, S, H, q);
    hide Position, InOddBlock;
    forall t: nat | t < H ensures LaneOk(ur[t], ui[t], lr[t], li[t], z, t, S) {
      HalvePosition(t, S);
      if m[t] {
        assert LaneOk(sr[t], si[t], pr[t], pi[t], z, t, 2 * S);
        assert LaneOk(sr[t - S], si[t - S], pr[t - S], pi[t - S], z, t - S, 2 * S);
      } else {
        assert LaneOk(sr[t], si[t], pr[t], pi[t], z, t, 2 * S);
        assert LaneOk(sr[t + S], si[t + S], pr[t + S], pi[t + S], z, t + S, 2 * S);
      }
    }
  }

  // ---------- From stage to stage ----------

  /** The last in-place layer has no twiddles; the vector kernel multiplies by w^0. */
  lemma LastLayerPlain<T(!new)>(R: Ring<T>, y: seq<T>, L: nat, tw: seq<T>)
    requires CommRing(R) && |y| % 2 == 0 && |tw| >= 1 && tw[0] == R.one
    ensures Layer(DifButterfly(R), y, 1, L, tw) == PairLayer(PlainButterfly(R), R.one, y)
  {
    var z := PairLayer(PlainButterfly(R), R.one, y);
    forall p: nat | p < |y| ensures z[p] == LayerAt(DifButterfly(R), y, 1, L, tw, p) {
      LayerElement(PlainButterfly(R), y, 1, 0, [R.one], p);
      if p % 2 == 1 {
        assert RingLaw(R, Sub(R, y[p - 1], y[p]), R.one, R.one);
      }
    }
    IsLayer(DifButterfly(R), y, 1, L, tw, z);
  }

  /** y is the state of the in-place transform of x before stage s. */
  ghost predicate BeforeStage<T>(R: Ring<T>, x: seq<T>, n: nat, tw: seq<T>, y: seq<T>, s: nat) {
    s <= n && |y| == |x| == Pow2(n) && DifAll(R, y, n - s, Pow2(s), tw) == DifAll(R, x, n, 1, tw)
  }

  lemma NextStage<T(!new)>(R: Ring<T>, x: seq<T>, n: nat, tw: seq<T>, y: seq<T>, s: nat)
    requires CommRing(R) && s < n && BeforeStage(R, x, n, tw, y, s)
    requires |tw| >= 1 && tw[0] == R.one
    ensures BeforeStage(R, x, n, tw, Layer(DifButterfly(R), y, Pow2(n - 1 - s), Pow2(s), tw), s + 1)
  {
    if s == n - 1 {
      LastLayerPlain(R, y, Pow2(s), tw);
    }
  }

  function Zip<T>(re: seq<T>, im: seq<T>): (z: seq<Complex<T>>)
    requires |re| == |im|
    ensures |z| == |re| && forall k :: 0 <= k < |re| ==> z[k] == Complex(re[k], im[k])
  {
    if re == [] then [] else [Complex(re[0], im[0])] + Zip(re[1..], im[1..])
  }

  /** The twiddle tables, stage after stage. */
  ghost predicate AreStageTables<T>(R: Ring<Complex<T>>, re: seq<seq<T>>, im: seq<seq<T>>, w: Complex<T>, n: nat, H: nat) {
    && |re| == |im| == n
    && forall s: nat :: s < n ==> StageTwiddles(R, re[s], im[s], w, Pow2(s), H)
  }

  ghost predicate AreMasks(masks: seq<seq<bool>>, n: nat, H: nat) {
    |masks| >= n - 1 && forall s: nat :: s < n - 1 ==> IsMask(masks[s], Pow2(n - 2 - s), H)
  }

  /** The butterflies of one stage: sums to the upper wing, twiddled differences to the lower. */
  method StageButterflies<T>(K: Ring<T>, ur: seq<T>, ui: seq<T>, lr: seq<T>, li: seq<T>, twRe: seq<T>, twIm: seq<T>)
      returns (sr: seq<T>, si: seq<T>, pr: seq<T>, pi: seq<T>)
    requires |ur| == |ui| == |lr| == |li| == |twRe| == |twIm|
    ensures AreButterflies(K, ur, ui, lr, li, twRe, twIm, sr, si, pr, pi, |ur|)
  {
    sr := VAdd(K, ur, lr);
    si := VAdd(K, ui, li);
    var dr := VSub(K, ur, lr);
    var di := VSub(K, ui, li);
    // cmplx_mul_re_vv
    var buf := VMul(K, dr, twRe);
    pr := VNmsac(K, buf, di, twIm);
    // cmplx_mul_im_vv
    buf := VMul(K, dr, twIm);
    pi := VMacc(K, buf, di, twRe);
  }

  /** First permutation: half a wing changes sides, the slide up needs no mask. */
  method RegroupFirst<T>(m: seq<bool>, s: seq<T>, p: seq<T>, junk: seq<T>, slamt: nat, vl: nat)
      returns (u: seq<T>, l: seq<T>, buf1: seq<T>)
    requires |m| == |s| == |p| == |junk| == vl && slamt >= 1 && vl == 2 * slamt && IsMask(m, slamt, vl)
    ensures AreRegrouped(m, s, p, u, l, slamt, vl) && |buf1| == vl
  {
    MaskBound(m, slamt, vl, 1);
    forall t: nat | t < vl ensures m[t] == (t >= slamt) {
      if t >= slamt {
        DivModUnique(t, slamt, 1, t - slamt);
      }
    }
    var maskBuf := VMaskNot(m);
    buf1 := VSlideDown(maskBuf, junk, s, slamt, vl / 2);
    var all := seq(vl, _ => true);
    u := VSlideUp(all, s, p, slamt);
    l := VMerge(m, buf1, p);
  }

  /** Later permutations: both slides under the mask of the stage. */
  method RegroupLater<T>(m: seq<bool>, s: seq<T>, p: seq<T>, junk: seq<T>, slamt: nat, vl: nat, ghost q: nat)
      returns (u: seq<T>, l: seq<T>, buf1: seq<T>)
    requires |m| == |s| == |p| == |junk| == vl && slamt >= 1 && vl == 2 * slamt * q && IsMask(m, slamt, vl)
    ensures AreRegrouped(m, s, p, u, l, slamt, vl) && |buf1| == vl
  {
    MaskBound(m, slamt, vl, q);
    var maskBuf := VMaskNot(m);
    buf1 := VSlideDown(maskBuf, junk, s, slamt, vl);
    u := VSlideUp(m, s, p, slamt);
    l := VMerge(m, buf1, p);
  }

  lemma StageSizes(n: nat, s: nat)
    requires s + 1 < n
    ensures Pow2(n - 1 - s) == 2 * Pow2(n - 2 - s)
    ensures Pow2(n - 1) == Pow2(n - 1 - s) * Pow2(s)
    ensures Pow2(n - 1) == 2 * Pow2(n - 2 - s) * Pow2(s)
    ensures Pow2(n - 2 - s) == Pow2(n - 1 - s) / 2
  {
    Pow2Add(n - 1 - s, s);
  }

  /** What is stored at index[t] and H + index[t] is the transform at those places. */
  lemma StoredOutput<T>(y: seq<Complex<T>>, ur: seq<T>, ui: seq<T>, lr: seq<T>, li: seq<T>, n: nat, k: nat)
    requires n >= 1 && |y| == Pow2(n) && k < Pow2(n - 1)
    requires Wings(ur, ui, lr, li, y, 1, Pow2(n - 1))
    ensures y[Rev(k, n)] == Complex(ur[Rev(k, n - 1)], ui[Rev(k, n - 1)])
    ensures y[Rev(k + Pow2(n - 1), n)] == Complex(lr[Rev(k, n - 1)], li[Rev(k, n - 1)])
  {
    var t := Rev(k, n - 1);
    RevClearTop(k, n);
    RevSetBit(k, n - 1, n);
    assert LaneOk(ur[t], ui[t], lr[t], li[t], y, t, 1);
  }

  lemma RevIsPermutation(index: seq<nat>, n: nat)
    requires |index| == Pow2(n) && forall t: nat :: t < Pow2(n) ==> index[t] == Rev(t, n)
    ensures IsPermutation(index)
  {
    forall t: nat, u: nat | t < u < |index| ensures index[t] != index[u] {
      RevRev(t, n);
      RevRev(u, n);
    }
  }

  lemma FirstTwiddle<T>(R: Ring<T>, tw: seq<T>, w: T, H: nat)
    requires H >= 1 && IsTwiddles(R, tw, w, H)
    ensures tw[0] == R.one
  {
    assert tw[0] == Pow(R, w, 0);
  }

  /** The half block size before stage s; after the last stage it stays 1. */
  function HalfBlock(n: nat, s: nat): (S: nat)
    ensures S >= 1
  {
    if s < n then Pow2(n - 1 - s) else 1
  }

  /** The loop invariant: the wings hold the state of the in-place transform before stage s. */
  ghost predicate InStep<T>(K: Ring<T>, x: seq<Complex<T>>, tw: seq<Complex<T>>, y: seq<Complex<T>>,
                            ur: seq<T>, ui: seq<T>, lr: seq<T>, li: seq<T>, n: nat, s: nat, H: nat) {
    && Wings(ur, ui, lr, li, y, HalfBlock(n, s), H)
    && BeforeStage(ComplexOver(K), x, n, tw, y, s)
  }

  /** Before the first stage lane t holds samples t and t + H. */
  lemma FirstWings<T>(re: seq<T>, im: seq<T>, H: nat)
    requires H >= 1 && |re| == |im| == 2 * H
    ensures Wings(re[..H], im[..H], re[H..], im[H..], Zip(re, im), H, H)
  {
    forall t: nat | t < H ensures LaneOk(re[..H][t], im[..H][t], re[H..][t], im[H..][t], Zip(re, im), t, H) {
      DivModUnique(t, H, 0, t);
    }
  }

  lemma InitialWings<T>(K: Ring<T>, re: seq<T>, im: seq<T>, tw: seq<Complex<T>>, n: nat, H: nat)
    requires n >= 1 && H == Pow2(n - 1) && |re| == |im| == 2 * H
    ensures InStep(K, Zip(re, im), tw, Zip(re, im), re[..H], im[..H], re[H..], im[H..], n, 0, H)
  {
    hide Wings, DifAll;
    FirstWings(re, im, H);
  }

  /** The butterflies of stage s advance the in-place state, in the layout of stage s. */
  lemma StepButterflies<T(!new)>(K: Ring<T>, x: seq<Complex<T>>, tw: seq<Complex<T>>, w: Complex<T>, y: seq<Complex<T>>, z: seq<Complex<T>>,
                                 ur: seq<T>, ui: seq<T>, lr: seq<T>, li: seq<T>, twRe: seq<T>, twIm: seq<T>,
                                 sr: seq<T>, si: seq<T>, pr: seq<T>, pi: seq<T>, n: nat, s: nat, H: nat)
    requires CommRing(K) && s < n && H == Pow2(n - 1)
    requires IsTwiddles(ComplexOver(K), tw, w, H) && StageTwiddles(ComplexOver(K), twRe, twIm, w, Pow2(s), H)
    requires InStep(K, x, tw, y, ur, ui, lr, li, n, s, H)
    requires AreButterflies(K, ur, ui, lr, li, twRe, twIm, sr, si, pr, pi, H)
    requires z == Layer(DifButterfly(ComplexOver(K)), y, Pow2(n - 1 - s), Pow2(s), tw)
    ensures Wings(sr, si, pr, pi, z, Pow2(n - 1 - s), H)
    ensures BeforeStage(ComplexOver(K), x, n, tw, z, s + 1)
  {
    Pow2Add(n - 1 - s, s);
    StageSums(K, y, Pow2(n - 1 - s), Pow2(s), w, tw, H, ur, ui, lr, li, twRe, twIm, sr, si, pr, pi);
    ComplexIsCommRing(K);
    FirstTwiddle(ComplexOver(K), tw, w, H);
    NextStage(ComplexOver(K), x, n, tw, y, s);
  }

  lemma StepRegroup<T>(K: Ring<T>, x: seq<Complex<T>>, tw: seq<Complex<T>>, z: seq<Complex<T>>, m: seq<bool>,
                       sr: seq<T>, si: seq<T>, pr: seq<T>, pi: seq<T>,
                       ur: seq<T>, ui: seq<T>, lr: seq<T>, li: seq<T>, n: nat, s: nat, H: nat)
    requires s + 1 < n && H == Pow2(n - 1) && IsMask(m, Pow2(n - 2 - s), H)
    requires Wings(sr, si, pr, pi, z, Pow2(n - 1 - s), H)
    requires BeforeStage(ComplexOver(K), x, n, tw, z, s + 1)
    requires AreRegrouped(m, sr, pr, ur, lr, Pow2(n - 2 - s), H) && AreRegrouped(m, si, pi, ui, li, Pow2(n - 2 - s), H)
    ensures InStep(K, x, tw, z, ur, ui, lr, li, n, s + 1, H)
  {
    StageSizes(n, s);
    StageRegroup(z, Pow2(n - 2 - s), H, Pow2(s), m, sr, si, pr, pi, ur, ui, lr, li);
  }

  /** The first butterfly stage and the first permutation. */
  method FirstStage<T(!new)>(K: Ring<T>, ur: seq<T>, ui: seq<T>, lr: seq<T>, li: seq<T>, twRe: seq<T>, twIm: seq<T>,
                             mask: seq<bool>, junkRe: seq<T>, junkIm: seq<T>, slamt: nat, vl: nat,
                             ghost x: seq<Complex<T>>, ghost tw: seq<Complex<T>>, ghost w: Complex<T>, ghost n: nat)
      returns (ur': seq<T>, ui': seq<T>, lr': seq<T>, li': seq<T>, bufRe: seq<T>, bufIm: seq<T>, ghost y': seq<Complex<T>>)
    requires CommRing(K) && n >= 2 && vl == Pow2(n - 1) && slamt == Pow2(n - 2) && |junkRe| == |junkIm| == vl
    requires IsTwiddles(ComplexOver(K), tw, w, vl) && StageTwiddles(ComplexOver(K), twRe, twIm, w, 1, vl)
    requires IsMask(mask, slamt, vl) && InStep(K, x, tw, x, ur, ui, lr, li, n, 0, vl)
    ensures InStep(K, x, tw, y', ur', ui', lr', li', n, 1, vl) && |bufRe| == |bufIm| == vl
  {
    var sr, si, pr, pi := StageButterflies(K, ur, ui, lr, li, twRe, twIm);
    y' := Layer(DifButterfly(ComplexOver(K)), x, Pow2(n - 1), 1, tw);
    StepButterflies(K, x, tw, w, x, y', ur, ui, lr, li, twRe, twIm, sr, si, pr, pi, n, 0, vl);
    ur', lr', bufRe := RegroupFirst(mask, sr, pr, junkRe, slamt, vl);
    ui', li', bufIm := RegroupFirst(mask, si, pi, junkIm, slamt, vl);
    StepRegroup(K, x, tw, y', mask, sr, si, pr, pi, ur', ui', lr', li', n, 0, vl);
  }

  /** A later butterfly stage; only the last one is not followed by a permutation. */
  method LaterStage<T(!new)>(K: Ring<T>, ur: seq<T>, ui: seq<T>, lr: seq<T>, li: seq<T>, twRe: seq<T>, twIm: seq<T>,
                             masks: seq<seq<bool>>, junkRe: seq<T>, junkIm: seq<T>, slamt: nat, vl: nat, i: nat, log2N: nat,
                             ghost x: seq<Complex<T>>, ghost y: seq<Complex<T>>, ghost tw: seq<Complex<T>>, ghost w: Complex<T>)
      returns (ur': seq<T>, ui': seq<T>, lr': seq<T>, li': seq<T>, bufRe: seq<T>, bufIm: seq<T>, ghost y': seq<Complex<T>>)
    requires CommRing(K) && 1 <= i < log2N && vl == Pow2(log2N - 1) && |junkRe| == |junkIm| == vl
    requires i + 1 < log2N ==> slamt == Pow2(log2N - 2 - i)
    requires IsTwiddles(ComplexOver(K), tw, w, vl) && StageTwiddles(ComplexOver(K), twRe, twIm, w, Pow2(i), vl)
    requires AreMasks(masks, log2N, vl) && InStep(K, x, tw, y, ur, ui, lr, li, log2N, i, vl)
    ensures InStep(K, x, tw, y', ur', ui', lr', li', log2N, i + 1, vl) && |bufRe| == |bufIm| == vl
  {
    ghost var n := log2N;
    var sr, si, pr, pi := StageButterflies(K, ur, ui, lr, li, twRe, twIm);
    y' := Layer(DifButterfly(ComplexOver(K)), y, Pow2(n - 1 - i), Pow2(i), tw);
    StepButterflies(K, x, tw, w, y, y', ur, ui, lr, li, twRe, twIm, sr, si, pr, pi, n, i, vl);
    if i != log2N - 1 {
      StageSizes(n, i);
      ur', lr', bufRe := RegroupLater(masks[i], sr, pr, junkRe, slamt, vl, Pow2(i));
      ui', li', bufIm := RegroupLater(masks[i], si, pi, junkIm, slamt, vl, Pow2(i));
      StepRegroup(K, x, tw, y', masks[i], sr, si, pr, pi, ur', ui', lr', li', n, i, vl);
    } else {
      ur', ui', lr', li', bufRe, bufIm := sr, si, pr, pi, junkRe, junkIm;
    }
  }

  /** `fft_r2dif_vec` up to the indexed stores. */
  method RunStages<T(!new)>(K: Ring<T>, re: seq<T>, im: seq<T>, twRe: seq<seq<T>>, twIm: seq<seq<T>>, masks: seq<seq<bool>>, junk: seq<T>,
                            vl: nat, ghost tw: seq<Complex<T>>, ghost w: Complex<T>, ghost n: nat)
      returns (ur: seq<T>, ui: seq<T>, lr: seq<T>, li: seq<T>)
    requires CommRing(K) && n >= 2 && vl == Pow2(n - 1) && |re| == |im| == 2 * vl && |junk| == vl
    requires IsTwiddles(ComplexOver(K), tw, w, vl) && AreStageTables(ComplexOver(K), twRe, twIm, w, n, vl)
    requires AreMasks(masks, n, vl)
    ensures Wings(ur, ui, lr, li, DifAll(ComplexOver(K), Zip(re, im), n, 1, tw), 1, vl)
  {
    hide Wings, BeforeStage, HalfBlock, StageTwiddles, IsTwiddles, CommRing, IsMask;
    Log2OfPow2(n);
    ghost var x, y := Zip(re, im), Zip(re, im);
    var log2N := Log2(2 * vl);
    var slamt := vl / 2;
    var bufRe, bufIm := junk, junk;
    InitialWings(K, re, im, tw, n, vl);
    ur, ui, lr, li, bufRe, bufIm, y := FirstStage(K, re[..vl], im[..vl], re[vl..], im[vl..], twRe[0], twIm[0],
                                                  masks[0], junk, junk, slamt, vl, x, tw, w, n);
    for i := 1 to log2N
      invariant i < n ==> slamt == Pow2(n - 1 - i)
      invariant |bufRe| == |bufIm| == vl
      invariant InStep(K, x, tw, y, ur, ui, lr, li, n, i, vl)
    {
      slamt := slamt / 2;
      if i + 1 < n {
        StageSizes(n, i);
      }
      ur, ui, lr, li, bufRe, bufIm, y := LaterStage(K, ur, ui, lr, li, twRe[i], twIm[i],
                                                    masks, bufRe, bufIm, slamt, vl, i, log2N, x, y, tw, w);
    }
    LastStage(ComplexOver(K), x, n, tw, y);
  }

  /** After the last stage the wings hold the transform in bit-reversed order. */
  lemma LastStage<T>(R: Ring<T>, x: seq<T>, n: nat, tw: seq<T>, y: seq<T>)
    requires BeforeStage(R, x, n, tw, y, n)
    ensures y == DifAll(R, x, n, 1, tw) && HalfBlock(n, n) == 1
  {
  }

  /** Out of bit-reversed order: what SwapSamples makes of y. */
  ghost predicate Unscrambled<T>(y: seq<T>, n: nat, out: seq<T>) {
    |out| == |y| == Pow2(n) && forall k: nat :: k < Pow2(n) ==> Rev(k, n) < |y| && out[k] == y[Rev(k, n)]
  }

  /** The indexed stores put every element of the wings where it belongs. */
  lemma StoresUnscramble<T>(y: seq<Complex<T>>, ur: seq<T>, ui: seq<T>, lr: seq<T>, li: seq<T>, n: nat, out: seq<Complex<T>>)
    requires n >= 1 && |out| == |y| == Pow2(n) && Wings(ur, ui, lr, li, y, 1, Pow2(n - 1))
    requires forall t: nat :: t < Pow2(n - 1) ==> out[Rev(t, n - 1)] == Complex(ur[t], ui[t])
    requires forall t: nat :: t < Pow2(n - 1) ==> out[Pow2(n - 1) + Rev(t, n - 1)] == Complex(lr[t], li[t])
    ensures Unscrambled(y, n, out)
  {
    hide LaneOk, Rev, Pow2;
    Pow2Step(n);
    var H := Pow2(n - 1);
    forall k: nat | k < Pow2(n) ensures Rev(k, n) < |y| && out[k] == y[Rev(k, n)] {
      var j := if k < H then k else k - H;
      var t := Rev(j, n - 1);
      RevRev(j, n - 1);
      assert out[Rev(t, n - 1)] == Complex(ur[t], ui[t]);
      assert out[H + Rev(t, n - 1)] == Complex(lr[t], li[t]);
      StoredOutput(y, ur, ui, lr, li, n, j);
    }
  }

  /** For a root of unity that is the transform. */
  lemma StoredTransform<T(!new)>(R: Ring<T>, x: seq<T>, tw: seq<T>, w: T, n: nat, out: seq<T>)
    requires CommRing(R) && n >= 1 && |x| == Pow2(n) && IsRoot(R, w, n) && IsTwiddles(R, tw, w, Pow2(n - 1))
    requires Unscrambled(DifAll(R, x, n, 1, tw), n, out)
    ensures Dft.IsTransform(R, x, w, out)
  {
    FirstPower(R, w);
    assert Tables(R, n, 1, tw, w);
    hide IsRoot, IsTwiddles, Tables, CommRing;
    forall k: nat | k < |x| ensures out[k] == Dft.At(R, x, w, k) {
      DifIsDft(R, x, n, 1, tw, w, k);
    }
    Dft.OutputsAreTransform(R, x, w, out);
  }

  /**
    `fft_r2dif_vec`.  Half the samples must fit a register, and there must be at least four samples:
    the first permutation runs unconditionally.  With any powers of w for twiddles it leaves what the
    in-place kernel and SwapSamples leave; with a root of unity that is the transform.
   */
  method FftR2DifVec<T(!new)>(K: Ring<T>, re: array<T>, im: array<T>, twRe: seq<seq<T>>, twIm: seq<seq<T>>, masks: seq<seq<bool>>,
                              index: seq<nat>, junk: seq<T>, vlmax: nat, ghost w: Complex<T>, ghost n: nat)
    requires CommRing(K) && n >= 2 && re.Length == im.Length == Pow2(n) && re != im && Pow2(n - 1) <= vlmax
    requires AreStageTables(ComplexOver(K), twRe, twIm, w, n, Pow2(n - 1))
    requires AreMasks(masks, n, Pow2(n - 1)) && |junk| == Pow2(n - 1)
    requires |index| == Pow2(n - 1) && forall t: nat :: t < Pow2(n - 1) ==> index[t] == Rev(t, n - 1)
    modifies re, im
    ensures Unscrambled(DifAll(ComplexOver(K), old(Zip(re[..], im[..])), n, 1, Powers(ComplexOver(K), w, Pow2(n - 1))),
                        n, Zip(re[..], im[..]))
    ensures IsRoot(ComplexOver(K), w, n) ==> Dft.IsTransform(ComplexOver(K), old(Zip(re[..], im[..])), w, Zip(re[..], im[..]))
  {
    hide CommRing, Unscrambled, DifAll, LaneOk, WingsStored, IsRoot, Dft.IsTransform, AreStageTables, AreMasks, Rev;
    var vl := SetVl(re.Length / 2, vlmax);
    ghost var x, tw := Zip(re[..], im[..]), Powers(ComplexOver(K), w, vl);
    var ur, ui, lr, li := RunStages(K, re[..], im[..], twRe, twIm, masks, junk, vl, tw, w, n);
    RevIsPermutation(index, n - 1);
    StoreWings(re, im, index, ur, ui, lr, li, vl);
    FinalOrder(DifAll(ComplexOver(K), x, n, 1, tw), ur, ui, lr, li, n, re[..], im[..], index);
    FinalTransform(K, x, tw, w, n, Zip(re[..], im[..]));
  }

  lemma FinalTransform<T(!new)>(K: Ring<T>, x: seq<Complex<T>>, tw: seq<Complex<T>>, w: Complex<T>, n: nat, out: seq<Complex<T>>)
    requires CommRing(K) && n >= 1 && |x| == Pow2(n) && IsTwiddles(ComplexOver(K), tw, w, Pow2(n - 1))
    requires Unscrambled(DifAll(ComplexOver(K), x, n, 1, tw), n, out)
    ensures IsRoot(ComplexOver(K), w, n) ==> Dft.IsTransform(ComplexOver(K), x, w, out)
  {
    hide IsTwiddles, IsRoot, Unscrambled, Dft.IsTransform;
    if IsRoot(ComplexOver(K), w, n) {
      ComplexIsCommRing(K);
      StoredTransform(ComplexOver(K), x, tw, w, n, out);
    }
  }

  lemma FinalOrder<T>(y: seq<Complex<T>>, ur: seq<T>, ui: seq<T>, lr: seq<T>, li: seq<T>, n: nat, re: seq<T>, im: seq<T>, index: seq<nat>)
    requires n >= 1 && |y| == |re| == |im| == Pow2(n) && |index| == Pow2(n - 1) && Wings(ur, ui, lr, li, y, 1, Pow2(n - 1))
    requires forall t: nat :: t < Pow2(n - 1) ==> index[t] == Rev(t, n - 1)
    requires WingsStored(re, im, index, ur, ui, lr, li, Pow2(n - 1))
    ensures Unscrambled(y, n, Zip(re, im))
  {
    hide Pow2, Rev, Unscrambled, LaneOk;
    Pow2Step(n);
    var out, H := Zip(re, im), Pow2(n - 1);
    forall t: nat | t < H
      ensures out[Rev(t, n - 1)] == Complex(ur[t], ui[t]) && out[H + Rev(t, n - 1)] == Complex(lr[t], li[t])
    {
      assert re[index[t]] == ur[t];
    }
    StoresUnscramble(y, ur, ui, lr, li, n, out);
  }

  /** Lane t of the upper wing sits at index[t], lane t of the lower wing vl behind. */
  ghost predicate WingsStored<T>(re: seq<T>, im: seq<T>, index: seq<nat>, ur: seq<T>, ui: seq<T>, lr: seq<T>, li: seq<T>, vl: nat)
  {
    && |index| == |ur| == |ui| == |lr| == |li| == vl && |re| == |im| == 2 * vl
    && forall t {:trigger index[t]} :: 0 <= t < vl ==>
         && index[t] < vl && re[index[t]] == ur[t] && im[index[t]] == ui[t]
         && re[vl + index[t]] == lr[t] && im[vl + index[t]] == li[t]
  }

  /** The four indexed stores: the upper wing to the first half, the lower wing behind it. */
  method StoreWings<T>(re: array<T>, im: array<T>, index: seq<nat>, ur: seq<T>, ui: seq<T>, lr: seq<T>, li: seq<T>, vl: nat)
    requires |index| == |ur| == |ui| == |lr| == |li| == vl && re.Length == im.Length == 2 * vl && re != im
    requires IsPermutation(index)
    modifies re, im
    ensures WingsStored(re[..], im[..], index, ur, ui, lr, li, vl)
  {
    VStoreIndexed(re, 0, index, ur);
    VStoreIndexed(im, 0, index, ui);
    forall t | 0 <= t < vl ensures re[index[t]] == ur[t] && im[index[t]] == ui[t] {
      assert re[0 + index[t]] == ur[t] && im[0 + index[t]] == ui[t];
    }
    VStoreIndexed(re, vl, index, lr);
    VStoreIndexed(im, vl, index, li);
  }
}
