/**
  One layer of radix-2 butterflies over an array, as the loop nests of the FFT kernels run it:
  blocks of 2M samples, sample t of a block paired with sample t + M, twiddle t·L.
 */
module Butterflies {
  import opened Arith

  /** The two outputs of a butterfly, from its two inputs and its twiddle factor. */
  datatype Butterfly<!T> = Butterfly(up: (T, T, T) -> T, low: (T, T, T) -> T)

  function Up<T>(f: Butterfly<T>, a: T, b: T, w: T): T { (f.up)(a, b, w) }

  function Low<T>(f: Butterfly<T>, a: T, b: T, w: T): T { (f.low)(a, b, w) }

  /** Element q, or d outside the sequence; the loops below prove that they stay inside. */
  function At<T>(s: seq<T>, q: int, d: T): T {
    if 0 <= q < |s| then s[q] else d
  }

  /** Sample p after one layer. */
  function LayerAt<T>(f: Butterfly<T>, x: seq<T>, M: nat, L: nat, tw: seq<T>, p: nat): T
    requires M >= 1 && p < |x|
  {
    LaneOf(f, x, M, L, tw, p, p % (2 * M))
  }

  /** Sample p, which is sample r of its block. */
  function LaneOf<T>(f: Butterfly<T>, x: seq<T>, M: nat, L: nat, tw: seq<T>, p: nat, r: nat): T
    requires p < |x|
  {
    if r < M then Up(f, x[p], At(x, p + M, x[p]), At(tw, r * L, x[p]))
    else Low(f, At(x, p - M, x[p]), x[p], At(tw, (r - M) * L, x[p]))
  }

  function LayerTo<T>(f: Butterfly<T>, x: seq<T>, M: nat, L: nat, tw: seq<T>, n: nat): (y: seq<T>)
    requires M >= 1 && n <= |x|
    ensures |y| == n
  {
    if n == 0 then [] else LayerTo(f, x, M, L, tw, n - 1) + [LayerAt(f, x, M, L, tw, n - 1)]
  }

  /** All samples after one layer. */
  function Layer<T>(f: Butterfly<T>, x: seq<T>, M: nat, L: nat, tw: seq<T>): (y: seq<T>)
    requires M >= 1
    ensures |y| == |x|
  {
    LayerTo(f, x, M, L, tw, |x|)
  }

  lemma {:induction false} LayerToElement<T>(f: Butterfly<T>, x: seq<T>, M: nat, L: nat, tw: seq<T>, n: nat, p: nat)
    requires M >= 1 && p < n <= |x|
    ensures LayerTo(f, x, M, L, tw, n)[p] == LayerAt(f, x, M, L, tw, p)
  {
    if p == n - 1 {
    } else {
      LayerToElement(f, x, M, L, tw, n - 1, p);
    }
  }

  lemma LayerElement<T>(f: Butterfly<T>, x: seq<T>, M: nat, L: nat, tw: seq<T>, p: nat)
    requires M >= 1 && p < |x|
    ensures Layer(f, x, M, L, tw)[p] == LayerAt(f, x, M, L, tw, p)
  {
    LayerToElement(f, x, M, L, tw, |x|, p);
  }

  /** A sequence with the elements of the layer is the layer. */
  lemma IsLayer<T>(f: Butterfly<T>, x: seq<T>, M: nat, L: nat, tw: seq<T>, y: seq<T>)
    requires M >= 1 && |y| == |x|
    requires forall p: nat :: p < |x| ==> y[p] == LayerAt(f, x, M, L, tw, p)
    ensures y == Layer(f, x, M, L, tw)
  {
    forall p: nat | p < |x| ensures y[p] == Layer(f, x, M, L, tw)[p] {
      LayerElement(f, x, M, L, tw, p);
    }
  }

  /** The layer of neighbouring pairs, whose twiddle factors are all (1, 0). */
  function PairLayer<T>(f: Butterfly<T>, one: T, x: seq<T>): (y: seq<T>)
    ensures |y| == |x|
  {
    Layer(f, x, 1, 0, [one])
  }

  lemma InBlock(M: nat, q: nat, p: nat)
    requires M >= 1 && p < 2 * M * q
    ensures p % (2 * M) < M ==> p + M < 2 * M * q
    ensures p % (2 * M) >= M ==> p >= M
  {
    MulDivMod(q, 2 * M);
    BlockBelow(p, 2 * M * q, 2 * M);
  }

  /** A layer acts on each run of whole blocks separately. */
  lemma LayerConcat<T>(f: Butterfly<T>, x: seq<T>, y: seq<T>, M: nat, L: nat, tw: seq<T>, q: nat)
    requires M >= 1 && |x| == 2 * M * q
    ensures Layer(f, x + y, M, L, tw) == Layer(f, x, M, L, tw) + Layer(f, y, M, L, tw)
  {
    var z, l := x + y, Layer(f, x, M, L, tw) + Layer(f, y, M, L, tw);
    forall p: nat | p < |z| ensures l[p] == LayerAt(f, z, M, L, tw, p) {
      if p < |x| {
        InBlock(M, q, p);
        LayerElement(f, x, M, L, tw, p);
      } else {
        LayerAtShift(f, x, y, M, L, tw, q, p - |x|);
        LayerElement(f, y, M, L, tw, p - |x|);
      }
    }
    IsLayer(f, z, M, L, tw, l);
  }

  lemma {:induction false} LayerAtShift<T>(f: Butterfly<T>, x: seq<T>, y: seq<T>, M: nat, L: nat, tw: seq<T>, q: nat, p: nat)
    requires M >= 1 && |x| == 2 * M * q && p < |y|
    ensures LayerAt(f, x + y, M, L, tw, |x| + p) == LayerAt(f, y, M, L, tw, p)
  {
    var r := p % (2 * M);
    ShiftInBlock(M, q, p);
    LaneShift(f, x, y, M, L, tw, p, r);
    hide LaneOf;
  }

  lemma ShiftInBlock(M: nat, q: nat, p: nat)
    requires M >= 1
    ensures (2 * M * q + p) % (2 * M) == p % (2 * M) <= p
  {
    ShiftByBlocks(2 * M, q, p);
  }

  lemma ShiftByBlocks(d: nat, q: nat, p: nat)
    requires d >= 1
    ensures (d * q + p) % d == p % d <= p
  {
    MulDivMod(q, d);
    ShiftMod(p, d * q, d);
  }

  lemma LaneShift<T>(f: Butterfly<T>, x: seq<T>, y: seq<T>, M: nat, L: nat, tw: seq<T>, p: nat, r: nat)
    requires p < |y| && r <= p
    ensures LaneOf(f, x + y, M, L, tw, |x| + p, r) == LaneOf(f, y, M, L, tw, p, r)
  {
    hide Up, Low;
  }

  // ---------- The loop nest ----------

  /** Position p is finished once c2 offsets are done in every block, and offset c2 in the first c3 blocks. */
  predicate Done(p: nat, M: nat, c2: nat, c3: nat)
    requires M >= 1
  {
    var r := p % (2 * M);
    var t := if r < M then r else r - M;
    t < c2 || (t == c2 && p / (2 * M) < c3)
  }

  /** The two positions of butterfly (c2, c3) are the only ones it finishes. */
  lemma DoneStep(p: nat, M: nat, c2: nat, c3: nat)
    requires M >= 1 && c2 < M
    ensures var a := c2 + 2 * M * c3;
            Done(p, M, c2, c3 + 1) <==> Done(p, M, c2, c3) || p == a || p == a + M
    ensures var a := c2 + 2 * M * c3;
            p == a || p == a + M ==> !Done(p, M, c2, c3)
  {
    var a := c2 + 2 * M * c3;
    DivModUnique(a, 2 * M, c3, c2);
    DivModUnique(a + M, 2 * M, c3, c2 + M);
    var r, b := p % (2 * M), p / (2 * M);
    assert p == 2 * M * b + r;
  }

  lemma BlockBound(M: nat, L: nat, c2: nat, c3: nat)
    requires c2 < M && c3 < L
    ensures c2 + 2 * M * c3 + M < 2 * M * L
    ensures 2 * M * (c3 + 1) == 2 * M * c3 + 2 * M
  {
    MulLe(2 * M, c3 + 1, L);
  }

  lemma BlocksDone(p: nat, M: nat, L: nat, c2: nat)
    requires M >= 1 && p < 2 * M * L
    ensures Done(p, M, c2, L) == Done(p, M, c2 + 1, 0)
  {
    MulDivMod(L, 2 * M);
    BlockBelow(p, 2 * M * L, 2 * M);
  }

  lemma TwiddleStep(M: nat, L: nat, t: nat, c2: nat)
    requires c2 < M && M * L <= t && L >= 1
    ensures 0 <= c2 * L < t && (c2 + 1) * L == c2 * L + L
  {
    MulLe(L, c2 + 1, M);
  }

  /** Butterfly (c2, c3) computes both of its outputs from its two inputs. */
  lemma {:induction false} ButterflyAt<T>(f: Butterfly<T>, x: seq<T>, M: nat, L: nat, tw: seq<T>, c2: nat, c3: nat)
    requires M >= 1 && c2 < M && c2 + 2 * M * c3 + M < |x| && 0 <= c2 * L < |tw|
    ensures var a := c2 + 2 * M * c3;
            LayerAt(f, x, M, L, tw, a) == Up(f, x[a], x[a + M], tw[c2 * L])
    ensures var a := c2 + 2 * M * c3;
            LayerAt(f, x, M, L, tw, a + M) == Low(f, x[a], x[a + M], tw[c2 * L])
  {
    var a, q := c2 + 2 * M * c3, c2 * L;
    DivModUnique(a, 2 * M, c3, c2);
    DivModUnique(a + M, 2 * M, c3, c2 + M);
    hide Up, Low;
    assert a % (2 * M) == c2 && (a + M) % (2 * M) - M == c2;
    assert At(tw, q, x[a]) == tw[q] == At(tw, q, x[a + M]);
  }

  /** In the first block, sample j meets sample j + M and twiddle j·L. */
  lemma FirstBlock<T>(f: Butterfly<T>, x: seq<T>, M: nat, L: nat, tw: seq<T>, j: nat)
    requires M >= 1 && j < M && j + M < |x| && 0 <= j * L < |tw|
    ensures Layer(f, x, M, L, tw)[j] == Up(f, x[j], x[j + M], tw[j * L])
    ensures Layer(f, x, M, L, tw)[j + M] == Low(f, x[j], x[j + M], tw[j * L])
  {
    ButterflyAt(f, x, M, L, tw, j, 0);
    LayerElement(f, x, M, L, tw, j);
    LayerElement(f, x, M, L, tw, j + M);
  }

  /** y is x with the finished positions replaced by their new values. */
  ghost predicate Finished<T>(f: Butterfly<T>, x: seq<T>, y: seq<T>, M: nat, L: nat, tw: seq<T>, c2: nat, c3: nat)
    requires M >= 1
  {
    |y| == |x| &&
    forall p: nat {:trigger y[p]} :: p < |x| ==> y[p] == if Done(p, M, c2, c3) then LayerAt(f, x, M, L, tw, p) else x[p]
  }

  lemma FinishOne<T>(f: Butterfly<T>, x: seq<T>, y: seq<T>, y': seq<T>, M: nat, L: nat, tw: seq<T>, c2: nat, c3: nat)
    requires M >= 1 && c2 < M && c2 + 2 * M * c3 + M < |x| && 0 <= c2 * L < |tw|
    requires Finished(f, x, y, M, L, tw, c2, c3)
    requires var a := c2 + 2 * M * c3;
             y' == y[a := Up(f, y[a], y[a + M], tw[c2 * L])][a + M := Low(f, y[a], y[a + M], tw[c2 * L])]
    ensures Finished(f, x, y', M, L, tw, c2, c3 + 1)
  {
    var a := c2 + 2 * M * c3;
    ButterflyAt(f, x, M, L, tw, c2, c3);
    DoneStep(a, M, c2, c3);
    DoneStep(a + M, M, c2, c3);
    hide LayerAt, Done, Up, Low;
    forall p: nat | p < |x|
      ensures Done(p, M, c2, c3 + 1) <==> Done(p, M, c2, c3) || p == a || p == a + M
    {
      DoneStep(p, M, c2, c3);
    }
    FinishTwo(f, x, y, y', M, L, tw, c2, c3, a, a + M);
  }

  lemma FinishTwo<T>(f: Butterfly<T>, x: seq<T>, y: seq<T>, y': seq<T>, M: nat, L: nat, tw: seq<T>, c2: nat, c3: nat, a: nat, b: nat)
    requires M >= 1 && a != b && a < |x| && b < |x| && Finished(f, x, y, M, L, tw, c2, c3)
    requires forall p: nat :: p < |x| ==> (Done(p, M, c2, c3 + 1) <==> Done(p, M, c2, c3) || p == a || p == b)
    requires y' == y[a := LayerAt(f, x, M, L, tw, a)][b := LayerAt(f, x, M, L, tw, b)]
    ensures Finished(f, x, y', M, L, tw, c2, c3 + 1)
  {
    hide LayerAt, Done;
    forall p: nat | p < |x|
      ensures y'[p] == if Done(p, M, c2, c3 + 1) then LayerAt(f, x, M, L, tw, p) else x[p]
    {
      assert y[p] == if Done(p, M, c2, c3) then LayerAt(f, x, M, L, tw, p) else x[p];
    }
  }

  lemma FinishOffset<T>(f: Butterfly<T>, x: seq<T>, y: seq<T>, M: nat, L: nat, tw: seq<T>, c2: nat)
    requires M >= 1 && |x| == 2 * M * L
    requires Finished(f, x, y, M, L, tw, c2, L)
    ensures Finished(f, x, y, M, L, tw, c2 + 1, 0)
  {
    forall p: nat | p < |x| ensures Done(p, M, c2, L) == Done(p, M, c2 + 1, 0) {
      BlocksDone(p, M, L, c2);
    }
  }

  /** The innermost loop: the butterflies of one offset, block after block. */
  method RunOffset<T>(f: Butterfly<T>, data: array<T>, W: T, iM: nat, iL: nat, iCnt2: nat,
                      ghost x: seq<T>, ghost t: seq<T>)
    requires data.Length == |x| == 2 * iM * iL && iCnt2 < iM
    requires 0 <= iCnt2 * iL < |t| && W == t[iCnt2 * iL]
    requires Finished(f, x, data[..], iM, iL, t, iCnt2, 0)
    modifies data
    ensures Finished(f, x, data[..], iM, iL, t, iCnt2 + 1, 0)
  {
    var iA := iCnt2;
    for iCnt3 := 0 to iL
      invariant iA == iCnt2 + 2 * iM * iCnt3
      invariant Finished(f, x, data[..], iM, iL, t, iCnt2, iCnt3)
    {
      ghost var before := data[..];
      BlockBound(iM, iL, iCnt2, iCnt3);
      var iB := iA + iM;
      data[iA], data[iB] := Up(f, data[iA], data[iB], W), Low(f, data[iA], data[iB], W);
      FinishOne(f, x, before, data[..], iM, iL, t, iCnt2, iCnt3);
      iA := iA + 2 * iM;
    }
    FinishOffset(f, x, data[..], iM, iL, t, iCnt2);
  }

  /** iL blocks of 2 * iM samples fill the array, and the table reaches as far as the loops read it. */
  predicate AreBlocks(length: nat, iM: nat, iL: nat, twiddles: nat) {
    iM >= 1 && iL >= 1 && length == 2 * iM * iL && iM * iL <= twiddles
  }

  /**
    The two inner loops of every layer: all iL blocks for offset iCnt2, twiddle iQ advancing by iL.
    In place, each butterfly reading its two inputs before overwriting both.
   */
  method RunLayer<T>(f: Butterfly<T>, data: array<T>, tw: array<T>, iM: nat, iL: nat)
    requires AreBlocks(data.Length, iM, iL, tw.Length) && data != tw
    modifies data
    ensures data[..] == Layer(f, old(data[..]), iM, iL, old(tw[..]))
  {
    ghost var x, t := data[..], tw[..];
    var iQ := 0;
    for iCnt2 := 0 to iM
      invariant iQ == iCnt2 * iL && tw[..] == t
      invariant Finished(f, x, data[..], iM, iL, t, iCnt2, 0)
    {
      TwiddleStep(iM, iL, |t|, iCnt2);
      RunOffset(f, data, tw[iQ], iM, iL, iCnt2, x, t);
      iQ := iQ + iL;
    }
    IsLayer(f, x, iM, iL, t, data[..]);
  }

  /** The separate loop for the layer of neighbouring pairs. */
  method RunPairLayer<T>(f: Butterfly<T>, one: T, data: array<T>)
    requires data.Length % 2 == 0
    modifies data
    ensures data[..] == PairLayer(f, one, old(data[..]))
  {
    ghost var x := data[..];
    var iA := 0;
    for iCnt3 := 0 to data.Length / 2
      invariant iA == 2 * iCnt3
      invariant forall p: nat :: p < |x| ==> data[p] == if p < iA then LayerAt(f, x, 1, 0, [one], p) else x[p]
    {
      var iB := iA + 1;
      data[iA], data[iB] := Up(f, data[iA], data[iB], one), Low(f, data[iA], data[iB], one);
      iA := iA + 2;
    }
    IsLayer(f, x, 1, 0, [one], data[..]);
  }
}
