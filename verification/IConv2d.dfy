/**
  apps/iconv2d/iconv2d_7x7.c: the one-channel kernel on wrapping 64-bit integers.  It loads the next
  input rows while the last column of the previous ones is still being used, reads the coefficients
  straight from f, and peels the first column off the second half of its regime.
 */
module IConv2d {
  import opened Rings
  import opened Conv
  import opened ConvColumns
  import opened ConvRows
  import opened ConvSums
  import opened VectorUnit

  /** One phase on the rows at hand: while their last column is used, the next rows are loaded. */
  method PhaseAhead<T(!new)>(P: Problem<T>, s: Strip, A: Accs<T>, t: Coefs<T>, ws: seq<seq<T>>, ph: Phase, o: nat, row: nat, n: nat)
      returns (A': Accs<T>, next: seq<seq<T>>)
    requires CommRing(P.R) && ValidStrip(P, s) && P.C == 1 && Column(P, 0, 6, t) && AllHold(P, s, A, RolesOf(ph, o), false)
    requires FirstRow(ph, o) + RowCount(ph) <= P.M + 6 && Windows(P, s, ws, 0, FirstRow(ph, o), RowCount(ph), 0)
    requires row + n <= P.M + 6
    ensures AllHold(P, s, A', RolesOf(ph, o), true) && Windows(P, s, next, 0, row, n, 0)
    ensures ph == Tail3 ==> A'.v16 == A.v16 && A'.v18 == A.v18 && A'.v20 == A.v20 && A'.v22 == A.v22
  {
    hide CommRing, AllReady, AllHold, RolesOf, FirstRow, RowCount, Windows, Column, Valid;
    StartPhase(P, s, A, RolesOf(ph, o));
    var slid;
    A', slid := SixColumns(P, s, A, ws, 0, ph, o);
    next := LoadRows(P, s, 0, row, n);
    A' := PhaseColumn(P, s, A', slid, t, 0, 6, ph, o);
    EndPhase(P, s, A', ph, o);
  }

  /** Input rows 0 to 6. */
  method Head<T(!new)>(P: Problem<T>, s: Strip, A: Accs<T>, t: Coefs<T>) returns (A': Accs<T>)
    requires CommRing(P.R) && ValidStrip(P, s) && P.M >= 8 && P.C == 1 && Column(P, 0, 6, t)
    requires |A.v16| == |A.v18| == |A.v20| == |A.v22| == |A.v24| == |A.v26| == |A.v28| == s.n
    ensures Holds(P, s, A'.v16, 0, 7) && Sliding(P, s, Rotate(A'), 1)
  {
    hide CommRing, AllHold, RolesOf, Windows, Column, Valid, Sliding, Holds;
    FirstPhase(P, s, A);
    var ws := LoadRows(P, s, 0, 0, 4);
    A', ws := PhaseAhead(P, s, A, t, ws, Head4, 0, 4, 3);
    NextPhase(P, s, A', 0);
    A', ws := PhaseAhead(P, s, A', t, ws, Head3, 0, 7, 0);
    NextPhase(P, s, A', 0);
    RotateSlides(P, s, A', 0);
  }

  lemma OneWindow<T>(P: Problem<T>, s: Strip, w: seq<T>, row: nat)
    ensures Window(P, s, w, 0, row, 0) <==> Windows(P, s, [w], 0, row, 1, 0)
  {
    hide Window;
    assert [w][0] == w;
  }

  /** Unroll 0: input row i, held in v0; v2 receives the next row. */
  method UnrollZero<T(!new)>(P: Problem<T>, s: Strip, A: Accs<T>, t: Coefs<T>, w: seq<T>, i: nat)
      returns (A': Accs<T>, v2: seq<T>)
    requires CommRing(P.R) && ValidStrip(P, s) && P.C == 1 && 7 <= i && i + 1 < P.M + 6
    requires Column(P, 0, 6, t) && Sliding(P, s, A, i - 6) && Window(P, s, w, 0, i, 0)
    ensures Holds(P, s, A'.v16, i - 6, 7) && Sliding(P, s, Rotate(A'), i - 5) && Window(P, s, v2, 0, i + 1, 0)
  {
    hide CommRing, AllHold, RolesOf, Window, Column, Valid, Sliding, Holds;
    SlidingHolds(P, s, A, i - 6);
    OneWindow(P, s, w, i);
    var next;
    A', next := PhaseAhead(P, s, A, t, [w], Regime, i - 6, i + 1, 1);
    v2 := next[0];
    RotateSlides(P, s, A', i - 6);
  }

  /** Unroll 1: input row i, held in v2, with its first column peeled off; v0 receives the next row. */
  method UnrollOne<T(!new)>(P: Problem<T>, s: Strip, A: Accs<T>, t: Coefs<T>, w: seq<T>, i: nat)
      returns (A': Accs<T>, v0: seq<T>)
    requires CommRing(P.R) && ValidStrip(P, s) && P.C == 1 && 7 <= i && i + 1 < P.M + 6
    requires Column(P, 0, 6, t) && Sliding(P, s, A, i - 6) && Window(P, s, w, 0, i, 0)
    ensures Holds(P, s, A'.v16, i - 6, 7) && Sliding(P, s, Rotate(A'), i - 5) && Window(P, s, v0, 0, i + 1, 0)
  {
    hide CommRing, AllReady, AllHold, RolesOf, Window, Column, Valid, Sliding, Holds;
    var o := i - 6;
    ghost var q := RolesOf(Regime, o);
    SlidingHolds(P, s, A, o);
    StartPhase(P, s, A, q);
    var v2 := w;
    var f0 := LoadCoefs(P, 0, 0);
    A' := RegimeColumn(P, s, A, v2, f0, 0, 0, o);
    v0 := Slide(P, s, v2, 0, i, 0);
    var k := 1;
    while k < 7
      invariant k % 2 == 1 && 1 <= k <= 5
      invariant AllReady(P, s, A', q, 0, k) && Window(P, s, v0, 0, i, k)
      decreases 7 - k
    {
      var f1 := LoadCoefs(P, 0, k);
      A' := RegimeColumn(P, s, A', v0, f1, 0, k, o);
      v2 := Slide(P, s, v0, 0, i, k);
      if k == 7 - 2 {
        break;
      }
      var f2 := LoadCoefs(P, 0, k + 1);
      A' := RegimeColumn(P, s, A', v2, f2, 0, k + 1, o);
      v0 := Slide(P, s, v2, 0, i, k + 1);
      k := k + 2;
    }
    v0 := Load(P, s, 0, i + 1);
    A' := RegimeColumn(P, s, A', v2, t, 0, 6, o);
    EndPhase(P, s, A', Regime, o);
    RotateSlides(P, s, A', o);
  }

  /** The last seven input rows, the first of them already in v0; the kernel stores v16 .. v22 before the last three. */
  method Tail<T(!new)>(P: Problem<T>, s: Strip, A: Accs<T>, t: Coefs<T>, w: seq<T>, i: nat) returns (A': Accs<T>)
    requires CommRing(P.R) && ValidStrip(P, s) && P.C == 1 && 7 <= i && i + 7 == P.M + 6
    requires Column(P, 0, 6, t) && Sliding(P, s, A, i - 6) && Window(P, s, w, 0, i, 0)
    ensures SevenRows(P, s, A', i - 6)
  {
    hide CommRing, AllHold, RolesOf, Window, Windows, Column, Valid, Sliding, Holds, SevenRows;
    var o := i - 6;
    SlidingHolds(P, s, A, o);
    var rest := LoadRows(P, s, 0, i + 1, 3);
    FourWindows(P, s, w, rest, i);
    NextPhase(P, s, A, o);
    var last;
    A', last := PhaseAhead(P, s, A, t, [w] + rest, Tail4, o, i + 4, 3);
    NextPhase(P, s, A', o);
    ghost var B := A';
    A', last := PhaseAhead(P, s, A', t, last, Tail3, o, i + 7, 0);
    LastPhase(P, s, B, A', o);
  }

  lemma FourWindows<T>(P: Problem<T>, s: Strip, w: seq<T>, rest: seq<seq<T>>, i: nat)
    requires Window(P, s, w, 0, i, 0) && Windows(P, s, rest, 0, i + 1, 3, 0)
    ensures Windows(P, s, [w] + rest, 0, i, 4, 0)
  {
    hide Window;
    forall j | 0 <= j < 4 ensures Window(P, s, ([w] + rest)[j], 0, i + j, 0) {
      if j > 0 {
        assert Window(P, s, rest[j - 1], 0, i + 1 + (j - 1), 0);
      }
    }
  }

  /**
    iconv2d_7x7_block: the strip of every output row becomes the convolution, nothing else changes.  The
    output pointer is returned: it moved down one row with each store, so no row was stored twice.
   */
  method Block<T(!new)>(P: Problem<T>, s: Strip, o: array2<T>) returns (ro: nat)
    requires CommRing(P.R) && ValidStrip(P, s) && P.C == 1 && P.M >= 8 && P.M % 2 == 0
    requires o.Length0 == P.M && o.Length1 == P.N
    modifies o
    ensures ro == P.M && Stored(P, s, o, ro) && Outside(s, o, ro)
  {
    hide CommRing, Column, Rows, Out, Valid, Pixel, Fold, OnlyRow, AllHold, RolesOf;
    var t := LoadCoefs(P, 0, 6);
    var A := Registers(P.R, s.n);
    ro := 0;
    A := Head(P, s, A, t);
    ro := Store(P, s, o, A.v16, ro);
    A := Rotate(A);
    var i := 7;
    var v0 := Load(P, s, 0, i);
    for j := 0 to ((P.M + 7 - 1) - 2 * 7) / 2
      invariant i == 7 + 2 * j && ro == 1 + 2 * j
      invariant Sliding(P, s, A, ro) && Window(P, s, v0, 0, i, 0)
      invariant Stored(P, s, o, ro) && Outside(s, o, ro)
    {
      hide Sliding, Holds, Window;
      var v2;
      A, v2 := UnrollZero(P, s, A, t, v0, i);
      ro := Store(P, s, o, A.v16, ro);
      A := Rotate(A);
      i := i + 1;
      A, v0 := UnrollOne(P, s, A, t, v2, i);
      ro := Store(P, s, o, A.v16, ro);
      A := Rotate(A);
      i := i + 1;
    }
    A := Tail(P, s, A, t, v0, i);
    ro := StoreSeven(P, s, o, A, ro);
  }

  /** iconv2d_7x7: strips of at most VLMAX columns.  Output (r, c) is the sum of f[t] · img over the filter. */
  method IConv2d7x7<T(!new)>(P: Problem<T>, o: array2<T>, vlmax: nat)
    requires CommRing(P.R) && Valid(P) && P.C == 1 && P.M >= 8 && P.M % 2 == 0 && vlmax >= 1
    requires o.Length0 == P.M && o.Length1 == P.N
    modifies o
    ensures forall r: nat, c: nat | r < P.M && c < P.N :: o[r, c] == Sum(P, r, c, 49)
  {
    hide CommRing, Valid, Out, Sum;
    var blockSize := SetVl(P.N, vlmax);
    var n := 0;
    while n < P.N
      invariant P.N > 0 ==> 1 <= blockSize
      invariant Convolved(P, o, if n < P.N then n else P.N)
    {
      var vl := SetVl(if P.N - n < blockSize then P.N - n else blockSize, vlmax);
      var _ := Block(P, Strip(n, vl), o);
      n := n + blockSize;
    }
    forall r: nat, c: nat | r < P.M && c < P.N ensures o[r, c] == Sum(P, r, c, 49) {
      OutIsSum(P, r, c);
    }
  }

  /** The kernel on int64_t: the sum of products of unbounded integers, reduced to 64 bits. */
  method OverInt64(P: Problem<int64>, o: array2<int64>, vlmax: nat)
    requires P.R == Int64s() && Valid(P) && P.C == 1 && P.M >= 8 && P.M % 2 == 0 && vlmax >= 1
    requires o.Length0 == P.M && o.Length1 == P.N
    modifies o
    ensures forall r: nat, c: nat | r < P.M && c < P.N ::
              AllInPicture(P, r, c, 49) && o[r, c] == Wrap64(IntSum(P.f, P.img, r, c, 49))
  {
    Int64sAreCommRing();
    IConv2d7x7(P, o, vlmax);
    forall r: nat, c: nat | r < P.M && c < P.N
      ensures AllInPicture(P, r, c, 49) && o[r, c] == Wrap64(IntSum(P.f, P.img, r, c, 49))
    {
      SumOfInt64s(P, r, c, 49);
    }
  }
}
