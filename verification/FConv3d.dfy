/**
  apps/fconv3d/fconv3d_3x7x7.c: 7x7 convolution over C channels, register-resident, with the filter
  coefficients of the regime loaded one column ahead of their use.
 */
module FConv3d {
  import opened Rings
  import opened Conv
  import opened ConvColumns
  import opened ConvRows
  import opened ConvSums
  import opened VectorUnit

  /**
    A phase outside the regime, over all channels.  Except in the first phase, the last column of the last
    channel uses the coefficients fl that were loaded at the start.
   */
  method Channels<T(!new)>(P: Problem<T>, s: Strip, A: Accs<T>, fl: Coefs<T>, ph: Phase, o: nat) returns (A': Accs<T>)
    requires CommRing(P.R) && ValidStrip(P, s) && FirstRow(ph, o) + RowCount(ph) <= P.M + 6
    requires Column(P, P.C - 1, 6, fl) && AllHold(P, s, A, RolesOf(ph, o), false)
    ensures AllHold(P, s, A', RolesOf(ph, o), true)
    ensures ph == Tail3 ==> A'.v16 == A.v16 && A'.v18 == A.v18 && A'.v20 == A.v20 && A'.v22 == A.v22
  {
    hide CommRing, AllReady, AllHold, RolesOf, FirstRow, RowCount, Windows, Column, Valid;
    HasChannel(P);
    ghost var q := RolesOf(ph, o);
    var row, n := FirstRow(ph, o), RowCount(ph);
    A' := A;
    StartPhase(P, s, A', q);
    var ws: seq<seq<T>> := [];
    for ch := 0 to P.C
      invariant ch < P.C ==> AllReady(P, s, A', q, ch, 0)
      invariant ch == P.C ==> AllReady(P, s, A', q, ch - 1, if ph == Head4 then 7 else 6) && Windows(P, s, ws, ch - 1, row, n, 6)
      invariant ph == Tail3 ==> A'.v16 == A.v16 && A'.v18 == A.v18 && A'.v20 == A.v20 && A'.v22 == A.v22
    {
      ws := LoadRows(P, s, ch, row, n);
      A', ws := SixColumns(P, s, A', ws, ch, ph, o);
      if ph == Head4 || ch != P.C - 1 {
        var f0 := LoadCoefs(P, ch, 6);
        A' := PhaseColumn(P, s, A', ws, f0, ch, 6, ph, o);
      }
      if ch != P.C - 1 {
        NextPhaseChannel(P, s, A', q, ch);
      }
    }
    if ph != Head4 {
      A' := PhaseColumn(P, s, A', ws, fl, P.C - 1, 6, ph, o);
    }
    EndPhase(P, s, A', ph, o);
  }

  /**
    Input row i of one channel, first six columns.  Every use of a coefficient in fbuf is for the column that is
    due, although each one is replaced as soon as it was used: across columns and both unrolled halves.
   */
  method RegimeChannel<T(!new)>(P: Problem<T>, s: Strip, A: Accs<T>, fbuf: Coefs<T>, i: nat, ch: nat)
      returns (A': Accs<T>, fbuf': Coefs<T>, v0: seq<T>)
    requires CommRing(P.R) && ValidStrip(P, s) && 7 <= i < P.M + 6 && ch < P.C
    requires AllReady(P, s, A, RolesOf(Regime, i - 6), ch, 0) && Column(P, ch, 0, fbuf)
    ensures AllReady(P, s, A', RolesOf(Regime, i - 6), ch, 6) && Column(P, ch, 6, fbuf') && Window(P, s, v0, ch, i, 6)
  {
    hide CommRing, AllReady, RolesOf, Window, Column, Valid;
    var o := i - 6;
    A', fbuf' := A, fbuf;
    v0 := Load(P, s, ch, i);
    for k := 0 to 3
      invariant AllReady(P, s, A', RolesOf(Regime, o), ch, 2 * k) && Window(P, s, v0, ch, i, 2 * k)
      invariant Column(P, ch, 2 * k, fbuf')
    {
      var baseIdx0 := (2 * k + 2) + ch * 49;
      var baseIdx1 := (2 * k + 1) + ch * 49;
      var v2;
      A', fbuf', v2 := RegimeColumnAhead(P, s, A', v0, fbuf', baseIdx1, ch, 2 * k, o, ch, 2 * k + 1);
      A', fbuf', v0 := RegimeColumnAhead(P, s, A', v2, fbuf', baseIdx0, ch, 2 * k + 1, o, ch, 2 * k + 2);
    }
  }

  /** One half of the regime: input row i over all channels; fbuf is handed on across channels and rows. */
  method RegimeRow<T(!new)>(P: Problem<T>, s: Strip, A: Accs<T>, fbuf: Coefs<T>, fl: Coefs<T>, i: nat)
      returns (A': Accs<T>, fbuf': Coefs<T>)
    requires CommRing(P.R) && ValidStrip(P, s) && 7 <= i < P.M + 6
    requires Column(P, P.C - 1, 6, fl) && Column(P, 0, 0, fbuf) && Sliding(P, s, A, i - 6)
    ensures Column(P, 0, 0, fbuf') && Holds(P, s, A'.v16, i - 6, 7) && Sliding(P, s, Rotate(A'), i - 5)
  {
    hide CommRing, AllReady, AllHold, RolesOf, Window, Column, Holds, Valid, Sliding;
    ghost var o := i - 6;
    HasChannel(P);
    SlidingHolds(P, s, A, o);
    StartPhase(P, s, A, RolesOf(Regime, o));
    A', fbuf' := A, fbuf;
    var v0 := A.v16;
    for ch := 0 to P.C
      invariant ch < P.C ==> AllReady(P, s, A', RolesOf(Regime, o), ch, 0) && Column(P, ch, 0, fbuf')
      invariant ch == P.C ==> AllReady(P, s, A', RolesOf(Regime, o), ch - 1, 6) && Window(P, s, v0, ch - 1, i, 6)
    {
      A', fbuf', v0 := RegimeChannel(P, s, A', fbuf', i, ch);
      if ch != P.C - 1 {
        A', fbuf' := RegimeLastColumnAhead(P, s, A', v0, fbuf', (ch + 1) * 49, ch, 6, o, ch + 1, 0);
        NextPhaseChannel(P, s, A', RolesOf(Regime, o), ch);
      }
    }
    A', fbuf' := RegimeFinish(P, s, A', v0, fl, P.C - 1, 6, o);
    EndPhase(P, s, A', Regime, o);
    RotateSlides(P, s, A', o);
  }

  /** Input rows 0 to 6, and the first column of coefficients for the regime. */
  method Head<T(!new)>(P: Problem<T>, s: Strip, fl: Coefs<T>) returns (A: Accs<T>, fbuf: Coefs<T>)
    requires CommRing(P.R) && ValidStrip(P, s) && P.M >= 8 && Column(P, P.C - 1, 6, fl)
    ensures Holds(P, s, A.v16, 0, 7) && Sliding(P, s, Rotate(A), 1) && Column(P, 0, 0, fbuf)
  {
    hide CommRing, Column, Valid, Sliding, AllHold, RolesOf, Holds;
    HasChannel(P);
    A := Registers(P.R, s.n);
    FirstPhase(P, s, A);
    A := Channels(P, s, A, fl, Head4, 0);
    NextPhase(P, s, A, 0);
    A := Channels(P, s, A, fl, Head3, 0);
    NextPhase(P, s, A, 0);
    fbuf := LoadCoefs(P, 0, 0);
    RotateSlides(P, s, A, 0);
  }

  /** The last seven input rows; the kernel stores v16 .. v22 before it turns to the last three of them. */
  method Tail<T(!new)>(P: Problem<T>, s: Strip, A: Accs<T>, fl: Coefs<T>, i: nat) returns (A': Accs<T>)
    requires CommRing(P.R) && ValidStrip(P, s) && 7 <= i && i + 7 == P.M + 6
    requires Column(P, P.C - 1, 6, fl) && Sliding(P, s, A, i - 6)
    ensures SevenRows(P, s, A', i - 6)
  {
    hide CommRing, Column, Valid, Sliding, AllHold, RolesOf, SevenRows;
    var o := i - 6;
    SlidingHolds(P, s, A, o);
    NextPhase(P, s, A, o);
    A' := Channels(P, s, A, fl, Tail4, o);
    NextPhase(P, s, A', o);
    ghost var B := A';
    A' := Channels(P, s, A', fl, Tail3, o);
    LastPhase(P, s, B, A', o);
  }

  /**
    fconv3d_CHx7x7_block: the strip of every output row becomes the convolution, nothing else changes.  The
    output pointer is returned: it moved down one row with each store, so no row was stored twice.
   */
  method Block<T(!new)>(P: Problem<T>, s: Strip, o: array2<T>) returns (ro: nat)
    requires CommRing(P.R) && ValidStrip(P, s) && P.M >= 8 && P.M % 2 == 0
    requires o.Length0 == P.M && o.Length1 == P.N
    modifies o
    ensures ro == P.M && Stored(P, s, o, ro) && Outside(s, o, ro)
  {
    hide CommRing, Column, Rows, Out, Valid, Pixel, Fold, OnlyRow, AllHold, RolesOf, Holds, Sliding;
    HasChannel(P);
    var fl := LoadCoefs(P, P.C - 1, 6);
    var A, fbuf := Head(P, s, fl);
    ro := 0;
    ro := Store(P, s, o, A.v16, ro);
    A := Rotate(A);
    var i := 7;
    for j := 0 to ((P.M + 7 - 1) - 2 * 7) / 2
      invariant i == 7 + 2 * j && ro == 1 + 2 * j
      invariant Column(P, 0, 0, fbuf) && Sliding(P, s, A, ro)
      invariant Stored(P, s, o, ro) && Outside(s, o, ro)
    {
      hide Sliding, Holds, Window;
      // unroll 0, on v0
      A, fbuf := RegimeRow(P, s, A, fbuf, fl, i);
      ro := Store(P, s, o, A.v16, ro);
      A := Rotate(A);
      i := i + 1;
      // unroll 1, on v2
      A, fbuf := RegimeRow(P, s, A, fbuf, fl, i);
      ro := Store(P, s, o, A.v16, ro);
      A := Rotate(A);
      i := i + 1;
    }
    A := Tail(P, s, A, fl, i);
    ro := StoreSeven(P, s, o, A, ro);
  }

  /** fconv3d_CHx7x7: strips of at most VLMAX columns.  Output (r, c) is the sum of f[t] · img over the whole filter. */
  method FConv3dCHx7x7<T(!new)>(P: Problem<T>, o: array2<T>, vlmax: nat)
    requires CommRing(P.R) && Valid(P) && P.M >= 8 && P.M % 2 == 0 && vlmax >= 1
    requires o.Length0 == P.M && o.Length1 == P.N
    modifies o
    ensures forall r: nat, c: nat | r < P.M && c < P.N :: o[r, c] == Sum(P, r, c, 49 * P.C)
  {
    hide CommRing, Valid, Out, Sum;
    var blockSize := SetVl(P.N, vlmax);
    var n := 0;
    while n < P.N
      invariant P.N > 0 ==> 1 <= blockSize
      invariant Convolved(P, o, if n < P.N then n else P.N)
    {
      var vl := SetVl(if P.N - n < blockSize then P.N - n else blockSize, vlmax);
      var _ := Block(P, Strip(n, vl), o);
      n := n + blockSize;
    }
    forall r: nat, c: nat | r < P.M && c < P.N ensures o[r, c] == Sum(P, r, c, 49 * P.C) {
      OutIsSum(P, r, c);
    }
  }

  /** The kernel on doubles, over exact reals: the sum of products, written with the operations of the reals. */
  method OverReals(P: Problem<real>, o: array2<real>, vlmax: nat)
    requires P.R == Reals() && Valid(P) && P.M >= 8 && P.M % 2 == 0 && vlmax >= 1
    requires o.Length0 == P.M && o.Length1 == P.N
    modifies o
    ensures forall r: nat, c: nat | r < P.M && c < P.N ::
              AllInPicture(P, r, c, 49 * P.C) && o[r, c] == RealSum(P.f, P.img, r, c, 49 * P.C)
  {
    RealsAreCommRing();
    FConv3dCHx7x7(P, o, vlmax);
    forall r: nat, c: nat | r < P.M && c < P.N
      ensures AllInPicture(P, r, c, 49 * P.C) && o[r, c] == RealSum(P.f, P.img, r, c, 49 * P.C)
    {
      SumOfReals(P, r, c, 49 * P.C);
    }
  }
}
