/**
  One group of input rows, and what happens between groups: the store of a finished output row and
  the rotation of the accumulators.  Shared by the 7x7 kernels in two and three dimensions.
 */
module ConvRows {
  import opened Rings
  import opened Conv
  import opened ConvColumns

  /** The input rows of a phase, from one channel. */
  method LoadRows<T>(P: Problem<T>, s: Strip, ch: nat, row: nat, n: nat) returns (ws: seq<seq<T>>)
    requires ValidStrip(P, s) && ch < P.C && row + n <= P.M + 6
    ensures Windows(P, s, ws, ch, row, n, 0)
  {
    hide Window, Valid;
    ws := [];
    for j := 0 to n
      invariant Windows(P, s, ws, ch, row, j, 0)
    {
      var w := Load(P, s, ch, row + j);
      ws := ws + [w];
    }
  }

  /** All rows of the phase slide by one. */
  method SlideRows<T>(P: Problem<T>, s: Strip, ws: seq<seq<T>>, ch: nat, row: nat, n: nat, b: nat) returns (ws': seq<seq<T>>)
    requires ValidStrip(P, s) && ch < P.C && row + n <= P.M + 6 && b < 6 && Windows(P, s, ws, ch, row, n, b)
    ensures Windows(P, s, ws', ch, row, n, b + 1)
  {
    hide Window, Valid;
    ws' := [];
    for j := 0 to n
      invariant Windows(P, s, ws', ch, row, j, b + 1)
    {
      var w := Slide(P, s, ws[j], ch, row + j, b);
      ws' := ws' + [w];
    }
  }

  /** The first six columns of one channel; the loop is unrolled by two, with two sets of row registers. */
  method SixColumns<T(!new)>(P: Problem<T>, s: Strip, A: Accs<T>, ws: seq<seq<T>>, ch: nat, ph: Phase, o: nat)
      returns (A': Accs<T>, ws': seq<seq<T>>)
    requires CommRing(P.R) && ValidStrip(P, s) && ch < P.C && FirstRow(ph, o) + RowCount(ph) <= P.M + 6
    requires AllReady(P, s, A, RolesOf(ph, o), ch, 0) && Windows(P, s, ws, ch, FirstRow(ph, o), RowCount(ph), 0)
    ensures AllReady(P, s, A', RolesOf(ph, o), ch, 6) && Windows(P, s, ws', ch, FirstRow(ph, o), RowCount(ph), 6)
    ensures ph == Tail3 ==> A'.v16 == A.v16 && A'.v18 == A.v18 && A'.v20 == A.v20 && A'.v22 == A.v22
  {
    hide CommRing, AllReady, RolesOf, FirstRow, RowCount, Windows, Column, Valid;
    var row, n := FirstRow(ph, o), RowCount(ph);
    A', ws' := A, ws;
    for k := 0 to 3
      invariant AllReady(P, s, A', RolesOf(ph, o), ch, 2 * k) && Windows(P, s, ws', ch, row, n, 2 * k)
      invariant ph == Tail3 ==> A'.v16 == A.v16 && A'.v18 == A.v18 && A'.v20 == A.v20 && A'.v22 == A.v22
    {
      var f0 := LoadCoefs(P, ch, 2 * k);
      A' := PhaseColumn(P, s, A', ws', f0, ch, 2 * k, ph, o);
      var odd := SlideRows(P, s, ws', ch, row, n, 2 * k);
      var f1 := LoadCoefs(P, ch, 2 * k + 1);
      A' := PhaseColumn(P, s, A', odd, f1, ch, 2 * k + 1, ph, o);
      ws' := SlideRows(P, s, odd, ch, row, n, 2 * k + 1);
    }
  }

  // ---------- Between groups ----------

  /** Registers of n lanes, with unknown contents. */
  method Registers<T>(R: Ring<T>, n: nat) returns (A: Accs<T>)
    ensures |A.v16| == |A.v18| == |A.v20| == |A.v22| == |A.v24| == |A.v26| == |A.v28| == n
  {
    var v: seq<T> := [];
    for i := 0 to n
      invariant |v| == i
    {
      v := v + [R.zero];
    }
    A := Accs(v, v, v, v, v, v, v);
  }

  /** `vmv.v.v` of every accumulator into its predecessor; v28 keeps its value. */
  function Rotate<T>(A: Accs<T>): Accs<T> {
    Accs(A.v18, A.v20, A.v22, A.v24, A.v26, A.v28, A.v28)
  }

  /** At the head of a regime iteration: v16 .. v26 hold six to one filter rows of output rows o .. o + 5. */
  ghost predicate Sliding<T>(P: Problem<T>, s: Strip, A: Accs<T>, o: nat) {
    AllHold(P, s, A, RolesOf(Regime, o), false)
  }

  lemma SlidingHolds<T>(P: Problem<T>, s: Strip, A: Accs<T>, o: nat)
    requires Sliding(P, s, A, o)
    ensures AllHold(P, s, A, RolesOf(Regime, o), false)
  {
  }

  /** Once output row o is finished, the rotation leaves the kernel at the head of the next row. */
  lemma RotateSlides<T>(P: Problem<T>, s: Strip, A: Accs<T>, o: nat)
    requires AllHold(P, s, A, RolesOf(Regime, o), true)
    ensures Holds(P, s, A.v16, o, 7) && Sliding(P, s, Rotate(A), o + 1)
  {
    hide Rows;
  }

  /** A kernel starts with registers in any state. */
  lemma FirstPhase<T>(P: Problem<T>, s: Strip, A: Accs<T>)
    requires |A.v16| == |A.v18| == |A.v20| == |A.v22| == |A.v24| == |A.v26| == |A.v28| == s.n
    ensures AllHold(P, s, A, RolesOf(Head4, 0), false)
  {
  }

  /** An output row that has not been begun asks nothing of its register but its lanes. */
  lemma NoRows<T>(P: Problem<T>, s: Strip, v: seq<T>, r: nat)
    ensures |v| == s.n ==> Holds(P, s, v, r, 0)
  {
  }

  /** Where one phase ends the next one begins. */
  lemma NextPhase<T>(P: Problem<T>, s: Strip, A: Accs<T>, o: nat)
    ensures AllHold(P, s, A, RolesOf(Head4, o), true) ==> AllHold(P, s, A, RolesOf(Head3, o), false)
    ensures AllHold(P, s, A, RolesOf(Head3, o), true) ==> AllHold(P, s, A, RolesOf(Regime, o), true)
    ensures AllHold(P, s, A, RolesOf(Regime, o), false) ==> AllHold(P, s, A, RolesOf(Tail4, o), false)
    ensures AllHold(P, s, A, RolesOf(Tail4, o), true) ==> AllHold(P, s, A, RolesOf(Tail3, o), false)
  {
    hide Holds;
    NoRows(P, s, A.v24, o + 4);
    NoRows(P, s, A.v26, o + 5);
    NoRows(P, s, A.v28, o + 6);
  }

  /** Seven finished output rows. */
  ghost predicate SevenRows<T>(P: Problem<T>, s: Strip, A: Accs<T>, o: nat) {
    && Holds(P, s, A.v16, o, 7) && Holds(P, s, A.v18, o + 1, 7) && Holds(P, s, A.v20, o + 2, 7) && Holds(P, s, A.v22, o + 3, 7)
    && Holds(P, s, A.v24, o + 4, 7) && Holds(P, s, A.v26, o + 5, 7) && Holds(P, s, A.v28, o + 6, 7)
  }

  /** The last phase finishes three rows, and the four rows finished before it are still in their registers. */
  lemma LastPhase<T>(P: Problem<T>, s: Strip, A: Accs<T>, A': Accs<T>, o: nat)
    requires AllHold(P, s, A, RolesOf(Tail4, o), true) && AllHold(P, s, A', RolesOf(Tail3, o), true)
    requires A'.v16 == A.v16 && A'.v18 == A.v18 && A'.v20 == A.v20 && A'.v22 == A.v22
    ensures SevenRows(P, s, A', o)
  {
    hide Holds;
  }

  // ---------- Output ----------

  /** The strip's part of the first n output rows is the convolution. */
  ghost predicate Stored<T>(P: Problem<T>, s: Strip, o: array2<T>, n: nat)
    reads o
  {
    && o.Length0 == P.M && o.Length1 == P.N && n <= P.M && s.n0 + s.n <= P.N
    && forall r, t :: 0 <= r < n && s.n0 <= t < s.n0 + s.n ==> o[r, t] == Out(P, r, t)
  }

  /** Columns outside the strip, and all columns of the rows from n on, are as they were. */
  twostate predicate Outside<T>(s: Strip, o: array2<T>, n: nat)
    reads o
  {
    forall r, t :: 0 <= r < o.Length0 && 0 <= t < o.Length1 && (r >= n || !(s.n0 <= t < s.n0 + s.n)) ==> o[r, t] == old(o[r, t])
  }

  /** Rows other than r are as they were. */
  twostate predicate OnlyRow<T>(o: array2<T>, r: nat)
    reads o
  {
    forall p, t :: 0 <= p < o.Length0 && 0 <= t < o.Length1 && p != r ==> o[p, t] == old(o[p, t])
  }

  /** `vse64.v` of a finished row to output row ro; the pointer then moves down one row. */
  method Store<T(!new)>(P: Problem<T>, s: Strip, o: array2<T>, v: seq<T>, ro: nat) returns (next: nat)
    requires CommRing(P.R) && Stored(P, s, o, ro) && ro < P.M && Holds(P, s, v, ro, 7)
    modifies o
    ensures next == ro + 1 && Stored(P, s, o, next) && Outside(s, o, next) && OnlyRow(o, ro)
  {
    hide Out;
    forall t | s.n0 <= t < s.n0 + s.n ensures v[t - s.n0] == Out(P, ro, t) {
      RowsIsOut(P, ro, t);
    }
    for t := 0 to s.n
      invariant Stored(P, s, o, ro) && Outside(s, o, ro + 1) && OnlyRow(o, ro)
      invariant forall c :: s.n0 <= c < s.n0 + t ==> o[ro, c] == Out(P, ro, c)
    {
      o[ro, s.n0 + t] := v[t];
    }
    next := ro + 1;
  }

  /** The last seven stores. */
  method StoreSeven<T(!new)>(P: Problem<T>, s: Strip, o: array2<T>, A: Accs<T>, ro: nat) returns (next: nat)
    requires CommRing(P.R) && Stored(P, s, o, ro) && ro + 7 <= P.M && SevenRows(P, s, A, ro)
    modifies o
    ensures next == ro + 7 && Stored(P, s, o, next) && Outside(s, o, next)
  {
    hide CommRing, Holds, Rows, Out, OnlyRow;
    next := Store(P, s, o, A.v16, ro);
    next := Store(P, s, o, A.v18, next);
    next := Store(P, s, o, A.v20, next);
    next := Store(P, s, o, A.v22, next);
    next := Store(P, s, o, A.v24, next);
    next := Store(P, s, o, A.v26, next);
    next := Store(P, s, o, A.v28, next);
  }

  /** The first `cols` columns of the output are the sum over the channels of the 7x7 convolutions. */
  ghost predicate Convolved<T>(P: Problem<T>, o: array2<T>, cols: nat)
    reads o
  {
    && o.Length0 == P.M && o.Length1 == P.N && cols <= P.N
    && forall r, c :: 0 <= r < P.M && 0 <= c < cols ==> o[r, c] == Out(P, r, c)
  }
}
