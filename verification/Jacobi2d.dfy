/**
  apps/jacobi2d/kernel/jacobi2d.c: the five-point stencil, scalar and vector, over exact reals.
 */
module Jacobi2d {
  import opened VectorUnit

  type Grid = seq<seq<real>>

  ghost predicate IsGrid(g: Grid, r: nat, c: nat) {
    |g| == r && forall i :: 0 <= i < r ==> |g[i]| == c
  }

  /** The array holds the grid. */
  ghost predicate Holds(a: array2<real>, g: Grid, r: nat, c: nat)
    reads a
  {
    && a.Length0 == r && a.Length1 == c && IsGrid(g, r, c)
    && forall i, j :: 0 <= i < r && 0 <= j < c ==> a[i, j] == g[i][j]
  }

  predicate Interior(r: nat, c: nat, i: nat, j: nat) {
    1 <= i < r - 1 && 1 <= j < c - 1
  }

  /** The mean of a cell and its four neighbours. */
  function Mean(g: Grid, r: nat, c: nat, i: nat, j: nat): real
    requires IsGrid(g, r, c) && Interior(r, c, i, j)
  {
    0.2 * (g[i][j] + g[i][j - 1] + g[i][j + 1] + g[i + 1][j] + g[i - 1][j])
  }

  function SweepRow(g: Grid, h: Grid, r: nat, c: nat, i: nat, n: nat): (row: seq<real>)
    requires IsGrid(g, r, c) && IsGrid(h, r, c) && i < r && n <= c
    ensures |row| == n && forall j :: 0 <= j < n ==> row[j] == if Interior(r, c, i, j) then Mean(g, r, c, i, j) else h[i][j]
  {
    if n == 0 then []
    else SweepRow(g, h, r, c, i, n - 1) + [if Interior(r, c, i, n - 1) then Mean(g, r, c, i, n - 1) else h[i][n - 1]]
  }

  /** The grid h after its interior was replaced by the means of g; the boundary stays. */
  function Sweep(g: Grid, h: Grid, r: nat, c: nat, n: nat): (s: Grid)
    requires IsGrid(g, r, c) && IsGrid(h, r, c) && n <= r
    ensures IsGrid(s, n, c)
    ensures forall i, j :: 0 <= i < n && 0 <= j < c ==> s[i][j] == if Interior(r, c, i, j) then Mean(g, r, c, i, j) else h[i][j]
  {
    if n == 0 then [] else Sweep(g, h, r, c, n - 1) + [SweepRow(g, h, r, c, n - 1, c)]
  }

  /** Both grids after t time steps. */
  function Steps(A: Grid, B: Grid, r: nat, c: nat, t: nat): (p: (Grid, Grid))
    requires IsGrid(A, r, c) && IsGrid(B, r, c)
    ensures IsGrid(p.0, r, c) && IsGrid(p.1, r, c)
    decreases t
  {
    if t == 0 then (A, B)
    else
      var p := Steps(A, B, r, c, t - 1);
      var B' := Sweep(p.0, p.1, r, c, r);
      (Sweep(B', p.0, r, c, r), B')
  }

  /** What a sweep has finished: all interior cells before column j, and rows before i of the w columns from j on. */
  ghost predicate Swept(b: array2<real>, g: Grid, h: Grid, r: nat, c: nat, j: nat, w: nat, i: nat)
    reads b
  {
    && IsGrid(g, r, c) && IsGrid(h, r, c) && b.Length0 == r && b.Length1 == c
    && forall p, q :: 0 <= p < r && 0 <= q < c ==>
         b[p, q] == if Interior(r, c, p, q) && (q < j || (q < j + w && p < i)) then Mean(g, r, c, p, q) else h[p][q]
  }

  // ---------- j2d_s ----------

  /** One half of a scalar time step, row by row. */
  method SweepScalar(r: nat, c: nat, A: array2<real>, B: array2<real>, ghost g: Grid, ghost h: Grid)
    requires r >= 3 && c >= 3 && A != B && Holds(A, g, r, c) && Holds(B, h, r, c)
    modifies B
    ensures Holds(A, g, r, c) && Holds(B, Sweep(g, h, r, c, r), r, c)
  {
    for i := 1 to r - 1
      invariant Holds(A, g, r, c)
      invariant Swept(B, g, h, r, c, 0, c, i)
    {
      for j := 1 to c - 1
        invariant Holds(A, g, r, c)
        invariant forall p, q :: 0 <= p < r && 0 <= q < c ==>
          B[p, q] == if Interior(r, c, p, q) && (p < i || (p == i && q < j)) then Mean(g, r, c, p, q) else h[p][q]
      {
        B[i, j] := 0.2 * (A[i, j] + A[i, j - 1] + A[i, j + 1] + A[i + 1, j] + A[i - 1, j]);
      }
    }
  }

  /** j2d_s */
  method J2dScalar(r: nat, c: nat, A: array2<real>, B: array2<real>, tsteps: nat, ghost A0: Grid, ghost B0: Grid)
    requires r >= 3 && c >= 3 && A != B && Holds(A, A0, r, c) && Holds(B, B0, r, c)
    modifies A, B
    ensures Holds(A, Steps(A0, B0, r, c, tsteps).0, r, c) && Holds(B, Steps(A0, B0, r, c, tsteps).1, r, c)
  {
    for t := 0 to tsteps
      invariant Holds(A, Steps(A0, B0, r, c, t).0, r, c) && Holds(B, Steps(A0, B0, r, c, t).1, r, c)
    {
      ghost var p, p' := Steps(A0, B0, r, c, t), Steps(A0, B0, r, c, t + 1);
      hide Holds, Sweep, IsGrid;
      SweepScalar(r, c, A, B, p.0, p.1);
      SweepScalar(r, c, B, A, p'.1, p.0);
    }
  }

  // ---------- j2d_kernel_asm_v ----------

  /** The register holds columns j .. j + w - 1 of row i. */
  ghost predicate Row(g: Grid, r: nat, c: nat, i: nat, j: nat, w: nat, v: seq<real>) {
    IsGrid(g, r, c) && i < r && j + w <= c && v == g[i][j..j + w]
  }

  /** `vle64.v` */
  method LoadRow(A: array2<real>, ghost g: Grid, r: nat, c: nat, i: nat, j: nat, w: nat) returns (v: seq<real>)
    requires Holds(A, g, r, c) && i < r && j + w <= c
    ensures Row(g, r, c, i, j, w, v)
  {
    v := [];
    for k := 0 to w
      invariant |v| == k && forall p :: 0 <= p < k ==> v[p] == g[i][j + p]
    {
      v := v + [A[i, j + k]];
    }
  }

  /** `vfadd.vv` */
  method VAddF(a: seq<real>, b: seq<real>) returns (v: seq<real>)
    requires |a| == |b|
    ensures |v| == |a| && forall k :: 0 <= k < |a| ==> v[k] == a[k] + b[k]
  {
    v := [];
    for k := 0 to |a|
      invariant |v| == k && forall p :: 0 <= p < k ==> v[p] == a[p] + b[p]
    {
      v := v + [a[k] + b[k]];
    }
  }

  /** `vfmul.vf` with 0.2 */
  method VFifth(a: seq<real>) returns (v: seq<real>)
    ensures |v| == |a| && forall k :: 0 <= k < |a| ==> v[k] == 0.2 * a[k]
  {
    v := [];
    for k := 0 to |a|
      invariant |v| == k && forall p :: 0 <= p < k ==> v[p] == 0.2 * a[p]
    {
      v := v + [0.2 * a[k]];
    }
  }

  /** The means of one row of the strip, from the registers of three rows and the two cells just outside it. */
  method Stencil(mid: seq<real>, top: seq<real>, bottom: seq<real>, izq: real, der: real,
                 ghost g: Grid, ghost r: nat, ghost c: nat, ghost i: nat, ghost j: nat, ghost w: nat) returns (v: seq<real>)
    requires 1 <= i < r - 1 && 1 <= j && w >= 1 && j + w < c
    requires Row(g, r, c, i, j, w, mid) && Row(g, r, c, i - 1, j, w, top) && Row(g, r, c, i + 1, j, w, bottom)
    requires izq == g[i][j - 1] && der == g[i][j + w]
    ensures |v| == w && forall k :: 0 <= k < w ==> v[k] == Mean(g, r, c, i, j + k)
  {
    var left := Slide1Up(mid, izq);
    var right := Slide1Down(mid, der);
    v := VAddF(mid, top);
    v := VAddF(v, bottom);
    v := VAddF(v, left);
    v := VAddF(v, right);
    forall k | 0 <= k < w ensures left[k] == g[i][j + k - 1] && right[k] == g[i][j + k + 1] {
    }
    v := VFifth(v);
  }

  /** `vse64.v` of the means of row i. */
  method StoreRow(B: array2<real>, v: seq<real>, ghost g: Grid, ghost h: Grid, r: nat, c: nat, i: nat, j: nat, ghost w: nat)
    requires 1 <= i < r - 1 && 1 <= j && j + w < c && Swept(B, g, h, r, c, j, w, i)
    requires |v| == w && forall k :: 0 <= k < w ==> v[k] == Mean(g, r, c, i, j + k)
    modifies B
    ensures Swept(B, g, h, r, c, j, w, i + 1)
  {
    for k := 0 to |v|
      invariant forall p, q :: 0 <= p < r && 0 <= q < c ==>
        B[p, q] == if Interior(r, c, p, q) && (q < j || (q < j + w && p < i) || (p == i && q < j + k)) then Mean(g, r, c, p, q) else h[p][q]
    {
      assert v[k] == Mean(g, r, c, i, j + k);
      B[i, j + k] := v[k];
    }
  }

  /** The registers at the head of a trip: rows i - 1, i and i + 1, and the two cells outside row i of the strip. */
  ghost predicate Ready(g: Grid, r: nat, c: nat, i: nat, j: nat, w: nat, v0: seq<real>, v4: seq<real>, v8: seq<real>, izq: real, der: real) {
    && 1 <= i < r - 1 && 1 <= j && w >= 1 && j + w < c
    && Row(g, r, c, i - 1, j, w, v0) && Row(g, r, c, i, j, w, v4) && Row(g, r, c, i + 1, j, w, v8)
    && izq == g[i][j - 1] && der == g[i][j + w]
  }

  /** One trip of the loop: three rows, with the roles of the registers rotating. */
  method ThreeRows(r: nat, c: nat, A: array2<real>, B: array2<real>, ghost g: Grid, ghost h: Grid, i: nat, j: nat, w: nat,
                   v0: seq<real>, v4: seq<real>, v8: seq<real>, izq0: real, der0: real)
      returns (v0': seq<real>, v4': seq<real>, v8': seq<real>, izq0': real, der0': real)
    requires A != B && Holds(A, g, r, c) && Ready(g, r, c, i, j, w, v0, v4, v8, izq0, der0) && Swept(B, g, h, r, c, j, w, i)
    modifies B
    ensures Holds(A, g, r, c) && Swept(B, g, h, r, c, j, w, if i + 3 <= r - 1 then i + 3 else r - 1)
    ensures i + 3 <= r - 2 ==> Ready(g, r, c, i + 3, j, w, v0', v4', v8', izq0', der0')
  {
    var sizeY := r - 2;
    v0', v4', v8', izq0', der0' := v0, v4, v8, izq0, der0;
    var izq1, der1, izq2, der2 := izq0, der0, izq0, der0;
    var v12 := Stencil(v4', v0', v8', izq0, der0, g, r, c, i, j, w);
    if i + 1 <= sizeY {
      v0' := LoadRow(A, g, r, c, i + 2, j, w);
      izq1, der1 := A[i + 1, j - 1], A[i + 1, j + w];
    }
    StoreRow(B, v12, g, h, r, c, i, j, w);
    if i + 1 <= sizeY {
      var v16 := Stencil(v8', v4', v0', izq1, der1, g, r, c, i + 1, j, w);
      if i + 2 <= sizeY {
        v4' := LoadRow(A, g, r, c, i + 3, j, w);
        izq2, der2 := A[i + 2, j - 1], A[i + 2, j + w];
      }
      StoreRow(B, v16, g, h, r, c, i + 1, j, w);
      if i + 2 <= sizeY {
        var v20 := Stencil(v0', v8', v4', izq2, der2, g, r, c, i + 2, j, w);
        if i + 3 <= sizeY {
          v8' := LoadRow(A, g, r, c, i + 4, j, w);
          izq0', der0' := A[i + 3, j - 1], A[i + 3, j + w];
        }
        StoreRow(B, v20, g, h, r, c, i + 2, j, w);
      }
    }
  }

  /** j2d_kernel_asm_v: strips of at most VLMAX columns, each from top to bottom. */
  method Kernel(r: nat, c: nat, A: array2<real>, B: array2<real>, ghost g: Grid, ghost h: Grid, vlmax: nat)
    requires r >= 3 && c >= 3 && vlmax >= 1 && A != B && Holds(A, g, r, c) && Holds(B, h, r, c)
    modifies B
    ensures Holds(A, g, r, c) && Holds(B, Sweep(g, h, r, c, r), r, c)
  {
    var sizeX, sizeY := c - 2, r - 2;
    var j := 1;
    while j <= sizeX
      invariant 1 <= j <= sizeX + 1
      invariant Holds(A, g, r, c) && Swept(B, g, h, r, c, j, 0, 1)
    {
      var gvl := SetVl(sizeX - j + 1, vlmax);
      var v0 := LoadRow(A, g, r, c, 0, j, gvl);
      var v4 := LoadRow(A, g, r, c, 1, j, gvl);
      var v8 := LoadRow(A, g, r, c, 2, j, gvl);
      var izq0, der0 := A[1, j - 1], A[1, j + gvl];
      var i := 1;
      assert Swept(B, g, h, r, c, j, gvl, 1);
      while i <= sizeY
        invariant 1 <= i <= sizeY + 3
        invariant Holds(A, g, r, c)
        invariant i <= sizeY ==> Ready(g, r, c, i, j, gvl, v0, v4, v8, izq0, der0)
        invariant Swept(B, g, h, r, c, j, gvl, if i <= r - 1 then i else r - 1)
      {
        hide Holds, Swept, Ready;
        v0, v4, v8, izq0, der0 := ThreeRows(r, c, A, B, g, h, i, j, gvl, v0, v4, v8, izq0, der0);
        i := i + 3;
      }
      j := j + gvl;
    }
  }

  /** j2d_v leaves in A and B what j2d_s leaves there. */
  method J2dVector(r: nat, c: nat, A: array2<real>, B: array2<real>, tsteps: nat, ghost A0: Grid, ghost B0: Grid, vlmax: nat)
    requires r >= 3 && c >= 3 && vlmax >= 1 && A != B && Holds(A, A0, r, c) && Holds(B, B0, r, c)
    modifies A, B
    ensures Holds(A, Steps(A0, B0, r, c, tsteps).0, r, c) && Holds(B, Steps(A0, B0, r, c, tsteps).1, r, c)
  {
    for t := 0 to tsteps
      invariant Holds(A, Steps(A0, B0, r, c, t).0, r, c) && Holds(B, Steps(A0, B0, r, c, t).1, r, c)
    {
      ghost var p, p' := Steps(A0, B0, r, c, t), Steps(A0, B0, r, c, t + 1);
      hide Holds, Sweep, IsGrid;
      Kernel(r, c, A, B, p.0, p.1, vlmax);
      Kernel(r, c, B, A, p'.1, p.0, vlmax);
    }
  }

  // ---------- What the stencil keeps ----------

  /** Boundary cells keep their values through all time steps. */
  lemma {:induction false} BoundaryStays(A: Grid, B: Grid, r: nat, c: nat, t: nat, i: nat, j: nat)
    requires IsGrid(A, r, c) && IsGrid(B, r, c) && i < r && j < c && !Interior(r, c, i, j)
    ensures Steps(A, B, r, c, t).0[i][j] == A[i][j] && Steps(A, B, r, c, t).1[i][j] == B[i][j]
  {
    if t == 0 {
    } else {
      BoundaryStays(A, B, r, c, t - 1, i, j);
    }
  }

  ghost predicate Within(g: Grid, r: nat, c: nat, lo: real, hi: real)
    requires IsGrid(g, r, c)
  {
    forall i, j :: 0 <= i < r && 0 <= j < c ==> lo <= g[i][j] <= hi
  }

  lemma MeanWithin(g: Grid, r: nat, c: nat, i: nat, j: nat, lo: real, hi: real)
    requires IsGrid(g, r, c) && Interior(r, c, i, j) && Within(g, r, c, lo, hi)
    ensures lo <= Mean(g, r, c, i, j) <= hi
  {
    assert lo <= g[i][j] <= hi && lo <= g[i][j - 1] <= hi && lo <= g[i][j + 1] <= hi;
    assert lo <= g[i + 1][j] <= hi && lo <= g[i - 1][j] <= hi;
  }

  lemma SweepWithin(g: Grid, h: Grid, r: nat, c: nat, lo: real, hi: real)
    requires IsGrid(g, r, c) && IsGrid(h, r, c) && Within(g, r, c, lo, hi) && Within(h, r, c, lo, hi)
    ensures Within(Sweep(g, h, r, c, r), r, c, lo, hi)
  {
    var s := Sweep(g, h, r, c, r);
    forall i, j | 0 <= i < r && 0 <= j < c ensures lo <= s[i][j] <= hi {
      if Interior(r, c, i, j) {
        MeanWithin(g, r, c, i, j, lo, hi);
      }
    }
  }

  /** The maximum principle: no time step leaves the range of the initial values. */
  lemma {:induction false} StaysWithin(A: Grid, B: Grid, r: nat, c: nat, t: nat, lo: real, hi: real)
    requires IsGrid(A, r, c) && IsGrid(B, r, c) && Within(A, r, c, lo, hi) && Within(B, r, c, lo, hi)
    ensures Within(Steps(A, B, r, c, t).0, r, c, lo, hi) && Within(Steps(A, B, r, c, t).1, r, c, lo, hi)
  {
    if t == 0 {
    } else {
      StaysWithin(A, B, r, c, t - 1, lo, hi);
      var p := Steps(A, B, r, c, t - 1);
      SweepWithin(p.0, p.1, r, c, lo, hi);
      SweepWithin(Sweep(p.0, p.1, r, c, r), p.0, r, c, lo, hi);
    }
  }

  // ---------- What the stencil is ----------

  /** A time step: B from A, then A from the new B, each interior cell a fifth of the sum of five cells. */
  lemma Recurrence(A: Grid, B: Grid, r: nat, c: nat, t: nat, i: nat, j: nat)
    requires IsGrid(A, r, c) && IsGrid(B, r, c) && i < r && j < c
    ensures var (a, b, a', b') := (Steps(A, B, r, c, t).0, Steps(A, B, r, c, t).1, Steps(A, B, r, c, t + 1).0, Steps(A, B, r, c, t + 1).1);
      if 1 <= i < r - 1 && 1 <= j < c - 1 then
        && b'[i][j] == (a[i][j] + a[i - 1][j] + a[i + 1][j] + a[i][j - 1] + a[i][j + 1]) / 5.0
        && a'[i][j] == (b'[i][j] + b'[i - 1][j] + b'[i + 1][j] + b'[i][j - 1] + b'[i][j + 1]) / 5.0
      else
        a'[i][j] == a[i][j] && b'[i][j] == b[i][j]
  {
    var p, p' := Steps(A, B, r, c, t), Steps(A, B, r, c, t + 1);
    assert p'.1 == Sweep(p.0, p.1, r, c, r) && p'.0 == Sweep(p'.1, p.0, r, c, r);
    hide Steps, Sweep;
  }

  /** One at (p, q), zero elsewhere. */
  ghost predicate IsImpulse(g: Grid, r: nat, c: nat, p: nat, q: nat) {
    IsGrid(g, r, c) && forall i, j :: 0 <= i < r && 0 <= j < c ==> g[i][j] == if i == p && j == q then 1.0 else 0.0
  }

  ghost predicate IsZero(g: Grid, r: nat, c: nat) {
    IsGrid(g, r, c) && forall i, j :: 0 <= i < r && 0 <= j < c ==> g[i][j] == 0.0
  }

  /** An impulse spreads to itself and its four neighbours, as far as they are inside, and nowhere else. */
  lemma ImpulseResponse(g: Grid, h: Grid, r: nat, c: nat, p: nat, q: nat, i: nat, j: nat)
    requires IsImpulse(g, r, c, p, q) && IsZero(h, r, c) && i < r && j < c
    ensures Sweep(g, h, r, c, r)[i][j]
         == if 1 <= i < r - 1 && 1 <= j < c - 1
              && ((i == p && (j == q || j == q + 1 || j + 1 == q)) || (j == q && (i == p + 1 || i + 1 == p)))
            then 0.2 else 0.0
  {
  }

  function Mix(x: real, a: real, y: real, b: real): real {
    x * a + y * b
  }

  /** u is x·f + y·g, cell by cell. */
  ghost predicate IsCombination(u: Grid, f: Grid, g: Grid, r: nat, c: nat, x: real, y: real) {
    && IsGrid(u, r, c) && IsGrid(f, r, c) && IsGrid(g, r, c)
    && forall i, j :: 0 <= i < r && 0 <= j < c ==> u[i][j] == Mix(x, f[i][j], y, g[i][j])
  }

  lemma MeanCombines(u: Grid, f: Grid, g: Grid, r: nat, c: nat, x: real, y: real, i: nat, j: nat)
    requires IsCombination(u, f, g, r, c, x, y) && Interior(r, c, i, j)
    ensures Mean(u, r, c, i, j) == Mix(x, Mean(f, r, c, i, j), y, Mean(g, r, c, i, j))
  {
    assert u[i][j] == Mix(x, f[i][j], y, g[i][j]);
    assert u[i][j - 1] == Mix(x, f[i][j - 1], y, g[i][j - 1]);
    assert u[i][j + 1] == Mix(x, f[i][j + 1], y, g[i][j + 1]);
    assert u[i + 1][j] == Mix(x, f[i + 1][j], y, g[i + 1][j]);
    assert u[i - 1][j] == Mix(x, f[i - 1][j], y, g[i - 1][j]);
    FiveTerms(x, f[i][j], f[i][j - 1], f[i][j + 1], f[i + 1][j], f[i - 1][j]);
    FiveTerms(y, g[i][j], g[i][j - 1], g[i][j + 1], g[i + 1][j], g[i - 1][j]);
  }

  lemma FiveTerms(x: real, a: real, b: real, c: real, d: real, e: real)
    ensures x * (0.2 * (a + b + c + d + e)) == 0.2 * (x * a + x * b + x * c + x * d + x * e)
  {
    assert x * (a + b + c + d + e) == x * a + x * b + x * c + x * d + x * e;
  }

  /** A sweep is linear. */
  lemma SweepIsLinear(u: Grid, f: Grid, g: Grid, u': Grid, f': Grid, g': Grid, r: nat, c: nat, x: real, y: real)
    requires IsCombination(u, f, g, r, c, x, y) && IsCombination(u', f', g', r, c, x, y)
    ensures IsCombination(Sweep(u, u', r, c, r), Sweep(f, f', r, c, r), Sweep(g, g', r, c, r), r, c, x, y)
  {
    hide Mean, Mix;
    var v, a, b := Sweep(u, u', r, c, r), Sweep(f, f', r, c, r), Sweep(g, g', r, c, r);
    forall i, j | 0 <= i < r && 0 <= j < c ensures v[i][j] == Mix(x, a[i][j], y, b[i][j]) {
      if Interior(r, c, i, j) {
        MeanCombines(u, f, g, r, c, x, y, i, j);
      }
    }
  }

  /** So are any number of time steps. */
  lemma {:induction false} StepsAreLinear(A: Grid, B: Grid, A1: Grid, B1: Grid, A2: Grid, B2: Grid, r: nat, c: nat, x: real, y: real, t: nat)
    requires IsCombination(A, A1, A2, r, c, x, y) && IsCombination(B, B1, B2, r, c, x, y)
    ensures IsCombination(Steps(A, B, r, c, t).0, Steps(A1, B1, r, c, t).0, Steps(A2, B2, r, c, t).0, r, c, x, y)
    ensures IsCombination(Steps(A, B, r, c, t).1, Steps(A1, B1, r, c, t).1, Steps(A2, B2, r, c, t).1, r, c, x, y)
  {
    if t == 0 {
    } else {
      StepsAreLinear(A, B, A1, B1, A2, B2, r, c, x, y, t - 1);
      var p, p1, p2 := Steps(A, B, r, c, t - 1), Steps(A1, B1, r, c, t - 1), Steps(A2, B2, r, c, t - 1);
      SweepIsLinear(p.0, p1.0, p2.0, p.1, p1.1, p2.1, r, c, x, y);
      var b, b1, b2 := Sweep(p.0, p.1, r, c, r), Sweep(p1.0, p1.1, r, c, r), Sweep(p2.0, p2.1, r, c, r);
      SweepIsLinear(b, b1, b2, p.0, p1.0, p2.0, r, c, x, y);
    }
  }

  /** The grid is a plane: a constant, and a slope along rows and columns. */
  ghost predicate IsPlane(g: Grid, r: nat, c: nat, x: real, y: real, z: real) {
    IsGrid(g, r, c) && forall i, j :: 0 <= i < r && 0 <= j < c ==> g[i][j] == PlaneAt(x, y, z, i, j)
  }

  function PlaneAt(x: real, y: real, z: real, i: int, j: int): real {
    x + y * (i as real) + z * (j as real)
  }

  lemma PlaneNeighbours(x: real, y: real, z: real, i: int, j: int)
    ensures PlaneAt(x, y, z, i + 1, j) == PlaneAt(x, y, z, i, j) + y && PlaneAt(x, y, z, i - 1, j) == PlaneAt(x, y, z, i, j) - y
    ensures PlaneAt(x, y, z, i, j + 1) == PlaneAt(x, y, z, i, j) + z && PlaneAt(x, y, z, i, j - 1) == PlaneAt(x, y, z, i, j) - z
  {
    assert (i + 1) as real == i as real + 1.0 && (i - 1) as real == i as real - 1.0;
    assert (j + 1) as real == j as real + 1.0 && (j - 1) as real == j as real - 1.0;
  }

  lemma PlaneSweep(g: Grid, h: Grid, r: nat, c: nat, x: real, y: real, z: real)
    requires IsPlane(g, r, c, x, y, z) && IsPlane(h, r, c, x, y, z)
    ensures IsPlane(Sweep(g, h, r, c, r), r, c, x, y, z)
  {
    var s := Sweep(g, h, r, c, r);
    forall i, j | 0 <= i < r && 0 <= j < c ensures s[i][j] == PlaneAt(x, y, z, i, j) {
      hide PlaneAt;
      if Interior(r, c, i, j) {
        PlaneNeighbours(x, y, z, i, j);
        assert g[i][j] == PlaneAt(x, y, z, i, j);
        assert g[i + 1][j] == PlaneAt(x, y, z, i + 1, j) && g[i - 1][j] == PlaneAt(x, y, z, i - 1, j);
        assert g[i][j + 1] == PlaneAt(x, y, z, i, j + 1) && g[i][j - 1] == PlaneAt(x, y, z, i, j - 1);
      }
    }
  }

  /** Planes are the steady state: no number of time steps changes them. */
  lemma {:induction false} PlanesStay(A: Grid, B: Grid, r: nat, c: nat, x: real, y: real, z: real, t: nat)
    requires IsPlane(A, r, c, x, y, z) && IsPlane(B, r, c, x, y, z)
    ensures IsPlane(Steps(A, B, r, c, t).0, r, c, x, y, z) && IsPlane(Steps(A, B, r, c, t).1, r, c, x, y, z)
  {
    if t == 0 {
    } else {
      PlanesStay(A, B, r, c, x, y, z, t - 1);
      var p := Steps(A, B, r, c, t - 1);
      PlaneSweep(p.0, p.1, r, c, x, y, z);
      PlaneSweep(Sweep(p.0, p.1, r, c, r), p.0, r, c, x, y, z);
    }
  }
}
