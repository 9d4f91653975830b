/**
  The two vector forms of apps/pathfinder/kernel/pathfinder.c.
 */
module PathfinderVector {
  import opened Arith
  import opened Pathfinder
  import opened VectorUnit

  /** `vmin.vv` */
  method VMin(a: seq<int32>, b: seq<int32>) returns (r: seq<int32>)
    requires |a| == |b|
    ensures |r| == |a| && forall k :: 0 <= k < |a| ==> r[k] == Min(a[k], b[k])
  {
    r := [];
    for i := 0 to |a|
      invariant |r| == i && forall k :: 0 <= k < i ==> r[k] == Min(a[k], b[k])
    {
      r := r + [Min(a[i], b[i])];
    }
  }

  /** `vadd.vv` on 32-bit elements */
  method VAdd32(a: seq<int32>, b: seq<int32>) returns (r: seq<int32>)
    requires |a| == |b|
    ensures |r| == |a| && forall k :: 0 <= k < |a| ==> r[k] == Add32(a[k], b[k])
  {
    r := [];
    for i := 0 to |a|
      invariant |r| == i && forall k :: 0 <= k < i ==> r[k] == Add32(a[k], b[k])
    {
      r := r + [Add32(a[i], b[i])];
    }
  }

  // ---------- run_vector: in place, strip by strip ----------

  /** Columns before n are row t + 1 already, the others still row t. */
  ghost predicate Between(W: Wall, rows: nat, cols: nat, t: nat, n: nat, a: seq<int32>) {
    && IsWall(W, rows, cols) && t + 1 < rows && |a| == cols && n <= cols
    && (forall k :: 0 <= k < n ==> a[k] == Cell(W, rows, cols, t + 1, k))
    && forall k :: n <= k < cols ==> a[k] == Cell(W, rows, cols, t, k)
  }

  /** The program's step at one column. */
  lemma CellStep(W: Wall, rows: nat, cols: nat, t: nat, n: nat)
    requires IsWall(W, rows, cols) && t + 1 < rows && n < cols
    ensures Cell(W, rows, cols, t + 1, n)
         == Add32(W[t + 1][n], Min3(Cell(W, rows, cols, t, Left(n)), Cell(W, rows, cols, t, n), Cell(W, rows, cols, t, Right(n, cols))))
  {
  }

  /** The new strip, in a register: aux and aux2 are the two old cells just outside it. */
  method Strip(W: Wall, rows: nat, cols: nat, t: nat, n: nat, xSrc: seq<int32>, aux: int32, aux2: int32)
      returns (xNextrow: seq<int32>)
    requires IsWall(W, rows, cols) && t + 1 < rows && |xSrc| >= 1 && n + |xSrc| <= cols
    requires forall k :: 0 <= k < |xSrc| ==> xSrc[k] == Cell(W, rows, cols, t, n + k)
    requires aux == Cell(W, rows, cols, t, Left(n)) && aux2 == Cell(W, rows, cols, t, Right(n + |xSrc| - 1, cols))
    ensures |xNextrow| == |xSrc| && forall k :: 0 <= k < |xSrc| ==> xNextrow[k] == Cell(W, rows, cols, t + 1, n + k)
  {
    hide Cell;
    var xSrcSlideup := Slide1Up(xSrc, aux);
    var xSrcSlidedown := Slide1Down(xSrc, aux2);
    var min := VMin(xSrc, xSrcSlideup);
    min := VMin(min, xSrcSlidedown);
    xNextrow := W[t + 1][n..n + |xSrc|];
    xNextrow := VAdd32(xNextrow, min);
    forall k | 0 <= k < |xSrc| ensures xNextrow[k] == Cell(W, rows, cols, t + 1, n + k) {
      CellStep(W, rows, cols, t, n + k);
      assert xSrcSlideup[k] == Cell(W, rows, cols, t, Left(n + k));
      assert xSrcSlidedown[k] == Cell(W, rows, cols, t, Right(n + k, cols));
    }
  }

  /** One strip of the row; aux keeps its last old cell for the next strip, before it is overwritten. */
  method RunVectorStrip(W: Wall, dst: array<int32>, cols: nat, rows: nat, t: nat, n: nat, aux: int32, vlmax: nat)
      returns (gvl: nat, aux': int32)
    requires n < cols <= dst.Length && vlmax >= 1 && Between(W, rows, cols, t, n, dst[..cols])
    requires aux == Cell(W, rows, cols, t, Left(n))
    modifies dst
    ensures gvl == SetVl(cols - n, vlmax) && Between(W, rows, cols, t, n + gvl, dst[..cols])
    ensures n + gvl < cols ==> aux' == Cell(W, rows, cols, t, Left(n + gvl))
    ensures dst[cols..] == old(dst[cols..])
  {
    hide Cell, IsWall;
    gvl := SetVl(cols - n, vlmax);
    var xNextrow := dst[n..n + gvl];
    var aux2 := if n + gvl >= cols then dst[n + gvl - 1] else dst[n + gvl];
    xNextrow := Strip(W, rows, cols, t, n, xNextrow, aux, aux2);
    aux' := dst[n + gvl - 1];
    VStore(dst, n, xNextrow);
  }

  /** One row of the program, overwriting the row before. */
  method RunVectorRow(W: Wall, dst: array<int32>, cols: nat, rows: nat, t: nat, vlmax: nat)
    requires 1 <= cols <= dst.Length && vlmax >= 1 && t + 1 < rows && HoldsRow(W, rows, cols, t, false, dst[..cols])
    modifies dst
    ensures HoldsRow(W, rows, cols, t + 1, false, dst[..cols]) && dst[cols..] == old(dst[cols..])
  {
    var aux := dst[0];
    var n := 0;
    while n < cols
      invariant Between(W, rows, cols, t, n, dst[..cols]) && dst[cols..] == old(dst[cols..])
      invariant n < cols ==> aux == Cell(W, rows, cols, t, Left(n))
    {
      hide Between;
      var gvl;
      gvl, aux := RunVectorStrip(W, dst, cols, rows, t, n, aux, vlmax);
      n := n + gvl;
    }
  }

  /** The wall as it lies in memory, row after row. */
  function WallAt(W: Wall, rows: nat, cols: nat, p: nat): int32
    requires IsWall(W, rows, cols) && p < rows * cols
  {
    InWall(rows, cols, p);
    W[p / cols][p % cols]
  }

  lemma InWall(rows: nat, cols: nat, p: nat)
    requires p < rows * cols
    ensures cols > 0 && p / cols < rows && p % cols < cols
    ensures p < cols ==> p / cols == 0 && p % cols == p
  {
    assert cols > 0;
    MulDivMod(rows, cols);
    assert cols * rows == rows * cols;
    BlockBelow(p, rows * cols, cols);
    if p < cols {
      DivModUnique(p, cols, 0, p);
    }
  }

  /** Behind the last cell that the copy loop stores: every strip of it asks for all columns. */
  function CopyEnd(cols: nat, gvl: nat, n: nat): (end: nat)
    requires gvl >= 1
    ensures n <= end && cols <= end
    decreases cols - n
  {
    if n >= cols then n else CopyEnd(cols, gvl, n + gvl)
  }

  lemma {:induction false} CopyEndIsNext(cols: nat, gvl: nat, n: nat)
    requires gvl >= 1 && n % gvl == 0 && n < cols + gvl
    ensures CopyEnd(cols, gvl, n) % gvl == 0 && CopyEnd(cols, gvl, n) < cols + gvl
    decreases cols + gvl - n
  {
    if n >= cols {
      assert CopyEnd(cols, gvl, n) == n;
    } else {
      ShiftMod(gvl, n, gvl);
      MulDivMod(1, gvl);
      CopyEndIsNext(cols, gvl, n + gvl);
    }
  }

  /** The copy loop stays inside a row of cols cells if and only if the row fits one strip, or strips of VLMAX tile it. */
  lemma CopyStaysInRowIff(cols: nat, vlmax: nat)
    requires cols >= 1 && vlmax >= 1
    ensures CopyEnd(cols, SetVl(cols, vlmax), 0) == cols <==> cols <= vlmax || cols % vlmax == 0
    ensures CopyEnd(cols, SetVl(cols, vlmax), 0) < cols + SetVl(cols, vlmax)
  {
    var gvl := SetVl(cols, vlmax);
    var end := CopyEnd(cols, gvl, 0);
    CopyEndIsNext(cols, gvl, 0);
    if cols <= vlmax {
      MulDivMod(1, cols);
    }
    if cols % gvl == 0 && end > cols {
      BlockBelow(cols, end, gvl);
    }
  }

  /** Five columns with VLMAX == 4: the second strip stores columns 4 to 7. */
  lemma CopyLeavesRow()
    ensures CopyEnd(5, SetVl(5, 4), 0) == 8
  {
    assert CopyEnd(5, 4, 4) == CopyEnd(5, 4, 8);
  }

  /** Before and after the copy loop has reached cell n. */
  ghost predicate Copied(W: Wall, rows: nat, cols: nat, n: nat, before: seq<int32>, a: seq<int32>) {
    && IsWall(W, rows, cols) && n <= |a| == |before| && n <= rows * cols
    && (forall k :: 0 <= k < n ==> a[k] == WallAt(W, rows, cols, k))
    && forall k :: n <= k < |a| ==> a[k] == before[k]
  }

  /** `vle32.v` from the wall. */
  method LoadWall(W: Wall, rows: nat, cols: nat, p: nat, vl: nat) returns (v: seq<int32>)
    requires IsWall(W, rows, cols) && p + vl <= rows * cols
    ensures |v| == vl && forall k :: 0 <= k < vl ==> v[k] == WallAt(W, rows, cols, p + k)
  {
    v := [];
    for i := 0 to vl
      invariant |v| == i && forall k :: 0 <= k < i ==> v[k] == WallAt(W, rows, cols, p + k)
    {
      v := v + [WallAt(W, rows, cols, p + i)];
    }
  }

  lemma StripIsCopied(W: Wall, rows: nat, cols: nat, n: nat, vl: nat, before: seq<int32>, a: seq<int32>, a': seq<int32>, v: seq<int32>)
    requires Copied(W, rows, cols, n, before, a) && |v| == vl && n + vl <= |a| == |a'| && n + vl <= rows * cols
    requires forall k :: 0 <= k < vl ==> v[k] == WallAt(W, rows, cols, n + k)
    requires forall k :: 0 <= k < |a| ==> a'[k] == if n <= k < n + vl then v[k - n] else a[k]
    ensures Copied(W, rows, cols, n + vl, before, a')
  {
    hide WallAt, IsWall;
    forall k | 0 <= k < n + vl ensures a'[k] == WallAt(W, rows, cols, k) {
      if k >= n {
        assert v[k - n] == WallAt(W, rows, cols, n + (k - n));
      }
    }
  }

  /** The copy loop of `run_vector`, up to its end, in the row or behind it. */
  method CopyFirstRow(W: Wall, resultV: array<int32>, cols: nat, rows: nat, vlmax: nat)
    requires IsWall(W, rows, cols) && cols >= 1 && vlmax >= 1
    requires CopyEnd(cols, SetVl(cols, vlmax), 0) <= resultV.Length && CopyEnd(cols, SetVl(cols, vlmax), 0) <= rows * cols
    modifies resultV
    ensures Copied(W, rows, cols, CopyEnd(cols, SetVl(cols, vlmax), 0), old(resultV[..]), resultV[..])
  {
    ghost var before := resultV[..];
    var n, gvl := 0, SetVl(cols, vlmax);
    assert gvl >= 1;
    ghost var end := CopyEnd(cols, gvl, 0);
    while n < cols
      invariant gvl == SetVl(cols, vlmax) && CopyEnd(cols, gvl, n) == end
      invariant Copied(W, rows, cols, n, before, resultV[..])
    {
      gvl := SetVl(cols, vlmax);
      assert CopyEnd(cols, gvl, n + gvl) == end && n + gvl <= end;
      hide *;
      var temp := LoadWall(W, rows, cols, n, gvl);
      ghost var a := resultV[..];
      VStore(resultV, n, temp);
      StripIsCopied(W, rows, cols, n, gvl, before, a, resultV[..], temp);
      n := n + gvl;
    }
  }

  lemma CopiedIsFirstRow(W: Wall, rows: nat, cols: nat, n: nat, before: seq<int32>, a: seq<int32>)
    requires Copied(W, rows, cols, n, before, a) && cols <= n && cols >= 1 && rows >= 1
    ensures HoldsRow(W, rows, cols, 0, false, a[..cols])
  {
    forall k | 0 <= k < cols ensures a[k] == W[0][k] {
      InWall(rows, cols, k);
      assert a[k] == WallAt(W, rows, cols, k);
    }
  }

  /** The cells behind the row: overwritten by the copy loop up to its end, then untouched. */
  ghost predicate Spilt(W: Wall, rows: nat, cols: nat, end: nat, before: seq<int32>, a: seq<int32>) {
    && IsWall(W, rows, cols) && cols <= end <= |a| == |before| && end <= rows * cols
    && forall k :: cols <= k < |a| ==> a[k] == if k < end then WallAt(W, rows, cols, k) else before[k]
  }

  lemma CopiedIsSpilt(W: Wall, rows: nat, cols: nat, end: nat, before: seq<int32>, a: seq<int32>)
    requires Copied(W, rows, cols, end, before, a) && cols <= end
    ensures Spilt(W, rows, cols, end, before, a)
  {
  }

  lemma SpiltAgain(W: Wall, rows: nat, cols: nat, end: nat, before: seq<int32>, a: seq<int32>, a': seq<int32>)
    requires Spilt(W, rows, cols, end, before, a) && |a'| == |a| && a'[cols..] == a[cols..]
    ensures Spilt(W, rows, cols, end, before, a')
  {
    hide WallAt, IsWall;
    forall k | cols <= k < |a| ensures a'[k] == a[k] {
      assert a'[cols..][k - cols] == a[cols..][k - cols];
    }
  }

  lemma SpiltTwice(W: Wall, rows: nat, cols: nat, end: nat, before: seq<int32>, mid: seq<int32>, a: seq<int32>)
    requires Spilt(W, rows, cols, end, before, mid) && Spilt(W, rows, cols, end, mid, a)
    ensures Spilt(W, rows, cols, end, before, a)
  {
    hide WallAt, IsWall;
  }

  /** One run. */
  method RunVectorOnce(W: Wall, resultV: array<int32>, cols: nat, rows: nat, vlmax: nat)
    requires IsWall(W, rows, cols) && rows >= 1 && cols >= 1 && vlmax >= 1
    requires CopyEnd(cols, SetVl(cols, vlmax), 0) <= resultV.Length && CopyEnd(cols, SetVl(cols, vlmax), 0) <= rows * cols
    modifies resultV
    ensures HoldsRow(W, rows, cols, rows - 1, false, resultV[..cols])
    ensures Spilt(W, rows, cols, CopyEnd(cols, SetVl(cols, vlmax), 0), old(resultV[..]), resultV[..])
  {
    ghost var before, end := resultV[..], CopyEnd(cols, SetVl(cols, vlmax), 0);
    CopyFirstRow(W, resultV, cols, rows, vlmax);
    CopiedIsFirstRow(W, rows, cols, end, before, resultV[..]);
    CopiedIsSpilt(W, rows, cols, end, before, resultV[..]);
    hide *;
    for t := 0 to rows - 1
      invariant HoldsRow(W, rows, cols, t, false, resultV[..cols])
      invariant Spilt(W, rows, cols, end, before, resultV[..])
    {
      ghost var a := resultV[..];
      RunVectorRow(W, resultV, cols, rows, t, vlmax);
      assert resultV[..][cols..] == a[cols..];
      SpiltAgain(W, rows, cols, end, before, a, resultV[..]);
    }
  }

  /**
    `run_vector` computes in place the row that `run` computes with two buffers, in any number of columns, as
    long as its copy loop stays inside the memory of the wall and of the result.  CopyStaysInRowIff says when
    a result of cols cells is enough.
   */
  method RunVector(W: Wall, resultV: array<int32>, cols: nat, rows: nat, numRuns: nat, vlmax: nat)
    requires IsWall(W, rows, cols) && rows >= 1 && cols >= 1 && vlmax >= 1
    requires CopyEnd(cols, SetVl(cols, vlmax), 0) <= resultV.Length && CopyEnd(cols, SetVl(cols, vlmax), 0) <= rows * cols
    modifies resultV
    ensures numRuns >= 1 ==> HoldsRow(W, rows, cols, rows - 1, false, resultV[..cols])
    ensures numRuns >= 1 ==> Spilt(W, rows, cols, CopyEnd(cols, SetVl(cols, vlmax), 0), old(resultV[..]), resultV[..])
    ensures numRuns == 0 ==> resultV[..] == old(resultV[..])
  {
    ghost var before, end := resultV[..], CopyEnd(cols, SetVl(cols, vlmax), 0);
    hide HoldsRow, Spilt, CopyEnd;
    for j := 0 to numRuns
      invariant j >= 1 ==> HoldsRow(W, rows, cols, rows - 1, false, resultV[..cols]) && Spilt(W, rows, cols, end, before, resultV[..])
      invariant j == 0 ==> resultV[..] == before
    {
      ghost var mid := resultV[..];
      RunVectorOnce(W, resultV, cols, rows, vlmax);
      if j >= 1 {
        SpiltTwice(W, rows, cols, end, before, mid, resultV[..]);
      }
    }
  }

  // ---------- run_vector_short_m4: three rows at a time, in registers ----------

  /** The register holds row t. */
  ghost predicate RowIn(W: Wall, rows: nat, cols: nat, t: nat, v: seq<int32>) {
    HoldsRow(W, rows, cols, t, false, v)
  }

  /** One row: slides and minimum on the row before, whose outer neighbours are the neutral value, plus the wall. */
  method NextRow(W: Wall, rows: nat, cols: nat, ghost t: nat, v: seq<int32>, wall: seq<int32>, neutral: int32)
      returns (r: seq<int32>)
    requires cols >= 1 && t + 1 < rows && RowIn(W, rows, cols, t, v) && wall == W[t + 1]
    requires neutral == TWO_TO_THE_31 - 1
    ensures RowIn(W, rows, cols, t + 1, r)
  {
    var slideup := Slide1Up(v, neutral);
    var slidedown := Slide1Down(v, neutral);
    var acc := VMin(v, slideup);
    acc := VMin(acc, slidedown);
    r := VAdd32(wall, acc);
    forall n | 0 <= n < cols ensures r[n] == Cell(W, rows, cols, t + 1, n) {
      assert v[n] == Cell(W, rows, cols, t, n);
      assert Min(v[n], slideup[n]) == Min(v[n], v[Left(n)]);
    }
  }

  /** One trip of the loop: on exit v0, v4 and v16 hold rows t + 1, t + 2 and t + 3, as far as they exist. */
  method ThreeRows(W: Wall, rows: nat, cols: nat, t: nat, v4: seq<int32>, v16: seq<int32>, neutral: int32)
      returns (v0: seq<int32>, v4': seq<int32>, v16': seq<int32>)
    requires IsWall(W, rows, cols) && cols >= 1 && t < rows - 1 && RowIn(W, rows, cols, t, v16) && neutral == TWO_TO_THE_31 - 1
    ensures RowIn(W, rows, cols, t + 1, v0)
    ensures if t + 1 < rows - 1 then RowIn(W, rows, cols, t + 2, v4') else v4' == v4
    ensures if t + 2 < rows - 1 then RowIn(W, rows, cols, t + 3, v16') else v16' == v16
  {
    hide HoldsRow;
    v4', v16' := v4, v16;
    v0 := W[t + 1];
    if t + 1 < rows - 1 {
      v4' := W[t + 2];
    }
    v0 := NextRow(W, rows, cols, t, v16', v0, neutral);
    if t + 1 < rows - 1 {
      if t + 2 < rows - 1 {
        v16' := W[t + 3];
      }
      v4' := NextRow(W, rows, cols, t + 1, v0, v4', neutral);
      if t + 2 < rows - 1 {
        v16' := NextRow(W, rows, cols, t + 2, v4', v16', neutral);
      }
    }
  }

  /** uint32_t subtraction. */
  function SubU32(a: nat, b: nat): nat {
    (a - b) % TWO_TO_THE_32
  }

  /** The register that is stored, by unsigned comparisons. */
  function Chosen(rows: nat, t: nat, v0: seq<int32>, v16: seq<int32>, v4: seq<int32>): seq<int32>
    requires rows >= 1
  {
    if SubU32(t, 2) >= rows - 1 then v0
    else if SubU32(t, 1) < rows - 1 then v16
    else v4
  }

  /** The row that the code as written leaves in result_v. */
  function RowLeft(rows: nat): (t: nat)
    requires rows >= 2
    ensures t < rows
  {
    if rows <= 4 then 1
    else if (rows - 1) % 3 == 0 then rows - 1
    else 3 * ((rows - 2) / 3)
  }

  /**
    `run_vector_short_m4` as written: the store is chosen inside the loop, before t moves on, and
    with unsigned differences.
   */
  method RunVectorShortM4(W: Wall, resultV: array<int32>, cols: nat, rows: nat, numRuns: nat, neutral: int32, vlmax: nat)
    requires IsWall(W, rows, cols) && 2 <= rows < TWO_TO_THE_32 && 1 <= cols <= vlmax && resultV.Length == cols
    requires neutral == TWO_TO_THE_31 - 1
    modifies resultV
    ensures numRuns >= 1 ==> RowIn(W, rows, cols, RowLeft(rows), resultV[..])
    ensures numRuns == 0 ==> resultV[..] == old(resultV[..])
  {
    for j := 0 to numRuns
      invariant j >= 1 ==> RowIn(W, rows, cols, RowLeft(rows), resultV[..])
      invariant j == 0 ==> resultV[..] == old(resultV[..])
    {
      var v16 := W[0];
      var v4 := v16;   // any contents
      assert RowIn(W, rows, cols, 0, v16);
      hide RowIn, HoldsRow, Chosen, RowLeft, SubU32, Cell;
      var t := 0;
      while t < rows - 1
        invariant t % 3 == 0 && t < rows + 2
        invariant t < rows - 1 ==> RowIn(W, rows, cols, t, v16)
        invariant t > 0 ==> RowIn(W, rows, cols, StoredAt(rows, t - 3), resultV[..])
      {
        var v0;
        v0, v4, v16 := ThreeRows(W, rows, cols, t, v4, v16, neutral);
        ChosenInside(rows, t, v0, v16, v4);
        RowHasCols(W, rows, cols, t + 1, v0);
        RowHasCols(W, rows, cols, StoredAt(rows, t), v16);
        Save(resultV, Chosen(rows, t, v0, v16, v4));
        t := t + 3;
      }
      LastStore(rows, t);
    }
  }

  /** The row stored by the trip that starts at t. */
  function StoredAt(rows: nat, t: nat): nat {
    if t == 0 then 1 else if t + 3 < rows then t + 3 else t
  }

  /** The last trip decides. */
  lemma LastStore(rows: nat, t: nat)
    requires rows >= 2 && t % 3 == 0 && 3 <= t < rows + 2 && t >= rows - 1
    ensures StoredAt(rows, t - 3) == RowLeft(rows)
  {
  }

  /** Inside the loop the unsigned comparisons pick v0 on the first trip and v16 on all others. */
  lemma ChosenInside(rows: nat, t: nat, v0: seq<int32>, v16: seq<int32>, v4: seq<int32>)
    requires rows < TWO_TO_THE_32 && t < rows - 1 && t % 3 == 0
    ensures Chosen(rows, t, v0, v16, v4) == if t == 0 then v0 else v16
  {
    assert t > 0 ==> SubU32(t, 2) == t - 2 && SubU32(t, 1) == t - 1;
    assert SubU32(0, 2) == TWO_TO_THE_32 - 2;
  }

  lemma RowHasCols(W: Wall, rows: nat, cols: nat, t: nat, v: seq<int32>)
    ensures RowIn(W, rows, cols, t, v) ==> |v| == cols
  {
  }

  method Save(a: array<int32>, v: seq<int32>)
    requires a.Length == |v|
    modifies a
    ensures a[..] == v
  {
    VStore(a, 0, v);
  }

  /** The same loop with the choice made after it, on the advanced t: right for every number of rows. */
  method RunVectorShortM4StoreLast(W: Wall, resultV: array<int32>, cols: nat, rows: nat, neutral: int32, vlmax: nat)
    requires IsWall(W, rows, cols) && 2 <= rows < TWO_TO_THE_32 - 3 && 1 <= cols <= vlmax && resultV.Length == cols
    requires neutral == TWO_TO_THE_31 - 1
    modifies resultV
    ensures RowIn(W, rows, cols, rows - 1, resultV[..])
  {
    var v16 := W[0];
    var v0, v4 := v16, v16;
    var t := 0;
    while t < rows - 1
      invariant t % 3 == 0 && t < rows + 2
      invariant t < rows - 1 ==> RowIn(W, rows, cols, t, v16)
      invariant t == rows - 1 ==> RowIn(W, rows, cols, t, v16)
      invariant t == rows ==> RowIn(W, rows, cols, t - 1, v4)
      invariant t == rows + 1 ==> RowIn(W, rows, cols, t - 2, v0)
    {
      v0, v4, v16 := ThreeRows(W, rows, cols, t, v4, v16, neutral);
      t := t + 3;
    }
    Save(resultV, Chosen(rows, t, v0, v16, v4));
  }

  /** Zero rows and then a row of ones: only the last row of the program is not zero. */
  lemma OnlyLastRowCounts(rows: nat, cols: nat) returns (W: Wall)
    requires rows >= 2 && cols >= 1
    ensures IsWall(W, rows, cols) && Cell(W, rows, cols, rows - 1, 0) == 1
    ensures forall t :: 0 <= t < rows - 1 ==> Cell(W, rows, cols, t, 0) == 0
  {
    W := FlatWall(rows - 1, cols) + [BonusRow(cols, 1)];
    CellAfterZeros(W, rows, cols, rows - 2, 0);
    forall t | 0 <= t < rows - 1 ensures Cell(W, rows, cols, t, 0) == 0 {
      ZeroCells(W, rows, cols, t, 0);
    }
  }

  lemma RowLeftIsLastIff(rows: nat)
    requires rows >= 2
    ensures RowLeft(rows) == rows - 1 <==> (rows == 2 || (rows >= 7 && rows % 3 == 1))
  {
    assert 3 * ((rows - 2) / 3) < rows - 1;
  }

  /** Row t of the program is its last row, for every wall. */
  ghost predicate IsLastRow(rows: nat, cols: nat, t: nat)
    requires t < rows
  {
    forall W: Wall, n | IsWall(W, rows, cols) && 0 <= n < cols :: Cell(W, rows, cols, t, n) == Cell(W, rows, cols, rows - 1, n)
  }

  lemma IsLastRowIff(rows: nat, cols: nat, t: nat)
    requires rows >= 2 && cols >= 1 && t < rows
    ensures IsLastRow(rows, cols, t) <==> t == rows - 1
  {
    if t != rows - 1 {
      var W := OnlyLastRowCounts(rows, cols);
      hide Cell, IsWall;
      assert Cell(W, rows, cols, t, 0) != Cell(W, rows, cols, rows - 1, 0);
    }
  }

  /** As written, the last row is left behind for every wall exactly when rows is 2, or 7, 10, 13, ... */
  lemma ShortM4IsRightIff(rows: nat, cols: nat)
    requires rows >= 2 && cols >= 1
    ensures IsLastRow(rows, cols, RowLeft(rows)) <==> (rows == 2 || (rows >= 7 && rows % 3 == 1))
  {
    hide IsLastRow, RowLeft;
    RowLeftIsLastIff(rows);
    IsLastRowIff(rows, cols, RowLeft(rows));
  }
}
