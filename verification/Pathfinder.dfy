/**
  apps/pathfinder/kernel/pathfinder.c: cheapest row-to-row paths through a wall of costs.
  One out-of-place scalar dynamic program, and two vector forms of it.
 */
module Pathfinder {
  import opened Arith

  const TWO_TO_THE_31: int := 0x8000_0000
  const TWO_TO_THE_32: int := 0x1_0000_0000

  predicate IsInt32(x: int) {
    -TWO_TO_THE_31 <= x < TWO_TO_THE_31
  }

  type int32 = x: int | IsInt32(x)

  /** Addition as the hardware does it, scalar and vector. */
  function Add32(a: int32, b: int32): (r: int32)
    ensures IsInt32(a + b) ==> r == a + b
  {
    (a + b + TWO_TO_THE_31) % TWO_TO_THE_32 - TWO_TO_THE_31
  }

  function Min(a: int, b: int): int {
    if a <= b then a else b
  }

  function Min3(a: int, b: int, c: int): int {
    Min(Min(b, a), c)
  }

  /** The column to the left, or the first column itself. */
  function Left(n: nat): nat {
    if n > 0 then n - 1 else n
  }

  /** The column to the right, or the last column itself. */
  function Right(n: nat, cols: nat): (r: nat)
    requires n < cols
    ensures r < cols
  {
    if n < cols - 1 then n + 1 else n
  }

  type Wall = seq<seq<int32>>

  ghost predicate IsWall(W: Wall, rows: nat, cols: nat) {
    |W| == rows && forall t :: 0 <= t < rows ==> |W[t]| == cols
  }

  // ---------- The dynamic program, and what it is for ----------

  /** Row t of the dynamic program at column n, out of place. */
  function Cell(W: Wall, rows: nat, cols: nat, t: nat, n: nat): int32
    requires IsWall(W, rows, cols) && t < rows && n < cols
    decreases t
  {
    if t == 0 then W[0][n]
    else
      var best := Min3(Cell(W, rows, cols, t - 1, Left(n)), Cell(W, rows, cols, t - 1, n), Cell(W, rows, cols, t - 1, Right(n, cols)));
      Add32(W[t][n], best)
  }

  /** With overflow or without: the cost of the cell and the least of its neighbours above, modulo 2^32 in two's complement. */
  lemma Recurrence(W: Wall, rows: nat, cols: nat, t: nat, n: nat) returns (k: nat)
    requires IsWall(W, rows, cols) && t + 1 < rows && n < cols
    ensures k < cols && n - 1 <= k <= n + 1
    ensures forall j :: 0 <= j < cols && n - 1 <= j <= n + 1 ==> Cell(W, rows, cols, t, k) <= Cell(W, rows, cols, t, j)
    ensures var r := Cell(W, rows, cols, t + 1, n);
            (r - W[t + 1][n] - Cell(W, rows, cols, t, k)) % 0x1_0000_0000 == 0 && -0x8000_0000 <= r < 0x8000_0000
  {
    hide Cell, Add32;
    var l, m, r := Cell(W, rows, cols, t, Left(n)), Cell(W, rows, cols, t, n), Cell(W, rows, cols, t, Right(n, cols));
    k := if l <= m && l <= r then Left(n) else if m <= r then n else Right(n, cols);
    NextCell(W, rows, cols, t, n);
    AddWraps(W[t + 1][n], Cell(W, rows, cols, t, k));
  }

  lemma AddWraps(a: int32, b: int32)
    ensures (Add32(a, b) - a - b) % 0x1_0000_0000 == 0 && -0x8000_0000 <= Add32(a, b) < 0x8000_0000
  {
  }

  lemma {:induction false} NextCell(W: Wall, rows: nat, cols: nat, t: nat, n: nat)
    requires IsWall(W, rows, cols) && t + 1 < rows && n < cols
    ensures var l, m, r := Cell(W, rows, cols, t, Left(n)), Cell(W, rows, cols, t, n), Cell(W, rows, cols, t, Right(n, cols));
            Cell(W, rows, cols, t + 1, n) == Add32(W[t + 1][n], Min3(l, m, r))
  {
    hide Add32, Min3, Left, Right;
  }

  /** One column per row; neighbouring rows' columns differ by at most one. */
  ghost predicate IsPath(p: seq<nat>, cols: nat, t: nat, n: nat) {
    && |p| == t + 1 && p[t] == n
    && (forall i :: 0 <= i <= t ==> p[i] < cols)
    && forall i, k :: 0 <= i < k <= t && k == i + 1 ==> p[i] <= p[k] + 1 && p[k] <= p[i] + 1
  }

  /** The costs along the path, summed without wrap-around. */
  function Cost(W: Wall, p: seq<nat>): int
    requires |p| <= |W| && forall i :: 0 <= i < |p| ==> p[i] < |W[i]|
  {
    if p == [] then 0 else Cost(W, p[..|p| - 1]) + W[|p| - 1][p[|p| - 1]]
  }

  /** The cheapest cost of a path that ends at (t, n). */
  ghost predicate IsCheapest(W: Wall, rows: nat, cols: nat, t: nat, n: nat, c: int)
    requires IsWall(W, rows, cols) && t < rows
  {
    && (exists p :: IsPath(p, cols, t, n) && Cost(W, p) == c)
    && forall p :: IsPath(p, cols, t, n) ==> c <= Cost(W, p)
  }

  /** The dynamic program on unbounded integers. */
  function Exact(W: Wall, rows: nat, cols: nat, t: nat, n: nat): int
    requires IsWall(W, rows, cols) && t < rows && n < cols
    decreases t
  {
    if t == 0 then W[0][n]
    else
      var best := Min3(Exact(W, rows, cols, t - 1, Left(n)), Exact(W, rows, cols, t - 1, n), Exact(W, rows, cols, t - 1, Right(n, cols)));
      W[t][n] + best
  }

  /** No addition of the dynamic program overflows. */
  ghost predicate NoOverflow(W: Wall, rows: nat, cols: nat)
    requires IsWall(W, rows, cols)
  {
    forall t, n :: 0 <= t < rows && 0 <= n < cols ==> IsInt32(Exact(W, rows, cols, t, n))
  }

  lemma ExactFits(W: Wall, rows: nat, cols: nat, t: nat, n: nat)
    requires IsWall(W, rows, cols) && t < rows && n < cols && NoOverflow(W, rows, cols)
    ensures IsInt32(Exact(W, rows, cols, t, n))
  {
    hide Exact, IsInt32;
  }

  lemma {:induction false} CellIsExact(W: Wall, rows: nat, cols: nat, t: nat, n: nat)
    requires IsWall(W, rows, cols) && t < rows && n < cols && NoOverflow(W, rows, cols)
    ensures Cell(W, rows, cols, t, n) == Exact(W, rows, cols, t, n)
    decreases t
  {
    hide NoOverflow, IsWall, IsInt32, Add32, Min3;
    ExactFits(W, rows, cols, t, n);
    if t == 0 {
    } else {
      CellIsExact(W, rows, cols, t - 1, n);
      CellIsExact(W, rows, cols, t - 1, Left(n));
      CellIsExact(W, rows, cols, t - 1, Right(n, cols));
    }
  }

  lemma {:induction false} NoPathIsCheaper(W: Wall, rows: nat, cols: nat, t: nat, n: nat, p: seq<nat>)
    requires IsWall(W, rows, cols) && t < rows && n < cols && IsPath(p, cols, t, n)
    ensures Exact(W, rows, cols, t, n) <= Cost(W, p)
    decreases t
  {
    var q := p[..t];
    if t == 0 {
      assert Cost(W, q) == 0;
    } else {
      assert IsPath(q, cols, t - 1, p[t - 1]);
      assert p[t - 1] <= p[t] + 1 && p[t] <= p[t - 1] + 1;
      NoPathIsCheaper(W, rows, cols, t - 1, p[t - 1], q);
    }
  }

  lemma ExtendPath(W: Wall, rows: nat, cols: nat, t: nat, m: nat, n: nat, q: seq<nat>)
    requires IsWall(W, rows, cols) && t + 1 < rows && n < cols && IsPath(q, cols, t, m)
    requires m == n || m == Left(n) || m == Right(n, cols)
    ensures IsPath(q + [n], cols, t + 1, n) && Cost(W, q + [n]) == Cost(W, q) + W[t + 1][n]
  {
    assert (q + [n])[..t + 1] == q;
  }

  /** The neighbour in the row before through which a cheapest path comes. */
  lemma Predecessor(W: Wall, rows: nat, cols: nat, t: nat, n: nat) returns (m: nat)
    requires IsWall(W, rows, cols) && t + 1 < rows && n < cols
    ensures m < cols && (m == n || m == Left(n) || m == Right(n, cols))
    ensures Exact(W, rows, cols, t + 1, n) == Exact(W, rows, cols, t, m) + W[t + 1][n]
  {
    var l, c, r := Exact(W, rows, cols, t, Left(n)), Exact(W, rows, cols, t, n), Exact(W, rows, cols, t, Right(n, cols));
    assert Exact(W, rows, cols, t + 1, n) == W[t + 1][n] + Min3(l, c, r);
    hide Exact, IsWall;
    m := if l <= c && l <= r then Left(n) else if c <= r then n else Right(n, cols);
  }

  lemma {:induction false} SomePathCosts(W: Wall, rows: nat, cols: nat, t: nat, n: nat) returns (p: seq<nat>)
    requires IsWall(W, rows, cols) && t < rows && n < cols
    ensures IsPath(p, cols, t, n) && Cost(W, p) == Exact(W, rows, cols, t, n)
    decreases t
  {
    if t == 0 {
      p := [n];
      assert p[..0] == [];
    } else {
      hide IsPath, Exact, Cost;
      var m := Predecessor(W, rows, cols, t - 1, n);
      var q := SomePathCosts(W, rows, cols, t - 1, m);
      ExtendPath(W, rows, cols, t - 1, m, n, q);
      p := q + [n];
    }
  }

  /** Without overflow the dynamic program finds the cheapest path to every cell. */
  lemma CellIsCheapest(W: Wall, rows: nat, cols: nat, t: nat, n: nat)
    requires IsWall(W, rows, cols) && t < rows && n < cols && NoOverflow(W, rows, cols)
    ensures IsCheapest(W, rows, cols, t, n, Cell(W, rows, cols, t, n))
  {
    CellIsExact(W, rows, cols, t, n);
    var q := SomePathCosts(W, rows, cols, t, n);
    forall p | IsPath(p, cols, t, n) ensures Cell(W, rows, cols, t, n) <= Cost(W, p) {
      NoPathIsCheaper(W, rows, cols, t, n, p);
    }
  }

  /** Every cost of the wall is at most b in size. */
  ghost predicate Bounded(W: Wall, rows: nat, cols: nat, b: int)
    requires IsWall(W, rows, cols)
  {
    forall t, n :: 0 <= t < rows && 0 <= n < cols ==> -b <= W[t][n] <= b
  }

  /** Costs of at most b, with rows * b below 2^31, cannot overflow. */
  lemma SmallCostsDoNotOverflow(W: Wall, rows: nat, cols: nat, b: int)
    requires IsWall(W, rows, cols) && 0 <= b && rows * b < TWO_TO_THE_31 && Bounded(W, rows, cols, b)
    ensures NoOverflow(W, rows, cols)
  {
    forall t, n | 0 <= t < rows && 0 <= n < cols ensures IsInt32(Exact(W, rows, cols, t, n)) {
      ExactIsSmall(W, rows, cols, b, t, n);
      MulLe(b, t + 1, rows);
    }
  }

  lemma {:induction false} ExactIsSmall(W: Wall, rows: nat, cols: nat, b: int, t: nat, n: nat)
    requires IsWall(W, rows, cols) && t < rows && n < cols && Bounded(W, rows, cols, b)
    ensures -Times(b, t + 1) <= Exact(W, rows, cols, t, n) <= Times(b, t + 1)
    decreases t
  {
    assert -b <= W[t][n] <= b;
    hide Bounded, IsWall;
    assert Times(b, t + 1) == Times(b, t) + b;
    if t == 0 {
    } else {
      ExactIsSmall(W, rows, cols, b, t - 1, n);
      ExactIsSmall(W, rows, cols, b, t - 1, Left(n));
      ExactIsSmall(W, rows, cols, b, t - 1, Right(n, cols));
      hide Times;
    }
  }

  // ---------- run: the scalar form, with swapped buffers ----------

  /** What the same loop computes when src and dst are one array: the left neighbour is already overwritten. */
  function Dragged(W: Wall, rows: nat, cols: nat, t: nat, n: nat): int32
    requires IsWall(W, rows, cols) && t < rows && n < cols
    decreases t, n
  {
    if t == 0 then W[0][n]
    else
      var left := Dragged(W, rows, cols, if n > 0 then t else t - 1, Left(n));
      var best := Min3(left, Dragged(W, rows, cols, t - 1, n), Dragged(W, rows, cols, t - 1, Right(n, cols)));
      Add32(W[t][n], best)
  }

  /** The buffer holds row t of the program that runs with two buffers, or with one. */
  ghost predicate HoldsRow(W: Wall, rows: nat, cols: nat, t: nat, aliased: bool, a: seq<int32>) {
    && IsWall(W, rows, cols) && t < rows && |a| == cols
    && forall n :: 0 <= n < cols ==> a[n] == if aliased then Dragged(W, rows, cols, t, n) else Cell(W, rows, cols, t, n)
  }

  /** The cheapest of column n and its neighbours. */
  function Best(s: seq<int32>, n: nat): int32
    requires n < |s|
  {
    Min3(s[Left(n)], s[n], s[Right(n, |s|)])
  }

  method Cheapest(src: array<int32>, n: nat, cols: nat) returns (min: int32)
    requires n < cols == src.Length
    ensures min == Best(src[..], n)
  {
    min := src[n];
    if n > 0 {
      min := Min(min, src[n - 1]);
    }
    if n < cols - 1 {
      min := Min(min, src[n + 1]);
    }
  }

  /** Columns below n of dst hold row t + 1; src, or what is left of it, holds row t. */
  ghost predicate PartOfRow(W: Wall, rows: nat, cols: nat, t: nat, n: nat, aliased: bool, src: seq<int32>, dst: seq<int32>) {
    && IsWall(W, rows, cols) && t + 1 < rows && |src| == |dst| == cols && (aliased ==> src == dst)
    && (forall k :: 0 <= k < cols && (aliased ==> n <= k) ==>
         src[k] == if aliased then Dragged(W, rows, cols, t, k) else Cell(W, rows, cols, t, k))
    && (forall k :: 0 <= k < cols && k < n ==>
         dst[k] == if aliased then Dragged(W, rows, cols, t + 1, k) else Cell(W, rows, cols, t + 1, k))
  }

  /** The next column, from the neighbours that src holds at this moment. */
  lemma NextColumn(W: Wall, rows: nat, cols: nat, t: nat, n: nat, aliased: bool, src: seq<int32>, dst: seq<int32>)
    requires PartOfRow(W, rows, cols, t, n, aliased, src, dst) && n < cols
    ensures Add32(W[t + 1][n], Best(src, n))
         == if aliased then Dragged(W, rows, cols, t + 1, n) else Cell(W, rows, cols, t + 1, n)
  {
    hide IsWall, Add32, Min3;
  }

  /** The inner loop of `run`. */
  method RunRow(W: Wall, rows: nat, cols: nat, t: nat, src: array<int32>, dst: array<int32>)
    requires t + 1 < rows && HoldsRow(W, rows, cols, t, src == dst, src[..]) && dst.Length == cols
    modifies dst
    ensures HoldsRow(W, rows, cols, t + 1, src == dst, dst[..])
    ensures src != dst ==> src[..] == old(src[..])
  {
    hide Cell, Dragged, Add32, Best;
    for n := 0 to cols
      invariant PartOfRow(W, rows, cols, t, n, src == dst, src[..], dst[..])
      invariant src != dst ==> src[..] == old(src[..])
    {
      ghost var s, d := src[..], dst[..];
      NextColumn(W, rows, cols, t, n, src == dst, s, d);
      var min := Cheapest(src, n, cols);
      dst[n] := Add32(W[t + 1][n], min);
      assert dst[..] == d[n := Add32(W[t + 1][n], min)] && (src != dst ==> src[..] == s);
    }
  }

  /**
    `run`.  The first run uses both buffers.  Line 41 then makes src point to the buffer that was
    written last; with an odd number of rows that is result_s, and every later run works in place.
   */
  method Run(W: Wall, resultS: array<int32>, srcBuffer: array<int32>, cols: nat, rows: nat, numRuns: nat)
      returns (dst: array<int32>)
    requires IsWall(W, rows, cols) && rows >= 2 && numRuns >= 1
    requires resultS.Length == cols && srcBuffer.Length == cols && resultS != srcBuffer
    modifies resultS, srcBuffer
    ensures dst == if rows % 2 == 0 then srcBuffer else resultS
    ensures HoldsRow(W, rows, cols, rows - 1, numRuns > 1 && rows % 2 == 1, dst[..])
  {
    var src, temp := srcBuffer, srcBuffer;
    dst := resultS;
    for j := 0 to numRuns
      invariant j > 0 ==> dst == temp == src == if rows % 2 == 0 then srcBuffer else resultS
      invariant j == 0 ==> src == srcBuffer
      invariant j > 0 ==> HoldsRow(W, rows, cols, rows - 1, j > 1 && rows % 2 == 1, dst[..])
    {
      for x := 0 to cols
        invariant forall k :: 0 <= k < x ==> resultS[k] == W[0][k]
      {
        resultS[x] := W[0][x];
      }
      dst := resultS;
      ghost var aliased := j > 0 && rows % 2 == 1;
      assert aliased <==> src == resultS;
      for t := 0 to rows - 1
        invariant aliased ==> src == dst == resultS
        invariant !aliased ==> dst == (if t % 2 == 0 then resultS else srcBuffer)
        invariant !aliased ==> src == (if t % 2 == 0 then srcBuffer else resultS)
        invariant t > 0 ==> temp == dst
        invariant HoldsRow(W, rows, cols, t, aliased, dst[..])
      {
        temp := src;
        src := dst;
        dst := temp;
        RunRow(W, rows, cols, t, src, dst);
      }
      src := temp;
    }
  }

  lemma {:induction false} OneColumnIsNotDragged(W: Wall, rows: nat, t: nat)
    requires IsWall(W, rows, 1) && t < rows
    ensures Dragged(W, rows, 1, t, 0) == Cell(W, rows, 1, t, 0)
  {
    if t == 0 {
    } else {
      OneColumnIsNotDragged(W, rows, t - 1);
    }
  }

  /** All zero, but for a bonus in the first column of the last row. */
  function BonusRow(cols: nat, k: int32): (r: seq<int32>)
    ensures |r| == cols
    ensures forall n :: 0 <= n < cols ==> r[n] == if n == 0 then k else 0
  {
    if cols == 0 then [] else BonusRow(cols - 1, k) + [if cols == 1 then k else 0]
  }

  function FlatWall(rows: nat, cols: nat): (W: Wall)
    ensures IsWall(W, rows, cols)
    ensures forall t, n :: 0 <= t < rows && 0 <= n < cols ==> W[t][n] == 0
  {
    if rows == 0 then [] else FlatWall(rows - 1, cols) + [BonusRow(cols, 0)]
  }

  ghost predicate ZeroUpTo(W: Wall, rows: nat, cols: nat, t: nat)
    requires IsWall(W, rows, cols) && t < rows
  {
    forall u, k :: 0 <= u <= t && 0 <= k < cols ==> W[u][k] == 0
  }

  lemma {:induction false} ZeroCells(W: Wall, rows: nat, cols: nat, t: nat, n: nat)
    requires IsWall(W, rows, cols) && t < rows && n < cols && ZeroUpTo(W, rows, cols, t)
    ensures Cell(W, rows, cols, t, n) == 0
    decreases t
  {
    assert W[t][n] == 0 && (t > 0 ==> ZeroUpTo(W, rows, cols, t - 1));
    hide ZeroUpTo, IsWall;
    if t == 0 {
    } else {
      ZeroCells(W, rows, cols, t - 1, n);
      ZeroCells(W, rows, cols, t - 1, Left(n));
      ZeroCells(W, rows, cols, t - 1, Right(n, cols));
    }
  }

  lemma {:induction false} ZeroDragged(W: Wall, rows: nat, cols: nat, t: nat, n: nat)
    requires IsWall(W, rows, cols) && t < rows && n < cols && ZeroUpTo(W, rows, cols, t)
    ensures Dragged(W, rows, cols, t, n) == 0
    decreases t, n
  {
    assert W[t][n] == 0 && (t > 0 ==> ZeroUpTo(W, rows, cols, t - 1));
    hide ZeroUpTo, IsWall;
    if t == 0 {
    } else {
      ZeroDragged(W, rows, cols, t - 1, n);
      ZeroDragged(W, rows, cols, if n > 0 then t else t - 1, Left(n));
      ZeroDragged(W, rows, cols, t - 1, Right(n, cols));
    }
  }

  /** After rows of zeros the program copies the next row. */
  lemma CellAfterZeros(W: Wall, rows: nat, cols: nat, t: nat, n: nat)
    requires IsWall(W, rows, cols) && t + 1 < rows && n < cols && ZeroUpTo(W, rows, cols, t)
    ensures Cell(W, rows, cols, t + 1, n) == W[t + 1][n]
  {
    ZeroCells(W, rows, cols, t, n);
    ZeroCells(W, rows, cols, t, Left(n));
    ZeroCells(W, rows, cols, t, Right(n, cols));
  }

  /** In place it copies the first column, and what is cheaper there leaks into the second. */
  lemma DraggedAfterZeros(W: Wall, rows: nat, cols: nat, t: nat)
    requires IsWall(W, rows, cols) && t + 1 < rows && cols >= 2 && ZeroUpTo(W, rows, cols, t) && W[t + 1][0] <= 0
    ensures Dragged(W, rows, cols, t + 1, 1) == Add32(W[t + 1][1], W[t + 1][0])
  {
    ZeroDragged(W, rows, cols, t, 0);
    ZeroDragged(W, rows, cols, t, 1);
    ZeroDragged(W, rows, cols, t, Right(1, cols));
    assert Dragged(W, rows, cols, t + 1, 0) == W[t + 1][0];
  }

  lemma BonusWall(rows: nat, cols: nat) returns (W: Wall)
    requires rows >= 2 && cols >= 2
    ensures IsWall(W, rows, cols) && ZeroUpTo(W, rows, cols, rows - 2)
    ensures W[rows - 1][0] == -1 && W[rows - 1][1] == 0
  {
    hide FlatWall, BonusRow;
    W := FlatWall(rows - 1, cols) + [BonusRow(cols, -1)];
  }

  /** In place, a bonus at the start of the last row leaks into its neighbour. */
  lemma BonusLeaks(rows: nat, cols: nat) returns (W: Wall)
    requires rows >= 2 && cols >= 2
    ensures IsWall(W, rows, cols)
    ensures Dragged(W, rows, cols, rows - 1, 1) == -1 && Cell(W, rows, cols, rows - 1, 1) == 0
  {
    hide Cell, Dragged, ZeroUpTo;
    W := BonusWall(rows, cols);
    CellAfterZeros(W, rows, cols, rows - 2, 1);
    DraggedAfterZeros(W, rows, cols, rows - 2);
  }

  /** What `run` returns in column n. */
  function RunResult(W: Wall, rows: nat, cols: nat, numRuns: nat, n: nat): int32
    requires IsWall(W, rows, cols) && rows >= 2 && n < cols
  {
    if numRuns > 1 && rows % 2 == 1 then Dragged(W, rows, cols, rows - 1, n) else Cell(W, rows, cols, rows - 1, n)
  }

  /** `run` is right for every wall exactly when it runs once, or the number of rows is even, or there is one column. */
  lemma RunIsRightIff(rows: nat, cols: nat, numRuns: nat)
    requires rows >= 2 && numRuns >= 1 && cols >= 1
    ensures (forall W: Wall, n :: IsWall(W, rows, cols) && 0 <= n < cols
                ==> RunResult(W, rows, cols, numRuns, n) == Cell(W, rows, cols, rows - 1, n))
       <==> (numRuns == 1 || rows % 2 == 0 || cols == 1)
  {
    if cols == 1 {
      forall W: Wall, n | IsWall(W, rows, cols) && 0 <= n < cols
        ensures RunResult(W, rows, cols, numRuns, n) == Cell(W, rows, cols, rows - 1, n)
      {
        OneColumnIsNotDragged(W, rows, rows - 1);
      }
    } else if numRuns > 1 && rows % 2 == 1 {
      var W := BonusLeaks(rows, cols);
      assert RunResult(W, rows, cols, numRuns, 1) != Cell(W, rows, cols, rows - 1, 1);
    }
  }
}
