/**
  apps/imatmul/kernel/imatmul.c: matrix product in blocks of four or eight rows, with running pointers
  into row-major memory and a row of B and a column of A always loaded one step ahead.
 */
module IMatmul {
  import opened Arith
  import opened Rings
  import opened VectorUnit

  // ---------- Row-major addresses ----------

  function Index(r: nat, w: nat, c: nat): nat {
    r * w + c
  }

  lemma IndexSteps(r: nat, w: nat, c: nat)
    ensures Index(r + 1, w, c) == Index(r, w, c) + w
    ensures Index(r, w, c + 1) == Index(r, w, c) + 1
    ensures Index(0, w, c) == c
  {
    assert (r + 1) * w == r * w + w;
  }

  lemma IndexOffset(r: nat, w: nat, n: nat)
    ensures Index(r, w, n) == Index(r, w, 0) + n
  {
  }

  /** Entries c .. c + n - 1 of row r lie inside a matrix of `rows` rows. */
  lemma IndexInside(r: nat, w: nat, c: nat, n: nat, rows: nat)
    requires r < rows && c + n <= w
    ensures Index(r, w, c) + n <= rows * w
  {
    MulLe(w, r + 1, rows);
    assert (r + 1) * w == r * w + w;
  }

  /** A stretch of one row holds exactly its own entries. */
  lemma IndexInStretch(r: nat, w: nat, c: nat, n: nat, r': nat, c': nat)
    requires c + n <= w && c' < w
    ensures Index(r, w, c) <= Index(r', w, c') < Index(r, w, c) + n <==> r' == r && c <= c' < c + n
  {
    var k := Index(r', w, c') - Index(r, w, c);
    if 0 <= k < n {
      assert Index(r', w, c') == w * r + (c + k) && Index(r', w, c') == w * r' + c';
      DivModUnique(Index(r', w, c'), w, r, c + k);
      DivModUnique(Index(r', w, c'), w, r', c');
    }
  }

  // ---------- The product ----------

  datatype Problem<!T> = Problem(R: Ring<T>, a: seq<T>, b: seq<T>, M: nat, N: nat, P: nat)

  ghost predicate Valid<T>(X: Problem<T>) {
    |X.a| == X.M * X.N && |X.b| == X.N * X.P
  }

  function A<T>(X: Problem<T>, m: nat, n: nat): T {
    if Index(m, X.N, n) < |X.a| then X.a[Index(m, X.N, n)] else X.R.zero
  }

  function B<T>(X: Problem<T>, n: nat, p: nat): T {
    if Index(n, X.P, p) < |X.b| then X.b[Index(n, X.P, p)] else X.R.zero
  }

  /** The first n products of row m of A and column p of B. */
  function Dot<T>(X: Problem<T>, m: nat, p: nat, n: nat): T {
    if n == 0 then X.R.zero else Add(X.R, Dot(X, m, p, n - 1), Mul(X.R, A(X, m, n - 1), B(X, n - 1, p)))
  }

  // ---------- Registers ----------

  /** Accumulator x holds n products of row m + x, for the columns of the strip. */
  ghost predicate Partial<T>(X: Problem<T>, v: seq<T>, m: nat, p: nat, vl: nat, n: nat) {
    |v| == vl && forall k :: 0 <= k < vl ==> v[k] == Dot(X, m, p + k, n)
  }

  /** Accumulators before `done` have n + 1 products, the others n. */
  ghost predicate Accumulated<T>(X: Problem<T>, acc: seq<seq<T>>, m: nat, p: nat, vl: nat, n: nat, done: nat) {
    forall x :: 0 <= x < |acc| ==> Partial(X, acc[x], m + x, p, vl, if x < done then n + 1 else n)
  }

  /** The vector register holds row n of B, for the columns of the strip. */
  ghost predicate RowOfB<T>(X: Problem<T>, v: seq<T>, n: nat, p: nat, vl: nat) {
    |v| == vl && forall k :: 0 <= k < vl ==> v[k] == B(X, n, p + k)
  }

  /** The scalars t0, t1, ... are column n of A; those before `done` column n + 1 already. */
  ghost predicate ColumnOfA<T>(X: Problem<T>, t: seq<T>, m: nat, n: nat, done: nat) {
    forall x :: 0 <= x < |t| ==> t[x] == A(X, m + x, if x < done then n + 1 else n)
  }

  /** `vle64.v` at a pointer into B, which proves that it stays inside. */
  method LoadB<T>(X: Problem<T>, b: nat, vl: nat, ghost n: nat, ghost p: nat) returns (v: seq<T>)
    requires Valid(X) && n < X.N && p + vl <= X.P && b == Index(n, X.P, p)
    ensures RowOfB(X, v, n, p, vl)
  {
    IndexInside(n, X.P, p, vl, X.N);
    v := X.b[b..b + vl];
    forall k | 0 <= k < vl ensures v[k] == B(X, n, p + k) {
      assert Index(n, X.P, p + k) == b + k;
    }
  }

  /** A scalar load at a pointer into A, which proves that it stays inside. */
  method LoadA<T>(X: Problem<T>, a: nat, ghost m: nat, ghost n: nat) returns (t: T)
    requires Valid(X) && m < X.M && n < X.N && a == Index(m, X.N, n)
    ensures t == A(X, m, n)
  {
    IndexInside(m, X.N, n, 1, X.M);
    t := X.a[a];
  }

  /** One column of A times one row of B onto all accumulators. */
  lemma OneMore<T>(X: Problem<T>, v: seq<T>, v': seq<T>, t: T, row: seq<T>, m: nat, p: nat, vl: nat, n: nat)
    requires Partial(X, v, m, p, vl, n) && RowOfB(X, row, n, p, vl) && t == A(X, m, n)
    requires |v'| == vl && forall k :: 0 <= k < vl ==> v'[k] == Add(X.R, v[k], Mul(X.R, t, row[k]))
    ensures Partial(X, v', m, p, vl, n + 1)
  {
  }

  /** The vmacc of every row; where `ahead`, each used scalar is replaced by the next one of its row. */
  method Column<T>(X: Problem<T>, acc: seq<seq<T>>, t: seq<T>, row: seq<T>, a0: nat, ahead: bool,
                   ghost m: nat, ghost p: nat, ghost vl: nat, ghost n: nat)
      returns (acc': seq<seq<T>>, t': seq<T>)
    requires Valid(X) && |acc| == |t| && m + |acc| <= X.M && n < X.N && (ahead ==> n + 1 < X.N)
    requires a0 == Index(m, X.N, n + 1)
    requires Accumulated(X, acc, m, p, vl, n, 0) && ColumnOfA(X, t, m, n, 0) && RowOfB(X, row, n, p, vl)
    ensures |acc'| == |t'| == |acc| && Accumulated(X, acc', m, p, vl, n + 1, 0)
    ensures ahead ==> ColumnOfA(X, t', m, n + 1, 0)
  {
    var h := |acc|;
    var a := a0;
    acc', t' := acc, t;
    hide Valid, RowOfB, Partial, Index, A;
    for x := 0 to h
      invariant |acc'| == |t'| == h && a == Index(m + x, X.N, n + 1)
      invariant Accumulated(X, acc', m, p, vl, n, x)
      invariant ColumnOfA(X, t', m, n, if ahead then x else 0)
    {
      var v := MaccRow(X, acc'[x], t'[x], row, m + x, p, vl, n);
      acc' := acc'[x := v];
      if ahead {
        var s := LoadA(X, a, m + x, n + 1);
        t' := t'[x := s];
      }
      IndexSteps(m + x, X.N, n + 1);
      a := a + X.N;
    }
  }

  method MaccRow<T>(X: Problem<T>, v: seq<T>, t: T, row: seq<T>, ghost m: nat, ghost p: nat, ghost vl: nat, ghost n: nat)
      returns (v': seq<T>)
    requires Partial(X, v, m, p, vl, n) && RowOfB(X, row, n, p, vl) && t == A(X, m, n)
    ensures Partial(X, v', m, p, vl, n + 1)
  {
    v' := VMaccScalar(X.R, v, t, row);
    OneMore(X, v, v', t, row, m, p, vl, n);
  }

  // ---------- imatmul_vec_4x4 and imatmul_vec_8x8 ----------

  /** slice_init: h accumulators of vl zeros. */
  method SliceInit<T>(X: Problem<T>, h: nat, ghost m: nat, ghost p: nat, vl: nat) returns (acc: seq<seq<T>>)
    ensures |acc| == h && Accumulated(X, acc, m, p, vl, 0, 0)
  {
    var v: seq<T> := [];
    for k := 0 to vl
      invariant |v| == k && forall i :: 0 <= i < k ==> v[i] == X.R.zero
    {
      v := v + [X.R.zero];
    }
    acc := [];
    for x := 0 to h
      invariant |acc| == x && forall i :: 0 <= i < x ==> acc[i] == v
    {
      acc := acc + [v];
    }
  }

  /** The first column of A. */
  method Prefetch<T>(X: Problem<T>, a0: nat, h: nat, ghost m: nat) returns (t: seq<T>)
    requires Valid(X) && m + h <= X.M && X.N >= 1 && a0 == Index(m, X.N, 0)
    ensures |t| == h && ColumnOfA(X, t, m, 0, 0)
  {
    hide Valid, Index, A;
    t := [];
    var a := a0;
    for x := 0 to h
      invariant |t| == x && a == Index(m + x, X.N, 0) && ColumnOfA(X, t, m, 0, 0)
    {
      var s := LoadA(X, a, m + x, 0);
      t := t + [s];
      IndexSteps(m + x, X.N, 0);
      a := a + X.N;
    }
  }

  /** The ping-pong loop: row n of B is always there together with column n of A, and nothing beyond N is loaded. */
  method Accumulate<T>(X: Problem<T>, a0: nat, b0: nat, h: nat, vl: nat, ghost m: nat, ghost p: nat)
      returns (acc: seq<seq<T>>)
    requires Valid(X) && X.N >= 2 && X.N % 2 == 0 && m + h <= X.M && p + vl <= X.P
    requires a0 == Index(m, X.N, 0) && b0 == Index(0, X.P, p)
    ensures |acc| == h && Accumulated(X, acc, m, p, vl, X.N, 0)
  {
    hide *;
    acc := SliceInit(X, h, m, p, vl);
    var b := b0;
    var v16 := LoadB(X, b, vl, 0, p);
    var v20 := v16;
    IndexSteps(0, X.P, p);
    b := b + X.P;
    var t := Prefetch(X, a0, h, m);
    var n := 0;
    while n < X.N
      invariant n % 2 == 0 && n < X.N && |acc| == |t| == h
      invariant Accumulated(X, acc, m, p, vl, n, 0) && ColumnOfA(X, t, m, n, 0) && RowOfB(X, v16, n, p, vl)
      invariant b == Index(n + 1, X.P, p)
      decreases X.N - n
    {
      n := n + 1;
      var a := a0 + n;
      v20 := LoadB(X, b, vl, n, p);
      IndexSteps(n, X.P, p);
      b := b + X.P;
      IndexOffset(m, X.N, n);
      acc, t := Column(X, acc, t, v16, a, true, m, p, vl, n - 1);
      n := n + 1;
      a := a0 + n;
      if n == X.N {
        break;
      }
      v16 := LoadB(X, b, vl, n, p);
      IndexSteps(n, X.P, p);
      b := b + X.P;
      IndexOffset(m, X.N, n);
      acc, t := Column(X, acc, t, v20, a, true, m, p, vl, n - 1);
    }
    IndexOffset(m, X.N, n);
    acc, t := Column(X, acc, t, v20, a0 + n, false, m, p, vl, n - 1);
  }

  /** From s to s' the block of rows m .. m + h - 1 and columns p .. p + vl - 1 became the product; the rest did not change. */
  ghost predicate BlockDone<T>(X: Problem<T>, s: seq<T>, s': seq<T>, m: nat, h: nat, p: nat, vl: nat) {
    && |s| == |s'| == X.M * X.P
    && forall r: nat, q: nat | r < X.M && q < X.P ::
         Index(r, X.P, q) < |s'| && s'[Index(r, X.P, q)] == if m <= r < m + h && p <= q < p + vl then Dot(X, r, q, X.N) else s[Index(r, X.P, q)]
  }

  /** One row of the block. */
  method StoreRow<T>(X: Problem<T>, c: array<T>, c0: nat, v: seq<T>, ghost r0: nat, ghost p: nat)
    requires c.Length == X.M * X.P && r0 < X.M && p + |v| <= X.P && c0 == Index(r0, X.P, p)
    requires Partial(X, v, r0, p, |v|, X.N)
    modifies c
    ensures BlockDone(X, old(c[..]), c[..], r0, 1, p, |v|)
  {
    IndexInside(r0, X.P, p, |v|, X.M);
    VStore(c, c0, v);
    forall r: nat, q: nat | r < X.M && q < X.P
      ensures Index(r, X.P, q) < c.Length
      ensures c[Index(r, X.P, q)] == if r0 == r && p <= q < p + |v| then Dot(X, r, q, X.N) else old(c[Index(r, X.P, q)])
    {
      IndexInside(r, X.P, q, 1, X.M);
      IndexInStretch(r0, X.P, p, |v|, r, q);
      assert Index(r0, X.P, p) + (q - p) == Index(r0, X.P, q);
      hide Dot, Index;
    }
  }

  lemma OneMoreRow<T>(X: Problem<T>, s: seq<T>, s1: seq<T>, s2: seq<T>, m: nat, x: nat, p: nat, vl: nat)
    requires BlockDone(X, s, s1, m, x, p, vl) && BlockDone(X, s1, s2, m + x, 1, p, vl)
    ensures BlockDone(X, s, s2, m, x + 1, p, vl)
  {
    hide Dot, Index;
  }

  /** imatmul_vec_4x4 (h == 4) and imatmul_vec_8x8 (h == 8). */
  method Kernel<T>(X: Problem<T>, c: array<T>, a0: nat, b0: nat, c0: nat, h: nat, vl: nat, ghost m: nat, ghost p: nat)
    requires Valid(X) && X.N >= 2 && X.N % 2 == 0 && m + h <= X.M && p + vl <= X.P && c.Length == X.M * X.P
    requires a0 == Index(m, X.N, 0) && b0 == Index(0, X.P, p) && c0 == Index(m, X.P, p)
    modifies c
    ensures BlockDone(X, old(c[..]), c[..], m, h, p, vl)
  {
    var acc := Accumulate(X, a0, b0, h, vl, m, p);
    var cp := c0;
    ghost var s := c[..];
    forall r: nat, q: nat | r < X.M && q < X.P ensures Index(r, X.P, q) < c.Length {
      IndexInside(r, X.P, q, 1, X.M);
    }
    assert forall x :: 0 <= x < h ==> Partial(X, acc[x], m + x, p, vl, X.N) && |acc[x]| == vl;
    assert BlockDone(X, s, c[..], m, 0, p, vl);
    hide *;
    for x := 0 to h
      invariant cp == Index(m + x, X.P, p)
      invariant BlockDone(X, s, c[..], m, x, p, vl)
    {
      ghost var s1 := c[..];
      StoreRow(X, c, cp, acc[x], m + x, p);
      OneMoreRow(X, s, s1, c[..], m, x, p, vl);
      IndexSteps(m + x, X.P, p);
      cp := cp + X.P;
    }
  }

  // ---------- imatmul_4x4, imatmul_8x8 and the dispatcher ----------

  /** C is the product in its first `cols` columns, and in the first `rows` rows of the w columns behind them. */
  ghost predicate Product<T>(X: Problem<T>, s: seq<T>, cols: nat, w: nat, rows: nat) {
    && |s| == X.M * X.P
    && forall r: nat, q: nat | r < X.M && q < X.P && (q < cols || (q < cols + w && r < rows)) ::
         Index(r, X.P, q) < |s| && s[Index(r, X.P, q)] == Dot(X, r, q, X.N)
  }

  lemma ProductGrows<T>(X: Problem<T>, s: seq<T>, s': seq<T>, m: nat, h: nat, p: nat, vl: nat)
    requires Product(X, s, p, vl, m) && BlockDone(X, s, s', m, h, p, vl)
    ensures Product(X, s', p, vl, m + h)
  {
    hide Dot, Index;
  }

  /** A strip begins with no rows, and ends with all of them. */
  lemma ProductOfStrip<T>(X: Problem<T>, s: seq<T>, p: nat, vl: nat)
    ensures Product(X, s, p, 0, 0) ==> Product(X, s, p, vl, 0)
    ensures Product(X, s, p, vl, X.M) ==> Product(X, s, p + vl, 0, 0)
  {
    hide Dot, Index;
  }

  method Blocked<T>(X: Problem<T>, c: array<T>, blockSize: nat, vlmax: nat)
    requires Valid(X) && X.N >= 2 && X.N % 2 == 0 && blockSize >= 1 && X.M % blockSize == 0 && vlmax >= 1
    requires c.Length == X.M * X.P
    modifies c
    ensures Product(X, c[..], X.P, 0, 0)
  {
    var blockSizeP := SetVl(X.P, vlmax);
    var p := 0;
    while p < X.P
      invariant X.P > 0 ==> blockSizeP >= 1
      invariant Product(X, c[..], if p < X.P then p else X.P, 0, 0)
    {
      var vl := SetVl(if X.P - p < blockSizeP then X.P - p else blockSizeP, vlmax);
      assert 1 <= vl && p + vl <= X.P;
      BlockedRows(X, c, blockSize, p, vl);
      p := p + blockSizeP;
    }
  }

  predicate Tiles(n: nat, m: nat) {
    n >= 1 && m % n == 0
  }

  /** One strip of columns, block by block of rows. */
  method BlockedRows<T>(X: Problem<T>, c: array<T>, blockSize: nat, p: nat, vl: nat)
    requires Valid(X) && X.N >= 2 && X.N % 2 == 0 && Tiles(blockSize, X.M)
    requires p + vl <= X.P && Product(X, c[..], p, 0, 0)
    modifies c
    ensures Product(X, c[..], p + vl, 0, 0)
  {
    var b := p;
    var m, a, c0 := 0, 0, p;
    IndexSteps(0, X.N, 0);
    IndexSteps(0, X.P, p);
    assert Tiles(blockSize, 0);
    ProductOfStrip(X, c[..], p, vl);
    hide *;
    while m < X.M
      invariant m <= X.M && Tiles(blockSize, m)
      invariant a == Index(m, X.N, 0) && c0 == Index(m, X.P, p)
      invariant Product(X, c[..], p, vl, m)
    {
      NextBlock(m, blockSize, X.M);
      KernelInStrip(X, c, a, b, c0, blockSize, vl, m, p);
      IndexBlock(m, X.N, 0, blockSize);
      IndexBlock(m, X.P, p, blockSize);
      m, a, c0 := m + blockSize, a + Times(blockSize, X.N), c0 + Times(blockSize, X.P);
    }
    ProductOfStrip(X, c[..], p, vl);
  }

  /** One block of the strip. */
  method KernelInStrip<T>(X: Problem<T>, c: array<T>, a0: nat, b0: nat, c0: nat, h: nat, vl: nat, ghost m: nat, ghost p: nat)
    requires Valid(X) && X.N >= 2 && X.N % 2 == 0 && m + h <= X.M && p + vl <= X.P && Product(X, c[..], p, vl, m)
    requires a0 == Index(m, X.N, 0) && b0 == Index(0, X.P, p) && c0 == Index(m, X.P, p)
    modifies c
    ensures Product(X, c[..], p, vl, m + h)
  {
    ghost var s := c[..];
    assert c.Length == X.M * X.P;
    hide Product, BlockDone, Dot, Index, Valid;
    Kernel(X, c, a0, b0, c0, h, vl, m, p);
    ProductGrows(X, s, c[..], m, h, p, vl);
  }

  lemma IndexBlock(r: nat, w: nat, c: nat, n: nat)
    ensures Index(r + n, w, c) == Index(r, w, c) + Times(n, w)
  {
    assert (r + n) * w == r * w + n * w;
  }

  lemma NextBlock(m: nat, n: nat, M: nat)
    requires Tiles(n, m) && m < M && Tiles(n, M)
    ensures m + n <= M && n >= 1 && Tiles(n, m + n)
  {
    BlockBelow(m, M, n);
    ShiftMod(n, m, n);
    MulDivMod(1, n);
  }

  function BlockSize(M: nat): nat {
    if M <= 4 then 4 else if M <= 128 then 8 else 4
  }

  // ---------- The product on row-major memory ----------

  predicate Inside<T>(a: seq<T>, b: seq<T>, N: nat, P: nat, m: nat, p: nat, k: int) {
    k >= 0 && m * N + k < |a| && k * P + p < |b|
  }

  predicate AllInside<T>(a: seq<T>, b: seq<T>, N: nat, P: nat, m: nat, p: nat, n: nat) {
    forall k :: 0 <= k < n ==> Inside(a, b, N, P, m, p, k)
  }

  /** The sum of a[m * N + k] · b[k * P + p] for k below n. */
  function Sum<T>(R: Ring<T>, a: seq<T>, b: seq<T>, N: nat, P: nat, m: nat, p: nat, n: nat): T
    requires AllInside(a, b, N, P, m, p, n)
  {
    if n == 0 then R.zero
    else
      assert Inside(a, b, N, P, m, p, n - 1);
      Add(R, Sum(R, a, b, N, P, m, p, n - 1), Mul(R, a[m * N + (n - 1)], b[(n - 1) * P + p]))
  }

  lemma EntriesInside<T>(X: Problem<T>, m: nat, p: nat)
    requires Valid(X) && m < X.M && p < X.P
    ensures AllInside(X.a, X.b, X.N, X.P, m, p, X.N)
  {
    forall k | 0 <= k < X.N ensures Inside(X.a, X.b, X.N, X.P, m, p, k) {
      IndexInside(m, X.N, k, 1, X.M);
      IndexInside(k, X.P, p, 1, X.N);
    }
  }

  lemma {:induction false} DotIsSum<T>(X: Problem<T>, m: nat, p: nat, n: nat)
    requires AllInside(X.a, X.b, X.N, X.P, m, p, n)
    ensures Dot(X, m, p, n) == Sum(X.R, X.a, X.b, X.N, X.P, m, p, n)
  {
    if n == 0 {
    } else {
      DotIsSum(X, m, p, n - 1);
      assert Inside(X.a, X.b, X.N, X.P, m, p, n - 1);
    }
  }

  /** The same sum of unbounded integers. */
  function IntSum(a: seq<int64>, b: seq<int64>, N: nat, P: nat, m: nat, p: nat, n: nat): int
    requires AllInside(a, b, N, P, m, p, n)
  {
    if n == 0 then 0
    else
      assert Inside(a, b, N, P, m, p, n - 1);
      IntSum(a, b, N, P, m, p, n - 1) + Times(a[m * N + (n - 1)], b[(n - 1) * P + p])
  }

  lemma {:induction false} SumOfInt64s(a: seq<int64>, b: seq<int64>, N: nat, P: nat, m: nat, p: nat, n: nat)
    requires AllInside(a, b, N, P, m, p, n)
    ensures Sum(Int64s(), a, b, N, P, m, p, n) == Wrap64(IntSum(a, b, N, P, m, p, n))
  {
    hide Wrap64, Int64s, Times;
    if n == 0 {
      Int64Units();
      WrapFits(0);
    } else {
      SumOfInt64s(a, b, N, P, m, p, n - 1);
      assert Inside(a, b, N, P, m, p, n - 1);
      Int64Step(Sum(Int64s(), a, b, N, P, m, p, n - 1), a[m * N + (n - 1)], b[(n - 1) * P + p], IntSum(a, b, N, P, m, p, n - 1));
    }
  }

  /** Entry m * P + p of c is the sum of a[m * N + k] · b[k * P + p] for all k. */
  ghost predicate IsEntry<T>(X: Problem<T>, c: seq<T>, m: nat, p: nat) {
    && AllInside(X.a, X.b, X.N, X.P, m, p, X.N) && m * X.P + p < |c|
    && c[m * X.P + p] == Sum(X.R, X.a, X.b, X.N, X.P, m, p, X.N)
  }

  ghost predicate IsProduct<T>(X: Problem<T>, c: seq<T>) {
    forall m: nat, p: nat | m < X.M && p < X.P :: IsEntry(X, c, m, p)
  }

  lemma ProductIsSum<T>(X: Problem<T>, s: seq<T>)
    requires Valid(X) && Product(X, s, X.P, 0, 0)
    ensures IsProduct(X, s)
  {
    hide Valid, Product, IsEntry;
    forall m: nat, p: nat | m < X.M && p < X.P ensures IsEntry(X, s, m, p) {
      OneEntry(X, s, m, p);
    }
  }

  lemma OneEntry<T>(X: Problem<T>, s: seq<T>, m: nat, p: nat)
    requires Valid(X) && Product(X, s, X.P, 0, 0) && m < X.M && p < X.P
    ensures IsEntry(X, s, m, p)
  {
    hide Sum, Dot;
    EntriesInside(X, m, p);
    DotIsSum(X, m, p, X.N);
    assert Index(m, X.P, p) == m * X.P + p;
  }

  /** imatmul: C = A · B.  The two register groupings have their own VLMAX. */
  method IMatmul<T>(X: Problem<T>, c: array<T>, vlmaxM4: nat, vlmaxM2: nat)
    requires Valid(X) && X.N >= 2 && X.N % 2 == 0 && X.M % BlockSize(X.M) == 0 && vlmaxM4 >= 1 && vlmaxM2 >= 1
    requires c.Length == X.M * X.P
    modifies c
    ensures IsProduct(X, c[..])
  {
    hide Valid, Product, IsProduct;
    if X.M <= 4 {
      Blocked(X, c, 4, vlmaxM4);
    } else if X.M <= 128 {
      Blocked(X, c, 8, vlmaxM2);
    } else {
      Blocked(X, c, 4, vlmaxM4);
    }
    ProductIsSum(X, c[..]);
  }

  /** Entry m * P + p of c is the sum of all products of unbounded integers, reduced to 64 bits. */
  ghost predicate IsInt64Entry(X: Problem<int64>, c: seq<int64>, m: nat, p: nat) {
    && AllInside(X.a, X.b, X.N, X.P, m, p, X.N) && m * X.P + p < |c|
    && c[m * X.P + p] == Wrap64(IntSum(X.a, X.b, X.N, X.P, m, p, X.N))
  }

  lemma EntryOfInt64s(X: Problem<int64>, c: seq<int64>, m: nat, p: nat)
    requires X.R == Int64s() && IsEntry(X, c, m, p)
    ensures IsInt64Entry(X, c, m, p)
  {
    hide AllInside, Sum, IntSum, Int64s;
    SumOfInt64s(X.a, X.b, X.N, X.P, m, p, X.N);
  }

  /** On int64_t. */
  method OverInt64(X: Problem<int64>, c: array<int64>, vlmaxM4: nat, vlmaxM2: nat)
    requires X.R == Int64s()
    requires Valid(X) && X.N >= 2 && X.N % 2 == 0 && X.M % BlockSize(X.M) == 0 && vlmaxM4 >= 1 && vlmaxM2 >= 1
    requires c.Length == X.M * X.P
    modifies c
    ensures forall m: nat, p: nat | m < X.M && p < X.P :: IsInt64Entry(X, c[..], m, p)
  {
    hide Valid, IsEntry, IsInt64Entry, Int64s;
    IMatmul(X, c, vlmaxM4, vlmaxM2);
    forall m: nat, p: nat | m < X.M && p < X.P ensures IsInt64Entry(X, c[..], m, p) {
      EntryOfInt64s(X, c[..], m, p);
    }
  }
}
