/**
  7x7 convolutions over several channels: the plain sums, and the order in which the
  register-resident kernels add them up.
 */
module Conv {
  import opened Rings

  /** Filter f of C·7·7 coefficients; image of C channels, M + 6 rows and N + 6 columns each. */
  datatype Problem<!T> = Problem(R: Ring<T>, f: seq<T>, img: seq<seq<seq<T>>>, M: nat, N: nat, C: nat)

  ghost predicate Valid<T>(P: Problem<T>) {
    && P.C >= 1 && |P.f| == 49 * P.C && |P.img| == P.C
    && (forall ch :: 0 <= ch < P.C ==> |P.img[ch]| == P.M + 6)
    && forall ch, q :: 0 <= ch < P.C && 0 <= q < P.M + 6 ==> |P.img[ch][q]| == P.N + 6
  }

  lemma HasChannel<T>(P: Problem<T>)
    requires Valid(P)
    ensures P.C >= 1
  {
  }

  /** Coefficient of filter row a, column b (zero outside; the kernels prove that they stay inside). */
  function F<T>(P: Problem<T>, ch: nat, a: nat, b: nat): T {
    var p := 49 * ch + 7 * a + b;
    if p < |P.f| then P.f[p] else P.R.zero
  }

  function Pixel<T>(P: Problem<T>, ch: nat, row: nat, col: nat): T {
    if ch < |P.img| && row < |P.img[ch]| && col < |P.img[ch][row]| then P.img[ch][row][col] else P.R.zero
  }

  /** What filter element (a, b) adds to output (r, c). */
  function Term<T>(P: Problem<T>, ch: nat, r: nat, a: nat, b: nat, c: nat): T {
    Mul(P.R, F(P, ch, a, b), Pixel(P, ch, r + a, c + b))
  }

  // ---------- The plain sums ----------

  /** Filter row a of one channel, first n columns. */
  function RowDot<T>(P: Problem<T>, ch: nat, r: nat, a: nat, c: nat, n: nat): T {
    if n == 0 then P.R.zero else Add(P.R, RowDot(P, ch, r, a, c, n - 1), Term(P, ch, r, a, n - 1, c))
  }

  /** The two-dimensional convolution of one channel, first k filter rows. */
  function Conv2D<T>(P: Problem<T>, ch: nat, r: nat, c: nat, k: nat): T {
    if k == 0 then P.R.zero else Add(P.R, Conv2D(P, ch, r, c, k - 1), RowDot(P, ch, r, k - 1, c, 7))
  }

  /** The sum of the convolutions of the first n channels. */
  function Conv3D<T>(P: Problem<T>, r: nat, c: nat, n: nat): T {
    if n == 0 then P.R.zero else Add(P.R, Conv3D(P, r, c, n - 1), Conv2D(P, n - 1, r, c, 7))
  }

  /** Output (r, c). */
  function Out<T>(P: Problem<T>, r: nat, c: nat): T {
    Conv3D(P, r, c, P.C)
  }

  // ---------- Row by row: what an accumulator holds between two groups of input rows ----------

  /** Filter row a over all columns of the channels before ch, and the first b columns of channel ch. */
  function RowPart<T>(P: Problem<T>, r: nat, a: nat, c: nat, ch: nat, b: nat): T
    decreases ch, b
  {
    if b > 0 then Add(P.R, RowPart(P, r, a, c, ch, b - 1), Term(P, ch, r, a, b - 1, c))
    else if ch > 0 then RowPart(P, r, a, c, ch - 1, 7)
    else P.R.zero
  }

  /** The first k filter rows, over all channels: output row r after input rows r .. r + k - 1. */
  function Rows<T>(P: Problem<T>, r: nat, k: nat, c: nat): T {
    if k == 0 then P.R.zero else Add(P.R, Rows(P, r, k - 1, c), RowPart(P, r, k - 1, c, P.C, 0))
  }

  /** The sum of RowPart over filter rows lo .. hi - 1. */
  function Block<T>(P: Problem<T>, r: nat, lo: nat, hi: nat, c: nat, ch: nat, b: nat): T
    decreases hi
  {
    if hi <= lo then P.R.zero else Add(P.R, Block(P, r, lo, hi - 1, c, ch, b), RowPart(P, r, hi - 1, c, ch, b))
  }

  lemma {:induction false} BlockSplit<T(!new)>(P: Problem<T>, r: nat, lo: nat, mid: nat, hi: nat, c: nat, ch: nat, b: nat)
    requires CommRing(P.R) && lo <= mid <= hi
    ensures Block(P, r, lo, hi, c, ch, b) == Add(P.R, Block(P, r, lo, mid, c, ch, b), Block(P, r, mid, hi, c, ch, b))
    decreases hi
  {
    if hi == mid {
      AddZero(P.R, Block(P, r, lo, mid, c, ch, b));
    } else {
      BlockSplit(P, r, lo, mid, hi - 1, c, ch, b);
      assert RingLaw(P.R, Block(P, r, lo, mid, c, ch, b), Block(P, r, mid, hi - 1, c, ch, b), RowPart(P, r, hi - 1, c, ch, b));
    }
  }

  lemma {:induction false} RowsBlock<T(!new)>(P: Problem<T>, r: nat, lo: nat, hi: nat, c: nat)
    requires CommRing(P.R) && lo <= hi
    ensures Add(P.R, Rows(P, r, lo, c), Block(P, r, lo, hi, c, P.C, 0)) == Rows(P, r, hi, c)
    decreases hi
  {
    if hi == lo {
      AddZero(P.R, Rows(P, r, lo, c));
    } else {
      RowsBlock(P, r, lo, hi - 1, c);
      assert RingLaw(P.R, Rows(P, r, lo, c), Block(P, r, lo, hi - 1, c, P.C, 0), RowPart(P, r, hi - 1, c, P.C, 0));
    }
  }

  // ---------- The kernels' order: channels, then columns, then the rows of the group ----------

  /** Output row r meets filter rows alo .. ahi - 1 in this group of input rows. */
  datatype Group = Group(r: nat, alo: nat, ahi: nat)

  /** The accumulator for output (g.r, c) after the columns before b of channel ch, and rows before a of column b. */
  function Fold<T>(P: Problem<T>, g: Group, c: nat, ch: nat, b: nat, a: nat): T
    decreases ch, b, a
  {
    if a > g.alo then Add(P.R, Fold(P, g, c, ch, b, a - 1), Term(P, ch, g.r, a - 1, b, c))
    else if b > 0 then Fold(P, g, c, ch, b - 1, g.ahi)
    else if ch > 0 then Fold(P, g, c, ch - 1, 7, g.alo)
    else Rows(P, g.r, g.alo, c)
  }

  /** (x + (y + z)) + t == x + ((y + t) + z) */
  lemma AddInto<T(!new)>(R: Ring<T>, x: T, y: T, z: T, t: T)
    requires CommRing(R)
    ensures Add(R, Add(R, x, Add(R, y, z)), t) == Add(R, x, Add(R, Add(R, y, t), z))
  {
    assert RingLaw(R, x, Add(R, y, z), t);
    assert RingLaw(R, y, z, t);
    assert RingLaw(R, z, t, t);
    assert RingLaw(R, y, t, z);
  }

  /** The order does not matter: a fold is what was there, plus the finished and the unfinished rows. */
  lemma {:induction false} FoldIsBlocks<T(!new)>(P: Problem<T>, g: Group, c: nat, ch: nat, b: nat, a: nat)
    requires CommRing(P.R) && g.alo <= a <= g.ahi
    ensures Fold(P, g, c, ch, b, a)
         == Add(P.R, Rows(P, g.r, g.alo, c),
                Add(P.R, Block(P, g.r, g.alo, a, c, ch, b + 1), Block(P, g.r, a, g.ahi, c, ch, b)))
    decreases ch, b, a, 1
  {
    if a > g.alo {
      FoldIsBlocks(P, g, c, ch, b, a - 1);
      FoldStep(P, g, c, ch, b, a);
    } else {
      FoldAtColumn(P, g, c, ch, b);
    }
  }

  lemma FoldStep<T(!new)>(P: Problem<T>, g: Group, c: nat, ch: nat, b: nat, a: nat)
    requires CommRing(P.R) && g.alo < a <= g.ahi
    requires Fold(P, g, c, ch, b, a - 1)
          == Add(P.R, Rows(P, g.r, g.alo, c),
                 Add(P.R, Block(P, g.r, g.alo, a - 1, c, ch, b + 1), Block(P, g.r, a - 1, g.ahi, c, ch, b)))
    ensures Fold(P, g, c, ch, b, a)
         == Add(P.R, Rows(P, g.r, g.alo, c),
                Add(P.R, Block(P, g.r, g.alo, a, c, ch, b + 1), Block(P, g.r, a, g.ahi, c, ch, b)))
  {
    var x, y, z := Rows(P, g.r, g.alo, c), Block(P, g.r, g.alo, a - 1, c, ch, b + 1), Block(P, g.r, a, g.ahi, c, ch, b);
    var p, t := RowPart(P, g.r, a - 1, c, ch, b), Term(P, ch, g.r, a - 1, b, c);
    BlockSplit(P, g.r, a - 1, a, g.ahi, c, ch, b);
    assert Block(P, g.r, a - 1, a, c, ch, b) == p by { AddZero(P.R, p); }
    // ((x + (y + (p + z))) + t) == x + ((y + (p + t)) + z)
    assert RingLaw(P.R, y, p, z);
    AddInto(P.R, x, Add(P.R, y, p), z, t);
    assert RingLaw(P.R, y, p, t);
  }

  /** At the start of a column everything before it is finished. */
  lemma FoldAtColumn<T(!new)>(P: Problem<T>, g: Group, c: nat, ch: nat, b: nat)
    requires CommRing(P.R) && g.alo <= g.ahi
    ensures Fold(P, g, c, ch, b, g.alo)
         == Add(P.R, Rows(P, g.r, g.alo, c),
                Add(P.R, Block(P, g.r, g.alo, g.alo, c, ch, b + 1), Block(P, g.r, g.alo, g.ahi, c, ch, b)))
    decreases ch, b, g.alo, 0
  {
    AddZero(P.R, Block(P, g.r, g.alo, g.ahi, c, ch, b));
    if b > 0 {
      FoldIsBlocks(P, g, c, ch, b - 1, g.ahi);
      AddZero(P.R, Block(P, g.r, g.alo, g.ahi, c, ch, b));
    } else if ch > 0 {
      FoldAtColumn(P, g, c, ch - 1, 7);
      AddZero(P.R, Block(P, g.r, g.alo, g.ahi, c, ch - 1, 7));
      BlockNextChannel(P, g.r, g.alo, g.ahi, c, ch);
    } else {
      BlockEmpty(P, g.r, g.alo, g.ahi, c);
      AddZero(P.R, Rows(P, g.r, g.alo, c));
    }
  }

  lemma {:induction false} BlockNextChannel<T(!new)>(P: Problem<T>, r: nat, lo: nat, hi: nat, c: nat, ch: nat)
    requires ch > 0
    ensures Block(P, r, lo, hi, c, ch, 0) == Block(P, r, lo, hi, c, ch - 1, 7)
    decreases hi
  {
    if hi <= lo {
    } else {
      BlockNextChannel(P, r, lo, hi - 1, c, ch);
    }
  }

  lemma {:induction false} BlockEmpty<T(!new)>(P: Problem<T>, r: nat, lo: nat, hi: nat, c: nat)
    requires CommRing(P.R)
    ensures Block(P, r, lo, hi, c, 0, 0) == P.R.zero
    decreases hi
  {
    if hi <= lo {
    } else {
      BlockEmpty(P, r, lo, hi - 1, c);
      AddZero(P.R, P.R.zero);
    }
  }

  /** After all channels the group's filter rows are complete. */
  lemma FoldIsRows<T(!new)>(P: Problem<T>, g: Group, c: nat)
    requires CommRing(P.R) && g.alo <= g.ahi && P.C >= 1
    ensures Fold(P, g, c, P.C - 1, 7, g.alo) == Rows(P, g.r, g.ahi, c)
  {
    FoldAtColumn(P, g, c, P.C - 1, 7);
    AddZero(P.R, Block(P, g.r, g.alo, g.ahi, c, P.C - 1, 7));
    BlockNextChannel(P, g.r, g.alo, g.ahi, c, P.C);
    RowsBlock(P, g.r, g.alo, g.ahi, c);
  }

  // ---------- All seven rows: the convolution ----------

  /** One filter row over n channels is the sum of its rows in each. */
  lemma {:induction false} RowPartChannel<T(!new)>(P: Problem<T>, r: nat, a: nat, c: nat, ch: nat, b: nat)
    requires CommRing(P.R)
    ensures RowPart(P, r, a, c, ch, b) == Add(P.R, RowPart(P, r, a, c, ch, 0), RowDot(P, ch, r, a, c, b))
    decreases b
  {
    if b == 0 {
      AddZero(P.R, RowPart(P, r, a, c, ch, 0));
    } else {
      RowPartChannel(P, r, a, c, ch, b - 1);
      assert RingLaw(P.R, RowPart(P, r, a, c, ch, 0), RowDot(P, ch, r, a, c, b - 1), Term(P, ch, r, a, b - 1, c));
    }
  }

  lemma {:induction false} BlockChannel<T(!new)>(P: Problem<T>, r: nat, k: nat, c: nat, ch: nat)
    requires CommRing(P.R) && ch > 0
    ensures Block(P, r, 0, k, c, ch, 0) == Add(P.R, Block(P, r, 0, k, c, ch - 1, 0), Conv2D(P, ch - 1, r, c, k))
    decreases k
  {
    if k == 0 {
      AddZero(P.R, P.R.zero);
    } else {
      BlockChannel(P, r, k - 1, c, ch);
      RowPartChannel(P, r, k - 1, c, ch - 1, 7);
      AddSwap(P.R, Block(P, r, 0, k - 1, c, ch - 1, 0), Conv2D(P, ch - 1, r, c, k - 1),
              RowPart(P, r, k - 1, c, ch - 1, 0), RowDot(P, ch - 1, r, k - 1, c, 7));
    }
  }

  lemma {:induction false} BlockIsConv<T(!new)>(P: Problem<T>, r: nat, c: nat, ch: nat)
    requires CommRing(P.R)
    ensures Block(P, r, 0, 7, c, ch, 0) == Conv3D(P, r, c, ch)
    decreases ch
  {
    if ch == 0 {
      BlockEmpty(P, r, 0, 7, c);
    } else {
      BlockIsConv(P, r, c, ch - 1);
      BlockChannel(P, r, 7, c, ch);
    }
  }

  /** Seven filter rows over all channels are the sum over the channels of their convolutions. */
  lemma RowsIsOut<T(!new)>(P: Problem<T>, r: nat, c: nat)
    requires CommRing(P.R)
    ensures Rows(P, r, 7, c) == Out(P, r, c)
  {
    RowsBlock(P, r, 0, 7, c);
    AddZero(P.R, Block(P, r, 0, 7, c, P.C, 0));
    BlockIsConv(P, r, c, P.C);
  }
}
