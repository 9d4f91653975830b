/**
  The fixed-point `Radix2FFT_DIF`: 16-bit components, Q15 twiddle factors, every layer but the last
  halving its results.  Nothing ever leaves its integer type, so the wrapping arithmetic of the code
  computes the same as arithmetic on unbounded integers.
 */
module FftFixed {
  import opened Arith
  import opened Bits
  import opened Butterflies
  import opened FftScalar

  /** A `v2s`: real and imaginary part. */
  datatype V2s = V2s(re: int, im: int)

  function Wrap16(x: int): int { (x + 0x8000) % 0x1_0000 - 0x8000 }

  function Wrap32(x: int): int { (x + 0x8000_0000) % 0x1_0000_0000 - 0x8000_0000 }

  /** The products of `cplxmulsdiv2`, exactly. */
  function ProductRe(x: V2s, y: V2s): int { x.re * y.re - x.im * y.im }

  function ProductIm(x: V2s, y: V2s): int { x.re * y.im + x.im * y.re }

  // ---------- The code's arithmetic ----------

  function AddV(a: V2s, b: V2s): V2s { V2s(Wrap16(a.re + b.re), Wrap16(a.im + b.im)) }

  function SubV(a: V2s, b: V2s): V2s { V2s(Wrap16(a.re - b.re), Wrap16(a.im - b.im)) }

  /** `>> FFT2_SCALEDOWN` on both components. */
  function HalfV(a: V2s): V2s { V2s(a.re / 2, a.im / 2) }

  /** `cplxmulsdiv2`: 32-bit products, `>> 15`, truncation to short, `>> 1`. */
  function CplxMulsDiv2(x: V2s, y: V2s): V2s {
    V2s(Wrap16(Wrap32(Wrap32(x.re * y.re) - Wrap32(x.im * y.im)) / 0x8000) / 2,
        Wrap16(Wrap32(Wrap32(x.re * y.im) + Wrap32(x.im * y.re)) / 0x8000) / 2)
  }

  function FixedButterfly(): Butterfly<V2s> {
    Butterfly((a: V2s, b: V2s, w: V2s) => HalfV(AddV(a, b)), (a: V2s, b: V2s, w: V2s) => CplxMulsDiv2(SubV(a, b), w))
  }

  function FixedLast(): Butterfly<V2s> {
    Butterfly((a: V2s, b: V2s, w: V2s) => AddV(a, b), (a: V2s, b: V2s, w: V2s) => SubV(a, b))
  }

  // ---------- The same on unbounded integers ----------

  function SumV(a: V2s, b: V2s): V2s { V2s(a.re + b.re, a.im + b.im) }

  function DiffV(a: V2s, b: V2s): V2s { V2s(a.re - b.re, a.im - b.im) }

  function ExactButterfly(): Butterfly<V2s> {
    Butterfly((a: V2s, b: V2s, w: V2s) => HalfV(SumV(a, b)), (a: V2s, b: V2s, w: V2s) => ExactLow(DiffV(a, b), w))
  }

  /** Half of the Q15 product, rounded down. */
  function ExactLow(d: V2s, w: V2s): V2s { V2s(ProductRe(d, w) / 0x1_0000, ProductIm(d, w) / 0x1_0000) }

  function ExactLast(): Butterfly<V2s> {
    Butterfly((a: V2s, b: V2s, w: V2s) => SumV(a, b), (a: V2s, b: V2s, w: V2s) => DiffV(a, b))
  }

  // ---------- Bounds ----------

  function Square(x: int): int { x * x }

  function Energy(a: V2s): int { Square(a.re) + Square(a.im) }

  /** The value lies in the disc of radius r. */
  predicate InDisc(a: V2s, r: int) { r >= 0 && Energy(a) <= Square(r) }

  lemma SquareLe(x: int, y: int)
    requires 0 <= x <= y
    ensures Square(x) <= Square(y)
  {
  }

  lemma SquareSign(x: int)
    ensures Square(x) >= 0 && Square(-x) == Square(x)
  {
  }

  lemma SquareStep(r: int)
    requires r >= 0
    ensures Square(r) < Square(r + 1)
  {
  }

  lemma SquareBound(c: int, r: int)
    requires r >= 0 && Square(c) <= Square(r)
    ensures -r <= c <= r
  {
    SquareSign(c);
    SquareStep(r);
    hide Square;
    if c > r {
      SquareLe(r + 1, c);
    } else if -c > r {
      SquareLe(r + 1, -c);
    }
  }

  lemma DiscBound(a: V2s, r: int)
    requires InDisc(a, r)
    ensures -r <= a.re <= r && -r <= a.im <= r
  {
    hide Square;
    SquareSign(a.re);
    SquareSign(a.im);
    SquareBound(a.re, r);
    SquareBound(a.im, r);
  }

  lemma SquareOfSum(u: int, v: int)
    ensures Square(u + v) == Square(u) + 2 * (u * v) + Square(v)
    ensures Square(u - v) == Square(u) - 2 * (u * v) + Square(v)
  {
  }

  lemma SquareOfProduct(u: int, v: int)
    ensures Square(u * v) == Square(u) * Square(v)
  {
  }

  lemma SumSquares(x: int, y: int)
    ensures Square(x + y) <= 2 * Square(x) + 2 * Square(y)
    ensures Square(x - y) <= 2 * Square(x) + 2 * Square(y)
  {
    SquareOfSum(x, y);
    SquareSign(x + y);
    SquareSign(x - y);
    hide Square;
  }

  /** Sums and differences lie in the disc of twice the radius. */
  lemma SumInDisc(a: V2s, b: V2s, r: int)
    requires InDisc(a, r) && InDisc(b, r)
    ensures InDisc(V2s(a.re + b.re, a.im + b.im), 2 * r)
    ensures InDisc(V2s(a.re - b.re, a.im - b.im), 2 * r)
  {
    SquareOfProduct(2, r);
    assert Square(2) == 4;
    hide Square;
    SumSquares(a.re, b.re);
    SumSquares(a.im, b.im);
  }

  lemma ProductBound(c: int, d: int, b: int, k: int)
    requires -b <= c <= b && 0 <= d <= k
    ensures -(b * k) <= c * d <= b * k
  {
    assert (b - c) * d >= 0 && (b + c) * d >= 0;
    assert b * (k - d) >= 0;
  }

  /** Rounding c down to a multiple m of k: the square grows by at most 2·k·k·r + k·k when |c| <= k·r. */
  lemma RoundedSquare(c: int, k: int, r: int)
    requires k >= 1 && r >= 0 && -(k * r) <= c <= k * r
    ensures Square(k * (c / k)) <= Square(c) + 2 * (Square(k) * r) + Square(k)
  {
    var d := c % k;
    var m := k * (c / k);
    assert m == c - d;
    ProductBound(c, d, k * r, k);
    SquareLe(d, k);
    SquareOfSum(c, d);
    assert (k * r) * k == Square(k) * r;
    hide Square;
  }

  lemma Cancel(s: int, x: int, y: int)
    requires s >= 1
    ensures s * x <= s * y ==> x <= y
  {
    if x > y {
      MulLe(s, y + 1, x);
    }
  }

  lemma Distribute4(s: int, a: int, b: int)
    ensures s * (a + b) == s * a + s * b && s * (a + 4 * b + 2) == s * a + 4 * (s * b) + 2 * s
  {
  }

  /** s·(x² + y²) <= s·(r² + 4r + 2) leaves x² + y² <= (r + 2)². */
  lemma ScaledBound(x: int, y: int, k: int, r: int, e: int)
    requires k >= 1 && r >= 0 && e <= Square(k * r)
    requires Square(k * x) + Square(k * y) <= e + 4 * (Square(k) * r) + 2 * Square(k)
    ensures Square(x) + Square(y) <= Square(r + 2)
  {
    SquareOfSum(r, 2);
    assert Square(2) == 4;
    SquareLe(1, k);
    assert Square(1) == 1;
    SquareOfProduct(k, x);
    SquareOfProduct(k, y);
    SquareOfProduct(k, r);
    hide Square;
    Distribute4(Square(k), Square(x), Square(y));
    Distribute4(Square(k), Square(r), r);
    Cancel(Square(k), Square(x) + Square(y), Square(r) + 4 * r + 2);
  }

  /** Dividing a value of the disc of radius k·r by k, rounding down, gives one of the disc of radius r + 2. */
  lemma RoundedInDisc(a: V2s, k: int, r: int)
    requires k >= 1 && r >= 0 && InDisc(a, k * r)
    ensures InDisc(V2s(a.re / k, a.im / k), r + 2)
  {
    DiscBound(a, k * r);
    RoundedSquare(a.re, k, r);
    RoundedSquare(a.im, k, r);
    ScaledBound(a.re / k, a.im / k, k, r, Energy(a));
  }

  /** The modulus of a product is the product of the moduli. */
  lemma ExpandProduct(a: int, b: int, c: int, d: int)
    ensures (a + b) * (c + d) == a * c + a * d + b * c + b * d
  {
  }

  lemma ProductEnergy(x: V2s, y: V2s)
    ensures Energy(V2s(ProductRe(x, y), ProductIm(x, y))) == Energy(x) * Energy(y)
  {
    var a, b, c, d := x.re, x.im, y.re, y.im;
    assert (a * c) * (b * d) == (a * d) * (b * c);
    SquareOfSum(a * c, b * d);
    SquareOfSum(a * d, b * c);
    SquareOfProduct(a, c);
    SquareOfProduct(b, d);
    SquareOfProduct(a, d);
    SquareOfProduct(b, c);
    ExpandProduct(Square(a), Square(b), Square(c), Square(d));
    hide Square;
  }

  lemma ProductLe(e: int, s: int, f: int, t: int)
    requires 0 <= e <= s && 0 <= f <= t
    ensures e * f <= s * t
  {
    MulLe(f, e, s);
    MulLe(s, f, t);
  }

  lemma ProductInDisc(x: V2s, y: V2s, r: int, q: int)
    requires InDisc(x, r) && InDisc(y, q)
    ensures InDisc(V2s(ProductRe(x, y), ProductIm(x, y)), r * q)
  {
    assert r * q >= 0 by { MulLe(r, 0, q); }
    SquareOfProduct(r, q);
    ProductEnergy(x, y);
    hide Square, ProductRe, ProductIm;
    SquareSign(x.re);
    SquareSign(x.im);
    SquareSign(y.re);
    SquareSign(y.im);
    ProductLe(Energy(x), Square(r), Energy(y), Square(q));
  }

  // ---------- No butterfly overflows ----------

  /** Radius below which no intermediate of a butterfly leaves its type. */
  const LIMIT: int := 16383

  /** Every intermediate result of the butterfly fits: 16-bit sums, 32-bit products, 16-bit shifted products. */
  predicate Fits(a: V2s, b: V2s, w: V2s) {
    var d := V2s(a.re - b.re, a.im - b.im);
    && Is16(a.re + b.re) && Is16(a.im + b.im) && Is16(d.re) && Is16(d.im)
    && Is32(d.re * w.re) && Is32(d.im * w.im) && Is32(d.re * w.im) && Is32(d.im * w.re)
    && Is32(ProductRe(d, w)) && Is32(ProductIm(d, w))
    && Is16(ProductRe(d, w) / 0x8000) && Is16(ProductIm(d, w) / 0x8000)
  }

  predicate Is16(x: int) { -0x8000 <= x < 0x8000 }

  predicate Is32(x: int) { -0x8000_0000 <= x < 0x8000_0000 }

  lemma WrapFits(x: int)
    ensures Is16(x) ==> Wrap16(x) == x
    ensures Is32(x) ==> Wrap32(x) == x
  {
  }

  /** Inputs of modulus r and a twiddle of modulus below 2^15 keep every intermediate in range. */
  lemma ButterflyFits(a: V2s, b: V2s, w: V2s, r: int)
    requires InDisc(a, r) && InDisc(b, r) && InDisc(w, 0x7FFF) && r <= LIMIT
    ensures Fits(a, b, w)
  {
    var d := V2s(a.re - b.re, a.im - b.im);
    SumInDisc(a, b, r);
    DiscBound(V2s(a.re + b.re, a.im + b.im), 2 * r);
    DiscBound(d, 2 * r);
    DiscBound(w, 0x7FFF);
    ProductInDisc(d, w, 2 * r, 0x7FFF);
    DiscBound(V2s(ProductRe(d, w), ProductIm(d, w)), 2 * r * 0x7FFF);
    FactorFits(d.re, w.re, r);
    FactorFits(d.im, w.im, r);
    FactorFits(d.re, w.im, r);
    FactorFits(d.im, w.re, r);
  }

  lemma FactorFits(x: int, y: int, r: int)
    requires -2 * r <= x <= 2 * r && -0x7FFF <= y <= 0x7FFF && 0 <= r <= LIMIT
    ensures Is32(x * y)
  {
    if y >= 0 {
      ProductBound(x, y, 2 * r, 0x7FFF);
    } else {
      ProductBound(x, -y, 2 * r, 0x7FFF);
      assert x * y == -(x * -y);
    }
  }

  lemma ShiftTwice(x: int)
    ensures x / 0x8000 / 2 == x / 0x1_0000
  {
  }

  /** The fixed-point product, when its intermediates fit. */
  lemma ProductIsExact(d: V2s, w: V2s)
    requires Is32(d.re * w.re) && Is32(d.im * w.im) && Is32(d.re * w.im) && Is32(d.im * w.re)
    requires Is32(ProductRe(d, w)) && Is32(ProductIm(d, w))
    requires Is16(ProductRe(d, w) / 0x8000) && Is16(ProductIm(d, w) / 0x8000)
    ensures CplxMulsDiv2(d, w) == ExactLow(d, w)
  {
    var a, b, c, e := d.re * w.re, d.im * w.im, d.re * w.im, d.im * w.re;
    RoundTrip(a, b);
    RoundTrip(c, e);
    hide Is16, Is32, Wrap16, Wrap32;
  }

  /** One component of the product: both products, their sum or difference, and both shifts. */
  lemma RoundTrip(a: int, b: int)
    requires Is32(a) && Is32(b)
    ensures Is32(a - b) && Is16((a - b) / 0x8000) ==>
              Wrap16(Wrap32(Wrap32(a) - Wrap32(b)) / 0x8000) / 2 == (a - b) / 0x1_0000
    ensures Is32(a + b) && Is16((a + b) / 0x8000) ==>
              Wrap16(Wrap32(Wrap32(a) + Wrap32(b)) / 0x8000) / 2 == (a + b) / 0x1_0000
  {
    WrapFits(a);
    WrapFits(b);
    WrapFits(a - b);
    WrapFits(a + b);
    WrapFits((a - b) / 0x8000);
    WrapFits((a + b) / 0x8000);
    ShiftTwice(a - b);
    ShiftTwice(a + b);
  }

  lemma ExactOutputs(a: V2s, b: V2s, w: V2s)
    ensures Up(ExactButterfly(), a, b, w) == HalfV(SumV(a, b)) && Low(ExactButterfly(), a, b, w) == ExactLow(DiffV(a, b), w)
  {
    hide ExactLow, HalfV, SumV, DiffV;
  }

  lemma ExactLastOutputs(a: V2s, b: V2s, w: V2s)
    ensures Up(ExactLast(), a, b, w) == SumV(a, b) && Low(ExactLast(), a, b, w) == DiffV(a, b)
  {
    hide SumV, DiffV;
  }

  lemma FixedOutputs(a: V2s, b: V2s, w: V2s)
    ensures Up(FixedButterfly(), a, b, w) == HalfV(AddV(a, b)) && Low(FixedButterfly(), a, b, w) == CplxMulsDiv2(SubV(a, b), w)
  {
    hide HalfV, AddV, SubV, CplxMulsDiv2;
  }

  lemma FixedLastOutputs(a: V2s, b: V2s, w: V2s)
    ensures Up(FixedLast(), a, b, w) == AddV(a, b) && Low(FixedLast(), a, b, w) == SubV(a, b)
  {
    hide AddV, SubV;
  }

  /** Where every intermediate fits, the code computes the exact butterfly. */
  lemma FixedIsExact(a: V2s, b: V2s, w: V2s)
    requires Fits(a, b, w)
    ensures Up(FixedButterfly(), a, b, w) == Up(ExactButterfly(), a, b, w)
    ensures Low(FixedButterfly(), a, b, w) == Low(ExactButterfly(), a, b, w)
    ensures Up(FixedLast(), a, b, w) == Up(ExactLast(), a, b, w)
    ensures Low(FixedLast(), a, b, w) == Low(ExactLast(), a, b, w)
  {
    hide *;
    FitsParts(a, b, w);
    ProductIsExact(DiffV(a, b), w);
    ExactOutputs(a, b, w);
    ExactLastOutputs(a, b, w);
    FixedOutputs(a, b, w);
    FixedLastOutputs(a, b, w);
    SumsAreExact(a, b);
  }

  lemma FitsParts(a: V2s, b: V2s, w: V2s)
    requires Fits(a, b, w)
    ensures var d := DiffV(a, b);
      && Is32(d.re * w.re) && Is32(d.im * w.im) && Is32(d.re * w.im) && Is32(d.im * w.re)
      && Is32(ProductRe(d, w)) && Is32(ProductIm(d, w))
      && Is16(ProductRe(d, w) / 0x8000) && Is16(ProductIm(d, w) / 0x8000)
    ensures Is16(a.re + b.re) && Is16(a.im + b.im) && Is16(a.re - b.re) && Is16(a.im - b.im)
  {
    hide Is16, Is32, ProductRe, ProductIm;
  }

  lemma SumsAreExact(a: V2s, b: V2s)
    ensures Is16(a.re + b.re) && Is16(a.im + b.im) ==> AddV(a, b) == SumV(a, b)
    ensures Is16(a.re - b.re) && Is16(a.im - b.im) ==> SubV(a, b) == DiffV(a, b)
  {
  }

  // ---------- The rounded butterfly, on plain integers ----------

  /** The half sum, rounded down, and the half of the Q15 product of difference and twiddle, rounded down. */
  predicate IsRounded(a: V2s, b: V2s, w: V2s, u: V2s, l: V2s) {
    && 2 * u.re <= a.re + b.re <= 2 * u.re + 1
    && 2 * u.im <= a.im + b.im <= 2 * u.im + 1
    && 65536 * l.re <= (a.re - b.re) * w.re - (a.im - b.im) * w.im < 65536 * (l.re + 1)
    && 65536 * l.im <= (a.re - b.re) * w.im + (a.im - b.im) * w.re < 65536 * (l.im + 1)
  }

  lemma FloorBounds(x: int, k: int)
    requires k >= 1
    ensures k * (x / k) <= x < k * (x / k + 1)
  {
  }

  /** The butterfly on unbounded integers. */
  lemma ExactIsRounded(a: V2s, b: V2s, w: V2s)
    ensures IsRounded(a, b, w, Up(ExactButterfly(), a, b, w), Low(ExactButterfly(), a, b, w))
  {
    hide ExactButterfly, Up, Low;
    ExactOutputs(a, b, w);
    var d := DiffV(a, b);
    FloorBounds(ProductRe(d, w), 0x1_0000);
    FloorBounds(ProductIm(d, w), 0x1_0000);
  }

  /** The butterfly of the code, where every intermediate fits. */
  lemma FixedIsRounded(a: V2s, b: V2s, w: V2s)
    requires Fits(a, b, w)
    ensures IsRounded(a, b, w, Up(FixedButterfly(), a, b, w), Low(FixedButterfly(), a, b, w))
    ensures Up(FixedLast(), a, b, w) == V2s(a.re + b.re, a.im + b.im)
    ensures Low(FixedLast(), a, b, w) == V2s(a.re - b.re, a.im - b.im)
  {
    hide Fits, IsRounded, FixedButterfly, ExactButterfly, FixedLast, ExactLast, Up, Low;
    FixedIsExact(a, b, w);
    ExactIsRounded(a, b, w);
    ExactLastOutputs(a, b, w);
  }

  lemma UpInDisc(a: V2s, b: V2s, r: int)
    requires InDisc(a, r) && InDisc(b, r)
    ensures InDisc(HalfV(SumV(a, b)), r + 2)
  {
    var s := SumV(a, b);
    assert r >= 0 && s == V2s(a.re + b.re, a.im + b.im) && HalfV(s) == V2s(s.re / 2, s.im / 2);
    hide *;
    SumInDisc(a, b, r);
    RoundedInDisc(s, 2, r);
  }

  lemma WiderDisc(a: V2s, r: int, q: int)
    requires InDisc(a, r) && r <= q
    ensures InDisc(a, q)
  {
    SquareLe(r, q);
    hide Square;
  }

  lemma LowInDisc(a: V2s, b: V2s, w: V2s, r: int)
    requires InDisc(a, r) && InDisc(b, r) && InDisc(w, 0x7FFF)
    ensures InDisc(ExactLow(DiffV(a, b), w), r + 2)
  {
    var d := DiffV(a, b);
    var p := V2s(ProductRe(d, w), ProductIm(d, w));
    assert r >= 0 && d == V2s(a.re - b.re, a.im - b.im) && ExactLow(d, w) == V2s(p.re / 0x1_0000, p.im / 0x1_0000);
    hide *;
    SumInDisc(a, b, r);
    ProductInDisc(d, w, 2 * r, 0x7FFF);
    WiderDisc(p, 2 * r * 0x7FFF, 0x1_0000 * r);
    RoundedInDisc(p, 0x1_0000, r);
  }

  /** A layer widens the disc by 2. */
  lemma ButterflyInDisc(a: V2s, b: V2s, w: V2s, r: int)
    requires InDisc(a, r) && InDisc(b, r) && InDisc(w, 0x7FFF)
    ensures InDisc(Up(ExactButterfly(), a, b, w), r + 2) && InDisc(Low(ExactButterfly(), a, b, w), r + 2)
  {
    ExactOutputs(a, b, w);
    hide *;
    UpInDisc(a, b, r);
    LowInDisc(a, b, w, r);
  }

  // ---------- Whole layers and whole runs ----------

  ghost predicate AllInDisc(x: seq<V2s>, r: int) {
    r >= 0 && forall p: nat :: p < |x| ==> InDisc(x[p], r)
  }

  /** The three operands of the butterfly that produces sample p. */
  lemma OperandsInDisc(x: seq<V2s>, tw: seq<V2s>, p: nat, q: int, u: int, r: int)
    requires p < |x| && AllInDisc(x, r) && AllInDisc(tw, 0x7FFF) && r <= LIMIT
    ensures InDisc(At(x, q, x[p]), r) && InDisc(At(tw, u, x[p]), 0x7FFF)
  {
    SquareLe(r, LIMIT);
  }

  /** The code's butterflies and their exact counterparts. */
  ghost predicate Counterparts(f: Butterfly<V2s>, g: Butterfly<V2s>) {
    (f == FixedButterfly() && g == ExactButterfly()) || (f == FixedLast() && g == ExactLast())
  }

  lemma CounterpartsAgree(f: Butterfly<V2s>, g: Butterfly<V2s>, a: V2s, b: V2s, w: V2s, r: int)
    requires Counterparts(f, g)
    requires InDisc(a, r) && InDisc(b, r) && InDisc(w, 0x7FFF) && r <= LIMIT
    ensures Up(f, a, b, w) == Up(g, a, b, w) && Low(f, a, b, w) == Low(g, a, b, w)
  {
    ButterflyFits(a, b, w, r);
    FixedIsExact(a, b, w);
  }

  lemma LayerExact(f: Butterfly<V2s>, g: Butterfly<V2s>, x: seq<V2s>, M: nat, L: nat, tw: seq<V2s>, r: int)
    requires M >= 1 && AllInDisc(x, r) && AllInDisc(tw, 0x7FFF) && r <= LIMIT && Counterparts(f, g)
    ensures Layer(f, x, M, L, tw) == Layer(g, x, M, L, tw)
  {
    hide Counterparts, InDisc, Up, Low;
    var y := Layer(f, x, M, L, tw);
    forall p: nat | p < |x| ensures y[p] == LayerAt(g, x, M, L, tw, p) {
      LayerElement(f, x, M, L, tw, p);
      var s := p % (2 * M);
      OperandsInDisc(x, tw, p, p + M, s * L, r);
      OperandsInDisc(x, tw, p, p - M, (s - M) * L, r);
      assert InDisc(x[p], r);
      if s < M {
        CounterpartsAgree(f, g, x[p], At(x, p + M, x[p]), At(tw, s * L, x[p]), r);
      } else {
        CounterpartsAgree(f, g, At(x, p - M, x[p]), x[p], At(tw, (s - M) * L, x[p]), r);
      }
    }
    IsLayer(g, x, M, L, tw, y);
  }

  lemma LayerInDisc(x: seq<V2s>, M: nat, L: nat, tw: seq<V2s>, r: int)
    requires M >= 1 && AllInDisc(x, r) && AllInDisc(tw, 0x7FFF) && r <= LIMIT
    ensures AllInDisc(Layer(ExactButterfly(), x, M, L, tw), r + 2)
  {
    hide InDisc, Up, Low, ExactButterfly;
    var y := Layer(ExactButterfly(), x, M, L, tw);
    forall p: nat | p < |x| ensures InDisc(y[p], r + 2) {
      LayerElement(ExactButterfly(), x, M, L, tw, p);
      var s := p % (2 * M);
      OperandsInDisc(x, tw, p, p + M, s * L, r);
      OperandsInDisc(x, tw, p, p - M, (s - M) * L, r);
      assert InDisc(x[p], r);
      if s < M {
        ButterflyInDisc(x[p], At(x, p + M, x[p]), At(tw, s * L, x[p]), r);
      } else {
        ButterflyInDisc(At(x, p - M, x[p]), x[p], At(tw, (s - M) * L, x[p]), r);
      }
    }
  }

  /** Before layer s of n every sample lies in the disc of radius r, and r grows by 2 a layer. */
  lemma {:induction false} RunExact(x: seq<V2s>, one: V2s, n: nat, L: nat, tw: seq<V2s>, r: int)
    requires AllInDisc(x, r) && AllInDisc(tw, 0x7FFF) && InDisc(one, 0x7FFF) && r + 2 * n <= LIMIT + 2
    ensures DifLayers(FixedButterfly(), FixedLast(), one, x, n, L, tw, n) == DifLayers(ExactButterfly(), ExactLast(), one, x, n, L, tw, n)
    decreases n
  {
    hide InDisc, Layer, FixedButterfly, ExactButterfly, FixedLast, ExactLast;
    if n == 1 {
      assert AllInDisc([one], 0x7FFF);
      LayerExact(FixedLast(), ExactLast(), x, 1, 0, [one], r);
    } else if n >= 2 {
      LayerExact(FixedButterfly(), ExactButterfly(), x, Pow2(n - 1), L, tw, r);
      LayerInDisc(x, Pow2(n - 1), L, tw, r);
      RunExact(Layer(ExactButterfly(), x, Pow2(n - 1), L, tw), one, n - 1, 2 * L, tw, r + 2);
    }
  }

  /** The state before layer s, on exact integers. */
  function Before(x: seq<V2s>, one: V2s, n: nat, L: nat, tw: seq<V2s>, s: nat): (y: seq<V2s>)
    requires s < n
    ensures |y| == |x|
  {
    DifLayers(ExactButterfly(), ExactLast(), one, x, n, L, tw, s)
  }

  /** After s layers every sample satisfies re² + im² <= (r + 2s)². */
  lemma {:induction false} BoundAfter(x: seq<V2s>, one: V2s, n: nat, L: nat, tw: seq<V2s>, r: int, s: nat)
    requires AllInDisc(x, r) && AllInDisc(tw, 0x7FFF) && s < n && r + 2 * n <= LIMIT + 2
    ensures AllInDisc(Before(x, one, n, L, tw, s), r + 2 * s)
    decreases n
  {
    hide AllInDisc, Layer, Pow2, ExactButterfly, ExactLast;
    if s == 0 {
    } else {
      LayerInDisc(x, Pow2(n - 1), L, tw, r);
      BoundAfter(Layer(ExactButterfly(), x, Pow2(n - 1), L, tw), one, n - 1, 2 * L, tw, r + 2, s - 1);
    }
  }

  /** Samples of `FFT2_SAMPLE_DYN` = 13 bits lie in the disc of radius 11586. */
  lemma SampleInDisc(a: V2s)
    requires -0x2000 <= a.re <= 0x2000 && -0x2000 <= a.im <= 0x2000
    ensures InDisc(a, 11586)
  {
    SquareSmall(a.re);
    SquareSmall(a.im);
    assert 2 * Square(0x2000) <= Square(11586);
    hide Square;
  }

  lemma SquareSmall(c: int)
    requires -0x2000 <= c <= 0x2000
    ensures Square(c) <= Square(0x2000)
  {
    SquareSign(c);
    hide Square;
    if c >= 0 {
      SquareLe(c, 0x2000);
    } else {
      SquareLe(-c, 0x2000);
    }
  }

  lemma OneInDisc(x: seq<V2s>, p: nat, r: int)
    requires AllInDisc(x, r) && p < |x|
    ensures InDisc(x[p], r)
  {
  }

  lemma SamplesInDisc(x: seq<V2s>)
    requires forall p :: 0 <= p < |x| ==> -0x2000 <= x[p].re <= 0x2000 && -0x2000 <= x[p].im <= 0x2000
    ensures AllInDisc(x, 11586)
  {
    hide InDisc;
    forall p: nat | p < |x| ensures InDisc(x[p], 11586) {
      SampleInDisc(x[p]);
    }
  }

  /** Samples of 13 bits: no butterfly of any layer has an intermediate outside its type. */
  lemma NoOverflow(x: seq<V2s>, one: V2s, n: nat, tw: seq<V2s>, s: nat, p: nat, q: nat, u: nat)
    requires forall p :: 0 <= p < |x| ==> -0x2000 <= x[p].re <= 0x2000 && -0x2000 <= x[p].im <= 0x2000
    requires AllInDisc(tw, 0x7FFF) && s < n <= 2399 && p < |x| && q < |x| && u < |tw|
    ensures InDisc(Before(x, one, n, 1, tw, s)[p], 11586 + 2 * s)
    ensures Fits(Before(x, one, n, 1, tw, s)[p], Before(x, one, n, 1, tw, s)[q], tw[u])
  {
    hide *;
    RadiusFits(s, n);
    SamplesInDisc(x);
    BoundAfter(x, one, n, 1, tw, 11586, s);
    ButterfliesFit(Before(x, one, n, 1, tw, s), tw, 11586 + 2 * s, p, q, u);
  }

  lemma RadiusFits(s: nat, n: nat)
    requires s < n <= 2399
    ensures 11586 + 2 * s <= LIMIT && 11586 + 2 * n <= LIMIT + 2
  {
  }

  lemma ButterfliesFit(z: seq<V2s>, tw: seq<V2s>, r: int, p: nat, q: nat, u: nat)
    requires AllInDisc(z, r) && AllInDisc(tw, 0x7FFF) && r <= LIMIT && p < |z| && q < |z| && u < |tw|
    ensures InDisc(z[p], r) && Fits(z[p], z[q], tw[u])
  {
    hide *;
    OneInDisc(z, p, r);
    OneInDisc(z, q, r);
    OneInDisc(tw, u, 0x7FFF);
    ButterflyFits(z[p], z[q], tw[u], r);
  }

  /** `Radix2FFT_DIF`: for samples of 13 bits the 16-bit code computes exactly the rounded layers of unbounded integers. */
  method Radix2FFTDif(data: array<V2s>, tw: array<V2s>, ghost n: nat)
    requires 1 <= n <= 2399 && data.Length == Pow2(n) && tw.Length >= data.Length / 2 && data != tw
    requires forall p :: 0 <= p < data.Length ==> -0x2000 <= data[p].re <= 0x2000 && -0x2000 <= data[p].im <= 0x2000
    requires AllInDisc(tw[..], 0x7FFF)
    modifies data
    ensures data[..] == DifLayers(ExactButterfly(), ExactLast(), V2s(1, 0), old(data[..]), n, 1, tw[..], n)
  {
    Log2OfPow2(n);
    ghost var x := data[..];
    SamplesInDisc(x);
    RunExact(x, V2s(1, 0), n, 1, tw[..], 11586);
    RunDif(FixedButterfly(), FixedLast(), V2s(1, 0), data, tw, Log2(data.Length), n);
  }
}
