/**
  What the convolutions compute, on the filter and the image as they lie in memory: element t of the
  filter belongs to channel t / 49, row t % 49 / 7 and column t % 7.
 */
module ConvSums {
  import opened Arith
  import opened Rings
  import opened Conv

  /** The sum of f[t] · img[t / 49][r + t % 49 / 7][c + t % 7] over the first n elements of the filter. */
  function Sum<T>(P: Problem<T>, r: nat, c: nat, n: nat): T
    requires Valid(P) && r < P.M && c < P.N && n <= 49 * P.C
  {
    if n == 0 then P.R.zero
    else
      var t := n - 1;
      Add(P.R, Sum(P, r, c, t), Mul(P.R, P.f[t], P.img[t / 49][r + t % 49 / 7][c + t % 7]))
  }

  lemma ElementAt(ch: nat, a: nat, b: nat)
    requires a < 7 && b < 7
    ensures var t := 49 * ch + 7 * a + b; t / 49 == ch && t % 49 / 7 == a && t % 7 == b
  {
  }

  lemma SumStep<T>(P: Problem<T>, r: nat, c: nat, ch: nat, a: nat, b: nat)
    requires Valid(P) && r < P.M && c < P.N && ch < P.C && a < 7 && b < 7
    ensures var t := 49 * ch + 7 * a + b;
            t < 49 * P.C && Sum(P, r, c, t + 1) == Add(P.R, Sum(P, r, c, t), Term(P, ch, r, a, b, c))
  {
    ElementAt(ch, a, b);
  }

  /** The whole channels before ch, the whole filter rows before a, and b elements of row a. */
  function Parts<T>(P: Problem<T>, r: nat, c: nat, ch: nat, a: nat, b: nat): T {
    Add(P.R, Conv3D(P, r, c, ch), Add(P.R, Conv2D(P, ch, r, c, a), RowDot(P, ch, r, a, c, b)))
  }

  lemma {:induction false} SumIsParts<T(!new)>(P: Problem<T>, r: nat, c: nat, ch: nat, a: nat, b: nat)
    requires CommRing(P.R) && Valid(P) && r < P.M && c < P.N && ch <= P.C && a <= 7 && b <= 7
    requires ch == P.C ==> a == 0 && b == 0
    requires a == 7 ==> b == 0
    ensures 49 * ch + 7 * a + b <= 49 * P.C && Sum(P, r, c, 49 * ch + 7 * a + b) == Parts(P, r, c, ch, a, b)
    decreases ch, a, b
  {
    hide CommRing, Valid, Sum;
    if b > 0 {
      SumIsParts(P, r, c, ch, a, b - 1);
      SumStep(P, r, c, ch, a, b - 1);
      NextElement(P, r, c, ch, a, b);
    } else if a > 0 {
      SumIsParts(P, r, c, ch, a - 1, 7);
      NextRow(P, r, c, ch, a);
    } else if ch > 0 {
      SumIsParts(P, r, c, ch - 1, 7, 0);
      NextPlane(P, r, c, ch);
    } else {
      NoParts(P, r, c);
    }
  }

  lemma NextElement<T(!new)>(P: Problem<T>, r: nat, c: nat, ch: nat, a: nat, b: nat)
    requires CommRing(P.R) && b > 0
    ensures Parts(P, r, c, ch, a, b) == Add(P.R, Parts(P, r, c, ch, a, b - 1), Term(P, ch, r, a, b - 1, c))
  {
    var x, y, z, t := Conv3D(P, r, c, ch), Conv2D(P, ch, r, c, a), RowDot(P, ch, r, a, c, b - 1), Term(P, ch, r, a, b - 1, c);
    assert RingLaw(P.R, x, Add(P.R, y, z), t);
    assert RingLaw(P.R, y, z, t);
    hide Term, Conv2D, Conv3D;
  }

  lemma NextRow<T(!new)>(P: Problem<T>, r: nat, c: nat, ch: nat, a: nat)
    requires CommRing(P.R) && a > 0
    ensures Parts(P, r, c, ch, a, 0) == Parts(P, r, c, ch, a - 1, 7)
  {
    AddZero(P.R, Conv2D(P, ch, r, c, a));
    hide Conv3D, Term;
  }

  lemma NextPlane<T(!new)>(P: Problem<T>, r: nat, c: nat, ch: nat)
    requires CommRing(P.R) && ch > 0
    ensures Parts(P, r, c, ch, 0, 0) == Parts(P, r, c, ch - 1, 7, 0)
  {
    AddZero(P.R, P.R.zero);
    AddZero(P.R, Conv3D(P, r, c, ch));
    AddZero(P.R, Conv2D(P, ch - 1, r, c, 7));
  }

  lemma NoParts<T(!new)>(P: Problem<T>, r: nat, c: nat)
    requires CommRing(P.R) && Valid(P) && r < P.M && c < P.N
    ensures Sum(P, r, c, 0) == Parts(P, r, c, 0, 0, 0)
  {
    AddZero(P.R, P.R.zero);
  }

  /** The sum over the channels of the convolutions is the sum over all elements of the filter. */
  lemma OutIsSum<T(!new)>(P: Problem<T>, r: nat, c: nat)
    requires CommRing(P.R) && Valid(P) && r < P.M && c < P.N
    ensures Out(P, r, c) == Sum(P, r, c, 49 * P.C)
  {
    SumIsParts(P, r, c, P.C, 0, 0);
    AddZero(P.R, P.R.zero);
    AddZero(P.R, Conv3D(P, r, c, P.C));
    hide Sum, CommRing, Valid;
  }

  // ---------- The impulse response ----------

  /** The image is one at row p, column q of channel h, and zero elsewhere. */
  ghost predicate IsImpulse<T>(P: Problem<T>, h: nat, p: nat, q: nat)
    requires Valid(P)
  {
    forall ch, i, j :: 0 <= ch < P.C && 0 <= i < P.M + 6 && 0 <= j < P.N + 6 ==>
      P.img[ch][i][j] == if ch == h && i == p && j == q then P.R.one else P.R.zero
  }

  /** The element of the filter that lies on the impulse when its corner lies on (r, c). */
  predicate Hit(r: nat, c: nat, h: nat, p: nat, q: nat, t: nat) {
    r <= p < r + 7 && c <= q < c + 7 && t == 49 * h + 7 * (p - r) + (q - c)
  }

  lemma HitIff(r: nat, c: nat, h: nat, p: nat, q: nat, t: nat)
    ensures Hit(r, c, h, p, q, t) <==> t / 49 == h && r + t % 49 / 7 == p && c + t % 7 == q
  {
    var ch, a, b := Element(t);
    if Hit(r, c, h, p, q, t) {
      ElementAt(h, p - r, q - c);
    }
  }

  lemma Element(t: nat) returns (ch: nat, a: nat, b: nat)
    ensures a < 7 && b < 7 && t == 49 * ch + 7 * a + b && ch == t / 49 && a == t % 49 / 7 && b == t % 7
  {
    ch, a, b := t / 49, t % 49 / 7, t % 7;
  }

  lemma {:induction false} ImpulseSum<T(!new)>(P: Problem<T>, r: nat, c: nat, h: nat, p: nat, q: nat, n: nat)
    requires CommRing(P.R) && Valid(P) && r < P.M && c < P.N && n <= 49 * P.C && IsImpulse(P, h, p, q)
    ensures forall t: nat :: t < n && Hit(r, c, h, p, q, t) ==> Sum(P, r, c, n) == P.f[t]
    ensures (forall t: nat :: t < n ==> !Hit(r, c, h, p, q, t)) ==> Sum(P, r, c, n) == P.R.zero
  {
    hide Hit, CommRing;
    if n == 0 {
    } else {
      var t := n - 1;
      ImpulseSum(P, r, c, h, p, q, t);
      HitIff(r, c, h, p, q, t);
      MulUnits(P.R, P.f[t]);
      AddZero(P.R, Sum(P, r, c, t));
      AddZero(P.R, P.f[t]);
      if Hit(r, c, h, p, q, t) {
        forall s: nat | s < t ensures !Hit(r, c, h, p, q, s) {
          HitOnce(r, c, h, p, q, s, t);
        }
      }
    }
  }

  lemma HitOnce(r: nat, c: nat, h: nat, p: nat, q: nat, s: nat, t: nat)
    requires Hit(r, c, h, p, q, t) && s != t
    ensures !Hit(r, c, h, p, q, s)
  {
  }

  lemma MulUnits<T(!new)>(R: Ring<T>, x: T)
    requires CommRing(R)
    ensures Mul(R, x, R.one) == x && Mul(R, x, R.zero) == R.zero
  {
    MulZero(R, x);
    assert RingLaw(R, x, R.one, R.one);
  }

  /** An impulse in channel h at (p, q) shows the coefficients of channel h, element (p - r, q - c) at output (r, c). */
  lemma ImpulseResponse<T(!new)>(P: Problem<T>, r: nat, c: nat, h: nat, p: nat, q: nat)
    requires CommRing(P.R) && Valid(P) && r < P.M && c < P.N && h < P.C && IsImpulse(P, h, p, q)
    ensures Sum(P, r, c, 49 * P.C)
         == if r <= p < r + 7 && c <= q < c + 7 then P.f[49 * h + 7 * (p - r) + (q - c)] else P.R.zero
  {
    ImpulseSum(P, r, c, h, p, q, 49 * P.C);
    hide Sum, CommRing;
    if r <= p < r + 7 && c <= q < c + 7 {
      var t := 49 * h + 7 * (p - r) + (q - c);
      assert t < 49 * P.C && Hit(r, c, h, p, q, t);
    }
  }

  // ---------- Over the reals, and over machine integers ----------

  /** The same sum, with the operations of the reals. */
  function RealSum(f: seq<real>, img: seq<seq<seq<real>>>, r: nat, c: nat, n: nat): real
    requires forall t :: 0 <= t < n ==> InPicture(f, img, r, c, t)
  {
    if n == 0 then 0.0
    else
      var t := n - 1;
      assert InPicture(f, img, r, c, t);
      RealSum(f, img, r, c, t) + f[t] * img[t / 49][r + t % 49 / 7][c + t % 7]
  }

  predicate InPicture<T>(f: seq<T>, img: seq<seq<seq<T>>>, r: nat, c: nat, t: int) {
    && 0 <= t < |f| && t / 49 < |img| && r + t % 49 / 7 < |img[t / 49]|
    && c + t % 7 < |img[t / 49][r + t % 49 / 7]|
  }

  predicate AllInPicture<T>(P: Problem<T>, r: nat, c: nat, n: nat) {
    forall t :: 0 <= t < n ==> InPicture(P.f, P.img, r, c, t)
  }

  lemma PictureFits<T>(P: Problem<T>, r: nat, c: nat)
    requires Valid(P) && r < P.M && c < P.N
    ensures AllInPicture(P, r, c, 49 * P.C)
  {
  }

  lemma {:induction false} SumOfReals(P: Problem<real>, r: nat, c: nat, n: nat)
    requires P.R == Reals() && Valid(P) && r < P.M && c < P.N && n <= 49 * P.C
    ensures AllInPicture(P, r, c, n)
    ensures Sum(P, r, c, n) == RealSum(P.f, P.img, r, c, n)
  {
    PictureFits(P, r, c);
    if n == 0 {
    } else {
      SumOfReals(P, r, c, n - 1);
    }
  }

  /** The same sum of unbounded integers. */
  function IntSum(f: seq<int64>, img: seq<seq<seq<int64>>>, r: nat, c: nat, n: nat): int
    requires forall t :: 0 <= t < n ==> InPicture(f, img, r, c, t)
  {
    if n == 0 then 0
    else
      var t := n - 1;
      assert InPicture(f, img, r, c, t);
      IntSum(f, img, r, c, t) + Times(f[t], img[t / 49][r + t % 49 / 7][c + t % 7])
  }

  lemma {:induction false} SumOfInt64s(P: Problem<int64>, r: nat, c: nat, n: nat)
    requires P.R == Int64s() && Valid(P) && r < P.M && c < P.N && n <= 49 * P.C
    ensures AllInPicture(P, r, c, n)
    ensures Sum(P, r, c, n) == Wrap64(IntSum(P.f, P.img, r, c, n))
  {
    hide Wrap64, Valid, Int64s, Times;
    PictureFits(P, r, c);
    if n == 0 {
      Int64Units();
      WrapFits(0);
    } else {
      var t := n - 1;
      SumOfInt64s(P, r, c, t);
      assert InPicture(P.f, P.img, r, c, t);
      Int64Step(Sum(P, r, c, t), P.f[t], P.img[t / 49][r + t % 49 / 7][c + t % 7], IntSum(P.f, P.img, r, c, t));
    }
  }
}
