/**
  What the text of a converted number says, read from left to right: padding, sign, prefix, and a numeral.
  How many digits are kept, and when a digit, the sign or the prefix is lost in the 32-character buffer.
 */
module PrintfNumeral {
  import Arith
  import opened PrintfNumber
  import opened PrintfDigits

  /** The number that a text of digits denotes, most significant first. */
  function Numeral(s: string, base: nat): nat {
    if s == "" then 0 else base * Numeral(s[..|s| - 1], base) + DigitValue(s[|s| - 1])
  }

  /** Digits of the base, with letters of the given case. */
  ghost predicate IsNumeral(s: string, base: nat, uppercase: bool) {
    forall i :: 0 <= i < |s| ==> IsDigitOf(s[i], base, uppercase)
  }

  predicate IsDigitOf(c: char, base: nat, uppercase: bool) {
    ('0' <= c <= '9' || (if uppercase then 'A' <= c <= 'Z' else 'a' <= c <= 'z')) && DigitValue(c) < base
  }

  lemma {:induction false} NumeralOfBackwards(d: string, base: nat)
    ensures Numeral(Backwards(d), base) == Denotes(d, base)
  {
    hide DigitValue;
    if d == "" {
    } else {
      NumeralOfBackwards(d[1..], base);
      assert Backwards(d)[..|d| - 1] == Backwards(d[1..]);
    }
  }

  lemma SameDigit(c: char, c': char, base: nat, uppercase: bool)
    requires IsDigitOf(c, base, uppercase) && IsDigitOf(c', base, uppercase) && DigitValue(c) == DigitValue(c')
    ensures c == c'
  {
  }

  lemma LastDigit(b: nat, x: nat, y: nat, v: nat, w: nat)
    requires v < b && w < b && b * x + v == b * y + w
    ensures x == y && v == w
  {
    Arith.DivModUnique(b * x + v, b, x, v);
    Arith.DivModUnique(b * y + w, b, y, w);
  }

  /** A numeral is determined by its length and the number it denotes. */
  lemma {:induction false} NumeralDetermines(s: string, t: string, base: nat, uppercase: bool)
    requires |s| == |t| && IsNumeral(s, base, uppercase) && IsNumeral(t, base, uppercase) && Numeral(s, base) == Numeral(t, base)
    ensures s == t
  {
    if s == "" {
    } else {
      var n := |s| - 1;
      LastOf(s, base, uppercase);
      LastOf(t, base, uppercase);
      hide Numeral, IsDigitOf, DigitValue;
      LastDigit(base, Numeral(s[..n], base), Numeral(t[..n], base), DigitValue(s[n]), DigitValue(t[n]));
      SameDigit(s[n], t[n], base, uppercase);
      NumeralDetermines(s[..n], t[..n], base, uppercase);
      assert s == s[..n] + [s[n]] && t == t[..n] + [t[n]];
    }
  }

  lemma LastOf(s: string, base: nat, uppercase: bool)
    requires s != "" && IsNumeral(s, base, uppercase)
    ensures var n := |s| - 1;
            && IsDigitOf(s[n], base, uppercase) && DigitValue(s[n]) < base && IsNumeral(s[..n], base, uppercase)
            && Numeral(s, base) == base * Numeral(s[..n], base) + DigitValue(s[n])
  {
  }

  // ---------- How many digits ----------

  /** How many digits of the base a number has. */
  function DigitCount(value: nat, base: nat): (n: nat)
    requires base >= 2
    ensures n >= 1
  {
    if value < base then 1
    else
      QuotientBetween(value, base);
      1 + DigitCount(value / base, base)
  }

  lemma BelowNext(value: nat, base: nat, p: nat)
    requires base >= 2 && value / base < p
    ensures value < base * p
  {
    Arith.MulLe(base, value / base + 1, p);
    assert value == base * (value / base) + value % base;
    assert base * (value / base + 1) == base * (value / base) + base;
  }

  lemma NotBelowNext(value: nat, base: nat, p: nat)
    requires base >= 2 && value / base >= p
    ensures value >= base * p
  {
    Arith.MulLe(base, p, value / base);
    assert value == base * (value / base) + value % base;
  }

  lemma BelowPower(value: nat, base: nat, n: nat)
    requires base >= 2 && value / base < Power(base, n)
    ensures value < Power(base, n + 1)
  {
    BelowNext(value, base, Power(base, n));
  }

  lemma NotBelowPower(value: nat, base: nat, n: nat)
    requires base >= 2 && value / base >= Power(base, n)
    ensures value >= Power(base, n + 1)
  {
    NotBelowNext(value, base, Power(base, n));
  }

  lemma CountStep(value: nat, base: nat) returns (y: nat)
    requires 2 <= base <= value
    ensures y == value / base && 1 <= y < value && DigitCount(value, base) == 1 + DigitCount(y, base)
  {
    y := value / base;
    QuotientBetween(value, base);
  }

  lemma QuotientBetween(value: nat, base: nat)
    requires 2 <= base <= value
    ensures 1 <= value / base < value
  {
    var y, r := value / base, value % base;
    assert value == base * y + r;
    if y >= 1 {
      Arith.MulLe(y, 2, base);
    }
  }

  lemma FirstPowers(base: nat)
    requires base >= 2
    ensures Power(base, 0) == 1 && Power(base, 1) == base && forall v: nat :: v < base ==> DigitCount(v, base) == 1
  {
    assert Power(base, 1) == base * Power(base, 0);
  }

  /** It lies between the powers of the base. */
  lemma {:induction false} DigitCountIs(value: nat, base: nat)
    requires base >= 2
    ensures value < Power(base, DigitCount(value, base))
    ensures value >= 1 ==> value >= Power(base, DigitCount(value, base) - 1)
  {
    hide Power, DigitCount;
    if value < base {
      FirstPowers(base);
    } else {
      var y := CountStep(value, base);
      DigitCountIs(y, base);
      BelowPower(value, base, DigitCount(y, base));
      NotBelowPower(value, base, DigitCount(y, base) - 1);
    }
  }

  lemma QuotientIsZero(value: nat, base: nat)
    requires base >= 2
    ensures value / base == 0 <==> value < base
  {
    if value >= base {
      NotBelowNext(value, base, 0);
      assert value == base * (value / base) + value % base;
    }
  }

  lemma {:induction false} DigitLoopLength(value: nat, base: nat, uppercase: bool, room: nat)
    requires 2 <= base <= 36 && room >= 1
    ensures |DigitLoop(value, base, uppercase, room)| == Least(DigitCount(value, base), room)
    decreases room
  {
    hide DigitChar;
    QuotientIsZero(value, base);
    if value >= base && room > 1 {
      DigitLoopLength(value / base, base, uppercase, room - 1);
    }
  }

  lemma DigitCharIs(digit: nat, base: nat, uppercase: bool)
    requires digit < base <= 36
    ensures IsDigitOf(DigitChar(digit, uppercase), base, uppercase)
  {
  }

  lemma {:induction false} DigitLoopIsNumeral(value: nat, base: nat, uppercase: bool, room: nat)
    requires 2 <= base <= 36 && room >= 1
    ensures IsNumeral(DigitLoop(value, base, uppercase, room), base, uppercase)
    decreases room
  {
    hide DigitChar, IsDigitOf;
    DigitCharIs(value % base, base, uppercase);
    if value / base != 0 && room > 1 {
      DigitLoopIsNumeral(value / base, base, uppercase, room - 1);
    }
  }

  // ---------- What a reversed text of digits denotes ----------

  /** d is a numeral in reverse, and denotes the number as far as its length allows. */
  ghost predicate Shows(d: string, value: nat, base: nat, uppercase: bool) {
    base >= 2 && Power(base, |d|) >= 1 && IsNumeral(d, base, uppercase) && Denotes(d, base) == value % Power(base, |d|)
  }

  lemma SmallModulo(x: nat, p: nat, q: nat)
    requires x < p <= q
    ensures x % p == x && x % q == x
  {
  }

  lemma DigitLoopShows(value: nat, base: nat, uppercase: bool, room: nat)
    requires 2 <= base <= 36 && room >= 1
    ensures Shows(DigitLoop(value, base, uppercase, room), value, base, uppercase)
  {
    hide DigitLoop, Denotes, Power, IsNumeral;
    var d := DigitLoop(value, base, uppercase, room);
    DigitLoopLength(value, base, uppercase, room);
    DigitLoopIsNumeral(value, base, uppercase, room);
    DigitsDenoteModulo(value, base, uppercase, room);
    PowerPositive(base, |d|);
    if |d| < room {
      DigitCountIs(value, base);
      PowerGrows(base, |d|, room);
      SmallModulo(value, Power(base, |d|), Power(base, room));
    }
  }

  lemma ZeroShows(base: nat, uppercase: bool)
    requires base >= 2
    ensures Shows("", 0, base, uppercase)
  {
    assert Power(base, 0) == 1;
  }

  /** What a conversion leaves in the buffer. */
  lemma DigitsShow(value: nat, base: nat, flags: Flags)
    requires 2 <= base <= 36
    ensures Shows(Digits(value, base, flags), value, base, flags.uppercase)
    ensures |Digits(value, base, flags)| == if flags.precision && value == 0 then 0 else Least(DigitCount(value, base), 32)
  {
    hide DigitLoop, Shows;
    ZeroShows(base, flags.uppercase);
    DigitLoopShows(value, base, flags.uppercase, NTOA_BUFFER_SIZE);
    DigitLoopLength(value, base, flags.uppercase, NTOA_BUFFER_SIZE);
  }

  /** The denoted number is below base^length. */
  lemma {:induction false} DenotesBelow(d: string, base: nat, uppercase: bool)
    requires base >= 2 && IsNumeral(d, base, uppercase)
    ensures Denotes(d, base) < Power(base, |d|)
  {
    if d == "" {
    } else {
      assert IsDigitOf(d[0], base, uppercase);
      assert IsNumeral(d[1..], base, uppercase);
      DenotesBelow(d[1..], base, uppercase);
      hide IsDigitOf, DigitValue;
      Arith.MulLe(base, Denotes(d[1..], base) + 1, Power(base, |d| - 1));
      assert base * (Denotes(d[1..], base) + 1) == base * Denotes(d[1..], base) + base;
    }
  }

  lemma PowerSplit(base: nat, k: nat) returns (p: nat)
    requires base >= 2
    ensures p >= 1 && p == Power(base, k) && Power(base, k + 1) == base * p
  {
    p := Power(base, k);
    PowerPositive(base, k);
  }

  lemma ModuloOfModulo(x: nat, p: nat, b: nat)
    requires p >= 1 && b >= 1
    ensures p * b >= 1 && x % (p * b) % p == x % p
  {
    Arith.MulLe(p, 1, b);
    SplitModulo(x, p, b);
    var y, r, q := x % (p * b), x % p, x / p % b;
    assert y == p * q + r;
    Arith.DivModUnique(y, p, q, r);
  }

  /** Without its most significant digit. */
  lemma DropTop(d: string, value: nat, base: nat, uppercase: bool)
    requires d != "" && Shows(d, value, base, uppercase)
    ensures Shows(d[..|d| - 1], value, base, uppercase)
  {
    hide Denotes, DigitValue, IsDigitOf, Power;
    var e := d[..|d| - 1];
    var p := PowerSplit(base, |e|);
    assert d == e + [d[|d| - 1]];
    DenotesTop(e, d[|d| - 1], base);
    DenotesBelow(e, base, uppercase);
    ModuloOfModulo(value, p, base);
    assert p * base == base * p;
    TopModulo(Denotes(e, base), p, DigitValue(d[|d| - 1]));
  }

  lemma TopModulo(x: nat, p: nat, v: nat)
    requires x < p
    ensures (x + p * v) % p == x
  {
    Arith.DivModUnique(x + p * v, p, v, x);
  }

  /** With a zero on top: the number must have been complete. */
  lemma AddZero(d: string, value: nat, base: nat, uppercase: bool)
    requires Shows(d, value, base, uppercase) && value < Power(base, |d|)
    ensures Shows(d + ['0'], value, base, uppercase) && value < Power(base, |d| + 1)
  {
    hide Denotes, Power;
    var p := PowerSplit(base, |d|);
    PowerGrows(base, |d|, |d| + 1);
    DenotesTop(d, '0', base);
    assert DigitValue('0') == 0;
    assert IsDigitOf('0', base, uppercase);
    SmallModulo(value, p, Power(base, |d| + 1));
  }

  /** In fewer than 32 digits the number is complete. */
  ghost predicate Complete(d: string, value: nat, base: nat, uppercase: bool) {
    Shows(d, value, base, uppercase) && (|d| < 32 ==> value < Power(base, |d|))
  }

  lemma {:induction false} ZerosComplete(d: string, n: nat, value: nat, base: nat, uppercase: bool)
    requires Complete(d, value, base, uppercase) && n <= 32
    ensures Complete(ZerosTo(d, n), value, base, uppercase)
    decreases n - |d|
  {
    hide Shows, Power;
    if |d| >= n {
    } else {
      AddZero(d, value, base, uppercase);
      ZerosComplete(d + ['0'], n, value, base, uppercase);
    }
  }

  lemma DigitsComplete(value: nat, base: nat, flags: Flags)
    requires 2 <= base <= 36
    ensures Complete(Digits(value, base, flags), value, base, flags.uppercase)
  {
    hide Shows, Power, Digits;
    DigitsShow(value, base, flags);
    DigitCountIs(value, base);
    FirstPowers(base);
  }

  // ---------- The length of the numeral ----------

  function Most(a: nat, b: nat): nat { if a < b then b else a }

  /** The digits of the number, none for zero with an explicit precision; the buffer holds 32. */
  function RawLength(value: nat, base: nat, explicit: bool): nat
    requires base >= 2
  {
    if explicit && value == 0 then 0 else if DigitCount(value, base) < 32 then DigitCount(value, base) else 32
  }

  /** With leading zeros: up to the precision, and up to the width with the 0 flag; none with the - flag. */
  function PaddedLength(n: nat, prec: nat, width: nat, left: bool, zero: bool): nat {
    if left then n else Most(Most(n, if prec < 32 then prec else 32), if !zero then 0 else if width < 32 then width else 32)
  }

  /** The prefix of the # flag takes the place of digits when the digits fill the width. */
  function KeptLength(n: nat, base: nat, width: nat, hash: bool, explicit: bool): nat {
    if hash && !explicit && n > 0 && n == width then (if base == 16 && n > 1 then n - 2 else n - 1) else n
  }

  lemma PaddedIs(value: nat, base: nat, prec: nat, width: nat, flags: Flags)
    requires 2 <= base <= 36
    ensures var P := Padded(Digits(value, base, flags), prec, width, flags);
            && Complete(P, value, base, flags.uppercase)
            && |P| == PaddedLength(RawLength(value, base, flags.precision), prec, width, flags.left, flags.zeropad)
  {
    hide Complete, Digits;
    var d := Digits(value, base, flags);
    DigitsComplete(value, base, flags);
    DigitsShow(value, base, flags);
    ZerosComplete(d, Least(prec, 32), value, base, flags.uppercase);
    ZerosComplete(ZerosTo(d, Least(prec, 32)), Least(width, 32), value, base, flags.uppercase);
  }

  lemma TrimmedIs(P: string, value: nat, base: nat, prec: nat, width: nat, flags: Flags)
    requires Shows(P, value, base, flags.uppercase) && flags.hash && (prec != 0 ==> flags.precision)
    ensures var T := Trimmed(P, base, prec, width, flags);
            Shows(T, value, base, flags.uppercase) && |T| == KeptLength(|P|, base, width, true, flags.precision)
  {
    hide Shows;
    if |P| > 0 {
      DropTop(P, value, base, flags.uppercase);
      if |P| > 1 {
        DropTop(P[..|P| - 1], value, base, flags.uppercase);
        assert P[..|P| - 1][..|P| - 2] == P[..|P| - 2];
      }
    }
  }

  // ---------- The whole text ----------

  /** Padding, sign, prefix, numeral, padding. */
  datatype Parts = Parts(left: nat, sign: string, prefix: string, digits: string, right: nat)

  function Assemble(q: Parts): string {
    Fill(' ', q.left) + q.sign + q.prefix + q.digits + Fill(' ', q.right)
  }

  /** The prefix of the # flag, as far as the buffer has room behind n digits. */
  function PrefixIn(n: nat, base: nat, uppercase: bool): string {
    if n >= 32 then ""
    else if base == 16 then (if n == 31 then (if uppercase then "X" else "x") else if uppercase then "0X" else "0x")
    else if base == 2 then (if n == 31 then "b" else "0b")
    else "0"
  }

  /** The buffer is read backwards. */
  function Forward(d: string): string {
    Backwards(d)
  }

  lemma ForwardMore(d: string, c: char)
    ensures Forward(d + [c]) == [c] + Forward(d)
  {
    BackwardsTop(d + [c]);
    hide Backwards;
    assert (d + [c])[..|d|] == d;
  }

  lemma ForwardLength(d: string)
    ensures |Forward(d)| == |d| && Backwards(d) == Forward(d)
  {
  }

  lemma EmptyText(s: string)
    ensures s + "" == s && "" + s == s
  {
  }

  lemma Assoc(x: string, y: string, z: string)
    ensures x + (y + z) == (x + y) + z
  {
  }

  /** What Fitting adds. */
  function Added(n: nat, t: string): string {
    if n < 32 then t else ""
  }

  lemma OneMoreForward(X: string, t: string)
    requires |X| <= 32 && |t| <= 1
    ensures |Fitting(X, t)| == |X| + |Added(|X|, t)| && Forward(Fitting(X, t)) == Added(|X|, t) + Forward(X)
  {
    hide Forward;
    EmptyText(X);
    EmptyText(Forward(X));
    if t != "" {
      assert t == [t[0]];
      ForwardMore(X, t[0]);
    }
  }

  lemma PrefixPieces(n: nat, base: nat, flags: Flags)
    requires n <= 32
    ensures var l := Added(n, PrefixLetter(base, flags));
            |PrefixLetter(base, flags)| <= 1 && Added(n + |l|, "0") + l == PrefixIn(n, base, flags.uppercase)
  {
  }

  lemma PrefixForward(T: string, base: nat, flags: Flags)
    requires |T| <= 32
    ensures Forward(Fitting(Fitting(T, PrefixLetter(base, flags)), "0")) == PrefixIn(|T|, base, flags.uppercase) + Forward(T)
  {
    hide Forward, Fitting, PrefixLetter, PrefixIn, Added;
    var t := PrefixLetter(base, flags);
    PrefixPieces(|T|, base, flags);
    var X := Fitting(T, t);
    OneMoreForward(T, t);
    OneMoreForward(X, "0");
    Assoc(Added(|X|, "0"), Added(|T|, t), Forward(T));
  }

  /** Prefix and digits, read forwards. */
  lemma PrefixedIs(P: string, value: nat, base: nat, prec: nat, width: nat, flags: Flags) returns (digits: string)
    requires |P| <= 32 && Shows(P, value, base, flags.uppercase) && (prec != 0 ==> flags.precision)
    ensures IsNumeral(digits, base, flags.uppercase) && Power(base, |digits|) >= 1 && Numeral(digits, base) == value % Power(base, |digits|)
    ensures |digits| == KeptLength(|P|, base, width, flags.hash, flags.precision)
    ensures Forward(Prefixed(P, base, prec, width, flags)) == (if flags.hash then PrefixIn(|digits|, base, flags.uppercase) else "") + digits
  {
    hide Shows, PrefixIn, Forward, Fitting, IsNumeral, Power, Numeral;
    var T := if flags.hash then Trimmed(P, base, prec, width, flags) else P;
    if flags.hash {
      TrimmedIs(P, value, base, prec, width, flags);
    }
    digits := Forward(T);
    ForwardShows(T, value, base, flags.uppercase);
    PrefixForward(T, base, flags);
    EmptyText(digits);
  }

  lemma ForwardShows(T: string, value: nat, base: nat, uppercase: bool)
    requires Shows(T, value, base, uppercase)
    ensures |Forward(T)| == |T| && IsNumeral(Forward(T), base, uppercase)
    ensures Power(base, |T|) >= 1 && Numeral(Forward(T), base) == value % Power(base, |T|)
  {
    NumeralOfBackwards(T, base);
    hide IsDigitOf, Backwards, Numeral, Denotes, Power;
  }

  /** What is read forwards of the finished buffer. */
  lemma ReversedIs(value: nat, negative: bool, base: nat, prec: nat, w: nat, f: Flags) returns (sign: string, prefix: string, digits: string)
    requires 2 <= base <= 36 && (prec != 0 ==> f.precision)
    ensures var P := Padded(Digits(value, base, f), prec, w, f);
            var r := Fitting(Prefixed(P, base, prec, w, f), Sign(negative, f));
            |r| == |sign| + |prefix| + |digits| && Forward(r) == sign + (prefix + digits)
    ensures IsNumeral(digits, base, f.uppercase)
    ensures Power(base, |digits|) >= 1 && Numeral(digits, base) == value % Power(base, |digits|)
    ensures |digits| == KeptLength(PaddedLength(RawLength(value, base, f.precision), prec, w, f.left, f.zeropad), base, w, f.hash, f.precision)
    ensures prefix == (if f.hash then PrefixIn(|digits|, base, f.uppercase) else "")
    ensures sign == Added(|prefix| + |digits|, Sign(negative, f))
  {
    hide *;
    BufferSize();
    var P := Padded(Digits(value, base, f), prec, w, f);
    PaddedIs(value, base, prec, w, f);
    CompleteShows(P, value, base, f.uppercase);
    digits := PrefixedIs(P, value, base, prec, w, f);
    prefix := if f.hash then PrefixIn(|digits|, base, f.uppercase) else "";
    var X := Prefixed(P, base, prec, w, f);
    ForwardLength(X);
    sign := Added(|X|, Sign(negative, f));
    OneMoreForward(X, Sign(negative, f));
    ForwardLength(Fitting(X, Sign(negative, f)));
  }

  lemma BufferSize()
    ensures NTOA_BUFFER_SIZE == 32
  {
  }

  lemma CompleteShows(d: string, value: nat, base: nat, uppercase: bool)
    requires Complete(d, value, base, uppercase)
    ensures Shows(d, value, base, uppercase)
  {
  }

  lemma Join(q: Parts, X: string)
    requires X == q.sign + (q.prefix + q.digits)
    ensures Assemble(q) == Fill(' ', q.left) + (X + Fill(' ', q.right))
    ensures q.left == 0 ==> Assemble(q) == X + Fill(' ', q.right)
    ensures q.right == 0 ==> Assemble(q) == Fill(' ', q.left) + X
    ensures q.left == 0 && q.right == 0 ==> Assemble(q) == X
  {
    hide Fill;
    assert Fill(' ', 0) == "";
    var f, g := Fill(' ', q.left), Fill(' ', q.right);
    Assoc(q.sign, q.prefix, q.digits);
    Assoc(f, q.sign, q.prefix);
    Assoc(f, q.sign + q.prefix, q.digits);
    Assoc(f, X, g);
    EmptyText(X);
    EmptyText(f + X);
    EmptyText(X + g);
  }

  lemma FormatIs(d: string, negative: bool, base: nat, prec: nat, width: nat, flags: Flags)
    requires |d| <= 32
    ensures var w := SignedWidth(negative, width, flags);
      var r := Reversed(d, negative, base, prec, width, flags);
      && r == Fitting(Prefixed(Padded(d, prec, w, flags), base, prec, w, flags), Sign(negative, flags))
      && FormatText(d, negative, base, prec, width, flags)
         == if flags.left then Forward(r) + Fill(' ', Missing(w, |r|)) else if flags.zeropad then Forward(r) else Fill(' ', Missing(w, |r|)) + Forward(r)
  {
    hide Fitting, Prefixed, Padded, Sign, Backwards, Fill, SignedWidth;
  }

  /** One converted number: every part of its text. */
  lemma NtoaIs(value: nat, negative: bool, base: nat, prec: nat, width: nat, flags: Flags) returns (q: Parts)
    requires 2 <= base <= 36 && (prec != 0 ==> flags.precision)
    ensures NtoaText(value, negative, base, prec, width, flags) == Assemble(q)
    ensures Power(base, |q.digits|) >= 1 && Numeral(q.digits, base) == value % Power(base, |q.digits|)
    ensures IsNumeral(q.digits, base, flags.uppercase)
    ensures var f := HashFlags(value, flags);
      var w := SignedWidth(negative, width, f);
      && |q.digits| == KeptLength(PaddedLength(RawLength(value, base, f.precision), prec, w, f.left, f.zeropad), base, w, f.hash, f.precision)
      && q.prefix == (if f.hash then PrefixIn(|q.digits|, base, flags.uppercase) else "")
      && q.sign == Added(|q.prefix| + |q.digits|, Sign(negative, f))
      && q.left == (if flags.left || flags.zeropad then 0 else Missing(w, |q.sign| + |q.prefix| + |q.digits|))
      && q.right == (if flags.left then Missing(w, |q.sign| + |q.prefix| + |q.digits|) else 0)
  {
    hide *;
    NtoaFormats(value, negative, base, prec, width, flags);
    var f := HashFlags(value, flags);
    var w := SignedWidth(negative, width, f);
    var d := Digits(value, base, f);
    FormatIs(d, negative, base, prec, width, f);
    var sign, prefix, digits := ReversedIs(value, negative, base, prec, w, f);
    ForwardLength(Reversed(d, negative, base, prec, width, f));
    var n := |sign| + |prefix| + |digits|;
    q := Parts(if flags.left || flags.zeropad then 0 else Missing(w, n), sign, prefix, digits, if flags.left then Missing(w, n) else 0);
    Layout(q, Forward(Reversed(d, negative, base, prec, width, f)), w, n, flags.left, flags.zeropad);
  }

  lemma NtoaFormats(value: nat, negative: bool, base: nat, prec: nat, width: nat, flags: Flags)
    requires 2 <= base <= 36
    ensures var f := HashFlags(value, flags);
      && |Digits(value, base, f)| <= 32
      && NtoaText(value, negative, base, prec, width, flags) == FormatText(Digits(value, base, f), negative, base, prec, width, f)
      && f == flags.(hash := f.hash)
  {
    hide Digits, FormatText;
  }

  lemma Layout(q: Parts, X: string, w: nat, n: nat, left: bool, zero: bool)
    requires X == q.sign + (q.prefix + q.digits)
    requires q.left == (if left || zero then 0 else Missing(w, n)) && q.right == (if left then Missing(w, n) else 0)
    ensures Assemble(q) == if left then X + Fill(' ', Missing(w, n)) else if zero then X else Fill(' ', Missing(w, n)) + X
  {
    hide Assemble, Missing, Fill;
    Join(q, X);
  }
}
