/**
  What the digits of PrintfNumber.dfy mean: they denote the number as far as 32 of them can, and _atoi
  reads a decimal number back.
 */
module PrintfDigits {
  import Arith
  import opened PrintfNumber

  function Power(b: nat, n: nat): nat {
    if n == 0 then 1 else b * Power(b, n - 1)
  }

  lemma {:induction false} PowerPositive(b: nat, n: nat)
    requires b >= 1
    ensures Power(b, n) >= 1
  {
    if n == 0 {
    } else {
      PowerPositive(b, n - 1);
      Arith.MulLe(b, 1, Power(b, n - 1));
    }
  }

  function DigitValue(c: char): nat {
    if '0' <= c <= '9' then (c - '0') as nat
    else if 'a' <= c <= 'z' then (c - 'a') as nat + 10
    else if 'A' <= c <= 'Z' then (c - 'A') as nat + 10
    else 0
  }

  lemma DigitValueOfChar(digit: nat, uppercase: bool)
    requires digit < 36
    ensures DigitValue(DigitChar(digit, uppercase)) == digit
    ensures digit < 10 ==> IsDigit(DigitChar(digit, uppercase))
  {
  }

  /** The number that digits denote, least significant first. */
  function Denotes(d: string, base: nat): nat {
    if d == "" then 0 else DigitValue(d[0]) + base * Denotes(d[1..], base)
  }

  lemma Nested(b: nat, p: nat, q: nat, r: nat)
    ensures b * (p * q + r) == (b * p) * q + b * r
  {
    assert b * (p * q) == (b * p) * q;
  }

  lemma BelowProduct(b: nat, p: nat, r: nat, d: nat)
    requires r < p && d < b
    ensures b * r + d < b * p
  {
    Arith.MulLe(b, r + 1, p);
    assert b * (r + 1) == b * r + b;
  }

  lemma SplitModulo(y: nat, b: nat, p: nat)
    requires b >= 1 && p >= 1
    ensures y % (b * p) == b * (y / b % p) + y % b
  {
    var x, d := y / b, y % b;
    assert y == b * x + d;
    var q, r := x / p, x % p;
    assert x == p * q + r;
    Nested(b, p, q, r);
    BelowProduct(b, p, r, d);
    var m, s := b * p, b * r + d;
    assert y == m * q + s;
    Arith.DivModUnique(y, m, q, s);
  }

  lemma DenotesFirst(c: char, t: string, base: nat)
    ensures Denotes([c] + t, base) == DigitValue(c) + base * Denotes(t, base)
    ensures Denotes("", base) == 0
  {
    hide DigitValue;
    assert ([c] + t)[1..] == t;
  }

  function Rest(value: nat, base: nat, uppercase: bool, room: nat): string
    requires 2 <= base <= 36 && room >= 1
  {
    if value / base != 0 && room > 1 then DigitLoop(value / base, base, uppercase, room - 1) else ""
  }

  lemma FirstDigit(value: nat, base: nat, uppercase: bool, room: nat)
    requires 2 <= base <= 36 && room >= 1
    ensures Denotes(DigitLoop(value, base, uppercase, room), base) == value % base + base * Denotes(Rest(value, base, uppercase, room), base)
  {
    var c := DigitChar(value % base, uppercase);
    assert DigitLoop(value, base, uppercase, room) == [c] + Rest(value, base, uppercase, room);
    DigitValueOfChar(value % base, uppercase);
    hide Denotes, DigitLoop, Rest, DigitChar, DigitValue;
    DenotesFirst(c, Rest(value, base, uppercase, room), base);
  }

  lemma NoRest(value: nat, base: nat, room: nat)
    requires base >= 2 && room >= 1 && (value / base == 0 || room == 1)
    ensures Power(base, room - 1) >= 1 && value / base % Power(base, room - 1) == 0
  {
    PowerPositive(base, room - 1);
    assert Power(base, 0) == 1;
  }

  /** The loop writes the number modulo base^room. */
  lemma {:induction false} DigitsDenoteModulo(value: nat, base: nat, uppercase: bool, room: nat)
    requires 2 <= base <= 36 && room >= 1
    ensures Power(base, room) >= 1 && Denotes(DigitLoop(value, base, uppercase, room), base) == value % Power(base, room)
    decreases room, 1
  {
    PowerPositive(base, room);
    PowerPositive(base, room - 1);
    FirstDigit(value, base, uppercase, room);
    RestDenotes(value, base, uppercase, room);
    SplitModulo(value, base, Power(base, room - 1));
    hide DigitLoop, Denotes, Rest;
  }

  lemma {:induction false} RestDenotes(value: nat, base: nat, uppercase: bool, room: nat)
    requires 2 <= base <= 36 && room >= 1
    ensures Power(base, room - 1) >= 1 && Denotes(Rest(value, base, uppercase, room), base) == value / base % Power(base, room - 1)
    decreases room, 0
  {
    hide DigitLoop, Denotes, Power;
    if value / base != 0 && room > 1 {
      DigitsDenoteModulo(value / base, base, uppercase, room - 1);
    } else {
      NoRest(value, base, room);
      DenotesFirst('0', "", base);
    }
  }

  lemma ModuloIsIdentity(x: nat, d: nat)
    requires d >= 1
    ensures x % d == x <==> x < d
  {
  }

  /** The 32 characters of the buffer are enough exactly for the numbers below base^32. */
  lemma DigitsDenoteIff(value: nat, base: nat, uppercase: bool)
    requires 2 <= base <= 36
    ensures Denotes(DigitLoop(value, base, uppercase, NTOA_BUFFER_SIZE), base) == value <==> value < Power(base, NTOA_BUFFER_SIZE)
  {
    hide DigitLoop, Denotes, Power;
    DigitsDenoteModulo(value, base, uppercase, NTOA_BUFFER_SIZE);
    ModuloIsIdentity(value, Power(base, NTOA_BUFFER_SIZE));
  }

  // ---------- Reading back ----------

  ghost predicate AllDigits(d: string) {
    forall i :: 0 <= i < |d| ==> IsDigit(d[i])
  }

  lemma {:induction false} DecimalDigits(value: nat, uppercase: bool, room: nat)
    requires room >= 1
    ensures AllDigits(DigitLoop(value, 10, uppercase, room))
    decreases room
  {
    DigitValueOfChar(value % 10, uppercase);
    hide DigitChar;
    if value / 10 == 0 || room == 1 {
    } else {
      DecimalDigits(value / 10, uppercase, room - 1);
    }
  }

  lemma Distribute(b: nat, x: nat, p: nat, v: nat)
    ensures b * (x + p * v) == b * x + (b * p) * v
  {
    assert b * (p * v) == (b * p) * v;
  }

  /** A further digit on top counts base^length times. */
  lemma {:induction false} DenotesTop(d: string, c: char, base: nat)
    ensures Denotes(d + [c], base) == Denotes(d, base) + Power(base, |d|) * DigitValue(c)
  {
    hide DigitValue;
    if d == "" {
      assert d + [c] == [c] && [c][1..] == "";
    } else {
      var t := d[1..];
      assert (d + [c])[1..] == t + [c] && (d + [c])[0] == d[0];
      DenotesTop(t, c, base);
      assert Power(base, |d|) == base * Power(base, |t|);
      assert Denotes(d + [c], base) == DigitValue(d[0]) + base * Denotes(t + [c], base);
      hide Power, Denotes;
      Distribute(base, Denotes(t, base), Power(base, |t|), DigitValue(c));
    }
  }

  lemma {:induction false} ZerosDenoteNothing(d: string, n: nat)
    requires AllDigits(d)
    ensures AllDigits(ZerosTo(d, n)) && Denotes(ZerosTo(d, n), 10) == Denotes(d, 10)
    decreases n - |d|
  {
    if |d| >= n {
    } else {
      DenotesTop(d, '0', 10);
      assert DigitValue('0') == 0;
      ZerosDenoteNothing(d + ['0'], n);
    }
  }

  lemma OnTop(P: nat, i: nat, v: nat)
    requires P >= 1
    ensures (10 * P) * i + P * v == P * (10 * i + v) && 10 * i + v <= P * (10 * i + v)
  {
    assert P * (10 * i + v) == P * (10 * i) + P * v;
    Arith.MulLe(10 * i + v, 1, P);
  }

  lemma ReadOneDigit(s: string, p: nat, i: nat)
    requires p < |s| && IsDigit(s[p]) && 10 * i + DigitValue(s[p]) < TWO_TO_THE_32
    ensures Number(s, p, i) == Number(s, p + 1, 10 * i + DigitValue(s[p]))
  {
    assert (i * 10 + (s[p] - '0') as nat) % TWO_TO_THE_32 == 10 * i + DigitValue(s[p]);
  }

  lemma {:induction false} BackwardsTop(d: string)
    requires d != ""
    ensures Backwards(d) == [d[|d| - 1]] + Backwards(d[..|d| - 1])
  {
    var n := |d| - 1;
    var e := Backwards(d[..n]);
    assert forall i :: 0 <= i < n ==> e[i] == d[n - 1 - i];
    hide Backwards;
    assert Backwards(d)[0] == d[n];
    assert Backwards(d)[1..] == e;
  }

  /** _atoi reads a stretch of digits, most significant first, up to the first other character. */
  lemma {:induction false} ReadsStretch(s: string, p: nat, d: string, i: nat)
    requires AllDigits(d) && p + |d| < |s| && s[p..p + |d|] == Backwards(d) && !IsDigit(s[p + |d|])
    requires Power(10, |d|) * i + Denotes(d, 10) < TWO_TO_THE_32
    ensures Number(s, p, i) == (Power(10, |d|) * i + Denotes(d, 10), p + |d|)
    decreases |d|
  {
    hide Power, Denotes, DigitValue, Backwards, Number;
    if d == "" {
      NoDigit(s, p, i);
    } else {
      var n := |d| - 1;
      var top, rest := d[n], d[..n];
      assert d == rest + [top];
      DenotesTop(rest, top, 10);
      StretchTop(s, p, d);
      PowerOfTen(n);
      OnTop(Power(10, n), i, DigitValue(top));
      ReadOneDigit(s, p, i);
      ReadsStretch(s, p + 1, rest, 10 * i + DigitValue(top));
    }
  }

  lemma NoDigit(s: string, p: nat, i: nat)
    requires p < |s| && !IsDigit(s[p])
    ensures Number(s, p, i) == (i, p) && Power(10, 0) == 1 && Denotes("", 10) == 0
  {
  }

  lemma PowerOfTen(n: nat)
    ensures Power(10, n) >= 1 && Power(10, n + 1) == 10 * Power(10, n)
  {
    PowerPositive(10, n);
  }

  lemma {:induction false} StretchTop(s: string, p: nat, d: string)
    requires d != "" && p + |d| < |s| && s[p..p + |d|] == Backwards(d)
    ensures s[p] == d[|d| - 1] && s[p + 1..p + |d|] == Backwards(d[..|d| - 1])
  {
    BackwardsTop(d);
    hide Backwards;
    assert s[p] == s[p..p + |d|][0];
    assert s[p + 1..p + |d|] == s[p..p + |d|][1..];
  }

  lemma TenDigitsAreEnough()
    ensures TWO_TO_THE_32 <= Power(10, NTOA_BUFFER_SIZE)
  {
    assert Power(10, 5) == 100000;
    assert Power(10, 10) == 10000000000;
    PowerGrows(10, 10, 32);
  }

  lemma {:induction false} PowerGrows(b: nat, m: nat, n: nat)
    requires b >= 1 && m <= n
    ensures Power(b, m) <= Power(b, n)
  {
    if m == n {
    } else {
      PowerGrows(b, m, n - 1);
      Arith.MulLe(Power(b, n - 1), 1, b);
    }
  }

  /** The decimal digits of a 32-bit value, before and after padding with zeros. */
  lemma PaddedDenotes(value: nat, prec: nat, width: nat, flags: Flags)
    requires value < TWO_TO_THE_32
    ensures AllDigits(Padded(Digits(value, 10, flags), prec, width, flags))
    ensures Denotes(Padded(Digits(value, 10, flags), prec, width, flags), 10) == value
  {
    var d := Digits(value, 10, flags);
    TenDigitsAreEnough();
    DigitsDenoteIff(value, 10, flags.uppercase);
    DecimalDigits(value, flags.uppercase, NTOA_BUFFER_SIZE);
    hide DigitLoop, ZerosTo, DigitValue, Power;
    assert AllDigits(d) && Denotes(d, 10) == value;
    ZerosDenoteNothing(d, Least(prec, NTOA_BUFFER_SIZE));
    ZerosDenoteNothing(ZerosTo(d, Least(prec, NTOA_BUFFER_SIZE)), Least(width, NTOA_BUFFER_SIZE));
  }

  /** Behind the digits: the spaces of a left-aligned number. */
  function Trailing(r: string, width: nat, flags: Flags): string {
    if flags.left then Fill(' ', Missing(width, |r|)) else ""
  }

  lemma TrailingIsNoDigit(r: string, width: nat, flags: Flags, tail: string)
    requires |tail| >= 1 && !IsDigit(tail[0])
    ensures var u := Trailing(r, width, flags) + tail; |u| >= 1 && !IsDigit(u[0])
  {
    var f := Trailing(r, width, flags);
    assert |f| > 0 ==> f[0] == ' ';
  }

  /**
    The round trip: an unsigned 32-bit value that is printed in decimal, with any precision and width,
    without signs and not padded with spaces on the left, is read back by _atoi.
   */
  lemma {:induction false} AtoiReadsBack(value: nat, prec: nat, width: nat, flags: Flags, tail: string)
    requires value < TWO_TO_THE_32 && !flags.plus && !flags.space && !flags.hash && (flags.left || flags.zeropad)
    requires |tail| >= 1 && !IsDigit(tail[0])
    ensures Number(NtoaText(value, false, 10, prec, width, flags) + tail, 0, 0).0 == value
  {
    hide *;
    var r := Padded(Digits(value, 10, flags), prec, width, flags);
    var f := Trailing(r, width, flags);
    DecimalText(value, prec, width, flags);
    PaddedDenotes(value, prec, width, flags);
    TrailingIsNoDigit(r, width, flags, tail);
    assert (Backwards(r) + f) + tail == Backwards(r) + (f + tail);
    ReadsPrefix(r, f + tail);
  }

  lemma ReadsPrefix(r: string, u: string)
    requires AllDigits(r) && Denotes(r, 10) < TWO_TO_THE_32 && |u| >= 1 && !IsDigit(u[0])
    ensures Number(Backwards(r) + u, 0, 0).0 == Denotes(r, 10)
  {
    hide Denotes, Backwards, Number;
    assert (Backwards(r) + u)[0..|r|] == Backwards(r);
    ReadsStretch(Backwards(r) + u, 0, r, 0);
  }

  /** Without signs and prefixes the text is the padded digits, and behind them spaces. */
  lemma DecimalText(value: nat, prec: nat, width: nat, flags: Flags)
    requires !flags.plus && !flags.space && !flags.hash && (flags.left || flags.zeropad)
    ensures var r := Padded(Digits(value, 10, flags), prec, width, flags);
            NtoaText(value, false, 10, prec, width, flags) == Backwards(r) + Trailing(r, width, flags)
  {
    assert HashFlags(value, flags) == flags;
    var r := Padded(Digits(value, 10, flags), prec, width, flags);
    hide Digits, Padded, Backwards, Fill;
    assert r + "" == r;
    assert Reversed(Digits(value, 10, flags), false, 10, prec, width, flags) == r;
    assert Backwards(r) + "" == Backwards(r);
  }
}
