/**
  What each conversion of apps/common/printf.c prints: the number that the digits denote, in which base, and
  when the fixed buffer loses digits, the sign or the prefix.
 */
module PrintfMeaning {
  import Arith
  import opened PrintfNumber
  import opened PrintfDigits
  import opened PrintfNumeral
  import opened Printf

  // ---------- The argument ----------

  /** v is congruent to the 64-bit slot, and in the range of a type of that many values. */
  predicate InType(v: int, w: nat, size: nat, signed: bool)
    requires size >= 1
  {
    (v - w) % size == 0 && if signed then 0 <= 2 * v + size < 2 * size else 0 <= v < size
  }

  /** v is the argument as its type has it: 64, 8, 16 or 32 bits, two's complement for %d and %i; plain char is unsigned. */
  predicate IsArgument(v: int, c: char, flags: Flags, w: nat) {
    var signed := c == 'd' || c == 'i';
    if flags.long || flags.longLong then InType(v, w, 0x1_0000_0000_0000_0000, signed)
    else if flags.chr then InType(v, w, 0x100, false)
    else if flags.shrt then InType(v, w, 0x1_0000, signed)
    else InType(v, w, 0x1_0000_0000, signed)
  }

  lemma ArgumentIs(c: char, flags: Flags, w: nat)
    ensures IsArgument(IntegerArg(c, flags, w), c, flags, w)
  {
    hide InType;
    Type8(w);
    Type16(w);
    Type32(w);
    Type64(w);
    ArgumentCases(c, flags, w);
    hide IntegerArg, Signed;
  }

  lemma ArgumentCases(c: char, flags: Flags, w: nat)
    ensures var signed := c == 'd' || c == 'i';
      IntegerArg(c, flags, w) ==
        if flags.long || flags.longLong then (if signed then Signed(w, 0x1_0000_0000_0000_0000) else w % 0x1_0000_0000_0000_0000)
        else if flags.chr then w % 0x100
        else if flags.shrt then (if signed then Signed(w, 0x1_0000) else w % 0x1_0000)
        else (if signed then Signed(w, 0x1_0000_0000) else w % 0x1_0000_0000)
  {
    hide Signed;
  }

  lemma Type8(w: nat)
    ensures InType(w % 0x100, w, 0x100, false)
  {
  }

  lemma Type16(w: nat)
    ensures InType(Signed(w, 0x1_0000), w, 0x1_0000, true) && InType(w % 0x1_0000, w, 0x1_0000, false)
  {
  }

  lemma Type32(w: nat)
    ensures InType(Signed(w, 0x1_0000_0000), w, 0x1_0000_0000, true) && InType(w % 0x1_0000_0000, w, 0x1_0000_0000, false)
  {
  }

  lemma Type64(w: nat)
    ensures InType(Signed(w, 0x1_0000_0000_0000_0000), w, 0x1_0000_0000_0000_0000, true)
    ensures InType(w % 0x1_0000_0000_0000_0000, w, 0x1_0000_0000_0000_0000, false)
  {
  }

  // ---------- Integers ----------

  /** The length of the numeral, prefix, sign and padding, from the flags of the directive. */
  ghost predicate HasShape(c: char, d: Directive, v: int, base: nat, q: Parts)
    requires base >= 2
  {
    var N := if v < 0 then -v else v;
    var zero := d.flags.zeropad && !d.flags.precision;
    var signed := c == 'd' || c == 'i';
    var sign := if v < 0 then "-" else if signed && d.flags.plus then "+" else if signed && d.flags.space then " " else "";
    var hash := d.flags.hash && base != 10 && N != 0;
    var w := if !d.flags.left && zero && d.width > 0 && sign != "" then d.width - 1 else d.width;
    var core := |q.sign| + |q.prefix| + |q.digits|;
    var missing := if core < w then w - core else 0;
    && |q.digits| == KeptLength(PaddedLength(RawLength(N, base, d.flags.precision), d.precision, w, d.flags.left, zero), base, w, hash, d.flags.precision)
    && q.prefix == (if hash then PrefixIn(|q.digits|, base, c == 'X') else "")
    && q.sign == (if |q.prefix| + |q.digits| < 32 then sign else "")
    && q.left == (if d.flags.left || zero then 0 else missing)
    && q.right == (if d.flags.left then missing else 0)
  }

  /** The conversions and their bases. */
  predicate Converts(c: char, base: nat) {
    || ((c == 'd' || c == 'i' || c == 'u') && base == 10)
    || ((c == 'x' || c == 'X') && base == 16)
    || (c == 'o' && base == 8)
    || (c == 'b' && base == 2)
  }

  /**
    %d, %i, %u, %x, %X, %o and %b: padding, sign, prefix, a numeral of the base, padding.  The numeral denotes the
    magnitude of the argument modulo base^length, so it is right if and only if the magnitude has that many digits.
   */
  lemma IntegerIs(c: char, d: Directive, base: nat) returns (v: int, q: Parts)
    requires Converts(c, base) && !d.flags.uppercase && (d.precision != 0 ==> d.flags.precision)
    ensures DirectiveText(c, d) == Assemble(q)
    ensures IsArgument(v, c, d.flags, NextWord(d.args))
    ensures IsNumeral(q.digits, base, c == 'X')
    ensures var N := if v < 0 then -v else v; var p := Power(base, |q.digits|);
      p >= 1 && Numeral(q.digits, base) == N % p && (Numeral(q.digits, base) == N <==> N < p)
    ensures HasShape(c, d, v, base, q)
  {
    hide *;
    v := IntegerArg(c, d.flags, NextWord(d.args));
    ArgumentIs(c, d.flags, NextWord(d.args));
    IntegerTextIs(c, d, base);
    FlagsAre(c, d, v, base);
    q := NtoaIs(Magnitude(v), v < 0, base, d.precision, d.width, IntegerFlags(c, d.flags));
    MagnitudeIs(v);
    ShapeIs(c, d, v, base, q);
    ModuloIsIdentity(Magnitude(v), Power(base, |q.digits|));
  }

  lemma MagnitudeIs(v: int)
    ensures Magnitude(v) == if v < 0 then -v else v
  {
  }

  lemma IntegerTextIs(c: char, d: Directive, base: nat)
    requires Converts(c, base)
    ensures 2 <= base <= 16
    ensures var v := IntegerArg(c, d.flags, NextWord(d.args));
            DirectiveText(c, d) == NtoaText(Magnitude(v), v < 0, base, d.precision, d.width, IntegerFlags(c, d.flags))
  {
    hide NtoaText, IntegerArg, IntegerFlags;
  }

  lemma IntegerFlagsAre(c: char, flags: Flags, base: nat)
    requires Converts(c, base) && !flags.uppercase
    ensures var f := IntegerFlags(c, flags);
      var signed := c == 'd' || c == 'i';
      && f.uppercase == (c == 'X') && f.precision == flags.precision && f.left == flags.left
      && f.zeropad == (flags.zeropad && !flags.precision)
      && f.plus == (signed && flags.plus) && f.space == (signed && flags.space) && f.hash == (flags.hash && base != 10)
  {
    hide Base, IsInteger, Converts;
    BaseIs(c, base);
  }

  lemma HashFlagsAre(value: nat, f: Flags)
    ensures HashFlags(value, f) == f.(hash := f.hash && value != 0)
  {
  }

  /** The flags that _ntoa_format sees. */
  lemma FlagsAre(c: char, d: Directive, v: int, base: nat)
    requires Converts(c, base) && !d.flags.uppercase
    ensures IntegerFlags(c, d.flags).uppercase == (c == 'X')
    ensures var f := HashFlags(Magnitude(v), IntegerFlags(c, d.flags));
      var signed := c == 'd' || c == 'i';
      && f.uppercase == (c == 'X') && f.precision == d.flags.precision && f.left == d.flags.left
      && f.zeropad == (d.flags.zeropad && !d.flags.precision)
      && f.plus == (signed && d.flags.plus) && f.space == (signed && d.flags.space)
      && f.hash == (d.flags.hash && base != 10 && v != 0)
    ensures var f := IntegerFlags(c, d.flags);
      f.precision == d.flags.precision && f.left == d.flags.left && f.zeropad == (d.flags.zeropad && !d.flags.precision)
  {
    hide IntegerFlags, HashFlags, Converts;
    IntegerFlagsAre(c, d.flags, base);
    HashFlagsAre(Magnitude(v), IntegerFlags(c, d.flags));
  }

  lemma BaseIs(c: char, base: nat)
    requires Converts(c, base)
    ensures Base(c) == base && IsInteger(c)
  {
  }

  lemma ShapeIs(c: char, d: Directive, v: int, base: nat, q: Parts)
    requires Converts(c, base) && !d.flags.uppercase && base >= 2
    requires var g := IntegerFlags(c, d.flags);
      var f := HashFlags(Magnitude(v), g);
      var w := SignedWidth(v < 0, d.width, f);
      && |q.digits| == KeptLength(PaddedLength(RawLength(Magnitude(v), base, f.precision), d.precision, w, f.left, f.zeropad), base, w, f.hash, f.precision)
      && q.prefix == (if f.hash then PrefixIn(|q.digits|, base, g.uppercase) else "")
      && q.sign == Added(|q.prefix| + |q.digits|, Sign(v < 0, f))
      && q.left == (if g.left || g.zeropad then 0 else Missing(w, |q.sign| + |q.prefix| + |q.digits|))
      && q.right == (if g.left then Missing(w, |q.sign| + |q.prefix| + |q.digits|) else 0)
    ensures HasShape(c, d, v, base, q)
  {
    hide IntegerFlags, HashFlags, PaddedLength, RawLength, KeptLength, PrefixIn;
    FlagsAre(c, d, v, base);
  }

  // ---------- When the number and its sign are complete ----------

  lemma {:induction false} PowerSum(b: nat, m: nat, n: nat)
    ensures Power(b, m + n) == Power(b, m) * Power(b, n)
  {
    if m == 0 {
    } else {
      PowerSum(b, m - 1, n);
      assert Power(b, m + n) == b * Power(b, m + n - 1);
      assert b * (Power(b, m - 1) * Power(b, n)) == (b * Power(b, m - 1)) * Power(b, n);
    }
  }

  lemma {:induction false} BaseGrows(b: nat, c: nat, n: nat)
    requires b <= c
    ensures Power(b, n) <= Power(c, n)
  {
    if n == 0 {
    } else {
      BaseGrows(b, c, n - 1);
      Arith.MulLe(b, Power(b, n - 1), Power(c, n - 1));
      Arith.MulLe(Power(c, n - 1), b, c);
    }
  }

  lemma Powers8()
    ensures Power(8, 32) > 0x1_0000_0000_0000_0000
  {
    hide Power;
    Power4(8);
    PowerSum(8, 4, 4);
    PowerSum(8, 8, 8);
    PowerSum(8, 16, 16);
  }

  lemma Power4(b: nat)
    ensures Power(b, 4) == b * (b * (b * b))
  {
    assert Power(b, 1) == b && Power(b, 2) == b * b && Power(b, 3) == b * (b * b);
  }

  lemma Powers2()
    ensures Power(2, 32) == 0x1_0000_0000
  {
    hide Power;
    Power4(2);
    PowerSum(2, 4, 4);
    PowerSum(2, 8, 8);
    PowerSum(2, 16, 16);
  }

  /** 32 digits are enough for 64 bits, except in binary. */
  lemma Enough(N: nat, base: nat)
    requires base == 2 || 8 <= base <= 36
    requires N <= 0x1_0000_0000_0000_0000 && (base == 2 ==> N < 0x1_0000_0000)
    ensures N < Power(base, 32)
  {
    hide Power;
    Powers8();
    Powers2();
    if base >= 8 {
      BaseGrows(8, base, 32);
    }
  }

  lemma RawIsEnough(N: nat, base: nat, explicit: bool, n: nat)
    requires 2 <= base <= 36 && RawLength(N, base, explicit) <= n <= 32 && N < Power(base, 32)
    ensures N < Power(base, n)
  {
    hide Power, DigitCount;
    DigitCountIs(N, base);
    FirstPowers(base);
    PowerPositive(base, n);
    if DigitCount(N, base) <= n {
      PowerGrows(base, DigitCount(N, base), n);
    }
  }

  lemma MagnitudeFits(v: int, c: char, flags: Flags, w: nat)
    requires IsArgument(v, c, flags, w)
    ensures (if v < 0 then -v else v) <= 0x1_0000_0000_0000_0000
  {
  }

  /** Without the # flag the text denotes the argument, whatever width and precision; in binary, below 2^32. */
  lemma NothingLost(c: char, d: Directive, base: nat, v: int, q: Parts)
    requires Converts(c, base) && HasShape(c, d, v, base, q) && IsArgument(v, c, d.flags, NextWord(d.args))
    requires var N := if v < 0 then -v else v; var p := Power(base, |q.digits|); p >= 1 && Numeral(q.digits, base) == N % p
    ensures var N := if v < 0 then -v else v;
      (!d.flags.hash || base == 10 || N == 0) && (base != 2 || N < 0x1_0000_0000) ==> Numeral(q.digits, base) == N
  {
    hide Numeral, Power, RawLength, IsArgument, PrefixIn;
    var N := if v < 0 then -v else v;
    MagnitudeFits(v, c, d.flags, NextWord(d.args));
    if (!d.flags.hash || base == 10 || N == 0) && (base != 2 || N < 0x1_0000_0000) {
      Enough(N, base);
      RawAtMost(N, base, d.flags.precision);
      RawIsEnough(N, base, d.flags.precision, |q.digits|);
      ModuloIsIdentity(N, Power(base, |q.digits|));
    }
  }

  lemma RawAtMost(N: nat, base: nat, explicit: bool)
    requires base >= 2
    ensures RawLength(N, base, explicit) <= 32
  {
  }

  /**
    The minus sign of %d and %i: printed if and only if the argument is negative, and neither the precision nor the
    zero-padded width fills the buffer of 32 characters.
   */
  lemma MinusIff(c: char, d: Directive, v: int, q: Parts)
    requires (c == 'd' || c == 'i') && HasShape(c, d, v, 10, q) && IsArgument(v, c, d.flags, NextWord(d.args))
    ensures q.sign == "-" <==>
      v < 0 && (d.flags.left || (d.precision < 32 && (d.flags.zeropad && !d.flags.precision ==> d.width <= 32)))
  {
    hide IsArgument, RawLength, PrefixIn;
    MagnitudeFits(v, c, d.flags, NextWord(d.args));
    TwentyDigits(if v < 0 then -v else v, d.flags.precision);
  }

  lemma TwentyDigits(N: nat, explicit: bool)
    requires N <= 0x1_0000_0000_0000_0000
    ensures RawLength(N, 10, explicit) < 32
  {
    hide Power, DigitCount;
    DigitCountIs(N, 10);
    FirstPowers(10);
    if N >= 1 && DigitCount(N, 10) >= 32 {
      PowerGrows(10, 31, DigitCount(N, 10) - 1);
      Powers10();
    }
  }

  lemma Powers10()
    ensures Power(10, 31) > 0x1_0000_0000_0000_0000
  {
    hide Power;
    Power4(10);
    PowerSum(10, 4, 4);
    PowerSum(10, 8, 8);
    PowerSum(10, 16, 8);
    PowerGrows(10, 24, 31);
  }

  // ---------- Instances ----------

  /** %040d of -5: 32 digits that denote 5, and no sign. */
  lemma SignIsLost() returns (q: Parts)
    ensures var d := Directive(NO_FLAGS.(zeropad := true), 40, 0, 0, [Word(0xFFFF_FFFB)]);
      && DirectiveText('d', d) == Assemble(q) && IsArgument(-5, 'd', d.flags, NextWord(d.args))
      && q.left == q.right == 0 && q.sign == q.prefix == "" && |q.digits| == 32 && Numeral(q.digits, 10) == 5
  {
    hide Numeral, Power, RawLength, PrefixIn, DirectiveText, Assemble;
    var d := Directive(NO_FLAGS.(zeropad := true), 40, 0, 0, [Word(0xFFFF_FFFB)]);
    var v;
    v, q := IntegerIs('d', d, 10);
    assert NextWord(d.args) == 0xFFFF_FFFB;
    assert v == -5;
    TwentyDigits(5, false);
    NothingLost('d', d, 10, v, q);
  }

  /** %#4x of 0x1234: the prefix takes the place of two digits, and the text says 0x34. */
  lemma DigitsAreLost() returns (q: Parts)
    ensures var d := Directive(NO_FLAGS.(hash := true), 4, 0, 0, [Word(0x1234)]);
      && DirectiveText('x', d) == Assemble(q) && IsArgument(0x1234, 'x', d.flags, NextWord(d.args))
      && q.left == q.right == 0 && q.sign == "" && q.prefix == "0x" && |q.digits| == 2 && Numeral(q.digits, 16) == 0x34
  {
    hide Numeral, DirectiveText, Assemble;
    var d := Directive(NO_FLAGS.(hash := true), 4, 0, 0, [Word(0x1234)]);
    var v;
    v, q := IntegerIs('x', d, 16);
    assert NextWord(d.args) == 0x1234;
    assert v == 0x1234;
    assert DigitCount(1, 16) == 1 && DigitCount(0x12, 16) == 2 && DigitCount(0x123, 16) == 3 && DigitCount(0x1234, 16) == 4;
    assert Power(16, 1) == 16 && Power(16, 2) == 256;
  }

  // ---------- The other conversions ----------

  /** %c, %s and %% as texts, with spaces before or behind; %p is 16 or more capital hexadecimal digits. */
  lemma OthersAre(d: Directive)
    requires d.precision != 0 ==> d.flags.precision
    ensures var ch := [(NextWord(d.args) % 0x100) as char];
      var pad := Fill(' ', if d.width > 1 then d.width - 1 else 0);
      DirectiveText('c', d) == if d.flags.left then ch + pad else pad + ch
    ensures var s := if d.flags.precision && d.precision < |NextText(d.args)| then NextText(d.args)[..d.precision] else NextText(d.args);
      var pad := Fill(' ', if d.width > |s| then d.width - |s| else 0);
      DirectiveText('s', d) == if d.flags.left then s + pad else pad + s
    ensures DirectiveText('%', d) == "%"
  {
    hide Fill;
  }

  /** A pointer is printed with zeros up to a width of 16, and signs and prefix if the flags ask for them. */
  ghost predicate PointerShape(d: Directive, N: nat, q: Parts) {
    var sign := if d.flags.plus then "+" else if d.flags.space then " " else "";
    var hash := d.flags.hash && N != 0;
    var w := if !d.flags.left && sign != "" then 15 else 16;
    var core := |q.sign| + |q.prefix| + |q.digits|;
    && |q.digits| == KeptLength(PaddedLength(RawLength(N, 16, d.flags.precision), d.precision, w, d.flags.left, true), 16, w, hash, d.flags.precision)
    && q.prefix == (if hash then PrefixIn(|q.digits|, 16, true) else "")
    && q.sign == (if |q.prefix| + |q.digits| < 32 then sign else "")
    && q.left == 0 && q.right == (if d.flags.left && core < 16 then 16 - core else 0)
  }

  lemma PointerIs(d: Directive) returns (q: Parts)
    requires d.precision != 0 ==> d.flags.precision
    ensures DirectiveText('p', d) == Assemble(q) && IsNumeral(q.digits, 16, true)
    ensures var N := NextWord(d.args); var p := Power(16, |q.digits|);
      p >= 1 && Numeral(q.digits, 16) == N % p && PointerShape(d, N, q)
  {
    hide Numeral, IsNumeral, NtoaText, Assemble, RawLength, PrefixIn, Power, PaddedLength, KeptLength, NextWord;
    q := NtoaIs(NextWord(d.args), false, 16, d.precision, 16, d.flags.(zeropad := true, uppercase := true));
  }

  /** %p alone: 16 capital hexadecimal digits that denote the pointer. */
  lemma PlainPointer(d: Directive) returns (q: Parts)
    requires d.flags == NO_FLAGS && d.precision == 0
    ensures DirectiveText('p', d) == Assemble(q) && q.left == q.right == 0 && q.sign == q.prefix == ""
    ensures |q.digits| == 16 && IsNumeral(q.digits, 16, true) && Numeral(q.digits, 16) == NextWord(d.args)
  {
    hide Numeral, IsNumeral, DirectiveText, Assemble, RawLength, PrefixIn, Power;
    q := PointerIs(d);
    SixteenDigits(NextWord(d.args));
    Powers16();
    ModuloIsIdentity(NextWord(d.args), Power(16, 16));
  }

  lemma Powers16()
    ensures Power(16, 16) == 0x1_0000_0000_0000_0000
  {
    hide Power;
    Power4(16);
    PowerSum(16, 4, 4);
    PowerSum(16, 8, 8);
  }

  lemma SixteenDigits(N: nat)
    requires N < 0x1_0000_0000_0000_0000
    ensures RawLength(N, 16, false) <= 16
  {
    hide Power, DigitCount;
    DigitCountIs(N, 16);
    FirstPowers(16);
    Powers16();
    if N >= 1 && DigitCount(N, 16) > 16 {
      PowerGrows(16, 16, DigitCount(N, 16) - 1);
    }
  }
}
