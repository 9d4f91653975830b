/**
  The formats of apps/common/printf.c read back: a format composed of plain text and directives is parsed into just
  these pieces, every directive takes just its own arguments, and the output is the texts of the pieces in order.
 */
module PrintfParse {
  import Arith
  import opened PrintfNumber
  import opened PrintfDigits
  import opened PrintfNumeral
  import opened Printf
  import opened PrintfMeaning

  // ---------- The grammar of a directive ----------

  /** A directive as it is written, without the % and the conversion. */
  datatype Written = Written(flags: string, width: string, precision: string, length: string)

  function Spelled(w: Written): string {
    w.flags + (w.width + (w.precision + w.length))
  }

  ghost predicate IsDecimal(s: string) {
    s != "" && forall i :: 0 <= i < |s| ==> '0' <= s[i] <= '9'
  }

  predicate IsConversion(c: char) {
    || c == 'd' || c == 'i' || c == 'u' || c == 'x' || c == 'X' || c == 'o' || c == 'b'
    || c == 'c' || c == 's' || c == 'p' || c == '%'
  }

  ghost predicate AllFlags(s: string) {
    forall i :: 0 <= i < |s| ==> s[i] == '0' || s[i] == '-' || s[i] == '+' || s[i] == ' ' || s[i] == '#'
  }

  ghost predicate IsWidth(s: string) {
    s == "" || s == "*" || (IsDecimal(s) && s[0] != '0')
  }

  ghost predicate IsPrecision(s: string) {
    s == "" || s == "." || s == ".*" || (s[0] == '.' && IsDecimal(s[1..]))
  }

  predicate IsLength(s: string) {
    s == "" || s == "hh" || s == "h" || s == "l" || s == "ll" || s == "j" || s == "t" || s == "z"
  }

  ghost predicate IsDirective(w: Written) {
    AllFlags(w.flags) && IsWidth(w.width) && IsPrecision(w.precision) && IsLength(w.length)
  }

  // ---------- Its meaning ----------

  /** The int in a 64-bit slot. */
  function Int(a: Arg): int {
    if !a.Word? then 0 else if a.w % 0x1_0000_0000 < 0x8000_0000 then a.w % 0x1_0000_0000 else a.w % 0x1_0000_0000 - 0x1_0000_0000
  }

  /** A * takes an argument. */
  function Stars(w: Written): nat {
    (if w.width == "*" then 1 else 0) + if w.precision == ".*" then 1 else 0
  }

  ghost predicate HasStars(w: Written, args: Args) {
    |args| >= Stars(w) && forall i :: 0 <= i < Stars(w) ==> args[i].Word?
  }

  ghost predicate FlagsSay(w: Written, args: Args, flags: Flags)
    requires HasStars(w, args)
  {
    && flags.zeropad == ('0' in w.flags)
    && flags.left == ('-' in w.flags || (w.width == "*" && Int(args[0]) < 0))
    && flags.plus == ('+' in w.flags)
    && flags.space == (' ' in w.flags)
    && flags.hash == ('#' in w.flags)
    && !flags.uppercase
    && flags.precision == (w.precision != "")
    && flags.chr == (w.length == "hh")
    && flags.shrt == (w.length == "h" || w.length == "hh")
    && flags.long == (w.length == "l" || w.length == "ll" || w.length == "j" || w.length == "t" || w.length == "z")
    && flags.longLong == (w.length == "ll")
  }

  /** A negative * width counts without its sign, a negative * precision as zero; numbers are read modulo 2^32. */
  ghost predicate Reads(w: Written, args: Args, d: Directive)
    requires HasStars(w, args)
  {
    && FlagsSay(w, args, d.flags)
    && d.width == (if w.width == "" then 0
                   else if w.width == "*" then (if Int(args[0]) < 0 then -Int(args[0]) else Int(args[0]))
                   else Numeral(w.width, 10) % 0x1_0000_0000)
    && d.precision == (if w.precision == "" || w.precision == "." then 0
                       else if w.precision == ".*" then (var n := Int(args[Stars(w) - 1]); if n > 0 then n else 0)
                       else Numeral(w.precision[1..], 10) % 0x1_0000_0000)
    && d.args == args[Stars(w)..]
  }

  // ---------- Stretches of the format ----------

  /** s stands at position p, and something behind it. */
  ghost predicate At(f: string, p: nat, s: string) {
    p + |s| < |f| && forall i :: 0 <= i < |s| ==> f[p + i] == s[i]
  }

  lemma AtSplit(f: string, p: nat, s: string, t: string)
    requires At(f, p, s + t)
    ensures At(f, p, s) && At(f, p + |s|, t)
  {
    forall i | 0 <= i < |s| ensures f[p + i] == s[i] {
      assert (s + t)[i] == s[i];
    }
    forall i | 0 <= i < |t| ensures f[p + |s| + i] == t[i] {
      assert (s + t)[|s| + i] == t[i];
    }
  }

  // ---------- Flags ----------

  predicate Has(s: string, c: char) {
    c in s
  }

  function OrFlags(flags: Flags, zero: bool, left: bool, plus: bool, space: bool, hash: bool): Flags {
    flags.(zeropad := flags.zeropad || zero, left := flags.left || left, plus := flags.plus || plus,
           space := flags.space || space, hash := flags.hash || hash)
  }

  function WithFlags(flags: Flags, s: string): Flags {
    OrFlags(flags, Has(s, '0'), Has(s, '-'), Has(s, '+'), Has(s, ' '), Has(s, '#'))
  }

  lemma NoFlagsMore(flags: Flags)
    ensures WithFlags(flags, "") == flags
  {
  }

  lemma FlagStep(f: string, p: nat, flags: Flags)
    requires p < |f|
    ensures IsFlag(f[p]) && p + 1 < |f| ==> FlagsAt(f, p, flags) == FlagsAt(f, p + 1, SetFlag(flags, f[p]))
    ensures !IsFlag(f[p]) ==> FlagsAt(f, p, flags) == (flags, p)
  {
  }

  lemma {:induction false} FlagsRead(f: string, p: nat, s: string, flags: Flags)
    requires At(f, p, s) && AllFlags(s) && !IsFlag(f[p + |s|])
    ensures FlagsAt(f, p, flags) == (WithFlags(flags, s), p + |s|)
    decreases |s|
  {
    hide FlagsAt, WithFlags, SetFlag;
    FlagStep(f, p, flags);
    if s == "" {
      NoFlagsMore(flags);
    } else {
      FlagsRead(f, p + 1, s[1..], SetFlag(flags, s[0]));
      FirstFlag(flags, s);
    }
  }

  lemma InRest(s: string, c: char)
    requires s != ""
    ensures Has(s, c) <==> c == s[0] || Has(s[1..], c)
  {
    assert s == [s[0]] + s[1..];
  }

  lemma FirstFlag(flags: Flags, s: string)
    requires s != "" && IsFlag(s[0])
    ensures WithFlags(SetFlag(flags, s[0]), s[1..]) == WithFlags(flags, s)
  {
    hide *;
    InRest(s, '0');
    InRest(s, '-');
    InRest(s, '+');
    InRest(s, ' ');
    InRest(s, '#');
    OneFlag(flags, s[0], s[1..], s);
  }

  lemma SetIs(flags: Flags, c: char)
    requires IsFlag(c)
    ensures SetFlag(flags, c) == OrFlags(flags, c == '0', c == '-', c == '+', c == ' ', c == '#')
  {
  }

  lemma OrTwice(flags: Flags, z: bool, l: bool, p: bool, s: bool, h: bool, z': bool, l': bool, p': bool, s': bool, h': bool)
    ensures OrFlags(OrFlags(flags, z, l, p, s, h), z', l', p', s', h') == OrFlags(flags, z || z', l || l', p || p', s || s', h || h')
  {
  }

  lemma OneFlag(flags: Flags, c: char, t: string, s: string)
    requires IsFlag(c)
    requires Has(s, '0') <==> c == '0' || Has(t, '0')
    requires Has(s, '-') <==> c == '-' || Has(t, '-')
    requires Has(s, '+') <==> c == '+' || Has(t, '+')
    requires Has(s, ' ') <==> c == ' ' || Has(t, ' ')
    requires Has(s, '#') <==> c == '#' || Has(t, '#')
    ensures WithFlags(SetFlag(flags, c), t) == WithFlags(flags, s)
  {
    hide Has, SetFlag, OrFlags, IsFlag;
    SetIs(flags, c);
    OrTwice(flags, c == '0', c == '-', c == '+', c == ' ', c == '#', Has(t, '0'), Has(t, '-'), Has(t, '+'), Has(t, ' '), Has(t, '#'));
  }

  // ---------- Numbers ----------

  lemma DigitStep(n: nat, v: nat)
    ensures (n % 0x1_0000_0000 * 10 + v) % 0x1_0000_0000 == (10 * n + v) % 0x1_0000_0000
  {
    var q, r := n / 0x1_0000_0000, n % 0x1_0000_0000;
    var x := (10 * r + v) / 0x1_0000_0000;
    Arith.DivModUnique(10 * n + v, 0x1_0000_0000, x + 10 * q, (10 * r + v) % 0x1_0000_0000);
  }

  lemma NumeralMore(a: string, c: char)
    ensures Numeral(a + [c], 10) == 10 * Numeral(a, 10) + DigitValue(c)
  {
    hide DigitValue;
    assert (a + [c])[..|a|] == a;
  }

  lemma NumberStep(f: string, p: nat, n: nat)
    requires p < |f| && IsDigit(f[p])
    ensures Number(f, p, n % 0x1_0000_0000) == Number(f, p + 1, (10 * n + DigitValue(f[p])) % 0x1_0000_0000)
  {
    DigitStep(n, DigitValue(f[p]));
  }

  lemma AtRest(f: string, p: nat, s: string)
    requires At(f, p, s) && s != ""
    ensures f[p] == s[0] && At(f, p + 1, s[1..])
  {
  }

  lemma NumberEnds(f: string, p: nat, n: nat)
    requires p < |f| && !IsDigit(f[p])
    ensures Number(f, p, n) == (n, p)
  {
  }

  ghost predicate AreDigits(s: string) {
    forall i :: 0 <= i < |s| ==> IsDigit(s[i])
  }

  /** The digits b behind the digits a. */
  lemma {:induction false} NumberReads(f: string, p: nat, a: string, b: string)
    requires At(f, p, b) && AreDigits(b) && !IsDigit(f[p + |b|])
    ensures Number(f, p, Numeral(a, 10) % 0x1_0000_0000) == (Numeral(a + b, 10) % 0x1_0000_0000, p + |b|)
    decreases |b|
  {
    hide Number, Numeral, DigitValue, IsDigit;
    if b == "" {
      NumberEnds(f, p, Numeral(a, 10) % 0x1_0000_0000);
      assert a + b == a;
    } else {
      AtRest(f, p, b);
      NumeralMore(a, b[0]);
      NumberStep(f, p, Numeral(a, 10));
      NumberReads(f, p + 1, a + [b[0]], b[1..]);
      assert (a + [b[0]]) + b[1..] == a + b;
    }
  }

  lemma DecimalDigitsOnly(s: string)
    requires IsDecimal(s)
    ensures AreDigits(s) && s != "" && IsDigit(s[0]) && Numeral("", 10) == 0
  {
  }

  lemma DecimalRead(f: string, p: nat, s: string)
    requires At(f, p, s) && IsDecimal(s) && !IsDigit(f[p + |s|])
    ensures IsDigit(f[p]) && Number(f, p, 0) == (Numeral(s, 10) % 0x1_0000_0000, p + |s|)
  {
    hide Number, IsDigit, Numeral, IsDecimal;
    DecimalDigitsOnly(s);
    NumberReads(f, p, "", s);
    AtRest(f, p, s);
    assert "" + s == s;
  }

  // ---------- Width, precision, length ----------

  lemma StarRead(args: Args)
    requires |args| >= 1 && args[0].Word?
    ensures Signed(NextWord(args), TWO_TO_THE_32) == Int(args[0]) && Drop(args) == args[1..]
    ensures Magnitude(Int(args[0])) == if Int(args[0]) < 0 then -Int(args[0]) else Int(args[0])
  {
  }

  predicate AfterWidth(c: char) {
    !IsFlag(c) && !IsDigit(c) && c != '*'
  }

  predicate AfterPrecision(c: char) {
    AfterWidth(c) && c != '.'
  }

  predicate AfterLength(c: char) {
    AfterPrecision(c) && c != 'l' && c != 'h' && c != 't' && c != 'j' && c != 'z'
  }

  /** The directive behind its width. */
  function WithWidth(s: string, g: Flags, p: nat, args: Args): Directive
    requires s == "*" ==> |args| >= 1
  {
    if s == "" then Directive(g, 0, 0, p, args)
    else if s != "*" then Directive(g, Numeral(s, 10) % 0x1_0000_0000, 0, p + |s|, args)
    else if Int(args[0]) < 0 then Directive(g.(left := true), -Int(args[0]), 0, p + 1, args[1..])
    else Directive(g, Int(args[0]), 0, p + 1, args[1..])
  }

  lemma WidthRead(f: string, p: nat, s: string, g: Flags, args: Args)
    requires At(f, p, s) && IsWidth(s) && AfterWidth(f[p + |s|])
    requires s == "*" ==> |args| >= 1 && args[0].Word?
    ensures WidthAt(f, Directive(g, 0, 0, p, args)) == WithWidth(s, g, p, args)
  {
    hide Number, Numeral, Signed, Magnitude, NextWord, Drop;
    if s != "" {
      AtRest(f, p, s);
    }
    if s == "*" {
      StarRead(args);
    } else if s != "" {
      DecimalRead(f, p, s);
    }
  }

  /** The directive behind its precision. */
  function WithPrecision(s: string, d: Directive): Directive
    requires s == ".*" ==> |d.args| >= 1
  {
    if s == "" then d
    else
      var e := d.(flags := d.flags.(precision := true));
      if s == "." then e.(p := d.p + 1)
      else if s != ".*" then e.(precision := Numeral(s[1..], 10) % 0x1_0000_0000, p := d.p + |s|)
      else e.(precision := if Int(d.args[0]) > 0 then Int(d.args[0]) else 0, p := d.p + 2, args := d.args[1..])
  }

  lemma PrecisionRead(f: string, d: Directive, s: string)
    requires IsFormat(f) && At(f, d.p, s) && IsPrecision(s) && AfterPrecision(f[d.p + |s|])
    requires s == ".*" ==> |d.args| >= 1 && d.args[0].Word?
    ensures PrecisionAt(f, d) == WithPrecision(s, d)
  {
    hide Number, Numeral, Signed, NextWord, Drop, IsFormat;
    if s != "" {
      AtRest(f, d.p, s);
    }
    if s == ".*" {
      StarRead(d.args);
      AtRest(f, d.p + 1, s[1..]);
    } else if s != "" && s != "." {
      DecimalRead(f, d.p + 1, s[1..]);
    }
  }

  function LengthFlags(flags: Flags, s: string): Flags {
    flags.(chr := flags.chr || s == "hh", shrt := flags.shrt || s == "h" || s == "hh",
           long := flags.long || s == "l" || s == "ll" || s == "j" || s == "t" || s == "z", longLong := flags.longLong || s == "ll")
  }

  lemma LengthRead(f: string, d: Directive, s: string)
    requires IsFormat(f) && At(f, d.p, s) && IsLength(s) && AfterLength(f[d.p + |s|])
    ensures LengthAt(f, d) == d.(flags := LengthFlags(d.flags, s), p := d.p + |s|)
  {
    hide IsFormat;
    if |s| >= 1 {
      assert f[d.p] == s[0];
    }
    if |s| == 2 {
      assert f[d.p + 1] == s[1];
    }
  }

  // ---------- The directive ----------

  lemma LengthStarts(f: string, p: nat, s: string)
    requires At(f, p, s) && IsLength(s) && AfterLength(f[p + |s|])
    ensures AfterPrecision(f[p])
  {
    if s != "" {
      AtRest(f, p, s);
    }
  }

  lemma PrecisionStarts(f: string, p: nat, s: string)
    requires At(f, p, s) && IsPrecision(s) && AfterPrecision(f[p + |s|])
    ensures AfterWidth(f[p])
  {
    if s != "" {
      AtRest(f, p, s);
    }
  }

  lemma WidthStarts(f: string, p: nat, s: string)
    requires At(f, p, s) && IsWidth(s) && AfterWidth(f[p + |s|])
    ensures !IsFlag(f[p])
  {
    if s != "" {
      AtRest(f, p, s);
    }
  }

  /** No part can be taken for the end of the part before it. */
  lemma PartsApart(f: string, p: nat, w: Written)
    requires IsDirective(w) && At(f, p, Spelled(w)) && IsConversion(f[p + |Spelled(w)|])
    ensures var p1 := p + |w.flags|; var p2 := p1 + |w.width|; var p3 := p2 + |w.precision|; var p4 := p3 + |w.length|;
      && At(f, p, w.flags) && At(f, p1, w.width) && At(f, p2, w.precision) && At(f, p3, w.length)
      && !IsFlag(f[p1]) && AfterWidth(f[p2]) && AfterPrecision(f[p3]) && AfterLength(f[p4]) && p4 == p + |Spelled(w)|
  {
    hide At, IsLength, IsWidth, IsPrecision, IsFlag, AfterWidth, AfterPrecision, AfterLength;
    AtSplit(f, p, w.flags, w.width + (w.precision + w.length));
    AtSplit(f, p + |w.flags|, w.width, w.precision + w.length);
    AtSplit(f, p + |w.flags| + |w.width|, w.precision, w.length);
    ConversionEnds(f[p + |Spelled(w)|]);
    LengthStarts(f, p + |w.flags| + |w.width| + |w.precision|, w.length);
    PrecisionStarts(f, p + |w.flags| + |w.width|, w.precision);
    WidthStarts(f, p + |w.flags|, w.width);
  }

  lemma ConversionEnds(c: char)
    requires IsConversion(c)
    ensures AfterLength(c)
  {
  }

  lemma FlagsSaid(w: Written, args: Args, flags: Flags)
    requires HasStars(w, args)
    requires var g := WithFlags(NO_FLAGS, w.flags);
      var g' := if w.width == "*" && Int(args[0]) < 0 then g.(left := true) else g;
      flags == LengthFlags(if w.precision == "" then g' else g'.(precision := true), w.length)
    ensures FlagsSay(w, args, flags)
  {
    hide Int;
  }

  /** What the three parts behind the flags add up to. */
  lemma PartsSay(w: Written, args: Args, p: nat, d1: Directive, d2: Directive, d: Directive)
    requires HasStars(w, args) && d1 == WithWidth(w.width, WithFlags(NO_FLAGS, w.flags), p, args)
    requires (w.precision == ".*" ==> |d1.args| >= 1) && d2 == WithPrecision(w.precision, d1)
    requires d == d2.(flags := LengthFlags(d2.flags, w.length), p := d2.p + |w.length|)
    ensures Reads(w, args, d) && d.p == p + |w.width| + |w.precision| + |w.length|
  {
    hide Numeral, Int, WithFlags, LengthFlags, FlagsSay;
    FlagsSaid(w, args, d.flags);
  }

  /** Every directive of the grammar is read as it is written. */
  lemma DirectiveReads(f: string, p: nat, w: Written, args: Args)
    requires IsFormat(f) && At(f, p, Spelled(w)) && IsDirective(w) && IsConversion(f[p + |Spelled(w)|]) && HasStars(w, args)
    ensures Reads(w, args, DirectiveAt(f, p, args)) && DirectiveAt(f, p, args).p == p + |Spelled(w)|
  {
    hide FlagsAt, WidthAt, PrecisionAt, LengthAt, WithFlags, LengthFlags, Int, Numeral, At, IsFormat, FlagsSay, Reads;
    hide AfterWidth, AfterPrecision, AfterLength, IsFlag, IsConversion, AllFlags, IsWidth, IsPrecision, IsLength;
    PartsApart(f, p, w);
    FlagsRead(f, p, w.flags, NO_FLAGS);
    var p1 := p + |w.flags|;
    var g := WithFlags(NO_FLAGS, w.flags);
    WidthRead(f, p1, w.width, g, args);
    var d1 := WidthAt(f, Directive(g, 0, 0, p1, args));
    PrecisionRead(f, d1, w.precision);
    var d2 := PrecisionAt(f, d1);
    LengthRead(f, d2, w.length);
    PartsSay(w, args, p1, d1, d2, LengthAt(f, d2));
  }
}
