/**
  What a whole format prints: for every list of plain texts and directives, the output of the format that spells
  this list is the texts of its members in order, each directive with its own arguments.
 */
module PrintfFormats {
  import opened PrintfNumber
  import opened PrintfDigits
  import opened PrintfNumeral
  import opened Printf
  import opened PrintfMeaning
  import opened PrintfParse

  datatype Piece = Plain(s: string) | Conversion(w: Written, c: char)

  ghost predicate IsPiece(x: Piece) {
    match x
    case Plain(s) => forall i :: 0 <= i < |s| ==> s[i] != '%' && s[i] != '\0'
    case Conversion(w, c) => IsDirective(w) && IsConversion(c)
  }

  ghost predicate ArePieces(xs: seq<Piece>) {
    forall i :: 0 <= i < |xs| ==> IsPiece(xs[i])
  }

  function Spell(x: Piece): string {
    match x
    case Plain(s) => s
    case Conversion(w, c) => "%" + (Spelled(w) + [c])
  }

  function SpellAll(xs: seq<Piece>): string {
    if xs == [] then "" else Spell(xs[0]) + SpellAll(xs[1..])
  }

  // ---------- The arguments of a piece ----------

  /** One argument for every star, and one for the conversion, but for %%. */
  function Taken(x: Piece): nat {
    match x
    case Plain(_) => 0
    case Conversion(w, c) => if c == '%' then Stars(w) else Stars(w) + 1
  }

  ghost predicate HasArgs(x: Piece, args: Args) {
    match x
    case Plain(_) => true
    case Conversion(w, c) =>
      HasStars(w, args) && (c != '%' ==> |args| > Stars(w) && (if c == 's' then args[Stars(w)].Text? else args[Stars(w)].Word?))
  }

  ghost predicate HaveArgs(xs: seq<Piece>, args: Args) {
    xs == [] || (HasArgs(xs[0], args) && Taken(xs[0]) <= |args| && HaveArgs(xs[1..], args[Taken(xs[0])..]))
  }

  // ---------- The text of a piece ----------

  function BaseOf(c: char): nat {
    match c
    case 'x' => 16
    case 'X' => 16
    case 'o' => 8
    case 'b' => 2
    case _ => 10
  }

  /** v is the argument in the slot as its type has it, and q its numeral with padding, sign and prefix. */
  ghost predicate IntegerSays(c: char, d: Directive, slot: nat, v: int, q: Parts) {
    var base := BaseOf(c);
    var N := if v < 0 then -v else v;
    && IsArgument(v, c, d.flags, slot) && HasShape(c, d, v, base, q) && IsNumeral(q.digits, base, c == 'X')
    && Power(base, |q.digits|) >= 1 && Numeral(q.digits, base) == N % Power(base, |q.digits|)
  }

  ghost predicate PointerSays(d: Directive, N: nat, q: Parts) {
    && PointerShape(d, N, q) && IsNumeral(q.digits, 16, true)
    && Power(16, |q.digits|) >= 1 && Numeral(q.digits, 16) == N % Power(16, |q.digits|)
  }

  function WithSpaces(s: string, d: Directive): string {
    var pad := Fill(' ', if d.width > |s| then d.width - |s| else 0);
    if d.flags.left then s + pad else pad + s
  }

  ghost predicate ConversionSays(w: Written, c: char, args: Args, d: Directive, v: int, q: Parts, text: string) {
    && HasArgs(Conversion(w, c), args) && Reads(w, args, d)
    && match c
       case '%' => text == "%"
       case 'c' => text == WithSpaces([(args[Stars(w)].w % 0x100) as char], d)
       case 's' =>
         var s := args[Stars(w)].s;
         text == WithSpaces(if d.flags.precision && d.precision < |s| then s[..d.precision] else s, d)
       case 'p' => PointerSays(d, args[Stars(w)].w % 0x1_0000_0000_0000_0000, q) && text == Assemble(q)
       case _ => IntegerSays(c, d, args[Stars(w)].w % 0x1_0000_0000_0000_0000, v, q) && text == Assemble(q)
  }

  ghost predicate Says(x: Piece, args: Args, text: string) {
    match x
    case Plain(s) => text == s
    case Conversion(w, c) => exists d, v, q :: ConversionSays(w, c, args, d, v, q, text)
  }

  ghost predicate AllSay(xs: seq<Piece>, args: Args, texts: seq<string>)
    requires HaveArgs(xs, args)
  {
    |texts| == |xs| && (xs == [] || (Says(xs[0], args, texts[0]) && AllSay(xs[1..], args[Taken(xs[0])..], texts[1..])))
  }

  function Joined(texts: seq<string>): string {
    if texts == [] then "" else texts[0] + Joined(texts[1..])
  }

  // ---------- One directive ----------

  lemma ArgsLeft(w: Written, c: char, args: Args, d: Directive)
    requires HasArgs(Conversion(w, c), args) && IsConversion(c) && Reads(w, args, d)
    ensures Taken(Conversion(w, c)) <= |args| && ArgsAfter(c, d) == args[Taken(Conversion(w, c))..]
    ensures c != '%' ==> NextWord(d.args) == if c == 's' then 0 else args[Stars(w)].w % 0x1_0000_0000_0000_0000
    ensures c == 's' ==> NextText(d.args) == args[Stars(w)].s
  {
    hide FlagsSay, Stars, Int, Numeral;
  }

  lemma BaseOfConversion(c: char)
    requires IsConversion(c) && c != 'c' && c != 's' && c != 'p' && c != '%'
    ensures Converts(c, BaseOf(c))
  {
  }

  lemma PrecisionSaid(w: Written, args: Args, d: Directive)
    requires HasStars(w, args) && Reads(w, args, d)
    ensures !d.flags.uppercase && (d.precision != 0 ==> d.flags.precision)
  {
    hide Int, Numeral, Stars;
  }

  lemma IntegerSpoken(w: Written, c: char, args: Args, d: Directive)
    requires HasArgs(Conversion(w, c), args) && IsConversion(c) && Reads(w, args, d) && c != 'c' && c != 's' && c != 'p' && c != '%'
    ensures Says(Conversion(w, c), args, DirectiveText(c, d))
  {
    hide HasShape, IsArgument, IsNumeral, Numeral, Power, Assemble, DirectiveText, Reads, HasStars, NextWord, IsConversion, Converts, BaseOf;
    PrecisionSaid(w, args, d);
    ArgsLeft(w, c, args, d);
    BaseOfConversion(c);
    var v, q := IntegerIs(c, d, BaseOf(c));
    assert ConversionSays(w, c, args, d, v, q, DirectiveText(c, d));
  }

  lemma PointerSpoken(w: Written, args: Args, d: Directive)
    requires HasArgs(Conversion(w, 'p'), args) && Reads(w, args, d)
    ensures Says(Conversion(w, 'p'), args, DirectiveText('p', d))
  {
    hide PointerShape, IsNumeral, Numeral, Power, Assemble, DirectiveText, Reads, HasStars, NextWord;
    PrecisionSaid(w, args, d);
    ArgsLeft(w, 'p', args, d);
    var q := PointerIs(d);
    assert ConversionSays(w, 'p', args, d, 0, q, DirectiveText('p', d));
  }

  lemma OthersSpoken(w: Written, c: char, args: Args, d: Directive)
    requires HasArgs(Conversion(w, c), args) && Reads(w, args, d) && (c == 'c' || c == 's' || c == '%')
    ensures Says(Conversion(w, c), args, DirectiveText(c, d))
  {
    hide DirectiveText, Reads, HasStars, NextWord, NextText, Fill, IsConversion;
    PrecisionSaid(w, args, d);
    assert IsConversion(c) by { Conversions(c); }
    ArgsLeft(w, c, args, d);
    OthersAre(d);
    if c == 'c' {
      SlotByte(w, c, args);
    }
    assert ConversionSays(w, c, args, d, 0, Parts(0, "", "", "", 0), DirectiveText(c, d));
  }

  lemma Conversions(c: char)
    requires c == 'c' || c == 's' || c == '%'
    ensures IsConversion(c)
  {
  }

  lemma SlotByte(w: Written, c: char, args: Args)
    requires HasArgs(Conversion(w, c), args) && c != 's' && c != '%'
    ensures args[Stars(w)].w % 0x1_0000_0000_0000_0000 % 0x100 == args[Stars(w)].w % 0x100
  {
    hide HasStars, Stars;
  }

  /** The directive at position p says what is written. */
  lemma DirectiveSpoken(w: Written, c: char, args: Args, d: Directive)
    requires HasArgs(Conversion(w, c), args) && IsConversion(c) && Reads(w, args, d)
    ensures Says(Conversion(w, c), args, DirectiveText(c, d))
  {
    hide HasArgs, Reads, DirectiveText, Says, IsConversion;
    if c == 'c' || c == 's' || c == '%' {
      OthersSpoken(w, c, args, d);
    } else if c == 'p' {
      PointerSpoken(w, args, d);
    } else {
      IntegerSpoken(w, c, args, d);
    }
  }

  // ---------- The format ----------

  lemma {:induction false} PlainFirst(f: string, p: nat, args: Args)
    requires IsFormat(f) && p + 1 < |f| && f[p] != '%' && f[p] != '\0' && WellFormed(f, p + 1, args)
    ensures WellFormed(f, p, args) && Formatted(f, p, args) == [f[p]] + Formatted(f, p + 1, args)
  {
  }

  lemma {:induction false} PlainStretch(f: string, p: nat, s: string, args: Args)
    requires IsFormat(f) && At(f, p, s) && IsPiece(Plain(s)) && WellFormed(f, p + |s|, args)
    ensures WellFormed(f, p, args) && Formatted(f, p, args) == s + Formatted(f, p + |s|, args)
    decreases |s|
  {
    hide WellFormed, Formatted, IsFormat, At;
    AtInside(f, p, s);
    if s == "" {
      assert s + Formatted(f, p, args) == Formatted(f, p, args);
    } else {
      AtRest(f, p, s);
      PlainStretch(f, p + 1, s[1..], args);
      PlainFirst(f, p, args);
      assert s + Formatted(f, p + |s|, args) == [s[0]] + (s[1..] + Formatted(f, p + |s|, args));
    }
  }

  lemma AtInside(f: string, p: nat, s: string)
    requires At(f, p, s)
    ensures p + |s| < |f|
  {
  }

  lemma {:induction false} DirectiveFirst(f: string, p: nat, args: Args, d: Directive, c: char)
    requires IsFormat(f) && p + 1 < |f| && f[p] == '%' && d == DirectiveAt(f, p + 1, args) && c == f[d.p] && c != '\0' && c != 'f' && c != 'F'
    ensures d.p + 1 < |f|
    ensures WellFormed(f, d.p + 1, ArgsAfter(c, d)) ==>
              WellFormed(f, p, args) && Formatted(f, p, args) == DirectiveText(c, d) + Formatted(f, d.p + 1, ArgsAfter(c, d))
  {
    hide DirectiveAt, DirectiveText, ArgsAfter;
  }

  lemma AtPieces(f: string, p: nat, w: Written, c: char)
    requires At(f, p, Spell(Conversion(w, c)))
    ensures |Spell(Conversion(w, c))| == |Spelled(w)| + 2 && p + |Spelled(w)| + 2 < |f|
    ensures f[p] == '%' && At(f, p + 1, Spelled(w)) && f[p + 1 + |Spelled(w)|] == c
  {
    hide Spelled;
    AtSplit(f, p, "%", Spelled(w) + [c]);
    AtSplit(f, p + 1, Spelled(w), [c]);
    AtRest(f, p, "%");
    AtRest(f, p + 1 + |Spelled(w)|, [c]);
  }

  lemma ConversionChar(c: char)
    requires IsConversion(c)
    ensures c != '\0' && c != 'f' && c != 'F'
  {
  }

  /** The text and the arguments left of a directive. */
  lemma DirectiveStretch(f: string, p: nat, w: Written, c: char, args: Args) returns (t: string)
    requires IsFormat(f) && At(f, p, Spell(Conversion(w, c))) && IsPiece(Conversion(w, c)) && HasArgs(Conversion(w, c), args)
    ensures Taken(Conversion(w, c)) <= |args| && p + |Spell(Conversion(w, c))| < |f|
    ensures Says(Conversion(w, c), args, t)
    ensures var p', args' := p + |Spell(Conversion(w, c))|, args[Taken(Conversion(w, c))..];
              WellFormed(f, p', args') ==> WellFormed(f, p, args) && Formatted(f, p, args) == t + Formatted(f, p', args')
  {
    hide At, IsFormat, Spell, Spelled, IsDirective, IsConversion, HasStars, Reads, Says, DirectiveAt, DirectiveText, ArgsAfter, WellFormed, Formatted, Taken;
    AtPieces(f, p, w, c);
    DirectiveReads(f, p + 1, w, args);
    var d := DirectiveAt(f, p + 1, args);
    ConversionChar(c);
    DirectiveFirst(f, p, args, d, c);
    ArgsLeft(w, c, args, d);
    DirectiveSpoken(w, c, args, d);
    t := DirectiveText(c, d);
  }

  lemma NoPieces(f: string, p: nat, args: Args)
    requires IsFormat(f) && p == |f| - 1
    ensures WellFormed(f, p, args) && Formatted(f, p, args) == ""
  {
  }

  /** The text of the first piece, and what is left. */
  lemma FirstPiece(f: string, p: nat, x: Piece, args: Args) returns (t: string)
    requires IsFormat(f) && At(f, p, Spell(x)) && IsPiece(x) && HasArgs(x, args)
    ensures Taken(x) <= |args| && p + |Spell(x)| < |f|
    ensures Says(x, args, t)
    ensures var p', args' := p + |Spell(x)|, args[Taken(x)..];
            WellFormed(f, p', args') ==> WellFormed(f, p, args) && Formatted(f, p, args) == t + Formatted(f, p', args')
  {
    hide At, IsFormat, WellFormed, Formatted;
    AtInside(f, p, Spell(x));
    match x
    case Plain(s) =>
      t := s;
      assert args[0..] == args;
      if WellFormed(f, p + |s|, args) {
        PlainStretch(f, p, s, args);
      }
    case Conversion(w, c) =>
      t := DirectiveStretch(f, p, w, c, args);
  }

  /** From position p on, the format prints the texts of its pieces. */
  lemma {:induction false} PiecesPrint(f: string, p: nat, xs: seq<Piece>, args: Args) returns (texts: seq<string>)
    requires IsFormat(f) && At(f, p, SpellAll(xs)) && p + |SpellAll(xs)| == |f| - 1 && ArePieces(xs) && HaveArgs(xs, args)
    ensures AllSay(xs, args, texts) && WellFormed(f, p, args) && Formatted(f, p, args) == Joined(texts)
    decreases |xs|
  {
    hide At, IsFormat, Spell, IsPiece, HasArgs, Says, WellFormed, Formatted, Taken;
    if xs == [] {
      texts := [];
      NoPieces(f, p, args);
    } else {
      var x := xs[0];
      AtSplit(f, p, Spell(x), SpellAll(xs[1..]));
      var t := FirstPiece(f, p, x, args);
      var rest := PiecesPrint(f, p + |Spell(x)|, xs[1..], args[Taken(x)..]);
      texts := [t] + rest;
      assert texts[1..] == rest;
    }
  }

  ghost predicate NoNul(s: string) {
    forall i :: 0 <= i < |s| ==> s[i] != '\0'
  }

  lemma NoNulMore(s: string, t: string)
    requires NoNul(s) && NoNul(t)
    ensures NoNul(s + t)
  {
  }

  lemma SpelledHasNoNul(x: Piece)
    requires IsPiece(x)
    ensures NoNul(Spell(x))
  {
    match x
    case Plain(_) =>
    case Conversion(w, c) =>
      PartsHaveNoNul(w, c);
      hide NoNul, IsDirective, IsConversion;
      NoNulMore(w.precision, w.length);
      NoNulMore(w.width, w.precision + w.length);
      NoNulMore(w.flags, w.width + (w.precision + w.length));
      NoNulMore(Spelled(w), [c]);
      NoNulMore("%", Spelled(w) + [c]);
  }

  lemma PartsHaveNoNul(w: Written, c: char)
    requires IsDirective(w) && IsConversion(c)
    ensures NoNul(w.flags) && NoNul(w.width) && NoNul(w.precision) && NoNul(w.length) && NoNul([c]) && NoNul("%")
  {
    forall i | 0 <= i < |w.precision| ensures w.precision[i] != '\0' {
      if i >= 1 {
        assert w.precision[i] == w.precision[1..][i - 1];
      }
    }
  }

  lemma {:induction false} AllHaveNoNul(xs: seq<Piece>)
    requires ArePieces(xs)
    ensures NoNul(SpellAll(xs))
  {
    hide NoNul, IsPiece, Spell;
    if xs == [] {
      EmptyHasNoNul();
    } else {
      SpelledHasNoNul(xs[0]);
      AllHaveNoNul(xs[1..]);
      NoNulMore(Spell(xs[0]), SpellAll(xs[1..]));
    }
  }

  lemma EmptyHasNoNul()
    ensures NoNul("")
  {
  }

  lemma WholeFormat(s: string)
    requires NoNul(s)
    ensures IsFormat(s + "\0") && At(s + "\0", 0, s) && |s + "\0"| == |s| + 1
  {
  }

  /** A format composed of pieces is well-formed, and prints the texts of the pieces. */
  lemma FormatPrints(xs: seq<Piece>, args: Args) returns (texts: seq<string>)
    requires ArePieces(xs) && HaveArgs(xs, args)
    ensures var f := SpellAll(xs) + "\0";
      IsFormat(f) && WellFormed(f, 0, args) && AllSay(xs, args, texts) && Formatted(f, 0, args) == Joined(texts)
  {
    hide *;
    AllHaveNoNul(xs);
    WholeFormat(SpellAll(xs));
    texts := PiecesPrint(SpellAll(xs) + "\0", 0, xs, args);
  }

  // ---------- An instance ----------

  const BARE := Written("", "", "", "")

  lemma BareReads(args: Args, d: Directive)
    requires Reads(BARE, args, d)
    ensures d.flags == NO_FLAGS && d.width == 0 && d.precision == 0
  {
    hide Int, Numeral;
  }

  lemma BareShape(c: char, d: Directive, N: nat, base: nat, q: Parts)
    requires base >= 2 && d.flags == NO_FLAGS && d.width == 0 && d.precision == 0 && HasShape(c, d, N, base, q)
    ensures |q.digits| == RawLength(N, base, false) && q.sign == "" && q.prefix == "" && q.left == q.right == 0
  {
    hide RawLength, PrefixIn;
  }

  lemma TwoDigits()
    ensures RawLength(255, 16, false) == 2 && Power(16, 2) == 256
    ensures IsNumeral("ff", 16, false) && Numeral("ff", 16) == 255
  {
    assert DigitCount(15, 16) == 1;
    assert Power(16, 1) == 16;
    assert "ff"[..1] == "f" && "f"[..0] == "";
    assert Numeral("f", 16) == 15;
  }

  lemma JustDigits(q: Parts)
    requires q.sign == "" && q.prefix == "" && q.left == q.right == 0
    ensures Assemble(q) == q.digits
  {
    assert Fill(' ', 0) == "";
  }

  lemma HexSays(d: Directive, v: int, q: Parts, text: string)
    requires ConversionSays(BARE, 'x', [Word(255)], d, v, q, text)
    ensures text == "ff"
  {
    hide Numeral, IsNumeral, Power, RawLength, Assemble, HasShape, Reads;
    BareReads([Word(255)], d);
    assert v == 255;
    BareShape('x', d, 255, 16, q);
    TwoDigits();
    NumeralDetermines(q.digits, "ff", 16, false);
    JustDigits(q);
  }

  /** snprintf_ with "%x" and 255. */
  lemma HexOf255()
    ensures IsFormat("%x\0") && WellFormed("%x\0", 0, [Word(255)]) && Formatted("%x\0", 0, [Word(255)]) == "ff"
  {
    hide ConversionSays, Formatted, WellFormed, IsFormat;
    var xs := [Conversion(BARE, 'x')];
    assert SpellAll(xs) + "\0" == "%x\0" by {
      assert xs[1..] == [];
    }
    var texts := FormatPrints(xs, [Word(255)]);
    var d, v, q :| ConversionSays(BARE, 'x', [Word(255)], d, v, q, texts[0]);
    HexSays(d, v, q, texts[0]);
    assert texts[1..] == [] && Joined(texts) == "ff" + "";
  }
}
