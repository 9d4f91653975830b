/**
  apps/common/printf.c: _vsnprintf.  The directive parser, the conversions without %f, and what
  snprintf_ and sprintf_ leave in their buffers.  Sizes are those of the LP64 ABI of RISC-V, where
  char is unsigned.
 */
module Printf {
  import opened PrintfNumber

  const TWO_TO_THE_64: nat := 0x1_0000_0000_0000_0000

  /** A variadic argument: a 64-bit slot, or a string. */
  datatype Arg = Word(w: nat) | Text(s: string)

  type Args = seq<Arg>

  /** The next argument read as a 64-bit slot. */
  function NextWord(args: Args): nat {
    if |args| > 0 && args[0].Word? then args[0].w % TWO_TO_THE_64 else 0
  }

  function NextText(args: Args): string {
    if |args| > 0 && args[0].Text? then args[0].s else ""
  }

  function Drop(args: Args): Args {
    if |args| > 0 then args[1..] else args
  }

  /** The slot as a signed number of the given size (2^bits values). */
  function Signed(w: nat, values: nat): int
    requires values >= 2
  {
    var u := w % values;
    if u < values / 2 then u else u - values
  }

  function Magnitude(x: int): nat {
    if x > 0 then x else -x
  }

  // ---------- The format: %[flags][width][.precision][length] ----------

  /** A C string, with its NUL. */
  ghost predicate IsFormat(f: string) {
    |f| >= 1 && f[|f| - 1] == '\0' && forall p :: 0 <= p < |f| - 1 ==> f[p] != '\0'
  }

  /** What has been read of a directive: flags, width, precision, the position behind, the arguments left. */
  datatype Directive = Directive(flags: Flags, width: nat, precision: nat, p: nat, args: Args)

  const NO_FLAGS := Flags(false, false, false, false, false, false, false, false, false, false, false)

  predicate IsFlag(c: char) {
    c == '0' || c == '-' || c == '+' || c == ' ' || c == '#'
  }

  function SetFlag(flags: Flags, c: char): Flags {
    if c == '0' then flags.(zeropad := true)
    else if c == '-' then flags.(left := true)
    else if c == '+' then flags.(plus := true)
    else if c == ' ' then flags.(space := true)
    else flags.(hash := true)
  }

  function FlagsAt(f: string, p: nat, flags: Flags): (r: (Flags, nat))
    requires p < |f|
    ensures p <= r.1 < |f|
    ensures IsFormat(f) ==> !IsFlag(f[r.1])
    decreases |f| - p
  {
    if IsFlag(f[p]) && p + 1 < |f| then FlagsAt(f, p + 1, SetFlag(flags, f[p])) else (flags, p)
  }

  function WidthAt(f: string, d: Directive): (r: Directive)
    requires d.p < |f|
    ensures IsFormat(f) ==> d.p <= r.p < |f|
    ensures (d.precision != 0 ==> d.flags.precision) ==> (r.precision != 0 ==> r.flags.precision)
  {
    if IsDigit(f[d.p]) then
      var n := Number(f, d.p, 0);
      d.(width := n.0, p := n.1)
    else if f[d.p] == '*' then
      var w := Signed(NextWord(d.args), TWO_TO_THE_32);
      d.(width := Magnitude(w), flags := if w < 0 then d.flags.(left := true) else d.flags, p := d.p + 1, args := Drop(d.args))
    else d
  }

  function PrecisionAt(f: string, d: Directive): (r: Directive)
    requires IsFormat(f) && d.p < |f|
    ensures d.p <= r.p < |f|
    ensures (d.precision != 0 ==> d.flags.precision) ==> (r.precision != 0 ==> r.flags.precision)
  {
    if f[d.p] != '.' then d
    else
      var e := d.(flags := d.flags.(precision := true), p := d.p + 1);
      if IsDigit(f[e.p]) then
        var n := Number(f, e.p, 0);
        e.(precision := n.0, p := n.1)
      else if f[e.p] == '*' then
        var prec := Signed(NextWord(e.args), TWO_TO_THE_32);
        e.(precision := if prec > 0 then prec else 0, p := e.p + 1, args := Drop(e.args))
      else e
  }

  function LengthAt(f: string, d: Directive): (r: Directive)
    requires IsFormat(f) && d.p < |f|
    ensures d.p <= r.p < |f|
    ensures (d.precision != 0 ==> d.flags.precision) ==> (r.precision != 0 ==> r.flags.precision)
  {
    var c := f[d.p];
    if c == 'l' then
      if f[d.p + 1] == 'l' then d.(flags := d.flags.(long := true, longLong := true), p := d.p + 2)
      else d.(flags := d.flags.(long := true), p := d.p + 1)
    else if c == 'h' then
      if f[d.p + 1] == 'h' then d.(flags := d.flags.(shrt := true, chr := true), p := d.p + 2)
      else d.(flags := d.flags.(shrt := true), p := d.p + 1)
    else if c == 't' || c == 'j' || c == 'z' then d.(flags := d.flags.(long := true), p := d.p + 1)
    else d
  }

  /** The directive whose % is in front of position p. */
  function DirectiveAt(f: string, p: nat, args: Args): (r: Directive)
    requires IsFormat(f) && p < |f|
    ensures p <= r.p < |f|
    ensures r.precision != 0 ==> r.flags.precision
  {
    var g := FlagsAt(f, p, NO_FLAGS);
    LengthAt(f, PrecisionAt(f, WidthAt(f, Directive(g.0, 0, 0, g.1, args))))
  }

  // ---------- The conversions ----------

  predicate IsInteger(c: char) {
    c == 'd' || c == 'i' || c == 'u' || c == 'x' || c == 'X' || c == 'o' || c == 'b'
  }

  function Base(c: char): (b: nat)
    ensures 2 <= b <= 16
  {
    if c == 'x' || c == 'X' then 16 else if c == 'o' then 8 else if c == 'b' then 2 else 10
  }

  /** No hash for decimal, capitals for X, no sign flags but for d and i, and no 0 flag beside a precision. */
  function IntegerFlags(c: char, flags: Flags): Flags {
    flags.(hash := flags.hash && Base(c) != 10,
           uppercase := flags.uppercase || c == 'X',
           plus := flags.plus && (c == 'i' || c == 'd'),
           space := flags.space && (c == 'i' || c == 'd'),
           zeropad := flags.zeropad && !flags.precision)
  }

  /** The number of values of the argument's type. */
  function Values(flags: Flags): (v: nat)
    ensures v >= 2
  {
    if flags.longLong || flags.long then TWO_TO_THE_64
    else if flags.chr then 0x100
    else if flags.shrt then 0x1_0000
    else TWO_TO_THE_32
  }

  /** The argument as the conversion sees it: char is unsigned, so %hhd never sees a negative number. */
  function IntegerArg(c: char, flags: Flags, w: nat): int {
    if (c == 'i' || c == 'd') && (flags.longLong || flags.long || !flags.chr) then Signed(w, Values(flags)) else w % Values(flags)
  }

  function IntegerText(c: char, d: Directive): string {
    var value := IntegerArg(c, d.flags, NextWord(d.args));
    NtoaText(Magnitude(value), value < 0, Base(c), d.precision, d.width, IntegerFlags(c, d.flags))
  }

  function Padding(l: nat, width: nat): string {
    Fill(' ', Missing(width, l))
  }

  function CharText(d: Directive): string {
    var c := [(NextWord(d.args) % 0x100) as char];
    if d.flags.left then c + Padding(1, d.width) else Padding(1, d.width) + c
  }

  /** The characters of %s: the whole string, or as many as the precision allows. */
  function Shown(d: Directive): (s: string)
  {
    var s := NextText(d.args);
    if d.flags.precision && d.precision < |s| then s[..d.precision] else s
  }

  function StringText(d: Directive): string {
    var s := Shown(d);
    if d.flags.left then s + Padding(|s|, d.width) else Padding(|s|, d.width) + s
  }

  function PointerText(d: Directive): string {
    NtoaText(NextWord(d.args), false, 16, d.precision, 16, d.flags.(zeropad := true, uppercase := true))
  }

  /** The text of one directive. */
  function DirectiveText(c: char, d: Directive): string {
    if IsInteger(c) then IntegerText(c, d)
    else if c == 'c' then CharText(d)
    else if c == 's' then StringText(d)
    else if c == 'p' then PointerText(d)
    else [c]
  }

  predicate TakesArg(c: char) {
    IsInteger(c) || c == 'c' || c == 's' || c == 'p'
  }

  function ArgsAfter(c: char, d: Directive): Args {
    if TakesArg(c) then Drop(d.args) else d.args
  }

  /** No %f, no directive that runs into the end of the format. */
  ghost predicate WellFormed(f: string, p: nat, args: Args)
    requires IsFormat(f) && p < |f|
    decreases |f| - p
  {
    if f[p] == '\0' then true
    else if f[p] != '%' then WellFormed(f, p + 1, args)
    else
      var d := DirectiveAt(f, p + 1, args);
      var c := f[d.p];
      c != '\0' && c != 'f' && c != 'F' && WellFormed(f, d.p + 1, ArgsAfter(c, d))
  }

  /** The text of the format from position p on. */
  function Formatted(f: string, p: nat, args: Args): string
    requires IsFormat(f) && p < |f| && WellFormed(f, p, args)
    decreases |f| - p
  {
    if f[p] == '\0' then ""
    else if f[p] != '%' then [f[p]] + Formatted(f, p + 1, args)
    else
      var d := DirectiveAt(f, p + 1, args);
      var c := f[d.p];
      DirectiveText(c, d) + Formatted(f, d.p + 1, ArgsAfter(c, d))
  }

  // ---------- Reading a directive ----------

  /** Evaluate flags. */
  method EvalFlags(f: string, p: nat) returns (flags: Flags, p': nat)
    requires IsFormat(f) && p < |f|
    ensures (flags, p') == FlagsAt(f, p, NO_FLAGS)
  {
    flags, p' := NO_FLAGS, p;
    var n := true;
    while n
      invariant p <= p' < |f| && FlagsAt(f, p', flags) == FlagsAt(f, p, NO_FLAGS)
      invariant !n ==> !IsFlag(f[p'])
      decreases |f| - p', n
    {
      if IsFlag(f[p']) {
        flags := SetFlag(flags, f[p']);
        p' := p' + 1;
      } else {
        n := false;
      }
    }
  }

  /** Evaluate width field. */
  method EvalWidth(f: string, d: Directive) returns (r: Directive)
    requires IsFormat(f) && d.p < |f|
    ensures r == WidthAt(f, d)
  {
    if IsDigit(f[d.p]) {
      var width, p := Atoi(f, d.p);
      r := d.(width := width, p := p);
    } else if f[d.p] == '*' {
      var w := Signed(NextWord(d.args), TWO_TO_THE_32);
      r := d.(p := d.p + 1, args := Drop(d.args));
      if w < 0 {
        r := r.(flags := r.flags.(left := true), width := -w);
      } else {
        r := r.(width := w);
      }
    } else {
      r := d;
    }
  }

  /** Evaluate precision field. */
  method EvalPrecision(f: string, d: Directive) returns (r: Directive)
    requires IsFormat(f) && d.p < |f|
    ensures r == PrecisionAt(f, d)
  {
    r := d;
    if f[d.p] == '.' {
      r := r.(flags := r.flags.(precision := true), p := r.p + 1);
      if IsDigit(f[r.p]) {
        var precision, p := Atoi(f, r.p);
        r := r.(precision := precision, p := p);
      } else if f[r.p] == '*' {
        var prec := Signed(NextWord(r.args), TWO_TO_THE_32);
        r := r.(precision := if prec > 0 then prec else 0, p := r.p + 1, args := Drop(r.args));
      }
    }
  }

  /** The directive parser: it stays inside the format, and the directive it reads is DirectiveAt. */
  method EvalDirective(f: string, p: nat, args: Args) returns (d: Directive)
    requires IsFormat(f) && p < |f|
    ensures d == DirectiveAt(f, p, args) && p <= d.p < |f|
  {
    var flags, p' := EvalFlags(f, p);
    d := EvalWidth(f, Directive(flags, 0, 0, p', args));
    d := EvalPrecision(f, d);
    d := LengthAt(f, d);
  }

  // ---------- The conversions, on the buffer ----------

  /** Output of the first n characters of a string. */
  method OutString(s: string, n: nat, buffer: array<char>, idx: nat, maxlen: nat) returns (idx': nat)
    requires n <= |s| && Room(buffer.Length, maxlen, idx + n)
    modifies buffer
    ensures idx' == idx + n && Wrote(old(buffer[..]), buffer[..], maxlen, idx, s[..n])
  {
    idx' := idx;
    ghost var b0 := buffer[..];
    WroteNothing(b0, maxlen, idx);
    for i := 0 to n
      invariant idx' == idx + i && Wrote(b0, buffer[..], maxlen, idx, s[..i])
    {
      hide Wrote;
      ghost var b1 := buffer[..];
      OutBuffer(s[i], buffer, idx', maxlen);
      WroteTwice(b0, b1, buffer[..], maxlen, idx, s[..i], [s[i]]);
      assert s[..i] + [s[i]] == s[..i + 1];
      idx' := idx' + 1;
    }
  }

  /** A text padded with spaces before it, or behind it. */
  method OutPadded(s: string, n: nat, width: nat, left: bool, buffer: array<char>, idx: nat, maxlen: nat) returns (idx': nat)
    requires n <= |s| && Room(buffer.Length, maxlen, idx + n + Missing(width, n))
    modifies buffer
    ensures idx' == idx + n + Missing(width, n)
    ensures Wrote(old(buffer[..]), buffer[..], maxlen, idx, if left then s[..n] + Padding(n, width) else Padding(n, width) + s[..n])
  {
    hide Wrote;
    ghost var b0 := buffer[..];
    idx' := idx;
    if !left {
      idx' := OutSpaces(Missing(width, n), buffer, idx', maxlen);
      ghost var b1 := buffer[..];
      idx' := OutString(s, n, buffer, idx', maxlen);
      WroteTwice(b0, b1, buffer[..], maxlen, idx, Padding(n, width), s[..n]);
    } else {
      idx' := OutString(s, n, buffer, idx', maxlen);
      ghost var b1 := buffer[..];
      idx' := OutSpaces(Missing(width, n), buffer, idx', maxlen);
      WroteTwice(b0, b1, buffer[..], maxlen, idx, s[..n], Padding(n, width));
    }
  }

  /** _strnlen_s, on the characters before the NUL. */
  method StrnlenS(s: string, maxsize: nat) returns (l: nat)
    ensures l == Least(|s|, maxsize)
  {
    l := 0;
    var left := maxsize;
    while l < |s| && left > 0
      invariant l <= |s| && left == maxsize - l
    {
      left := left - 1;
      l := l + 1;
    }
  }

  method OutStringArg(d: Directive, buffer: array<char>, idx: nat, maxlen: nat) returns (idx': nat)
    requires |NextText(d.args)| < TWO_TO_THE_64 && (d.precision != 0 ==> d.flags.precision)
    requires Room(buffer.Length, maxlen, idx + |StringText(d)|)
    modifies buffer
    ensures idx' == idx + |StringText(d)| && Wrote(old(buffer[..]), buffer[..], maxlen, idx, StringText(d))
  {
    var s := NextText(d.args);
    var l := StrnlenS(s, if d.precision != 0 then d.precision else TWO_TO_THE_64 - 1);
    if d.flags.precision {
      l := if l < d.precision then l else d.precision;
    }
    assert s[..l] == Shown(d);
    idx' := OutPadded(s, l, d.width, d.flags.left, buffer, idx, maxlen);
  }

  /** Evaluate specifier. */
  method OutDirective(c: char, d: Directive, buffer: array<char>, idx: nat, maxlen: nat) returns (idx': nat)
    requires |NextText(d.args)| < TWO_TO_THE_64 && (d.precision != 0 ==> d.flags.precision)
    requires Room(buffer.Length, maxlen, idx + |DirectiveText(c, d)|)
    modifies buffer
    ensures idx' == idx + |DirectiveText(c, d)| && Wrote(old(buffer[..]), buffer[..], maxlen, idx, DirectiveText(c, d))
  {
    hide Wrote, NtoaText, StringText;
    if IsInteger(c) {
      var value := IntegerArg(c, d.flags, NextWord(d.args));
      idx' := NtoaLong(buffer, idx, maxlen, Magnitude(value), value < 0, Base(c), d.precision, d.width, IntegerFlags(c, d.flags));
    } else if c == 'c' {
      var s := [(NextWord(d.args) % 0x100) as char];
      idx' := OutPadded(s, 1, d.width, d.flags.left, buffer, idx, maxlen);
      assert s[..1] == s;
    } else if c == 's' {
      idx' := OutStringArg(d, buffer, idx, maxlen);
    } else if c == 'p' {
      idx' := NtoaLong(buffer, idx, maxlen, NextWord(d.args), false, 16, d.precision, 16, d.flags.(zeropad := true, uppercase := true));
    } else {
      OutBuffer(c, buffer, idx, maxlen);
      idx' := idx + 1;
    }
  }

  // ---------- _vsnprintf ----------

  /** The strings among the arguments fit into memory. */
  ghost predicate InMemory(args: Args) {
    forall i :: 0 <= i < |args| && args[i].Text? ==> |args[i].s| < TWO_TO_THE_64
  }

  lemma DropKeepsMemory(args: Args)
    requires InMemory(args)
    ensures InMemory(Drop(args)) && |NextText(args)| < TWO_TO_THE_64
  {
  }

  lemma {:induction false} DirectiveKeepsMemory(f: string, p: nat, args: Args)
    requires IsFormat(f) && p < |f| && InMemory(args)
    ensures InMemory(DirectiveAt(f, p, args).args) && |NextText(DirectiveAt(f, p, args).args)| < TWO_TO_THE_64
    ensures InMemory(ArgsAfter(f[DirectiveAt(f, p, args).p], DirectiveAt(f, p, args)))
  {
    hide InMemory, Number, FlagsAt, IsFormat, NextText, NextWord, Signed, Drop;
    DropKeepsMemory(args);
    DropKeepsMemory(Drop(args));
    DropKeepsMemory(Drop(Drop(args)));
    var g := FlagsAt(f, p, NO_FLAGS);
    var w := WidthAt(f, Directive(g.0, 0, 0, g.1, args));
    assert w.args == args || w.args == Drop(args);
    var d := PrecisionAt(f, w);
    assert d.args == w.args || d.args == Drop(w.args);
    assert LengthAt(f, d).args == d.args;
  }

  /** The output so far and the rest of the format make up the text. */
  ghost predicate Going(f: string, p: nat, va: Args, before: seq<char>, now: seq<char>, maxlen: nat, idx: nat, done: string, text: string) {
    && IsFormat(f) && p < |f| && WellFormed(f, p, va) && InMemory(va)
    && text == done + Formatted(f, p, va) && idx == |done| && Wrote(before, now, maxlen, 0, done)
  }

  lemma {:induction false} GoingOn(f: string, p: nat, va: Args, before: seq<char>, now: seq<char>, now': seq<char>, maxlen: nat,
                done: string, text: string, p': nat, va': Args, t: string)
    requires Going(f, p, va, before, now, maxlen, |done|, done, text) && Wrote(now, now', maxlen, |done|, t)
    requires p' < |f| && WellFormed(f, p', va') && InMemory(va') && Formatted(f, p, va) == t + Formatted(f, p', va')
    ensures Going(f, p', va', before, now', maxlen, |done + t|, done + t, text)
  {
    hide Formatted, WellFormed, Wrote, InMemory, IsFormat;
    WroteTwice(before, now, now', maxlen, 0, done, t);
    assert done + (t + Formatted(f, p', va')) == (done + t) + Formatted(f, p', va');
  }

  /** A plain character. */
  method OutPlain(f: string, p: nat, va: Args, buffer: array<char>, idx: nat, maxlen: nat,
                ghost before: seq<char>, ghost done: string, ghost text: string)
      returns (p': nat, va': Args, idx': nat, ghost done': string)
    requires Going(f, p, va, before, buffer[..], maxlen, idx, done, text) && f[p] != '\0' && f[p] != '%'
    requires Room(buffer.Length, maxlen, |text|)
    modifies buffer
    ensures p < p' && Going(f, p', va', before, buffer[..], maxlen, idx', done', text)
  {
    GoingInside(f, p, va, before, buffer[..], maxlen, idx, done, text);
    hide *;
    ghost var now := buffer[..];
    PlainStep(f, p, va);
    RoomForPart(buffer.Length, maxlen, done, [f[p]], Formatted(f, p + 1, va), text);
    OutBuffer(f[p], buffer, idx, maxlen);
    p', va', idx', done' := p + 1, va, idx + 1, done + [f[p]];
    GoingOn(f, p, va, before, now, buffer[..], maxlen, done, text, p', va', [f[p]]);
  }

  /** A directive. */
  method OutParsed(f: string, p: nat, va: Args, buffer: array<char>, idx: nat, maxlen: nat,
                ghost before: seq<char>, ghost done: string, ghost text: string)
      returns (p': nat, va': Args, idx': nat, ghost done': string)
    requires Going(f, p, va, before, buffer[..], maxlen, idx, done, text) && f[p] == '%'
    requires Room(buffer.Length, maxlen, |text|)
    modifies buffer
    ensures p < p' && Going(f, p', va', before, buffer[..], maxlen, idx', done', text)
  {
    hide *;
    GoingInside(f, p, va, before, buffer[..], maxlen, idx, done, text);
    ghost var now := buffer[..];
    ghost var t, p1, va1 := TakeDirective(f, p, va, before, now, maxlen, idx, done, text, buffer.Length);
    p', va', idx' := OutNext(f, p, va, buffer, idx, maxlen);
    done' := done + t;
    GoingOn(f, p, va, before, now, buffer[..], maxlen, done, text, p', va', t);
  }

  /** The text and the successor of the directive at p. */
  lemma {:induction false} TakeDirective(f: string, p: nat, va: Args, before: seq<char>, now: seq<char>, maxlen: nat, idx: nat,
                                         done: string, text: string, size: nat) returns (t: string, p': nat, va': Args)
    requires Going(f, p, va, before, now, maxlen, idx, done, text) && f[p] == '%' && Room(size, maxlen, |text|)
    ensures p + 1 < |f| && var d := DirectiveAt(f, p + 1, va); t == DirectiveText(f[d.p], d) && p' == d.p + 1 && va' == ArgsAfter(f[d.p], d)
    ensures p < p' < |f| && WellFormed(f, p', va') && InMemory(va') && Formatted(f, p, va) == t + Formatted(f, p', va')
    ensures Room(size, maxlen, idx + |t|)
  {
    hide *;
    GoingInside(f, p, va, before, now, maxlen, idx, done, text);
    DirectiveStep(f, p, va);
    DirectiveKeepsMemory(f, p + 1, va);
    var d := DirectiveAt(f, p + 1, va);
    t, p', va' := DirectiveText(f[d.p], d), d.p + 1, ArgsAfter(f[d.p], d);
    RoomForPart(size, maxlen, done, t, Formatted(f, p', va'), text);
  }

  /** Reads the directive at p and writes its text. */
  method OutNext(f: string, p: nat, va: Args, buffer: array<char>, idx: nat, maxlen: nat)
      returns (p': nat, va': Args, idx': nat)
    requires IsFormat(f) && p + 1 < |f| && InMemory(va)
    requires var d := DirectiveAt(f, p + 1, va); Room(buffer.Length, maxlen, idx + |DirectiveText(f[d.p], d)|)
    modifies buffer
    ensures var d := DirectiveAt(f, p + 1, va); var t := DirectiveText(f[d.p], d);
      && p' == d.p + 1 && va' == ArgsAfter(f[d.p], d)
      && idx' == idx + |t| && Wrote(old(buffer[..]), buffer[..], maxlen, idx, t)
  {
    hide *;
    DirectiveKeepsMemory(f, p + 1, va);
    var d := EvalDirective(f, p + 1, va);
    idx' := OutDirective(f[d.p], d, buffer, idx, maxlen);
    p', va' := d.p + 1, ArgsAfter(f[d.p], d);
  }

  lemma RoomForPart(size: nat, maxlen: nat, done: string, t: string, rest: string, text: string)
    requires Room(size, maxlen, |text|) && text == done + (t + rest)
    ensures Room(size, maxlen, |done| + |t|)
  {
  }

  lemma {:induction false} PlainStep(f: string, p: nat, va: Args)
    requires IsFormat(f) && p < |f| && WellFormed(f, p, va) && f[p] != '\0' && f[p] != '%'
    ensures p + 1 < |f| && WellFormed(f, p + 1, va) && Formatted(f, p, va) == [f[p]] + Formatted(f, p + 1, va)
  {
  }

  lemma {:induction false} DirectiveStep(f: string, p: nat, va: Args)
    requires IsFormat(f) && p < |f| && WellFormed(f, p, va) && f[p] == '%'
    ensures p + 1 < |f|
    ensures var d := DirectiveAt(f, p + 1, va);
      && d.p + 1 < |f| && WellFormed(f, d.p + 1, ArgsAfter(f[d.p], d))
      && (d.precision != 0 ==> d.flags.precision)
      && Formatted(f, p, va) == DirectiveText(f[d.p], d) + Formatted(f, d.p + 1, ArgsAfter(f[d.p], d))
  {
  }

  /** The loop of _vsnprintf. */
  method OutFormat(f: string, args: Args, buffer: array<char>, maxlen: nat) returns (idx: nat)
    requires IsFormat(f) && WellFormed(f, 0, args) && InMemory(args)
    requires Room(buffer.Length, maxlen, |Formatted(f, 0, args)|)
    modifies buffer
    ensures idx == |Formatted(f, 0, args)| && Wrote(old(buffer[..]), buffer[..], maxlen, 0, Formatted(f, 0, args))
  {
    ghost var text := Formatted(f, 0, args);
    ghost var before := buffer[..];
    ghost var done: string := "";
    GoingStarts(f, args, before, maxlen);
    hide *;
    var p, va := 0, args;
    idx := 0;
    while f[p] != '\0'
      invariant p < |f| && Going(f, p, va, before, buffer[..], maxlen, idx, done, text)
      decreases |f| - p
    {
      if f[p] != '%' {
        p, va, idx, done := OutPlain(f, p, va, buffer, idx, maxlen, before, done, text);
      } else {
        p, va, idx, done := OutParsed(f, p, va, buffer, idx, maxlen, before, done, text);
      }
      GoingInside(f, p, va, before, buffer[..], maxlen, idx, done, text);
    }
    GoingEnds(f, p, va, before, buffer[..], maxlen, idx, done, text);
  }

  lemma {:induction false} GoingStarts(f: string, args: Args, before: seq<char>, maxlen: nat)
    requires IsFormat(f) && WellFormed(f, 0, args) && InMemory(args)
    ensures |f| > 0 && Going(f, 0, args, before, before, maxlen, 0, "", Formatted(f, 0, args))
  {
    WroteNothing(before, maxlen, 0);
    hide WellFormed, InMemory, Formatted;
    assert "" + Formatted(f, 0, args) == Formatted(f, 0, args);
  }

  lemma {:induction false} GoingEnds(f: string, p: nat, va: Args, before: seq<char>, now: seq<char>, maxlen: nat, idx: nat, done: string, text: string)
    requires Going(f, p, va, before, now, maxlen, idx, done, text) && f[p] == '\0'
    ensures idx == |text| && Wrote(before, now, maxlen, 0, text)
  {
    hide InMemory, Wrote;
    assert done + "" == done;
  }

  lemma {:induction false} GoingInside(f: string, p: nat, va: Args, before: seq<char>, now: seq<char>, maxlen: nat, idx: nat, done: string, text: string)
    requires Going(f, p, va, before, now, maxlen, idx, done, text)
    ensures p < |f| && IsFormat(f) && WellFormed(f, p, va) && InMemory(va)
    ensures text == done + Formatted(f, p, va) && idx == |done|
  {
  }

  /** A buffer of size count after the text was printed to it: what fits of the text, then NUL, and nothing else. */
  ghost predicate Printed(before: seq<char>, after: seq<char>, count: nat, text: string) {
    if count == 0 then after == before
    else
      var n := Least(|text|, count - 1);
      && |after| == |before| && n < |after| && after[..n] == text[..n] && after[n] == '\0'
      && after[n + 1..] == before[n + 1..]
  }

  /** The termination of the text. */
  method OutNul(buffer: array<char>, idx: nat, maxlen: nat, ghost before: seq<char>, ghost text: string)
    requires idx == |text| && maxlen < TWO_TO_THE_64 && (maxlen <= buffer.Length || |text| < buffer.Length < TWO_TO_THE_64)
    requires Wrote(before, buffer[..], maxlen, 0, text)
    modifies buffer
    ensures Printed(before, buffer[..], maxlen, text)
  {
    var last := (maxlen + TWO_TO_THE_64 - 1) % TWO_TO_THE_64;
    OutBuffer('\0', buffer, if idx < maxlen then idx else last, maxlen);
  }

  /** _vsnprintf into a buffer: the returned length is that of the whole text, as a 32-bit int, truncated or not. */
  method VsnprintfBuffer(buffer: array<char>, maxlen: nat, f: string, args: Args) returns (ret: int)
    requires IsFormat(f) && WellFormed(f, 0, args) && InMemory(args) && maxlen < TWO_TO_THE_64
    requires maxlen <= buffer.Length || |Formatted(f, 0, args)| < buffer.Length < TWO_TO_THE_64
    modifies buffer
    ensures Printed(old(buffer[..]), buffer[..], maxlen, Formatted(f, 0, args))
    ensures ret == Signed(|Formatted(f, 0, args)|, TWO_TO_THE_32)
  {
    var idx := OutFormat(f, args, buffer, maxlen);
    OutNul(buffer, idx, maxlen, old(buffer[..]), Formatted(f, 0, args));
    ret := Signed(idx, TWO_TO_THE_32);
  }

  /** What the comment of snprintf_ says of its return value: count, if the text had to be cut off. */
  predicate ReturnsCount(text: string, count: nat, ret: int) {
    |text| >= count ==> ret == count
  }

  /** The length of the text is returned, so the comment is right only up to a text of count characters. */
  lemma ReturnsCountIff(text: string, count: nat)
    requires |text| < 0x8000_0000
    ensures Signed(|text|, TWO_TO_THE_32) == |text|
    ensures ReturnsCount(text, count, Signed(|text|, TWO_TO_THE_32)) <==> |text| <= count
  {
    assert |text| % TWO_TO_THE_32 == |text|;
  }

  /** The format "ab" with a buffer of one cell: the comment promises 1, the code returns 2. */
  lemma ReturnsMoreThanCount()
    ensures IsFormat("ab\0") && WellFormed("ab\0", 0, []) && Formatted("ab\0", 0, []) == "ab"
    ensures Signed(2, TWO_TO_THE_32) == 2 && !ReturnsCount("ab", 1, 2)
  {
    var f := "ab\0";
    assert WellFormed(f, 2, []) && Formatted(f, 2, []) == "";
    assert WellFormed(f, 1, []) && Formatted(f, 1, []) == "b";
  }

  /**
    snprintf_: never touches a cell from count on.  Its return value is what its comment says if and only if
    the text has at most count characters.
   */
  method Snprintf(buffer: array<char>, count: nat, f: string, args: Args) returns (ret: int)
    requires IsFormat(f) && WellFormed(f, 0, args) && InMemory(args) && count <= buffer.Length && count < TWO_TO_THE_64
    modifies buffer
    ensures Printed(old(buffer[..]), buffer[..], count, Formatted(f, 0, args))
    ensures ret == Signed(|Formatted(f, 0, args)|, TWO_TO_THE_32)
    ensures |Formatted(f, 0, args)| < 0x8000_0000 ==>
              (ReturnsCount(Formatted(f, 0, args), count, ret) <==> |Formatted(f, 0, args)| <= count)
  {
    ret := VsnprintfBuffer(buffer, count, f, args);
    if |Formatted(f, 0, args)| < 0x8000_0000 {
      ReturnsCountIff(Formatted(f, 0, args), count);
    }
  }

  /** sprintf_: the caller must provide the room. */
  method Sprintf(buffer: array<char>, f: string, args: Args) returns (ret: int)
    requires IsFormat(f) && WellFormed(f, 0, args) && InMemory(args) && |Formatted(f, 0, args)| < buffer.Length < TWO_TO_THE_64
    modifies buffer
    ensures Printed(old(buffer[..]), buffer[..], TWO_TO_THE_64 - 1, Formatted(f, 0, args))
    ensures ret == Signed(|Formatted(f, 0, args)|, TWO_TO_THE_32)
  {
    ret := VsnprintfBuffer(buffer, TWO_TO_THE_64 - 1, f, args);
  }

  /**
    snprintf_ against sprintf_, for the same format and arguments: the same return value (their contracts), the
    same first min(len, count - 1) characters, then NUL, and no other cell of the buffer is changed.
   */
  lemma SnprintfTruncates(a: seq<char>, a': seq<char>, count: nat, b: seq<char>, b': seq<char>, text: string)
    requires 1 <= count && |text| < |b| < TWO_TO_THE_64
    requires Printed(a, a', count, text) && Printed(b, b', TWO_TO_THE_64 - 1, text)
    ensures var n := Least(|text|, count - 1);
      && |a'| == |a| && n < |a'| && a'[..n] == b'[..n] && a'[n] == '\0'
      && (forall p :: n < p < |a| ==> a'[p] == a[p])
    ensures b'[..|text|] == text && b'[|text|] == '\0'
  {
    var n := Least(|text|, count - 1);
    assert b'[..|text|][..n] == b'[..n] && text[..n] == text[..|text|][..n];
    forall p | n < p < |a| ensures a'[p] == a[p] {
      assert a'[n + 1..][p - n - 1] == a[n + 1..][p - n - 1];
    }
  }
}
