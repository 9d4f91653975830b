/**
  apps/common/printf.c, integers: _ntoa_long (and its identical 64-bit twin), _ntoa_format, _atoi,
  and the buffer that all output goes through.
 */
module PrintfNumber {

  const NTOA_BUFFER_SIZE: nat := 32
  const TWO_TO_THE_32: nat := 0x1_0000_0000

  /** The FLAGS_ bits. */
  datatype Flags = Flags(zeropad: bool, left: bool, plus: bool, space: bool, hash: bool, uppercase: bool,
                         chr: bool, shrt: bool, long: bool, longLong: bool, precision: bool)

  // ---------- The output buffer ----------

  /** Writing text from idx on changed exactly the cells below maxlen that it reaches. */
  ghost predicate Wrote(before: seq<char>, after: seq<char>, maxlen: nat, idx: nat, text: string) {
    && |after| == |before|
    && forall p :: 0 <= p < |after| ==>
         after[p] == if idx <= p < idx + |text| && p < maxlen then text[p - idx] else before[p]
  }

  /** The buffer has room up to maxlen, or up to the end of the text. */
  predicate Room(size: nat, maxlen: nat, end: nat) {
    maxlen <= size || end <= size
  }

  lemma WroteNothing(a: seq<char>, maxlen: nat, idx: nat)
    ensures Wrote(a, a, maxlen, idx, "")
  {
  }

  lemma WroteTwice(a: seq<char>, b: seq<char>, c: seq<char>, maxlen: nat, idx: nat, t: string, u: string)
    requires Wrote(a, b, maxlen, idx, t) && Wrote(b, c, maxlen, idx + |t|, u)
    ensures Wrote(a, c, maxlen, idx, t + u)
  {
    forall p | 0 <= p < |c|
      ensures c[p] == if idx <= p < idx + |t + u| && p < maxlen then (t + u)[p - idx] else a[p]
    {
      assert b[p] == if idx <= p < idx + |t| && p < maxlen then t[p - idx] else a[p];
    }
  }

  /** _out_buffer */
  method OutBuffer(character: char, buffer: array<char>, idx: nat, maxlen: nat)
    requires Room(buffer.Length, maxlen, idx + 1)
    modifies buffer
    ensures Wrote(old(buffer[..]), buffer[..], maxlen, idx, [character])
  {
    if idx < maxlen {
      buffer[idx] := character;
    }
  }

  function Fill(c: char, n: nat): (s: string)
    ensures |s| == n && forall i :: 0 <= i < n ==> s[i] == c
  {
    if n == 0 then "" else Fill(c, n - 1) + [c]
  }

  /** The padding loops. */
  method OutSpaces(n: nat, buffer: array<char>, idx: nat, maxlen: nat) returns (idx': nat)
    requires Room(buffer.Length, maxlen, idx + n)
    modifies buffer
    ensures idx' == idx + n && Wrote(old(buffer[..]), buffer[..], maxlen, idx, Fill(' ', n))
  {
    idx' := idx;
    ghost var b0 := buffer[..];
    WroteNothing(b0, maxlen, idx);
    for i := 0 to n
      invariant idx' == idx + i && Wrote(b0, buffer[..], maxlen, idx, Fill(' ', i))
    {
      hide Wrote;
      ghost var b1 := buffer[..];
      OutBuffer(' ', buffer, idx', maxlen);
      WroteTwice(b0, b1, buffer[..], maxlen, idx, Fill(' ', i), [' ']);
      idx' := idx' + 1;
    }
  }

  // ---------- _atoi ----------

  predicate IsDigit(ch: char) {
    '0' <= ch <= '9'
  }

  /** The number that starts at position p of a string, in 32-bit arithmetic, and the position behind it. */
  function Number(s: string, p: nat, i: nat): (r: (nat, nat))
    requires p <= |s|
    ensures p <= r.1 <= |s| && (i < TWO_TO_THE_32 ==> r.0 < TWO_TO_THE_32)
    ensures r.1 < |s| ==> !IsDigit(s[r.1])
    ensures p < |s| && !IsDigit(s[|s| - 1]) ==> r.1 < |s|
    decreases |s| - p
  {
    if p < |s| && IsDigit(s[p]) then Number(s, p + 1, (i * 10 + (s[p] - '0') as nat) % TWO_TO_THE_32)
    else (i, p)
  }

  /** _atoi; its strings end with a character that is no digit. */
  method Atoi(s: string, p: nat) returns (i: nat, p': nat)
    requires p < |s| && !IsDigit(s[|s| - 1])
    ensures (i, p') == Number(s, p, 0) && p' < |s|
  {
    i, p' := 0, p;
    while IsDigit(s[p'])
      invariant p <= p' < |s| && Number(s, p', i) == Number(s, p, 0)
      decreases |s| - p'
    {
      i := (i * 10 + (s[p'] - '0') as nat) % TWO_TO_THE_32;
      p' := p' + 1;
    }
  }

  // ---------- _ntoa_long: the digits ----------

  function DigitChar(digit: nat, uppercase: bool): char
    requires digit < 36
  {
    if digit < 10 then '0' + digit as char else (if uppercase then 'A' else 'a') + (digit - 10) as char
  }

  /** The digits of the do-while loop, least significant first, in at most `room` characters. */
  function DigitLoop(value: nat, base: nat, uppercase: bool, room: nat): (d: string)
    requires 2 <= base <= 36 && room >= 1
    ensures 1 <= |d| <= room
    decreases room
  {
    [DigitChar(value % base, uppercase)]
      + if value / base != 0 && room > 1 then DigitLoop(value / base, base, uppercase, room - 1) else ""
  }

  /** What the number conversion leaves in buf. */
  function Digits(value: nat, base: nat, flags: Flags): (d: string)
    requires 2 <= base <= 36
    ensures |d| <= NTOA_BUFFER_SIZE
  {
    if flags.precision && value == 0 then "" else DigitLoop(value, base, flags.uppercase, NTOA_BUFFER_SIZE)
  }

  // ---------- _ntoa_format: padding, prefix and sign, still in reverse ----------

  function Least(a: nat, b: nat): nat {
    if a <= b then a else b
  }

  /** Zeros up to n characters. */
  function ZerosTo(d: string, n: nat): (r: string)
    ensures |r| == if |d| < n then n else |d|
    decreases n - |d|
  {
    if |d| < n then ZerosTo(d + ['0'], n) else d
  }

  /** A sign takes one place of a zero-padded width. */
  function SignedWidth(negative: bool, width: nat, flags: Flags): nat {
    if !flags.left && width > 0 && flags.zeropad && (negative || flags.plus || flags.space) then width - 1 else width
  }

  /** Leading zeros: for the precision, and for the width if asked for; the buffer holds 32 characters. */
  function Padded(d: string, prec: nat, width: nat, flags: Flags): (r: string)
    requires |d| <= NTOA_BUFFER_SIZE
    ensures |r| <= NTOA_BUFFER_SIZE
  {
    if flags.left then d
    else
      var p := ZerosTo(d, Least(prec, NTOA_BUFFER_SIZE));
      if flags.zeropad then ZerosTo(p, Least(width, NTOA_BUFFER_SIZE)) else p
  }

  /** The prefix of the # flag replaces padding zeros where it can. */
  function Trimmed(d: string, base: nat, prec: nat, width: nat, flags: Flags): (r: string)
    ensures |r| <= |d|
  {
    if !flags.precision && |d| > 0 && (|d| == prec || |d| == width) then
      if |d| > 1 && base == 16 then d[..|d| - 2] else d[..|d| - 1]
    else d
  }

  function PrefixLetter(base: nat, flags: Flags): string {
    if base == 16 then (if flags.uppercase then "X" else "x") else if base == 2 then "b" else ""
  }

  /** Appends what still fits into the buffer. */
  function Fitting(d: string, s: string): (r: string)
    requires |d| <= NTOA_BUFFER_SIZE && |s| <= 1
    ensures |r| <= NTOA_BUFFER_SIZE
  {
    if |d| < NTOA_BUFFER_SIZE then d + s else d
  }

  function Prefixed(d: string, base: nat, prec: nat, width: nat, flags: Flags): (r: string)
    requires |d| <= NTOA_BUFFER_SIZE
    ensures |r| <= NTOA_BUFFER_SIZE
  {
    if !flags.hash then d
    else Fitting(Fitting(Trimmed(d, base, prec, width, flags), PrefixLetter(base, flags)), "0")
  }

  function Sign(negative: bool, flags: Flags): (s: string)
    ensures |s| <= 1
  {
    if negative then "-" else if flags.plus then "+" else if flags.space then " " else ""
  }

  /** The characters of the number in reverse, without padding spaces. */
  function Reversed(d: string, negative: bool, base: nat, prec: nat, width: nat, flags: Flags): (r: string)
    requires |d| <= NTOA_BUFFER_SIZE
    ensures |r| <= NTOA_BUFFER_SIZE
  {
    var w := SignedWidth(negative, width, flags);
    Fitting(Prefixed(Padded(d, prec, w, flags), base, prec, w, flags), Sign(negative, flags))
  }

  function Backwards(d: string): (r: string)
    ensures |r| == |d| && forall i :: 0 <= i < |d| ==> r[i] == d[|d| - 1 - i]
  {
    if d == "" then "" else Backwards(d[1..]) + [d[0]]
  }

  function Missing(width: nat, len: nat): nat {
    if len < width then width - len else 0
  }

  /** The text of a converted number. */
  function FormatText(d: string, negative: bool, base: nat, prec: nat, width: nat, flags: Flags): string
    requires |d| <= NTOA_BUFFER_SIZE
  {
    var w := SignedWidth(negative, width, flags);
    var r := Reversed(d, negative, base, prec, width, flags);
    if flags.left then Backwards(r) + Fill(' ', Missing(w, |r|))
    else if flags.zeropad then Backwards(r)
    else Fill(' ', Missing(w, |r|)) + Backwards(r)
  }

  /** No hash for 0 values. */
  function HashFlags(value: nat, flags: Flags): Flags {
    if value == 0 then flags.(hash := false) else flags
  }

  function NtoaText(value: nat, negative: bool, base: nat, prec: nat, width: nat, flags: Flags): string
    requires 2 <= base <= 36
  {
    var f := HashFlags(value, flags);
    FormatText(Digits(value, base, f), negative, base, prec, width, f)
  }

  // ---------- The methods ----------

  /** The local buffer holds d. */
  ghost predicate Buf(buf: array<char>, len: nat, d: string)
    reads buf
  {
    buf.Length == NTOA_BUFFER_SIZE && len == |d| <= buf.Length && buf[..len] == d
  }

  /** `buf[len++] = c` */
  method PutChar(buf: array<char>, len: nat, c: char, ghost d: string)
    requires Buf(buf, len, d) && len < NTOA_BUFFER_SIZE
    modifies buf
    ensures Buf(buf, len + 1, d + [c])
  {
    buf[len] := c;
  }

  method PutIfFits(buf: array<char>, len: nat, c: char, ghost d: string) returns (len': nat)
    requires Buf(buf, len, d)
    modifies buf
    ensures Buf(buf, len', Fitting(d, [c]))
  {
    len' := len;
    if len' < NTOA_BUFFER_SIZE {
      PutChar(buf, len', c, d);
      len' := len' + 1;
    }
  }

  /** `while (len < n && len < 32) buf[len++] = '0'` */
  method PutZeros(buf: array<char>, len: nat, n: nat, ghost d: string) returns (len': nat)
    requires Buf(buf, len, d)
    modifies buf
    ensures Buf(buf, len', ZerosTo(d, Least(n, NTOA_BUFFER_SIZE)))
  {
    len' := len;
    ghost var e := d;
    while len' < n && len' < NTOA_BUFFER_SIZE
      invariant Buf(buf, len', e)
      invariant ZerosTo(e, Least(n, NTOA_BUFFER_SIZE)) == ZerosTo(d, Least(n, NTOA_BUFFER_SIZE))
      decreases n - len'
    {
      PutChar(buf, len', '0', e);
      len' := len' + 1;
      e := e + ['0'];
    }
  }

  /** Handle hash. */
  method PutPrefix(buf: array<char>, len: nat, base: nat, prec: nat, width: nat, flags: Flags, ghost d: string)
      returns (len': nat)
    requires Buf(buf, len, d)
    modifies buf
    ensures Buf(buf, len', Prefixed(d, base, prec, width, flags))
  {
    len' := len;
    if flags.hash {
      if !flags.precision && len' > 0 && (len' == prec || len' == width) {
        len' := len' - 1;
        if len' > 0 && base == 16 {
          len' := len' - 1;
        }
      }
      ghost var e := Trimmed(d, base, prec, width, flags);
      assert Buf(buf, len', e);
      if base == 16 && !flags.uppercase && len' < NTOA_BUFFER_SIZE {
        len' := PutIfFits(buf, len', 'x', e);
      } else if base == 16 && flags.uppercase && len' < NTOA_BUFFER_SIZE {
        len' := PutIfFits(buf, len', 'X', e);
      } else if base == 2 && len' < NTOA_BUFFER_SIZE {
        len' := PutIfFits(buf, len', 'b', e);
      }
      len' := PutIfFits(buf, len', '0', Fitting(e, PrefixLetter(base, flags)));
    }
  }

  method PutSign(buf: array<char>, len: nat, negative: bool, flags: Flags, ghost d: string) returns (len': nat)
    requires Buf(buf, len, d)
    modifies buf
    ensures Buf(buf, len', Fitting(d, Sign(negative, flags)))
  {
    len' := len;
    if len' < NTOA_BUFFER_SIZE {
      if negative {
        len' := PutIfFits(buf, len', '-', d);
      } else if flags.plus {
        len' := PutIfFits(buf, len', '+', d);
      } else if flags.space {
        len' := PutIfFits(buf, len', ' ', d);
      }
    }
  }

  /** Reverse string. */
  method OutReversed(buf: array<char>, len: nat, ghost d: string, buffer: array<char>, idx: nat, maxlen: nat)
      returns (idx': nat)
    requires Buf(buf, len, d) && buf != buffer && Room(buffer.Length, maxlen, idx + |d|)
    modifies buffer
    ensures idx' == idx + |d| && Wrote(old(buffer[..]), buffer[..], maxlen, idx, Backwards(d))
  {
    idx' := idx;
    ghost var b0 := buffer[..];
    WroteNothing(b0, maxlen, idx);
    for i := 0 to len
      invariant idx' == idx + i && Buf(buf, len, d)
      invariant Wrote(b0, buffer[..], maxlen, idx, Backwards(d)[..i])
    {
      hide Wrote;
      ghost var b1 := buffer[..];
      OutBuffer(buf[len - i - 1], buffer, idx', maxlen);
      WroteTwice(b0, b1, buffer[..], maxlen, idx, Backwards(d)[..i], [d[len - i - 1]]);
      assert Backwards(d)[..i] + [d[len - i - 1]] == Backwards(d)[..i + 1];
      idx' := idx' + 1;
    }
    assert Backwards(d)[..len] == Backwards(d);
  }

  /** _ntoa_format up to the padding spaces: what is in buf before it is reversed. */
  method Prepare(buf: array<char>, len: nat, negative: bool, base: nat, prec: nat, width: nat, flags: Flags, ghost d: string)
      returns (len': nat, width': nat)
    requires Buf(buf, len, d)
    modifies buf
    ensures Buf(buf, len', Reversed(d, negative, base, prec, width, flags))
    ensures width' == SignedWidth(negative, width, flags)
  {
    len', width' := len, width;
    if !flags.left {
      if width' > 0 && flags.zeropad && (negative || flags.plus || flags.space) {
        width' := width' - 1;
      }
      len' := PutZeros(buf, len', prec, d);
      if flags.zeropad {
        len' := PutZeros(buf, len', width', ZerosTo(d, Least(prec, NTOA_BUFFER_SIZE)));
      }
    }
    ghost var e := Padded(d, prec, width', flags);
    assert Buf(buf, len', e);
    len' := PutPrefix(buf, len', base, prec, width', flags, e);
    len' := PutSign(buf, len', negative, flags, Prefixed(e, base, prec, width', flags));
  }

  /** _ntoa_format */
  method NtoaFormat(buffer: array<char>, idx: nat, maxlen: nat, buf: array<char>, len: nat, negative: bool,
                    base: nat, prec: nat, width: nat, flags: Flags, ghost d: string) returns (idx': nat)
    requires Buf(buf, len, d) && buf != buffer
    requires Room(buffer.Length, maxlen, idx + |FormatText(d, negative, base, prec, width, flags)|)
    modifies buffer, buf
    ensures idx' == idx + |FormatText(d, negative, base, prec, width, flags)|
    ensures Wrote(old(buffer[..]), buffer[..], maxlen, idx, FormatText(d, negative, base, prec, width, flags))
  {
    var len', width' := Prepare(buf, len, negative, base, prec, width, flags, d);
    ghost var r := Reversed(d, negative, base, prec, width, flags);
    ghost var b0 := buffer[..];
    idx' := idx;
    hide Wrote, Reversed;
    if !flags.left && !flags.zeropad {
      var spaces := Missing(width', len');
      idx' := OutSpaces(spaces, buffer, idx', maxlen);
      ghost var b1 := buffer[..];
      idx' := OutReversed(buf, len', r, buffer, idx', maxlen);
      WroteTwice(b0, b1, buffer[..], maxlen, idx, Fill(' ', spaces), Backwards(r));
    } else if flags.left {
      idx' := OutReversed(buf, len', r, buffer, idx', maxlen);
      ghost var b1 := buffer[..];
      var spaces := Missing(width', idx' - idx);
      idx' := OutSpaces(spaces, buffer, idx', maxlen);
      WroteTwice(b0, b1, buffer[..], maxlen, idx, Backwards(r), Fill(' ', spaces));
    } else {
      idx' := OutReversed(buf, len', r, buffer, idx', maxlen);
    }
  }

  /** What the do-while loop still has to write; `more` is its condition. */
  function DigitsLeft(more: bool, v: nat, base: nat, uppercase: bool, room: nat): string
    requires 2 <= base <= 36 && (more ==> room >= 1)
  {
    if more then DigitLoop(v, base, uppercase, room) else ""
  }

  /** The body of the loop. */
  method PutDigit(buf: array<char>, len: nat, v: nat, base: nat, uppercase: bool, ghost d: string, ghost whole: string)
      returns (v': nat, more: bool, ghost d': string)
    requires 2 <= base <= 36 && len < NTOA_BUFFER_SIZE && Buf(buf, len, d)
    requires whole == d + DigitsLeft(true, v, base, uppercase, NTOA_BUFFER_SIZE - len)
    modifies buf
    ensures v' == v / base && more == (v' != 0 && len + 1 < NTOA_BUFFER_SIZE) && Buf(buf, len + 1, d')
    ensures whole == d' + DigitsLeft(more, v', base, uppercase, NTOA_BUFFER_SIZE - (len + 1))
  {
    DigitsLeftStep(d, v, base, uppercase, NTOA_BUFFER_SIZE - len);
    hide DigitChar, DigitLoop, DigitsLeft;
    var digit := v % base;
    var c := DigitChar(digit, uppercase);
    PutChar(buf, len, c, d);
    d' := d + [c];
    v' := v / base;
    more := v' != 0 && len + 1 < NTOA_BUFFER_SIZE;
  }

  lemma DigitsLeftStep(d: string, v: nat, base: nat, uppercase: bool, room: nat)
    requires 2 <= base <= 36 && room >= 1
    ensures d + DigitsLeft(true, v, base, uppercase, room)
      == d + [DigitChar(v % base, uppercase)] + DigitsLeft(v / base != 0 && room > 1, v / base, base, uppercase, room - 1)
  {
    hide DigitChar;
  }

  /** The do-while loop of _ntoa_long. */
  method PutDigitLoop(buf: array<char>, value: nat, base: nat, uppercase: bool) returns (len: nat)
    requires 2 <= base <= 36 && buf.Length == NTOA_BUFFER_SIZE
    modifies buf
    ensures Buf(buf, len, DigitLoop(value, base, uppercase, NTOA_BUFFER_SIZE))
  {
    ghost var whole := DigitLoop(value, base, uppercase, NTOA_BUFFER_SIZE);
    ghost var d: string := "";
    len := 0;
    var v, more := value, true;
    assert whole == d + DigitsLeft(true, v, base, uppercase, NTOA_BUFFER_SIZE);
    hide DigitLoop;
    while more
      invariant len <= NTOA_BUFFER_SIZE && (more ==> len < NTOA_BUFFER_SIZE) && Buf(buf, len, d)
      invariant whole == d + DigitsLeft(more, v, base, uppercase, NTOA_BUFFER_SIZE - len)
      decreases NTOA_BUFFER_SIZE - len
    {
      v, more, d := PutDigit(buf, len, v, base, uppercase, d, whole);
      len := len + 1;
    }
  }

  method PutDigits(buf: array<char>, value: nat, base: nat, flags: Flags) returns (len: nat)
    requires 2 <= base <= 36 && buf.Length == NTOA_BUFFER_SIZE
    modifies buf
    ensures Buf(buf, len, Digits(value, base, flags))
  {
    len := 0;
    if !flags.precision || value != 0 {
      len := PutDigitLoop(buf, value, base, flags.uppercase);
    }
  }

  /** _ntoa_long, _ntoa_long_long */
  method NtoaLong(buffer: array<char>, idx: nat, maxlen: nat, value: nat, negative: bool, base: nat, prec: nat, width: nat, flags: Flags)
      returns (idx': nat)
    requires 2 <= base <= 36 && Room(buffer.Length, maxlen, idx + |NtoaText(value, negative, base, prec, width, flags)|)
    modifies buffer
    ensures idx' == idx + |NtoaText(value, negative, base, prec, width, flags)|
    ensures Wrote(old(buffer[..]), buffer[..], maxlen, idx, NtoaText(value, negative, base, prec, width, flags))
  {
    var flags' := flags;
    if value == 0 {
      flags' := flags'.(hash := false);
    }
    var buf := new char[NTOA_BUFFER_SIZE](_ => '\0');
    var len := PutDigits(buf, value, base, flags');
    idx' := NtoaFormat(buffer, idx, maxlen, buf, len, negative, base, prec, width, flags', Digits(value, base, flags'));
  }
}
