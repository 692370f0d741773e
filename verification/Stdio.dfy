/** lib/stdio.c: integer conversions of printf, character by character into a bounded buffer. */
module Stdio {

  /** struct integer_base; "x" is the character after the leading 0, if any. */
  datatype Base = Base(base: nat, digits: string, x: string, group: nat) {
    predicate Valid() {
      (base == 8 || base == 10 || base == 16) && |digits| == base && group == (if base == 16 then 4 else 3) && |x| <= 1
    }
  }

  const DECIMAL := Base(10, "0123456789", "", 3)
  const OCTAL := Base(8, "01234567", "", 3)
  const HEX := Base(16, "0123456789abcdef", "x", 4)
  const HEX_UPPER := Base(16, "0123456789ABCDEF", "X", 4)

  /** struct printf_conversion.  Any set of flags can reach format_integer but minus and zero together, unless a
      negative "*" width set the former. */
  datatype Conversion = Conversion(minus: bool, plus: bool, space: bool, pound: bool, zero: bool, grouped: bool,
                                   width: int, precision: int)

  function Repeat(ch: char, n: int): (r: string)
    ensures |r| == (if n < 0 then 0 else n) && forall i :: 0 <= i < |r| ==> r[i] == ch
  {
    if n <= 0 then "" else Repeat(ch, n - 1) + [ch]
  }

  /** value / b->base */
  function Rest(v: nat, b: Base): (r: nat)
    requires b.Valid()
    ensures 8 * r <= v && (v > 0 ==> r < v)
  {
    if b.base == 8 then v / 8 else if b.base == 10 then v / 10 else v / 16
  }

  /** b->digits[value % b->base] */
  function LowDigit(v: nat, b: Base): char
    requires b.Valid()
  {
    b.digits[if b.base == 8 then v % 8 else if b.base == 10 then v % 10 else v % 16]
  }

  /** The numeral of a value of which "cnt" lower digits are already written, most significant digit first and
      empty for zero, with a comma after each digit that starts a group below. */
  function Numeral(v: nat, b: Base, grouped: bool, cnt: nat): string
    requires b.Valid()
    decreases v
  {
    if v == 0 then ""
    else Numeral(Rest(v, b), b, grouped, cnt + 1) + [LowDigit(v, b)] + if Comma(grouped, cnt, b) then "," else ""
  }

  /** The digits of a conversion: the numeral, filled up with zeros to the precision (1 unless given), and the
      zero that an octal numeral with the pound flag must start with.  The digits buffer cuts the zeros at 63. */
  function Digits(v: nat, b: Base, c: Conversion): string
    requires b.Valid()
  {
    var numeral := Numeral(v, b, c.grouped, 0);
    var precision := if c.precision < 0 then 1 else if c.precision > 63 then 63 else c.precision;
    var filled := Repeat('0', precision - |numeral|) + numeral;
    if c.pound && b.base == 8 && (filled == "" || filled[0] != '0') then "0" + filled else filled
  }

  function Sign(isSigned: bool, negative: bool, c: Conversion): string {
    if !isSigned then "" else if negative then "-" else if c.plus then "+" else if c.space then " " else ""
  }

  function Prefixed(x: string): string {
    if x != "" then "0" + x else ""
  }

  function Prefix(v: nat, b: Base, c: Conversion): string {
    Prefixed(if c.pound && v > 0 then b.x else "")
  }

  predicate Comma(grouped: bool, cnt: nat, b: Base)
    requires b.Valid()
  {
    grouped && cnt > 0 && (if b.group == 3 then cnt % 3 else cnt % 4) == 0
  }

  /** What fills a field of the width. */
  function PadCnt(sign: string, prefix: string, digits: string, c: Conversion): nat {
    var n := c.width - |digits| - |prefix| - |sign|;
    if n < 0 then 0 else n
  }

  /** The six parts of a conversion's output, in order. */
  function Field(spaces: string, sign: string, prefix: string, zeros: string, digits: string,
      trailing: string): string {
    spaces + sign + prefix + zeros + digits + trailing
  }

  /** Padding goes in front, as spaces or zeros, or behind. */
  function Laid(sign: string, prefix: string, digits: string, c: Conversion): string {
    var pad := PadCnt(sign, prefix, digits, c);
    Field(Repeat(' ', if !c.minus && !c.zero then pad else 0), sign, prefix,
          Repeat('0', if c.zero then pad else 0), digits, Repeat(' ', if c.minus then pad else 0))
  }

  /** What format_integer writes. */
  function Rendered(v: nat, isSigned: bool, negative: bool, b: Base, c: Conversion): string
    requires b.Valid()
  {
    Laid(Sign(isSigned, negative, c), Prefix(v, b, c), Digits(v, b, c), c)
  }

  /** Conversions fill exactly the field width unless they need more; but with minus and zero together, a short
      one is padded on both sides. */
  lemma FieldWidth(v: nat, isSigned: bool, negative: bool, b: Base, c: Conversion)
    requires b.Valid()
    ensures
      var own := |Sign(isSigned, negative, c)| + |Prefix(v, b, c)| + |Digits(v, b, c)|;
      var total := |Rendered(v, isSigned, negative, b, c)|;
      && (total == (if c.width > own then c.width else own) <==> !(c.minus && c.zero && c.width > own))
      && (c.minus && c.zero && c.width > own ==> total == 2 * c.width - own)
  {
  }

  /** Where the padding goes: in front as spaces, behind as spaces with the minus flag, and with the zero flag as zeros
      between the prefix and the digits.  What was to be printed is whole. */
  lemma PaddingSide(v: nat, isSigned: bool, negative: bool, b: Base, c: Conversion)
    requires b.Valid() && !(c.minus && c.zero)
    ensures
      var (head, digits) := (Sign(isSigned, negative, c) + Prefix(v, b, c), Digits(v, b, c));
      var r := Rendered(v, isSigned, negative, b, c);
      var extra := |r| - |head| - |digits|;
      && extra >= 0
      && r == if c.minus then head + digits + Repeat(' ', extra)
              else if c.zero then head + Repeat('0', extra) + digits
              else Repeat(' ', extra) + head + digits
  {
    var (sign, prefix, digits) := (Sign(isSigned, negative, c), Prefix(v, b, c), Digits(v, b, c));
    LaidOut(sign, prefix, digits, c);
  }

  lemma LaidOut(sign: string, prefix: string, digits: string, c: Conversion)
    requires !(c.minus && c.zero)
    ensures
      var (pad, head) := (PadCnt(sign, prefix, digits, c), sign + prefix);
      Laid(sign, prefix, digits, c) ==
        if c.minus then head + digits + Repeat(' ', pad)
        else if c.zero then head + Repeat('0', pad) + digits
        else Repeat(' ', pad) + head + digits
  {
  }

  /** The sign of a signed conversion, seen where nothing is padded in front of it; a number that gets none is printed
      as an unsigned one. */
  lemma SignComesFirst(v: nat, negative: bool, b: Base, c: Conversion)
    requires b.Valid() && c.minus && !c.zero
    ensures
      var r := Rendered(v, true, negative, b, c);
      if negative then r != "" && r[0] == '-'
      else if c.plus then r != "" && r[0] == '+'
      else if c.space then r != "" && r[0] == ' '
      else r == Rendered(v, false, false, b, c)
  {
    LaidOut(Sign(true, negative, c), Prefix(v, b, c), Digits(v, b, c), c);
  }

  /** As many digits as the precision asks for, 1 by default and at most 63, and more only if the number needs them. */
  lemma DigitCount(v: nat, b: Base, c: Conversion)
    requires b.Valid()
    ensures
      var asked := if c.precision < 0 then 1 else if c.precision > 63 then 63 else c.precision;
      var (n, m) := (|Digits(v, b, c)|, |Numeral(v, b, c.grouped, 0)|);
      var least := if m > asked then m else asked;
      least <= n <= least + 1 && (n > least ==> c.pound && b.base == 8)
  {
  }

  /** How far from the right end the numeral of what is left starts when "cnt" digits have been written. */
  function Offset(cnt: nat, group: nat): nat
    requires group > 0
  {
    if cnt == 0 then 0 else cnt + (cnt - 1) / group
  }

  lemma OffsetInThrees(q: nat, r: nat)
    requires r < 3
    ensures
      var n := 3 * q + r + 1;
      && Offset(n, 3) == 4 * q + r + 1 && Offset(n + 1, 3) == 4 * q + r + (if r == 2 then 3 else 2)
      && (n % 3 == 0 <==> r == 2) && (4 * q + r + 1) % 4 == r + 1 && (r == 2 ==> (4 * q + r + 2) % 4 == 0)
  {
  }

  lemma OffsetInFours(q: nat, r: nat)
    requires r < 4
    ensures
      var n := 4 * q + r + 1;
      && Offset(n, 4) == 5 * q + r + 1 && Offset(n + 1, 4) == 5 * q + r + (if r == 3 then 3 else 2)
      && (n % 4 == 0 <==> r == 3) && (5 * q + r + 1) % 5 == r + 1 && (r == 3 ==> (5 * q + r + 2) % 5 == 0)
  {
  }

  lemma OffsetGrows(cnt: nat, b: Base)
    requires b.Valid()
    ensures Offset(cnt + 1, b.group) == Offset(cnt, b.group) + (if Comma(true, cnt, b) then 2 else 1)
    ensures Offset(cnt, b.group) % (b.group + 1) == b.group <==> Comma(true, cnt, b)
    ensures Comma(true, cnt, b) ==> (Offset(cnt, b.group) + 1) % (b.group + 1) == 0
  {
    if cnt > 0 && b.group == 3 {
      OffsetInThrees((cnt - 1) / 3, (cnt - 1) % 3);
    } else if cnt > 0 {
      OffsetInFours((cnt - 1) / 4, (cnt - 1) % 4);
    }
  }

  /** Grouping puts a comma before every third digit from the right, every fourth one of a hexadecimal numeral, and
      nowhere else. */
  lemma {:induction false} CommasBetweenGroups(v: nat, b: Base, cnt: nat, i: nat)
    requires b.Valid() && ',' !in b.digits && i < |Numeral(v, b, true, cnt)|
    ensures
      var s := Numeral(v, b, true, cnt);
      s[|s| - 1 - i] == ',' <==> (Offset(cnt, b.group) + i) % (b.group + 1) == b.group
    decreases v
  {
    var comma := if Comma(true, cnt, b) then "," else "";
    var front := Numeral(Rest(v, b), b, true, cnt + 1);
    assert Numeral(v, b, true, cnt) == front + [LowDigit(v, b)] + comma;
    OffsetGrows(cnt, b);
    assert LowDigit(v, b) in b.digits;
    if i > |comma| {
      CommasBetweenGroups(Rest(v, b), b, cnt + 1, i - 1 - |comma|);
    }
  }

  /** struct vsnprintf_aux: the buffer has room for maxLength characters and a null. */
  class Sink {
    const buffer: array<char>
    const maxLength: nat
    var p: nat
    var length: nat
    ghost var text: string

    ghost predicate Valid()
      reads this, buffer
    {
      && (maxLength < buffer.Length || maxLength == buffer.Length == 0)
      && length == |text| && p == (if length < maxLength then length else maxLength) && buffer[..p] == text[..p]
    }

    constructor (b: array<char>)
      ensures Valid() && buffer == b && text == "" && maxLength == if b.Length > 0 then b.Length - 1 else 0
    {
      buffer, p, length, text := b, 0, 0, "";
      maxLength := if b.Length > 0 then b.Length - 1 else 0;
    }

    /** vsnprintf_helper */
    method Put(ch: char)
      requires Valid()
      modifies this, buffer
      ensures Valid() && text == old(text) + [ch]
    {
      if length < maxLength {
        buffer[p] := ch;
        p := p + 1;
      }
      length := length + 1;
      text := text + [ch];
    }

    /** output_dup */
    method PutRepeated(ch: char, cnt: nat)
      requires Valid()
      modifies this, buffer
      ensures Valid() && text == old(text) + Repeat(ch, cnt)
    {
      var left := cnt;
      while left > 0
        invariant 0 <= left <= cnt && Valid() && text == old(text) + Repeat(ch, cnt - left)
      {
        Put(ch);
        left := left - 1;
      }
    }

    /** Padding, where a flag asks for it. */
    method PutPadding(ch: char, cnt: nat, wanted: bool)
      requires Valid()
      modifies this, buffer
      ensures Valid() && text == old(text) + Repeat(ch, if wanted then cnt else 0)
    {
      if wanted {
        PutRepeated(ch, cnt);
      }
    }

    method PutAll(s: string)
      requires Valid()
      modifies this, buffer
      ensures Valid() && text == old(text) + s
    {
      var i := 0;
      while i < |s|
        invariant i <= |s| && Valid() && text == old(text) + s[..i]
      {
        Put(s[i]);
        i := i + 1;
      }
    }
  }

  // ---------- the digit buffer ----------

  function Limit8(n: nat): nat {
    if n == 0 then 1 else 8 * Limit8(n - 1)
  }

  lemma SixtyFourBits()
    ensures 0x1_0000_0000_0000_0000 <= Limit8(22)
  {
    assert Limit8(11) == 0x2_0000_0000;
    assert Limit8(16) == 0x1_0000_0000_0000;
  }

  lemma OneDigitLess(v: nat, b: Base, n: nat)
    requires b.Valid() && 0 < v < Limit8(n)
    ensures n > 0 && Rest(v, b) < Limit8(n - 1)
  {
  }

  function Reversed(s: string): (r: string)
    ensures |r| == |s|
  {
    if s == "" then "" else Reversed(s[1..]) + [s[0]]
  }

  lemma {:induction false} ReversedAppend(s: string, ch: char)
    ensures Reversed(s + [ch]) == [ch] + Reversed(s)
  {
    if s != "" {
      ReversedAppend(s[1..], ch);
      assert (s + [ch])[1..] == s[1..] + [ch];
    }
  }

  lemma ReversedPush(buf: seq<char>, cp: nat, ch: char)
    requires cp < |buf|
    ensures Reversed(buf[cp := ch][..cp + 1]) == [ch] + Reversed(buf[..cp])
  {
    assert buf[cp := ch][..cp + 1] == buf[..cp] + [ch];
    ReversedAppend(buf[..cp], ch);
  }

  /** What the digit buffer holds, and what is still to be written. */
  ghost predicate Filling(buf: seq<char>, cp: nat, v: nat, b: Base, grouped: bool, cnt: nat, left: nat, all: string) {
    && b.Valid() && v < Limit8(left) && cp <= 2 * cnt && cp <= |buf|
    && Numeral(v, b, grouped, cnt) + Reversed(buf[..cp]) == all
  }

  /** The first loop of format_integer: the digits from the least significant on.  22 digits, the most that 64
      bits have in base 8, and their commas fit in the buffer. */
  method FillDigits(buf: array<char>, value: nat, b: Base, grouped: bool, ghost most: nat) returns (cp: nat)
    requires buf.Length == 64 && b.Valid() && value < Limit8(most) && most <= 22
    modifies buf
    ensures cp <= 44 && Reversed(buf[..cp]) == Numeral(value, b, grouped, 0)
  {
    var v: nat := value;
    var cnt: nat := 0;
    cp := 0;
    ghost var left := most;
    ghost var all := Numeral(value, b, grouped, 0);
    assert buf[..][..0] == "" && all + "" == all;
    while v > 0
      invariant cnt + left == most && left >= 0 && Filling(buf[..], cp, v, b, grouped, cnt, left, all)
      decreases v
    {
      cp, v := DigitStep(buf, cp, v, b, grouped, cnt, left, all);
      cnt := cnt + 1;
      left := left - 1;
    }
    AllFilled(buf[..], cp, b, grouped, cnt, left, all);
    assert buf[..][..cp] == buf[..cp];
  }

  lemma AllFilled(buf: seq<char>, cp: nat, b: Base, grouped: bool, cnt: nat, left: nat, all: string)
    requires Filling(buf, cp, 0, b, grouped, cnt, left, all)
    ensures Reversed(buf[..cp]) == all
  {
    assert Numeral(0, b, grouped, cnt) == "";
  }

  method DigitStep(buf: array<char>, cp0: nat, v0: nat, b: Base, grouped: bool, cnt: nat, ghost left: nat,
      ghost all: string)
      returns (cp: nat, v: nat)
    requires b.Valid() && v0 > 0 && cp0 + 2 <= buf.Length && Filling(buf[..], cp0, v0, b, grouped, cnt, left, all)
    modifies buf
    ensures v < v0 && left > 0 && Filling(buf[..], cp, v, b, grouped, cnt + 1, left - 1, all)
  {
    OneDigitLess(v0, b, left);
    ghost var before := buf[..cp0];
    assert buf[..][..cp0] == before;
    cp := PutDigit(buf, cp0, Comma(grouped, cnt, b), LowDigit(v0, b));
    OneDigitMore(v0, b, grouped, cnt, Reversed(before));
    assert buf[..][..cp] == buf[..cp];
    v := Rest(v0, b);
  }

  lemma OneDigitMore(v: nat, b: Base, grouped: bool, cnt: nat, written: string)
    requires b.Valid() && v > 0
    ensures
      var comma := if Comma(grouped, cnt, b) then "," else "";
      Numeral(Rest(v, b), b, grouped, cnt + 1) + ([LowDigit(v, b)] + comma + written) ==
        Numeral(v, b, grouped, cnt) + written
  {
  }

  method PutDigit(buf: array<char>, cp0: nat, comma: bool, digit: char) returns (cp: nat)
    requires cp0 + 2 <= buf.Length
    modifies buf
    ensures cp0 < cp <= cp0 + 2
    ensures Reversed(buf[..cp]) == [digit] + (if comma then "," else "") + old(Reversed(buf[..cp0]))
  {
    cp := cp0;
    if comma {
      ReversedPush(buf[..], cp, ',');
      buf[cp] := ',';
      cp := cp + 1;
    }
    ReversedPush(buf[..], cp, digit);
    buf[cp] := digit;
    cp := cp + 1;
  }

  /** The zeros for the precision and the octal prefix. */
  method FillZeros(buf: array<char>, cp0: nat, value: nat, b: Base, c: Conversion) returns (cp: nat)
    requires buf.Length == 64 && cp0 <= 44 && b.Valid() && Reversed(buf[..cp0]) == Numeral(value, b, c.grouped, 0)
    modifies buf
    ensures cp <= 64 && Reversed(buf[..cp]) == Digits(value, b, c)
  {
    cp := FillToPrecision(buf, cp0, if c.precision < 0 then 1 else c.precision);
    DigitsWithZeros(value, b, c, cp0, Reversed(buf[..cp]));
    LastIsFirst(buf[..cp]);
    if c.pound && b.base == 8 && (cp == 0 || buf[cp - 1] != '0') {
      ReversedPush(buf[..], cp, '0');
      buf[cp] := '0';
      cp := cp + 1;
    }
  }

  lemma DigitsWithZeros(v: nat, b: Base, c: Conversion, n: nat, filled: string)
    requires b.Valid() && n == |Numeral(v, b, c.grouped, 0)|
    requires
      var asked := if c.precision < 0 then 1 else c.precision;
      filled == Repeat('0', (if asked > 63 then 63 else asked) - n) + Numeral(v, b, c.grouped, 0)
    ensures
      Digits(v, b, c) == if c.pound && b.base == 8 && (filled == "" || filled[0] != '0') then "0" + filled else filled
  {
  }

  method FillToPrecision(buf: array<char>, cp0: nat, precision: int) returns (cp: nat)
    requires buf.Length == 64 && cp0 <= 44
    modifies buf
    ensures cp <= 63
    ensures Reversed(buf[..cp]) == Repeat('0', (if precision > 63 then 63 else precision) - cp0) +
      old(Reversed(buf[..cp0]))
  {
    cp := cp0;
    ghost var numeral := Reversed(buf[..][..cp0]);
    assert buf[..][..cp0] == buf[..cp0];
    while cp < precision && cp < 63
      invariant cp0 <= cp <= 63 && (cp > cp0 ==> cp <= precision)
      invariant Reversed(buf[..][..cp]) == Repeat('0', cp - cp0) + numeral
    {
      ZeroPushed(buf[..], cp, cp - cp0, numeral);
      buf[cp] := '0';
      cp := cp + 1;
    }
    assert buf[..][..cp] == buf[..cp];
    assert Repeat('0', cp - cp0) == Repeat('0', (if precision > 63 then 63 else precision) - cp0);
  }

  lemma ZeroPushed(buf: seq<char>, cp: nat, n: nat, numeral: string)
    requires cp < |buf| && Reversed(buf[..cp]) == Repeat('0', n) + numeral
    ensures Reversed(buf[cp := '0'][..cp + 1]) == Repeat('0', n + 1) + numeral
  {
    ReversedPush(buf, cp, '0');
    RepeatFront('0', n + 1);
  }

  lemma {:induction false} RepeatFront(ch: char, n: nat)
    requires n > 0
    ensures Repeat(ch, n) == [ch] + Repeat(ch, n - 1)
  {
  }

  lemma LastIsFirst(s: string)
    ensures s != "" ==> Reversed(s)[0] == s[|s| - 1]
  {
    if s != "" {
      LastOfAppended(s[..|s| - 1], s[|s| - 1]);
      assert s[..|s| - 1] + [s[|s| - 1]] == s;
    }
  }

  lemma LastOfAppended(front: string, last: char)
    ensures Reversed(front + [last]) != "" && Reversed(front + [last])[0] == last
  {
    ReversedAppend(front, last);
  }

  /** The loop that writes the digits out, from the last in the buffer to the first. */
  method PutReversed(buf: array<char>, cp0: nat, sink: Sink)
    requires cp0 <= buf.Length && sink.Valid() && sink.buffer != buf
    modifies sink, sink.buffer
    ensures sink.Valid() && sink.text == old(sink.text) + Reversed(buf[..cp0])
  {
    var cp := cp0;
    ghost var all := buf[..cp0];
    assert all[..cp] == all;
    while cp > 0
      invariant cp <= cp0 && sink.Valid() && buf[..cp0] == all
      invariant sink.text + Reversed(all[..cp]) == old(sink.text) + Reversed(all)
    {
      cp := cp - 1;
      ReversedPush(all, cp, all[cp]);
      assert all[cp := all[cp]] == all;
      ghost var (text, rest) := (sink.text, Reversed(all[..cp]));
      assert text + ([all[cp]] + rest) == text + [all[cp]] + rest;
      sink.Put(buf[cp]);
    }
    assert sink.text + Reversed(all[..0]) == sink.text;
  }

  method FillBuffer(buf: array<char>, value: nat, b: Base, c: Conversion) returns (cp: nat)
    requires buf.Length == 64 && b.Valid() && value < 0x1_0000_0000_0000_0000
    modifies buf
    ensures cp <= 64 && Reversed(buf[..cp]) == Digits(value, b, c)
  {
    SixtyFourBits();
    cp := FillDigits(buf, value, b, c.grouped, 22);
    cp := FillZeros(buf, cp, value, b, c);
  }

  method ChooseSign(isSigned: bool, negative: bool, c: Conversion) returns (sign: string)
    ensures sign == Sign(isSigned, negative, c)
  {
    sign := "";
    if isSigned {
      if c.plus {
        sign := if negative then "-" else "+";
      } else if c.space {
        sign := if negative then "-" else " ";
      } else if negative {
        sign := "-";
      }
    }
  }

  /** format_integer, for any 64-bit value: no write leaves the 64-byte buffer. */
  method FormatInteger(value: nat, isSigned: bool, negative: bool, b: Base, c: Conversion, sink: Sink)
    requires b.Valid() && value < 0x1_0000_0000_0000_0000 && sink.Valid()
    modifies sink, sink.buffer
    ensures sink.Valid() && sink.text == old(sink.text) + Rendered(value, isSigned, negative, b, c)
  {
    var buf := new char[64];
    var sign := ChooseSign(isSigned, negative, c);
    var x := if c.pound && value > 0 then b.x else "";
    var cp := FillBuffer(buf, value, b, c);
    PutField(buf, cp, sign, x, c, sink);
  }

  lemma FieldAppended(start: string, spaces: string, sign: string, prefix: string, zeros: string, digits: string,
      trailing: string)
    ensures start + spaces + sign + prefix + zeros + digits + trailing ==
      start + Field(spaces, sign, prefix, zeros, digits, trailing)
  {
    var (a, b, c) := (spaces + sign, spaces + sign + prefix, spaces + sign + prefix + zeros);
    assert start + spaces + sign == start + a;
    assert start + a + prefix == start + b;
    assert start + b + zeros == start + c;
    assert start + c + digits == start + (c + digits);
    assert start + (c + digits) + trailing == start + (c + digits + trailing);
  }

  /** The output of format_integer, padded to the width. */
  method PutField(buf: array<char>, cp: nat, sign: string, x: string, c: Conversion, sink: Sink)
    requires cp <= buf.Length && |x| <= 1 && sink.Valid() && sink.buffer != buf
    modifies sink, sink.buffer
    ensures sink.Valid() && sink.text == old(sink.text) + Laid(sign, Prefixed(x), Reversed(buf[..cp]), c)
  {
    var padCnt := c.width - cp - (if x != "" then 2 else 0) - |sign|;
    if padCnt < 0 {
      padCnt := 0;
    }
    assert padCnt == PadCnt(sign, Prefixed(x), Reversed(buf[..cp]), c);
    FieldAppended(sink.text, Repeat(' ', if !c.minus && !c.zero then padCnt else 0), sign, Prefixed(x),
      Repeat('0', if c.zero then padCnt else 0), Reversed(buf[..cp]), Repeat(' ', if c.minus then padCnt else 0));
    sink.PutPadding(' ', padCnt, !c.minus && !c.zero);
    sink.PutAll(sign);
    PutPrefix(x, sink);
    sink.PutPadding('0', padCnt, c.zero);
    PutReversed(buf, cp, sink);
    sink.PutPadding(' ', padCnt, c.minus);
  }

  method PutPrefix(x: string, sink: Sink)
    requires sink.Valid()
    modifies sink, sink.buffer
    ensures sink.Valid() && sink.text == old(sink.text) + Prefixed(x)
  {
    if x != "" {
      ghost var start := sink.text;
      sink.Put('0');
      sink.PutAll(x);
      assert start + ['0'] + x == start + ("0" + x);
    }
  }
}
