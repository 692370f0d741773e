/** lib/stdlib.c: atoi, and how it and the integer conversions of printf undo each other. */
module Atoi {
  import opened Stdio

  predicate IsSpace(ch: char) {
    ch == ' ' || ch == '\t' || ch == '\n' || ch as int == 11 || ch as int == 12 || ch == '\r'
  }

  predicate IsDigit(ch: char) {
    '0' <= ch <= '9'
  }

  function DigitOf(ch: char): nat
    requires IsDigit(ch)
  {
    ch as int - '0' as int
  }

  /** The string after its leading white space. */
  function Trimmed(s: string): string {
    if s != "" && IsSpace(s[0]) then Trimmed(s[1..]) else s
  }

  /** The number that the leading digits continue. */
  function ReadDigits(s: string, acc: nat): nat
    decreases |s|
  {
    if s != "" && IsDigit(s[0]) then ReadDigits(s[1..], 10 * acc + DigitOf(s[0])) else acc
  }

  /** The number that a string stands for, at any size. */
  function Parsed(s: string): int {
    var t := Trimmed(s);
    if t != "" && t[0] == '-' then 0 - ReadDigits(t[1..], 0)
    else if t != "" && t[0] == '+' then ReadDigits(t[1..], 0)
    else ReadDigits(t, 0)
  }

  predicate FitsInt(n: int) {
    -0x8000_0000 <= n <= 0x7fff_ffff
  }

  /** The arithmetic of a 32-bit int. */
  function Wrap(n: int): (r: int)
    ensures FitsInt(r) && (FitsInt(n) ==> r == n)
  {
    (n + 0x8000_0000) % 0x1_0000_0000 - 0x8000_0000
  }

  lemma {:induction false} DigitsGrow(s: string, acc: nat)
    ensures ReadDigits(s, acc) >= acc
    decreases |s|
  {
    if s != "" && IsDigit(s[0]) { DigitsGrow(s[1..], 10 * acc + DigitOf(s[0])); }
  }

  /** One more digit below the value so far, which is kept negative so that this includes the least int. */
  method PushDigit(value: int, ch: char, ghost acc: nat) returns (r: int)
    requires IsDigit(ch)
    ensures value + acc == 0 && FitsInt(value * 10 - DigitOf(ch)) ==> r + 10 * acc + DigitOf(ch) == 0
  {
    r := Wrap(value * 10 - DigitOf(ch));
  }

  /** The loop of atoi over the digits. */
  method TakeDigits(s: string, start: nat) returns (value: int)
    requires start <= |s|
    ensures FitsInt(0 - ReadDigits(s[start..], 0)) ==> value == 0 - ReadDigits(s[start..], 0)
  {
    var i := start;
    value := 0;
    ghost var acc: nat := 0;
    ghost var total: int := ReadDigits(s[start..], 0);
    while i < |s| && IsDigit(s[i])
      invariant start <= i <= |s| && ReadDigits(s[i..], acc) == total
      invariant FitsInt(0 - total) ==> value + acc == 0
    {
      ghost var more: nat := 10 * acc + DigitOf(s[i]);
      assert s[i..][1..] == s[i + 1..];
      DigitsGrow(s[i + 1..], more);
      value := PushDigit(value, s[i], acc);
      acc := more;
      i := i + 1;
    }
  }

  /** The sign, if any, and where the digits start. */
  method TakeSign(s: string, start: nat) returns (negative: bool, i: nat)
    requires start <= |s| && s[start..] == Trimmed(s)
    ensures i <= |s| && Parsed(s) == if negative then 0 - ReadDigits(s[i..], 0) else ReadDigits(s[i..], 0)
  {
    negative, i := false, start;
    if i < |s| && s[i] == '+' {
      i := i + 1;
    } else if i < |s| && s[i] == '-' {
      negative := true;
      i := i + 1;
    }
  }

  /** atoi: the number that the string stands for, whenever an int can hold it. */
  method Atoi(s: string) returns (value: int)
    ensures FitsInt(Parsed(s)) ==> value == Parsed(s)
  {
    var i := 0;
    while i < |s| && IsSpace(s[i])
      invariant i <= |s| && Trimmed(s[i..]) == Trimmed(s)
    {
      assert s[i..][1..] == s[i + 1..];
      i := i + 1;
    }
    var negative, digits := TakeSign(s, i);
    value := TakeDigits(s, digits);
    if !negative {
      value := Wrap(-value);
    }
  }

  // ---------- numerals ----------

  lemma {:induction false} TrimsSpaces(n: nat, t: string)
    ensures Trimmed(Repeat(' ', n) + t) == Trimmed(t)
  {
    if n > 0 {
      RepeatFront(' ', n);
      assert (Repeat(' ', n) + t)[1..] == Repeat(' ', n - 1) + t;
      TrimsSpaces(n - 1, t);
    } else {
      assert Repeat(' ', 0) + t == t;
    }
  }

  lemma {:induction false} LeadingZeros(n: nat, t: string)
    ensures ReadDigits(Repeat('0', n) + t, 0) == ReadDigits(t, 0)
  {
    if n > 0 {
      RepeatFront('0', n);
      assert (Repeat('0', n) + t)[1..] == Repeat('0', n - 1) + t;
      LeadingZeros(n - 1, t);
    } else {
      assert Repeat('0', 0) + t == t;
    }
  }

  lemma DecimalDigit(v: nat, t: string, acc: nat)
    ensures IsDigit(LowDigit(v, DECIMAL))
    ensures ReadDigits([LowDigit(v, DECIMAL)] + t, acc) == ReadDigits(t, 10 * acc + v % 10)
  {
    assert DECIMAL.digits[v % 10] as int == '0' as int + v % 10;
    assert ([LowDigit(v, DECIMAL)] + t)[1..] == t;
  }

  lemma ReadsLowDigit(v: nat, comma: string, t: string)
    requires comma == "" || comma == ","
    ensures
      ReadDigits([LowDigit(v, DECIMAL)] + (comma + t), v / 10) == if comma == "" then ReadDigits(t, v) else v
  {
    DecimalDigit(v, comma + t, v / 10);
    assert comma == "" ==> comma + t == t;
  }

  /** Reading a numeral back: all of it, or, where commas group the digits, a part of it. */
  lemma {:induction false} ReadsNumeral(v: nat, grouped: bool, cnt: nat, t: string)
    ensures
      var r := ReadDigits(Numeral(v, DECIMAL, grouped, cnt) + t, 0);
      r == ReadDigits(t, v) || (grouped && r <= v)
    decreases v
  {
    if v == 0 {
      assert "" + t == t;
    } else {
      var comma := if Comma(grouped, cnt, DECIMAL) then "," else "";
      var rest := [LowDigit(v, DECIMAL)] + (comma + t);
      ReadsNumeral(v / 10, grouped, cnt + 1, rest);
      assert Numeral(v, DECIMAL, grouped, cnt) + t == Numeral(v / 10, DECIMAL, grouped, cnt + 1) + rest;
      ReadsLowDigit(v, comma, t);
    }
  }

  /** With the grouping flag, the numeral of a thousand or more is read only up to a comma. */
  lemma GroupsCutShort(v: nat, t: string)
    requires v >= 1000
    ensures ReadDigits(Numeral(v, DECIMAL, true, 0) + t, 0) < v
  {
    var (u, low) := LastThree(v);
    ThousandsAndRest(v, low);
    var rest := [LowDigit(u, DECIMAL)] + ("," + (low + t));
    assert Numeral(v, DECIMAL, true, 0) + t == Numeral(u / 10, DECIMAL, true, 4) + rest;
    ReadsNumeral(u / 10, true, 4, rest);
    DecimalDigit(u, "," + (low + t), u / 10);
  }

  /** What is above a thousand, and the three digits below. */
  function LastThree(v: nat): (nat, string) {
    (v / 1000, [LowDigit(v / 100, DECIMAL), LowDigit(v / 10, DECIMAL), LowDigit(v, DECIMAL)])
  }

  lemma ThousandsAndRest(v: nat, low: string)
    requires v >= 1000 && low == LastThree(v).1
    ensures
      var u := v / 1000;
      Numeral(v, DECIMAL, true, 0) == Numeral(u / 10, DECIMAL, true, 4) + [LowDigit(u, DECIMAL)] + "," + low
  {
    var u := v / 1000;
    assert v / 10 / 10 == v / 100 && v / 100 / 10 == u;
    assert Numeral(v, DECIMAL, true, 0) == Numeral(v / 10, DECIMAL, true, 1) + [LowDigit(v, DECIMAL)];
    assert Numeral(v / 10, DECIMAL, true, 1) == Numeral(v / 100, DECIMAL, true, 2) + [LowDigit(v / 10, DECIMAL)];
    assert Numeral(v / 100, DECIMAL, true, 2) == Numeral(u, DECIMAL, true, 3) + [LowDigit(v / 100, DECIMAL)];
    assert Numeral(u, DECIMAL, true, 3) == Numeral(u / 10, DECIMAL, true, 4) + [LowDigit(u, DECIMAL)] + ",";
  }

  /** No group ends below a thousand. */
  lemma SmallNumeral(v: nat, grouped: bool)
    requires v < 1000
    ensures Numeral(v, DECIMAL, grouped, 0) == Numeral(v, DECIMAL, false, 0)
  {
    assert v / 10 / 10 / 10 == 0;
    assert Numeral(v / 10 / 10, DECIMAL, grouped, 2) == Numeral(v / 10 / 10, DECIMAL, false, 2);
    assert Numeral(v / 10, DECIMAL, grouped, 1) == Numeral(v / 10, DECIMAL, false, 1);
  }

  lemma NotADigit(t: string, acc: nat)
    requires t == "" || !IsDigit(t[0])
    ensures ReadDigits(t, acc) == acc
  {
  }

  /** The digits of a decimal conversion, followed by spaces: they read back exactly if no comma was put in. */
  lemma ReadsDigits(v: nat, c: Conversion, zeros: nat, spaces: nat)
    ensures
      var r := ReadDigits(Repeat('0', zeros) + Digits(v, DECIMAL, c) + Repeat(' ', spaces), 0);
      r == v <==> !(c.grouped && v >= 1000)
  {
    var (numeral, t) := (Numeral(v, DECIMAL, c.grouped, 0), Repeat(' ', spaces));
    var fill := DigitsAreFilled(v, c);
    Nested(Repeat('0', zeros), Repeat('0', fill), numeral, t);
    LeadingZeros(zeros, Repeat('0', fill) + (numeral + t));
    LeadingZeros(fill, numeral + t);
    ReadsPlainOrCut(v, c.grouped, spaces);
  }

  /** The precision puts zeros before the numeral. */
  lemma DigitsAreFilled(v: nat, c: Conversion) returns (fill: nat)
    ensures Digits(v, DECIMAL, c) == Repeat('0', fill) + Numeral(v, DECIMAL, c.grouped, 0)
  {
    var numeral := Numeral(v, DECIMAL, c.grouped, 0);
    var precision := if c.precision < 0 then 1 else if c.precision > 63 then 63 else c.precision;
    fill := if precision > |numeral| then precision - |numeral| else 0;
    assert Repeat('0', precision - |numeral|) == Repeat('0', fill);
  }

  lemma Nested(a: string, b: string, c: string, d: string)
    ensures a + (b + c) + d == a + (b + (c + d))
  {
  }

  lemma ReadsPlainOrCut(v: nat, grouped: bool, spaces: nat)
    ensures ReadDigits(Numeral(v, DECIMAL, grouped, 0) + Repeat(' ', spaces), 0) == v <==> !(grouped && v >= 1000)
  {
    var t := Repeat(' ', spaces);
    if grouped && v >= 1000 {
      GroupsCutShort(v, t);
    } else {
      if v < 1000 { SmallNumeral(v, grouped); }
      ReadsNumeral(v, false, 0, t);
      NotADigit(t, v);
    }
  }

  // ---------- the round trip ----------

  /** What printf writes for an int, with %d and any flags, width and precision. */
  function Printed(n: int, c: Conversion): string {
    Rendered(if n < 0 then -n else n, true, n < 0, DECIMAL, c)
  }

  lemma {:induction false} StartsWithDigit(v: nat, grouped: bool, cnt: nat)
    requires v > 0
    ensures Numeral(v, DECIMAL, grouped, cnt) != "" && IsDigit(Numeral(v, DECIMAL, grouped, cnt)[0])
    decreases v
  {
    DecimalDigit(v, "", 0);
    if v >= 10 { StartsWithDigit(v / 10, grouped, cnt + 1); }
  }

  lemma DigitsStart(v: nat, c: Conversion)
    ensures var digits := Digits(v, DECIMAL, c); digits == "" || IsDigit(digits[0])
  {
    if v > 0 { StartsWithDigit(v, c.grouped, 0); }
  }

  lemma TrimmedDigits(zeros: nat, digits: string, spaces: nat)
    requires digits == "" || IsDigit(digits[0])
    ensures
      var d := Repeat('0', zeros) + digits + Repeat(' ', spaces);
      (d == Repeat(' ', spaces) && Trimmed(d) == "") || (d != "" && IsDigit(d[0]) && Trimmed(d) == d)
  {
    var d := Repeat('0', zeros) + digits + Repeat(' ', spaces);
    if zeros > 0 {
      assert d[0] == '0';
    } else if digits != "" {
      assert d[0] == digits[0];
    } else {
      assert d == Repeat(' ', spaces) && Repeat(' ', spaces) + "" == d;
      TrimsSpaces(spaces, "");
    }
  }

  /** What follows the sign starts with a digit, or is white space. */
  lemma AfterSign(v: nat, c: Conversion, zeros: nat, spaces: nat)
    ensures
      var d := Repeat('0', zeros) + Digits(v, DECIMAL, c) + Repeat(' ', spaces);
      && (d == Repeat(' ', spaces) || (d != "" && IsDigit(d[0])))
      && ReadDigits(Trimmed(d), 0) == ReadDigits(d, 0)
      && (Trimmed(d) != "" ==> Trimmed(d)[0] != '-' && Trimmed(d)[0] != '+')
  {
    DigitsStart(v, c);
    TrimmedDigits(zeros, Digits(v, DECIMAL, c), spaces);
  }

  /** Parsing a sign and what follows it. */
  lemma ParsesSign(sign: string, d: string)
    requires sign == "" || sign == " " || sign == "+" || sign == "-"
    requires Trimmed(d) != "" ==> Trimmed(d)[0] != '-' && Trimmed(d)[0] != '+'
    requires ReadDigits(Trimmed(d), 0) == ReadDigits(d, 0)
    ensures Parsed(sign + d) == if sign == "-" then 0 - ReadDigits(d, 0) else ReadDigits(d, 0)
  {
    if sign == "" {
      assert sign + d == d;
    } else {
      assert (sign + d)[1..] == d;
    }
  }

  /** The parts of a decimal conversion after the leading spaces: sign, digits and trailing spaces. */
  lemma PrintedParts(n: int, c: Conversion) returns (spaces: nat, zeros: nat, trailing: nat)
    ensures
      var v := if n < 0 then 0 - n else n;
      Printed(n, c) == Repeat(' ', spaces) +
        (Sign(true, n < 0, c) + (Repeat('0', zeros) + Digits(v, DECIMAL, c) + Repeat(' ', trailing)))
  {
    var v := if n < 0 then 0 - n else n;
    var (sign, digits) := (Sign(true, n < 0, c), Digits(v, DECIMAL, c));
    var pad := PadCnt(sign, "", digits, c);
    spaces := if !c.minus && !c.zero then pad else 0;
    zeros := if c.zero then pad else 0;
    trailing := if c.minus then pad else 0;
    assert Prefix(v, DECIMAL, c) == "";
    Regrouped(Repeat(' ', spaces), sign, Repeat('0', zeros), digits, Repeat(' ', trailing));
  }

  lemma ParsesParts(v: nat, sign: string, c: Conversion, spaces: nat, zeros: nat, trailing: nat)
    requires sign == "" || sign == " " || sign == "+" || sign == "-"
    ensures
      var body := sign + (Repeat('0', zeros) + Digits(v, DECIMAL, c) + Repeat(' ', trailing));
      var r := Parsed(Repeat(' ', spaces) + body);
      && (sign == "-" ==> r <= 0) && (sign != "-" ==> r >= 0)
      && ((if sign == "-" then 0 - r else r) == v <==> !(c.grouped && v >= 1000))
  {
    ReadsDigits(v, c, zeros, trailing);
    AfterSign(v, c, zeros, trailing);
    ParsesSpaced(spaces, sign, Repeat('0', zeros) + Digits(v, DECIMAL, c) + Repeat(' ', trailing));
  }

  lemma ParsesSpaced(spaces: nat, sign: string, d: string)
    requires sign == "" || sign == " " || sign == "+" || sign == "-"
    requires Trimmed(d) != "" ==> Trimmed(d)[0] != '-' && Trimmed(d)[0] != '+'
    requires ReadDigits(Trimmed(d), 0) == ReadDigits(d, 0)
    ensures Parsed(Repeat(' ', spaces) + (sign + d)) == if sign == "-" then 0 - ReadDigits(d, 0) else ReadDigits(d, 0)
  {
    TrimsSpaces(spaces, sign + d);
    ParsesSign(sign, d);
  }

  lemma Regrouped(a: string, sign: string, zeros: string, digits: string, z: string)
    ensures Field(a, sign, "", zeros, digits, z) == a + (sign + (zeros + digits + z))
  {
  }

  /** Printing an int and reading it back gives it again, for every width, precision and set of flags, exactly
      unless the grouping flag puts a comma in: that is, for a thousand or more either way. */
  lemma PrintThenParse(n: int, c: Conversion)
    ensures Parsed(Printed(n, c)) == n <==> !(c.grouped && (n >= 1000 || n <= -1000))
  {
    var v := if n < 0 then 0 - n else n;
    var spaces, zeros, trailing := PrintedParts(n, c);
    ParsesParts(v, Sign(true, n < 0, c), c, spaces, zeros, trailing);
  }

  /** printf followed by atoi, through the buffer: what fits in it is read back. */
  method PrintAndParse(n: int, c: Conversion, buffer: array<char>) returns (r: int)
    requires FitsInt(n)
    modifies buffer
    ensures |Printed(n, c)| < buffer.Length && !(c.grouped && (n >= 1000 || n <= -1000)) ==> r == n
  {
    var sink := new Sink(buffer);
    FormatInteger(if n < 0 then -n else n, true, n < 0, DECIMAL, c, sink);
    PrintThenParse(n, c);
    assert "" + Printed(n, c) == Printed(n, c);
    r := Atoi(buffer[..sink.p]);
    assert |Printed(n, c)| < buffer.Length ==> buffer[..sink.p] == Printed(n, c);
  }

  // ---------- every base ----------

  /** The value of a digit character. */
  function ValueIn(digits: string, ch: char): nat
    requires ch in digits
  {
    if digits[0] == ch then 0 else 1 + ValueIn(digits[1..], ch)
  }

  /** The number that a string of digits denotes. */
  function Denoted(s: string, b: Base): nat
    requires forall ch :: ch in s ==> ch in b.digits
  {
    if s == "" then 0 else b.base * Denoted(s[..|s| - 1], b) + ValueIn(b.digits, s[|s| - 1])
  }

  ghost predicate Distinct(s: string) {
    forall i, j :: 0 <= i < j < |s| ==> s[i] != s[j]
  }

  lemma {:induction false} ValueOfDigit(digits: string, k: nat)
    requires k < |digits| && Distinct(digits)
    ensures ValueIn(digits, digits[k]) == k
  {
    if k > 0 { ValueOfDigit(digits[1..], k - 1); }
  }

  /** In every base, the numeral of a value denotes it. */
  lemma {:induction false} NumeralDenotes(v: nat, b: Base, cnt: nat)
    requires b.Valid() && Distinct(b.digits)
    ensures
      var s := Numeral(v, b, false, cnt);
      (forall ch :: ch in s ==> ch in b.digits) && Denoted(s, b) == v
    decreases v
  {
    if v > 0 {
      NumeralDenotes(Rest(v, b), b, cnt + 1);
      var head := Numeral(Rest(v, b), b, false, cnt + 1);
      var s := head + [LowDigit(v, b)];
      assert s + "" == s && s[..|s| - 1] == head;
      var k := if b.base == 8 then v % 8 else if b.base == 10 then v % 10 else v % 16;
      ValueOfDigit(b.digits, k);
    }
  }

  function WithoutCommas(s: string): string {
    if s == "" then "" else WithoutCommas(s[..|s| - 1]) + if s[|s| - 1] == ',' then "" else [s[|s| - 1]]
  }

  /** Grouping only puts commas in. */
  lemma {:induction false} GroupingAddsCommas(v: nat, b: Base, cnt: nat)
    requires b.Valid() && ',' !in b.digits
    ensures WithoutCommas(Numeral(v, b, true, cnt)) == Numeral(v, b, false, cnt)
    decreases v
  {
    if v > 0 {
      GroupingAddsCommas(Rest(v, b), b, cnt + 1);
      var head := Numeral(Rest(v, b), b, true, cnt + 1);
      var s := head + [LowDigit(v, b)];
      assert s[..|s| - 1] == head && LowDigit(v, b) != ',';
      if Comma(true, cnt, b) {
        assert (s + ",")[..|s|] == s;
      } else {
        assert s + "" == s;
      }
    }
  }

  predicate Ours(b: Base) {
    b == OCTAL || b == DECIMAL || b == HEX || b == HEX_UPPER
  }

  /** The character code of a digit, where letters start at "a". */
  function DigitCode(k: nat, a: nat): nat {
    if k < 10 then 48 + k else a + (k - 10)
  }

  lemma OurDigit(b: Base, k: nat)
    requires Ours(b) && k < |b.digits|
    ensures b.digits[k] as int == DigitCode(k, if b == HEX then 97 else 65)
  {
    if b == HEX {
      assert HEX.digits[k] as int == DigitCode(k, 97);
    } else if b == HEX_UPPER {
      assert HEX_UPPER.digits[k] as int == DigitCode(k, 65);
    }
  }

  lemma OursAreDistinct(b: Base)
    requires Ours(b)
    ensures b.Valid() && Distinct(b.digits) && ',' !in b.digits
  {
    forall i, j | 0 <= i < j < |b.digits| ensures b.digits[i] != b.digits[j] {
      OurDigit(b, i);
      OurDigit(b, j);
    }
    forall i | 0 <= i < |b.digits| ensures b.digits[i] != ',' {
      OurDigit(b, i);
    }
  }

  lemma {:induction false} CommasGoApart(s: string, t: string)
    ensures WithoutCommas(s + t) == WithoutCommas(s) + WithoutCommas(t)
    decreases |t|
  {
    if t == "" {
      assert s + t == s;
    } else {
      assert (s + t)[..|s + t| - 1] == s + t[..|t| - 1];
      CommasGoApart(s, t[..|t| - 1]);
    }
  }

  lemma {:induction false} NothingToTakeOut(s: string)
    requires forall i :: 0 <= i < |s| ==> s[i] != ','
    ensures WithoutCommas(s) == s
  {
    if s != "" {
      NothingToTakeOut(s[..|s| - 1]);
      assert s == s[..|s| - 1] + [s[|s| - 1]];
    }
  }

  lemma {:induction false} ZerosDenoteNothing(n: nat, s: string, b: Base)
    requires Ours(b) && forall ch :: ch in s ==> ch in b.digits
    ensures
      var z := Repeat('0', n) + s;
      (forall ch :: ch in z ==> ch in b.digits) && Denoted(z, b) == Denoted(s, b)
    decreases |s|, n
  {
    var z := Repeat('0', n) + s;
    assert b.digits[0] == '0';
    forall ch | ch in z ensures ch in b.digits {}
    if s != "" {
      assert z[..|z| - 1] == Repeat('0', n) + s[..|s| - 1];
      ZerosDenoteNothing(n, s[..|s| - 1], b);
    } else if n > 0 {
      assert z[..|z| - 1] == Repeat('0', n - 1) + s && z[|z| - 1] == '0';
      ZerosDenoteNothing(n - 1, s, b);
    } else {
      assert z == s;
    }
  }

  /** In every base and with every flag, the digits that are printed denote the value. */
  lemma DigitsDenote(v: nat, b: Base, c: Conversion)
    requires Ours(b)
    ensures
      var s := WithoutCommas(Digits(v, b, c));
      (forall ch :: ch in s ==> ch in b.digits) && Denoted(s, b) == v
  {
    OursAreDistinct(b);
    var numeral := Numeral(v, b, c.grouped, 0);
    var k: nat := |Digits(v, b, c)| - |numeral|;
    DigitsAreZeros(v, b, c, k);
    CommasGoApart(Repeat('0', k), numeral);
    NothingToTakeOut(Repeat('0', k));
    PlainWithoutCommas(v, b, c.grouped);
    NumeralDenotes(v, b, 0);
    ZerosDenoteNothing(k, Numeral(v, b, false, 0), b);
  }

  lemma DigitsAreZeros(v: nat, b: Base, c: Conversion, k: nat)
    requires b.Valid() && k == |Digits(v, b, c)| - |Numeral(v, b, c.grouped, 0)|
    ensures Digits(v, b, c) == Repeat('0', k) + Numeral(v, b, c.grouped, 0)
  {
    var numeral := Numeral(v, b, c.grouped, 0);
    var precision := if c.precision < 0 then 1 else if c.precision > 63 then 63 else c.precision;
    var n: nat := if precision > |numeral| then precision - |numeral| else 0;
    assert Repeat('0', precision - |numeral|) == Repeat('0', n);
    ZeroInFront(n, numeral);
  }

  lemma ZeroInFront(n: nat, numeral: string)
    ensures "0" + (Repeat('0', n) + numeral) == Repeat('0', n + 1) + numeral
  {
    RepeatFront('0', n + 1);
    assert Repeat('0', n + 1) == "0" + Repeat('0', n);
  }

  lemma PlainWithoutCommas(v: nat, b: Base, grouped: bool)
    requires Ours(b)
    ensures WithoutCommas(Numeral(v, b, grouped, 0)) == Numeral(v, b, false, 0)
  {
    OursAreDistinct(b);
    if grouped { GroupingAddsCommas(v, b, 0); } else { PlainHasNoCommas(v, b, 0); }
  }

  lemma {:induction false} PlainHasNoCommas(v: nat, b: Base, cnt: nat)
    requires b.Valid() && ',' !in b.digits
    ensures WithoutCommas(Numeral(v, b, false, cnt)) == Numeral(v, b, false, cnt)
    decreases v
  {
    if v > 0 {
      var (front, digit) := (Numeral(Rest(v, b), b, false, cnt + 1), [LowDigit(v, b)]);
      PlainHasNoCommas(Rest(v, b), b, cnt + 1);
      assert Numeral(v, b, false, cnt) == front + digit;
      assert (front + digit)[..|front|] == front && LowDigit(v, b) in b.digits;
    }
  }
}
