/** lib/arithmetic.c: 64-bit division built from a 64-by-32-bit divide instruction.
    Machine words are integers with their C range; wrap-around, shifts and truncating
    casts are written out. */
module Arithmetic64 {

  type u32 = x: int | 0 <= x < 0x1_0000_0000
  type u64 = x: int | 0 <= x < 0x1_0000_0000_0000_0000
  type i64 = x: int | -0x8000_0000_0000_0000 <= x < 0x8000_0000_0000_0000

  /** What a division comes to: a value, or the divide error #DE. */
  datatype Outcome = Value(q: int) | Trap

  /** What is left of "x" in an unsigned word that holds the values below "m". */
  function Wrap(x: int, m: int): (r: int)
    requires m > 0
    ensures 0 <= r < m
    decreases if x < 0 then m - x else x
  {
    if 0 <= x < m then x else if x < 0 then Wrap(x + m, m) else Wrap(x - m, m)
  }

  lemma RemainderIs(x: int, m: int, q: int, r: int)
    requires m > 0 && x == q * m + r && 0 <= r < m
    ensures x / m == q && x % m == r
  {
    var (p, t) := (x / m, x % m);
    assert x == p * m + t;
    MultipleGap(p - q, m, r - t) by { assert (p - q) * m == p * m - q * m; }
  }

  lemma MultipleGap(k: int, m: int, g: int)
    requires m > 0 && k * m == g && -m < g < m
    ensures k == 0 && g == 0
  {
    if k >= 1 { MulLe(1, k, m); } else if k <= -1 { MulLe(k, -1, m); }
  }

  lemma MulLe(a: int, b: int, c: nat)
    requires a <= b
    ensures a * c <= b * c
  {
  }

  /** x << k with no bits lost. */
  function Shl(x: nat, k: nat): nat {
    if k == 0 then x else 2 * Shl(x, k - 1)
  }

  lemma {:induction false} ShlAgain(x: nat, a: nat, b: nat)
    ensures Shl(Shl(x, a), b) == Shl(x, a + b)
  {
    if b > 0 { ShlAgain(x, a, b - 1); }
  }

  lemma {:induction false} ShlMonotone(x: nat, y: nat, k: nat)
    ensures x <= y <==> Shl(x, k) <= Shl(y, k)
  {
    if k > 0 { ShlMonotone(x, y, k - 1); }
  }

  lemma {:induction false} ShlLinear(x: nat, c: nat, k: nat)
    ensures Shl(x * c, k) == x * Shl(c, k)
  {
    if k > 0 {
      ShlLinear(x, c, k - 1);
      Swap(2, x, Shl(c, k - 1));
    }
  }

  lemma Swap(a: int, b: int, c: int)
    ensures a * (b * c) == b * (a * c)
  {
  }

  lemma {:induction false} ShlSum(x: nat, y: nat, k: nat)
    ensures Shl(x + y, k) == Shl(x, k) + Shl(y, k)
  {
    if k > 0 { ShlSum(x, y, k - 1); }
  }

  lemma Shl2(x: nat)
    ensures Shl(x, 2) == 4 * x
  {
    assert Shl(x, 2) == 2 * Shl(x, 1);
  }

  lemma Shl4(x: nat)
    ensures Shl(x, 4) == 16 * x
  {
    ShlAgain(x, 2, 2);
    Shl2(x);
    Shl2(Shl(x, 2));
  }

  lemma Shl8(x: nat)
    ensures Shl(x, 8) == 256 * x
  {
    ShlAgain(x, 4, 4);
    Shl4(x);
    Shl4(Shl(x, 4));
  }

  lemma Shl16(x: nat)
    ensures Shl(x, 16) == 0x1_0000 * x
  {
    ShlAgain(x, 8, 8);
    Shl8(x);
    Shl8(Shl(x, 8));
  }

  lemma Shl32(x: nat)
    ensures Shl(x, 32) == 0x1_0000_0000 * x
  {
    ShlAgain(x, 16, 16);
    Shl16(x);
    Shl16(Shl(x, 16));
  }

  // ---------- division facts ----------

  lemma QuotientIs(n: nat, d: nat, q: int)
    requires d > 0 && q * d <= n < (q + 1) * d
    ensures n / d == q
  {
    var r := n / d;
    assert r * d <= n < (r + 1) * d;
    if r < q { MulLe(r + 1, q, d); } else if q < r { MulLe(q + 1, r, d); }
  }

  lemma QuotientAtLeast(n: nat, d: nat, k: int)
    requires d > 0 && k * d <= n
    ensures n / d >= k
  {
    if n / d < k { MulLe(n / d + 1, k, d); }
  }

  lemma QuotientBelow(n: nat, d: nat, k: int)
    requires d > 0 && n < k * d
    ensures n / d < k
  {
    if n / d >= k { MulLe(k, n / d, d); }
  }

  lemma NestedQuotient(n: nat, a: nat, b: nat)
    requires a > 0 && b > 0
    ensures a * b > 0 && n / a / b == n / (a * b)
  {
    var m := n / a;
    var q := m / b;
    assert q * b <= m && m + 1 <= (q + 1) * b;
    MulLe(q * b, m, a);
    MulLe(m + 1, (q + 1) * b, a);
    assert q * b * a == q * (a * b) && (q + 1) * b * a == (q + 1) * (a * b);
    assert m * a <= n < (m + 1) * a;
    QuotientIs(n, a * b, q);
  }

  // ---------- the code ----------

  /** The divl instruction: traps when the divisor is zero or the quotient needs more than 32 bits. */
  method Divl(n: u64, d: u32) returns (r: Outcome)
    ensures r == if d == 0 || n / d >= 0x1_0000_0000 then Trap else Value(n / d)
  {
    if d == 0 {
      r := Trap;
    } else if n / d >= 0x1_0000_0000 {
      r := Trap;
    } else {
      r := Value(n / d);
    }
  }

  /** One of the "if (x <= limit)" statements of nlz: shifts left by k if the top k bits are zero.
      The ghost "least" is what is known to be a lower bound of x. */
  method NlzRound(ghost x0: u32, x: u32, n: nat, limit: u32, k: nat, ghost least: nat) returns (n': nat, x': u32)
    requires x == Shl(x0, n) && least <= x
    requires Shl(limit + 1, k) == 0x1_0000_0000 && Shl(least, k) == limit + 1
    ensures x' == Shl(x0, n') && (n' == n || n' == n + k)
    ensures limit < x'
  {
    n', x' := n, x;
    if x <= limit {
      ShlAgain(x0, n, k);
      ShlMonotone(limit + 1, x, k);
      ShlMonotone(least, x, k);
      n', x' := n + k, Wrap(Shl(x, k), 0x1_0000_0000);
    }
  }

  /** nlz: the number of leading zero bits of a nonzero 32-bit word. */
  method Nlz(x0: u32) returns (n: nat)
    requires x0 != 0
    ensures n <= 31
    ensures 0x8000_0000 <= Shl(x0, n) < 0x1_0000_0000
  {
    var x := x0;
    n := 0;
    Shl16(1);
    Shl16(0x1_0000);
    n, x := NlzRound(x0, x, n, 0x0000FFFF, 16, 1);
    Shl8(0x1_0000);
    Shl8(0x100_0000);
    n, x := NlzRound(x0, x, n, 0x00FFFFFF, 8, 0x1_0000);
    Shl4(0x100_0000);
    Shl4(0x1000_0000);
    n, x := NlzRound(x0, x, n, 0x0FFFFFFF, 4, 0x100_0000);
    Shl2(0x1000_0000);
    Shl2(0x4000_0000);
    n, x := NlzRound(x0, x, n, 0x3FFFFFFF, 2, 0x1000_0000);
    if x <= 0x7FFFFFFF {
      n := n + 1;
    }
  }

  // ---------- the estimate for a wide divisor ----------
  // v holds the top 32 bits of d shifted left by s, until its top bit is set; P is 2^(32-s).

  /** v * P is d with its low bits cut off. */
  lemma CutOff(d: nat, s: nat, P: nat, v: nat)
    requires Shl(P, s) == 0x1_0000_0000 && v == Shl(d, s) / 0x1_0000_0000
    ensures v * P <= d < v * P + P
  {
    ShlLinear(v, P, s);
    ShlSum(v * P, P, s);
    ShlMonotone(v * P, d, s);
    ShlMonotone(v * P + P, d, s);
  }

  /** What is cut off is too little to matter twice. */
  lemma Slack(Q: nat, S: nat, P: nat, V: nat, rest: nat)
    requires S >= 1 && S * P == 0x1_0000_0000 && (P == 2 || P >= 4)
    requires 0x8000_0000 * P <= V && Q < 2 * S && rest < P
    ensures (Q + 1) * rest <= V
  {
    MulLe(rest, P - 1, Q + 1);
    MulLe(Q + 1, 2 * S, P - 1);
    assert 2 * S * (P - 1) == 0x2_0000_0000 - 2 * S;
    if P == 2 { assert S == 0x8000_0000; }
  }

  lemma Bracket(n: nat, d: nat, V: nat, rest: nat)
    requires V > 0 && d == V + rest && (n / d + 1) * rest <= V
    ensures n / d <= n / V <= n / d + 1
  {
    var Q := n / d;
    assert Q * d <= n < (Q + 1) * d;
    MulLe(V, d, Q);
    QuotientAtLeast(n, V, Q);
    assert (Q + 1) * d == (Q + 1) * V + (Q + 1) * rest;
    assert (Q + 2) * V == (Q + 1) * V + V;
    QuotientBelow(n, V, Q + 2);
  }

  /** Cutting the low bits of d off makes the quotient too large by at most one. */
  lemma EstimateIsClose(n: u64, d: u64, s: nat, P: nat, v: nat)
    requires 0 < d && s <= 31 && P == Shl(1, 32 - s) && 0x8000_0000_0000_0000 <= Shl(d, s)
      && v == Shl(d, s) / 0x1_0000_0000
    ensures 0x8000_0000 <= v && v * P > 0 && n / d <= n / (v * P) <= n / d + 1
  {
    TopBits(Shl(d, s));
    Powers(s);
    CutOff(d, s, P, v);
    MulLe(0x8000_0000, v, P);
    var V := v * P;
    CloseEnough(n, d, s, P, V);
  }

  lemma CloseEnough(n: u64, d: u64, s: nat, P: nat, V: nat)
    requires 0 < d && s <= 31 && P == Shl(1, 32 - s) && 0x8000_0000_0000_0000 <= Shl(d, s)
    requires 0 < P && 0x8000_0000 * P <= V <= d < V + P
    ensures n / d <= n / V <= n / d + 1
  {
    Powers(s);
    SmallQuotient(n, d, s);
    QuotientAtLeast(n, d, 0);
    var Q := n / d;
    Slack(Q, Shl(1, s), P, V, d - V);
    Bracket(n, d, V, d - V);
  }

  lemma SmallQuotient(n: u64, d: nat, s: nat)
    requires 0 < d && 0x8000_0000_0000_0000 <= Shl(d, s)
    ensures n / d < 2 * Shl(1, s)
  {
    var S := Shl(1, s);
    ShlLinear(d, 1, s);
    assert 2 * S * d == 2 * (d * S);
    QuotientBelow(n, d, 2 * S);
  }

  lemma TopBits(x: nat)
    requires 0x8000_0000_0000_0000 <= x
    ensures 0x8000_0000 <= x / 0x1_0000_0000
  {
  }

  /** The two powers of two that a shift splits 2^32 into. */
  lemma Powers(s: nat)
    requires s <= 31
    ensures Shl(Shl(1, 32 - s), s) == 0x1_0000_0000
    ensures Shl(1, s) >= 1 && Shl(1, s) * Shl(1, 32 - s) == 0x1_0000_0000
    ensures Shl(1, 32 - s) == 2 || Shl(1, 32 - s) >= 4
  {
    ShlAgain(1, 32 - s, s);
    Shl32(1);
    ShlLinear(Shl(1, 32 - s), 1, s);
    ShlMonotone(1, 1, s);
    Positive(s);
    Positive(31 - s);
    if s < 31 { Positive(30 - s); }
  }

  lemma {:induction false} Positive(k: nat)
    ensures Shl(1, k) >= 1
  {
    if k > 0 { Positive(k - 1); }
  }

  /** udiv64: never traps unless the divisor is zero, and then gives the floor of the quotient. */
  method Udiv64(n: u64, d: u64) returns (r: Outcome)
    ensures r == if d == 0 then Trap else Value(n / d)
  {
    if d / 0x1_0000_0000 == 0 {
      r := NarrowUdiv64(n, d);
    } else if n < d {
      QuotientIs(n, d, 0);
      return Value(0);
    } else {
      r := WideUdiv64(n, d);
    }
  }

  /** The branch of udiv64 for 32-bit divisors; its % and / trap on a zero divisor. */
  method NarrowUdiv64(n: u64, d: u32) returns (r: Outcome)
    ensures r == if d == 0 then Trap else Value(n / d)
  {
    if d == 0 { return Trap; }
    var n1, n0, d0 := n / 0x1_0000_0000, n % 0x1_0000_0000, d;
    var t := Wrap(0x1_0000_0000 * (n1 % d0) + n0, 0x1_0000_0000_0000_0000);
    NarrowQuotient(n, n1, n0, d0, t);
    var q := Divl(t, d0);
    r := Value(Wrap(q.q + 0x1_0000_0000 * (n1 / d0), 0x1_0000_0000_0000_0000));
  }

  /** The branch of udiv64 for divisors of more than 32 bits. */
  method WideUdiv64(n: u64, d: u64) returns (r: Outcome)
    requires 0x1_0000_0000 <= d <= n
    ensures r == Value(n / d)
  {
    var d1 := d / 0x1_0000_0000;
    var s := Nlz(d1);
    WideDivisor(d, s);
    var v := Wrap(Shl(d, s), 0x1_0000_0000_0000_0000) / 0x1_0000_0000;
    EstimateIsClose(n, d, s, Shl(1, 32 - s), v);
    WideQuotient(n, v, s);
    var e := Divl(n / 2, v);
    var q := e.q / Shl(1, 31 - s);
    Corrected(n, d, q);
    r := Value(
      if Wrap(n - Wrap(Wrap(q - 1, 0x1_0000_0000_0000_0000) * d, 0x1_0000_0000_0000_0000), 0x1_0000_0000_0000_0000) < d
      then Wrap(q - 1, 0x1_0000_0000_0000_0000) else q);
  }

  /** Long division by a 32-bit divisor, one 32-bit digit at a time; nothing in it wraps. */
  lemma NarrowQuotient(n: u64, n1: nat, n0: nat, d: u32, t: nat)
    requires d > 0 && n1 == n / 0x1_0000_0000 && n0 == n % 0x1_0000_0000
    requires t == Wrap(0x1_0000_0000 * (n1 % d) + n0, 0x1_0000_0000_0000_0000)
    ensures t / d < 0x1_0000_0000 && Wrap(t / d + 0x1_0000_0000 * (n1 / d), 0x1_0000_0000_0000_0000) == n / d
  {
    var (a, b) := (n1 % d, n1 / d);
    MulLe(a, d - 1, 0x1_0000_0000);
    assert t == 0x1_0000_0000 * a + n0;
    DigitFits(t, d);
    LongDivision(n, n1, n0, d, a, b, t / d);
    QuotientBelow(n, d, 0x1_0000_0000_0000_0000) by { MulLe(1, d, 0x1_0000_0000_0000_0000); }
  }

  lemma DigitFits(t: nat, d: u32)
    requires d > 0 && t < 0x1_0000_0000 * d
    ensures t / d < 0x1_0000_0000
  {
    QuotientBelow(t, d, 0x1_0000_0000);
  }

  lemma LongDivision(n: nat, n1: nat, n0: nat, d: nat, a: nat, b: nat, q: nat)
    requires d > 0 && n == 0x1_0000_0000 * n1 + n0 && n1 == b * d + a && q == (0x1_0000_0000 * a + n0) / d
    ensures n / d == q + 0x1_0000_0000 * b
  {
    var t := 0x1_0000_0000 * a + n0;
    assert q * d <= t < (q + 1) * d;
    assert (q + 0x1_0000_0000 * b) * d == q * d + 0x1_0000_0000 * (b * d);
    assert (q + 0x1_0000_0000 * b + 1) * d == (q + 1) * d + 0x1_0000_0000 * (b * d);
    QuotientIs(n, d, q + 0x1_0000_0000 * b);
  }

  /** Shifting by the leading zeros of the high word normalises the whole divisor. */
  lemma WideDivisor(d: u64, s: nat)
    requires s <= 31 && 0x8000_0000 <= Shl(d / 0x1_0000_0000, s) < 0x1_0000_0000
    ensures 0x8000_0000_0000_0000 <= Shl(d, s) < 0x1_0000_0000_0000_0000
  {
    var (d1, d0, P) := (d / 0x1_0000_0000, d % 0x1_0000_0000, Shl(1, 32 - s));
    Powers(s);
    ShlMonotone(P, d1, s);  // d1 < P
    ShlMonotone(0x1_0000_0000 * d1, d, s);
    ShlLinear(0x1_0000_0000, d1, s);
    ShlMonotone(0x1_0000_0000 * P, d, s);
    ShlLinear(0x1_0000_0000, P, s);
  }

  /** The two shifts and the divl together divide by v * 2^(32-s), and divl does not trap. */
  lemma WideQuotient(n: u64, v: nat, s: nat)
    requires s <= 31 && 0x8000_0000 <= v
    ensures n / 2 / v < 0x1_0000_0000
    ensures Shl(1, 31 - s) >= 1 && n / 2 / v / Shl(1, 31 - s) == n / (v * Shl(1, 32 - s))
  {
    var p := Shl(1, 31 - s);
    Positive(31 - s);
    MulLe(0x8000_0000, v, 0x1_0000_0000);
    QuotientBelow(n / 2, v, 0x1_0000_0000);
    NestedQuotient(n, 2, v);
    NestedQuotient(n, 2 * v, p);
    assert 2 * v * p == v * (2 * p);
  }

  /** The last comparison picks the true quotient, and nothing in it wraps. */
  lemma Corrected(n: u64, d: u64, q: nat)
    requires 0x1_0000_0000 <= d <= n && n / d <= q <= n / d + 1
    ensures var q' := Wrap(q - 1, 0x1_0000_0000_0000_0000);
      (if Wrap(n - Wrap(q' * d, 0x1_0000_0000_0000_0000), 0x1_0000_0000_0000_0000) < d then q' else q) == n / d
  {
    QuotientAtLeast(n, d, 1);
    MulLe(0x1_0000_0000, d, 0x1_0000_0000);
    QuotientBelow(n, d, 0x1_0000_0000);
    BackOff(n, d, q);
  }

  lemma BackOff(n: nat, d: nat, q: nat)
    requires 0 < d && 1 <= n / d <= q <= n / d + 1
    ensures 0 <= (q - 1) * d <= n
    ensures n - (q - 1) * d < d <==> q == n / d + 1
  {
    var Q := n / d;
    assert Q * d <= n < (Q + 1) * d;
    assert (Q - 1) * d == Q * d - d && (Q + 1) * d == Q * d + d;
    MulLe(0, q - 1, d);
  }

  // ---------- signed division and the remainders ----------

  function Abs(x: int): nat {
    if x < 0 then -x else x
  }

  /** The cast of an unsigned word of "m" values to the signed word of the same width. */
  function Signed(x: nat, m: nat): int {
    if 2 * x < m then x else x - m
  }

  /** The quotient that C calls for: that of the magnitudes, with the sign of n / d. */
  function TruncatedQuotient(n: int, d: int): int
    requires d != 0
  {
    var q := Abs(n) / Abs(d);
    if (n < 0) == (d < 0) then q else -q
  }

  /** Section 6.5.5 of ISO/IEC 9899:2011: the fraction is discarded, so the remainder is smaller
      than the divisor and has the sign of the dividend. */
  lemma TruncationTowardZero(n: int, d: int)
    requires d != 0
    ensures var r := n - d * TruncatedQuotient(n, d);
      Abs(r) < Abs(d) && (r != 0 ==> (r < 0 <==> n < 0)) && Abs(r) == Abs(n) % Abs(d)
  {
    var a, b: int := Abs(n), Abs(d);
    var q, r := a / b, a % b;
    Negations(b, q);
    var t := TruncatedQuotient(n, d);
    assert d * t == if n < 0 then 0 - b * q else b * q;
    assert n - d * t == if n < 0 then 0 - r else r;
  }

  lemma Negations(b: int, q: int)
    ensures (0 - b) * q == 0 - b * q && b * (0 - q) == 0 - b * q && (0 - b) * (0 - q) == b * q
  {
  }

  /** Casting a magnitude to int64 and negating there gives the signed value, in wrap-around too. */
  lemma CastBack(q: nat)
    requires q <= 0x8000_0000_0000_0000
    ensures Signed(q, 0x1_0000_0000_0000_0000) == if q == 0x8000_0000_0000_0000 then 0 - q else q
    ensures Signed(Wrap(0 - Signed(q, 0x1_0000_0000_0000_0000), 0x1_0000_0000_0000_0000), 0x1_0000_0000_0000_0000)
      == 0 - q
  {
  }

  /** sdiv64: truncates toward zero, except where the quotient 2^63 does not fit. */
  method Sdiv64(n: i64, d: i64) returns (r: Outcome)
    ensures r == if d == 0 then Trap
                 else if n == -0x8000_0000_0000_0000 && d == -1 then Value(-0x8000_0000_0000_0000)
                 else Value(TruncatedQuotient(n, d))
  {
    var nAbs: int := if n >= 0 then n else Wrap(0 - Wrap(n, 0x1_0000_0000_0000_0000), 0x1_0000_0000_0000_0000);
    var dAbs: int := if d >= 0 then d else Wrap(0 - Wrap(d, 0x1_0000_0000_0000_0000), 0x1_0000_0000_0000_0000);
    Magnitude(n);
    Magnitude(d);
    var q := Udiv64(nAbs, dAbs);
    match q
    case Trap => r := Trap;
    case Value(qAbs) =>
      MagnitudeFits(n, d);
      CastBack(qAbs);
      var cast := Signed(qAbs, 0x1_0000_0000_0000_0000);
      r := Value(if (n < 0) == (d < 0) then cast
                 else Signed(Wrap(0 - cast, 0x1_0000_0000_0000_0000), 0x1_0000_0000_0000_0000));
  }

  lemma Magnitude(n: i64)
    ensures n < 0 ==> Wrap(0 - Wrap(n, 0x1_0000_0000_0000_0000), 0x1_0000_0000_0000_0000) == Abs(n)
  {
    if n < 0 { assert Wrap(n, 0x1_0000_0000_0000_0000) == n + 0x1_0000_0000_0000_0000; }
  }

  /** Only INT64_MIN / 1 and INT64_MIN / -1 have a quotient of magnitude 2^63. */
  lemma MagnitudeFits(n: i64, d: i64)
    requires d != 0
    ensures 0 <= Abs(n) / Abs(d) <= 0x8000_0000_0000_0000
    ensures Abs(n) / Abs(d) == 0x8000_0000_0000_0000 <==> n == -0x8000_0000_0000_0000 && Abs(d) == 1
  {
    var (a, b) := (Abs(n), Abs(d));
    QuotientAtLeast(a, b, 0);
    if b == 1 {
      QuotientIs(a, b, a);
    } else {
      MulLe(2, b, 0x4000_0000_0000_0001);
      QuotientBelow(a, b, 0x4000_0000_0000_0001);
    }
  }

  /** umod64: the remainder, cut to the 32 bits of the return type. */
  method Umod64(n: u64, d: u64) returns (r: Outcome)
    ensures r == if d == 0 then Trap else Value(Wrap(n % d, 0x1_0000_0000))
  {
    var q := Udiv64(n, d);
    match q
    case Trap => r := Trap;
    case Value(q) =>
      RemainderOf(n, d);
      r := Value(Wrap(Wrap(n - d * q, 0x1_0000_0000_0000_0000), 0x1_0000_0000));
  }

  lemma RemainderOf(n: u64, d: u64)
    requires d > 0
    ensures n - d * (n / d) == n % d < 0x1_0000_0000_0000_0000 && 0 <= n % d
  {
  }

  /** smod64: the remainder of truncated division, cut to the 32 bits of the return type. */
  method Smod64(n: i64, d: i64) returns (r: Outcome)
    ensures r == if d == 0 then Trap
                 else Value(SmodValue(n, d))
  {
    var q := Sdiv64(n, d);
    match q
    case Trap => r := Trap;
    case Value(q) =>
      RestFits(n, d, q);
      var rest := Signed(Wrap(n - d * q, 0x1_0000_0000_0000_0000), 0x1_0000_0000_0000_0000);
      r := Value(Signed(Wrap(rest, 0x1_0000_0000), 0x1_0000_0000));
  }

  /** The 64-bit subtraction wraps in the one overflowing case only, and still gives the remainder. */
  lemma RestFits(n: i64, d: i64, q: int)
    requires d != 0
    requires q == if n == -0x8000_0000_0000_0000 && d == -1 then -0x8000_0000_0000_0000 else TruncatedQuotient(n, d)
    ensures Signed(Wrap(n - d * q, 0x1_0000_0000_0000_0000), 0x1_0000_0000_0000_0000) == n - d * TruncatedQuotient(n, d)
  {
    if n == -0x8000_0000_0000_0000 && d == -1 {
      QuotientIs(Abs(n), 1, Abs(n));
      assert n - d * q == -0x1_0000_0000_0000_0000;
      assert Wrap(-0x1_0000_0000_0000_0000, 0x1_0000_0000_0000_0000) == Wrap(0, 0x1_0000_0000_0000_0000);
    } else {
      TruncationTowardZero(n, d);
      SmallRoundTrip(n - d * q);
    }
  }

  lemma SmallRoundTrip(x: int)
    requires Abs(x) < 0x8000_0000_0000_0000
    ensures Signed(Wrap(x, 0x1_0000_0000_0000_0000), 0x1_0000_0000_0000_0000) == x
  {
  }

  /** __umoddi3 is promised to be the 64-bit remainder.  It is for every n just when d <= 2^32. */
  lemma UmodIsRemainder(d: u64)
    requires d > 0
    ensures (forall n: u64 :: Wrap(n % d, 0x1_0000_0000) == n % d) <==> d <= 0x1_0000_0000
  {
    if d <= 0x1_0000_0000 {
      forall n: u64 ensures Wrap(n % d, 0x1_0000_0000) == n % d { RemainderOf(n, d); }
    } else {
      var n: u64 := d - 1;
      RemainderIs(n, d, 0, n);
      assert Wrap(n % d, 0x1_0000_0000) != n % d;
    }
  }

  /** __moddi3 is the signed remainder for every n just when |d| <= 2^31. */
  lemma SmodIsRemainder(d: i64)
    requires d != 0
    ensures (forall n: i64 :: SmodValue(n, d) == n - d * TruncatedQuotient(n, d)) <==> Abs(d) <= 0x8000_0000
  {
    if Abs(d) <= 0x8000_0000 {
      forall n: i64 ensures SmodValue(n, d) == n - d * TruncatedQuotient(n, d) {
        TruncationTowardZero(n, d);
        SignedRoundTrip(n - d * TruncatedQuotient(n, d));
      }
    } else {
      var n: i64 := 0x8000_0000;
      QuotientIs(n, Abs(d), 0);
      assert d * TruncatedQuotient(n, d) == 0;
      assert SmodValue(n, d) == -0x8000_0000;
    }
  }

  function SmodValue(n: int, d: int): int
    requires d != 0
  {
    Signed(Wrap(n - d * TruncatedQuotient(n, d), 0x1_0000_0000), 0x1_0000_0000)
  }

  lemma SignedRoundTrip(x: int)
    requires Abs(x) < 0x8000_0000
    ensures Signed(Wrap(x, 0x1_0000_0000), 0x1_0000_0000) == x
  {
  }
}
