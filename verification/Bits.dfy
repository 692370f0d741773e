/** Machine words as numbers, and what or, and, exclusive or and complement do to their bits. */
module Bits {

  /** Bit "k" of a word. */
  function Bit(w: nat, k: nat): bool {
    if k == 0 then w % 2 == 1 else Bit(w / 2, k - 1)
  }

  function Digit(b: bool): nat { if b then 1 else 0 }

  function Or(a: nat, b: nat): nat {
    if a == 0 then b else if b == 0 then a else Digit(a % 2 == 1 || b % 2 == 1) + 2 * Or(a / 2, b / 2)
  }

  function And(a: nat, b: nat): nat {
    if a == 0 || b == 0 then 0 else Digit(a % 2 == 1 && b % 2 == 1) + 2 * And(a / 2, b / 2)
  }

  function Xor(a: nat, b: nat): nat {
    if a == 0 then b else if b == 0 then a else Digit(a % 2 != b % 2) + 2 * Xor(a / 2, b / 2)
  }

  /** The complement of the low "n" bits. */
  function Not(n: nat, a: nat): nat {
    if n == 0 then 0 else Digit(a % 2 == 0) + 2 * Not(n - 1, a / 2)
  }

  /** 1 << k */
  function Mask(k: nat): nat {
    if k == 0 then 1 else 2 * Mask(k - 1)
  }

  lemma HalfOfDigit(d: nat, h: nat)
    requires d < 2
    ensures (d + 2 * h) / 2 == h && (d + 2 * h) % 2 == d
  {
  }

  lemma {:induction false} ZeroHasNoBits(k: nat)
    ensures !Bit(0, k)
  {
    if k > 0 { ZeroHasNoBits(k - 1); }
  }

  lemma {:induction false} BitOfOr(a: nat, b: nat, k: nat)
    ensures Bit(Or(a, b), k) <==> Bit(a, k) || Bit(b, k)
  {
    if a == 0 || b == 0 {
      ZeroHasNoBits(k);
    } else {
      HalfOfDigit(Digit(a % 2 == 1 || b % 2 == 1), Or(a / 2, b / 2));
      if k > 0 { BitOfOr(a / 2, b / 2, k - 1); }
    }
  }

  lemma {:induction false} BitOfAnd(a: nat, b: nat, k: nat)
    ensures Bit(And(a, b), k) <==> Bit(a, k) && Bit(b, k)
  {
    if a == 0 || b == 0 {
      ZeroHasNoBits(k);
    } else {
      HalfOfDigit(Digit(a % 2 == 1 && b % 2 == 1), And(a / 2, b / 2));
      if k > 0 { BitOfAnd(a / 2, b / 2, k - 1); }
    }
  }

  lemma {:induction false} BitOfXor(a: nat, b: nat, k: nat)
    ensures Bit(Xor(a, b), k) <==> Bit(a, k) != Bit(b, k)
  {
    if a == 0 || b == 0 {
      ZeroHasNoBits(k);
    } else {
      HalfOfDigit(Digit(a % 2 != b % 2), Xor(a / 2, b / 2));
      if k > 0 { BitOfXor(a / 2, b / 2, k - 1); }
    }
  }

  lemma {:induction false} BitOfNot(n: nat, a: nat, k: nat)
    ensures Bit(Not(n, a), k) <==> k < n && !Bit(a, k)
  {
    if n == 0 {
      ZeroHasNoBits(k);
    } else {
      HalfOfDigit(Digit(a % 2 == 0), Not(n - 1, a / 2));
      if k > 0 { BitOfNot(n - 1, a / 2, k - 1); }
    }
  }

  lemma {:induction false} BitOfMask(k: nat, j: nat)
    ensures Bit(Mask(k), j) <==> j == k
  {
    if k == 0 {
      if j > 0 { ZeroHasNoBits(j - 1); }
    } else {
      HalfOfDigit(0, Mask(k - 1));
      if j > 0 { BitOfMask(k - 1, j - 1); }
    }
  }

  lemma MarkedBit(w: nat, k: nat, j: nat)
    ensures Bit(Or(w, Mask(k)), j) <==> Bit(w, j) || j == k
  {
    BitOfOr(w, Mask(k), j);
    BitOfMask(k, j);
  }

  lemma ClearedBit(w: nat, k: nat, j: nat)
    requires j < 64
    ensures Bit(And(w, Not(64, Mask(k))), j) <==> Bit(w, j) && j != k
  {
    BitOfAnd(w, Not(64, Mask(k)), j);
    BitOfNot(64, Mask(k), j);
    BitOfMask(k, j);
  }

  lemma FlippedBit(w: nat, k: nat, j: nat)
    ensures Bit(Xor(w, Mask(k)), j) <==> Bit(w, j) != (j == k)
  {
    BitOfXor(w, Mask(k), j);
    BitOfMask(k, j);
  }

  lemma ClearingFits(w: nat, k: nat)
    requires w < Limit(64) && k < 64
    ensures And(w, Not(64, Mask(k))) < Limit(64)
  {
    MaskFits(64, k);
    WordsFit(64, Mask(k), Mask(k));
    WordsFit(64, w, Not(64, Mask(k)));
  }

  /** A word that is not zero has a bit. */
  lemma {:induction false} SomeBit(w: nat) returns (k: nat)
    requires w != 0
    ensures Bit(w, k)
  {
    if w % 2 == 1 {
      k := 0;
    } else {
      var j := SomeBit(w / 2);
      k := j + 1;
    }
  }

  /** The test (w & mask) != 0. */
  lemma TestOfBit(w: nat, k: nat)
    ensures And(w, Mask(k)) != 0 <==> Bit(w, k)
  {
    BitOfMask(k, k);
    BitOfAnd(w, Mask(k), k);
    ZeroHasNoBits(k);
    if And(w, Mask(k)) != 0 {
      var j := SomeBit(And(w, Mask(k)));
      BitOfAnd(w, Mask(k), j);
      BitOfMask(k, j);
    }
  }

  /** A word that fits in "n" bits. */
  function Limit(n: nat): nat {
    if n == 0 then 1 else 2 * Limit(n - 1)
  }

  lemma {:induction false} WordsFit(n: nat, a: nat, b: nat)
    requires a < Limit(n) && b < Limit(n)
    ensures Or(a, b) < Limit(n) && And(a, b) < Limit(n) && Xor(a, b) < Limit(n) && Not(n, a) < Limit(n)
  {
    if n > 0 { WordsFit(n - 1, a / 2, b / 2); }
  }

  lemma {:induction false} MaskFits(n: nat, k: nat)
    requires k < n
    ensures Mask(k) < Limit(n)
  {
    if k > 0 { MaskFits(n - 1, k - 1); } else { LimitPositive(n - 1); }
  }

  lemma {:induction false} LimitPositive(n: nat)
    ensures Limit(n) >= 1
  {
    if n > 0 { LimitPositive(n - 1); }
  }
}
