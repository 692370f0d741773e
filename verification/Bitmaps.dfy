/** lib/kernel/bitmap.c: an array of bits in an array of 64-bit words. */
module Bitmaps {
  import opened Bits
  import opened Sequences

  /** DIV_ROUND_UP (bit_cnt, ELEM_BITS) */
  function ElemCnt(bitCnt: nat): nat { (bitCnt + 63) / 64 }

  /** All of the "cnt" bits from "start" have the value. */
  predicate AllAre(bits: seq<bool>, start: nat, cnt: nat, value: bool)
    requires start + cnt <= |bits|
  {
    forall i :: start <= i < start + cnt ==> bits[i] == value
  }

  ghost function SetRange(bits: seq<bool>, start: nat, cnt: nat, value: bool): (r: seq<bool>)
    ensures |r| == |bits|
    ensures forall i :: 0 <= i < |bits| ==> r[i] == if start <= i < start + cnt then value else bits[i]
  {
    seq(|bits|, i requires 0 <= i < |bits| => if start <= i < start + cnt then value else bits[i])
  }

  /** The first group of "cnt" bits at or after "start" that all have the value. */
  ghost predicate IsFirstRun(bits: seq<bool>, start: nat, cnt: nat, value: bool, r: Option<nat>) {
    match r
    case Some(i) =>
      && start <= i && i + cnt <= |bits| && AllAre(bits, i, cnt, value)
      && forall j :: start <= j < i ==> !AllAre(bits, j, cnt, value)
    case None => forall j :: start <= j && j + cnt <= |bits| ==> !AllAre(bits, j, cnt, value)
  }

  ghost function FitFrom(bits: seq<bool>, cnt: nat, i: nat): (r: Option<nat>)
    requires forall j :: 0 <= j < i && j + cnt <= |bits| ==> !AllAre(bits, j, cnt, false)
    ensures IsFirstRun(bits, 0, cnt, false, r)
    decreases |bits| - i
  {
    if i + cnt > |bits| then None else if AllAre(bits, i, cnt, false) then Some(i) else FitFrom(bits, cnt, i + 1)
  }

  /** Where a first-fit allocator finds room. */
  ghost function FirstFit(bits: seq<bool>, cnt: nat): (r: Option<nat>)
    ensures IsFirstRun(bits, 0, cnt, false, r)
  {
    FitFrom(bits, cnt, 0)
  }

  /** There is only one first run. */
  lemma FirstRunIsFirstFit(bits: seq<bool>, cnt: nat, r: Option<nat>)
    requires IsFirstRun(bits, 0, cnt, false, r)
    ensures r == FirstFit(bits, cnt)
  {
    var f := FirstFit(bits, cnt);
    if r.Some? && f.Some? {
      if r.value < f.value { assert false; }
      if f.value < r.value { assert false; }
    }
  }

  /** No bits at all are found at once. */
  lemma EmptyRun(bits: seq<bool>, start: nat, cnt: nat, value: bool, r: Option<nat>)
    requires IsFirstRun(bits, start, cnt, value, r) && start <= |bits|
    ensures cnt == 0 ==> r == Some(start)
  {
    assert cnt == 0 ==> AllAre(bits, start, 0, value);
  }

  /** Two bits at the same place in the same word are one. */
  lemma SameWord(i: nat, j: nat)
    requires i / 64 == j / 64
    ensures i % 64 == j % 64 <==> i == j
  {
  }

  class Bitmap {
    const bitCnt: nat
    const bits: array<nat>

    ghost predicate Valid()
      reads this, bits
    {
      bits.Length == ElemCnt(bitCnt) && forall w :: 0 <= w < bits.Length ==> bits[w] < Limit(64)
    }

    /** The array of bits that the words stand for. */
    ghost function View(): (s: seq<bool>)
      requires Valid()
      reads this, bits
      ensures |s| == bitCnt && forall i :: 0 <= i < bitCnt ==> s[i] == Bit(bits[i / 64], i % 64)
    {
      seq(bitCnt, i requires 0 <= i < bitCnt reads bits => Bit(bits[i / 64], i % 64))
    }

    /** bitmap_create */
    constructor (n: nat)
      ensures Valid() && fresh(bits) && bitCnt == n && View() == seq(n, _ => false)
    {
      bitCnt := n;
      bits := new nat[ElemCnt(n)](_ => 0);
      new;
      LimitPositive(64);
      forall i | 0 <= i < n ensures !Bit(bits[i / 64], i % 64) { ZeroHasNoBits(i % 64); }
    }

    /** The store of the word that holds one bit: the other bits of the word are as they were. */
    method StoreWord(idx: nat, word: nat, ghost value: bool)
      requires Valid() && idx < bitCnt && word < Limit(64)
      requires forall k :: 0 <= k < 64 ==> Bit(word, k) == if k == idx % 64 then value else Bit(bits[idx / 64], k)
      modifies bits
      ensures Valid() && View() == old(View())[idx := value]
    {
      bits[idx / 64] := word;
      forall i | 0 <= i < bitCnt ensures View()[i] == old(View())[idx := value][i] {
        if i / 64 == idx / 64 { SameWord(i, idx); }
      }
    }

    /** bitmap_mark */
    method Mark(idx: nat)
      requires Valid() && idx < bitCnt
      modifies bits
      ensures Valid() && View() == old(View())[idx := true]
    {
      var mask := Mask(idx % 64);
      MaskFits(64, idx % 64);
      WordsFit(64, bits[idx / 64], mask);
      forall k | 0 <= k < 64 { MarkedBit(bits[idx / 64], idx % 64, k); }
      StoreWord(idx, Or(bits[idx / 64], mask), true);
    }

    /** bitmap_reset */
    method Reset(idx: nat)
      requires Valid() && idx < bitCnt
      modifies bits
      ensures Valid() && View() == old(View())[idx := false]
    {
      var mask := Mask(idx % 64);
      ClearingFits(bits[idx / 64], idx % 64);
      forall k | 0 <= k < 64 { ClearedBit(bits[idx / 64], idx % 64, k); }
      StoreWord(idx, And(bits[idx / 64], Not(64, mask)), false);
    }

    /** bitmap_flip */
    method Flip(idx: nat)
      requires Valid() && idx < bitCnt
      modifies bits
      ensures Valid() && View() == old(View())[idx := !old(View())[idx]]
    {
      var mask := Mask(idx % 64);
      MaskFits(64, idx % 64);
      WordsFit(64, bits[idx / 64], mask);
      forall k | 0 <= k < 64 { FlippedBit(bits[idx / 64], idx % 64, k); }
      StoreWord(idx, Xor(bits[idx / 64], mask), !View()[idx]);
    }

    /** bitmap_test */
    function Test(idx: nat): (b: bool)
      requires Valid() && idx < bitCnt
      reads this, bits
      ensures b == View()[idx]
    {
      TestOfBit(bits[idx / 64], idx % 64);
      And(bits[idx / 64], Mask(idx % 64)) != 0
    }

    /** bitmap_set */
    method Set(idx: nat, value: bool)
      requires Valid() && idx < bitCnt
      modifies bits
      ensures Valid() && View() == old(View())[idx := value]
    {
      if value { Mark(idx); } else { Reset(idx); }
    }

    /** bitmap_set_multiple */
    method SetMultiple(start: nat, cnt: nat, value: bool)
      requires Valid() && start + cnt <= bitCnt
      modifies bits
      ensures Valid() && View() == SetRange(old(View()), start, cnt, value)
    {
      ghost var before := View();
      var i := 0;
      while i < cnt
        invariant 0 <= i <= cnt && Valid() && View() == SetRange(before, start, i, value)
      {
        Set(start + i, value);
        assert View() == SetRange(before, start, i + 1, value);
        i := i + 1;
      }
    }

    /** bitmap_contains */
    method Contains(start: nat, cnt: nat, value: bool) returns (any: bool)
      requires Valid() && start + cnt <= bitCnt
      ensures any <==> !AllAre(View(), start, cnt, !value)
    {
      var i := 0;
      while i < cnt
        invariant 0 <= i <= cnt && AllAre(View(), start, i, !value)
      {
        if Test(start + i) == value {
          return true;
        }
        i := i + 1;
      }
      any := false;
    }

    /** bitmap_scan */
    method Scan(start: nat, cnt: nat, value: bool) returns (r: Option<nat>)
      requires Valid() && start <= bitCnt
      ensures IsFirstRun(View(), start, cnt, value, r)
    {
      if cnt <= bitCnt {
        var last := bitCnt - cnt;
        var i := start;
        while i <= last
          invariant start <= i <= bitCnt + 1
          invariant forall j :: start <= j < i && j + cnt <= bitCnt ==> !AllAre(View(), j, cnt, value)
          decreases bitCnt + 1 - i
        {
          var other := Contains(i, cnt, !value);
          if !other {
            return Some(i);
          }
          i := i + 1;
        }
      }
      r := None;
    }

    /** bitmap_scan_and_flip.  With "cnt" zero it returns "start". */
    method ScanAndFlip(start: nat, cnt: nat, value: bool) returns (r: Option<nat>)
      requires Valid() && start <= bitCnt
      modifies bits
      ensures Valid() && IsFirstRun(old(View()), start, cnt, value, r)
      ensures View() == if r.Some? then SetRange(old(View()), r.value, cnt, !value) else old(View())
      ensures cnt == 0 ==> r == Some(start)
    {
      r := Scan(start, cnt, value);
      EmptyRun(View(), start, cnt, value, r);
      if r.Some? {
        SetMultiple(r.value, cnt, !value);
      }
    }
  }
}
