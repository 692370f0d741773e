/** Entries and addresses of include/threads/pte.h (4-level paging, section 4.5 of the Intel SDM,
    Volume 3A): what the shifts, masks and flags mean. */
module PageEntry {

  // ---------- entries ----------

  /** A table entry: the page it names, by kernel virtual address, and the flags P, W and U. */
  datatype Entry = Entry(page: nat, present: bool, writable: bool, user: bool)

  predicate IsPage(v: nat) {
    v >= 0x8004000000 && v % 4096 == 0
  }

  /** ptov and vtop; KERN_BASE is 0x8004000000. */
  function Ptov(p: nat): nat { p + 0x8004000000 }

  function Vtop(v: nat): nat
    requires v >= 0x8004000000
  {
    v - 0x8004000000
  }

  function Bit(b: bool, value: nat): nat { if b then value else 0 }

  /** The 64-bit word: PTE_P is 1, PTE_W is 2, PTE_U is 4. */
  function Encode(e: Entry): nat
    requires IsPage(e.page)
  {
    Vtop(e.page) + Bit(e.present, 1) + Bit(e.writable, 2) + Bit(e.user, 4)
  }

  /** PTE_ADDR masks out the low twelve bits; the flags are bits 0 to 2. */
  function Decode(word: nat): Entry {
    Entry(Ptov(word - word % 4096), word % 2 == 1, word / 2 % 2 == 1, word / 4 % 2 == 1)
  }

  /** The entry of a zeroed word. */
  function Zero(): Entry { Entry(0x8004000000, false, false, false) }

  /** vtop (new_page) | PTE_U | PTE_W | PTE_P */
  function TableEntry(page: nat): Entry { Entry(page, true, true, true) }

  /** vtop (kpage) | PTE_P | (rw ? PTE_W : 0) | PTE_U */
  function LeafEntry(kpage: nat, rw: bool): Entry { Entry(kpage, true, rw, true) }

  lemma EvenPlus(h: nat, f: nat)
    ensures (2 * h + f) % 2 == f % 2 && (2 * h + f) / 2 == h + f / 2
  {
  }

  lemma PagePlus(k: nat, f: nat)
    requires f < 4096
    ensures (4096 * k + f) % 4096 == f
  {
  }

  lemma FlagBits(p: bool, w: bool, u: bool)
    ensures var f := Bit(p, 1) + Bit(w, 2) + Bit(u, 4);
      f < 8 && (f % 2 == 1 <==> p) && (f / 2 % 2 == 1 <==> w) && (f / 4 % 2 == 1 <==> u) && f / 2 / 2 == f / 4
  {
  }

  /** Or-ing flags into a page address and masking them out again loses nothing. */
  lemma EncodedIsDecoded(e: Entry)
    requires IsPage(e.page)
    ensures Decode(Encode(e)) == e && Encode(Zero()) == 0
  {
    var k := Vtop(e.page) / 4096;
    var f := Bit(e.present, 1) + Bit(e.writable, 2) + Bit(e.user, 4);
    assert Vtop(e.page) == 4096 * k by { assert e.page == 4096 * (e.page / 4096); }
    FlagBits(e.present, e.writable, e.user);
    PagePlus(k, f);
    EvenPlus(2048 * k, f);
    EvenPlus(1024 * k, f / 2);
    EvenPlus(512 * k, f / 4);
    assert Encode(e) / 4 == (1024 * k * 2 + f / 2) / 2;
  }

  predicate HasWord(e: Entry, word: nat) {
    IsPage(e.page) && Encode(e) == word
  }

  /** The words that the walks and pml4_set_page store: P, W and U are bits 0 to 2. */
  lemma StoredWords(page: nat, rw: bool)
    requires IsPage(page)
    ensures HasWord(TableEntry(page), Vtop(page) + 1 + 2 + 4)
    ensures HasWord(LeafEntry(page, rw), Vtop(page) + 1 + (if rw then 2 else 0) + 4)
  {
  }

  /** Clearing the P bit of a present entry subtracts one from the word and keeps the rest. */
  lemma ClearingKeepsTheRest(e: Entry)
    requires IsPage(e.page) && e.present
    ensures Encode(e.(present := false)) == Encode(e) - 1
  {
  }

  /** KERN_BASE is a multiple of the page size, so adding it to a word before testing its flags, as
      the functions that walk all entries do, does no harm. */
  lemma PtovKeepsFlags(word: nat)
    ensures Ptov(word) % 2 == word % 2 && Ptov(word) - Ptov(word) % 4096 == Ptov(word - word % 4096)
  {
    EvenPlus(0x4002000000, word);
    var (q, r) := (word / 4096, word % 4096);
    assert word == 4096 * q + r;
    assert Ptov(word) == 4096 * (q + 0x8004000) + r;
    PagePlus(q + 0x8004000, r);
  }

  // ---------- indices ----------

  function Pml4(va: nat): nat { va / 0x8000000000 % 512 }

  function Pdpe(va: nat): nat { va / 0x40000000 % 512 }

  function Pdx(va: nat): nat { va / 0x200000 % 512 }

  function Ptx(va: nat): nat { va / 0x1000 % 512 }

  /** The table indices that lead to the leaf of an address. */
  datatype Index = Index(i4: nat, i3: nat, i2: nat, i1: nat)

  function Indices(va: nat): (ix: Index)
    ensures ix.i4 < 512 && ix.i3 < 512 && ix.i2 < 512 && ix.i1 < 512
  {
    Index(Pml4(va), Pdpe(va), Pdx(va), Ptx(va))
  }

  function Address(i4: nat, i3: nat, i2: nat, i1: nat): nat {
    i4 * 0x8000000000 + i3 * 0x40000000 + i2 * 0x200000 + i1 * 0x1000
  }

  lemma LastIndex(q: nat, i: nat)
    requires i < 512
    ensures (q * 512 + i) % 512 == i
  {
  }

  lemma Upper4(i4: nat, r: nat)
    requires r < 0x8000000000
    ensures (i4 * 0x8000000000 + r) / 0x8000000000 == i4
  {
  }

  lemma Upper3(q: nat, r: nat)
    requires r < 0x40000000
    ensures (q * 0x40000000 + r) / 0x40000000 == q
  {
  }

  lemma Upper2(q: nat, r: nat)
    requires r < 0x200000
    ensures (q * 0x200000 + r) / 0x200000 == q
  {
  }

  lemma Index3(i4: nat, i3: nat, r: nat)
    requires i3 < 512 && r < 0x40000000
    ensures Pdpe(i4 * 0x8000000000 + i3 * 0x40000000 + r) == i3
  {
    var q := i4 * 512 + i3;
    assert i4 * 0x8000000000 + i3 * 0x40000000 + r == q * 0x40000000 + r;
    Upper3(q, r);
    LastIndex(i4, i3);
  }

  lemma Index2(q3: nat, i2: nat, r: nat)
    requires i2 < 512 && r < 0x200000
    ensures Pdx(q3 * 0x40000000 + i2 * 0x200000 + r) == i2
  {
    var q := q3 * 512 + i2;
    assert q3 * 0x40000000 + i2 * 0x200000 + r == q * 0x200000 + r;
    Upper2(q, r);
    LastIndex(q3, i2);
  }

  lemma Index1(q2: nat, i1: nat)
    requires i1 < 512
    ensures Ptx(q2 * 0x200000 + i1 * 0x1000) == i1
  {
    var q := q2 * 512 + i1;
    assert q2 * 0x200000 + i1 * 0x1000 == q * 0x1000;
    LastIndex(q2, i1);
  }

  lemma IndicesOfAddress(i4: nat, i3: nat, i2: nat, i1: nat)
    requires i4 < 512 && i3 < 512 && i2 < 512 && i1 < 512
    ensures Indices(Address(i4, i3, i2, i1)) == Index(i4, i3, i2, i1)
  {
    var a := Address(i4, i3, i2, i1);
    assert Pml4(a) == i4 by {
      var r := i3 * 0x40000000 + i2 * 0x200000 + i1 * 0x1000;
      assert a == i4 * 0x8000000000 + r;
      Upper4(i4, r);
    }
    assert Pdpe(a) == i3 by {
      var r := i2 * 0x200000 + i1 * 0x1000;
      assert a == i4 * 0x8000000000 + i3 * 0x40000000 + r;
      Index3(i4, i3, r);
    }
    assert Pdx(a) == i2 by {
      var (q, r) := (i4 * 512 + i3, i1 * 0x1000);
      assert a == q * 0x40000000 + i2 * 0x200000 + r;
      Index2(q, i2, r);
    }
    assert Ptx(a) == i1 by {
      var q := (i4 * 512 + i3) * 512 + i2;
      assert a == q * 0x200000 + i1 * 0x1000;
      Index1(q, i1);
    }
  }

  lemma AddressOfIndices(va: nat)
    requires va < 0x1000000000000
    ensures Address(Pml4(va), Pdpe(va), Pdx(va), Ptx(va)) == va - va % 4096
  {
    var q1 := va / 0x1000;
    var q2 := q1 / 512;
    var q3 := q2 / 512;
    var q4 := q3 / 512;
    var r := va % 4096;
    assert va == q1 * 0x1000 + r && q1 == q2 * 512 + q1 % 512 && q2 == q3 * 512 + q2 % 512 && q3 == q4 * 512 + q3 % 512;
    assert va / 0x200000 == q2 by { Upper2(q2, q1 % 512 * 0x1000 + r); }
    assert va / 0x40000000 == q3 by { Upper3(q3, q2 % 512 * 0x200000 + q1 % 512 * 0x1000 + r); }
    assert va / 0x8000000000 == q4 by {
      Upper4(q4, q3 % 512 * 0x40000000 + q2 % 512 * 0x200000 + q1 % 512 * 0x1000 + r);
    }
    assert q4 < 512;
  }

  /** Addresses of one page, and only they, have the same indices. */
  lemma SameIndicesSamePage(a: nat, b: nat)
    requires a < 0x1000000000000 && b < 0x1000000000000
    ensures Indices(a) == Indices(b) <==> a - a % 4096 == b - b % 4096
  {
    PageHasIndices(a);
    PageHasIndices(b);
  }

  lemma PageHasIndices(a: nat)
    requires a < 0x1000000000000
    ensures
      var ix := Indices(a);
      a - a % 4096 == Address(ix.i4, ix.i3, ix.i2, ix.i1) && Indices(a - a % 4096) == ix
  {
    AddressOfIndices(a);
    IndicesOfAddress(Pml4(a), Pdpe(a), Pdx(a), Ptx(a));
  }
}
