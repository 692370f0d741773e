/** vm/vm.c, vm/anon.c and vm/uninit.c for one process: demand-zero and lazily loaded anonymous pages,
    first-in first-out eviction to swap, and why the process cannot see it.

    The page table is the map from user pages to frames that PageTable proves it to be.  What malloc,
    palloc_get_page and pml4_set_page answer is a Choice. */
module Vm {
  import opened Bitmaps
  import opened Sequences

  type Bytes = seq<int>

  /** What struct page is at present.  A page that has not been touched may have an initializer, which
      gives its contents; a stack page has none, and keeps what is in the frame. */
  datatype Kind = Uninit(init: Option<Bytes>) | Anon(swapIndex: Option<nat>)

  datatype Page = Page(kind: Kind, frame: Option<nat>, writable: bool)

  /** An entry of the page table: the frame, and whether the user program may write. */
  datatype Mapping = Mapping(frame: nat, writable: bool)

  /** Frames are named by their kernel address.  "frames" gives the page field of each struct frame,
      "list" is frame_list, "table" maps user pages to frames, "slots" is swap_table. */
  datatype State = State(
    pages: map<nat, Page>,
    frames: map<nat, Option<nat>>,
    list: seq<nat>,
    mem: map<nat, Bytes>,
    table: map<nat, Mapping>,
    disk: seq<Bytes>,
    slots: seq<bool>)

  /** The answers of the allocators during one fault: is there memory for a struct frame; is there a user
      page, and what is in it; and can the page table be extended. */
  datatype Choice = Choice(frameStruct: bool, userPage: Option<nat>, garbage: Bytes, tables: bool)

  /** How a fault ends: handled, the process is killed, or the kernel panics. */
  datatype Outcome = Handled | Killed | Panic

  // ---------- swap slots ----------

  /** The part of a page that goes to its i-th sector. */
  function Part(data: Bytes, i: nat): Bytes
    requires |data| == 4096 && i < 8
  {
    data[i * 512..(i + 1) * 512]
  }

  /** The sectors after the first "n" of the eight writes of anon_swap_out. */
  function Written(disk: seq<Bytes>, slot: nat, data: Bytes, n: nat): (r: seq<Bytes>)
    requires n <= 8 && |data| == 4096 && slot * 8 + 8 <= |disk|
    ensures |r| == |disk|
  {
    if n == 0 then disk else Written(disk, slot, data, n - 1)[slot * 8 + (n - 1) := Part(data, n - 1)]
  }

  /** What the first "n" of the eight reads of anon_swap_in yield. */
  function ReadBack(disk: seq<Bytes>, slot: nat, n: nat): Bytes
    requires n <= 8 && slot * 8 + 8 <= |disk|
  {
    if n == 0 then [] else ReadBack(disk, slot, n - 1) + disk[slot * 8 + (n - 1)]
  }

  lemma {:induction false} WrittenSectors(disk: seq<Bytes>, slot: nat, data: Bytes, n: nat)
    requires n <= 8 && |data| == 4096 && slot * 8 + 8 <= |disk|
    ensures forall k :: 0 <= k < |disk| ==>
              Written(disk, slot, data, n)[k] ==
                if slot * 8 <= k < slot * 8 + n then Part(data, k - slot * 8) else disk[k]
  {
    if n > 0 { WrittenSectors(disk, slot, data, n - 1); }
  }

  lemma {:induction false} ReadBackWritten(disk: seq<Bytes>, slot: nat, data: Bytes, n: nat)
    requires n <= 8 && |data| == 4096 && slot * 8 + 8 <= |disk|
    ensures ReadBack(Written(disk, slot, data, 8), slot, n) == data[..n * 512]
  {
    if n > 0 {
      ReadBackWritten(disk, slot, data, n - 1);
      WrittenSectors(disk, slot, data, 8);
      assert data[..n * 512] == data[..(n - 1) * 512] + Part(data, n - 1);
    }
  }

  lemma {:induction false} OtherSlotsKeep(disk: seq<Bytes>, slot: nat, data: Bytes, other: nat, n: nat)
    requires n <= 8 && |data| == 4096 && slot * 8 + 8 <= |disk| && other * 8 + 8 <= |disk| && other != slot
    ensures ReadBack(Written(disk, slot, data, 8), other, n) == ReadBack(disk, other, n)
  {
    if n > 0 {
      OtherSlotsKeep(disk, slot, data, other, n - 1);
      WrittenSectors(disk, slot, data, 8);
    }
  }

  lemma {:induction false} ReadBackLength(disk: seq<Bytes>, slot: nat, n: nat)
    requires n <= 8 && slot * 8 + 8 <= |disk| && forall k :: 0 <= k < |disk| ==> |disk[k]| == 512
    ensures |ReadBack(disk, slot, n)| == n * 512
  {
    if n > 0 { ReadBackLength(disk, slot, n - 1); }
  }

  // ---------- vm.c ----------

  /** vm_evict_frame: the frame at the head of the list loses its page to swap.  Undefined or a panic where
      the list is empty, the frame has no page, the page cannot be swapped out, or swap is full. */
  ghost function Evict(s: State): Option<State> {
    if s.list == [] || s.list[0] !in s.frames || s.frames[s.list[0]] == None
      || s.frames[s.list[0]].value !in s.pages then None
    else
      var (f, va) := (s.list[0], s.frames[s.list[0]].value);
      var s1 := SwapOut(s, va);
      if s1 == None || va !in s1.value.pages then None
      else
        Some(s1.value.(list := s.list[1..], table := s1.value.table - {va}, frames := s1.value.frames[f := None],
                       pages := s1.value.pages[va := s1.value.pages[va].(frame := None)]))
  }

  /** anon_swap_out; a page that was never initialized has no swap_out. */
  ghost function SwapOut(s: State, va: nat): Option<State>
    requires va in s.pages
  {
    var page := s.pages[va];
    if page.kind.Uninit? then None
    else if page.kind.swapIndex.Some? then Some(s)
    else if page.frame == None || page.frame.value !in s.mem || |s.mem[page.frame.value]| != 4096 then None
    else
      var slot := FirstFree(s.slots, 0);
      if slot == None || slot.value * 8 + 8 > |s.disk| then None
      else
        Some(s.(slots := s.slots[slot.value := true], disk := Written(s.disk, slot.value, s.mem[page.frame.value], 8),
                pages := s.pages[va := page.(kind := Anon(Some(slot.value)), frame := None)],
                table := s.table - {va}, frames := s.frames[page.frame.value := None]))
  }

  ghost function FirstFree(slots: seq<bool>, i: nat): (r: Option<nat>)
    ensures r.Some? ==> i <= r.value < |slots| && !slots[r.value] && forall k :: i <= k < r.value ==> slots[k]
    ensures r.None? ==> forall k :: i <= k < |slots| ==> slots[k]
    decreases |slots| - i
  {
    if i >= |slots| then None else if !slots[i] then Some(i) else FirstFree(slots, i + 1)
  }

  /** vm_get_frame: a new frame where there is memory, else an evicted one; it goes to the back of the list. */
  ghost function GetFrame(s: State, c: Choice): Option<(State, nat)> {
    if c.frameStruct && c.userPage.Some? then
      var f := c.userPage.value;
      Some((s.(frames := s.frames[f := None], mem := s.mem[f := c.garbage], list := s.list + [f]), f))
    else
      match Evict(s)
      case None => None
      case Some(s1) => Some((s1.(list := s1.list + [s.list[0]]), s.list[0]))
  }

  /** vm_do_claim_page */
  ghost function Claim(s: State, va: nat, c: Choice): (State, Outcome) {
    if va !in s.pages then (s, Killed)
    else
      match GetFrame(s, c)
      case None => (s, Panic)
      case Some((s1, f)) =>
        if va !in s1.pages then (s1, Panic)
        else
          var s2 := s1.(frames := s1.frames[f := Some(va)], pages := s1.pages[va := s1.pages[va].(frame := Some(f))]);
          if va in s2.table || !c.tables then (s2, Killed)
          else SwapIn(s2.(table := s2.table[va := Mapping(f, s2.pages[va].writable)]), va, f)
  }

  ghost function Zeros(): Bytes {
    seq(4096, _ => 0)
  }

  /** The swap_in operation of the page: uninit_initialize with anon_initializer, or anon_swap_in. */
  ghost function SwapIn(s: State, va: nat, f: nat): (State, Outcome)
    requires va in s.pages
  {
    var page := s.pages[va];
    match page.kind
    case Uninit(init) =>
      (s.(pages := s.pages[va := page.(kind := Anon(None))],
          mem := if init.Some? then s.mem[f := init.value] else s.mem), Handled)
    case Anon(None) => (s.(mem := s.mem[f := Zeros()]), Handled)
    case Anon(Some(slot)) =>
      if slot * 8 + 8 > |s.disk| || slot >= |s.slots| then (s, Panic)
      else
        (s.(mem := s.mem[f := ReadBack(s.disk, slot, 8)], slots := s.slots[slot := false],
            pages := s.pages[va := page.(kind := Anon(None))]), Handled)
  }

  /** vm_alloc_page_with_initializer */
  ghost function Alloc(s: State, va: nat, init: Option<Bytes>, writable: bool): State {
    if va in s.pages then s else s.(pages := s.pages[va := Page(Uninit(init), None, writable)])
  }

  // ---------- what the process sees ----------

  /** The contents of an initialized page: in its frame, or in its swap slot. */
  ghost function Content(s: State, va: nat): Bytes {
    if va !in s.pages || s.pages[va].kind.Uninit? then []
    else if s.pages[va].frame.Some? && s.pages[va].frame.value in s.mem then s.mem[s.pages[va].frame.value]
    else if s.pages[va].kind.swapIndex.Some? && s.pages[va].kind.swapIndex.value * 8 + 8 <= |s.disk|
      then ReadBack(s.disk, s.pages[va].kind.swapIndex.value, 8)
    else []
  }

  ghost predicate IsAnon(s: State, va: nat) {
    va in s.pages && s.pages[va].kind.Anon?
  }

  // ---------- the invariant ----------

  ghost predicate PageOk(s: State, va: nat)
    requires va in s.pages
  {
    var page := s.pages[va];
    match page.kind
    case Uninit(init) => page.frame == None && va !in s.table && (init.Some? ==> |init.value| == 4096)
    case Anon(None) =>
      page.frame.Some? && page.frame.value in s.frames && s.frames[page.frame.value] == Some(va)
      && va in s.table && s.table[va] == Mapping(page.frame.value, page.writable)
    case Anon(Some(slot)) => page.frame == None && va !in s.table && slot < |s.slots| && s.slots[slot]
  }

  /** Page-to-frame and frame-to-page links are inverse to each other; "out" is a frame about to be linked. */
  ghost predicate FrameOk(s: State, f: nat, out: set<nat>)
    requires f in s.frames
  {
    && f in s.mem && |s.mem[f]| == 4096 && (f in s.list || f in out)
    && (f !in out ==> s.frames[f].Some? && s.frames[f].value in s.pages && s.pages[s.frames[f].value].frame == Some(f))
    && (f in out ==> s.frames[f] == None)
  }

  ghost predicate InSlot(s: State, va: nat, slot: nat) {
    va in s.pages && s.pages[va].kind == Anon(Some(slot))
  }

  /** Each set swap bit belongs to exactly one page. */
  ghost predicate SlotOk(s: State, slot: nat) {
    && (slot < |s.slots| && s.slots[slot] ==> exists va :: InSlot(s, va, slot))
    && (forall va, vb :: InSlot(s, va, slot) && InSlot(s, vb, slot) ==> va == vb)
  }

  ghost predicate Inv(s: State, out: set<nat>) {
    && (forall va :: va in s.pages ==> PageOk(s, va))
    && (forall f :: f in s.frames ==> FrameOk(s, f, out))
    && NoDup(s.list) && (forall f :: f in s.list ==> f in s.frames)
    && (forall slot: nat :: SlotOk(s, slot))
    && (forall va :: va in s.table ==> va in s.pages)
    && |s.disk| == 8 * |s.slots| && (forall k :: 0 <= k < |s.disk| ==> |s.disk[k]| == 512)
  }

  // ---------- eviction ----------

  ghost predicate SameContents(s: State, s': State) {
    forall va :: IsAnon(s, va) ==> IsAnon(s', va) && Content(s', va) == Content(s, va)
  }

  /** The page of a linked frame is in memory. */
  lemma LinkedIsMapped(s: State, f: nat, out: set<nat>) returns (va: nat)
    requires Inv(s, out) && f in s.frames && f !in out
    ensures s.frames[f] == Some(va) && va in s.pages && s.pages[va].kind == Anon(None) && s.pages[va].frame == Some(f)
    ensures va in s.table && s.table[va].frame == f
  {
    assert FrameOk(s, f, out);
    va := s.frames[f].value;
    assert PageOk(s, va);
  }

  /** The state after evicting the page "va" from frame "f" to "slot". */
  ghost function Evicted(s: State, va: nat, f: nat, slot: nat): State
    requires s.list != [] && f in s.mem && |s.mem[f]| == 4096 && slot < |s.slots| && slot * 8 + 8 <= |s.disk|
      && va in s.pages
  {
    s.(slots := s.slots[slot := true], disk := Written(s.disk, slot, s.mem[f], 8), table := s.table - {va},
       frames := s.frames[f := None], list := s.list[1..],
       pages := s.pages[va := Page(Anon(Some(slot)), None, s.pages[va].writable)])
  }

  /** Eviction succeeds exactly where there is a frame to take and a free slot. */
  lemma EvictIs(s: State) returns (va: nat, f: nat, slot: nat)
    requires Inv(s, {}) && s.list != [] && FirstFree(s.slots, 0).Some?
    ensures f == s.list[0] && f in s.frames && f in s.mem && |s.mem[f]| == 4096 && va in s.pages
      && s.frames[f] == Some(va)
    ensures s.pages[va].kind == Anon(None) && s.pages[va].frame == Some(f)
    ensures slot < |s.slots| && !s.slots[slot] && slot * 8 + 8 <= |s.disk|
    ensures Evict(s) == Some(Evicted(s, va, f, slot))
  {
    f := s.list[0];
    assert f in s.list && FrameOk(s, f, {});
    va := LinkedIsMapped(s, f, {});
    slot := FirstFree(s.slots, 0).value;
    var s1 := SwapOut(s, va).value;
    assert s1.table - {va} == s.table - {va};
    assert s1.frames[f := None] == s.frames[f := None];
    assert s1.pages[va := s1.pages[va].(frame := None)] ==
      s.pages[va := Page(Anon(Some(slot)), None, s.pages[va].writable)];
  }

  lemma EvictedKeepsSlots(s: State, va: nat, f: nat, slot: nat)
    requires Inv(s, {}) && s.list != [] && f in s.mem && |s.mem[f]| == 4096 && va in s.pages
      && s.pages[va].kind == Anon(None)
    requires slot < |s.slots| && !s.slots[slot] && slot * 8 + 8 <= |s.disk|
    ensures forall k: nat :: SlotOk(Evicted(s, va, f, slot), k)
  {
    var s' := Evicted(s, va, f, slot);
    forall vb ensures !InSlot(s, vb, slot) { if vb in s.pages { assert PageOk(s, vb); } }
    forall k: nat ensures SlotOk(s', k) {
      assert SlotOk(s, k);
      forall vb ensures InSlot(s', vb, k) <==> (if vb == va then k == slot else InSlot(s, vb, k)) {}
      if k == slot {
        assert InSlot(s', va, slot);
      } else if k < |s.slots| && s.slots[k] {
        var vb :| InSlot(s, vb, k);
        assert InSlot(s', vb, k);
      }
    }
  }

  lemma EvictedKeepsInv(s: State, va: nat, f: nat, slot: nat)
    requires Inv(s, {}) && s.list != [] && f == s.list[0] && f in s.frames && f in s.mem && |s.mem[f]| == 4096
    requires va in s.pages && s.frames[f] == Some(va) && s.pages[va].kind == Anon(None) && s.pages[va].frame == Some(f)
    requires slot < |s.slots| && !s.slots[slot] && slot * 8 + 8 <= |s.disk|
    ensures Inv(Evicted(s, va, f, slot), {f})
  {
    var s' := Evicted(s, va, f, slot);
    TailMembers(s.list);
    EvictedKeepsSlots(s, va, f, slot);
    WrittenSectors(s.disk, slot, s.mem[f], 8);
    forall vb | vb in s'.pages ensures PageOk(s', vb) { EvictedKeepsPage(s, va, f, slot, vb); }
    forall g | g in s'.frames ensures FrameOk(s', g, {f}) { assert FrameOk(s, g, {}); }
  }

  lemma EvictedKeepsPage(s: State, va: nat, f: nat, slot: nat, vb: nat)
    requires Inv(s, {}) && s.list != [] && f == s.list[0] && f in s.frames && f in s.mem && |s.mem[f]| == 4096
    requires va in s.pages && s.frames[f] == Some(va) && s.pages[va].kind == Anon(None) && s.pages[va].frame == Some(f)
    requires slot < |s.slots| && !s.slots[slot] && slot * 8 + 8 <= |s.disk| && vb in s.pages
    ensures PageOk(Evicted(s, va, f, slot), vb)
  {
    TailMembers(s.list);
    WrittenSectors(s.disk, slot, s.mem[f], 8);
    assert PageOk(s, vb);
    if vb != va && s.pages[vb].frame.Some? { assert s.pages[vb].frame.value != f; }
  }

  /** Eviction cannot be seen: every page still has its contents. */
  lemma EvictedKeepsContents(s: State, va: nat, f: nat, slot: nat)
    requires Inv(s, {}) && s.list != [] && f in s.frames && f in s.mem && |s.mem[f]| == 4096
    requires va in s.pages && s.pages[va].kind == Anon(None) && s.pages[va].frame == Some(f)
    requires slot < |s.slots| && !s.slots[slot] && slot * 8 + 8 <= |s.disk|
    ensures SameContents(s, Evicted(s, va, f, slot))
  {
    var s' := Evicted(s, va, f, slot);
    ReadBackWritten(s.disk, slot, s.mem[f], 8);
    assert s.mem[f][..8 * 512] == s.mem[f];
    forall vb | IsAnon(s, vb) ensures IsAnon(s', vb) && Content(s', vb) == Content(s, vb) {
      assert PageOk(s, vb);
      if vb != va && s.pages[vb].kind.swapIndex.Some? {
        OtherSlotsKeep(s.disk, slot, s.mem[f], s.pages[vb].kind.swapIndex.value, 8);
      }
    }
  }

  // ---------- getting a frame ----------

  /** Untouched pages stay untouched, and no others become so. */
  ghost predicate SameInits(s: State, s': State) {
    forall va :: va in s.pages ==>
      va in s'.pages && s'.pages[va].kind.Anon? == s.pages[va].kind.Anon?
      && (s.pages[va].kind.Uninit? ==> s'.pages[va].kind == s.pages[va].kind)
  }

  ghost predicate Legal(s: State, c: Choice) {
    c.userPage.Some? ==> c.userPage.value !in s.frames && |c.garbage| == 4096
  }

  /** Whether vm_get_frame can succeed: a new frame can be had, or an old one evicted. */
  ghost predicate FrameAvailable(s: State, c: Choice) {
    (c.frameStruct && c.userPage.Some?) || (s.list != [] && exists k :: 0 <= k < |s.slots| && !s.slots[k])
  }

  /** Where vm_get_frame leaves things: a frame is there to be linked, and nothing else has changed. */
  ghost predicate GotFrame(s: State, s1: State, f: nat) {
    && Inv(s1, {f}) && f in s1.frames && s1.frames[f] == None && f in s1.list && SameContents(s, s1) && SameInits(s, s1)
    && s1.pages.Keys == s.pages.Keys
    && forall va :: va in s.pages && va !in s.table ==> s1.pages[va] == s.pages[va] && va !in s1.table
  }

  lemma ReuseFrame(s: State) returns (s1: State, f: nat)
    requires Inv(s, {}) && s.list != [] && FirstFree(s.slots, 0).Some?
    ensures Evict(s).Some? && f == s.list[0] && s1 == Evict(s).value.(list := Evict(s).value.list + [f])
    ensures GotFrame(s, s1, f)
  {
    var va, g, slot := EvictIs(s);
    f := g;
    var e := Evicted(s, va, f, slot);
    EvictedKeepsInv(s, va, f, slot);
    EvictedKeepsContents(s, va, f, slot);
    s1 := e.(list := e.list + [f]);
    TailMembers(s.list);
    RequeueKeepsInv(e, f);
    RequeueKeepsContents(e, f);
    assert PageOk(s, va);
    SameContentsTransitive(s, e, s1);
  }

  lemma RequeueKeepsContents(s: State, f: nat)
    ensures SameContents(s, s.(list := s.list + [f]))
  {
    var s1 := s.(list := s.list + [f]);
    forall va | IsAnon(s, va) ensures Content(s1, va) == Content(s, va) {}
  }

  lemma GetFrameKeepsInv(s: State, c: Choice) returns (s1: State, f: nat)
    requires Inv(s, {}) && Legal(s, c) && FrameAvailable(s, c)
    ensures GetFrame(s, c) == Some((s1, f)) && GotFrame(s, s1, f)
  {
    if c.frameStruct && c.userPage.Some? {
      f := c.userPage.value;
      s1 := s.(frames := s.frames[f := None], mem := s.mem[f := c.garbage], list := s.list + [f]);
      NewFrameKeepsInv(s, f, c.garbage);
    } else {
      s1, f := ReuseFrame(s);
    }
  }

  lemma NewFrameKeepsInv(s: State, f: nat, garbage: Bytes)
    requires Inv(s, {}) && f !in s.frames && |garbage| == 4096
    ensures
      var s1 := s.(frames := s.frames[f := None], mem := s.mem[f := garbage], list := s.list + [f]);
      Inv(s1, {f}) && SameContents(s, s1)
  {
    var s1 := s.(frames := s.frames[f := None], mem := s.mem[f := garbage], list := s.list + [f]);
    assert f !in s.list;
    forall va | va in s1.pages ensures PageOk(s1, va) { assert PageOk(s, va); }
    forall g | g in s1.frames ensures FrameOk(s1, g, {f}) { if g != f { assert FrameOk(s, g, {}); } }
    forall k: nat ensures SlotOk(s1, k) { SameSlots(s, s1, k); }
    forall va | IsAnon(s, va) ensures Content(s1, va) == Content(s, va) { assert PageOk(s, va); }
  }

  lemma RequeueKeepsInv(s: State, f: nat)
    requires Inv(s, {f}) && f in s.frames && f !in s.list
    ensures Inv(s.(list := s.list + [f]), {f})
  {
    var s1 := s.(list := s.list + [f]);
    forall va | va in s1.pages ensures PageOk(s1, va) { assert PageOk(s, va); }
    forall g | g in s1.frames ensures FrameOk(s1, g, {f}) { assert FrameOk(s, g, {f}); }
    forall k: nat ensures SlotOk(s1, k) { SameSlots(s, s1, k); }
  }

  lemma SameSlots(s: State, s': State, k: nat)
    requires SlotOk(s, k) && s'.slots == s.slots && forall va :: InSlot(s', va, k) <==> InSlot(s, va, k)
    ensures SlotOk(s', k)
  {
    if k < |s.slots| && s.slots[k] {
      var va :| InSlot(s, va, k);
      assert InSlot(s', va, k);
    }
  }

  // ---------- faults ----------

  /** Eviction fails exactly where there is no frame to take or no free swap slot. */
  lemma EvictFails(s: State)
    requires Inv(s, {})
    ensures Evict(s).None? <==> s.list == [] || forall k :: 0 <= k < |s.slots| ==> s.slots[k]
  {
    if s.list != [] && FirstFree(s.slots, 0).Some? {
      var va, f, slot := EvictIs(s);
    } else if s.list != [] {
      assert s.list[0] in s.list && FrameOk(s, s.list[0], {});
      var va := LinkedIsMapped(s, s.list[0], {});
    }
  }

  /** The state when the page has been linked to its frame, mapped, and swapped in. */
  ghost function Loaded(s: State, va: nat, f: nat, content: Bytes, slots: seq<bool>): State
    requires va in s.pages
  {
    s.(frames := s.frames[f := Some(va)], table := s.table[va := Mapping(f, s.pages[va].writable)],
       mem := s.mem[f := content], slots := slots,
         pages := s.pages[va := s.pages[va].(frame := Some(f), kind := Anon(None))])
  }

  /** The first fault on a page. */
  lemma FirstFaultKeepsInv(s: State, va: nat, f: nat, content: Bytes)
    requires Inv(s, {f}) && va in s.pages && s.pages[va].kind.Uninit? && f in s.frames && f in s.list
      && |content| == 4096
    ensures Inv(Loaded(s, va, f, content, s.slots), {}) && SameContents(s, Loaded(s, va, f, content, s.slots))
    ensures Content(Loaded(s, va, f, content, s.slots), va) == content
  {
    var s' := Loaded(s, va, f, content, s.slots);
    FirstFaultKeepsLinks(s, va, f, content, s');
    forall k: nat ensures SlotOk(s', k) { SameSlots(s, s', k); }
    forall vb | IsAnon(s, vb) ensures Content(s', vb) == Content(s, vb) {
      assert PageOk(s, vb) && FrameOk(s, f, {f});
      if s.pages[vb].frame.Some? { assert s.pages[vb].frame.value != f; }
    }
  }

  lemma FirstFaultKeepsLinks(s: State, va: nat, f: nat, content: Bytes, s': State)
    requires Inv(s, {f}) && va in s.pages && s.pages[va].kind.Uninit? && f in s.frames && f in s.list
      && |content| == 4096 && s' == Loaded(s, va, f, content, s.slots)
    ensures forall vb :: vb in s'.pages ==> PageOk(s', vb)
    ensures forall g :: g in s'.frames ==> FrameOk(s', g, {})
  {
    assert PageOk(s, va) && FrameOk(s, f, {f});
    forall vb | vb in s'.pages ensures PageOk(s', vb) {
      assert PageOk(s, vb);
      if vb != va && s.pages[vb].frame.Some? { assert s.pages[vb].frame.value != f; }
    }
    forall g | g in s'.frames ensures FrameOk(s', g, {}) { assert FrameOk(s, g, {f}); }
  }

  ghost function BroughtBack(s: State, va: nat, f: nat, slot: nat): State
    requires va in s.pages && slot < |s.slots| && slot * 8 + 8 <= |s.disk|
  {
    Loaded(s, va, f, ReadBack(s.disk, slot, 8), s.slots[slot := false])
  }

  /** A later fault: the page comes back from its slot, which becomes free. */
  lemma SwapInKeepsSlots(s: State, va: nat, f: nat, slot: nat)
    requires Inv(s, {f}) && va in s.pages && s.pages[va].kind == Anon(Some(slot)) && slot < |s.slots|
      && slot * 8 + 8 <= |s.disk|
    ensures
      var s' := BroughtBack(s, va, f, slot);
      forall k: nat :: SlotOk(s', k)
  {
    var s' := BroughtBack(s, va, f, slot);
    assert SlotOk(s, slot) && InSlot(s, va, slot);
    forall k: nat ensures SlotOk(s', k) { FreedSlot(s, s', va, slot, k); }
  }

  lemma SwapInKeepsInv(s: State, va: nat, f: nat, slot: nat)
    requires Inv(s, {f}) && va in s.pages && s.pages[va].kind == Anon(Some(slot)) && f in s.frames && f in s.list
    requires slot < |s.slots| && slot * 8 + 8 <= |s.disk|
    ensures
      var s' := BroughtBack(s, va, f, slot);
      Inv(s', {}) && SameContents(s, s')
  {
    var s' := BroughtBack(s, va, f, slot);
    SwapInKeepsFrames(s, va, f, slot);
    SwapInKeepsSlots(s, va, f, slot);
    forall vb | vb in s'.pages ensures PageOk(s', vb) { SwapInKeepsPage(s, va, f, slot, vb); }
    forall vb | IsAnon(s, vb) ensures Content(s', vb) == Content(s, vb) { SwapInKeepsContent(s, va, f, slot, vb); }
  }

  lemma SwapInKeepsFrames(s: State, va: nat, f: nat, slot: nat)
    requires Inv(s, {f}) && va in s.pages && s.pages[va].kind == Anon(Some(slot)) && f in s.frames && f in s.list
    requires slot < |s.slots| && slot * 8 + 8 <= |s.disk|
    ensures
      var s' := BroughtBack(s, va, f, slot);
      forall g :: g in s'.frames ==> FrameOk(s', g, {})
  {
    var s' := BroughtBack(s, va, f, slot);
    ReadBackLength(s.disk, slot, 8);
    OthersElsewhere(s, va, f);
    assert PageOk(s, va);
    forall g | g in s'.frames ensures FrameOk(s', g, {}) { assert FrameOk(s, g, {f}); }
  }

  lemma SwapInKeepsContent(s: State, va: nat, f: nat, slot: nat, vb: nat)
    requires Inv(s, {f}) && va in s.pages && s.pages[va].kind == Anon(Some(slot)) && f in s.frames
    requires slot < |s.slots| && slot * 8 + 8 <= |s.disk| && IsAnon(s, vb)
    ensures Content(BroughtBack(s, va, f, slot), vb) == Content(s, vb)
  {
    assert PageOk(s, va) && PageOk(s, vb);
    OthersElsewhere(s, va, f);
  }

  lemma SwapInKeepsPage(s: State, va: nat, f: nat, slot: nat, vb: nat)
    requires Inv(s, {f}) && va in s.pages && s.pages[va].kind == Anon(Some(slot)) && f in s.frames && f in s.list
    requires slot < |s.slots| && slot * 8 + 8 <= |s.disk| && vb in s.pages
    ensures PageOk(BroughtBack(s, va, f, slot), vb)
  {
    assert PageOk(s, va) && InSlot(s, va, slot) && PageOk(s, vb);
    ReadBackLength(s.disk, slot, 8);
    OthersElsewhere(s, va, f);
    if vb != va && s.pages[vb].kind.Anon? && s.pages[vb].kind.swapIndex.Some? {
      assert InSlot(s, vb, s.pages[vb].kind.swapIndex.value);
    }
  }

  /** No other page is in the frame that is being filled, or in the slot that is being read. */
  lemma OthersElsewhere(s: State, va: nat, f: nat)
    requires Inv(s, {f}) && va in s.pages && f in s.frames
    ensures forall vb :: vb in s.pages ==> s.pages[vb].frame != Some(f)
    ensures forall vb, slot :: vb != va && InSlot(s, vb, slot) ==> !InSlot(s, va, slot)
  {
    assert FrameOk(s, f, {f});
    forall vb | vb in s.pages ensures s.pages[vb].frame != Some(f) { assert PageOk(s, vb); }
    forall vb, slot: nat | vb != va && InSlot(s, vb, slot) ensures !InSlot(s, va, slot) { assert SlotOk(s, slot); }
  }

  lemma FreedSlot(s: State, s': State, va: nat, slot: nat, k: nat)
    requires SlotOk(s, k) && InSlot(s, va, slot) && SlotOk(s, slot) && slot < |s.slots|
      && s'.slots == s.slots[slot := false]
    requires forall vb, j :: InSlot(s', vb, j) <==> InSlot(s, vb, j) && vb != va
    ensures SlotOk(s', k)
  {
    if k != slot && k < |s.slots| && s.slots[k] {
      var vb :| InSlot(s, vb, k);
      assert InSlot(s', vb, k);
    }
  }

  /** What the second half of vm_do_claim_page comes to. */
  lemma ClaimLoads(s: State, va: nat, c: Choice, s1: State, f: nat)
    requires va in s.pages && GetFrame(s, c) == Some((s1, f)) && va in s1.pages && va !in s1.table
    ensures Claim(s, va, c).1 == Killed <==> !c.tables && Claim(s, va, c).1 != Panic
    ensures !c.tables ==> Claim(s, va, c).1 == Killed
    ensures c.tables && s1.pages[va].kind.Uninit? ==>
      var init := s1.pages[va].kind.init;
      (init.Some? || f in s1.mem) ==>
        Claim(s, va, c) == (Loaded(s1, va, f, if init.Some? then init.value else s1.mem[f], s1.slots), Handled)
    ensures c.tables && s1.pages[va].kind.Anon? && s1.pages[va].kind.swapIndex.Some? ==>
      var slot := s1.pages[va].kind.swapIndex.value;
      slot * 8 + 8 <= |s1.disk| && slot < |s1.slots| ==>
        Claim(s, va, c) == (Loaded(s1, va, f, ReadBack(s1.disk, slot, 8), s1.slots[slot := false]), Handled)
  {
    var page := s1.pages[va];
    var s2 := s1.(frames := s1.frames[f := Some(va)], pages := s1.pages[va := page.(frame := Some(f))],
      table := s1.table[va := Mapping(f, page.writable)]);
    assert s2.pages[va := s2.pages[va].(kind := Anon(None))] ==
      s1.pages[va := page.(frame := Some(f), kind := Anon(None))];
    if page.kind.Uninit? && page.kind.init.None? && f in s1.mem { assert s1.mem[f := s1.mem[f]] == s1.mem; }
  }

  lemma NoFrame(s: State, c: Choice)
    requires Inv(s, {}) && Legal(s, c)
    ensures GetFrame(s, c).Some? <==> FrameAvailable(s, c)
  {
    EvictFails(s);
  }

  /** How a fault on an unmapped page ends, in every state: a panic exactly where no frame is available; the
      process is killed exactly where the page table cannot be extended; otherwise the page is mapped, and every
      page of the process, this one included, has the contents it had. */
  lemma FaultIsInvisible(s: State, va: nat, c: Choice)
    requires Inv(s, {}) && Legal(s, c) && va in s.pages && va !in s.table
    ensures Claim(s, va, c).1 == if !FrameAvailable(s, c) then Panic else if !c.tables then Killed else Handled
    ensures Claim(s, va, c).1 == Handled ==> FaultHandled(s, va, Claim(s, va, c).0)
  {
    NoFrame(s, c);
    if FrameAvailable(s, c) {
      var s1, f := GetFrameKeepsInv(s, c);
      ClaimLoads(s, va, c, s1, f);
      UnmappedPage(s1, va, f);
      if c.tables { LoadIsInvisible(s, s1, va, f, Claim(s, va, c).0); }
    }
  }

  lemma UnmappedPage(s: State, va: nat, f: nat)
    requires Inv(s, {f}) && va in s.pages && va !in s.table && f in s.frames
    ensures s.pages[va].kind.Uninit? || s.pages[va].kind.swapIndex.Some?
    ensures s.pages[va].kind.Anon? ==>
      var slot := s.pages[va].kind.swapIndex.value; slot < |s.slots| && slot * 8 + 8 <= |s.disk|
    ensures s.pages[va].kind.Uninit? && s.pages[va].kind.init.Some? ==> |s.pages[va].kind.init.value| == 4096
    ensures f in s.mem && |s.mem[f]| == 4096
  {
    assert PageOk(s, va) && FrameOk(s, f, {f});
  }

  lemma LoadIsInvisible(s: State, s1: State, va: nat, f: nat, s': State)
    requires Inv(s1, {f}) && f in s1.frames && f in s1.list && SameContents(s, s1) && s1.pages.Keys == s.pages.Keys
    requires va in s.pages && s1.pages[va] == s.pages[va] && va !in s1.table && f in s1.mem && |s1.mem[f]| == 4096
    requires SameInits(s, s1)
    requires
      match s1.pages[va].kind
      case Uninit(init) =>
        (init.Some? ==> |init.value| == 4096)
          && s' == Loaded(s1, va, f, if init.Some? then init.value else s1.mem[f], s1.slots)
      case Anon(None) => false
      case Anon(Some(slot)) =>
        slot < |s1.slots| && slot * 8 + 8 <= |s1.disk|
          && s' == Loaded(s1, va, f, ReadBack(s1.disk, slot, 8), s1.slots[slot := false])
    ensures FaultHandled(s, va, s')
  {
    if s1.pages[va].kind.Uninit? {
      var init := s1.pages[va].kind.init;
      FirstFaultKeepsInv(s1, va, f, if init.Some? then init.value else s1.mem[f]);
    } else {
      SwapInKeepsInv(s1, va, f, s1.pages[va].kind.swapIndex.value);
    }
    LoadedKinds(s1, va, f, s');
    SameContentsTransitive(s, s1, s');
  }

  lemma LoadedKinds(s: State, va: nat, f: nat, s': State)
    requires va in s.pages && f in s.frames
      && s'.pages == s.pages[va := s.pages[va].(frame := Some(f), kind := Anon(None))]
    ensures s'.pages.Keys == s.pages.Keys && IsAnon(s', va)
    ensures forall vb :: vb in s.pages && vb != va ==> s'.pages[vb] == s.pages[vb]
  {
  }

  lemma SameContentsTransitive(a: State, b: State, c: State)
    requires SameContents(a, b) && SameContents(b, c)
    ensures SameContents(a, c)
  {
    forall va | IsAnon(a, va) ensures IsAnon(c, va) && Content(c, va) == Content(a, va) { assert IsAnon(b, va); }
  }

  ghost predicate FaultHandled(s: State, va: nat, s': State)
    requires va in s.pages
  {
    && Inv(s', {}) && SameContents(s, s') && va in s'.table && IsAnon(s', va) && s'.pages.Keys == s.pages.Keys
    && (forall vb :: vb in s.pages && vb != va ==> IsAnon(s', vb) == IsAnon(s, vb))
    && (forall vb :: vb in s.pages && vb != va && s.pages[vb].kind.Uninit? ==> s'.pages[vb].kind == s.pages[vb].kind)
    && (s.pages[va].kind.Uninit? && s.pages[va].kind.init.Some? ==> Content(s', va) == s.pages[va].kind.init.value)
  }

  // ---------- runs of the process ----------

  /** What the process does: a page is added to the supplemental page table, a byte is stored or loaded.  An
      access to an unmapped page faults first; "c" is what the allocators answer then. */
  datatype Event =
    | Map(va: nat, init: Option<Bytes>, writable: bool)
    | Store(va: nat, ofs: nat, value: int, c: Choice)
    | Load(va: nat, ofs: nat, c: Choice)

  /** The state in which an access happens. */
  ghost function Accessible(s: State, va: nat, c: Choice): (State, Outcome) {
    if va in s.table then (s, Handled) else Claim(s, va, c)
  }

  ghost function Step(s: State, e: Event): (State, Outcome) {
    match e
    case Map(va, init, writable) => (Alloc(s, va, init, writable), Handled)
    case Load(va, _, c) => Accessible(s, va, c)
    case Store(va, ofs, value, c) =>
      var (s1, out) := Accessible(s, va, c);
      if out != Handled || va !in s1.table || va !in s1.pages then (s1, out)
      else if !s1.table[va].writable then (s1, Killed)
      else if s1.table[va].frame !in s1.mem || ofs >= |s1.mem[s1.table[va].frame]| then (s1, Killed)
      else (s1.(mem := s1.mem[s1.table[va].frame := s1.mem[s1.table[va].frame][ofs := value]]), Handled)
  }

  /** The byte that a load yields. */
  ghost function ByteAt(s: State, va: nat, ofs: nat): int {
    if va in s.table && s.table[va].frame in s.mem
      && ofs < |s.mem[s.table[va].frame]| then s.mem[s.table[va].frame][ofs] else 0
  }

  /** What is legal: pages are made with whole initial contents, and the user pool gives out free pages. */
  ghost predicate LegalEvent(s: State, e: Event) {
    match e
    case Map(_, init, _) => init.Some? ==> |init.value| == 4096
    case Store(_, ofs, _, c) => ofs < 4096 && Legal(s, c)
    case Load(_, ofs, c) => ofs < 4096 && Legal(s, c)
  }

  /** The contents of a page that are settled: those of its initializer until it is first touched. */
  ghost predicate Settled(s: State, va: nat) {
    va in s.pages && (s.pages[va].kind.Anon? || s.pages[va].kind.init.Some?)
  }

  ghost function Value(s: State, va: nat): Bytes
    requires Settled(s, va)
  {
    if s.pages[va].kind.Anon? then Content(s, va) else s.pages[va].kind.init.value
  }

  /** The effect of a run's stores to one page. */
  ghost function Replay(data: Bytes, va: nat, es: seq<Event>): Bytes
    decreases |es|
  {
    if es == [] then data
    else
      var e := es[0];
      Replay(if e.Store? && e.va == va && e.ofs < |data| then data[e.ofs := e.value] else data, va, es[1..])
  }

  lemma AccessKeepsValues(s: State, va: nat, c: Choice)
    requires Inv(s, {}) && Legal(s, c) && Accessible(s, va, c).1 == Handled
    ensures
      var s1 := Accessible(s, va, c).0;
      && Inv(s1, {}) && va in s1.table && va in s1.pages && s1.pages[va].kind == Anon(None)
      && s1.table[va].frame in s1.mem && |s1.mem[s1.table[va].frame]| == 4096
        && Content(s1, va) == s1.mem[s1.table[va].frame]
      && SameValues(s, s1)
  {
    var s1 := Accessible(s, va, c).0;
    if va !in s.table { FaultKeepsValues(s, va, c); }
    MappedIsInMemory(s1, va);
  }

  ghost predicate SameValues(s: State, s': State) {
    forall vb :: Settled(s, vb) ==> Settled(s', vb) && Value(s', vb) == Value(s, vb)
  }

  lemma FaultKeepsValues(s: State, va: nat, c: Choice)
    requires Inv(s, {}) && Legal(s, c) && va !in s.table && Claim(s, va, c).1 == Handled
    ensures var s1 := Claim(s, va, c).0; Inv(s1, {}) && va in s1.table && SameValues(s, s1)
  {
    var s1 := Claim(s, va, c).0;
    FaultIsInvisible(s, va, c);
    HandledKeepsValues(s, va, s1);
  }

  lemma HandledKeepsValues(s: State, va: nat, s': State)
    requires va in s.pages && FaultHandled(s, va, s')
    ensures SameValues(s, s')
  {
    forall vb | Settled(s, vb) ensures Settled(s', vb) && Value(s', vb) == Value(s, vb) {
      if s.pages[vb].kind.Anon? { assert IsAnon(s, vb); }
      assert vb in s'.pages && (vb != va ==> IsAnon(s', vb) == IsAnon(s, vb));
    }
  }

  lemma MappedIsInMemory(s: State, va: nat)
    requires Inv(s, {}) && va in s.table
    ensures va in s.pages && s.pages[va].kind == Anon(None) && s.table[va].frame in s.mem
      && |s.mem[s.table[va].frame]| == 4096
    ensures Content(s, va) == s.mem[s.table[va].frame] && s.pages[va].frame == Some(s.table[va].frame)
  {
    assert PageOk(s, va);
    assert FrameOk(s, s.table[va].frame, {});
  }

  /** Storing into a mapped page changes that byte and nothing else. */
  lemma StoreKeepsInv(s: State, va: nat, ofs: nat, value: int)
    requires Inv(s, {}) && va in s.table && ofs < 4096
    ensures va in s.pages && s.table[va].frame in s.mem && ofs < |s.mem[s.table[va].frame]|
    ensures
      var s' := s.(mem := s.mem[s.table[va].frame := s.mem[s.table[va].frame][ofs := value]]);
      && Inv(s', {}) && Content(s', va) == Content(s, va)[ofs := value]
      && forall vb :: Settled(s, vb) && vb != va ==> Settled(s', vb) && Value(s', vb) == Value(s, vb)
  {
    MappedIsInMemory(s, va);
    var s' := s.(mem := s.mem[s.table[va].frame := s.mem[s.table[va].frame][ofs := value]]);
    forall vb | vb in s'.pages ensures PageOk(s', vb) { assert PageOk(s, vb); }
    forall g | g in s'.frames ensures FrameOk(s', g, {}) { assert FrameOk(s, g, {}); }
    forall k: nat ensures SlotOk(s', k) { SameSlots(s, s', k); }
    forall vb | Settled(s, vb) && vb != va ensures Settled(s', vb) && Value(s', vb) == Value(s, vb) {
      assert PageOk(s, vb);
    }
  }

  lemma AllocKeepsInv(s: State, va: nat, init: Option<Bytes>, writable: bool)
    requires Inv(s, {}) && (init.Some? ==> |init.value| == 4096)
    ensures Inv(Alloc(s, va, init, writable), {}) && SameValues(s, Alloc(s, va, init, writable))
  {
    if va !in s.pages {
      var s' := Alloc(s, va, init, writable);
      forall vb | vb in s'.pages ensures PageOk(s', vb) { if vb != va { assert PageOk(s, vb); } }
      forall g | g in s'.frames ensures FrameOk(s', g, {}) { assert FrameOk(s, g, {}); }
      forall k: nat ensures SlotOk(s', k) { SameSlots(s, s', k); }
    }
  }

  /** One access: memory behaves as one array of bytes per page, whatever is evicted meanwhile. */
  lemma StepIsInvisible(s: State, e: Event)
    requires Inv(s, {}) && LegalEvent(s, e) && Step(s, e).1 == Handled
    ensures
      var s' := Step(s, e).0;
      && Inv(s', {})
      && (forall va :: Settled(s, va) ==> Settled(s', va) && Value(s', va) == Replay(Value(s, va), va, [e]))
      && (e.Load? ==>
            Settled(s', e.va) && |Value(s', e.va)| == 4096 && ByteAt(s', e.va, e.ofs) == Value(s', e.va)[e.ofs])
  {
    match e
    case Map(va, init, writable) => AllocKeepsInv(s, va, init, writable);
    case Load(va, ofs, c) => AccessKeepsValues(s, va, c);
    case Store(va, ofs, value, c) =>
      AccessKeepsValues(s, va, c);
      StoreKeepsInv(Accessible(s, va, c).0, va, ofs, value);
  }

  ghost predicate LegalRun(s: State, es: seq<Event>)
    decreases |es|
  {
    es == [] || (LegalEvent(s, es[0]) && Step(s, es[0]).1 == Handled && LegalRun(Step(s, es[0]).0, es[1..]))
  }

  ghost function Run(s: State, es: seq<Event>): State
    decreases |es|
  {
    if es == [] then s else Run(Step(s, es[0]).0, es[1..])
  }

  lemma ReplayCons(data: Bytes, va: nat, es: seq<Event>)
    requires es != []
    ensures Replay(data, va, es) == Replay(Replay(data, va, [es[0]]), va, es[1..])
  {
    assert [es[0]][1..] == [];
  }

  /** Over any run that the process survives, a page always holds its earlier contents with the process's own
      stores applied: faults and evictions leave no trace. */
  lemma {:induction false} RunsAreInvisible(s: State, es: seq<Event>)
    requires Inv(s, {}) && LegalRun(s, es)
    ensures
      var s' := Run(s, es);
      Inv(s', {}) && forall va :: Settled(s, va) ==> Settled(s', va) && Value(s', va) == Replay(Value(s, va), va, es)
    decreases |es|
  {
    if es != [] {
      var s1 := Step(s, es[0]).0;
      StepIsInvisible(s, es[0]);
      RunsAreInvisible(s1, es[1..]);
      forall va | Settled(s, va) ensures Value(Run(s, es), va) == Replay(Value(s, va), va, es) {
        ReplayCons(Value(s, va), va, es);
      }
    }
  }

  // ---------- in place ----------

  /** A page that is not in memory, with its contents to be had. */
  ghost predicate Loadable(s: State, va: nat)
    requires va in s.pages
  {
    s.pages[va].kind.Uninit?
    || (s.pages[va].kind.swapIndex.Some? && s.pages[va].kind.swapIndex.value < |s.slots|
        && s.pages[va].kind.swapIndex.value * 8 + 8 <= |s.disk|)
  }

  ghost function LoadedFrom(s: State, va: nat, f: nat): State
    requires va in s.pages && f in s.mem && Loadable(s, va)
  {
    match s.pages[va].kind
    case Uninit(init) => Loaded(s, va, f, if init.Some? then init.value else s.mem[f], s.slots)
    case Anon(Some(slot)) => Loaded(s, va, f, ReadBack(s.disk, slot, 8), s.slots[slot := false])
  }

  lemma ClaimInTwoHalves(s: State, va: nat, c: Choice)
    requires Inv(s, {}) && Legal(s, c) && va in s.pages && va !in s.table
    ensures Claim(s, va, c).1 == Handled ==> FaultHandled(s, va, Claim(s, va, c).0)
    ensures GetFrame(s, c).None? ==> Claim(s, va, c).1 == Panic
    ensures GetFrame(s, c).Some? ==>
      var (s1, f) := GetFrame(s, c).value;
      && va in s1.pages && va !in s1.table && f in s1.mem && Loadable(s1, va)
      && (if c.tables then Claim(s, va, c) == (LoadedFrom(s1, va, f), Handled) else Claim(s, va, c).1 == Killed)
  {
    FaultIsInvisible(s, va, c);
    NoFrame(s, c);
    if FrameAvailable(s, c) {
      var s1, f := GetFrameKeepsInv(s, c);
      UnmappedPage(s1, va, f);
      ClaimLoads(s, va, c, s1, f);
    }
  }

  /** The kernel's data, updated in place: each method does what the function of its name says. */
  class Machine {
    var pages: map<nat, Page>
    var frames: map<nat, Option<nat>>
    var list: seq<nat>
    var mem: map<nat, Bytes>
    var table: map<nat, Mapping>
    const disk: array<Bytes>
    const swapTable: Bitmap

    /** vm_anon_init: eight sectors make a slot. */
    constructor (d: array<Bytes>)
      requires d.Length % 8 == 0 && forall k :: 0 <= k < d.Length ==> |d[k]| == 512
      ensures Valid() && disk == d && pages == map[] && fresh(swapTable) && fresh(swapTable.bits)
    {
      pages, frames, list, mem, table, disk := map[], map[], [], map[], map[], d;
      swapTable := new Bitmap(d.Length / 8);
      new;
      forall k: nat ensures SlotOk(Now(), k) {}
    }

    ghost predicate Shaped()
      reads this, disk, swapTable, swapTable.bits
    {
      swapTable.Valid() && disk.Length == 8 * swapTable.bitCnt
    }

    ghost function Now(): State
      requires Shaped()
      reads this, disk, swapTable, swapTable.bits
    {
      State(pages, frames, list, mem, table, disk[..], swapTable.View())
    }

    ghost predicate Valid()
      reads this, disk, swapTable, swapTable.bits
    {
      Shaped() && Inv(Now(), {})
    }

    /** The eight disk_write calls of anon_swap_out. */
    method WriteSlot(slot: nat, data: Bytes)
      requires |data| == 4096 && slot * 8 + 8 <= disk.Length
      modifies disk
      ensures disk[..] == Written(old(disk[..]), slot, data, 8)
    {
      ghost var before := disk[..];
      var i := 0;
      while i < 8
        invariant 0 <= i <= 8 && disk[..] == Written(before, slot, data, i)
      {
        disk[slot * 8 + i] := data[i * 512..(i + 1) * 512];
        assert disk[..] == Written(before, slot, data, i)[slot * 8 + i := Part(data, i)];
        i := i + 1;
      }
    }

    /** The eight disk_read calls of anon_swap_in. */
    method ReadSlot(slot: nat) returns (data: Bytes)
      requires slot * 8 + 8 <= disk.Length
      ensures data == ReadBack(disk[..], slot, 8)
    {
      data := [];
      var i := 0;
      while i < 8
        invariant 0 <= i <= 8 && data == ReadBack(disk[..], slot, i)
      {
        data := data + disk[slot * 8 + i];
        i := i + 1;
      }
    }

    /** bitmap_scan_and_flip for one slot. */
    method TakeSlot() returns (slot: Option<nat>)
      requires swapTable.Valid()
      modifies swapTable.bits
      ensures swapTable.Valid() && slot == FirstFree(old(swapTable.View()), 0)
      ensures swapTable.View() ==
        if slot.Some? then old(swapTable.View())[slot.value := true] else old(swapTable.View())
    {
      ghost var before := swapTable.View();
      slot := swapTable.ScanAndFlip(0, 1, false);
      FirstRunOfOne(before, slot);
      if slot.Some? { assert swapTable.View() == before[slot.value := true]; }
    }

    /** anon_swap_out; "s" is the state before. */
    method AnonSwapOut(va: nat, ghost s: State) returns (ok: bool)
      requires Shaped() && s == Now() && va in pages && pages[va].kind.Anon?
      requires pages[va].kind.swapIndex.None? ==>
        pages[va].frame.Some? && pages[va].frame.value in mem && |mem[pages[va].frame.value]| == 4096
      modifies this, disk, swapTable.bits
      ensures Shaped() && (ok <==> SwapOut(s, va).Some?)
      ensures ok ==> Now() == SwapOut(s, va).value
    {
      var page := pages[va];
      if page.kind.swapIndex.Some? {
        return true;
      }
      var f := page.frame.value;
      var slot := TakeSlot();
      if slot.None? {
        return false;
      }
      WriteSlot(slot.value, mem[f]);
      pages := pages[va := page.(kind := Anon(Some(slot.value)), frame := None)];
      table := table - {va};
      frames := frames[f := None];
      ok := true;
    }

    /** vm_evict_frame with vm_get_victim; none stands for a panic, or an empty list. */
    method EvictFrame(ghost s: State) returns (f: Option<nat>)
      requires Valid() && s == Now()
      modifies this, disk, swapTable.bits
      ensures Shaped() && (f.Some? <==> Evict(s).Some?)
      ensures f.Some? ==> s.list != [] && f.value == s.list[0] && Now() == Evict(s).value
    {
      if list == [] {
        return None;
      }
      var victim := list[0];
      assert victim in s.list && FrameOk(s, victim, {});
      ghost var owner := LinkedIsMapped(s, victim, {});
      list := list[1..];
      var va := frames[victim].value;
      SwapOutIgnoresList(s, list, va);
      var ok := AnonSwapOut(va, s.(list := list));
      if !ok {
        return None;
      }
      Unlink(va, victim);
      f := Some(victim);
    }

    /** The page is unmapped, and its frame cut off. */
    method Unlink(va: nat, f: nat)
      requires Shaped() && va in pages
      modifies `table, `pages, `frames
      ensures Shaped()
      ensures
        var s := old(Now());
        Now() == s.(table := s.table - {va}, pages := s.pages[va := s.pages[va].(frame := None)],
          frames := s.frames[f := None])
    {
      table := table - {va};
      pages := pages[va := pages[va].(frame := None)];
      frames := frames[f := None];
    }

    /** A new page becomes a frame. */
    method AddFrame(f: nat, garbage: Bytes)
      requires Shaped()
      modifies `frames, `mem, `list
      ensures Shaped()
      ensures
        var s := old(Now());
        Now() == s.(frames := s.frames[f := None], mem := s.mem[f := garbage], list := s.list + [f])
    {
      frames := frames[f := None];
      mem := mem[f := garbage];
      list := list + [f];
    }

    /** vm_get_frame */
    method ObtainFrame(c: Choice, ghost s: State) returns (f: Option<nat>)
      requires Valid() && s == Now()
      modifies this, disk, swapTable.bits
      ensures Shaped() && (f.Some? <==> GetFrame(s, c).Some?)
      ensures f.Some? ==> GetFrame(s, c).value == (Now(), f.value)
    {
      if c.frameStruct && c.userPage.Some? {
        AddFrame(c.userPage.value, c.garbage);
        return c.userPage;
      }
      f := EvictFrame(s);
      if f.Some? {
        list := list + [f.value];
      }
    }

    /** The second half of vm_do_claim_page: link, map and swap in. */
    method MapPage(va: nat, c: Choice, f: nat, ghost s: State) returns (out: Outcome)
      requires Shaped() && s == Now() && va in s.pages && va !in s.table && f in s.mem && Loadable(s, va)
      modifies this, disk, swapTable.bits
      ensures Shaped() && out == if c.tables then Handled else Killed
      ensures out == Handled ==> Now() == LoadedFrom(s, va, f)
    {
      frames := frames[f := Some(va)];
      pages := pages[va := pages[va].(frame := Some(f))];
      if va in table || !c.tables {
        return Killed;
      }
      table := table[va := Mapping(f, pages[va].writable)];
      LoadPage(va, f, s);
      out := Handled;
    }

    /** vm_do_claim_page for a page of the supplemental page table that is not mapped. */
    method DoClaimPage(va: nat, c: Choice, ghost s: State) returns (out: Outcome)
      requires Valid() && s == Now() && Legal(s, c) && va in pages && va !in table
      modifies this, disk, swapTable.bits
      ensures Shaped() && out == Claim(s, va, c).1
      ensures out == Handled ==> Now() == Claim(s, va, c).0 && Valid() && FaultHandled(s, va, Now())
    {
      ClaimInTwoHalves(s, va, c);
      var f := ObtainFrame(c, s);
      if f.None? {
        return Panic;
      }
      out := MapPage(va, c, f.value, Now());
    }

    /** The swap_in operation of the page that has just been mapped to frame "f"; "s" is the state before that. */
    method LoadPage(va: nat, f: nat, ghost s: State)
      requires Shaped() && va in s.pages && f in s.mem && va in pages && Loadable(s, va)
      requires Now() == s.(frames := s.frames[f := Some(va)], pages := s.pages[va := s.pages[va].(frame := Some(f))],
                           table := s.table[va := Mapping(f, s.pages[va].writable)])
      modifies this, disk, swapTable.bits
      ensures Shaped() && Now() == LoadedFrom(s, va, f)
    {
      var page := pages[va];
      match page.kind
      case Uninit(init) =>
        // anon_initializer, then the initializer of the page
        pages := pages[va := page.(kind := Anon(None))];
        if init.Some? {
          mem := mem[f := init.value];
        } else {
          assert mem[f := mem[f]] == mem;
        }
      case Anon(Some(slot)) =>
        var data := ReadSlot(slot);
        mem := mem[f := data];
        swapTable.Reset(slot);
        pages := pages[va := page.(kind := Anon(None))];
    }
  }

  lemma SwapOutIgnoresList(s: State, list: seq<nat>, va: nat)
    requires va in s.pages
    ensures SwapOut(s.(list := list), va).Some? <==> SwapOut(s, va).Some?
    ensures SwapOut(s, va).Some? ==> SwapOut(s.(list := list), va).value == SwapOut(s, va).value.(list := list)
  {
  }

  lemma FirstRunOfOne(slots: seq<bool>, r: Option<nat>)
    requires IsFirstRun(slots, 0, 1, false, r)
    ensures r == FirstFree(slots, 0)
  {
    forall k | 0 <= k < |slots| ensures AllAre(slots, k, 1, false) <==> !slots[k] {}
  }
}
