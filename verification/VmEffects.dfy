/** What a user program meets when it accesses memory: when an access is allowed, when it kills the process, and which
    page has to make room. */
module VmEffects {
  import opened Vm
  import opened Sequences

  // ---------- permissions ----------

  /** Every page is still there, with the permission it had. */
  ghost predicate SamePermissions(s: State, s': State) {
    forall va :: va in s.pages ==> va in s'.pages && s'.pages[va].writable == s.pages[va].writable
  }

  lemma EvictKeepsPermissions(s: State)
    ensures Evict(s).Some? ==> SamePermissions(s, Evict(s).value) && Evict(s).value.pages.Keys == s.pages.Keys
  {
  }

  lemma GetFrameKeepsPermissions(s: State, c: Choice)
    ensures GetFrame(s, c).Some? ==>
      SamePermissions(s, GetFrame(s, c).value.0) && GetFrame(s, c).value.0.pages.Keys == s.pages.Keys
  {
    EvictKeepsPermissions(s);
  }

  lemma SwapInKeepsPermissions(s: State, va: nat, f: nat)
    requires va in s.pages
    ensures SamePermissions(s, SwapIn(s, va, f).0) && SwapIn(s, va, f).0.pages.Keys == s.pages.Keys
  {
  }

  lemma LinkKeepsPermissions(s: State, va: nat, f: nat)
    requires va in s.pages
    ensures
      var s2 := s.(frames := s.frames[f := Some(va)], pages := s.pages[va := s.pages[va].(frame := Some(f))]);
      && SamePermissions(s, s2) && s2.pages.Keys == s.pages.Keys
      && var s3 := s2.(table := s2.table[va := Mapping(f, s2.pages[va].writable)]);
      SamePermissions(s, SwapIn(s3, va, f).0) && SwapIn(s3, va, f).0.pages.Keys == s.pages.Keys
  {
    var s2 := s.(frames := s.frames[f := Some(va)], pages := s.pages[va := s.pages[va].(frame := Some(f))]);
    SwapInKeepsPermissions(s2.(table := s2.table[va := Mapping(f, s2.pages[va].writable)]), va, f);
  }

  lemma ClaimKeepsPermissions(s: State, va: nat, c: Choice)
    ensures SamePermissions(s, Claim(s, va, c).0) && Claim(s, va, c).0.pages.Keys == s.pages.Keys
  {
    if va in s.pages && GetFrame(s, c).Some? {
      GetFrameKeepsPermissions(s, c);
      var (s1, f) := GetFrame(s, c).value;
      LinkKeepsPermissions(s1, va, f);
    }
  }

  lemma AccessKeepsPermissions(s: State, va: nat, c: Choice)
    ensures SamePermissions(s, Accessible(s, va, c).0) && Accessible(s, va, c).0.pages.Keys == s.pages.Keys
  {
    ClaimKeepsPermissions(s, va, c);
  }

  lemma StoreLeavesPages(s: State, va: nat, ofs: nat, value: int, c: Choice)
    ensures Step(s, Store(va, ofs, value, c)).0.pages == Accessible(s, va, c).0.pages
  {
  }

  /** No step takes a page away or changes its permission; a page is made with the permission asked for, once. */
  lemma PermissionsStay(s: State, e: Event)
    ensures SamePermissions(s, Step(s, e).0)
    ensures Step(s, e).0.pages.Keys == s.pages.Keys + if e.Map? then {e.va} else {}
    ensures e.Map? && e.va !in s.pages ==> Step(s, e).0.pages[e.va] == Page(Uninit(e.init), None, e.writable)
  {
    match e
    case Map(va, init, writable) =>
    case Load(va, _, c) => AccessKeepsPermissions(s, va, c);
    case Store(va, ofs, value, c) =>
      AccessKeepsPermissions(s, va, c);
      StoreLeavesPages(s, va, ofs, value, c);
  }

  // ---------- which accesses are allowed ----------

  /** The permission in the page table is that of the page. */
  lemma MappedAsPermitted(s: State, va: nat)
    requires Inv(s, {}) && va in s.table
    ensures va in s.pages && s.table[va].writable == s.pages[va].writable
  {
    assert PageOk(s, va);
  }

  lemma StoreToMapped(s: State, va: nat, ofs: nat, value: int, c: Choice)
    requires Inv(s, {}) && va in s.table && ofs < 4096
    ensures va in s.pages
    ensures
      var (s', out) := Step(s, Store(va, ofs, value, c));
      if s.pages[va].writable then out == Handled && ByteAt(s', va, ofs) == value else out == Killed && s' == s
  {
    MappedAsPermitted(s, va);
    MappedIsInMemory(s, va);
  }

  /** How a store ends: on a mapped page it goes through exactly where the page is writable, and otherwise kills the
      process and changes nothing; on a page that is not in memory the fault is handled first; elsewhere it kills. */
  lemma StoreEnds(s: State, va: nat, ofs: nat, value: int, c: Choice)
    requires Inv(s, {}) && LegalEvent(s, Store(va, ofs, value, c))
    ensures
      var (s', out) := Step(s, Store(va, ofs, value, c));
      if va !in s.pages then out == Killed && s' == s
      else if va in s.table then
        if s.pages[va].writable then out == Handled && ByteAt(s', va, ofs) == value else out == Killed && s' == s
      else if !FrameAvailable(s, c) then out == Panic
      else
        && (out == Handled <==> c.tables && s.pages[va].writable) && (out != Handled ==> out == Killed)
        && (out == Handled ==> ByteAt(s', va, ofs) == value) && (out == Killed && c.tables ==> SameValues(s, s'))
  {
    if va in s.table {
      StoreToMapped(s, va, ofs, value, c);
    } else if va in s.pages {
      FaultIsInvisible(s, va, c);
      if Claim(s, va, c).1 == Handled {
        var s1 := Claim(s, va, c).0;
        FaultKeepsValues(s, va, c);
        AccessKeepsPermissions(s, va, c);
        StoreToMapped(s1, va, ofs, value, c);
      }
    } else {
      assert va !in s.table;
    }
  }

  /** A load goes through on every page of the process that is mapped or can be; it asks for no permission. */
  lemma LoadEnds(s: State, va: nat, ofs: nat, c: Choice)
    requires Inv(s, {}) && LegalEvent(s, Load(va, ofs, c))
    ensures
      var (s', out) := Step(s, Load(va, ofs, c));
      if va !in s.pages then out == Killed && s' == s
      else if va in s.table then out == Handled && s' == s
      else out == if !FrameAvailable(s, c) then Panic else if !c.tables then Killed else Handled
  {
    if va in s.pages && va !in s.table { FaultIsInvisible(s, va, c); }
    if va in s.table { assert va in s.pages; }
  }

  /** What the run has asked for a page: the permission of its first Map. */
  ghost function Asked(es: seq<Event>, va: nat): Option<bool>
    decreases |es|
  {
    if es == [] then None
    else if es[0].Map? && es[0].va == va then Some(es[0].writable)
    else Asked(es[1..], va)
  }

  lemma {:induction false} PermissionAsAsked(s: State, es: seq<Event>, va: nat)
    ensures va in s.pages ==> va in Run(s, es).pages && Run(s, es).pages[va].writable == s.pages[va].writable
    ensures va !in s.pages ==>
      if va in Run(s, es).pages then Asked(es, va) == Some(Run(s, es).pages[va].writable) else Asked(es, va) == None
    decreases |es|
  {
    if es != [] {
      PermissionsStay(s, es[0]);
      PermissionAsAsked(Step(s, es[0]).0, es[1..], va);
    }
  }

  /** Over every run from a process without pages: a store to a page in memory goes through if and only if the page was
      first asked for as writable, whatever has been evicted and brought back since. */
  lemma StoresAsAsked(s: State, es: seq<Event>, va: nat, ofs: nat, value: int, c: Choice)
    requires Inv(s, {}) && s.pages == map[] && LegalRun(s, es) && va in Run(s, es).table && ofs < 4096
    ensures Step(Run(s, es), Store(va, ofs, value, c)).1 == if Asked(es, va) == Some(true) then Handled else Killed
  {
    RunsAreInvisible(s, es);
    PermissionAsAsked(s, es, va);
    StoreToMapped(Run(s, es), va, ofs, value, c);
  }

  // ---------- first in, first out ----------

  /** The page is in the i-th frame of the list. */
  ghost predicate InLine(s: State, i: nat, va: nat) {
    i < |s.list| && va in s.table && s.table[va].frame == s.list[i]
  }

  /** The access needs a frame and there is no new one. */
  ghost predicate Evicts(s: State, va: nat, c: Choice) {
    va !in s.table && !(c.frameStruct && c.userPage.Some?)
  }

  lemma ClaimedList(s: State, va: nat, c: Choice)
    requires Claim(s, va, c).1 == Handled && GetFrame(s, c).Some?
    ensures
      var (s', s1, f) := (Claim(s, va, c).0, GetFrame(s, c).value.0, GetFrame(s, c).value.1);
      s'.list == s1.list && s'.table.Keys == s1.table.Keys + {va} && s'.table[va].frame == f
      && forall vb :: vb in s1.table && vb != va ==> s'.table[vb] == s1.table[vb]
  {
  }

  lemma NewFrameList(s: State, c: Choice)
    requires c.frameStruct && c.userPage.Some?
    ensures
      GetFrame(s, c).Some? && GetFrame(s, c).value.1 == c.userPage.value
      && GetFrame(s, c).value.0.list == s.list + [c.userPage.value] && GetFrame(s, c).value.0.table == s.table
  {
  }

  lemma OldFrameList(s: State, c: Choice) returns (vb: nat)
    requires Inv(s, {}) && !(c.frameStruct && c.userPage.Some?) && GetFrame(s, c).Some?
    ensures
      var (s1, f) := GetFrame(s, c).value;
      s.list != [] && f == s.list[0] && s1.list == s.list[1..] + [f] && s1.table == s.table - {vb}
      && forall va :: InLine(s, 0, va) <==> va == vb
  {
    EvictFails(s);
    var f, slot;
    vb, f, slot := EvictIs(s);
    assert PageOk(s, vb);
    forall va | InLine(s, 0, va) ensures va == vb { assert PageOk(s, va); }
  }

  lemma NewIsLast(s: State, s': State, va: nat, f: nat)
    requires va !in s.table && s'.list == s.list + [f] && s'.table.Keys == s.table.Keys + {va}
    requires s'.table[va].frame == f && forall vb :: vb in s.table ==> s'.table[vb] == s.table[vb]
    ensures InLine(s', |s'.list| - 1, va) && forall i: nat, vb :: InLine(s, i, vb) ==> InLine(s', i, vb)
  {
  }

  lemma FirstIsLast(s: State, s': State, va: nat, vb: nat)
    requires va !in s.table && s.list != [] && NoDup(s.list) && vb in s.table && s.table[vb].frame == s.list[0]
    requires s'.list == s.list[1..] + [s.list[0]] && s'.table.Keys == s.table.Keys - {vb} + {va}
    requires s'.table[va].frame == s.list[0]
    requires forall u :: u in s.table && u != vb ==> s'.table[u] == s.table[u]
    ensures InLine(s', |s'.list| - 1, va) && vb !in s'.table
    ensures forall i: nat, u :: i > 0 && InLine(s, i, u) ==> InLine(s', i - 1, u)
  {
  }

  /** The page that is brought in is last in line; the others move up by one if a page had to make room, and that is the
      first in line. */
  lemma FaultIsFifo(s: State, va: nat, c: Choice)
    requires Inv(s, {}) && Legal(s, c) && va !in s.table && Claim(s, va, c).1 == Handled
    ensures
      var s' := Claim(s, va, c).0;
      && s'.list != [] && InLine(s', |s'.list| - 1, va)
      && (if Evicts(s, va, c)
          then (forall i: nat, vb :: i > 0 && InLine(s, i, vb) ==> InLine(s', i - 1, vb))
               && (forall vb :: InLine(s, 0, vb) ==> vb !in s'.table)
          else forall i: nat, vb :: InLine(s, i, vb) ==> InLine(s', i, vb))
  {
    assert GetFrame(s, c).Some? by { FaultIsInvisible(s, va, c); NoFrame(s, c); }
    ClaimedList(s, va, c);
    var s' := Claim(s, va, c).0;
    if Evicts(s, va, c) {
      var vb := OldFrameList(s, c);
      assert InLine(s, 0, vb);
      FirstIsLast(s, s', va, vb);
    } else {
      NewFrameList(s, c);
      NewIsLast(s, s', va, c.userPage.value);
    }
  }

  /** How many pages the step makes give way. */
  ghost function Evicting(s: State, e: Event): nat {
    if !e.Map? && Evicts(s, e.va, e.c) then 1 else 0
  }

  /** How many the run has made give way. */
  ghost function Evictions(s: State, es: seq<Event>): nat
    decreases |es|
  {
    if es == [] then 0 else Evicting(s, es[0]) + Evictions(Step(s, es[0]).0, es[1..])
  }

  lemma AccessIsFifo(s: State, vb: nat, c: Choice, i: nat, va: nat)
    requires Inv(s, {}) && Legal(s, c) && Accessible(s, vb, c).1 == Handled && InLine(s, i, va)
    ensures
      var s1 := Accessible(s, vb, c).0;
      if !Evicts(s, vb, c) then InLine(s1, i, va) else if i > 0 then InLine(s1, i - 1, va) else va !in s1.table
  {
    if vb !in s.table { FaultIsFifo(s, vb, c); }
  }

  lemma StepIsFifo(s: State, e: Event, i: nat, va: nat)
    requires Inv(s, {}) && LegalEvent(s, e) && Step(s, e).1 == Handled && InLine(s, i, va)
    ensures
      if Evicting(s, e) <= i then InLine(Step(s, e).0, i - Evicting(s, e), va) else va !in Step(s, e).0.table
  {
    if !e.Map? {
      StoreLeavesLine(s, e);
      AccessIsFifo(s, e.va, e.c, i, va);
    }
  }

  lemma StoreLeavesLine(s: State, e: Event)
    requires !e.Map?
    ensures
      var (s', s1) := (Step(s, e).0, Accessible(s, e.va, e.c).0);
      s'.list == s1.list && s'.table == s1.table
    ensures Step(s, e).1 == Handled ==> Accessible(s, e.va, e.c).1 == Handled
  {
  }

  lemma StepKeepsInv(s: State, e: Event)
    requires Inv(s, {}) && LegalEvent(s, e) && Step(s, e).1 == Handled
    ensures Inv(Step(s, e).0, {})
  {
    StepIsInvisible(s, e);
  }

  ghost predicate TakenAt(s: State, es: seq<Event>, j: nat, i: nat, va: nat) {
    j < |es| && Evictions(s, es[..j]) == i && InLine(Run(s, es[..j]), 0, va) && va !in Run(s, es[..j + 1]).table
  }

  lemma TakenNow(s: State, es: seq<Event>, va: nat)
    requires es != [] && InLine(s, 0, va) && va !in Step(s, es[0]).0.table && Evicting(s, es[0]) == 1
    ensures InTurn(s, es, 0, va, 0)
  {
    assert es[..1][1..] == [] && es[..0] == [];
  }

  /** The page that was i-th in line has moved up with each eviction, or been taken by one. */
  ghost predicate InTurn(s: State, es: seq<Event>, i: nat, va: nat, j: nat) {
    if Evictions(s, es) <= i then InLine(Run(s, es), i - Evictions(s, es), va) else TakenAt(s, es, j, i, va)
  }

  lemma InTurnLater(s: State, es: seq<Event>, i: nat, va: nat, k: nat)
    requires es != [] && Evicting(s, es[0]) <= i
    requires InTurn(Step(s, es[0]).0, es[1..], i - Evicting(s, es[0]), va, k)
    ensures InTurn(s, es, i, va, k + 1)
  {
    var s1 := Step(s, es[0]).0;
    if Evictions(s1, es[1..]) > i - Evicting(s, es[0]) {
      assert es[..k + 1][1..] == es[1..][..k] && es[..k + 2][1..] == es[1..][..k + 1];
    }
  }

  /** Pages give way in the order in which they came into memory: the page that is i-th in line stays where it is for i
      evictions, and the next one takes it. */
  lemma {:induction false} EvictedInTurn(s: State, es: seq<Event>, i: nat, va: nat) returns (j: nat)
    requires Inv(s, {}) && LegalRun(s, es) && InLine(s, i, va)
    ensures InTurn(s, es, i, va, j)
    decreases |es|
  {
    j := 0;
    if es != [] {
      StepKeepsInv(s, es[0]);
      StepIsFifo(s, es[0], i, va);
      if Evicting(s, es[0]) > i {
        TakenNow(s, es, va);
      } else {
        j := EvictedInTurn(Step(s, es[0]).0, es[1..], i - Evicting(s, es[0]), va);
        InTurnLater(s, es, i, va, j);
        j := j + 1;
      }
    }
  }
}
