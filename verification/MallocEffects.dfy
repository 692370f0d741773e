/** What calls of the allocators change, over every history: which blocks there are, and that no page is lost. */
module MallocEffects {
  import opened Bitmaps
  import opened Malloc
  import opened Sequences

  // ---------- the blocks ----------

  /** One more block, of the size asked for, that was not in use. */
  ghost predicate Gains(live: map<Block, nat>, live': map<Block, nat>, size: nat) {
    exists c :: c !in live && live' == live[c := size]
  }

  ghost predicate Swaps(live: map<Block, nat>, live': map<Block, nat>, b: Block, size: nat) {
    exists c :: c !in live && live' == live[c := size] - {b}
  }

  /** What each call does to the blocks in use and to the pages that others have. */
  ghost predicate Changes(s: State, e: Event, s': State) {
    match e
    case GetPages(cnt) =>
      s'.live == s.live
      && (s'.foreign == s.foreign || exists f: nat :: f !in s.foreign && s'.foreign == s.foreign[f := cnt])
    case FreePages(f) => s'.live == s.live && s'.foreign == s.foreign - {f}
    case Malloc(size) => s'.foreign == s.foreign && (s' == s || Gains(s.live, s'.live, size))
    case Free(b) => s'.foreign == s.foreign && s'.live == s.live - {b}
    case Realloc(b, size) =>
      s'.foreign == s.foreign
      && if size == 0 then s'.live == s.live - {b} else s' == s || Swaps(s.live, s'.live, b, size)
  }

  lemma NotYetForeign(s: State, a: nat, cnt: nat)
    requires Inv(s, {}) && cnt > 0 && a + cnt <= |s.used| && AllAre(s.used, a, cnt, false)
    ensures a !in s.foreign && a !in s.arenas
  {
    FreePagesAreApart(s, a, cnt);
  }

  lemma GetPagesChanges(s: State, cnt: nat)
    requires Inv(s, {})
    ensures Changes(s, GetPages(cnt), Got(s, cnt))
  {
    var fit := FirstFit(s.used, cnt);
    if cnt > 0 && fit.Some? {
      NotYetForeign(s, fit.value, cnt);
      assert Got(s, cnt).foreign == s.foreign[fit.value := cnt];
    }
  }

  lemma MallocChanges(s: State, size: nat)
    requires Inv(s, {}) && NoWrap(size)
    ensures Changes(s, Malloc(size), Malloced(s, size).0)
    ensures Malloced(s, size).1.None? ==> Malloced(s, size).0 == s
    ensures Malloced(s, size).1.Some? ==>
      Malloced(s, size).1.value !in s.live && Malloced(s, size).0.live == s.live[Malloced(s, size).1.value := size]
  {
    MallocedIsOneMore(s, size);
  }

  lemma ReallocChanges(s: State, b: Block, size: nat)
    requires Inv(s, {}) && Enabled(s, Realloc(b, size))
    ensures Changes(s, Realloc(b, size), Apply(s, Realloc(b, size)))
  {
    if size == 0 {
      FreedKeepsInv(s, b);
    } else {
      ReallocIs(s, b, size);
      MallocChanges(s, size);
      MallocedIsOneMore(s, size);
      var (s1, c) := Malloced(s, size);
      if c.Some? { FreedKeepsInv(s1, b); }
    }
  }

  /** Every call changes the blocks in use exactly as it promises. */
  lemma ChangesExactly(s: State, e: Event)
    requires Inv(s, {}) && Enabled(s, e)
    ensures Changes(s, e, Apply(s, e))
  {
    match e
    case GetPages(cnt) => GetPagesChanges(s, cnt);
    case FreePages(f) =>
    case Malloc(size) => MallocChanges(s, size);
    case Free(b) => FreedKeepsInv(s, b);
    case Realloc(b, size) => ReallocChanges(s, b, size);
  }

  // ---------- the pages ----------

  ghost predicate InSpan(s: State, a: nat, x: nat) {
    a in s.arenas && a <= x < a + Span(s.arenas[a])
  }

  ghost predicate InRange(s: State, f: nat, x: nat) {
    f in s.foreign && f <= x < f + s.foreign[f]
  }

  /** An arena, a big block or another client has the page. */
  ghost predicate Had(s: State, x: nat) {
    (exists a :: InSpan(s, a, x)) || (exists f :: InRange(s, f, x))
  }

  /** Of the pages that were free at first, exactly those are in use that somebody has. */
  ghost predicate Accounted(s: State, used0: seq<bool>) {
    && |s.used| == |used0|
    && forall x :: 0 <= x < |used0| ==>
         (s.used[x] <==> used0[x] || Had(s, x)) && !(used0[x] && Had(s, x))
  }

  lemma SameSpans(s: State, s': State, used0: seq<bool>)
    requires Accounted(s, used0) && s'.used == s.used && s'.foreign == s.foreign && s'.arenas.Keys == s.arenas.Keys
    requires forall a :: a in s.arenas ==> Span(s'.arenas[a]) == Span(s.arenas[a])
    ensures Accounted(s', used0)
  {
    forall x: nat ensures Had(s', x) <==> Had(s, x) {
      if a :| InSpan(s, a, x) { assert InSpan(s', a, x); }
      if a :| InSpan(s', a, x) { assert InSpan(s, a, x); }
      forall f ensures InRange(s', f, x) <==> InRange(s, f, x) {}
    }
  }

  /** Somebody gets free pages. */
  lemma PagesTaken(s: State, s': State, used0: seq<bool>, a: nat, n: nat)
    requires Accounted(s, used0) && a + n <= |s.used| && AllAre(s.used, a, n, false)
    requires s'.used == SetRange(s.used, a, n, true)
    requires forall x: nat :: Had(s', x) <==> Had(s, x) || a <= x < a + n
    ensures Accounted(s', used0)
  {
    forall x | a <= x < a + n ensures !s.used[x] {}
  }

  /** Somebody gives pages back. */
  lemma GivenBack(s: State, s': State, used0: seq<bool>, a: nat, n: nat)
    requires Accounted(s, used0) && a + n <= |s.used|
    requires s'.used == SetRange(s.used, a, n, false)
    requires forall x: nat :: a <= x < a + n ==> Had(s, x)
    requires forall x: nat :: Had(s', x) <==> Had(s, x) && !(a <= x < a + n)
    ensures Accounted(s', used0)
  {
  }

  lemma ArenaAdded(s: State, s': State, used0: seq<bool>, a: nat, n: nat)
    requires Accounted(s, used0) && a + n <= |s.used| && AllAre(s.used, a, n, false) && a !in s.arenas
    requires s'.foreign == s.foreign && s'.arenas.Keys == s.arenas.Keys + {a} && Span(s'.arenas[a]) == n
    requires forall b :: b in s.arenas ==> s'.arenas[b] == s.arenas[b]
    requires s'.used == SetRange(s.used, a, n, true)
    ensures Accounted(s', used0)
  {
    forall x: nat ensures Had(s', x) <==> Had(s, x) || a <= x < a + n {
      forall f ensures InRange(s', f, x) <==> InRange(s, f, x) {}
      if b :| InSpan(s, b, x) { assert InSpan(s', b, x); }
      if b :| InSpan(s', b, x) { assert b != a ==> InSpan(s, b, x); }
      if a <= x < a + n { assert InSpan(s', a, x); }
    }
    PagesTaken(s, s', used0, a, n);
  }

  lemma ArenaGone(s: State, s': State, used0: seq<bool>, a: nat, n: nat)
    requires Accounted(s, used0) && ArenasOk(s) && Apart(s) && ForeignOk(s) && a in s.arenas && n == Span(s.arenas[a])
    requires a + n <= |s.used| && s'.foreign == s.foreign && s'.arenas == s.arenas - {a}
    requires s'.used == SetRange(s.used, a, n, false)
    ensures Accounted(s', used0)
  {
    forall x: nat ensures Had(s', x) <==> Had(s, x) && !(a <= x < a + n) {
      forall b | InSpan(s', b, x) ensures InSpan(s, b, x) && !(a <= x < a + n) {}
      forall f | InRange(s, f, x) ensures InRange(s', f, x) && !(a <= x < a + n) { assert RangeOk(s, f); }
      forall f | InRange(s', f, x) ensures InRange(s, f, x) {}
      forall b | InSpan(s, b, x) && b != a ensures InSpan(s', b, x) {}
    }
    forall x: nat | a <= x < a + n ensures Had(s, x) { assert InSpan(s, a, x); }
    GivenBack(s, s', used0, a, n);
  }

  lemma GotAccounts(s: State, used0: seq<bool>, cnt: nat)
    requires Inv(s, {}) && Accounted(s, used0)
    ensures Accounted(Got(s, cnt), used0)
  {
    var (s', fit) := (Got(s, cnt), FirstFit(s.used, cnt));
    if cnt > 0 && fit.Some? {
      var a := fit.value;
      NotYetForeign(s, a, cnt);
      forall x: nat ensures Had(s', x) <==> Had(s, x) || a <= x < a + cnt {
        forall b ensures InSpan(s', b, x) <==> InSpan(s, b, x) {}
        if f :| InRange(s, f, x) { assert InRange(s', f, x); }
        if f :| InRange(s', f, x) { assert f != a ==> InRange(s, f, x); }
        if a <= x < a + cnt { assert InRange(s', a, x); }
      }
      PagesTaken(s, s', used0, a, cnt);
    }
  }

  lemma GivenAccounts(s: State, used0: seq<bool>, f: nat)
    requires Inv(s, {}) && Accounted(s, used0) && f in s.foreign
    ensures Accounted(Given(s, f), used0)
  {
    var (s', n) := (Given(s, f), s.foreign[f]);
    assert RangeOk(s, f);
    forall x: nat ensures Had(s', x) <==> Had(s, x) && !(f <= x < f + n) {
      if g :| InRange(s, g, x) { assert g != f ==> InRange(s', g, x); }
      if g :| InRange(s', g, x) { assert InRange(s, g, x) && g != f; }
      forall a ensures InSpan(s', a, x) <==> InSpan(s, a, x) {}
    }
    forall x: nat | f <= x < f + n ensures Had(s, x) { assert InRange(s, f, x); }
    GivenBack(s, s', used0, f, n);
  }

  lemma MallocedAccounts(s: State, used0: seq<bool>, size: nat)
    requires Inv(s, {}) && Accounted(s, used0) && NoWrap(size)
    ensures Accounted(Malloced(s, size).0, used0)
  {
    var (s', d) := (Malloced(s, size).0, DescFor(size));
    if s' != s {
      if d == 7 {
        var a := FirstFit(s.used, BigPages(size)).value;
        BigPagesSuffice(size);
        NotYetForeign(s, a, BigPages(size));
        ArenaAdded(s, s', used0, a, BigPages(size));
      } else if s.lists[d] != [] {
        assert ListOk(s, d) && s.lists[d][0] in s.lists[d] && IsBlockOf(s, s.lists[d][0], d);
        PoppedSpans(s, d, size, used0);
      } else {
        var a := FirstFit(s.used, 1).value;
        NotYetForeign(s, a, 1);
        ArenaAdded(s, NewArena(s, d, a), used0, a, 1);
        PoppedSpans(NewArena(s, d, a), d, size, used0);
      }
    }
  }

  lemma PoppedSpans(s: State, d: nat, size: nat, used0: seq<bool>)
    requires Accounted(s, used0) && d < |s.lists| && s.lists[d] != [] && s.lists[d][0].arena in s.arenas
    requires s.arenas[s.lists[d][0].arena].desc.Some?
    ensures Accounted(Pop(s, d, size), used0)
  {
    SameSpans(s, Pop(s, d, size), used0);
  }

  lemma FreedAccounts(s: State, used0: seq<bool>, b: Block)
    requires Inv(s, {}) && Accounted(s, used0) && b in s.live
    ensures b.arena in s.arenas && Accounted(Freed(s, b), used0)
  {
    assert Taken(s, b) && ArenaOk(s, b.arena);
    var a := b.arena;
    if s.arenas[a].desc.None? {
      ArenaGone(s, Freed(s, b), used0, a, s.arenas[a].freeCnt);
    } else {
      var s1 := Push(s, b);
      SameSpans(s, s1, used0);
      if s1.arenas[a].freeCnt >= Per(s.arenas[a].desc.value) {
        PushKeepsInv(s, b);
        ArenaGone(s1, Drop(s1, a), used0, a, 1);
      }
    }
  }

  lemma StepAccounts(s: State, used0: seq<bool>, e: Event)
    requires Inv(s, {}) && Accounted(s, used0) && Enabled(s, e)
    ensures Accounted(Apply(s, e), used0)
  {
    match e
    case GetPages(cnt) => GotAccounts(s, used0, cnt);
    case FreePages(f) => GivenAccounts(s, used0, f);
    case Malloc(size) => MallocedAccounts(s, used0, size);
    case Free(b) => FreedAccounts(s, used0, b);
    case Realloc(b, size) =>
      if size == 0 {
        FreedAccounts(s, used0, b);
      } else {
        ReallocIs(s, b, size);
        MallocedIsOneMore(s, size);
        MallocedAccounts(s, used0, size);
        var (s1, c) := Malloced(s, size);
        if c.Some? { FreedAccounts(s1, used0, b); }
      }
  }

  lemma {:induction false} RunAccounts(s: State, used0: seq<bool>, es: seq<Event>)
    requires Inv(s, {}) && Accounted(s, used0) && Legal(s, es)
    ensures Accounted(Run(s, es), used0)
    decreases |es|
  {
    if es != [] {
      StepKeepsInv(s, es[0]);
      StepAccounts(s, used0, es[0]);
      RunAccounts(Apply(s, es[0]), used0, es[1..]);
    }
  }

  /** No page is lost: after every history that began with the pages "used0" in use, the pages in use are these, those
      of arenas and big blocks with a block in use, and those that others have; so when all of these have been given
      back the pool is as it was. */
  lemma NoPageIsLost(used0: seq<bool>, es: seq<Event>)
    requires Legal(Initial(used0), es)
    ensures Accounted(Run(Initial(used0), es), used0)
    ensures
      var s := Run(Initial(used0), es);
      s.live == map[] && s.foreign == map[] ==> s.used == used0 && s.arenas == map[]
  {
    var s := Run(Initial(used0), es);
    InitialOk(used0);
    RunAccounts(Initial(used0), used0, es);
    RunKeepsInv(Initial(used0), es);
    if s.live == map[] && s.foreign == map[] {
      forall a ensures a !in s.arenas { if a in s.arenas { SomeBlockInUse(s, a); } }
      assert forall x: nat :: !Had(s, x);
    }
  }

  /** An arena that is there has a block in use. */
  lemma SomeBlockInUse(s: State, a: nat)
    requires Inv(s, {}) && a in s.arenas
    ensures s.live != map[]
  {
    assert ArenaOk(s, a) && NotFree(s, a);
    if s.arenas[a].desc.None? {
      assert Taken(s, Block(a, 0));
    } else {
      var d := s.arenas[a].desc.value;
      assert FreeIn(s.lists[d], a, Per(d)) != Below(Per(d));
      var k: nat :| k < Per(d) && Block(a, k) !in s.lists[d];
      assert Taken(s, Block(a, k));
    }
  }
}
