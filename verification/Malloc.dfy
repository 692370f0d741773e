/** threads/malloc.c: blocks of seven sizes cut from one-page arenas, and big blocks of whole pages. */
module Malloc {
  import opened Bitmaps
  import opened Palloc
  import opened Sequences

  // ---------- sizes and addresses ----------

  /** The block size of descriptor "d": malloc_init doubles from 16. */
  function Size(d: nat): (s: nat)
    ensures s >= 16
  {
    if d == 0 then 16 else 2 * Size(d - 1)
  }

  /** Division and multiplication by counting, which is all that block addresses need. */
  function Quot(a: nat, b: nat): nat
    requires b > 0
  {
    if a < b then 0 else 1 + Quot(a - b, b)
  }

  function Times(k: nat, s: nat): nat {
    if k == 0 then 0 else Times(k - 1, s) + s
  }

  lemma {:induction false} QuotIsFloor(a: nat, b: nat)
    requires b > 0
    ensures Times(Quot(a, b), b) <= a < Times(Quot(a, b), b) + b
  {
    if a >= b { QuotIsFloor(a - b, b); }
  }

  lemma {:induction false} QuotOfTimes(k: nat, s: nat)
    requires s > 0
    ensures Quot(Times(k, s), s) == k
  {
    if k > 0 { QuotOfTimes(k - 1, s); }
  }

  lemma {:induction false} TimesGrows(k: nat, n: nat, s: nat)
    requires k < n
    ensures Times(k, s) + s <= Times(n, s)
  {
    if k < n - 1 { TimesGrows(k, n - 1, s); }
  }

  /** (PGSIZE - sizeof (struct arena)) / block_size; the arena header takes 24 bytes. */
  function Per(d: nat): nat {
    Quot(4072, Size(d))
  }

  lemma {:induction false} SizesGrow(c: nat, d: nat)
    requires c <= d
    ensures Size(c) <= Size(d)
  {
    if c < d { SizesGrow(c, d - 1); }
  }

  /** There are seven sizes, 16 to 1024 bytes, and every arena has room for blocks. */
  lemma SevenSizes(d: nat)
    requires d < 7
    ensures Size(6) == 1024 && Size(7) == 2048 && Per(d) >= 3
  {
    assert Size(1) == 32;
    assert Size(3) == 128;
    assert Size(5) == 512;
    SizesGrow(d, 6);
    QuotIsFloor(4072, Size(d));
    if Per(d) < 3 { TimesAtMost(Per(d), Size(d)); }
  }

  lemma TimesAtMost(k: nat, s: nat)
    requires k < 3
    ensures Times(k, s) <= 2 * s
  {
    if k > 0 { assert Times(k - 1, s) <= s; }
  }

  /** Every block lies behind the header and within the page. */
  lemma BlockFits(d: nat, k: nat)
    requires k < Per(d)
    ensures 24 + Times(k, Size(d)) + Size(d) <= 4096
  {
    TimesGrows(k, Per(d), Size(d));
    QuotIsFloor(4072, Size(d));
  }

  /** The number of pages of a big block: DIV_ROUND_UP (size + sizeof *a, PGSIZE) in 64-bit arithmetic. */
  function BigPages(size: nat): nat {
    (size + 24 + 4095) % 0x1_0000_0000_0000_0000 / 4096
  }

  /** The pages hold the request exactly when the 64-bit sum has not wrapped around. */
  lemma BigPagesSuffice(size: nat)
    requires size < 0x1_0000_0000_0000_0000
    ensures BigPages(size) * 4096 >= size + 24 <==> size + 4119 < 0x1_0000_0000_0000_0000
    ensures size + 4119 < 0x1_0000_0000_0000_0000 ==> BigPages(size) >= 1
  {
    var sum := size + 4119;
    if sum < 0x1_0000_0000_0000_0000 {
      assert sum % 0x1_0000_0000_0000_0000 == sum;
      assert sum / 4096 * 4096 + 4095 >= sum;
    } else {
      assert sum % 0x1_0000_0000_0000_0000 == sum - 0x1_0000_0000_0000_0000;
    }
  }

  // ---------- state ----------

  /** A block: the number of its arena's page, and its index in the arena. */
  datatype Block = Block(arena: nat, index: nat)

  /** struct arena: the descriptor, none for a big block; the free blocks, or the pages of a big block. */
  datatype Arena = Arena(desc: Option<nat>, freeCnt: nat)

  /** The free lists, the arenas by page number, the blocks handed out with the sizes asked for, the used pages
      of the kernel pool, and the ranges of pages that others have from it: first page and number of pages. */
  datatype State = State(lists: seq<seq<Block>>, arenas: map<nat, Arena>, live: map<Block, nat>, used: seq<bool>,
                         foreign: map<nat, nat>)

  ghost function Span(a: Arena): nat {
    if a.desc.Some? then 1 else a.freeCnt
  }

  /** The indices of the arena's blocks that are on the free list. */
  ghost function FreeIn(list: seq<Block>, a: nat, n: nat): set<nat> {
    set k: nat | k < n && Block(a, k) in list
  }

  ghost predicate ArenaOk(s: State, a: nat)
    requires a in s.arenas
  {
    var arena := s.arenas[a];
    && Span(arena) >= 1 && a + Span(arena) <= |s.used| && AllAre(s.used, a, Span(arena), true)
    && (arena.desc.Some? ==>
          arena.desc.value < |s.lists|
          && arena.freeCnt == |FreeIn(s.lists[arena.desc.value], a, Per(arena.desc.value))|)
  }

  ghost predicate Apart(s: State) {
    forall a, b :: a in s.arenas && b in s.arenas && a < b ==> a + Span(s.arenas[a]) <= b
  }

  ghost predicate ListOk(s: State, d: nat)
    requires d < |s.lists|
  {
    NoDup(s.lists[d]) && forall b :: b in s.lists[d] ==> IsBlockOf(s, b, d)
  }

  ghost predicate IsBlockOf(s: State, b: Block, d: nat) {
    b.arena in s.arenas && s.arenas[b.arena].desc == Some(d) && b.index < Per(d)
  }

  /** A block exists and is not free. */
  ghost predicate Taken(s: State, b: Block) {
    b.arena in s.arenas &&
    match s.arenas[b.arena].desc
    case None => b.index == 0
    case Some(d) => d < |s.lists| && b.index < Per(d) && b !in s.lists[d]
  }

  /** How many bytes a block has. */
  ghost function Usable(s: State, b: Block): int {
    if b.arena !in s.arenas then 0
    else if s.arenas[b.arena].desc.Some? then Size(s.arenas[b.arena].desc.value)
    else 4096 * s.arenas[b.arena].freeCnt - 24
  }

  /** An arena of blocks is not wholly free, leaving aside the arena "but". */
  ghost predicate NotFree(s: State, a: nat)
    requires a in s.arenas
  {
    s.arenas[a].desc.Some? ==> s.arenas[a].freeCnt < Per(s.arenas[a].desc.value)
  }

  ghost predicate ArenasOk(s: State) {
    forall a :: a in s.arenas ==> ArenaOk(s, a)
  }

  ghost predicate ListsOk(s: State) {
    |s.lists| == 7 && forall d :: 0 <= d < 7 ==> ListOk(s, d)
  }

  ghost predicate NoneFree(s: State, but: set<nat>) {
    forall a :: a in s.arenas && a !in but ==> NotFree(s, a)
  }

  /** Exactly the blocks that are not free are live, and they have the size asked for. */
  ghost predicate LiveOk(s: State) {
    (forall b :: b in s.live <==> Taken(s, b)) && (forall b :: b in s.live ==> s.live[b] <= Usable(s, b))
  }

  /** No arena has any of the pages. */
  ghost predicate ClearOf(s: State, f: nat, n: nat) {
    forall a :: a in s.arenas ==> a + Span(s.arenas[a]) <= f || f + n <= a
  }

  ghost predicate RangeOk(s: State, f: nat)
    requires f in s.foreign
  {
    var n := s.foreign[f];
    && n >= 1 && f + n <= |s.used| && AllAre(s.used, f, n, true) && ClearOf(s, f, n)
    && forall g :: g in s.foreign && g != f ==> g + s.foreign[g] <= f || f + n <= g
  }

  /** What others have from the pool is used, and apart from arenas and from each other. */
  ghost predicate ForeignOk(s: State) {
    forall f :: f in s.foreign ==> RangeOk(s, f)
  }

  ghost predicate Inv(s: State, but: set<nat>) {
    ArenasOk(s) && Apart(s) && ListsOk(s) && NoneFree(s, but) && LiveOk(s) && ForeignOk(s)
  }

  /** Blocks keep their places: no arena disappears or changes its kind. */
  ghost predicate KeepsArenas(s: State, s': State) {
    forall a :: a in s.arenas ==>
      a in s'.arenas && s'.arenas[a].desc == s.arenas[a].desc
        && (s.arenas[a].desc.None? ==> s'.arenas[a] == s.arenas[a])
  }

  ghost predicate AllUsed(used: seq<bool>) {
    forall i :: 0 <= i < |used| ==> used[i]
  }

  lemma OnePageLeft(used: seq<bool>)
    ensures FirstFit(used, 1).None? <==> AllUsed(used)
  {
    var fit := FirstFit(used, 1);
    if fit.None? {
      forall i | 0 <= i < |used| ensures used[i] { assert !AllAre(used, i, 1, false); }
    } else {
      assert AllAre(used, fit.value, 1, false) && !used[fit.value];
    }
  }

  // ---------- a new arena ----------

  ghost function AllBlocks(a: nat, n: nat): (s: seq<Block>)
    ensures |s| == n && forall k :: 0 <= k < n ==> s[k] == Block(a, k)
  {
    seq(n, k requires 0 <= k < n => Block(a, k))
  }

  ghost function NewArena(s: State, d: nat, a: nat): State
    requires d < |s.lists| && a < |s.used|
  {
    s.(lists := s.lists[d := AllBlocks(a, Per(d))], arenas := s.arenas[a := Arena(Some(d), Per(d))],
       used := SetRange(s.used, a, 1, true))
  }

  ghost function Below(n: nat): (s: set<nat>)
    ensures |s| == n && forall k: int :: k in s <==> 0 <= k < n
  {
    if n == 0 then {} else Below(n - 1) + {n - 1}
  }

  lemma FreeInAll(a: nat, n: nat)
    ensures |FreeIn(AllBlocks(a, n), a, n)| == n
  {
    forall k: nat | k < n ensures Block(a, k) in AllBlocks(a, n) { assert AllBlocks(a, n)[k] == Block(a, k); }
    assert FreeIn(AllBlocks(a, n), a, n) == Below(n);
  }

  /** Free pages are in no arena, and nobody else has them. */
  lemma FreePagesAreApart(s: State, a: nat, cnt: nat)
    requires ArenasOk(s) && ForeignOk(s) && cnt >= 1 && a + cnt <= |s.used| && AllAre(s.used, a, cnt, false)
    ensures ClearOf(s, a, cnt) && a !in s.arenas
    ensures forall f :: f in s.foreign ==> f + s.foreign[f] <= a || a + cnt <= f
  {
    forall b | b in s.arenas ensures b != a && (b + Span(s.arenas[b]) <= a || a + cnt <= b) {
      assert ArenaOk(s, b);
      UsedIsNotFree(s.used, b, Span(s.arenas[b]), a, cnt);
    }
    forall f | f in s.foreign ensures f + s.foreign[f] <= a || a + cnt <= f {
      assert RangeOk(s, f);
      UsedIsNotFree(s.used, f, s.foreign[f], a, cnt);
    }
  }

  lemma UsedIsNotFree(used: seq<bool>, b: nat, n: nat, a: nat, cnt: nat)
    requires n >= 1 && cnt >= 1 && b + n <= |used| && a + cnt <= |used| && AllAre(used, b, n, true)
      && AllAre(used, a, cnt, false)
    ensures b + n <= a || a + cnt <= b
  {
    var m := if a < b then b else a;
    assert (b <= m < b + n ==> used[m]) && (a <= m < a + cnt ==> !used[m]);
  }

  /** Others keep their ranges when an arena is made of free pages, */
  lemma ForeignBesideNew(s: State, s': State, a: nat, cnt: nat)
    requires ArenasOk(s) && ForeignOk(s) && cnt >= 1 && a + cnt <= |s.used| && AllAre(s.used, a, cnt, false)
    requires s'.foreign == s.foreign && s'.used == SetRange(s.used, a, cnt, true)
    requires a in s'.arenas && s'.arenas == s.arenas[a := s'.arenas[a]] && Span(s'.arenas[a]) == cnt
    ensures ForeignOk(s')
  {
    FreePagesAreApart(s, a, cnt);
    forall f | f in s'.foreign ensures RangeOk(s', f) { assert RangeOk(s, f); }
  }

  /** or goes, */
  lemma ForeignWithout(s: State, s': State, a: nat)
    requires ForeignOk(s) && a in s.arenas && s'.foreign == s.foreign && s'.arenas == s.arenas - {a}
    requires s'.used == SetRange(s.used, a, Span(s.arenas[a]), false)
    ensures ForeignOk(s')
  {
    forall f | f in s'.foreign ensures RangeOk(s', f) { assert RangeOk(s, f); }
  }

  /** or changes only its number of free blocks. */
  lemma ForeignSame(s: State, s': State)
    requires ForeignOk(s) && s'.foreign == s.foreign && s'.used == s.used
    requires forall a :: a in s'.arenas ==> a in s.arenas && Span(s'.arenas[a]) == Span(s.arenas[a])
    ensures ForeignOk(s')
  {
    forall f | f in s'.foreign ensures RangeOk(s', f) { assert RangeOk(s, f); }
  }

  lemma NewArenaKeepsLive(s: State, d: nat, a: nat)
    requires Inv(s, {}) && d < 7 && a < |s.used| && a !in s.arenas && s.lists[d] == []
    ensures LiveOk(NewArena(s, d, a))
  {
    var s' := NewArena(s, d, a);
    forall b ensures b in s'.live <==> Taken(s', b) {
      assert b in s.live <==> Taken(s, b);
      if b.arena == a && b.index < Per(d) { assert s'.lists[d][b.index] == b; }
    }
    forall b | b in s'.live ensures s'.live[b] <= Usable(s', b) { assert s.live[b] <= Usable(s, b) && Taken(s, b); }
  }

  lemma NewArenaKeepsArenas(s: State, d: nat, a: nat)
    requires Inv(s, {}) && d < 7 && s.lists[d] == [] && a < |s.used| && !s.used[a] && ClearOf(s, a, 1)
    ensures ArenasOk(NewArena(s, d, a)) && Apart(NewArena(s, d, a))
  {
    var s' := NewArena(s, d, a);
    FreeInAll(a, Per(d));
    forall b | b in s'.arenas ensures ArenaOk(s', b) {
      if b != a {
        assert ArenaOk(s, b);
        if s.arenas[b].desc.Some? { SameFree(s, s', b, d); }
      }
    }
  }

  lemma NewArenaKeepsInv(s: State, d: nat, a: nat)
    requires Inv(s, {}) && d < 7 && s.lists[d] == [] && a < |s.used| && !s.used[a]
    ensures Inv(NewArena(s, d, a), {a}) && KeepsArenas(s, NewArena(s, d, a))
  {
    var s' := NewArena(s, d, a);
    assert AllAre(s.used, a, 1, false);
    FreePagesAreApart(s, a, 1);
    NewArenaKeepsArenas(s, d, a);
    NewArenaKeepsLive(s, d, a);
    ForeignBesideNew(s, s', a, 1);
    forall c | 0 <= c < 7 ensures ListOk(s', c) { assert ListOk(s, c); }
    forall b | b in s'.arenas && b != a ensures NotFree(s', b) { assert NotFree(s, b); }
  }

  lemma SameFree(s: State, s': State, b: nat, d: nat)
    requires b in s.arenas && d < |s.lists| && |s'.lists| == |s.lists|
    requires forall c :: 0 <= c < |s.lists| && c != d ==> s'.lists[c] == s.lists[c]
    requires forall k: nat :: Block(b, k) in s'.lists[d] <==> Block(b, k) in s.lists[d]
    requires s.arenas[b].desc.Some? && s.arenas[b].desc.value < |s.lists|
    ensures var c := s.arenas[b].desc.value; FreeIn(s'.lists[c], b, Per(c)) == FreeIn(s.lists[c], b, Per(c))
  {
  }

  // ---------- taking a block ----------

  ghost function Pop(s: State, d: nat, size: nat): State
    requires d < |s.lists| && s.lists[d] != [] && s.lists[d][0].arena in s.arenas
  {
    var b := s.lists[d][0];
    var arena := s.arenas[b.arena];
    s.(lists := s.lists[d := s.lists[d][1..]],
       arenas := s.arenas[b.arena := arena.(freeCnt := if arena.freeCnt > 0 then arena.freeCnt - 1 else 0)],
       live := s.live[b := size])
  }

  /** One index fewer, or one more. */
  lemma FreeInWithout(list: seq<Block>, list': seq<Block>, a: nat, n: nat, k: nat)
    requires k < n && Block(a, k) in list && forall b :: b in list' <==> b in list && b != Block(a, k)
    ensures |FreeIn(list', a, n)| == |FreeIn(list, a, n)| - 1
  {
    assert FreeIn(list', a, n) == FreeIn(list, a, n) - {k};
  }

  /** The block at the front of a free list. */
  lemma FrontBlock(s: State, d: nat)
    requires ArenasOk(s) && ListsOk(s) && LiveOk(s) && d < 7 && s.lists[d] != []
    ensures IsBlockOf(s, s.lists[d][0], d) && s.lists[d][0] !in s.live && s.arenas[s.lists[d][0].arena].freeCnt > 0
  {
    var (q, b) := (s.lists[d], s.lists[d][0]);
    assert ListOk(s, d) && b in q && IsBlockOf(s, b, d) && ArenaOk(s, b.arena);
    assert b in s.live <==> Taken(s, b);
    assert b.index in FreeIn(q, b.arena, Per(d));
  }

  lemma PopKeepsArenas(s: State, d: nat, size: nat)
    requires ArenasOk(s) && Apart(s) && ListsOk(s) && d < 7 && s.lists[d] != [] && IsBlockOf(s, s.lists[d][0], d)
    ensures ArenasOk(Pop(s, d, size)) && Apart(Pop(s, d, size))
    ensures s.arenas[s.lists[d][0].arena].freeCnt <= Per(d)
  {
    var (q, b, s') := (s.lists[d], s.lists[d][0], Pop(s, d, size));
    assert ListOk(s, d) && ArenaOk(s, b.arena);
    TailMembers(q);
    FreeInWithout(q, q[1..], b.arena, Per(d), b.index);
    FreeAtMost(q, b.arena, Per(d));
    forall a | a in s'.arenas ensures ArenaOk(s', a) {
      assert ArenaOk(s, a);
      if a != b.arena && s.arenas[a].desc.Some? { SameFree(s, s', a, d); }
    }
  }

  lemma PopKeepsLists(s: State, d: nat, size: nat)
    requires ListsOk(s) && d < 7 && s.lists[d] != [] && IsBlockOf(s, s.lists[d][0], d)
    ensures ListsOk(Pop(s, d, size))
  {
    assert ListOk(s, d);
    TailMembers(s.lists[d]);
    forall c | 0 <= c < 7 ensures ListOk(Pop(s, d, size), c) {
      assert ListOk(s, c);
      forall b | b in s.lists[c] ensures IsBlockOf(Pop(s, d, size), b, c) { assert IsBlockOf(s, b, c); }
    }
  }

  lemma PopKeepsLive(s: State, d: nat, size: nat)
    requires ListsOk(s) && LiveOk(s) && d < 7 && s.lists[d] != [] && IsBlockOf(s, s.lists[d][0], d) && size <= Size(d)
    ensures LiveOk(Pop(s, d, size))
  {
    var (q, b, s') := (s.lists[d], s.lists[d][0], Pop(s, d, size));
    assert ListOk(s, d);
    TailMembers(q);
    forall x ensures x in s'.live <==> Taken(s', x) { assert x in s.live <==> Taken(s, x); }
    forall x | x in s'.live ensures s'.live[x] <= Usable(s', x) { assert x != b ==> s.live[x] <= Usable(s, x); }
  }

  lemma PopKeepsInv(s: State, d: nat, size: nat, but: set<nat>)
    requires Inv(s, but) && d < 7 && s.lists[d] != [] && size <= Size(d) && but <= {s.lists[d][0].arena}
    ensures IsBlockOf(s, s.lists[d][0], d) && s.lists[d][0] !in s.live
    ensures Inv(Pop(s, d, size), {})
  {
    FrontBlock(s, d);
    var s' := Pop(s, d, size);
    PopKeepsArenas(s, d, size);
    PopKeepsLists(s, d, size);
    PopKeepsLive(s, d, size);
    ForeignSame(s, s');
    forall a | a in s'.arenas ensures NotFree(s', a) { if a != s.lists[d][0].arena { assert NotFree(s, a); } }
  }

  lemma FreeAtMost(list: seq<Block>, a: nat, n: nat)
    ensures |FreeIn(list, a, n)| <= n
    ensures |FreeIn(list, a, n)| == n ==> forall k: nat :: k < n ==> Block(a, k) in list
  {
    var all := Below(n);
    assert FreeIn(list, a, n) <= all;
    SubsetSize(FreeIn(list, a, n), all);
    if |FreeIn(list, a, n)| == n {
      forall k: nat | k < n ensures Block(a, k) in list { assert k in all; }
    }
  }

  lemma {:induction false} SubsetSize(a: set<nat>, b: set<nat>)
    requires a <= b
    ensures |a| <= |b| && (|a| == |b| ==> a == b)
    decreases b
  {
    if x :| x in b {
      assert b == (b - {x}) + {x};
      if x in a {
        assert a == (a - {x}) + {x};
        SubsetSize(a - {x}, b - {x});
      } else {
        SubsetSize(a, b - {x});
      }
    }
  }

  // ---------- giving a block back ----------

  ghost function Push(s: State, b: Block): State
    requires b.arena in s.arenas && s.arenas[b.arena].desc.Some? && s.arenas[b.arena].desc.value < |s.lists|
  {
    var (arena, d) := (s.arenas[b.arena], s.arenas[b.arena].desc.value);
    s.(lists := s.lists[d := [b] + s.lists[d]], arenas := s.arenas[b.arena := arena.(freeCnt := arena.freeCnt + 1)],
       live := s.live - {b})
  }

  lemma PushKeepsArenas(s: State, b: Block)
    requires ArenasOk(s) && Apart(s) && ListsOk(s) && Taken(s, b) && s.arenas[b.arena].desc.Some?
    ensures ArenasOk(Push(s, b)) && Apart(Push(s, b))
    ensures Push(s, b).arenas[b.arena].freeCnt <= Per(s.arenas[b.arena].desc.value)
  {
    assert ArenaOk(s, b.arena);
    var (d, s') := (s.arenas[b.arena].desc.value, Push(s, b));
    FreeInWithout(s'.lists[d], s.lists[d], b.arena, Per(d), b.index);
    FreeAtMost(s'.lists[d], b.arena, Per(d));
    forall a | a in s'.arenas ensures ArenaOk(s', a) {
      assert ArenaOk(s, a);
      if a != b.arena && s.arenas[a].desc.Some? { SameFree(s, s', a, d); }
    }
  }

  lemma PushKeepsLists(s: State, b: Block)
    requires ListsOk(s) && Taken(s, b) && s.arenas[b.arena].desc.Some?
    ensures ListsOk(Push(s, b))
  {
    var (d, s') := (s.arenas[b.arena].desc.value, Push(s, b));
    forall c | 0 <= c < 7 ensures ListOk(s', c) {
      assert ListOk(s, c);
      forall x | x in s'.lists[c] ensures IsBlockOf(s', x, c) { assert x != b ==> IsBlockOf(s, x, c); }
    }
  }

  lemma PushKeepsLive(s: State, b: Block)
    requires LiveOk(s) && ListsOk(s) && Taken(s, b) && s.arenas[b.arena].desc.Some?
    ensures LiveOk(Push(s, b))
  {
    var s' := Push(s, b);
    forall x ensures x in s'.live <==> Taken(s', x) { assert x in s.live <==> Taken(s, x); }
    forall x | x in s'.live ensures s'.live[x] <= Usable(s', x) { assert s.live[x] <= Usable(s, x); }
  }

  lemma PushKeepsInv(s: State, b: Block)
    requires Inv(s, {}) && b in s.live && b.arena in s.arenas && s.arenas[b.arena].desc.Some?
    ensures s.arenas[b.arena].desc.value < 7 && Inv(Push(s, b), {b.arena})
    ensures Push(s, b).arenas[b.arena].freeCnt <= Per(s.arenas[b.arena].desc.value)
  {
    assert Taken(s, b);
    var s' := Push(s, b);
    PushKeepsArenas(s, b);
    PushKeepsLists(s, b);
    PushKeepsLive(s, b);
    ForeignSame(s, s');
    forall a | a in s'.arenas && a != b.arena ensures NotFree(s', a) { assert NotFree(s, a); }
  }

  /** The free list without the blocks of one arena. */
  ghost function Others(q: seq<Block>, a: nat): (r: seq<Block>)
    ensures forall b :: b in r <==> b in q && b.arena != a
    ensures NoDup(q) ==> NoDup(r)
  {
    if q == [] then []
    else
      assert NoDup(q) ==> NoDup(q[1..]) && q[0] !in q[1..] by {
        if NoDup(q) { TailMembers(q); }
      }
      if q[0].arena == a then Others(q[1..], a) else [q[0]] + Others(q[1..], a)
  }

  /** Giving an arena's page back when all its blocks are free. */
  ghost function Drop(s: State, a: nat): State
    requires a in s.arenas && a < |s.used| && s.arenas[a].desc.Some? && s.arenas[a].desc.value < |s.lists|
  {
    var d := s.arenas[a].desc.value;
    s.(lists := s.lists[d := Others(s.lists[d], a)], arenas := s.arenas - {a}, used := SetRange(s.used, a, 1, false))
  }

  lemma DropKeepsArenas(s: State, a: nat)
    requires ArenasOk(s) && Apart(s) && a in s.arenas && s.arenas[a].desc.Some? && a < |s.used|
      && s.arenas[a].desc.value < |s.lists|
    ensures ArenasOk(Drop(s, a)) && Apart(Drop(s, a))
  {
    var (d, s') := (s.arenas[a].desc.value, Drop(s, a));
    forall b | b in s'.arenas ensures ArenaOk(s', b) {
      assert ArenaOk(s, b);
      if s.arenas[b].desc.Some? { SameFree(s, s', b, d); }
      StillUsed(s, a, b);
    }
  }

  lemma DropKeepsLists(s: State, a: nat)
    requires ListsOk(s) && a in s.arenas && s.arenas[a].desc.Some? && a < |s.used| && s.arenas[a].desc.value < 7
    ensures ListsOk(Drop(s, a))
  {
    var (d, s') := (s.arenas[a].desc.value, Drop(s, a));
    forall c | 0 <= c < 7 ensures ListOk(s', c) {
      assert ListOk(s, c);
      if c != d { OtherLists(s, c, d, a); }
      forall b | b in s'.lists[c] ensures IsBlockOf(s', b, c) { assert IsBlockOf(s, b, c); }
    }
  }

  lemma DropKeepsLive(s: State, a: nat)
    requires LiveOk(s) && ListsOk(s) && a in s.arenas && s.arenas[a].desc.Some? && a < |s.used|
      && s.arenas[a].desc.value < 7
    requires forall k: nat :: k < Per(s.arenas[a].desc.value) ==> Block(a, k) in s.lists[s.arenas[a].desc.value]
    ensures LiveOk(Drop(s, a))
  {
    var (d, s') := (s.arenas[a].desc.value, Drop(s, a));
    forall x ensures x in s'.live <==> Taken(s', x) {
      assert x in s.live <==> Taken(s, x);
      if x.arena == a && x.index < Per(d) { assert Block(a, x.index) in s.lists[d]; }
    }
    forall x | x in s'.live ensures s'.live[x] <= Usable(s', x) { assert s.live[x] <= Usable(s, x) && Taken(s, x); }
  }

  lemma DropKeepsInv(s: State, a: nat)
    requires Inv(s, {a}) && a in s.arenas && s.arenas[a].desc.Some?
    requires s.arenas[a].freeCnt == Per(s.arenas[a].desc.value)
    ensures a < |s.used| && s.arenas[a].desc.value < 7 && Inv(Drop(s, a), {})
  {
    assert ArenaOk(s, a);
    var (d, s') := (s.arenas[a].desc.value, Drop(s, a));
    FreeAtMost(s.lists[d], a, Per(d));
    DropKeepsArenas(s, a);
    DropKeepsLists(s, a);
    DropKeepsLive(s, a);
    ForeignWithout(s, s', a);
    forall b | b in s'.arenas ensures NotFree(s', b) { assert NotFree(s, b); }
  }

  lemma StillUsed(s: State, a: nat, b: nat)
    requires Apart(s) && a in s.arenas && b in s.arenas && a != b && Span(s.arenas[a]) == 1 && ArenaOk(s, b)
      && a < |s.used|
    ensures AllAre(SetRange(s.used, a, 1, false), b, Span(s.arenas[b]), true)
  {
    assert forall i :: b <= i < b + Span(s.arenas[b]) ==> s.used[i] && i != a;
  }

  /** Blocks of one arena are on one list only. */
  lemma OtherLists(s: State, c: nat, d: nat, a: nat)
    requires c < |s.lists| && ListOk(s, c) && a in s.arenas && s.arenas[a].desc == Some(d) && c != d
    ensures forall b :: b in s.lists[c] ==> b.arena != a
  {
    forall b | b in s.lists[c] ensures b.arena != a { assert IsBlockOf(s, b, c); }
  }

  /** The free list without the first "n" blocks of an arena. */
  ghost function OthersFrom(q: seq<Block>, a: nat, n: nat): seq<Block> {
    if q == [] then []
    else (if q[0].arena == a && q[0].index < n then [] else [q[0]]) + OthersFrom(q[1..], a, n)
  }

  lemma {:induction false} RemoveNext(q: seq<Block>, a: nat, i: nat)
    requires NoDup(q)
    ensures Without(OthersFrom(q, a, i), Block(a, i)) == OthersFrom(q, a, i + 1)
  {
    if q != [] {
      TailMembers(q);
      RemoveNext(q[1..], a, i);
      assert ([q[0]] + OthersFrom(q[1..], a, i))[1..] == OthersFrom(q[1..], a, i);
      assert [] + OthersFrom(q[1..], a, i) == OthersFrom(q[1..], a, i)
        && [] + OthersFrom(q[1..], a, i + 1) == OthersFrom(q[1..], a, i + 1);
      if q[0] == Block(a, i) {
        NothingToRemove(q[1..], a, i);
      }
    }
  }

  lemma {:induction false} NothingToRemove(q: seq<Block>, a: nat, i: nat)
    requires Block(a, i) !in q
    ensures OthersFrom(q, a, i + 1) == OthersFrom(q, a, i)
  {
    if q != [] { NothingToRemove(q[1..], a, i); }
  }

  lemma {:induction false} OthersFromZero(q: seq<Block>, a: nat)
    ensures OthersFrom(q, a, 0) == q
  {
    if q != [] {
      OthersFromZero(q[1..], a);
      assert q == [q[0]] + q[1..];
    }
  }

  lemma {:induction false} OthersFromAll(q: seq<Block>, a: nat, n: nat)
    requires forall b :: b in q && b.arena == a ==> b.index < n
    ensures OthersFrom(q, a, n) == Others(q, a)
  {
    if q != [] {
      assert forall b :: b in q[1..] ==> b in q;
      OthersFromAll(q[1..], a, n);
    }
  }

  // ---------- big blocks ----------

  ghost function AddBig(s: State, a: nat, cnt: nat, size: nat): State
    requires a + cnt <= |s.used|
  {
    s.(arenas := s.arenas[a := Arena(None, cnt)], used := SetRange(s.used, a, cnt, true),
      live := s.live[Block(a, 0) := size])
  }

  lemma AddBigKeepsArenas(s: State, a: nat, cnt: nat, size: nat)
    requires ArenasOk(s) && Apart(s) && ListsOk(s) && cnt >= 1 && a + cnt <= |s.used| && ClearOf(s, a, cnt)
      && a !in s.arenas
    ensures ArenasOk(AddBig(s, a, cnt, size)) && Apart(AddBig(s, a, cnt, size)) && ListsOk(AddBig(s, a, cnt, size))
  {
    var s' := AddBig(s, a, cnt, size);
    forall b | b in s'.arenas ensures ArenaOk(s', b) { if b != a { assert ArenaOk(s, b); } }
    forall c | 0 <= c < 7 ensures ListOk(s', c) {
      assert ListOk(s, c);
      forall b | b in s.lists[c] ensures IsBlockOf(s', b, c) { assert IsBlockOf(s, b, c); }
    }
  }

  lemma AddBigKeepsLive(s: State, a: nat, cnt: nat, size: nat)
    requires LiveOk(s) && cnt >= 1 && a + cnt <= |s.used| && size <= 4096 * cnt - 24 && a !in s.arenas
    ensures LiveOk(AddBig(s, a, cnt, size)) && Block(a, 0) !in s.live
  {
    var s' := AddBig(s, a, cnt, size);
    assert Block(a, 0) in s.live <==> Taken(s, Block(a, 0));
    forall x ensures x in s'.live <==> Taken(s', x) { assert x in s.live <==> Taken(s, x); }
    forall x | x in s'.live ensures s'.live[x] <= Usable(s', x) {
      if x != Block(a, 0) {
        assert s.live[x] <= Usable(s, x) && Taken(s, x);
      }
    }
  }

  lemma AddBigKeepsInv(s: State, a: nat, cnt: nat, size: nat)
    requires Inv(s, {}) && cnt >= 1 && a + cnt <= |s.used| && AllAre(s.used, a, cnt, false) && size <= 4096 * cnt - 24
    ensures Inv(AddBig(s, a, cnt, size), {}) && Block(a, 0) !in s.live && KeepsArenas(s, AddBig(s, a, cnt, size))
  {
    var s' := AddBig(s, a, cnt, size);
    FreePagesAreApart(s, a, cnt);
    AddBigKeepsArenas(s, a, cnt, size);
    AddBigKeepsLive(s, a, cnt, size);
    ForeignBesideNew(s, s', a, cnt);
    forall b | b in s'.arenas ensures NotFree(s', b) { if b != a { assert NotFree(s, b); } }
  }

  ghost function DropBig(s: State, a: nat): State
    requires a in s.arenas && a + s.arenas[a].freeCnt <= |s.used|
  {
    s.(arenas := s.arenas - {a}, used := SetRange(s.used, a, s.arenas[a].freeCnt, false),
      live := s.live - {Block(a, 0)})
  }

  lemma DropBigKeepsArenas(s: State, a: nat)
    requires ArenasOk(s) && Apart(s) && ListsOk(s) && a in s.arenas && s.arenas[a].desc == None
      && a + s.arenas[a].freeCnt <= |s.used|
    ensures ArenasOk(DropBig(s, a)) && Apart(DropBig(s, a)) && ListsOk(DropBig(s, a))
  {
    var s' := DropBig(s, a);
    forall b | b in s'.arenas ensures ArenaOk(s', b) {
      assert ArenaOk(s, b);
      assert forall i :: b <= i < b + Span(s.arenas[b]) ==> s.used[i] && !(a <= i < a + s.arenas[a].freeCnt);
    }
    forall c | 0 <= c < 7 ensures ListOk(s', c) {
      assert ListOk(s, c);
      forall b | b in s.lists[c] ensures IsBlockOf(s', b, c) { assert IsBlockOf(s, b, c); }
    }
  }

  lemma DropBigKeepsLive(s: State, a: nat)
    requires LiveOk(s) && a in s.arenas && s.arenas[a].desc == None && a + s.arenas[a].freeCnt <= |s.used|
    ensures LiveOk(DropBig(s, a))
  {
    var s' := DropBig(s, a);
    forall x ensures x in s'.live <==> Taken(s', x) { assert x in s.live <==> Taken(s, x); }
    forall x | x in s'.live ensures s'.live[x] <= Usable(s', x) { assert s.live[x] <= Usable(s, x) && Taken(s, x); }
  }

  lemma DropBigKeepsInv(s: State, a: nat)
    requires Inv(s, {}) && a in s.arenas && s.arenas[a].desc == None
    ensures a + s.arenas[a].freeCnt <= |s.used| && AllAre(s.used, a, s.arenas[a].freeCnt, true)
      && Inv(DropBig(s, a), {})
  {
    assert ArenaOk(s, a);
    var s' := DropBig(s, a);
    DropBigKeepsArenas(s, a);
    DropBigKeepsLive(s, a);
    ForeignWithout(s, s', a);
    forall b | b in s'.arenas ensures NotFree(s', b) { assert NotFree(s, b); }
  }

  // ---------- other clients of the pool ----------

  /** palloc_get_multiple, called by anybody else. */
  ghost function Got(s: State, cnt: nat): State {
    var fit := FirstFit(s.used, cnt);
    if cnt == 0 || fit.None? then s
    else s.(used := SetRange(s.used, fit.value, cnt, true), foreign := s.foreign[fit.value := cnt])
  }

  /** palloc_free_multiple of such a range. */
  ghost function Given(s: State, f: nat): State
    requires f in s.foreign
  {
    s.(used := SetRange(s.used, f, s.foreign[f], false), foreign := s.foreign - {f})
  }

  /** Changing pages that no arena has. */
  lemma OtherPages(s: State, s': State, f: nat, n: nat, value: bool)
    requires Inv(s, {}) && f + n <= |s.used| && ClearOf(s, f, n)
    requires s'.lists == s.lists && s'.arenas == s.arenas && s'.live == s.live
      && s'.used == SetRange(s.used, f, n, value)
    ensures ArenasOk(s') && Apart(s') && ListsOk(s') && NoneFree(s', {}) && LiveOk(s')
  {
    forall a | a in s'.arenas ensures ArenaOk(s', a) && NotFree(s', a) { assert ArenaOk(s, a) && NotFree(s, a); }
    forall c | 0 <= c < 7 ensures ListOk(s', c) {
      assert ListOk(s, c);
      forall b | b in s.lists[c] ensures IsBlockOf(s', b, c) { assert IsBlockOf(s, b, c); }
    }
    forall x ensures x in s'.live <==> Taken(s', x) { assert x in s.live <==> Taken(s, x); }
    forall x | x in s'.live ensures s'.live[x] <= Usable(s', x) { assert s.live[x] <= Usable(s, x); }
  }

  /** The heap does not notice that others take pages, */
  lemma GotKeepsInv(s: State, cnt: nat)
    requires Inv(s, {})
    ensures Inv(Got(s, cnt), {}) && Got(s, cnt).live == s.live && Got(s, cnt).arenas == s.arenas
  {
    var (s', fit) := (Got(s, cnt), FirstFit(s.used, cnt));
    if cnt > 0 && fit.Some? {
      FreePagesAreApart(s, fit.value, cnt);
      OtherPages(s, s', fit.value, cnt, true);
      forall f | f in s'.foreign ensures RangeOk(s', f) { if f != fit.value { assert RangeOk(s, f); } }
    }
  }

  /** nor that they give them back. */
  lemma GivenKeepsInv(s: State, f: nat)
    requires Inv(s, {}) && f in s.foreign
    ensures f + s.foreign[f] <= |s.used| && AllAre(s.used, f, s.foreign[f], true)
    ensures Inv(Given(s, f), {}) && Given(s, f).live == s.live && Given(s, f).arenas == s.arenas
  {
    assert RangeOk(s, f);
    var s' := Given(s, f);
    OtherPages(s, s', f, s.foreign[f], false);
    forall g | g in s'.foreign ensures RangeOk(s', g) { assert RangeOk(s, g); }
  }

  /** The offset of a block in its arena's page. */
  ghost function Offset(s: State, b: Block): nat {
    24 + if b.arena in s.arenas && s.arenas[b.arena].desc.Some?
      then Times(b.index, Size(s.arenas[b.arena].desc.value)) else 0
  }

  lemma OffsetFits(s: State, b: Block)
    requires Inv(s, {}) && b in s.live
    ensures Offset(s, b) < 4096 && b.arena in s.arenas
  {
    assert Taken(s, b) && ArenaOk(s, b.arena);
    if s.arenas[b.arena].desc.Some? { BlockFits(s.arenas[b.arena].desc.value, b.index); }
  }

  lemma PoppedBlock(s: State, d: nat, size: nat, b: Block)
    requires d < |s.lists| && s.lists[d] != [] && b == s.lists[d][0] && IsBlockOf(s, b, d) && size <= Size(d)
    ensures var s' := Pop(s, d, size);
      Offset(s', b) == 24 + Times(b.index, Size(d)) && size <= Usable(s', b) && s'.live == s.live[b := size]
        && KeepsArenas(s, s')
  {
  }

  lemma OffsetInPage(page: nat, ofs: nat)
    requires page % 4096 == 0 && ofs < 4096
    ensures (page + ofs) % 4096 == ofs && page + ofs - (page + ofs) % 4096 == page
  {
  }

  /** free, as a function of the state. */
  ghost function Freed(s: State, b: Block): State
    requires b.arena in s.arenas
  {
    var a := b.arena;
    if s.arenas[a].desc.None? then
      if a + s.arenas[a].freeCnt <= |s.used| then DropBig(s, a) else s
    else if s.arenas[a].desc.value >= |s.lists| then s
    else
      var s1 := Push(s, b);
      if s1.arenas[a].freeCnt >= Per(s.arenas[a].desc.value) && a < |s.used| then Drop(s1, a) else s1
  }

  lemma FreedLive(s: State, b: Block)
    requires Inv(s, {}) && b in s.live
    ensures b.arena in s.arenas && Freed(s, b).live == s.live - {b}
  {
    assert Taken(s, b) && ArenaOk(s, b.arena);
  }

  lemma FreedKeeps(s: State, b: Block, c: Block)
    requires Inv(s, {}) && b in s.live && c in s.live && c != b && c.arena in Freed(s, b).arenas
    ensures c.arena in s.arenas && Freed(s, b).arenas[c.arena].desc == s.arenas[c.arena].desc
    ensures Usable(Freed(s, b), c) == Usable(s, c)
  {
    assert Taken(s, b) && Taken(s, c) && ArenaOk(s, b.arena);
  }

  lemma MoveFacts(s: State, s1: State, b: Block, c: Block, newSize: nat)
    requires KeepsArenas(s, s1) && b.arena in s.arenas && b in s.live && c !in s.live && s1.live == s.live[c := newSize]
    ensures Offset(s1, b) == Offset(s, b) && Usable(s1, b) == Usable(s, b) && b in s1.live && c in s1.live && b != c
    ensures s1.live - {b} == (s.live - {b})[c := newSize]
  {
  }

  lemma MovedLive(s: State, b: Block, c: Block)
    requires Inv(s, {}) && b in s.live && c in s.live && c != b
      && Inv(if b.arena in s.arenas then Freed(s, b) else s, {})
    ensures b.arena in s.arenas && Freed(s, b).live == s.live - {b}
    ensures Offset(Freed(s, b), c) == Offset(s, c) && Usable(Freed(s, b), c) == Usable(s, c)
  {
    FreedLive(s, b);
    assert c in Freed(s, b).live && Taken(Freed(s, b), c);
    FreedKeeps(s, b, c);
  }

  // ---------- the allocator ----------

  datatype Desc = Desc(blockSize: nat, blocksPerArena: nat)

  /** The smallest descriptor whose blocks are big enough, or 7. */
  ghost function DescFor(size: nat): (d: nat)
    ensures d <= 7 && (d < 7 ==> size <= Size(d)) && forall c :: 0 <= c < d ==> Size(c) < size
  {
    DescFrom(size, 0)
  }

  ghost function DescFrom(size: nat, c: nat): (d: nat)
    requires c <= 7 && forall b :: 0 <= b < c ==> Size(b) < size
    ensures c <= d <= 7 && (d < 7 ==> size <= Size(d)) && forall b :: 0 <= b < d ==> Size(b) < size
    decreases 7 - c
  {
    if c == 7 || size <= Size(c) then c else DescFrom(size, c + 1)
  }

  /** The 64-bit sum of the request and the header does not wrap. */
  predicate NoWrap(size: nat) {
    size + 4119 < 0x1_0000_0000_0000_0000
  }

  /** malloc, as a function of the state: the new state, and the block. */
  ghost function Malloced(s: State, size: nat): (State, Option<Block>)
    requires |s.lists| == 7
  {
    var d := DescFor(size);
    if size == 0 then (s, None)
    else if d == 7 then
      var fit := FirstFit(s.used, BigPages(size));
      if fit.None? then (s, None) else (AddBig(s, fit.value, BigPages(size), size), Some(Block(fit.value, 0)))
    else if s.lists[d] != [] then
      if s.lists[d][0].arena in s.arenas then (Pop(s, d, size), Some(s.lists[d][0])) else (s, None)
    else
      var fit := FirstFit(s.used, 1);
      if fit.None? then (s, None) else RefilledPop(s, d, size, fit.value)
  }

  ghost function RefilledPop(s: State, d: nat, size: nat, a: nat): (State, Option<Block>)
    requires d < |s.lists| && a < |s.used|
  {
    if Per(d) == 0 then (s, None) else (Pop(NewArena(s, d, a), d, size), Some(Block(a, 0)))
  }

  /** What malloc comes to: null and no change, or one more live block of at least the size. */
  ghost predicate OneMore(s: State, s': State, size: nat, r: Option<Block>) {
    match r
    case None => s' == s
    case Some(b) =>
      Inv(s', {}) && b !in s.live && s'.live == s.live[b := size] && size <= Usable(s', b) && KeepsArenas(s, s')
                    && s'.foreign == s.foreign
  }

  lemma PoppedIsOneMore(s: State, d: nat, size: nat, but: set<nat>)
    requires Inv(s, but) && d < 7 && s.lists[d] != [] && size <= Size(d) && but <= {s.lists[d][0].arena}
    ensures s.lists[d][0].arena in s.arenas && OneMore(s, Pop(s, d, size), size, Some(s.lists[d][0]))
  {
    PopKeepsInv(s, d, size, but);
    PoppedBlock(s, d, size, s.lists[d][0]);
  }

  lemma RefilledIsOneMore(s: State, d: nat, size: nat, a: nat)
    requires Inv(s, {}) && d < 7 && s.lists[d] == [] && size <= Size(d) && a < |s.used| && !s.used[a]
    ensures OneMore(s, RefilledPop(s, d, size, a).0, size, RefilledPop(s, d, size, a).1) && Per(d) > 0
  {
    NewArenaKeepsInv(s, d, a);
    SevenSizes(d);
    assert AllBlocks(a, Per(d))[0] == Block(a, 0);
    PoppedIsOneMore(NewArena(s, d, a), d, size, {a});
  }

  lemma BigIsOneMore(s: State, size: nat, a: nat)
    requires Inv(s, {}) && size > 0 && NoWrap(size) && a + BigPages(size) <= |s.used|
      && AllAre(s.used, a, BigPages(size), false)
    ensures OneMore(s, AddBig(s, a, BigPages(size), size), size, Some(Block(a, 0)))
  {
    BigPagesSuffice(size);
    AddBigKeepsInv(s, a, BigPages(size), size);
  }

  lemma MallocedIsOneMore(s: State, size: nat)
    requires Inv(s, {}) && NoWrap(size)
    ensures OneMore(s, Malloced(s, size).0, size, Malloced(s, size).1)
  {
    var d := DescFor(size);
    if size > 0 {
      if d == 7 {
        var fit := FirstFit(s.used, BigPages(size));
        if fit.Some? { BigIsOneMore(s, size, fit.value); }
      } else if s.lists[d] != [] {
        PoppedIsOneMore(s, d, size, {});
      } else {
        var fit := FirstFit(s.used, 1);
        if fit.Some? {
          assert AllAre(s.used, fit.value, 1, false);
          RefilledIsOneMore(s, d, size, fit.value);
        }
      }
    }
  }

  /** malloc_init: the loop over block_size. */
  method InitDescs() returns (table: seq<Desc>)
    ensures |table| == 7 && forall d :: 0 <= d < 7 ==> table[d] == Desc(Size(d), Per(d))
  {
    table := [];
    var blockSize := 16;
    SevenSizes(0);
    while blockSize < 2048
      invariant |table| <= 7 && blockSize == Size(|table|)
      invariant forall d :: 0 <= d < |table| ==> table[d] == Desc(Size(d), Per(d))
      decreases 7 - |table|
    {
      table := table + [Desc(blockSize, Quot(4072, blockSize))];
      blockSize := blockSize * 2;
    }
    if |table| < 7 { SizesGrow(|table|, 6); }
  }

  /** The loop of malloc that puts all blocks of a new arena on the free list. */
  method PushAll(a: nat, n: nat) returns (list: seq<Block>)
    ensures list == AllBlocks(a, n)
  {
    list := [];
    var i := 0;
    while i < n
      invariant 0 <= i <= n && list == AllBlocks(a, i)
    {
      list := list + [Block(a, i)];
      i := i + 1;
    }
  }

  /** The loop of free that takes all blocks of an arena off the free list. */
  method RemoveAll(q: seq<Block>, a: nat, n: nat) returns (list: seq<Block>)
    requires NoDup(q) && forall b :: b in q && b.arena == a ==> b.index < n
    ensures list == Others(q, a)
  {
    list := q;
    OthersFromZero(q, a);
    var i := 0;
    while i < n
      invariant 0 <= i <= n && list == OthersFrom(q, a, i)
    {
      RemoveNext(q, a, i);
      list := Without(list, Block(a, i));
      i := i + 1;
    }
    OthersFromAll(q, a, n);
  }

  class Heap {
    const pages: Pages
    var descs: seq<Desc>
    var lists: seq<seq<Block>>
    var arenas: map<nat, Arena>
    ghost var live: map<Block, nat>
    ghost var foreign: map<nat, nat>

    ghost predicate Stable()
      reads this, pages, pages.kernel, pages.user, pages.kernel.used, pages.user.used, pages.kernel.used.bits,
        pages.user.used.bits
    {
      pages.Valid() && |descs| == 7 && forall d :: 0 <= d < 7 ==> descs[d] == Desc(Size(d), Per(d))
    }

    ghost function Now(): State
      requires Stable()
      reads this, pages, pages.kernel, pages.user, pages.kernel.used, pages.user.used, pages.kernel.used.bits,
        pages.user.used.bits
    {
      State(lists, arenas, live, pages.kernel.used.View(), foreign)
    }

    ghost predicate Valid()
      reads this, pages, pages.kernel, pages.user, pages.kernel.used, pages.user.used, pages.kernel.used.bits,
        pages.user.used.bits
    {
      Stable() && Inv(Now(), {})
    }

    constructor (p: Pages)
      requires p.Valid()
      ensures Valid() && pages == p && live == map[] && arenas == map[] && foreign == map[]
    {
      pages := p;
      var table := InitDescs();
      descs, lists, arenas, live, foreign := table, [[], [], [], [], [], [], []], map[], map[], map[];
    }

    /** arena_to_block: where a block is. */
    ghost function AddressOf(s: State, b: Block): nat {
      pages.kernel.PageAt(b.arena) + Offset(s, b)
    }

    /** malloc, for a request that fits no descriptor. */
    method MallocBig(size: nat) returns (p: Option<nat>, ghost b: Block)
      requires Valid() && size > 0 && DescFor(size) == 7 && size < 0x1_0000_0000_0000_0000
      modifies this, pages.kernel.used.bits, pages.user.used.bits
      ensures Stable() && Now() == Malloced(old(Now()), size).0
      ensures Malloced(old(Now()), size).1 == if p.Some? then Some(b) else None
      ensures p.Some? ==> p.value == AddressOf(Now(), b)
    {
      ghost var s := Now();
      var pageCnt := (size + 24 + 4095) % 0x1_0000_0000_0000_0000 / 4096;
      var page := pages.GetMultiple(false, pageCnt);
      if page.None? {
        FirstRunIsFirstFit(s.used, pageCnt, None);
        p, b := None, Block(0, 0);
        return;
      }
      var a := pages.kernel.NumberOf(page.value);
      FirstRunIsFirstFit(s.used, pageCnt, Some(a));
      b := Block(a, 0);
      arenas := arenas[a := Arena(None, pageCnt)];
      live := live[b := size];
      p := Some(page.value + 24);
    }

    /** palloc_get_multiple from the kernel pool, by anybody else: thread pages, page tables, file tables. */
    method GetPages(cnt: nat) returns (p: Option<nat>)
      requires Valid()
      modifies this, pages.kernel.used.bits, pages.user.used.bits
      ensures Valid() && Now() == Got(old(Now()), cnt) && live == old(live)
      ensures p.Some? && cnt > 0 ==> exists f :: f in foreign && foreign[f] == cnt && p.value == pages.kernel.PageAt(f)
    {
      GotKeepsInv(Now(), cnt);
      p := TakePages(cnt);
    }

    /** The same, without what it keeps. */
    method TakePages(cnt: nat) returns (p: Option<nat>)
      requires Stable()
      modifies `foreign, pages.kernel.used.bits, pages.user.used.bits
      ensures Stable() && Now() == Got(old(Now()), cnt)
      ensures p.Some? && cnt > 0 ==> exists f :: f in foreign && foreign[f] == cnt && p.value == pages.kernel.PageAt(f)
    {
      ghost var s := Now();
      p := pages.GetMultiple(false, cnt);
      if p.None? {
        FirstRunIsFirstFit(s.used, cnt, None);
      } else {
        ghost var f := pages.kernel.NumberOf(p.value);
        FirstRunIsFirstFit(s.used, cnt, Some(f));
        if cnt > 0 {
          foreign := foreign[f := cnt];
          assert f in foreign;
        }
      }
    }

    /** palloc_free_multiple of pages that somebody else has. */
    method FreePages(p: nat, ghost f: nat, cnt: nat)
      requires Valid() && f in foreign && cnt == foreign[f] && p == pages.kernel.PageAt(f)
      modifies this, pages.kernel.used.bits, pages.user.used.bits
      ensures Valid() && Now() == Given(old(Now()), f) && live == old(live)
    {
      GivenKeepsInv(Now(), f);
      assert RangeOk(Now(), f);
      GivePages(p, f, cnt);
    }

    method GivePages(p: nat, ghost f: nat, cnt: nat)
      requires Stable() && f in foreign && cnt == foreign[f] && p == pages.kernel.PageAt(f) && RangeOk(Now(), f)
      modifies `foreign, pages.kernel.used.bits, pages.user.used.bits
      ensures Stable() && Now() == Given(old(Now()), f)
    {
      pages.kernel.PageNumbers(f);
      pages.FreeMultiple(p, cnt, false);
      foreign := foreign - {f};
    }

    /** Write the header of a new arena and put its blocks on the free list. */
    method AddArena(d: nat, a: nat, ghost s: State)
      requires Stable() && d < 7 && |s.lists| == 7 && a < |s.used| && Now() == s.(used := SetRange(s.used, a, 1, true))
      modifies `lists, `arenas
      ensures Stable() && Now() == NewArena(s, d, a)
    {
      arenas := arenas[a := Arena(Some(d), descs[d].blocksPerArena)];
      var list := PushAll(a, descs[d].blocksPerArena);
      lists := lists[d := list];
    }

    /** The part of malloc that creates an arena for descriptor "d"; "s" is the state before. */
    method Refill(d: nat, ghost s: State) returns (ok: bool)
      requires Valid() && s == Now() && d < 7 && lists[d] == []
      modifies this, pages.kernel.used.bits, pages.user.used.bits
      ensures Stable() && (ok <==> FirstFit(s.used, 1).Some?)
      ensures !ok ==> Now() == s
      ensures ok ==> FirstFit(s.used, 1).value < |s.used| && Now() == NewArena(s, d, FirstFit(s.used, 1).value)
    {
      var page := pages.GetMultiple(false, 1);
      if page.None? {
        FirstRunIsFirstFit(s.used, 1, None);
        return false;
      }
      var a := pages.kernel.NumberOf(page.value);
      FirstRunIsFirstFit(s.used, 1, Some(a));
      AddArena(d, a, s);
      ok := true;
    }

    /** Write back a free list and an arena header. */
    method Store(d: nat, list: seq<Block>, a: nat, arena: Arena, ghost nowLive: map<Block, nat>)
      requires Stable() && d < |lists|
      modifies `lists, `arenas, `live
      ensures Stable() && Now() == old(Now()).(lists := old(lists)[d := list], arenas := old(arenas)[a := arena],
        live := nowLive)
    {
      lists := lists[d := list];
      arenas := arenas[a := arena];
      live := nowLive;
    }

    /** The end of malloc: a block is taken from the free list. */
    method Take(d: nat, size: nat, ghost s: State) returns (p: Option<nat>, ghost b: Block)
      requires Stable() && s == Now() && d < 7 && |lists| == 7 && lists[d] != []
      requires IsBlockOf(s, lists[d][0], d)
      modifies `lists, `arenas, `live
      ensures Stable() && Now() == Pop(s, d, size) && b == s.lists[d][0] && p == Some(AddressOf(Now(), b))
    {
      b := lists[d][0];
      var block := lists[d][0];
      var arena := arenas[block.arena];
      p := Some(pages.kernel.PageAt(block.arena) + 24 + Times(block.index, descs[d].blockSize));
      assert p.value == AddressOf(s, b);
      Store(d, lists[d][1..], block.arena, arena.(freeCnt := if arena.freeCnt > 0 then arena.freeCnt - 1 else 0),
            live[block := size]);
    }

    /** The smallest descriptor that satisfies the request. */
    method FindDesc(size: nat) returns (d: nat)
      requires Stable()
      ensures d == DescFor(size)
    {
      d := 0;
      while d < 7 && descs[d].blockSize < size
        invariant 0 <= d <= 7 && forall c :: 0 <= c < d ==> Size(c) < size
      {
        d := d + 1;
      }
    }

    /** malloc.  It fails exactly when nothing is asked for, or no block of the size is free and no page
        can be had; otherwise one more block of at least the size is handed out. */
    method Malloc(size: nat) returns (p: Option<nat>, ghost b: Block)
      requires Valid() && size < 0x1_0000_0000_0000_0000
      modifies this, pages.kernel.used.bits, pages.user.used.bits
      ensures Stable() && Now() == Malloced(old(Now()), size).0
      ensures Malloced(old(Now()), size).1 == if p.Some? then Some(b) else None
      ensures p.None? <==> old(Refuses(size))
      ensures p.Some? ==> p.value == AddressOf(Now(), b)
      ensures NoWrap(size) ==> Valid() && OneMore(old(Now()), Now(), size, if p.Some? then Some(b) else None)
    {
      ghost var s := Now();
      RefusesExactly(s, size);
      p, b := AnyBlock(size);
      if NoWrap(size) { MallocedIsOneMore(s, size); }
    }

    /** malloc, without what it means. */
    method AnyBlock(size: nat) returns (p: Option<nat>, ghost b: Block)
      requires Valid() && size < 0x1_0000_0000_0000_0000
      modifies this, pages.kernel.used.bits, pages.user.used.bits
      ensures Stable() && Now() == Malloced(old(Now()), size).0
      ensures Malloced(old(Now()), size).1 == if p.Some? then Some(b) else None
      ensures p.Some? ==> p.value == AddressOf(Now(), b)
    {
      b := Block(0, 0);
      if size == 0 {
        return None, b;
      }
      ghost var s := Now();
      var d := FindDesc(size);
      if d == 7 {
        p, b := MallocBig(size);
      } else if lists[d] != [] {
        FrontBlock(s, d);
        p, b := Take(d, size, s);
      } else {
        SevenSizes(d);
        var ok := Refill(d, s);
        if !ok {
          return None, b;
        }
        NewFront(s, d, FirstFit(s.used, 1).value);
        p, b := Take(d, size, Now());
      }
    }

    lemma NewFront(s: State, d: nat, a: nat)
      requires d < 7 && |s.lists| == 7 && a < |s.used| && Per(d) > 0
      ensures var s' := NewArena(s, d, a);
        s'.lists[d] != [] && s'.lists[d][0] == Block(a, 0) && IsBlockOf(s', Block(a, 0), d)
    {
      assert AllBlocks(a, Per(d))[0] == Block(a, 0);
    }

    lemma RefusesExactly(s: State, size: nat)
      requires Valid() && s == Now()
      ensures Refuses(size) <==> Malloced(s, size).1.None?
    {
      var d := DescFor(size);
      if size > 0 && d < 7 {
        if s.lists[d] != [] {
          FrontBlock(s, d);
        } else {
          SevenSizes(d);
          OnePageLeft(s.used);
        }
      }
    }

    /** When malloc returns null. */
    ghost predicate Refuses(size: nat)
      requires Stable() && |lists| == 7
      reads this, pages, pages.kernel, pages.user, pages.kernel.used, pages.user.used, pages.kernel.used.bits,
        pages.user.used.bits
    {
      var d := DescFor(size);
      size == 0
      || (d == 7 && FirstFit(pages.kernel.used.View(), BigPages(size)).None?)
      || (d < 7 && lists[d] == [] && AllUsed(pages.kernel.used.View()))
    }

    /** block_to_arena: the page that the block is in. */
    method BlockToArena(p: nat, ghost b: Block) returns (a: nat)
      requires Valid() && b in live && p == AddressOf(Now(), b)
      ensures a == b.arena && a in arenas && p % 4096 == Offset(Now(), b)
    {
      OffsetFits(Now(), b);
      pages.kernel.PageNumbers(b.arena);
      OffsetInPage(pages.kernel.PageAt(b.arena), Offset(Now(), b));
      a := pages.kernel.NumberOf(p - p % 4096);
    }

    /** free of a block of an arena of blocks. */
    method FreeSmall(p: nat, a: nat, ghost b: Block)
      requires Valid() && b in live && a == b.arena && a in arenas && arenas[a].desc.Some?
        && p % 4096 == Offset(Now(), b)
      modifies this, pages.kernel.used.bits, pages.user.used.bits
      ensures Valid() && Now() == Freed(old(Now()), b)
    {
      PushKeepsInv(Now(), b);
      assert ArenaOk(Now(), a);
      var d := arenas[a].desc.value;
      PushBlock(p, a, d, b);
      if arenas[a].freeCnt >= descs[d].blocksPerArena {
        Release(a, d);
      }
    }

    /** A block goes on the free list of its descriptor. */
    method PushBlock(p: nat, a: nat, d: nat, ghost b: Block)
      requires Stable() && |lists| == 7 && d < 7 && b in live && a == b.arena && a in arenas
        && arenas[a].desc == Some(d)
      requires p % 4096 == Offset(Now(), b) && b.index < Per(d)
      modifies `lists, `arenas, `live
      ensures Stable() && Now() == Push(old(Now()), b)
    {
      var arena := arenas[a];
      QuotOfTimes(b.index, Size(d));
      var index := Quot(p % 4096 - 24, descs[d].blockSize);
      Store(d, [Block(a, index)] + lists[d], a, arena.(freeCnt := arena.freeCnt + 1), live - {b});
    }

    /** free of a big block. */
    method FreeBig(a: nat, ghost b: Block)
      requires Valid() && b in live && a == b.arena && a in arenas && arenas[a].desc.None?
      modifies this, pages.kernel.used.bits, pages.user.used.bits
      ensures Valid() && Now() == Freed(old(Now()), b)
    {
      ghost var s := Now();
      assert Taken(s, b) && ArenaOk(s, a);
      DropBigKeepsInv(s, a);
      pages.kernel.PageNumbers(a);
      pages.FreeMultiple(pages.kernel.PageAt(a), arenas[a].freeCnt, false);
      arenas := arenas - {a};
      live := live - {b};
      assert b == Block(a, 0) && Now() == DropBig(s, a);
    }

    /** free */
    method Free(p: Option<nat>, ghost b: Block)
      requires Valid() && (p.Some? ==> b in live && p.value == AddressOf(Now(), b))
      modifies this, pages.kernel.used.bits, pages.user.used.bits
      ensures Valid()
      ensures Now() == if p.None? then old(Now()) else Freed(old(Now()), b)
    {
      if p.Some? {
        var a := BlockToArena(p.value, b);
        if arenas[a].desc.Some? {
          FreeSmall(p.value, a, b);
        } else {
          FreeBig(a, b);
        }
      }
    }

    /** The end of free for an arena that is now entirely unused: its blocks leave the free list, one by one,
        and its page goes back. */
    method Release(a: nat, d: nat)
      requires Stable() && Inv(Now(), {a}) && a in arenas && arenas[a] == Arena(Some(d), Per(d)) && d < 7
      modifies this, pages.kernel.used.bits, pages.user.used.bits
      ensures a < |old(Now()).used| && Valid() && Now() == Drop(old(Now()), a)
    {
      ghost var s := Now();
      assert ArenaOk(s, a) && ListOk(s, d);
      DropKeepsInv(s, a);
      forall b | b in lists[d] && b.arena == a ensures b.index < Per(d) { assert IsBlockOf(s, b, d); }
      var list := RemoveAll(lists[d], a, descs[d].blocksPerArena);
      lists := lists[d := list];
      pages.kernel.PageNumbers(a);
      pages.FreeMultiple(pages.kernel.PageAt(a), 1, false);
      arenas := arenas - {a};
      assert Now() == Drop(s, a);
    }

    /** block_size */
    method BlockSize(p: nat, ghost b: Block) returns (n: nat)
      requires Valid() && b in live && p == AddressOf(Now(), b)
      ensures n == Usable(Now(), b)
    {
      var a := BlockToArena(p, b);
      assert ArenaOk(Now(), a);
      n := if arenas[a].desc.Some? then descs[arenas[a].desc.value].blockSize else 4096 * arenas[a].freeCnt - p % 4096;
    }

    /** realloc.  The bytes copied lie within both blocks. */
    method Realloc(block: Option<nat>, ghost b: Block, newSize: nat)
        returns (p: Option<nat>, ghost c: Block, copied: nat)
      requires Valid() && (block.Some? ==> b in live && block.value == AddressOf(Now(), b)) && NoWrap(newSize)
      modifies this, pages.kernel.used.bits, pages.user.used.bits
      ensures Valid()
      ensures newSize == 0 ==> p.None? && live == if block.Some? then old(live) - {b} else old(live)
      ensures newSize > 0 && p.None? ==> Now() == old(Now())
      ensures p.Some? ==>
        && newSize > 0 && c !in old(live) && p.value == AddressOf(Now(), c) && newSize <= Usable(Now(), c)
        && live == (if block.Some? then old(live) - {b} else old(live))[c := newSize]
      ensures p.Some? && block.Some? ==>
        copied == (if newSize < old(Usable(Now(), b)) then newSize else old(Usable(Now(), b)))
      ensures block.Some? ==>
        Enabled(old(Now()), Event.Realloc(b, newSize)) && Now() == Apply(old(Now()), Event.Realloc(b, newSize))
    {
      if block.Some? { OffsetFits(Now(), b); }
      copied := 0;
      if newSize == 0 {
        c := Block(0, 0);
        p := None;
        ghost var s := Now();
        Free(block, b);
        if block.Some? { FreedLive(s, b); }
      } else if block.None? {
        p, c := Malloc(newSize);
      } else {
        p, c, copied := Move(block.value, b, newSize, Now());
      }
    }

    /** The end of realloc: copy, and free the old block. */
    method CopyAndFree(block: nat, ghost b: Block, newSize: nat, ghost c: Block, ghost s: State) returns (copied: nat)
      requires Valid() && s == Now() && b in live && c in live && b != c && block == AddressOf(s, b)
      modifies this, pages.kernel.used.bits, pages.user.used.bits
      ensures Valid() && live == s.live - {b} && Offset(Now(), c) == Offset(s, c) && Usable(Now(), c) == Usable(s, c)
      ensures b.arena in s.arenas && Now() == Freed(s, b)
      ensures copied == if newSize < Usable(s, b) then newSize else Usable(s, b)
    {
      OffsetFits(s, b);
      var oldSize := BlockSize(block, b);
      copied := if newSize < oldSize then newSize else oldSize;
      Free(Some(block), b);
      MovedLive(s, b, c);
    }

    /** realloc of a block to a size that is not zero, once the new block is there: "s1" is the state then. */
    method Replace(block: nat, ghost b: Block, newSize: nat, ghost c: Block, ghost s: State, ghost s1: State)
        returns (copied: nat)
      requires Valid() && s1 == Now() && b in s.live && b.arena in s.arenas && block == AddressOf(s, b)
      requires KeepsArenas(s, s1) && c !in s.live && s1.live == s.live[c := newSize] && newSize <= Usable(s1, c)
      modifies this, pages.kernel.used.bits, pages.user.used.bits
      ensures Valid() && live == (s.live - {b})[c := newSize]
      ensures Offset(Now(), c) == Offset(s1, c) && newSize <= Usable(Now(), c)
      ensures b.arena in s1.arenas && Now() == Freed(s1, b)
      ensures copied == if newSize < Usable(s, b) then newSize else Usable(s, b)
    {
      MoveFacts(s, s1, b, c, newSize);
      copied := CopyAndFree(block, b, newSize, c, s1);
    }

    /** realloc of a block to a size that is not zero; "s" is the state before. */
    method Move(block: nat, ghost b: Block, newSize: nat, ghost s: State)
        returns (p: Option<nat>, ghost c: Block, copied: nat)
      requires Valid() && s == Now() && b in live && block == AddressOf(s, b) && 0 < newSize && NoWrap(newSize)
      modifies this, pages.kernel.used.bits, pages.user.used.bits
      ensures Valid()
      ensures p.None? ==> Now() == s
      ensures p.Some? ==> c !in s.live && p.value == AddressOf(Now(), c) && newSize <= Usable(Now(), c)
      ensures p.Some? ==> live == (s.live - {b})[c := newSize]
      ensures p.Some? ==> copied == if newSize < Usable(s, b) then newSize else Usable(s, b)
      ensures Enabled(s, Event.Realloc(b, newSize)) && Now() == Apply(s, Event.Realloc(b, newSize))
    {
      copied := 0;
      OffsetFits(s, b);
      p, c := Malloc(newSize);
      ghost var s1 := Now();
      ReallocIs(s, b, newSize);
      if p.Some? { copied := Replace(block, b, newSize, c, s, s1); }
    }
  }

  // ---------- every history ----------

  lemma FreedKeepsInv(s: State, b: Block)
    requires Inv(s, {}) && b in s.live
    ensures b.arena in s.arenas && Inv(Freed(s, b), {}) && Freed(s, b).live == s.live - {b}
      && Freed(s, b).foreign == s.foreign
  {
    assert Taken(s, b) && ArenaOk(s, b.arena);
    if s.arenas[b.arena].desc.None? {
      DropBigKeepsInv(s, b.arena);
    } else {
      PushKeepsInv(s, b);
      var s1 := Push(s, b);
      if s1.arenas[b.arena].freeCnt >= Per(s.arenas[b.arena].desc.value) {
        DropKeepsInv(s1, b.arena);
      } else {
        assert NotFree(s1, b.arena);
      }
    }
  }

  /** Calls of the page allocator by others, and of malloc, free and realloc. */
  datatype Event =
    | GetPages(cnt: nat)
    | FreePages(first: nat)
    | Malloc(size: nat)
    | Free(b: Block)
    | Realloc(b: Block, size: nat)

  /** What may be freed is what is there; the sizes are those that a block can have. */
  ghost predicate Enabled(s: State, e: Event) {
    |s.lists| == 7 &&
    match e
    case GetPages(_) => true
    case FreePages(f) => f in s.foreign
    case Malloc(size) => NoWrap(size)
    case Free(b) => b in s.live && b.arena in s.arenas
    case Realloc(b, size) => b in s.live && b.arena in s.arenas && NoWrap(size)
  }

  ghost function Apply(s: State, e: Event): State
    requires Enabled(s, e)
  {
    match e
    case GetPages(cnt) => Got(s, cnt)
    case FreePages(f) => Given(s, f)
    case Malloc(size) => Malloced(s, size).0
    case Free(b) => Freed(s, b)
    case Realloc(b, size) =>
      if size == 0 then Freed(s, b)
      else
        var (s1, c) := Malloced(s, size);
        if c.Some? && b.arena in s1.arenas then Freed(s1, b) else s1
  }

  lemma ReallocIs(s: State, b: Block, size: nat)
    requires Enabled(s, Event.Realloc(b, size)) && size > 0
    ensures
      var (s1, c) := Malloced(s, size);
      Apply(s, Event.Realloc(b, size)) == if c.Some? && b.arena in s1.arenas then Freed(s1, b) else s1
  {
  }

  lemma StepKeepsInv(s: State, e: Event)
    requires Inv(s, {}) && Enabled(s, e)
    ensures Inv(Apply(s, e), {})
  {
    match e
    case GetPages(cnt) => GotKeepsInv(s, cnt);
    case FreePages(f) => GivenKeepsInv(s, f);
    case Malloc(size) => MallocedIsOneMore(s, size);
    case Free(b) => FreedKeepsInv(s, b);
    case Realloc(b, size) => ReallocKeepsInv(s, b, size);
  }

  lemma ReallocKeepsInv(s: State, b: Block, size: nat)
    requires Inv(s, {}) && Enabled(s, Realloc(b, size))
    ensures Inv(Apply(s, Realloc(b, size)), {})
  {
    if size == 0 {
      FreedKeepsInv(s, b);
    } else {
      MallocedIsOneMore(s, size);
      var (s1, c) := Malloced(s, size);
      if c.Some? { FreedKeepsInv(s1, b); }
    }
  }

  /** What malloc_init leaves: empty lists, whatever pages of the pool are in use. */
  ghost function Initial(used: seq<bool>): State {
    State([[], [], [], [], [], [], []], map[], map[], used, map[])
  }

  lemma InitialOk(used: seq<bool>)
    ensures Inv(Initial(used), {})
  {
    assert forall d :: 0 <= d < 7 ==> Initial(used).lists[d] == [];
  }

  ghost predicate Legal(s: State, es: seq<Event>)
    decreases |es|
  {
    es == [] || (Enabled(s, es[0]) && Legal(Apply(s, es[0]), es[1..]))
  }

  ghost function Run(s: State, es: seq<Event>): State
    requires Legal(s, es)
    decreases |es|
  {
    if es == [] then s else Run(Apply(s, es[0]), es[1..])
  }

  lemma {:induction false} RunKeepsInv(s: State, es: seq<Event>)
    requires Inv(s, {}) && Legal(s, es)
    ensures Inv(Run(s, es), {})
    decreases |es|
  {
    if es != [] {
      StepKeepsInv(s, es[0]);
      RunKeepsInv(Apply(s, es[0]), es[1..]);
    }
  }

  /** What must not overlap: the blocks in use, the headers of arenas, and the pages that others have. */
  datatype Region = OfBlock(b: Block) | OfHeader(a: nat) | OfOthers(f: nat)

  ghost predicate IsRegion(s: State, r: Region) {
    match r
    case OfBlock(b) => b in s.live && b.arena in s.arenas
    case OfHeader(a) => a in s.arenas
    case OfOthers(f) => f in s.foreign
  }

  /** The first byte of a region, from the start of the pool. */
  ghost function Start(s: State, r: Region): nat {
    match r
    case OfBlock(b) => 4096 * b.arena + Offset(s, b)
    case OfHeader(a) => 4096 * a
    case OfOthers(f) => 4096 * f
  }

  ghost function End(s: State, r: Region): int
    requires IsRegion(s, r)
  {
    match r
    case OfBlock(b) => Start(s, r) + Usable(s, b)
    case OfHeader(a) => 4096 * a + 24
    case OfOthers(f) => 4096 * (f + s.foreign[f])
  }

  /** The pages that a region is in. */
  ghost function PagesOf(s: State, r: Region): (nat, nat)
    requires IsRegion(s, r)
  {
    match r
    case OfBlock(b) => (b.arena, b.arena + Span(s.arenas[b.arena]))
    case OfHeader(a) => (a, a + Span(s.arenas[a]))
    case OfOthers(f) => (f, f + s.foreign[f])
  }

  /** A block lies behind its arena's header, within the arena's pages, which are in use. */
  lemma BlockInArena(s: State, b: Block)
    requires ArenasOk(s) && LiveOk(s) && b in s.live
    ensures b.arena in s.arenas && Taken(s, b) && 24 <= Offset(s, b)
    ensures Offset(s, b) + Usable(s, b) <= 4096 * Span(s.arenas[b.arena])
    ensures b.arena + Span(s.arenas[b.arena]) <= |s.used| && AllAre(s.used, b.arena, Span(s.arenas[b.arena]), true)
  {
    assert Taken(s, b) && ArenaOk(s, b.arena);
    if s.arenas[b.arena].desc.Some? { BlockFits(s.arenas[b.arena].desc.value, b.index); }
  }

  lemma RegionInPages(s: State, r: Region)
    requires ArenasOk(s) && LiveOk(s) && IsRegion(s, r)
    ensures 4096 * PagesOf(s, r).0 <= Start(s, r) && End(s, r) <= 4096 * PagesOf(s, r).1
  {
    match r
    case OfBlock(b) => BlockInArena(s, b);
    case OfHeader(a) => assert ArenaOk(s, a);
    case OfOthers(_) =>
  }

  /** Two blocks of one arena. */
  lemma BlocksOfArenaApart(s: State, b: Block, c: Block)
    requires LiveOk(s) && ArenasOk(s) && b in s.live && c in s.live && b.arena == c.arena && b.index < c.index
    ensures b.arena in s.arenas && Offset(s, b) + Usable(s, b) <= Offset(s, c)
  {
    assert Taken(s, b) && Taken(s, c) && ArenaOk(s, b.arena);
    TimesGrows(b.index, c.index, Size(s.arenas[b.arena].desc.value));
  }

  ghost predicate NoOverlap(s: State, r: Region, q: Region)
    requires IsRegion(s, r) && IsRegion(s, q)
  {
    End(s, r) <= Start(s, q) || End(s, q) <= Start(s, r)
  }

  lemma SameArenaApart(s: State, r: Region, q: Region)
    requires Inv(s, {}) && IsRegion(s, r) && IsRegion(s, q) && r != q
    requires !r.OfOthers? && !q.OfOthers? && PagesOf(s, r) == PagesOf(s, q)
    ensures NoOverlap(s, r, q)
  {
    if r.OfBlock? { BlockInArena(s, r.b); }
    if q.OfBlock? { BlockInArena(s, q.b); }
    if r.OfBlock? && q.OfBlock? {
      if r.b.index < q.b.index { BlocksOfArenaApart(s, r.b, q.b); } else { BlocksOfArenaApart(s, q.b, r.b); }
    }
  }

  lemma PagesApart(s: State, r: Region, q: Region)
    requires Inv(s, {}) && IsRegion(s, r) && IsRegion(s, q) && r != q
      && (r.OfOthers? || q.OfOthers? || PagesOf(s, r) != PagesOf(s, q))
    ensures PagesOf(s, r).1 <= PagesOf(s, q).0 || PagesOf(s, q).1 <= PagesOf(s, r).0
  {
    if r.OfOthers? { assert RangeOk(s, r.f); }
    if q.OfOthers? { assert RangeOk(s, q.f); }
  }

  lemma RegionsApart(s: State, r: Region, q: Region)
    requires Inv(s, {}) && IsRegion(s, r) && IsRegion(s, q) && r != q
    ensures NoOverlap(s, r, q)
  {
    if r.OfOthers? || q.OfOthers? || PagesOf(s, r) != PagesOf(s, q) {
      PagesApart(s, r, q);
      RegionInPages(s, r);
      RegionInPages(s, q);
    } else {
      SameArenaApart(s, r, q);
    }
  }

  /** Over every history of calls by the heap's users and by other clients of the pool, the blocks in use, the
      headers and the pages of others never overlap, and every block has at least the size asked for. */
  lemma HistoryKeepsApart(s: State, es: seq<Event>, r: Region, q: Region)
    requires Inv(s, {}) && Legal(s, es) && IsRegion(Run(s, es), r) && IsRegion(Run(s, es), q) && r != q
    ensures NoOverlap(Run(s, es), r, q)
    ensures r.OfBlock? ==> Run(s, es).live[r.b] <= Usable(Run(s, es), r.b)
  {
    RunKeepsInv(s, es);
    RegionsApart(Run(s, es), r, q);
  }

  /** And the books are exact: each free list has exactly the blocks of its arenas that are not in use, once each,
      the header counts them, and no arena is wholly free. */
  lemma HistoryKeepsBooks(s: State, es: seq<Event>, a: nat, k: nat)
    requires Inv(s, {}) && Legal(s, es) && a in Run(s, es).arenas && Run(s, es).arenas[a].desc.Some?
    ensures
      var s' := Run(s, es);
      var d := s'.arenas[a].desc.value;
      && d < 7 && |s'.lists| == 7 && NoDup(s'.lists[d])
      && (k < Per(d) ==> (Block(a, k) in s'.lists[d] <==> Block(a, k) !in s'.live))
      && (Block(a, k) in s'.lists[d] || Block(a, k) in s'.live ==> k < Per(d))
      && s'.arenas[a].freeCnt == |FreeIn(s'.lists[d], a, Per(d))| < Per(d)
  {
    RunKeepsInv(s, es);
    var s' := Run(s, es);
    assert ArenaOk(s', a) && NotFree(s', a);
    var d := s'.arenas[a].desc.value;
    assert ListOk(s', d);
    assert Block(a, k) in s'.live <==> Taken(s', Block(a, k));
    assert Block(a, k) in s'.lists[d] ==> IsBlockOf(s', Block(a, k), d);
  }
}
