/** Priority donation on the object graph: donate_priority in threads/thread.c and the part of
    lock_acquire in threads/synch.c that calls it. */
module Donation {

  class Thread {
    var priority: int
    var waitLock: Lock?
    constructor (p: int) { priority := p; waitLock := null; }
  }

  class Lock {
    var holder: Thread?
    constructor () { holder := null; }
  }

  /** All threads and locks: links stay inside. */
  ghost predicate Closed(ts: set<Thread>, ls: set<Lock>)
    reads ts`waitLock, ls`holder
  {
    && (forall t :: t in ts && t.waitLock != null ==> t.waitLock in ls)
    && (forall l :: l in ls && l.holder != null ==> l.holder in ts)
  }

  /** The thread that "t" waits for. */
  ghost function HolderOf(ts: set<Thread>, ls: set<Lock>, t: Thread): (h: Thread?)
    requires Closed(ts, ls) && t in ts
    reads ts`waitLock, ls`holder
    ensures h != null ==> h in ts
  {
    if t.waitLock == null then null else t.waitLock.holder
  }

  /** The first "n" holders on the chain that starts at "t"; threads may repeat on it. */
  ghost function Holders(ts: set<Thread>, ls: set<Lock>, t: Thread, n: nat): (s: seq<Thread>)
    requires Closed(ts, ls) && t in ts
    reads ts`waitLock, ls`holder
    ensures |s| <= n && forall h :: h in s ==> h in ts
  {
    if n == 0 then []
    else
      var h := HolderOf(ts, ls, t);
      if h == null then [] else [h] + Holders(ts, ls, h, n - 1)
  }

  /** The thread before position "i" of the chain of "t". */
  ghost function Waiter(t: Thread, chain: seq<Thread>, i: nat): Thread
    requires i <= |chain|
  {
    if i == 0 then t else chain[i - 1]
  }

  /** Each thread on a chain holds what the one before it waits for, and the chain ends only at its
      length or where nobody is waited for. */
  lemma {:induction false} ChainLinks(ts: set<Thread>, ls: set<Lock>, t: Thread, n: nat, i: nat)
    requires Closed(ts, ls) && t in ts && i <= |Holders(ts, ls, t, n)|
    ensures var chain := Holders(ts, ls, t, n);
      && Waiter(t, chain, i) in ts
      && (i < |chain| ==> HolderOf(ts, ls, Waiter(t, chain, i)) == chain[i])
      && (i == |chain| < n ==> HolderOf(ts, ls, Waiter(t, chain, i)) == null)
    decreases n
  {
    if i > 0 {
      var h := HolderOf(ts, ls, t);
      ChainLinks(ts, ls, h, n - 1, i - 1);
    }
  }

  /** A longer chain extends a shorter one. */
  lemma {:induction false} ChainPrefix(ts: set<Thread>, ls: set<Lock>, t: Thread, n: nat)
    requires Closed(ts, ls) && t in ts
    ensures Holders(ts, ls, t, n) <= Holders(ts, ls, t, n + 1)
    ensures |Holders(ts, ls, t, n + 1)| <= n ==> Holders(ts, ls, t, n) == Holders(ts, ls, t, n + 1)
    ensures |Holders(ts, ls, t, n + 1)| > n ==> |Holders(ts, ls, t, n)| == n
    decreases n
  {
    var h := HolderOf(ts, ls, t);
    if n > 0 && h != null { ChainPrefix(ts, ls, h, n - 1); }
  }

  // ---------- the effect of a donation ----------

  ghost function PriorityOf(ts: set<Thread>): map<Thread, int>
    reads ts
  {
    map t | t in ts :: t.priority
  }

  ghost function Max(a: int, b: int): int {
    if a < b then b else a
  }

  /** The maximum of "m" and the priorities of the first "i" threads on the chain. */
  ghost function Passed(m: int, chain: seq<Thread>, before: map<Thread, int>, i: nat): int
    requires i <= |chain| && forall h :: h in chain ==> h in before
  {
    if i == 0 then m else Max(Passed(m, chain, before, i - 1), before[chain[i - 1]])
  }

  lemma {:induction false} PassedIsMaximum(m: int, chain: seq<Thread>, before: map<Thread, int>, i: nat)
    requires i <= |chain| && forall h :: h in chain ==> h in before
    ensures Passed(m, chain, before, i) >= m
    ensures forall j :: 0 <= j < i ==> Passed(m, chain, before, i) >= before[chain[j]]
    ensures Passed(m, chain, before, i) == m
      || exists j :: 0 <= j < i && Passed(m, chain, before, i) == before[chain[j]]
  {
    if i > 0 { PassedIsMaximum(m, chain, before, i - 1); }
  }

  lemma {:induction false} PassedGrows(m: int, chain: seq<Thread>, before: map<Thread, int>, i: nat, j: nat)
    requires i <= j <= |chain| && forall h :: h in chain ==> h in before
    ensures Passed(m, chain, before, i) <= Passed(m, chain, before, j)
  {
    if i < j { PassedGrows(m, chain, before, i, j - 1); }
  }

  /** The priority of "u" after donating "m" along the first "n" threads of "chain": that passed at
      its last place, or its own where it is not on the chain. */
  ghost function Donated(m: int, chain: seq<Thread>, before: map<Thread, int>, n: nat, u: Thread): int
    requires n <= |chain| && u in before && forall h :: h in chain ==> h in before
  {
    if n == 0 then before[u]
    else if chain[n - 1] == u then Passed(m, chain, before, n)
    else Donated(m, chain, before, n - 1, u)
  }

  /** A thread met before has its share of what is passed on. */
  lemma {:induction false} DonatedSoFar(m: int, chain: seq<Thread>, before: map<Thread, int>, n: nat, u: Thread)
    requires n <= |chain| && u in before && forall h :: h in chain ==> h in before
    ensures Donated(m, chain, before, n, u) >= before[u]
    ensures Donated(m, chain, before, n, u) <= Max(before[u], Passed(m, chain, before, n))
    ensures forall i :: 0 <= i < n && chain[i] == u ==>
      Donated(m, chain, before, n, u) >= Passed(m, chain, before, i + 1)
    ensures u !in chain[..n] ==> Donated(m, chain, before, n, u) == before[u]
  {
    if n > 0 {
      DonatedSoFar(m, chain, before, n - 1, u);
      assert chain[..n] == chain[..n - 1] + [chain[n - 1]];
      if chain[n - 1] == u {
        forall i | 0 <= i < n && chain[i] == u ensures Passed(m, chain, before, i + 1) <= Passed(m, chain, before, n) {
          PassedGrows(m, chain, before, i + 1, n);
        }
      }
    }
  }

  /** Where no thread repeats, the i-th holder ends with the maximum of the old priorities of the donor
      and of the first i holders. */
  lemma {:induction false} DonatedAlongAcyclicChain(m: int, chain: seq<Thread>, before: map<Thread, int>, n: nat,
      i: nat)
    requires i < n <= |chain| && forall h :: h in chain ==> h in before
    requires forall j, k :: 0 <= j < k < |chain| ==> chain[j] != chain[k]
    ensures Donated(m, chain, before, n, chain[i]) == Passed(m, chain, before, i + 1)
  {
    if i < n - 1 { DonatedAlongAcyclicChain(m, chain, before, n - 1, i); }
  }

  /** One turn of the loop. */
  lemma DonateOne(m: int, chain: seq<Thread>, before: map<Thread, int>, n: nat, u: Thread)
    requires n < |chain| && u in before && forall h :: h in chain ==> h in before
    ensures Donated(m, chain, before, n + 1, u) ==
              if u == chain[n] then Max(Donated(m, chain, before, n, u), Passed(m, chain, before, n))
              else Donated(m, chain, before, n, u)
  {
    DonatedSoFar(m, chain, before, n, u);
  }

  /** donate_priority, for the running thread "t". */
  method DonatePriority(t: Thread, ghost ts: set<Thread>, ghost ls: set<Lock>)
    requires Closed(ts, ls) && t in ts
    modifies ts`priority
    ensures Closed(ts, ls) && Holders(ts, ls, t, 8) == old(Holders(ts, ls, t, 8))
    ensures
      var (chain, before) := (old(Holders(ts, ls, t, 8)), old(PriorityOf(ts)));
      forall u :: u in ts ==> u.priority == Donated(before[t], chain, before, |chain|, u)
  {
    ghost var (chain, before, m) := (Holders(ts, ls, t, 8), PriorityOf(ts), t.priority);
    var curr := t;
    var lock := curr.waitLock;
    var depth := 0;
    while lock != null && depth < 8
      invariant 0 <= depth <= |chain| && chain == Holders(ts, ls, t, 8)
      invariant curr == Waiter(t, chain, depth) && curr in ts && lock == curr.waitLock
      invariant forall u :: u in ts ==> u.priority == Donated(m, chain, before, depth, u)
      invariant curr.priority == Passed(m, chain, before, depth)
      decreases 8 - depth
    {
      ChainLinks(ts, ls, t, 8, depth);
      if lock.holder == null {
        return;
      }
      forall u | u in ts ensures Donated(m, chain, before, depth + 1, u) ==
          if u == chain[depth] then Max(Donated(m, chain, before, depth, u), Passed(m, chain, before, depth))
          else Donated(m, chain, before, depth, u)
      {
        DonateOne(m, chain, before, depth, u);
      }
      lock.holder.priority := if lock.holder.priority < curr.priority then curr.priority else lock.holder.priority;
      curr := lock.holder;
      lock := curr.waitLock;
      depth := depth + 1;
    }
    ChainLinks(ts, ls, t, 8, depth);
  }

  // ---------- holders stay ahead of those who wait for them ----------

  /** Every thread's holder has at least its priority, leaving aside the thread "but". */
  ghost predicate Covered(ts: set<Thread>, ls: set<Lock>, p: map<Thread, int>, but: Thread?)
    requires Closed(ts, ls) && p.Keys == ts
    reads ts`waitLock, ls`holder
  {
    forall w :: w in ts && w != but && HolderOf(ts, ls, w) != null ==> p[w] <= p[HolderOf(ts, ls, w)]
  }

  /** On a chain that runs back into itself, everybody is covered by whom it comes back to. */
  lemma {:induction false} CycleIsCovered(ts: set<Thread>, ls: set<Lock>, t: Thread, before: map<Thread, int>, j: nat,
      i: nat)
    requires Closed(ts, ls) && t in ts && before.Keys == ts && Covered(ts, ls, before, t)
    requires var chain := Holders(ts, ls, t, 9);
      |chain| == 9 && j <= i < 8 && chain[8] == chain[j]
    ensures before[Holders(ts, ls, t, 9)[i]] <= Max(before[t], before[Holders(ts, ls, t, 9)[j]])
    decreases 8 - i
  {
    var chain := Holders(ts, ls, t, 9);
    ChainLinks(ts, ls, t, 9, i + 1);
    if chain[i] != t && i < 7 { CycleIsCovered(ts, ls, t, before, j, i + 1); }
  }

  /** Donation restores the property for the donor exactly when the chain has ended within eight
      holders, or runs back into itself, or nothing more than the ninth already has was passed on. */
  lemma DonationCovers(ts: set<Thread>, ls: set<Lock>, t: Thread, before: map<Thread, int>, now: map<Thread, int>)
    requires Closed(ts, ls) && t in ts && before.Keys == ts && now.Keys == ts && Covered(ts, ls, before, t)
    requires var chain := Holders(ts, ls, t, 8);
      forall u :: u in ts ==> now[u] == Donated(before[t], chain, before, |chain|, u)
    ensures Covered(ts, ls, now, null) <==> ReachesAll(ts, ls, t, before)
  {
    var (chain, next) := (Holders(ts, ls, t, 8), Holders(ts, ls, t, 9));
    ChainPrefix(ts, ls, t, 8);
    if ReachesAll(ts, ls, t, before) {
      forall w | w in ts && HolderOf(ts, ls, w) != null ensures now[w] <= now[HolderOf(ts, ls, w)] {
        CoversWaiter(ts, ls, t, before, w);
      }
    } else {
      ChainLinks(ts, ls, t, 9, 8);
      DonatedSoFar(before[t], chain, before, 8, next[8]);
      DonatedSoFar(before[t], chain, before, 8, chain[7]);
      assert now[chain[7]] > now[HolderOf(ts, ls, chain[7])];
    }
  }

  ghost predicate ReachesAll(ts: set<Thread>, ls: set<Lock>, t: Thread, before: map<Thread, int>)
    requires Closed(ts, ls) && t in ts && before.Keys == ts
    reads ts`waitLock, ls`holder
  {
    var (chain, next) := (Holders(ts, ls, t, 8), Holders(ts, ls, t, 9));
    |next| <= 8 || next[8] in chain || |chain| < 8 || Passed(before[t], chain, before, 8) <= before[next[8]]
  }

  /** The next holder on the chain has at least what was passed to the one before. */
  lemma NextHasMore(m: int, chain: seq<Thread>, before: map<Thread, int>, i: nat, h: Thread)
    requires i < |chain| && chain[i] == h && h in before && forall h :: h in chain ==> h in before
    ensures Passed(m, chain, before, i) <= Donated(m, chain, before, |chain|, h)
  {
    DonatedSoFar(m, chain, before, |chain|, h);
    PassedGrows(m, chain, before, i, i + 1);
  }

  /** The last holder of a chain of eight. */
  lemma CoversLast(ts: set<Thread>, ls: set<Lock>, t: Thread, before: map<Thread, int>, h: Thread)
    requires Closed(ts, ls) && t in ts && before.Keys == ts && Covered(ts, ls, before, t)
      && ReachesAll(ts, ls, t, before)
    requires var chain := Holders(ts, ls, t, 8);
      |chain| > 0 && HolderOf(ts, ls, chain[|chain| - 1]) == h
    ensures var chain := Holders(ts, ls, t, 8);
      Passed(before[t], chain, before, |chain|) <= Donated(before[t], chain, before, |chain|, h)
  {
    var (m, chain, next) := (before[t], Holders(ts, ls, t, 8), Holders(ts, ls, t, 9));
    ChainPrefix(ts, ls, t, 8);
    ChainLinks(ts, ls, t, 9, |chain|);
    assert |next| == 9 && next[8] == h;
    if h in chain {
      CycleCoversLast(ts, ls, t, before);
    } else {
      DonatedSoFar(m, chain, before, 8, h);
    }
  }

  lemma CoversHolder(ts: set<Thread>, ls: set<Lock>, t: Thread, before: map<Thread, int>, w: Thread, h: Thread)
    requires Closed(ts, ls) && t in ts && before.Keys == ts && Covered(ts, ls, before, t)
      && ReachesAll(ts, ls, t, before)
    requires w in Holders(ts, ls, t, 8) && HolderOf(ts, ls, w) == h
    ensures
      var chain := Holders(ts, ls, t, 8);
      Donated(before[t], chain, before, |chain|, w) <= Donated(before[t], chain, before, |chain|, h)
  {
    var (m, chain) := (before[t], Holders(ts, ls, t, 8));
    assert chain[..|chain|] == chain;
    var i := DonatedAt(m, chain, before, |chain|, w);
    ChainLinks(ts, ls, t, 8, i + 1);
    if i + 1 < |chain| { NextHasMore(m, chain, before, i + 1, h); } else { CoversLast(ts, ls, t, before, h); }
  }

  lemma CoversWaiter(ts: set<Thread>, ls: set<Lock>, t: Thread, before: map<Thread, int>, w: Thread)
    requires Closed(ts, ls) && t in ts && before.Keys == ts && Covered(ts, ls, before, t)
      && ReachesAll(ts, ls, t, before)
    requires w in ts && HolderOf(ts, ls, w) != null
    ensures
      var chain := Holders(ts, ls, t, 8);
      Donated(before[t], chain, before, |chain|, w) <= Donated(before[t], chain, before, |chain|, HolderOf(ts, ls, w))
  {
    var (m, chain, h) := (before[t], Holders(ts, ls, t, 8), HolderOf(ts, ls, w));
    if w in chain {
      CoversHolder(ts, ls, t, before, w, h);
    } else {
      assert chain[..|chain|] == chain;
      DonatedSoFar(m, chain, before, |chain|, w);
      DonatedSoFar(m, chain, before, |chain|, h);
      if w == t {
        ChainLinks(ts, ls, t, 8, 0);
        NextHasMore(m, chain, before, 0, h);
      }
    }
  }

  lemma {:induction false} DonatedAt(m: int, chain: seq<Thread>, before: map<Thread, int>, n: nat, u: Thread)
      returns (i: nat)
    requires n <= |chain| && u in before && u in chain[..n] && forall h :: h in chain ==> h in before
    ensures i < n && chain[i] == u && Donated(m, chain, before, n, u) == Passed(m, chain, before, i + 1)
  {
    if chain[n - 1] == u {
      i := n - 1;
    } else {
      assert chain[..n] == chain[..n - 1] + [chain[n - 1]];
      i := DonatedAt(m, chain, before, n - 1, u);
    }
  }

  lemma CycleCoversLast(ts: set<Thread>, ls: set<Lock>, t: Thread, before: map<Thread, int>)
    requires Closed(ts, ls) && t in ts && before.Keys == ts && Covered(ts, ls, before, t)
    requires var (chain, next) := (Holders(ts, ls, t, 8), Holders(ts, ls, t, 9));
      |next| == 9 && next[8] in chain
    ensures
      var (chain, next) := (Holders(ts, ls, t, 8), Holders(ts, ls, t, 9));
      |chain| == 8 && Passed(before[t], chain, before, 8) <= Donated(before[t], chain, before, 8, next[8])
  {
    var (m, chain, next) := (before[t], Holders(ts, ls, t, 8), Holders(ts, ls, t, 9));
    ChainPrefix(ts, ls, t, 8);
    var j :| 0 <= j < |chain| && chain[j] == next[8];
    DonatedSoFar(m, chain, before, 8, next[8]);
    PassedIsMaximum(m, chain, before, j + 1);
    PassedStays(ts, ls, t, before, j, 8);
  }

  lemma {:induction false} PassedStays(ts: set<Thread>, ls: set<Lock>, t: Thread, before: map<Thread, int>, j: nat,
      n: nat)
    requires Closed(ts, ls) && t in ts && before.Keys == ts && Covered(ts, ls, before, t)
    requires var (chain, next) := (Holders(ts, ls, t, 8), Holders(ts, ls, t, 9));
      |next| == 9 && j < n <= 8 && next[8] == next[j] && |chain| == 8 && chain <= next
    ensures var chain := Holders(ts, ls, t, 8);
      Passed(before[t], chain, before, n) <= Passed(before[t], chain, before, j + 1)
  {
    if n > j + 1 {
      PassedStays(ts, ls, t, before, j, n - 1);
      CycleIsCovered(ts, ls, t, before, j, n - 1);
      PassedIsMaximum(before[t], Holders(ts, ls, t, 8), before, j + 1);
    }
  }

  /** lock_acquire up to its sema_down: record what is waited for, and donate. */
  method AcquireDonates(lock: Lock, t: Thread, ghost ts: set<Thread>, ghost ls: set<Lock>)
    requires Closed(ts, ls) && t in ts && lock in ls && lock.holder != t && t.waitLock == null
    requires Covered(ts, ls, PriorityOf(ts), null)
    modifies t`waitLock, ts`priority
    ensures Closed(ts, ls) && t.waitLock == (if lock.holder == null then null else lock)
    ensures Covered(ts, ls, PriorityOf(ts), null) <==> ReachesAll(ts, ls, t, old(PriorityOf(ts)))
    ensures
      var (chain, before) := (Holders(ts, ls, t, 8), old(PriorityOf(ts)));
      forall u :: u in ts ==> u.priority == Donated(before[t], chain, before, |chain|, u)
  {
    ghost var before := PriorityOf(ts);
    if lock.holder != null {
      t.waitLock := lock;
      ghost var chain := Holders(ts, ls, t, 8);
      assert PriorityOf(ts) == before;
      DonatePriority(t, ts, ls);
      assert Holders(ts, ls, t, 8) == chain;
    } else {
      assert Holders(ts, ls, t, 8) == [];
    }
    DonationCovers(ts, ls, t, before, PriorityOf(ts));
  }
}
