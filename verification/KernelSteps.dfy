/** The interrupts-off regions of threads/thread.c, threads/synch.c and devices/timer.c in place, on thread
    and semaphore structures and on linked lists of list_elem.  Each is proved to take the step of the state
    machine in Scheduler.  What makes it safe to link a thread through its single list_elem is the
    invariant of that machine: no thread is on two lists, and none is freed while it is on one. */
module KernelSteps {
  import opened StableOrder
  import opened KernelList
  import opened Scheduler
  import opened SchedulerSteps
  import opened SchedulerRuns
  import opened Sequences
  import opened ThreadLists

  /** No list has the thread. */
  ghost predicate Unlisted(k: State, t: Tid) {
    t !in k.ready && t !in k.sleepers && t !in k.destruction && forall s :: s in k.semas ==> t !in k.semas[s].waiters
  }

  lemma StillUnlisted(k: State, k': State, t: Tid)
    requires Unlisted(k, t) && (forall u :: u in k'.ready ==> u in k.ready)
    requires k'.sleepers == k.sleepers && k'.destruction == k.destruction && k'.semas == k.semas
    ensures Unlisted(k', t)
  {
  }

  /** The threads that can be scheduled are there, and a page about to be freed is on no other list. */
  ghost predicate Runnable(k: State) {
    && k.current in k.threads && k.current !in k.destruction
    && k.idle in k.threads && k.idle !in k.destruction
    && (forall t :: t in k.ready ==> t in k.threads)
    && NoDup(k.destruction)
    && forall t :: t in k.destruction ==> Unlisted(k.(destruction := []), t)
  }

  lemma ListsRunnable(k: State)
    requires Lists(k, {}) && OneRunning(k) && k.current !in k.destruction
    ensures Runnable(k) && Unlisted(k, k.current)
    ensures forall t :: t in k.sleepers ==> Has(k, t, Blocked)
    ensures forall s, t :: s in k.semas && t in k.semas[s].waiters ==> Has(k, t, Blocked)
  {
    assert Has(k, k.current, Running);
    forall s | s in k.semas ensures forall t :: t in k.semas[s].waiters ==> Has(k, t, Blocked) {
      assert QueueOk(k, s, {});
    }
  }

  /** The loop of do_schedule, when the pages of the first dead threads have been freed. */
  ghost predicate Freeing(k: State, k0: State, freed: seq<Tid>) {
    freed + k.destruction == k0.destruction
    && k == k0.(threads := k0.threads - Elements(freed), destruction := k.destruction)
  }

  lemma NoneFreed(k: State)
    ensures Freeing(k, k, [])
  {
    assert k.threads - Elements([]) == k.threads;
  }

  lemma AllFreed(k: State, k0: State, freed: seq<Tid>)
    requires Freeing(k, k0, freed) && k.destruction == []
    ensures k == Reap(k0)
  {
    assert freed == k0.destruction;
  }

  lemma OneMoreFreed(k: State, k0: State, freed: seq<Tid>)
    requires Freeing(k, k0, freed) && k.destruction != []
    ensures
      var t := k.destruction[0];
      Freeing(k.(threads := k.threads - {t}, destruction := k.destruction[1..]), k0, freed + [t])
  {
    var t := k.destruction[0];
    assert Elements(freed + [t]) == Elements(freed) + {t};
    assert k0.threads - Elements(freed) - {t} == k0.threads - (Elements(freed) + {t});
  }

  /** Waking the sleepers that are due comes to "woken" from here. */
  ghost predicate Waking(k: State, woken: State) {
    WakeSleepers(k) == woken && NoDup(k.sleepers) && forall t :: t in k.sleepers ==> Has(k, t, Blocked)
  }

  ghost function Ticked(k: State): State {
    k.(ticks := k.ticks + 1)
  }

  lemma TickWakes(k: State)
    requires Lists(k, {})
    ensures Waking(Ticked(k), Apply(k, Tick))
  {
    forall t | t in k.sleepers ensures Has(k, t, Blocked) {
      assert t in k.sleepers <==> Has(k, t, Blocked) && At(k, t).mode == Asleep && t !in {};
    }
  }

  lemma StillWaking(k: State, woken: State)
    requires Waking(k, woken) && k.sleepers != [] && At(k, k.sleepers[0]).wakeupTick <= k.ticks
    ensures Waking(WakeOne(k), woken) && WakeOne(k).sleepers == k.sleepers[1..] && Has(k, k.sleepers[0], Blocked)
  {
    TailMembers(k.sleepers);
    assert k.sleepers[0] in k.sleepers;
  }

  /** The running thread can be put on the ready list. */
  lemma EnqueueRunnable(k: State)
    requires Runnable(k)
    ensures Runnable(Enqueue(k, k.current))
  {
    InsertedMembers(ByPriority(k), k.ready, k.current);
  }

  lemma WrittenTwice(k: State, s: SemaId, a: Sema, b: Sema)
    ensures PutSema(PutSema(k, s, a), s, b) == PutSema(k, s, b) && Sem(PutSema(k, s, a), s) == a
  {
  }

  lemma BootThreads(k: State, p: int)
    requires k.main != k.idle && k == Boot(k.main, k.idle, p)
    ensures
      var k1 := Put(k.(threads := map[]), k.main, Thread(Blocked, p, 0, Free, 0, 0));
      k == Put(Put(k1, k.main, At(k1, k.main).(status := Running)), k.idle, Thread(Blocked, 0, 0, Free, 0, 0))
  {
    var k1 := Put(k.(threads := map[]), k.main, Thread(Blocked, p, 0, Free, 0, 0));
    assert k.threads == Put(Put(k1, k.main, At(k1, k.main).(status := Running)), k.idle,
      Thread(Blocked, 0, 0, Free, 0, 0)).threads;
  }

  lemma TakeInTwo(k: State, s: SemaId, a: Sema)
    requires Sem(k, s).value > 0 && a == Sem(k, s).(value := Sem(k, s).value - 1, downs := Sem(k, s).downs + 1)
    ensures PutSema(PutSema(k, s, a), s, a.(woken := a.woken - {k.current})) == Take(k, s)
  {
    WrittenTwice(k, s, a, a.(woken := a.woken - {k.current}));
  }

  /** Orders that agree put an element in the same place. */
  lemma {:induction false} InsertAlike(less: (Tid, Tid) -> bool, other: (Tid, Tid) -> bool, q: seq<Tid>, x: Tid)
    requires forall a, b :: less(a, b) == other(a, b)
    ensures InsertOrdered(less, q, x) == InsertOrdered(other, q, x)
  {
    if q != [] && !less(x, q[0]) { InsertAlike(less, other, q[1..], x); }
  }

  /** The waiters in the order in which sema_up looks at them. */
  ghost function ByRank(k: State, s: SemaId): seq<Tid> {
    InsertionSort(ByPriority(k), Sem(k, s).waiters)
  }

  /** The first of them has been taken off the list, to test the value again. */
  ghost function Dequeued(k: State, s: SemaId): State
    requires ByRank(k, s) != []
  {
    PutSema(k, s, Sem(k, s).(waiters := ByRank(k, s)[1..], woken := Sem(k, s).woken + {ByRank(k, s)[0]}))
  }

  lemma HighestIsBlocked(k: State, s: SemaId)
    requires forall t :: t in Sem(k, s).waiters ==> Has(k, t, Blocked)
    ensures ByRank(k, s) == [] <==> Sem(k, s).waiters == []
    ensures ByRank(k, s) != [] ==> Has(Dequeued(k, s), ByRank(k, s)[0], Blocked)
  {
    SortedMembers(ByPriority(k), Sem(k, s).waiters);
    if ByRank(k, s) != [] { assert ByRank(k, s)[0] in ByRank(k, s); }
  }

  lemma UpIsWake(k: State, s: SemaId)
    requires ByRank(k, s) != []
    ensures
      var k1 := Dequeued(k, s);
      Up(k, s) == Unblock(k1.(semas := Raise(k1, s).semas), ByRank(k, s)[0])
  {
    var (up, k1) := (Raise(k, s), Dequeued(k, s));
    assert PutSema(up, s, Sem(up, s).(waiters := ByRank(k, s)[1..],
      woken := Sem(up, s).woken + {ByRank(k, s)[0]})).semas
        == Raise(k1, s).semas;
  }

  /** It makes no difference that the source raises the value after it has unblocked the waiter. */
  lemma RaiseLast(k: State, s: SemaId)
    ensures Up(k, s) == if ByRank(k, s) == [] then Raise(k, s) else Raise(Unblock(Dequeued(k, s), ByRank(k, s)[0]), s)
  {
    if ByRank(k, s) != [] {
      UpIsWake(k, s);
      RaiseAfter(Dequeued(k, s), s, ByRank(k, s)[0]);
    }
  }

  lemma RaiseAfter(k: State, s: SemaId, t: Tid)
    ensures Unblock(k.(semas := Raise(k, s).semas), t) == Raise(Unblock(k, t), s)
  {
    InsertAlike(ByPriority(k), ByPriority(k.(semas := Raise(k, s).semas)), k.ready, t);
  }

  /** Once the owner has let go, sema_up can wake a waiter, and then the threads can be scheduled. */
  ghost predicate CanRelease(k: State, l: nat)
    requires At(k, k.current).mode.Leaving?
  {
    var (k1, k2) := (LetGo(k), Up(LetGo(k), OfLock(l)));
    (forall t :: t in Sem(k1, OfLock(l)).waiters ==> Has(k1, t, Blocked)) && Runnable(k2) && Unlisted(k2, k2.current)
  }

  /** An owner that is about to raise the value can let go and then wake a waiter. */
  lemma LetGoIsReady(k: State)
    requires Inv(k) && At(k, k.current).mode.Leaving?
    ensures
      var l := At(k, k.current).mode.lock;
      k.current in k.threads && OfLock(l) in k.semas && l in k.locks && CanRelease(k, l)
  {
    var (k1, s) := (LetGo(k), OfLock(At(k, k.current).mode.lock));
    assert Has(k, k.current, Running);
    assert InTransit(k, s.l, k.current);
    LetGoKeepsTheRest(k);
    ListsRunnable(k1);
    UpKeepsTheRest(k1, s);
    ListsRunnable(Up(k1, s));
  }

  class Kernel {
    const idle: Tid
    const main: Tid
    const ready: List
    const sleepers: List
    const destruction: List
    var threads: map<Tid, Tcb>
    var semas: map<SemaId, Semaphore>
    var locks: map<nat, Lock>
    var current: Tid
    var ticks: int
    ghost var clock: nat
    ghost var raised: set<Tid>
    ghost var cells: set<Elem>
    ghost var repr: set<object>

    ghost function Queues(): set<List>
      reads this`semas
    {
      set s | s in semas :: semas[s].waiters
    }

    ghost function Lists(): set<List>
      reads this`semas
    {
      {ready, sleepers, destruction} + Queues()
    }

    /** Every list is well-formed. */
    ghost predicate Linked()
      reads this`semas, this`cells, Lists(), cells
    {
      forall l :: l in Lists() ==> (forall e :: e in l.Nodes() ==> e in cells) && l.Valid()
    }

    /** No two lists have a sentinel or an element in common. */
    ghost predicate Separate()
      reads this`semas, Lists()
    {
      forall l, m :: l in Lists() && m in Lists() && l != m ==> Apart(l.Nodes(), m.Nodes())
    }

    /** The lists are different objects, and so are the threads, semaphores and list_elems. */
    ghost predicate Named()
      reads this`threads, this`semas, this`cells
    {
      && ready != sleepers && ready != destruction && sleepers != destruction
      && (forall s :: s in semas ==> semas[s].waiters !in {ready, sleepers, destruction})
      && (forall r, s :: r in semas && s in semas && r != s ==> semas[r].waiters != semas[s].waiters)
      && (forall t :: t in threads ==> threads[t].elem.owner == t && threads[t].elem in cells)
      && (forall t, l :: t in threads && l in Lists() ==> threads[t].elem != l.head && threads[t].elem != l.tail)
    }

    /** What is on a list is the list_elem of a thread whose page is there. */
    ghost predicate Entered()
      reads this`threads, this`semas, Lists()
    {
      forall l, e :: l in Lists() && e in l.elems ==> e.owner in threads && e == threads[e.owner].elem
    }

    ghost predicate Owned()
      reads this`threads, this`semas, this`cells, this`repr
    {
      && (forall t :: t in threads ==> threads[t] in repr)
      && (forall s :: s in semas ==> semas[s] in repr)
      && (forall l :: l in Lists() ==> l in repr)
      && cells <= repr && this !in repr
    }

    ghost predicate Structure()
      reads this`threads, this`semas, this`cells, this`repr, Lists(), cells
    {
      Linked() && Separate() && Named() && Entered() && Owned()
    }

    ghost function Threads(): map<Tid, Thread>
      reads this`threads, threads.Values
    {
      map t | t in threads :: threads[t].Value()
    }

    ghost function Semas(): map<SemaId, Sema>
      reads this`semas, semas.Values, Queues()
    {
      map s | s in semas :: semas[s].Value()
    }

    /** The state of the machine that the memory stands for. */
    ghost function Now(): State
      reads this, threads.Values, semas.Values, Lists()
    {
      State(Threads(), current, idle, main, Ids(ready.elems), Ids(sleepers.elems), Ids(destruction.elems),
        Semas(), locks,
            ticks, clock, raised)
    }

    ghost predicate Valid()
      reads this, threads.Values, semas.Values, Lists(), cells
    {
      Structure() && Inv(Now())
    }

    /** The list_init calls of thread_init. */
    constructor (main: Tid, idle: Tid, ghost p: int)
      requires main != idle
      ensures Structure() && this.main == main && this.idle == idle && Now() == Boot(main, idle, p).(threads := map[])
    {
      var r, s, d := ThreeLists();
      ready, sleepers, destruction := r, s, d;
      this.main, this.idle, current, ticks, clock, raised := main, idle, main, 0, 0, {};
      threads, semas, locks := map[], map[], map[];
      new;
      Furnish(p);
    }

    static method ThreeLists() returns (r: List, s: List, d: List)
      ensures r.Valid() && s.Valid() && d.Valid() && r.elems == [] && s.elems == [] && d.elems == []
      ensures Apart(r.Nodes(), s.Nodes()) && Apart(r.Nodes(), d.Nodes()) && Apart(s.Nodes(), d.Nodes())
    {
      r := new List();
      s := new List();
      d := new List();
    }

    ghost method Furnish(p: int)
      requires threads == map[] && semas == map[] && locks == map[] && main != idle && current == main
      requires ticks == 0 && clock == 0 && raised == {}
      requires ready.Valid() && sleepers.Valid() && destruction.Valid()
      requires ready.elems == [] && sleepers.elems == [] && destruction.elems == []
      requires Apart(ready.Nodes(), sleepers.Nodes()) && Apart(ready.Nodes(), destruction.Nodes())
      requires Apart(sleepers.Nodes(), destruction.Nodes())
      modifies this`cells, this`repr
      ensures Structure() && Now() == Boot(main, idle, p).(threads := map[])
    {
      cells := {ready.head, ready.tail, sleepers.head, sleepers.tail, destruction.head, destruction.tail};
      repr := {ready, sleepers, destruction} + cells;
      EmptyLists(p);
    }

    lemma EmptyLists(p: int)
      requires threads == map[] && semas == map[]
      requires ready.Valid() && sleepers.Valid() && destruction.Valid()
      requires ready.elems == [] && sleepers.elems == [] && destruction.elems == []
      requires Apart(ready.Nodes(), sleepers.Nodes()) && Apart(ready.Nodes(), destruction.Nodes())
      requires Apart(sleepers.Nodes(), destruction.Nodes())
      requires cells == {ready.head, ready.tail, sleepers.head, sleepers.tail, destruction.head, destruction.tail}
      requires repr == {ready, sleepers, destruction} + cells
      requires main != idle && current == main && locks == map[] && ticks == 0 && clock == 0 && raised == {}
      ensures Structure() && Now() == Boot(main, idle, p).(threads := map[])
    {
      assert ready.head in ready.Nodes() && sleepers.head in sleepers.Nodes();
      assert Lists() == {ready, sleepers, destruction};
      assert Threads() == map[] && Semas() == map[];
    }

    /** The rest of thread_init, and thread_start: the main thread is the running code; the idle thread has been made,
        and has blocked. */
    method Start(p: int)
      requires Structure() && main != idle && Now() == Boot(main, idle, p).(threads := map[])
      modifies this`threads, this`cells, this`repr
      ensures Valid() && Now() == Boot(main, idle, p)
    {
      BootOk(main, idle, p);
      InitThread(main, p);
      SetStatus(main, Running);
      InitThread(idle, 0);
      BootThreads(Boot(main, idle, p), p);
    }

    /** Memory for new structures. */
    ghost method Reserve(elems: set<Elem>, objects: set<object>)
      requires Structure() && this !in objects + elems
      modifies this`cells, this`repr
      ensures Structure() && Now() == old(Now()) && cells == old(cells) + elems && repr == old(repr) + objects + elems
    {
      cells, repr := cells + elems, repr + objects + elems;
      NoStructure();
    }

    /** A thread that is on no list has been made. */
    twostate lemma StructureWith(t: Tid)
      requires old(Structure()) && t !in old(threads) && t in threads && threads[t].elem.owner == t
        && semas == old(semas)
      requires threads == old(threads)[t := threads[t]] && threads[t].elem in cells && threads[t] in repr
      requires cells == old(cells) && repr == old(repr) && Linked() && Separate()
      requires forall l :: l in Lists() ==> l.elems == old(l.elems) && threads[t].elem !in l.Nodes()
      ensures Structure()
    {
    }

    /** init_thread in a new page. */
    method InitThread(t: Tid, priority: int)
      requires Structure() && t !in Now().threads
      modifies this`threads, this`cells, this`repr
      ensures Structure() && Now() == Put(old(Now()), t, Thread(Blocked, priority, 0, Free, 0, 0))
      ensures t in threads && fresh(threads[t]) && fresh(repr - old(repr)) && old(repr) <= repr
    {
      ghost var k := Now();
      Shown(t);
      var th := new Tcb(t, priority);
      assert Now() == k;
      EnterThread(t, th);
    }

    method EnterThread(t: Tid, th: Tcb)
      requires Structure() && t !in threads && th.elem.owner == t && th.elem !in cells && this !in {th, th.elem}
      modifies this`threads, this`cells, this`repr
      ensures Structure() && Now() == Put(old(Now()), t, th.Value())
      ensures t in threads && threads[t] == th && repr == old(repr) + {th, th.elem}
    {
      Reserve({th.elem}, {th});
      AddThread(t, th);
    }

    method AddThread(t: Tid, th: Tcb)
      requires Structure() && t !in threads && th.elem.owner == t && th.elem in cells && th in repr
      requires forall l :: l in Lists() ==> th.elem !in l.Nodes()
      modifies this`threads
      ensures Structure() && Now() == Put(old(Now()), t, th.Value())
      ensures t in threads && threads[t] == th
    {
      threads := threads[t := th];
      StructureWith(t);
      NewThread(t);
    }

    // ---------- the lists ----------

    /** The thread is on no list. */
    ghost predicate Off(t: Tid)
      reads this`semas, Lists()
    {
      forall l, e :: l in Lists() && e in l.elems ==> e.owner != t
    }

    lemma OffExactly(t: Tid)
      requires Named()
      ensures Off(t) <==> Unlisted(Now(), t)
    {
      if Unlisted(Now(), t) {
        forall l, e | l in Lists() && e in l.elems ensures e.owner != t { OffOne(l, e); }
      }
    }

    lemma OffOne(l: List, e: Elem)
      requires l in Lists() && e in l.elems
      ensures !Unlisted(Now(), e.owner)
    {
      var i :| 0 <= i < |l.elems| && l.elems[i] == e;
      assert Ids(l.elems)[i] == e.owner && e.owner in Ids(l.elems);
      if l in Queues() {
        var s :| s in semas && semas[s].waiters == l;
        ShownSema(s);
      }
    }

    /** Relinking one list leaves the others as they are. */
    twostate lemma Relinked(l: List)
      requires old(Linked() && Separate() && l in Lists()) && unchanged(this) && l.Valid()
      requires forall m :: m in Lists() && m != l ==> m.Nodes() == old(m.Nodes()) && Apart(m.Nodes(), l.Nodes())
      requires forall m, x :: m in Lists() && m != l && x in m.Nodes() ==> SameLinks(x)
      requires forall x :: x in l.Nodes() ==> x in cells
      ensures Linked() && Separate()
    {
      forall m | m in Lists() && m != l
        ensures m.Valid() && Apart(m.Nodes(), l.Nodes()) && Apart(l.Nodes(), m.Nodes())
      {
        m.Kept();
      }
      forall m, n | m in Lists() && n in Lists() && m != n ensures Apart(m.Nodes(), n.Nodes()) {
        assert old(Apart(m.Nodes(), n.Nodes()));
      }
    }

    /** list_insert_ordered of a thread that is on no list. */
    method InsertInto(l: List, t: Tid, cmp: (Elem, Elem) -> bool)
      requires Structure() && l in Lists() && t in threads && Off(t)
      modifies l, cells
      ensures Structure() && l.elems == InsertOrdered(cmp, old(l.elems), threads[t].elem)
    {
      ghost var was := l.elems;
      var e := threads[t].elem;
      l.InsertOrderly(e, cmp);
      InsertedMembers(cmp, was, e);
      Relinked(l);
    }

    /** list_push_back of a thread that is on no list. */
    method AppendTo(l: List, t: Tid)
      requires Structure() && l in Lists() && t in threads && Off(t)
      modifies l, cells
      ensures Structure() && l.elems == old(l.elems) + [threads[t].elem]
    {
      l.PushBack(threads[t].elem);
      Relinked(l);
    }

    /** list_sort */
    method SortList(l: List, cmp: (Elem, Elem) -> bool)
      requires Structure() && l in Lists() && StrictWeak(cmp, Elements(l.elems))
      modifies l, cells
      ensures Structure() && l.elems == InsertionSort(cmp, old(l.elems))
    {
      ghost var was := l.elems;
      l.Sort(cmp);
      SortedMembers(cmp, was);
      Relinked(l);
    }

    lemma NowOff(e: Elem)
      requires Entered() && e.owner in threads && e == threads[e.owner].elem
        && forall l :: l in Lists() ==> e !in l.Nodes()
      ensures Off(e.owner)
    {
      assert forall l, x :: l in Lists() && x in l.elems ==> x in l.Nodes();
    }

    /** list_pop_front */
    method PopFrom(l: List) returns (e: Elem)
      requires Structure() && l in Lists() && l.elems != []
      modifies l, cells
      ensures Structure() && e == old(l.elems)[0] && l.elems == old(l.elems)[1..] && e.owner in threads && Off(e.owner)
    {
      e := l.PopFront();
      Relinked(l);
      NowOff(e);
    }

    // ---------- the state that they stand for ----------

    /** Which of the structures are as they were. */
    twostate predicate SameThreads(except: set<Tid>)
      reads this`threads, threads.Values
    {
      threads == old(threads)
      && forall t :: t in threads && t !in except ==> threads[t].Value() == old(threads[t].Value())
    }

    twostate predicate SameSemas(except: set<SemaId>)
      reads this`semas, semas.Values, Queues()
    {
      semas == old(semas) && forall s :: s in semas && s !in except ==> semas[s].Value() == old(semas[s].Value())
    }

    twostate predicate SameRest()
      reads this`current, this`locks, this`ticks, this`clock, this`raised
    {
      && current == old(current) && locks == old(locks) && ticks == old(ticks)
      && clock == old(clock) && raised == old(raised)
    }

    /** One thread has been written. */
    twostate lemma OneThread(t: Tid)
      requires t in threads && SameThreads({t}) && SameSemas({}) && SameRest()
      requires ready.elems == old(ready.elems) && sleepers.elems == old(sleepers.elems)
        && destruction.elems == old(destruction.elems)
      ensures Now() == Put(old(Now()), t, threads[t].Value())
    {
      assert Threads() == old(Threads())[t := threads[t].Value()];
      assert Semas() == old(Semas());
    }

    /** One list of threads has been written. */
    twostate lemma OneList()
      requires SameThreads({}) && SameSemas({}) && SameRest()
      ensures Now() == old(Now()).(ready := Ids(ready.elems), sleepers := Ids(sleepers.elems),
        destruction := Ids(destruction.elems))
    {
      assert Threads() == old(Threads());
      assert Semas() == old(Semas());
    }

    /** One semaphore has been made. */
    twostate lemma NewSema(s: SemaId)
      requires s in semas && semas.Keys == old(semas.Keys) + {s} && SameThreads({}) && SameRest()
      requires forall r :: r in semas && r != s ==> r in old(semas) && semas[r].Value() == old(semas[r].Value())
      requires ready.elems == old(ready.elems) && sleepers.elems == old(sleepers.elems)
        && destruction.elems == old(destruction.elems)
      ensures Now() == PutSema(old(Now()), s, semas[s].Value())
    {
      assert Threads() == old(Threads());
      assert Semas() == old(Semas())[s := semas[s].Value()];
    }

    /** One thread has been made. */
    twostate lemma NewThread(t: Tid)
      requires t in threads && threads.Keys == old(threads.Keys) + {t} && SameSemas({}) && SameRest()
      requires forall u :: u in threads && u != t ==> u in old(threads) && threads[u].Value() == old(threads[u].Value())
      requires ready.elems == old(ready.elems) && sleepers.elems == old(sleepers.elems)
        && destruction.elems == old(destruction.elems)
      ensures Now() == Put(old(Now()), t, threads[t].Value())
    {
      assert Threads() == old(Threads())[t := threads[t].Value()];
      assert Semas() == old(Semas());
    }

    /** Only what is not in a structure has been written. */
    twostate lemma NoStructure()
      requires SameThreads({}) && SameSemas({})
      requires ready.elems == old(ready.elems) && sleepers.elems == old(sleepers.elems)
        && destruction.elems == old(destruction.elems)
      ensures Now() == old(Now()).(current := current, locks := locks, ticks := ticks, clock := clock, raised := raised)
    {
      assert Threads() == old(Threads());
      assert Semas() == old(Semas());
    }

    /** One semaphore has been written. */
    twostate lemma OneSema(s: SemaId)
      requires s in semas && SameThreads({}) && SameSemas({s}) && SameRest()
      requires ready.elems == old(ready.elems) && sleepers.elems == old(sleepers.elems)
        && destruction.elems == old(destruction.elems)
      ensures Now() == PutSema(old(Now()), s, semas[s].Value())
    {
      assert Threads() == old(Threads());
      assert Semas() == old(Semas())[s := semas[s].Value()];
    }

    function Priorities(): map<Tid, int>
      reads this`threads, threads.Values
    {
      map t | t in threads :: threads[t].priority
    }

    function WakeupTicks(): map<Tid, int>
      reads this`threads, threads.Values
    {
      map t | t in threads :: threads[t].wakeupTick
    }

    lemma PrioritiesSeen(q: seq<Elem>)
      ensures Compares(Above(Priorities()), ByPriority(Now()), q)
    {
    }

    lemma WakeupTicksSeen(q: seq<Elem>)
      ensures Compares(Below(WakeupTicks()), ByWakeup(Now()), q)
    {
    }

    /** What the structures hold is what the state has. */
    lemma Shown(t: Tid)
      ensures t in threads <==> t in Now().threads
      ensures t in threads ==> At(Now(), t) == threads[t].Value()
    {
    }

    predicate NoneReady()
      requires Structure()
      reads this, threads.Values, semas.Values, Lists(), cells
      ensures NoneReady() <==> Now().ready == []
    {
      ready.Empty()
    }

    predicate NoneAsleep()
      requires Structure()
      reads this, threads.Values, semas.Values, Lists(), cells
      ensures NoneAsleep() <==> Now().sleepers == []
    {
      sleepers.Empty()
    }

    predicate NoneDead()
      requires Structure()
      reads this, threads.Values, semas.Values, Lists(), cells
      ensures NoneDead() <==> Now().destruction == []
    {
      destruction.Empty()
    }

    function FirstReady(): (t: Tid)
      requires Structure() && Now().ready != []
      reads this, threads.Values, semas.Values, Lists(), cells
      ensures t == Now().ready[0] && t in threads && threads[t].priority == At(Now(), t).priority
    {
      ready.First().owner
    }

    function FirstAsleep(): (t: Tid)
      requires Structure() && Now().sleepers != []
      reads this, threads.Values, semas.Values, Lists(), cells
      ensures t == Now().sleepers[0] && t in threads && threads[t].wakeupTick == At(Now(), t).wakeupTick
    {
      sleepers.First().owner
    }

    lemma ShownSema(s: SemaId)
      ensures s in semas <==> s in Now().semas
      ensures s in semas ==> Sem(Now(), s) == semas[s].Value()
    {
    }

    /** One thread has been freed. */
    twostate lemma ThreadGone(t: Tid)
      requires threads == old(threads) - {t} && SameSemas({}) && SameRest()
      requires forall u :: u in threads ==> threads[u].Value() == old(threads[u].Value())
      requires ready.elems == old(ready.elems) && sleepers.elems == old(sleepers.elems)
        && destruction.elems == old(destruction.elems)
      ensures Now() == old(Now()).(threads := old(Threads()) - {t})
    {
      assert Threads() == old(Threads()) - {t};
      assert Semas() == old(Semas());
    }

    twostate lemma StructureWithout(t: Tid)
      requires old(Structure() && Off(t)) && threads == old(threads) - {t} && semas == old(semas)
      requires cells == old(cells) && repr == old(repr) && Linked() && Separate()
      requires forall l :: l in Lists() ==> l.elems == old(l.elems)
      ensures Structure()
    {
    }

    // ---------- one write at a time ----------

    method SetStatus(t: Tid, status: Status)
      requires Structure() && t in threads
      modifies threads[t]
      ensures Structure() && Now() == Put(old(Now()), t, old(threads[t].Value()).(status := status))
    {
      threads[t].status := status;
      OneThread(t);
    }

    method SetMode(t: Tid, mode: Mode)
      requires Structure() && t in threads
      modifies threads[t]
      ensures Structure() && Now() == Put(old(Now()), t, old(threads[t].Value()).(mode := mode))
    {
      threads[t].mode := mode;
      OneThread(t);
    }

    method SetPriority(t: Tid, p: int)
      requires Structure() && t in threads
      modifies threads[t]
      ensures Structure() && Now() == Put(old(Now()), t, old(threads[t].Value()).(priority := p))
    {
      threads[t].priority := p;
      OneThread(t);
    }

    method SetWakeup(t: Tid, tick: int)
      requires Structure() && t in threads
      modifies threads[t]
      ensures Structure() && Now() == Put(old(Now()), t, old(threads[t].Value()).(wakeupTick := tick, sleptAt := ticks))
    {
      threads[t].wakeupTick := tick;
      threads[t].sleptAt := ticks;
      OneThread(t);
    }

    /** The history of an insertion into the ready list. */
    ghost method Stamp(t: Tid)
      requires Structure() && t in threads
      modifies threads[t]
      ensures Structure() && Now() == Put(old(Now()), t, old(threads[t].Value()).(arrived := clock))
    {
      threads[t].arrived := clock;
      OneThread(t);
    }

    ghost method CountInsertion(t: Tid)
      requires Structure()
      modifies this`clock, this`raised
      ensures Structure() && Now() == old(Now()).(clock := old(clock) + 1, raised := old(raised) - {t})
    {
      clock, raised := clock + 1, raised - {t};
      NoStructure();
    }

    method SetCurrent(t: Tid)
      requires Structure()
      modifies this`current
      ensures Structure() && Now() == old(Now()).(current := t)
    {
      current := t;
      NoStructure();
    }

    method SetLock(l: nat, lock: Lock)
      requires Structure()
      modifies this`locks
      ensures Structure() && Now() == PutLock(old(Now()), l, lock)
    {
      locks := locks[l := lock];
      NoStructure();
    }

    /** The list_insert_ordered with thread_priority_cmp. */
    method InsertByPriority(l: List, t: Tid)
      requires Structure() && l in Lists() && t in threads && Off(t)
      modifies l, cells
      ensures Structure() && Ids(l.elems) == InsertOrdered(ByPriority(old(Now())), old(Ids(l.elems)), t)
    {
      var (e, cmp) := (threads[t].elem, Above(Priorities()));
      PrioritiesSeen([e] + l.elems);
      IdsInserted(cmp, ByPriority(Now()), l.elems, e);
      InsertInto(l, t, cmp);
    }

    method LinkReady(t: Tid)
      requires Structure() && t in threads && Off(t)
      modifies ready, cells
      ensures Structure() && Now() == old(Now()).(ready := InsertOrdered(ByPriority(old(Now())), old(Now().ready), t))
    {
      InsertByPriority(ready, t);
      OneList();
    }

    /** The list_insert_ordered with thread_wakeup_tick_cmp. */
    method InsertByWakeup(l: List, t: Tid)
      requires Structure() && l in Lists() && t in threads && Off(t)
      modifies l, cells
      ensures Structure() && Ids(l.elems) == InsertOrdered(ByWakeup(old(Now())), old(Ids(l.elems)), t)
    {
      var (e, cmp) := (threads[t].elem, Below(WakeupTicks()));
      WakeupTicksSeen([e] + l.elems);
      IdsInserted(cmp, ByWakeup(Now()), l.elems, e);
      InsertInto(l, t, cmp);
    }

    method LinkSleeper(t: Tid)
      requires Structure() && t in threads && Off(t)
      modifies sleepers, cells
      ensures Structure() && Now() == old(Now()).(sleepers :=
        InsertOrdered(ByWakeup(old(Now())), old(Now().sleepers), t))
    {
      InsertByWakeup(sleepers, t);
      OneList();
    }

    method LinkDead(t: Tid)
      requires Structure() && t in threads && Off(t)
      modifies destruction, cells
      ensures Structure() && Now() == old(Now()).(destruction := old(Now().destruction) + [t])
    {
      AppendTo(destruction, t);
      OneList();
    }

    method PopReady() returns (t: Tid)
      requires Structure() && ready.elems != []
      modifies ready, cells
      ensures Structure() && t == old(Now().ready[0]) && t in threads && Off(t)
      ensures Now() == old(Now()).(ready := old(Now().ready)[1..])
    {
      var e := PopFrom(ready);
      t := e.owner;
      OneList();
    }

    method PopSleeper() returns (t: Tid)
      requires Structure() && sleepers.elems != []
      modifies sleepers, cells
      ensures Structure() && t == old(Now().sleepers[0]) && t in threads && Off(t)
      ensures Now() == old(Now()).(sleepers := old(Now().sleepers)[1..])
    {
      var e := PopFrom(sleepers);
      t := e.owner;
      OneList();
    }

    method PopDead() returns (t: Tid)
      requires Structure() && destruction.elems != []
      modifies destruction, cells
      ensures Structure() && t == old(Now().destruction[0]) && t in threads && Off(t)
      ensures Now() == old(Now()).(destruction := old(Now().destruction)[1..])
    {
      var e := PopFrom(destruction);
      t := e.owner;
      OneList();
    }

    /** palloc_free_page of a thread's page, which is on no list. */
    method FreePage(t: Tid)
      requires Structure() && t in threads && Off(t)
      modifies this`threads
      ensures Structure() && Now() == old(Now()).(threads := old(Now().threads) - {t})
    {
      threads := threads - {t};
      StructureWithout(t);
      ThreadGone(t);
    }

    method QueueWaiter(s: SemaId, t: Tid)
      requires Structure() && s in semas && t in threads && Off(t)
      modifies semas[s].waiters, cells
      ensures Structure()
      ensures Now() == PutSema(old(Now()), s, old(semas[s].Value()).(
        waiters := InsertOrdered(ByPriority(old(Now())), old(semas[s].Value()).waiters, t)))
    {
      InsertByPriority(semas[s].waiters, t);
      OneSema(s);
    }

    method SortWaiters(s: SemaId)
      requires Structure() && s in semas
      modifies semas[s].waiters, cells
      ensures Structure()
      ensures Now() == PutSema(old(Now()), s,
        old(semas[s].Value()).(waiters := InsertionSort(ByPriority(old(Now())), old(semas[s].Value()).waiters)))
    {
      var (cmp, q) := (Above(Priorities()), semas[s].waiters);
      PrioritiesSeen(q.elems);
      IdsSorted(cmp, ByPriority(Now()), q.elems);
      SortList(q, cmp);
      OneSema(s);
    }

    method PopWaiter(s: SemaId) returns (t: Tid)
      requires Structure() && s in semas && semas[s].waiters.elems != []
      modifies semas[s].waiters, cells
      ensures Structure() && t == old(semas[s].Value().waiters[0]) && t in threads && Off(t)
      ensures Now() == PutSema(old(Now()), s, old(semas[s].Value()).(waiters := old(semas[s].Value()).waiters[1..]))
    {
      ghost var sema := semas[s].Value();
      var e := PopFrom(semas[s].waiters);
      t := e.owner;
      assert Ids(semas[s].waiters.elems) == sema.waiters[1..];
      assert semas[s].Value() == sema.(waiters := sema.waiters[1..]);
      OneSema(s);
    }

    ghost method SetWoken(s: SemaId, woken: set<Tid>)
      requires Structure() && s in semas
      modifies semas[s]
      ensures Structure() && Now() == PutSema(old(Now()), s, old(semas[s].Value()).(woken := woken))
    {
      semas[s].woken := woken;
      OneSema(s);
    }

    method TakeValue(s: SemaId)
      requires Structure() && s in semas && semas[s].value > 0
      modifies semas[s]
      ensures Structure() && Now() == PutSema(old(Now()), s, semas[s].Value())
      ensures
        var sema := old(semas[s].Value());
        semas[s].Value() == sema.(value := sema.value - 1, downs := sema.downs + 1)
    {
      ghost var sema := semas[s].Value();
      semas[s].value := semas[s].value - 1;
      semas[s].downs := semas[s].downs + 1;
      assert semas[s].Value() == sema.(value := sema.value - 1, downs := sema.downs + 1);
      OneSema(s);
    }

    method RaiseValue(s: SemaId)
      requires Structure() && s in semas
      modifies semas[s]
      ensures Structure()
      ensures
        var sema := old(semas[s].Value());
        Now() == PutSema(old(Now()), s, sema.(value := sema.value + 1, ups := sema.ups + 1))
    {
      ghost var sema := semas[s].Value();
      semas[s].value := semas[s].value + 1;
      semas[s].ups := semas[s].ups + 1;
      assert semas[s].Value() == sema.(value := sema.value + 1, ups := sema.ups + 1);
      OneSema(s);
    }

    // ---------- thread.c ----------

    /** Both insertions into the ready list go by priority; the history is kept with them. */
    method InsertReady(t: Tid)
      requires Structure() && t in threads && Off(t)
      modifies this`clock, this`raised, threads[t], ready, cells
      ensures Structure() && Now() == Enqueue(old(Now()), t)
    {
      LinkReady(t);
      Record(t);
    }

    ghost method Record(t: Tid)
      requires Structure() && t in threads
      modifies this`clock, this`raised, threads[t]
      ensures Structure()
      ensures
        var th := old(threads[t].Value()).(arrived := old(clock));
        Now() == Put(old(Now()), t, th).(clock := old(clock) + 1, raised := old(raised) - {t})
    {
      Stamp(t);
      CountInsertion(t);
    }

    /** thread_unblock */
    method ThreadUnblock(t: Tid)
      requires Structure() && Has(Now(), t, Blocked) && Off(t)
      modifies this`clock, this`raised, threads[t], ready, cells
      ensures Structure() && Now() == Unblock(old(Now()), t)
    {
      InsertReady(t);
      SetStatus(t, Ready);
    }

    /** next_thread_to_run */
    method NextThreadToRun() returns (next: Tid)
      requires Structure() && idle in threads
      modifies ready, cells
      ensures Structure() && next == Next(old(Now())) && next in threads
      ensures Now() == old(Now()).(ready := if old(Now().ready) == [] then [] else old(Now().ready)[1..])
    {
      if NoneReady() {
        next := idle;
      } else {
        next := PopReady();
      }
    }

    /** schedule */
    method SwitchThread()
      requires Structure() && current in threads && idle in threads && threads[current].status != Running
      requires threads[current].status == Dying ==> Unlisted(Now(), current)
      modifies this`current, this`threads, this`clock, this`raised, repr
      ensures Structure() && Now() == Schedule(old(Now()))
    {
      ghost var k := Now();
      var next := PickNext();
      if At(k, current).status == Dying { StillUnlisted(k, Now(), current); }
      Launch(next);
    }

    method PickNext() returns (next: Tid)
      requires Structure() && idle in threads
      modifies threads.Values, ready, cells
      ensures Structure() && next == Next(old(Now()))
      ensures
        var k := old(Now());
        Now() == Put(k, next, At(k, next).(status := Running)).(ready := if k.ready == [] then [] else k.ready[1..])
    {
      next := NextThreadToRun();
      SetStatus(next, Running);
    }

    /** The current thread gives way; it is to be freed if it is dying. */
    method Launch(next: Tid)
      requires Structure() && current in threads
        && (At(Now(), current).status == Dying ==> current == next || Unlisted(Now(), current))
      modifies this`current, destruction, cells
      ensures Structure()
      ensures
        var (k, c) := old((Now(), current));
        var dead := if c != next && At(k, c).status == Dying && c != main then [c] else [];
        Now() == k.(current := next, destruction := k.destruction + dead)
    {
      if current != next {
        if threads[current].status == Dying && current != main {
          OffExactly(current);
          LinkDead(current);
        }
        SetCurrent(next);
      }
    }

    /** The loop of do_schedule that frees the pages of dead threads. */
    method FreeDead()
      requires Structure()
      modifies this`threads, repr
      ensures Structure() && Now() == Reap(old(Now()))
    {
      ghost var (k, freed) := (Now(), []);
      NoneFreed(k);
      while !NoneDead()
        invariant Structure() && Freeing(Now(), k, freed)
        decreases |Now().destruction|
      {
        freed := FreeFirst(k, freed);
      }
      AllFreed(Now(), k, freed);
    }

    /** The body of that loop. */
    method FreeFirst(ghost k: State, ghost freed: seq<Tid>) returns (ghost freed': seq<Tid>)
      requires Structure() && Now().destruction != [] && Freeing(Now(), k, freed)
      modifies this`threads, destruction, cells
      ensures Structure() && Freeing(Now(), k, freed') && |Now().destruction| < old(|Now().destruction|)
    {
      OneMoreFreed(Now(), k, freed);
      var victim := PopDead();
      FreePage(victim);
      freed' := freed + [victim];
    }

    /** do_schedule */
    method Reschedule(status: Status)
      requires Structure() && Runnable(Now()) && status != Running && (status == Dying ==> Unlisted(Now(), current))
      modifies this`current, this`threads, this`clock, this`raised, repr
      ensures Structure() && Now() == DoSchedule(old(Now()), status)
    {
      ghost var k := Now();
      FreeDead();
      Shown(current);
      Shown(idle);
      SetStatus(current, status);
      Shown(current);
      Shown(idle);
      SwitchThread();
    }

    /** thread_yield */
    method ThreadYield()
      requires Structure() && Runnable(Now()) && Unlisted(Now(), current)
      modifies this`current, this`threads, this`clock, this`raised, repr
      ensures Structure() && Now() == Yield(old(Now()))
    {
      if current != idle {
        OffExactly(current);
        EnqueueRunnable(Now());
        InsertReady(current);
      }
      Reschedule(Ready);
    }

    /** check_and_preempt */
    method CheckAndPreempt()
      requires Structure() && Runnable(Now()) && Unlisted(Now(), current)
      modifies this`current, this`threads, this`clock, this`raised, repr
      ensures Structure() && Now() == Preempt(old(Now()))
    {
      if current == idle {
        return;
      }
      if NoneReady() {
        return;
      }
      var front := FirstReady();
      if threads[current].priority < threads[front].priority {
        ThreadYield();
      }
    }

    method Suspend(mode: Mode)
      requires Structure() && current in threads
      modifies threads[current]
      ensures Structure() && Now() == Put(old(Now()), current,
        old(threads[current].Value()).(status := Blocked, mode := mode))
    {
      threads[current].status := Blocked;
      threads[current].mode := mode;
      OneThread(current);
    }

    /** thread_block; "mode" says where the thread goes on when it runs again. */
    method ThreadBlock(mode: Mode)
      requires Structure() && current in threads && idle in threads
      modifies this`current, this`threads, this`clock, this`raised, repr
      ensures Structure() && Now() == Block(old(Now()), mode)
    {
      Suspend(mode);
      Shown(current);
      Shown(idle);
      SwitchThread();
    }

    /** thread_check_sleep_list */
    method CheckSleepList(ghost woken: State)
      requires Structure() && Waking(Now(), woken)
      modifies this`clock, this`raised, repr
      ensures Structure() && Now() == woken
    {
      while !NoneAsleep()
        invariant Structure() && Waking(Now(), woken)
        decreases |Now().sleepers|
      {
        var t := FirstAsleep();
        if threads[t].wakeupTick > ticks {
          break;
        }
        WakeFirst(woken);
      }
    }

    /** The body of that loop. */
    method WakeFirst(ghost woken: State)
      requires Structure() && Waking(Now(), woken) && Now().sleepers != []
        && At(Now(), Now().sleepers[0]).wakeupTick <= ticks
      modifies this`clock, this`raised, repr
      ensures Structure() && Waking(Now(), woken) && |Now().sleepers| < old(|Now().sleepers|)
    {
      StillWaking(Now(), woken);
      WakeFront();
    }

    method WakeFront()
      requires Structure() && Now().sleepers != [] && Has(Now(), Now().sleepers[0], Blocked)
      modifies this`clock, this`raised, repr
      ensures Structure() && Now() == WakeOne(old(Now()))
    {
      var t := PopSleeper();
      SetMode(t, Free);
      ThreadUnblock(t);
    }

    // ---------- synch.c ----------

    /** A list that has nothing in common with the others, and no thread. */
    ghost predicate Alone(l: List)
      reads this`semas, this`threads, l, Lists()
    {
      && l !in Lists() && l.elems == []
      && (forall m :: m in Lists() ==> Apart(l.Nodes(), m.Nodes()) && Apart(m.Nodes(), l.Nodes()))
      && (forall t :: t in threads ==> threads[t].elem != l.head && threads[t].elem != l.tail)
    }

    twostate lemma StructureWithQueue(s: SemaId)
      requires old(Structure()) && s !in old(semas) && s in semas && threads == old(threads)
        && semas == old(semas)[s := semas[s]]
      requires
        var l := semas[s].waiters;
        old(allocated(l) && Alone(l)) && l.elems == old(l.elems) && l.Valid()
        && l.head in cells && l.tail in cells && cells == old(cells)
      requires semas[s] in repr && semas[s].waiters in repr && repr == old(repr)
      requires forall l :: l in old(Lists()) ==> l.Nodes() == old(l.Nodes()) && l.elems == old(l.elems) && l.Valid()
      ensures Structure()
    {
      OneMoreQueue(s);
    }

    twostate lemma OneMoreQueue(s: SemaId)
      requires s !in old(semas) && s in semas && semas == old(semas)[s := semas[s]]
      ensures Lists() == old(Lists()) + {semas[s].waiters}
    {
      forall r | r in old(semas) ensures semas[r].waiters in Queues() && semas[r] == old(semas)[r] {}
      forall l | l in Queues() ensures l in old(Queues()) || l == semas[s].waiters {
        var r :| r in semas && semas[r].waiters == l;
        assert r != s ==> r in old(semas) && old(semas)[r].waiters == l;
      }
    }

    method EnterSema(s: SemaId, sema: Semaphore)
      requires Structure() && s !in semas && sema.waiters !in Lists() && sema.waiters.elems == []
        && sema.waiters.Valid()
      requires sema.waiters.head !in cells && sema.waiters.tail !in cells
        && this !in {sema, sema.waiters, sema.waiters.head, sema.waiters.tail}
      modifies this`semas, this`cells, this`repr
      ensures Structure() && Now() == PutSema(old(Now()), s, sema.Value())
    {
      Reserve({sema.waiters.head, sema.waiters.tail}, {sema, sema.waiters});
      AddSema(s, sema);
    }

    method AddSema(s: SemaId, sema: Semaphore)
      requires Structure() && s !in semas && Alone(sema.waiters) && sema.waiters.Valid()
      requires sema.waiters.head in cells && sema.waiters.tail in cells && sema in repr && sema.waiters in repr
      modifies this`semas
      ensures Structure() && Now() == PutSema(old(Now()), s, sema.Value())
    {
      semas := semas[s := sema];
      StructureWithQueue(s);
      NewSema(s);
    }

    /** sema_init of a new semaphore. */
    method InitSema(s: SemaId, v: nat)
      requires Structure() && s !in Now().semas
      modifies this`semas, this`cells, this`repr
      ensures Structure() && Now() == PutSema(old(Now()), s, Sema(v, [], {}, v, 0, 0))
    {
      ghost var k := Now();
      ShownSema(s);
      var sema := new Semaphore(v);
      assert Now() == k;
      EnterSema(s, sema);
    }

    /** The list_insert_ordered of sema_down. */
    method JoinWaiters(s: SemaId)
      requires Structure() && current in threads && s in semas && Unlisted(Now(), current)
      modifies semas[s], semas[s].waiters, cells
      ensures Structure() && Now() == Queue(old(Now()), s)
    {
      ghost var k := Now();
      ShownSema(s);
      OffExactly(current);
      QueueWaiter(s, current);
      ShownSema(s);
      SetWoken(s, semas[s].woken - {current});
      WrittenTwice(k, s, Sem(k, s).(waiters := Sem(Queue(k, s), s).waiters), Sem(Queue(k, s), s));
    }

    method Decrement(s: SemaId)
      requires Structure() && s in semas && semas[s].value > 0
      modifies semas[s]
      ensures Structure() && Now() == Take(old(Now()), s)
    {
      ghost var k := Now();
      ShownSema(s);
      TakeValue(s);
      ghost var a := semas[s].Value();
      SetWoken(s, semas[s].woken - {current});
      TakeInTwo(k, s, a);
    }

    /** The thread has what it waited for; with a lock's semaphore it becomes the owner. */
    method Complete(s: SemaId)
      requires Structure() && current in threads && (s.OfLock? ==> s.l in locks)
      modifies this`locks, threads[current]
      ensures Structure() && Now() == Took(old(Now()), s)
    {
      match s
      case Plain(_) =>
        SetMode(current, Free);
      case OfLock(l) =>
        SetMode(current, Entering(l));
        SetLock(l, locks[l].(owners := locks[l].owners + {current}));
    }

    /** One turn of the loop in sema_down. */
    method DownTurn(s: SemaId)
      requires Structure() && Runnable(Now()) && Unlisted(Now(), current) && s in semas && (s.OfLock? ==> s.l in locks)
      modifies this`current, this`threads, this`clock, this`raised, this`locks, repr
      ensures Structure() && Now() == Down(old(Now()), s)
    {
      Shown(current);
      Shown(idle);
      if semas[s].value == 0 {
        JoinWaiters(s);
        ThreadBlock(Downing(s));
      } else {
        Decrement(s);
        Complete(s);
      }
    }

    /** sema_up: the waiters are sorted, the first is unblocked, then the value is raised. */
    method RaiseSema(s: SemaId)
      requires Structure() && s in semas && forall t :: t in Sem(Now(), s).waiters ==> Has(Now(), t, Blocked)
      modifies this`clock, this`raised, repr
      ensures Structure() && Now() == Up(old(Now()), s)
    {
      ShownSema(s);
      RaiseLast(Now(), s);
      HighestIsBlocked(Now(), s);
      if !semas[s].waiters.Empty() {
        WakeHighest(s);
      }
      Increment(s);
    }

    method UpAndPreempt(s: SemaId)
      requires Structure() && s in semas && forall t :: t in Sem(Now(), s).waiters ==> Has(Now(), t, Blocked)
      requires Runnable(Up(Now(), s)) && Unlisted(Up(Now(), s), Up(Now(), s).current)
      modifies this`current, this`threads, this`clock, this`raised, repr
      ensures Structure() && Now() == Preempt(Up(old(Now()), s))
    {
      RaiseSema(s);
      CheckAndPreempt();
    }

    method WakeHighest(s: SemaId)
      requires Structure() && s in semas && ByRank(Now(), s) != []
        && Has(Dequeued(Now(), s), ByRank(Now(), s)[0], Blocked)
      modifies this`clock, this`raised, repr
      ensures Structure() && Now() == Unblock(Dequeued(old(Now()), s), old(ByRank(Now(), s))[0])
    {
      var t := Dequeue(s);
      ThreadUnblock(t);
    }

    method Increment(s: SemaId)
      requires Structure() && s in semas
      modifies semas[s]
      ensures Structure() && Now() == Raise(old(Now()), s)
    {
      ShownSema(s);
      RaiseValue(s);
    }

    /** The list_sort and the list_pop_front of sema_up. */
    method Dequeue(s: SemaId) returns (t: Tid)
      requires Structure() && s in semas && ByRank(Now(), s) != []
      modifies semas[s], semas[s].waiters, cells
      ensures Structure() && t in threads && Off(t) && t == old(ByRank(Now(), s))[0] && Now() == Dequeued(old(Now()), s)
    {
      ghost var k := Now();
      t := PopHighest(s);
      ghost var a := semas[s].Value();
      SetWoken(s, semas[s].woken + {t});
      WrittenTwice(k, s, a, a.(woken := a.woken + {t}));
    }

    method PopHighest(s: SemaId) returns (t: Tid)
      requires Structure() && s in semas && ByRank(Now(), s) != []
      modifies semas[s].waiters, cells
      ensures Structure() && t in threads && Off(t) && t == old(ByRank(Now(), s))[0]
      ensures Now() == PutSema(old(Now()), s, semas[s].Value())
      ensures semas[s].Value() == old(Sem(Now(), s)).(waiters := old(ByRank(Now(), s))[1..])
    {
      ghost var k := Now();
      ShownSema(s);
      SortWaiters(s);
      ShownSema(s);
      ghost var a := semas[s].Value();
      t := PopWaiter(s);
      WrittenTwice(k, s, a, a.(waiters := a.waiters[1..]));
      ShownSema(s);
    }

    // ---------- the steps ----------

    /** The yield at the end of a time slice. */
    method EndTimeSlice()
      requires Valid() && Enabled(Now(), TimeSlice)
      modifies this, repr
      ensures Valid() && Now() == Apply(old(Now()), TimeSlice)
    {
      ghost var k := Now();
      StepKeepsInv(k, TimeSlice);
      ListsRunnable(k);
      ThreadYield();
    }

    /** The thread_block in the loop of idle. */
    method IdleBlock()
      requires Valid() && Enabled(Now(), Event.IdleBlock)
      modifies this, repr
      ensures Valid() && Now() == Apply(old(Now()), Event.IdleBlock)
    {
      ghost var k := Now();
      StepKeepsInv(k, Event.IdleBlock);
      ListsRunnable(k);
      Shown(current);
      Shown(idle);
      ThreadBlock(Free);
    }

    /** timer_interrupt: the tick, and thread_check_sleep_list. */
    method TimerInterrupt()
      requires Valid() && Enabled(Now(), Event.Tick)
      modifies this, repr
      ensures Valid() && Now() == Apply(old(Now()), Event.Tick)
    {
      ghost var k := Now();
      StepKeepsInv(k, Event.Tick);
      TickWakes(Now());
      CountTick(Apply(Now(), Tick));
    }

    /** thread_sleep */
    method ThreadSleep(endTick: int)
      requires Valid() && Enabled(Now(), SleepUntil(endTick))
      modifies this, repr
      ensures Valid() && Now() == Apply(old(Now()), SleepUntil(endTick))
    {
      ghost var k := Now();
      StepKeepsInv(k, SleepUntil(endTick));
      ListsRunnable(k);
      GoToSleep(endTick);
      Shown(current);
      Shown(idle);
      ThreadBlock(Asleep);
    }

    /** thread_create, once the thread has its page. */
    method ThreadCreate(t: Tid, priority: int)
      requires Valid() && Enabled(Now(), Create(t, priority))
      modifies this, repr
      ensures Valid() && Now() == Apply(old(Now()), Create(t, priority))
    {
      ghost var k := Now();
      StepKeepsInv(k, Create(t, priority));
      CreateUnblocks(k, t, priority);
      ListsRunnable(Unblock(Put(k, t, Thread(Blocked, priority, 0, Free, 0, 0)), t));
      MakeReady(t, priority);
      CheckAndPreempt();
    }

    /** thread_exit */
    method ThreadExit()
      requires Valid() && Enabled(Now(), Exit)
      modifies this, repr
      ensures Valid() && Now() == Apply(old(Now()), Exit)
    {
      ghost var k := Now();
      StepKeepsInv(k, Exit);
      ListsRunnable(k);
      Reschedule(Dying);
    }

    /** thread_set_priority, "p" being what refresh_priority comes to. */
    method SetOwnPriority(p: int)
      requires Valid() && Enabled(Now(), Event.SetPriority(p))
      modifies this, repr
      ensures Valid() && Now() == Apply(old(Now()), Event.SetPriority(p))
    {
      ghost var k := Now();
      StepKeepsInv(k, Event.SetPriority(p));
      ListsRunnable(k);
      RetouchKeepsInv(k, current, At(k, current).(priority := p));
      ListsRunnable(Put(k, current, At(k, current).(priority := p)));
      Shown(current);
      SetPriority(current, p);
      CheckAndPreempt();
    }

    /** The write of a priority by donate_priority or refresh_priority. */
    method ChangePriority(t: Tid, p: int)
      requires Valid() && Enabled(Now(), Donate(t, p))
      modifies this, repr
      ensures Valid() && Now() == Apply(old(Now()), Donate(t, p))
    {
      ghost var k := Now();
      StepKeepsInv(k, Donate(t, p));
      Shown(t);
      SetPriority(t, p);
      NoteDonation(t);
    }

    /** sema_init, and lock_init where the semaphore is in a lock. */
    method Init(s: SemaId, v: nat)
      requires Valid() && Enabled(Now(), SemaInit(s, v))
      modifies this, repr
      ensures Valid() && Now() == Apply(old(Now()), SemaInit(s, v))
    {
      StepKeepsInv(Now(), SemaInit(s, v));
      match s
      case Plain(_) =>
        InitSema(s, v);
      case OfLock(l) =>
        InitSema(s, 1);
        SetLock(l, Lock(None, {}));
    }

    /** sema_down, up to where it blocks or returns. */
    method SemaDown(n: nat)
      requires Valid() && Enabled(Now(), Event.SemaDown(n))
      modifies this, repr
      ensures Valid() && Now() == Apply(old(Now()), Event.SemaDown(n))
    {
      ghost var k := Now();
      StepKeepsInv(k, Event.SemaDown(n));
      ListsRunnable(k);
      ShownSema(Plain(n));
      DownTurn(Plain(n));
    }

    /** A woken thread tests the value again. */
    method SemaDownAgain()
      requires Valid() && Enabled(Now(), Retest)
      modifies this, repr
      ensures Valid() && Now() == Apply(old(Now()), Retest)
    {
      ghost var k := Now();
      StepKeepsInv(k, Retest);
      ListsRunnable(k);
      Shown(current);
      assert ModeOk(k, k.current);
      var s := threads[current].mode.s;
      ShownSema(s);
      DownTurn(s);
    }

    /** sema_try_down */
    method SemaTryDown(n: nat) returns (success: bool)
      requires Valid() && Enabled(Now(), Event.SemaTryDown(n))
      modifies this, repr
      ensures Valid() && Now() == Apply(old(Now()), Event.SemaTryDown(n))
      ensures success <==> Sem(old(Now()), Plain(n)).value > 0
    {
      ghost var k := Now();
      StepKeepsInv(k, Event.SemaTryDown(n));
      ListsRunnable(k);
      ShownSema(Plain(n));
      success := semas[Plain(n)].value > 0;
      if success {
        DownTurn(Plain(n));
      }
    }

    /** sema_up */
    method SemaUp(n: nat)
      requires Valid() && Enabled(Now(), Event.SemaUp(n))
      modifies this, repr
      ensures Valid() && Now() == Apply(old(Now()), Event.SemaUp(n))
    {
      ghost var k := Now();
      StepKeepsInv(k, Event.SemaUp(n));
      ListsRunnable(k);
      UpKeepsTheRest(k, Plain(n));
      ListsRunnable(Up(k, Plain(n)));
      ShownSema(Plain(n));
      UpAndPreempt(Plain(n));
    }

    /** The sema_down of lock_acquire. */
    method LockAcquire(l: nat)
      requires Valid() && Enabled(Now(), Event.LockAcquire(l))
      modifies this, repr
      ensures Valid() && Now() == Apply(old(Now()), Event.LockAcquire(l))
    {
      ghost var k := Now();
      StepKeepsInv(k, Event.LockAcquire(l));
      ListsRunnable(k);
      ShownSema(OfLock(l));
      DownTurn(OfLock(l));
    }

    /** The sema_try_down of lock_try_acquire. */
    method LockTryAcquire(l: nat) returns (success: bool)
      requires Valid() && Enabled(Now(), Event.LockTryAcquire(l))
      modifies this, repr
      ensures Valid() && Now() == Apply(old(Now()), Event.LockTryAcquire(l))
      ensures success <==> Sem(old(Now()), OfLock(l)).value > 0
    {
      ghost var k := Now();
      StepKeepsInv(k, Event.LockTryAcquire(l));
      ListsRunnable(k);
      ShownSema(OfLock(l));
      success := semas[OfLock(l)].value > 0;
      if success {
        DownTurn(OfLock(l));
      }
    }

    /** The end of lock_acquire and lock_try_acquire. */
    method BecomeHolder()
      requires Valid() && Enabled(Now(), SetHolder)
      modifies this, repr
      ensures Valid() && Now() == Apply(old(Now()), SetHolder)
    {
      ghost var k := Now();
      StepKeepsInv(k, SetHolder);
      ListsRunnable(k);
      Shown(current);
      var l := threads[current].mode.lock;
      assert InTransit(k, l, current);
      SetMode(current, Free);
      SetLock(l, locks[l].(holder := Some(current)));
    }

    /** lock_release before its sema_up. */
    method LockRelease(l: nat)
      requires Valid() && Enabled(Now(), ClearHolder(l))
      modifies this, repr
      ensures Valid() && Now() == Apply(old(Now()), ClearHolder(l))
    {
      ghost var k := Now();
      StepKeepsInv(k, ClearHolder(l));
      ListsRunnable(k);
      Shown(current);
      SetMode(current, Leaving(l));
      SetLock(l, locks[l].(holder := None));
    }

    /** The sema_up of lock_release. */
    method LockReleaseUp()
      requires Valid() && Enabled(Now(), LockUp)
      modifies this, repr
      ensures Valid() && Now() == Apply(old(Now()), LockUp)
    {
      ghost var k := Now();
      StepKeepsInv(k, LockUp);
      LetGoIsReady(k);
      Shown(current);
      var l := threads[current].mode.lock;
      ShownSema(OfLock(l));
      LeaveLock(l);
    }

    method CountTick(ghost woken: State)
      requires Structure() && Waking(Ticked(Now()), woken)
      modifies this`ticks, this`clock, this`raised, repr
      ensures Structure() && Now() == woken
    {
      AdvanceTicks();
      CheckSleepList(woken);
    }

    method AdvanceTicks()
      requires Structure()
      modifies this`ticks
      ensures Structure() && Now() == Ticked(old(Now()))
    {
      ticks := ticks + 1;
      NoStructure();
    }

    ghost method NoteDonation(t: Tid)
      requires Structure()
      modifies this`raised
      ensures Structure()
        && Now() == old(Now()).(raised := if t in old(Now().ready) then old(raised) + {t} else old(raised))
    {
      raised := if t in Now().ready then raised + {t} else raised;
      NoStructure();
    }

    /** thread_sleep up to its thread_block. */
    method GoToSleep(endTick: int)
      requires Structure() && current in threads && Unlisted(Now(), current)
      modifies threads[current], sleepers, cells
      ensures Structure() && Now() == GoToBed(old(Now()), endTick)
    {
      OffExactly(current);
      SetWakeup(current, endTick);
      LinkSleeper(current);
    }

    method MakeReady(t: Tid, priority: int)
      requires Structure() && t !in Now().threads
      modifies this`threads, this`cells, this`repr, this`clock, this`raised, repr
      ensures Structure() && fresh(repr - old(repr))
      ensures Now() == Unblock(Put(old(Now()), t, Thread(Blocked, priority, 0, Free, 0, 0)), t)
    {
      InitThread(t, priority);
      ThreadUnblock(t);
    }

    method LeaveLock(l: nat)
      requires Structure() && current in threads && l in locks && threads[current].mode == Leaving(l)
        && OfLock(l) in semas
      requires CanRelease(Now(), l)
      modifies this`locks, this`current, this`threads, this`clock, this`raised, repr
      ensures Structure() && Now() == Preempt(Up(LetGo(old(Now())), OfLock(l)))
    {
      DropOwnership(l);
      UpAndPreempt(OfLock(l));
    }

    method DropOwnership(l: nat)
      requires Structure() && current in threads && l in locks && threads[current].mode == Leaving(l)
      modifies this`locks, threads[current]
      ensures Structure() && Now() == LetGo(old(Now()))
    {
      SetLock(l, locks[l].(owners := locks[l].owners - {current}));
      SetMode(current, Free);
    }
  }
}
