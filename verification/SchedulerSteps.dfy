/** Every step of the scheduler machine keeps its invariant: one lemma for each list, account and
    order, for each primitive, put together in StepKeepsInv. */
module SchedulerSteps {
  import opened StableOrder
  import opened Scheduler
  import opened Sequences

  // ---------- ordered insertion ----------

  /** Where an ordered insertion puts its element. */
  lemma {:induction false} InsertedAt<T>(less: (T, T) -> bool, s: seq<T>, x: T) returns (p: nat)
    ensures p <= |s| && InsertOrdered(less, s, x) == s[..p] + [x] + s[p..]
    ensures forall i :: 0 <= i < p ==> !less(x, s[i])
    ensures p < |s| ==> less(x, s[p])
  {
    if s == [] || less(x, s[0]) {
      p := 0;
    } else {
      var q := InsertedAt(less, s[1..], x);
      p := q + 1;
      assert s == [s[0]] + s[1..];
      assert s[..p] == [s[0]] + s[1..][..q] && s[p..] == s[1..][q..];
    }
  }

  lemma InsertedMembers<T>(less: (T, T) -> bool, s: seq<T>, x: T)
    ensures forall t :: t in InsertOrdered(less, s, x) <==> t in s || t == x
    ensures NoDup(s) && x !in s ==> NoDup(InsertOrdered(less, s, x))
    ensures |InsertOrdered(less, s, x)| == |s| + 1
  {
    var p := InsertedAt(less, s, x);
    var r := InsertOrdered(less, s, x);
    forall t ensures t in r <==> t in s || t == x {
      assert s == s[..p] + s[p..];
    }
  }

  lemma {:induction false} SortedMembers<T>(less: (T, T) -> bool, s: seq<T>)
    ensures forall t :: t in InsertionSort(less, s) <==> t in s
    ensures NoDup(s) ==> NoDup(InsertionSort(less, s))
    ensures |InsertionSort(less, s)| == |s|
  {
    if s != [] {
      var (front, x) := (s[..|s| - 1], s[|s| - 1]);
      SortedMembers(less, front);
      InsertedMembers(less, InsertionSort(less, front), x);
      assert s == front + [x];
    }
  }

  // ---------- lists are kept ----------

  ghost predicate NoneRunning(k: State) {
    forall t :: !Has(k, t, Running)
  }

  /** The state just before schedule() picks the next thread. */
  ghost predicate Scheduling(k: State) {
    Lists(k, {}) && NoneRunning(k) && k.current !in k.destruction && k.current in k.threads
  }

  lemma ScheduleKeepsReady(k: State)
    requires Scheduling(k)
    ensures ReadyOk(Schedule(k), {}) && OneRunning(Schedule(k))
  {
    var (k', next) := (Schedule(k), Next(k));
    if k.ready != [] { TailMembers(k.ready); assert k.ready[0] in k.ready; }
    assert next in k.threads;
    forall t ensures Has(k', t, Running) <==> t == k'.current { assert !Has(k, t, Running); }
    forall t ensures t in k'.ready <==> Has(k', t, Ready) && t != k'.idle && t !in {} {
      assert t in k.ready <==> Has(k, t, Ready) && t != k.idle && t !in {};
    }
  }

  lemma ScheduleKeepsLists(k: State)
    requires Scheduling(k)
    ensures Lists(Schedule(k), {}) && OneRunning(Schedule(k)) && Schedule(k).current !in Schedule(k).destruction
  {
    ScheduleKeepsReady(k);
    var (k', next) := (Schedule(k), Next(k));
    if k.ready != [] { assert k.ready[0] in k.ready; assert Has(k, next, Ready); }
    assert next in k.threads && ModeOk(k, next) && k.threads[next].mode != Asleep;
    forall t ensures t in k'.sleepers <==> Has(k', t, Blocked) && At(k', t).mode == Asleep && t !in {} {
      assert t in k.sleepers <==> Has(k, t, Blocked) && At(k, t).mode == Asleep && t !in {};
    }
  }

  /** A running thread is in no list. */
  lemma RunningIsUnlisted(k: State, t: Tid)
    requires Lists(k, {}) && Has(k, t, Running)
    ensures Lists(k, {t})
  {
  }

  lemma UnblockKeepsLists(k: State, t: Tid)
    requires Lists(k, {t}) && t in k.threads && t != k.idle && t !in k.destruction
    requires k.threads[t].mode != Asleep && (k.threads[t].mode.Downing? ==> k.threads[t].mode.s in k.semas)
    ensures Lists(Unblock(k, t), {})
    ensures forall u :: u != t ==> At(Unblock(k, t), u) == At(k, u)
  {
    var k' := Unblock(k, t);
    InsertedMembers(ByPriority(k), k.ready, t);
    forall u ensures u in k'.ready <==> Has(k', u, Ready) && u != k'.idle && u !in {} {
      assert u in k.ready <==> Has(k, u, Ready) && u != k.idle && u !in {t};
    }
    forall u ensures u in k'.sleepers <==> Has(k', u, Blocked) && At(k', u).mode == Asleep && u !in {} {
      assert u in k.sleepers <==> Has(k, u, Blocked) && At(k, u).mode == Asleep && u !in {t};
    }
    forall s | s in k.semas ensures QueueOk(k', s, {}) {
      assert QueueOk(k, s, {t});
    }
    forall u | u in k'.threads ensures ModeOk(k', u) { assert u != t ==> ModeOk(k, u); }
  }

  lemma ReapKeepsLists(k: State)
    requires Lists(k, {})
    ensures Lists(Reap(k), {})
    ensures forall u :: u !in k.destruction ==> At(Reap(k), u) == At(k, u) && (u in Reap(k).threads <==> u in k.threads)
  {
    var k' := Reap(k);
    forall u ensures u in k'.ready <==> Has(k', u, Ready) && u != k'.idle && u !in {} {
      assert u in k.destruction ==> Has(k, u, Dying);
    }
    forall u ensures u in k'.sleepers <==> Has(k', u, Blocked) && At(k', u).mode == Asleep && u !in {} {
      assert u in k.destruction ==> Has(k, u, Dying);
      assert u in k.sleepers <==> Has(k, u, Blocked) && At(k, u).mode == Asleep && u !in {};
    }
    forall s | s in k.semas ensures QueueOk(k', s, {}) {
      assert QueueOk(k, s, {});
      assert forall u :: u in k.destruction ==> Has(k, u, Dying);
    }
    forall u | u in k'.threads ensures ModeOk(k', u) { assert ModeOk(k, u); }
  }

  /** Yielding is joining the ready list as if unblocked, and then scheduling. */
  lemma YieldIsUnblock(k: State)
    requires k.current in k.threads && k.current !in k.destruction && k.current != k.idle
    ensures Yield(k) == Schedule(Reap(Unblock(k, k.current)))
  {
    var (a, b) := (Enqueue(k, k.current), Unblock(k, k.current));
    var a1 := Reap(a);
    assert Put(a1, a1.current, At(a1, a1.current).(status := Ready)).threads == Reap(b).threads;
  }

  /** How little a state in which a yield calls schedule() differs from the one before. */
  ghost predicate YieldReady(k: State, k': State) {
    && k' == k.(threads := k'.threads, ready := k'.ready, destruction := [], clock := k'.clock, raised := k'.raised)
    && (forall t :: At(k', t).mode == At(k, t).mode && (At(k', t).status == Blocked <==> At(k, t).status == Blocked))
    && (forall t :: t != k.current && t !in k.destruction ==> At(k', t) == At(k, t))
    && (if k.current == k.idle then
          k'.ready == k.ready && k'.clock == k.clock && k'.raised == k.raised
            && At(k', k.current) == At(k, k.current).(status := Ready)
        else
          var k1 := Unblock(k, k.current);
          k'.ready == k1.ready && k'.clock == k1.clock && k'.raised == k1.raised
            && At(k', k.current) == At(k1, k.current))
  }

  lemma DeadAreFree(k: State)
    requires Lists(k, {})
    ensures forall t :: t in k.destruction ==> At(k, t).mode == Free && Has(k, t, Dying)
  {
    forall t | t in k.destruction ensures At(k, t).mode == Free && Has(k, t, Dying) {
      assert Has(k, t, Dying) && ModeOk(k, t);
    }
  }

  lemma IdleYieldPrepares(k: State) returns (k': State)
    requires Lists(k, {}) && OneRunning(k) && k.current == k.idle
    ensures Yield(k) == Schedule(k') && Scheduling(k') && YieldReady(k, k')
  {
    var c := k.current;
    assert Has(k, c, Running);
    DeadAreFree(k);
    ReapKeepsLists(k);
    RetouchKeepsLists(Reap(k), c, At(Reap(k), c).(status := Ready));
    k' := Put(Reap(k), c, At(Reap(k), c).(status := Ready));
    forall t ensures !Has(k', t, Running) { assert Has(k, t, Running) <==> t == c; }
  }

  lemma ThreadYieldPrepares(k: State) returns (k': State)
    requires Lists(k, {}) && OneRunning(k) && k.current != k.idle
    ensures Yield(k) == Schedule(k') && Scheduling(k') && YieldReady(k, k')
  {
    var c := k.current;
    assert Has(k, c, Running);
    DeadAreFree(k);
    YieldIsUnblock(k);
    RunningIsUnlisted(k, c);
    assert ModeOk(k, c);
    UnblockKeepsLists(k, c);
    ReapKeepsLists(Unblock(k, c));
    k' := Reap(Unblock(k, c));
    forall t ensures !Has(k', t, Running) { assert Has(k, t, Running) <==> t == c; }
  }

  /** The state in which a yield calls schedule(). */
  lemma YieldPrepares(k: State) returns (k': State)
    requires Lists(k, {}) && OneRunning(k)
    ensures Yield(k) == Schedule(k') && Scheduling(k') && YieldReady(k, k')
  {
    if k.current == k.idle { k' := IdleYieldPrepares(k); } else { k' := ThreadYieldPrepares(k); }
  }

  /** Changing a thread that is in no list, or changing what no list looks at. */
  lemma RetouchKeepsLists(k: State, t: Tid, th: Thread)
    requires Lists(k, {}) && t in k.threads && ModeOk(Put(k, t, th), t)
    requires t == k.idle ==> th.mode == Free && th.status != Dying
    requires var was := k.threads[t];
      (th.status == was.status && (th.status == Blocked ==> th.mode == was.mode))
        || (t == k.idle && was.status == Running)
    ensures Lists(Put(k, t, th), {})
  {
    var k' := Put(k, t, th);
    assert ModeOk(k, t);
    forall u ensures u in k'.sleepers <==> Has(k', u, Blocked) && At(k', u).mode == Asleep && u !in {} {
      assert u in k.sleepers <==> Has(k, u, Blocked) && At(k, u).mode == Asleep && u !in {};
    }
    forall s | s in k.semas ensures QueueOk(k', s, {}) {
      assert QueueOk(k, s, {});
    }
    forall u | u in k'.threads ensures ModeOk(k', u) { assert u != t ==> ModeOk(k, u); }
  }

  lemma SleepKeepsLists(k: State, until: int)
    requires Lists(k, {}) && OneRunning(k) && k.current != k.idle
    ensures
      var k1 := GoToBed(k, until);
      Scheduling(Put(k1, k.current, At(k1, k.current).(status := Blocked, mode := Asleep)))
  {
    var (c, k1) := (k.current, GoToBed(k, until));
    var k2 := Put(k1, c, At(k1, c).(status := Blocked, mode := Asleep));
    assert Has(k, c, Running);
    assert c !in k.sleepers && c !in k.ready && c !in k.destruction;
    InsertedMembers(ByWakeup(Put(k, c, At(k, c).(wakeupTick := until, sleptAt := k.ticks))), k.sleepers, c);
    forall u ensures u in k2.sleepers <==> Has(k2, u, Blocked) && At(k2, u).mode == Asleep && u !in {} {
      assert u in k.sleepers <==> Has(k, u, Blocked) && At(k, u).mode == Asleep && u !in {};
    }
    forall s | s in k.semas ensures QueueOk(k2, s, {}) {
      assert QueueOk(k, s, {});
    }
    forall u | u in k2.threads ensures ModeOk(k2, u) { assert ModeOk(k, u); }
    forall t ensures !Has(k2, t, Running) { assert Has(k, t, Running) <==> t == c; }
  }

  lemma QueueKeepsLists(k: State, s: SemaId)
    requires Lists(k, {}) && OneRunning(k) && k.current != k.idle && s in k.semas
    ensures
      var k1 := Queue(k, s);
      Scheduling(Put(k1, k.current, At(k1, k.current).(status := Blocked, mode := Downing(s))))
  {
    var (c, k1) := (k.current, Queue(k, s));
    var k2 := Put(k1, c, At(k1, c).(status := Blocked, mode := Downing(s)));
    assert Has(k, c, Running);
    assert QueueOk(k, s, {}) && c !in Sem(k, s).waiters;
    InsertedMembers(ByPriority(k), Sem(k, s).waiters, c);
    forall u ensures u in k2.sleepers <==> Has(k2, u, Blocked) && At(k2, u).mode == Asleep && u !in {} {
      assert u in k.sleepers <==> Has(k, u, Blocked) && At(k, u).mode == Asleep && u !in {};
    }
    forall r | r in k2.semas ensures QueueOk(k2, r, {}) {
      assert QueueOk(k, r, {});
    }
    forall u | u in k2.threads ensures ModeOk(k2, u) { assert ModeOk(k, u); }
    forall t ensures !Has(k2, t, Running) { assert Has(k, t, Running) <==> t == c; }
  }

  lemma IdleBlockKeepsLists(k: State)
    requires Lists(k, {}) && OneRunning(k) && k.current == k.idle
    ensures Scheduling(Put(k, k.idle, At(k, k.idle).(status := Blocked, mode := Free)))
  {
    var k2 := Put(k, k.idle, At(k, k.idle).(status := Blocked, mode := Free));
    assert Has(k, k.current, Running);
    RetouchKeepsLists(k, k.idle, At(k, k.idle).(status := Blocked, mode := Free));
    forall t ensures !Has(k2, t, Running) { assert Has(k, t, Running) <==> t == k.current; }
  }

  lemma DyingKeepsLists(k: State)
    requires Lists(k, {}) && OneRunning(k) && k.current !in k.destruction && k.current != k.idle
      && At(k, k.current).mode == Free
    ensures Scheduling(Put(k, k.current, At(k, k.current).(status := Dying)))
  {
    var (c, k') := (k.current, Put(k, k.current, At(k, k.current).(status := Dying)));
    assert Has(k, c, Running);
    forall u ensures u in k'.sleepers <==> Has(k', u, Blocked) && At(k', u).mode == Asleep && u !in {} {
      assert u in k.sleepers <==> Has(k, u, Blocked) && At(k, u).mode == Asleep && u !in {};
    }
    forall r | r in k'.semas ensures QueueOk(k', r, {}) {
      assert QueueOk(k, r, {});
    }
    forall u | u in k'.threads ensures ModeOk(k', u) { assert ModeOk(k, u); }
    forall t ensures !Has(k', t, Running) { assert Has(k, t, Running) <==> t == c; }
  }

  lemma ReapKeepsRunning(k: State)
    requires Lists(k, {}) && OneRunning(k)
    ensures OneRunning(Reap(k)) && k.current !in k.destruction
  {
    DeadAreFree(k);
    assert Has(k, k.current, Running);
    forall t ensures Has(Reap(k), t, Running) <==> t == Reap(k).current {
      assert Has(k, t, Running) <==> t == k.current;
    }
  }

  lemma ExitPrepares(k: State) returns (k': State)
    requires Lists(k, {}) && OneRunning(k) && k.current != k.idle && At(k, k.current).mode == Free
    ensures DoSchedule(k, Dying) == Schedule(k') && Scheduling(k')
    ensures k' == k.(threads := k'.threads, destruction := [])
    ensures forall t :: At(k', t).mode == At(k, t).mode && (At(k', t).status == Blocked <==> At(k, t).status == Blocked)
    ensures forall t :: t in k.ready || t in k.sleepers ==> At(k', t) == At(k, t)
  {
    var k1 := Reap(k);
    assert Has(k, k.current, Running);
    DeadAreFree(k);
    ReapKeepsLists(k);
    ReapKeepsRunning(k);
    DyingKeepsLists(k1);
    k' := Put(k1, k.current, At(k1, k.current).(status := Dying));
  }

  lemma WakeOneKeepsLists(k: State)
    requires Lists(k, {}) && k.sleepers != []
    ensures Lists(WakeOne(k), {})
    ensures forall u :: u != k.sleepers[0] ==> At(WakeOne(k), u) == At(k, u)
  {
    var t := k.sleepers[0];
    var k1 := Put(k, t, At(k, t).(mode := Free)).(sleepers := k.sleepers[1..]);
    assert t in k.sleepers && Has(k, t, Blocked);
    TailMembers(k.sleepers);
    forall u ensures u in k1.sleepers <==> Has(k1, u, Blocked) && At(k1, u).mode == Asleep && u !in {t} {
      assert u in k.sleepers <==> Has(k, u, Blocked) && At(k, u).mode == Asleep && u !in {};
    }
    forall s | s in k.semas ensures QueueOk(k1, s, {t}) {
      assert QueueOk(k, s, {});
    }
    forall u | u in k1.threads && u != t ensures ModeOk(k1, u) { assert ModeOk(k, u); }
    UnblockKeepsLists(k1, t);
  }

  /** What sema_up does, in terms of the waiter it picks. */
  lemma UpPicks(k: State, s: SemaId) returns (t: Tid, rest: seq<Tid>)
    requires QueueOk(k, s, {}) && Sem(k, s).waiters != []
    ensures Picked(k, s, t, rest) && Up(k, s) == Wake(Raise(k, s), s, t, rest)
    ensures [t] + rest == InsertionSort(ByPriority(k), Sem(k, s).waiters)
  {
    var sorted := InsertionSort(ByPriority(k), Sem(k, s).waiters);
    SortedMembers(ByPriority(k), Sem(k, s).waiters);
    TailMembers(sorted);
    t, rest := sorted[0], sorted[1..];
    assert t in sorted;
  }

  ghost predicate Picked(k: State, s: SemaId, t: Tid, rest: seq<Tid>) {
    && t in Sem(k, s).waiters && Has(k, t, Blocked) && At(k, t).mode == Downing(s)
    && NoDup(rest) && forall u :: u in rest <==> u in Sem(k, s).waiters && u != t
  }

  lemma RaiseKeepsLists(k: State, s: SemaId)
    requires Lists(k, {}) && s in k.semas
    ensures Lists(Raise(k, s), {})
  {
    var k1 := Raise(k, s);
    forall r | r in k1.semas ensures QueueOk(k1, r, {}) { assert QueueOk(k, r, {}); }
    forall u | u in k1.threads ensures ModeOk(k1, u) { assert ModeOk(k, u); }
  }

  lemma WakeKeepsLists(k: State, s: SemaId, t: Tid, rest: seq<Tid>)
    requires Lists(k, {}) && s in k.semas && Picked(k, s, t, rest)
    ensures Lists(Wake(k, s, t, rest), {})
    ensures forall u :: u != t ==> At(Wake(k, s, t, rest), u) == At(k, u)
  {
    var k1 := PutSema(k, s, Sem(k, s).(waiters := rest, woken := Sem(k, s).woken + {t}));
    assert QueueOk(k, s, {}) && ModeOk(k, t);
    forall u ensures u in k1.sleepers <==> Has(k1, u, Blocked) && At(k1, u).mode == Asleep && u !in {t} {
      assert u in k.sleepers <==> Has(k, u, Blocked) && At(k, u).mode == Asleep && u !in {};
    }
    forall r | r in k1.semas ensures QueueOk(k1, r, {t}) { assert QueueOk(k, r, {}); }
    forall u | u in k1.threads && u != t ensures ModeOk(k1, u) { assert ModeOk(k, u); }
    assert forall u :: u in k.destruction ==> Has(k, u, Dying);
    UnblockKeepsLists(k1, t);
  }

  lemma UpKeepsLists(k: State, s: SemaId)
    requires Lists(k, {}) && s in k.semas
    ensures Lists(Up(k, s), {})
  {
    RaiseKeepsLists(k, s);
    if Sem(k, s).waiters != [] {
      assert QueueOk(k, s, {});
      var t, rest := UpPicks(k, s);
      assert Picked(Raise(k, s), s, t, rest);
      WakeKeepsLists(Raise(k, s), s, t, rest);
    }
  }

  lemma CreateKeepsLists(k: State, t: Tid, p: int)
    requires Lists(k, {}) && t !in k.threads
    ensures Lists(Unblock(Put(k, t, Thread(Blocked, p, 0, Free, 0, 0)), t), {})
    ensures forall u :: u != t ==> At(Unblock(Put(k, t, Thread(Blocked, p, 0, Free, 0, 0)), t), u) == At(k, u)
  {
    var k1 := Put(k, t, Thread(Blocked, p, 0, Free, 0, 0));
    assert forall u :: u in k.destruction ==> Has(k, u, Dying);
    forall u ensures u in k1.sleepers <==> Has(k1, u, Blocked) && At(k1, u).mode == Asleep && u !in {t} {
      assert u in k.sleepers <==> Has(k, u, Blocked) && At(k, u).mode == Asleep && u !in {};
    }
    forall s | s in k.semas ensures QueueOk(k1, s, {t}) { assert QueueOk(k, s, {}); }
    forall u | u in k1.threads && u != t ensures ModeOk(k1, u) { assert ModeOk(k, u); }
    UnblockKeepsLists(k1, t);
  }

  // ---------- semaphores and locks are kept ----------

  lemma SemasFrame(k: State, k': State)
    requires SemasOk(k) && k'.semas == k.semas
    requires forall t, s :: InLoop(k', t, s) <==> InLoop(k, t, s)
    ensures SemasOk(k')
  {
    forall s | s in k'.semas ensures SemaOk(k', s) { assert SemaOk(k, s); }
  }

  lemma LocksFrame(k: State, k': State)
    requires LocksOk(k) && k'.locks == k.locks
    requires forall l :: OfLock(l) in k'.semas <==> OfLock(l) in k.semas
    requires forall l :: OfLock(l) in k.semas ==> Sem(k', OfLock(l)).value == Sem(k, OfLock(l)).value
    requires forall l, t :: InTransit(k', l, t) <==> InTransit(k, l, t)
    ensures LocksOk(k')
  {
    forall l | l in k'.locks ensures LockOk(k', l) { assert LockOk(k, l); }
  }

  /** Scheduling moves threads between statuses, but not in or out of sema_down or lock code. */
  lemma ScheduleKeepsSynch(k: State)
    requires Scheduling(k) && Synch(k)
    ensures Synch(Schedule(k))
  {
    var (k', next) := (Schedule(k), Next(k));
    if k.ready != [] { assert k.ready[0] in k.ready; assert Has(k, next, Ready); }
    SemasFrame(k, k');
    LocksFrame(k, k');
  }

  /** Blocking in sema_down: the thread is no longer one that has still to test the value. */
  lemma QueueKeepsSynch(k: State, s: SemaId, k': State)
    requires OneRunning(k) && Synch(k) && s in k.semas && Sem(k, s).value == 0
    requires At(k, k.current).mode == Free || At(k, k.current).mode == Downing(s)
    requires var k1 := Queue(k, s); k' == Put(k1, k.current, At(k1, k.current).(status := Blocked, mode := Downing(s)))
    ensures Synch(k')
  {
    var c := k.current;
    assert Has(k, c, Running);
    assert forall t :: t != c ==> At(k', t) == At(k, t);
    forall r | r in k'.semas ensures SemaOk(k', r) {
      assert SemaOk(k, r) && !InLoop(k', c, r);
      forall t ensures t in Sem(k', r).woken <==> InLoop(k', t, r) { assert t in Sem(k, r).woken <==> InLoop(k, t, r); }
    }
    LocksFrame(k, k');
  }

  /** What completing a down changes. */
  lemma TookLeaves(k: State, s: SemaId)
    ensures Took(k, s) == k.(threads := Took(k, s).threads, locks := Took(k, s).locks)
    ensures forall t :: t != k.current ==> At(Took(k, s), t) == At(k, t)
    ensures At(Took(k, s), k.current) == At(k, k.current).(mode := if s.Plain? then Free else Entering(s.l))
  {
  }

  /** Taking the value. */
  lemma TakeKeepsSemas(k: State, s: SemaId)
    requires Lists(k, {}) && OneRunning(k) && SemasOk(k) && s in k.semas && Sem(k, s).value > 0
    requires At(k, k.current).mode == Free || At(k, k.current).mode == Downing(s)
    ensures SemasOk(Took(Take(k, s), s))
  {
    var (c, k2) := (k.current, Took(Take(k, s), s));
    TookLeaves(Take(k, s), s);
    assert Has(k, c, Running);
    assert forall t :: t != c ==> At(k2, t) == At(k, t);
    forall r | r in k2.semas ensures SemaOk(k2, r) {
      assert SemaOk(k, r);
      forall t ensures t in Sem(k2, r).woken <==> InLoop(k2, t, r) { assert t in Sem(k, r).woken <==> InLoop(k, t, r); }
    }
  }

  /** Taking the value of a lock's semaphore makes the thread its only owner. */
  lemma TakeKeepsLocks(k: State, s: SemaId)
    requires LocksOk(k) && s in k.semas && Sem(k, s).value > 0 && k.current in k.threads
    requires At(k, k.current).mode == Free || At(k, k.current).mode == Downing(s)
    ensures LocksOk(Took(Take(k, s), s))
  {
    var (c, k2) := (k.current, Took(Take(k, s), s));
    TookLeaves(Take(k, s), s);
    assert forall t :: t != c ==> At(k2, t) == At(k, t);
    if s.Plain? { LocksFrame(k, k2); } else { EnterKeepsLocks(k, k2, c, s.l); }
  }

  lemma EnterKeepsLocks(k: State, k': State, c: Tid, l0: nat)
    requires LocksOk(k) && OfLock(l0) in k.semas && Sem(k, OfLock(l0)).value > 0
    requires forall l :: !InTransit(k, l, c)
    requires k'.locks == k.locks[l0 := LockAt(k, l0).(owners := LockAt(k, l0).owners + {c})]
      && k'.semas.Keys == k.semas.Keys
    requires forall s :: s in k.semas ==> Sem(k', s).value == Sem(k, s).value - (if s == OfLock(l0) then 1 else 0)
    requires forall t :: At(k', t).mode == if t == c then Entering(l0) else At(k, t).mode
    ensures LocksOk(k')
  {
    assert LockOk(k, l0);
    assert LockAt(k, l0).owners == {} && LockAt(k', l0).owners == {c};
    forall l, t ensures InTransit(k', l, t) <==> InTransit(k, l, t) || (l == l0 && t == c) {}
    forall l | l in k'.locks ensures LockOk(k', l) { assert LockOk(k, l); }
  }

  /** Raising the value where nobody waits. */
  lemma RaiseKeepsSemas(k: State, s: SemaId)
    requires SemasOk(k) && s in k.semas && Sem(k, s).waiters == []
    ensures SemasOk(Raise(k, s))
  {
    var k2 := Raise(k, s);
    forall r | r in k2.semas ensures SemaOk(k2, r) {
      assert SemaOk(k, r);
      forall t ensures t in Sem(k2, r).woken <==> InLoop(k2, t, r) { assert t in Sem(k, r).woken <==> InLoop(k, t, r); }
    }
  }

  /** Raising the value and waking a waiter: there is one more thread on its way to test it. */
  lemma WakeKeepsSemas(k: State, s: SemaId, t: Tid, rest: seq<Tid>)
    requires SemasOk(k) && s in k.semas && Picked(k, s, t, rest)
    ensures SemasOk(Wake(Raise(k, s), s, t, rest))
  {
    var k2 := Wake(Raise(k, s), s, t, rest);
    forall r | r in k2.semas ensures SemaOk(k2, r) {
      assert SemaOk(k, r);
      forall u ensures u in Sem(k2, r).woken <==> InLoop(k2, u, r) { assert u in Sem(k, r).woken <==> InLoop(k, u, r); }
      if r == s { assert !InLoop(k, t, s) && t !in Sem(k, s).woken; }
    }
  }

  lemma UpKeepsSemas(k: State, s: SemaId)
    requires Lists(k, {}) && SemasOk(k) && s in k.semas
    ensures SemasOk(Up(k, s))
  {
    if Sem(k, s).waiters == [] {
      RaiseKeepsSemas(k, s);
    } else {
      assert QueueOk(k, s, {});
      var t, rest := UpPicks(k, s);
      WakeKeepsSemas(k, s, t, rest);
    }
  }

  /** What sema_up leaves alone: every other semaphore, the locks, and who is where. */
  lemma UpLeaves(k: State, s: SemaId)
    requires Lists(k, {}) && s in k.semas
    ensures Up(k, s) == k.(threads := Up(k, s).threads, ready := Up(k, s).ready, clock := Up(k, s).clock,
                           raised := Up(k, s).raised, semas := Up(k, s).semas)
    ensures Up(k, s).semas.Keys == k.semas.Keys && Sem(Up(k, s), s).value == Sem(k, s).value + 1
    ensures forall r :: r in k.semas && r != s ==> Sem(Up(k, s), r) == Sem(k, r)
    ensures forall t :: At(Up(k, s), t).mode == At(k, t).mode
    ensures forall t :: Has(Up(k, s), t, Running) <==> Has(k, t, Running)
  {
    if Sem(k, s).waiters != [] {
      assert QueueOk(k, s, {});
      var t, rest := UpPicks(k, s);
    }
  }

  // ---------- the sleep list is kept ----------

  lemma SameSleepOrder(k: State, k': State, q: seq<Tid>)
    requires Sorted(ByWakeup(k), q)
    requires forall t :: t in q ==> At(k', t).wakeupTick == At(k, t).wakeupTick
    ensures Sorted(ByWakeup(k'), q)
  {
    forall i, j | 0 <= i < j < |q| ensures !ByWakeup(k')(q[j], q[i]) {
      assert !ByWakeup(k)(q[j], q[i]);
    }
  }

  lemma SleepersFrame(k: State, k': State)
    requires Sleepers(k) && k'.sleepers == k.sleepers && k'.ticks == k.ticks
    requires forall t :: t in k.sleepers ==>
      At(k', t).wakeupTick == At(k, t).wakeupTick && At(k', t).sleptAt == At(k, t).sleptAt
    ensures Sleepers(k')
  {
    SameSleepOrder(k, k', k.sleepers);
  }

  lemma SleepKeepsSleepers(k: State, until: int, k': State)
    requires Sleepers(k) && k.current !in k.sleepers && k'.ticks == k.ticks && k'.sleepers == GoToBed(k, until).sleepers
    requires forall t :: t in k'.sleepers && t != k.current ==> At(k', t) == At(k, t)
    requires At(k', k.current).wakeupTick == until && At(k', k.current).sleptAt == k.ticks
    ensures Sleepers(k')
  {
    var (c, k1) := (k.current, Put(k, k.current, At(k, k.current).(wakeupTick := until, sleptAt := k.ticks)));
    InsertedMembers(ByWakeup(k1), k.sleepers, c);
    SameSleepOrder(k, k1, k.sleepers);
    InsertOrderedStable(ByWakeup(k1), k.sleepers, c);
    SameSleepOrder(k1, k', k'.sleepers);
  }

  // ---------- the order of the ready list is kept ----------

  lemma OrderFrame(k: State, k': State)
    requires InOrder(k) && k'.ready == k.ready && k'.clock == k.clock && k'.raised == k.raised
    requires forall t :: t in k.ready ==>
      At(k', t).priority == At(k, t).priority && At(k', t).arrived == At(k, t).arrived
    ensures InOrder(k')
  {
  }

  lemma ScheduleKeepsOrder(k: State)
    requires Scheduling(k) && InOrder(k)
    ensures InOrder(Schedule(k))
  {
    var k' := Schedule(k);
    if k.ready != [] {
      forall i | 0 <= i < |k'.ready| ensures k'.ready[i] == k.ready[i + 1] && k.ready[i + 1] in k.ready {}
      assert forall t :: At(k', t).priority == At(k, t).priority && At(k', t).arrived == At(k, t).arrived;
    }
  }

  /** "t" has been put on the ready list, and nothing else that its order depends on has changed. */
  ghost predicate JoinsReady(k: State, t: Tid, k': State) {
    && t !in k.ready && k'.ready == InsertOrdered(ByPriority(k), k.ready, t) && k'.clock == k.clock + 1
    && k'.raised == k.raised - {t} && At(k', t).arrived == k.clock && At(k', t).priority == At(k, t).priority
    && forall u :: u in k.ready ==> At(k', u).priority == At(k, u).priority && At(k', u).arrived == At(k, u).arrived
  }

  lemma JoinedAhead(k: State, t: Tid, k': State, p: nat, j: nat)
    requires InOrder(k) && JoinsReady(k, t, k') && p <= j < |k.ready| && ByPriority(k)(t, k.ready[p])
    ensures Ahead(k', t, k.ready[j])
  {
    assert k.ready[j] in k.ready && k.ready[p] in k.ready;
    assert p < j ==> Ahead(k, k.ready[p], k.ready[j]);
  }

  lemma JoinedBehind(k: State, t: Tid, k': State, i: nat)
    requires InOrder(k) && JoinsReady(k, t, k') && i < |k.ready| && !ByPriority(k)(t, k.ready[i])
    ensures Ahead(k', k.ready[i], t)
  {
    assert k.ready[i] in k.ready;
  }

  lemma JoinedOthers(k: State, t: Tid, k': State, i: nat, j: nat)
    requires InOrder(k) && JoinsReady(k, t, k') && i < j < |k.ready|
    ensures Ahead(k', k.ready[i], k.ready[j])
  {
    assert Ahead(k, k.ready[i], k.ready[j]) && k.ready[i] in k.ready && k.ready[j] in k.ready;
  }

  lemma InsertedIndex(q: seq<Tid>, p: nat, t: Tid, i: nat)
    requires p <= |q| && i <= |q|
    ensures (q[..p] + [t] + q[p..])[i] == if i < p then q[i] else if i == p then t else q[i - 1]
  {
  }

  /** An ordered insertion puts the thread behind its equals and before the lower ones. */
  lemma UnblockKeepsOrder(k: State, t: Tid, k': State)
    requires InOrder(k) && JoinsReady(k, t, k')
    ensures InOrder(k')
  {
    var q := k.ready;
    var p := InsertedAt(ByPriority(k), q, t);
    InsertedMembers(ByPriority(k), q, t);
    forall i, j | 0 <= i < j < |k'.ready| ensures Ahead(k', k'.ready[i], k'.ready[j]) {
      InsertedIndex(q, p, t, i);
      InsertedIndex(q, p, t, j);
      if i == p {
        JoinedAhead(k, t, k', p, j - 1);
      } else if j == p {
        JoinedBehind(k, t, k', i);
      } else {
        JoinedOthers(k, t, k', if i < p then i else i - 1, if j < p then j else j - 1);
      }
    }
  }

  // ---------- every step keeps the invariant ----------

  lemma ScheduleKeepsInv(k: State)
    requires Scheduling(k) && Synch(k) && Sleepers(k) && InOrder(k)
    ensures Inv(Schedule(k))
  {
    ScheduleKeepsLists(k);
    ScheduleKeepsSynch(k);
    ScheduleKeepsOrder(k);
    if k.ready != [] { assert k.ready[0] in k.ready; assert Has(k, Next(k), Ready); }
    forall t | t in k.sleepers ensures At(Schedule(k), t) == At(k, t) {
      assert Has(k, t, Blocked) && At(k, t).mode == Asleep;
    }
    SleepersFrame(k, Schedule(k));
  }

  lemma YieldKeepsOrders(k: State, k': State)
    requires Lists(k, {}) && OneRunning(k) && Sleepers(k) && InOrder(k) && YieldReady(k, k')
    ensures Sleepers(k') && InOrder(k')
  {
    var c := k.current;
    assert Has(k, c, Running);
    assert c !in k.sleepers && c !in k.ready;
    assert forall t :: t in k.destruction ==> Has(k, t, Dying);
    SleepersFrame(k, k');
    if c == k.idle {
      OrderFrame(k, k');
    } else {
      UnblockKeepsOrder(k, c, k');
    }
  }

  lemma YieldKeepsInv(k: State)
    requires Inv(k)
    ensures Inv(Yield(k))
  {
    var k' := YieldPrepares(k);
    SemasFrame(k, k');
    LocksFrame(k, k');
    YieldKeepsOrders(k, k');
    ScheduleKeepsInv(k');
  }

  lemma PreemptKeepsInv(k: State)
    requires Inv(k)
    ensures Inv(Preempt(k))
  {
    YieldKeepsInv(k);
  }

  /** Steps that change the running thread's own record and nothing that a list depends on. */
  lemma RetouchKeepsInv(k: State, t: Tid, th: Thread)
    requires Inv(k) && t in k.threads && th == k.threads[t].(priority := th.priority)
    requires t !in k.ready
    ensures Inv(Put(k, t, th))
  {
    assert ModeOk(k, t);
    RetouchKeepsLists(k, t, th);
    RetouchKeepsSynch(k, t, th);
    RetouchKeepsOrders(k, t, th);
  }

  lemma RetouchKeepsSynch(k: State, t: Tid, th: Thread)
    requires OneRunning(k) && Synch(k) && t in k.threads && th == k.threads[t].(priority := th.priority)
    ensures OneRunning(Put(k, t, th)) && Synch(Put(k, t, th))
  {
    RunningFrame(k, Put(k, t, th));
    SemasFrame(k, Put(k, t, th));
    LocksFrame(k, Put(k, t, th));
  }

  lemma RetouchKeepsOrders(k: State, t: Tid, th: Thread)
    requires Sleepers(k) && InOrder(k) && t in k.threads && th == k.threads[t].(priority := th.priority)
      && t !in k.ready
    ensures Sleepers(Put(k, t, th)) && InOrder(Put(k, t, th))
  {
    SleepersFrame(k, Put(k, t, th));
    OrderFrame(k, Put(k, t, th));
  }

  lemma SleepKeepsInv(k: State, until: int)
    requires Inv(k) && k.current != k.idle && At(k, k.current).mode == Free
    ensures Inv(Block(GoToBed(k, until), Asleep))
  {
    var (c, k1) := (k.current, GoToBed(k, until));
    var k2 := Put(k1, c, At(k1, c).(status := Blocked, mode := Asleep));
    assert Has(k, c, Running);
    SleepKeepsLists(k, until);
    assert c !in k.sleepers && c !in k.ready;
    SemasFrame(k, k2);
    LocksFrame(k, k2);
    SleepKeepsSleepers(k, until, k2);
    OrderFrame(k, k2);
    ScheduleKeepsInv(k2);
  }

  lemma IdleBlockKeepsInv(k: State)
    requires Inv(k) && k.current == k.idle
    ensures Inv(Block(k, Free))
  {
    var c := k.current;
    var k2 := Put(k, c, At(k, c).(status := Blocked, mode := Free));
    assert Has(k, c, Running);
    IdleBlockKeepsLists(k);
    assert c !in k.sleepers;
    SemasFrame(k, k2);
    LocksFrame(k, k2);
    SleepersFrame(k, k2);
    OrderFrame(k, k2);
    ScheduleKeepsInv(k2);
  }

  lemma ExitKeepsInv(k: State)
    requires Inv(k) && k.current != k.idle && At(k, k.current).mode == Free
    ensures Inv(DoSchedule(k, Dying))
  {
    var k2 := ExitPrepares(k);
    SemasFrame(k, k2);
    LocksFrame(k, k2);
    SleepersFrame(k, k2);
    OrderFrame(k, k2);
    ScheduleKeepsInv(k2);
  }

  lemma DownBlocks(k: State, s: SemaId)
    requires Inv(k) && k.current != k.idle && s in k.semas && Sem(k, s).value == 0
    requires At(k, k.current).mode == Free || At(k, k.current).mode == Downing(s)
    ensures Inv(Down(k, s))
  {
    var (c, k1) := (k.current, Queue(k, s));
    var k2 := Put(k1, c, At(k1, c).(status := Blocked, mode := Downing(s)));
    assert Has(k, c, Running);
    assert c !in k.sleepers && c !in k.ready;
    QueueKeepsLists(k, s);
    QueueKeepsSynch(k, s, k2);
    SleepersFrame(k, k2);
    OrderFrame(k, k2);
    ScheduleKeepsInv(k2);
  }

  lemma DownTakes(k: State, s: SemaId)
    requires Inv(k) && (k.current == k.idle ==> s.Plain?) && s in k.semas && Sem(k, s).value > 0
    requires At(k, k.current).mode == Free || At(k, k.current).mode == Downing(s)
    ensures Inv(Down(k, s))
  {
    assert Has(k, k.current, Running);
    TakeKeepsSemas(k, s);
    TakeKeepsLocks(k, s);
    TakeKeepsLists(k, s);
    TakeKeepsOrders(k, s);
  }

  lemma TakeKeepsLists(k: State, s: SemaId)
    requires Inv(k) && (k.current == k.idle ==> s.Plain?) && s in k.semas && Sem(k, s).value > 0
    ensures Lists(Took(Take(k, s), s), {})
  {
    var (c, k1, k') := (k.current, Take(k, s), Took(Take(k, s), s));
    assert Has(k, c, Running);
    TookLeaves(k1, s);
    SameLists(k, k1);
    RetouchKeepsLists(k1, c, At(k', c));
    SameLists(Put(k1, c, At(k', c)), k');
  }

  lemma TakeKeepsOrders(k: State, s: SemaId)
    requires Inv(k) && s in k.semas && Sem(k, s).value > 0
    ensures
      var k' := Took(Take(k, s), s);
      k'.current !in k'.destruction && OneRunning(k') && Sleepers(k') && InOrder(k')
  {
    var k' := Took(Take(k, s), s);
    assert Has(k, k.current, Running);
    TookLeaves(Take(k, s), s);
    RunningFrame(k, k');
    SleepersFrame(k, k');
    OrderFrame(k, k');
  }

  lemma DownKeepsInv(k: State, s: SemaId)
    requires Inv(k) && k.current != k.idle && s in k.semas
    requires At(k, k.current).mode == Free || At(k, k.current).mode == Downing(s)
    ensures Inv(Down(k, s))
  {
    if Sem(k, s).value == 0 { DownBlocks(k, s); } else { DownTakes(k, s); }
  }

  lemma RunningFrame(k: State, k': State)
    requires OneRunning(k) && k'.current == k.current
    requires forall t :: Has(k', t, Running) <==> Has(k, t, Running)
    ensures OneRunning(k')
  {
    forall t ensures Has(k', t, Running) <==> t == k'.current { assert Has(k, t, Running) <==> t == k.current; }
  }

  lemma UpKeepsOrders(k: State, s: SemaId)
    requires Lists(k, {}) && Sleepers(k) && InOrder(k) && s in k.semas
    ensures Sleepers(Up(k, s)) && InOrder(Up(k, s))
  {
    SleepersFrame(k, Raise(k, s));
    OrderFrame(k, Raise(k, s));
    if Sem(k, s).waiters != [] {
      assert QueueOk(k, s, {});
      var t, rest := UpPicks(k, s);
      RaiseKeepsLists(k, s);
      WakeKeepsTheRest(Raise(k, s), s, t, rest);
    }
  }

  /** sema_up keeps everything but the account of a lock. */
  lemma UpKeepsTheRest(k: State, s: SemaId)
    requires Lists(k, {}) && k.current !in k.destruction && OneRunning(k) && SemasOk(k) && Sleepers(k) && InOrder(k)
    requires s in k.semas
    ensures
      var k' := Up(k, s);
      Lists(k', {}) && k'.current !in k'.destruction && OneRunning(k') && SemasOk(k') && Sleepers(k') && InOrder(k')
  {
    UpKeepsLists(k, s);
    UpKeepsSemas(k, s);
    UpKeepsOrders(k, s);
    UpLeaves(k, s);
    RunningFrame(k, Up(k, s));
  }

  lemma WakeKeepsTheRest(k: State, s: SemaId, t: Tid, rest: seq<Tid>)
    requires Lists(k, {}) && Sleepers(k) && InOrder(k) && Picked(k, s, t, rest)
    ensures Sleepers(Wake(k, s, t, rest)) && InOrder(Wake(k, s, t, rest))
  {
    var k1 := PutSema(k, s, Sem(k, s).(waiters := rest, woken := Sem(k, s).woken + {t}));
    assert t !in k.sleepers && t !in k.ready;
    SleepersFrame(k, Wake(k, s, t, rest));
    OrderFrame(k, k1);
    UnblockKeepsOrder(k1, t, Wake(k, s, t, rest));
  }

  lemma SemaUpKeepsInv(k: State, n: nat)
    requires Inv(k) && Plain(n) in k.semas
    ensures Inv(Preempt(Up(k, Plain(n))))
  {
    UpKeepsTheRest(k, Plain(n));
    UpLeaves(k, Plain(n));
    LocksFrame(k, Up(k, Plain(n)));
    PreemptKeepsInv(Up(k, Plain(n)));
  }

  lemma LetGoKeepsTheRest(k: State)
    requires Inv(k) && At(k, k.current).mode.Leaving?
    ensures
      var k' := LetGo(k);
      Lists(k', {}) && k'.current !in k'.destruction && OneRunning(k') && SemasOk(k') && Sleepers(k') && InOrder(k')
  {
    var (c, k') := (k.current, LetGo(k));
    assert Has(k, c, Running) && k.idle in k.threads;
    RetouchKeepsLists(k, c, At(k', c));
    SameLists(Put(k, c, At(k', c)), k');
    forall t ensures Has(k', t, Running) <==> t == k'.current { assert Has(k, t, Running) <==> t == k.current; }
    assert c !in k.sleepers && c !in k.ready;
    SemasFrame(k, k');
    SleepersFrame(k, k');
    OrderFrame(k, k');
  }

  /** Locks and ticks play no part in the lists. */
  lemma SameLists(k: State, k': State)
    requires Lists(k, {})
    requires k'.threads == k.threads && k'.idle == k.idle && k'.ready == k.ready && k'.sleepers == k.sleepers
    requires k'.destruction == k.destruction && k.semas.Keys <= k'.semas.Keys
    requires forall s :: s in k'.semas ==>
               if s in k.semas then Sem(k', s).waiters == Sem(k, s).waiters else Sem(k', s).waiters == []
    ensures Lists(k', {})
  {
    forall s | s in k'.semas ensures QueueOk(k', s, {}) {
      if s in k.semas { assert QueueOk(k, s, {}); }
      forall t | Has(k', t, Blocked) && At(k', t).mode == Downing(s) ensures s in k.semas { assert ModeOk(k, t); }
    }
    forall u | u in k'.threads ensures ModeOk(k', u) { assert ModeOk(k, u); }
  }

  /** Releasing: the owner leaves and the value comes back, in one step. */
  lemma LockUpKeepsLocks(k: State)
    requires Inv(k) && At(k, k.current).mode.Leaving?
    ensures LocksOk(Up(LetGo(k), OfLock(At(k, k.current).mode.lock)))
  {
    var (c, l0, k1) := (k.current, At(k, k.current).mode.lock, LetGo(k));
    assert Has(k, c, Running);
    assert InTransit(k, l0, c) && l0 in k.locks;
    LetGoKeepsTheRest(k);
    UpLeaves(k1, OfLock(l0));
    ReleaseKeepsLocks(k, Up(k1, OfLock(l0)), c, l0);
  }

  lemma ReleaseKeepsLocks(k: State, k': State, c: Tid, l0: nat)
    requires LocksOk(k) && InTransit(k, l0, c) && At(k, c).mode == Leaving(l0)
    requires k'.locks == k.locks[l0 := LockAt(k, l0).(owners := LockAt(k, l0).owners - {c})]
      && k'.semas.Keys == k.semas.Keys
    requires forall s :: s in k.semas ==> Sem(k', s).value == Sem(k, s).value + (if s == OfLock(l0) then 1 else 0)
    requires forall t :: At(k', t).mode == if t == c then Free else At(k, t).mode
    ensures LocksOk(k')
  {
    assert l0 in k.locks && LockOk(k, l0);
    forall l, t ensures InTransit(k', l, t) <==> InTransit(k, l, t) && t != c {}
    forall l | l in k'.locks ensures LockOk(k', l) {
      assert LockOk(k, l);
      if l == l0 { assert LockAt(k', l).owners == {}; }
    }
  }

  lemma LockUpKeepsInv(k: State)
    requires Inv(k) && At(k, k.current).mode.Leaving?
    ensures Inv(Preempt(Up(LetGo(k), OfLock(At(k, k.current).mode.lock))))
  {
    var s := OfLock(At(k, k.current).mode.lock);
    assert Has(k, k.current, Running);
    assert InTransit(k, s.l, k.current) && s.l in k.locks;
    LetGoKeepsTheRest(k);
    UpKeepsTheRest(LetGo(k), s);
    LockUpKeepsLocks(k);
    PreemptKeepsInv(Up(LetGo(k), s));
  }

  lemma SetHolderKeepsLocks(k: State)
    requires LocksOk(k) && At(k, k.current).mode.Entering?
    ensures LocksOk(Apply(k, SetHolder))
  {
    var (c, l0, k') := (k.current, At(k, k.current).mode.lock, Apply(k, SetHolder));
    assert InTransit(k, l0, c) && LockOk(k, l0);
    assert forall t :: t != c ==> At(k', t) == At(k, t);
    forall l, t ensures InTransit(k', l, t) <==> InTransit(k, l, t) && t != c {}
    forall l | l in k'.locks ensures LockOk(k', l) { assert LockOk(k, l); }
  }

  lemma ClearHolderKeepsLocks(k: State, l0: nat)
    requires LocksOk(k) && Enabled(k, ClearHolder(l0))
    ensures LocksOk(Apply(k, ClearHolder(l0)))
  {
    var (c, k') := (k.current, Apply(k, ClearHolder(l0)));
    assert LockOk(k, l0);
    assert forall t :: t != c ==> At(k', t) == At(k, t);
    forall l, t ensures InTransit(k', l, t) <==> InTransit(k, l, t) || (t == c && l == l0) {}
    forall l | l in k'.locks ensures LockOk(k', l) { assert LockOk(k, l); }
  }

  lemma SetHolderKeepsInv(k: State)
    requires Inv(k) && At(k, k.current).mode.Entering?
    ensures Inv(Apply(k, SetHolder))
  {
    SetHolderKeepsLocks(k);
    HolderKeepsTheRest(k, Apply(k, SetHolder), Free);
  }

  lemma ClearHolderKeepsInv(k: State, l0: nat)
    requires Inv(k) && Enabled(k, ClearHolder(l0))
    ensures Inv(Apply(k, ClearHolder(l0)))
  {
    ClearHolderKeepsLocks(k, l0);
    HolderKeepsTheRest(k, Apply(k, ClearHolder(l0)), Leaving(l0));
  }

  /** Setting or clearing a holder changes the running thread's mode and one lock. */
  lemma HolderKeepsTheRest(k: State, k': State, mode: Mode)
    requires Inv(k) && !At(k, k.current).mode.Downing? && (k.current == k.idle ==> mode == Free)
    requires mode == Free || mode.Leaving?
    requires k' == k.(threads := k.threads[k.current := At(k, k.current).(mode := mode)], locks := k'.locks)
    ensures Lists(k', {}) && k'.current !in k'.destruction && OneRunning(k') && SemasOk(k') && Sleepers(k')
      && InOrder(k')
  {
    var c := k.current;
    assert Has(k, c, Running) && ModeOk(k, c);
    RetouchKeepsLists(k, c, At(k', c));
    SameLists(Put(k, c, At(k', c)), k');
    forall t ensures Has(k', t, Running) <==> t == k'.current { assert Has(k, t, Running) <==> t == k.current; }
    assert c !in k.sleepers && c !in k.ready;
    SemasFrame(k, k');
    SleepersFrame(k, k');
    OrderFrame(k, k');
  }

  lemma CreateKeepsOrders(k: State, t: Tid, p: int)
    requires Lists(k, {}) && Sleepers(k) && InOrder(k) && t !in k.threads
    ensures
      var k' := Unblock(Put(k, t, Thread(Blocked, p, 0, Free, 0, 0)), t);
      Sleepers(k') && InOrder(k')
  {
    var k1 := Put(k, t, Thread(Blocked, p, 0, Free, 0, 0));
    assert t !in k.sleepers && t !in k.ready;
    SleepersFrame(k, Unblock(k1, t));
    OrderFrame(k, k1);
    UnblockKeepsOrder(k1, t, Unblock(k1, t));
  }

  lemma CreateUnblocks(k: State, t: Tid, p: int)
    requires Inv(k) && t !in k.threads
    ensures Inv(Unblock(Put(k, t, Thread(Blocked, p, 0, Free, 0, 0)), t))
  {
    var k2 := Unblock(Put(k, t, Thread(Blocked, p, 0, Free, 0, 0)), t);
    CreateKeepsLists(k, t, p);
    CreateKeepsOrders(k, t, p);
    RunningFrame(k, k2);
    SemasFrame(k, k2);
    LocksFrame(k, k2);
  }

  lemma CreateKeepsInv(k: State, t: Tid, p: int)
    requires Inv(k) && t !in k.threads
    ensures Inv(Preempt(Unblock(Put(k, t, Thread(Blocked, p, 0, Free, 0, 0)), t)))
  {
    CreateUnblocks(k, t, p);
    PreemptKeepsInv(Unblock(Put(k, t, Thread(Blocked, p, 0, Free, 0, 0)), t));
  }

  lemma SemaInitKeepsSemas(k: State, s: SemaId, v: nat)
    requires ModesOk(k, {}) && SemasOk(k) && s !in k.semas
    ensures SemasOk(Apply(k, SemaInit(s, v)))
  {
    var k' := Apply(k, SemaInit(s, v));
    assert k'.threads == k.threads;
    forall t ensures At(k, t).mode != Downing(s) { if t in k.threads { assert ModeOk(k, t); } }
    forall r | r in k'.semas ensures SemaOk(k', r) {
      if r != s { assert SemaOk(k, r); }
      forall t ensures InLoop(k', t, r) <==> InLoop(k, t, r) {}
    }
  }

  lemma SemaInitKeepsLocks(k: State, s: SemaId, v: nat)
    requires LocksOk(k) && s !in k.semas
    ensures LocksOk(Apply(k, SemaInit(s, v)))
  {
    var k' := Apply(k, SemaInit(s, v));
    assert k'.threads == k.threads;
    forall l, t ensures InTransit(k', l, t) <==> InTransit(k, l, t) {}
    forall l | l in k'.locks ensures LockOk(k', l) { if l in k.locks { assert LockOk(k, l); } }
  }

  lemma SemaInitKeepsInv(k: State, s: SemaId, v: nat)
    requires Inv(k) && s !in k.semas
    ensures Inv(Apply(k, SemaInit(s, v)))
  {
    var k' := Apply(k, SemaInit(s, v));
    SameLists(k, k');
    RunningFrame(k, k');
    SemaInitKeepsSemas(k, s, v);
    SemaInitKeepsLocks(k, s, v);
    SleepersFrame(k, k');
    OrderFrame(k, k');
  }

  // ---------- ticks ----------

  /** During a timer interrupt: the tick has been counted, and those due may still be asleep. */
  ghost predicate Ticking(k: State) {
    && Lists(k, {}) && k.current !in k.destruction && OneRunning(k) && Synch(k) && InOrder(k)
    && Sorted(ByWakeup(k), k.sleepers)
    && forall t :: t in k.sleepers ==> At(k, t).sleptAt < k.ticks <= DueTick(At(k, t))
  }

  lemma WakeOneKeepsOrders(k: State)
    requires Lists(k, {}) && k.sleepers != [] && InOrder(k) && Sorted(ByWakeup(k), k.sleepers)
    ensures InOrder(WakeOne(k)) && Sorted(ByWakeup(WakeOne(k)), WakeOne(k).sleepers)
  {
    var (t, k') := (k.sleepers[0], WakeOne(k));
    var k1 := Put(k, t, At(k, t).(mode := Free)).(sleepers := k.sleepers[1..]);
    assert t in k.sleepers && Has(k, t, Blocked) && t !in k.ready;
    OrderFrame(k, k1);
    UnblockKeepsOrder(k1, t, k');
    TailMembers(k.sleepers);
    forall i, j | 0 <= i < j < |k'.sleepers| ensures !ByWakeup(k')(k'.sleepers[j], k'.sleepers[i]) {
      assert k'.sleepers[i] in k'.sleepers && k'.sleepers[j] in k'.sleepers;
      assert !ByWakeup(k)(k.sleepers[j + 1], k.sleepers[i + 1]);
    }
  }

  lemma WakeOneKeepsSynch(k: State)
    requires Lists(k, {}) && OneRunning(k) && Synch(k) && k.sleepers != []
    ensures OneRunning(WakeOne(k)) && Synch(WakeOne(k))
  {
    assert k.sleepers[0] in k.sleepers && Has(k, k.sleepers[0], Blocked);
    RunningFrame(k, WakeOne(k));
    SemasFrame(k, WakeOne(k));
    LocksFrame(k, WakeOne(k));
  }

  lemma WakeOneKeepsTicking(k: State)
    requires Ticking(k) && k.sleepers != []
    ensures Ticking(WakeOne(k)) && WakeOne(k).sleepers == k.sleepers[1..] && Has(WakeOne(k), k.sleepers[0], Ready)
    ensures forall t :: t != k.sleepers[0] ==> At(WakeOne(k), t) == At(k, t)
  {
    var (t, k') := (k.sleepers[0], WakeOne(k));
    WakeOneKeepsLists(k);
    WakeOneKeepsOrders(k);
    WakeOneKeepsSynch(k);
    assert t in k.sleepers && Has(k, t, Blocked);
    TailMembers(k.sleepers);
  }

  /** Where the loop stops, nobody on the sleep list is due. */
  lemma NobodyIsDue(k: State)
    requires Ticking(k) && (k.sleepers == [] || At(k, k.sleepers[0]).wakeupTick > k.ticks)
    ensures forall t :: t in k.sleepers ==> k.ticks < DueTick(At(k, t))
  {
    forall t | t in k.sleepers ensures At(k, t).wakeupTick > k.ticks {
      var i :| 0 <= i < |k.sleepers| && k.sleepers[i] == t;
      if i > 0 { assert !ByWakeup(k)(k.sleepers[i], k.sleepers[0]); }
    }
  }

  lemma {:induction false} WakeSleepersKeepsInv(k: State)
    requires Ticking(k)
    ensures Inv(WakeSleepers(k)) && WakeSleepers(k).ticks == k.ticks
    decreases |k.sleepers|
  {
    if k.sleepers == [] || At(k, k.sleepers[0]).wakeupTick > k.ticks {
      NobodyIsDue(k);
    } else {
      WakeOneKeepsTicking(k);
      WakeSleepersKeepsInv(WakeOne(k));
    }
  }

  ghost predicate WokenIfDue(k: State, k': State, t: Tid) {
    if t !in k.sleepers then At(k', t) == At(k, t)
    else if DueTick(At(k, t)) == k.ticks then Has(k', t, Ready)
    else t in k'.sleepers && At(k', t) == At(k, t)
  }

  lemma {:induction false} WakeSleepersWakes(k: State, t: Tid)
    requires Ticking(k)
    ensures WokenIfDue(k, WakeSleepers(k), t)
    decreases |k.sleepers|
  {
    if k.sleepers == [] || At(k, k.sleepers[0]).wakeupTick > k.ticks {
      NobodyIsDue(k);
    } else {
      WakeOneKeepsTicking(k);
      TailMembers(k.sleepers);
      WakeSleepersWakes(WakeOne(k), t);
    }
  }

  /** The loop wakes exactly the sleepers that are due, although it stops at the first that is not. */
  lemma WakeSleepersExactly(k: State)
    requires Ticking(k)
    ensures Inv(WakeSleepers(k)) && WakeSleepers(k).ticks == k.ticks
    ensures forall t :: WokenIfDue(k, WakeSleepers(k), t)
  {
    WakeSleepersKeepsInv(k);
    forall t ensures WokenIfDue(k, WakeSleepers(k), t) { WakeSleepersWakes(k, t); }
  }

  lemma TickStarts(k: State)
    requires Inv(k)
    ensures Ticking(k.(ticks := k.ticks + 1))
  {
    var k1 := k.(ticks := k.ticks + 1);
    SameLists(k, k1);
    RunningFrame(k, k1);
    SemasFrame(k, k1);
    LocksFrame(k, k1);
    OrderFrame(k, k1);
    SameSleepOrder(k, k1, k.sleepers);
  }

  lemma TickKeepsInv(k: State)
    requires Inv(k)
    ensures Inv(WakeSleepers(k.(ticks := k.ticks + 1)))
  {
    TickStarts(k);
    WakeSleepersKeepsInv(k.(ticks := k.ticks + 1));
  }

  lemma TryDownKeepsInv(k: State, s: SemaId)
    requires Inv(k) && (k.current == k.idle ==> s.Plain?) && s in k.semas && At(k, k.current).mode == Free
    ensures Inv(if Sem(k, s).value > 0 then Down(k, s) else k)
  {
    assert Has(k, k.current, Running);
    if Sem(k, s).value > 0 { DownTakes(k, s); }
  }

  /** Raising a READY thread moves it nowhere: the others stay in order among themselves. */
  lemma DonateKeepsOrder(k: State, t: Tid, p: int)
    requires InOrder(k) && (t in k.ready ==> p >= At(k, t).priority)
    ensures InOrder(Apply(k, Donate(t, p)))
  {
    var (q, k') := (k.ready, Apply(k, Donate(t, p)));
    forall i, j | 0 <= i < j < |q| ensures Ahead(k', q[i], q[j]) {
      assert Ahead(k, q[i], q[j]) && q[i] in q && q[j] in q;
    }
  }

  lemma DonateKeepsInv(k: State, t: Tid, p: int)
    requires Inv(k) && Enabled(k, Donate(t, p))
    ensures Inv(Apply(k, Donate(t, p)))
  {
    var (k', th) := (Apply(k, Donate(t, p)), At(k, t).(priority := p));
    assert Has(k, k.current, Running) && ModeOk(k, t);
    RetouchKeepsLists(k, t, th);
    SameLists(Put(k, t, th), k');
    DonateKeepsSynch(k, t, p);
    SleepersFrame(k, k');
    DonateKeepsOrder(k, t, p);
  }

  lemma DonateKeepsSynch(k: State, t: Tid, p: int)
    requires OneRunning(k) && Synch(k) && t in k.threads
    ensures OneRunning(Apply(k, Donate(t, p))) && Synch(Apply(k, Donate(t, p)))
  {
    RunningFrame(k, Apply(k, Donate(t, p)));
    SemasFrame(k, Apply(k, Donate(t, p)));
    LocksFrame(k, Apply(k, Donate(t, p)));
  }

  lemma SetPriorityKeepsInv(k: State, p: int)
    requires Inv(k)
    ensures Inv(Preempt(Put(k, k.current, At(k, k.current).(priority := p))))
  {
    var (c, th) := (k.current, At(k, k.current).(priority := p));
    assert Has(k, c, Running) && c !in k.ready;
    RetouchKeepsInv(k, c, th);
    PreemptKeepsInv(Put(k, c, th));
  }

  lemma RetestKeepsInv(k: State)
    requires Inv(k) && At(k, k.current).mode.Downing?
    ensures Inv(Down(k, At(k, k.current).mode.s))
  {
    assert Has(k, k.current, Running) && ModeOk(k, k.current);
    assert k.idle in k.threads && k.threads[k.idle].mode == Free;
    DownKeepsInv(k, At(k, k.current).mode.s);
  }

  ghost predicate IsSynch(e: Event) {
    e.SemaInit? || e.SemaDown? || e.SemaTryDown? || e.SemaUp? || e.Retest? || e.LockAcquire? || e.LockTryAcquire?
    || e.SetHolder? || e.ClearHolder? || e.LockUp?
  }

  lemma SynchStepKeepsInv(k: State, e: Event)
    requires Inv(k) && Enabled(k, e) && IsSynch(e)
    ensures Inv(Apply(k, e))
  {
    match e
    case SemaInit(s, v) => SemaInitKeepsInv(k, s, v);
    case SemaDown(n) => DownKeepsInv(k, Plain(n));
    case SemaTryDown(n) => TryDownKeepsInv(k, Plain(n));
    case SemaUp(n) => SemaUpKeepsInv(k, n);
    case Retest => RetestKeepsInv(k);
    case LockAcquire(l) => DownKeepsInv(k, OfLock(l));
    case LockTryAcquire(l) => TryDownKeepsInv(k, OfLock(l));
    case SetHolder => SetHolderKeepsInv(k);
    case ClearHolder(l) => ClearHolderKeepsInv(k, l);
    case LockUp => LockUpKeepsInv(k);
  }

  ghost predicate LeavesCpu(e: Event) {
    e.TimeSlice? || e.IdleBlock? || e.SleepUntil? || e.Exit?
  }

  lemma LeaveStepKeepsInv(k: State, e: Event)
    requires Inv(k) && Enabled(k, e) && LeavesCpu(e)
    ensures Inv(Apply(k, e))
  {
    match e
    case TimeSlice => YieldKeepsInv(k);
    case IdleBlock => IdleBlockKeepsInv(k);
    case SleepUntil(tick) => SleepKeepsInv(k, tick);
    case Exit => ExitKeepsInv(k);
  }

  lemma ThreadStepKeepsInv(k: State, e: Event)
    requires Inv(k) && Enabled(k, e) && !IsSynch(e) && !LeavesCpu(e)
    ensures Inv(Apply(k, e))
  {
    match e
    case Tick => TickKeepsInv(k);
    case Create(t, p) => CreateKeepsInv(k, t, p);
    case SetPriority(p) => SetPriorityKeepsInv(k, p);
    case Donate(t, p) => DonateKeepsInv(k, t, p);
  }

  /** Every step, whichever thread takes it, keeps the invariant. */
  lemma StepKeepsInv(k: State, e: Event)
    requires Inv(k) && Enabled(k, e)
    ensures Inv(Apply(k, e))
  {
    if IsSynch(e) {
      SynchStepKeepsInv(k, e);
    } else if LeavesCpu(e) {
      LeaveStepKeepsInv(k, e);
    } else {
      ThreadStepKeepsInv(k, e);
    }
  }
}
