/** What holds in every run of the scheduler machine. */
module SchedulerRuns {
  import opened StableOrder
  import opened Scheduler
  import opened SchedulerSteps
  import opened Sequences

  // ---------- runs ----------

  /** The state when thread_start has returned: only the main thread and the idle thread exist. */
  ghost function Boot(main: Tid, idle: Tid, p: int): State
    requires main != idle
  {
    State(map[main := Thread(Running, p, 0, Free, 0, 0), idle := Thread(Blocked, 0, 0, Free, 0, 0)],
          main, idle, main, [], [], [], map[], map[], 0, 0, {})
  }

  ghost predicate Legal(k: State, es: seq<Event>)
    decreases |es|
  {
    es == [] || (Enabled(k, es[0]) && Legal(Apply(k, es[0]), es[1..]))
  }

  ghost function Run(k: State, es: seq<Event>): State
    decreases |es|
  {
    if es == [] then k else Run(Apply(k, es[0]), es[1..])
  }

  lemma BootOk(main: Tid, idle: Tid, p: int)
    requires main != idle
    ensures Inv(Boot(main, idle, p))
  {
    var k := Boot(main, idle, p);
    forall t ensures Has(k, t, Running) <==> t == k.current {}
  }

  lemma {:induction false} RunKeepsInv(k: State, es: seq<Event>)
    requires Inv(k) && Legal(k, es)
    ensures Inv(Run(k, es))
    decreases |es|
  {
    if es != [] {
      StepKeepsInv(k, es[0]);
      RunKeepsInv(Apply(k, es[0]), es[1..]);
    }
  }

  // ---------- what holds in every reachable state ----------

  /** One thread runs; every other thread is in the one list that its status and mode name, and
      nowhere else.  Only idle may be READY or BLOCKED and unlisted, and only a DYING main thread
      or one awaiting destruction is neither. */
  lemma EveryThreadIsInOnePlace(k0: State, es: seq<Event>, t: Tid)
    requires Inv(k0) && Legal(k0, es) && t in Run(k0, es).threads
    ensures
      var k := Run(k0, es);
      var th := k.threads[t];
      && NoDup(k.ready) && NoDup(k.sleepers) && NoDup(k.destruction)
        && (forall s :: s in k.semas ==> NoDup(Sem(k, s).waiters))
      && (th.status == Running <==> t == k.current)
      && (t in k.ready <==> th.status == Ready && t != k.idle)
      && (t in k.sleepers <==> th.status == Blocked && th.mode == Asleep)
      && (forall s :: s in k.semas ==> (t in Sem(k, s).waiters <==> th.status == Blocked && th.mode == Downing(s)))
      && (t in k.destruction ==> th.status == Dying)
      && (th.status == Blocked && t != k.idle ==>
        t in k.sleepers || (th.mode.Downing? && t in Sem(k, th.mode.s).waiters))
  {
    RunKeepsInv(k0, es);
    var k := Run(k0, es);
    assert Has(k, t, Running) <==> t == k.current;
    assert ModeOk(k, t);
    forall s | s in k.semas ensures QueueOk(k, s, {}) {}
    assert t in k.sleepers <==> Has(k, t, Blocked) && At(k, t).mode == Asleep && t !in {};
    assert t in k.destruction ==> Has(k, t, Dying);
  }

  /** value + owners = 1, so no two threads are between acquire and release of one lock; a
      non-null holder is the single owner. */
  lemma MutualExclusion(k0: State, es: seq<Event>, l: nat)
    requires Inv(k0) && Legal(k0, es) && l in Run(k0, es).locks
    ensures
      var k := Run(k0, es);
      var lock := k.locks[l];
      && OfLock(l) in k.semas && k.semas[OfLock(l)].value + |lock.owners| == 1
      && (forall a, b :: a in lock.owners && b in lock.owners ==> a == b)
      && (lock.holder != None ==> lock.owners == {lock.holder.value})
  {
    RunKeepsInv(k0, es);
    var k := Run(k0, es);
    assert LockOk(k, l);
    var owners := k.locks[l].owners;
    forall a, b | a in owners && b in owners ensures a == b {
      assert |{a}| == 1 && {a} <= owners;
      if owners != {a} { SubsetIsSmaller({a}, owners); }
    }
  }

  lemma SubsetIsSmaller(a: set<Tid>, b: set<Tid>)
    requires a < b
    ensures |a| < |b|
  {
    var x :| x in b && x !in a;
    assert a <= b - {x};
    CardinalityMonotone(a, b - {x});
  }

  lemma {:induction false} CardinalityMonotone(a: set<Tid>, b: set<Tid>)
    requires a <= b
    ensures |a| <= |b|
  {
    if x :| x in a {
      CardinalityMonotone(a - {x}, b - {x});
    }
  }

  /** While anybody waits, at least "value" woken threads are on their way to test the value; each
      of them is READY or RUNNING.  So value and waiters cannot be left facing each other. */
  lemma NoLostWakeup(k0: State, es: seq<Event>, s: SemaId)
    requires Inv(k0) && Legal(k0, es) && s in Run(k0, es).semas && Run(k0, es).semas[s].waiters != []
    ensures
      var (k, sema) := (Run(k0, es), Run(k0, es).semas[s]);
      && sema.value <= |sema.woken|
      && (forall t :: t in sema.woken ==>
            t in k.threads && k.threads[t].mode == Downing(s) && (t == k.current || t in k.ready))
      && (sema.value > 0 ==> exists t :: t in sema.woken)
  {
    RunKeepsInv(k0, es);
    var (k, sema) := (Run(k0, es), Run(k0, es).semas[s]);
    assert SemaOk(k, s);
    forall t | t in sema.woken
      ensures t in k.threads && k.threads[t].mode == Downing(s) && (t == k.current || t in k.ready)
    {
      assert InLoop(k, t, s);
      assert ModeOk(k, t) && (Has(k, t, Running) <==> t == k.current);
      assert k.idle in k.threads && k.threads[k.idle].mode == Free;
    }
    if sema.value > 0 { var t :| t in sema.woken; }
  }

  // ---------- conservation ----------

  /** The event completes a down of the semaphore. */
  ghost predicate Completes(k: State, e: Event, s: SemaId) {
    && Sem(k, s).value > 0
    && (match s
        case Plain(n) => e == SemaDown(n) || e == SemaTryDown(n) || (e == Retest && At(k, k.current).mode == Downing(s))
        case OfLock(l) =>
          e == LockAcquire(l) || e == LockTryAcquire(l) || (e == Retest && At(k, k.current).mode == Downing(s)))
  }

  /** The event is an up of the semaphore. */
  ghost predicate Raises(k: State, e: Event, s: SemaId) {
    match s
    case Plain(n) => e == SemaUp(n)
    case OfLock(l) => e == LockUp && At(k, k.current).mode == Leaving(l)
  }

  ghost function UpsOf(k: State, es: seq<Event>, s: SemaId): nat
    decreases |es|
  {
    if es == [] then 0
    else (if Raises(k, es[0], s) then 1 else 0) + UpsOf(Apply(k, es[0]), es[1..], s)
  }

  ghost function DownsOf(k: State, es: seq<Event>, s: SemaId): nat
    decreases |es|
  {
    if es == [] then 0
    else (if Completes(k, es[0], s) then 1 else 0) + DownsOf(Apply(k, es[0]), es[1..], s)
  }

  lemma {:induction false} WakeSleepersLeaves(k: State)
    ensures
      var k' := WakeSleepers(k);
      k'.semas == k.semas && k'.ticks == k.ticks && k'.raised <= k.raised
    decreases |k.sleepers|
  {
    if k.sleepers != [] && At(k, k.sleepers[0]).wakeupTick <= k.ticks { WakeSleepersLeaves(WakeOne(k)); }
  }

  lemma PreemptLeaves(k: State)
    ensures Preempt(k).semas == k.semas && Preempt(k).ticks == k.ticks && Preempt(k).raised <= k.raised
  {
  }

  lemma UpLeavesCounters(k: State, s: SemaId)
    ensures Up(k, s).ticks == k.ticks && Up(k, s).raised <= k.raised
  {
  }

  lemma DownCounts(k: State, r: SemaId, s: SemaId)
    requires r in k.semas && s in k.semas
    ensures s in Down(k, r).semas
    ensures Sem(Down(k, r), s).value == Sem(k, s).value - (if r == s && Sem(k, s).value > 0 then 1 else 0)
  {
    if Sem(k, r).value > 0 { TookLeaves(Take(k, r), r); }
  }

  lemma DownLeavesCounters(k: State, s: SemaId)
    ensures Down(k, s).ticks == k.ticks && Down(k, s).raised <= k.raised
  {
    TookLeaves(Take(k, s), s);
  }

  /** How one step changes the value of a semaphore. */
  ghost predicate Counted(k: State, e: Event, s: SemaId) {
    && s in Apply(k, e).semas
    && Sem(Apply(k, e), s).value == Sem(k, s).value +
      (if Raises(k, e, s) then 1 else 0) - (if Completes(k, e, s) then 1 else 0)
  }

  lemma SemaUpCounts(k: State, m: nat, s: SemaId)
    requires Lists(k, {}) && Plain(m) in k.semas && s in k.semas
    ensures Counted(k, SemaUp(m), s)
  {
    UpLeaves(k, Plain(m));
    PreemptLeaves(Up(k, Plain(m)));
  }

  /** The owner lets go, and the value of its lock's semaphore alone is raised. */
  lemma LockUpRaises(k: State, r: SemaId)
    requires Inv(k) && At(k, k.current).mode.Leaving? && r == OfLock(At(k, k.current).mode.lock)
    ensures r in k.semas && Up(LetGo(k), r).semas.Keys == k.semas.Keys
    ensures Sem(Up(LetGo(k), r), r).value == Sem(k, r).value + 1
    ensures forall s :: s in k.semas && s != r ==> Sem(Up(LetGo(k), r), s) == Sem(k, s)
  {
    assert Has(k, k.current, Running) && InTransit(k, r.l, k.current);
    LetGoKeepsTheRest(k);
    UpLeaves(LetGo(k), r);
  }

  lemma LockUpSemas(k: State, r: SemaId)
    requires At(k, k.current).mode.Leaving? && r == OfLock(At(k, k.current).mode.lock)
    ensures Apply(k, LockUp).semas == Up(LetGo(k), r).semas
  {
    PreemptLeaves(Up(LetGo(k), r));
  }

  lemma LockUpCounts(k: State, s: SemaId)
    requires Inv(k) && At(k, k.current).mode.Leaving? && s in k.semas
    ensures Counted(k, LockUp, s)
  {
    var r := OfLock(At(k, k.current).mode.lock);
    LockUpRaises(k, r);
    LockUpSemas(k, r);
    assert Raises(k, LockUp, s) <==> s == r;
  }

  /** Time stands still, and no READY thread is raised. */
  ghost predicate SameCounters(k: State, k': State) {
    k'.ticks == k.ticks && k'.raised <= k.raised
  }

  lemma LeaveStepLeaves(k: State, e: Event)
    requires LeavesCpu(e)
    ensures Apply(k, e).semas == k.semas && SameCounters(k, Apply(k, e))
  {
  }

  lemma ThreadStepLeaves(k: State, e: Event)
    requires !IsSynch(e) && !LeavesCpu(e)
    ensures Apply(k, e).semas == k.semas && Apply(k, e).ticks == k.ticks + (if e == Tick then 1 else 0)
    ensures Apply(k, e).raised <= k.raised + (if e.Donate? && e.t in k.ready then {e.t} else {})
  {
    match e
    case Tick => WakeSleepersLeaves(k.(ticks := k.ticks + 1));
    case Create(t, p) => PreemptLeaves(Unblock(Put(k, t, Thread(Blocked, p, 0, Free, 0, 0)), t));
    case SetPriority(p) => PreemptLeaves(Put(k, k.current, At(k, k.current).(priority := p)));
    case Donate(_, _) =>
  }

  lemma SynchStepLeaves(k: State, e: Event)
    requires IsSynch(e)
    ensures SameCounters(k, Apply(k, e))
  {
    match e
    case SemaDown(n) => DownLeavesCounters(k, Plain(n));
    case SemaTryDown(n) => DownLeavesCounters(k, Plain(n));
    case LockAcquire(l) => DownLeavesCounters(k, OfLock(l));
    case LockTryAcquire(l) => DownLeavesCounters(k, OfLock(l));
    case Retest => if At(k, k.current).mode.Downing? { DownLeavesCounters(k, At(k, k.current).mode.s); }
    case SemaUp(n) => RaiseLeavesCounters(k, Plain(n));
    case LockUp =>
      if At(k, k.current).mode.Leaving? { RaiseLeavesCounters(LetGo(k), OfLock(At(k, k.current).mode.lock)); }
    case _ =>
  }

  lemma RaiseLeavesCounters(k: State, s: SemaId)
    ensures SameCounters(k, Preempt(Up(k, s)))
  {
    UpLeavesCounters(k, s);
    PreemptLeaves(Up(k, s));
  }

  lemma StepTicks(k: State, e: Event)
    ensures Apply(k, e).ticks == k.ticks + (if e == Tick then 1 else 0)
    ensures Apply(k, e).raised <= k.raised + (if e.Donate? && e.t in k.ready then {e.t} else {})
  {
    if IsSynch(e) {
      SynchStepLeaves(k, e);
    } else if LeavesCpu(e) {
      LeaveStepLeaves(k, e);
    } else {
      ThreadStepLeaves(k, e);
    }
  }

  lemma CurrentIsThere(k: State)
    requires OneRunning(k)
    ensures k.current in k.threads
  {
    assert Has(k, k.current, Running);
  }

  lemma StepCounts(k: State, e: Event, s: SemaId)
    requires Inv(k) && Enabled(k, e) && s in k.semas
    ensures Counted(k, e, s)
  {
    CurrentIsThere(k);
    if e.SemaUp? {
      SemaUpCounts(k, e.n, s);
    } else if e == LockUp {
      LockUpCounts(k, s);
    } else if IsDown(e) {
      DownStepCounts(k, e, s);
    } else if IsSynch(e) {
      HolderStepCounts(k, e, s);
    } else {
      ThreadStepCounts(k, e, s);
    }
  }

  lemma ThreadStepCounts(k: State, e: Event, s: SemaId)
    requires !IsSynch(e) && s in k.semas
    ensures Counted(k, e, s)
  {
    if LeavesCpu(e) { LeaveStepLeaves(k, e); } else { ThreadStepLeaves(k, e); }
  }

  ghost predicate IsDown(e: Event) {
    e.SemaDown? || e.SemaTryDown? || e.LockAcquire? || e.LockTryAcquire? || e.Retest?
  }

  lemma DownStepCounts(k: State, e: Event, s: SemaId)
    requires ModesOk(k, {}) && LocksOk(k) && k.current in k.threads && Enabled(k, e) && s in k.semas && IsDown(e)
    ensures Counted(k, e, s)
  {
    match e
    case SemaDown(m) => DownCounts(k, Plain(m), s);
    case SemaTryDown(m) => DownCounts(k, Plain(m), s);
    case Retest =>
      assert ModeOk(k, k.current);
      DownCounts(k, At(k, k.current).mode.s, s);
    case LockAcquire(l) => DownCounts(k, OfLock(l), s);
    case LockTryAcquire(l) => DownCounts(k, OfLock(l), s);
  }

  lemma HolderStepCounts(k: State, e: Event, s: SemaId)
    requires Enabled(k, e) && s in k.semas && (e == SetHolder || e.ClearHolder? || e.SemaInit?)
    ensures Counted(k, e, s)
  {
  }

  /** value = initial + ups - completed downs, over every run, for the semaphores in locks too. */
  lemma {:induction false} Conservation(k: State, es: seq<Event>, s: SemaId)
    requires Inv(k) && Legal(k, es) && s in k.semas
    ensures s in Run(k, es).semas
    ensures Run(k, es).semas[s].value == k.semas[s].value + UpsOf(k, es, s) - DownsOf(k, es, s)
    decreases |es|
  {
    if es != [] {
      StepKeepsInv(k, es[0]);
      StepCounts(k, es[0], s);
      Conservation(Apply(k, es[0]), es[1..], s);
    }
  }

  // ---------- exact wake-up ----------

  ghost predicate StillAsleep(k: State, k': State, t: Tid) {
    t in k'.sleepers && At(k', t).wakeupTick == At(k, t).wakeupTick && At(k', t).sleptAt == At(k, t).sleptAt
  }

  lemma ScheduleLeavesSleepers(k: State, t: Tid)
    requires Scheduling(k) && t in k.sleepers
    ensures StillAsleep(k, Schedule(k), t)
  {
    if k.ready != [] { assert k.ready[0] in k.ready && Has(k, Next(k), Ready); }
    assert Has(k, t, Blocked) && At(k, t).mode == Asleep;
  }

  lemma PreemptLeavesSleepers(k: State, t: Tid)
    requires Inv(k) && t in k.sleepers
    ensures StillAsleep(k, Yield(k), t) && StillAsleep(k, Preempt(k), t)
  {
    var k' := YieldPrepares(k);
    assert Has(k, k.current, Running) && Has(k, t, Blocked);
    assert t in k.destruction ==> Has(k, t, Dying);
    ScheduleLeavesSleepers(k', t);
  }

  lemma UpLeavesSleepers(k: State, s: SemaId, t: Tid)
    requires Lists(k, {}) && s in k.semas && t in k.sleepers
    ensures StillAsleep(k, Up(k, s), t)
  {
    UpLeaves(k, s);
    if Sem(k, s).waiters != [] {
      assert QueueOk(k, s, {});
      var u, rest := UpPicks(k, s);
      assert At(k, t).mode == Asleep;
    }
  }

  lemma DownLeavesSleepers(k: State, s: SemaId, t: Tid)
    requires Inv(k) && k.current != k.idle && s in k.semas && t in k.sleepers
    ensures StillAsleep(k, Down(k, s), t)
  {
    assert Has(k, k.current, Running) && Has(k, t, Blocked);
    if Sem(k, s).value == 0 {
      var k1 := Queue(k, s);
      QueueKeepsLists(k, s);
      ScheduleLeavesSleepers(Put(k1, k.current, At(k1, k.current).(status := Blocked, mode := Downing(s))), t);
    } else {
      TookLeaves(Take(k, s), s);
    }
  }

  lemma SleepUntilLeavesSleepers(k: State, tick: int, t: Tid)
    requires Inv(k) && k.current != k.idle && t in k.sleepers
    ensures StillAsleep(k, Block(GoToBed(k, tick), Asleep), t)
  {
    var (c, k1) := (k.current, GoToBed(k, tick));
    assert Has(k, c, Running) && Has(k, t, Blocked);
    InsertedMembers(ByWakeup(Put(k, c, At(k, c).(wakeupTick := tick, sleptAt := k.ticks))), k.sleepers, c);
    SleepKeepsLists(k, tick);
    ScheduleLeavesSleepers(Put(k1, c, At(k1, c).(status := Blocked, mode := Asleep)), t);
  }

  lemma IdleBlockLeavesSleepers(k: State, t: Tid)
    requires Inv(k) && k.current == k.idle && t in k.sleepers
    ensures StillAsleep(k, Block(k, Free), t)
  {
    var c := k.current;
    assert Has(k, c, Running) && Has(k, t, Blocked);
    IdleBlockKeepsLists(k);
    ScheduleLeavesSleepers(Put(k, c, At(k, c).(status := Blocked, mode := Free)), t);
  }

  lemma CreateLeavesSleepers(k: State, u: Tid, p: int, t: Tid)
    requires Inv(k) && u !in k.threads && t in k.sleepers
    ensures StillAsleep(k, Preempt(Unblock(Put(k, u, Thread(Blocked, p, 0, Free, 0, 0)), u)), t)
  {
    var k2 := Unblock(Put(k, u, Thread(Blocked, p, 0, Free, 0, 0)), u);
    CreateUnblocks(k, u, p);
    assert Has(k, t, Blocked) && t != u && StillAsleep(k, k2, t);
    PreemptLeavesSleepers(k2, t);
  }

  lemma SetPriorityLeavesSleepers(k: State, p: int, t: Tid)
    requires Inv(k) && t in k.sleepers
    ensures StillAsleep(k, Preempt(Put(k, k.current, At(k, k.current).(priority := p))), t)
  {
    var (c, k1) := (k.current, Put(k, k.current, At(k, k.current).(priority := p)));
    assert Has(k, c, Running) && c !in k.ready;
    RetouchKeepsInv(k, c, At(k, c).(priority := p));
    PreemptLeavesSleepers(k1, t);
  }

  lemma SemaUpLeavesSleepers(k: State, n: nat, t: Tid)
    requires Inv(k) && Plain(n) in k.semas && t in k.sleepers
    ensures StillAsleep(k, Preempt(Up(k, Plain(n))), t)
  {
    UpLeavesSleepers(k, Plain(n), t);
    UpKeepsTheRest(k, Plain(n));
    UpLeaves(k, Plain(n));
    LocksFrame(k, Up(k, Plain(n)));
    PreemptLeavesSleepers(Up(k, Plain(n)), t);
  }

  lemma LockUpLeavesSleepers(k: State, t: Tid)
    requires Inv(k) && At(k, k.current).mode.Leaving? && t in k.sleepers
    ensures StillAsleep(k, Preempt(Up(LetGo(k), OfLock(At(k, k.current).mode.lock))), t)
  {
    var (c, s) := (k.current, OfLock(At(k, k.current).mode.lock));
    assert Has(k, c, Running) && InTransit(k, s.l, c);
    LetGoKeepsTheRest(k);
    UpLeavesSleepers(LetGo(k), s, t);
    UpKeepsTheRest(LetGo(k), s);
    LockUpKeepsLocks(k);
    PreemptLeavesSleepers(Up(LetGo(k), s), t);
  }

  lemma ExitLeavesSleepers(k: State, t: Tid)
    requires Inv(k) && k.current != k.idle && At(k, k.current).mode == Free && t in k.sleepers
    ensures StillAsleep(k, DoSchedule(k, Dying), t)
  {
    var k' := ExitPrepares(k);
    ScheduleLeavesSleepers(k', t);
  }

  lemma ThreadStepLeavesSleepers(k: State, e: Event, t: Tid)
    requires Inv(k) && Enabled(k, e) && e != Tick && !IsSynch(e) && t in k.sleepers
    ensures StillAsleep(k, Apply(k, e), t)
  {
    match e
    case TimeSlice => PreemptLeavesSleepers(k, t);
    case IdleBlock => IdleBlockLeavesSleepers(k, t);
    case SleepUntil(tick) => SleepUntilLeavesSleepers(k, tick, t);
    case Create(u, p) => CreateLeavesSleepers(k, u, p, t);
    case Exit => ExitLeavesSleepers(k, t);
    case SetPriority(p) => SetPriorityLeavesSleepers(k, p, t);
    case Donate(_, _) =>
  }

  lemma SynchStepLeavesSleepers(k: State, e: Event, t: Tid)
    requires Inv(k) && Enabled(k, e) && IsSynch(e) && t in k.sleepers
    ensures StillAsleep(k, Apply(k, e), t)
  {
    match e
    case SemaDown(n) => DownLeavesSleepers(k, Plain(n), t);
    case SemaTryDown(n) => if Sem(k, Plain(n)).value > 0 { TryDownLeavesSleepers(k, Plain(n), t); }
    case SemaUp(n) => SemaUpLeavesSleepers(k, n, t);
    case Retest => RetestLeavesSleepers(k, t);
    case LockAcquire(l) => DownLeavesSleepers(k, OfLock(l), t);
    case LockTryAcquire(l) => if Sem(k, OfLock(l)).value > 0 { TryDownLeavesSleepers(k, OfLock(l), t); }
    case LockUp => LockUpLeavesSleepers(k, t);
    case _ => RunningIsAwake(k, t);
  }

  /** Nobody but the timer takes a thread off the sleep list. */
  lemma OnlyTicksWakeSleepers(k: State, e: Event, t: Tid)
    requires Inv(k) && Enabled(k, e) && e != Tick && t in k.sleepers
    ensures StillAsleep(k, Apply(k, e), t)
  {
    if IsSynch(e) { SynchStepLeavesSleepers(k, e, t); } else { ThreadStepLeavesSleepers(k, e, t); }
  }

  lemma RunningIsAwake(k: State, t: Tid)
    requires Inv(k) && t in k.sleepers
    ensures t != k.current
  {
    assert Has(k, k.current, Running) && Has(k, t, Blocked);
  }

  lemma TryDownLeavesSleepers(k: State, s: SemaId, t: Tid)
    requires Inv(k) && s in k.semas && Sem(k, s).value > 0 && t in k.sleepers
    ensures StillAsleep(k, Down(k, s), t)
  {
    RunningIsAwake(k, t);
    TookLeaves(Take(k, s), s);
  }

  lemma RetestLeavesSleepers(k: State, t: Tid)
    requires Inv(k) && At(k, k.current).mode.Downing? && t in k.sleepers
    ensures StillAsleep(k, Down(k, At(k, k.current).mode.s), t)
  {
    assert Has(k, k.current, Running) && ModeOk(k, k.current);
    assert k.idle in k.threads && k.threads[k.idle].mode == Free;
    DownLeavesSleepers(k, At(k, k.current).mode.s, t);
  }

  lemma StepWhileAsleep(k: State, e: Event, t: Tid)
    requires Inv(k) && Enabled(k, e) && t in k.sleepers
    ensures Inv(Apply(k, e)) && k.ticks < DueTick(At(k, t))
    ensures
      if e == Tick && DueTick(At(k, t)) == k.ticks + 1
      then Has(Apply(k, e), t, Ready) && Apply(k, e).ticks == DueTick(At(k, t))
      else StillAsleep(k, Apply(k, e), t) && Apply(k, e).ticks < DueTick(At(k, t))
  {
    StepKeepsInv(k, e);
    StepTicks(k, e);
    if e == Tick { TickWhileAsleep(k, t); } else { OnlyTicksWakeSleepers(k, e, t); }
  }

  lemma TickWhileAsleep(k: State, t: Tid)
    requires Inv(k) && t in k.sleepers
    ensures
      if DueTick(At(k, t)) == k.ticks + 1 then Has(Apply(k, Tick), t, Ready)
      else StillAsleep(k, Apply(k, Tick), t) && k.ticks + 1 < DueTick(At(k, t))
  {
    var k1 := k.(ticks := k.ticks + 1);
    TickStarts(k);
    WakeSleepersWakes(k1, t);
    assert At(k1, t) == At(k, t);
  }

  lemma {:induction false} TicksOnlyGrow(k: State, es: seq<Event>)
    requires Inv(k) && Legal(k, es)
    ensures Run(k, es).ticks >= k.ticks
    decreases |es|
  {
    if es != [] {
      StepKeepsInv(k, es[0]);
      StepTicks(k, es[0]);
      TicksOnlyGrow(Apply(k, es[0]), es[1..]);
    }
  }

  ghost predicate AsleepBefore(k: State, es: seq<Event>, i: nat, t: Tid)
    requires i <= |es|
  {
    forall j :: 0 <= j < i ==> t in Run(k, es[..j]).sleepers
  }

  /** A thread that went to sleep at tick s until tick w is taken off the sleep list by the timer
      interrupt of tick max(w, s + 1), not earlier and not later. */
  lemma {:induction false} WokenExactlyWhenDue(k: State, es: seq<Event>, t: Tid) returns (i: nat)
    requires Inv(k) && Legal(k, es) && t in k.sleepers
    ensures i <= |es| && AsleepBefore(k, es, i, t)
    ensures if Run(k, es).ticks < DueTick(At(k, t)) then i == |es| && t in Run(k, es).sleepers
            else WokenBy(k, es, i, t, DueTick(At(k, t)))
    decreases |es|
  {
    if es == [] {
      i := 0;
      StepWhileAsleepBound(k, t);
    } else if es[0] == Tick && DueTick(At(k, t)) == k.ticks + 1 {
      i := 1;
      WokenNow(k, es, t);
    } else {
      StepWhileAsleep(k, es[0], t);
      var i1 := WokenExactlyWhenDue(Apply(k, es[0]), es[1..], t);
      i := i1 + 1;
      RunPrefix(k, es, i, t, DueTick(At(k, t)));
    }
  }

  lemma WokenNow(k: State, es: seq<Event>, t: Tid)
    requires Inv(k) && Legal(k, es) && t in k.sleepers && es != [] && es[0] == Tick && DueTick(At(k, t)) == k.ticks + 1
    ensures AsleepBefore(k, es, 1, t) && WokenBy(k, es, 1, t, DueTick(At(k, t)))
      && Run(k, es).ticks >= DueTick(At(k, t))
  {
    StepWhileAsleep(k, Tick, t);
    TicksOnlyGrow(Apply(k, Tick), es[1..]);
    RunPrefix(k, es, 1, t, DueTick(At(k, t)));
  }

  /** The i-th event of the run is the timer interrupt of tick "due", and it wakes "t". */
  ghost predicate WokenBy(k: State, es: seq<Event>, i: nat, t: Tid, due: int)
    requires i <= |es|
  {
    0 < i && es[i - 1] == Tick && Run(k, es[..i]).ticks == due && Has(Run(k, es[..i]), t, Ready)
  }

  lemma StepWhileAsleepBound(k: State, t: Tid)
    requires Sleepers(k) && t in k.sleepers
    ensures k.ticks < DueTick(At(k, t))
  {
  }

  lemma RunPrefix(k: State, es: seq<Event>, i: nat, t: Tid, due: int)
    requires 0 < i <= |es|
    ensures t in k.sleepers && AsleepBefore(Apply(k, es[0]), es[1..], i - 1, t) ==> AsleepBefore(k, es, i, t)
    ensures WokenBy(Apply(k, es[0]), es[1..], i - 1, t, due) ==> WokenBy(k, es, i, t, due)
    ensures
      var k1 := Apply(k, es[0]);
      i == 1 && es[0] == Tick && k1.ticks == due && Has(k1, t, Ready) ==> WokenBy(k, es, i, t, due)
  {
    assert es[..i][1..] == es[1..][..i - 1];
    assert es[..0] == [];
    forall j | 0 < j < i ensures Run(k, es[..j]) == Run(Apply(k, es[0]), es[1..][..j - 1]) {
      assert es[..j][1..] == es[1..][..j - 1];
    }
  }

  // ---------- who runs next ----------

  /** The thread picked to run next is not below any READY thread that has not been raised since it was put
      on the list; and it has waited longer than those it ties with, if it was not raised itself. */
  lemma NextIsMaximal(k0: State, es: seq<Event>)
    requires Inv(k0) && Legal(k0, es) && Run(k0, es).ready != []
    ensures
      var k := Run(k0, es);
      && Next(k) in k.ready
      && (forall t :: t in k.ready && t !in k.raised ==> At(k, t).priority <= At(k, Next(k)).priority)
      && (forall t :: t in k.ready && t != Next(k) && At(k, t).priority == At(k, Next(k)).priority
                      && t !in k.raised && Next(k) !in k.raised ==>
            At(k, Next(k)).arrived < At(k, t).arrived)
  {
    RunKeepsInv(k0, es);
    var k := Run(k0, es);
    forall t | t in k.ready && t != Next(k) ensures Ahead(k, Next(k), t) {
      var i :| 0 <= i < |k.ready| && k.ready[i] == t;
      assert Ahead(k, k.ready[0], k.ready[i]);
    }
  }

  /** In every run the READY threads that have not been raised since they were put on the list stay in order
      among themselves: by priority, and by arrival where that is equal. */
  lemma UnraisedStayInOrder(k0: State, es: seq<Event>, i: nat, j: nat)
    requires Inv(k0) && Legal(k0, es) && i < j < |Run(k0, es).ready|
    requires Run(k0, es).ready[i] !in Run(k0, es).raised && Run(k0, es).ready[j] !in Run(k0, es).raised
    ensures Before(Run(k0, es), Run(k0, es).ready[i], Run(k0, es).ready[j])
  {
    RunKeepsInv(k0, es);
    var k := Run(k0, es);
    assert Ahead(k, k.ready[i], k.ready[j]);
  }

  /** Who counts as raised: somebody whose priority was changed in the run while it was READY. */
  lemma {:induction false} RaisedWasDonatedTo(k: State, es: seq<Event>, t: Tid) returns (i: nat)
    requires t in Run(k, es).raised && t !in k.raised
    ensures i < |es| && es[i].Donate? && es[i].t == t && t in Run(k, es[..i]).ready
    decreases |es|
  {
    if es != [] {
      StepTicks(k, es[0]);
      if t in Apply(k, es[0]).raised {
        i := 0;
        assert es[..0] == [];
      } else {
        var i1 := RaisedWasDonatedTo(Apply(k, es[0]), es[1..], t);
        i := i1 + 1;
        assert es[..i][1..] == es[1..][..i1];
      }
    }
  }

  /** No READY thread is above "top", other than one that was raised where it stands. */
  ghost predicate NoneAbove(k: State, top: Tid) {
    forall t :: t in k.ready && t !in k.raised ==> At(k, t).priority <= At(k, top).priority
  }

  /** Once check_and_preempt has been through, no READY thread is above the running one, unless it was raised
      where it stands. */
  lemma PreemptedIsMaximal(k: State)
    requires Inv(k) && k.current != k.idle
    ensures NoneAbove(Preempt(k), Preempt(k).current)
  {
    if k.ready != [] {
      HeadIsMaximal(k);
      if At(k, k.current).priority < At(k, k.ready[0]).priority { YieldRunsHead(k); }
    }
  }

  lemma HeadIsMaximal(k: State)
    requires InOrder(k) && k.ready != []
    ensures NoneAbove(k, k.ready[0])
  {
    forall t | t in k.ready && t !in k.raised ensures At(k, t).priority <= At(k, k.ready[0]).priority {
      var i :| 0 <= i < |k.ready| && k.ready[i] == t;
      if i > 0 { assert Ahead(k, k.ready[0], k.ready[i]); }
    }
  }

  /** A thread that yields to a higher one hands over to the head of the list. */
  lemma YieldRunsHead(k: State)
    requires Inv(k) && k.current != k.idle && k.ready != []
    requires At(k, k.current).priority < At(k, k.ready[0]).priority
    ensures NoneAbove(Yield(k), Yield(k).current)
  {
    var k1 := YieldPrepares(k);
    HeadIsAbove(k, k1);
    HeadRuns(k1);
  }

  lemma HeadIsAbove(k: State, k1: State)
    requires Lists(k, {}) && OneRunning(k) && InOrder(k) && YieldReady(k, k1) && k.current != k.idle && k.ready != []
    requires At(k, k.current).priority < At(k, k.ready[0]).priority
    ensures k1.ready != [] && NoneAbove(k1, k1.ready[0])
  {
    assert Has(k, k.current, Running) && k.ready[0] in k.ready && Has(k, k.ready[0], Ready);
    HeadIsMaximal(k);
    InsertedMembers(ByPriority(k), k.ready, k.current);
    ReadySurvives(k, k1);
  }

  lemma ReadySurvives(k: State, k1: State)
    requires Lists(k, {}) && YieldReady(k, k1)
    ensures forall t :: t in k.ready && t != k.current ==> At(k1, t) == At(k, t)
  {
    forall t | t in k.ready ensures t !in k.destruction { assert t in k.destruction ==> Has(k, t, Dying); }
  }

  lemma HeadRuns(k: State)
    requires k.ready != [] && NoneAbove(k, k.ready[0])
    ensures NoneAbove(Schedule(k), Schedule(k).current)
  {
  }

  ghost predicate NextIsHighest(k: State)
    requires k.ready != []
  {
    forall t :: t in k.ready ==> At(k, t).priority <= At(k, Next(k)).priority
  }

  /** Exactly when a donation to a READY thread leaves the next one highest: the first of the list must not fall
      below the second, nor another rise above the first. */
  lemma DonationKeepsNextExactly(k: State, i: nat, p: int)
    requires Inv(k) && k.raised == {} && i < |k.ready|
    ensures
      var (q, k') := (k.ready, Apply(k, Donate(k.ready[i], p)));
      NextIsHighest(k') <==>
        (i == 0 && |q| > 1 ==> p >= At(k, q[1]).priority) && (i > 0 ==> p <= At(k, q[0]).priority)
  {
    var (q, k') := (k.ready, Apply(k, Donate(k.ready[i], p)));
    forall j | 0 <= j < |q| ensures 0 < j ==> Ahead(k, q[0], q[j]) && q[0] != q[j] {}
    forall j | 1 < j < |q| ensures Ahead(k, q[1], q[j]) {}
    if NextIsHighest(k') {
      assert q[i] in k'.ready && (|q| > 1 ==> q[1] in k'.ready);
    } else {
      var t :| t in k'.ready && At(k', t).priority > At(k', q[0]).priority;
      var j :| 0 <= j < |q| && q[j] == t;
    }
  }

  ghost predicate ReadyIsOrdered(k: State) {
    forall i, j :: 0 <= i < j < |k.ready| ==> Before(k, k.ready[i], k.ready[j])
  }

  /** Exactly when a donation to a READY thread leaves the whole list in order: when the thread still
      belongs between its neighbours. */
  lemma DonationKeepsOrderExactly(k: State, i: nat, p: int)
    requires ReadyIsOrdered(k) && NoDup(k.ready) && i < |k.ready|
    ensures
      var k' := Apply(k, Donate(k.ready[i], p));
      ReadyIsOrdered(k') <==>
        (i > 0 ==> Before(k', k.ready[i - 1], k.ready[i]))
          && (i + 1 < |k.ready| ==> Before(k', k.ready[i], k.ready[i + 1]))
  {
    var (q, k') := (k.ready, Apply(k, Donate(k.ready[i], p)));
    if (i > 0 ==> Before(k', q[i - 1], q[i])) && (i + 1 < |q| ==> Before(k', q[i], q[i + 1])) {
      forall a, b | 0 <= a < b < |q| ensures Before(k', q[a], q[b]) {
        assert Before(k, q[a], q[b]) && (a < i - 1 ==> Before(k, q[a], q[i - 1]))
          && (i + 1 < b ==> Before(k, q[i + 1], q[b]));
      }
    }
  }

  /** sema_up picks a waiter of maximal priority, even where donation has changed priorities since
      the waiters were queued: it sorts first. */
  lemma UpWakesMaximal(k: State, s: SemaId) returns (t: Tid)
    requires Lists(k, {}) && s in k.semas && Sem(k, s).waiters != []
    ensures t in Sem(k, s).waiters && Has(Up(k, s), t, Ready)
    ensures forall u :: u in Sem(k, s).waiters ==> At(k, u).priority <= At(k, t).priority
    ensures forall u :: u in Sem(Up(k, s), s).waiters <==> u in Sem(k, s).waiters && u != t
  {
    assert QueueOk(k, s, {});
    var rest;
    t, rest := UpPicks(k, s);
    FirstIsMaximal(k, Sem(k, s).waiters);
  }

  /** The first of a sorted list has maximal priority. */
  lemma FirstIsMaximal(k: State, q: seq<Tid>)
    requires q != []
    ensures
      var sorted := InsertionSort(ByPriority(k), q);
      sorted != [] && forall u :: u in q ==> At(k, u).priority <= At(k, sorted[0]).priority
  {
    var sorted := InsertionSort(ByPriority(k), q);
    InsertionSortStable(ByPriority(k), q);
    SortedMembers(ByPriority(k), q);
    forall u | u in q ensures At(k, u).priority <= At(k, sorted[0]).priority {
      assert u in sorted;
      var i :| 0 <= i < |sorted| && sorted[i] == u;
      if i > 0 { assert !ByPriority(k)(sorted[i], sorted[0]); }
    }
  }

  /** A run in which a thread of priority 40 takes a lock, drops to 10, and is then raised to 31 by
      main, which wants the lock: the donation does not move it, so a thread of priority 20 stays
      ahead of it. */
  ghost function InversionRun(): seq<Event> {
    [SemaInit(OfLock(0), 1), Create(2, 40), LockAcquire(0), SetHolder, SetPriority(10), Create(3, 20), Donate(2, 31)]
  }

  /** Two threads besides idle (1): 0 with priority 31, 2 with priority "p". */
  ghost function Scene(current: Tid, s0: Status, a0: nat, th2: Thread, ready: seq<Tid>, value: nat, downs: nat,
      lock: Lock, clock: nat): State {
    State(map[0 := Thread(s0, 31, 0, Free, 0, a0), 1 := Thread(Blocked, 0, 0, Free, 0, 0), 2 := th2],
          current, 1, 0, ready, [], [], map[OfLock(0) := Sema(value, [], {}, 1, 0, downs)], map[0 := lock],
          0, clock, {})
  }

  lemma InversionBoots()
    ensures
      var k := Boot(0, 1, 31);
      Enabled(k, SemaInit(OfLock(0), 1))
      && Apply(k, SemaInit(OfLock(0), 1)) ==
           State(k.threads, 0, 1, 0, [], [], [], map[OfLock(0) := Sema(1, [], {}, 1, 0, 0)], map[0 := Lock(None, {})],
                 0, 0, {})
  {
  }

  lemma InversionCreates()
    ensures
      var k := Apply(Boot(0, 1, 31), SemaInit(OfLock(0), 1));
      Enabled(k, Create(2, 40)) &&
      Apply(k, Create(2, 40)) == Scene(2, Ready, 1, Thread(Running, 40, 0, Free, 0, 0), [0], 1, 0, Lock(None, {}), 2)
  {
    InversionBoots();
    var k := Apply(Boot(0, 1, 31), SemaInit(OfLock(0), 1));
    var k1 := Unblock(Put(k, 2, Thread(Blocked, 40, 0, Free, 0, 0)), 2);
    assert k1.ready == [2] && k1.threads[2] == Thread(Ready, 40, 0, Free, 0, 0) && k1.threads[0] == k.threads[0];
    var k2 := Enqueue(k1, 0);
    assert k2.ready == [2, 0] by { assert !ByPriority(k1)(0, 2) && [2][1..] == []; }
    assert Reap(k2).threads == k2.threads;
    assert Apply(k, Create(2, 40)).threads
        == Scene(2, Ready, 1, Thread(Running, 40, 0, Free, 0, 0), [0], 1, 0, Lock(None, {}), 2).threads;
  }

  lemma InversionLocks(k: State)
    requires k == Scene(2, Ready, 1, Thread(Running, 40, 0, Free, 0, 0), [0], 1, 0, Lock(None, {}), 2)
    ensures Enabled(k, LockAcquire(0))
    ensures Apply(k, LockAcquire(0)) ==
      Scene(2, Ready, 1, Thread(Running, 40, 0, Entering(0), 0, 0), [0], 0, 1, Lock(None, {2}), 2)
  {
    assert {} - {2} == {} && {} + {2} == {2};
    var (k1, k') := (Take(k, OfLock(0)), Apply(k, LockAcquire(0)));
    assert k1.semas == map[OfLock(0) := Sema(0, [], {}, 1, 0, 1)] && k'.locks == map[0 := Lock(None, {2})];
    assert k'.threads ==
      Scene(2, Ready, 1, Thread(Running, 40, 0, Entering(0), 0, 0), [0], 0, 1, Lock(None, {2}), 2).threads;
  }

  lemma InversionHolds(k: State)
    requires k == Scene(2, Ready, 1, Thread(Running, 40, 0, Entering(0), 0, 0), [0], 0, 1, Lock(None, {2}), 2)
    ensures Enabled(k, SetHolder)
    ensures Apply(k, SetHolder) ==
      Scene(2, Ready, 1, Thread(Running, 40, 0, Free, 0, 0), [0], 0, 1, Lock(Some(2), {2}), 2)
  {
  }

  lemma InversionDrops(k: State)
    requires k == Scene(2, Ready, 1, Thread(Running, 40, 0, Free, 0, 0), [0], 0, 1, Lock(Some(2), {2}), 2)
    ensures Enabled(k, SetPriority(10))
    ensures Apply(k, SetPriority(10)) ==
      Scene(0, Running, 1, Thread(Ready, 10, 0, Free, 0, 2), [2], 0, 1, Lock(Some(2), {2}), 3)
  {
    var k1 := Put(k, 2, k.threads[2].(priority := 10));
    var k2 := Enqueue(k1, 2);
    assert k2.ready == [0, 2];
    assert Reap(k2).threads == k2.threads;
    assert Apply(k, SetPriority(10)).threads
        == Scene(0, Running, 1, Thread(Ready, 10, 0, Free, 0, 2), [2], 0, 1, Lock(Some(2), {2}), 3).threads;
  }

  lemma InversionDonates(k: State)
    requires k == Scene(0, Running, 1, Thread(Ready, 10, 0, Free, 0, 2), [2], 0, 1, Lock(Some(2), {2}), 3)
    ensures
      var k' := Apply(k, Create(3, 20));
      Enabled(k, Create(3, 20)) && k'.ready == [3, 2] && k'.current == 0
      && At(k', 3).priority == 20 && 2 in k'.threads && At(k', 0).mode == Free && At(k', 2).priority == 10
  {
    var k1 := Put(k, 3, Thread(Blocked, 20, 0, Free, 0, 0));
    assert InsertOrdered(ByPriority(k1), [2], 3) == [3, 2];
  }

  ghost predicate Reaches(k: State, es: seq<Event>, k': State) {
    Legal(k, es) && Run(k, es) == k'
  }

  lemma FirstStep(k: State, e: Event, k1: State, es: seq<Event>, k': State)
    requires Enabled(k, e) && Apply(k, e) == k1 && Reaches(k1, es, k')
    ensures Reaches(k, [e] + es, k')
  {
    assert ([e] + es)[1..] == es;
  }

  /** The run once the lock is taken. */
  lemma InversionEnds(k3: State) returns (k: State)
    requires k3 == Scene(2, Ready, 1, Thread(Running, 40, 0, Entering(0), 0, 0), [0], 0, 1, Lock(None, {2}), 2)
    ensures Reaches(k3, [SetHolder] + ([SetPriority(10)] + ([Create(3, 20)] + ([Donate(2, 31)] + []))), k)
    ensures k.ready == [3, 2] && At(k, 3).priority == 20 && At(k, 2).priority == 31
  {
    var k4 := Scene(2, Ready, 1, Thread(Running, 40, 0, Free, 0, 0), [0], 0, 1, Lock(Some(2), {2}), 2);
    var k5 := Scene(0, Running, 1, Thread(Ready, 10, 0, Free, 0, 2), [2], 0, 1, Lock(Some(2), {2}), 3);
    var k6;
    k6, k := InversionRaises(k5);
    InversionDrops(k4);
    FirstStep(k4, SetPriority(10), k5, [Create(3, 20)] + ([Donate(2, 31)] + []), k);
    InversionHolds(k3);
    FirstStep(k3, SetHolder, k4, [SetPriority(10)] + ([Create(3, 20)] + ([Donate(2, 31)] + [])), k);
  }

  lemma InversionRaises(k5: State) returns (k6: State, k: State)
    requires k5 == Scene(0, Running, 1, Thread(Ready, 10, 0, Free, 0, 2), [2], 0, 1, Lock(Some(2), {2}), 3)
    ensures Reaches(k5, [Create(3, 20)] + ([Donate(2, 31)] + []), k)
    ensures k.ready == [3, 2] && At(k, 3).priority == 20 && At(k, 2).priority == 31
  {
    InversionDonates(k5);
    k6 := Apply(k5, Create(3, 20));
    k := Apply(k6, Donate(2, 31));
    FirstStep(k6, Donate(2, 31), k, [], k);
    FirstStep(k5, Create(3, 20), k6, [Donate(2, 31)] + [], k);
  }

  lemma InversionStarts(es: seq<Event>, k3: State, k: State)
    requires k3 == Scene(2, Ready, 1, Thread(Running, 40, 0, Entering(0), 0, 0), [0], 0, 1, Lock(None, {2}), 2)
    requires Reaches(k3, es, k)
    ensures Reaches(Boot(0, 1, 31), [SemaInit(OfLock(0), 1)] + ([Create(2, 40)] + ([LockAcquire(0)] + es)), k)
  {
    var k2 := Scene(2, Ready, 1, Thread(Running, 40, 0, Free, 0, 0), [0], 1, 0, Lock(None, {}), 2);
    InversionLocks(k2);
    FirstStep(k2, LockAcquire(0), k3, es, k);
    InversionCreates();
    var k1 := Apply(Boot(0, 1, 31), SemaInit(OfLock(0), 1));
    FirstStep(k1, Create(2, 40), k2, [LockAcquire(0)] + es, k);
    InversionBoots();
    FirstStep(Boot(0, 1, 31), SemaInit(OfLock(0), 1), k1, [Create(2, 40)] + ([LockAcquire(0)] + es), k);
  }

  lemma DonationBreaksOrder()
    ensures
      var (k0, es) := (Boot(0, 1, 31), InversionRun());
      var k := Run(k0, es);
      Legal(k0, es) && k.ready == [3, 2] && At(k, 3).priority == 20 && At(k, 2).priority == 31 && Next(k) == 3
  {
    var k3 := Scene(2, Ready, 1, Thread(Running, 40, 0, Entering(0), 0, 0), [0], 0, 1, Lock(None, {2}), 2);
    var es := [SetHolder] + ([SetPriority(10)] + ([Create(3, 20)] + ([Donate(2, 31)] + [])));
    var k := InversionEnds(k3);
    InversionStarts(es, k3, k);
    SevenEvents(InversionRun(), SemaInit(OfLock(0), 1), Create(2, 40), LockAcquire(0), SetHolder, SetPriority(10),
      Create(3, 20),
                Donate(2, 31));
    assert Reaches(Boot(0, 1, 31), InversionRun(), k);
  }

  lemma SevenEvents(es: seq<Event>, a: Event, b: Event, c: Event, d: Event, e: Event, f: Event, g: Event)
    requires es == [a, b, c, d, e, f, g]
    ensures es == [a] + ([b] + ([c] + ([d] + ([e] + ([f] + ([g] + []))))))
  {
  }
}
