/** What the steps of the scheduler machine do, seen from outside: who runs after a step, who has blocked and
    why, who has been woken, and what has changed of each thread, holder and value. */
module SchedulerEffects {
  import opened StableOrder
  import opened Scheduler
  import opened SchedulerSteps
  import opened SchedulerRuns
  import opened Sequences

  // ---------- what scheduling leaves alone ----------

  ghost predicate Alive(k: State, t: Tid) {
    t in k.threads && k.threads[t].status != Dying
  }

  /** What a thread is, apart from where it is scheduled. */
  datatype Core = Core(priority: int, wakeupTick: int, mode: Mode)

  ghost function CoreAt(k: State, t: Tid): Core {
    Core(At(k, t).priority, At(k, t).wakeupTick, At(k, t).mode)
  }

  /** Every thread that has not exited is there, and is what it was. */
  ghost predicate SameCores(k: State, k': State) {
    forall t :: Alive(k, t) ==> Alive(k', t) && CoreAt(k', t) == CoreAt(k, t)
  }

  lemma UnblockKeepsCores(k: State, t: Tid)
    ensures forall u :: CoreAt(Unblock(k, t), u) == CoreAt(k, u)
    ensures forall u :: Alive(k, u) || u == t ==> Alive(Unblock(k, t), u)
  {
  }

  lemma YieldReadyCore(k: State, k': State, t: Tid)
    requires Lists(k, {}) && OneRunning(k) && YieldReady(k, k') && Alive(k, t)
    ensures CoreAt(k', t) == CoreAt(k, t) && Alive(k', t)
  {
    assert t in k.destruction ==> Has(k, t, Dying);
    if t == k.current && t != k.idle { UnblockKeepsCores(k, t); }
  }

  lemma YieldKeepsCores(k: State)
    requires Lists(k, {}) && OneRunning(k)
    ensures SameCores(k, Yield(k))
  {
    var k' := YieldPrepares(k);
    forall t | Alive(k, t) ensures Alive(k', t) && CoreAt(k', t) == CoreAt(k, t) { YieldReadyCore(k, k', t); }
  }

  lemma PreemptKeepsCores(k: State)
    requires Lists(k, {}) && OneRunning(k)
    ensures SameCores(k, Preempt(k))
  {
    YieldKeepsCores(k);
  }

  lemma {:induction false} WakingKeepsCores(k: State, t: Tid)
    requires Alive(k, t)
    ensures Alive(WakeSleepers(k), t)
    ensures CoreAt(WakeSleepers(k), t).priority == CoreAt(k, t).priority
    ensures CoreAt(WakeSleepers(k), t).wakeupTick == CoreAt(k, t).wakeupTick
    ensures CoreAt(WakeSleepers(k), t).mode == CoreAt(k, t).mode || CoreAt(WakeSleepers(k), t).mode == Free
    decreases |k.sleepers|
  {
    if k.sleepers != [] && At(k, k.sleepers[0]).wakeupTick <= k.ticks {
      var u := k.sleepers[0];
      UnblockKeepsCores(Put(k, u, At(k, u).(mode := Free)).(sleepers := k.sleepers[1..]), u);
      WakingKeepsCores(WakeOne(k), t);
    }
  }

  /** The semaphore that a step tries to lower. */
  ghost function Target(k: State, e: Event): Option<SemaId> {
    match e
    case SemaDown(n) => Some(Plain(n))
    case SemaTryDown(n) => Some(Plain(n))
    case LockAcquire(l) => Some(OfLock(l))
    case LockTryAcquire(l) => Some(OfLock(l))
    case Retest => (match At(k, k.current).mode case Downing(s) => Some(s) case _ => None)
    case _ => None
  }

  ghost predicate Tries(e: Event) {
    e.SemaTryDown? || e.LockTryAcquire?
  }

  /** What the step makes of each thread. */
  ghost function After(k: State, e: Event, t: Tid): Core {
    var (was, mine) := (CoreAt(k, t), t == k.current);
    match e
    case Donate(u, p) => if t == u then was.(priority := p) else was
    case SetPriority(p) => if mine then was.(priority := p) else was
    case Tick => if t in k.sleepers && DueTick(At(k, t)) == k.ticks + 1 then was.(mode := Free) else was
    case SleepUntil(tick) => if mine then Core(was.priority, tick, Asleep) else was
    case SetHolder => if mine then was.(mode := Free) else was
    case ClearHolder(l) => if mine then was.(mode := Leaving(l)) else was
    case LockUp => if mine then was.(mode := Free) else was
    case _ =>
      if !mine || Target(k, e).None? then was
      else
        var s := Target(k, e).value;
        if Sem(k, s).value == 0 then if Tries(e) then was else was.(mode := Downing(s))
        else was.(mode := if s.Plain? then Free else Entering(s.l))
  }

  ghost predicate CoresAre(k: State, e: Event, k': State) {
    forall t :: Alive(k, t) && (e == Exit ==> t != k.current) ==> t in k'.threads && CoreAt(k', t) == After(k, e, t)
  }

  lemma TickChangesCore(k: State, k1: State, t: Tid)
    requires k1 == k.(ticks := k.ticks + 1) && Ticking(k1) && SleepOk(k, {}) && Alive(k, t)
    ensures t in WakeSleepers(k1).threads && CoreAt(WakeSleepers(k1), t) == After(k, Tick, t)
  {
    WakeSleepersExactly(k1);
    WakingKeepsCores(k1, t);
    assert WokenIfDue(k1, WakeSleepers(k1), t);
    assert ModeOk(WakeSleepers(k1), t);
    assert t in k.sleepers <==> Has(k, t, Blocked) && At(k, t).mode == Asleep && t !in {};
  }

  lemma TickChangesCores(k: State)
    requires Inv(k)
    ensures CoresAre(k, Tick, Apply(k, Tick))
  {
    var k1 := k.(ticks := k.ticks + 1);
    TickStarts(k);
    forall t | Alive(k, t) ensures t in WakeSleepers(k1).threads && CoreAt(WakeSleepers(k1), t) == After(k, Tick, t) {
      TickChangesCore(k, k1, t);
    }
  }

  lemma BlockChangesCores(k: State, k1: State, mode: Mode)
    requires k1.current == k.current && Alive(k1, k.current)
    ensures
      var k' := Block(k1, mode);
      && (forall t :: Alive(k1, t) ==> t in k'.threads)
      && (forall t :: t != k.current ==> CoreAt(k', t) == CoreAt(k1, t))
      && CoreAt(k', k.current) == CoreAt(k1, k.current).(mode := mode)
  {
  }

  lemma TakingChangesCores(k: State, s: SemaId, t: Tid)
    requires Alive(k, t) && Alive(k, k.current)
    ensures
      var k' := Took(Take(k, s), s);
      && t in k'.threads
      && CoreAt(k', t) ==
           if t == k.current then CoreAt(k, t).(mode := if s.Plain? then Free else Entering(s.l)) else CoreAt(k, t)
  {
    TookLeaves(Take(k, s), s);
  }

  lemma DownIs(k: State, e: Event)
    requires Target(k, e).Some? && Enabled(k, e)
    ensures
      var s := Target(k, e).value;
      Apply(k, e) ==
        if Sem(k, s).value > 0 then Took(Take(k, s), s)
        else if Tries(e) then k
        else Block(Queue(k, s), Downing(s))
  {
  }

  lemma AfterDown(k: State, e: Event, t: Tid)
    requires Target(k, e).Some?
    ensures
      var (was, s) := (CoreAt(k, t), Target(k, e).value);
      After(k, e, t) ==
        if t != k.current || (Sem(k, s).value == 0 && Tries(e)) then was
        else was.(mode := if Sem(k, s).value == 0 then Downing(s) else if s.Plain? then Free else Entering(s.l))
  {
  }

  lemma DownChangesCores(k: State, e: Event, t: Tid)
    requires OneRunning(k) && Enabled(k, e) && Target(k, e).Some? && Alive(k, t)
    ensures t in Apply(k, e).threads && CoreAt(Apply(k, e), t) == After(k, e, t)
  {
    assert Has(k, k.current, Running);
    DownIs(k, e);
    AfterDown(k, e, t);
    var s := Target(k, e).value;
    if Sem(k, s).value > 0 {
      TakingChangesCores(k, s, t);
    } else if !Tries(e) {
      BlockChangesCores(k, Queue(k, s), Downing(s));
    }
  }

  lemma SleepChangesCores(k: State, tick: int)
    requires Inv(k)
    ensures CoresAre(k, SleepUntil(tick), Apply(k, SleepUntil(tick)))
  {
    assert Has(k, k.current, Running);
    BlockChangesCores(k, GoToBed(k, tick), Asleep);
  }

  lemma ExitChangesCores(k: State)
    requires Inv(k)
    ensures CoresAre(k, Exit, Apply(k, Exit))
  {
    assert Has(k, k.current, Running);
    forall t | Alive(k, t) ensures t !in k.destruction { assert t in k.destruction ==> Has(k, t, Dying); }
  }

  lemma IdleBlockChangesCores(k: State)
    requires Inv(k) && k.current == k.idle
    ensures CoresAre(k, IdleBlock, Apply(k, IdleBlock))
  {
    assert Has(k, k.current, Running);
    BlockChangesCores(k, k, Free);
  }

  lemma HolderChangesCores(k: State, e: Event)
    requires Inv(k) && Enabled(k, e) && (e.SetHolder? || e.ClearHolder? || e.SemaInit? || e.Donate?)
    ensures CoresAre(k, e, Apply(k, e))
  {
    assert Has(k, k.current, Running);
  }

  // ---------- who runs ----------

  /** The steps that end in check_and_preempt. */
  ghost predicate Preempts(e: Event) {
    e.SemaUp? || e.LockUp? || e.Create? || e.SetPriority?
  }

  /** What such a step has done before check_and_preempt. */
  ghost function Prepared(k: State, e: Event): State
    requires Preempts(e) && Enabled(k, e)
  {
    match e
    case SemaUp(n) => Up(k, Plain(n))
    case LockUp => Up(LetGo(k), OfLock(At(k, k.current).mode.lock))
    case Create(t, p) => Unblock(Put(k, t, Thread(Blocked, p, 0, Free, 0, 0)), t)
    case SetPriority(p) => Put(k, k.current, At(k, k.current).(priority := p))
  }

  ghost predicate PreparedCores(k: State, e: Event, k1: State) {
    forall t :: Alive(k, t) ==> Alive(k1, t) && CoreAt(k1, t) == After(k, e, t)
  }

  lemma SemaUpPrepares(k: State, k1: State, s: SemaId)
    requires Inv(k) && s.Plain? && s in k.semas && k1 == Up(k, s)
    ensures Inv(k1) && k1.current == k.current && PreparedCores(k, SemaUp(s.n), k1)
  {
    SemaUpKeeps(k, k1, s);
    SemaUpChangesCores(k, k1, s);
  }

  lemma SemaUpKeeps(k: State, k1: State, s: SemaId)
    requires Inv(k) && s.Plain? && s in k.semas && k1 == Up(k, s)
    ensures Inv(k1) && k1.current == k.current
  {
    UpKeepsTheRest(k, s);
    UpLeaves(k, s);
    LocksFrame(k, Up(k, s));
  }

  lemma SemaUpChangesCores(k: State, k1: State, s: SemaId)
    requires s.Plain? && k1 == Up(k, s)
    ensures PreparedCores(k, SemaUp(s.n), k1)
  {
    UpKeepsCores(k, s);
  }

  lemma UpKeepsCores(k: State, s: SemaId)
    ensures SameCores(k, Up(k, s))
  {
    var sorted := InsertionSort(ByPriority(k), Sem(k, s).waiters);
    if sorted != [] {
      var k1 := Raise(k, s);
      var sema := Sem(k1, s).(waiters := sorted[1..], woken := Sem(k1, s).woken + {sorted[0]});
      UnblockKeepsCores(PutSema(k1, s, sema), sorted[0]);
    }
  }

  lemma LockUpPrepares(k: State, k1: State)
    requires Inv(k) && At(k, k.current).mode.Leaving? && k1 == Up(LetGo(k), OfLock(At(k, k.current).mode.lock))
    ensures Inv(k1) && k1.current == k.current && PreparedCores(k, LockUp, k1)
  {
    LockUpKeeps(k, OfLock(At(k, k.current).mode.lock));
    LockUpChangesCores(k, LetGo(k), OfLock(At(k, k.current).mode.lock));
  }

  lemma LockUpChangesCores(k: State, g: State, s: SemaId)
    requires At(k, k.current).mode.Leaving? && g == LetGo(k)
    ensures PreparedCores(k, LockUp, Up(g, s))
  {
    forall t | Alive(k, t)
      ensures
        var core := if t == k.current then CoreAt(k, t).(mode := Free) else CoreAt(k, t);
        Alive(Up(g, s), t) && CoreAt(Up(g, s), t) == core
    {
      LockUpCore(k, g, s, t);
    }
  }

  lemma LockUpCore(k: State, g: State, s: SemaId, t: Tid)
    requires At(k, k.current).mode.Leaving? && Alive(k, t) && g == LetGo(k)
    ensures Alive(Up(g, s), t)
    ensures CoreAt(Up(g, s), t) == if t == k.current then CoreAt(k, t).(mode := Free) else CoreAt(k, t)
  {
    LetGoCore(k, t);
    UpKeepsCores(g, s);
  }

  lemma LetGoCore(k: State, t: Tid)
    requires At(k, k.current).mode.Leaving? && Alive(k, t)
    ensures Alive(LetGo(k), t)
    ensures CoreAt(LetGo(k), t) == if t == k.current then CoreAt(k, t).(mode := Free) else CoreAt(k, t)
  {
  }

  lemma LockUpKeeps(k: State, s: SemaId)
    requires Inv(k) && At(k, k.current).mode.Leaving? && s == OfLock(At(k, k.current).mode.lock)
    ensures Inv(Up(LetGo(k), s)) && Up(LetGo(k), s).current == k.current && s in k.semas
  {
    LockIsThere(k, s);
    LetGoKeepsTheRest(k);
    UpKeepsTheRest(LetGo(k), s);
    LockUpKeepsLocks(k);
    UpLeaves(LetGo(k), s);
  }

  lemma LockIsThere(k: State, s: SemaId)
    requires LocksOk(k) && At(k, k.current).mode.Leaving? && s == OfLock(At(k, k.current).mode.lock)
    ensures s in k.semas && LetGo(k).semas == k.semas
  {
    assert InTransit(k, s.l, k.current);
  }

  lemma LetGoLeaves(k: State)
    requires At(k, k.current).mode.Leaving?
    ensures LetGo(k).current == k.current && LetGo(k).semas == k.semas
    ensures forall t :: t != k.current ==> At(LetGo(k), t) == At(k, t)
    ensures At(LetGo(k), k.current) == At(k, k.current).(mode := Free)
  {
  }

  lemma CreatePrepares(k: State, k1: State, t: Tid, p: int)
    requires Inv(k) && t !in k.threads && k1 == Unblock(Put(k, t, Thread(Blocked, p, 0, Free, 0, 0)), t)
    ensures Inv(k1) && k1.current == k.current && PreparedCores(k, Create(t, p), k1)
    ensures Alive(k1, t) && CoreAt(k1, t).priority == p
  {
    CreateUnblocks(k, t, p);
    UnblockKeepsCores(Put(k, t, Thread(Blocked, p, 0, Free, 0, 0)), t);
  }

  lemma SetPriorityPrepares(k: State, k1: State, p: int)
    requires Inv(k) && k1 == Put(k, k.current, At(k, k.current).(priority := p))
    ensures Inv(k1) && k1.current == k.current && PreparedCores(k, SetPriority(p), k1)
  {
    var (c, th) := (k.current, At(k, k.current).(priority := p));
    assert Has(k, c, Running) && c !in k.ready;
    RetouchKeepsInv(k, c, th);
  }

  lemma PreparedKeeps(k: State, e: Event, k1: State)
    requires Inv(k) && Enabled(k, e) && Preempts(e) && k1 == Prepared(k, e)
    ensures Inv(k1) && k1.current == k.current && PreparedCores(k, e, k1)
  {
    match e
    case SemaUp(n) => SemaUpPrepares(k, k1, Plain(n));
    case LockUp => LockUpPrepares(k, k1);
    case Create(t, p) => CreatePrepares(k, k1, t, p);
    case SetPriority(p) => SetPriorityPrepares(k, k1, p);
  }

  lemma PreparedIs(k: State, e: Event)
    requires Inv(k) && Enabled(k, e) && Preempts(e)
    ensures
      var k1 := Prepared(k, e);
      && Apply(k, e) == Preempt(k1) && Inv(k1) && k1.current == k.current && k1.idle == k.idle
      && PreparedCores(k, e, k1)
  {
    PreparedKeeps(k, e, Prepared(k, e));
  }

  /** What every step does to each thread: its priority, the tick it sleeps until and what it is waiting for are
      changed as the step says, and of all other threads as well as by all other steps they are left alone. */
  lemma ThreadsChangeExactly(k: State, e: Event)
    requires Inv(k) && Enabled(k, e)
    ensures CoresAre(k, e, Apply(k, e))
  {
    if Preempts(e) {
      PreparedIs(k, e);
      PreemptKeepsCores(Prepared(k, e));
    } else if e == Tick {
      TickChangesCores(k);
    } else if Target(k, e).Some? {
      forall t | Alive(k, t) ensures t in Apply(k, e).threads && CoreAt(Apply(k, e), t) == After(k, e, t) {
        DownChangesCores(k, e, t);
      }
    } else {
      match e
      case TimeSlice => YieldKeepsCores(k);
      case IdleBlock => IdleBlockChangesCores(k);
      case SleepUntil(tick) => SleepChangesCores(k, tick);
      case Exit => ExitChangesCores(k);
      case _ => HolderChangesCores(k, e);
    }
  }

  /** A new thread has the priority that it was created with; it runs at once or is READY. */
  lemma CreatedThread(k: State, t: Tid, p: int)
    requires Inv(k) && Enabled(k, Create(t, p))
    ensures
      var k' := Apply(k, Create(t, p));
      && t in k'.threads && CoreAt(k', t).priority == p && CoreAt(k', t).mode == Free
      && (t == k'.current || Has(k', t, Ready))
  {
    var k1 := Prepared(k, Create(t, p));
    CreatePrepares(k, k1, t, p);
    assert Has(k1, t, Ready) && At(k1, t).mode == Free && (Has(k1, t, Running) <==> t == k1.current);
    PreemptKeepsCores(k1);
    PreemptKeepsStatuses(k1);
  }

  /** After sema_up, lock_release, thread_create and thread_set_priority no READY thread is above the running one,
      unless it was raised where it stands. */
  lemma PreemptingStepsRunHighest(k: State, e: Event)
    requires Inv(k) && Enabled(k, e) && Preempts(e) && k.current != k.idle
    ensures NoneAbove(Apply(k, e), Apply(k, e).current)
  {
    PreparedIs(k, e);
    PreemptedIsMaximal(Prepared(k, e));
  }

  // ---------- who blocks ----------

  /** The running thread gives the CPU up: to sleep, as the idle thread, in sema_down at value 0, or for good. */
  ghost predicate GivesUp(k: State, e: Event) {
    || e.SleepUntil? || e.IdleBlock? || e.Exit?
    || (Target(k, e).Some? && !Tries(e) && Sem(k, Target(k, e).value).value == 0)
  }

  ghost predicate HandsOver(k: State, k': State, status: Status) {
    k'.current == Next(k) && (k'.current != k.current ==> Has(k', k.current, status))
  }

  lemma BlockHandsOver(k: State, k1: State, mode: Mode)
    requires k1.current == k.current && k1.ready == k.ready && k1.idle == k.idle
    ensures HandsOver(k, Block(k1, mode), Blocked)
  {
  }

  lemma ExitHandsOver(k: State)
    requires Inv(k) && Enabled(k, Exit)
    ensures HandsOver(k, Apply(k, Exit), Dying)
  {
    var k1 := ExitPrepares(k);
  }

  lemma ExitQueues(k: State)
    requires k.current != k.idle && Next(k) != k.current
    ensures Apply(k, Exit).destruction == if k.current == k.main then [] else [k.current]
  {
  }

  /** The pages of threads that have exited are freed when a thread next exits or its time slice ends. */
  lemma DeadAreFreed(k: State, e: Event, t: Tid)
    requires Inv(k) && Enabled(k, e) && (e == TimeSlice || e == Exit) && t in k.destruction
    ensures t !in Apply(k, e).threads && t !in Apply(k, e).destruction
  {
    DeadAreFree(k);
    var c := k.current;
    assert Has(k, c, Running) && Has(k, t, Dying) && k.idle in k.threads;
    if e == TimeSlice && c != k.idle { InsertedMembers(ByPriority(k), k.ready, c); }
    forall u | u in k.ready ensures Has(k, u, Ready) {}
    if e == Exit { var k1 := ExitPrepares(k); } else { var k1 := YieldPrepares(k); }
  }

  /** Exactly these steps take the CPU from a thread that could go on, and the next thread gets it.  A thread that
      exits is queued to be freed, unless it is the main thread. */
  lemma BlocksExactly(k: State, e: Event)
    requires Inv(k) && Enabled(k, e) && e != TimeSlice && !Preempts(e)
    ensures
      if GivesUp(k, e) then HandsOver(k, Apply(k, e), if e == Exit then Dying else Blocked)
      else Apply(k, e).current == k.current
    ensures e == Exit && Next(k) != k.current && k.current != k.main ==> Apply(k, e).destruction == [k.current]
  {
    if Target(k, e).Some? {
      DownHandsOver(k, e);
    } else {
      match e
      case SleepUntil(tick) => BlockHandsOver(k, GoToBed(k, tick), Asleep);
      case IdleBlock => BlockHandsOver(k, k, Free);
      case Exit =>
        ExitHandsOver(k);
        if Next(k) != k.current { ExitQueues(k); }
      case Tick => WakingLeavesRunning(k.(ticks := k.ticks + 1));
      case _ =>
    }
  }

  lemma DownHandsOver(k: State, e: Event)
    requires Enabled(k, e) && Target(k, e).Some?
    ensures
      if GivesUp(k, e) then HandsOver(k, Apply(k, e), Blocked) else Apply(k, e).current == k.current
  {
    DownIs(k, e);
    var s := Target(k, e).value;
    TookLeaves(Take(k, s), s);
    BlockHandsOver(k, Queue(k, s), Downing(s));
  }

  lemma {:induction false} WakingLeavesRunning(k: State)
    ensures WakeSleepers(k).current == k.current
    decreases |k.sleepers|
  {
    if k.sleepers != [] && At(k, k.sleepers[0]).wakeupTick <= k.ticks { WakingLeavesRunning(WakeOne(k)); }
  }

  // ---------- who takes over ----------

  /** check_and_preempt hands over to a higher thread only. */
  lemma PreemptsForHigher(k: State, e: Event)
    requires Inv(k) && Enabled(k, e) && Preempts(e)
    ensures
      var k' := Apply(k, e);
      k'.current == k.current
      || (Has(k', k.current, Ready) && At(k', k.current).priority < At(k', k'.current).priority)
  {
    PreparedIs(k, e);
    var k1 := Prepared(k, e);
    PreemptIs(k1);
  }

  lemma PreemptIs(k: State)
    requires Inv(k)
    ensures
      var k' := Preempt(k);
      k'.current == k.current
      || (Has(k', k.current, Ready) && At(k', k.current).priority < At(k', k'.current).priority)
  {
    if k.current != k.idle && k.ready != [] && At(k, k.current).priority < At(k, k.ready[0]).priority {
      SliceIs(k);
      assert Has(k, k.current, Running) && k.ready[0] in k.ready && Has(k, k.ready[0], Ready);
    }
  }

  /** A yield by another thread than idle: the head of the ready list runs, unless it is below. */
  lemma SliceIs(k: State)
    requires Inv(k) && k.current != k.idle
    ensures
      var (c, k') := (k.current, Yield(k));
      && Has(k', k'.current, Running) && SameCores(k, k')
      && (if k.ready == [] || At(k, k.ready[0]).priority < At(k, c).priority
          then k'.current == c && k'.ready == k.ready
          else k'.current == k.ready[0] && Has(k', c, Ready)
               && k'.ready == InsertOrdered(ByPriority(k), k.ready[1..], c))
  {
    var c := k.current;
    var k1 := YieldPrepares(k);
    YieldKeepsInv(k);
    YieldKeepsCores(k);
    assert Has(k, c, Running) && c !in k.ready;
    if k.ready != [] {
      assert k.ready[0] in k.ready && Has(k, k.ready[0], Ready);
    }
  }

  /** The time slice ends: another thread takes over if and only if one that is not below is ready, and then it is
      the first of the list.  From the idle thread whatever is ready takes over. */
  lemma SliceExactly(k: State)
    requires Inv(k) && Enabled(k, TimeSlice)
    ensures
      var (c, k') := (k.current, Apply(k, TimeSlice));
      if k.ready == [] || (c != k.idle && At(k, k.ready[0]).priority < At(k, c).priority) then k'.current == c
      else k'.current == k.ready[0] && Has(k', c, Ready)
  {
    if k.current == k.idle { IdleSlice(k); } else { SliceIs(k); }
  }

  lemma IdleSlice(k: State)
    requires Inv(k) && k.current == k.idle
    ensures Yield(k).current == Next(k) && (k.ready != [] ==> Has(Yield(k), k.current, Ready))
  {
    var k1 := YieldPrepares(k);
    if k.ready != [] { assert k.ready[0] in k.ready && Has(k, k.ready[0], Ready) && Has(k, k.current, Running); }
  }

  // ---------- taking turns ----------

  /** The queue in which threads of one priority take turns, the running one in front. */
  ghost function Turns(k: State): seq<Tid> {
    [k.current] + k.ready
  }

  ghost predicate Equals(k: State, p: int) {
    forall t :: t in Turns(k) ==> t != k.idle && At(k, t).priority == p && !At(k, t).mode.Downing?
  }

  ghost function Slices(n: nat): seq<Event> {
    seq(n, _ => TimeSlice)
  }

  lemma {:induction false} InsertedBehindEquals(less: (Tid, Tid) -> bool, q: seq<Tid>, t: Tid)
    requires forall u :: u in q ==> !less(t, u)
    ensures InsertOrdered(less, q, t) == q + [t]
  {
    forall i | 0 <= i < |q| ensures !less(t, q[i]) {}
    var p := InsertedAt(less, q, t);
  }

  lemma TurnKeepsEquals(k: State, k': State, p: int)
    requires Lists(k, {}) && OneRunning(k) && Equals(k, p) && SameCores(k, k') && k'.idle == k.idle
    requires forall t :: t in Turns(k') ==> t in Turns(k)
    ensures Equals(k', p)
  {
    forall t | t in Turns(k') ensures t != k'.idle && At(k', t).priority == p && !At(k', t).mode.Downing? {
      assert t in Turns(k);
      assert Has(k, k.current, Running) && (t in k.ready ==> Has(k, t, Ready));
      assert Alive(k, t) && CoreAt(k', t) == CoreAt(k, t);
    }
  }

  lemma TurnIs(k: State, p: int)
    requires Inv(k) && Equals(k, p)
    ensures
      var k' := Yield(k);
      k.current != k.idle && SameCores(k, k') && k'.idle == k.idle && Turns(k') == Turns(k)[1..] + Turns(k)[..1]
  {
    var (c, k') := (k.current, Yield(k));
    assert c in Turns(k);
    SliceIs(k);
    if k.ready != [] {
      assert k.ready[0] in Turns(k);
      forall u | u in k.ready[1..] ensures !ByPriority(k)(c, u) { assert u in Turns(k); }
      InsertedBehindEquals(ByPriority(k), k.ready[1..], c);
    }
  }

  lemma TurnPasses(k: State, p: int)
    requires Inv(k) && Equals(k, p)
    ensures
      var k' := Apply(k, TimeSlice);
      Enabled(k, TimeSlice) && Inv(k') && Equals(k', p) && Turns(k') == Turns(k)[1..] + Turns(k)[..1]
  {
    assert k.current in Turns(k);
    TurnIs(k, p);
    YieldKeepsInv(k);
    TurnKeepsEquals(k, Yield(k), p);
  }

  lemma TurnedOnceMore<T>(q: seq<T>, n: nat)
    requires 0 < n <= |q|
    ensures var r := q[1..] + q[..1]; r[n - 1..] + r[..n - 1] == q[n..] + q[..n]
  {
    var r := q[1..] + q[..1];
    assert r[n - 1..] == q[n..] + q[..1] && r[..n - 1] == q[1..n];
    assert q[..n] == q[..1] + q[1..n];
  }

  /** Round robin: threads of one priority take turns.  After n time slices the queue has turned by n places, so
      each runs once before the first runs again. */
  lemma {:induction false} RoundRobin(k: State, p: int, n: nat)
    requires Inv(k) && Equals(k, p) && n <= |Turns(k)|
    ensures Legal(k, Slices(n)) && Turns(Run(k, Slices(n))) == Turns(k)[n..] + Turns(k)[..n]
    decreases n
  {
    if n > 0 {
      TurnPasses(k, p);
      var k' := Apply(k, TimeSlice);
      assert Slices(n)[1..] == Slices(n - 1) && Slices(n)[0] == TimeSlice;
      RoundRobin(k', p, n - 1);
      TurnedOnceMore(Turns(k), n);
    }
  }

  // ---------- who is woken ----------

  /** The semaphore that a step raises. */
  ghost function Raised(k: State, e: Event): Option<SemaId> {
    match e
    case SemaUp(n) => Some(Plain(n))
    case LockUp => (match At(k, k.current).mode case Leaving(l) => Some(OfLock(l)) case _ => None)
    case _ => None
  }

  ghost predicate OnlyWoken(k: State, k': State, s: SemaId, woken: set<Tid>) {
    && s in k'.semas
    && (forall u :: u in Sem(k', s).waiters <==> u in Sem(k, s).waiters && u !in woken)
    && (forall u :: Alive(k, u) && u != k.current && u != k'.current ==>
          At(k', u).status == if u in woken then Ready else At(k, u).status)
  }

  lemma UpWakes(k: State, s: SemaId) returns (woken: set<Tid>)
    requires Lists(k, {}) && s in k.semas
    ensures WakesHighest(k, s, woken)
    ensures Up(k, s).current == k.current && OnlyWoken(k, Up(k, s), s, woken)
    ensures forall t :: t in woken ==> Has(Up(k, s), t, Ready)
  {
    UpLeaves(k, s);
    if Sem(k, s).waiters == [] {
      woken := {};
    } else {
      var t := UpWakesMaximal(k, s);
      woken := {t};
      assert HighestWaiter(k, s, t);
      assert QueueOk(k, s, {});
      var u, rest := UpPicks(k, s);
      assert forall v :: v != u ==> At(Up(k, s), v) == At(k, v);
      assert u == t by { assert u !in Sem(Up(k, s), s).waiters; }
    }
  }

  ghost predicate HighestWaiter(k: State, s: SemaId, t: Tid) {
    t in Sem(k, s).waiters && forall u :: u in Sem(k, s).waiters ==> At(k, u).priority <= At(k, t).priority
  }

  lemma PreemptKeepsStatuses(k: State)
    requires Lists(k, {}) && OneRunning(k)
    ensures
      var k' := Preempt(k);
      && (k'.current == k.current || k'.current in k.ready)
      && forall u :: Alive(k, u) && u != k.current && u != k'.current ==> At(k', u).status == At(k, u).status
  {
    if Preempt(k) != k {
      var k1 := YieldPrepares(k);
      InsertedMembers(ByPriority(k), k.ready, k.current);
      if k1.ready != [] { assert k1.ready[0] in k1.ready; }
      forall u | Alive(k, u) ensures u !in k.destruction { assert u in k.destruction ==> Has(k, u, Dying); }
    }
  }

  ghost predicate WakesHighest(k: State, s: SemaId, woken: set<Tid>) {
    if Sem(k, s).waiters == [] then woken == {} else exists t :: woken == {t} && HighestWaiter(k, s, t)
  }

  lemma LockUpWakes(k: State, g: State, s: SemaId) returns (woken: set<Tid>)
    requires Inv(k) && At(k, k.current).mode.Leaving? && s == OfLock(At(k, k.current).mode.lock) && g == LetGo(k)
    ensures OnlyWoken(k, Up(g, s), s, woken) && WakesHighest(k, s, woken)
    ensures forall t :: t in woken ==> Has(Up(g, s), t, Ready)
  {
    LetGoKeepsLists(k, g, s);
    woken := UpWakes(g, s);
    LetGoWakesSame(k, g, s, woken);
    LetGoWakesAlike(k, g, Up(g, s), s, woken);
  }

  lemma LetGoWakesSame(k: State, g: State, s: SemaId, woken: set<Tid>)
    requires At(k, k.current).mode.Leaving? && g == LetGo(k) && WakesHighest(g, s, woken)
    ensures WakesHighest(k, s, woken)
  {
    LetGoLeaves(k);
    SameWaiters(k, g, s, woken);
  }

  lemma LetGoKeepsLists(k: State, g: State, s: SemaId)
    requires Inv(k) && At(k, k.current).mode.Leaving? && s == OfLock(At(k, k.current).mode.lock) && g == LetGo(k)
    ensures Lists(g, {}) && s in g.semas
  {
    LockIsThere(k, s);
    LetGoKeepsTheRest(k);
  }

  lemma LetGoWakesAlike(k: State, g: State, k': State, s: SemaId, woken: set<Tid>)
    requires At(k, k.current).mode.Leaving? && g == LetGo(k) && OnlyWoken(g, k', s, woken)
    ensures OnlyWoken(k, k', s, woken)
  {
    LetGoLeaves(k);
    forall u | Alive(k, u) ensures Alive(g, u) { LetGoCore(k, u); }
  }

  lemma SameWaiters(k: State, k1: State, s: SemaId, woken: set<Tid>)
    requires k1.semas == k.semas && forall t :: At(k1, t).priority == At(k, t).priority
    ensures WakesHighest(k, s, woken) <==> WakesHighest(k1, s, woken)
  {
    forall t ensures HighestWaiter(k, s, t) <==> HighestWaiter(k1, s, t) {}
  }

  lemma PreparedWakes(k: State, e: Event) returns (woken: set<Tid>)
    requires Inv(k) && Enabled(k, e) && Raised(k, e).Some?
    ensures
      var (s, k1) := (Raised(k, e).value, Prepared(k, e));
      && s in k.semas && OnlyWoken(k, k1, s, woken) && WakesHighest(k, s, woken)
      && (forall t :: t in woken ==> Has(k1, t, Ready))
  {
    if e == LockUp {
      woken := LockUpWakes(k, LetGo(k), Raised(k, e).value);
      LockUpKeeps(k, Raised(k, e).value);
    } else {
      woken := UpWakes(k, Plain(e.n));
    }
  }

  lemma PreemptKeepsWoken(k: State, k1: State, s: SemaId, woken: set<Tid>)
    requires Inv(k1) && k1.current == k.current && OnlyWoken(k, k1, s, woken)
    requires (forall t :: t in woken ==> Has(k1, t, Ready)) && forall u :: Alive(k, u) ==> Alive(k1, u)
    ensures OnlyWoken(k, Preempt(k1), s, woken)
    ensures forall t :: t in woken ==> Has(Preempt(k1), t, Ready) || t == Preempt(k1).current
  {
    PreemptLeaves(k1);
    PreemptKeepsStatuses(k1);
    PreemptKeepsCores(k1);
    assert Has(k1, k1.current, Running);
  }

  /** sema_up, on its own or in lock_release: if anybody waits, exactly one waiter of maximal priority is woken; it is
      READY or runs at once, and all others wait on.  Nobody else's status changes but that of the two threads between
      which check_and_preempt switches. */
  lemma UpStepWakesHighest(k: State, e: Event) returns (woken: set<Tid>)
    requires Inv(k) && Enabled(k, e) && Raised(k, e).Some?
    ensures
      var (s, k') := (Raised(k, e).value, Apply(k, e));
      && s in k.semas && OnlyWoken(k, k', s, woken) && WakesHighest(k, s, woken)
      && forall t :: t in woken ==> Has(k', t, Ready) || t == k'.current
  {
    woken := PreparedWakes(k, e);
    PreparedIs(k, e);
    PreemptKeepsWoken(k, Prepared(k, e), Raised(k, e).value, woken);
  }

  ghost predicate StatusKept(k: State, k': State, t: Tid) {
    t == k.current || t == k'.current || At(k', t).status == At(k, t).status
  }

  lemma BlockKeepsStatus(k: State, k1: State, mode: Mode, t: Tid)
    requires k1.current == k.current && (t != k.current ==> At(k1, t).status == At(k, t).status)
    ensures StatusKept(k, Block(k1, mode), t)
  {
  }

  lemma DownKeepsStatus(k: State, e: Event, t: Tid)
    requires Enabled(k, e) && Target(k, e).Some?
    ensures StatusKept(k, Apply(k, e), t)
  {
    DownIs(k, e);
    var s := Target(k, e).value;
    TookLeaves(Take(k, s), s);
    BlockKeepsStatus(k, Queue(k, s), Downing(s), t);
  }

  lemma PreparedKeepsStatus(k: State, e: Event, t: Tid)
    requires Inv(k) && Enabled(k, e) && (e.Create? || e.SetPriority?) && Alive(k, t)
    ensures StatusKept(k, Apply(k, e), t)
  {
    PreparedIs(k, e);
    PreemptKeepsStatuses(Prepared(k, e));
  }

  lemma LeavingKeepsStatus(k: State, e: Event, t: Tid)
    requires Inv(k) && Enabled(k, e) && LeavesCpu(e) && Alive(k, t)
    ensures StatusKept(k, Apply(k, e), t)
  {
    assert t in k.destruction ==> Has(k, t, Dying);
    match e
    case TimeSlice => var k1 := YieldPrepares(k);
    case IdleBlock => BlockKeepsStatus(k, k, Free, t);
    case SleepUntil(tick) => BlockKeepsStatus(k, GoToBed(k, tick), Asleep, t);
    case Exit =>
  }

  /** No other step but the timer interrupt changes the status of a thread that neither ran before nor runs after. */
  lemma StatusesStay(k: State, e: Event, t: Tid)
    requires Inv(k) && Enabled(k, e) && e != Tick && Raised(k, e).None? && Alive(k, t)
    ensures StatusKept(k, Apply(k, e), t)
  {
    if Target(k, e).Some? {
      DownKeepsStatus(k, e, t);
    } else if LeavesCpu(e) {
      LeavingKeepsStatus(k, e, t);
    } else if e.Create? || e.SetPriority? {
      PreparedKeepsStatus(k, e, t);
    }
  }

  // ---------- values and holders ----------

  /** Semaphores come with sema_init alone, which sets their value (1 for a lock's); after that ups and completed downs
      count. */
  lemma ValuesChangeExactly(k: State, e: Event, s: SemaId)
    requires Inv(k) && Enabled(k, e)
    ensures s in Apply(k, e).semas <==> s in k.semas || (e.SemaInit? && e.s == s)
    ensures s in k.semas ==> Counted(k, e, s)
    ensures e.SemaInit? && e.s == s ==>
      Sem(Apply(k, e), s).value == (if s.Plain? then e.v else 1) && Sem(Apply(k, e), s).waiters == []
  {
    if s in k.semas { StepCounts(k, e, s); }
    SemasStay(k, e);
  }

  lemma SemasStay(k: State, e: Event)
    requires Inv(k) && Enabled(k, e)
    ensures Apply(k, e).semas.Keys == k.semas.Keys + if e.SemaInit? then {e.s} else {}
  {
    if Raised(k, e).Some? {
      RaisedLeaves(k, e);
    } else if Target(k, e).Some? {
      TargetIsThere(k, e);
      DownKeepsSemas(k, e);
    } else {
      OtherSemasStay(k, e);
    }
  }

  lemma OtherSemasStay(k: State, e: Event)
    requires Enabled(k, e) && Raised(k, e).None? && Target(k, e).None?
    ensures Apply(k, e).semas.Keys == k.semas.Keys + if e.SemaInit? then {e.s} else {}
  {
    if !IsSynch(e) {
      if LeavesCpu(e) { LeaveStepLeaves(k, e); } else { ThreadStepLeaves(k, e); }
    }
  }

  lemma TargetIsThere(k: State, e: Event)
    requires Inv(k) && Enabled(k, e) && Target(k, e).Some?
    ensures Target(k, e).value in k.semas
  {
    assert Has(k, k.current, Running) && ModeOk(k, k.current);
  }

  lemma DownKeepsSemas(k: State, e: Event)
    requires Enabled(k, e) && Target(k, e).Some? && Target(k, e).value in k.semas
    ensures Apply(k, e).semas.Keys == k.semas.Keys
  {
    DownIs(k, e);
    TakeKeepsKeys(k, Target(k, e).value);
  }

  lemma TakeKeepsKeys(k: State, s: SemaId)
    requires s in k.semas
    ensures Took(Take(k, s), s).semas.Keys == k.semas.Keys && Block(Queue(k, s), Downing(s)).semas.Keys == k.semas.Keys
  {
    TookLeaves(Take(k, s), s);
  }

  lemma RaisedLeaves(k: State, e: Event)
    requires Inv(k) && Enabled(k, e) && Raised(k, e).Some?
    ensures Apply(k, e).semas.Keys == k.semas.Keys
    ensures Apply(k, e).locks == if e == LockUp then LetGo(k).locks else k.locks
  {
    var s := Raised(k, e).value;
    if e == LockUp {
      LockUpKeeps(k, s);
      LetGoKeepsTheRest(k);
      LetGoLeaves(k);
      UpLeaves(LetGo(k), s);
    } else {
      UpLeaves(k, s);
    }
    PreemptLeaves(Prepared(k, e));
    PreemptKeepsLocks(Prepared(k, e));
  }

  /** A lock changes hands as the steps say: its owner is who has completed a down of its semaphore until the up; the
      holder is set and cleared by lock_acquire and lock_release alone. */
  ghost function LockAfter(k: State, e: Event, l: nat): Lock {
    var (was, me) := (LockAt(k, l), k.current);
    if Completes(k, e, OfLock(l)) then was.(owners := was.owners + {me})
    else if Raises(k, e, OfLock(l)) then was.(owners := was.owners - {me})
    else if e == SetHolder && At(k, me).mode == Entering(l) then was.(holder := Some(me))
    else if e == ClearHolder(l) then was.(holder := None)
    else if e.SemaInit? && e.s == OfLock(l) then Lock(None, {})
    else was
  }

  ghost predicate LockChanges(k: State, e: Event, l: nat) {
    LockAt(Apply(k, e), l) == LockAfter(k, e, l)
  }

  lemma DownChangesLocks(k: State, e: Event, l: nat)
    requires Enabled(k, e) && Target(k, e).Some?
    ensures LockChanges(k, e, l)
  {
    DownIs(k, e);
    LockAfterDown(k, e, l);
    TookChangesLocks(k, Target(k, e).value, l);
  }

  lemma LockAfterDown(k: State, e: Event, l: nat)
    requires Enabled(k, e) && Target(k, e).Some?
    ensures
      var (s, was) := (Target(k, e).value, LockAt(k, l));
      LockAfter(k, e, l) ==
        if Sem(k, s).value > 0 && s == OfLock(l) then was.(owners := was.owners + {k.current}) else was
  {
  }

  lemma TookChangesLocks(k: State, s: SemaId, l: nat)
    ensures Block(Queue(k, s), Downing(s)).locks == k.locks
    ensures LockAt(Took(Take(k, s), s), l) ==
      if s == OfLock(l) then LockAt(k, l).(owners := LockAt(k, l).owners + {k.current}) else LockAt(k, l)
  {
  }

  lemma LocksChangeExactly(k: State, e: Event, l: nat)
    requires Inv(k) && Enabled(k, e)
    ensures LockChanges(k, e, l)
  {
    if Raised(k, e).Some? {
      RaisingChangesLocks(k, e, l);
    } else if Target(k, e).Some? {
      DownChangesLocks(k, e, l);
    } else if IsSynch(e) {
      HolderChangesLocks(k, e, l);
    } else {
      ThreadStepKeepsLocks(k, e);
      ThreadStepAfter(k, e, l);
    }
  }

  lemma ThreadStepAfter(k: State, e: Event, l: nat)
    requires !IsSynch(e)
    ensures LockAfter(k, e, l) == LockAt(k, l)
  {
  }

  lemma RaisingChangesLocks(k: State, e: Event, l: nat)
    requires Inv(k) && Enabled(k, e) && Raised(k, e).Some?
    ensures LockChanges(k, e, l)
  {
    RaisedLeaves(k, e);
    RaisedAfter(k, e, l);
  }

  lemma RaisedAfter(k: State, e: Event, l: nat)
    requires Enabled(k, e) && Raised(k, e).Some?
    ensures LockAfter(k, e, l) ==
      if e == LockUp && l in LetGo(k).locks then LetGo(k).locks[l]
      else if e == LockUp then LockAt(LetGo(k), l) else LockAt(k, l)
  {
  }

  lemma HolderChangesLocks(k: State, e: Event, l: nat)
    requires Enabled(k, e) && (e.SemaInit? || e.SetHolder? || e.ClearHolder?)
    ensures LockChanges(k, e, l)
  {
  }

  lemma ThreadStepKeepsLocks(k: State, e: Event)
    requires Enabled(k, e) && !IsSynch(e)
    ensures Apply(k, e).locks == k.locks
  {
    if e == Tick {
      WakingKeepsLocks(k.(ticks := k.ticks + 1));
    } else if Preempts(e) {
      PreemptKeepsLocks(Prepared(k, e));
    }
  }

  lemma PreemptKeepsLocks(k: State)
    ensures Preempt(k).locks == k.locks
  {
  }

  lemma {:induction false} WakingKeepsLocks(k: State)
    ensures WakeSleepers(k).locks == k.locks
    decreases |k.sleepers|
  {
    if k.sleepers != [] && At(k, k.sleepers[0]).wakeupTick <= k.ticks { WakingKeepsLocks(WakeOne(k)); }
  }

  // ---------- the highest thread runs ----------

  /** Scheduling picks a thread that no other is above. */
  lemma ScheduledIsHighest(k: State)
    requires InOrder(k)
    ensures NoneAbove(Schedule(k), Schedule(k).current)
  {
    if k.ready != [] {
      HeadIsMaximal(k);
      HeadRuns(k);
    }
  }

  lemma YieldRunsHighest(k: State)
    requires Inv(k)
    ensures NoneAbove(Yield(k), Yield(k).current)
  {
    var k1 := YieldPrepares(k);
    YieldKeepsOrders(k, k1);
    ScheduledIsHighest(k1);
  }

  lemma BlockRunsHighest(k: State, k1: State, mode: Mode)
    requires Inv(k) && k1.current == k.current && k1.ready == k.ready && k1.clock == k.clock && k1.raised == k.raised
    requires forall t :: t in k.ready ==> At(k1, t) == At(k, t)
    ensures NoneAbove(Block(k1, mode), Block(k1, mode).current)
  {
    var k2 := Put(k1, k.current, At(k1, k.current).(status := Blocked, mode := mode));
    assert Has(k, k.current, Running) && k.current !in k.ready;
    OrderFrame(k, k2);
    ScheduledIsHighest(k2);
  }

  lemma ExitRunsHighest(k: State)
    requires Inv(k) && Enabled(k, Exit)
    ensures NoneAbove(Apply(k, Exit), Apply(k, Exit).current)
  {
    var k1 := ExitPrepares(k);
    OrderFrame(k, k1);
    ScheduledIsHighest(k1);
  }

  /** Steps after which the running thread is a highest one if it was before: all but the timer's and donations, which
      do not preempt; and the idle thread does nothing but block. */
  ghost predicate KeepsHighest(k: State, e: Event) {
    e != Tick && !e.Donate? && (k.current == k.idle ==> !Preempts(e))
  }

  lemma StepKeepsHighest(k: State, e: Event)
    requires Inv(k) && Enabled(k, e) && KeepsHighest(k, e) && NoneAbove(k, k.current)
    ensures NoneAbove(Apply(k, e), Apply(k, e).current)
  {
    assert Has(k, k.current, Running) && k.current !in k.ready;
    if Preempts(e) {
      PreemptingStepsRunHighest(k, e);
    } else if Target(k, e).Some? {
      DownIs(k, e);
      var s := Target(k, e).value;
      TookLeaves(Take(k, s), s);
      BlockRunsHighest(k, Queue(k, s), Downing(s));
    } else {
      match e
      case TimeSlice => YieldRunsHighest(k);
      case IdleBlock => BlockRunsHighest(k, k, Free);
      case SleepUntil(tick) => BlockRunsHighest(k, GoToBed(k, tick), Asleep);
      case Exit => ExitRunsHighest(k);
      case _ =>
    }
  }

  ghost predicate KeepHighest(k: State, es: seq<Event>)
    decreases |es|
  {
    es == [] || (KeepsHighest(k, es[0]) && KeepHighest(Apply(k, es[0]), es[1..]))
  }

  /** Strict priorities: between two timer interrupts, and while nobody is donated to, the running thread is always one
      that no READY thread is above. */
  lemma {:induction false} HighestRuns(k: State, es: seq<Event>)
    requires Inv(k) && Legal(k, es) && KeepHighest(k, es) && NoneAbove(k, k.current)
    ensures NoneAbove(Run(k, es), Run(k, es).current)
    decreases |es|
  {
    if es != [] {
      StepKeepsHighest(k, es[0]);
      StepKeepsInv(k, es[0]);
      HighestRuns(Apply(k, es[0]), es[1..]);
    }
  }

  // ---------- sleeping ----------

  lemma SleepUntilIs(k: State, w: int)
    requires Inv(k) && Enabled(k, SleepUntil(w))
    ensures
      var (t, k') := (k.current, Apply(k, SleepUntil(w)));
      t in k'.sleepers && At(k', t).wakeupTick == w && At(k', t).sleptAt == k.ticks
  {
    assert Has(k, k.current, Running);
    var k1 := Put(k, k.current, At(k, k.current).(wakeupTick := w, sleptAt := k.ticks));
    InsertedMembers(ByWakeup(k1), k1.sleepers, k.current);
    if k.ready != [] { assert k.ready[0] in k.ready && Has(k, k.ready[0], Ready); }
  }

  /** A thread that calls thread_sleep for tick w at tick s sleeps up to the interrupt of tick max(w, s + 1), which
      makes it READY. */
  lemma SleepLasts(k: State, w: int, es: seq<Event>) returns (i: nat)
    requires Inv(k) && Enabled(k, SleepUntil(w)) && Legal(Apply(k, SleepUntil(w)), es)
    ensures
      var (t, k1, due) := (k.current, Apply(k, SleepUntil(w)), if w > k.ticks + 1 then w else k.ticks + 1);
      && i <= |es| && AsleepBefore(k1, es, i, t)
      && if Run(k1, es).ticks < due then i == |es| && t in Run(k1, es).sleepers else WokenBy(k1, es, i, t, due)
  {
    SleepUntilIs(k, w);
    StepKeepsInv(k, SleepUntil(w));
    i := WokenExactlyWhenDue(Apply(k, SleepUntil(w)), es, k.current);
  }
}
