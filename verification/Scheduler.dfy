/** threads/thread.c, threads/synch.c and the tick of devices/timer.c as one state machine.

    Every region that runs with interrupts off is one atomic step; between two steps any
    other enabled step may happen.  What lock code does with interrupts on (setting and
    clearing the holder, donating) is a step of its own.  The lists hold thread names; that
    the pointer-level list functions compute InsertOrdered and InsertionSort is proved in
    KernelList.  Lookups are total, and the invariant shows that nothing undefined is met. */
module Scheduler {
  import opened StableOrder
  import opened Sequences

  type Tid = nat

  datatype Status = Running | Ready | Blocked | Dying

  /** A plain counting semaphore, or the semaphore inside a lock. */
  datatype SemaId = Plain(n: nat) | OfLock(l: nat)

  /** What a thread has still to do before it is back in its own code. */
  datatype Mode =
    | Free
    | Downing(s: SemaId)  // in the loop of sema_down: it tests the value when it runs
    | Asleep              // in thread_sleep
    | Entering(lock: nat) // sema_down of the lock done, holder not yet set
    | Leaving(lock: nat)  // holder cleared, sema_up of the lock not yet done

  /** struct thread.  "sleptAt" and "arrived" are history: the tick at which it went to sleep,
      and how many insertions into the ready list preceded its own. */
  datatype Thread = Thread(status: Status, priority: int, wakeupTick: int, mode: Mode, sleptAt: int, arrived: nat)

  /** struct semaphore.  History: the threads taken off the waiters that have not yet tested the
      value again, and how often each operation was completed. */
  datatype Sema = Sema(value: nat, waiters: seq<Tid>, woken: set<Tid>, initial: nat, ups: nat, downs: nat)

  /** struct lock.  History: the threads between the end of their sema_down and their sema_up. */
  datatype Lock = Lock(holder: Option<Tid>, owners: set<Tid>)

  datatype State = State(
    threads: map<Tid, Thread>,
    current: Tid,
    idle: Tid,
    main: Tid,
    ready: seq<Tid>,
    sleepers: seq<Tid>,
    destruction: seq<Tid>,
    semas: map<SemaId, Sema>,
    locks: map<nat, Lock>,
    ticks: int,
    clock: nat,      // history: how many insertions into the ready list there have been
    raised: set<Tid>) // history: threads whose priority was raised on the ready list since they were put there

  function At(k: State, t: Tid): Thread {
    if t in k.threads then k.threads[t] else Thread(Dying, 0, 0, Free, 0, 0)
  }

  function Sem(k: State, s: SemaId): Sema {
    if s in k.semas then k.semas[s] else Sema(0, [], {}, 0, 0, 0)
  }

  function LockAt(k: State, l: nat): Lock {
    if l in k.locks then k.locks[l] else Lock(None, {})
  }

  ghost function Put(k: State, t: Tid, th: Thread): State {
    k.(threads := k.threads[t := th])
  }

  ghost function PutSema(k: State, s: SemaId, sema: Sema): State {
    k.(semas := k.semas[s := sema])
  }

  ghost function PutLock(k: State, l: nat, lock: Lock): State {
    k.(locks := k.locks[l := lock])
  }

  /** thread_priority_cmp */
  function ByPriority(k: State): (Tid, Tid) -> bool {
    (a: Tid, b: Tid) => At(k, a).priority > At(k, b).priority
  }

  /** thread_wakeup_tick_cmp */
  function ByWakeup(k: State): (Tid, Tid) -> bool {
    (a: Tid, b: Tid) => At(k, a).wakeupTick < At(k, b).wakeupTick
  }

  // ---------- thread.c ----------

  /** next_thread_to_run */
  ghost function Next(k: State): Tid {
    if k.ready == [] then k.idle else k.ready[0]
  }

  /** schedule, after the status of the current thread has been changed. */
  ghost function Schedule(k: State): State {
    var (curr, next) := (k.current, Next(k));
    var dead := if curr != next && At(k, curr).status == Dying && curr != k.main then [curr] else [];
    Put(k, next, At(k, next).(status := Running))
      .(current := next, ready := if k.ready == [] then [] else k.ready[1..], destruction := k.destruction + dead)
  }

  /** Inserting a thread into the ready list. */
  ghost function Enqueue(k: State, t: Tid): State {
    Put(k, t, At(k, t).(arrived := k.clock))
      .(ready := InsertOrdered(ByPriority(k), k.ready, t), clock := k.clock + 1, raised := k.raised - {t})
  }

  /** thread_unblock */
  ghost function Unblock(k: State, t: Tid): State {
    var k1 := Enqueue(k, t);
    Put(k1, t, At(k1, t).(status := Ready))
  }

  /** The loop of do_schedule: the pages of dead threads go back. */
  ghost function Reap(k: State): State {
    k.(threads := k.threads - Elements(k.destruction), destruction := [])
  }

  /** do_schedule */
  ghost function DoSchedule(k: State, status: Status): State {
    var k1 := Reap(k);
    Schedule(Put(k1, k1.current, At(k1, k1.current).(status := status)))
  }

  /** thread_yield */
  ghost function Yield(k: State): State {
    DoSchedule(if k.current == k.idle then k else Enqueue(k, k.current), Ready)
  }

  /** check_and_preempt */
  ghost function Preempt(k: State): State {
    if k.current == k.idle || k.ready == [] then k
    else if At(k, k.current).priority < At(k, k.ready[0]).priority then Yield(k)
    else k
  }

  /** thread_block, the mode saying what the thread waits for. */
  ghost function Block(k: State, mode: Mode): State {
    Schedule(Put(k, k.current, At(k, k.current).(status := Blocked, mode := mode)))
  }

  /** thread_sleep up to its thread_block */
  ghost function GoToBed(k: State, until: int): State {
    var k1 := Put(k, k.current, At(k, k.current).(wakeupTick := until, sleptAt := k.ticks));
    k1.(sleepers := InsertOrdered(ByWakeup(k1), k1.sleepers, k1.current))
  }

  ghost function WakeOne(k: State): State
    requires k.sleepers != []
  {
    var t := k.sleepers[0];
    Unblock(Put(k, t, At(k, t).(mode := Free)).(sleepers := k.sleepers[1..]), t)
  }

  /** The loop of thread_check_sleep_list. */
  ghost function WakeSleepers(k: State): State
    decreases |k.sleepers|
  {
    if k.sleepers == [] || At(k, k.sleepers[0]).wakeupTick > k.ticks then k else WakeSleepers(WakeOne(k))
  }

  // ---------- synch.c ----------

  /** One turn of the loop in sema_down, with interrupts off: block again, or take the value. */
  ghost function Down(k: State, s: SemaId): State {
    if Sem(k, s).value == 0 then Block(Queue(k, s), Downing(s)) else Took(Take(k, s), s)
  }

  ghost function Queue(k: State, s: SemaId): State {
    var sema := Sem(k, s);
    PutSema(k, s, sema.(woken := sema.woken - {k.current},
      waiters := InsertOrdered(ByPriority(k), sema.waiters, k.current)))
  }

  ghost function Take(k: State, s: SemaId): State {
    var sema := Sem(k, s);
    if sema.value == 0 then k
    else PutSema(k, s, sema.(woken := sema.woken - {k.current}, value := sema.value - 1, downs := sema.downs + 1))
  }

  /** What completing a down means for the thread: for a lock, it is now an owner. */
  ghost function Took(k: State, s: SemaId): State {
    match s
    case Plain(_) => Put(k, k.current, At(k, k.current).(mode := Free))
    case OfLock(l) =>
      PutLock(Put(k, k.current, At(k, k.current).(mode := Entering(l))), l,
              LockAt(k, l).(owners := LockAt(k, l).owners + {k.current}))
  }

  /** sema_up before check_and_preempt: the waiters are sorted and the first is woken. */
  ghost function Up(k: State, s: SemaId): State {
    var sorted := InsertionSort(ByPriority(k), Sem(k, s).waiters);
    if sorted == [] then Raise(k, s) else Wake(Raise(k, s), s, sorted[0], sorted[1..])
  }

  ghost function Raise(k: State, s: SemaId): State {
    PutSema(k, s, Sem(k, s).(value := Sem(k, s).value + 1, ups := Sem(k, s).ups + 1))
  }

  ghost function Wake(k: State, s: SemaId, t: Tid, rest: seq<Tid>): State {
    Unblock(PutSema(k, s, Sem(k, s).(waiters := rest, woken := Sem(k, s).woken + {t})), t)
  }

  // ---------- steps ----------

  datatype Event =
    | TimeSlice                  // the yield on return from the timer interrupt
    | IdleBlock                  // the loop of the idle thread
    | Tick                       // timer_interrupt
    | SleepUntil(tick: int)
    | Create(t: Tid, p: int)
    | Exit
    | SetPriority(p: int)
    | Donate(t: Tid, p: int)     // any change of a priority by donate_priority or refresh_priority
    | SemaInit(s: SemaId, v: nat)
    | SemaDown(n: nat)
    | SemaTryDown(n: nat)
    | SemaUp(n: nat)
    | Retest                     // a thread woken in sema_down runs again
    | LockAcquire(l: nat)
    | LockTryAcquire(l: nat)
    | SetHolder
    | ClearHolder(l: nat)        // lock_release before its sema_up
    | LockUp                     // the sema_up of lock_release

  /** What the source demands of the caller, and where the running thread's program counter is.
      Donation gives a holder the larger of two priorities; only refresh_priority, which works on the
      running thread, can lower one.
      A thread in the loop of sema_down has interrupts off, so nothing else happens then. */
  ghost predicate Enabled(k: State, e: Event) {
    var mode := At(k, k.current).mode;
    match e
    case Retest => mode.Downing?
    case SetHolder => mode.Entering?
    case LockUp => mode.Leaving?
    case TimeSlice => !mode.Downing?
    case Tick => !mode.Downing?
    case Donate(t, p) => !mode.Downing? && t in k.threads && (t == k.current || p >= At(k, t).priority)
    case IdleBlock => mode.Free? && k.current == k.idle
    case SemaUp(n) => mode.Free? && Plain(n) in k.semas
    case SemaTryDown(n) => mode.Free? && Plain(n) in k.semas
    case Create(t, _) => mode.Free? && t !in k.threads
    case SemaInit(s, _) => mode.Free? && s !in k.semas
    case SleepUntil(_) => mode.Free? && k.current != k.idle
    case Exit => mode.Free? && k.current != k.idle
    case SetPriority(_) => mode.Free?
    case SemaDown(n) => mode.Free? && k.current != k.idle && Plain(n) in k.semas
    case LockAcquire(l) => mode.Free? && k.current != k.idle && l in k.locks && k.locks[l].holder != Some(k.current)
    case LockTryAcquire(l) => mode.Free? && k.current != k.idle && l in k.locks && k.locks[l].holder != Some(k.current)
    case ClearHolder(l) => mode.Free? && k.current != k.idle && l in k.locks && k.locks[l].holder == Some(k.current)
  }

  ghost function Apply(k: State, e: Event): State {
    var (me, curr) := (k.current, At(k, k.current));
    match e
    case TimeSlice => Yield(k)
    case IdleBlock => Block(k, Free)
    case Tick => WakeSleepers(k.(ticks := k.ticks + 1))
    case SleepUntil(tick) => Block(GoToBed(k, tick), Asleep)
    case Create(t, p) => Preempt(Unblock(Put(k, t, Thread(Blocked, p, 0, Free, 0, 0)), t))
    case Exit => DoSchedule(k, Dying)
    case SetPriority(p) => Preempt(Put(k, me, curr.(priority := p)))
    case Donate(t, p) =>
      Put(k, t, At(k, t).(priority := p)).(raised := if t in k.ready then k.raised + {t} else k.raised)
    case SemaInit(s, v) =>
      (match s
       case Plain(_) => PutSema(k, s, Sema(v, [], {}, v, 0, 0))
       case OfLock(l) => PutLock(PutSema(k, s, Sema(1, [], {}, 1, 0, 0)), l, Lock(None, {})))
    case SemaDown(n) => Down(k, Plain(n))
    case SemaTryDown(n) => if Sem(k, Plain(n)).value > 0 then Down(k, Plain(n)) else k
    case SemaUp(n) => Preempt(Up(k, Plain(n)))
    case Retest => if curr.mode.Downing? then Down(k, curr.mode.s) else k
    case LockAcquire(l) => Down(k, OfLock(l))
    case LockTryAcquire(l) => if Sem(k, OfLock(l)).value > 0 then Down(k, OfLock(l)) else k
    case SetHolder =>
      if !curr.mode.Entering? then k
      else PutLock(Put(k, me, curr.(mode := Free)), curr.mode.lock, LockAt(k, curr.mode.lock).(holder := Some(me)))
    case ClearHolder(l) => PutLock(Put(k, me, curr.(mode := Leaving(l))), l, LockAt(k, l).(holder := None))
    case LockUp => if !curr.mode.Leaving? then k else Preempt(Up(LetGo(k), OfLock(curr.mode.lock)))
  }

  /** The owner is about to raise the value of the lock's semaphore. */
  ghost function LetGo(k: State): State
    requires At(k, k.current).mode.Leaving?
  {
    var (me, curr) := (k.current, At(k, k.current));
    PutLock(Put(k, me, curr.(mode := Free)), curr.mode.lock,
            LockAt(k, curr.mode.lock).(owners := LockAt(k, curr.mode.lock).owners - {me}))
  }

  // ---------- the invariant: lists ----------

  ghost predicate Has(k: State, t: Tid, status: Status) {
    t in k.threads && k.threads[t].status == status
  }

  /** The ready list holds the READY threads, except idle.  In this and the next predicates the
      threads of "out" are between two lists. */
  ghost predicate ReadyOk(k: State, out: set<Tid>) {
    && NoDup(k.ready)
    && forall t :: t in k.ready <==> Has(k, t, Ready) && t != k.idle && t !in out
  }

  ghost predicate SleepOk(k: State, out: set<Tid>) {
    && NoDup(k.sleepers)
    && forall t :: t in k.sleepers <==> Has(k, t, Blocked) && At(k, t).mode == Asleep && t !in out
  }

  ghost predicate QueueOk(k: State, s: SemaId, out: set<Tid>) {
    && NoDup(Sem(k, s).waiters)
    && forall t :: t in Sem(k, s).waiters <==> Has(k, t, Blocked) && At(k, t).mode == Downing(s) && t !in out
  }

  ghost predicate QueuesOk(k: State, out: set<Tid>) {
    forall s :: s in k.semas ==> QueueOk(k, s, out)
  }

  ghost predicate DeadOk(k: State) {
    && NoDup(k.destruction)
    && forall t :: t in k.destruction ==> Has(k, t, Dying)
  }

  ghost predicate ModeOk(k: State, t: Tid) {
    var th := At(k, t);
    && (th.status == Blocked && t != k.idle ==> th.mode == Asleep || th.mode.Downing?)
    && (th.mode == Asleep ==> th.status == Blocked)
    && (th.status == Dying ==> th.mode == Free)
    && (th.mode.Downing? ==> th.mode.s in k.semas)
  }

  ghost predicate ModesOk(k: State, out: set<Tid>) {
    && k.idle in k.threads && k.threads[k.idle].mode == Free && k.threads[k.idle].status != Dying
    && forall t :: t in k.threads && t !in out ==> ModeOk(k, t)
  }

  /** Lists, statuses and modes agree. */
  ghost predicate Lists(k: State, out: set<Tid>) {
    ReadyOk(k, out) && SleepOk(k, out) && QueuesOk(k, out) && DeadOk(k) && ModesOk(k, out)
  }

  ghost predicate OneRunning(k: State) {
    forall t :: Has(k, t, Running) <==> t == k.current
  }

  // ---------- the invariant: semaphores and locks ----------

  /** The thread is in the loop of sema_down, awake. */
  ghost predicate InLoop(k: State, t: Tid, s: SemaId) {
    At(k, t).mode == Downing(s) && At(k, t).status != Blocked
  }

  /** Accounts of one semaphore: nothing is lost, and every unit of value that a waiter could
      take has a woken thread on its way to test it. */
  ghost predicate SemaOk(k: State, s: SemaId) {
    var sema := Sem(k, s);
    && sema.value + sema.downs == sema.initial + sema.ups
    && (forall t :: t in sema.woken <==> InLoop(k, t, s))
    && (sema.waiters != [] ==> sema.value <= |sema.woken|)
  }

  ghost predicate InTransit(k: State, l: nat, t: Tid) {
    At(k, t).mode == Entering(l) || At(k, t).mode == Leaving(l)
  }

  /** The value and the owners of one lock exclude each other, and the holder is the owner. */
  ghost predicate LockOk(k: State, l: nat) {
    var lock := LockAt(k, l);
    && Sem(k, OfLock(l)).value + |lock.owners| == 1
    && (lock.holder != None ==> lock.owners == {lock.holder.value})
    && (forall t: Tid :: InTransit(k, l, t) ==> lock.owners == {t} && lock.holder == None)
    && (lock.holder == None ==> forall t :: t in lock.owners ==> InTransit(k, l, t))
  }

  ghost predicate SemasOk(k: State) {
    forall s :: s in k.semas ==> SemaOk(k, s)
  }

  ghost predicate LocksOk(k: State) {
    && (forall l :: l in k.locks <==> OfLock(l) in k.semas)
    && (forall l :: l in k.locks ==> LockOk(k, l))
    && (forall l, t :: InTransit(k, l, t) ==> l in k.locks)
  }

  ghost predicate Synch(k: State) {
    SemasOk(k) && LocksOk(k)
  }

  // ---------- the invariant: orders ----------

  /** When a sleeping thread must be woken: at its wake-up tick, but not before the next tick. */
  ghost function DueTick(th: Thread): int {
    if th.wakeupTick > th.sleptAt + 1 then th.wakeupTick else th.sleptAt + 1
  }

  /** The sleep list is in wake-up order, and nobody on it is overdue. */
  ghost predicate Sleepers(k: State) {
    && Sorted(ByWakeup(k), k.sleepers)
    && forall t :: t in k.sleepers ==> At(k, t).sleptAt <= k.ticks < DueTick(At(k, t))
  }

  /** "a" is to run before "b": higher priority, or the same and longer on the list. */
  ghost predicate Before(k: State, a: Tid, b: Tid) {
    At(k, a).priority > At(k, b).priority
    || (At(k, a).priority == At(k, b).priority && At(k, a).arrived < At(k, b).arrived)
  }

  /** "a" stands before "b" on the ready list.  Nothing is above a thread before it unless it was raised
      where it stood. */
  ghost predicate Ahead(k: State, a: Tid, b: Tid) {
    b !in k.raised ==> At(k, a).priority >= At(k, b).priority && (a !in k.raised ==> Before(k, a, b))
  }

  ghost predicate InOrder(k: State) {
    && (forall t :: t in k.ready ==> At(k, t).arrived < k.clock)
    && (forall i, j :: 0 <= i < j < |k.ready| ==> Ahead(k, k.ready[i], k.ready[j]))
  }

  ghost predicate Inv(k: State) {
    Lists(k, {}) && k.current !in k.destruction && OneRunning(k) && Synch(k) && Sleepers(k) && InOrder(k)
  }
}
