/** The handshake between a parent and its children in userprog/process.c: process_wait, process_exit and
    the freeing of dead threads' pages in threads/thread.c.

    Every thread made by thread_create is a child of its maker.  Between two semaphore operations any thread
    may run, so each piece of code between them is one step. */
module ProcessWait {
  import opened Sequences

  /** allocate_tid never gives out a number twice. */
  type Tid = nat

  /** Where a thread is. */
  datatype Phase =
    | Free                                // in its own code
    | Waiting(child: Tid)                 // in process_wait, before its sema_down is done
    | HasRead(child: Tid, value: int)     // the status is read, the child not yet unlinked
    | Unlinked(child: Tid, value: int)    // the child is unlinked, its exit_sema not yet raised
    | Released(child: Tid, value: int)    // exit_sema is raised, process_wait has yet to return; the child may be gone
    | Exiting                             // the status is set; in process_exit, before its sema_up
    | Offered                             // wait_sema is raised; in sema_down of exit_sema
    | Dead                                // DYING, its page to be freed

  datatype Proc = Proc(parent: Tid, phase: Phase, status: int, children: seq<Tid>, waitSema: nat, exitSema: nat)

  /** What a call of process_wait returned; "got" says that it found the child. */
  datatype Return = Return(parent: Tid, child: Tid, value: int, got: bool)

  /** "procs" has the threads whose pages are not freed.  History: the returns of process_wait, the statuses with
      which threads exited, who made whom, and the children whose exit_sema has been raised. */
  datatype State = State(
    procs: map<Tid, Proc>,
    nextTid: Tid,
    log: seq<Return>,
    final: map<Tid, int>,
    makers: map<Tid, Tid>,
    released: set<Tid>)

  datatype Event =
    | Create(t: Tid)
    | CallExit(t: Tid, status: Option<int>) // exit (status), or thread_exit without it
    | Offer(t: Tid)                       // sema_up (&curr->wait_sema)
    | Depart(t: Tid)                      // sema_down (&curr->exit_sema) done; the thread is DYING
    | Reap(t: Tid)                        // do_schedule frees its page
    | CallWait(t: Tid, child: Tid)        // process_get_child; -1 at once where there is no such child
    | ReadStatus(t: Tid)                  // sema_down (&child->wait_sema) done, exit_status read
    | Unlink(t: Tid)                      // list_remove, after timer_msleep
    | Release(t: Tid)                     // sema_up (&child->exit_sema)
    | Finish(t: Tid)                      // the return of process_wait

  function At(s: State, t: Tid): Proc {
    if t in s.procs then s.procs[t] else Proc(0, Dead, 0, [], 0, 0)
  }

  function Set(s: State, t: Tid, p: Proc): State {
    s.(procs := s.procs[t := p])
  }

  predicate Enabled(s: State, e: Event) {
    e.t in s.procs &&
    match e
    case Create(t) => At(s, t).phase == Free
    case CallExit(t, _) => At(s, t).phase == Free && t != 0
    case Offer(t) => At(s, t).phase == Exiting
    case Depart(t) => At(s, t).phase == Offered && At(s, t).exitSema > 0
    case Reap(t) => At(s, t).phase == Dead
    case CallWait(t, _) => At(s, t).phase == Free
    case ReadStatus(t) => At(s, t).phase.Waiting? && At(s, At(s, t).phase.child).waitSema > 0
    case Unlink(t) => At(s, t).phase.HasRead?
    case Release(t) => At(s, t).phase.Unlinked?
    case Finish(t) => At(s, t).phase.Released?
  }

  function Apply(s: State, e: Event): State
    requires Enabled(s, e)
  {
    var (t, p) := (e.t, At(s, e.t));
    match e
    case Create(_) =>
      Set(Set(s, t, p.(children := p.children + [s.nextTid])), s.nextTid, Proc(t, Free, 0, [], 0, 0))
        .(nextTid := s.nextTid + 1, makers := s.makers[s.nextTid := t])
    case CallExit(_, status) =>
      var final := if status.Some? then status.value else p.status;
      Set(s, t, p.(status := final, phase := Exiting)).(final := s.final[t := final])
    case Offer(_) => Set(s, t, p.(waitSema := p.waitSema + 1, phase := Offered))
    case Depart(_) => Set(s, t, p.(exitSema := p.exitSema - 1, phase := Dead))
    case Reap(_) => s.(procs := s.procs - {t})
    case CallWait(_, c) =>
      if c in p.children then Set(s, t, p.(phase := Waiting(c)))
      else s.(log := s.log + [Return(t, c, -1, false)])
    case ReadStatus(_) =>
      var c := p.phase.child;
      var s1 := Set(s, c, At(s, c).(waitSema := At(s, c).waitSema - 1));
      Set(s1, t, At(s1, t).(phase := HasRead(c, At(s, c).status)))
    case Unlink(_) => Set(s, t, p.(children := Without(p.children, p.phase.child),
      phase := Unlinked(p.phase.child, p.phase.value)))
    case Release(_) =>
      var c := p.phase.child;
      var s1 := if c in s.procs then Set(s, c, At(s, c).(exitSema := At(s, c).exitSema + 1)) else s;
      Set(s1, t, At(s1, t).(phase := Released(c, p.phase.value))).(released := s.released + {c})
    case Finish(_) =>
      Set(s, t, p.(phase := Free)).(log := s.log + [Return(t, p.phase.child, p.phase.value, true)])
  }

  // ---------- the invariant ----------

  /** A call of process_wait has returned the child's status. */
  ghost predicate Returned(s: State, c: Tid) {
    exists i :: 0 <= i < |s.log| && s.log[i].got && s.log[i].child == c
  }

  /** The parent is past reading the status. */
  ghost predicate Consumed(s: State, p: Tid, c: Tid) {
    (At(s, p).phase.HasRead? || At(s, p).phase.Unlinked?) && At(s, p).phase.child == c
  }

  ghost predicate MadeBy(s: State, c: Tid, p: Tid) {
    c in s.makers && s.makers[c] == p
  }

  /** A child that has not been waited for. */
  ghost predicate ChildOk(s: State, p: Tid, c: Tid) {
    && c in s.procs && c != p && MadeBy(s, c, p) && s.procs[c].parent == p && s.procs[c].phase != Dead
    && s.procs[c].exitSema == 0 && c !in s.released
  }

  /** What a thread in process_wait can rely on. */
  ghost predicate WaitOk(s: State, p: Tid)
    requires p in s.procs
  {
    var me := s.procs[p];
    && (me.phase.Waiting? ==> me.phase.child in me.children && !Consumed(s, p, me.phase.child))
    && (me.phase.HasRead? ==> me.phase.child in me.children)
    && (me.phase.Unlinked? ==> me.phase.child !in me.children && ChildOk(s, p, me.phase.child))
    && (me.phase.HasRead? || me.phase.Unlinked? ==>
          me.phase.child in s.procs && s.procs[me.phase.child].phase == Offered
            && s.procs[me.phase.child].waitSema == 0)
    && (me.phase.HasRead? || me.phase.Unlinked? || me.phase.Released? ==>
          me.phase.child in s.final && me.phase.value == s.final[me.phase.child])
    && (me.phase.Released? ==>
          MadeBy(s, me.phase.child, p) && me.phase.child in s.released && !Returned(s, me.phase.child))
  }

  /** How far a thread has come with its exit. */
  ghost predicate ExitOk(s: State, p: Tid)
    requires p in s.procs
  {
    var me := s.procs[p];
    && (me.waitSema > 0 ==> me.waitSema == 1 && me.phase == Offered)
    && (me.phase == Exiting || me.phase == Offered ==> p in s.final && me.status == s.final[p])
    && (me.phase == Dead || me.exitSema > 0 ==> p in s.released)
    && (p in s.released ==> (me.phase == Offered || me.phase == Dead) && me.waitSema == 0)
    && me.exitSema <= 1 && (me.exitSema > 0 ==> me.phase == Offered)
  }

  ghost predicate ProcOk(s: State, p: Tid)
    requires p in s.procs
  {
    var me := s.procs[p];
    && p < s.nextTid && NoDup(me.children) && (forall c :: c in me.children ==> ChildOk(s, p, c))
    && WaitOk(s, p) && ExitOk(s, p)
  }

  ghost predicate LogOk(s: State) {
    && (forall i :: 0 <= i < |s.log| && s.log[i].got ==>
          s.log[i].child in s.released && s.log[i].child in s.final && s.log[i].value == s.final[s.log[i].child])
    && (forall i, j :: 0 <= i < j < |s.log| && s.log[i].got && s.log[j].got ==> s.log[i].child != s.log[j].child)
    && (forall i :: 0 <= i < |s.log| && !s.log[i].got ==> s.log[i].value == -1)
  }

  ghost predicate Inv(s: State) {
    && (forall p :: p in s.procs ==> ProcOk(s, p)) && LogOk(s)
    && (forall c :: c in s.makers ==> c < s.nextTid) && (forall c :: c in s.released ==> c < s.nextTid)
  }

  // ---------- every step keeps it ----------

  /** A longer log returns what a shorter one did. */
  lemma ReturnedMore(s: State, s': State, r: Return)
    requires s'.log == s.log + [r]
    ensures forall c :: Returned(s', c) <==> Returned(s, c) || (r.got && r.child == c)
  {
    forall c ensures Returned(s', c) <==> Returned(s, c) || (r.got && r.child == c) {
      if Returned(s, c) {
        var i :| 0 <= i < |s.log| && s.log[i].got && s.log[i].child == c;
        assert s'.log[i] == s.log[i];
      }
      if r.got && r.child == c { assert s'.log[|s.log|] == r; }
    }
  }

  lemma NoDupSnoc(q: seq<Tid>, t: Tid)
    requires NoDup(q) && t !in q
    ensures NoDup(q + [t])
  {
  }

  lemma CreateKeepsInv(s: State, t: Tid)
    requires Inv(s) && Enabled(s, Create(t))
    ensures Inv(Apply(s, Create(t)))
  {
    var s' := Apply(s, Create(t));
    assert ProcOk(s, t);
    forall p | p in s.procs ensures p != s.nextTid { assert ProcOk(s, p); }
    assert s.nextTid !in At(s, t).children;
    SameLog(s, s');
    forall p | p in s'.procs && p != s.nextTid ensures ProcOk(s', p) { CreateKeepsProc(s, t, p); }
    assert s.nextTid !in s.released;
  }

  lemma CreateKeepsProc(s: State, t: Tid, p: Tid)
    requires Inv(s) && Enabled(s, Create(t)) && p in s.procs
    ensures ProcOk(Apply(s, Create(t)), p)
  {
    var s' := Apply(s, Create(t));
    assert ProcOk(s, t) && ProcOk(s, p);
    forall p | p in s.procs ensures p != s.nextTid { assert ProcOk(s, p); }
    if p == t { NoDupSnoc(At(s, t).children, s.nextTid); }
    SameLog(s, s');
  }

  lemma CallExitKeepsInv(s: State, t: Tid, status: Option<int>)
    requires Inv(s) && Enabled(s, CallExit(t, status))
    ensures Inv(Apply(s, CallExit(t, status)))
  {
    var s' := Apply(s, CallExit(t, status));
    assert ProcOk(s, t) && t !in s.released;
    SameLog(s, s');
    forall p | p in s'.procs ensures ProcOk(s', p) { assert ProcOk(s, p); }
  }

  lemma SameLog(s: State, s': State)
    requires s'.log == s.log
    ensures forall c :: Returned(s', c) <==> Returned(s, c)
  {
  }

  lemma OfferKeepsInv(s: State, t: Tid)
    requires Inv(s) && Enabled(s, Offer(t))
    ensures Inv(Apply(s, Offer(t)))
  {
    var s' := Apply(s, Offer(t));
    assert ProcOk(s, t);
    SameLog(s, s');
    forall p | p in s'.procs ensures ProcOk(s', p) { assert ProcOk(s, p); }
  }

  lemma DepartKeepsInv(s: State, t: Tid)
    requires Inv(s) && Enabled(s, Depart(t))
    ensures Inv(Apply(s, Depart(t)))
  {
    var s' := Apply(s, Depart(t));
    assert ProcOk(s, t);
    SameLog(s, s');
    forall p | p in s'.procs ensures ProcOk(s', p) { assert ProcOk(s, p); }
  }

  lemma ReapKeepsInv(s: State, t: Tid)
    requires Inv(s) && Enabled(s, Reap(t))
    ensures Inv(Apply(s, Reap(t)))
  {
    var s' := Apply(s, Reap(t));
    assert ProcOk(s, t);
    forall p | p in s'.procs ensures ProcOk(s', p) { assert ProcOk(s, p); }
  }

  lemma LogGrows(s: State, s': State, r: Return)
    requires LogOk(s) && s'.log == s.log + [r] && s'.released == s.released && s'.final == s.final
    requires if r.got then !Returned(s, r.child) && r.child in s.released && r.child in s.final
      && r.value == s.final[r.child]
             else r.value == -1
    ensures LogOk(s')
  {
    forall i, j | 0 <= i < j < |s'.log| && s'.log[i].got && s'.log[j].got ensures s'.log[i].child != s'.log[j].child {
      assert s'.log[i] == s.log[i];
      if j < |s.log| { assert s'.log[j] == s.log[j]; }
    }
  }

  lemma NoSuchChild(s: State, t: Tid, c: Tid)
    requires Inv(s) && t in s.procs && s.procs[t].phase == Free && c !in s.procs[t].children
    ensures Inv(s.(log := s.log + [Return(t, c, -1, false)]))
  {
    var s' := s.(log := s.log + [Return(t, c, -1, false)]);
    ReturnedMore(s, s', Return(t, c, -1, false));
    LogGrows(s, s', Return(t, c, -1, false));
    forall p | p in s'.procs ensures ProcOk(s', p) { assert ProcOk(s, p); }
  }

  lemma CallWaitKeepsInv(s: State, t: Tid, c: Tid)
    requires Inv(s) && Enabled(s, CallWait(t, c))
    ensures Inv(Apply(s, CallWait(t, c)))
  {
    var s' := Apply(s, CallWait(t, c));
    assert ProcOk(s, t);
    if c in At(s, t).children {
      SameLog(s, s');
      forall p | p in s'.procs ensures ProcOk(s', p) { assert ProcOk(s, p); }
    } else {
      NoSuchChild(s, t, c);
    }
  }

  lemma ReadStatusKeepsInv(s: State, t: Tid)
    requires Inv(s) && Enabled(s, ReadStatus(t))
    ensures Inv(Apply(s, ReadStatus(t)))
  {
    var (s', c) := (Apply(s, ReadStatus(t)), At(s, t).phase.child);
    assert ProcOk(s, t) && ProcOk(s, c);
    forall p | p in s'.procs ensures ProcOk(s', p) { assert ProcOk(s, p); }
  }

  lemma UnlinkKeepsInv(s: State, t: Tid)
    requires Inv(s) && Enabled(s, Unlink(t))
    ensures Inv(Apply(s, Unlink(t)))
  {
    var (s', c) := (Apply(s, Unlink(t)), At(s, t).phase.child);
    assert ProcOk(s, t) && ProcOk(s, c);
    WithoutMembers(At(s, t).children, c);
    forall p | p in s'.procs ensures ProcOk(s', p) { assert ProcOk(s, p); }
  }

  lemma ReleaseKeepsInv(s: State, t: Tid)
    requires Inv(s) && Enabled(s, Release(t))
    ensures Inv(Apply(s, Release(t)))
  {
    var (s', c) := (Apply(s, Release(t)), At(s, t).phase.child);
    assert ProcOk(s, t) && ProcOk(s, c);
    SameLog(s, s');
    forall p | p in s'.procs ensures ProcOk(s', p) { ReleaseKeepsProc(s, t, p); }
  }

  lemma ReleaseKeepsProc(s: State, t: Tid, p: Tid)
    requires Inv(s) && Enabled(s, Release(t)) && p in s.procs
    ensures ProcOk(Apply(s, Release(t)), p)
  {
    var (s', c) := (Apply(s, Release(t)), At(s, t).phase.child);
    assert ProcOk(s, t) && ProcOk(s, c) && ProcOk(s, p) && !Returned(s, c);
    SameLog(s, s');
    assert WaitOk(s', p);
  }

  lemma FinishKeepsInv(s: State, t: Tid)
    requires Inv(s) && Enabled(s, Finish(t))
    ensures Inv(Apply(s, Finish(t)))
  {
    var (s', r) := (Apply(s, Finish(t)), Return(t, At(s, t).phase.child, At(s, t).phase.value, true));
    assert ProcOk(s, t);
    ReturnedMore(s, s', r);
    LogGrows(s, s', r);
    forall p | p in s'.procs ensures ProcOk(s', p) { assert ProcOk(s, p); }
  }

  lemma StepKeepsInv(s: State, e: Event)
    requires Inv(s) && Enabled(s, e)
    ensures Inv(Apply(s, e))
  {
    match e
    case Create(t) => CreateKeepsInv(s, t);
    case CallExit(t, status) => CallExitKeepsInv(s, t, status);
    case Offer(t) => OfferKeepsInv(s, t);
    case Depart(t) => DepartKeepsInv(s, t);
    case Reap(t) => ReapKeepsInv(s, t);
    case CallWait(t, c) => CallWaitKeepsInv(s, t, c);
    case ReadStatus(t) => ReadStatusKeepsInv(s, t);
    case Unlink(t) => UnlinkKeepsInv(s, t);
    case Release(t) => ReleaseKeepsInv(s, t);
    case Finish(t) => FinishKeepsInv(s, t);
  }

  // ---------- runs ----------

  /** Only the first thread exists. */
  function Boot(): State {
    State(map[0 := Proc(0, Free, 0, [], 0, 0)], 1, [], map[], map[], {})
  }

  ghost predicate LegalRun(s: State, es: seq<Event>)
    decreases |es|
  {
    es == [] || (Enabled(s, es[0]) && LegalRun(Apply(s, es[0]), es[1..]))
  }

  ghost function Run(s: State, es: seq<Event>): State
    requires LegalRun(s, es)
    decreases |es|
  {
    if es == [] then s else Run(Apply(s, es[0]), es[1..])
  }

  lemma BootOk()
    ensures Inv(Boot())
  {
  }

  lemma {:induction false} RunKeepsInv(s: State, es: seq<Event>)
    requires Inv(s) && LegalRun(s, es)
    ensures Inv(Run(s, es))
    decreases |es|
  {
    if es != [] {
      StepKeepsInv(s, es[0]);
      RunKeepsInv(Apply(s, es[0]), es[1..]);
    }
  }

  /** Every history of the machine. */
  lemma EveryRunFromBoot(es: seq<Event>)
    requires LegalRun(Boot(), es)
    ensures Inv(Run(Boot(), es))
  {
    BootOk();
    RunKeepsInv(Boot(), es);
  }

  /** process_wait delivers a child's status at most once, and it is the status with which the child finally
      exited; every other call returns -1. */
  lemma StatusDeliveredAtMostOnce(s0: State, es: seq<Event>, i: nat, j: nat)
    requires Inv(s0) && LegalRun(s0, es) && i < j < |Run(s0, es).log|
    ensures
      var log := Run(s0, es).log;
      && (log[i].child == log[j].child ==> !(log[i].got && log[j].got))
      && (log[i].got ==> log[i].child in Run(s0, es).final && log[i].value == Run(s0, es).final[log[i].child])
      && (!log[i].got ==> log[i].value == -1)
  {
    RunKeepsInv(s0, es);
    assert LogOk(Run(s0, es));
  }

  /** Once a child's exit_sema has been raised, waiting for it again, by whomever, returns -1 at once. */
  lemma RepeatedWaitReturnsMinusOne(s: State, t: Tid, c: Tid)
    requires Inv(s) && c in s.released && Enabled(s, CallWait(t, c))
    ensures Apply(s, CallWait(t, c)).log == s.log + [Return(t, c, -1, false)]
    ensures Apply(s, CallWait(t, c)).procs == s.procs
  {
    assert ProcOk(s, t);
  }

  /** A thread's page is freed only when its parent has read the status, unlinked it and raised its exit_sema;
      no list of children has it then, and a thread still in process_wait has nothing left to do there but to
      return the final status. */
  lemma FreedOnlyAfterRelease(s0: State, es: seq<Event>, t: Tid)
    requires Inv(s0) && LegalRun(s0, es) && Enabled(Run(s0, es), Reap(t))
    ensures
      var s := Run(s0, es);
      && t in s.released
      && (forall p :: p in s.procs ==> t !in s.procs[p].children && !PointsAt(s, p, t))
      && (forall p :: p in s.procs && s.procs[p].phase.Released? && s.procs[p].phase.child == t ==>
            t in s.final && s.procs[p].phase.value == s.final[t])
  {
    RunKeepsInv(s0, es);
    var s := Run(s0, es);
    assert ProcOk(s, t);
    forall p | p in s.procs ensures ProcOk(s, p) {}
  }

  /** The thread is inside process_wait and will use its pointer to the child again. */
  ghost predicate PointsAt(s: State, p: Tid, c: Tid) {
    var phase := At(s, p).phase;
    (phase.Waiting? || phase.HasRead? || phase.Unlinked?) && phase.child == c
  }

  /** Up to the sema_up of process_wait the child that it found still exists. */
  lemma WaitedChildExists(s0: State, es: seq<Event>, p: Tid, c: Tid)
    requires Inv(s0) && LegalRun(s0, es) && p in Run(s0, es).procs && PointsAt(Run(s0, es), p, c)
    ensures c in Run(s0, es).procs && Run(s0, es).procs[c].parent == p
  {
    RunKeepsInv(s0, es);
    assert ProcOk(Run(s0, es), p);
  }
}
