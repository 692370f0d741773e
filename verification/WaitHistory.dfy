/** What process_wait returns, told by the events of a run alone: who made whom, who exited with which status, who
    has been waited for. */
module WaitHistory {
  import opened ProcessWait
  import opened Sequences

  // ---------- the events ----------

  ghost function Front(es: seq<Event>): seq<Event>
    requires es != []
  {
    es[..|es| - 1]
  }

  ghost function Last(es: seq<Event>): Event
    requires es != []
  {
    es[|es| - 1]
  }

  /** The number that the next thread gets. */
  ghost function Tids(es: seq<Event>): nat
    decreases |es|
  {
    if es == [] then 1 else Tids(Front(es)) + if Last(es).Create? then 1 else 0
  }

  /** The child of the thread's latest call of process_wait. */
  ghost function LastWait(es: seq<Event>, t: Tid): Option<Tid>
    decreases |es|
  {
    if es == [] then None
    else if Last(es).CallWait? && Last(es).t == t then Some(Last(es).child)
    else LastWait(Front(es), t)
  }

  /** The status with which a thread has exited, 0 where it gave none. */
  ghost function ExitStatus(es: seq<Event>, t: Tid): Option<int>
    decreases |es|
  {
    if es == [] then None
    else if Last(es).CallExit? && Last(es).t == t
      then Some(if Last(es).status.Some? then Last(es).status.value else 0)
    else ExitStatus(Front(es), t)
  }

  /** "c" was made by "t" and has not been waited for to the end by it. */
  ghost predicate IsChild(es: seq<Event>, t: Tid, c: Tid)
    decreases |es|
  {
    es != [] &&
    ((Last(es) == Create(t) && Tids(Front(es)) == c)
     || (IsChild(Front(es), t, c) && !(Last(es) == Unlink(t) && LastWait(Front(es), t) == Some(c))))
  }

  /** What the calls of process_wait must return, in order. */
  ghost function Returns(es: seq<Event>): seq<Return>
    decreases |es|
  {
    if es == [] then []
    else
      var (front, e) := (Front(es), Last(es));
      if e.CallWait? && !IsChild(front, e.t, e.child) then Returns(front) + [Return(e.t, e.child, -1, false)]
      else if e.Finish? && LastWait(front, e.t).Some? && ExitStatus(front, LastWait(front, e.t).value).Some? then
        var c := LastWait(front, e.t).value;
        Returns(front) + [Return(e.t, c, ExitStatus(front, c).value, true)]
      else Returns(front)
  }

  // ---------- runs, from their ends ----------

  lemma {:induction false} RunSnoc(s: State, es: seq<Event>)
    requires es != [] && LegalRun(s, es)
    ensures LegalRun(s, Front(es)) && Enabled(Run(s, Front(es)), Last(es))
    ensures Run(s, es) == Apply(Run(s, Front(es)), Last(es))
    decreases |es|
  {
    if |es| > 1 {
      RunSnoc(Apply(s, es[0]), es[1..]);
      assert Front(es)[1..] == Front(es[1..]) && Last(es[1..]) == Last(es);
    } else {
      assert Run(s, es) == Run(Apply(s, es[0]), []);
    }
  }

  // ---------- the state agrees with the events ----------

  ghost predicate InWait(phase: Phase, c: Tid) {
    (phase.Waiting? || phase.HasRead? || phase.Unlinked? || phase.Released?) && phase.child == c
  }

  ghost predicate HasValue(phase: Phase, c: Tid, v: int) {
    (phase.HasRead? || phase.Unlinked? || phase.Released?) && phase.child == c && phase.value == v
  }

  ghost predicate ProcAgrees(s: State, es: seq<Event>, t: Tid)
    requires t in s.procs
  {
    var p := s.procs[t];
    && (forall c: Tid :: c in p.children <==> IsChild(es, t, c))
    && (forall c: Tid :: InWait(p.phase, c) ==> LastWait(es, t) == Some(c))
    && (forall c: Tid, v :: HasValue(p.phase, c, v) ==> ExitStatus(es, c) == Some(v))
    && (if p.phase == Exiting || p.phase == Offered then ExitStatus(es, t) == Some(p.status)
        else p.phase == Dead || p.status == 0)
  }

  ghost predicate Agrees(s: State, es: seq<Event>) {
    && s.nextTid == Tids(es)
    && (forall t :: t in s.procs ==> ProcAgrees(s, es, t))
    && (forall t: Tid, c: Tid :: t >= Tids(es) ==> !IsChild(es, t, c))
    && s.log == Returns(es)
  }

  /** One more event of another kind, or of another thread, changes nothing that was told of a thread. */
  lemma OthersTold(es: seq<Event>, t: Tid, c: Tid)
    requires es != []
    ensures !(Last(es).CallWait? && Last(es).t == t) ==> LastWait(es, t) == LastWait(Front(es), t)
    ensures !(Last(es).CallExit? && Last(es).t == t) ==> ExitStatus(es, t) == ExitStatus(Front(es), t)
    ensures !(Last(es).Unlink? && Last(es).t == t) && !(Last(es).Create? && Last(es).t == t) ==>
      (IsChild(es, t, c) <==> IsChild(Front(es), t, c))
  {
  }

  /** A thread that has exited, or never was, does not exit again. */
  lemma NoSecondExit(s: State, e: Event, t: Tid, c: Tid, v: int)
    requires Inv(s) && Enabled(s, e) && t in s.procs && HasValue(s.procs[t].phase, c, v)
    ensures !(e.CallExit? && e.t == c)
  {
    assert ProcOk(s, t);
    if c in s.procs { assert ProcOk(s, c); }
  }

  lemma ReturnsTold(es: seq<Event>)
    requires es != [] && !Last(es).CallWait? && !Last(es).Finish?
    ensures Returns(es) == Returns(Front(es))
  {
  }

  /** A thread of which the event tells nothing, and whose children, phase and status stay. */
  lemma Untold(s: State, s': State, es: seq<Event>, t: Tid)
    requires Inv(s) && es != [] && t in s.procs && t in s'.procs && ProcAgrees(s, Front(es), t) && Enabled(s, Last(es))
    requires
      var (e, p, p') := (Last(es), s.procs[t], s'.procs[t]);
      && p'.children == p.children && p'.phase == p.phase && p'.status == p.status
      && (e.t != t || e.Offer? || e.Depart? || e.Reap? || e.ReadStatus? || e.Release? || e.Finish?)
    ensures ProcAgrees(s', es, t)
  {
    var p := s.procs[t];
    forall c: Tid ensures c in p.children <==> IsChild(es, t, c) { OthersTold(es, t, c); }
    OthersTold(es, t, 0);
    forall c: Tid, v | HasValue(p.phase, c, v) ensures ExitStatus(es, c) == Some(v) {
      NoSecondExit(s, Last(es), t, c, v);
      OthersTold(es, c, 0);
    }
  }

  /** Nothing is told of threads that have not been made. */
  lemma NothingTold(s: State, es: seq<Event>)
    requires Inv(s) && es != [] && Agrees(s, Front(es)) && Enabled(s, Last(es))
    ensures forall t: Tid, c: Tid :: t >= Tids(es) ==> !IsChild(es, t, c)
  {
    assert ProcOk(s, Last(es).t);
    forall t: Tid, c: Tid | t >= Tids(es) ensures !IsChild(es, t, c) { OthersTold(es, t, c); }
  }

  lemma NewAgrees(s: State, es: seq<Event>, t: Tid, n: Tid)
    requires Inv(s) && es != [] && Agrees(s, Front(es)) && Last(es) == Create(t) && Enabled(s, Create(t))
    requires n == s.nextTid
    ensures ProcAgrees(Apply(s, Create(t)), es, n)
  {
    assert ProcOk(s, t);
    forall c: Tid ensures !IsChild(es, n, c) { OthersTold(es, n, c); }
  }

  lemma MakerAgrees(s: State, es: seq<Event>, t: Tid)
    requires Inv(s) && es != [] && Agrees(s, Front(es)) && Last(es) == Create(t) && Enabled(s, Create(t))
    ensures ProcAgrees(Apply(s, Create(t)), es, t)
  {
    assert ProcOk(s, t) && ProcAgrees(s, Front(es), t);
    OthersTold(es, t, 0);
    var kids := Apply(s, Create(t)).procs[t].children;
    forall c: Tid ensures c in kids <==> IsChild(es, t, c) {}
  }

  lemma CreateAgrees(s: State, es: seq<Event>, t: Tid)
    requires Inv(s) && es != [] && Agrees(s, Front(es)) && Last(es) == Create(t) && Enabled(s, Create(t))
    ensures Agrees(Apply(s, Create(t)), es)
  {
    var s' := Apply(s, Create(t));
    ReturnsTold(es);
    NothingTold(s, es);
    NewAgrees(s, es, t, s.nextTid);
    MakerAgrees(s, es, t);
    forall p | p in s'.procs && p != s.nextTid && p != t ensures ProcAgrees(s', es, p) {
      Untold(s, s', es, p);
    }
  }

  lemma CallExitAgrees(s: State, es: seq<Event>, t: Tid, status: Option<int>)
    requires Inv(s) && es != [] && Agrees(s, Front(es)) && Last(es) == CallExit(t, status)
    requires Enabled(s, CallExit(t, status))
    ensures Agrees(Apply(s, CallExit(t, status)), es)
  {
    var s' := Apply(s, CallExit(t, status));
    ReturnsTold(es);
    NothingTold(s, es);
    assert ProcAgrees(s, Front(es), t);
    forall c: Tid ensures IsChild(es, t, c) <==> IsChild(Front(es), t, c) { OthersTold(es, t, c); }
    forall p | p in s'.procs && p != t ensures ProcAgrees(s', es, p) { Untold(s, s', es, p); }
  }

  /** Steps of a thread on its way out. */
  lemma LeavingAgrees(s: State, es: seq<Event>, e: Event)
    requires Inv(s) && es != [] && Agrees(s, Front(es)) && Last(es) == e && Enabled(s, e)
    requires e.Offer? || e.Depart? || e.Reap?
    ensures Agrees(Apply(s, e), es)
  {
    var s' := Apply(s, e);
    ReturnsTold(es);
    NothingTold(s, es);
    assert ProcAgrees(s, Front(es), e.t);
    forall c: Tid ensures IsChild(es, e.t, c) <==> IsChild(Front(es), e.t, c) { OthersTold(es, e.t, c); }
    OthersTold(es, e.t, 0);
    forall p | p in s'.procs && p != e.t ensures ProcAgrees(s', es, p) { Untold(s, s', es, p); }
  }

  lemma CallWaitAgrees(s: State, es: seq<Event>, t: Tid, c: Tid)
    requires Inv(s) && es != [] && Agrees(s, Front(es)) && Last(es) == CallWait(t, c) && Enabled(s, CallWait(t, c))
    ensures Agrees(Apply(s, CallWait(t, c)), es)
  {
    var s' := Apply(s, CallWait(t, c));
    NothingTold(s, es);
    assert ProcAgrees(s, Front(es), t);
    forall d: Tid ensures IsChild(es, t, d) <==> IsChild(Front(es), t, d) { OthersTold(es, t, d); }
    forall p | p in s'.procs && p != t ensures ProcAgrees(s', es, p) { Untold(s, s', es, p); }
  }

  /** ReadStatus and Release change the semaphores of the child, and nothing else that is told of it. */
  lemma ReadStatusAgrees(s: State, es: seq<Event>, t: Tid)
    requires Inv(s) && es != [] && Agrees(s, Front(es)) && Last(es) == ReadStatus(t) && Enabled(s, ReadStatus(t))
    ensures Agrees(Apply(s, ReadStatus(t)), es)
  {
    var (s', c) := (Apply(s, ReadStatus(t)), s.procs[t].phase.child);
    ReturnsTold(es);
    NothingTold(s, es);
    assert ProcOk(s, t) && ProcOk(s, c) && ProcAgrees(s, Front(es), t) && ProcAgrees(s, Front(es), c);
    forall d: Tid ensures IsChild(es, t, d) <==> IsChild(Front(es), t, d) { OthersTold(es, t, d); }
    OthersTold(es, t, 0);
    OthersTold(es, c, 0);
    assert InWait(s.procs[t].phase, c);
    forall p | p in s'.procs && p != t ensures ProcAgrees(s', es, p) { Untold(s, s', es, p); }
  }

  lemma UnlinkAgrees(s: State, es: seq<Event>, t: Tid)
    requires Inv(s) && es != [] && Agrees(s, Front(es)) && Last(es) == Unlink(t) && Enabled(s, Unlink(t))
    ensures Agrees(Apply(s, Unlink(t)), es)
  {
    var (s', c, v) := (Apply(s, Unlink(t)), s.procs[t].phase.child, s.procs[t].phase.value);
    ReturnsTold(es);
    NothingTold(s, es);
    assert ProcOk(s, t) && ProcAgrees(s, Front(es), t);
    assert InWait(s.procs[t].phase, c) && HasValue(s.procs[t].phase, c, v);
    OthersTold(es, t, 0);
    OthersTold(es, c, 0);
    WithoutMembers(s.procs[t].children, c);
    forall d: Tid ensures d in s'.procs[t].children <==> IsChild(es, t, d) {}
    forall p | p in s'.procs && p != t ensures ProcAgrees(s', es, p) { Untold(s, s', es, p); }
  }

  lemma ReleaseAgrees(s: State, es: seq<Event>, t: Tid)
    requires Inv(s) && es != [] && Agrees(s, Front(es)) && Last(es) == Release(t) && Enabled(s, Release(t))
    ensures Agrees(Apply(s, Release(t)), es)
  {
    var (s', c, v) := (Apply(s, Release(t)), s.procs[t].phase.child, s.procs[t].phase.value);
    ReturnsTold(es);
    NothingTold(s, es);
    assert ProcAgrees(s, Front(es), t);
    assert InWait(s.procs[t].phase, c) && HasValue(s.procs[t].phase, c, v);
    forall d: Tid ensures IsChild(es, t, d) <==> IsChild(Front(es), t, d) { OthersTold(es, t, d); }
    OthersTold(es, t, 0);
    OthersTold(es, c, 0);
    forall p | p in s'.procs && p != t ensures ProcAgrees(s', es, p) { Untold(s, s', es, p); }
  }

  lemma FinishAgrees(s: State, es: seq<Event>, t: Tid)
    requires Inv(s) && es != [] && Agrees(s, Front(es)) && Last(es) == Finish(t) && Enabled(s, Finish(t))
    ensures Agrees(Apply(s, Finish(t)), es)
  {
    var (s', c, v) := (Apply(s, Finish(t)), s.procs[t].phase.child, s.procs[t].phase.value);
    NothingTold(s, es);
    assert ProcAgrees(s, Front(es), t);
    assert InWait(s.procs[t].phase, c) && HasValue(s.procs[t].phase, c, v);
    forall d: Tid ensures IsChild(es, t, d) <==> IsChild(Front(es), t, d) { OthersTold(es, t, d); }
    forall p | p in s'.procs && p != t ensures ProcAgrees(s', es, p) { Untold(s, s', es, p); }
  }

  lemma StepAgrees(s: State, es: seq<Event>)
    requires Inv(s) && es != [] && Agrees(s, Front(es)) && Enabled(s, Last(es))
    ensures Agrees(Apply(s, Last(es)), es)
  {
    match Last(es)
    case Create(t) => CreateAgrees(s, es, t);
    case CallExit(t, status) => CallExitAgrees(s, es, t, status);
    case CallWait(t, c) => CallWaitAgrees(s, es, t, c);
    case ReadStatus(t) => ReadStatusAgrees(s, es, t);
    case Unlink(t) => UnlinkAgrees(s, es, t);
    case Release(t) => ReleaseAgrees(s, es, t);
    case Finish(t) => FinishAgrees(s, es, t);
    case _ => LeavingAgrees(s, es, Last(es));
  }

  lemma {:induction false} RunAgrees(es: seq<Event>)
    requires LegalRun(Boot(), es)
    ensures Agrees(Run(Boot(), es), es)
    decreases |es|
  {
    if es != [] {
      RunSnoc(Boot(), es);
      RunAgrees(Front(es));
      EveryRunFromBoot(Front(es));
      StepAgrees(Run(Boot(), Front(es)), es);
    }
  }

  /** process_wait returns what the events of the run say it must: -1 at once for who is not, or no longer, a child, and
      otherwise the status with which the child exited. */
  lemma ReturnsAreAsTold(es: seq<Event>)
    requires LegalRun(Boot(), es)
    ensures Run(Boot(), es).log == Returns(es)
  {
    RunAgrees(es);
  }

  /** The event that the latest status comes from. */
  lemma {:induction false} ExitTold(es: seq<Event>, t: Tid) returns (j: nat)
    requires ExitStatus(es, t).Some?
    ensures j < |es| && es[j].CallExit? && es[j].t == t
    ensures ExitStatus(es, t).value == if es[j].status.Some? then es[j].status.value else 0
    decreases |es|
  {
    if Last(es).CallExit? && Last(es).t == t { j := |es| - 1; } else { j := ExitTold(Front(es), t); }
  }

  lemma {:induction false} WaitTold(es: seq<Event>, t: Tid) returns (j: nat)
    requires LastWait(es, t).Some?
    ensures j < |es| && es[j] == CallWait(t, LastWait(es, t).value)
    decreases |es|
  {
    if Last(es).CallWait? && Last(es).t == t { j := |es| - 1; } else { j := WaitTold(Front(es), t); }
  }

  lemma {:induction false} ReturnTold(es: seq<Event>, i: nat) returns (a: nat, b: nat)
    requires i < |Returns(es)| && Returns(es)[i].got
    ensures a < |es| && es[a] == CallWait(Returns(es)[i].parent, Returns(es)[i].child)
    ensures b < |es| && es[b].CallExit? && es[b].t == Returns(es)[i].child
    ensures Returns(es)[i].value == if es[b].status.Some? then es[b].status.value else 0
    decreases |es|
  {
    var front := Front(es);
    if i < |Returns(front)| {
      a, b := ReturnTold(front, i);
    } else {
      a := WaitTold(front, Last(es).t);
      b := ExitTold(front, LastWait(front, Last(es).t).value);
    }
  }

  /** Whatever status process_wait delivers, the child has called exit with it, and the parent process_wait for it. */
  lemma DeliveredWasExit(es: seq<Event>, i: nat) returns (a: nat, b: nat)
    requires LegalRun(Boot(), es) && i < |Run(Boot(), es).log| && Run(Boot(), es).log[i].got
    ensures
      var r := Run(Boot(), es).log[i];
      && a < |es| && es[a] == CallWait(r.parent, r.child)
      && b < |es| && es[b].CallExit? && es[b].t == r.child
      && r.value == if es[b].status.Some? then es[b].status.value else 0
  {
    ReturnsAreAsTold(es);
    a, b := ReturnTold(es, i);
  }

  /** No thread exits twice, so the status is the one of its only exit. */
  lemma {:induction false} ExitsOnce(es: seq<Event>, i: nat, j: nat)
    requires LegalRun(Boot(), es) && i < j < |es| && es[i].CallExit? && es[j].CallExit?
    ensures es[i].t != es[j].t
    decreases |es|
  {
    RunSnoc(Boot(), es);
    if j < |es| - 1 {
      ExitsOnce(Front(es), i, j);
    } else {
      HasExited(Front(es), i);
    }
  }

  ghost predicate Out(s: State, t: Tid) {
    t < s.nextTid && (t in s.procs ==> s.procs[t].phase in {Exiting, Offered, Dead})
  }

  lemma {:induction false} HasExited(es: seq<Event>, i: nat)
    requires LegalRun(Boot(), es) && i < |es| && es[i].CallExit?
    ensures Out(Run(Boot(), es), es[i].t)
    decreases |es|
  {
    RunSnoc(Boot(), es);
    EveryRunFromBoot(Front(es));
    var s := Run(Boot(), Front(es));
    assert ProcOk(s, Last(es).t);
    if i < |es| - 1 {
      HasExited(Front(es), i);
      StaysOut(s, Last(es), es[i].t);
    }
  }

  lemma StaysOut(s: State, e: Event, t: Tid)
    requires Inv(s) && Enabled(s, e) && Out(s, t)
    ensures Out(Apply(s, e), t)
  {
    assert ProcOk(s, e.t);
  }

  // ---------- nobody waits in vain ----------

  /** A thread in sema_down of its exit_sema has raised its wait_sema, or been let go. */
  ghost predicate Signalled(s: State, c: Tid)
    requires c in s.procs
  {
    s.procs[c].phase == Offered ==>
      if c in s.released then s.procs[c].exitSema == 1
      else s.procs[c].waitSema == 1 || (c in s.makers && Consumed(s, s.makers[c], c))
  }

  ghost predicate Signals(s: State) {
    forall c :: c in s.procs ==> Signalled(s, c)
  }

  lemma StepSignals(s: State, e: Event, c: Tid)
    requires Inv(s) && Signals(s) && Enabled(s, e) && c in Apply(s, e).procs
    ensures Signalled(Apply(s, e), c)
  {
    assert ProcOk(s, e.t);
    if c in s.procs {
      assert ProcOk(s, c) && Signalled(s, c);
      if e.t != c && !e.ReadStatus? && !e.Unlink? && !e.Release? { SignalStays(s, e, c); }
    }
  }

  /** Others neither raise nor lower the semaphores of a thread, but its parent in process_wait. */
  lemma SignalStays(s: State, e: Event, c: Tid)
    requires Inv(s) && Enabled(s, e) && c in s.procs && Signalled(s, c) && e.t != c
    requires !e.ReadStatus? && !e.Unlink? && !e.Release?
    ensures c in Apply(s, e).procs && Signalled(Apply(s, e), c)
  {
    assert ProcOk(s, e.t) && ProcOk(s, c);
  }

  lemma {:induction false} RunSignals(es: seq<Event>)
    requires LegalRun(Boot(), es)
    ensures Signals(Run(Boot(), es))
    decreases |es|
  {
    if es != [] {
      RunSnoc(Boot(), es);
      EveryRunFromBoot(Front(es));
      RunSignals(Front(es));
      var s := Run(Boot(), Front(es));
      forall c | c in Run(Boot(), es).procs ensures Signalled(Run(Boot(), es), c) { StepSignals(s, Last(es), c); }
    }
  }

  /** In every reachable state each thread can take a step, but a parent whose child has not come to the sema_up of its
      exit, and a child whose parent has not come to the sema_up of process_wait. */
  lemma NobodyIsStuck(es: seq<Event>, t: Tid) returns (e: Event)
    requires LegalRun(Boot(), es) && t in Run(Boot(), es).procs
    ensures
      var s := Run(Boot(), es);
      var phase := s.procs[t].phase;
      || (e.t == t && Enabled(s, e))
      || (phase.Waiting? && phase.child in s.procs && s.procs[phase.child].phase != Offered
          && s.procs[phase.child].phase != Dead)
      || (phase == Offered && t !in s.released)
  {
    EveryRunFromBoot(es);
    RunSignals(es);
    var s := Run(Boot(), es);
    assert ProcOk(s, t) && Signalled(s, t);
    match s.procs[t].phase
    case Free => e := Create(t);
    case Waiting(c) =>
      assert ProcOk(s, c) && Signalled(s, c);
      e := ReadStatus(t);
    case HasRead(_, _) => e := Unlink(t);
    case Unlinked(_, _) => e := Release(t);
    case Released(_, _) => e := Finish(t);
    case Exiting => e := Offer(t);
    case Offered => e := Depart(t);
    case Dead => e := Reap(t);
  }
}
