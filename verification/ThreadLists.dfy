/** The lists of threads as the C code keeps them: a thread has one list_elem, and the ready list, the sleep
    list, the list of threads to be freed and the waiters of every semaphore are linked through it. */
module ThreadLists {
  import opened StableOrder
  import opened KernelList
  import opened Scheduler
  import opened SchedulerSteps
  import opened Sequences

  /** The threads whose elements are on a list. */
  ghost function Ids(q: seq<Elem>): (r: seq<Tid>)
    ensures |r| == |q| && forall i :: 0 <= i < |q| ==> r[i] == q[i].owner
  {
    seq(|q|, i requires 0 <= i < |q| => q[i].owner)
  }

  /** A comparison function sees the threads that the elements are in. */
  ghost predicate Compares(cmp: (Elem, Elem) -> bool, less: (Tid, Tid) -> bool, q: seq<Elem>) {
    forall a, b :: a in q && b in q ==> cmp(a, b) == less(a.owner, b.owner)
  }

  lemma {:induction false} IdsInserted(cmp: (Elem, Elem) -> bool, less: (Tid, Tid) -> bool, q: seq<Elem>, x: Elem)
    requires Compares(cmp, less, [x] + q)
    ensures Ids(InsertOrdered(cmp, q, x)) == InsertOrdered(less, Ids(q), x.owner)
  {
    if q != [] {
      assert x in [x] + q && q[0] in [x] + q;
      if !cmp(x, q[0]) {
        assert forall a :: a in [x] + q[1..] ==> a in [x] + q;
        assert Ids(q)[1..] == Ids(q[1..]);
        IdsInserted(cmp, less, q[1..], x);
      }
    }
  }

  lemma {:induction false} IdsSorted(cmp: (Elem, Elem) -> bool, less: (Tid, Tid) -> bool, q: seq<Elem>)
    requires Compares(cmp, less, q)
    ensures Ids(InsertionSort(cmp, q)) == InsertionSort(less, Ids(q))
  {
    if q != [] {
      var (front, x) := (q[..|q| - 1], q[|q| - 1]);
      var sorted := InsertionSort(cmp, front);
      SortedMembers(cmp, front);
      FrontOf(cmp, less, q, sorted);
      IdsSorted(cmp, less, front);
      IdsInserted(cmp, less, sorted, x);
    }
  }

  lemma FrontOf(cmp: (Elem, Elem) -> bool, less: (Tid, Tid) -> bool, q: seq<Elem>, sorted: seq<Elem>)
    requires q != [] && Compares(cmp, less, q) && forall a :: a in sorted <==> a in q[..|q| - 1]
    ensures Ids(q)[..|q| - 1] == Ids(q[..|q| - 1]) && Ids(q)[|q| - 1] == q[|q| - 1].owner
    ensures Compares(cmp, less, q[..|q| - 1]) && Compares(cmp, less, [q[|q| - 1]] + sorted)
  {
  }

  /** thread_priority_cmp and thread_wakeup_tick_cmp, given the values that they find in the threads. */
  function Above(values: map<Tid, int>): (Elem, Elem) -> bool {
    (a: Elem, b: Elem) => Found(values, a.owner) > Found(values, b.owner)
  }

  function Below(values: map<Tid, int>): (Elem, Elem) -> bool {
    (a: Elem, b: Elem) => Found(values, a.owner) < Found(values, b.owner)
  }

  function Found(values: map<Tid, int>, t: Tid): int {
    if t in values then values[t] else 0
  }

  /** struct thread.  The last two fields are history. */
  class Tcb {
    const elem: Elem
    var status: Status
    var priority: int
    var wakeupTick: int
    var mode: Mode
    ghost var sleptAt: int
    ghost var arrived: nat

    /** init_thread */
    constructor (t: Tid, priority: int)
      ensures fresh(elem) && elem.owner == t && Value() == Thread(Blocked, priority, 0, Free, 0, 0)
    {
      elem := new Elem(t);
      status, this.priority, wakeupTick, mode := Blocked, priority, 0, Free;
      sleptAt, arrived := 0, 0;
    }

    ghost function Value(): Thread
      reads this
    {
      Thread(status, priority, wakeupTick, mode, sleptAt, arrived)
    }
  }

  /** struct semaphore.  The last four fields are history. */
  class Semaphore {
    const waiters: List
    var value: nat
    ghost var woken: set<Tid>
    ghost var initial: nat
    ghost var ups: nat
    ghost var downs: nat

    /** sema_init */
    constructor (v: nat)
      ensures fresh(waiters) && fresh(waiters.Nodes()) && waiters.Valid() && waiters.elems == []
      ensures Value() == Sema(v, [], {}, v, 0, 0)
    {
      waiters := new List();
      value := v;
      woken, initial, ups, downs := {}, v, 0, 0;
    }

    ghost function Value(): Sema
      reads this, waiters
    {
      Sema(value, Ids(waiters.elems), woken, initial, ups, downs)
    }
  }
}
