/** lib/kernel/list.c: the intrusive doubly linked list and its natural merge sort,
    on the prev/next links that the C code rewrites.

    A whole list is a "chain": the head sentinel, the interior elements, the tail
    sentinel.  Methods that the source gives bare element pointers say which list the
    pointers are in by ghost parameters, the parts of the chain between the pointers. */
module KernelList {
  import opened StableOrder

  /** struct list_elem.  "owner" names the structure that it is a member of: list_entry. */
  class Elem {
    const owner: nat
    var prev: Elem?
    var next: Elem?

    constructor (owner: nat)
      ensures this.owner == owner
    {
      this.owner := owner;
    }
  }

  ghost predicate Distinct(c: seq<Elem>) {
    c == [] || (c[0] !in c[1..] && Distinct(c[1..]))
  }

  /** Neighbours in "s" point at each other. */
  ghost predicate Linked(s: seq<Elem>)
    reads s
  {
    && (forall i {:trigger s[i].next} :: 0 <= i < |s| - 1 ==> s[i].next == s[i + 1])
    && (forall i {:trigger s[i].prev} :: 0 < i < |s| ==> s[i].prev == s[i - 1])
  }

  /** "c" is a well-formed list with sentinels c[0] and c[|c|-1]. */
  ghost predicate Chain(c: seq<Elem>)
    reads c
  {
    |c| >= 2 && Distinct(c) && Linked(c) && c[0].prev == null && c[|c| - 1].next == null
  }

  twostate predicate SameLinks(e: Elem)
    reads e
  {
    e.next == old(e.next) && e.prev == old(e.prev)
  }

  ghost predicate Apart(a: seq<Elem>, b: seq<Elem>) {
    forall x :: x in a ==> x !in b
  }

  // ---------- chains and their parts ----------

  lemma {:induction false} DistinctConcat(a: seq<Elem>, b: seq<Elem>)
    ensures Distinct(a + b) <==> Distinct(a) && Distinct(b) && Apart(a, b)
  {
    if a == [] {
      assert a + b == b;
    } else {
      assert (a + b)[1..] == a[1..] + b;
      DistinctConcat(a[1..], b);
      assert forall x :: x in a <==> x == a[0] || x in a[1..];
    }
  }

  lemma {:induction false} Ends(s: seq<Elem>)
    requires Distinct(s)
    ensures forall i :: 0 < i < |s| ==> s[i] != s[0]
    ensures forall i :: 0 <= i < |s| - 1 ==> s[i] != s[|s| - 1]
  {
    if |s| > 1 {
      Ends(s[1..]);
      forall i | 0 < i < |s| ensures s[i] != s[0] { assert s[i] == s[1..][i - 1]; }
      forall i | 0 <= i < |s| - 1 ensures s[i] != s[|s| - 1] {
        assert s[|s| - 1] == s[1..][|s| - 2];
        if i > 0 { assert s[i] == s[1..][i - 1]; }
      }
    }
  }

  ghost predicate Seam(a: seq<Elem>, b: seq<Elem>)
    reads a, b
  {
    a != [] && b != [] ==> a[|a| - 1].next == b[0] && b[0].prev == a[|a| - 1]
  }

  lemma LinkedConcat(a: seq<Elem>, b: seq<Elem>)
    ensures Linked(a + b) <==> Linked(a) && Linked(b) && Seam(a, b)
  {
    if Linked(a + b) {
      forall i {:trigger a[i].next} | 0 <= i < |a| - 1
        ensures a[i].next == a[i + 1] { assert (a + b)[i].next == (a + b)[i + 1]; }
      forall i {:trigger a[i].prev} | 0 < i < |a|
        ensures a[i].prev == a[i - 1] { assert (a + b)[i].prev == (a + b)[i - 1]; }
      forall i {:trigger b[i].next} | 0 <= i < |b| - 1 ensures b[i].next == b[i + 1] {
        assert (a + b)[|a| + i].next == (a + b)[|a| + i + 1];
      }
      forall i {:trigger b[i].prev} | 0 < i < |b| ensures b[i].prev == b[i - 1] {
        assert (a + b)[|a| + i].prev == (a + b)[|a| + i - 1];
      }
      if a != [] && b != [] {
        assert (a + b)[|a| - 1].next == (a + b)[|a|] && (a + b)[|a|].prev == (a + b)[|a| - 1];
      }
    }
  }

  /** What a chain cut in two looks like. */
  lemma ChainCut(a: seq<Elem>, b: seq<Elem>)
    requires a != [] && b != []
    ensures Chain(a + b) <==>
      (&& Distinct(a) && Distinct(b) && Apart(a, b) && Linked(a) && Linked(b) && Seam(a, b)
       && a[0].prev == null && b[|b| - 1].next == null)
  {
    DistinctConcat(a, b);
    LinkedConcat(a, b);
    var c := a + b;
    assert c[0] == a[0] && c[|c| - 1] == b[|b| - 1];
  }

  predicate IsHead(e: Elem)
    reads e
  {
    e.prev == null && e.next != null
  }

  predicate IsInterior(e: Elem)
    reads e
  {
    e.prev != null && e.next != null
  }

  predicate IsTail(e: Elem)
    reads e
  {
    e.prev != null && e.next == null
  }

  /** The run-time tests of the source tell the three kinds of element apart. */
  lemma Kinds(c: seq<Elem>, i: nat)
    requires Chain(c) && i < |c|
    ensures IsHead(c[i]) <==> i == 0
    ensures IsInterior(c[i]) <==> 0 < i < |c| - 1
    ensures IsTail(c[i]) <==> i == |c| - 1
  {
    if i > 0 { assert c[i].prev == c[i - 1]; }
    if i < |c| - 1 { assert c[i].next == c[i + 1]; }
  }

  /** list_insert: "elem" goes just before "before", an interior element or the tail. */
  method Insert(before: Elem, elem: Elem, ghost x: seq<Elem>, ghost y: seq<Elem>)
    requires Chain(x + y) && x != [] && y != [] && before == y[0] && elem !in x + y
    modifies x[|x| - 1], before, elem
    ensures Chain(x + [elem] + y)
  {
    ChainCut(x, y);
    Ends(x);
    Ends(y);
    assert x[|x| - 1] in x && y[0] in y && elem !in x && elem !in y;
    elem.prev := before.prev;
    elem.next := before;
    before.prev.next := elem;
    before.prev := elem;
    assert Linked(x) && Linked(y) && Linked([elem]) && Distinct([elem]);
    ChainParts(x, [elem], y);
  }

  /** list_remove: unlinks "elem" and returns the element that followed it. */
  method Remove(elem: Elem, ghost x: seq<Elem>, ghost y: seq<Elem>) returns (next: Elem)
    requires Chain(x + [elem] + y) && x != [] && y != []
    modifies x[|x| - 1], y[0]
    ensures next == y[0] && Chain(x + y)
  {
    ChainParts(x, [elem], y);
    Ends(x);
    Ends(y);
    assert x[|x| - 1] in x && y[0] in y;
    elem.prev.next := elem.next;
    elem.next.prev := elem.prev;
    next := elem.next;
    assert Linked(x) && Linked(y);
    ChainCut(x, y);
  }

  /** What a chain cut in three looks like. */
  lemma ChainParts(a: seq<Elem>, m: seq<Elem>, b: seq<Elem>)
    requires a != [] && m != [] && b != []
    ensures Chain(a + m + b) <==>
      (&& Distinct(a) && Distinct(m) && Distinct(b) && Apart(a, m) && Apart(m, b) && Apart(a, b)
       && Linked(a) && Linked(m) && Linked(b) && Seam(a, m) && Seam(m, b)
       && a[0].prev == null && b[|b| - 1].next == null)
  {
    ChainCut(a + m, b);
    DistinctConcat(a, m);
    LinkedConcat(a, m);
    assert (a + m)[0] == a[0] && (a + m)[|a + m| - 1] == m[|m| - 1];
    assert forall z :: z in a + m <==> z in a || z in m;
  }

  /** First half of list_splice: takes the range "m", from "first" to "final", out of its list. */
  method CutRange(first: Elem, final: Elem, ghost x: seq<Elem>, ghost m: seq<Elem>, ghost y: seq<Elem>)
    requires Chain(x + m + y) && x != [] && y != [] && m != [] && m[0] == first && m[|m| - 1] == final
    modifies x[|x| - 1], y[0]
    ensures Chain(x + y) && Linked(m) && Distinct(m) && Apart(m, x + y)
  {
    ChainParts(x, m, y);
    Ends(x);
    Ends(y);
    assert x[|x| - 1] in x && y[0] in y;
    first.prev.next := final.next;
    final.next.prev := first.prev;
    assert Linked(x) && Linked(y) && Linked(m);
    ChainCut(x, y);
  }

  /** The outer links of the range "m" go to its new neighbours. */
  method AimRange(before: Elem, first: Elem, final: Elem, ghost m: seq<Elem>)
    requires m != [] && m[0] == first && m[|m| - 1] == final && Linked(m) && Distinct(m) && before !in m
    modifies first, final
    ensures Linked(m) && first.prev == before.prev && final.next == before
  {
    Ends(m);
    first.prev := before.prev;
    final.next := before;
  }

  /** Second half of list_splice: puts the detached range "m" just before "before". */
  method PasteRange(before: Elem, first: Elem, final: Elem, ghost m: seq<Elem>, ghost u: seq<Elem>, ghost v: seq<Elem>)
    requires Chain(u + v) && u != [] && v != [] && before == v[0]
    requires m != [] && m[0] == first && m[|m| - 1] == final && Linked(m) && Distinct(m) && Apart(m, u + v)
    modifies first, final, u[|u| - 1], before
    ensures Chain(u + m + v)
  {
    ChainCut(u, v);
    Ends(u);
    Ends(v);
    assert first in m && final in m && before in v && u[|u| - 1] in u;
    assert before in u + v && u[|u| - 1] in u + v;
    AimRange(before, first, final, m);
    before.prev.next := first;
    before.prev := final;
    assert Linked(u) && Linked(v) && Linked(m);
    ChainParts(u, m, v);
  }

  /** list_splice: the range "m" of the list x + m + y moves to just before "before".  The
      destination u + v is what is left of the same list, or another list altogether; so within
      one list "before" must not lie in the range. */
  method Splice(before: Elem, first: Elem, last: Elem,
                ghost x: seq<Elem>, ghost m: seq<Elem>, ghost y: seq<Elem>, ghost u: seq<Elem>, ghost v: seq<Elem>)
    requires Chain(x + m + y) && x != [] && y != [] && first == (m + y)[0] && last == y[0]
    requires u != [] && v != [] && before == v[0]
    requires u + v == x + y || (Chain(u + v) && Apart(u + v, x + m + y))
    modifies x[|x| - 1], y[0], m, u[|u| - 1], before
    ensures Chain(u + m + v)
    ensures u + v != x + y ==> Chain(x + y)
  {
    if first == last {
      EmptyRange(x, m, y);
      assert u + m + v == u + v;
      return;
    }
    ChainParts(x, m, y) by { EmptyUnlessApart(m, y); }
    var final := last.prev;
    Bystanders(x, m, y, u, v);
    CutRange(first, final, x, m, y);
    label L:
    PasteRange(before, first, final, m, u, v);
    if u + v != x + y {
      assert first in m && final in m;
      assert unchanged@L(x + y);
    }
  }

  lemma EmptyUnlessApart(m: seq<Elem>, y: seq<Elem>)
    requires y != [] && (m + y)[0] != y[0]
    ensures m != []
  {
  }

  lemma EmptyRange(x: seq<Elem>, m: seq<Elem>, y: seq<Elem>)
    requires Distinct(x + m + y) && y != [] && (m + y)[0] == y[0]
    ensures m == [] && x + m + y == x + y
  {
    DistinctConcat(x + m, y);
    assert forall z :: z in m ==> z in x + m;
    assert y[0] in y;
  }

  /** Cutting the range out does not disturb another list, nor does pasting it disturb this one. */
  lemma Bystanders(x: seq<Elem>, m: seq<Elem>, y: seq<Elem>, u: seq<Elem>, v: seq<Elem>)
    requires x != [] && y != [] && u != [] && v != []
    requires Distinct(x + m + y) && (u + v == x + y || Apart(u + v, x + m + y))
    ensures u + v != x + y ==> x[|x| - 1] !in u + v && y[0] !in u + v
    ensures u + v != x + y ==> u[|u| - 1] !in x + y && v[0] !in x + y
    ensures Apart(m, u + v) && Apart(m, x + y)
  {
    DistinctConcat(x + m, y);
    DistinctConcat(x, m);
    assert forall z :: z in x + m + y <==> z in x || z in m || z in y;
    assert x[|x| - 1] in x && y[0] in y && u[|u| - 1] in u && v[0] in v;
  }

  // ---------- runs and merging on the links ----------

  /** find_end_of_run: the exclusive end of the run that starts "s" and ends by "b".  The ghost
      results are that run and what follows it. */
  method FindEndOfRun(a: Elem, b: Elem, less: (Elem, Elem) -> bool, ghost x: seq<Elem>, ghost s: seq<Elem>,
      ghost y: seq<Elem>)
    returns (e: Elem, ghost r: seq<Elem>, ghost t: seq<Elem>)
    requires Chain(x + s + y) && x != [] && s != [] && y != [] && a == s[0] && b == y[0]
    ensures s == r + t && r != [] && e == (t + y)[0]
    ensures IsRun(less, r)
    ensures t != [] ==> less(t[0], r[|r| - 1])
    ensures e == b <==> t == []
  {
    ChainParts(x, s, y);
    Step(s, y, 0);
    e := a.next;
    ghost var k := 1;
    while e != b && !less(e, e.prev)
      invariant 1 <= k <= |s| && e == (if k < |s| then s[k] else b)
      invariant IsRun(less, s[..k])
      decreases |s| - k
    {
      Step(s, y, k);
      assert s[..k + 1] == s[..k] + [s[k]];
      e, k := e.next, k + 1;
    }
    if k < |s| { Step(s, y, k); }
    r, t := s[..k], s[k..];
  }

  lemma Step(s: seq<Elem>, y: seq<Elem>, k: nat)
    requires Linked(s) && Seam(s, y) && Apart(s, y) && k < |s| && y != []
    ensures s[k].next == if k + 1 < |s| then s[k + 1] else y[0]
    ensures k > 0 ==> s[k].prev == s[k - 1]
    ensures s[k] != y[0]
  {
    assert s[k] in s && y[0] in y;
  }

  /** inplace_merge: the adjacent runs "a" and "b" become their stable merge. */
  method InplaceMerge(start: Elem, middle: Elem, end: Elem, less: (Elem, Elem) -> bool,
                      ghost p: seq<Elem>, ghost a: seq<Elem>, ghost b: seq<Elem>, ghost q: seq<Elem>)
    requires Chain(p + (a + b) + q) && p != [] && a != [] && b != [] && q != []
    requires start == a[0] && middle == b[0] && end == q[0]
    modifies p, a, b, q
    ensures Chain(p + Merge(less, a, b) + q)
  {
    var a0, a1b0, b1 := start, middle, end;
    ghost var front, xs, ys := p, a, b;
    while a0 != a1b0 && a1b0 != b1
      invariant Chain(front + (xs + ys) + q) && front != []
      invariant front + Merge(less, xs, ys) == p + Merge(less, a, b)
      invariant a0 == (xs + (ys + q))[0] && a1b0 == (ys + q)[0] && b1 == q[0]
      invariant Among(front, p, a, b) && Among(xs, p, a, b) && Among(ys, p, a, b)
      decreases |xs| + |ys|
    {
      MergeHeads(front, xs, ys, q);
      if !less(a1b0, a0) {
        a0 := a0.next;
        TakeLeft(less, front, xs, ys, q);
        front, xs := front + [xs[0]], xs[1..];
      } else {
        a1b0 := a1b0.next;
        TakeRight(less, front, xs, ys, q);
        MayModify(front, xs, ys, q, p, a, b);
        Splice(a0, a1b0.prev, a1b0, front + xs, [ys[0]], ys[1..] + q, front, xs + (ys[1..] + q));
        front, ys := front + [ys[0]], ys[1..];
      }
    }
    MergeEnds(front, xs, ys, q);
    assert xs + ys == Merge(less, xs, ys);
  }

  /** Every element of "s" is among the parts that the merge may relink. */
  ghost predicate Among(s: seq<Elem>, p: seq<Elem>, a: seq<Elem>, b: seq<Elem>) {
    forall x :: x in s ==> Within(x, p, a, b)
  }

  ghost predicate Within(x: Elem, p: seq<Elem>, a: seq<Elem>, b: seq<Elem>) {
    x in p || x in a || x in b
  }

  lemma MergeHeads(p: seq<Elem>, xs: seq<Elem>, ys: seq<Elem>, q: seq<Elem>)
    requires Chain(p + (xs + ys) + q) && p != [] && q != []
    requires (xs + (ys + q))[0] != (ys + q)[0] && (ys + q)[0] != q[0]
    ensures xs != [] && ys != []
    ensures xs[0].next == (xs[1..] + (ys + q))[0]
    ensures ys[0].next == (ys[1..] + q)[0] && (ys[1..] + q)[0].prev == ys[0]
  {
    ChainParts(p, xs + ys, q);
    LinkedConcat(xs, ys);
    assert ys[|ys| - 1] == (xs + ys)[|xs + ys| - 1];
  }

  lemma MergeEnds(p: seq<Elem>, xs: seq<Elem>, ys: seq<Elem>, q: seq<Elem>)
    requires Chain(p + (xs + ys) + q) && p != [] && q != []
    requires (xs + (ys + q))[0] == (ys + q)[0] || (ys + q)[0] == q[0]
    ensures xs == [] || ys == []
  {
    DistinctConcat(p + (xs + ys), q);
    DistinctConcat(p, xs + ys);
    DistinctConcat(xs, ys);
    assert forall z :: z in ys ==> z in p + (xs + ys);
    assert q[0] in q && (xs != [] ==> xs[0] in xs);
    assert ys != [] ==> ys[0] in ys;
    assert forall z :: z in xs ==> z in p + (xs + ys);
  }

  lemma TakeLeft(less: (Elem, Elem) -> bool, p: seq<Elem>, xs: seq<Elem>, ys: seq<Elem>, q: seq<Elem>)
    requires xs != [] && ys != [] && !less(ys[0], xs[0])
    ensures p + (xs + ys) + q == (p + [xs[0]]) + (xs[1..] + ys) + q
    ensures p + Merge(less, xs, ys) == (p + [xs[0]]) + Merge(less, xs[1..], ys)
  {
  }

  lemma TakeRight(less: (Elem, Elem) -> bool, p: seq<Elem>, xs: seq<Elem>, ys: seq<Elem>, q: seq<Elem>)
    requires xs != [] && ys != [] && less(ys[0], xs[0])
    ensures p + (xs + ys) + q == (p + xs) + [ys[0]] + (ys[1..] + q)
    ensures p + (xs + (ys[1..] + q)) == (p + xs) + (ys[1..] + q)
    ensures p + [ys[0]] + (xs + (ys[1..] + q)) == (p + [ys[0]]) + (xs + ys[1..]) + q
    ensures p + Merge(less, xs, ys) == (p + [ys[0]]) + Merge(less, xs, ys[1..])
  {
    assert ys == [ys[0]] + ys[1..];
    Shuffle(p, xs, [ys[0]], ys[1..], q);
    Associate(p, [ys[0]], Merge(less, xs, ys[1..]));
  }

  lemma Associate<T>(a: seq<T>, b: seq<T>, c: seq<T>)
    ensures a + (b + c) == (a + b) + c
  {
  }

  lemma Shuffle(p: seq<Elem>, xs: seq<Elem>, h: seq<Elem>, t: seq<Elem>, q: seq<Elem>)
    ensures p + (xs + (h + t)) + q == (p + xs) + h + (t + q)
    ensures p + (xs + (t + q)) == (p + xs) + (t + q)
    ensures p + h + (xs + (t + q)) == (p + h) + (xs + t) + q
  {
  }

  lemma MayModify(front: seq<Elem>, xs: seq<Elem>, ys: seq<Elem>, q: seq<Elem>, p: seq<Elem>, a: seq<Elem>,
      b: seq<Elem>)
    requires front != [] && xs != [] && ys != [] && q != []
    requires Among(front, p, a, b) && Among(xs, p, a, b) && Among(ys, p, a, b)
    ensures Within((front + xs)[|front + xs| - 1], p, a, b) && Within(ys[0], p, a, b)
    ensures Within(front[|front| - 1], p, a, b) && Within(xs[0], p, a, b)
    ensures (ys[1..] + q)[0] in q || Within((ys[1..] + q)[0], p, a, b)
    ensures Among(front + [ys[0]], p, a, b) && Among(ys[1..], p, a, b)
  {
    assert (front + xs)[|front + xs| - 1] == xs[|xs| - 1];
    assert (ys[1..] + q)[0] == if |ys| > 1 then ys[1] else q[0];
    assert forall i :: 0 <= i < |ys| ==> ys[i] in ys;
    assert forall i :: 0 <= i < |xs| ==> xs[i] in xs;
    assert front[|front| - 1] in front && q[0] in q;
  }

  // ---------- lists ----------

  ghost function Reverse<T>(s: seq<T>): seq<T> {
    if s == [] then [] else Reverse(s[1..]) + [s[0]]
  }

  class List {
    const head: Elem
    const tail: Elem
    ghost var elems: seq<Elem>

    /** The sentinels and the elements. */
    ghost function Nodes(): seq<Elem>
      reads this
    {
      [head] + elems + [tail]
    }

    ghost predicate Valid()
      reads this, head, tail, elems
    {
      Chain(Nodes())
    }

    /** A list is as it was when none of its links has been written. */
    twostate lemma Kept()
      requires old(Valid()) && Nodes() == old(Nodes()) && forall e :: e in Nodes() ==> SameLinks(e)
      ensures Valid()
    {
      forall i | 0 <= i < |Nodes()| ensures SameLinks(Nodes()[i]) {}
    }

    /** list_init */
    constructor ()
      ensures Valid() && elems == [] && fresh(Nodes())
    {
      var h := new Elem(0);
      var t := new Elem(0);
      head, tail, elems := h, t, [];
      new;
      head.prev, head.next := null, tail;
      tail.prev, tail.next := head, null;
      assert Distinct([tail]) && Distinct([]);
      assert ([head] + elems + [tail])[1..] == [tail];
    }

    /** list_empty */
    predicate Empty()
      requires Valid()
      reads this, head, tail, elems
      ensures Empty() <==> elems == []
    {
      Front(head, elems, tail);
      head.next == tail
    }

    /** list_front */
    function First(): (front: Elem)
      requires Valid() && elems != []
      reads this, head, tail, elems
      ensures front == elems[0]
    {
      Front(head, elems, tail);
      head.next
    }

    /** list_push_back */
    method PushBack(elem: Elem)
      requires Valid() && elem !in [head] + elems + [tail]
      modifies this, head, tail, elems, elem
      ensures Valid() && elems == old(elems) + [elem]
    {
      Insert(tail, elem, [head] + elems, [tail]);
      assert [head] + (elems + [elem]) + [tail] == [head] + elems + [elem] + [tail];
      elems := elems + [elem];
    }

    /** list_push_front */
    method PushFront(elem: Elem)
      requires Valid() && elem !in [head] + elems + [tail]
      modifies this, head, tail, elems, elem
      ensures Valid() && elems == [elem] + old(elems)
    {
      Front(head, elems, tail);
      assert [head] + elems + [tail] == [head] + (elems + [tail]);
      Insert(head.next, elem, [head], elems + [tail]);
      assert [head] + ([elem] + elems) + [tail] == [head] + [elem] + (elems + [tail]);
      elems := [elem] + elems;
    }

    /** list_pop_front */
    method PopFront() returns (front: Elem)
      requires Valid() && elems != []
      modifies this, head, tail, elems
      ensures Valid() && front == old(elems)[0] && elems == old(elems)[1..] && front !in Nodes()
    {
      Front(head, elems, tail);
      ghost var c := Nodes();
      OnlyAt(c, 1);
      front := head.next;
      assert [head] + elems + [tail] == [head] + [front] + (elems[1..] + [tail]);
      var _ := Remove(front, [head], elems[1..] + [tail]);
      assert [head] + elems[1..] + [tail] == [head] + (elems[1..] + [tail]);
      elems := elems[1..];
      forall i | 0 <= i < |Nodes()| ensures Nodes()[i] != front { assert Nodes()[i] == c[if i == 0 then 0 else i + 1]; }
    }

    /** The search of list_insert_ordered: the first element that "elem" is less than, or the tail. */
    method FindPlace(elem: Elem, less: (Elem, Elem) -> bool)
        returns (e: Elem, ghost passed: seq<Elem>, ghost left: seq<Elem>)
      requires Valid()
      ensures elems == passed + left && e == (left + [tail])[0]
      ensures InsertOrdered(less, elems, elem) == passed + [elem] + left
    {
      passed, left := [], elems;
      Front(head, elems, tail);
      e := head.next;
      while e != tail && !less(elem, e)
        invariant elems == passed + left && e == (left + [tail])[0]
        invariant forall y :: y in passed ==> !less(elem, y)
        decreases |left|
      {
        Advance(head, passed, left, tail);
        e := e.next;
        passed, left := passed + [left[0]], left[1..];
      }
      if e == tail { AtTail(head, passed, left, tail); }
      InsertedBetween(less, passed, left, elem);
    }

    /** list_insert_ordered: "elem" goes before the first element it is less than. */
    method InsertOrderly(elem: Elem, less: (Elem, Elem) -> bool)
      requires Valid() && elem !in [head] + elems + [tail]
      modifies this, head, tail, elems, elem
      ensures Valid() && elems == InsertOrdered(less, old(elems), elem)
    {
      var e, passed, left := FindPlace(elem, less);
      Neighbours(head, passed, left, tail, elems);
      Insert(e, elem, [head] + passed, left + [tail]);
      elems := passed + [elem] + left;
      assert [head] + elems + [tail] == ([head] + passed) + [elem] + (left + [tail]);
    }

    /** list_sort */
    method Sort(less: (Elem, Elem) -> bool)
      requires Valid() && StrictWeak(less, Elements(elems))
      modifies this, head, tail, elems
      ensures Valid() && Sorted(less, elems) && StableReorder(less, old(elems), elems)
      ensures elems == InsertionSort(less, old(elems))
    {
      ghost var s := elems;
      assert forall x :: x in [head] + elems + [tail] ==> x in {head, tail} + Elements(s);
      ghost var e := SortChain(head, tail, less, s, {head, tail} + Elements(s));
      InsertionSortStable(less, s);
      SortedReordersAgree(less, s, e, InsertionSort(less, s));
      elems := e;
    }

    /** list_reverse: swaps the links of every element, then those of the sentinels. */
    method ReverseInPlace()
      requires Valid()
      modifies this, head, tail, elems
      ensures Valid() && elems == Reverse(old(elems))
    {
      Front(head, elems, tail);
      if head.next == tail { return; }
      ghost var s, n := elems, |elems|;
      ChainParts([head], s, [tail]);
      assert head in [head] && tail in [tail];
      SwapLinks(head.next, head, tail, s);
      assert s[0].next == head && s[n - 1].prev == tail;
      head.next, tail.prev := tail.prev, head.next;
      var (first, final) := (head.next, tail.prev);
      OnlyAt(s, 0);
      OnlyAt(s, n - 1);
      assert s[0] in s && s[n - 1] in s;
      elems := Reverse(s);
      first.prev, final.next := final.next, first.prev;
      ReversedChain(s, head, tail);
    }
  }

  /** How far one pass over "s" has come: its front part "s0" has become "done". */
  ghost predicate Progress(less: (Elem, Elem) -> bool, s: seq<Elem>, s0: seq<Elem>, done: seq<Elem>, rest: seq<Elem>,
      outputRuns: nat) {
    && s == s0 + rest && StableReorder(less, s0, done)
    && Runs(less, done) <= outputRuns
    && 2 * outputRuns + Runs(less, rest) <= Runs(less, s)
  }

  /** What one pass achieves. */
  ghost predicate PassDone(less: (Elem, Elem) -> bool, s: seq<Elem>, e: seq<Elem>, outputRuns: nat) {
    StableReorder(less, s, e) && Runs(less, e) <= outputRuns && 2 * outputRuns <= Runs(less, s) + 1
  }

  /** The last turn, when a single run is left over. */
  lemma LastRun(less: (Elem, Elem) -> bool, s: seq<Elem>, s0: seq<Elem>, done: seq<Elem>, rest: seq<Elem>,
      outputRuns: nat)
    requires Progress(less, s, s0, done, rest, outputRuns) && rest != [] && IsRun(less, rest)
    requires StrictWeak(less, Elements(s))
    ensures PassDone(less, s, done + rest, outputRuns + 1)
  {
    OneRun(less, rest);
    RunsConcat(less, done, rest);
    StableConcat(less, s0, done, rest, rest);
  }

  /** One turn of the pass: the first two runs of the rest become one. */
  lemma MergeStep(less: (Elem, Elem) -> bool, s: seq<Elem>, s0: seq<Elem>, done: seq<Elem>,
                  a: seq<Elem>, b: seq<Elem>, q: seq<Elem>, outputRuns: nat)
    requires Progress(less, s, s0, done, a + (b + q), outputRuns) && a != [] && b != []
    requires StrictWeak(less, Elements(s)) && IsRun(less, a) && IsRun(less, b)
    requires less(b[0], a[|a| - 1]) && (q != [] ==> less(q[0], b[|b| - 1]))
    ensures Progress(less, s, s0 + (a + b), done + Merge(less, a, b), q, outputRuns + 1)
  {
    Prefix(s0, a, b, q);
    MergeRuns(less, s0, done, a, b);
    SplitRuns(less, a, b, q);
  }

  lemma Prefix(s0: seq<Elem>, a: seq<Elem>, b: seq<Elem>, q: seq<Elem>)
    ensures s0 + (a + (b + q)) == s0 + (a + b) + q
    ensures Elements(s0 + (a + b)) <= Elements(s0 + (a + (b + q)))
  {
  }

  lemma MergeRuns(less: (Elem, Elem) -> bool, p: seq<Elem>, p': seq<Elem>, a: seq<Elem>, b: seq<Elem>)
    requires StrictWeak(less, Elements(p + (a + b))) && StableReorder(less, p, p')
    requires IsRun(less, a) && IsRun(less, b)
    ensures StableReorder(less, p + (a + b), p' + Merge(less, a, b))
    ensures Runs(less, p' + Merge(less, a, b)) <= Runs(less, p') + 1
  {
    var o := Merge(less, a, b);
    assert Elements(a) <= Elements(p + (a + b)) && Elements(b) <= Elements(p + (a + b));
    RunIsSorted(less, a);
    RunIsSorted(less, b);
    MergeIsStable(less, a, b);
    StableConcat(less, p, p', a + b, o);
    SortedIsRun(less, o);
    OneRun(less, o);
    RunsConcat(less, p', o);
  }

  lemma SplitRuns(less: (Elem, Elem) -> bool, a: seq<Elem>, b: seq<Elem>, q: seq<Elem>)
    requires a != [] && b != [] && IsRun(less, a) && IsRun(less, b)
    requires less(b[0], a[|a| - 1]) && (q != [] ==> less(q[0], b[|b| - 1]))
    ensures Runs(less, a + (b + q)) == 2 + Runs(less, q)
  {
    OneRun(less, a);
    OneRun(less, b);
    RunsConcat(less, a, b + q);
    RunsConcat(less, b, q);
    if q == [] { assert b + q == b; }
  }

  lemma SameDomain(less: (Elem, Elem) -> bool, h: Elem, s: seq<Elem>, s0: seq<Elem>, done: seq<Elem>, rest: seq<Elem>,
      t: Elem)
    requires s == s0 + rest && StableReorder(less, s0, done)
    ensures forall x :: x in [h] + done + rest + [t] ==> x in [h] + s + [t]
  {
    forall x | x in done ensures x in s0 { assert x in multiset(done); }
  }

  lemma PassEnds(less: (Elem, Elem) -> bool, h: Elem, s: seq<Elem>, s0: seq<Elem>, done: seq<Elem>, rest: seq<Elem>,
                 t: Elem, outputRuns: nat)
    requires Chain([h] + (done + rest) + [t]) && t == (rest + [t])[0]
    requires Progress(less, s, s0, done, rest, outputRuns)
    ensures rest == [] && done + rest == done && PassDone(less, s, done, outputRuns)
  {
    AtTail(h, done, rest, t);
    assert s == s0 && done + rest == done;
  }

  lemma SortedReordersAgree(less: (Elem, Elem) -> bool, s: seq<Elem>, a: seq<Elem>, b: seq<Elem>)
    requires StrictWeak(less, Elements(s)) && Sorted(less, a) && Sorted(less, b)
    requires StableReorder(less, s, a) && StableReorder(less, s, b)
    ensures a == b
  {
    SameElements(s, a);
    forall g | g in a ensures Class(less, g, b) == Class(less, g, a) { assert g in multiset(s); }
    SortedStableUnique(less, a, b);
  }

  lemma Members(a: seq<Elem>, b: seq<Elem>)
    requires Elements(a) == Elements(b)
    ensures forall x :: x in a ==> x in b
  {
    forall x | x in a ensures x in b { assert x in Elements(a); }
  }

  lemma AfterMerge(h: Elem, done: seq<Elem>, o: seq<Elem>, q: seq<Elem>, t: Elem)
    ensures ([h] + done) + o + (q + [t]) == [h] + (done + o) + q + [t]
  {
  }

  /** The loop of list_reverse. */
  method SwapLinks(begin: Elem, head: Elem, tail: Elem, ghost s: seq<Elem>)
    requires Distinct(s) && s != [] && begin == s[0] && tail !in s
    requires forall i :: 0 <= i < |s| ==> Unturned(s, i, head, tail)
    modifies s
    ensures forall i {:trigger s[i].prev} :: 0 <= i < |s| ==> s[i].prev == (if i + 1 < |s| then s[i + 1] else tail)
    ensures forall i {:trigger s[i].next} :: 0 <= i < |s| ==> s[i].next == (if i > 0 then s[i - 1] else head)
  {
    var e := begin;
    ghost var k := 0;
    while e != tail
      invariant k <= |s| && e == (if k < |s| then s[k] else tail)
      invariant forall i :: 0 <= i < k ==> Turned(s, i, head, tail)
      invariant forall i :: k <= i < |s| ==> Unturned(s, i, head, tail)
      decreases |s| - k
    {
      OnlyAt(s, k);
      assert Unturned(s, k, head, tail);
      e.prev, e.next := e.next, e.prev;
      e, k := e.prev, k + 1;
    }
    forall i | 0 <= i < |s|
      ensures s[i].prev == (if i + 1 < |s| then s[i + 1] else tail) && s[i].next == (if i > 0 then s[i - 1] else head)
    {
      assert Turned(s, i, head, tail);
    }
  }

  // ---------- sorting ----------

  /** One iteration of the pass in list_sort, which puts out one run: finds the two runs that
      start at "a0" and merges them.  Returns where they end, or null if there was only one. */
  method SortTurn(a0: Elem, tail: Elem, less: (Elem, Elem) -> bool, ghost p: seq<Elem>, ghost rest: seq<Elem>,
      ghost dom: set<Elem>)
    returns (b1: Elem?, ghost a: seq<Elem>, ghost b: seq<Elem>, ghost q: seq<Elem>)
    requires Chain(p + rest + [tail]) && p != [] && rest != [] && a0 == rest[0]
    requires forall x :: x in p + rest + [tail] ==> x in dom
    modifies dom
    ensures a != [] && IsRun(less, a) && IsRun(less, b)
    ensures b1 == null ==> unchanged(dom) && rest == a
    ensures b1 != null ==> rest == a + (b + q) && b != [] && b1 == (q + [tail])[0]
    ensures b1 != null ==> less(b[0], a[|a| - 1]) && (q != [] ==> less(q[0], b[|b| - 1]))
    ensures b1 != null ==> Chain(p + Merge(less, a, b) + (q + [tail]))
  {
    var a1b0, r1, t1 := FindEndOfRun(a0, tail, less, p, rest, [tail]);
    if a1b0 == tail {
      b1, a, b, q := null, r1, [], [];
      return;
    }
    assert p + (r1 + t1) + [tail] == (p + r1) + t1 + [tail];
    var end, r2, t2 := FindEndOfRun(a1b0, tail, less, p + r1, t1, [tail]);
    assert p + (r1 + (r2 + t2)) + [tail] == p + (r1 + r2) + (t2 + [tail]);
    assert forall x :: x in p + (r1 + r2) + (t2 + [tail]) ==> x in dom;
    InplaceMerge(a0, a1b0, end, less, p, r1, r2, t2 + [tail]);
    b1, a, b, q := end, r1, r2, t2;
  }

  /** One pass of list_sort: merges neighbouring runs two by two and counts the runs it puts out. */
  method SortPass(head: Elem, tail: Elem, less: (Elem, Elem) -> bool, ghost s: seq<Elem>, ghost dom: set<Elem>)
    returns (outputRuns: nat, ghost e: seq<Elem>)
    requires Chain([head] + s + [tail]) && StrictWeak(less, Elements(s))
    requires forall x :: x in [head] + s + [tail] ==> x in dom
    modifies dom
    ensures Chain([head] + e + [tail]) && PassDone(less, s, e, outputRuns)
    ensures outputRuns > 1 ==> Runs(less, e) < Runs(less, s)
  {
    ghost var s0: seq<Elem>, done: seq<Elem>, rest: seq<Elem> := [], [], s;
    Front(head, s, tail);
    assert [] + s == s && [head] + [] == [head];
    var a0: Elem := head.next;
    outputRuns := 0;
    while a0 != tail
      invariant Chain([head] + done + rest + [tail]) && a0 == (rest + [tail])[0]
      invariant Progress(less, s, s0, done, rest, outputRuns)
      decreases |rest|
    {
      SameDomain(less, head, s, s0, done, rest, tail);
      var b1, a, b, q := SortTurn(a0, tail, less, [head] + done, rest, dom);
      outputRuns := outputRuns + 1;
      if b1 == null {
        LastRun(less, s, s0, done, rest, outputRuns - 1);
        e := done + rest;
        Associate([head], done, rest);
        return;
      }
      MergeStep(less, s, s0, done, a, b, q, outputRuns - 1);
      AfterMerge(head, done, Merge(less, a, b), q, tail);
      s0, done, rest := s0 + (a + b), done + Merge(less, a, b), q;
      a0 := b1;
    }
    Associate([head], done, rest);
    PassEnds(less, head, s, s0, done, rest, tail, outputRuns);
    e := done;
  }

  /** list_sort: passes until one pass puts out a single run. */
  method SortChain(head: Elem, tail: Elem, less: (Elem, Elem) -> bool, ghost s: seq<Elem>, ghost dom: set<Elem>)
    returns (ghost e: seq<Elem>)
    requires Chain([head] + s + [tail]) && StrictWeak(less, Elements(s))
    requires forall x :: x in [head] + s + [tail] ==> x in dom
    modifies dom
    ensures Chain([head] + e + [tail]) && Sorted(less, e) && StableReorder(less, s, e)
  {
    var outputRuns;
    outputRuns, e := SortPass(head, tail, less, s, dom);
    while outputRuns > 1
      invariant Chain([head] + e + [tail]) && PassDone(less, s, e, outputRuns)
      decreases Runs(less, e), outputRuns
    {
      ghost var before := e;
      SameElements(s, before);
      Members(before, s);
      assert forall x :: x in [head] + before + [tail] ==> x in dom;
      outputRuns, e := SortPass(head, tail, less, before, dom);
      StableTransitive(less, s, before, e);
    }
    SameElements(s, e);
    OneRun(less, e);
    RunIsSorted(less, e);
  }

  ghost predicate Unturned(s: seq<Elem>, i: nat, head: Elem, tail: Elem)
    requires i < |s|
    reads s[i]
  {
    && s[i].next == (if i + 1 < |s| then s[i + 1] else tail)
    && s[i].prev == (if i > 0 then s[i - 1] else head)
  }

  ghost predicate Turned(s: seq<Elem>, i: nat, head: Elem, tail: Elem)
    requires i < |s|
    reads s[i]
  {
    && s[i].prev == (if i + 1 < |s| then s[i + 1] else tail)
    && s[i].next == (if i > 0 then s[i - 1] else head)
  }

  lemma {:induction false} OnlyAt(s: seq<Elem>, k: nat)
    requires Distinct(s) && k < |s|
    ensures forall i :: 0 <= i < |s| && i != k ==> s[i] != s[k]
  {
    assert s == s[..k] + s[k..];
    DistinctConcat(s[..k], s[k..]);
    Ends(s[k..]);
    forall i | 0 <= i < |s| && i != k ensures s[i] != s[k] {
      if i < k {
        assert s[i] in s[..k] && s[k] == s[k..][0] && s[k] in s[k..];
      } else {
        assert s[i] == s[k..][i - k] && s[k] == s[k..][0];
      }
    }
  }

  lemma {:induction false} ReverseAt(s: seq<Elem>)
    ensures |Reverse(s)| == |s| && forall i :: 0 <= i < |s| ==> Reverse(s)[i] == s[|s| - 1 - i]
    ensures forall x :: x in Reverse(s) <==> x in s
  {
    if s != [] {
      ReverseAt(s[1..]);
      assert forall x :: x in s <==> x == s[0] || x in s[1..];
    }
  }

  lemma {:induction false} ReverseDistinct(s: seq<Elem>)
    requires Distinct(s)
    ensures Distinct(Reverse(s))
  {
    if s != [] {
      ReverseDistinct(s[1..]);
      ReverseAt(s[1..]);
      assert Distinct([s[0]]);
      DistinctConcat(Reverse(s[1..]), [s[0]]);
    }
  }

  lemma ReversedLinks(s: seq<Elem>, r: seq<Elem>)
    requires |r| == |s| && forall i {:trigger r[i]} :: 0 <= i < |s| ==> r[i] == s[|s| - 1 - i]
    requires forall i {:trigger s[i].next} :: 0 < i < |s| ==> s[i].next == s[i - 1]
    requires forall i {:trigger s[i].prev} :: 0 <= i < |s| - 1 ==> s[i].prev == s[i + 1]
    ensures Linked(r)
  {
  }

  lemma ReversedChain(s: seq<Elem>, head: Elem, tail: Elem)
    requires s != [] && Distinct(s) && head !in s && tail !in s && head != tail
    requires forall i {:trigger s[i].next} :: 0 < i < |s| ==> s[i].next == s[i - 1]
    requires forall i {:trigger s[i].prev} :: 0 <= i < |s| - 1 ==> s[i].prev == s[i + 1]
    requires s[|s| - 1].prev == head && s[0].next == tail && head.next == s[|s| - 1] && tail.prev == s[0]
    requires head.prev == null && tail.next == null
    ensures Chain([head] + Reverse(s) + [tail])
  {
    ReverseAt(s);
    ReversedLinks(s, Reverse(s));
    ReverseDistinct(s);
    assert Distinct([head]) && Distinct([tail]);
    ChainParts([head], Reverse(s), [tail]);
  }

  lemma Front(h: Elem, s: seq<Elem>, t: Elem)
    requires Chain([h] + s + [t])
    ensures h.next == (s + [t])[0] && (s == [] <==> h.next == t) && h != t && h !in s && t !in s
  {
    var c := [h] + s + [t];
    assert c[0].next == c[1];
    DistinctConcat([h] + s, [t]);
    DistinctConcat([h], s);
    assert s != [] ==> s[0] in [h] + s;
    assert t in [t] && h in [h] && h in [h] + s;
    assert forall x :: x in s ==> x in [h] + s;
  }

  lemma Advance(h: Elem, p: seq<Elem>, s: seq<Elem>, t: Elem)
    requires Chain([h] + (p + s) + [t]) && (s + [t])[0] != t
    ensures s != [] && s[0].next == (s[1..] + [t])[0] && p + s == p + [s[0]] + s[1..]
  {
    var c := [h] + (p + s) + [t];
    assert c[|p| + 1].next == c[|p| + 2];
  }

  lemma Neighbours(h: Elem, p: seq<Elem>, q: seq<Elem>, t: Elem, s: seq<Elem>)
    requires s == p + q
    ensures ([h] + p) + (q + [t]) == [h] + s + [t]
    ensures ([h] + p)[|p|] == h || ([h] + p)[|p|] in s
    ensures (q + [t])[0] == t || (q + [t])[0] in s
  {
    assert p != [] ==> ([h] + p)[|p|] == s[|p| - 1];
    assert q != [] ==> (q + [t])[0] == s[|p|];
  }

  lemma AtTail(h: Elem, p: seq<Elem>, s: seq<Elem>, t: Elem)
    requires Chain([h] + (p + s) + [t]) && (s + [t])[0] == t
    ensures s == []
  {
    var c := [h] + (p + s) + [t];
    assert c[|p| + 1] == (s + [t])[0];
    SamePosition(c, |p| + 1, |c| - 1);
  }

  lemma SamePosition(c: seq<Elem>, i: nat, j: nat)
    requires Distinct(c) && i < |c| && j < |c| && c[i] == c[j]
    ensures i == j
  {
    OnlyAt(c, i);
  }

  lemma {:induction false} InsertedBetween(less: (Elem, Elem) -> bool, p: seq<Elem>, q: seq<Elem>, x: Elem)
    requires (forall y :: y in p ==> !less(x, y)) && (q != [] ==> less(x, q[0]))
    ensures InsertOrdered(less, p + q, x) == p + [x] + q
  {
    if p == [] {
      assert p + q == q;
    } else {
      assert (p + q)[1..] == p[1..] + q && (p + q)[0] == p[0];
      InsertedBetween(less, p[1..], q, x);
      assert [p[0]] + (p[1..] + [x] + q) == p + [x] + q;
    }
  }
}
