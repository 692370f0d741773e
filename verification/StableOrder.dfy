/** Orders given by a strict "less" function, and what it means for one sequence
    to be a stable sort of another.  This is the vocabulary in which the in-place
    list algorithms of lib/kernel/list.c are specified. */
module StableOrder {

  /** "less" is a strict weak order on the elements of "dom". */
  ghost predicate StrictWeak<T>(less: (T, T) -> bool, dom: set<T>) {
    && (forall x, y :: x in dom && y in dom && less(x, y) ==> !less(y, x))
    && (forall x, y, z :: x in dom && y in dom && z in dom && less(x, z) ==> less(x, y) || less(y, z))
  }

  ghost predicate Sorted<T>(less: (T, T) -> bool, s: seq<T>) {
    forall i, j :: 0 <= i < j < |s| ==> !less(s[j], s[i])
  }

  /** The nondecreasing condition that the code tests: neighbours only. */
  ghost predicate IsRun<T>(less: (T, T) -> bool, s: seq<T>) {
    forall i :: 0 < i < |s| ==> !less(s[i], s[i - 1])
  }

  ghost predicate Equivalent<T>(less: (T, T) -> bool, x: T, y: T) {
    !less(x, y) && !less(y, x)
  }

  ghost function Elements<T>(s: seq<T>): set<T> {
    set x | x in s
  }

  /** The elements of "s" that are equivalent to "g", in order. */
  ghost function Class<T>(less: (T, T) -> bool, g: T, s: seq<T>): seq<T> {
    if s == [] then []
    else (if Equivalent(less, g, s[0]) then [s[0]] else []) + Class(less, g, s[1..])
  }

  /** "after" has the elements of "before", and equivalent elements keep their order. */
  ghost predicate StableReorder<T>(less: (T, T) -> bool, before: seq<T>, after: seq<T>) {
    && multiset(after) == multiset(before)
    && forall g :: g in before ==> Class(less, g, after) == Class(less, g, before)
  }

  // ---------- runs ----------

  ghost function Descents<T>(less: (T, T) -> bool, s: seq<T>): nat {
    if |s| < 2 then 0 else (if less(s[1], s[0]) then 1 else 0) + Descents(less, s[1..])
  }

  /** The number of maximal nondecreasing runs. */
  ghost function Runs<T>(less: (T, T) -> bool, s: seq<T>): nat {
    if s == [] then 0 else 1 + Descents(less, s)
  }

  lemma {:induction false} RunIsSorted<T>(less: (T, T) -> bool, s: seq<T>)
    requires StrictWeak(less, Elements(s)) && IsRun(less, s)
    ensures Sorted(less, s)
  {
    if s != [] {
      assert Elements(s[1..]) <= Elements(s);
      assert IsRun(less, s[1..]) by {
        forall i | 0 < i < |s[1..]| ensures !less(s[1..][i], s[1..][i - 1]) { assert !less(s[i + 1], s[i + 1 - 1]); }
      }
      RunIsSorted(less, s[1..]);
      forall j | 0 < j < |s| ensures !less(s[j], s[0]) {
        if j > 1 {
          assert !less(s[1..][j - 1], s[1..][0]);
          assert s[j] in Elements(s) && s[1] in Elements(s) && s[0] in Elements(s);
          assert !less(s[1], s[1 - 1]);
        }
      }
      forall i, j | 0 <= i < j < |s| ensures !less(s[j], s[i]) {
        if i > 0 { assert !less(s[1..][j - 1], s[1..][i - 1]); }
      }
    }
  }

  lemma SortedIsRun<T>(less: (T, T) -> bool, s: seq<T>)
    requires Sorted(less, s)
    ensures IsRun(less, s)
  {
    forall i | 0 < i < |s| ensures !less(s[i], s[i - 1]) { assert 0 <= i - 1 < i < |s|; }
  }

  /** A sequence is one run exactly when it has no descent. */
  lemma {:induction false} OneRun<T>(less: (T, T) -> bool, s: seq<T>)
    ensures IsRun(less, s) <==> Runs(less, s) <= 1
  {
    if |s| >= 2 {
      OneRun(less, s[1..]);
      if IsRun(less, s) {
        forall i | 0 < i < |s[1..]| ensures !less(s[1..][i], s[1..][i - 1]) { assert !less(s[i + 1], s[i + 1 - 1]); }
      }
      if Runs(less, s) <= 1 {
        forall i | 0 < i < |s| ensures !less(s[i], s[i - 1]) {
          if i > 1 { assert !less(s[1..][i - 1], s[1..][i - 2]); }
        }
      }
    }
  }

  /** Concatenation joins at most one pair of runs, and joins none at a descent. */
  lemma {:induction false} RunsConcat<T>(less: (T, T) -> bool, a: seq<T>, b: seq<T>)
    ensures Runs(less, a + b) <= Runs(less, a) + Runs(less, b)
    ensures a != [] && b != [] && less(b[0], a[|a| - 1]) ==> Runs(less, a + b) == Runs(less, a) + Runs(less, b)
  {
    if a == [] {
      assert a + b == b;
    } else if b == [] {
      assert a + b == a;
    } else if |a| == 1 {
      assert (a + b)[1..] == b;
    } else {
      assert (a + b)[1..] == a[1..] + b;
      RunsConcat(less, a[1..], b);
    }
  }

  // ---------- merging ----------

  /** The stable merge: an element of "b" goes first only if it is strictly less. */
  ghost function Merge<T>(less: (T, T) -> bool, a: seq<T>, b: seq<T>): seq<T>
    decreases |a| + |b|
  {
    if a == [] then b
    else if b == [] then a
    else if !less(b[0], a[0]) then [a[0]] + Merge(less, a[1..], b)
    else [b[0]] + Merge(less, a, b[1..])
  }

  lemma SameElements<T>(a: seq<T>, b: seq<T>)
    requires multiset(a) == multiset(b)
    ensures Elements(a) == Elements(b) && |a| == |b|
  {
    forall x ensures x in a <==> x in b { assert x in multiset(a) <==> x in multiset(b); }
    assert |a| == |multiset(a)|;
  }

  lemma {:induction false} MergeMultiset<T>(less: (T, T) -> bool, a: seq<T>, b: seq<T>)
    ensures multiset(Merge(less, a, b)) == multiset(a + b)
    decreases |a| + |b|
  {
    if a == [] {
      assert a + b == b;
    } else if b == [] {
      assert a + b == a;
    } else if !less(b[0], a[0]) {
      MergeMultiset(less, a[1..], b);
      assert a + b == [a[0]] + (a[1..] + b);
    } else {
      MergeMultiset(less, a, b[1..]);
      assert multiset(a + b[1..]) == multiset(a) + multiset(b[1..]);
      assert b == [b[0]] + b[1..];
      assert multiset(b) == multiset{b[0]} + multiset(b[1..]);
    }
  }

  lemma MergeElements<T>(less: (T, T) -> bool, a: seq<T>, b: seq<T>)
    ensures Elements(Merge(less, a, b)) == Elements(a) + Elements(b)
    ensures |Merge(less, a, b)| == |a| + |b|
  {
    MergeMultiset(less, a, b);
    SameElements(Merge(less, a, b), a + b);
    assert Elements(a + b) == Elements(a) + Elements(b);
  }

  lemma {:induction false} MergeSorted<T>(less: (T, T) -> bool, a: seq<T>, b: seq<T>)
    requires StrictWeak(less, Elements(a) + Elements(b))
    requires Sorted(less, a) && Sorted(less, b)
    ensures Sorted(less, Merge(less, a, b))
    decreases |a| + |b|
  {
    if a != [] && b != [] {
      var first := !less(b[0], a[0]);
      var (x, a', b') := if first then (a[0], a[1..], b) else (b[0], a, b[1..]);
      assert Elements(a') <= Elements(a) && Elements(b') <= Elements(b);
      assert Sorted(less, a') && Sorted(less, b');
      MergeSorted(less, a', b');
      MergeElements(less, a', b');
      var m := Merge(less, a', b');
      assert Merge(less, a, b) == [x] + m;
      assert a[0] in Elements(a) && b[0] in Elements(b);
      forall y | y in m ensures !less(y, x) {
        assert y in Elements(m);
        if y in a { var i :| 0 <= i < |a| && a[i] == y; assert y in Elements(a); }
        if y in b { var i :| 0 <= i < |b| && b[i] == y; assert y in Elements(b); }
      }
    }
  }

  lemma {:induction false} ClassConcat<T>(less: (T, T) -> bool, g: T, a: seq<T>, b: seq<T>)
    ensures Class(less, g, a + b) == Class(less, g, a) + Class(less, g, b)
  {
    if a == [] {
      assert a + b == b;
    } else {
      assert (a + b)[1..] == a[1..] + b;
      ClassConcat(less, g, a[1..], b);
    }
  }

  lemma {:induction false} ClassEmpty<T>(less: (T, T) -> bool, g: T, s: seq<T>)
    requires forall x :: x in s ==> !Equivalent(less, g, x)
    ensures Class(less, g, s) == []
  {
    if s != [] { ClassEmpty(less, g, s[1..]); }
  }

  /** Merging sorted sequences keeps every equivalence class in order. */
  lemma {:induction false} MergeKeepsClasses<T>(less: (T, T) -> bool, g: T, a: seq<T>, b: seq<T>)
    requires StrictWeak(less, Elements(a) + Elements(b) + {g}) && Sorted(less, a)
    ensures Class(less, g, Merge(less, a, b)) == Class(less, g, a) + Class(less, g, b)
    decreases |a| + |b|
  {
    if a != [] && b != [] {
      if !less(b[0], a[0]) {
        assert Elements(a[1..]) <= Elements(a);
        MergeKeepsClasses(less, g, a[1..], b);
      } else {
        assert Elements(b[1..]) <= Elements(b);
        MergeKeepsClasses(less, g, a, b[1..]);
        if Equivalent(less, g, b[0]) { LaterClassIsEmpty(less, g, b[0], a); }
      }
    }
  }

  /** Nothing in a sorted "a" is equivalent to an element strictly before its head. */
  lemma LaterClassIsEmpty<T>(less: (T, T) -> bool, g: T, x: T, a: seq<T>)
    requires StrictWeak(less, Elements(a) + {x, g}) && Sorted(less, a)
    requires a != [] && less(x, a[0]) && Equivalent(less, g, x)
    ensures Class(less, g, a) == []
  {
    assert a[0] in Elements(a);
    forall y | y in a ensures !Equivalent(less, g, y) {
      var i :| 0 <= i < |a| && a[i] == y;
      assert y in Elements(a);
    }
    ClassEmpty(less, g, a);
  }

  lemma {:induction false} StableTransitive<T>(less: (T, T) -> bool, a: seq<T>, b: seq<T>, c: seq<T>)
    requires StableReorder(less, a, b) && StableReorder(less, b, c)
    ensures StableReorder(less, a, c)
  {
    forall g | g in a ensures Class(less, g, c) == Class(less, g, a) {
      assert g in multiset(b);
    }
  }

  /** Stable reorders of two parts make a stable reorder of the whole. */
  lemma StableConcat<T>(less: (T, T) -> bool, a: seq<T>, a': seq<T>, b: seq<T>, b': seq<T>)
    requires StrictWeak(less, Elements(a + b)) && StableReorder(less, a, a') && StableReorder(less, b, b')
    ensures StableReorder(less, a + b, a' + b')
  {
    forall g | g in a + b ensures Class(less, g, a' + b') == Class(less, g, a + b) {
      assert g in Elements(a + b);
      assert Elements(a) + {g} <= Elements(a + b) && Elements(b) + {g} <= Elements(a + b);
      ClassOfOther(less, g, a, a');
      ClassOfOther(less, g, b, b');
      ClassConcat(less, g, a, b);
      ClassConcat(less, g, a', b');
    }
  }

  /** A sorted stable reorder is unique, so the two facts together say which sequence it is. */
  lemma {:induction false} SortedStableUnique<T>(less: (T, T) -> bool, a: seq<T>, b: seq<T>)
    requires StrictWeak(less, Elements(a))
    requires Sorted(less, a) && Sorted(less, b) && StableReorder(less, a, b)
    ensures a == b
  {
    SameElements(a, b);
    if a != [] {
      SameHead(less, a, b);
      assert a == [a[0]] + a[1..] && b == [a[0]] + b[1..];
      DropHead(less, a[0], a[1..], b[1..]);
      assert Elements(a[1..]) <= Elements(a);
      SortedStableUnique(less, a[1..], b[1..]);
    }
  }

  lemma DropHead<T>(less: (T, T) -> bool, x: T, a: seq<T>, b: seq<T>)
    requires StableReorder(less, [x] + a, [x] + b)
    ensures StableReorder(less, a, b)
  {
    assert multiset([x] + a) - multiset{x} == multiset(a) && multiset([x] + b) - multiset{x} == multiset(b);
    forall g | g in a ensures Class(less, g, b) == Class(less, g, a) {
      var c := Class(less, g, [x]);
      ClassConcat(less, g, [x], a);
      ClassConcat(less, g, [x], b);
      assert Class(less, g, [x] + b) == Class(less, g, [x] + a);
      assert Class(less, g, a) == (c + Class(less, g, a))[|c|..];
      assert Class(less, g, b) == (c + Class(less, g, b))[|c|..];
    }
  }

  lemma SameHead<T>(less: (T, T) -> bool, a: seq<T>, b: seq<T>)
    requires StrictWeak(less, Elements(a)) && Elements(a) == Elements(b) && a != [] && b != []
    requires Sorted(less, a) && Sorted(less, b) && Class(less, a[0], b) == Class(less, a[0], a)
    ensures a[0] == b[0]
  {
    assert a[0] in Elements(b) && b[0] in Elements(a);
    var i :| 0 <= i < |b| && b[i] == a[0];
    var j :| 0 <= j < |a| && a[j] == b[0];
    assert Equivalent(less, a[0], b[0]);
    assert Class(less, a[0], a)[0] == a[0] && Class(less, a[0], b)[0] == b[0];
  }

  // ---------- ordered insertion ----------

  /** "x" goes before the first element that it is less than. */
  function InsertOrdered<T>(less: (T, T) -> bool, s: seq<T>, x: T): seq<T> {
    if s == [] then [x]
    else if less(x, s[0]) then [x] + s
    else [s[0]] + InsertOrdered(less, s[1..], x)
  }

  /** Inserting into a sorted list is a stable sort of the list with "x" pushed at its back. */
  lemma {:induction false} InsertOrderedStable<T>(less: (T, T) -> bool, s: seq<T>, x: T)
    requires StrictWeak(less, Elements(s) + {x}) && Sorted(less, s)
    ensures Sorted(less, InsertOrdered(less, s, x))
    ensures StableReorder(less, s + [x], InsertOrdered(less, s, x))
  {
    InsertIsMerge(less, s, x);
    assert Elements([x]) == {x};
    MergeIsStable(less, s, [x]);
  }

  lemma MergeIsStable<T>(less: (T, T) -> bool, a: seq<T>, b: seq<T>)
    requires StrictWeak(less, Elements(a) + Elements(b))
    requires Sorted(less, a) && Sorted(less, b)
    ensures Sorted(less, Merge(less, a, b)) && StableReorder(less, a + b, Merge(less, a, b))
  {
    MergeSorted(less, a, b);
    MergeMultiset(less, a, b);
    forall g | g in a + b ensures Class(less, g, Merge(less, a, b)) == Class(less, g, a + b) {
      assert g in Elements(a) + Elements(b);
      assert Elements(a) + Elements(b) + {g} == Elements(a) + Elements(b);
      MergeKeepsClasses(less, g, a, b);
      ClassConcat(less, g, a, b);
    }
  }

  lemma {:induction false} InsertIsMerge<T>(less: (T, T) -> bool, s: seq<T>, x: T)
    ensures InsertOrdered(less, s, x) == Merge(less, s, [x])
  {
    if s != [] && !less(x, s[0]) { InsertIsMerge(less, s[1..], x); }
  }

  /** Repeated ordered insertion, as the ready list and the waiter lists are built. */
  function InsertionSort<T>(less: (T, T) -> bool, s: seq<T>): seq<T> {
    if s == [] then [] else InsertOrdered(less, InsertionSort(less, s[..|s| - 1]), s[|s| - 1])
  }

  lemma {:induction false} InsertionSortStable<T>(less: (T, T) -> bool, s: seq<T>)
    requires StrictWeak(less, Elements(s))
    ensures Sorted(less, InsertionSort(less, s)) && StableReorder(less, s, InsertionSort(less, s))
  {
    if s != [] {
      var (front, x) := (s[..|s| - 1], s[|s| - 1]);
      assert s == front + [x];
      assert Elements(s) == Elements(front) + {x};
      InsertionSortStable(less, front);
      var t := InsertionSort(less, front);
      SameElements(front, t);
      InsertOrderedStable(less, t, x);
      StableConcat(less, front, t, [x], [x]);
      StableTransitive(less, s, t + [x], InsertionSort(less, s));
    }
  }

  /** A stable reorder keeps the class of every comparable element, present or not. */
  lemma {:induction false} ClassOfOther<T>(less: (T, T) -> bool, g: T, a: seq<T>, b: seq<T>)
    requires StrictWeak(less, Elements(a) + {g}) && StableReorder(less, a, b)
    ensures Class(less, g, b) == Class(less, g, a)
  {
    if y :| y in a && Equivalent(less, g, y) {
      assert y in Elements(a);
      forall z | z in a ensures Equivalent(less, g, z) <==> Equivalent(less, y, z) { assert z in Elements(a); }
      forall z | z in b ensures z in a { assert z in multiset(a); }
      ClassSame(less, g, y, a);
      ClassSame(less, g, y, b);
    } else {
      ClassEmpty(less, g, a);
      forall z | z in b ensures !Equivalent(less, g, z) { assert z in multiset(a); }
      ClassEmpty(less, g, b);
    }
  }

  lemma {:induction false} ClassSame<T>(less: (T, T) -> bool, g: T, h: T, s: seq<T>)
    requires forall z :: z in s ==> (Equivalent(less, g, z) <==> Equivalent(less, h, z))
    ensures Class(less, g, s) == Class(less, h, s)
  {
    if s != [] { ClassSame(less, g, h, s[1..]); }
  }
}
