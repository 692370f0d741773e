/** sort and binary_search of lib/stdlib.c: an in-place heap sort with 1-based indices, and a search, for
    every comparison that is a total preorder. */
module Stdlib {
  import opened Sequences

  /** What a strcmp()-type comparison must be. */
  ghost predicate TotalPreorder<T(!new)>(cmp: (T, T) -> int) {
    && (forall x, y :: cmp(x, y) <= 0 <==> cmp(y, x) >= 0)
    && (forall x, y, z :: cmp(x, y) <= 0 && cmp(y, z) <= 0 ==> cmp(x, z) <= 0)
  }

  ghost predicate Sorted<T>(cmp: (T, T) -> int, s: seq<T>) {
    forall i, j :: 0 <= i < j < |s| ==> cmp(s[i], s[j]) <= 0
  }

  lemma SwapMultiset<T>(s: seq<T>, i: nat, j: nat)
    requires i < |s| && j < |s|
    ensures multiset(s[i := s[j]][j := s[i]]) == multiset(s)
  {
    assert s == s[..i] + [s[i]] + s[i + 1..];
  }

  /** do_swap, for 1-based indices. */
  method DoSwap<T>(a: array<T>, i: nat, j: nat)
    requires 1 <= i <= a.Length && 1 <= j <= a.Length
    modifies a
    ensures a[..] == old(a[..])[i - 1 := old(a[j - 1])][j - 1 := old(a[i - 1])]
  {
    a[i - 1], a[j - 1] := a[j - 1], a[i - 1];
  }

  /** In the first "n" elements no child is above its parent, for parents from "low" on. */
  ghost predicate Heap<T>(cmp: (T, T) -> int, s: seq<T>, low: nat, n: nat)
    requires 1 <= low && n <= |s|
  {
    forall j :: 2 <= j <= n && low <= j / 2 ==> cmp(s[j - 1], s[j / 2 - 1]) <= 0
  }

  /** The heap with a hole at "i": the children of "i" need only be below the parent of "i". */
  ghost predicate HeapBut<T>(cmp: (T, T) -> int, s: seq<T>, low: nat, n: nat, i: nat)
    requires 1 <= low <= i && n <= |s|
  {
    && (forall j :: 2 <= j <= n && low <= j / 2 && j / 2 != i ==> cmp(s[j - 1], s[j / 2 - 1]) <= 0)
    && (forall j :: 2 <= j <= n && j / 2 == i && low <= i / 2 ==> cmp(s[j - 1], s[i / 2 - 1]) <= 0)
  }

  /** Among "i" and its children, "m" is where the largest element is. */
  ghost predicate LargestAt<T>(cmp: (T, T) -> int, s: seq<T>, n: nat, i: nat, m: nat)
    requires 1 <= i && n <= |s|
  {
    && (m == i || (i < m <= n && m / 2 == i && cmp(s[m - 1], s[i - 1]) > 0))
    && forall j :: 2 <= j <= n && j / 2 == i ==> 1 <= m <= |s| && cmp(s[j - 1], s[m - 1]) <= 0
  }

  /** Moving the larger child up moves the hole down. */
  lemma SwapDown<T(!new)>(cmp: (T, T) -> int, s: seq<T>, low: nat, n: nat, i: nat, m: nat)
    requires TotalPreorder(cmp) && 1 <= low <= i && n <= |s| && HeapBut(cmp, s, low, n, i)
    requires LargestAt(cmp, s, n, i, m) && m != i
    ensures HeapBut(cmp, s[i - 1 := s[m - 1]][m - 1 := s[i - 1]], low, n, m)
  {
    var t := s[i - 1 := s[m - 1]][m - 1 := s[i - 1]];
    forall j | 2 <= j <= n && low <= j / 2 && j / 2 != m ensures cmp(t[j - 1], t[j / 2 - 1]) <= 0 {
      if j == m {
        assert cmp(s[i - 1], s[m - 1]) <= 0;
      } else if j / 2 == i {
        assert cmp(s[j - 1], s[m - 1]) <= 0;
      } else if j == i {
        assert cmp(s[m - 1], s[i / 2 - 1]) <= 0;
      }
    }
    forall j | 2 <= j <= n && j / 2 == m && low <= m / 2 ensures cmp(t[j - 1], t[m / 2 - 1]) <= 0 {
      assert cmp(s[j - 1], s[m - 1]) <= 0;
    }
  }

  /** Nothing beyond the first "n" elements, and no element as such, is changed. */
  ghost predicate Rearranged<T>(s: seq<T>, t: seq<T>, n: nat)
    requires n <= |s|
  {
    |t| == |s| && multiset(t[..n]) == multiset(s[..n]) && t[n..] == s[n..]
  }

  lemma SwapRearranges<T>(s: seq<T>, n: nat, i: nat, j: nat)
    requires i < n && j < n && n <= |s|
    ensures Rearranged(s, s[i := s[j]][j := s[i]], n)
  {
    var t := s[i := s[j]][j := s[i]];
    assert t[..n] == s[..n][i := s[..n][j]][j := s[..n][i]];
    SwapMultiset(s[..n], i, j);
  }

  /** The index of the largest element among "i" and its children, if any. */
  method Largest<T(!new)>(a: array<T>, i: nat, n: nat, cmp: (T, T) -> int) returns (max: nat)
    requires TotalPreorder(cmp) && 1 <= i && n <= a.Length
    ensures LargestAt(cmp, a[..], n, i, max)
  {
    var left := 2 * i;
    var right := 2 * i + 1;
    max := i;
    if left <= n && cmp(a[left - 1], a[max - 1]) > 0 {
      max := left;
    }
    if right <= n && cmp(a[right - 1], a[max - 1]) > 0 {
      max := right;
    }
    forall j | 2 <= j <= n && j / 2 == i ensures cmp(a[j - 1], a[max - 1]) <= 0 {
      assert j == left || j == right;
      assert cmp(a[j - 1], a[j - 1]) <= 0;
    }
  }

  lemma RearrangedTransitive<T>(s: seq<T>, t: seq<T>, u: seq<T>, n: nat)
    requires n <= |s| && Rearranged(s, t, n) && Rearranged(t, u, n)
    ensures Rearranged(s, u, n)
  {
  }

  lemma HeapWithoutHole<T>(cmp: (T, T) -> int, s: seq<T>, low: nat, n: nat, i: nat)
    requires 1 <= low <= i && n <= |s| && HeapBut(cmp, s, low, n, i)
    requires LargestAt(cmp, s, n, i, i)
    ensures Heap(cmp, s, low, n)
  {
  }

  /** One turn of heapify: the element at "i" changes places with its larger child, if that is larger. */
  method SinkOnce<T(!new)>(a: array<T>, start: nat, n: nat, i: nat, cmp: (T, T) -> int) returns (max: nat)
    requires TotalPreorder(cmp) && 1 <= start <= i && n <= a.Length && HeapBut(cmp, a[..], start, n, i)
    modifies a
    ensures Rearranged(old(a[..]), a[..], n)
    ensures if max == i then Heap(cmp, a[..], start, n) else i < max <= n && HeapBut(cmp, a[..], start, n, max)
  {
    ghost var s := a[..];
    max := Largest(a, i, n, cmp);
    assert a[..] == s;
    if max == i {
      HeapWithoutHole(cmp, s, start, n, i);
    } else {
      SwapDown(cmp, s, start, n, i, max);
      SwapRearranges(s, n, i - 1, max - 1);
      DoSwap(a, i, max);
    }
  }

  /** heapify: the element at "start" floats down. */
  method Heapify<T(!new)>(a: array<T>, start: nat, n: nat, cmp: (T, T) -> int)
    requires TotalPreorder(cmp) && 1 <= start && n <= a.Length && Heap(cmp, a[..], start + 1, n)
    modifies a
    ensures Heap(cmp, a[..], start, n) && Rearranged(old(a[..]), a[..], n)
  {
    var i := start;
    ghost var before := a[..];
    while true
      invariant start <= i && HeapBut(cmp, a[..], start, n, i) && Rearranged(before, a[..], n)
      decreases n - i
    {
      ghost var s := a[..];
      var max := SinkOnce(a, start, n, i, cmp);
      RearrangedTransitive(before, s, a[..], n);
      if max == i {
        break;
      }
      i := max;
    }
  }

  /** The root of a heap is a maximum. */
  lemma {:induction false} RootIsMaximum<T(!new)>(cmp: (T, T) -> int, s: seq<T>, n: nat, j: nat)
    requires TotalPreorder(cmp) && n <= |s| && Heap(cmp, s, 1, n) && 1 <= j <= n
    ensures cmp(s[j - 1], s[0]) <= 0
  {
    if j > 1 {
      RootIsMaximum(cmp, s, n, j / 2);
      assert cmp(s[j - 1], s[j / 2 - 1]) <= 0;
    }
  }

  /** The elements from "n" on are sorted, and above all before. */
  ghost predicate Done<T>(cmp: (T, T) -> int, s: seq<T>, n: nat)
    requires n <= |s|
  {
    Sorted(cmp, s[n..]) && forall x, j :: x in s[..n] && n <= j < |s| ==> cmp(x, s[j]) <= 0
  }

  lemma RearrangedStaysDone<T>(cmp: (T, T) -> int, s: seq<T>, t: seq<T>, n: nat)
    requires n <= |s| && Done(cmp, s, n) && Rearranged(s, t, n)
    ensures Done(cmp, t, n)
  {
    forall x, j | x in t[..n] && n <= j < |t| ensures cmp(x, t[j]) <= 0 {
      assert x in multiset(t[..n]) && x in multiset(s[..n]);
      assert x in s[..n];
      assert t[j] == t[n..][j - n] && s[j] == s[n..][j - n];
    }
  }

  /** Putting the maximum behind the rest extends the sorted part. */
  lemma RootToEnd<T(!new)>(cmp: (T, T) -> int, s: seq<T>, n: nat)
    requires TotalPreorder(cmp) && 1 < n <= |s| && Heap(cmp, s, 1, n) && Done(cmp, s, n)
    ensures var t := s[0 := s[n - 1]][n - 1 := s[0]];
      Done(cmp, t, n - 1) && Heap(cmp, t, 2, n - 1) && multiset(t) == multiset(s)
  {
    var t := s[0 := s[n - 1]][n - 1 := s[0]];
    SwapMultiset(s, 0, n - 1);
    assert t[n - 1..] == [s[0]] + s[n..];
    forall x, j | x in t[..n - 1] && n - 1 <= j < |t| ensures cmp(x, t[j]) <= 0 {
      var k :| 0 <= k < n - 1 && t[k] == x;
      var m := if k == 0 then n - 1 else k;
      assert x == s[m] && s[m] in s[..n];
      RootIsMaximum(cmp, s, n, m + 1);
    }
    forall j | n <= j < |s| ensures cmp(s[0], s[j]) <= 0 { assert s[0] in s[..n]; }
    SortedCons(cmp, s[0], s[n..]);
  }

  lemma SortedCons<T>(cmp: (T, T) -> int, x: T, s: seq<T>)
    requires Sorted(cmp, s) && forall j :: 0 <= j < |s| ==> cmp(x, s[j]) <= 0
    ensures Sorted(cmp, [x] + s)
  {
  }

  /** sort */
  method Sort<T(!new)>(a: array<T>, cmp: (T, T) -> int)
    requires TotalPreorder(cmp)
    modifies a
    ensures Sorted(cmp, a[..]) && multiset(a[..]) == multiset(old(a[..]))
  {
    BuildHeap(a, cmp);
    var i := a.Length;
    while i > 1
      invariant 0 <= i <= a.Length && Heap(cmp, a[..], 1, i) && Done(cmp, a[..], i)
      invariant multiset(a[..]) == multiset(old(a[..]))
    {
      RootToEnd(cmp, a[..], i);
      DoSwap(a, 1, i);
      ghost var s := a[..];
      Heapify(a, 1, i - 1, cmp);
      RearrangedStaysDone(cmp, s, a[..], i - 1);
      WholeMultiset(s, a[..], i - 1);
      i := i - 1;
    }
    SortedFromDone(cmp, a[..], i);
  }

  lemma WholeMultiset<T>(s: seq<T>, t: seq<T>, n: nat)
    requires n <= |s| && Rearranged(s, t, n)
    ensures multiset(t) == multiset(s)
  {
    assert s == s[..n] + s[n..] && t == t[..n] + t[n..];
  }

  lemma SortedFromDone<T>(cmp: (T, T) -> int, s: seq<T>, n: nat)
    requires n <= 1 && n <= |s| && Done(cmp, s, n)
    ensures Sorted(cmp, s)
  {
    if n == 1 {
      assert s == [s[0]] + s[1..] && s[0] in s[..1];
      SortedCons(cmp, s[0], s[1..]);
    } else {
      assert s[0..] == s;
    }
  }

  /** The first loop of sort. */
  method BuildHeap<T(!new)>(a: array<T>, cmp: (T, T) -> int)
    requires TotalPreorder(cmp)
    modifies a
    ensures Heap(cmp, a[..], 1, a.Length) && Done(cmp, a[..], a.Length) && multiset(a[..]) == multiset(old(a[..]))
  {
    var i := a.Length / 2;
    while i > 0
      invariant 0 <= i <= a.Length / 2 && Heap(cmp, a[..], i + 1, a.Length) && multiset(a[..]) == multiset(old(a[..]))
    {
      ghost var s := a[..];
      Heapify(a, i, a.Length, cmp);
      WholeMultiset(s, a[..], a.Length);
      i := i - 1;
    }
  }

  /** binary_search */
  method BinarySearch<T(!new)>(key: T, a: array<T>, cmp: (T, T) -> int) returns (r: Option<nat>)
    requires TotalPreorder(cmp) && Sorted(cmp, a[..])
    ensures r.Some? ==> r.value < a.Length && cmp(key, a[r.value]) == 0
    ensures r.None? ==> forall i :: 0 <= i < a.Length ==> cmp(key, a[i]) != 0
  {
    var first, last := 0, a.Length;
    while first < last
      invariant 0 <= first <= last <= a.Length
      invariant forall i :: 0 <= i < first ==> cmp(key, a[i]) > 0
      invariant forall i :: last <= i < a.Length ==> cmp(key, a[i]) < 0
    {
      var range := last - first;
      var middle := first + range / 2;
      var c := cmp(key, a[middle]);
      if c < 0 {
        forall i | middle <= i < last ensures cmp(key, a[i]) < 0 {
          assert cmp(a[middle], a[middle]) <= 0 && (middle < i ==> cmp(a[..][middle], a[..][i]) <= 0);
          LessBeforeMore(cmp, key, a[middle], a[i]);
        }
        last := middle;
      } else if c > 0 {
        forall i | first <= i <= middle ensures cmp(key, a[i]) > 0 {
          assert cmp(a[middle], a[middle]) <= 0 && (i < middle ==> cmp(a[..][i], a[..][middle]) <= 0);
          LessBeforeMore(cmp, key, a[middle], a[i]);
        }
        first := middle + 1;
      } else {
        return Some(middle);
      }
    }
    r := None;
  }

  lemma LessBeforeMore<T(!new)>(cmp: (T, T) -> int, x: T, y: T, z: T)
    requires TotalPreorder(cmp)
    ensures cmp(x, y) < 0 && cmp(y, z) <= 0 ==> cmp(x, z) < 0
    ensures cmp(x, y) > 0 && cmp(z, y) <= 0 ==> cmp(x, z) > 0
  {
    assert cmp(y, z) <= 0 && cmp(z, x) <= 0 ==> cmp(y, x) <= 0;
    assert cmp(x, z) <= 0 && cmp(z, y) <= 0 ==> cmp(x, y) <= 0;
  }
}
