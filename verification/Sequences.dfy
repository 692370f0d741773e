/** Options, and sequences without repetition: the lists of threads, pages and blocks. */
module Sequences {

  datatype Option<T> = None | Some(value: T)

  ghost predicate NoDup<T>(s: seq<T>) {
    forall i, j :: 0 <= i < j < |s| ==> s[i] != s[j]
  }

  /** What the tail of a sequence without repetition has. */
  lemma TailMembers<T>(s: seq<T>)
    requires s != [] && NoDup(s)
    ensures NoDup(s[1..]) && forall x :: x in s[1..] <==> x in s && x != s[0]
  {
    forall x ensures x in s[1..] <==> x in s && x != s[0] {
      assert s == [s[0]] + s[1..];
      if x in s[1..] {
        var i :| 0 <= i < |s[1..]| && s[1..][i] == x;
        assert s[0] != s[i + 1];
      }
    }
  }

  lemma NoDupCons<T>(x: T, s: seq<T>)
    ensures NoDup([x] + s) <==> x !in s && NoDup(s)
  {
    var all := [x] + s;
    assert all[1..] == s;
    if NoDup(all) { TailMembers(all); }
    if x !in s && NoDup(s) {
      forall i, j | 0 <= i < j < |all| ensures all[i] != all[j] { assert all[j] == s[j - 1]; }
    }
  }

  /** list_remove: the list without an element. */
  function Without<T(==)>(s: seq<T>, x: T): seq<T> {
    if s == [] then [] else if s[0] == x then s[1..] else [s[0]] + Without(s[1..], x)
  }

  lemma {:induction false} WithoutMembers<T>(s: seq<T>, x: T)
    requires NoDup(s)
    ensures NoDup(Without(s, x)) && forall y :: y in Without(s, x) <==> y in s && y != x
  {
    if s != [] {
      TailMembers(s);
      WithoutMembers(s[1..], x);
      if s[0] != x { NoDupCons(s[0], Without(s[1..], x)); }
    }
  }

  // ---------- sequences of sequences ----------

  ghost function Flatten<T>(parts: seq<seq<T>>): seq<T> {
    if parts == [] then [] else parts[0] + Flatten(parts[1..])
  }

  lemma ConcatIsAssociative<T>(a: seq<T>, b: seq<T>, c: seq<T>)
    ensures a + b + c == a + (b + c)
  {
  }

  lemma {:induction false} FlattenConcat<T>(a: seq<seq<T>>, b: seq<seq<T>>)
    ensures Flatten(a + b) == Flatten(a) + Flatten(b)
  {
    if a == [] {
      assert a + b == b;
    } else {
      FlattenConcat(a[1..], b);
      assert (a + b)[1..] == a[1..] + b;
      ConcatIsAssociative(a[0], Flatten(a[1..]), Flatten(b));
    }
  }

  lemma FlattenSnoc<T>(front: seq<seq<T>>, part: seq<T>)
    ensures Flatten(front + [part]) == Flatten(front) + part
  {
    FlattenConcat(front, [part]);
    assert Flatten([part]) == part;
  }

  lemma FlattenSplit<T>(parts: seq<seq<T>>, i: nat)
    requires i <= |parts|
    ensures Flatten(parts) == Flatten(parts[..i]) + Flatten(parts[i..])
  {
    FlattenConcat(parts[..i], parts[i..]);
    assert parts[..i] + parts[i..] == parts;
  }

  lemma FlattenOneMore<T>(parts: seq<seq<T>>, i: nat)
    requires i < |parts|
    ensures Flatten(parts[..i + 1]) == Flatten(parts[..i]) + parts[i]
  {
    FlattenSnoc(parts[..i], parts[i]);
    assert parts[..i] + [parts[i]] == parts[..i + 1];
  }

  lemma {:induction false} InFlatten<T>(parts: seq<seq<T>>, x: T)
    ensures x in Flatten(parts) <==> exists k :: 0 <= k < |parts| && x in parts[k]
  {
    if parts != [] {
      InFlatten(parts[1..], x);
      if k :| 0 <= k < |parts| && x in parts[k] {
        if k > 0 { assert parts[1..][k - 1] == parts[k]; }
      }
    }
  }
}
