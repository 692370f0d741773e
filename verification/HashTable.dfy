/** lib/kernel/hash.c: a chained hash table whose number of buckets follows the number of elements. */
module HashTable {
  import opened Bits
  import opened Sequences

  // ---------- powers of two ----------

  /** turn_off_least_1bit */
  function TurnOffLeast1Bit(x: nat): nat
    requires x > 0
  {
    And(x, x - 1)
  }

  /** is_power_of_2 */
  predicate IsPowerOf2(x: nat) {
    x != 0 && TurnOffLeast1Bit(x) == 0
  }

  ghost predicate Power(x: nat) {
    x == 1 || (x > 1 && x % 2 == 0 && Power(x / 2))
  }

  /** The largest power of two that is not above "x". */
  ghost function Top(x: nat): nat {
    if x <= 1 then 1 else 2 * Top(x / 2)
  }

  lemma {:induction false} AndSelf(x: nat)
    ensures And(x, x) == x
  {
    if x > 0 { AndSelf(x / 2); }
  }

  /** For odd numbers the lowest bit goes; for even ones the rest decides. */
  lemma TurnOffHalves(x: nat)
    requires x > 0
    ensures x % 2 == 1 ==> TurnOffLeast1Bit(x) == x - 1
    ensures x % 2 == 0 ==> TurnOffLeast1Bit(x) == 2 * TurnOffLeast1Bit(x / 2)
  {
    if x % 2 == 1 {
      assert (x - 1) / 2 == x / 2;
      AndSelf(x / 2);
    } else {
      assert (x - 1) / 2 == x / 2 - 1 && (x - 1) % 2 == 1;
    }
  }

  lemma {:induction false} PowerTest(x: nat)
    ensures IsPowerOf2(x) <==> Power(x)
  {
    if x > 0 {
      TurnOffHalves(x);
      if x % 2 == 0 { PowerTest(x / 2); }
    }
  }

  lemma {:induction false} TurnOffKeepsTop(x: nat)
    requires x > 0 && TurnOffLeast1Bit(x) != 0
    ensures Top(TurnOffLeast1Bit(x)) == Top(x) && TurnOffLeast1Bit(x) < x
  {
    TurnOffHalves(x);
    if x % 2 == 1 {
      assert (x - 1) / 2 == x / 2;
    } else {
      TurnOffKeepsTop(x / 2);
      assert 2 * TurnOffLeast1Bit(x / 2) / 2 == TurnOffLeast1Bit(x / 2);
    }
  }

  lemma {:induction false} TopIsLargest(x: nat)
    requires x > 0
    ensures Power(Top(x)) && Top(x) <= x < 2 * Top(x) && (Power(x) ==> Top(x) == x)
  {
    if x > 1 {
      TopIsLargest(x / 2);
      assert 2 * Top(x / 2) / 2 == Top(x / 2) && 2 * Top(x / 2) % 2 == 0;
    }
  }

  lemma {:induction false} AndAtMost(a: nat, b: nat)
    ensures And(a, b) <= b
  {
    if a > 0 && b > 0 { AndAtMost(a / 2, b / 2); }
  }

  /** The number of buckets for a number of elements: the power of two for two elements a bucket, at least four. */
  ghost function Ideal(n: nat): nat {
    Top(if n / 2 < 4 then 4 else n / 2)
  }

  lemma IdealLoad(n: nat)
    ensures Power(Ideal(n)) && Ideal(n) >= 4 && n < 4 * Ideal(n)
  {
    TopIsLargest(if n / 2 < 4 then 4 else n / 2);
    SmallTops(if n / 2 < 4 then 4 else n / 2);
  }

  lemma SmallTops(x: nat)
    requires x >= 4
    ensures Top(x) >= 4
  {
    assert Top(x) == 2 * Top(x / 2) && Top(x / 2) == 2 * Top(x / 2 / 2);
    TopIsLargest(x / 2 / 2);
  }

  /** The loop of rehash that finds the number of buckets. */
  method IdealBuckets(n: nat) returns (cnt: nat)
    ensures cnt == Ideal(n)
  {
    cnt := n / 2;
    if cnt < 4 {
      cnt := 4;
    }
    ghost var start := cnt;
    while !IsPowerOf2(cnt)
      invariant cnt > 0 && Top(cnt) == Top(start)
      decreases cnt
    {
      TurnOffKeepsTop(cnt);
      cnt := TurnOffLeast1Bit(cnt);
    }
    PowerTest(cnt);
    TopIsLargest(cnt);
  }

  // ---------- buckets as values ----------

  ghost predicate Equivalent<E>(less: (E, E) -> bool, a: E, b: E) {
    !less(a, b) && !less(b, a)
  }

  /** What hash and less must be: equivalence is an equivalence, and equivalent elements hash alike. */
  ghost predicate Consistent<E(!new)>(hash: E -> nat, less: (E, E) -> bool) {
    && (forall a :: !less(a, a))
    && (forall a, b :: Equivalent(less, a, b) ==> hash(a) == hash(b))
    && (forall a, b, c :: Equivalent(less, a, b) && Equivalent(less, b, c) ==> Equivalent(less, a, c))
  }

  /** All elements, as a multiset. */
  ghost function Bag<E>(bs: seq<seq<E>>): multiset<E> {
    multiset(Flatten(bs))
  }

  lemma SplitBag<E>(bs: seq<seq<E>>, i: nat)
    requires i < |bs|
    ensures Bag(bs) == Bag(bs[..i]) + multiset(bs[i]) + Bag(bs[i + 1..])
    ensures |Flatten(bs)| == |Flatten(bs[..i])| + |bs[i]| + |Flatten(bs[i + 1..])|
  {
    FlattenConcat(bs[..i], bs[i..]);
    assert bs[..i] + bs[i..] == bs && bs[i..][1..] == bs[i + 1..];
  }

  /** Changing one bucket. */
  lemma UpdateBag<E>(bs: seq<seq<E>>, i: nat, q: seq<E>)
    requires i < |bs|
    ensures Bag(bs[i := q]) + multiset(bs[i]) == Bag(bs) + multiset(q)
    ensures |Flatten(bs[i := q])| + |bs[i]| == |Flatten(bs)| + |q|
  {
    SplitBag(bs, i);
    SplitBag(bs[i := q], i);
    assert bs[i := q][..i] == bs[..i] && bs[i := q][i + 1..] == bs[i + 1..];
  }

  lemma {:induction false} InBag<E>(bs: seq<seq<E>>, e: E)
    ensures e in Bag(bs) <==> exists b :: 0 <= b < |bs| && e in bs[b]
  {
    if bs != [] {
      InBag(bs[1..], e);
      assert Bag(bs) == multiset(bs[0]) + Bag(bs[1..]);
      if b :| 0 <= b < |bs| && e in bs[b] {
        if b > 0 { assert bs[1..][b - 1] == bs[b]; }
      }
      if e in Bag(bs[1..]) {
        var b :| 0 <= b < |bs[1..]| && e in bs[1..][b];
        assert bs[b + 1] == bs[1..][b];
      }
    }
  }

  /** find_bucket: where an element belongs among "cnt" buckets. */
  function Index<E>(hash: E -> nat, e: E, cnt: nat): (i: nat)
    requires cnt > 0
    ensures i < cnt
  {
    AndAtMost(hash(e), cnt - 1);
    And(hash(e), cnt - 1)
  }

  /** Every element is in the bucket its hash masks to. */
  ghost predicate Placed<E(!new)>(hash: E -> nat, bs: seq<seq<E>>) {
    forall b, e :: 0 <= b < |bs| && e in bs[b] ==> Index(hash, e, |bs|) == b
  }

  /** No two elements are equivalent. */
  ghost predicate Distinct<E(!new)>(less: (E, E) -> bool, m: multiset<E>) {
    && (forall a, b :: a in m && b in m && a != b ==> !Equivalent(less, a, b))
    && (forall a :: m[a] <= 1)
  }

  /** An equivalent element can only be in the bucket that is searched. */
  lemma NotInBucketNotInTable<E(!new)>(hash: E -> nat, less: (E, E) -> bool, bs: seq<seq<E>>, e: E)
    requires Consistent(hash, less) && |bs| > 0 && Placed(hash, bs)
    requires forall x :: x in bs[Index(hash, e, |bs|)] ==> !Equivalent(less, x, e)
    ensures forall x :: x in Bag(bs) ==> !Equivalent(less, x, e)
  {
    forall x | x in Bag(bs) ensures !Equivalent(less, x, e) {
      InBag(bs, x);
      var b :| 0 <= b < |bs| && x in bs[b];
      assert Index(hash, x, |bs|) == b;
    }
  }

  lemma DistinctPlus<E(!new)>(less: (E, E) -> bool, m: multiset<E>, e: E)
    requires Distinct(less, m) && !less(e, e) && forall x :: x in m ==> !Equivalent(less, x, e)
    ensures Distinct(less, m + multiset{e})
  {
  }

  lemma DistinctMinus<E(!new)>(less: (E, E) -> bool, m: multiset<E>, e: E)
    requires Distinct(less, m)
    ensures Distinct(less, m - multiset{e})
  {
  }

  lemma Cancel<E>(a: multiset<E>, b: multiset<E>, c: multiset<E>)
    requires a + c == b + c
    ensures a == b
  {
    forall x ensures a[x] == b[x] { assert (a + c)[x] == (b + c)[x]; }
  }

  /** Pushing an element to the front of its own bucket. */
  lemma PushKeeps<E(!new)>(hash: E -> nat, bs: seq<seq<E>>, e: E)
    requires |bs| > 0 && Placed(hash, bs)
    ensures
      var i := Index(hash, e, |bs|);
      var bs' := bs[i := [e] + bs[i]];
      Placed(hash, bs') && Bag(bs') == Bag(bs) + multiset{e} && |Flatten(bs')| == |Flatten(bs)| + 1
  {
    var i := Index(hash, e, |bs|);
    UpdateBag(bs, i, [e] + bs[i]);
    assert multiset([e] + bs[i]) == multiset{e} + multiset(bs[i]);
    Cancel(Bag(bs[i := [e] + bs[i]]), Bag(bs) + multiset{e}, multiset(bs[i]));
  }

  /** Taking an element out of its bucket. */
  lemma RemoveKeeps<E(!new)>(hash: E -> nat, bs: seq<seq<E>>, i: nat, k: nat)
    requires i < |bs| && k < |bs[i]| && Placed(hash, bs)
    ensures
      var bs' := bs[i := bs[i][..k] + bs[i][k + 1..]];
      Placed(hash, bs') && Bag(bs') == Bag(bs) - multiset{bs[i][k]} && |Flatten(bs')| == |Flatten(bs)| - 1
      && bs[i][k] in Bag(bs)
  {
    var (x, q) := (bs[i][k], bs[i][..k] + bs[i][k + 1..]);
    var bs' := bs[i := q];
    UpdateBag(bs, i, q);
    assert bs[i] == bs[i][..k] + [x] + bs[i][k + 1..];
    assert multiset(bs[i]) == multiset{x} + multiset(q);
    Cancel(Bag(bs') + multiset{x}, Bag(bs), multiset(q));
    forall b | 0 <= b < |bs| ensures forall y :: y in bs'[b] ==> Index(hash, y, |bs|) == b {
      assert forall y :: y in bs'[b] ==> y in bs[b];
    }
  }

  // ---------- the table ----------

  class Table<E(!new,==)> {
    var buckets: array<seq<E>>
    var elemCnt: nat
    const hash: E -> nat
    const less: (E, E) -> bool

    ghost predicate Valid()
      reads this, buckets
    {
      && Consistent(hash, less) && buckets.Length >= 4 && Power(buckets.Length)
      && Placed(hash, buckets[..]) && Distinct(less, Contents()) && elemCnt == |Flatten(buckets[..])|
    }

    /** The elements in the table. */
    ghost function Contents(): multiset<E>
      reads this, buckets
    {
      Bag(buckets[..])
    }

    /** hash_init, when memory is available. */
    constructor (h: E -> nat, l: (E, E) -> bool)
      requires Consistent(h, l)
      ensures Valid() && fresh(buckets) && hash == h && less == l && Contents() == multiset{}
    {
      hash, less, elemCnt := h, l, 0;
      buckets := new seq<E>[4](_ => []);
      new;
      EmptyBag(buckets[..]);
      assert Power(1) && Power(2) && Power(4);
    }

    /** find_elem, in the bucket that find_bucket gives. */
    method FindElem(e: E) returns (b: nat, k: Option<nat>)
      requires Valid()
      ensures b == Index(hash, e, buckets.Length)
      ensures k.Some? ==>
        k.value < |buckets[b]| && Equivalent(less, buckets[b][k.value], e) && buckets[b][k.value] in Contents()
      ensures k.None? ==> forall x :: x in Contents() ==> !Equivalent(less, x, e)
    {
      b := Index(hash, e, buckets.Length);
      var i := 0;
      while i < |buckets[b]|
        invariant 0 <= i <= |buckets[b]| && forall j :: 0 <= j < i ==> !Equivalent(less, buckets[b][j], e)
      {
        if !less(buckets[b][i], e) && !less(e, buckets[b][i]) {
          InBag(buckets[..], buckets[b][i]);
          return b, Some(i);
        }
        i := i + 1;
      }
      NotInBucketNotInTable(hash, less, buckets[..], e);
      k := None;
    }

    /** hash_find */
    method Find(e: E) returns (r: Option<E>)
      requires Valid()
      ensures r.Some? ==> r.value in Contents() && Equivalent(less, r.value, e)
      ensures r.None? ==> forall x :: x in Contents() ==> !Equivalent(less, x, e)
    {
      var b, k := FindElem(e);
      r := if k.Some? then Some(buckets[b][k.value]) else None;
    }

    /** insert_elem, into the bucket of the element. */
    method InsertElem(b: nat, e: E)
      requires Valid() && b == Index(hash, e, buckets.Length) && forall x :: x in Contents() ==> !Equivalent(less, x, e)
      modifies this`elemCnt, buckets
      ensures Valid() && Contents() == old(Contents()) + multiset{e}
    {
      PushKeeps(hash, buckets[..], e);
      DistinctPlus(less, Contents(), e);
      ghost var bs := buckets[..];
      elemCnt := elemCnt + 1;
      buckets[b] := [e] + buckets[b];
      assert buckets[..] == bs[b := [e] + bs[b]];
    }

    /** remove_elem */
    method RemoveElem(b: nat, k: nat)
      requires Valid() && b < buckets.Length && k < |buckets[b]|
      modifies this`elemCnt, buckets
      ensures Valid() && old(buckets[b][k]) in old(Contents())
        && Contents() == old(Contents()) - multiset{old(buckets[b][k])}
      ensures buckets == old(buckets)
    {
      RemoveKeeps(hash, buckets[..], b, k);
      DistinctMinus(less, Contents(), buckets[b][k]);
      ghost var bs := buckets[..];
      elemCnt := elemCnt - 1;
      buckets[b] := buckets[b][..k] + buckets[b][k + 1..];
      assert buckets[..] == bs[b := bs[b][..k] + bs[b][k + 1..]];
    }

    /** rehash; "memory" says whether the new array can be had. */
    method Rehash(memory: bool)
      requires Valid()
      modifies this`buckets
      ensures Valid() && Contents() == old(Contents()) && elemCnt == old(elemCnt)
      ensures buckets == old(buckets) || fresh(buckets)
      ensures memory ==> buckets.Length == Ideal(elemCnt) && elemCnt < 4 * buckets.Length
      ensures !memory ==> buckets == old(buckets)
    {
      IdealLoad(elemCnt);
      var cnt := IdealBuckets(elemCnt);
      if cnt == buckets.Length || !memory {
        return;
      }
      var oldBuckets := buckets;
      var newBuckets := new seq<E>[cnt](_ => []);
      EmptyBag(newBuckets[..]);
      var i := 0;
      while i < oldBuckets.Length
        invariant 0 <= i <= oldBuckets.Length && oldBuckets[..] == old(buckets[..])
        invariant Placed(hash, newBuckets[..]) && Bag(newBuckets[..]) == Bag(oldBuckets[..i])
        invariant |Flatten(newBuckets[..])| == |Flatten(oldBuckets[..i])|
        modifies newBuckets
      {
        MoveBucket(oldBuckets[i], newBuckets);
        BagSnoc(oldBuckets[..], i);
        i := i + 1;
      }
      assert oldBuckets[..i] == oldBuckets[..];
      buckets := newBuckets;
    }

    /** The inner loop of rehash. */
    method MoveBucket(q: seq<E>, into: array<seq<E>>)
      requires into.Length > 0 && Placed(hash, into[..])
      modifies into
      ensures Placed(hash, into[..]) && Bag(into[..]) == Bag(old(into[..])) + multiset(q)
      ensures |Flatten(into[..])| == |Flatten(old(into[..]))| + |q|
    {
      ghost var before := into[..];
      var j := 0;
      while j < |q|
        invariant 0 <= j <= |q| && Placed(hash, into[..]) && Bag(into[..]) == Bag(before) + multiset(q[..j])
        invariant |Flatten(into[..])| == |Flatten(before)| + j
      {
        ghost var bs := into[..];
        var b := Index(hash, q[j], into.Length);
        PushKeeps(hash, bs, q[j]);
        into[b] := [q[j]] + into[b];
        assert into[..] == bs[b := [q[j]] + bs[b]];
        MultisetSnoc(q, j);
        j := j + 1;
      }
      assert q[..j] == q;
    }

    /** hash_insert */
    method Insert(e: E, memory: bool) returns (r: Option<E>)
      requires Valid()
      modifies this, buckets
      ensures Valid() && (buckets == old(buckets) || fresh(buckets))
      ensures r.Some? ==> r.value in old(Contents()) && Equivalent(less, r.value, e) && Contents() == old(Contents())
      ensures r.None? ==>
        (forall x :: x in old(Contents()) ==> !Equivalent(less, x, e)) && Contents() == old(Contents()) + multiset{e}
      ensures memory ==> elemCnt < 4 * buckets.Length
    {
      var b, k := FindElem(e);
      r := if k.Some? then Some(buckets[b][k.value]) else None;
      if r.None? {
        InsertElem(b, e);
      }
      Rehash(memory);
    }

    /** hash_replace */
    method Replace(e: E, memory: bool) returns (r: Option<E>)
      requires Valid()
      modifies this, buckets
      ensures Valid() && (buckets == old(buckets) || fresh(buckets))
      ensures r.Some? ==>
        r.value in old(Contents()) && Equivalent(less, r.value, e)
        && Contents() == old(Contents()) - multiset{r.value} + multiset{e}
      ensures r.None? ==>
        (forall x :: x in old(Contents()) ==> !Equivalent(less, x, e)) && Contents() == old(Contents()) + multiset{e}
      ensures memory ==> elemCnt < 4 * buckets.Length
    {
      var b, k := FindElem(e);
      if k.Some? {
        r := Some(buckets[b][k.value]);
        Exchange(b, k.value, e);
      } else {
        r := None;
        InsertElem(b, e);
      }
      Rehash(memory);
    }

    method Exchange(b: nat, k: nat, e: E)
      requires Valid() && b == Index(hash, e, buckets.Length) && k < |buckets[b]| && Equivalent(less, buckets[b][k], e)
      requires buckets[b][k] in Contents()
      modifies this`elemCnt, buckets
      ensures Valid() && Contents() == old(Contents()) - multiset{old(buckets[b][k])} + multiset{e}
    {
      OnlyOne(less, Contents(), buckets[b][k], e);
      RemoveElem(b, k);
      InsertElem(b, e);
    }

    /** hash_delete */
    method Delete(e: E, memory: bool) returns (r: Option<E>)
      requires Valid()
      modifies this, buckets
      ensures Valid() && (buckets == old(buckets) || fresh(buckets))
      ensures r.Some? ==>
        r.value in old(Contents()) && Equivalent(less, r.value, e)
        && Contents() == old(Contents()) - multiset{r.value}
      ensures r.None? ==>
        (forall x :: x in old(Contents()) ==> !Equivalent(less, x, e)) && Contents() == old(Contents())
    {
      var b, k := FindElem(e);
      r := if k.Some? then Some(buckets[b][k.value]) else None;
      if r.Some? {
        RemoveElem(b, k.value);
        Rehash(memory);
      }
    }
  }

  lemma MultisetSnoc<E>(q: seq<E>, j: nat)
    requires j < |q|
    ensures multiset(q[..j + 1]) == multiset(q[..j]) + multiset{q[j]}
  {
    assert q[..j + 1] == q[..j] + [q[j]];
  }

  lemma {:induction false} EmptyBag<E>(bs: seq<seq<E>>)
    requires forall b :: 0 <= b < |bs| ==> bs[b] == []
    ensures Bag(bs) == multiset{} && Flatten(bs) == []
  {
    if bs != [] { EmptyBag(bs[1..]); }
  }

  lemma BagSnoc<E>(bs: seq<seq<E>>, i: nat)
    requires i < |bs|
    ensures Bag(bs[..i + 1]) == Bag(bs[..i]) + multiset(bs[i])
    ensures |Flatten(bs[..i + 1])| == |Flatten(bs[..i])| + |bs[i]|
  {
    SplitBag(bs[..i + 1], i);
    assert bs[..i + 1][..i] == bs[..i] && bs[..i + 1][i + 1..] == [];
  }

  /** At most one element is equivalent to a given one. */
  lemma OnlyOne<E(!new)>(less: (E, E) -> bool, m: multiset<E>, x: E, e: E)
    requires Distinct(less, m) && x in m && Equivalent(less, x, e)
    requires forall a, b, c :: Equivalent(less, a, b) && Equivalent(less, b, c) ==> Equivalent(less, a, c)
    ensures forall y :: y in m - multiset{x} ==> !Equivalent(less, y, e)
  {
    forall y | y in m - multiset{x} ensures !Equivalent(less, y, e) {
      assert m[x] == 1 && y != x;
      assert Equivalent(less, y, e) && Equivalent(less, e, x) ==> Equivalent(less, y, x);
    }
  }

  // ---------- iteration ----------

  /** struct hash_iterator: a bucket and a position in it; -1 is the head of the bucket's list. */
  class Iterator<E(!new,==)> {
    const table: Table<E>
    var bucket: nat
    var pos: int

    ghost predicate Valid()
      reads this, table, table.buckets
    {
      bucket < table.buckets.Length && -1 <= pos < |table.buckets[bucket]|
    }

    /** The elements still to come. */
    ghost function Rest(): seq<E>
      requires Valid()
      reads this, table, table.buckets
    {
      table.buckets[bucket][pos + 1..] + Flatten(table.buckets[bucket + 1..])
    }

    /** hash_first */
    constructor (t: Table<E>)
      requires t.Valid()
      ensures table == t && Valid() && Rest() == Flatten(t.buckets[..])
    {
      table, bucket, pos := t, 0, -1;
      new;
      assert t.buckets[..] == [t.buckets[0]] + t.buckets[1..];
    }

    /** hash_next: the next of the remaining elements; null exactly when none remains. */
    method Next() returns (r: Option<E>)
      requires Valid()
      modifies this
      ensures r.None? <==> old(Rest()) == []
      ensures r.Some? ==> Valid() && [r.value] + Rest() == old(Rest())
    {
      ghost var rest := Rest();
      pos := pos + 1;
      while pos == |table.buckets[bucket]|
        invariant bucket < table.buckets.Length && 0 <= pos <= |table.buckets[bucket]|
        invariant rest == table.buckets[bucket][pos..] + Flatten(table.buckets[bucket + 1..])
        decreases table.buckets.Length - bucket
      {
        if bucket + 1 >= table.buckets.Length {
          return None;
        }
        assert table.buckets[bucket + 1..][0] == table.buckets[bucket + 1]
          && table.buckets[bucket + 1..][1..] == table.buckets[bucket + 2..];
        bucket := bucket + 1;
        pos := 0;
      }
      assert table.buckets[bucket][pos..] == [table.buckets[bucket][pos]] + table.buckets[bucket][pos + 1..];
      r := Some(table.buckets[bucket][pos]);
    }
  }
}
