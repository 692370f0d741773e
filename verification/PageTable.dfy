/** The four-level page table of threads/mmu.c as a map from page addresses to leaf entries. */
module PageTable {
  import opened PageEntry
  import opened Sequences

  /** A path of indices from the root table downwards; the last index is outermost. */
  datatype Path = Root | Sub(up: Path, i: nat)

  ghost function Depth(path: Path): nat {
    if path.Root? then 0 else 1 + Depth(path.up)
  }

  /** The path to the leaf entry of an address. */
  ghost function KeyOf(va: nat): (key: Path)
    ensures Depth(key) == 4 && Depth(key.up) == 3 && Depth(key.up.up) == 2 && Depth(key.up.up.up) == 1
  {
    var top := Sub(Root, Pml4(va));
    assert Depth(top) == 1;
    var middle := Sub(Sub(top, Pdpe(va)), Pdx(va));
    assert Depth(middle) == 3;
    Sub(middle, Ptx(va))
  }

  /** The pages in use as tables, by kernel virtual address. */
  type Memory = map<nat, seq<Entry>>

  function Zeros(): (s: seq<Entry>)
    ensures |s| == 512 && forall i :: 0 <= i < 512 ==> s[i] == Zero()
  {
    seq(512, _ => Zero())
  }

  /** The present entry "i" of a table. */
  ghost function EntryAt(mem: Memory, table: Option<nat>, i: nat): Option<Entry> {
    if table.Some? && table.value in mem && i < |mem[table.value]| && mem[table.value][i].present
    then Some(mem[table.value][i]) else None
  }

  /** The table at the end of a path. */
  ghost function TableAt(mem: Memory, root: nat, path: Path): Option<nat> {
    match path
    case Root => Some(root)
    case Sub(up, i) =>
      var e := EntryAt(mem, TableAt(mem, root, up), i);
      if e.Some? then Some(e.value.page) else None
  }

  /** The map that the tables stand for: the present entry at the end of a path of four indices. */
  ghost function LeafAt(mem: Memory, root: nat, key: Path): Option<Entry> {
    if key.Root? then None else EntryAt(mem, TableAt(mem, root, key.up), key.i)
  }

  /** Every table is at one place, the path by which it is reached; entries of the three upper levels
      are zero or lead to the table at the place they extend, and let users read and write what is below. */
  ghost predicate Tree(mem: Memory, root: nat, place: map<nat, Path>) {
    && root in place && place[root] == Root && place.Keys <= mem.Keys
    && (forall p :: p in place ==> TableOk(mem, root, place, p))
  }

  ghost predicate TableOk(mem: Memory, root: nat, place: map<nat, Path>, p: nat)
    requires p in mem && p in place
  {
    && |mem[p]| == 512 && Depth(place[p]) <= 3
    && TableAt(mem, root, place[p]) == Some(p)
    && (Depth(place[p]) < 3 ==> forall i :: 0 <= i < 512 ==> EntryOk(mem, place, p, i))
  }

  ghost predicate EntryOk(mem: Memory, place: map<nat, Path>, p: nat, i: nat)
    requires p in mem && p in place && i < |mem[p]|
  {
    if mem[p][i].present then
      mem[p][i].page in place && place[mem[p][i].page] == Sub(place[p], i) && mem[p][i].writable && mem[p][i].user
    else mem[p][i] == Zero()
  }

  lemma {:induction false} TableIsPlaced(mem: Memory, root: nat, place: map<nat, Path>, path: Path)
    requires Tree(mem, root, place) && Depth(path) <= 3 && TableAt(mem, root, path).Some?
    ensures TableAt(mem, root, path).value in place && place[TableAt(mem, root, path).value] == path
  {
    if path.Sub? {
      TableIsPlaced(mem, root, place, path.up);
      var p := TableAt(mem, root, path.up).value;
      assert TableOk(mem, root, place, p) && EntryOk(mem, place, p, path.i);
    }
  }

  // ---------- access ----------

  /** What the processor lets a user program do at the end of a path: every entry on it must be present and for users,
      and for a write also writable. */
  ghost predicate Permits(mem: Memory, root: nat, path: Path, write: bool) {
    match path
    case Root => true
    case Sub(up, i) =>
      var e := EntryAt(mem, TableAt(mem, root, up), i);
      Permits(mem, root, up, write) && e.Some? && e.value.user && (write ==> e.value.writable)
  }

  lemma {:induction false} TablesPermit(mem: Memory, root: nat, place: map<nat, Path>, path: Path, write: bool)
    requires Tree(mem, root, place) && Depth(path) <= 3 && TableAt(mem, root, path).Some?
    ensures Permits(mem, root, path, write)
  {
    if path.Sub? {
      TablesPermit(mem, root, place, path.up, write);
      TableIsPlaced(mem, root, place, path.up);
      var p := TableAt(mem, root, path.up).value;
      assert TableOk(mem, root, place, p) && EntryOk(mem, place, p, path.i);
    }
  }

  /** The tables never stand in the way: what a user program may do with a page is what its leaf entry says. */
  lemma LeafDecidesAccess(mem: Memory, root: nat, place: map<nat, Path>, key: Path, write: bool)
    requires Tree(mem, root, place) && Depth(key) == 4
    ensures
      var leaf := LeafAt(mem, root, key);
      Permits(mem, root, key, write) <==> leaf.Some? && leaf.value.user && (write ==> leaf.value.writable)
  {
    if TableAt(mem, root, key.up).Some? { TablesPermit(mem, root, place, key.up, write); }
  }

  // ---------- adding a table ----------

  ghost function WithTable(mem: Memory, p: nat, i: nat, q: nat): Memory
    requires p in mem && i < |mem[p]| && q != p
  {
    mem[q := Zeros()][p := mem[p][i := TableEntry(q)]]
  }

  /** The place of the new table led nowhere before. */
  lemma NowhereBefore(mem: Memory, root: nat, place: map<nat, Path>, p: nat, i: nat)
    requires Tree(mem, root, place) && p in place && i < 512 && !mem[p][i].present
    ensures TableAt(mem, root, Sub(place[p], i)) == None
  {
    assert TableOk(mem, root, place, p);
  }

  /** A new table is reached by its own path; every other path leads where it led. */
  lemma {:induction false} TableAtAfterAdding(mem: Memory, root: nat, place: map<nat, Path>, p: nat, i: nat, q: nat,
      path: Path)
    requires Tree(mem, root, place) && p in place && i < 512 && |mem[p]| == 512 && !mem[p][i].present
    requires q !in mem && Depth(path) <= 3
    ensures TableAt(WithTable(mem, p, i, q), root, path) ==
              if path == Sub(place[p], i) then Some(q) else TableAt(mem, root, path)
  {
    if path.Sub? {
      TableAtAfterAdding(mem, root, place, p, i, q, path.up);
      NowhereBefore(mem, root, place, p, i);
      assert TableOk(mem, root, place, p);
      if TableAt(mem, root, path.up).Some? { TableIsPlaced(mem, root, place, path.up); }
    }
  }

  lemma AddingKeepsTable(mem: Memory, root: nat, place: map<nat, Path>, p: nat, i: nat, q: nat, r: nat)
    requires Tree(mem, root, place) && p in place && i < 512 && |mem[p]| == 512 && !mem[p][i].present
    requires q !in mem && r in place
    ensures TableOk(WithTable(mem, p, i, q), root, place[q := Sub(place[p], i)], r)
  {
    var (mem', place') := (WithTable(mem, p, i, q), place[q := Sub(place[p], i)]);
    assert TableOk(mem, root, place, r);
    TableAtAfterAdding(mem, root, place, p, i, q, place[r]);
    NowhereBefore(mem, root, place, p, i);
    forall k | 0 <= k < 512 && Depth(place[r]) < 3 ensures EntryOk(mem', place', r, k) {
      assert EntryOk(mem, place, r, k);
    }
  }

  lemma AddingKeepsTree(mem: Memory, root: nat, place: map<nat, Path>, p: nat, i: nat, q: nat)
    requires Tree(mem, root, place) && p in place && Depth(place[p]) < 3 && i < 512 && |mem[p]| == 512
      && !mem[p][i].present
    requires q !in mem
    ensures Tree(WithTable(mem, p, i, q), root, place[q := Sub(place[p], i)])
  {
    var (mem', place') := (WithTable(mem, p, i, q), place[q := Sub(place[p], i)]);
    TableAtAfterAdding(mem, root, place, p, i, q, Sub(place[p], i));
    forall r | r in place' ensures TableOk(mem', root, place', r) {
      if r != q { AddingKeepsTable(mem, root, place, p, i, q, r); }
    }
  }

  /** Adding an empty table maps nothing and unmaps nothing. */
  lemma AddingKeepsLeaves(mem: Memory, root: nat, place: map<nat, Path>, p: nat, i: nat, q: nat, key: Path)
    requires Tree(mem, root, place) && p in place && Depth(place[p]) < 3 && i < 512 && |mem[p]| == 512
      && !mem[p][i].present
    requires q !in mem && Depth(key) == 4
    ensures LeafAt(WithTable(mem, p, i, q), root, key) == LeafAt(mem, root, key)
  {
    TableAtAfterAdding(mem, root, place, p, i, q, key.up);
    NowhereBefore(mem, root, place, p, i);
    if TableAt(mem, root, key.up).Some? { TableIsPlaced(mem, root, place, key.up); }
  }

  // ---------- writing a leaf ----------

  ghost function WithEntry(mem: Memory, p: nat, i: nat, e: Entry): Memory
    requires p in mem && i < |mem[p]|
  {
    mem[p := mem[p][i := e]]
  }

  /** Writing an entry of a last-level table moves no table. */
  lemma {:induction false} TableAtAfterLeaf(mem: Memory, root: nat, place: map<nat, Path>, p: nat, i: nat, e: Entry,
      path: Path)
    requires Tree(mem, root, place) && p in place && Depth(place[p]) == 3 && i < |mem[p]| && Depth(path) <= 3
    ensures TableAt(WithEntry(mem, p, i, e), root, path) == TableAt(mem, root, path)
  {
    if path.Sub? {
      TableAtAfterLeaf(mem, root, place, p, i, e, path.up);
      if TableAt(mem, root, path.up).Some? { TableIsPlaced(mem, root, place, path.up); }
    }
  }

  lemma LeafWriteKeepsTree(mem: Memory, root: nat, place: map<nat, Path>, p: nat, i: nat, e: Entry)
    requires Tree(mem, root, place) && p in place && Depth(place[p]) == 3 && i < |mem[p]|
    ensures Tree(WithEntry(mem, p, i, e), root, place)
  {
    var mem' := WithEntry(mem, p, i, e);
    forall r | r in place ensures TableOk(mem', root, place, r) {
      assert TableOk(mem, root, place, r);
      TableAtAfterLeaf(mem, root, place, p, i, e, place[r]);
      forall k | 0 <= k < 512 && Depth(place[r]) < 3 ensures EntryOk(mem', place, r, k) {
        assert EntryOk(mem, place, r, k);
      }
    }
  }

  /** Writing one leaf entry changes the map at exactly its key. */
  lemma LeafWriteChangesOneKey(mem: Memory, root: nat, place: map<nat, Path>, p: nat, i: nat, e: Entry, key: Path)
    requires Tree(mem, root, place) && p in place && Depth(place[p]) == 3 && i < |mem[p]| && Depth(key) == 4
    ensures LeafAt(WithEntry(mem, p, i, e), root, key) ==
              if key == Sub(place[p], i) then (if e.present then Some(e) else None) else LeafAt(mem, root, key)
  {
    assert TableOk(mem, root, place, p);
    TableAtAfterLeaf(mem, root, place, p, i, e, key.up);
    if TableAt(mem, root, key.up).Some? { TableIsPlaced(mem, root, place, key.up); }
  }

  // ---------- walking, creating tables on the way ----------

  /** Memory, the pages palloc_get_page may hand out, and where the tables are. */
  datatype View = View(mem: Memory, free: set<nat>, place: map<nat, Path>)

  ghost predicate Consistent(v: View, root: nat) {
    Tree(v.mem, root, v.place) && v.free !! v.mem.Keys
  }

  /** A page that palloc_get_page has just handed out, as a root, is an address space without mappings. */
  lemma EmptyRootIsConsistent(v: View, root: nat)
    requires v.free !! v.mem.Keys && root in v.free
    ensures
      var v' := View(v.mem[root := Zeros()], v.free - {root}, map[root := Root]);
      Consistent(v', root) && forall key :: Depth(key) == 4 ==> LeafAt(v'.mem, root, key) == None
  {
    var mem' := v.mem[root := Zeros()];
    assert TableOk(mem', root, map[root := Root], root);
    forall key | Depth(key) == 4 ensures LeafAt(mem', root, key) == None { NothingBelow(mem', root, key.up); }
  }

  lemma {:induction false} NothingBelow(mem: Memory, root: nat, path: Path)
    requires root in mem && mem[root] == Zeros()
    ensures TableAt(mem, root, path) == if path == Root then Some(root) else None
  {
    if path.Sub? { NothingBelow(mem, root, path.up); }
  }

  /** How many tables have to be created for the path to exist. */
  ghost function Missing(mem: Memory, root: nat, path: Path): nat {
    if path.Root? || TableAt(mem, root, path).Some? then 0 else 1 + Missing(mem, root, path.up)
  }

  ghost predicate IsPrefix(a: Path, b: Path) {
    a == b || (b.Sub? && IsPrefix(a, b.up))
  }

  ghost predicate SameMap(mem: Memory, mem': Memory, root: nat) {
    forall key :: Depth(key) == 4 ==> LeafAt(mem', root, key) == LeafAt(mem, root, key)
  }

  /** Only tables on the path have been written. */
  ghost predicate OnlyOnPath(v: View, mem': Memory, path: Path) {
    forall p :: p in v.mem ==> p in mem' && (mem'[p] == v.mem[p] || (p in v.place && IsPrefix(v.place[p], path)))
  }

  /** What a walk from "v" to "v'" does.  It fails exactly when a table is missing and it may not
      create it or the pages do not suffice, and then it leaves everything as it was.  Otherwise it
      returns the place of the entry, having created exactly the missing tables. */
  ghost predicate Walked(v: View, v': View, root: nat, va: nat, create: bool, pte: Option<(nat, nat)>) {
    var (path, missing) := (KeyOf(va).up, Missing(v.mem, root, KeyOf(va).up));
    && (pte.Some? <==> missing == 0 || (create && missing <= |v.free|))
    && (pte.None? || missing == 0 ==> v' == v)
    && (pte.Some? ==>
          && pte.value.0 in v'.place && v'.place[pte.value.0] == path && pte.value.1 == Ptx(va)
          && Consistent(v', root) && SameMap(v.mem, v'.mem, root) && OnlyOnPath(v, v'.mem, path)
          && v'.free <= v.free && |v'.free| == |v.free| - missing && v'.mem.Keys == v.mem.Keys + (v.free - v'.free)
          && forall p :: p in v'.place && p in v.mem ==> p in v.place && v.place[p] == v'.place[p])
  }

  /** The state after creating one table. */
  ghost function Grown(v: View, p: nat, i: nat, q: nat): View
    requires p in v.mem && p in v.place && i < |v.mem[p]| && q != p
  {
    View(WithTable(v.mem, p, i, q), v.free - {q}, v.place[q := Sub(v.place[p], i)])
  }

  lemma GrownIsConsistent(v: View, root: nat, p: nat, i: nat, q: nat)
    requires Consistent(v, root) && p in v.place && Depth(v.place[p]) < 3 && i < 512 && |v.mem[p]| == 512
      && !v.mem[p][i].present
    requires q in v.free
    ensures Consistent(Grown(v, p, i, q), root) && SameMap(v.mem, Grown(v, p, i, q).mem, root)
  {
    AddingKeepsTree(v.mem, root, v.place, p, i, q);
    forall key | Depth(key) == 4 ensures LeafAt(Grown(v, p, i, q).mem, root, key) == LeafAt(v.mem, root, key) {
      AddingKeepsLeaves(v.mem, root, v.place, p, i, q, key);
    }
  }

  /** One of the missing tables has been created. */
  lemma {:induction false} GrownMissesOneLess(v: View, root: nat, p: nat, i: nat, q: nat, path: Path)
    requires Consistent(v, root) && p in v.place && Depth(v.place[p]) < 3 && i < 512 && |v.mem[p]| == 512
      && !v.mem[p][i].present
    requires q in v.free && Depth(path) <= 3 && IsPrefix(Sub(v.place[p], i), path)
    ensures Missing(v.mem, root, path) == Missing(Grown(v, p, i, q).mem, root, path) + 1
  {
    TableAtAfterAdding(v.mem, root, v.place, p, i, q, path);
    NowhereBefore(v.mem, root, v.place, p, i);
    if path == Sub(v.place[p], i) {
      assert TableOk(v.mem, root, v.place, p);
    } else {
      GrownMissesOneLess(v, root, p, i, q, path.up);
      BeyondNowhere(v.mem, root, Sub(v.place[p], i), path);
    }
  }

  lemma {:induction false} BeyondNowhere(mem: Memory, root: nat, a: Path, path: Path)
    requires TableAt(mem, root, a) == None && IsPrefix(a, path)
    ensures TableAt(mem, root, path) == None
  {
    if a != path { BeyondNowhere(mem, root, a, path.up); }
  }

  lemma OnlyOnPathThroughGrown(v: View, p: nat, i: nat, q: nat, mem': Memory, path: Path)
    requires p in v.place && i < 512 && p in v.mem && |v.mem[p]| == 512 && q !in v.mem && v.place.Keys <= v.mem.Keys
    requires IsPrefix(Sub(v.place[p], i), path) && OnlyOnPath(Grown(v, p, i, q), mem', path)
    ensures OnlyOnPath(v, mem', path)
  {
    UpIsPrefix(v.place[p], i, path);
    forall r | r in v.mem ensures r in mem' && (mem'[r] == v.mem[r] || (r in v.place && IsPrefix(v.place[r], path))) {
      assert r in Grown(v, p, i, q).mem;
    }
  }

  lemma SameMapTransitive(a: Memory, b: Memory, c: Memory, root: nat)
    requires SameMap(a, b, root) && SameMap(b, c, root)
    ensures SameMap(a, c, root)
  {
    forall key | Depth(key) == 4 ensures LeafAt(c, root, key) == LeafAt(a, root, key) {
      assert LeafAt(c, root, key) == LeafAt(b, root, key);
    }
  }

  lemma KeysWithTable(mem: Memory, p: nat, i: nat, q: nat)
    requires p in mem && i < |mem[p]| && q != p
    ensures WithTable(mem, p, i, q).Keys == mem.Keys + {q}
  {
  }

  lemma PagesThroughGrown(keys: set<nat>, free: set<nat>, q: nat, keys1: set<nat>, free1: set<nat>, keys2: set<nat>,
      free2: set<nat>)
    requires q in free && keys1 == keys + {q} && free1 == free - {q}
    requires free2 <= free1 && keys2 == keys1 + (free1 - free2)
    ensures free2 <= free && |free1| == |free| - 1 && keys2 == keys + (free - free2)
  {
  }

  /** A walk that went on from a newly created table is a walk. */
  lemma WalkedThroughGrown(v: View, p: nat, q: nat, v': View, root: nat, va: nat, i: nat, pte: Option<(nat, nat)>)
    requires Consistent(v, root) && p in v.place && Depth(v.place[p]) < 3 && i < 512 && |v.mem[p]| == 512
      && !v.mem[p][i].present
    requires q in v.free && IsPrefix(Sub(v.place[p], i), KeyOf(va).up)
    requires pte.Some? && Walked(Grown(v, p, i, q), v', root, va, true, pte)
    ensures Walked(v, v', root, va, true, pte)
  {
    var (g, path) := (Grown(v, p, i, q), KeyOf(va).up);
    GrownIsConsistent(v, root, p, i, q);
    GrownMissesOneLess(v, root, p, i, q, path);
    OnlyOnPathThroughGrown(v, p, i, q, v'.mem, path);
    SameMapTransitive(v.mem, g.mem, v'.mem, root);
    KeysWithTable(v.mem, p, i, q);
    PagesThroughGrown(v.mem.Keys, v.free, q, g.mem.Keys, g.free, v'.mem.Keys, v'.free);
  }

  lemma {:induction false} UpIsPrefix(a: Path, i: nat, path: Path)
    requires IsPrefix(Sub(a, i), path)
    ensures IsPrefix(a, path)
  {
    if Sub(a, i) != path { UpIsPrefix(a, i, path.up); }
  }

  /** No table is missing below one that is there. */
  lemma PresentChild(v: View, root: nat, p: nat, i: nat)
    requires Consistent(v, root) && p in v.place && Depth(v.place[p]) < 3 && i < 512 && |v.mem[p]| == 512
      && v.mem[p][i].present
    ensures v.mem[p][i].page in v.place && v.place[v.mem[p][i].page] == Sub(v.place[p], i)
  {
    assert TableOk(v.mem, root, v.place, p) && EntryOk(v.mem, v.place, p, i);
  }

  // ---------- addresses ----------

  /** The index into the root with which a path begins. */
  ghost function TopIndex(path: Path): nat
    requires path.Sub?
  {
    if path.up.Root? then path.i else TopIndex(path.up)
  }

  lemma {:induction false} UserPathsStartAtZero(a: Path, path: Path)
    requires IsPrefix(a, path) && path.Sub? && TopIndex(path) == 0
    ensures a.Root? || TopIndex(a) == 0
  {
    if a != path && path.up.Sub? { UserPathsStartAtZero(a, path.up); }
  }

  /** Another address space that shares only kernel tables, those below root index 1 and up, does not
      see what is done on the path of a user address below 2^39. */
  lemma OtherSpacesUntouched(v: View, mem': Memory, va: nat, root2: nat, place2: map<nat, Path>)
    requires va < 0x8000000000 && OnlyOnPath(v, mem', KeyOf(va).up)
    requires Tree(v.mem, root2, place2)
    requires forall p :: p in place2 && p in v.place ==> v.place[p].Sub? && TopIndex(v.place[p]) > 0
    ensures Tree(mem', root2, place2) && SameMap(v.mem, mem', root2)
  {
    assert TopIndex(KeyOf(va).up) == 0 by {
      assert TopIndex(KeyOf(va).up.up.up) == Pml4(va) && TopIndex(KeyOf(va).up.up) == Pml4(va);
    }
    forall p | p in place2 ensures p in mem' && mem'[p] == v.mem[p] {
      if p in v.place && IsPrefix(v.place[p], KeyOf(va).up) { UserPathsStartAtZero(v.place[p], KeyOf(va).up); }
    }
    forall p | p in place2 ensures TableOk(mem', root2, place2, p) {
      assert TableOk(v.mem, root2, place2, p);
      SameTables(v.mem, mem', root2, place2, place2[p]);
      forall i | 0 <= i < 512 && Depth(place2[p]) < 3
        ensures EntryOk(mem', place2, p, i) { assert EntryOk(v.mem, place2, p, i); }
    }
    forall key | Depth(key) == 4 ensures LeafAt(mem', root2, key) == LeafAt(v.mem, root2, key) {
      SameTables(v.mem, mem', root2, place2, key.up);
      if TableAt(v.mem, root2, key.up).Some? { TableIsPlaced(v.mem, root2, place2, key.up); }
    }
  }

  lemma {:induction false} SameTables(mem: Memory, mem': Memory, root: nat, place: map<nat, Path>, path: Path)
    requires Tree(mem, root, place) && Depth(path) <= 3
    requires forall p :: p in place ==> p in mem' && mem'[p] == mem[p]
    ensures TableAt(mem', root, path) == TableAt(mem, root, path)
  {
    if path.Sub? {
      SameTables(mem, mem', root, place, path.up);
      if TableAt(mem, root, path.up).Some? { TableIsPlaced(mem, root, place, path.up); }
    }
  }

  /** A key is mapped only where no table on its path is missing. */
  lemma MissingOrThere(v: View, root: nat, va: nat)
    requires Consistent(v, root)
    ensures Missing(v.mem, root, KeyOf(va).up) > 0 ==> LeafAt(v.mem, root, KeyOf(va)) == None
    ensures Missing(v.mem, root, KeyOf(va).up) == 0 ==>
      var t := TableAt(v.mem, root, KeyOf(va).up);
      t.Some? && t.value in v.place && v.place[t.value] == KeyOf(va).up
      && forall p :: p in v.place && v.place[p] == KeyOf(va).up ==> p == t.value
  {
    if TableAt(v.mem, root, KeyOf(va).up).Some? {
      TableIsPlaced(v.mem, root, v.place, KeyOf(va).up);
      forall p | p in v.place && v.place[p] == KeyOf(va).up ensures Some(p) == TableAt(v.mem, root, KeyOf(va).up) {
        assert TableOk(v.mem, root, v.place, p);
      }
    }
  }

  lemma PathOfPlace(path: Path, place: Path)
    ensures place == path ==> IsPrefix(place, path)
  {
  }

  /** What storing a leaf entry after a walk comes to. */
  lemma LeafWritten(v: View, v1: View, root: nat, p: nat, i: nat, e: Entry, key0: Path)
    requires Consistent(v1, root) && SameMap(v.mem, v1.mem, root) && key0.Sub? && OnlyOnPath(v, v1.mem, key0.up)
    requires p in v1.place && Depth(v1.place[p]) == 3 && i < |v1.mem[p]| && key0 == Sub(v1.place[p], i) && e.present
    requires p in v.mem ==> p in v.place && v.place[p] == v1.place[p]
    ensures
      var mem' := WithEntry(v1.mem, p, i, e);
      && Tree(mem', root, v1.place) && OnlyOnPath(v, mem', key0.up)
      && forall key :: Depth(key) == 4 ==>
        LeafAt(mem', root, key) == if key == key0 then Some(e) else LeafAt(v.mem, root, key)
  {
    var mem' := WithEntry(v1.mem, p, i, e);
    LeafWriteKeepsTree(v1.mem, root, v1.place, p, i, e);
    forall key | Depth(key) == 4
      ensures LeafAt(mem', root, key) == if key == key0 then Some(e) else LeafAt(v.mem, root, key)
    {
      LeafWriteChangesOneKey(v1.mem, root, v1.place, p, i, e, key);
      assert LeafAt(v1.mem, root, key) == LeafAt(v.mem, root, key);
    }
  }

  /** A root that is a copy of another root reaches the same tables, apart from itself. */
  lemma {:induction false} CopyReaches(mem: Memory, base: nat, root: nat, path: Path)
    requires base in mem && root !in mem
    requires forall i :: 0 <= i < |mem[base]| && mem[base][i].present ==> mem[base][i].page != root
    requires forall t, i :: t in mem && 0 <= i < |mem[t]| && mem[t][i].present ==> mem[t][i].page != root
    ensures path.Sub? ==> TableAt(mem[root := mem[base]], root, path) == TableAt(mem, base, path)
    ensures path.Sub? ==> TableAt(mem, base, path) != Some(root)
  {
    if path.Sub? { CopyReaches(mem, base, root, path.up); }
  }

  /** A new address space maps what the base table maps, through the same tables. */
  lemma CreatedIsTree(v: View, base: nat, root: nat)
    requires Tree(v.mem, base, v.place) && root !in v.mem
    requires forall t, i :: t in v.mem && 0 <= i < |v.mem[t]| && v.mem[t][i].present ==> v.mem[t][i].page != root
    requires forall p, i :: p in v.place && 0 <= i < |v.mem[p]| && v.mem[p][i].present ==> v.mem[p][i].page != base
    ensures
      var (mem', place') := (v.mem[root := v.mem[base]], (v.place - {base})[root := Root]);
      && Tree(mem', root, place')
      && forall key :: Depth(key) == 4 ==> LeafAt(mem', root, key) == LeafAt(v.mem, base, key)
  {
    var (mem', place') := (v.mem[root := v.mem[base]], (v.place - {base})[root := Root]);
    assert TableOk(v.mem, base, v.place, base);
    forall p | p in place' ensures TableOk(mem', root, place', p) {
      var q := if p == root then base else p;
      assert TableOk(v.mem, base, v.place, q);
      CopyReaches(v.mem, base, root, place'[p]);
      forall i | 0 <= i < 512 && Depth(place'[p]) < 3
        ensures EntryOk(mem', place', p, i) { assert EntryOk(v.mem, v.place, q, i); }
    }
    forall key | Depth(key) == 4 ensures LeafAt(mem', root, key) == LeafAt(v.mem, base, key) {
      CopyReaches(v.mem, base, root, key.up);
    }
  }

  // ---------- visiting every leaf ----------

  datatype Visit = Visit(key: Path, entry: Entry)

  /** The address that the indices of a path of four make. */
  ghost function AddressOf(key: Path): nat {
    match key
    case Sub(Sub(Sub(Sub(Root, i4), i3), i2), i1) => Address(i4, i3, i2, i1)
    case _ => 0
  }

  /** The present leaves below the entry at the end of "key"; "n" levels are left, this one included. */
  ghost function EntryLeaves(mem: Memory, n: nat, e: Entry, key: Path): seq<Visit>
    decreases n, 0
  {
    if !e.present then [] else if n <= 1 then [Visit(key, e)] else Leaves(mem, n - 1, e.page, key)
  }

  /** Those below each entry of a table. */
  ghost function Parts(mem: Memory, n: nat, table: nat, path: Path): (parts: seq<seq<Visit>>)
    requires table in mem
    ensures |parts| == |mem[table]|
    decreases n, 1
  {
    seq(|mem[table]|, i requires 0 <= i < |mem[table]| => EntryLeaves(mem, n, mem[table][i], Sub(path, i)))
  }

  lemma PartAt(mem: Memory, n: nat, table: nat, path: Path, i: nat)
    requires table in mem && i < |mem[table]|
    ensures Parts(mem, n, table, path)[i] == EntryLeaves(mem, n, mem[table][i], Sub(path, i))
  {
  }

  /** The present leaves below the table at the end of "path", in order. */
  ghost function Leaves(mem: Memory, n: nat, table: nat, path: Path): seq<Visit>
    decreases n, 2
  {
    if table in mem then Flatten(Parts(mem, n, table, path)) else []
  }

  /** The visits that happen when the callback says stop by returning false. */
  ghost function UpTo(func: (Entry, nat) -> bool, s: seq<Visit>): seq<Visit> {
    if s == [] then [] else if func(s[0].entry, AddressOf(s[0].key)) then [s[0]] + UpTo(func, s[1..]) else [s[0]]
  }

  ghost predicate All(func: (Entry, nat) -> bool, s: seq<Visit>) {
    s == [] || (func(s[0].entry, AddressOf(s[0].key)) && All(func, s[1..]))
  }

  lemma {:induction false} UpToConcat(func: (Entry, nat) -> bool, a: seq<Visit>, b: seq<Visit>)
    ensures UpTo(func, a + b) == if All(func, a) then a + UpTo(func, b) else UpTo(func, a)
    ensures All(func, a + b) <==> All(func, a) && All(func, b)
    ensures All(func, a) ==> UpTo(func, a) == a
  {
    if a == [] {
      assert a + b == b;
    } else {
      UpToConcat(func, a[1..], b);
      assert (a + b)[1..] == a[1..] + b;
      assert a == [a[0]] + a[1..];
    }
  }

  /** Going on with the next part, or stopping in it. */
  lemma NextPart(func: (Entry, nat) -> bool, parts: seq<seq<Visit>>, i: nat)
    requires i < |parts| && All(func, Flatten(parts[..i]))
    ensures Flatten(parts[..i + 1]) == Flatten(parts[..i]) + parts[i]
    ensures All(func, Flatten(parts[..i + 1])) <==> All(func, parts[i])
    ensures All(func, parts[i]) ==> UpTo(func, parts[i]) == parts[i]
    ensures !All(func, parts[i]) ==>
      UpTo(func, Flatten(parts)) == Flatten(parts[..i]) + UpTo(func, parts[i]) && !All(func, Flatten(parts))
  {
    FlattenOneMore(parts, i);
    FlattenSplit(parts, i + 1);
    UpToConcat(func, Flatten(parts[..i]), parts[i]);
    UpToConcat(func, parts[i], []);
    UpToConcat(func, Flatten(parts[..i + 1]), Flatten(parts[i + 1..]));
  }

  /** A leaf is visited below a table exactly when following its indices from there leads to it. */
  lemma {:induction false} VisitedExactlyMapped(mem: Memory, root: nat, n: nat, table: nat, path: Path, v: Visit)
    requires 0 < n <= 4 && TableAt(mem, root, path) == Some(table)
    ensures v in Leaves(mem, n, table, path) <==>
              IsPrefix(path, v.key) && Depth(v.key) == Depth(path) + n && LeafAt(mem, root, v.key) == Some(v.entry)
    decreases n
  {
    if table in mem {
      var parts := Parts(mem, n, table, path);
      InFlatten(parts, v);
      if v in Leaves(mem, n, table, path) {
        var j :| 0 <= j < |parts| && v in parts[j];
        PartAt(mem, n, table, path, j);
        if n > 1 { VisitedExactlyMapped(mem, root, n - 1, mem[table][j].page, Sub(path, j), v); }
        UpIsPrefix(path, j, v.key);
      }
      if IsPrefix(path, v.key) && Depth(v.key) == Depth(path) + n && LeafAt(mem, root, v.key) == Some(v.entry) {
        var j := NextIndex(mem, root, path, v.key);
        PartAt(mem, n, table, path, j);
        if n > 1 {
          VisitedExactlyMapped(mem, root, n - 1, mem[table][j].page, Sub(path, j), v);
        } else {
          SameDepthPrefix(Sub(path, j), v.key);
        }
        assert v in parts[j];
      }
    } else if IsPrefix(path, v.key) && Depth(v.key) == Depth(path) + n && LeafAt(mem, root, v.key) == Some(v.entry) {
      var j := NextIndex(mem, root, path, v.key);
    }
  }

  lemma {:induction false} SameDepthPrefix(a: Path, b: Path)
    requires IsPrefix(a, b) && Depth(a) == Depth(b)
    ensures a == b
  {
    if a != b { PrefixIsShorter(a, b.up); }
  }

  lemma {:induction false} PrefixIsShorter(a: Path, b: Path)
    requires IsPrefix(a, b)
    ensures Depth(a) <= Depth(b)
  {
    if a != b { PrefixIsShorter(a, b.up); }
  }

  /** The entry through which a mapped key goes on from a prefix. */
  lemma {:induction false} NextIndex(mem: Memory, root: nat, path: Path, key: Path) returns (j: nat)
    requires IsPrefix(path, key) && Depth(path) < Depth(key) && LeafAt(mem, root, key).Some?
      && TableAt(mem, root, path).Some?
    ensures IsPrefix(Sub(path, j), key)
    ensures var t := TableAt(mem, root, path).value; t in mem && j < |mem[t]| && mem[t][j].present
    ensures var t := TableAt(mem, root, path).value;
      TableAt(mem, root, Sub(path, j)) == Some(mem[t][j].page)
      && (Depth(key) == Depth(path) + 1 ==> LeafAt(mem, root, key) == Some(mem[t][j]))
    decreases key
  {
    if key.up == path {
      j := key.i;
    } else {
      if Depth(key.up) <= Depth(path) { SameDepthPrefix(path, key.up); }
      j := NextIndex(mem, root, path, key.up);
    }
  }

  ghost predicate EachOnce(s: seq<Visit>) {
    forall k, l :: 0 <= k < l < |s| ==> s[k].key != s[l].key
  }

  lemma {:induction false} OneBranch(a: Path, i: nat, j: nat, key: Path)
    requires IsPrefix(Sub(a, i), key) && IsPrefix(Sub(a, j), key)
    ensures i == j
  {
    if Sub(a, i) == key {
      SameDepthPrefix(Sub(a, j), key);
    } else if Sub(a, j) == key {
      SameDepthPrefix(Sub(a, i), key);
    } else {
      OneBranch(a, i, j, key.up);
    }
  }

  lemma {:induction false} KeysBelow(mem: Memory, n: nat, table: nat, path: Path, v: Visit)
    requires v in Leaves(mem, n, table, path)
    ensures IsPrefix(path, v.key)
    decreases n
  {
    var parts := Parts(mem, n, table, path);
    InFlatten(parts, v);
    var j :| 0 <= j < |parts| && v in parts[j];
    PartAt(mem, n, table, path, j);
    if n > 1 { KeysBelow(mem, n - 1, mem[table][j].page, Sub(path, j), v); }
    UpIsPrefix(path, j, v.key);
  }

  lemma {:induction false} FlattenOnce(parts: seq<seq<Visit>>)
    requires forall i :: 0 <= i < |parts| ==> EachOnce(parts[i])
    requires forall i, j, u: Visit, w: Visit ::
      0 <= i < j < |parts| && u in parts[i] && w in parts[j] ==> u.key != w.key
    ensures EachOnce(Flatten(parts))
  {
    if parts != [] {
      var rest := parts[1..];
      forall i, j, u: Visit, w: Visit | 0 <= i < j < |rest| && u in rest[i] && w in rest[j] ensures u.key != w.key {
        assert rest[i] == parts[i + 1] && rest[j] == parts[j + 1];
      }
      FlattenOnce(rest);
      forall u: Visit, w: Visit | u in parts[0] && w in Flatten(rest) ensures u.key != w.key {
        InFlatten(rest, w);
        var j :| 0 <= j < |rest| && w in rest[j];
        assert rest[j] == parts[j + 1];
      }
      OnceConcat(parts[0], Flatten(rest));
    }
  }

  lemma OnceConcat(a: seq<Visit>, b: seq<Visit>)
    requires EachOnce(a) && EachOnce(b) && forall u: Visit, w: Visit :: u in a && w in b ==> u.key != w.key
    ensures EachOnce(a + b)
  {
    forall k, l | 0 <= k < l < |a + b| ensures (a + b)[k].key != (a + b)[l].key {
      if k < |a| <= l { assert (a + b)[k] in a && (a + b)[l] in b; }
    }
  }

  /** No leaf is visited twice. */
  lemma {:induction false} LeavesOnce(mem: Memory, n: nat, table: nat, path: Path)
    ensures EachOnce(Leaves(mem, n, table, path))
    decreases n
  {
    if table in mem {
      var parts := Parts(mem, n, table, path);
      forall i | 0 <= i < |parts| ensures EachOnce(parts[i]) {
        PartAt(mem, n, table, path, i);
        if n > 1 { LeavesOnce(mem, n - 1, mem[table][i].page, Sub(path, i)); }
      }
      forall i, j, u: Visit, w: Visit | 0 <= i < j < |parts| && u in parts[i] && w in parts[j] ensures u.key != w.key {
        PartBelow(mem, n, table, path, i, u);
        PartBelow(mem, n, table, path, j, w);
        if u.key == w.key { OneBranch(path, i, j, u.key); }
      }
      FlattenOnce(parts);
    }
  }

  lemma PartBelow(mem: Memory, n: nat, table: nat, path: Path, i: nat, u: Visit)
    requires table in mem && i < |mem[table]| && u in Parts(mem, n, table, path)[i]
    ensures IsPrefix(Sub(path, i), u.key)
  {
    PartAt(mem, n, table, path, i);
    if n > 1 { KeysBelow(mem, n - 1, mem[table][i].page, Sub(path, i), u); }
  }

  // ---------- destroying ----------

  ghost function SetOf(s: seq<nat>): set<nat> {
    set x | x in s
  }

  lemma {:induction false} NoDupConcat(a: seq<nat>, b: seq<nat>)
    ensures NoDup(a + b) <==> NoDup(a) && NoDup(b) && SetOf(a) !! SetOf(b)
  {
    if a == [] {
      assert a + b == b;
    } else {
      NoDupConcat(a[1..], b);
      assert a + b == [a[0]] + (a[1..] + b) && a == [a[0]] + a[1..];
      NoDupCons(a[0], a[1..] + b);
      NoDupCons(a[0], a[1..]);
      assert SetOf(a) == {a[0]} + SetOf(a[1..]);
      assert a[0] in SetOf(b) <==> a[0] in b;
    }
  }

  /** The pages that destroying a level-n table gives back, in order; the table itself is the last. */
  ghost function Frees(mem: Memory, n: nat, table: nat): seq<nat>
    decreases n, 1
  {
    if table in mem then FreesFrom(mem, n, mem[table]) + [table] else [table]
  }

  /** Those below a run of entries. */
  ghost function FreesFrom(mem: Memory, n: nat, es: seq<Entry>): seq<nat>
    decreases n, 0, |es|
  {
    if es == [] then []
    else
      FreesFrom(mem, n, es[..|es| - 1])
      + (if es[|es| - 1].present then FreesBelow(mem, n, es[|es| - 1].page) else [])
  }

  ghost function FreesBelow(mem: Memory, n: nat, page: nat): seq<nat>
    decreases n, 0, 0
  {
    if n <= 1 then [page] else Frees(mem, n - 1, page)
  }

  lemma FreesSnoc(mem: Memory, n: nat, es: seq<Entry>, i: nat)
    requires i < |es|
    ensures FreesFrom(mem, n, es[..i + 1]) ==
      FreesFrom(mem, n, es[..i]) + (if es[i].present then FreesBelow(mem, n, es[i].page) else [])
  {
    assert es[..i + 1][..i] == es[..i];
  }

  /** The first pages given back are a prefix of all. */
  lemma {:induction false} FreesPrefix(mem: Memory, n: nat, es: seq<Entry>, i: nat) returns (rest: seq<nat>)
    requires i <= |es|
    ensures FreesFrom(mem, n, es) == FreesFrom(mem, n, es[..i]) + rest
    decreases |es|
  {
    if i == |es| {
      rest := [];
      assert es[..i] == es;
    } else {
      var front := es[..|es| - 1];
      var rest1 := FreesPrefix(mem, n, front, i);
      assert front[..i] == es[..i];
      rest := rest1 + (if es[|es| - 1].present then FreesBelow(mem, n, es[|es| - 1].page) else []);
    }
  }

  /** The tables of the subtree are there. */
  ghost predicate Built(mem: Memory, n: nat, table: nat) {
    && table in mem && |mem[table]| == 512
    && (n > 1 ==> forall i :: 0 <= i < 512 && mem[table][i].present ==> Built(mem, n - 1, mem[table][i].page))
  }

  lemma {:induction false} TreeIsBuilt(mem: Memory, root: nat, place: map<nat, Path>, n: nat, table: nat)
    requires Tree(mem, root, place) && table in place && Depth(place[table]) + n == 4 && n > 0
    ensures Built(mem, n, table)
    decreases n
  {
    assert TableOk(mem, root, place, table);
    forall i | 0 <= i < 512 && mem[table][i].present && n > 1 ensures Built(mem, n - 1, mem[table][i].page) {
      assert EntryOk(mem, place, table, i);
      TreeIsBuilt(mem, root, place, n - 1, mem[table][i].page);
    }
  }

  /** What a subtree consists of does not depend on other pages. */
  lemma {:induction false} SubtreeFrame(mem: Memory, mem': Memory, n: nat, table: nat)
    requires n > 0 && Built(mem, n, table)
    requires forall t :: t in Frees(mem, n, table) && t in mem ==> t in mem' && mem'[t] == mem[t]
    ensures Built(mem', n, table) && Frees(mem', n, table) == Frees(mem, n, table)
    decreases n
  {
    assert table in Frees(mem, n, table) && mem[table][..512] == mem[table];
    SubtreesFrame(mem, mem', n, table, 512);
  }

  lemma {:induction false} SubtreesFrame(mem: Memory, mem': Memory, n: nat, table: nat, i: nat)
    requires n > 0 && Built(mem, n, table) && i <= 512
    requires forall t :: t in FreesFrom(mem, n, mem[table][..i]) && t in mem ==> t in mem' && mem'[t] == mem[t]
    ensures FreesFrom(mem', n, mem[table][..i]) == FreesFrom(mem, n, mem[table][..i])
    ensures n > 1 ==> forall k :: 0 <= k < i && mem[table][k].present ==> Built(mem', n - 1, mem[table][k].page)
    decreases n, i
  {
    if i > 0 {
      FreesSnoc(mem, n, mem[table], i - 1);
      FreesSnoc(mem', n, mem[table], i - 1);
      SubtreesFrame(mem, mem', n, table, i - 1);
      if n > 1 && mem[table][i - 1].present { SubtreeFrame(mem, mem', n - 1, mem[table][i - 1].page); }
    }
  }

  lemma ThreeParts(front: seq<nat>, more: seq<nat>, rest: seq<nat>, last: nat)
    requires NoDup(front + (more + (rest + [last])))
    ensures NoDup(more) && SetOf(more) !! SetOf(front) && last !in front
    ensures SetOf(front + more) == SetOf(front) + SetOf(more)
  {
    NoDupConcat(front, more + (rest + [last]));
    NoDupConcat(more, rest + [last]);
    assert last in SetOf(more + (rest + [last])) && last !in SetOf(front);
    assert SetOf(more) <= SetOf(more + (rest + [last]));
  }

  /** What the loop over the entries of a table relies on at entry "i": nothing that is still to be given
      back has been. */
  lemma NextPages(mem: Memory, n: nat, table: nat, i: nat)
    requires Built(mem, n, table) && NoDup(Frees(mem, n, table)) && i < 512
    ensures table !in FreesFrom(mem, n, mem[table][..i])
    ensures mem[table][i].present ==>
      var (front, more) := (FreesFrom(mem, n, mem[table][..i]), FreesBelow(mem, n, mem[table][i].page));
      && SetOf(more) !! SetOf(front) && NoDup(more)
      && SetOf(FreesFrom(mem, n, mem[table][..i + 1])) == SetOf(front) + SetOf(more)
  {
    var (es, front) := (mem[table], FreesFrom(mem, n, mem[table][..i]));
    var rest := FreesPrefix(mem, n, es, i + 1);
    FreesSnoc(mem, n, es, i);
    var more := if es[i].present then FreesBelow(mem, n, es[i].page) else [];
    assert Frees(mem, n, table) == front + (more + (rest + [table]));
    ThreeParts(front, more, rest, table);
  }

  /** And the pages of this entry are as they were. */
  lemma NextToFree(mem: Memory, n: nat, table: nat, i: nat, mem': Memory)
    requires n > 0 && Built(mem, n, table) && NoDup(Frees(mem, n, table)) && i < 512
    requires mem' == mem - SetOf(FreesFrom(mem, n, mem[table][..i]))
    ensures table in mem' && mem'[table] == mem[table]
    ensures mem[table][i].present ==>
      var (front, more) := (FreesFrom(mem, n, mem[table][..i]), FreesBelow(mem, n, mem[table][i].page));
      && SetOf(more) !! SetOf(front) && NoDup(more)
      && SetOf(FreesFrom(mem, n, mem[table][..i + 1])) == SetOf(front) + SetOf(more)
      && (n > 1 ==> Built(mem', n - 1, mem[table][i].page) && Frees(mem', n - 1, mem[table][i].page) == more)
  {
    NextPages(mem, n, table, i);
    if mem[table][i].present && n > 1 {
      var more := FreesBelow(mem, n, mem[table][i].page);
      forall t | t in more && t in mem ensures t in mem' && mem'[t] == mem[t] { assert t in SetOf(more); }
      SubtreeFrame(mem, mem', n - 1, mem[table][i].page);
    }
  }

  lemma MinusBoth(mem: Memory, a: set<nat>, b: set<nat>)
    ensures mem - a - b == mem - (a + b)
    ensures forall x :: b == SetOf([x]) ==> b == {x}
  {
    forall x | b == SetOf([x]) ensures b == {x} { assert forall y :: y in [x] <==> y == x; }
  }

  lemma WholeTable(mem: Memory, n: nat, table: nat, free: set<nat>)
    requires Built(mem, n, table) && NoDup(Frees(mem, n, table)) && SetOf(Frees(mem, n, table)) !! free
    ensures mem == mem - SetOf(FreesFrom(mem, n, mem[table][..0]))
      && free == free + SetOf(FreesFrom(mem, n, mem[table][..0]))
    ensures table !in free && SetOf(FreesFrom(mem, n, mem[table])) !! free
      && table !in SetOf(FreesFrom(mem, n, mem[table]))
    ensures SetOf(Frees(mem, n, table)) == SetOf(FreesFrom(mem, n, mem[table])) + {table}
  {
    NoDupConcat(FreesFrom(mem, n, mem[table]), [table]);
    assert table in SetOf([table]) && table in SetOf(Frees(mem, n, table));
    assert forall t :: t in FreesFrom(mem, n, mem[table]) ==> t in SetOf(Frees(mem, n, table));
  }

  lemma SubsetOfAll(mem: Memory, n: nat, table: nat, i: nat, free: set<nat>)
    requires Built(mem, n, table) && i < 512 && SetOf(Frees(mem, n, table)) !! free
    ensures mem[table][i].present ==> SetOf(FreesBelow(mem, n, mem[table][i].page)) !! free
  {
    var rest := FreesPrefix(mem, n, mem[table], i + 1);
    FreesSnoc(mem, n, mem[table], i);
    if mem[table][i].present {
      forall t | t in FreesBelow(mem, n, mem[table][i].page) ensures t in SetOf(Frees(mem, n, table)) {
        assert t in FreesFrom(mem, n, mem[table][..i + 1]) && t in FreesFrom(mem, n, mem[table]);
      }
    }
  }

  lemma StillThere(mem: Memory, n: nat, table: nat, i: nat)
    requires Built(mem, n, table) && i <= 512 && NoDup(Frees(mem, n, table))
    ensures table !in SetOf(FreesFrom(mem, n, mem[table][..i]))
  {
    var rest := FreesPrefix(mem, n, mem[table], i);
    NoDupConcat(FreesFrom(mem, n, mem[table]), [table]);
    assert table in SetOf([table]);
    assert forall t :: t in FreesFrom(mem, n, mem[table][..i]) ==> t in SetOf(FreesFrom(mem, n, mem[table]));
  }

  /** A table whose pages are given back once each, none of them free already. */
  ghost predicate Destroyable(mem: Memory, free: set<nat>, n: nat, table: nat) {
    Built(mem, n, table) && NoDup(Frees(mem, n, table)) && SetOf(Frees(mem, n, table)) !! free
  }

  /** What goes with the first "i" entries. */
  ghost function Gone(mem: Memory, n: nat, es: seq<Entry>, i: nat): set<nat>
    requires i <= |es|
  {
    SetOf(FreesFrom(mem, n, es[..i]))
  }

  /** One turn of the destroy loops: what is below entry "i" can go, and then the first i + 1 entries have gone. */
  lemma NextEntry(mem: Memory, free: set<nat>, n: nat, table: nat, i: nat, mem': Memory, free': set<nat>)
    requires n > 0 && Destroyable(mem, free, n, table) && i < 512
    requires mem' == mem - Gone(mem, n, mem[table], i) && free' == free + Gone(mem, n, mem[table], i)
    ensures table in mem' && mem'[table] == mem[table] && table !in Gone(mem, n, mem[table], i + 1)
    ensures !mem[table][i].present ==> Gone(mem, n, mem[table], i + 1) == Gone(mem, n, mem[table], i)
    ensures mem[table][i].present ==>
      var more := FreesBelow(mem, n, mem[table][i].page);
      && SetOf(more) !! free' && NoDup(more)
      && mem' - SetOf(more) == mem - Gone(mem, n, mem[table], i + 1)
      && free' + SetOf(more) == free + Gone(mem, n, mem[table], i + 1)
      && (n > 1 ==>
            Destroyable(mem', free', n - 1, mem[table][i].page) && Frees(mem', n - 1, mem[table][i].page) == more)
  {
    NextToFree(mem, n, table, i, mem');
    FreesSnoc(mem, n, mem[table], i);
    SubsetOfAll(mem, n, table, i, free);
    StillThere(mem, n, table, i + 1);
    if mem[table][i].present {
      MinusBoth(mem, Gone(mem, n, mem[table], i), SetOf(FreesBelow(mem, n, mem[table][i].page)));
    }
  }

  /** After all entries the table itself goes. */
  lemma AllEntries(mem: Memory, free: set<nat>, n: nat, table: nat)
    requires n > 0 && Destroyable(mem, free, n, table)
    ensures Gone(mem, n, mem[table], 0) == {}
    ensures Gone(mem, n, mem[table], 512) + {table} == SetOf(Frees(mem, n, table))
      && table !in free + Gone(mem, n, mem[table], 512)
    ensures mem - Gone(mem, n, mem[table], 512) - {table} == mem - SetOf(Frees(mem, n, table))
  {
    WholeTable(mem, n, table, free);
    assert mem[table][..512] == mem[table] && mem[table][..0] == [];
  }

  // ---------- what destroying gives back ----------

  /** The page is mapped at the key. */
  ghost predicate FrameAt(mem: Memory, root: nat, key: Path, x: nat) {
    Depth(key) == 4 && LeafAt(mem, root, key).Some? && LeafAt(mem, root, key).value.page == x
  }

  /** The page is a table at or below the path, or is mapped below it. */
  ghost predicate Under(v: View, root: nat, path: Path, x: nat) {
    (x in v.place && IsPrefix(path, v.place[x])) || exists key :: IsPrefix(path, key) && FrameAt(v.mem, root, key, x)
  }

  /** What is mapped below the path is no table and not free, and is mapped there once. */
  ghost predicate FramesApart(v: View, root: nat, path: Path) {
    && (forall key, x :: IsPrefix(path, key) && FrameAt(v.mem, root, key, x) ==> x !in v.mem && x !in v.free)
    && (forall key, other, x ::
          IsPrefix(path, key) && IsPrefix(path, other) && FrameAt(v.mem, root, key, x)
            && FrameAt(v.mem, root, other, x) ==>
            key == other)
  }

  lemma {:induction false} FramesApartBelow(v: View, root: nat, path: Path, i: nat)
    requires FramesApart(v, root, path)
    ensures FramesApart(v, root, Sub(path, i))
  {
    forall key | IsPrefix(Sub(path, i), key) ensures IsPrefix(path, key) { UpIsPrefix(path, i, key); }
  }

  lemma {:induction false} UnderUp(v: View, root: nat, path: Path, i: nat, x: nat)
    requires Under(v, root, Sub(path, i), x)
    ensures Under(v, root, path, x)
  {
    if x in v.place && IsPrefix(Sub(path, i), v.place[x]) {
      UpIsPrefix(path, i, v.place[x]);
    } else {
      var key :| IsPrefix(Sub(path, i), key) && FrameAt(v.mem, root, key, x);
      UpIsPrefix(path, i, key);
    }
  }

  /** Nothing is below two entries of a table. */
  lemma {:induction false} UnderOneEntry(v: View, root: nat, path: Path, i: nat, j: nat, x: nat)
    requires v.place.Keys <= v.mem.Keys && FramesApart(v, root, path) && Under(v, root, Sub(path, i), x)
      && Under(v, root, Sub(path, j), x)
    ensures i == j
  {
    if x in v.place && IsPrefix(Sub(path, i), v.place[x]) {
      if IsPrefix(Sub(path, j), v.place[x]) {
        OneBranch(path, i, j, v.place[x]);
      } else {
        var key :| IsPrefix(Sub(path, j), key) && FrameAt(v.mem, root, key, x);
        UpIsPrefix(path, j, key);
      }
    } else {
      var key :| IsPrefix(Sub(path, i), key) && FrameAt(v.mem, root, key, x);
      UpIsPrefix(path, i, key);
      var other :| IsPrefix(Sub(path, j), other) && FrameAt(v.mem, root, other, x);
      UpIsPrefix(path, j, other);
      OneBranch(path, i, j, key);
    }
  }

  /** A page that is given back below some entries is given back below one of them. */
  lemma {:induction false} InFreesFrom(mem: Memory, n: nat, es: seq<Entry>, x: nat)
    ensures x in FreesFrom(mem, n, es) <==>
      exists i :: 0 <= i < |es| && es[i].present && x in FreesBelow(mem, n, es[i].page)
    decreases |es|
  {
    if es != [] {
      var front := es[..|es| - 1];
      InFreesFrom(mem, n, front, x);
      if x in FreesFrom(mem, n, front) {
        var i :| 0 <= i < |front| && front[i].present && x in FreesBelow(mem, n, front[i].page);
        assert es[i] == front[i];
      }
      if i :| 0 <= i < |es| && es[i].present && x in FreesBelow(mem, n, es[i].page) {
        if i < |front| { assert front[i] == es[i]; }
      }
    }
  }

  /** An entry of a placed table leads to the table, or maps the frame, below the place. */
  lemma BelowEntry(v: View, root: nat, table: nat, i: nat, n: nat)
    requires Tree(v.mem, root, v.place) && table in v.place && Depth(v.place[table]) + n == 4 && i < 512
      && |v.mem[table]| == 512
    requires v.mem[table][i].present
    ensures n > 1 ==> v.mem[table][i].page in v.place && v.place[v.mem[table][i].page] == Sub(v.place[table], i)
    ensures n <= 1 ==> FrameAt(v.mem, root, Sub(v.place[table], i), v.mem[table][i].page)
  {
    assert TableOk(v.mem, root, v.place, table);
    assert n > 1 ==> EntryOk(v.mem, v.place, table, i);
  }

  /** What is given back is exactly what is below the table's place. */
  lemma {:induction false} FreesExactly(v: View, root: nat, n: nat, table: nat, x: nat)
    requires Tree(v.mem, root, v.place) && table in v.place && Depth(v.place[table]) + n == 4 && n > 0
    ensures x in Frees(v.mem, n, table) <==> Under(v, root, v.place[table], x)
    decreases n, 1
  {
    assert TableOk(v.mem, root, v.place, table);
    var es := v.mem[table];
    InFreesFrom(v.mem, n, es, x);
    if x in FreesFrom(v.mem, n, es) {
      var i :| 0 <= i < |es| && es[i].present && x in FreesBelow(v.mem, n, es[i].page);
      FreesBelowExactly(v, root, n, table, i, x);
      UnderUp(v, root, v.place[table], i, x);
    }
    if Under(v, root, v.place[table], x) && x != table {
      var i := EntryTowards(v, root, n, table, x);
      FreesBelowExactly(v, root, n, table, i, x);
    }
  }

  lemma {:induction false} FreesBelowExactly(v: View, root: nat, n: nat, table: nat, i: nat, x: nat)
    requires Tree(v.mem, root, v.place) && table in v.place && Depth(v.place[table]) + n == 4 && n > 0
    requires i < 512 && |v.mem[table]| == 512 && v.mem[table][i].present
    ensures x in FreesBelow(v.mem, n, v.mem[table][i].page) <==> Under(v, root, Sub(v.place[table], i), x)
    decreases n, 0
  {
    BelowEntry(v, root, table, i, n);
    var path := Sub(v.place[table], i);
    if n > 1 {
      FreesExactly(v, root, n - 1, v.mem[table][i].page, x);
    } else {
      assert IsPrefix(path, path);
      if Under(v, root, path, x) { OnlyFrame(v, root, path, x); }
    }
  }

  /** Below a key of four indices there is nothing but its frame. */
  lemma {:induction false} OnlyFrame(v: View, root: nat, key: Path, x: nat)
    requires Tree(v.mem, root, v.place) && Depth(key) == 4 && Under(v, root, key, x)
    ensures FrameAt(v.mem, root, key, x)
  {
    if x in v.place && IsPrefix(key, v.place[x]) {
      assert TableOk(v.mem, root, v.place, x);
      PrefixIsShorter(key, v.place[x]);
    }
    var other :| IsPrefix(key, other) && FrameAt(v.mem, root, other, x);
    SameDepthPrefix(key, other);
  }

  /** The entry through which the way from a table to something below it goes on. */
  lemma {:induction false} EntryTowards(v: View, root: nat, n: nat, table: nat, x: nat) returns (i: nat)
    requires Tree(v.mem, root, v.place) && table in v.place && Depth(v.place[table]) + n == 4 && n > 0
    requires Under(v, root, v.place[table], x) && x != table
    ensures i < 512 && |v.mem[table]| == 512 && v.mem[table][i].present && Under(v, root, Sub(v.place[table], i), x)
  {
    var path := v.place[table];
    assert TableOk(v.mem, root, v.place, table);
    if x in v.place && IsPrefix(path, v.place[x]) {
      assert TableOk(v.mem, root, v.place, x);
      i := NextTable(v.mem, root, path, v.place[x]);
    } else {
      var key :| IsPrefix(path, key) && FrameAt(v.mem, root, key, x);
      i := NextIndex(v.mem, root, path, key);
    }
  }

  /** The entry through which the way to a table goes on from a prefix. */
  lemma {:induction false} NextTable(mem: Memory, root: nat, path: Path, q: Path) returns (j: nat)
    requires IsPrefix(path, q) && path != q && TableAt(mem, root, q).Some? && TableAt(mem, root, path).Some?
    ensures IsPrefix(Sub(path, j), q)
    ensures var t := TableAt(mem, root, path).value; t in mem && j < |mem[t]| && mem[t][j].present
    decreases q
  {
    if q.up == path {
      j := q.i;
    } else {
      j := NextTable(mem, root, path, q.up);
    }
  }

  /** Destroying a table gives back no page twice. */
  lemma {:induction false} EachPageOnce(v: View, root: nat, n: nat, table: nat)
    requires Tree(v.mem, root, v.place) && table in v.place && Depth(v.place[table]) + n == 4 && n > 0
    requires FramesApart(v, root, v.place[table])
    ensures NoDup(Frees(v.mem, n, table))
    decreases n, 600
  {
    assert TableOk(v.mem, root, v.place, table);
    var es := v.mem[table];
    assert es[..512] == es;
    EntriesOnce(v, root, n, table, 512);
    forall i | 0 <= i < 512 && es[i].present ensures table !in FreesBelow(v.mem, n, es[i].page) {
      FreesBelowExactly(v, root, n, table, i, table);
      NotBelowItself(v, root, table, i);
    }
    InFreesFrom(v.mem, n, es, table);
    NoDupConcat(FreesFrom(v.mem, n, es), [table]);
    assert forall y :: y in SetOf([table]) <==> y == table;
  }

  lemma {:induction false} NotBelowItself(v: View, root: nat, table: nat, i: nat)
    requires v.place.Keys <= v.mem.Keys && table in v.place && FramesApart(v, root, v.place[table])
    ensures !Under(v, root, Sub(v.place[table], i), table)
  {
    var path := v.place[table];
    if IsPrefix(Sub(path, i), path) { PrefixIsShorter(Sub(path, i), path); }
    if key :| IsPrefix(Sub(path, i), key) && FrameAt(v.mem, root, key, table) { UpIsPrefix(path, i, key); }
  }

  lemma {:induction false} EntriesOnce(v: View, root: nat, n: nat, table: nat, i: nat)
    requires Tree(v.mem, root, v.place) && table in v.place && Depth(v.place[table]) + n == 4 && n > 0
    requires FramesApart(v, root, v.place[table]) && |v.mem[table]| == 512 && i <= 512
    ensures NoDup(FreesFrom(v.mem, n, v.mem[table][..i]))
    decreases n, i
  {
    if i > 0 {
      var (es, k) := (v.mem[table], i - 1);
      EntriesOnce(v, root, n, table, k);
      FreesSnoc(v.mem, n, es, k);
      if es[k].present {
        EntryOnce(v, root, n, table, k);
        EntriesApart(v, root, n, table, k);
        NoDupConcat(FreesFrom(v.mem, n, es[..k]), FreesBelow(v.mem, n, es[k].page));
      }
    }
  }

  lemma {:induction false} EntryOnce(v: View, root: nat, n: nat, table: nat, k: nat)
    requires Tree(v.mem, root, v.place) && table in v.place && Depth(v.place[table]) + n == 4 && n > 0
    requires FramesApart(v, root, v.place[table]) && |v.mem[table]| == 512 && k < 512 && v.mem[table][k].present
    ensures NoDup(FreesBelow(v.mem, n, v.mem[table][k].page))
    decreases n, 0
  {
    if n > 1 {
      BelowEntry(v, root, table, k, n);
      FramesApartBelow(v, root, v.place[table], k);
      EachPageOnce(v, root, n - 1, v.mem[table][k].page);
    }
  }

  lemma {:induction false} EntriesApart(v: View, root: nat, n: nat, table: nat, k: nat)
    requires Tree(v.mem, root, v.place) && table in v.place && Depth(v.place[table]) + n == 4 && n > 0
    requires FramesApart(v, root, v.place[table]) && |v.mem[table]| == 512 && k < 512 && v.mem[table][k].present
    ensures SetOf(FreesFrom(v.mem, n, v.mem[table][..k])) !! SetOf(FreesBelow(v.mem, n, v.mem[table][k].page))
  {
    var es := v.mem[table];
    forall x | x in FreesFrom(v.mem, n, es[..k]) ensures x !in FreesBelow(v.mem, n, es[k].page) {
      InFreesFrom(v.mem, n, es[..k], x);
      var i :| 0 <= i < k && es[..k][i].present && x in FreesBelow(v.mem, n, es[..k][i].page);
      FreesBelowExactly(v, root, n, table, i, x);
      FreesBelowExactly(v, root, n, table, k, x);
      if Under(v, root, Sub(v.place[table], k), x) { UnderOneEntry(v, root, v.place[table], i, k, x); }
    }
  }

  /** Nothing that destroying gives back is free already. */
  lemma FreesAreUsed(v: View, root: nat, n: nat, table: nat)
    requires Consistent(v, root) && table in v.place && Depth(v.place[table]) + n == 4 && n > 0
    requires FramesApart(v, root, v.place[table])
    ensures SetOf(Frees(v.mem, n, table)) !! v.free
  {
    forall x | x in Frees(v.mem, n, table) ensures x !in v.free { FreesExactly(v, root, n, table, x); }
  }

  /** What pml4_destroy gives back: what is below root index 0, and the root. */
  ghost function UserPages(mem: Memory, n: nat, root: nat): set<nat> {
    (if root in mem && |mem[root]| == 512 && mem[root][0].present
      then SetOf(Frees(mem, n, mem[root][0].page)) else {}) + {root}
  }

  /** These are exactly the root and the tables and frames below root index 0. */
  lemma UserPagesExactly(v: View, n: nat, root: nat, x: nat)
    requires Tree(v.mem, root, v.place) && n == 3
    ensures x in UserPages(v.mem, n, root) <==> x == root || Under(v, root, Sub(Root, 0), x)
  {
    assert TableOk(v.mem, root, v.place, root);
    if v.mem[root][0].present {
      BelowEntry(v, root, root, 0, n + 1);
      FreesExactly(v, root, n, v.mem[root][0].page, x);
    } else if Under(v, root, Sub(Root, 0), x) {
      NothingUnder(v, root, x);
    }
  }

  lemma {:induction false} NothingUnder(v: View, root: nat, x: nat)
    requires Tree(v.mem, root, v.place) && |v.mem[root]| == 512 && !v.mem[root][0].present
    ensures !Under(v, root, Sub(Root, 0), x)
  {
    if x in v.place && IsPrefix(Sub(Root, 0), v.place[x]) {
      assert TableOk(v.mem, root, v.place, x);
      NoWay(v.mem, root, v.place[x]);
    }
    if key :| IsPrefix(Sub(Root, 0), key) && FrameAt(v.mem, root, key, x) {
      NoWay(v.mem, root, key.up);
    }
  }

  lemma {:induction false} NoWay(mem: Memory, root: nat, path: Path)
    requires IsPrefix(Sub(Root, 0), path) && root in mem && |mem[root]| == 512 && !mem[root][0].present
    ensures TableAt(mem, root, path) == None
  {
    if path != Sub(Root, 0) { NoWay(mem, root, path.up); }
  }

  class Mmu {
    var mem: Memory
    var free: set<nat>
    ghost var place: map<nat, Path>

    constructor (pages: set<nat>)
      ensures mem == map[] && free == pages && place == map[]
    {
      mem, free, place := map[], pages, map[];
    }

    ghost function Now(): View
      reads this
    {
      View(mem, free, place)
    }

    /** palloc_get_page (PAL_ZERO) */
    method AllocPage() returns (page: Option<nat>)
      modifies `mem, `free
      ensures page.None? <==> old(free) == {}
      ensures page.None? ==> mem == old(mem) && free == old(free)
      ensures page.Some? ==>
        page.value in old(free) && free == old(free) - {page.value} && mem == old(mem)[page.value := Zeros()]
    {
      if free == {} {
        page := None;
      } else {
        var q :| q in free;
        free := free - {q};
        mem := mem[q := Zeros()];
        page := Some(q);
      }
    }

    /** palloc_free_page, which asserts that the page is in use. */
    method FreePage(page: nat)
      requires page !in free
      modifies `mem, `free
      ensures mem == old(mem) - {page} && free == old(free) + {page}
    {
      mem := mem - {page};
      free := free + {page};
    }

    /** Store an entry. */
    method Store(table: nat, i: nat, e: Entry)
      requires table in mem && i < |mem[table]|
      modifies `mem
      ensures mem == WithEntry(old(mem), table, i, e)
    {
      mem := mem[table := mem[table][i := e]];
    }

    /** Create the table that entry "i" of "table" is to point to. */
    method Grow(ghost root: nat, table: nat, i: nat) returns (page: Option<nat>)
      requires Consistent(Now(), root) && table in place && Depth(place[table]) < 3 && i < 512
      requires |mem[table]| == 512 && !mem[table][i].present
      modifies this
      ensures page.None? <==> old(free) == {}
      ensures page.None? ==> Now() == old(Now())
      ensures page.Some? ==> page.value in old(free) && Now() == Grown(old(Now()), table, i, page.value)
    {
      page := AllocPage();
      if page.Some? {
        Store(table, i, TableEntry(page.value));
        place := place[page.value := Sub(place[table], i)];
      }
    }

    /** pml4_create: a copy of the base table. */
    method Create(base: nat) returns (pml4: Option<nat>)
      requires base in mem && base !in free
      modifies `mem, `free
      ensures pml4.None? <==> old(free) == {}
      ensures pml4.None? ==> mem == old(mem) && free == old(free)
      ensures pml4.Some? ==>
        pml4.value in old(free) && free == old(free) - {pml4.value} && mem == old(mem)[pml4.value := old(mem)[base]]
    {
      pml4 := AllocPage();
      if pml4.Some? {
        mem := mem[pml4.value := mem[base]];
      }
    }

    /** pgdir_walk */
    method PgdirWalk(ghost root: nat, pdp: nat, va: nat, create: bool) returns (pte: Option<(nat, nat)>)
      requires Consistent(Now(), root) && pdp in place && place[pdp] == KeyOf(va).up.up
      modifies this
      ensures Walked(old(Now()), Now(), root, va, create, pte)
    {
      var idx := Pdx(va);
      ghost var v := Now();
      assert TableOk(mem, root, place, pdp);
      if !mem[pdp][idx].present {
        if create {
          var page := Grow(root, pdp, idx);
          if page.None? {
            return None;
          }
          GrownIsConsistent(v, root, pdp, idx, page.value);
        } else {
          return None;
        }
      }
      PresentChild(Now(), root, pdp, idx);
      assert TableOk(mem, root, place, mem[pdp][idx].page);
      pte := Some((mem[pdp][idx].page, Ptx(va)));
    }

    /** Undo the creation of a table: free it and zero the entry that points to it. */
    method Shrink(ghost v: View, table: nat, i: nat)
      requires table in v.mem && table in v.place && i < |v.mem[table]| && v.mem[table][i] == Zero()
      requires table in mem && i < |mem[table]|
      requires mem[table][i].page !in v.mem && mem[table][i].page in v.free && v.place.Keys <= v.mem.Keys
      requires mem[table][i].page != table && Now() == Grown(v, table, i, mem[table][i].page)
      modifies this
      ensures Now() == v
    {
      ghost var q := mem[table][i].page;
      FreePage(mem[table][i].page);
      Store(table, i, Zero());
      place := place - {q};
      assert mem[table] == v.mem[table];
      assert mem == v.mem && free == v.free && place == v.place;
    }

    /** pdpe_walk */
    method PdpeWalk(ghost root: nat, pdpe: nat, va: nat, create: bool) returns (pte: Option<(nat, nat)>)
      requires Consistent(Now(), root) && pdpe in place && place[pdpe] == KeyOf(va).up.up.up
      modifies this
      ensures Walked(old(Now()), Now(), root, va, create, pte)
    {
      var idx := Pdpe(va);
      var isNew := false;
      ghost var v := Now();
      ghost var q := 0;
      assert TableOk(mem, root, place, pdpe) && EntryOk(mem, place, pdpe, idx);
      if !mem[pdpe][idx].present {
        BeyondNowhere(mem, root, KeyOf(va).up.up, KeyOf(va).up);
        if create {
          var page := Grow(root, pdpe, idx);
          if page.None? {
            return None;
          }
          isNew := true;
          q := page.value;
          GrownIsConsistent(v, root, pdpe, idx, page.value);
          GrownMissesOneLess(v, root, pdpe, idx, page.value, KeyOf(va).up);
        } else {
          return None;
        }
      } else {
        PresentChild(v, root, pdpe, idx);
      }
      pte := PgdirWalk(root, mem[pdpe][idx].page, va, create);
      if pte.None? && isNew {
        Shrink(v, pdpe, idx);
      } else if isNew {
        WalkedThroughGrown(v, pdpe, q, Now(), root, va, idx, pte);
      }
    }

    /** pml4e_walk */
    method Pml4eWalk(ghost root: nat, pml4: nat, va: nat, create: bool) returns (pte: Option<(nat, nat)>)
      requires Consistent(Now(), root) && pml4 == root
      modifies this
      ensures Walked(old(Now()), Now(), root, va, create, pte)
    {
      var idx := Pml4(va);
      var isNew := false;
      ghost var v := Now();
      ghost var q := 0;
      assert TableOk(mem, root, place, pml4) && EntryOk(mem, place, pml4, idx);
      if !mem[pml4][idx].present {
        BeyondNowhere(mem, root, KeyOf(va).up.up.up, KeyOf(va).up);
        if create {
          var page := Grow(root, pml4, idx);
          if page.None? {
            return None;
          }
          isNew := true;
          q := page.value;
          GrownIsConsistent(v, root, pml4, idx, page.value);
          GrownMissesOneLess(v, root, pml4, idx, page.value, KeyOf(va).up);
        } else {
          return None;
        }
      } else {
        PresentChild(v, root, pml4, idx);
      }
      pte := PdpeWalk(root, mem[pml4][idx].page, va, create);
      if pte.None? && isNew {
        Shrink(v, pml4, idx);
      } else if isNew {
        WalkedThroughGrown(v, pml4, q, Now(), root, va, idx, pte);
      }
    }

    /** pml4_get_page */
    method GetPage(pml4: nat, uaddr: nat) returns (kaddr: Option<nat>)
      requires Consistent(Now(), pml4) && uaddr < 0x8004000000
      modifies this
      ensures Now() == old(Now())
      ensures
        var leaf := LeafAt(mem, pml4, KeyOf(uaddr));
        kaddr == if leaf.Some? then Some(leaf.value.page + uaddr % 4096) else None
    {
      ghost var v := Now();
      var pte := Pml4eWalk(pml4, pml4, uaddr, false);
      MissingOrThere(v, pml4, uaddr);
      if pte.Some? {
        assert TableOk(mem, pml4, place, pte.value.0);
        var e := mem[pte.value.0][pte.value.1];
        if e.present {
          return Some(e.page + uaddr % 4096);
        }
      }
      kaddr := None;
    }

    /** pml4_set_page: succeeds exactly when the missing tables can be had, and then changes exactly
        one key of the map; a failure changes nothing at all. */
    method SetPage(pml4: nat, upage: nat, kpage: nat, rw: bool) returns (ok: bool)
      requires Consistent(Now(), pml4) && upage % 4096 == 0 && upage < 0x8004000000 && IsPage(kpage)
      modifies this
      ensures ok <==> Missing(old(mem), pml4, KeyOf(upage).up) <= |old(free)|
      ensures !ok ==> Now() == old(Now())
      ensures ok ==>
        && Consistent(Now(), pml4) && OnlyOnPath(old(Now()), mem, KeyOf(upage).up)
        && free <= old(free) && |free| == |old(free)| - Missing(old(mem), pml4, KeyOf(upage).up)
        && forall key :: Depth(key) == 4 ==>
             LeafAt(mem, pml4, key) ==
               if key == KeyOf(upage) then Some(LeafEntry(kpage, rw)) else LeafAt(old(mem), pml4, key)
      ensures ok ==>
        var leaf := LeafAt(mem, pml4, KeyOf(upage));
        && leaf.Some? && HasWord(leaf.value, Vtop(kpage) + 1 + (if rw then 2 else 0) + 4)
        && Permits(mem, pml4, KeyOf(upage), false) && (Permits(mem, pml4, KeyOf(upage), true) <==> rw)
    {
      ghost var (v, path) := (Now(), KeyOf(upage).up);
      var pte := Pml4eWalk(pml4, pml4, upage, true);
      if pte.Some? {
        ghost var v1 := Now();
        assert TableOk(mem, pml4, place, pte.value.0);
        Store(pte.value.0, pte.value.1, LeafEntry(kpage, rw));
        PathOfPlace(path, v1.place[pte.value.0]);
        LeafWritten(v, v1, pml4, pte.value.0, pte.value.1, LeafEntry(kpage, rw), KeyOf(upage));
        StoredWords(kpage, rw);
        LeafDecidesAccess(mem, pml4, place, KeyOf(upage), false);
        LeafDecidesAccess(mem, pml4, place, KeyOf(upage), true);
      }
      ok := pte.Some?;
    }

    /** pml4_clear_page: the other bits of the entry stay. */
    method ClearPage(pml4: nat, upage: nat)
      requires Consistent(Now(), pml4) && upage % 4096 == 0 && upage < 0x8004000000
      modifies this
      ensures Consistent(Now(), pml4) && free == old(free) && place == old(place)
      ensures forall key :: Depth(key) == 4 ==>
                LeafAt(mem, pml4, key) == if key == KeyOf(upage) then None else LeafAt(old(mem), pml4, key)
      ensures forall p, i :: p in old(mem) && 0 <= i < |old(mem)[p]| ==>
                p in mem && |mem[p]| == |old(mem)[p]|
                && mem[p][i].(present := false) == old(mem)[p][i].(present := false)
    {
      ghost var v := Now();
      var pte := Pml4eWalk(pml4, pml4, upage, false);
      MissingOrThere(v, pml4, upage);
      if pte.Some? {
        var (table, i) := pte.value;
        assert TableOk(mem, pml4, place, table);
        if mem[table][i].present {
          ghost var e := mem[table][i].(present := false);
          Store(table, i, mem[table][i].(present := false));
          LeafWriteKeepsTree(v.mem, pml4, place, table, i, e);
          forall key | Depth(key) == 4 ensures LeafAt(mem, pml4, key) ==
              if key == KeyOf(upage) then None else LeafAt(v.mem, pml4, key)
          {
            LeafWriteChangesOneKey(v.mem, pml4, place, table, i, e, key);
          }
        }
      }
    }

    /** pt_for_each */
    method PtForEach(ghost root: nat, ghost level: nat, table: nat, func: (Entry, nat) -> bool, i4: nat, i3: nat,
        i2: nat)
      returns (all: bool, ghost visited: seq<Visit>)
      requires level == 1 && Consistent(Now(), root) && table in place
        && place[table] == Sub(Sub(Sub(Root, i4), i3), i2)
      ensures visited == UpTo(func, Leaves(mem, level, table, place[table]))
        && all == All(func, Leaves(mem, level, table, place[table]))
    {
      ghost var parts := Parts(mem, level, table, place[table]);
      assert TableOk(mem, root, place, table);
      visited := [];
      var i := 0;
      while i < 512
        invariant 0 <= i <= 512 && visited == Flatten(parts[..i]) && All(func, visited)
      {
        var e := mem[table][i];
        NextPart(func, parts, i);
        PartAt(mem, level, table, place[table], i);
        if e.present {
          var va := Address(i4, i3, i2, i);
          visited := visited + [Visit(Sub(place[table], i), e)];
          if !func(e, va) {
            return false, visited;
          }
        }
        i := i + 1;
      }
      assert parts[..i] == parts;
      UpToConcat(func, visited, []);
      assert visited + [] == visited;
      all := true;
    }

    /** pgdir_for_each */
    method PgdirForEach(ghost root: nat, ghost level: nat, table: nat, func: (Entry, nat) -> bool, i4: nat, i3: nat)
      returns (all: bool, ghost visited: seq<Visit>)
      requires level == 2 && Consistent(Now(), root) && table in place && place[table] == Sub(Sub(Root, i4), i3)
      ensures visited == UpTo(func, Leaves(mem, level, table, place[table]))
        && all == All(func, Leaves(mem, level, table, place[table]))
    {
      ghost var parts := Parts(mem, level, table, place[table]);
      assert TableOk(mem, root, place, table);
      visited := [];
      var i := 0;
      while i < 512
        invariant 0 <= i <= 512 && visited == Flatten(parts[..i]) && All(func, visited)
      {
        var e := mem[table][i];
        NextPart(func, parts, i);
        PartAt(mem, level, table, place[table], i);
        if e.present {
          PresentChild(Now(), root, table, i);
          var more, below := PtForEach(root, level - 1, e.page, func, i4, i3, i);
          visited := visited + below;
          if !more {
            return false, visited;
          }
        }
        i := i + 1;
      }
      assert parts[..i] == parts;
      UpToConcat(func, visited, []);
      assert visited + [] == visited;
      all := true;
    }

    /** pdp_for_each */
    method PdpForEach(ghost root: nat, ghost level: nat, table: nat, func: (Entry, nat) -> bool, i4: nat)
      returns (all: bool, ghost visited: seq<Visit>)
      requires level == 3 && Consistent(Now(), root) && table in place && place[table] == Sub(Root, i4)
      ensures visited == UpTo(func, Leaves(mem, level, table, place[table]))
        && all == All(func, Leaves(mem, level, table, place[table]))
    {
      ghost var parts := Parts(mem, level, table, place[table]);
      assert TableOk(mem, root, place, table);
      visited := [];
      var i := 0;
      while i < 512
        invariant 0 <= i <= 512 && visited == Flatten(parts[..i]) && All(func, visited)
      {
        var e := mem[table][i];
        NextPart(func, parts, i);
        PartAt(mem, level, table, place[table], i);
        if e.present {
          PresentChild(Now(), root, table, i);
          var more, below := PgdirForEach(root, level - 1, e.page, func, i4, i);
          visited := visited + below;
          if !more {
            return false, visited;
          }
        }
        i := i + 1;
      }
      assert parts[..i] == parts;
      UpToConcat(func, visited, []);
      assert visited + [] == visited;
      all := true;
    }

    /** pml4_for_each: visits the present leaves, each with its address, up to the first that the callback
        refuses. */
    method Pml4ForEach(ghost root: nat, ghost level: nat, table: nat, func: (Entry, nat) -> bool)
      returns (all: bool, ghost visited: seq<Visit>)
      requires level == 4 && Consistent(Now(), root) && table in place && place[table] == Root
      ensures visited == UpTo(func, Leaves(mem, level, table, place[table]))
        && all == All(func, Leaves(mem, level, table, place[table]))
    {
      ghost var parts := Parts(mem, level, table, place[table]);
      assert TableOk(mem, root, place, table);
      visited := [];
      var i := 0;
      while i < 512
        invariant 0 <= i <= 512 && visited == Flatten(parts[..i]) && All(func, visited)
      {
        var e := mem[table][i];
        NextPart(func, parts, i);
        PartAt(mem, level, table, place[table], i);
        if e.present {
          PresentChild(Now(), root, table, i);
          var more, below := PdpForEach(root, level - 1, e.page, func, i);
          visited := visited + below;
          if !more {
            return false, visited;
          }
        }
        i := i + 1;
      }
      assert parts[..i] == parts;
      UpToConcat(func, visited, []);
      assert visited + [] == visited;
      all := true;
    }

    /** pt_destroy: gives back every frame the table maps, and the table. */
    method PtDestroy(ghost level: nat, table: nat)
      requires level == 1 && Destroyable(mem, free, level, table)
      modifies `mem, `free
      ensures mem == old(mem) - SetOf(old(Frees(mem, level, table)))
        && free == old(free) + SetOf(old(Frees(mem, level, table)))
    {
      ghost var (m, f) := (mem, free);
      AllEntries(m, f, level, table);
      var i := 0;
      while i < 512
        invariant 0 <= i <= 512 && table in mem && mem[table] == m[table]
        invariant mem == m - Gone(m, level, m[table], i) && free == f + Gone(m, level, m[table], i)
      {
        NextEntry(m, f, level, table, i, mem, free);
        if mem[table][i].present {
          FreePage(mem[table][i].page);
        }
        i := i + 1;
      }
      FreePage(table);
    }

    /** pgdir_destroy */
    method PgdirDestroy(ghost level: nat, table: nat)
      requires level == 2 && Destroyable(mem, free, level, table)
      modifies `mem, `free
      ensures mem == old(mem) - SetOf(old(Frees(mem, level, table)))
        && free == old(free) + SetOf(old(Frees(mem, level, table)))
    {
      ghost var (m, f) := (mem, free);
      AllEntries(m, f, level, table);
      var i := 0;
      while i < 512
        invariant 0 <= i <= 512 && table in mem && mem[table] == m[table]
        invariant mem == m - Gone(m, level, m[table], i) && free == f + Gone(m, level, m[table], i)
      {
        NextEntry(m, f, level, table, i, mem, free);
        if mem[table][i].present {
          PtDestroy(level - 1, mem[table][i].page);
        }
        i := i + 1;
      }
      FreePage(table);
    }

    /** pdpe_destroy */
    method PdpeDestroy(ghost level: nat, table: nat)
      requires level == 3 && Destroyable(mem, free, level, table)
      modifies `mem, `free
      ensures mem == old(mem) - SetOf(old(Frees(mem, level, table)))
        && free == old(free) + SetOf(old(Frees(mem, level, table)))
    {
      ghost var (m, f) := (mem, free);
      AllEntries(m, f, level, table);
      var i := 0;
      while i < 512
        invariant 0 <= i <= 512 && table in mem && mem[table] == m[table]
        invariant mem == m - Gone(m, level, m[table], i) && free == f + Gone(m, level, m[table], i)
      {
        NextEntry(m, f, level, table, i, mem, free);
        if mem[table][i].present {
          PgdirDestroy(level - 1, mem[table][i].page);
        }
        i := i + 1;
      }
      FreePage(table);
    }

    /** pml4_destroy: gives back the user half, everything below root index 0, and the root; the kernel's
        tables stay.  "level" is that of the tables below the root. */
    method Pml4Destroy(ghost level: nat, pml4: Option<nat>)
      requires level == 3
      requires pml4.Some? ==> Consistent(Now(), pml4.value) && FramesApart(Now(), pml4.value, Sub(Root, 0))
      modifies `mem, `free
      ensures pml4.None? ==> mem == old(mem) && free == old(free)
      ensures pml4.Some? ==>
        var gone := UserPages(old(mem), level, pml4.value);
        mem == old(mem) - gone && free == old(free) + gone && gone !! old(free)
      ensures pml4.Some? ==> forall x :: x in UserPages(old(mem), level, pml4.value) <==>
                x == pml4.value || Under(old(Now()), pml4.value, Sub(Root, 0), x)
    {
      if pml4.None? {
        return;
      }
      ghost var v := Now();
      var root := pml4.value;
      assert TableOk(mem, root, place, root);
      forall x ensures x in UserPages(v.mem, level, root) <==> x == root || Under(v, root, Sub(Root, 0), x) {
        UserPagesExactly(v, level, root, x);
      }
      var pdpe := mem[root][0];
      if pdpe.present {
        UserHalfIsApart(v, level, root);
        MinusBoth(v.mem, SetOf(Frees(v.mem, level, pdpe.page)), {root});
        PdpeDestroy(level, pdpe.page);
      }
      FreePage(root);
    }
  }

  /** What the user half needs to be destroyed. */
  lemma UserHalfIsApart(v: View, n: nat, root: nat)
    requires Consistent(v, root) && FramesApart(v, root, Sub(Root, 0)) && n == 3 && |v.mem[root]| == 512
      && v.mem[root][0].present
    ensures
      var page := v.mem[root][0].page;
      Destroyable(v.mem, v.free, n, page) && root !in Frees(v.mem, n, page)
  {
    var page := v.mem[root][0].page;
    BelowEntry(v, root, root, 0, n + 1);
    TreeIsBuilt(v.mem, root, v.place, n, page);
    EachPageOnce(v, root, n, page);
    FreesAreUsed(v, root, n, page);
    FreesExactly(v, root, n, page, root);
    if IsPrefix(Sub(Root, 0), Root) { PrefixIsShorter(Sub(Root, 0), Root); }
  }
}
