/** The file system of filesys/filesys.c, directory.c, free-map.c, file.c and the bookkeeping half of inode.c
    as one state machine: files are created, opened, written, removed and closed.

    Data sectors are bytes, as in InodeData.  What header a sector holds is given by "headers" (a header that is
    no longer live stays until the sector is used again), and the 16 slots of the root directory by "dir".
    How much memory can be had is a choice of each step: also how many directory entries are read before a
    one-sector buffer is missing, and how many bytes of a write get through. */
module FileSystem {
  import opened Bitmaps
  import opened InodeData
  import opened Sequences

  /** A root directory slot. */
  datatype Entry = Entry(inUse: bool, name: string, sector: nat)

  /** struct inode, in memory while some file has it open. */
  datatype Inode = Inode(openCnt: nat, removed: bool, denyCnt: nat)

  /** struct file. */
  datatype File = File(inode: nat, pos: nat, deny: bool)

  /** "bits" is the free map, true for used sectors; "leaked" is history: sectors marked but lost. */
  datatype State = State(
    bits: seq<bool>,
    disk: seq<Bytes>,
    headers: map<nat, Extent>,
    dir: seq<Entry>,
    inodes: map<nat, Inode>,
    files: map<nat, File>,
    leaked: set<nat>)

  ghost function Range(start: nat, n: nat): (r: set<nat>)
    ensures forall x: int :: x in r <==> start <= x < start + n
  {
    if n == 0 then {} else Range(start, n - 1) + {start + n - 1}
  }

  // ---------- the directory ----------

  /** The entries that are read before inode_read_at comes up short. */
  ghost function Seen(dir: seq<Entry>, upTo: nat): seq<Entry> {
    if upTo < |dir| then dir[..upTo] else dir
  }

  /** lookup: the slot of an in-use entry with the name, among those read. */
  ghost function Lookup(dir: seq<Entry>, name: string, upTo: nat): (r: Option<nat>)
    ensures r.Some? ==> r.value < |dir| && r.value < upTo && dir[r.value].inUse && dir[r.value].name == name
    ensures r.None? ==> forall i :: 0 <= i < |dir| && i < upTo && dir[i].inUse ==> dir[i].name != name
  {
    LookupFrom(Seen(dir, upTo), name, 0)
  }

  ghost function LookupFrom(dir: seq<Entry>, name: string, i: nat): (r: Option<nat>)
    ensures r.Some? ==> i <= r.value < |dir| && dir[r.value].inUse && dir[r.value].name == name
    ensures r.None? ==> forall k :: i <= k < |dir| && dir[k].inUse ==> dir[k].name != name
    decreases |dir| - i
  {
    if i >= |dir| then None else if dir[i].inUse && dir[i].name == name then Some(i) else LookupFrom(dir, name, i + 1)
  }

  ghost function FreeSlot(dir: seq<Entry>, i: nat): (r: Option<nat>)
    ensures r.Some? ==> i <= r.value < |dir| && !dir[r.value].inUse && forall k :: i <= k < r.value ==> dir[k].inUse
    ensures r.None? ==> forall k :: i <= k < |dir| ==> dir[k].inUse
    decreases |dir| - i
  {
    if i >= |dir| then None else if !dir[i].inUse then Some(i) else FreeSlot(dir, i + 1)
  }

  /** NAME_MAX is 14. */
  ghost predicate ValidName(name: string) {
    0 < |name| <= 14
  }

  /** What memory can be had: the directory, the header buffer, the free map's file, twice, the entries read by
      lookup and by the search for a slot, and the buffer for writing the entry. */
  datatype Choice = Choice(dirOpens: bool, headerBuffer: bool, mapWrites1: bool, mapWrites2: bool,
                           lookupReads: nat, slotReads: nat, entryWrites: bool)

  /** The slot that dir_add writes: the first one that is free, or the first one that it could not read. */
  ghost function AddSlot(dir: seq<Entry>, name: string, c: Choice): (r: Option<nat>)
    ensures r.Some? ==> r.value < |dir|
  {
    if !ValidName(name) || Lookup(dir, name, c.lookupReads).Some? || !c.entryWrites then None
    else
      var free := FreeSlot(Seen(dir, c.slotReads), 0);
      if free.Some? then free else if c.slotReads < |dir| then Some(c.slotReads) else None
  }

  /** The directory after dir_add. */
  ghost function Added(dir: seq<Entry>, name: string, h: nat, c: Choice): seq<Entry> {
    var slot := AddSlot(dir, name, c);
    if slot.None? then dir else dir[slot.value := Entry(true, name, h)]
  }

  ghost predicate NamesUnique(dir: seq<Entry>) {
    forall i, j :: 0 <= i < j < |dir| && dir[i].inUse && dir[j].inUse ==> dir[i].name != dir[j].name
  }

  ghost predicate EntriesKept(dir: seq<Entry>, after: seq<Entry>) {
    |after| == |dir| && forall i :: 0 <= i < |dir| && dir[i].inUse ==> after[i] == dir[i]
  }

  /** The search for a slot reads all entries before the first free one, or all there are. */
  ghost predicate SlotSeen(dir: seq<Entry>, upTo: nat) {
    match FreeSlot(dir, 0)
    case Some(i) => i <= upTo
    case None => |dir| <= upTo
  }

  /** dir_add reads far enough: lookup as far as the entry with the name, if there is one, and otherwise the search
      for a slot as far as it must.  (In a full directory that alone is enough.) */
  ghost predicate ReadsFar(dir: seq<Entry>, name: string, c: Choice) {
    var there := Lookup(dir, name, |dir|);
    || (there.Some? && there.value < c.lookupReads)
    || ((there.None? || FreeSlot(dir, 0).None?) && SlotSeen(dir, c.slotReads))
  }

  lemma FreeSlotSeen(dir: seq<Entry>, upTo: nat)
    ensures FreeSlot(Seen(dir, upTo), 0) ==
      if FreeSlot(dir, 0).Some? && FreeSlot(dir, 0).value < upTo then FreeSlot(dir, 0) else None
  {
    var (all, found) := (FreeSlot(dir, 0), FreeSlot(Seen(dir, upTo), 0));
    if all.Some? && all.value < upTo { assert !Seen(dir, upTo)[all.value].inUse; }
    if found.Some? { assert !dir[found.value].inUse; }
  }

  /** With names unique, what lookup finds depends only on how far it reads. */
  lemma LookupSeen(dir: seq<Entry>, name: string, upTo: nat)
    requires NamesUnique(dir)
    ensures
      var there := Lookup(dir, name, |dir|);
      Lookup(dir, name, upTo) == if there.Some? && there.value < upTo then there else None
  {
  }

  /** After dir_add the names are unique and no entry in use is lost exactly when it read far enough.  Otherwise a
      name comes to be there twice, or an entry in use is overwritten. */
  lemma AddIsSoundExactly(dir: seq<Entry>, name: string, h: nat, c: Choice)
    requires NamesUnique(dir) && ValidName(name) && c.entryWrites
      && forall i :: 0 <= i < |dir| && dir[i].inUse ==> dir[i].sector != h
    ensures NamesUnique(Added(dir, name, h, c)) && EntriesKept(dir, Added(dir, name, h, c)) <==> ReadsFar(dir, name, c)
  {
    FreeSlotSeen(dir, c.slotReads);
    LookupSeen(dir, name, c.lookupReads);
    var (after, there, slot) := (Added(dir, name, h, c), Lookup(dir, name, |dir|), AddSlot(dir, name, c));
    if slot.Some? {
      assert after[slot.value] == Entry(true, name, h);
      if there.Some? && there.value != slot.value { assert after[there.value] == dir[there.value]; }
    }
  }

  /** Two failures that the source does not notice: after "a", the same name a second time; and "b" over "a". */
  lemma ShortReads()
    ensures
      var dir := [Entry(true, "a", 5), Entry(false, "", 0)];
      var (again, over) := (Choice(true, true, true, true, 0, 2, true), Choice(true, true, true, true, 2, 0, true));
      && Added(dir, "a", 6, again) == [Entry(true, "a", 5), Entry(true, "a", 6)]
      && Added(dir, "b", 6, over) == [Entry(true, "b", 6), Entry(false, "", 0)]
  {
    var dir := [Entry(true, "a", 5), Entry(false, "", 0)];
    var (again, over) := (Choice(true, true, true, true, 0, 2, true), Choice(true, true, true, true, 2, 0, true));
    FreeSlotSeen(dir, 2);
    FreeSlotSeen(dir, 0);
    assert FreeSlot(dir, 0) == Some(1);
    assert Lookup(dir, "a", 0) == None && Lookup(dir, "b", 2) == None;
  }

  /** A slot that is written after reading far enough is free, and the name is new. */
  lemma AddSlotIsFree(dir: seq<Entry>, name: string, c: Choice)
    requires NamesUnique(dir) && ReadsFar(dir, name, c) && AddSlot(dir, name, c).Some?
    ensures !dir[AddSlot(dir, name, c).value].inUse
      && forall i :: 0 <= i < |dir| && dir[i].inUse ==> dir[i].name != name
  {
    FreeSlotSeen(dir, c.slotReads);
    LookupSeen(dir, name, c.lookupReads);
  }

  // ---------- operations ----------

  ghost function ZeroSector(): Bytes {
    seq(512, _ => 0)
  }

  ghost function Zeroed(disk: seq<Bytes>, start: nat, cnt: nat): (r: seq<Bytes>)
    ensures |r| == |disk|
    ensures forall i :: 0 <= i < |disk| ==> r[i] == if start <= i < start + cnt then ZeroSector() else disk[i]
  {
    seq(|disk|, i requires 0 <= i < |disk| => if start <= i < start + cnt then ZeroSector() else disk[i])
  }

  /** filesys_create.  Of a file whose entry cannot be added only the header sector is given back. */
  ghost function Create(s: State, name: string, size: nat, c: Choice): (State, bool) {
    var header := FirstFit(s.bits, 1);
    if !c.dirOpens || header.None? || !c.mapWrites1 then (s, false)
    else
      var (h, n) := (header.value, Sectors(size));
      var bits1 := SetRange(s.bits, h, 1, true);
      var start := FirstFit(bits1, n);
      if !c.headerBuffer || start.None? || !c.mapWrites2 then (s, false)
      else
        var s1 := s.(bits := SetRange(bits1, start.value, n, true), disk := Zeroed(s.disk, start.value, n),
                     headers := s.headers[h := Extent(start.value, size)]);
        if AddSlot(s.dir, name, c).Some? then (s1.(dir := Added(s.dir, name, h, c)), true)
        else (s1.(bits := SetRange(s1.bits, h, 1, false), leaked := s.leaked + Range(start.value, n)), false)
  }

  /** inode_open for a sector found in the directory. */
  ghost function OpenInode(s: State, h: nat): State {
    if h in s.inodes then s.(inodes := s.inodes[h := s.inodes[h].(openCnt := s.inodes[h].openCnt + 1)])
    else s.(inodes := s.inodes[h := Inode(1, false, 0)])
  }

  /** inode_close: the last close of a removed inode gives back its header and its data. */
  ghost function CloseInode(s: State, h: nat): State
    requires h in s.inodes && h in s.headers
  {
    var node := s.inodes[h];
    if node.openCnt > 1 then s.(inodes := s.inodes[h := node.(openCnt := node.openCnt - 1)])
    else if node.removed then Release(s.(inodes := s.inodes - {h}), h)
    else s.(inodes := s.inodes - {h})
  }

  ghost function Release(s: State, h: nat): State
    requires h in s.headers
  {
    var e := s.headers[h];
    s.(bits := SetRange(SetRange(s.bits, h, 1, false), e.start, Sectors(e.length), false))
  }

  /** filesys_open, as file number "fd"; "memory" says whether the structures can be had. */
  ghost function Open(s: State, name: string, fd: nat, upTo: nat, memory: bool): State {
    var slot := Lookup(s.dir, name, upTo);
    if slot.None? || !memory then s
    else OpenInode(s, s.dir[slot.value].sector).(files := s.files[fd := File(s.dir[slot.value].sector, 0, false)])
  }

  /** file_reopen, or file_duplicate where "copy" says so. */
  ghost function Reopen(s: State, fd: nat, newFd: nat, copy: bool, memory: bool): State
    requires fd in s.files && s.files[fd].inode in s.inodes
  {
    if !memory then s
    else
      var (f, h) := (s.files[fd], s.files[fd].inode);
      var s1 := OpenInode(s, h);
      if !copy then s1.(files := s.files[newFd := File(h, 0, false)])
      else if !f.deny then s1.(files := s.files[newFd := f])
      else s1.(files := s.files[newFd := f],
        inodes := s1.inodes[h := s1.inodes[h].(denyCnt := s1.inodes[h].denyCnt + 1)])
  }

  /** file_deny_write */
  ghost function DenyWrite(s: State, fd: nat): State
    requires fd in s.files && s.files[fd].inode in s.inodes
  {
    var (f, h) := (s.files[fd], s.files[fd].inode);
    if f.deny then s
    else s.(files := s.files[fd := f.(deny := true)],
      inodes := s.inodes[h := s.inodes[h].(denyCnt := s.inodes[h].denyCnt + 1)])
  }

  /** file_allow_write */
  ghost function AllowWrite(s: State, fd: nat): State
    requires fd in s.files && s.files[fd].inode in s.inodes
  {
    var (f, h) := (s.files[fd], s.files[fd].inode);
    if !f.deny then s
    else
      var d := s.inodes[h].denyCnt;
      s.(files := s.files[fd := f.(deny := false)],
        inodes := s.inodes[h := s.inodes[h].(denyCnt := if d > 0 then d - 1 else 0)])
  }

  /** file_close */
  ghost function Close(s: State, fd: nat): State
    requires fd in s.files && s.files[fd].inode in s.inodes && s.files[fd].inode in s.headers
  {
    var s1 := AllowWrite(s, fd);
    CloseInode(s1.(files := s1.files - {fd}), s.files[fd].inode)
  }

  /** filesys_remove: the entry goes at once, the inode with its last close.  Memory is needed for the inode and for
      writing the entry. */
  ghost function Remove(s: State, name: string, upTo: nat, memory: bool): (State, bool) {
    var slot := Lookup(s.dir, name, upTo);
    if slot.None? || !memory then (s, false)
    else
      var (i, h) := (slot.value, s.dir[slot.value].sector);
      var s1 := OpenInode(s, h);
      var s2 := s1.(dir := s.dir[i := s.dir[i].(inUse := false)],
        inodes := s1.inodes[h := s1.inodes[h].(removed := true)]);
      if h in s2.headers then (CloseInode(s2, h), true) else (s2, true)
  }

  /** The disk after inode_write_at has written the first "n" bytes of "data" at "offset" of the extent. */
  ghost function WriteDisk(disk: seq<Bytes>, e: Extent, data: Bytes, n: nat, offset: nat): (r: seq<Bytes>)
    requires WholeSectors(disk) && n <= |data|
    ensures |r| == |disk| && WholeSectors(r)
    ensures forall k :: 0 <= k < |disk| && !(e.start <= k < e.start + Sectors(e.length)) ==> r[k] == disk[k]
  {
    seq(|disk|, k requires 0 <= k < |disk| =>
      if e.start <= k < e.start + Sectors(e.length) then
        seq(512, j requires 0 <= j < 512 =>
          if offset <= (k - e.start) * 512 + j < offset + n then data[(k - e.start) * 512 + j - offset] else disk[k][j])
      else disk[k])
  }

  /** How much file_write transfers at most: nothing while some opener denies writes. */
  ghost function Limit(s: State, fd: nat, data: Bytes): nat
    requires IsOpen(s, fd)
  {
    var f := s.files[fd];
    if s.inodes[f.inode].denyCnt > 0 then 0 else Transfer(s.headers[f.inode], |data|, f.pos)
  }

  /** file_write, of which "n" bytes get through. */
  ghost function Write(s: State, fd: nat, data: Bytes, n: nat): State
    requires IsOpen(s, fd) && WholeSectors(s.disk) && n <= |data|
  {
    var f := s.files[fd];
    s.(disk := WriteDisk(s.disk, s.headers[f.inode], data, n, f.pos), files := s.files[fd := f.(pos := f.pos + n)])
  }

  // ---------- steps ----------

  /** Calls of the file system; file numbers stand for struct file pointers.  Reading moves the position.  dir_add is
      taken to read far enough, without which the directory breaks (AddIsSoundExactly). */
  datatype Event =
    | DoCreate(name: string, size: nat, c: Choice)
    | DoOpen(name: string, fd: nat, upTo: nat, memory: bool)
    | DoReopen(fd: nat, newFd: nat, copy: bool, memory: bool)
    | DoClose(fd: nat)
    | DoRemove(name: string, upTo: nat, memory: bool)
    | DoDeny(fd: nat)
    | DoAllow(fd: nat)
    | DoWrite(fd: nat, data: Bytes, n: nat)
    | DoSeek(fd: nat, pos: nat)

  ghost predicate IsOpen(s: State, fd: nat) {
    fd in s.files && s.files[fd].inode in s.inodes && s.files[fd].inode in s.headers
  }

  ghost predicate Enabled(s: State, e: Event) {
    WholeSectors(s.disk) &&
    match e
    case DoCreate(name, _, c) => ReadsFar(s.dir, name, c)
    case DoOpen(_, fd, _, _) => fd !in s.files
    case DoReopen(fd, newFd, _, _) => IsOpen(s, fd) && newFd !in s.files
    case DoClose(fd) => IsOpen(s, fd)
    case DoRemove(_, _, _) => true
    case DoDeny(fd) => IsOpen(s, fd)
    case DoAllow(fd) => IsOpen(s, fd)
    case DoWrite(fd, data, n) => IsOpen(s, fd) && n <= Limit(s, fd, data)
    case DoSeek(fd, _) => IsOpen(s, fd)
  }

  ghost function Apply(s: State, e: Event): State
    requires Enabled(s, e)
  {
    match e
    case DoCreate(name, size, c) => Create(s, name, size, c).0
    case DoOpen(name, fd, upTo, memory) => Open(s, name, fd, upTo, memory)
    case DoReopen(fd, newFd, copy, memory) => Reopen(s, fd, newFd, copy, memory)
    case DoClose(fd) => Close(s, fd)
    case DoRemove(name, upTo, memory) => Remove(s, name, upTo, memory).0
    case DoDeny(fd) => DenyWrite(s, fd)
    case DoAllow(fd) => AllowWrite(s, fd)
    case DoWrite(fd, data, n) => Write(s, fd, data, n)
    case DoSeek(fd, pos) => s.(files := s.files[fd := s.files[fd].(pos := pos)])
  }

  // ---------- the invariant ----------

  ghost predicate InDir(s: State, h: nat) {
    exists i :: 0 <= i < |s.dir| && s.dir[i].inUse && s.dir[i].sector == h
  }

  /** An inode that is reachable: those of the free map and the root directory, named ones, open ones. */
  ghost predicate Live(s: State, h: nat) {
    h in s.headers && (h == 0 || h == 1 || InDir(s, h) || h in s.inodes)
  }

  /** The sectors of an inode: its header and its data. */
  ghost predicate Owns(s: State, h: nat, x: nat) {
    h in s.headers && (x == h || s.headers[h].start <= x < s.headers[h].start + Sectors(s.headers[h].length))
  }

  /** The sectors of a live inode are marked, not lost, and the header is not among the data. */
  ghost predicate SectorsOk(s: State, h: nat) {
    && (forall x: nat :: Owns(s, h, x) ==> x < |s.bits| && s.bits[x] && x !in s.leaked)
    && (h in s.headers ==>
          OnDisk(s.disk, s.headers[h])
          && !(s.headers[h].start <= h < s.headers[h].start + Sectors(s.headers[h].length)))
  }

  ghost predicate Owned(s: State, x: nat) {
    exists h :: Live(s, h) && Owns(s, h, x)
  }

  /** Live inodes have disjoint sectors, all of them marked, and nothing else is marked but what has leaked. */
  ghost predicate SpaceOk(s: State) {
    && |s.disk| == |s.bits| && WholeSectors(s.disk) && 0 in s.headers && 1 in s.headers
    && (forall h, g, x: nat :: Live(s, h) && Live(s, g) && Owns(s, h, x) && Owns(s, g, x) ==> h == g)
    && (forall h :: Live(s, h) ==> SectorsOk(s, h))
    && (forall x: nat :: x < |s.bits| && s.bits[x] ==> x in s.leaked || Owned(s, x))
    && (forall x :: x in s.leaked ==> 0 <= x < |s.bits| && s.bits[x])
  }

  /** Names and sectors in the directory are unique. */
  ghost predicate DirOk(s: State) {
    && |s.dir| == 16
    && (forall i, j :: 0 <= i < j < 16 && s.dir[i].inUse && s.dir[j].inUse ==>
          s.dir[i].name != s.dir[j].name && s.dir[i].sector != s.dir[j].sector)
    && (forall i :: 0 <= i < 16 && s.dir[i].inUse ==>
      ValidName(s.dir[i].name) && s.dir[i].sector in s.headers && s.dir[i].sector >= 2)
  }

  ghost function Openers(files: map<nat, File>, h: nat): set<nat> {
    set fd | fd in files && files[fd].inode == h
  }

  ghost function Deniers(files: map<nat, File>, h: nat): set<nat> {
    set fd | fd in files && files[fd].inode == h && files[fd].deny
  }

  /** Counts agree with the open files; an inode is marked removed exactly when its name is gone. */
  ghost predicate InodeOk(s: State, h: nat)
    requires h in s.inodes
  {
    && h >= 2 && h in s.headers && s.inodes[h].openCnt >= 1
    && s.inodes[h].openCnt == |Openers(s.files, h)| && s.inodes[h].denyCnt == |Deniers(s.files, h)|
    && (s.inodes[h].removed <==> !InDir(s, h))
  }

  ghost predicate Inv(s: State) {
    && SpaceOk(s) && DirOk(s)
    && (forall h :: h in s.inodes ==> InodeOk(s, h))
    && (forall fd :: fd in s.files ==> s.files[fd].inode in s.inodes)
  }

  // ---------- space ----------

  lemma SpaceSame(s: State, s': State)
    requires SpaceOk(s) && s'.bits == s.bits && s'.headers == s.headers && s'.leaked == s.leaked
    requires |s'.disk| == |s.disk| && WholeSectors(s'.disk)
    requires forall g :: Live(s', g) <==> Live(s, g)
    ensures SpaceOk(s')
  {
    forall h, x: nat ensures Owns(s', h, x) <==> Owns(s, h, x) {}
    forall h | Live(s', h) ensures SectorsOk(s', h) { assert SectorsOk(s, h); }
    forall x: nat | x < |s'.bits| && s'.bits[x] ensures x in s'.leaked || Owned(s', x) {
      if Owned(s, x) {
        var h :| Live(s, h) && Owns(s, h, x);
        assert Live(s', h) && Owns(s', h, x);
      }
    }
  }

  /** A new inode in free sectors. */
  lemma SpaceGrows(s: State, s': State, h: nat, e: Extent)
    requires SpaceOk(s) && h < |s.bits| && !s.bits[h] && e.start + Sectors(e.length) <= |s.bits|
    requires forall x :: e.start <= x < e.start + Sectors(e.length) ==> !s.bits[x] && x != h
    requires s'.headers == s.headers[h := e] && s'.leaked == s.leaked && |s'.disk| == |s.disk| && WholeSectors(s'.disk)
    requires s'.bits == SetRange(SetRange(s.bits, h, 1, true), e.start, Sectors(e.length), true)
    requires forall g :: Live(s', g) <==> (Live(s, g) && g != h) || g == h
    ensures SpaceOk(s') && !Live(s, h)
  {
    if Live(s, h) {
      assert SectorsOk(s, h) && Owns(s, h, h);
      assert false;
    }
    forall g, x: nat | g != h ensures Owns(s', g, x) <==> Owns(s, g, x) {}
    forall g | Live(s', g) ensures SectorsOk(s', g) {
      if g != h { assert SectorsOk(s, g); } else { Unmarked(s, h, e); }
    }
    forall g, x: nat | Live(s', g) && g != h && Owns(s', g, x)
      ensures !Owns(s', h, x) { assert SectorsOk(s, g) && Owns(s, g, x); }
    forall x: nat | x < |s'.bits| && s'.bits[x] ensures x in s'.leaked || Owned(s', x) {
      if s.bits[x] && x !in s.leaked {
        var g :| Live(s, g) && Owns(s, g, x);
        assert Live(s', g) && Owns(s', g, x);
      } else if x !in s.leaked {
        assert Live(s', h) && Owns(s', h, x);
      }
    }
  }

  lemma Unmarked(s: State, h: nat, e: Extent)
    requires SpaceOk(s) && h < |s.bits| && !s.bits[h] && e.start + Sectors(e.length) <= |s.bits|
    requires forall x :: e.start <= x < e.start + Sectors(e.length) ==> !s.bits[x]
    ensures h !in s.leaked && forall x :: e.start <= x < e.start + Sectors(e.length) ==> x !in s.leaked
  {
  }

  /** Giving back the sectors of an inode that is no longer reachable. */
  lemma SpaceShrinks(s: State, s': State, h: nat)
    requires SpaceOk(s) && Live(s, h) && h >= 2
    requires s'.headers == s.headers && s'.leaked == s.leaked && s'.disk == s.disk
    requires s'.bits == SetRange(SetRange(s.bits, h, 1, false), s.headers[h].start, Sectors(s.headers[h].length), false)
    requires forall g :: Live(s', g) <==> Live(s, g) && g != h
    ensures SpaceOk(s')
  {
    assert SectorsOk(s, h);
    forall g, x: nat | g != h ensures Owns(s', g, x) <==> Owns(s, g, x) {}
    forall x: nat | x < |s.bits| ensures s'.bits[x] == (s.bits[x] && !Owns(s, h, x)) {}
    forall g | Live(s', g) ensures SectorsOk(s', g) { assert SectorsOk(s, g); }
    forall x: nat | x < |s'.bits| && s'.bits[x] ensures x in s'.leaked || Owned(s', x) {
      if x !in s.leaked {
        var g :| Live(s, g) && Owns(s, g, x);
        assert Live(s', g) && Owns(s', g, x);
      }
    }
    forall x | x in s'.leaked ensures 0 <= x < |s'.bits| && s'.bits[x] { assert Owns(s, h, x) ==> x !in s.leaked; }
  }

  /** Marking sectors that nobody gets. */
  lemma SpaceLeaks(s: State, s': State, start: nat, n: nat)
    requires SpaceOk(s) && start + n <= |s.bits| && AllAre(s.bits, start, n, false)
    requires forall g :: Live(s, g) ==> g in s'.headers && s'.headers[g] == s.headers[g]
    requires s'.leaked == s.leaked + Range(start, n) && s'.bits == SetRange(s.bits, start, n, true)
    requires |s'.disk| == |s.disk| && WholeSectors(s'.disk)
    requires forall g :: Live(s', g) <==> Live(s, g)
    ensures SpaceOk(s')
  {
    assert Live(s, 0) && Live(s, 1);
    forall g, x: nat | Live(s, g) ensures Owns(s', g, x) <==> Owns(s, g, x) {}
    forall g | Live(s', g) ensures SectorsOk(s', g) { assert SectorsOk(s, g); }
    forall x: nat | x < |s'.bits| && s'.bits[x] ensures x in s'.leaked || Owned(s', x) {
      if x !in s'.leaked {
        var g :| Live(s, g) && Owns(s, g, x);
        assert Live(s', g) && Owns(s', g, x);
      }
    }
  }

  // ---------- create ----------

  lemma SystemInodes(s: State)
    requires SpaceOk(s)
    ensures |s.bits| >= 2 && s.bits[0] && s.bits[1]
  {
    assert Live(s, 0) && Live(s, 1) && SectorsOk(s, 0) && SectorsOk(s, 1) && Owns(s, 0, 0) && Owns(s, 1, 1);
  }

  /** A free sector holds no inode. */
  lemma FreeIsNotLive(s: State, h: nat)
    requires Inv(s) && h < |s.bits| && !s.bits[h]
    ensures h >= 2 && !Live(s, h) && h !in s.inodes && !InDir(s, h)
  {
    SystemInodes(s);
    if h in s.inodes { assert InodeOk(s, h); }
    if Live(s, h) {
      assert SectorsOk(s, h) && Owns(s, h, h);
      assert false;
    }
  }

  /** What a successful create makes. */
  lemma CreatedKeepsInv(s: State, h: nat, start: nat, size: nat, name: string, slot: nat, s': State)
    requires Inv(s) && h < |s.bits| && !s.bits[h] && start + Sectors(size) <= |s.bits|
    requires forall x :: start <= x < start + Sectors(size) ==> !s.bits[x] && x != h
    requires ValidName(name) && slot < 16 && !s.dir[slot].inUse
      && forall i :: 0 <= i < 16 && s.dir[i].inUse ==> s.dir[i].name != name
    requires s' == s.(bits := SetRange(SetRange(s.bits, h, 1, true), start, Sectors(size), true),
      headers := s.headers[h := Extent(start, size)],
                      disk := s'.disk, dir := s.dir[slot := Entry(true, name, h)])
    requires |s'.disk| == |s.disk| && WholeSectors(s'.disk)
    ensures Inv(s')
  {
    FreeIsNotLive(s, h);
    forall g ensures InDir(s', g) <==> InDir(s, g) || g == h { EntryAdded(s, s', slot, name, h, g); }
    forall g ensures Live(s', g) <==> (Live(s, g) && g != h) || g == h {}
    SpaceGrows(s, s', h, Extent(start, size));
    forall g | g in s'.inodes ensures InodeOk(s', g) { assert InodeOk(s, g); }
    forall i | 0 <= i < 16 && s.dir[i].inUse ensures s.dir[i].sector != h { assert InDir(s, s.dir[i].sector); }
  }

  lemma EntryAdded(s: State, s': State, slot: nat, name: string, h: nat, g: nat)
    requires slot < |s.dir| && !s.dir[slot].inUse && s'.dir == s.dir[slot := Entry(true, name, h)]
    ensures InDir(s', g) <==> InDir(s, g) || g == h
  {
    if InDir(s, g) {
      var i :| 0 <= i < |s.dir| && s.dir[i].inUse && s.dir[i].sector == g;
      assert s'.dir[i] == s.dir[i];
    }
    if g == h { assert s'.dir[slot].sector == h; }
  }

  lemma CreateKeepsInv(s: State, name: string, size: nat, c: Choice)
    requires Inv(s) && ReadsFar(s.dir, name, c)
    ensures Inv(Create(s, name, size, c).0)
  {
    var s' := Create(s, name, size, c).0;
    var header := FirstFit(s.bits, 1);
    if header.Some? && s' != s {
      var (h, n) := (header.value, Sectors(size));
      var bits1 := SetRange(s.bits, h, 1, true);
      var start := FirstFit(bits1, n).value;
      assert AllAre(s.bits, h, 1, false) && !s.bits[h];
      forall x | start <= x < start + n ensures !s.bits[x] && x != h { assert !bits1[x]; }
      if AddSlot(s.dir, name, c).Some? {
        AddSlotIsFree(s.dir, name, c);
        CreatedKeepsInv(s, h, start, size, name, AddSlot(s.dir, name, c).value, s');
      } else {
        assert s'.bits == SetRange(s.bits, start, n, true);
        FreeIsNotLive(s, h);
        forall g ensures InDir(s', g) <==> InDir(s, g) {}
        forall g ensures Live(s', g) <==> Live(s, g) {}
        SpaceLeaks(s, s', start, n);
        forall g | g in s'.inodes ensures InodeOk(s', g) { assert InodeOk(s, g); }
      }
    }
  }

  /** Exactly when a failed create does not restore the free map: there was room for the header and the data,
      the data are not empty, and then dir_add failed.  The sectors lost are those of
      the data. */
  lemma FailedCreateLeaksExactly(s: State, name: string, size: nat, c: Choice)
    requires Inv(s) && !Create(s, name, size, c).1
    ensures
      var s' := Create(s, name, size, c).0;
      var header := FirstFit(s.bits, 1);
      var got := c.dirOpens && c.mapWrites1 && c.headerBuffer && c.mapWrites2 && header.Some?
                       && FirstFit(SetRange(s.bits, header.value, 1, true), Sectors(size)).Some?;
      && (s'.bits == s.bits <==> !(got && size > 0))
      && (got ==> AddSlot(s.dir, name, c).None?)
      && (got ==>
          s'.bits == SetRange(s.bits, FirstFit(SetRange(s.bits, header.value, 1, true), Sectors(size)).value,
            Sectors(size), true))
  {
    var header := FirstFit(s.bits, 1);
    if header.Some? {
      var (h, n) := (header.value, Sectors(size));
      var bits1 := SetRange(s.bits, h, 1, true);
      var fit := FirstFit(bits1, n);
      assert AllAre(s.bits, h, 1, false) && !s.bits[h];
      if fit.Some? {
        var start := fit.value;
        forall x | start <= x < start + n ensures !s.bits[x] && x != h { assert !bits1[x]; }
        var gone := SetRange(SetRange(bits1, start, n, true), h, 1, false);
        assert gone == SetRange(s.bits, start, n, true);
        if size > 0 { assert gone[start] && !s.bits[start]; } else { assert gone == s.bits; }
      }
    }
  }

  // ---------- open files ----------

  /** Putting one file changes the counts of its inode only. */
  lemma FilePut(files: map<nat, File>, fd: nat, f: File, h: nat)
    ensures |Openers(files[fd := f], h)| == |Openers(files - {fd}, h)| + if f.inode == h then 1 else 0
    ensures |Deniers(files[fd := f], h)| == |Deniers(files - {fd}, h)| + if f.inode == h && f.deny then 1 else 0
  {
    var (rest, all) := (files - {fd}, files[fd := f]);
    if f.inode == h {
      assert Openers(all, h) == Openers(rest, h) + {fd};
    } else {
      assert Openers(all, h) == Openers(rest, h);
    }
    if f.inode == h && f.deny {
      assert Deniers(all, h) == Deniers(rest, h) + {fd};
    } else {
      assert Deniers(all, h) == Deniers(rest, h);
    }
  }

  lemma FileAdded(files: map<nat, File>, fd: nat, f: File, h: nat)
    requires fd !in files
    ensures |Openers(files[fd := f], h)| == |Openers(files, h)| + if f.inode == h then 1 else 0
    ensures |Deniers(files[fd := f], h)| == |Deniers(files, h)| + if f.inode == h && f.deny then 1 else 0
  {
    FilePut(files, fd, f, h);
    assert files - {fd} == files;
  }

  lemma FileDropped(files: map<nat, File>, fd: nat, h: nat)
    requires fd in files
    ensures |Openers(files, h)| == |Openers(files - {fd}, h)| + if files[fd].inode == h then 1 else 0
    ensures |Deniers(files, h)| == |Deniers(files - {fd}, h)| + if files[fd].inode == h && files[fd].deny then 1 else 0
  {
    FilePut(files, fd, files[fd], h);
    assert files[fd := files[fd]] == files;
  }

  lemma FileReplaced(files: map<nat, File>, fd: nat, f: File, h: nat)
    requires fd in files && f.inode == files[fd].inode
    ensures |Openers(files[fd := f], h)| == |Openers(files, h)|
    ensures |Deniers(files[fd := f], h)| ==
            |Deniers(files, h)| + (if f.inode == h && f.deny then 1 else 0)
              - (if f.inode == h && files[fd].deny then 1 else 0)
  {
    FilePut(files, fd, f, h);
    FileDropped(files, fd, h);
  }

  /** Writes are denied at most once per opener, as inode_deny_write and inode_allow_write assert. */
  lemma DeniedAtMostOpen(s: State, h: nat)
    requires Inv(s) && h in s.inodes
    ensures s.inodes[h].denyCnt <= s.inodes[h].openCnt
    ensures forall fd :: fd in Deniers(s.files, h) ==> s.inodes[h].denyCnt > 0
    ensures forall fd :: fd in Openers(s.files, h) && fd !in Deniers(s.files, h) ==>
      s.inodes[h].denyCnt < s.inodes[h].openCnt
  {
    assert InodeOk(s, h) && Deniers(s.files, h) <= Openers(s.files, h);
    SubsetCount(Deniers(s.files, h), Openers(s.files, h));
    forall fd | fd in Openers(s.files, h) && fd !in Deniers(s.files, h)
      ensures s.inodes[h].denyCnt < s.inodes[h].openCnt {
      SubsetCount(Deniers(s.files, h), Openers(s.files, h) - {fd});
    }
  }

  lemma SubsetCount(a: set<nat>, b: set<nat>)
    requires a <= b
    ensures |a| <= |b|
  {
    assert b == a + (b - a);
  }

  /** An inode that is not in memory has no open files. */
  lemma NotInMemory(s: State, h: nat)
    requires Inv(s) && h !in s.inodes
    ensures Openers(s.files, h) == {} && Deniers(s.files, h) == {}
  {
  }

  /** Steps that change only the open files and the counts in memory. */
  ghost predicate SameSpace(s: State, s': State) {
    s'.bits == s.bits && s'.headers == s.headers && s'.dir == s.dir && s'.leaked == s.leaked
  }

  lemma FilesStep(s: State, s': State)
    requires Inv(s) && SameSpace(s, s') && |s'.disk| == |s.disk| && WholeSectors(s'.disk)
    requires forall h :: h in s.inodes && h !in s'.inodes ==> InDir(s, h)
    requires forall h :: h in s'.inodes ==> Live(s, h)
    requires forall h :: h in s'.inodes ==>
      && s'.inodes[h].openCnt == |Openers(s'.files, h)| >= 1 && s'.inodes[h].denyCnt == |Deniers(s'.files, h)|
      && h >= 2 && (s'.inodes[h].removed <==> !InDir(s, h))
    requires forall fd :: fd in s'.files ==> s'.files[fd].inode in s'.inodes
    ensures Inv(s')
  {
    forall g ensures InDir(s', g) <==> InDir(s, g) {}
    forall g ensures Live(s', g) <==> Live(s, g) {}
    SpaceSame(s, s');
    forall g | g in s'.inodes ensures InodeOk(s', g) {}
  }

  lemma OpenKeepsInv(s: State, name: string, fd: nat, upTo: nat, memory: bool)
    requires Inv(s) && fd !in s.files
    ensures Inv(Open(s, name, fd, upTo, memory))
  {
    var (s', slot) := (Open(s, name, fd, upTo, memory), Lookup(s.dir, name, upTo));
    if slot.Some? && memory {
      var h := s.dir[slot.value].sector;
      assert InDir(s, h);
      if h !in s.inodes { NotInMemory(s, h); }
      forall g | g in s'.inodes
        ensures Live(s, g) && s'.inodes[g].openCnt == |Openers(s'.files, g)| >= 1
          && s'.inodes[g].denyCnt == |Deniers(s'.files, g)|
        ensures g >= 2 && (s'.inodes[g].removed <==> !InDir(s, g))
      {
        FileAdded(s.files, fd, File(h, 0, false), g);
        if g in s.inodes { assert InodeOk(s, g); }
      }
      FilesStep(s, s');
    }
  }

  /** What file_reopen and file_duplicate come to. */
  lemma ReopenShape(s: State, fd: nat, newFd: nat, copy: bool)
    requires IsOpen(s, fd)
    ensures
      var (f, node) := (s.files[fd], s.inodes[s.files[fd].inode]);
      var f' := if copy then f else File(f.inode, 0, false);
      Reopen(s, fd, newFd, copy, true) ==
        s.(files := s.files[newFd := f'],
           inodes := s.inodes[f.inode :=
             node.(openCnt := node.openCnt + 1, denyCnt := node.denyCnt + if f'.deny then 1 else 0)])
  {
    var s1 := OpenInode(s, s.files[fd].inode);
    if copy && s.files[fd].deny {
      var h := s.files[fd].inode;
      var c := s1.inodes[h].(denyCnt := s1.inodes[h].denyCnt + 1);
      assert s1.inodes[h := c] == s.inodes[h := c];
    }
  }

  lemma ReopenKeepsInv(s: State, fd: nat, newFd: nat, copy: bool, memory: bool)
    requires Inv(s) && IsOpen(s, fd) && newFd !in s.files
    ensures Inv(Reopen(s, fd, newFd, copy, memory))
  {
    if memory {
      ReopenShape(s, fd, newFd, copy);
      var f := s.files[fd];
      AddedFileKeepsInv(s, newFd, if copy then f else File(f.inode, 0, false), Reopen(s, fd, newFd, copy, true));
    }
  }

  /** One more file of an inode that is open. */
  lemma AddedFileKeepsInv(s: State, newFd: nat, f: File, s': State)
    requires Inv(s) && newFd !in s.files && f.inode in s.inodes
    requires
      var node := s.inodes[f.inode];
      s' == s.(files := s.files[newFd := f],
               inodes := s.inodes[f.inode :=
                 node.(openCnt := node.openCnt + 1, denyCnt := node.denyCnt + if f.deny then 1 else 0)])
    ensures Inv(s')
  {
    forall g | g in s'.inodes
      ensures Live(s, g) && s'.inodes[g].openCnt == |Openers(s'.files, g)| >= 1
        && s'.inodes[g].denyCnt == |Deniers(s'.files, g)|
      ensures g >= 2 && (s'.inodes[g].removed <==> !InDir(s, g))
    {
      FileAdded(s.files, newFd, f, g);
      assert InodeOk(s, g);
    }
    FilesStep(s, s');
  }

  lemma DenyKeepsInv(s: State, fd: nat, deny: bool)
    requires Inv(s) && IsOpen(s, fd)
    ensures Inv(if deny then DenyWrite(s, fd) else AllowWrite(s, fd))
  {
    var s' := if deny then DenyWrite(s, fd) else AllowWrite(s, fd);
    if s' != s {
      forall g | g in s'.inodes
        ensures Live(s, g) && s'.inodes[g].openCnt == |Openers(s'.files, g)| >= 1
          && s'.inodes[g].denyCnt == |Deniers(s'.files, g)|
        ensures g >= 2 && (s'.inodes[g].removed <==> !InDir(s, g))
      {
        FileReplaced(s.files, fd, s'.files[fd], g);
        DeniedAtMostOpen(s, g);
        assert InodeOk(s, g);
        assert fd in Deniers(s.files, s.files[fd].inode) <==> s.files[fd].deny;
      }
      FilesStep(s, s');
    }
  }

  /** Moving a position and writing data change no counts. */
  lemma MoveKeepsInv(s: State, s': State, fd: nat, pos: nat)
    requires Inv(s) && fd in s.files && s' == s.(disk := s'.disk, files := s.files[fd := s.files[fd].(pos := pos)])
    requires |s'.disk| == |s.disk| && WholeSectors(s'.disk)
    ensures Inv(s')
  {
    forall g | g in s'.inodes
      ensures Live(s, g) && s'.inodes[g].openCnt == |Openers(s'.files, g)| >= 1
        && s'.inodes[g].denyCnt == |Deniers(s'.files, g)|
      ensures g >= 2 && (s'.inodes[g].removed <==> !InDir(s, g))
    {
      FileReplaced(s.files, fd, s'.files[fd], g);
      assert InodeOk(s, g);
    }
    FilesStep(s, s');
  }

  // ---------- close and remove ----------

  /** The file is the last one its inode has open. */
  ghost predicate LastClose(s: State, fd: nat) {
    IsOpen(s, fd) && s.inodes[s.files[fd].inode].openCnt == 1
  }

  lemma OnlyOpener(s: State, fd: nat, other: nat)
    requires Inv(s) && LastClose(s, fd) && other in s.files && other != fd
    ensures s.files[other].inode != s.files[fd].inode
  {
    var h := s.files[fd].inode;
    assert InodeOk(s, h);
    if s.files[other].inode == h {
      SubsetCount({fd, other}, Openers(s.files, h));
      assert false;
    }
  }

  /** What file_close comes to. */
  lemma CloseShape(s: State, fd: nat)
    requires IsOpen(s, fd) && s.inodes[s.files[fd].inode].openCnt >= 1
    requires s.files[fd].deny ==> s.inodes[s.files[fd].inode].denyCnt > 0
    ensures
      var (h, rest, node) := (s.files[fd].inode, s.files - {fd}, s.inodes[s.files[fd].inode]);
      var denyCnt := node.denyCnt - if s.files[fd].deny then 1 else 0;
      var s1 := s.(files := rest, inodes := s.inodes - {h});
      Close(s, fd) == if !LastClose(s, fd) then
        s.(files := rest, inodes := s.inodes[h := node.(openCnt := node.openCnt - 1, denyCnt := denyCnt)])
                      else if node.removed then Release(s1, h) else s1
  {
    var (h, rest) := (s.files[fd].inode, s.files - {fd});
    var s1 := AllowWrite(s, fd);
    assert s1.files - {fd} == rest && s1.inodes - {h} == s.inodes - {h};
    var c := s1.inodes[h].(openCnt := s1.inodes[h].openCnt - 1);
    assert s1.inodes[h := c] == s.inodes[h := c];
  }

  lemma CloseKeepsInv(s: State, fd: nat)
    requires Inv(s) && IsOpen(s, fd)
    ensures Inv(Close(s, fd))
  {
    var (s', h) := (Close(s, fd), s.files[fd].inode);
    assert InodeOk(s, h);
    assert s.files[fd].deny ==> fd in Deniers(s.files, h);
    DeniedAtMostOpen(s, h);
    CloseShape(s, fd);
    if !LastClose(s, fd) {
      SharedCloseKeepsInv(s, s', fd, s.inodes[h].denyCnt - if s.files[fd].deny then 1 else 0);
    } else {
      forall other | other in s'.files ensures s'.files[other].inode != h { OnlyOpener(s, fd, other); }
      if s.inodes[h].removed {
        DropKeepsInv(s, fd, s');
      } else {
        LastCloseKeepsInv(s, s', fd);
      }
    }
  }

  /** Closing a file whose inode others have open. */
  lemma SharedCloseKeepsInv(s: State, s': State, fd: nat, denyCnt: nat)
    requires Inv(s) && IsOpen(s, fd) && !LastClose(s, fd)
    requires denyCnt == s.inodes[s.files[fd].inode].denyCnt - if s.files[fd].deny then 1 else 0
    requires
      var (h, node) := (s.files[fd].inode, s.inodes[s.files[fd].inode]);
      s' == s.(files := s.files - {fd}, inodes := s.inodes[h := node.(openCnt := node.openCnt - 1, denyCnt := denyCnt)])
    ensures Inv(s')
  {
    forall g | g in s'.inodes
      ensures Live(s, g) && s'.inodes[g].openCnt == |Openers(s'.files, g)| >= 1
        && s'.inodes[g].denyCnt == |Deniers(s'.files, g)|
      ensures g >= 2 && (s'.inodes[g].removed <==> !InDir(s, g))
    {
      FileDropped(s.files, fd, g);
      assert InodeOk(s, g);
    }
    FilesStep(s, s');
  }

  /** Closing the only file of an inode that has a name. */
  lemma LastCloseKeepsInv(s: State, s': State, fd: nat)
    requires Inv(s) && LastClose(s, fd) && !s.inodes[s.files[fd].inode].removed
    requires s' == s.(files := s.files - {fd}, inodes := s.inodes - {s.files[fd].inode})
    requires forall other :: other in s'.files ==> s'.files[other].inode != s.files[fd].inode
    ensures Inv(s')
  {
    assert InodeOk(s, s.files[fd].inode);
    forall g | g in s'.inodes
      ensures Live(s, g) && s'.inodes[g].openCnt == |Openers(s'.files, g)| >= 1
        && s'.inodes[g].denyCnt == |Deniers(s'.files, g)|
      ensures g >= 2 && (s'.inodes[g].removed <==> !InDir(s, g))
    {
      FileDropped(s.files, fd, g);
      assert InodeOk(s, g);
    }
    FilesStep(s, s');
  }

  /** Closing the only file of an inode whose name is gone. */
  lemma DropKeepsInv(s: State, fd: nat, s': State)
    requires Inv(s) && LastClose(s, fd) && s.inodes[s.files[fd].inode].removed
    requires s' == Release(s.(files := s.files - {fd}, inodes := s.inodes - {s.files[fd].inode}), s.files[fd].inode)
    requires forall other :: other in s'.files ==> s'.files[other].inode != s.files[fd].inode
    ensures Inv(s')
  {
    var h := s.files[fd].inode;
    assert InodeOk(s, h) && !InDir(s, h);
    DropKeepsSpace(s, s', h);
    forall g | g in s'.inodes ensures InodeOk(s', g) {
      assert InodeOk(s, g) && (InDir(s', g) <==> InDir(s, g));
      FileDropped(s.files, fd, g);
    }
  }

  /** The step that forgets an unnamed inode. */
  lemma DropKeepsSpace(s: State, s': State, h: nat)
    requires SpaceOk(s) && DirOk(s) && h in s.inodes && h in s.headers && h >= 2 && !InDir(s, h)
    requires s' == Release(s.(inodes := s.inodes - {h}, files := s'.files), h)
    ensures SpaceOk(s') && DirOk(s')
  {
    forall g ensures InDir(s', g) <==> InDir(s, g) {}
    forall g ensures Live(s', g) <==> Live(s, g) && g != h {}
    SpaceShrinks(s, s', h);
    forall i | 0 <= i < 16 && s'.dir[i].inUse
      ensures s'.dir[i].sector in s'.headers { assert InDir(s, s'.dir[i].sector); }
  }

  lemma EntryRemoved(s: State, s': State, slot: nat, g: nat)
    requires DirOk(s) && slot < 16 && s.dir[slot].inUse && s'.dir == s.dir[slot := s.dir[slot].(inUse := false)]
    ensures InDir(s', g) <==> InDir(s, g) && g != s.dir[slot].sector
  {
    if InDir(s, g) && g != s.dir[slot].sector {
      var i :| 0 <= i < 16 && s.dir[i].inUse && s.dir[i].sector == g;
      assert s'.dir[i] == s.dir[i];
    }
    if InDir(s', g) {
      var i :| 0 <= i < 16 && s'.dir[i].inUse && s'.dir[i].sector == g;
      assert s.dir[i] == s'.dir[i];
    }
  }

  /** The name of an open inode is removed. */
  ghost function Unnamed(s: State, slot: nat): State
    requires slot < |s.dir| && s.dir[slot].sector in s.inodes
  {
    s.(dir := s.dir[slot := s.dir[slot].(inUse := false)],
       inodes := s.inodes[s.dir[slot].sector := s.inodes[s.dir[slot].sector].(removed := true)])
  }

  /** An inode that nobody has open is removed. */
  ghost function Erased(s: State, slot: nat): State
    requires slot < |s.dir| && s.dir[slot].sector in s.headers
  {
    Release(s.(dir := s.dir[slot := s.dir[slot].(inUse := false)]), s.dir[slot].sector)
  }

  /** What filesys_remove comes to. */
  lemma RemoveShape(s: State, name: string, upTo: nat)
    requires Lookup(s.dir, name, upTo).Some?
    requires s.dir[Lookup(s.dir, name, upTo).value].sector in s.headers
    requires var h := s.dir[Lookup(s.dir, name, upTo).value].sector; h in s.inodes ==> s.inodes[h].openCnt >= 1
    ensures
      var slot := Lookup(s.dir, name, upTo).value;
      Remove(s, name, upTo, true).0 == if s.dir[slot].sector in s.inodes then Unnamed(s, slot) else Erased(s, slot)
  {
    var h := s.dir[Lookup(s.dir, name, upTo).value].sector;
    var s1 := OpenInode(s, h);
    var c := s1.inodes[h].(removed := true);
    if h in s.inodes {
      assert s1.inodes[h := c][h := s.inodes[h].(removed := true)] == s.inodes[h := s.inodes[h].(removed := true)];
    } else {
      assert s1.inodes[h := c] - {h} == s.inodes;
    }
  }

  lemma NamedInode(s: State, slot: nat)
    requires Inv(s) && slot < 16 && s.dir[slot].inUse
    ensures InDir(s, s.dir[slot].sector) && Live(s, s.dir[slot].sector) && s.dir[slot].sector >= 2
    ensures s.dir[slot].sector in s.inodes ==>
      s.inodes[s.dir[slot].sector].openCnt >= 1 && !s.inodes[s.dir[slot].sector].removed
  {
    var h := s.dir[slot].sector;
    assert InDir(s, h);
    if h in s.inodes { assert InodeOk(s, h); }
  }

  lemma RemoveKeepsInv(s: State, name: string, upTo: nat, memory: bool)
    requires Inv(s)
    ensures Inv(Remove(s, name, upTo, memory).0)
  {
    var slot := Lookup(s.dir, name, upTo);
    if slot.Some? && memory {
      NamedInode(s, slot.value);
      RemoveShape(s, name, upTo);
      if s.dir[slot.value].sector in s.inodes {
        UnnameKeepsInv(s, Unnamed(s, slot.value), slot.value);
      } else {
        EraseKeepsInv(s, Erased(s, slot.value), slot.value);
      }
    }
  }

  /** Removing the name of an open inode. */
  lemma UnnameKeepsInv(s: State, s': State, slot: nat)
    requires Inv(s) && slot < 16 && s.dir[slot].inUse && s.dir[slot].sector in s.inodes && s' == Unnamed(s, slot)
    ensures Inv(s')
  {
    forall g ensures InDir(s', g) <==> InDir(s, g) && g != s.dir[slot].sector { EntryRemoved(s, s', slot, g); }
    forall g ensures Live(s', g) <==> Live(s, g) { if g in s.inodes { assert InodeOk(s, g); } }
    SpaceSame(s, s');
    forall g | g in s'.inodes ensures InodeOk(s', g) { assert InodeOk(s, g); }
  }

  /** Removing an inode that nobody has open. */
  lemma EraseKeepsInv(s: State, s': State, slot: nat)
    requires Inv(s) && slot < 16 && s.dir[slot].inUse && s.dir[slot].sector !in s.inodes && s' == Erased(s, slot)
    ensures Inv(s')
  {
    var h := s.dir[slot].sector;
    assert InDir(s, h);
    forall g ensures InDir(s', g) <==> InDir(s, g) && g != h { EntryRemoved(s, s', slot, g); }
    forall g ensures Live(s', g) <==> Live(s, g) && g != h {}
    SpaceShrinks(s, s', h);
    forall g | g in s'.inodes ensures InodeOk(s', g) { assert InodeOk(s, g); }
    forall i | 0 <= i < 16 && s'.dir[i].inUse
      ensures s'.dir[i].sector in s'.headers { assert InDir(s', s'.dir[i].sector); }
  }

  // ---------- steps and runs ----------

  lemma StepKeepsInv(s: State, e: Event)
    requires Inv(s) && Enabled(s, e)
    ensures Inv(Apply(s, e))
  {
    match e
    case DoCreate(name, size, c) => CreateKeepsInv(s, name, size, c);
    case DoOpen(name, fd, upTo, memory) => OpenKeepsInv(s, name, fd, upTo, memory);
    case DoReopen(fd, newFd, copy, memory) => ReopenKeepsInv(s, fd, newFd, copy, memory);
    case DoClose(fd) => CloseKeepsInv(s, fd);
    case DoRemove(name, upTo, memory) => RemoveKeepsInv(s, name, upTo, memory);
    case DoDeny(fd) => DenyKeepsInv(s, fd, true);
    case DoAllow(fd) => DenyKeepsInv(s, fd, false);
    case DoWrite(fd, data, n) => WriteKeepsInv(s, fd, data, n);
    case DoSeek(fd, pos) => MoveKeepsInv(s, Apply(s, e), fd, pos);
  }

  ghost predicate Legal(s: State, events: seq<Event>)
    decreases |events|
  {
    events == [] || (Enabled(s, events[0]) && Legal(Apply(s, events[0]), events[1..]))
  }

  ghost function Run(s: State, events: seq<Event>): State
    requires Legal(s, events)
    decreases |events|
  {
    if events == [] then s else Run(Apply(s, events[0]), events[1..])
  }

  /** do_format on a disk of "size" sectors: the free map's inode is in sector 0, the root directory's in
      sector 1.  Without room for their data the kernel panics. */
  ghost function Format(size: nat): Option<State> {
    var mapBytes := (size + 63) / 64 * 8;
    var bits0 := SetRange(seq(size, _ => false), 0, 2, true);
    var map0 := FirstFit(bits0, Sectors(mapBytes));
    if size < 2 || map0.None? then None
    else
      var bits1 := SetRange(bits0, map0.value, Sectors(mapBytes), true);
      var dir0 := FirstFit(bits1, 1);
      if dir0.None? then None
      else Some(State(SetRange(bits1, dir0.value, 1, true), seq(size, _ => ZeroSector()),
                      map[0 := Extent(map0.value, mapBytes), 1 := Extent(dir0.value, 320)],
                      seq(16, _ => Entry(false, "", 0)), map[], map[], {}))
  }

  /** Formatting succeeds exactly when the disk has room for the two inodes and their data, and then the
      invariant holds. */
  lemma FormatEstablishesInv(size: nat)
    ensures Format(size).Some? <==> size >= 3 + Sectors((size + 63) / 64 * 8)
    ensures Format(size).Some? ==> Inv(Format(size).value)
  {
    var m := Sectors((size + 63) / 64 * 8);
    var bits0 := SetRange(seq(size, _ => false), 0, 2, true);
    if size >= 2 + m { assert AllAre(bits0, 2, m, false); }
    var map0 := FirstFit(bits0, m);
    if size >= 2 && map0.Some? {
      assert m > 0;
      assert map0.value >= 2 by {
        assert AllAre(bits0, map0.value, m, false);
        assert !bits0[map0.value];
      }
      assert map0.value == 2;
      var bits1 := SetRange(bits0, 2, m, true);
      if size >= 3 + m { assert AllAre(bits1, 2 + m, 1, false); }
      var dir0 := FirstFit(bits1, 1);
      if dir0.Some? {
        assert dir0.value >= 2 + m by {
          assert AllAre(bits1, dir0.value, 1, false);
          assert !bits1[dir0.value];
        }
        assert dir0.value == 2 + m;
        FormattedIsOk(Format(size).value, m, size);
      }
    }
  }

  lemma FormattedIsOk(s: State, m: nat, size: nat)
    requires size >= 3 + m && |s.bits| == |s.disk| == size && WholeSectors(s.disk) && s.leaked == {}
    requires forall x :: 0 <= x < size ==> (s.bits[x] <==> x < 3 + m)
    requires s.headers.Keys == {0, 1} && s.headers[1] == Extent(2 + m, 320)
    requires s.headers[0].start == 2 && Sectors(s.headers[0].length) == m
    requires |s.dir| == 16 && (forall i :: 0 <= i < 16 ==> !s.dir[i].inUse) && s.inodes == map[] && s.files == map[]
    ensures Inv(s)
  {
    assert Live(s, 0) && Live(s, 1);
    assert Sectors(320) == 1;
    forall h | Live(s, h) ensures SectorsOk(s, h) { assert h == 0 || h == 1; }
    forall x: nat | x < size && s.bits[x] ensures Owned(s, x) {
      assert if x == 1 || x == 2 + m then Owns(s, 1, x) else Owns(s, 0, x);
    }
  }

  /** The invariant holds in every state that a formatted disk can reach. */
  lemma {:induction false} RunKeepsInv(s: State, events: seq<Event>)
    requires Inv(s) && Legal(s, events)
    ensures Inv(Run(s, events))
    decreases |events|
  {
    if events != [] {
      StepKeepsInv(s, events[0]);
      RunKeepsInv(Apply(s, events[0]), events[1..]);
    }
  }

  // ---------- deferred deletion ----------

  /** The steps that end an inode: the last close of a removed one, and the removal of one nobody has open. */
  ghost predicate Ends(s: State, e: Event, h: nat) {
    || (e.DoClose? && LastClose(s, e.fd) && s.files[e.fd].inode == h && s.inodes[h].removed)
    || (e.DoRemove? && e.memory && Lookup(s.dir, e.name, e.upTo).Some?
      && s.dir[Lookup(s.dir, e.name, e.upTo).value].sector == h && h !in s.inodes)
  }

  /** Steps that leave the directory and the free map alone. */
  ghost predicate Quiet(e: Event) {
    !e.DoCreate? && !e.DoRemove? && !e.DoClose?
  }

  lemma QuietSteps(s: State, e: Event)
    requires Inv(s) && Enabled(s, e) && Quiet(e)
    ensures SameSpace(s, Apply(s, e)) && (!e.DoWrite? ==> Apply(s, e).disk == s.disk)
    ensures forall h :: h in Apply(s, e).inodes ==> h in s.inodes || InDir(s, h)
    ensures s.inodes.Keys <= Apply(s, e).inodes.Keys
  {
    match e
    case DoOpen(name, fd, upTo, memory) => OpenIsQuiet(s, name, fd, upTo, memory);
    case _ =>
  }

  lemma OpenIsQuiet(s: State, name: string, fd: nat, upTo: nat, memory: bool)
    requires Inv(s)
    ensures SameSpace(s, Open(s, name, fd, upTo, memory)) && Open(s, name, fd, upTo, memory).disk == s.disk
    ensures forall h :: h in Open(s, name, fd, upTo, memory).inodes ==> h in s.inodes || InDir(s, h)
    ensures s.inodes.Keys <= Open(s, name, fd, upTo, memory).inodes.Keys
  {
    var slot := Lookup(s.dir, name, upTo);
    if slot.Some? { NamedInode(s, slot.value); }
  }

  lemma QuietKeepsLive(s: State, e: Event, h: nat)
    requires Inv(s) && Enabled(s, e) && Quiet(e)
    ensures Live(Apply(s, e), h) <==> Live(s, h)
  {
    QuietSteps(s, e);
    SameDirSameLive(s, Apply(s, e), h);
  }

  lemma SameDirSameLive(s: State, s': State, h: nat)
    requires s'.dir == s.dir && s'.headers == s.headers
    requires forall g :: g in s'.inodes ==> g in s.inodes || InDir(s, g)
    requires s.inodes.Keys <= s'.inodes.Keys
    ensures Live(s', h) <==> Live(s, h)
  {
    assert InDir(s', h) <==> InDir(s, h);
  }

  /** No step but the ends of an inode makes a live inode unreachable. */
  lemma LiveUntilEnd(s: State, e: Event, h: nat)
    requires Inv(s) && Enabled(s, e) && Live(s, h)
    ensures Live(Apply(s, e), h) <==> !Ends(s, e, h)
    ensures !Ends(s, e, h) ==> Apply(s, e).headers[h] == s.headers[h]
  {
    if e.DoCreate? {
      CreateKeepsLive(s, e.name, e.size, e.c, h);
    } else if e.DoRemove? {
      RemoveEnds(s, e.name, e.upTo, e.memory, h);
    } else if e.DoClose? {
      CloseEnds(s, e.fd, h);
    } else {
      QuietSteps(s, e);
      QuietKeepsLive(s, e, h);
    }
  }

  lemma CloseEnds(s: State, fd: nat, h: nat)
    requires Inv(s) && IsOpen(s, fd) && Live(s, h)
    ensures var s' := Close(s, fd);
      && (Live(s', h) <==> !Ends(s, DoClose(fd), h)) && (Live(s', h) ==> s'.headers[h] == s.headers[h])
  {
    var s' := Close(s, fd);
    assert InDir(s', h) <==> InDir(s, h);
    assert InodeOk(s, s.files[fd].inode);
  }

  lemma RemoveEnds(s: State, name: string, upTo: nat, memory: bool, h: nat)
    requires Inv(s) && Live(s, h)
    ensures var s' := Remove(s, name, upTo, memory).0;
      && (Live(s', h) <==> !Ends(s, DoRemove(name, upTo, memory), h)) && (Live(s', h) ==> s'.headers[h] == s.headers[h])
  {
    var slot := Lookup(s.dir, name, upTo);
    if slot.Some? && memory {
      NamedInode(s, slot.value);
      RemoveShape(s, name, upTo);
      EntryRemoved(s, Remove(s, name, upTo, memory).0, slot.value, h);
    }
  }

  lemma CreateKeepsLive(s: State, name: string, size: nat, c: Choice, h: nat)
    requires Inv(s) && Live(s, h) && ReadsFar(s.dir, name, c)
    ensures var s' := Create(s, name, size, c).0; Live(s', h) && s'.headers[h] == s.headers[h]
  {
    var s' := Create(s, name, size, c).0;
    var header := FirstFit(s.bits, 1);
    if header.Some? {
      assert AllAre(s.bits, header.value, 1, false) && !s.bits[header.value];
      FreeIsNotLive(s, header.value);
      if AddSlot(s.dir, name, c).Some? && s' != s {
        AddSlotIsFree(s.dir, name, c);
        EntryAdded(s, s', AddSlot(s.dir, name, c).value, name, header.value, h);
      } else {
        assert InDir(s', h) <==> InDir(s, h);
      }
    }
  }

  /** A step frees exactly the sectors of the inode it ends: a removed file keeps its own until its last close. */
  lemma FreedExactly(s: State, e: Event, x: nat)
    requires Inv(s) && Enabled(s, e) && x < |s.bits|
    ensures |Apply(s, e).bits| == |s.bits|
    ensures s.bits[x] && !Apply(s, e).bits[x] <==> exists h :: Ends(s, e, h) && Owns(s, h, x)
  {
    if e.DoCreate? {
      CreateFreesNothing(s, e.name, e.size, e.c, x);
    } else if e.DoRemove? {
      RemoveFreesExactly(s, e.name, e.upTo, e.memory, x);
    } else if e.DoClose? {
      CloseFreesExactly(s, e.fd, x);
    } else {
      QuietSteps(s, e);
    }
  }

  lemma RemoveFreesExactly(s: State, name: string, upTo: nat, memory: bool, x: nat)
    requires Inv(s) && x < |s.bits|
    ensures
      var (s', e) := (Remove(s, name, upTo, memory).0, DoRemove(name, upTo, memory));
      |s'.bits| == |s.bits| && (s.bits[x] && !s'.bits[x] <==> exists h :: Ends(s, e, h) && Owns(s, h, x))
  {
    var slot := Lookup(s.dir, name, upTo);
    if slot.Some? && memory {
      NamedInode(s, slot.value);
      RemoveShape(s, name, upTo);
      var h := s.dir[slot.value].sector;
      assert SectorsOk(s, h);
      assert Ends(s, DoRemove(name, upTo, memory), h) <==> h !in s.inodes;
    }
  }

  lemma CloseFreesExactly(s: State, fd: nat, x: nat)
    requires Inv(s) && IsOpen(s, fd) && x < |s.bits|
    ensures
      var s' := Close(s, fd);
      |s'.bits| == |s.bits| && (s.bits[x] && !s'.bits[x] <==> exists h :: Ends(s, DoClose(fd), h) && Owns(s, h, x))
  {
    var h := s.files[fd].inode;
    assert InodeOk(s, h) && SectorsOk(s, h);
    assert LastClose(s, fd) && s.inodes[h].removed <==> Ends(s, DoClose(fd), h);
  }

  lemma CreateFreesNothing(s: State, name: string, size: nat, c: Choice, x: nat)
    requires Inv(s) && x < |s.bits|
    ensures var s' := Create(s, name, size, c).0; |s'.bits| == |s.bits| && (s.bits[x] ==> s'.bits[x])
  {
    var header := FirstFit(s.bits, 1);
    if header.Some? { assert AllAre(s.bits, header.value, 1, false) && !s.bits[header.value]; }
  }

  // ---------- contents ----------

  /** The contents of a live inode. */
  ghost function FileContent(s: State, h: nat): Bytes
    requires SpaceOk(s) && Live(s, h)
  {
    assert SectorsOk(s, h);
    Content(s.disk, s.headers[h])
  }

  /** A step writes no data sector of a live inode but those of the file it writes. */
  lemma SectorsKept(s: State, e: Event, h: nat, x: nat)
    requires Inv(s) && Enabled(s, e) && Live(s, h) && Owns(s, h, x) && x != h
    requires e.DoWrite? ==> s.files[e.fd].inode != h
    ensures x < |s.disk| == |Apply(s, e).disk| && Apply(s, e).disk[x] == s.disk[x]
  {
    assert SectorsOk(s, h);
    if e.DoCreate? {
      CreateKeepsSectors(s, e.name, e.size, e.c, x);
    } else if e.DoWrite? {
      var g := s.files[e.fd].inode;
      assert InodeOk(s, g) && Live(s, g);
      assert !Owns(s, g, x);
    } else if e.DoRemove? {
      RemoveKeepsSectors(s, e.name, e.upTo, e.memory);
    } else if e.DoClose? {
    } else {
      QuietSteps(s, e);
    }
  }

  lemma CreateKeepsSectors(s: State, name: string, size: nat, c: Choice, x: nat)
    requires x < |s.disk| == |s.bits| && s.bits[x]
    ensures var s' := Create(s, name, size, c).0; |s'.disk| == |s.disk| && s'.disk[x] == s.disk[x]
  {
    var header := FirstFit(s.bits, 1);
    if header.Some? {
      var bits1 := SetRange(s.bits, header.value, 1, true);
      var fit := FirstFit(bits1, Sectors(size));
      if fit.Some? { assert !(fit.value <= x < fit.value + Sectors(size)) by { assert bits1[x]; } }
    }
  }

  lemma RemoveKeepsSectors(s: State, name: string, upTo: nat, memory: bool)
    requires Inv(s)
    ensures Remove(s, name, upTo, memory).0.disk == s.disk
  {
    var slot := Lookup(s.dir, name, upTo);
    if slot.Some? && memory {
      NamedInode(s, slot.value);
      RemoveShape(s, name, upTo);
    }
  }

  /** Every file but the one written keeps its contents, until its end: also a removed one that is still open. */
  lemma ContentKept(s: State, e: Event, h: nat)
    requires Inv(s) && Enabled(s, e) && Live(s, h) && !Ends(s, e, h)
    requires e.DoWrite? ==> s.files[e.fd].inode != h
    ensures Inv(Apply(s, e)) && Live(Apply(s, e), h) && FileContent(Apply(s, e), h) == FileContent(s, h)
  {
    StepKeepsInv(s, e);
    LiveUntilEnd(s, e, h);
    forall x: nat | Owns(s, h, x) && x != h ensures x < |s.disk| == |Apply(s, e).disk|
      && Apply(s, e).disk[x] == s.disk[x] {
      SectorsKept(s, e, h, x);
    }
    SameContent(s, Apply(s, e), h);
  }

  lemma SameContent(s: State, s': State, h: nat)
    requires SpaceOk(s) && SpaceOk(s') && Live(s, h) && Live(s', h) && s'.headers[h] == s.headers[h]
    requires forall x: nat :: Owns(s, h, x) && x != h ==> x < |s.disk| == |s'.disk| && s'.disk[x] == s.disk[x]
    ensures FileContent(s', h) == FileContent(s, h)
  {
    assert SectorsOk(s, h);
    var f := s.headers[h];
    forall p | 0 <= p < f.length ensures ByteAt(s'.disk, f.start, p) == ByteAt(s.disk, f.start, p) {
      assert Owns(s, h, f.start + p / 512);
    }
  }

  lemma WriteKeepsInv(s: State, fd: nat, data: Bytes, n: nat)
    requires Inv(s) && IsOpen(s, fd) && n <= Limit(s, fd, data)
    ensures Inv(Write(s, fd, data, n)) && IsOpen(Write(s, fd, data, n), fd)
    ensures Write(s, fd, data, n).files[fd].pos == s.files[fd].pos + n
  {
    MoveKeepsInv(s, Write(s, fd, data, n), fd, s.files[fd].pos + n);
  }

  /** file_write on the contents: the bytes at the position that get through are replaced, and the position moves past
      them.  With memory they are all up to the end of the file, and none while an opener denies writes. */
  lemma WriteIsFlat(s: State, fd: nat, data: Bytes, n: nat)
    requires Inv(s) && IsOpen(s, fd) && n <= Limit(s, fd, data)
    ensures n <= |data| && Limit(s, fd, data) == if Deniers(s.files, s.files[fd].inode) != {} then 0
                                  else Transfer(s.headers[s.files[fd].inode], |data|, s.files[fd].pos)
    ensures
      var (s', h, pos) := (Write(s, fd, data, n), s.files[fd].inode, s.files[fd].pos);
      && Inv(s') && Live(s, h) && Live(s', h) && s'.files[fd].pos == pos + n
      && FileContent(s', h) == (if n == 0 then FileContent(s, h)
                                else FileContent(s, h)[..pos] + data[..n] + FileContent(s, h)[pos + n..])
  {
    var (s', h, pos) := (Write(s, fd, data, n), s.files[fd].inode, s.files[fd].pos);
    OpenIsLive(s, fd);
    LimitIsTransfer(s, fd, data);
    WriteKeepsInv(s, fd, data, n);
    SameDirSameLive(s, s', h);
    ContentAfterWrite(s.disk, s.headers[h], data, n, pos);
  }

  /** The inode of an open file is live, and its data are on the disk. */
  lemma OpenIsLive(s: State, fd: nat)
    requires Inv(s) && IsOpen(s, fd)
    ensures Live(s, s.files[fd].inode) && OnDisk(s.disk, s.headers[s.files[fd].inode])
  {
    var h := s.files[fd].inode;
    assert InodeOk(s, h) && Live(s, h) && SectorsOk(s, h);
  }

  lemma LimitIsTransfer(s: State, fd: nat, data: Bytes)
    requires Inv(s) && IsOpen(s, fd)
    ensures Limit(s, fd, data) == if Deniers(s.files, s.files[fd].inode) != {} then 0
                                  else Transfer(s.headers[s.files[fd].inode], |data|, s.files[fd].pos)
  {
    assert InodeOk(s, s.files[fd].inode);
  }

  lemma ContentAfterWrite(disk: seq<Bytes>, e: Extent, data: Bytes, n: nat, offset: nat)
    requires WholeSectors(disk) && OnDisk(disk, e) && n <= |data| && (n > 0 ==> offset + n <= e.length)
    ensures
      var (before, after) := (Content(disk, e), Content(WriteDisk(disk, e, data, n, offset), e));
      after == if n == 0 then before else before[..offset] + data[..n] + before[offset + n..]
  {
    WriteDiskWrites(disk, e, data, n, offset);
    WriteUpdatesContent(disk, WriteDisk(disk, e, data, n, offset), e, data, n, offset);
  }

  lemma WriteDiskWrites(disk: seq<Bytes>, e: Extent, data: Bytes, n: nat, offset: nat)
    requires WholeSectors(disk) && OnDisk(disk, e) && n <= |data|
    ensures WrittenTo(disk, WriteDisk(disk, e, data, n, offset), e, data, n, offset)
  {
    var after := WriteDisk(disk, e, data, n, offset);
    forall p | 0 <= p < Sectors(e.length) * 512
      ensures ByteAt(after, e.start, p) ==
        if offset <= p < offset + n then data[p - offset] else ByteAt(disk, e.start, p)
    {
      assert p == p / 512 * 512 + p % 512 && p / 512 < Sectors(e.length);
    }
  }

  /** The steps neither close the file number nor write the inode. */
  ghost predicate LeavesOpen(s: State, events: seq<Event>, fd: nat, h: nat)
    requires Legal(s, events)
    decreases |events|
  {
    events == [] ||
    (var e := events[0];
     e != DoClose(fd) && !(e.DoWrite? && s.files[e.fd].inode == h) && LeavesOpen(Apply(s, e), events[1..], fd, h))
  }

  /** While a file is open its inode stays, with its contents, whatever else is done: removing its name, closing
      other files of the inode, creating files, writing to others. */
  lemma {:induction false} OpenFileSurvives(s: State, events: seq<Event>, fd: nat)
    requires Inv(s) && Legal(s, events) && fd in s.files && LeavesOpen(s, events, fd, s.files[fd].inode)
    ensures Live(s, s.files[fd].inode) && Survives(s, Run(s, events), fd)
    decreases |events|
  {
    var h := s.files[fd].inode;
    assert InodeOk(s, h) && Live(s, h);
    if events != [] {
      var s1 := Apply(s, events[0]);
      StepSurvives(s, events[0], fd);
      OpenFileSurvives(s1, events[1..], fd);
    }
  }

  /** The file is open in both states, on the same inode with the same contents. */
  ghost predicate Survives(s: State, s': State, fd: nat) {
    && Inv(s) && Inv(s') && fd in s.files && fd in s'.files && s'.files[fd].inode == s.files[fd].inode
    && var h := s.files[fd].inode;
      Live(s, h) && Live(s', h) && s'.headers[h] == s.headers[h] && FileContent(s', h) == FileContent(s, h)
  }

  lemma StepSurvives(s: State, e: Event, fd: nat)
    requires Inv(s) && Enabled(s, e) && fd in s.files && e != DoClose(fd)
    requires e.DoWrite? ==> s.files[e.fd].inode != s.files[fd].inode
    ensures Survives(s, Apply(s, e), fd)
  {
    var h := s.files[fd].inode;
    assert InodeOk(s, h) && Live(s, h);
    if e.DoClose? && LastClose(s, e.fd) { OnlyOpener(s, e.fd, fd); }
    assert !Ends(s, e, h);
    ContentKept(s, e, h);
    LiveUntilEnd(s, e, h);
    StaysOpen(s, e, fd);
  }

  lemma StaysOpen(s: State, e: Event, fd: nat)
    requires Enabled(s, e) && fd in s.files && e != DoClose(fd)
    ensures fd in Apply(s, e).files && Apply(s, e).files[fd].inode == s.files[fd].inode
  {
  }
}
