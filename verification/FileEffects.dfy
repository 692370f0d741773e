/** The file system as its callers see it: a map from names to files, open files with their positions, and files whose
    contents nobody can change while somebody denies it. */
module FileEffects {
  import opened Bitmaps
  import opened InodeData
  import opened FileSystem
  import opened Sequences

  // ---------- names ----------

  /** The directory has the name for the file with its header in sector "h", among the entries before "upTo". */
  ghost predicate Named(s: State, name: string, h: nat, upTo: nat) {
    exists i :: 0 <= i < |s.dir| && i < upTo && s.dir[i].inUse && s.dir[i].name == name && s.dir[i].sector == h
  }

  ghost predicate IsName(s: State, name: string, h: nat) {
    Named(s, name, h, |s.dir|)
  }

  /** lookup finds the file that has the name, if the entry is read. */
  lemma LookupFinds(s: State, name: string, upTo: nat, h: nat)
    requires DirOk(s)
    ensures
      var slot := Lookup(s.dir, name, upTo);
      Named(s, name, h, upTo) <==> slot.Some? && s.dir[slot.value].sector == h
  {
    var slot := Lookup(s.dir, name, upTo);
    if slot.Some? { assert s.dir[slot.value].name == name && s.dir[slot.value].inUse; }
  }

  lemma EntryChanged(s: State, s': State, slot: nat, e: Entry, name: string, h: nat)
    requires slot < |s.dir| && s'.dir == s.dir[slot := e]
    requires s.dir[slot].inUse ==>
      forall i :: 0 <= i < |s.dir| && i != slot && s.dir[i].inUse ==> s.dir[i].name != s.dir[slot].name
    ensures IsName(s', name, h) <==>
      (e.inUse && e.name == name && e.sector == h)
      || (IsName(s, name, h) && !(s.dir[slot].inUse && s.dir[slot].name == name))
  {
    if IsName(s, name, h) && !(s.dir[slot].inUse && s.dir[slot].name == name) {
      var i :| 0 <= i < |s.dir| && s.dir[i].inUse && s.dir[i].name == name && s.dir[i].sector == h;
      assert s'.dir[i] == s.dir[i];
    }
    if e.inUse && e.name == name && e.sector == h { assert s'.dir[slot] == e; }
    if IsName(s', name, h) {
      var i :| 0 <= i < |s'.dir| && s'.dir[i].inUse && s'.dir[i].name == name && s'.dir[i].sector == h;
      assert i != slot ==> s.dir[i] == s'.dir[i];
    }
  }

  /** A formatted disk has no names and no open files, and its directory has room. */
  lemma FormattedIsEmpty(size: nat)
    requires Format(size).Some?
    ensures
      var s := Format(size).value;
      && Inv(s) && s.files == map[] && s.inodes == map[] && HasFreeSlot(s) && |s.disk| == size
      && forall name, h :: !IsName(s, name, h)
  {
    FormatEstablishesInv(size);
    assert !Format(size).value.dir[0].inUse;
  }

  // ---------- creating ----------

  ghost predicate HasFreeSlot(s: State) {
    exists i :: 0 <= i < |s.dir| && !s.dir[i].inUse
  }

  /** The disk has a free sector for the header, and behind it room for the data. */
  ghost predicate HasRoom(s: State, size: nat) {
    FirstFit(s.bits, 1).Some? && FirstFit(SetRange(s.bits, FirstFit(s.bits, 1).value, 1, true), Sectors(size)).Some?
  }

  ghost predicate AllGranted(c: Choice) {
    c.dirOpens && c.mapWrites1 && c.mapWrites2 && c.headerBuffer && c.entryWrites
  }

  lemma AddsExactly(s: State, name: string, c: Choice)
    requires DirOk(s) && ReadsFar(s.dir, name, c) && c.entryWrites
    ensures AddSlot(s.dir, name, c).Some? <==> ValidName(name) && HasFreeSlot(s) && forall h :: !IsName(s, name, h)
  {
    FreeSlotSeen(s.dir, c.slotReads);
    LookupSeen(s.dir, name, c.lookupReads);
    var there := Lookup(s.dir, name, |s.dir|);
    if there.Some? { assert IsName(s, name, s.dir[there.value].sector); }
    var free := FreeSlot(s.dir, 0);
    if free.Some? { assert !s.dir[free.value].inUse; }
  }

  /** filesys_create succeeds exactly when memory and room are there and the name is valid and new; then it has made a
      file of that name with "size" zero bytes, and otherwise the directory is as it was.  All other names stay. */
  lemma CreateMakes(s: State, name: string, size: nat, c: Choice) returns (h: nat)
    requires Inv(s) && ReadsFar(s.dir, name, c)
    ensures
      var (s', ok) := Create(s, name, size, c);
      && (ok <==> AllGranted(c) && HasRoom(s, size) && ValidName(name) && HasFreeSlot(s)
                  && forall g :: !IsName(s, name, g))
      && s'.files == s.files && s'.inodes == s.inodes
      && (!ok ==> s'.dir == s.dir)
      && (ok ==> !Live(s, h) && Inv(s') && Live(s', h) && FileContent(s', h) == seq(size, _ => 0)
                 && forall n, g :: IsName(s', n, g) <==> IsName(s, n, g) || (n == name && g == h))
  {
    h := 0;
    var (s', ok) := Create(s, name, size, c);
    if c.entryWrites { AddsExactly(s, name, c); }
    if ok {
      h := FirstFit(s.bits, 1).value;
      CreateKeepsInv(s, name, size, c);
      AddSlotIsFree(s.dir, name, c);
      assert AllAre(s.bits, h, 1, false) && !s.bits[h];
      FreeIsNotLive(s, h);
      var slot := AddSlot(s.dir, name, c).value;
      forall n, g ensures IsName(s', n, g) <==> IsName(s, n, g) || (n == name && g == h) {
        EntryChanged(s, s', slot, Entry(true, name, h), n, g);
      }
      assert IsName(s', name, h) && InDir(s', h);
      NewIsZero(s, s', h, size);
    }
  }

  lemma NewIsZero(s: State, s': State, h: nat, size: nat)
    requires Inv(s') && Live(s', h) && s'.headers[h].length == size
    requires s'.disk == Zeroed(s.disk, s'.headers[h].start, Sectors(size))
    ensures FileContent(s', h) == seq(size, _ => 0)
  {
    assert SectorsOk(s', h);
    var e := s'.headers[h];
    forall p | 0 <= p < size ensures ByteAt(s'.disk, e.start, p) == 0 {
      assert s'.disk[e.start + p / 512] == ZeroSector();
    }
  }

  // ---------- removing ----------

  /** filesys_remove takes exactly the name away, if the entry is read and there is memory; the open files stay. */
  lemma RemoveUnnames(s: State, name: string, upTo: nat, memory: bool)
    requires Inv(s)
    ensures
      var (s', ok) := Remove(s, name, upTo, memory);
      && (ok <==> memory && exists h :: Named(s, name, h, upTo))
      && s'.files == s.files && (!ok ==> s' == s)
      && (ok ==> forall n, g :: IsName(s', n, g) <==> IsName(s, n, g) && n != name)
  {
    var (s', ok) := Remove(s, name, upTo, memory);
    var slot := Lookup(s.dir, name, upTo);
    if slot.Some? { LookupFinds(s, name, upTo, s.dir[slot.value].sector); }
    forall h | Named(s, name, h, upTo) ensures slot.Some? { LookupFinds(s, name, upTo, h); }
    if ok {
      NamedInode(s, slot.value);
      RemoveShape(s, name, upTo);
      assert s'.dir == s.dir[slot.value := s.dir[slot.value].(inUse := false)];
      forall n, g ensures IsName(s', n, g) <==> IsName(s, n, g) && n != name {
        EntryChanged(s, s', slot.value, s.dir[slot.value].(inUse := false), n, g);
      }
    }
  }

  // ---------- the open files ----------

  /** What each step does to the open files: a table from file numbers to inodes, positions and denials. */
  ghost predicate FilesAre(s: State, e: Event, files: map<nat, File>)
    requires Enabled(s, e)
  {
    match e
    case DoCreate(_, _, _) => files == s.files
    case DoRemove(_, _, _) => files == s.files
    case DoOpen(name, fd, upTo, memory) =>
      (memory && exists h :: Named(s, name, h, upTo) && files == s.files[fd := File(h, 0, false)])
      || ((!memory || forall h :: !Named(s, name, h, upTo)) && files == s.files)
    case DoReopen(fd, newFd, copy, memory) =>
      var f := s.files[fd];
      files == if !memory then s.files
               else s.files[newFd := File(f.inode, if copy then f.pos else 0, copy && f.deny)]
    case DoClose(fd) => files == s.files - {fd}
    case DoDeny(fd) => files == s.files[fd := File(s.files[fd].inode, s.files[fd].pos, true)]
    case DoAllow(fd) => files == s.files[fd := File(s.files[fd].inode, s.files[fd].pos, false)]
    case DoWrite(fd, _, n) => files == s.files[fd := File(s.files[fd].inode, s.files[fd].pos + n, s.files[fd].deny)]
    case DoSeek(fd, pos) => files == s.files[fd := File(s.files[fd].inode, pos, s.files[fd].deny)]
  }

  lemma OpenFinds(s: State, name: string, fd: nat, upTo: nat, memory: bool)
    requires DirOk(s) && Enabled(s, DoOpen(name, fd, upTo, memory))
    ensures FilesAre(s, DoOpen(name, fd, upTo, memory), Open(s, name, fd, upTo, memory).files)
  {
    var slot := Lookup(s.dir, name, upTo);
    if slot.Some? {
      LookupFinds(s, name, upTo, s.dir[slot.value].sector);
    } else {
      forall h ensures !Named(s, name, h, upTo) { if Named(s, name, h, upTo) { LookupFinds(s, name, upTo, h); } }
    }
  }

  lemma CloseDrops(s: State, fd: nat)
    requires IsOpen(s, fd)
    ensures Close(s, fd).files == s.files - {fd}
  {
  }

  /** Every step changes the table of open files as its call says. */
  lemma FilesChangeExactly(s: State, e: Event)
    requires Inv(s) && Enabled(s, e)
    ensures FilesAre(s, e, Apply(s, e).files)
  {
    match e
    case DoCreate(name, size, c) => var h := CreateMakes(s, name, size, c);
    case DoRemove(name, upTo, memory) => RemoveUnnames(s, name, upTo, memory);
    case DoOpen(name, fd, upTo, memory) => OpenFinds(s, name, fd, upTo, memory);
    case DoClose(fd) => CloseDrops(s, fd);
    case DoReopen(fd, newFd, copy, memory) => if memory { ReopenShape(s, fd, newFd, copy); }
    case DoDeny(fd) => DenyIs(s, fd);
    case DoAllow(fd) => DenyIs(s, fd);
    case _ =>
  }

  lemma DenyIs(s: State, fd: nat)
    requires IsOpen(s, fd)
    ensures DenyWrite(s, fd).files == s.files[fd := File(s.files[fd].inode, s.files[fd].pos, true)]
    ensures AllowWrite(s, fd).files == s.files[fd := File(s.files[fd].inode, s.files[fd].pos, false)]
  {
    assert s.files[fd := s.files[fd]] == s.files;
  }

  /** The names change with create and remove alone. */
  lemma NamesStay(s: State, e: Event)
    requires Inv(s) && Enabled(s, e) && !e.DoCreate? && !e.DoRemove?
    ensures forall n, g :: IsName(Apply(s, e), n, g) <==> IsName(s, n, g)
  {
    if e.DoClose? { assert Close(s, e.fd).dir == s.dir; } else { QuietSteps(s, e); }
  }

  // ---------- denying writes ----------

  /** file_deny_write: the file denies, and nothing can be written to its inode through any file. */
  lemma DenyStopsWrites(s: State, fd: nat)
    requires Inv(s) && IsOpen(s, fd)
    ensures
      var s' := DenyWrite(s, fd);
      && Inv(s') && IsOpen(s', fd) && fd in Deniers(s'.files, s.files[fd].inode)
      && forall other, data :: IsOpen(s', other) && s'.files[other].inode == s.files[fd].inode ==>
           Limit(s', other, data) == 0
  {
    var s' := DenyWrite(s, fd);
    DenyKeepsInv(s, fd, true);
    DenyIs(s, fd);
    forall other, data | IsOpen(s', other) && s'.files[other].inode == s.files[fd].inode
      ensures Limit(s', other, data) == 0
    {
      DeniedLimit(s', fd, other, data);
    }
  }

  lemma DeniedLimit(s: State, fd: nat, other: nat, data: Bytes)
    requires Inv(s) && fd in s.files && s.files[fd].deny && IsOpen(s, other)
    requires s.files[other].inode == s.files[fd].inode
    ensures Limit(s, other, data) == 0
  {
    LimitIsTransfer(s, other, data);
    assert fd in Deniers(s.files, s.files[fd].inode);
  }

  /** file_allow_write takes back the denial of this file alone: writes go through again unless another file denies. */
  lemma AllowLetsWrite(s: State, fd: nat, data: Bytes)
    requires Inv(s) && IsOpen(s, fd)
    ensures
      var (s', h) := (AllowWrite(s, fd), s.files[fd].inode);
      && Inv(s') && IsOpen(s', fd) && Deniers(s'.files, h) == Deniers(s.files, h) - {fd}
      && Limit(s', fd, data) ==
           if Deniers(s.files, h) <= {fd} then Transfer(s.headers[h], |data|, s.files[fd].pos) else 0
  {
    AllowIs(s, AllowWrite(s, fd), fd);
    LimitIsTransfer(AllowWrite(s, fd), fd, data);
  }

  lemma AllowIs(s: State, s': State, fd: nat)
    requires Inv(s) && IsOpen(s, fd) && s' == AllowWrite(s, fd)
    ensures Inv(s') && IsOpen(s', fd) && s'.headers == s.headers
    ensures s'.files[fd].inode == s.files[fd].inode && s'.files[fd].pos == s.files[fd].pos
    ensures
      var h := s.files[fd].inode;
      Deniers(s'.files, h) == Deniers(s.files, h) - {fd}
        && (Deniers(s'.files, h) == {} <==> Deniers(s.files, h) <= {fd})
  {
    DenyKeepsInv(s, fd, false);
    DenyIs(s, fd);
    DeniersWithout(s.files, fd, s'.files[fd]);
  }

  lemma DeniersWithout(files: map<nat, File>, fd: nat, f: File)
    requires fd in files && f.inode == files[fd].inode && !f.deny
    ensures
      var (before, after) := (Deniers(files, f.inode), Deniers(files[fd := f], f.inode));
      after == before - {fd} && (after == {} <==> before <= {fd})
  {
    var (before, after) := (Deniers(files, f.inode), Deniers(files[fd := f], f.inode));
    assert after == before - {fd};
    if !(before <= {fd}) {
      var other :| other in before && other != fd;
      assert other in after;
    }
  }

  /** The run neither allows writes through the file again nor closes it. */
  ghost predicate KeepsDenying(events: seq<Event>, fd: nat) {
    DoAllow(fd) !in events && DoClose(fd) !in events
  }

  /** The file denies in both states, and its inode has the same contents. */
  ghost predicate StillDenied(s: State, s': State, fd: nat) {
    Survives(s, s', fd) && s'.files[fd].deny
  }

  lemma StepKeepsDenied(s: State, e: Event, fd: nat)
    requires Inv(s) && Enabled(s, e) && fd in s.files && s.files[fd].deny && e != DoAllow(fd) && e != DoClose(fd)
    ensures e.DoWrite? && s.files[e.fd].inode == s.files[fd].inode ==> e.n == 0
    ensures StillDenied(s, Apply(s, e), fd)
  {
    StaysDenied(s, e, fd);
    if e.DoWrite? && s.files[e.fd].inode == s.files[fd].inode {
      DeniedLimit(s, fd, e.fd, e.data);
      NothingWritten(s, e.fd, e.data, fd);
    } else {
      StepSurvives(s, e, fd);
    }
  }

  lemma StaysDenied(s: State, e: Event, fd: nat)
    requires Inv(s) && Enabled(s, e) && fd in s.files && s.files[fd].deny && e != DoAllow(fd) && e != DoClose(fd)
    ensures fd in Apply(s, e).files && Apply(s, e).files[fd].deny
  {
    FilesChangeExactly(s, e);
  }

  lemma NothingWritten(s: State, fd: nat, data: Bytes, other: nat)
    requires Inv(s) && IsOpen(s, fd) && other in s.files && s.files[other].inode == s.files[fd].inode
    ensures Survives(s, Write(s, fd, data, 0), other)
  {
    WriteIsFlat(s, fd, data, 0);
  }

  /** The writes of a run to one inode. */
  ghost function BytesWritten(s: State, events: seq<Event>, h: nat): nat
    requires Legal(s, events)
    decreases |events|
  {
    if events == [] then 0
    else
      (if events[0].DoWrite? && s.files[events[0].fd].inode == h then events[0].n else 0)
      + BytesWritten(Apply(s, events[0]), events[1..], h)
  }

  /** A running executable cannot be changed: from file_deny_write on, until the same file allows writes again or is
      closed, no write to the inode by anybody transfers a byte, and its contents stay. */
  lemma {:induction false} DeniedUntilAllowed(s: State, events: seq<Event>, fd: nat)
    requires Inv(s) && Legal(s, events) && fd in s.files && s.files[fd].deny && KeepsDenying(events, fd)
    ensures BytesWritten(s, events, s.files[fd].inode) == 0
    ensures Live(s, s.files[fd].inode) && StillDenied(s, Run(s, events), fd)
    decreases |events|
  {
    var h := s.files[fd].inode;
    assert InodeOk(s, h) && Live(s, h);
    if events != [] {
      StepKeepsDenied(s, events[0], fd);
      DeniedUntilAllowed(Apply(s, events[0]), events[1..], fd);
    }
  }

  /** The same, from the call of file_deny_write on. */
  lemma DenyHolds(s: State, fd: nat, events: seq<Event>)
    requires Inv(s) && Enabled(s, DoDeny(fd)) && Legal(Apply(s, DoDeny(fd)), events) && KeepsDenying(events, fd)
    ensures BytesWritten(Apply(s, DoDeny(fd)), events, s.files[fd].inode) == 0
    ensures
      var (h, s') := (s.files[fd].inode, Run(Apply(s, DoDeny(fd)), events));
      Live(s, h) && Inv(s') && Live(s', h) && FileContent(s', h) == FileContent(s, h)
  {
    var (h, s1) := (s.files[fd].inode, DenyWrite(s, fd));
    assert InodeOk(s, h) && Live(s, h);
    DenyStopsWrites(s, fd);
    ContentKept(s, DoDeny(fd), h);
    DeniedUntilAllowed(s1, events, fd);
  }
}
