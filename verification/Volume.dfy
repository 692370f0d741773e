/** The file system of module FileSystem in place: the free map in its words, the sectors and the directory in
    arrays, the tables of open inodes and files updated call by call. */
module Volume {
  import opened Bitmaps
  import opened InodeData
  import opened FileSystem
  import opened Sequences

  lemma MarksBack(bits: seq<bool>, start: nat, cnt: nat)
    requires start + cnt <= |bits| && AllAre(bits, start, cnt, false)
    ensures SetRange(SetRange(bits, start, cnt, true), start, cnt, false) == bits
  {
  }

  /** A fresh entry of the table of open inodes goes again when the file cannot be made. */
  lemma OpenedAndClosed(s: State, h: nat)
    requires h in s.headers && (h in s.inodes ==> s.inodes[h].openCnt >= 1)
    ensures CloseInode(OpenInode(s, h), h) == s
  {
    if h in s.inodes {
      assert OpenInode(s, h).inodes[h := s.inodes[h]] == s.inodes;
    } else {
      assert OpenInode(s, h).inodes - {h} == s.inodes;
    }
  }

  lemma MarkedAndReleased(bits: seq<bool>, h: nat)
    requires h < |bits| && !bits[h]
    ensures SetRange(SetRange(bits, h, 1, true), h, 1, false) == bits
  {
  }

  lemma WrittenIsWriteDisk(before: seq<Bytes>, after: seq<Bytes>, e: Extent, data: Bytes, n: nat, offset: nat)
    requires WholeSectors(before) && OnDisk(before, e) && n <= |data| && WrittenTo(before, after, e, data, n, offset)
    ensures after == WriteDisk(before, e, data, n, offset)
  {
    var w := WriteDisk(before, e, data, n, offset);
    forall k | 0 <= k < |before| ensures after[k] == w[k] {
      if e.start <= k < e.start + Sectors(e.length) {
        forall j | 0 <= j < 512 ensures after[k][j] == w[k][j] {
          var p := (k - e.start) * 512 + j;
          assert p / 512 == k - e.start && p % 512 == j;
          assert ByteAt(after, e.start, p) ==
            if offset <= p < offset + n then data[p - offset] else ByteAt(before, e.start, p);
        }
      }
    }
  }

  class FileSys {
    const freeMap: Bitmap
    const disk: array<Bytes>
    const dir: array<Entry>
    var headers: map<nat, Extent>
    var openInodes: seq<nat>
    var inodes: map<nat, Inode>
    var files: map<nat, File>
    ghost var leaked: set<nat>

    /** The list open_inodes has the inodes that are in memory, once each. */
    ghost predicate Shape()
      reads this, freeMap, freeMap.bits
    {
      && freeMap.Valid() && freeMap.bitCnt == disk.Length && dir.Length == 16
      && NoDup(openInodes) && forall h :: h in openInodes <==> h in inodes
    }

    ghost function Now(): State
      requires Shape()
      reads this, freeMap, freeMap.bits, disk, dir
    {
      State(freeMap.View(), disk[..], headers, dir[..], inodes, files, leaked)
    }

    ghost predicate Valid()
      reads this, freeMap, freeMap.bits, disk, dir
    {
      Shape() && Inv(Now())
    }

    /** A blank disk, and the bitmap_create of free_map_init. */
    constructor (size: nat)
      ensures Shape() && freeMap.View() == seq(size, _ => false) && disk[..] == seq(size, _ => ZeroSector())
      ensures dir[..] == seq(16, _ => Entry(false, "", 0)) && headers == map[] && inodes == map[] && files == map[]
        && leaked == {}
    {
      freeMap := new Bitmap(size);
      disk := new Bytes[size](_ => seq(512, _ => 0));
      dir := new Entry[16](_ => Entry(false, "", 0));
      openInodes, headers, inodes, files, leaked := [], map[], map[], map[], {};
    }

    /** The rest of free_map_init, and do_format, on a disk that has room for the free map and the root directory. */
    method Format(size: nat)
      requires FileSystem.Format(size).Some? && Shape() && freeMap.View() == seq(size, _ => false)
      requires disk[..] == seq(size, _ => ZeroSector()) && dir[..] == seq(16, _ => Entry(false, "", 0))
      requires headers == map[] && inodes == map[] && files == map[] && leaked == {}
      modifies freeMap.bits, disk, this`headers
      ensures Valid() && Now() == FileSystem.Format(size).value
    {
      FormatEstablishesInv(size);
      FirstTwo(seq(size, _ => false));
      freeMap.Mark(0);
      freeMap.Mark(1);
      CreateSystemFiles(size);
    }

    lemma FirstTwo(bits: seq<bool>)
      requires |bits| >= 2
      ensures bits[0 := true][1 := true] == SetRange(bits, 0, 2, true)
    {
    }

    /** free_map_create and dir_create, on a blank disk. */
    method CreateSystemFiles(size: nat)
      requires Shape() && FileSystem.Format(size).Some? && freeMap.View() == SetRange(seq(size, _ => false), 0, 2, true)
      requires disk[..] == seq(size, _ => ZeroSector()) && headers == map[]
      modifies freeMap.bits, disk, this`headers
      ensures Shape() && freeMap.View() == FileSystem.Format(size).value.bits && disk[..] == old(disk[..])
      ensures headers == FileSystem.Format(size).value.headers
    {
      ghost var blank := disk[..];
      BlankStaysBlank(blank);
      var map0 := InodeCreate(0, (size + 63) / 64 * 8, Choice(true, true, true, true, 16, 16, true));
      var dir0 := InodeCreate(1, 320, Choice(true, true, true, true, 16, 16, true));
    }

    lemma BlankStaysBlank(disk: seq<Bytes>)
      requires forall i :: 0 <= i < |disk| ==> disk[i] == ZeroSector()
      ensures forall a: nat, n: nat :: Zeroed(disk, a, n) == disk
    {
    }

    // ---------- free-map.c ----------

    /** free_map_allocate; "written" says whether the map's file could be written. */
    method FreeMapAllocate(cnt: nat, written: bool) returns (r: Option<nat>)
      requires Shape()
      modifies freeMap.bits
      ensures Shape() && r == if written then FirstFit(old(freeMap.View()), cnt) else None
      ensures freeMap.View() ==
        if r.Some? then SetRange(old(freeMap.View()), r.value, cnt, true) else old(freeMap.View())
    {
      ghost var before := freeMap.View();
      r := freeMap.ScanAndFlip(0, cnt, false);
      FirstRunIsFirstFit(before, cnt, r);
      if r.Some? {
        if !written {
          MarksBack(before, r.value, cnt);
          freeMap.SetMultiple(r.value, cnt, false);
          r := None;
        }
      }
    }

    /** free_map_release */
    method FreeMapRelease(sector: nat, cnt: nat)
      requires Shape() && sector + cnt <= freeMap.bitCnt && AllAre(freeMap.View(), sector, cnt, true)
      modifies freeMap.bits
      ensures Shape() && freeMap.View() == SetRange(old(freeMap.View()), sector, cnt, false)
    {
      freeMap.SetMultiple(sector, cnt, false);
    }

    // ---------- directory.c ----------

    /** lookup; "upTo" entries can be read. */
    method FindName(name: string, upTo: nat) returns (slot: Option<nat>)
      ensures slot == Lookup(dir[..], name, upTo)
    {
      var i := 0;
      ghost var seen := Seen(dir[..], upTo);
      while i < dir.Length && i < upTo
        invariant i <= |seen| && Lookup(dir[..], name, upTo) == LookupFrom(seen, name, i)
      {
        if dir[i].inUse && dir[i].name == name {
          return Some(i);
        }
        i := i + 1;
      }
      slot := None;
    }

    /** dir_add */
    method DirAdd(name: string, h: nat, c: Choice) returns (ok: bool)
      modifies dir
      ensures ok <==> AddSlot(old(dir[..]), name, c).Some?
      ensures dir[..] == Added(old(dir[..]), name, h, c)
    {
      if |name| == 0 || |name| > 14 {
        return false;
      }
      var slot := FindName(name, c.lookupReads);
      if slot.Some? {
        return false;
      }
      var i := FindSlot(c.slotReads);
      ok := c.entryWrites && i < dir.Length;
      if ok {
        dir[i] := Entry(true, name, h);
      }
    }

    /** The search of dir_add for a free slot; "upTo" entries can be read. */
    method FindSlot(upTo: nat) returns (i: nat)
      ensures
        var free := FreeSlot(Seen(dir[..], upTo), 0);
        i == if free.Some? then free.value else if upTo < dir.Length then upTo else dir.Length
    {
      i := 0;
      ghost var seen := Seen(dir[..], upTo);
      while i < dir.Length && i < upTo && dir[i].inUse
        invariant i <= |seen| && FreeSlot(seen, 0) == FreeSlot(seen, i)
      {
        i := i + 1;
      }
    }

    /** dir_readdir: the next entry in use, and the position after it; "upTo" entries can be read. */
    method ReadDir(pos: nat, upTo: nat) returns (r: Option<string>, next: nat)
      requires pos <= dir.Length
      ensures pos <= next <= dir.Length && next - pos <= upTo
      ensures r.Some? ==> next > pos && dir[next - 1].inUse && r.value == dir[next - 1].name
      ensures forall i :: pos <= i < (if r.Some? then next - 1 else next) ==> !dir[i].inUse
      ensures r.None? ==> next == dir.Length || next == pos + upTo
    {
      next := pos;
      while next < dir.Length && next < pos + upTo
        invariant pos <= next <= dir.Length && next <= pos + upTo && forall i :: pos <= i < next ==> !dir[i].inUse
      {
        next := next + 1;
        if dir[next - 1].inUse {
          return Some(dir[next - 1].name), next;
        }
      }
      r := None;
    }

    // ---------- inode.c ----------

    /** inode_create: the extent, zeroed, and the header. */
    method InodeCreate(h: nat, size: nat, c: Choice) returns (ok: bool)
      requires Shape()
      modifies freeMap.bits, disk, this`headers
      ensures Shape()
      ensures
        var (bits, n) := (old(freeMap.View()), Sectors(size));
        var start := FirstFit(bits, n);
        if !c.headerBuffer || start.None? || !c.mapWrites2 then !ok && Now() == old(Now())
        else ok && Now() == old(Now()).(bits := SetRange(bits, start.value, n, true),
          disk := Zeroed(old(disk[..]), start.value, n),
                                        headers := old(headers)[h := Extent(start.value, size)])
    {
      if !c.headerBuffer {
        return false;
      }
      var n := Sectors(size);
      var start := FreeMapAllocate(n, c.mapWrites2);
      if start.None? {
        return false;
      }
      headers := headers[h := Extent(start.value, size)];
      ghost var before := disk[..];
      var i := 0;
      while i < n
        invariant i <= n && start.value + n <= disk.Length && disk[..] == Zeroed(before, start.value, i)
        modifies disk
      {
        disk[start.value + i] := seq(512, _ => 0);
        i := i + 1;
      }
      ok := true;
    }

    /** inode_open: an inode that is on the list of open inodes is reopened, another one is read and put in front. */
    method InodeOpen(h: nat, memory: bool) returns (ok: bool)
      requires Shape()
      modifies this`inodes, this`openInodes
      ensures Shape() && (ok <==> h in old(inodes) || memory)
      ensures Now() == if ok then OpenInode(old(Now()), h) else old(Now())
    {
      var i := 0;
      while i < |openInodes|
        invariant i <= |openInodes| && h !in openInodes[..i]
      {
        if openInodes[i] == h {
          inodes := inodes[h := inodes[h].(openCnt := inodes[h].openCnt + 1)];
          return true;
        }
        i := i + 1;
      }
      if memory {
        NoDupCons(h, openInodes);
        openInodes := [h] + openInodes;
        inodes := inodes[h := Inode(1, false, 0)];
      }
      ok := memory;
    }

    /** The sectors of the inode are in use, as free_map_release asserts. */
    ghost predicate SpaceHeld(h: nat)
      requires Shape()
      reads this, freeMap, freeMap.bits
    {
      h in headers &&
      var (e, bits) := (headers[h], freeMap.View());
      && h < |bits| && bits[h] && e.start + Sectors(e.length) <= |bits|
        && AllAre(bits, e.start, Sectors(e.length), true)
      && !(e.start <= h < e.start + Sectors(e.length))
    }

    ghost predicate CanClose(h: nat)
      requires Shape()
      reads this, freeMap, freeMap.bits
    {
      h in inodes && h in headers && inodes[h].openCnt >= 1
        && (inodes[h].openCnt == 1 && inodes[h].removed ==> SpaceHeld(h))
    }

    /** inode_close */
    method InodeClose(h: nat)
      requires Shape() && CanClose(h)
      modifies freeMap.bits, this`inodes, this`openInodes, this`headers
      ensures Shape() && Now() == CloseInode(old(Now()), h)
    {
      var node := inodes[h];
      if node.openCnt - 1 == 0 {
        ForgetInode(h);
        if node.removed {
          ReleaseInode(h);
        }
      } else {
        inodes := inodes[h := node.(openCnt := node.openCnt - 1)];
      }
    }

    /** The inode leaves the list of open inodes. */
    method ForgetInode(h: nat)
      requires Shape() && h in inodes
      modifies this`inodes, this`openInodes
      ensures Shape() && Now() == old(Now()).(inodes := old(inodes) - {h})
    {
      WithoutMembers(openInodes, h);
      openInodes := Without(openInodes, h);
      inodes := inodes - {h};
    }

    /** The two calls of free_map_release in inode_close. */
    method ReleaseInode(h: nat)
      requires Shape() && SpaceHeld(h)
      modifies freeMap.bits
      ensures Shape() && Now() == Release(old(Now()), h)
    {
      var e := headers[h];
      FreeMapRelease(h, 1);
      FreeMapRelease(e.start, Sectors(e.length));
    }

    // ---------- file.c ----------

    /** file_open for an inode that is open: without memory the inode is closed again. */
    method FileOpen(h: nat, fd: nat, memory: bool)
      requires Shape() && CanClose(h)
      modifies freeMap.bits, this`inodes, this`openInodes, this`headers, this`files
      ensures Shape()
      ensures Now() ==
        if memory then old(Now()).(files := old(files)[fd := File(h, 0, false)]) else CloseInode(old(Now()), h)
    {
      if memory {
        files := files[fd := File(h, 0, false)];
      } else {
        InodeClose(h);
      }
    }

    /** file_deny_write, with the assertion of inode_deny_write. */
    method FileDenyWrite(fd: nat)
      requires Valid() && IsOpen(Now(), fd)
      modifies this`files, this`inodes
      ensures Valid() && Now() == DenyWrite(old(Now()), fd)
    {
      DenyKeepsInv(Now(), fd, true);
      DenyAsserts(Now(), fd);
      DenyOpenFile(fd);
    }

    /** The assertions of inode_deny_write and inode_allow_write hold. */
    lemma DenyAsserts(s: State, fd: nat)
      requires Inv(s) && IsOpen(s, fd)
      ensures
        var (f, node) := (s.files[fd], s.inodes[s.files[fd].inode]);
        && node.openCnt >= 1 && (!f.deny ==> node.denyCnt + 1 <= node.openCnt)
        && (f.deny ==> 0 < node.denyCnt <= node.openCnt)
    {
      var h := s.files[fd].inode;
      DeniedAtMostOpen(s, h);
      assert InodeOk(s, h) && fd in Openers(s.files, h);
      assert s.files[fd].deny <==> fd in Deniers(s.files, h);
    }

    method DenyOpenFile(fd: nat)
      requires Shape() && IsOpen(Now(), fd)
      requires !files[fd].deny ==> inodes[files[fd].inode].denyCnt + 1 <= inodes[files[fd].inode].openCnt
      modifies this`files, this`inodes
      ensures Shape() && Now() == DenyWrite(old(Now()), fd)
    {
      var f := files[fd];
      if !f.deny {
        files := files[fd := f.(deny := true)];
        inodes := inodes[f.inode := inodes[f.inode].(denyCnt := inodes[f.inode].denyCnt + 1)];
        assert inodes[f.inode].denyCnt <= inodes[f.inode].openCnt;
      }
    }

    /** file_allow_write, with the assertions of inode_allow_write. */
    method FileAllowWrite(fd: nat)
      requires Valid() && IsOpen(Now(), fd)
      modifies this`files, this`inodes
      ensures Valid() && Now() == AllowWrite(old(Now()), fd)
    {
      DenyKeepsInv(Now(), fd, false);
      DenyAsserts(Now(), fd);
      AllowOpenFile(fd);
    }

    method AllowOpenFile(fd: nat)
      requires Shape() && IsOpen(Now(), fd)
      requires files[fd].deny ==> 0 < inodes[files[fd].inode].denyCnt <= inodes[files[fd].inode].openCnt
      modifies this`files, this`inodes
      ensures Shape() && Now() == AllowWrite(old(Now()), fd)
    {
      var f := files[fd];
      if f.deny {
        files := files[fd := f.(deny := false)];
        assert 0 < inodes[f.inode].denyCnt <= inodes[f.inode].openCnt;
        inodes := inodes[f.inode := inodes[f.inode].(denyCnt := inodes[f.inode].denyCnt - 1)];
      }
    }

    lemma LiveIsHeld(s: State, h: nat)
      requires Shape() && Inv(s) && Live(s, h) && s.bits == freeMap.View() && s.headers == headers
      ensures SpaceHeld(h)
    {
      assert SectorsOk(s, h) && Owns(s, h, h);
      var e := headers[h];
      forall x | e.start <= x < e.start + Sectors(e.length) ensures s.bits[x] { assert Owns(s, h, x); }
    }

    /** file_close */
    method FileClose(fd: nat)
      requires Valid() && IsOpen(Now(), fd)
      modifies freeMap.bits, this`inodes, this`openInodes, this`headers, this`files
      ensures Valid() && Now() == Close(old(Now()), fd)
    {
      CloseKeepsInv(Now(), fd);
      DenyAsserts(Now(), fd);
      assert InodeOk(Now(), files[fd].inode);
      LiveIsHeld(Now(), files[fd].inode);
      CloseOpenFile(fd);
    }

    method CloseOpenFile(fd: nat)
      requires Shape() && IsOpen(Now(), fd) && SpaceHeld(files[fd].inode) && inodes[files[fd].inode].openCnt >= 1
      requires files[fd].deny ==> 0 < inodes[files[fd].inode].denyCnt <= inodes[files[fd].inode].openCnt
      modifies freeMap.bits, this`inodes, this`openInodes, this`headers, this`files
      ensures Shape() && Now() == Close(old(Now()), fd)
    {
      var h := files[fd].inode;
      AllowOpenFile(fd);
      files := files - {fd};
      InodeClose(h);
    }

    /** file_reopen */
    method FileReopen(fd: nat, newFd: nat, memory: bool)
      requires Valid() && IsOpen(Now(), fd) && newFd !in files
      modifies freeMap.bits, this`inodes, this`openInodes, this`headers, this`files
      ensures Valid() && Now() == Reopen(old(Now()), fd, newFd, false, memory)
    {
      ghost var s := Now();
      ReopenKeepsInv(s, fd, newFd, false, memory);
      assert InodeOk(s, files[fd].inode);
      InodeReopen(files[fd].inode);
      OpenedAndClosed(s, files[fd].inode);
      FileOpen(files[fd].inode, newFd, memory);
    }

    /** inode_reopen */
    method InodeReopen(h: nat)
      requires Shape() && h in inodes && h in headers && inodes[h].openCnt >= 1
      modifies this`inodes
      ensures Shape() && Now() == OpenInode(old(Now()), h) && CanClose(h)
    {
      inodes := inodes[h := inodes[h].(openCnt := inodes[h].openCnt + 1)];
    }

    /** file_duplicate */
    method FileDuplicate(fd: nat, newFd: nat, memory: bool)
      requires Valid() && IsOpen(Now(), fd) && newFd !in files
      modifies freeMap.bits, this`inodes, this`openInodes, this`headers, this`files
      ensures Valid() && Now() == Reopen(old(Now()), fd, newFd, true, memory)
    {
      ReopenKeepsInv(Now(), fd, newFd, true, memory);
      assert InodeOk(Now(), files[fd].inode);
      DuplicateOpenFile(fd, newFd, memory);
    }

    method DuplicateOpenFile(fd: nat, newFd: nat, memory: bool)
      requires Shape() && IsOpen(Now(), fd) && newFd !in files && inodes[files[fd].inode].openCnt >= 1
      modifies freeMap.bits, this`inodes, this`openInodes, this`headers, this`files
      ensures Shape() && Now() == Reopen(old(Now()), fd, newFd, true, memory)
    {
      ghost var s := Now();
      var f := files[fd];
      InodeReopen(f.inode);
      OpenedAndClosed(s, f.inode);
      FileOpen(f.inode, newFd, memory);
      if memory {
        CopyAttributes(f, newFd);
        assert s.files[newFd := File(f.inode, 0, false)][newFd := f] == s.files[newFd := f];
      }
    }

    /** What file_duplicate does to the new file. */
    method CopyAttributes(f: File, newFd: nat)
      requires Shape() && newFd in files && files[newFd] == File(f.inode, 0, false) && f.inode in inodes
      modifies this`inodes, this`files
      ensures Shape()
      ensures files == old(files)[newFd := f]
      ensures inodes == if f.deny
        then old(inodes)[f.inode := old(inodes)[f.inode].(denyCnt := old(inodes)[f.inode].denyCnt + 1)]
        else old(inodes)
    {
      files := files[newFd := files[newFd].(pos := f.pos)];
      if f.deny {
        files := files[newFd := files[newFd].(deny := true)];
        inodes := inodes[f.inode := inodes[f.inode].(denyCnt := inodes[f.inode].denyCnt + 1)];
      }
    }

    /** file_write; without the bounce buffer less may get through. */
    method FileWrite(fd: nat, data: Bytes, bounce: bool) returns (n: nat)
      requires Valid() && IsOpen(Now(), fd)
      modifies disk, this`files
      ensures n <= |data| && n <= old(Limit(Now(), fd, data)) && (bounce ==> n == old(Limit(Now(), fd, data)))
      ensures Valid() && Now() == Write(old(Now()), fd, data, n)
    {
      ghost var s := Now();
      OpenIsLive(s, fd);
      n := WriteOpenFile(fd, data, bounce);
      MoveKeepsInv(s, Write(s, fd, data, n), fd, s.files[fd].pos + n);
    }

    method WriteOpenFile(fd: nat, data: Bytes, bounce: bool) returns (n: nat)
      requires Shape() && IsOpen(Now(), fd) && WholeSectors(disk[..]) && OnDisk(disk[..], headers[files[fd].inode])
      modifies disk, this`files
      ensures n <= |data| && n <= old(Limit(Now(), fd, data)) && (bounce ==> n == old(Limit(Now(), fd, data)))
      ensures Shape() && Now() == Write(old(Now()), fd, data, n)
    {
      var f := files[fd];
      var e := headers[f.inode];
      n := WriteAt(disk, e, data, |data|, f.pos, inodes[f.inode].denyCnt > 0, bounce);
      WrittenIsWriteDisk(old(disk[..]), disk[..], e, data, n, f.pos);
      files := files[fd := f.(pos := f.pos + n)];
    }

    /** file_read: what follows the position in the contents, up to the end of the file; without the bounce buffer
        perhaps less. */
    method FileRead(fd: nat, size: nat, bounce: bool) returns (data: Bytes)
      requires Valid() && IsOpen(Now(), fd)
      modifies this`files
      ensures Valid() && Now() == Moved(old(Now()), fd, |data|)
      ensures ReadsNext(old(Now()), fd, size, bounce, data)
    {
      ghost var s := Now();
      ReadStarts(s, fd);
      data := ReadOpenFile(fd, size, bounce, s);
      ReadEnds(s, fd, size, bounce, data);
    }

    static ghost function Moved(s: State, fd: nat, n: nat): State
      requires fd in s.files
    {
      s.(files := s.files[fd := s.files[fd].(pos := s.files[fd].pos + n)])
    }

    /** What was read are the next bytes of the file's contents. */
    static ghost predicate ReadsNext(s: State, fd: nat, size: nat, bounce: bool, data: Bytes) {
      && Inv(s) && IsOpen(s, fd) && Live(s, s.files[fd].inode)
      && IsNext(FileContent(s, s.files[fd].inode), s.files[fd].pos, size, bounce, data)
    }

    static lemma ReadStarts(s: State, fd: nat)
      requires Inv(s) && IsOpen(s, fd)
      ensures WholeSectors(s.disk) && OnDisk(s.disk, s.headers[s.files[fd].inode])
    {
      OpenIsLive(s, fd);
    }

    static lemma ReadEnds(s: State, fd: nat, size: nat, bounce: bool, data: Bytes)
      requires Inv(s) && IsOpen(s, fd) && WholeSectors(s.disk) && OnDisk(s.disk, s.headers[s.files[fd].inode])
      requires IsNext(Content(s.disk, s.headers[s.files[fd].inode]), s.files[fd].pos, size, bounce, data)
      ensures Inv(Moved(s, fd, |data|)) && ReadsNext(s, fd, size, bounce, data)
    {
      OpenIsLive(s, fd);
      MoveKeepsInv(s, Moved(s, fd, |data|), fd, s.files[fd].pos + |data|);
    }

    /** What a read returns. */
    static ghost predicate IsNext(c: Bytes, pos: nat, size: nat, bounce: bool, data: Bytes) {
      && data <= (if pos >= |c| then [] else c[pos..])
      && (bounce ==> |data| == if pos >= |c| then 0 else if pos + size < |c| then size else |c| - pos)
    }

    method ReadOpenFile(fd: nat, size: nat, bounce: bool, ghost s: State) returns (data: Bytes)
      requires Shape() && s == Now() && IsOpen(s, fd)
      requires WholeSectors(s.disk) && OnDisk(s.disk, s.headers[s.files[fd].inode])
      modifies this`files
      ensures Shape() && Now() == Moved(s, fd, |data|)
      ensures IsNext(Content(s.disk, s.headers[s.files[fd].inode]), s.files[fd].pos, size, bounce, data)
    {
      var f := files[fd];
      data := ReadAt(disk, headers[f.inode], size, f.pos, bounce);
      files := files[fd := f.(pos := f.pos + |data|)];
    }

    // ---------- filesys.c ----------

    /** filesys_create.  What AddIsSoundExactly says of dir_add is what the invariant needs. */
    method Create(name: string, size: nat, c: Choice) returns (ok: bool)
      requires Valid()
      modifies freeMap.bits, disk, dir, this`headers, this`leaked
      ensures Shape() && (Now(), ok) == FileSystem.Create(old(Now()), name, size, c)
      ensures old(ReadsFar(dir[..], name, c)) ==> Valid()
    {
      if ReadsFar(dir[..], name, c) {
        CreateKeepsInv(Now(), name, size, c);
      }
      SystemInodes(Now());
      ok := CreateFile(name, size, c);
    }

    method CreateFile(name: string, size: nat, c: Choice) returns (ok: bool)
      requires Shape() && freeMap.bitCnt > 0 && freeMap.View()[0]
      modifies freeMap.bits, disk, dir, this`headers, this`leaked
      ensures Shape() && (Now(), ok) == FileSystem.Create(old(Now()), name, size, c)
    {
      if !c.dirOpens {
        return false;
      }
      ghost var s := Now();
      var header := FreeMapAllocate(1, c.mapWrites1);
      if header.None? {
        return false;
      }
      assert AllAre(s.bits, header.value, 1, false) && !s.bits[header.value];
      ok := CreateAt(header.value, name, size, c, s);
    }

    /** filesys_create, once the header has its sector; "s" is the state before. */
    method CreateAt(h: nat, name: string, size: nat, c: Choice, ghost s: State) returns (ok: bool)
      requires Shape() && 0 < h < |s.bits| && !s.bits[h] && Now() == s.(bits := SetRange(s.bits, h, 1, true))
      requires c.dirOpens && c.mapWrites1 && FirstFit(s.bits, 1) == Some(h)
      modifies freeMap.bits, disk, dir, this`headers, this`leaked
      ensures Shape() && (Now(), ok) == FileSystem.Create(s, name, size, c)
    {
      var made := InodeCreate(h, size, c);
      if !made {
        MarkedAndReleased(s.bits, h);
        FreeMapRelease(h, 1);
        return false;
      }
      ok := DirAdd(name, h, c);
      if !ok && h != 0 {
        FreeMapRelease(h, 1);
        leaked := leaked + Range(headers[h].start, Sectors(size));
      }
    }

    /** filesys_open */
    method Open(name: string, fd: nat, upTo: nat, dirOpens: bool, inodeMemory: bool, fileMemory: bool)
      requires Valid() && fd !in files
      modifies freeMap.bits, this`inodes, this`openInodes, this`headers, this`files
      ensures Valid()
      ensures
        var s := old(Now());
        var found := Lookup(s.dir, name, upTo);
        var memory := dirOpens && fileMemory && (inodeMemory || (found.Some? && s.dir[found.value].sector in s.inodes));
        Now() == FileSystem.Open(s, name, fd, upTo, memory)
    {
      OpenKeepsInv(Now(), name, fd, upTo, true);
      if !dirOpens {
        return;
      }
      var slot := FindName(name, upTo);
      if slot.None? {
        return;
      }
      NamedInode(Now(), slot.value);
      OpenAt(dir[slot.value].sector, fd, inodeMemory, fileMemory);
    }

    /** filesys_open, once the name is found. */
    method OpenAt(h: nat, fd: nat, inodeMemory: bool, fileMemory: bool)
      requires Shape() && h in headers && (h in inodes ==> inodes[h].openCnt >= 1 && !inodes[h].removed)
      modifies freeMap.bits, this`inodes, this`openInodes, this`headers, this`files
      ensures Shape()
      ensures
        var s := old(Now());
        Now() == if fileMemory && (inodeMemory || h in s.inodes)
          then OpenInode(s, h).(files := s.files[fd := File(h, 0, false)]) else s
    {
      ghost var s := Now();
      var found := InodeOpen(h, inodeMemory);
      if found {
        OpenedAndClosed(s, h);
        FileOpen(h, fd, fileMemory);
      }
    }

    /** filesys_remove, through dir_remove. */
    method Remove(name: string, upTo: nat, dirOpens: bool, inodeMemory: bool, entryWrites: bool) returns (ok: bool)
      requires Valid()
      modifies freeMap.bits, dir, this`inodes, this`openInodes, this`headers
      ensures Valid()
      ensures
        var s := old(Now());
        var found := Lookup(s.dir, name, upTo);
        var memory := dirOpens && entryWrites
          && (inodeMemory || (found.Some? && s.dir[found.value].sector in s.inodes));
        (Now(), ok) == FileSystem.Remove(s, name, upTo, memory)
    {
      RemoveKeepsInv(Now(), name, upTo, true);
      if !dirOpens {
        return false;
      }
      var slot := FindName(name, upTo);
      if slot.None? {
        return false;
      }
      NamedInode(Now(), slot.value);
      LiveIsHeld(Now(), dir[slot.value].sector);
      ok := RemoveAt(slot.value, inodeMemory, entryWrites);
    }

    /** dir_remove, once the name is found. */
    method RemoveAt(slot: nat, inodeMemory: bool, entryWrites: bool) returns (ok: bool)
      requires Shape() && slot < 16 && SpaceHeld(dir[slot].sector)
      requires dir[slot].sector in inodes ==> inodes[dir[slot].sector].openCnt >= 1
      modifies freeMap.bits, dir, this`inodes, this`openInodes, this`headers
      ensures Shape()
      ensures
        var (s, h) := (old(Now()), old(dir[slot].sector));
        var memory := entryWrites && (inodeMemory || h in s.inodes);
        ok == memory && Now() == if !memory then s
          else var s1 := OpenInode(s, h);
            CloseInode(s1.(dir := s.dir[slot := s.dir[slot].(inUse := false)],
              inodes := s1.inodes[h := s1.inodes[h].(removed := true)]), h)
    {
      ghost var s := Now();
      var h := dir[slot].sector;
      ok := InodeOpen(h, inodeMemory);
      if ok && !entryWrites {
        OpenedAndClosed(s, h);
        InodeClose(h);
        ok := false;
      } else if ok {
        Unlink(slot, h);
      }
    }

    /** The end of dir_remove: the entry is erased, the inode marked removed and closed. */
    method Unlink(slot: nat, h: nat)
      requires Shape() && slot < dir.Length && h in inodes && h in headers && inodes[h].openCnt >= 1
      requires SpaceHeld(h)
      modifies freeMap.bits, dir, this`inodes, this`openInodes, this`headers
      ensures Shape()
      ensures
        var s := old(Now());
        Now() == CloseInode(s.(dir := s.dir[slot := s.dir[slot].(inUse := false)],
          inodes := s.inodes[h := s.inodes[h].(removed := true)]), h)
    {
      dir[slot] := dir[slot].(inUse := false);
      inodes := inodes[h := inodes[h].(removed := true)];
      InodeClose(h);
    }
  }
}
