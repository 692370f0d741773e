/** The data of an inode in filesys/inode.c: reads and writes by sector chunks on a disk of 512-byte
    sectors, as reads and writes of one flat sequence of bytes. */
module InodeData {

  type Bytes = seq<int>

  /** bytes_to_sectors */
  function Sectors(length: nat): nat { (length + 511) / 512 }

  /** The data part of an inode: its first sector and its length in bytes. */
  datatype Extent = Extent(start: nat, length: nat)

  ghost predicate OnDisk(disk: seq<Bytes>, e: Extent) {
    e.start + Sectors(e.length) <= |disk|
  }

  ghost predicate WholeSectors(disk: seq<Bytes>) {
    forall k :: 0 <= k < |disk| ==> |disk[k]| == 512
  }

  /** The byte at an offset of the extent's sectors, through byte_to_sector. */
  ghost function ByteAt(disk: seq<Bytes>, start: nat, p: nat): int
    requires WholeSectors(disk) && start + p / 512 < |disk|
  {
    disk[start + p / 512][p % 512]
  }

  /** What the file contains. */
  ghost function Content(disk: seq<Bytes>, e: Extent): (r: Bytes)
    requires WholeSectors(disk) && OnDisk(disk, e)
    ensures |r| == e.length && forall p :: 0 <= p < e.length ==> r[p] == ByteAt(disk, e.start, p)
  {
    seq(e.length, p requires 0 <= p < e.length => ByteAt(disk, e.start, p))
  }

  /** How many bytes a transfer of "size" bytes at "offset" has. */
  function Transfer(e: Extent, size: int, offset: nat): nat {
    if size <= 0 || offset >= e.length then 0 else if size < e.length - offset then size else e.length - offset
  }

  /** The chunk that one turn of the loops of inode_read_at and inode_write_at transfers. */
  function Chunk(e: Extent, size: int, offset: nat): int {
    var inodeLeft := e.length - offset;
    var sectorLeft := 512 - offset % 512;
    var minLeft := if inodeLeft < sectorLeft then inodeLeft else sectorLeft;
    if size < minLeft then size else minLeft
  }

  /** A chunk stays in one sector, and is positive exactly while something is left to transfer. */
  lemma ChunkFits(e: Extent, size: int, offset: nat)
    ensures Chunk(e, size, offset) > 0 <==> Transfer(e, size, offset) > 0
    ensures Chunk(e, size, offset) > 0 ==>
      var c := Chunk(e, size, offset);
      && c <= Transfer(e, size, offset) && offset % 512 + c <= 512 && offset / 512 < Sectors(e.length)
      && Transfer(e, size - c, offset + c) == Transfer(e, size, offset) - c
  {
  }

  lemma SameSector(offset: nat, k: nat)
    requires offset % 512 + k < 512
    ensures (offset + k) / 512 == offset / 512 && (offset + k) % 512 == offset % 512 + k
  {
  }

  /** A sector with a chunk put in. */
  function Patched(sector: Bytes, o: nat, chunk: Bytes): Bytes
    requires o + |chunk| <= |sector|
  {
    sector[..o] + chunk + sector[o + |chunk|..]
  }

  /** inode_read_at.  "bounce" says whether the bounce buffer can be had; without it the transfer stops before
      the first chunk that is not a whole sector. */
  method ReadAt(disk: array<Bytes>, e: Extent, size: int, offset: nat, bounce: bool) returns (data: Bytes)
    requires WholeSectors(disk[..]) && OnDisk(disk[..], e)
    ensures |data| <= Transfer(e, size, offset) && (bounce ==> |data| == Transfer(e, size, offset))
    ensures |data| > 0 ==> data == Content(disk[..], e)[offset..offset + |data|]
  {
    data := [];
    var (left, ofs) := (size, offset);
    while left > 0
      invariant ofs == offset + |data| && left == size - |data|
      invariant |data| + Transfer(e, left, ofs) == Transfer(e, size, offset)
      invariant forall k :: 0 <= k < |data| ==>
        offset + k < e.length && data[k] == ByteAt(disk[..], e.start, offset + k)
      decreases left
    {
      var chunk := Chunk(e, left, ofs);
      ChunkFits(e, left, ofs);
      if chunk <= 0 {
        break;
      }
      var (sector, sectorOfs) := (e.start + ofs / 512, ofs % 512);
      ghost var before := data;
      if sectorOfs == 0 && chunk == 512 {
        data := data + disk[sector];
      } else {
        if !bounce {
          break;
        }
        data := data + disk[sector][sectorOfs..sectorOfs + chunk];
      }
      forall k | |before| <= k < |data|
        ensures offset + k < e.length && data[k] == ByteAt(disk[..], e.start, offset + k)
      {
        SameSector(ofs, k - |before|);
        assert data[k] == disk[sector][sectorOfs + (k - |before|)];
      }
      left := left - chunk;
      ofs := ofs + chunk;
    }
    if |data| > 0 {
      assert data == Content(disk[..], e)[offset..offset + |data|];
    }
  }

  /** The disk after "n" bytes of "data" have been written at "offset": those bytes of the extent are new, every
      other byte of it and every other sector is as before. */
  ghost predicate WrittenTo(before: seq<Bytes>, after: seq<Bytes>, e: Extent, data: Bytes, n: nat, offset: nat)
    requires WholeSectors(before) && OnDisk(before, e) && n <= |data|
  {
    && WholeSectors(after) && |after| == |before|
    && (forall k :: 0 <= k < |before| && !(e.start <= k < e.start + Sectors(e.length)) ==> after[k] == before[k])
    && (forall p :: 0 <= p < Sectors(e.length) * 512 ==>
          ByteAt(after, e.start, p) ==
            if offset <= p < offset + n then data[p - offset] else ByteAt(before, e.start, p))
  }

  /** Writing one more chunk, within one sector. */
  lemma WriteChunk(before: seq<Bytes>, now: seq<Bytes>, e: Extent, data: Bytes, n: nat, offset: nat, c: nat)
    requires WholeSectors(before) && OnDisk(before, e) && n + c <= |data| && WrittenTo(before, now, e, data, n, offset)
    requires c > 0 && (offset + n) % 512 + c <= 512 && (offset + n) / 512 < Sectors(e.length)
    ensures
      var (k, o) := (e.start + (offset + n) / 512, (offset + n) % 512);
      WrittenTo(before, now[k := Patched(now[k], o, data[n..n + c])], e, data, n + c, offset)
  {
    var (k, o) := (e.start + (offset + n) / 512, (offset + n) % 512);
    var s := Patched(now[k], o, data[n..n + c]);
    var after := now[k := s];
    assert |s| == 512;
    assert WholeSectors(after);
    forall p | 0 <= p < Sectors(e.length) * 512
      ensures ByteAt(after, e.start, p) ==
        if offset <= p < offset + n + c then data[p - offset] else ByteAt(before, e.start, p)
    {
      assert ByteAt(now, e.start, p) ==
        if offset <= p < offset + n then data[p - offset] else ByteAt(before, e.start, p);
      if e.start + p / 512 == k {
        assert p == (offset + n) - o + p % 512;
      }
    }
  }

  /** The disk_write of one turn of inode_write_at: straight from the buffer, or through the bounce buffer.  A
      chunk that does not fill its sector is put into what was there; the source's other case, a bounce buffer
      of zeros, would need a chunk that does. */
  method StoreChunk(disk: array<Bytes>, sector: nat, sectorOfs: nat, chunk: Bytes, bounce: bool) returns (written: bool)
    requires sector < disk.Length && |disk[sector]| == 512 && sectorOfs + |chunk| <= 512
    modifies disk
    ensures written <==> |chunk| == 512 || bounce
    ensures disk[..] ==
      if written then old(disk[..])[sector := Patched(old(disk[sector]), sectorOfs, chunk)] else old(disk[..])
  {
    written := true;
    if sectorOfs == 0 && |chunk| == 512 {
      assert Patched(disk[sector], 0, chunk) == chunk;
      disk[sector] := chunk;
    } else if bounce {
      disk[sector] := Patched(disk[sector], sectorOfs, chunk);
    } else {
      written := false;
    }
  }

  /** inode_write_at. */
  method WriteAt(disk: array<Bytes>, e: Extent, buffer: Bytes, size: int, offset: nat, denied: bool, bounce: bool)
      returns (n: nat)
    requires WholeSectors(disk[..]) && OnDisk(disk[..], e) && size <= |buffer|
    modifies disk
    ensures n <= Transfer(e, size, offset) && (denied ==> n == 0)
      && (!denied && bounce ==> n == Transfer(e, size, offset))
    ensures n <= |buffer| && WrittenTo(old(disk[..]), disk[..], e, buffer, n, offset)
  {
    n := 0;
    if denied {
      return;
    }
    ghost var before := disk[..];
    var (left, ofs) := (size, offset);
    while left > 0
      invariant ofs == offset + n && left == size - n && (n > 0 ==> n <= |buffer|) && n <= |buffer|
      invariant n + Transfer(e, left, ofs) == Transfer(e, size, offset)
      invariant WrittenTo(before, disk[..], e, buffer, n, offset)
      decreases left
    {
      var chunk := Chunk(e, left, ofs);
      ChunkFits(e, left, ofs);
      if chunk <= 0 {
        break;
      }
      WriteChunk(before, disk[..], e, buffer, n, offset, chunk);
      var written := StoreChunk(disk, e.start + ofs / 512, ofs % 512, buffer[n..n + chunk], bounce);
      if !written {
        break;
      }
      left := left - chunk;
      ofs := ofs + chunk;
      n := n + chunk;
    }
  }

  /** A write updates the contents as one flat sequence. */
  lemma WriteUpdatesContent(before: seq<Bytes>, after: seq<Bytes>, e: Extent, data: Bytes, n: nat, offset: nat)
    requires WholeSectors(before) && OnDisk(before, e) && n <= |data| && WrittenTo(before, after, e, data, n, offset)
    requires n > 0 ==> offset + n <= e.length
    ensures n > 0 ==> Content(after, e) == Content(before, e)[..offset] + data[..n] + Content(before, e)[offset + n..]
    ensures n == 0 ==> Content(after, e) == Content(before, e)
  {
    assert e.length <= Sectors(e.length) * 512;
    forall p | 0 <= p < e.length
      ensures Content(after, e)[p] == if offset <= p < offset + n then data[p - offset] else Content(before, e)[p]
    {
      assert ByteAt(after, e.start, p) ==
        if offset <= p < offset + n then data[p - offset] else ByteAt(before, e.start, p);
    }
  }

  /** A write leaves the contents of every extent that shares no sector alone. */
  lemma WriteLeavesOthers(before: seq<Bytes>, after: seq<Bytes>, e: Extent, data: Bytes, n: nat, offset: nat, f: Extent)
    requires WholeSectors(before) && OnDisk(before, e) && n <= |data| && WrittenTo(before, after, e, data, n, offset)
    requires OnDisk(before, f)
    requires f.start + Sectors(f.length) <= e.start || e.start + Sectors(e.length) <= f.start
    ensures Content(after, f) == Content(before, f)
  {
    forall p | 0 <= p < f.length ensures Content(after, f)[p] == Content(before, f)[p] {
      assert f.start + p / 512 < f.start + Sectors(f.length);
    }
  }

  /** Reading back what was just written, for any size and alignment. */
  method WriteThenRead(disk: array<Bytes>, e: Extent, buffer: Bytes, offset: nat) returns (data: Bytes)
    requires WholeSectors(disk[..]) && OnDisk(disk[..], e)
    modifies disk
    ensures data == buffer[..Transfer(e, |buffer|, offset)]
  {
    ghost var before := disk[..];
    var n := WriteAt(disk, e, buffer, |buffer|, offset, false, true);
    WriteUpdatesContent(before, disk[..], e, buffer, n, offset);
    data := ReadAt(disk, e, |buffer|, offset, true);
  }
}
