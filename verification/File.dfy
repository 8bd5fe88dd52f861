// file.c: reading and writing through an open file, a few blocks to a transaction.
module File {
  import opened Basics
  import opened Blocks
  import opened FsBitmap
  import opened FsTree
  import opened FsLink
  import opened FsFile
  import opened FsInode
  import opened FsTrunc
  import opened FsCount
  import opened Fs
  import RedoLog

  // Two writes, one after the other, are one write.
  lemma {:induction false} WrittenOn(d0: Disk, i0: Inodes, d1: Disk, i1: Inodes, d2: Disk, i2: Inodes, inum: nat,
      off: nat, src: seq<Byte>, tot: nat, m: nat)
    requires tot + m <= |src|
    requires Written(d0, i0, d1, i1, inum, off, src, tot) && Written(d1, i1, d2, i2, inum, off + tot, src[tot..], m)
    ensures Written(d0, i0, d2, i2, inum, off, src, tot + m)
  {
    hide ByteAt;
  }

  lemma {:induction false} InodeInside(sb: Super, disk: Disk, inodes: Inodes, inum: nat)
    requires Synced(sb, disk, inodes) && inum in inodes
    ensures sb.inodestart <= InodeBlock(sb, inum) < sb.bmapstart
  {
    hide GetInode;
    assert OnDisk(sb, disk, inodes, inum);
  }

  // struct file for an inode, with the inode's number for its pointer.
  class OpenFile {
    const fs: FileSystem
    const inum: nat
    const readable: bool
    const writable: bool
    var off: nat

    ghost predicate Valid()
      reads this, fs
    {
      fs.Valid() && inum in fs.inodes && off < UINT
    }

    constructor (fs: FileSystem, inum: nat, readable: bool, writable: bool)
      requires fs.Valid() && inum in fs.inodes
      ensures Valid() && this.fs == fs && this.inum == inum && this.readable == readable && this.writable == writable &&
        off == 0
    {
      this.fs, this.inum, this.readable, this.writable, off := fs, inum, readable, writable, 0;
    }

    // fileread: the bytes at the offset, which moves past them.
    method FileRead(n: nat) returns (r: int, dst: seq<Byte>)
      requires Valid() && n < UINT
      modifies this`off, fs
      ensures Valid() && fs.disk == old(fs.disk) && fs.inodes == old(fs.inodes) && fs.leaked == old(fs.leaked)
      ensures r == -1 <==> !readable || old(off) > fs.inodes[inum].size || old(off) + n >= UINT
      ensures r == -1 ==> off == old(off)
      ensures r != -1 ==> r == |dst| == Min(n, fs.inodes[inum].size - old(off)) && off == old(off) + r
      ensures r != -1 ==>
        forall k :: 0 <= k < r ==> old(off) + k < MAXBYTES && dst[k] == ByteAt(fs.disk, fs.inodes, inum, old(off) + k)
    {
      hide Owned, ByteAt, Backed;
      if !readable {
        return -1, [];
      }
      r, dst := fs.ReadI(inum, off, n);
      if r > 0 {
        off := off + r;
      }
    }

    // One transaction of filewrite. On a disk whose data blocks have their bits in at most two bitmap
    // blocks its log_writes fit the reservation of MAXOPBLOCKS blocks; FsScatter.WideChunk shows that on
    // every other disk there are files for which they do not.
    method WriteOp(addr: seq<Byte>, n1: nat) returns (r: int, ok: bool)
      requires Valid() && 0 < n1 <= CHUNK && n1 <= |addr|
      modifies this`off, fs
      ensures !ok ==> SuperOk(fs.sb) && |fs.disk| == fs.sb.size && Full(fs.sb, fs.disk)
      ensures ok ==> Valid() && (r == -1 || r == n1)
      ensures ok ==> (r == -1 <==> old(off) > old(fs.inodes[inum].size) || old(off) + n1 > MAXBYTES)
      ensures ok && r == -1 ==> off == old(off) && fs.disk == old(fs.disk) && fs.inodes == old(fs.inodes)
      ensures ok && r != -1 ==>
        off == old(off) + n1 && Written(old(fs.disk), old(fs.inodes), fs.disk, fs.inodes, inum, old(off), addr, n1)
      ensures ok && r != -1 ==> fs.inodes[inum].size == Max(old(fs.inodes[inum].size), off)
      ensures SuperOk(fs.sb) && |old(fs.disk)| == fs.sb.size
      ensures !fs.Refused(old(fs.inodes[inum].size), old(off), n1) ==>
        (ok <==> |fs.Needed(old(fs.disk), old(fs.inodes), inum, old(off), n1)| <= |FreeBlocks(fs.sb, old(fs.disk))|)
      ensures fs.Refused(old(fs.inodes[inum].size), old(off), n1) ==> ok && r == -1
      ensures ok && r != -1 ==>
        && old(off) + n1 <= MAXBYTES && Past(old(off), n1) <= MAXFILE && inum in old(fs.inodes)
        && fs.inodes.Keys == old(fs.inodes.Keys)
        && SamePtrs(old(fs.disk), old(fs.inodes), fs.disk, fs.inodes, inum,
           SlotsOf(old(off) / BSIZE, Past(old(off), n1)))
        && fs.Needed(fs.disk, fs.inodes, inum, old(off), n1) == {} && fs.leaked == old(fs.leaked)
        && |FreeBlocks(fs.sb, fs.disk)| == |FreeBlocks(fs.sb, old(fs.disk))| -
           |fs.Needed(old(fs.disk), old(fs.inodes), inum, old(off), n1)|
      ensures ok ==> AllLogged(old(fs.disk), {}, fs.disk, fs.logged)
      ensures ok ==> |fs.logged| <= 4 + 3 + 1 + |BitmapBlocks(fs.sb, fs.logged)|
      ensures ok && Narrow(fs.sb) ==> |fs.logged| <= RedoLog.MAXOPBLOCKS
      ensures ok ==> forall b :: b in fs.logged ==> fs.sb.inodestart <= b < fs.sb.size
    {
      hide Owned, Written, Backed, LoggedOnly, Touched, SlotsOf, Synced, AllLogged;
      hide SamePtrs, Missing, Past, FreeBlocks, InUse;
      fs.BeginOp();
      r, ok := fs.WriteI(inum, addr, off, n1);
      if !ok {
        return;
      }
      if Narrow(fs.sb) { BitmapFew(fs.sb, 2, fs.logged); }
      if r > 0 {
        InodeInside(fs.sb, fs.disk, fs.inodes, inum);
        ChunkFits(fs.sb, fs.disk, fs.inodes, inum, off, n1, fs.logged, InodeBlock(fs.sb, inum));
        LoggedHome(fs.sb, fs.disk, fs.inodes, fs.owner, fs.leaked, inum, SlotsOf(off / BSIZE, Past(off, n1)),
          fs.logged, InodeBlock(fs.sb, inum));
        off := off + r;
      }
    }

    // filewrite: chunk after chunk until done, or until writei refuses one; what was written before
    // stays. "short filewrite" cannot happen: writei writes all of a chunk or nothing.
    method FileWrite(addr: seq<Byte>, n: int) returns (r: int, ok: bool)
      requires Valid() && n <= |addr|
      modifies this`off, fs
      ensures !writable ==> ok && r == -1 && off == old(off) && fs.disk == old(fs.disk) && fs.inodes == old(fs.inodes)
      ensures !ok ==> SuperOk(fs.sb) && |fs.disk| == fs.sb.size && Full(fs.sb, fs.disk)
      ensures ok ==> Valid() && old(off) <= off <= old(off) + Max(n, 0)
      ensures ok ==> Written(old(fs.disk), old(fs.inodes), fs.disk, fs.inodes, inum, old(off), addr, off - old(off))
      ensures ok && writable ==> r == if off - old(off) == n then n else -1
      ensures ok && writable && off < old(off) + n ==>
        off > fs.inodes[inum].size || off + Min(CHUNK, n - (off - old(off))) > MAXBYTES
    {
      hide Owned, Written, Backed, BitmapBlocks, Synced, AllLogged, SamePtrs, Missing, Past;
      hide FreeBlocks, InUse, SuperOk, FileSystem.Needed;
      NothingWritten(fs.disk, fs.inodes, inum, off, addr);
      if !writable {
        return -1, true;
      }
      ghost var d0, i0, off0 := fs.disk, fs.inodes, off;
      var i := 0;
      while i < n
        invariant 0 <= i <= Max(n, 0) && Valid() && off == off0 + i
        invariant Written(d0, i0, fs.disk, fs.inodes, inum, off0, addr, i)
      {
        var n1 := n - i;
        if n1 > CHUNK {
          n1 := CHUNK;
        }
        ghost var d1, i1 := fs.disk, fs.inodes;
        var r1, more := WriteOp(addr[i..], n1);
        if !more {
          return -1, false;
        }
        if r1 < 0 {
          break;
        }
        assert r1 == n1;
        WrittenOn(d0, i0, d1, i1, fs.disk, fs.inodes, inum, off0, addr, i, n1);
        i := i + r1;
      }
      return if i == n then n else -1, true;
    }

    // Other processes' calls, on other inodes.
    method Elsewhere(calls: seq<Call>) returns (ok: bool)
      requires Valid()
      modifies fs
      ensures ok ==> Valid() && Leaves(old(fs.disk), old(fs.inodes), fs.disk, fs.inodes, inum)
    {
      hide Owned, Written, Backed, Synced, AllLogged, SamePtrs, Missing, Past, LoggedOnly, Truncating, FreeBlocks;
      hide ByteAt, SuperOk, Spans, Others, Middles, FileSystem.Needed, FileSystem.Refused;
      ghost var d0, i0 := fs.disk, fs.inodes;
      ok := true;
      var k := 0;
      while k < |calls|
        invariant 0 <= k <= |calls| && Valid() && Leaves(d0, i0, fs.disk, fs.inodes, inum)
      {
        ghost var d1, i1 := fs.disk, fs.inodes;
        var c := calls[k];
        if c.inum in fs.inodes && c.inum != inum {
          fs.BeginOp();
          match c
          case Write(other, at, src) =>
            if at < UINT && |src| < UINT {
              var r;
              r, ok := fs.WriteI(other, src, at, |src|);
              if !ok {
                return;
              }
              OtherWritten(d1, i1, fs.disk, fs.inodes, other, at, src, r, inum);
            }
          case Trunc(other) =>
            fs.ITrunc(other);
        }
        LeavesOn(d0, i0, d1, i1, fs.disk, fs.inodes, inum);
        k := k + 1;
      }
    }

    // filewrite among other processes: before each of its chunks the calls of others run, on other inodes. The
    // chunks are still one write of the bytes to this file.
    method FileWriteAmong(addr: seq<Byte>, n: int, others: seq<seq<Call>>) returns (r: int, ok: bool)
      requires Valid() && n <= |addr|
      modifies this`off, fs
      ensures ok ==> Valid() && old(off) <= off <= old(off) + Max(n, 0)
      ensures ok ==> Holds(old(fs.disk), old(fs.inodes), fs.disk, fs.inodes, inum, old(off), addr, off - old(off))
      ensures ok ==> fs.inodes[inum].size == if off == old(off) then old(fs.inodes[inum].size) else
        Max(old(fs.inodes[inum].size), off)
      ensures ok ==> r == if writable && off - old(off) == n then n else -1
      ensures ok && writable && off < old(off) + n ==>
        off > fs.inodes[inum].size || off + Min(CHUNK, n - (off - old(off))) > MAXBYTES
    {
      hide Owned, Written, Backed, BitmapBlocks, Synced, AllLogged, SamePtrs, Missing, Past;
      hide FreeBlocks, InUse, SuperOk, FileSystem.Needed, FileSystem.Refused, ByteAt, Holds, Leaves;
      NothingHeld(fs.disk, fs.inodes, inum, off, addr);
      if !writable {
        return -1, true;
      }
      ghost var d0, i0, off0 := fs.disk, fs.inodes, off;
      var i, k := 0, 0;
      while i < n
        invariant 0 <= i <= Max(n, 0) && Valid() && off == off0 + i
        invariant Holds(d0, i0, fs.disk, fs.inodes, inum, off0, addr, i)
        invariant fs.inodes[inum].size == if i == 0 then i0[inum].size else Max(i0[inum].size, off)
      {
        ghost var d1, i1 := fs.disk, fs.inodes;
        var rest := Elsewhere(if k < |others| then others[k] else []);
        if !rest {
          return -1, false;
        }
        HeldOn(d0, i0, d1, i1, fs.disk, fs.inodes, inum, off0, addr, i);
        ghost var d2, i2 := fs.disk, fs.inodes;
        var n1 := n - i;
        if n1 > CHUNK {
          n1 := CHUNK;
        }
        var r1, more := WriteOp(addr[i..], n1);
        if !more {
          return -1, false;
        }
        if r1 < 0 {
          break;
        }
        HeldMore(d0, i0, d2, i2, fs.disk, fs.inodes, inum, off0, addr, i, n1);
        i, k := i + r1, k + 1;
      }
      return if i == n then n else -1, true;
    }
  }

  // A call of another process.
  datatype Call = Write(inum: nat, off: nat, src: seq<Byte>) | Trunc(inum: nat)

  // The inode and the bytes of one file are as they were.
  ghost predicate Leaves(d: Disk, i: Inodes, d': Disk, i': Inodes, inum: nat) {
    && inum in i && inum in i' && i'[inum] == i[inum]
    && forall pos: nat :: pos < MAXBYTES ==> ByteAt(d', i', inum, pos) == ByteAt(d, i, inum, pos)
  }

  // One file holds tot bytes of src at off, and otherwise what it held.
  ghost predicate Holds(d0: Disk, i0: Inodes, d: Disk, i: Inodes, inum: nat, off: nat, src: seq<Byte>, tot: nat) {
    && tot <= |src| && inum in i0 && inum in i
    && forall pos: nat :: pos < MAXBYTES ==>
      ByteAt(d, i, inum, pos) == if off <= pos < off + tot then src[pos - off] else ByteAt(d0, i0, inum, pos)
  }

  lemma {:induction false} NothingHeld(d: Disk, i: Inodes, inum: nat, off: nat, src: seq<Byte>)
    requires inum in i
    ensures Holds(d, i, d, i, inum, off, src, 0)
  {
    hide ByteAt;
  }

  lemma {:induction false} LeavesOn(d0: Disk, i0: Inodes, d1: Disk, i1: Inodes, d2: Disk, i2: Inodes, inum: nat)
    requires Leaves(d0, i0, d1, i1, inum) && Leaves(d1, i1, d2, i2, inum)
    ensures Leaves(d0, i0, d2, i2, inum)
  {
    hide ByteAt;
  }

  lemma {:induction false} OtherWritten(d: Disk, i: Inodes, d': Disk, i': Inodes, other: nat, off: nat, src: seq<Byte>,
      r: int, inum: nat)
    requires inum in i && inum != other && i'.Keys == i.Keys
    requires i'[inum] == i[inum] &&
      if r == -1 then d' == d && i' == i else Written(d, i, d', i', other, off, src, |src|)
    ensures Leaves(d, i, d', i', inum)
  {
    hide ByteAt;
  }

  lemma {:induction false} HeldOn(d0: Disk, i0: Inodes, d1: Disk, i1: Inodes, d2: Disk, i2: Inodes, inum: nat, off: nat,
      src: seq<Byte>, tot: nat)
    requires Holds(d0, i0, d1, i1, inum, off, src, tot) && Leaves(d1, i1, d2, i2, inum)
    ensures Holds(d0, i0, d2, i2, inum, off, src, tot) && i2[inum].size == i1[inum].size
  {
    hide ByteAt;
  }

  lemma {:induction false} HeldMore(d0: Disk, i0: Inodes, d1: Disk, i1: Inodes, d2: Disk, i2: Inodes, inum: nat,
      off: nat, src: seq<Byte>, tot: nat, m: nat)
    requires Holds(d0, i0, d1, i1, inum, off, src, tot) && tot + m <= |src|
    requires Written(d1, i1, d2, i2, inum, off + tot, src[tot..], m)
    ensures Holds(d0, i0, d2, i2, inum, off, src, tot + m)
  {
    hide ByteAt;
  }
}
