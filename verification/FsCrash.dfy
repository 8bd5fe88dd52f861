// A chunk of filewrite and a power failure: the calls of the file system as calls of the log's step machine.
module FsCrash {
  import opened Basics
  import opened Blocks
  import opened FsBitmap
  import opened FsTree
  import opened FsFile
  import opened FsInode
  import opened FsCount
  import opened Fs
  import opened File
  import RedoLog
  import Bio
  import LogProtocol
  import LogRefines
  import LogGroup

  lemma {:induction false} Listing(l: set<nat>) returns (s: seq<nat>)
    ensures NoRepeats(s) && SetOf(s) == l && |s| == |l|
  {
    if l == {} {
      s := [];
    } else {
      var x :| x in l;
      s := Listing(l - {x});
      s := s + [x];
    }
  }

  // The disk that readers of the cache see once the file system's blocks are those of d.
  ghost function Seen(L: RedoLog.Layout, v: Disk, d: Disk): (r: Disk)
    requires |v| == |d|
    ensures |r| == |d| && RedoLog.SameHome(L, r, d)
    ensures forall b :: 0 <= b < |d| && RedoLog.InLog(L, b) ==> r[b] == v[b]
  {
    seq(|d|, b requires 0 <= b < |d| => if RedoLog.InLog(L, b) then v[b] else d[b])
  }

  // The call's logged blocks are what it has promised the log.
  lemma {:induction false} Promise(L: RedoLog.Layout, sb: Super, v: Disk, d0: Disk, d: Disk, l: set<nat>, bs: seq<nat>)
    requires |v| == |d0| == |d| == sb.size < UINT && RedoLog.SameHome(L, v, d0) && AllLogged(d0, {}, d, l)
    requires L.start + L.size <= sb.inodestart && forall b :: b in l ==> sb.inodestart <= b < sb.size
    requires NoRepeats(bs) && SetOf(bs) == l && |bs| <= RedoLog.MAXOPBLOCKS
    ensures LogGroup.Promised(L, v, Seen(L, v, d), bs)
  {
    hide Seen;
    assert forall i :: 0 <= i < |bs| ==> bs[i] in l;
    var r := Seen(L, v, d);
    forall b | 0 <= b < |r| && r[b] != v[b] ensures b in bs {
      assert b in SetOf(bs);
    }
  }

  // One chunk of filewrite on a disk whose data blocks span at most two bitmap blocks, the log at rest in state
  // s: the log machine has a path from s to rest again with the chunk written, and whenever the power fails on
  // the way, the disk comes back with the file system as it was before the chunk or with all of the chunk.
  method CrashedWrite(f: OpenFile, addr: seq<Byte>, n1: nat, L: RedoLog.Layout, ghost s: LogProtocol.State)
    returns (r: int, ok: bool, ghost path: seq<LogProtocol.State>, ghost steps: seq<LogProtocol.Step>, ghost h: nat)
    requires f.Valid() && 0 < n1 <= CHUNK && n1 <= |addr| && Narrow(f.fs.sb)
    requires L.size >= Bio.NBUF && L.start + L.size <= f.fs.sb.inodestart && LogGroup.AtRest(L, s)
    requires RedoLog.SameHome(L, LogProtocol.Logical(s), f.fs.disk)
    modifies f`off, f.fs
    ensures ok ==> f.Valid() && (r == -1 || r == n1)
    ensures ok ==> (r == -1 <==> old(f.off) > old(f.fs.inodes[f.inum].size) || old(f.off) + n1 > MAXBYTES)
    ensures ok && r == -1 ==> f.fs.disk == old(f.fs.disk)
    ensures ok && r != -1 ==>
      Written(old(f.fs.disk), old(f.fs.inodes), f.fs.disk, f.fs.inodes, f.inum, old(f.off), addr, n1)
    ensures ok ==> LogRefines.Path(L, path, steps) && path[0] == s && LogGroup.AtRest(L, path[|steps|])
    ensures ok ==> RedoLog.SameHome(L, LogProtocol.Logical(path[|steps|]), f.fs.disk)
    ensures ok ==> forall t: nat, ks :: LogGroup.Outcome(L, path, h, old(f.fs.disk), f.fs.disk, t, ks)
  {
    hide Written, AllLogged, BitmapBlocks, SamePtrs, FreeBlocks, Owned, Synced, Backed;
    ghost var d0, v := f.fs.disk, LogProtocol.Logical(s);
    path, steps, h := [], [], 0;
    r, ok := f.WriteOp(addr, n1);
    if ok {
      ghost var bs := Listing(f.fs.logged);
      FsSize(f);
      LoggedSize(d0, f.fs.disk, f.fs.logged);
      HomeSize(L, v, d0);
      Promise(L, f.fs.sb, v, d0, f.fs.disk, f.fs.logged, bs);
      path, steps, h := LogGroup.OneCall(L, s, Seen(L, v, f.fs.disk), bs);
      forall t: nat, ks ensures LogGroup.Outcome(L, path, h, d0, f.fs.disk, t, ks) {
        OutcomeHome(L, path, h, v, Seen(L, v, f.fs.disk), d0, f.fs.disk, t, ks);
      }
      LogGroup.HomeOn(L, LogProtocol.Logical(path[|steps|]), Seen(L, v, f.fs.disk), f.fs.disk);
    }
  }

  lemma {:induction false} FsSize(f: OpenFile)
    requires f.Valid()
    ensures |f.fs.disk| == f.fs.sb.size < UINT
  {
    hide Synced, Backed;
    SuperIn(f.fs.sb, f.fs.disk, f.fs.inodes, f.fs.owner, f.fs.leaked);
  }

  lemma {:induction false} LoggedSize(d0: Disk, d: Disk, l: set<nat>)
    requires AllLogged(d0, {}, d, l)
    ensures |d| == |d0|
  {
  }

  lemma {:induction false} HomeSize(L: RedoLog.Layout, a: Disk, b: Disk)
    requires RedoLog.SameHome(L, a, b)
    ensures |a| == |b| && RedoLog.SameHome(L, b, a)
  {
  }

  lemma {:induction false} OutcomeHome(L: RedoLog.Layout, path: seq<LogProtocol.State>, h: nat, v: Disk, u: Disk,
      d0: Disk, d: Disk, t: nat, ks: seq<nat>)
    requires LogGroup.Outcome(L, path, h, v, u, t, ks) && RedoLog.SameHome(L, v, d0) && RedoLog.SameHome(L, u, d)
    ensures LogGroup.Outcome(L, path, h, d0, d, t, ks)
  {
    hide LogGroup.Gives;
    HomeSize(L, v, d0);
    HomeSize(L, u, d);
    if t < |path| {
      if t <= h {
        LogGroup.GivesOn(L, path[t], ks, v, d0);
      } else {
        LogGroup.GivesOn(L, path[t], ks, u, d);
      }
    }
  }

  // A disk that comes back with the home blocks of d mounts to the file system of d: the same inodes, the same
  // blocks in use and owned, the same bytes in every file.
  lemma {:induction false} MountsSame(L: RedoLog.Layout, sb: Super, d: Disk, inodes: Inodes, owner: map<nat, Owner>,
      leaked: set<nat>, d': Disk)
    requires Owned(sb, d, inodes, owner, leaked) && Synced(sb, d, inodes)
    requires L.start + L.size <= sb.inodestart && sb.inodestart <= sb.bmapstart && RedoLog.SameHome(L, d', d)
    ensures Owned(sb, d', inodes, owner, leaked) && Synced(sb, d', inodes)
    ensures (forall i :: i in inodes.Keys ==> InodeBlock(sb, i) < |d'|) && ReadInodes(sb, d', inodes.Keys) == inodes
    ensures forall i, pos: nat :: i in inodes && pos < MAXBYTES ==>
      ByteAt(d', inodes, i, pos) == ByteAt(d, inodes, i, pos)
  {
    hide InUse, At, DataSlot, GetInode;
    forall p | p in owner ensures p < |d| && d'[p] == d[p] {
      assert OwnerOk(sb, d, inodes, owner, p);
    }
    forall o | Live(inodes, o) ensures At(d', inodes, o) == At(d, inodes, o) {
      AtFrame(d, d', inodes, owner, o);
    }
    forall c | 0 <= c < sb.size ensures InUse(sb, d', c) == InUse(sb, d, c) {
      BitsFrame(sb, d, d', c);
    }
    forall c | c in owner ensures OwnerOk(sb, d', inodes, owner, c) {
      assert OwnerOk(sb, d, inodes, owner, c);
    }
    forall i | i in inodes ensures OnDisk(sb, d', inodes, i) {
      assert OnDisk(sb, d, inodes, i);
    }
    ReadBack(sb, d', inodes);
    forall i, pos: nat | i in inodes && pos < MAXBYTES ensures ByteAt(d', inodes, i, pos) == ByteAt(d, inodes, i, pos) {
      ByteFrame(d, d', inodes, owner, i, pos);
    }
  }
}
