// Inodes on disk, and what a file-system call may do to the disk between begin_op and end_op.
module FsInode {
  import opened Basics
  import opened Blocks
  import opened FsBitmap
  import opened FsTree

  const IPB := 8                // dinodes in one block
  const DINODE := 16            // words in one dinode: four shorts, the size, the block addresses

  function InodeBlock(sb: Super, inum: nat): nat {
    inum / IPB + sb.inodestart
  }

  function WordsAt(b: Block, at: nat, n: nat): (r: seq<Word>)
    requires at + n <= WORDS
    ensures |r| == n && forall i :: 0 <= i < n ==> r[i] == WordAt(b, at + i)
  {
    if n == 0 then [] else WordsAt(b, at, n - 1) + [WordAt(b, at + n - 1)]
  }

  // The k-th dinode of a block; its type, device numbers and link count are not modelled.
  function GetInode(b: Block, k: nat): Inode
    requires k < IPB
  {
    Inode(WordAt(b, DINODE * k + 2), WordsAt(b, DINODE * k + 3, NDIRECT + 2))
  }

  function PutInode(b: Block, k: nat, ip: Inode): Block
    requires k < IPB && ip.size < UINT
  {
    PutWords(SetWord(b, DINODE * k + 2, ip.size), DINODE * k + 3, ip.addrs, NDIRECT + 2)
  }

  // Storing a dinode in a block stores it and leaves the others.
  lemma {:induction false} GetPutInode(b: Block, k: nat, ip: Inode, m: nat)
    requires k < IPB && ip.size < UINT && m < IPB
    ensures GetInode(PutInode(b, k, ip), m) == if m == k then ip else GetInode(b, m)
  {
    hide WordAt, SetWord, PutWords, WordsAt;
    var b0, p := SetWord(b, DINODE * k + 2, ip.size), PutInode(b, k, ip);
    PutWordsAt(b0, DINODE * k + 3, ip.addrs, NDIRECT + 2, DINODE * m + 2);
    WordAtSetWord(b, DINODE * k + 2, ip.size, DINODE * m + 2);
    var after, before := WordsAt(p, DINODE * m + 3, NDIRECT + 2), WordsAt(b, DINODE * m + 3, NDIRECT + 2);
    forall j | 0 <= j < NDIRECT + 2 ensures after[j] == if m == k then ip.addrs[j] else before[j] {
      PutWordsAt(b0, DINODE * k + 3, ip.addrs, NDIRECT + 2, DINODE * m + 3 + j);
      WordAtSetWord(b, DINODE * k + 2, ip.size, DINODE * m + 3 + j);
    }
  }

  // The inode on disk is the one in memory.
  ghost predicate OnDisk(sb: Super, disk: Disk, inodes: Inodes, i: nat)
    requires i in inodes
  {
    InodeBlock(sb, i) < sb.bmapstart && InodeBlock(sb, i) < |disk| &&
      GetInode(disk[InodeBlock(sb, i)], i % IPB) == inodes[i]
  }

  ghost predicate Synced(sb: Super, disk: Disk, inodes: Inodes) {
    forall i :: i in inodes ==> OnDisk(sb, disk, inodes, i)
  }

  // ilock's reading of inodes that are not in memory.
  function ReadInodes(sb: Super, disk: Disk, inums: set<nat>): (r: Inodes)
    requires forall i :: i in inums ==> InodeBlock(sb, i) < |disk|
    ensures r.Keys == inums
  {
    map i | i in inums :: GetInode(disk[InodeBlock(sb, i)], i % IPB)
  }

  // Between calls nothing is lost with the memory: the inodes read from disk are those that were there.
  lemma {:induction false} ReadBack(sb: Super, disk: Disk, inodes: Inodes)
    requires Synced(sb, disk, inodes)
    ensures (forall i :: i in inodes.Keys ==> InodeBlock(sb, i) < |disk|) && ReadInodes(sb, disk, inodes.Keys) == inodes
  {
    hide GetInode;
    assert forall i :: i in inodes ==> OnDisk(sb, disk, inodes, i);
  }

  // iupdate brings one inode up to date and leaves the others.
  lemma {:induction false} SyncedOne(sb: Super, disk: Disk, inodes: Inodes, inum: nat)
    requires inum in inodes && inodes[inum].size < UINT && InodeBlock(sb, inum) < sb.bmapstart &&
      InodeBlock(sb, inum) < |disk|
    requires forall i :: i in inodes && i != inum ==> OnDisk(sb, disk, inodes, i)
    ensures
      var b := InodeBlock(sb, inum);
      Synced(sb, disk[b := PutInode(disk[b], inum % IPB, inodes[inum])], inodes)
  {
    hide GetInode, PutInode;
    var b := InodeBlock(sb, inum);
    var d := disk[b := PutInode(disk[b], inum % IPB, inodes[inum])];
    forall i | i in inodes ensures OnDisk(sb, d, inodes, i) {
      GetPutInode(disk[b], inum % IPB, inodes[inum], i % IPB);
      assert i != inum ==> OnDisk(sb, disk, inodes, i);
      if InodeBlock(sb, i) == b && i % IPB == inum % IPB { OneDinode(sb, i, inum); }
    }
  }

  lemma {:induction false} OneDinode(sb: Super, i: nat, j: nat)
    requires InodeBlock(sb, i) == InodeBlock(sb, j) && i % IPB == j % IPB
    ensures i == j
  {
  }

  // Every block that has changed since d0 has been passed to log_write since, or before.
  ghost predicate AllLogged(d0: Disk, l0: set<nat>, d: Disk, l: set<nat>) {
    |d| == |d0| && l0 <= l && forall b: nat :: b < |d| && b !in l ==> d[b] == d0[b]
  }

  // Nothing below the bitmap has changed.
  ghost predicate InodesKept(sb: Super, d0: Disk, d: Disk) {
    |d| == |d0| && forall b: nat :: b < sb.bmapstart && b < |d| ==> d[b] == d0[b]
  }

  ghost predicate Traced(sb: Super, d0: Disk, l0: set<nat>, d: Disk, l: set<nat>) {
    AllLogged(d0, l0, d, l) && InodesKept(sb, d0, d)
  }

  lemma {:induction false} TracedOn(sb: Super, d0: Disk, l0: set<nat>, d1: Disk, l1: set<nat>, d: Disk, l: set<nat>)
    requires Traced(sb, d0, l0, d1, l1) && Traced(sb, d1, l1, d, l)
    ensures Traced(sb, d0, l0, d, l)
  {
  }

  lemma {:induction false} TracedNone(sb: Super, d: Disk, l: set<nat>)
    ensures Traced(sb, d, l, d, l)
  {
  }

  lemma {:induction false} TracedWrite(sb: Super, d: Disk, l: set<nat>, b: nat, x: Block)
    requires sb.bmapstart <= b < |d|
    ensures Traced(sb, d, l, d[b := x], l + {b})
  {
  }

  lemma {:induction false} TracedStart(sb: Super, d: Disk, l: set<nat>)
    ensures Traced(sb, d, {}, d, l)
  {
  }

  lemma {:induction false} TracedParts(sb: Super, d0: Disk, l0: set<nat>, d: Disk, l: set<nat>)
    requires Traced(sb, d0, l0, d, l)
    ensures AllLogged(d0, l0, d, l) && InodesKept(sb, d0, d)
  {
  }

  lemma {:induction false} LoggedMore(d0: Disk, l0: set<nat>, d: Disk, l: set<nat>, b: nat, x: Block)
    requires AllLogged(d0, l0, d, l) && b < |d|
    ensures AllLogged(d0, l0, d[b := x], l + {b})
  {
  }

  lemma {:induction false} StillSynced(sb: Super, d0: Disk, d: Disk, inodes: Inodes, inodes': Inodes, i: nat)
    requires InodesKept(sb, d0, d) && i in inodes && i in inodes' && inodes'[i] == inodes[i] &&
      OnDisk(sb, d0, inodes, i)
    ensures OnDisk(sb, d, inodes', i)
  {
    hide GetInode;
  }

  lemma {:induction false} SyncedStill(sb: Super, d0: Disk, d: Disk, inodes: Inodes)
    requires Synced(sb, d0, inodes) && InodesKept(sb, d0, d)
    ensures Synced(sb, d, inodes)
  {
    hide OnDisk, InodesKept;
    forall i | i in inodes ensures OnDisk(sb, d, inodes, i) {
      StillSynced(sb, d0, d, inodes, inodes, i);
    }
  }

  // iupdate at the end of a call that has changed one inode.
  lemma {:induction false} InodeSaved(sb: Super, d0: Disk, i0: Inodes, disk: Disk, inodes: Inodes,
      owner: map<nat, Owner>, leaked: set<nat>, inum: nat)
    requires Owned(sb, disk, inodes, owner, leaked) && Synced(sb, d0, i0) && InodesKept(sb, d0, disk)
    requires inum in i0 && inodes.Keys == i0.Keys && inodes[inum].size < UINT
    requires forall x :: x in i0 && x != inum ==> inodes[x] == i0[x]
    ensures InodeBlock(sb, inum) < sb.bmapstart && InodeBlock(sb, inum) < |disk|
    ensures
      var b := InodeBlock(sb, inum);
      var d := disk[b := PutInode(disk[b], inum % IPB, inodes[inum])];
      && Owned(sb, d, inodes, owner, leaked) && Synced(sb, d, inodes)
      && (forall o :: Live(inodes, o) ==> At(d, inodes, o) == At(disk, inodes, o))
      && (forall i, pos: nat :: i in inodes && pos < MAXFILE * BSIZE ==>
         ByteAt(d, inodes, i, pos) == ByteAt(disk, inodes, i, pos))
  {
    hide Owned, At, ByteAt, PutInode, GetInode, InodesKept;
    assert OnDisk(sb, d0, i0, inum);
    assert |disk| == |d0| by { LengthKept(sb, d0, disk); }
    var b := InodeBlock(sb, inum);
    InodeWritten(sb, disk, inodes, owner, leaked, b, PutInode(disk[b], inum % IPB, inodes[inum]));
    forall i | i in inodes && i != inum ensures OnDisk(sb, disk, inodes, i) {
      StillSynced(sb, d0, disk, i0, inodes, i);
    }
    hide OnDisk;
    SyncedOne(sb, disk, inodes, inum);
  }

  lemma {:induction false} LengthKept(sb: Super, d0: Disk, d: Disk)
    requires InodesKept(sb, d0, d)
    ensures |d| == |d0|
  {
  }

  // Writing an inode block moves no pointer, no bit and no byte of any file.
  lemma {:induction false} InodeWritten(sb: Super, disk: Disk, inodes: Inodes, owner: map<nat, Owner>, leaked: set<nat>,
      b: nat, x: Block)
    requires Owned(sb, disk, inodes, owner, leaked) && b < sb.bmapstart
    ensures b < |disk| && Owned(sb, disk[b := x], inodes, owner, leaked)
    ensures forall o :: Live(inodes, o) ==> At(disk[b := x], inodes, o) == At(disk, inodes, o)
    ensures forall i, pos: nat :: i in inodes && pos < MAXFILE * BSIZE ==>
      ByteAt(disk[b := x], inodes, i, pos) == ByteAt(disk, inodes, i, pos)
  {
    hide InUse, At, DataSlot;
    var d := disk[b := x];
    forall p | p in owner ensures p < |disk| && d[p] == disk[p] {
      assert OwnerOk(sb, disk, inodes, owner, p);
    }
    forall o | Live(inodes, o) ensures At(d, inodes, o) == At(disk, inodes, o) {
      AtFrame(disk, d, inodes, owner, o);
    }
    forall c | 0 <= c < sb.size ensures InUse(sb, d, c) == InUse(sb, disk, c) {
      BitsFrame(sb, disk, d, c);
    }
    forall c | c in owner ensures OwnerOk(sb, d, inodes, owner, c) {
      assert OwnerOk(sb, disk, inodes, owner, c);
    }
    forall i, pos: nat | i in inodes && pos < MAXFILE * BSIZE
      ensures ByteAt(d, inodes, i, pos) == ByteAt(disk, inodes, i, pos)
    {
      ByteFrame(disk, d, inodes, owner, i, pos);
    }
  }
}
