// Where itrunc logs too much: on every disk whose data blocks have their bits in more than nine bitmap blocks
// there is a file with a block in ten of these groups. Truncating it logs ten bitmap blocks and the inode's.
module FsCut {
  import opened Basics
  import opened Blocks
  import opened FsBitmap
  import opened FsTree
  import opened FsLink
  import opened FsFile
  import opened FsInode
  import opened FsTrunc
  import opened FsCount
  import opened Fs
  import FsScatter
  import RedoLog

  // A disk with an inode block, whose data blocks reach into a tenth bitmap block.
  ghost predicate Vast(sb: Super) {
    SuperOk(sb) && sb.inodestart < sb.bmapstart && !Spans(sb, RedoLog.MAXOPBLOCKS - 1)
  }

  // mkfs's file system of FSSIZE blocks is none: on it every truncation fits.
  lemma {:induction false} MkfsIsNotVast()
    ensures Spans(Super(20000, 32, 58), RedoLog.MAXOPBLOCKS - 1)
  {
  }

  function Group(sb: Super): nat {
    DataStart(sb) / BPB
  }

  // The file's blocks: the first data block, and the first block of each of nine more groups.
  function Spread(sb: Super, i: nat): nat {
    if i == 0 then DataStart(sb) else (Group(sb) + i) * BPB
  }

  lemma {:induction false} SpreadIn(sb: Super, i: nat)
    requires Vast(sb) && i < 10
    ensures DataStart(sb) <= Spread(sb, i) < sb.size && BBlock(sb, Spread(sb, i)) == sb.bmapstart + Group(sb) + i
    ensures BBlock(sb, Spread(sb, i)) < DataStart(sb)
  {
    var g := Group(sb);
    assert g * BPB <= DataStart(sb) < (g + 1) * BPB;
    assert (g + i) * BPB / BPB == g + i;
    assert (sb.size - 1) / BPB >= g + 9;
  }

  function CutInode(sb: Super): Inode
    requires Vast(sb)
  {
    Inode(10 * BSIZE, seq(NDIRECT + 2, i requires 0 <= i < NDIRECT + 2 => SpreadWord(sb, i)))
  }

  function SpreadWord(sb: Super, i: nat): Word
    requires Vast(sb)
  {
    if i < 10 then SpreadIn(sb, i); Spread(sb, i) else 0
  }

  // All blocks are in use; all but the file's belong to nobody.
  function CutDisk(sb: Super): (d: Disk)
    requires Vast(sb)
    ensures |d| == sb.size
  {
    seq(sb.size, b requires 0 <= b < sb.size => if b == sb.inodestart then PutInode(FsScatter.Ones(), 1, CutInode(sb))
      else FsScatter.Ones())
  }

  function CutOwner(sb: Super): map<nat, Owner>
    requires Vast(sb)
  {
    map i: nat | i < 10 :: Spread(sb, i) := Owner(1, Direct(i))
  }

  function Lost(sb: Super): set<nat>
    requires Vast(sb)
  {
    set b: nat | DataStart(sb) <= b < sb.size && b !in CutOwner(sb)
  }

  lemma {:induction false} SpreadDiffer(sb: Super, i: nat, j: nat)
    requires Vast(sb) && i < 10 && j < 10 && Spread(sb, i) == Spread(sb, j)
    ensures i == j
  {
    SpreadIn(sb, i);
    SpreadIn(sb, j);
  }

  lemma {:induction false} CutOwnerIs(sb: Super, b: nat)
    requires Vast(sb)
    ensures b in CutOwner(sb) <==> exists i: nat :: i < 10 && b == Spread(sb, i)
    ensures b in CutOwner(sb) ==>
      var o := CutOwner(sb)[b];
      o.inum == 1 && o.slot.Direct? && o.slot.i < 10 && b == Spread(sb, o.slot.i)
    ensures forall i: nat :: i < 10 && b == Spread(sb, i) ==> CutOwner(sb)[b] == Owner(1, Direct(i))
  {
    hide Spread;
    forall i: nat, j: nat | i < 10 && j < 10 && Spread(sb, i) == Spread(sb, j) ensures i == j {
      SpreadDiffer(sb, i, j);
    }
  }

  lemma {:induction false} CutAt(sb: Super, s: Slot)
    requires Vast(sb) && SlotOk(s)
    ensures At(CutDisk(sb), map[1 := CutInode(sb)], Owner(1, s)) == if s.Direct? && s.i < 10 then Spread(sb, s.i) else 0
  {
    hide CutDisk, WordAt, Spread;
  }

  lemma {:induction false} InodeIn(sb: Super)
    requires Vast(sb)
    ensures InodeBlock(sb, 1) == sb.inodestart < sb.bmapstart < DataStart(sb) < sb.size < UINT
  {
    SpreadIn(sb, 0);
    SpreadIn(sb, 9);
  }

  lemma {:induction false} BitsIn(sb: Super, b: nat)
    requires SuperOk(sb) && b < sb.size
    ensures sb.bmapstart <= BBlock(sb, b) < DataStart(sb)
  {
  }

  lemma {:induction false} CutBits(sb: Super, b: nat)
    requires Vast(sb) && b < sb.size
    ensures BBlock(sb, b) < sb.size && InUse(sb, CutDisk(sb), b)
  {
    hide BitOf, PutInode, CutInode;
    InodeIn(sb);
    BitsIn(sb, b);
    assert CutDisk(sb)[BBlock(sb, b)] == FsScatter.Ones();
    FsScatter.AllBits(b % BPB % 8);
  }

  lemma {:induction false} CutOwned(sb: Super)
    requires Vast(sb)
    ensures Owned(sb, CutDisk(sb), map[1 := CutInode(sb)], CutOwner(sb), Lost(sb))
  {
    hide At, InUse, CutDisk, CutInode, CutOwner, SlotOk, Spread;
    var d, i, w := CutDisk(sb), map[1 := CutInode(sb)], CutOwner(sb);
    forall o | Live(i, o) && At(d, i, o) != 0 ensures At(d, i, o) as nat in w && w[At(d, i, o) as nat] == o {
      assert o == Owner(1, o.slot);
      CutAt(sb, o.slot);
      CutOwnerIs(sb, At(d, i, o));
    }
    forall c | 0 <= c < sb.size ensures BBlock(sb, c) < sb.size && InUse(sb, d, c) {
      CutBits(sb, c);
    }
    forall b | b in w ensures OwnerOk(sb, d, i, w, b) {
      CutOwnerIs(sb, b);
      DirectOk(w[b].slot);
      SpreadIn(sb, w[b].slot.i);
      CutAt(sb, w[b].slot);
    }
  }

  lemma {:induction false} DirectOk(s: Slot)
    requires s.Direct? && s.i < 10
    ensures SlotOk(s)
  {
  }

  lemma {:induction false} CutRead(sb: Super)
    requires Vast(sb)
    ensures InodeBlock(sb, 1) < sb.size && ReadInodes(sb, CutDisk(sb), {1}) == map[1 := CutInode(sb)]
  {
    hide GetInode, PutInode, CutInode;
    InodeIn(sb);
    CutSize(sb);
    GetPutInode(FsScatter.Ones(), 1, CutInode(sb), 1);
  }

  lemma {:induction false} CutSize(sb: Super)
    requires Vast(sb)
    ensures CutInode(sb).size == 10 * BSIZE < UINT && CutInode(sb).size <= MAXBYTES
  {
  }

  lemma {:induction false} CutBacked(sb: Super)
    requires Vast(sb)
    ensures Backed(CutDisk(sb), map[1 := CutInode(sb)], 1, 0, 10 * BSIZE)
  {
    hide At, CutDisk, CutInode;
    var d, i := CutDisk(sb), map[1 := CutInode(sb)];
    forall pos: nat | 0 <= pos < 10 * BSIZE && pos < MAXBYTES ensures At(d, i, Owner(1, DataSlot(pos / BSIZE))) != 0 {
      assert DataSlot(pos / BSIZE) == Direct(pos / BSIZE);
      CutAt(sb, DataSlot(pos / BSIZE));
      SpreadIn(sb, pos / BSIZE);
    }
  }

  // The bit of each of the file's blocks has changed, and with it the bitmap block.
  lemma {:induction false} BitCut(sb: Super, d: Disk, l: set<nat>, i: nat)
    requires Vast(sb) && i < 10 && Truncating(sb, CutDisk(sb), CutOwner(sb), 1, d, R_END)
    requires AllLogged(CutDisk(sb), {}, d, l)
    ensures sb.bmapstart + Group(sb) + i in l
  {
    hide AllLogged, CutDisk, CutOwner, BitOf, Spread;
    var b := Spread(sb, i);
    SpreadIn(sb, i);
    CutOwnerIs(sb, b);
    CutBits(sb, b);
    assert b in FreedBy(CutOwner(sb), 1, R_END);
    assert !InUse(sb, d, b);
    FsScatter.LoggedAt(CutDisk(sb), d, l, BBlock(sb, b));
  }

  lemma {:induction false} InodeCut(sb: Super, d: Disk, l: set<nat>)
    requires Vast(sb) && Synced(sb, d, map[1 := Inode(0, NoAddrs())]) && AllLogged(CutDisk(sb), {}, d, l)
    ensures sb.inodestart in l
  {
    hide AllLogged, CutDisk, GetInode, CutInode;
    InodeIn(sb);
    CutRead(sb);
    CutSize(sb);
    assert OnDisk(sb, d, map[1 := Inode(0, NoAddrs())], 1);
    assert GetInode(CutDisk(sb)[sb.inodestart], 1) == map[1 := CutInode(sb)][1];
    FsScatter.LoggedAt(CutDisk(sb), d, l, sb.inodestart);
  }

  lemma {:induction false} Many(l: set<nat>, x: nat, m: nat, n: nat)
    requires x in l && x < m && forall b: nat :: m <= b < m + n ==> b in l
    ensures |l| >= n + 1
  {
    var s := seq(n, i requires 0 <= i < n => m + i);
    SetSize(s);
    assert forall y :: y in SetOf(s) ==> y in l && y >= m;
    SubsetCount(SetOf(s) + {x}, l);
  }

  // The file system with its file truncated, which has logged more than MAXOPBLOCKS blocks.
  method VastTrunc(sb: Super) returns (fs: FileSystem)
    requires Vast(sb)
    ensures fresh(fs) && fs.Valid() && fs.sb == sb && fs.inodes == map[1 := Inode(0, NoAddrs())]
    ensures |fs.logged| >= 11 > RedoLog.MAXOPBLOCKS
  {
    hide Owned, CutDisk, Backed, Truncating, AllLogged, Synced, GetInode, CutOwner, Lost, CutInode, Spans, Others;
    hide Middles;
    CutOwned(sb);
    CutRead(sb);
    CutSize(sb);
    CutBacked(sb);
    InodeIn(sb);
    fs := new FileSystem.Mount(sb, CutDisk(sb), {1}, CutOwner(sb), Lost(sb));
    fs.ITrunc(1);
    ghost var logged := fs.logged;
    assert fs.inodes == map[1 := Inode(0, NoAddrs())];
    InodeCut(sb, fs.disk, logged);
    var m := sb.bmapstart + Group(sb);
    forall b: nat | m <= b < m + 10 ensures b in logged {
      BitCut(sb, fs.disk, logged, b - m);
    }
    Many(logged, sb.inodestart, m, 10);
  }
}
