// Where filewrite's chunk size is too large: on every disk whose data blocks have their bits in more than
// two bitmap blocks there is a file system whose free blocks lie so that one chunk logs more than the
// reservation of MAXOPBLOCKS blocks.
module FsScatter {
  import opened Basics
  import opened Blocks
  import opened FsBitmap
  import opened FsTree
  import opened FsLink
  import opened FsFile
  import opened FsInode
  import opened FsCount
  import opened Fs
  import opened File
  import RedoLog

  // A disk with an inode block, whose data blocks reach into a third bitmap block.
  ghost predicate Wide(sb: Super) {
    SuperOk(sb) && sb.inodestart < sb.bmapstart && !Narrow(sb)
  }

  // mkfs's file system of FSSIZE blocks is one.
  lemma {:induction false} MkfsIsWide()
    ensures Wide(Super(20000, 32, 58))
  {
  }

  // The file ends in the middle of block 137, three blocks before the double-indirect ones.
  const OFF := 137 * BSIZE + 256

  function Ones(): (b: Block)
    ensures forall k :: 0 <= k < BSIZE ==> b.bytes[k] == 255
  {
    Block(seq(BSIZE, _ => 255))
  }

  // The file has the 139 blocks from D on.
  function FileAddrs(D: nat): Addrs
    requires D + 139 < UINT
  {
    [D, D + 1, D + 2, D + 3, D + 4, D + 5, D + 6, D + 7, D + 8, D + 9, D + 10, D + 138, 0]
  }

  function FileInode(D: nat): Inode
    requires D + 139 < UINT
  {
    Inode(OFF, FileAddrs(D))
  }

  function Pointer(D: nat, j: nat): nat {
    if j < 127 then D + 11 + j else 0
  }

  function IndexBlock(D: nat): Block
    requires D + 139 < UINT
  {
    PutWords(Ones(), 0, seq(WORDS, j requires 0 <= j < WORDS => Pointer(D, j)), WORDS)
  }

  function Base(sb: Super): nat {
    DataStart(sb) + 1
  }

  // Some way into the second group of data blocks.
  function Mid2(sb: Super): nat {
    (DataStart(sb) / BPB + 1) * BPB + 139
  }

  function Last(sb: Super): nat {
    if sb.size == 0 then 0 else sb.size - 1
  }

  // The free blocks: the first data block, three in the second group, and the last block of all.
  function Holes(sb: Super): set<nat> {
    {DataStart(sb), Mid2(sb), Mid2(sb) + 1, Mid2(sb) + 2, Last(sb)}
  }

  function RawBlock(sb: Super, b: nat): Block
    requires Base(sb) + 139 < UINT
  {
    if b == sb.inodestart then PutInode(Ones(), 1, FileInode(Base(sb)))
    else if b == Base(sb) + 138 then IndexBlock(Base(sb))
    else Ones()
  }

  function Raw(sb: Super): (d: Disk)
    requires Base(sb) + 139 < UINT
    ensures |d| == sb.size && forall b :: 0 <= b < sb.size ==> d[b] == RawBlock(sb, b)
  {
    seq(sb.size, b requires 0 <= b < sb.size => RawBlock(sb, b))
  }

  function Freed(sb: Super, d: Disk, b: nat): (r: Disk)
    requires BBlock(sb, b) < |d|
    ensures |r| == |d|
  {
    Mark(sb, d, b, false)
  }

  lemma {:induction false} BitsInside(sb: Super)
    requires Wide(sb)
    ensures forall b: nat :: b < sb.size ==> sb.bmapstart <= BBlock(sb, b) < DataStart(sb) < sb.size
    ensures Base(sb) + 138 < Mid2(sb) && Mid2(sb) + 2 < Last(sb) < sb.size < UINT
    ensures BBlock(sb, DataStart(sb)) < BBlock(sb, Mid2(sb)) < BBlock(sb, Last(sb))
  {
    var g := DataStart(sb) / BPB;
    assert g * BPB <= DataStart(sb) < (g + 1) * BPB;
    assert Mid2(sb) / BPB == g + 1;
  }

  function Start(sb: Super): (d: Disk)
    requires Wide(sb)
    ensures |d| == sb.size
  {
    BitsInside(sb);
    Freed(sb, Freed(sb, Freed(sb, Freed(sb, Freed(sb, Raw(sb), DataStart(sb)), Mid2(sb)), Mid2(sb) + 1), Mid2(sb) + 2),
      Last(sb))
  }

  function StartInodes(sb: Super): Inodes
    requires Base(sb) + 139 < UINT
  {
    map[1 := FileInode(Base(sb))]
  }

  function SlotNo(k: nat): Slot {
    if k < 11 then Direct(k) else if k < 138 then IndData(k - 11) else Ind
  }

  function OwnerAt(sb: Super, b: nat): Owner {
    Owner(1, if b < Base(sb) then Ind else SlotNo(b - Base(sb)))
  }

  function StartOwner(sb: Super): map<nat, Owner> {
    map b: nat | Base(sb) <= b <= Base(sb) + 138 :: OwnerAt(sb, b)
  }

  // All other blocks are in use. That no inode names them does not matter here.
  function Others(sb: Super): set<nat> {
    set b: nat | Base(sb) + 138 < b < sb.size && b !in Holes(sb)
  }

  // The start state is a well-formed file system.

  lemma {:induction false} AllBits(k: nat)
    requires k < 8
    ensures BitOf(255, k)
  {
    assert BitOf(1, 0) && BitOf(3, 1) && BitOf(7, 2) && BitOf(15, 3) && BitOf(31, 4) && BitOf(63, 5) && BitOf(127, 6);
    assert BitOf(255, 0) && BitOf(127, 0) && BitOf(63, 0) && BitOf(31, 0) && BitOf(15, 0) && BitOf(7, 0) && BitOf(3, 0);
  }

  lemma {:induction false} RawBits(sb: Super, b: nat)
    requires Wide(sb) && b < sb.size
    ensures BBlock(sb, b) < sb.size && InUse(sb, Raw(sb), b)
  {
    hide BitOf, PutInode, IndexBlock;
    BitsInside(sb);
    assert Raw(sb)[BBlock(sb, b)] == Ones();
    AllBits(b % BPB % 8);
  }

  lemma {:induction false} FreedBits(sb: Super, d: Disk, b: nat, c: nat)
    requires Wide(sb) && |d| == sb.size && b < sb.size && c < sb.size
    ensures BBlock(sb, b) < |d| && BBlock(sb, c) < |d|
    ensures InUse(sb, Freed(sb, d, b), c) <==> c != b && InUse(sb, d, c)
    ensures c < sb.bmapstart || c >= DataStart(sb) ==> Freed(sb, d, b)[c] == d[c]
  {
    hide InUse, MarkBlock;
    BitsInside(sb);
    MarkMarks(sb, d, b, false, c);
  }

  lemma {:induction false} StartIs(sb: Super, c: nat)
    requires Wide(sb) && c < sb.size
    ensures BBlock(sb, c) < sb.size && (InUse(sb, Start(sb), c) <==> c !in Holes(sb))
    ensures c < sb.bmapstart || c >= DataStart(sb) ==> Start(sb)[c] == RawBlock(sb, c)
  {
    hide InUse, Freed, RawBlock;
    BitsInside(sb);
    var d0 := Raw(sb);
    var d1 := Freed(sb, d0, DataStart(sb));
    var d2 := Freed(sb, d1, Mid2(sb));
    var d3 := Freed(sb, d2, Mid2(sb) + 1);
    var d4 := Freed(sb, d3, Mid2(sb) + 2);
    RawBits(sb, c);
    FreedBits(sb, d0, DataStart(sb), c);
    FreedBits(sb, d1, Mid2(sb), c);
    FreedBits(sb, d2, Mid2(sb) + 1, c);
    FreedBits(sb, d3, Mid2(sb) + 2, c);
    FreedBits(sb, d4, Last(sb), c);
  }

  lemma {:induction false} IndexWord(D: nat, j: nat)
    requires D + 139 < UINT && j < WORDS
    ensures WordAt(IndexBlock(D), j) == Pointer(D, j)
  {
    hide WordAt;
    PutWordsAt(Ones(), 0, seq(WORDS, k requires 0 <= k < WORDS => Pointer(D, k)), WORDS, j);
  }

  function StartAt(sb: Super, s: Slot): nat {
    match s
    case Direct(i) => Base(sb) + i
    case Ind => Base(sb) + 138
    case IndData(j) => Pointer(Base(sb), j)
    case _ => 0
  }

  lemma {:induction false} AtStart(sb: Super, s: Slot)
    requires Wide(sb) && SlotOk(s)
    ensures At(Start(sb), StartInodes(sb), Owner(1, s)) == StartAt(sb, s)
  {
    hide WordAt, IndexBlock, Start, PutInode;
    BitsInside(sb);
    StartIs(sb, Base(sb) + 138);
    if s.IndData? { IndexWord(Base(sb), s.j); }
  }

  lemma {:induction false} SlotsBack(sb: Super, s: Slot)
    requires Wide(sb) && SlotOk(s) && StartAt(sb, s) != 0
    ensures StartAt(sb, s) in StartOwner(sb) && StartOwner(sb)[StartAt(sb, s)] == Owner(1, s)
  {
  }

  lemma {:induction false} OwnerBack(sb: Super, b: nat)
    requires Wide(sb) && b in StartOwner(sb)
    ensures StartOwner(sb)[b].inum == 1 && SlotOk(StartOwner(sb)[b].slot) && StartAt(sb, StartOwner(sb)[b].slot) == b
    ensures Base(sb) <= b <= Base(sb) + 138 && b !in Holes(sb) && b < sb.size
  {
    BitsInside(sb);
  }

  lemma {:induction false} StartOwned(sb: Super)
    requires Wide(sb)
    ensures Owned(sb, Start(sb), StartInodes(sb), StartOwner(sb), Others(sb))
  {
    hide At, InUse, Start, StartAt, SlotOk;
    var d, i, w := Start(sb), StartInodes(sb), StartOwner(sb);
    forall o | Live(i, o) && At(d, i, o) != 0 ensures At(d, i, o) as nat in w && w[At(d, i, o) as nat] == o {
      assert o == Owner(1, o.slot);
      AtStart(sb, o.slot);
      SlotsBack(sb, o.slot);
    }
    forall c | 0 <= c < sb.size ensures BBlock(sb, c) < sb.size && (InUse(sb, d, c) <==> c !in Holes(sb)) {
      StartIs(sb, c);
    }
    forall b | b in w ensures OwnerOk(sb, d, i, w, b) {
      OwnerBack(sb, b);
      AtStart(sb, w[b].slot);
    }
  }

  lemma {:induction false} StartRead(sb: Super)
    requires Wide(sb)
    ensures InodeBlock(sb, 1) < sb.size && ReadInodes(sb, Start(sb), {1}) == StartInodes(sb)
    ensures GetInode(Start(sb)[sb.inodestart], 1) == FileInode(Base(sb))
  {
    hide GetInode, PutInode, Start, IndexBlock;
    StartIs(sb, sb.inodestart);
    GetPutInode(Ones(), 1, FileInode(Base(sb)), 1);
  }

  lemma {:induction false} StartBacked(sb: Super)
    requires Wide(sb)
    ensures Backed(Start(sb), StartInodes(sb), 1, 0, OFF)
  {
    hide At, Start;
    var d, i := Start(sb), StartInodes(sb);
    forall pos: nat | 0 <= pos < OFF && pos < MAXBYTES ensures At(d, i, Owner(1, DataSlot(pos / BSIZE))) != 0 {
      AtStart(sb, DataSlot(pos / BSIZE));
    }
  }

  // The chunk needs five blocks, and there are just five.

  function Needs(): set<Slot> {
    {IndData(127), Dbl, Mid(0), DblData(0, 0), DblData(0, 1)}
  }

  lemma {:induction false} ChunkSlots()
    ensures SlotsOf(137, 141) == {Ind, IndData(126)} + Needs()
  {
    assert Path(137) == {Ind, IndData(126)} && Path(138) == {Ind, IndData(127)};
    assert Path(139) == {Dbl, Mid(0), DblData(0, 0)} && Path(140) == {Dbl, Mid(0), DblData(0, 1)};
    assert SlotsOf(137, 137) == {};
    assert SlotsOf(137, 138) == Path(137);
    assert SlotsOf(137, 139) == Path(137) + Path(138);
    assert SlotsOf(137, 140) == Path(137) + Path(138) + Path(139);
    assert SlotsOf(137, 141) == Path(137) + Path(138) + Path(139) + Path(140);
  }

  lemma {:induction false} StartNeeds(sb: Super)
    requires Wide(sb)
    ensures Missing(Start(sb), StartInodes(sb), 1, SlotsOf(137, 141)) == Needs() && |Needs()| == 5
  {
    hide At, Start, SlotsOf;
    ChunkSlots();
    forall s | s in SlotsOf(137, 141) ensures SlotOk(s) &&
      (At(Start(sb), StartInodes(sb), Owner(1, s)) == 0 <==> s in Needs()) {
      AtStart(sb, s);
    }
  }

  lemma {:induction false} StartFree(sb: Super)
    requires Wide(sb)
    ensures FreeBlocks(sb, Start(sb)) == Holes(sb) && |Holes(sb)| == 5
  {
    hide InUse, Start;
    BitsInside(sb);
    forall b: nat | b < sb.size ensures InUse(sb, Start(sb), b) <==> b !in Holes(sb) {
      StartIs(sb, b);
    }
    assert Holes(sb) == {DataStart(sb)} + {Mid2(sb)} + {Mid2(sb) + 1} + {Mid2(sb) + 2} + {Last(sb)};
  }

  // Any state the write can leave.
  ghost predicate After(sb: Super, d: Disk, i: Inodes, own: map<nat, Owner>, src: seq<Byte>)
    requires Wide(sb)
  {
    && |src| == CHUNK && (forall k :: 0 <= k < CHUNK ==> src[k] == 0)
    && Owned(sb, d, i, own, Others(sb)) && i.Keys == {1} && |FreeBlocks(sb, d)| == 0
    && Written(Start(sb), StartInodes(sb), d, i, 1, OFF, src, CHUNK)
    && SamePtrs(Start(sb), StartInodes(sb), d, i, 1, SlotsOf(137, 141)) && Missing(d, i, 1, SlotsOf(137, 141)) == {}
  }

  lemma {:induction false} OnesWord(j: nat)
    requires j < WORDS
    ensures WordAt(Ones(), j) == 0xFFFF_FFFF
  {
  }

  // A slot of the chunk holds a block now.
  lemma {:induction false} Held(sb: Super, d: Disk, i: Inodes, own: map<nat, Owner>, src: seq<Byte>, s: Slot)
    requires Wide(sb) && After(sb, d, i, own, src) && s in SlotsOf(137, 141)
    ensures Live(i, Owner(1, s)) && 0 < At(d, i, Owner(1, s)) < |d| == sb.size
    ensures StartAt(sb, s) != 0 ==> At(d, i, Owner(1, s)) == StartAt(sb, s)
  {
    hide At, InUse, Start, StartAt, SlotsOf, FreeBlocks, Written;
    assert SlotOk(s) by { ChunkSlots(); }
    assert s !in Missing(d, i, 1, SlotsOf(137, 141));
    AtOk(sb, d, i, own, Others(sb), Owner(1, s));
    AtStart(sb, s);
    assert Live(StartInodes(sb), Owner(1, s));
  }

  // The zeroes written are there: the block has changed.
  lemma {:induction false} DataChanged(sb: Super, d: Disk, i: Inodes, own: map<nat, Owner>, src: seq<Byte>, bn: nat)
    requires Wide(sb) && After(sb, d, i, own, src) && 137 <= bn <= 140
    ensures DataSlot(bn) in SlotsOf(137, 141) && Live(i, Owner(1, DataSlot(bn))) &&
      At(d, i, Owner(1, DataSlot(bn))) < |d|
    ensures d[At(d, i, Owner(1, DataSlot(bn)))] != Ones()
  {
    hide At, InUse, Start, StartAt, SlotsOf, FreeBlocks, Owned, Ones;
    var pos: nat := if bn == 137 then OFF else bn * BSIZE;
    assert pos / BSIZE == bn && OFF <= pos < OFF + CHUNK;
    ChunkSlots();
    assert DataSlot(137) == IndData(126) && DataSlot(138) == IndData(127) && DataSlot(139) == DblData(0, 0) &&
      DataSlot(140) == DblData(0, 1);
    Held(sb, d, i, own, src, DataSlot(bn));
    assert ByteAt(d, i, 1, pos) == src[pos - OFF] == 0;
    assert Ones().bytes[pos % BSIZE] == 255;
  }

  // So have the index blocks.
  lemma {:induction false} IndexChanged(sb: Super, d: Disk, i: Inodes, own: map<nat, Owner>, src: seq<Byte>, t: Slot)
    requires Wide(sb) && After(sb, d, i, own, src) && (t == Dbl || t == Mid(0))
    ensures t in SlotsOf(137, 141) && Live(i, Owner(1, t)) && At(d, i, Owner(1, t)) < |d|
    ensures d[At(d, i, Owner(1, t))] != Ones()
  {
    hide At, InUse, Start, StartAt, SlotsOf, FreeBlocks, Owned, Ones, WordAt, Written, SamePtrs;
    ChunkSlots();
    Held(sb, d, i, own, src, t);
    Held(sb, d, i, own, src, Child(t, 0));
    ChildIs(d, i, 1, t, 0);
    OnesWord(0);
    SizeFits(sb);
  }

  lemma {:induction false} SizeFits(sb: Super)
    requires Wide(sb)
    ensures sb.size < 0x1_0000_0000
  {
  }

  // Every hole has been filled, and has changed with it.
  lemma {:induction false} HoleChanged(sb: Super, d: Disk, i: Inodes, own: map<nat, Owner>, src: seq<Byte>, b: nat)
    requires Wide(sb) && After(sb, d, i, own, src) && b in Holes(sb)
    ensures b < sb.size == |d| && InUse(sb, d, b) && d[b] != Start(sb)[b]
  {
    hide At, InUse, Start, StartAt, SlotsOf, Written, Missing, Ones, RawBlock;
    BitsInside(sb);
    assert FreeBlocks(sb, d) == {};
    assert InUse(sb, d, b);
    assert b in own && OwnerOk(sb, d, i, own, b);
    var s := own[b].slot;
    assert own[b] == Owner(1, s);
    AtStart(sb, s);
    assert Live(StartInodes(sb), own[b]);
    if StartAt(sb, s) != 0 {
      SlotsBack(sb, s);
      OwnerBack(sb, StartAt(sb, s));
    }
    NeedChanged(sb, d, i, own, src, s);
    StartIs(sb, b);
    HoleRaw(sb, b);
  }

  lemma {:induction false} HoleRaw(sb: Super, b: nat)
    requires Wide(sb) && b in Holes(sb)
    ensures RawBlock(sb, b) == Ones() && b >= DataStart(sb)
  {
    hide PutInode, IndexBlock;
  }

  lemma {:induction false} NeedChanged(sb: Super, d: Disk, i: Inodes, own: map<nat, Owner>, src: seq<Byte>, s: Slot)
    requires Wide(sb) && After(sb, d, i, own, src) && s in SlotsOf(137, 141) && StartAt(sb, s) == 0
    ensures Live(i, Owner(1, s)) && At(d, i, Owner(1, s)) < |d| && d[At(d, i, Owner(1, s))] != Ones()
  {
    hide At, Start, SlotsOf, Ones, After;
    ChunkSlots();
    assert DataSlot(138) == IndData(127) && DataSlot(139) == DblData(0, 0) && DataSlot(140) == DblData(0, 1);
    assert s in Needs();
    if s == Dbl || s == Mid(0) {
      IndexChanged(sb, d, i, own, src, s);
    } else {
      DataChanged(sb, d, i, own, src, if s == IndData(127) then 138 else if s == DblData(0, 0) then 139 else 140);
    }
  }

  // The bitmap block of a hole has changed.
  lemma {:induction false} BitmapChanged(sb: Super, d: Disk, b: nat)
    requires Wide(sb) && b in Holes(sb) && b < |d| == sb.size && InUse(sb, d, b)
    ensures BBlock(sb, b) < |d| && d[BBlock(sb, b)] != Start(sb)[BBlock(sb, b)]
  {
    hide BitOf, Start;
    BitsInside(sb);
    StartIs(sb, b);
  }

  // The block the file ends in, and its indirect block.
  lemma {:induction false} OldChanged(sb: Super, d: Disk, i: Inodes, own: map<nat, Owner>, src: seq<Byte>)
    requires Wide(sb) && After(sb, d, i, own, src)
    ensures Base(sb) + 138 < |d| == sb.size
    ensures d[Base(sb) + 137] != Start(sb)[Base(sb) + 137] && d[Base(sb) + 138] != Start(sb)[Base(sb) + 138]
  {
    hide At, InUse, Start, SlotsOf, Written, Missing, Ones, IndexBlock, PutInode, WordAt, Owned, SamePtrs, FreeBlocks;
    BitsInside(sb);
    ChunkSlots();
    DataChanged(sb, d, i, own, src, 137);
    Held(sb, d, i, own, src, IndData(126));
    StartIs(sb, Base(sb) + 137);
    StartIs(sb, Base(sb) + 138);
    Held(sb, d, i, own, src, Ind);
    Held(sb, d, i, own, src, IndData(127));
    ChildIs(d, i, 1, Ind, 127);
    IndexWord(Base(sb), 127);
  }

  // Eleven blocks: the inode's, three of the bitmap, the file's last and its indirect block, and the holes.
  function ElevenOf(i: nat, m0: nat, m1: nat, m2: nat, D: nat, H: nat, last: nat): set<nat> {
    {i} + {m0} + {m1} + {m2} + {D} + {D + 138} + {D + 139} + {H} + {H + 1} + {H + 2} + {last}
  }

  function Eleven(sb: Super): set<nat> {
    ElevenOf(sb.inodestart, BBlock(sb, DataStart(sb)), BBlock(sb, Mid2(sb)), BBlock(sb, Last(sb)), DataStart(sb),
      Mid2(sb), Last(sb))
  }

  lemma {:induction false} ElevenIs(i: nat, m0: nat, m1: nat, m2: nat, D: nat, H: nat, last: nat)
    requires i < m0 < m1 < m2 < D && D + 139 < H && H + 2 < last
    ensures |ElevenOf(i, m0, m1, m2, D, H, last)| == 11
  {
    var s4 := OneMore(OneMore(OneMore({i}, i, m0), m0, m1), m1, m2);
    var s7 := OneMore(OneMore(OneMore(s4, m2, D), D, D + 138), D + 138, D + 139);
    var s11 := OneMore(OneMore(OneMore(OneMore(s7, D + 139, H), H, H + 1), H + 1, H + 2), H + 2, last);
  }

  function OneMore(s: set<nat>, top: nat, x: nat): (r: set<nat>)
    requires (forall y :: y in s ==> y <= top) && top < x
    ensures r == s + {x} && |r| == |s| + 1 && forall y :: y in r ==> y <= x
  {
    s + {x}
  }

  lemma {:induction false} LoggedAt(d0: Disk, d: Disk, l: set<nat>, b: nat)
    requires AllLogged(d0, {}, d, l)
    ensures |d| == |d0| && (b < |d| && d[b] != d0[b] ==> b in l)
  {
  }

  lemma {:induction false} HolesLogged(sb: Super, d: Disk, i: Inodes, own: map<nat, Owner>, src: seq<Byte>, l: set<nat>)
    requires Wide(sb) && After(sb, d, i, own, src) && AllLogged(Start(sb), {}, d, l)
    ensures forall b :: b in Holes(sb) ==> b in l && BBlock(sb, b) in l
  {
    hide After, InUse, Start, AllLogged, Holes;
    forall b | b in Holes(sb) ensures b in l && BBlock(sb, b) in l {
      HoleChanged(sb, d, i, own, src, b);
      BitmapChanged(sb, d, b);
      LoggedAt(Start(sb), d, l, b);
      LoggedAt(Start(sb), d, l, BBlock(sb, b));
    }
  }

  lemma {:induction false} ElevenIn(i: nat, m0: nat, m1: nat, m2: nat, D: nat, H: nat, last: nat, l: set<nat>)
    requires i in l && m0 in l && m1 in l && m2 in l && D in l && D + 138 in l && D + 139 in l && H in l &&
      H + 1 in l && H + 2 in l && last in l
    ensures ElevenOf(i, m0, m1, m2, D, H, last) <= l
  {
  }

  // The index block and the data block in use before the call, and the block of the inode.
  lemma {:induction false} OldLogged(sb: Super, d: Disk, i: Inodes, own: map<nat, Owner>, src: seq<Byte>, l: set<nat>)
    requires Wide(sb) && After(sb, d, i, own, src) && Synced(sb, d, i) && 1 in i && i[1].size != OFF
    requires AllLogged(Start(sb), {}, d, l)
    ensures DataStart(sb) + 138 in l && DataStart(sb) + 139 in l && sb.inodestart in l
  {
    hide After, Synced, Start, GetInode, AllLogged, FileInode;
    LoggedAt(Start(sb), d, l, DataStart(sb) + 138);
    LoggedAt(Start(sb), d, l, DataStart(sb) + 139);
    LoggedAt(Start(sb), d, l, sb.inodestart);
    OldChanged(sb, d, i, own, src);
    StartRead(sb);
    OneInode(sb, d, i);
    SizeNow(sb);
  }

  lemma {:induction false} ElevenLogged(sb: Super, d: Disk, i: Inodes, own: map<nat, Owner>, src: seq<Byte>,
      l: set<nat>)
    requires Wide(sb) && After(sb, d, i, own, src) && Synced(sb, d, i) && 1 in i && i[1].size != OFF
    requires AllLogged(Start(sb), {}, d, l)
    ensures |l| >= 11
  {
    hide After, Synced, InUse, Start, GetInode, AllLogged, Mid2, ElevenOf, FileInode, Last;
    HolesLogged(sb, d, i, own, src, l);
    var D, H, last := DataStart(sb), Mid2(sb), Last(sb);
    assert D in Holes(sb) && H in Holes(sb) && H + 1 in Holes(sb) && H + 2 in Holes(sb) && last in Holes(sb);
    OldLogged(sb, d, i, own, src, l);
    hide Holes, BBlock, DataStart, Wide;
    ElevenIn(sb.inodestart, BBlock(sb, D), BBlock(sb, H), BBlock(sb, last), D, H, last, l);
    BitsInside(sb);
    ElevenIs(sb.inodestart, BBlock(sb, D), BBlock(sb, H), BBlock(sb, last), D, H, last);
    SubsetCount(Eleven(sb), l);
  }

  lemma {:induction false} SizeNow(sb: Super)
    requires Wide(sb)
    ensures Base(sb) + 139 < UINT && FileInode(Base(sb)).size == OFF
  {
    BitsInside(sb);
  }

  lemma {:induction false} OneInode(sb: Super, d: Disk, i: Inodes)
    requires Synced(sb, d, i) && 1 in i
    ensures sb.inodestart < |d| && GetInode(d[sb.inodestart], 1) == i[1]
  {
    hide GetInode;
    assert OnDisk(sb, d, i, 1);
  }

  // The file open, with its offset at the end.
  method Opened(sb: Super) returns (f: OpenFile)
    requires Wide(sb)
    ensures fresh(f) && fresh(f.fs) && f.Valid() && f.inum == 1 && f.off == OFF
    ensures f.fs.sb == sb && f.fs.disk == Start(sb) && f.fs.inodes == StartInodes(sb) && f.fs.leaked == Others(sb)
  {
    hide Owned, At, Start, Backed, GetInode, Synced, InUse, ByteAt;
    StartOwned(sb);
    StartRead(sb);
    StartBacked(sb);
    var fs := new FileSystem.Mount(sb, Start(sb), {1}, StartOwner(sb), Others(sb));
    f := new OpenFile(fs, 1, true, true);
    var n, _ := f.FileRead(OFF);
  }

  lemma {:induction false} ChunkIs(sb: Super)
    requires Wide(sb)
    ensures CHUNK == 1536 && OFF / BSIZE == 137 && Past(OFF, CHUNK) == 141 && OFF + CHUNK <= MAXBYTES && OFF < UINT
  {
  }

  // The write succeeds, and has logged more than MAXOPBLOCKS blocks when it ends.
  method WideChunk(sb: Super) returns (r: int, ok: bool, ghost logged: set<nat>)
    requires Wide(sb)
    ensures ok && r == CHUNK && |logged| >= 11 > RedoLog.MAXOPBLOCKS
  {
    hide Owned, At, Start, Backed, Written, SamePtrs, Missing, Synced, AllLogged, FreeBlocks;
    hide InUse, SlotsOf, LoggedOnly, Past, StartInodes, Others, BitmapBlocks, Needs, Full, Holes;
    var f := Opened(sb);
    StartNeeds(sb);
    StartFree(sb);
    ChunkIs(sb);
    OneFile(sb);
    var src: seq<Byte> := Zeroes(CHUNK);
    r, ok := f.WriteOp(src, CHUNK);
    logged := f.fs.logged;
    ElevenLogged(sb, f.fs.disk, f.fs.inodes, f.fs.owner, src, logged);
  }

  lemma {:induction false} OneFile(sb: Super)
    requires Wide(sb)
    ensures StartInodes(sb).Keys == {1} && StartInodes(sb)[1].size == OFF
  {
  }

  function Zeroes(n: nat): (r: seq<Byte>)
    ensures |r| == n && forall k :: 0 <= k < n ==> r[k] == 0
  {
    if n == 0 then [] else Zeroes(n - 1) + [0]
  }
}
