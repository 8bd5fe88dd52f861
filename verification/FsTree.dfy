// Inodes and their block trees: direct, indirect and double-indirect pointers, which block each one
// names, and who owns every allocated block.
module FsTree {
  import opened Basics
  import opened Blocks
  import opened FsBitmap

  const NDIRECT := 11
  const NINDIRECT := 128
  const NDINDIRECT := 128 * 128
  const MAXFILE := NDIRECT + NINDIRECT + NDINDIRECT

  type Addrs = a: seq<Word> | |a| == NDIRECT + 2 witness seq(NDIRECT + 2, _ => 0)

  datatype Inode = Inode(size: nat, addrs: Addrs)

  type Inodes = map<nat, Inode>

  // A place in an inode's block tree that can hold a block number.
  datatype Slot =
    | Direct(i: nat)
    | Ind
    | IndData(j: nat)
    | Dbl
    | Mid(j: nat)
    | DblData(j: nat, k: nat)

  datatype Owner = Owner(inum: nat, slot: Slot)

  predicate SlotOk(s: Slot) {
    match s
    case Direct(i) => i < NDIRECT
    case Ind => true
    case IndData(j) => j < WORDS
    case Dbl => true
    case Mid(j) => j < WORDS
    case DblData(j, k) => j < WORDS && k < WORDS
  }

  // Slots that hold file data rather than block numbers.
  predicate IsData(s: Slot) {
    s.Direct? || s.IndData? || s.DblData?
  }

  // The slot of block bn of a file.
  function DataSlot(bn: nat): (s: Slot)
    requires bn < MAXFILE
    ensures SlotOk(s) && IsData(s)
  {
    if bn < NDIRECT then Direct(bn)
    else if bn < NDIRECT + NINDIRECT then IndData(bn - NDIRECT)
    else DblData((bn - NDIRECT - NINDIRECT) / 128, (bn - NDIRECT - NINDIRECT) % 128)
  }

  lemma {:induction false} DataSlotsDiffer(bn: nat, bn': nat)
    requires bn < MAXFILE && bn' < MAXFILE && DataSlot(bn) == DataSlot(bn')
    ensures bn == bn'
  {
  }

  // Word j of index block p; block number 0 stands for "none".
  function Word0(disk: Disk, p: nat, j: nat): Word
    requires j < WORDS
  {
    if 0 < p < |disk| then WordAt(disk[p], j) else 0
  }

  // The block number in a slot, 0 if there is none.
  function Ptr(disk: Disk, addrs: Addrs, s: Slot): Word
    requires SlotOk(s)
  {
    match s
    case Direct(i) => addrs[i]
    case Ind => addrs[NDIRECT]
    case IndData(j) => Word0(disk, addrs[NDIRECT], j)
    case Dbl => addrs[NDIRECT + 1]
    case Mid(j) => Word0(disk, addrs[NDIRECT + 1], j)
    case DblData(j, k) => Word0(disk, Word0(disk, addrs[NDIRECT + 1], j), k)
  }

  predicate Live(inodes: Inodes, o: Owner) {
    o.inum in inodes && SlotOk(o.slot)
  }

  function At(disk: Disk, inodes: Inodes, o: Owner): Word
    requires Live(inodes, o)
  {
    Ptr(disk, inodes[o.inum].addrs, o.slot)
  }

  // Byte pos of a file, reading missing blocks as zeroes.
  function ByteAt(disk: Disk, inodes: Inodes, inum: nat, pos: nat): Byte
    requires inum in inodes && pos < MAXFILE * BSIZE
  {
    var p := At(disk, inodes, Owner(inum, DataSlot(pos / BSIZE)));
    if 0 < p < |disk| then disk[p].bytes[pos % BSIZE] else 0
  }

  // Every block number in use names its own block: block trees are disjoint and block lists have no repeats.
  ghost predicate Named(disk: Disk, inodes: Inodes, owner: map<nat, Owner>) {
    forall o :: Live(inodes, o) && At(disk, inodes, o) != 0 ==>
      At(disk, inodes, o) as nat in owner && owner[At(disk, inodes, o) as nat] == o
  }

  ghost predicate OwnerOk(sb: Super, disk: Disk, inodes: Inodes, owner: map<nat, Owner>, b: nat)
    requires b in owner && SuperOk(sb) && |disk| == sb.size
  {
    DataStart(sb) <= b < sb.size && InUse(sb, disk, b) && Live(inodes, owner[b]) && At(disk, inodes, owner[b]) == b
  }

  ghost predicate LeakedOk(sb: Super, disk: Disk, owner: map<nat, Owner>, leaked: set<nat>)
    requires SuperOk(sb) && |disk| == sb.size
  {
    forall b :: b in leaked ==> DataStart(sb) <= b < sb.size && InUse(sb, disk, b) && b !in owner
  }

  // Marked blocks are metadata, owned or leaked: nothing else is in use.
  ghost predicate Accounted(sb: Super, disk: Disk, owner: map<nat, Owner>, leaked: set<nat>)
    requires SuperOk(sb) && |disk| == sb.size
  {
    forall b :: 0 <= b < sb.size ==> (InUse(sb, disk, b) <==> b < DataStart(sb) || b in owner || b in leaked)
  }

  // leaked: blocks in use that no inode names.
  ghost predicate Owned(sb: Super, disk: Disk, inodes: Inodes, owner: map<nat, Owner>, leaked: set<nat>) {
    && SuperOk(sb) && |disk| == sb.size
    && Named(disk, inodes, owner)
    && (forall b :: b in owner ==> OwnerOk(sb, disk, inodes, owner, b))
    && LeakedOk(sb, disk, owner, leaked)
    && Accounted(sb, disk, owner, leaked)
  }

  // No block has two owners.
  lemma {:induction false} OneOwner(sb: Super, disk: Disk, inodes: Inodes, owner: map<nat, Owner>, leaked: set<nat>,
      o: Owner, o': Owner)
    requires Owned(sb, disk, inodes, owner, leaked) && Live(inodes, o) && Live(inodes, o')
    requires At(disk, inodes, o) == At(disk, inodes, o') != 0
    ensures o == o'
  {
  }

  // Distinct (inode, block index) pairs have distinct disk blocks.
  lemma {:induction false} FilesDisjoint(sb: Super, disk: Disk, inodes: Inodes, owner: map<nat, Owner>,
      leaked: set<nat>, inum: nat, bn: nat, inum': nat, bn': nat)
    requires Owned(sb, disk, inodes, owner, leaked) && inum in inodes && inum' in inodes && bn < MAXFILE &&
      bn' < MAXFILE
    requires At(disk, inodes, Owner(inum, DataSlot(bn))) == At(disk, inodes, Owner(inum', DataSlot(bn'))) != 0
    ensures inum == inum' && bn == bn'
  {
    OneOwner(sb, disk, inodes, owner, leaked, Owner(inum, DataSlot(bn)), Owner(inum', DataSlot(bn')));
    DataSlotsDiffer(bn, bn');
  }

  // Where a block number lies, and that its block is a marked data block.
  lemma {:induction false} AtOk(sb: Super, disk: Disk, inodes: Inodes, owner: map<nat, Owner>, leaked: set<nat>,
      o: Owner)
    requires Owned(sb, disk, inodes, owner, leaked) && Live(inodes, o) && At(disk, inodes, o) != 0
    ensures DataStart(sb) <= At(disk, inodes, o) < |disk| && InUse(sb, disk, At(disk, inodes, o)) && |disk| == sb.size
    ensures At(disk, inodes, o) as nat in owner && owner[At(disk, inodes, o) as nat] == o &&
      At(disk, inodes, o) as nat !in leaked
  {
    assert OwnerOk(sb, disk, inodes, owner, At(disk, inodes, o) as nat);
  }

  // The disks hold the same in every owned block.
  ghost predicate Agree(disk: Disk, disk': Disk, owner: map<nat, Owner>) {
    |disk'| == |disk| && forall p :: p in owner && p < |disk| ==> disk'[p] == disk[p]
  }

  ghost predicate AgreeIndex(disk: Disk, disk': Disk, owner: map<nat, Owner>) {
    |disk'| == |disk| && forall p :: p in owner && !IsData(owner[p].slot) && p < |disk| ==> disk'[p] == disk[p]
  }

  // Pointers depend only on the inode and on owned index blocks.
  lemma {:induction false} AtFrame(disk: Disk, disk': Disk, inodes: Inodes, owner: map<nat, Owner>, o: Owner)
    requires AgreeIndex(disk, disk', owner) && Live(inodes, o) && Named(disk, inodes, owner)
    ensures At(disk', inodes, o) == At(disk, inodes, o)
  {
    hide WordAt;
    match o.slot
    case IndData(j) => assert At(disk, inodes, Owner(o.inum, Ind)) == inodes[o.inum].addrs[NDIRECT];
    case Mid(j) => assert At(disk, inodes, Owner(o.inum, Dbl)) == inodes[o.inum].addrs[NDIRECT + 1];
    case DblData(j, k) =>
      assert At(disk, inodes, Owner(o.inum, Dbl)) == inodes[o.inum].addrs[NDIRECT + 1];
      assert At(disk, inodes, Owner(o.inum, Mid(j))) == Word0(disk, inodes[o.inum].addrs[NDIRECT + 1], j);
    case _ =>
  }

  // File contents depend only on the inode and on owned blocks.
  lemma {:induction false} ByteFrame(disk: Disk, disk': Disk, inodes: Inodes, owner: map<nat, Owner>, inum: nat,
      pos: nat)
    requires Agree(disk, disk', owner) && inum in inodes && pos < MAXFILE * BSIZE && Named(disk, inodes, owner)
    ensures ByteAt(disk', inodes, inum, pos) == ByteAt(disk, inodes, inum, pos)
  {
    hide At;
    AtFrame(disk, disk', inodes, owner, Owner(inum, DataSlot(pos / BSIZE)));
  }

  // Same files, block for block: pointers may only have appeared, in inum's slots of the path.
  ghost predicate SameFiles(disk: Disk, inodes: Inodes, disk': Disk, inodes': Inodes, inum: nat) {
    && inodes'.Keys == inodes.Keys
    && (forall i :: i in inodes ==> inodes'[i].size == inodes[i].size && (i != inum ==> inodes'[i] == inodes[i]))
    && (forall i, pos: nat :: i in inodes && pos < MAXFILE * BSIZE ==>
       ByteAt(disk', inodes', i, pos) == ByteAt(disk, inodes, i, pos))
  }

  ghost predicate SamePtrs(disk: Disk, inodes: Inodes, disk': Disk, inodes': Inodes, inum: nat, path: set<Slot>)
    requires inodes'.Keys == inodes.Keys
  {
    forall o :: Live(inodes, o) ==>
      At(disk', inodes', o) == At(disk, inodes, o) || (At(disk, inodes, o) == 0 && o.inum == inum && o.slot in path)
  }

  ghost predicate Grown(disk: Disk, inodes: Inodes, disk': Disk, inodes': Inodes, inum: nat, path: set<Slot>) {
    SameFiles(disk, inodes, disk', inodes', inum) && SamePtrs(disk, inodes, disk', inodes', inum, path)
  }

  lemma {:induction false} GrownSame(disk: Disk, inodes: Inodes, inum: nat)
    ensures Grown(disk, inodes, disk, inodes, inum, {})
  {
  }

  lemma {:induction false} GrownOn(d0: Disk, i0: Inodes, d1: Disk, i1: Inodes, d2: Disk, i2: Inodes, inum: nat,
      p1: set<Slot>, p2: set<Slot>)
    requires Grown(d0, i0, d1, i1, inum, p1) && Grown(d1, i1, d2, i2, inum, p2)
    ensures Grown(d0, i0, d2, i2, inum, p1 + p2)
  {
    hide ByteAt, At;
  }

  // balloc's two writes: the bit and the zeroed block. The block is in use and nobody's yet.
  lemma {:induction false} Alloced(sb: Super, disk: Disk, inodes: Inodes, owner: map<nat, Owner>, leaked: set<nat>,
      b: nat, inum: nat)
    requires Owned(sb, disk, inodes, owner, leaked) && b < sb.size && !InUse(sb, disk, b)
    ensures
      var d := Mark(sb, disk, b, true)[b := ZeroBlock];
      Owned(sb, d, inodes, owner, leaked + {b}) && Grown(disk, inodes, d, inodes, inum, {})
    ensures b >= DataStart(sb) && b !in owner && b !in leaked
  {
    hide At, InUse, Mark;
    var d := Mark(sb, disk, b, true)[b := ZeroBlock];
    MarkIs(sb, disk, b, true);
    forall p | p in owner ensures p < |disk| && d[p] == disk[p] {
      assert OwnerOk(sb, disk, inodes, owner, p);
    }
    forall o | Live(inodes, o) ensures At(d, inodes, o) == At(disk, inodes, o) {
      AtFrame(disk, d, inodes, owner, o);
    }
    forall i, pos: nat | i in inodes && pos < MAXFILE * BSIZE
      ensures ByteAt(d, inodes, i, pos) == ByteAt(disk, inodes, i, pos) {
      ByteFrame(disk, d, inodes, owner, i, pos);
    }
    forall c | 0 <= c < sb.size ensures InUse(sb, d, c) <==> c == b || InUse(sb, disk, c) {
      MarkMarks(sb, disk, b, true, c);
      BitsFrame(sb, Mark(sb, disk, b, true), d, c);
    }
    forall c | c in owner ensures OwnerOk(sb, d, inodes, owner, c) {
      assert OwnerOk(sb, disk, inodes, owner, c);
    }
  }

  // What Mark touches, and what bits depend on.
  lemma {:induction false} MarkIs(sb: Super, disk: Disk, b: nat, on: bool)
    requires SuperOk(sb) && |disk| == sb.size && b < sb.size
    ensures |Mark(sb, disk, b, on)| == |disk| && SameData(sb, disk, Mark(sb, disk, b, on))
  {
    hide MarkBlock;
  }

  lemma {:induction false} BitsFrame(sb: Super, disk: Disk, disk': Disk, b: nat)
    requires SuperOk(sb) && |disk| == |disk'| == sb.size && b < sb.size
    requires forall c :: sb.bmapstart <= c < BitmapEnd(sb) ==> disk'[c] == disk[c]
    ensures InUse(sb, disk', b) == InUse(sb, disk, b)
  {
    hide BitOf;
  }

  lemma {:induction false} GrownMore(d: Disk, i: Inodes, d': Disk, i': Inodes, inum: nat, path: set<Slot>,
      path': set<Slot>)
    requires Grown(d, i, d', i', inum, path) && path <= path'
    ensures Grown(d, i, d', i', inum, path')
  {
    hide ByteAt, At;
  }

  lemma {:induction false} SuperIn(sb: Super, disk: Disk, inodes: Inodes, owner: map<nat, Owner>, leaked: set<nat>)
    requires Owned(sb, disk, inodes, owner, leaked)
    ensures SuperOk(sb) && |disk| == sb.size < 0x1_0000_0000
  {
  }

  // Bit bi of the bitmap block that starts at block b.
  lemma {:induction false} InUseIs(sb: Super, disk: Disk, b: nat, bi: nat)
    requires SuperOk(sb) && |disk| == sb.size && b % BPB == 0 && bi < BPB && b + bi < sb.size
    ensures BBlock(sb, b) == BBlock(sb, b + bi) < |disk|
    ensures InUse(sb, disk, b + bi) == BitOf(disk[BBlock(sb, b)].bytes[bi / 8], bi % 8)
  {
    assert (b + bi) % BPB == bi && (b + bi) / BPB == b / BPB;
  }

  lemma {:induction false} MarkAt(sb: Super, disk: Disk, b: nat, bi: nat, on: bool)
    requires SuperOk(sb) && |disk| == sb.size && b % BPB == 0 && bi < BPB && b + bi < sb.size
    ensures BBlock(sb, b) == BBlock(sb, b + bi) < |disk|
    ensures Mark(sb, disk, b + bi, on) == disk[BBlock(sb, b) := MarkBlock(disk[BBlock(sb, b)], bi, on)]
  {
    assert (b + bi) % BPB == bi && (b + bi) / BPB == b / BPB;
  }

  // Blocks logged since are bitmap blocks or among those touched.
  ghost predicate LoggedOnly(sb: Super, before: set<nat>, after: set<nat>, touched: set<nat>) {
    before <= after && forall b :: b in after ==> b in before || b in touched || BitmapFirst(sb) <= b < BitmapEnd(sb)
  }
}
