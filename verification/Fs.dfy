// fs.c: the block allocator and the inode content layer, over the logical disk that bread and
// log_write give a file-system call.
module Fs {
  import opened Basics
  import opened Blocks
  import opened FsBitmap
  import opened FsTree
  import opened FsLink
  import opened FsFile
  import opened FsTrunc
  import opened FsInode
  import opened FsCount

  // What bmap can come to: a block, or one of its two panics.
  datatype Mapped = Addr(b: Word) | NoBlocks | OutOfRange

  // uint addition wraps around.
  function Wrap(x: nat): nat {
    x % UINT
  }

  function Min(a: int, b: int): int {
    if a < b then a else b
  }

  ghost predicate Full(sb: Super, disk: Disk)
    requires SuperOk(sb) && |disk| == sb.size
  {
    forall c :: 0 <= c < sb.size ==> InUse(sb, disk, c)
  }

  ghost predicate InUseBelow(sb: Super, disk: Disk, b: nat)
    requires SuperOk(sb) && |disk| == sb.size
  {
    forall c :: 0 <= c < b && c < sb.size ==> InUse(sb, disk, c)
  }

  class FileSystem {
    const sb: Super
    var disk: Disk
    // The in-memory inodes.
    var inodes: Inodes
    // Who owns each block in use, and the blocks in use that nobody owns.
    ghost var owner: map<nat, Owner>
    ghost var leaked: set<nat>
    // The blocks passed to log_write.
    ghost var logged: set<nat>

    ghost predicate TreesOk()
      reads this
    {
      Owned(sb, disk, inodes, owner, leaked)
    }

    // Every block below a file's size is allocated, and inodes on disk are those in memory.
    ghost predicate Valid()
      reads this
    {
      TreesOk() && Synced(sb, disk, inodes) && forall i :: i in inodes ==>
        inodes[i].size <= MAXBYTES && Backed(disk, inodes, i, 0, inodes[i].size)
    }

    // A file system as mkfs leaves it: only metadata blocks in use, every file empty.
    constructor (sb: Super, disk: Disk, inums: set<nat>)
      requires SuperOk(sb) && |disk| == sb.size && forall b :: 0 <= b < sb.size ==>
        (InUse(sb, disk, b) <==> b < DataStart(sb))
      requires forall i :: i in inums ==>
        InodeBlock(sb, i) < sb.bmapstart && GetInode(disk[InodeBlock(sb, i)], i % IPB) == Inode(0, NoAddrs())
      ensures Valid() && this.sb == sb && this.disk == disk && inodes.Keys == inums && leaked == {}
      ensures forall i :: i in inodes ==> inodes[i] == Inode(0, NoAddrs())
    {
      this.sb, this.disk, owner, leaked, logged := sb, disk, map[], {}, {};
      inodes := map i | i in inums :: Inode(0, NoAddrs());
      new;
      hide InUse, At, GetInode;
      forall o | Live(inodes, o) ensures At(disk, inodes, o) == 0 {
        NothingNamed(disk, inodes, o.inum, o.slot);
      }
    }

    // readsb and ilock on a disk that holds files: what is in memory is read from the disk.
    constructor Mount(sb: Super, disk: Disk, inums: set<nat>, ghost owner: map<nat, Owner>, ghost leaked: set<nat>)
      requires SuperOk(sb) && |disk| == sb.size && forall i :: i in inums ==> InodeBlock(sb, i) < sb.bmapstart
      requires Owned(sb, disk, ReadInodes(sb, disk, inums), owner, leaked)
      requires forall i :: i in inums ==>
        var ip := ReadInodes(sb, disk, inums)[i];
        ip.size <= MAXBYTES && Backed(disk, ReadInodes(sb, disk, inums), i, 0, ip.size)
      ensures Valid() && this.sb == sb && this.disk == disk && inodes == ReadInodes(sb, disk, inums)
      ensures this.owner == owner && this.leaked == leaked
    {
      this.sb, this.disk, this.owner, this.leaked, logged := sb, disk, owner, leaked, {};
      inodes := ReadInodes(sb, disk, inums);
      new;
      hide Owned, Backed, GetInode;
    }

    // begin_op: nothing of this transaction is logged yet.
    method BeginOp()
      modifies this`logged
      ensures logged == {}
    {
      logged := {};
    }

    method LogWrite(b: nat, x: Block)
      requires b < |disk|
      modifies this`disk, this`logged
      ensures disk == old(disk)[b := x] && logged == old(logged) + {b}
    {
      disk := disk[b := x];
      logged := logged + {b};
    }

    // balloc: the first free block, marked in use and zeroed; none only when every bit is set.
    method Balloc(ghost inum: nat) returns (r: Option<nat>)
      requires TreesOk()
      modifies this`disk, this`leaked, this`logged
      ensures r.None? ==> disk == old(disk) && leaked == old(leaked) && logged == old(logged) && Full(sb, disk)
      ensures r.Some? ==>
        DataStart(sb) <= r.value < sb.size && !InUse(sb, old(disk), r.value) && forall c :: 0 <= c < r.value ==>
        InUse(sb, old(disk), c)
      ensures r.Some? ==> disk == Mark(sb, old(disk), r.value, true)[r.value := ZeroBlock]
      ensures r.Some? ==>
        r.value !in old(leaked) && leaked == old(leaked) + {r.value} &&
        logged == old(logged) + {BBlock(sb, r.value), r.value}
      ensures TreesOk() && Grown(old(disk), inodes, disk, inodes, inum, {})
      ensures Traced(sb, old(disk), old(logged), disk, logged)
    {
      hide InUse, Grown, Owned, Mark, Traced, BitmapEnd;
      SuperIn(sb, disk, inodes, owner, leaked);
      var b := 0;
      while b < sb.size
        invariant b % BPB == 0 && disk == old(disk) && leaked == old(leaked) && logged == old(logged)
        invariant InUseBelow(sb, disk, b)
      {
        var bi := FindFree(b);
        if bi < BPB && b + bi < sb.size {
          Take(b, bi, inum);
          return Some(b + bi);
        }
        b := b + BPB;
      }
      GrownSame(disk, inodes, inum);
      TracedNone(sb, disk, logged);
      return None;
    }

    // Marking a free block in use, and bzero.
    method Take(b: nat, bi: nat, ghost inum: nat)
      requires TreesOk() && b % BPB == 0 && bi < BPB && b + bi < sb.size && !InUse(sb, disk, b + bi)
      modifies this`disk, this`leaked, this`logged
      ensures DataStart(sb) <= b + bi && b + bi !in old(leaked) && leaked == old(leaked) + {b + bi}
      ensures disk == Mark(sb, old(disk), b + bi, true)[b + bi := ZeroBlock]
      ensures logged == old(logged) + {BBlock(sb, b + bi), b + bi}
      ensures TreesOk() && Grown(old(disk), inodes, disk, inodes, inum, {})
      ensures Traced(sb, old(disk), old(logged), disk, logged)
    {
      hide InUse, Grown, Owned, Mark, Traced, BitmapEnd;
      ghost var d0, l0 := disk, logged;
      SuperIn(sb, disk, inodes, owner, leaked);
      Alloced(sb, disk, inodes, owner, leaked, b + bi, inum);
      MarkAt(sb, disk, b, bi, true);
      TracedWrite(sb, disk, logged, BBlock(sb, b), MarkBlock(disk[BBlock(sb, b)], bi, true));
      LogWrite(BBlock(sb, b), MarkBlock(disk[BBlock(sb, b)], bi, true));
      ghost var d1, l1 := disk, logged;
      TracedWrite(sb, disk, logged, b + bi, ZeroBlock);
      LogWrite(b + bi, ZeroBlock);
      TracedOn(sb, d0, l0, d1, l1, disk, logged);
      leaked := leaked + {b + bi};
    }

    // balloc's inner loop: the first clear bit of one bitmap block.
    method FindFree(b: nat) returns (bi: nat)
      requires SuperOk(sb) && |disk| == sb.size && b < sb.size && b % BPB == 0 && InUseBelow(sb, disk, b)
      ensures bi <= BPB && InUseBelow(sb, disk, b + bi)
      ensures bi < BPB && b + bi < sb.size ==> !InUse(sb, disk, b + bi)
      ensures bi == BPB || b + bi >= sb.size ==> InUseBelow(sb, disk, b + BPB)
    {
      hide InUse;
      bi := 0;
      while bi < BPB && b + bi < sb.size
        invariant 0 <= bi <= BPB && InUseBelow(sb, disk, b + bi)
      {
        InUseIs(sb, disk, b, bi);
        if !BitOf(disk[BBlock(sb, b)].bytes[bi / 8], bi % 8) {
          return;
        }
        bi := bi + 1;
      }
    }

    // bfree; "freeing free block" is its precondition.
    method Bfree(b: nat)
      requires SuperOk(sb) && |disk| == sb.size && b < sb.size && InUse(sb, disk, b)
      modifies this`disk, this`logged
      ensures disk == Mark(sb, old(disk), b, false) && logged == old(logged) + {BBlock(sb, b)}
      ensures Traced(sb, old(disk), old(logged), disk, logged)
    {
      hide InUse, Traced;
      TracedWrite(sb, disk, logged, BBlock(sb, b), MarkBlock(disk[BBlock(sb, b)], b % BPB, false));
      LogWrite(BBlock(sb, b), MarkBlock(disk[BBlock(sb, b)], b % BPB, false));
    }

    // What one step of bmap leaves: the slot holds the block returned, and was filled only if it was empty.
    ghost predicate Stepped(d0: Disk, i0: Inodes, leaked0: set<nat>, logged0: set<nat>, inum: nat, s: Slot,
        r: Option<Word>)
      requires inum in i0 && SlotOk(s)
      reads this
    {
      && TreesOk() && leaked == leaked0 && inodes.Keys == i0.Keys && Grown(d0, i0, disk, inodes, inum, {s})
      && (r.None? ==> Full(sb, disk) && At(disk, inodes, Owner(inum, s)) == 0)
      && Traced(sb, d0, logged0, disk, logged)
      && (r.Some? ==> At(disk, inodes, Owner(inum, s)) == r.value != 0)
      && (At(d0, i0, Owner(inum, s)) != 0 ==> r.Some? && disk == d0 && inodes == i0 && logged == logged0)
    }

    // if((addr = ip->addrs[i]) == 0) ip->addrs[i] = addr = balloc(ip->dev)
    method AddrOf(inum: nat, i: nat) returns (r: Option<Word>)
      requires TreesOk() && inum in inodes && i < NDIRECT + 2
      modifies this
      ensures Stepped(old(disk), old(inodes), old(leaked), old(logged), inum, TopSlot(i), r)
      ensures r.Some? ==> LoggedOnly(sb, old(logged), logged, {r.value as nat})
    {
      hide InUse, Owned, Grown, At, Traced;
      TopIs(disk, inodes, inum, i);
      var addr := inodes[inum].addrs[i];
      if addr == 0 {
        ghost var d0, i0, leaked0 := disk, inodes, leaked;
        SuperIn(sb, disk, inodes, owner, leaked);
        var b := Balloc(inum);
        if b.None? {
          GrownMore(d0, i0, disk, inodes, inum, {}, {TopSlot(i)});
          return None;
        }
        addr := b.value;
        TopStep(sb, disk, inodes, owner, leaked, inum, i, addr);
        GrownOn(d0, i0, disk, inodes, disk, WithAddr(inodes, inum, i, addr), inum, {}, {TopSlot(i)});
        assert {} + {TopSlot(i)} == {TopSlot(i)} && leaked - {addr as nat} == leaked0;
        inodes := WithAddr(inodes, inum, i, addr);
        owner := owner[addr as nat := Owner(inum, TopSlot(i))];
        leaked := leaked - {addr as nat};
        return Some(addr);
      }
      GrownSame(disk, inodes, inum);
      TracedNone(sb, disk, logged);
      GrownMore(disk, inodes, disk, inodes, inum, {}, {TopSlot(i)});
      return Some(addr);
    }

    // if((addr = a[j]) == 0) { a[j] = addr = balloc(ip->dev); log_write(bp); }, a being block p of slot t.
    method EntryOf(inum: nat, ghost t: Slot, p: nat, j: nat) returns (r: Option<Word>)
      requires TreesOk() && inum in inodes && SlotOk(t) && !IsData(t) && j < WORDS
      requires p == At(disk, inodes, Owner(inum, t)) != 0
      modifies this
      ensures SlotOk(Child(t, j)) && Stepped(old(disk), old(inodes), old(leaked), old(logged), inum, Child(t, j), r)
      ensures r.Some? ==> LoggedOnly(sb, old(logged), logged, {p, r.value as nat})
    {
      hide InUse, Owned, Grown, At, WordAt, SetWord, Traced;
      AtOk(sb, disk, inodes, owner, leaked, Owner(inum, t));
      ChildIs(disk, inodes, inum, t, j);
      var addr := WordAt(disk[p], j);
      if addr == 0 {
        ghost var d0, leaked0, l0 := disk, leaked, logged;
        SuperIn(sb, disk, inodes, owner, leaked);
        var b := Balloc(inum);
        if b.None? {
          GrownMore(d0, inodes, disk, inodes, inum, {}, {Child(t, j)});
          return None;
        }
        addr := b.value;
        StillAt(d0, inodes, disk, inodes, inum, Owner(inum, t));
        StillNone(d0, inodes, disk, inodes, inum, Owner(inum, Child(t, j)));
        EntryStep(sb, disk, inodes, owner, leaked, inum, t, j, addr, p);
        GrownOn(d0, inodes, disk, inodes, disk[p := SetWord(disk[p], j, addr)], inodes, inum, {}, {Child(t, j)});
        assert {} + {Child(t, j)} == {Child(t, j)} && leaked - {addr as nat} == leaked0;
        ghost var d1, l1 := disk, logged;
        TracedWrite(sb, disk, logged, p, SetWord(disk[p], j, addr));
        LogWrite(p, SetWord(disk[p], j, addr));
        TracedOn(sb, d0, l0, d1, l1, disk, logged);
        owner := owner[addr as nat := Owner(inum, Child(t, j))];
        leaked := leaked - {addr as nat};
        return Some(addr);
      }
      GrownSame(disk, inodes, inum);
      TracedNone(sb, disk, logged);
      GrownMore(disk, inodes, disk, inodes, inum, {}, {Child(t, j)});
      return Some(addr);
    }

    // What a call of bmap leaves.
    ghost predicate Mappings(d0: Disk, i0: Inodes, leaked0: set<nat>, logged0: set<nat>, inum: nat, bn: nat, r: Mapped)
      requires inum in i0 && bn < MAXFILE
      reads this
    {
      && TreesOk() && leaked == leaked0 && inodes.Keys == i0.Keys && Grown(d0, i0, disk, inodes, inum, Path(bn))
      && !r.OutOfRange? && (r.NoBlocks? ==> Full(sb, disk) && At(disk, inodes, Owner(inum, DataSlot(bn))) == 0)
      && Traced(sb, d0, logged0, disk, logged)
      && (r.Addr? ==> At(disk, inodes, Owner(inum, DataSlot(bn))) == r.b != 0)
      && (At(d0, i0, Owner(inum, DataSlot(bn))) != 0 ==> r.Addr? && disk == d0 && inodes == i0 && logged == logged0)
    }

    // bmap: the disk block of block bn of a file, allocated, with the index blocks above it, if need be.
    method Bmap(inum: nat, bn: nat) returns (r: Mapped)
      requires TreesOk() && inum in inodes
      modifies this
      ensures r.OutOfRange? <==> bn >= MAXFILE
      ensures r.OutOfRange? ==>
        disk == old(disk) && inodes == old(inodes) && leaked == old(leaked) && owner == old(owner)
      ensures bn < MAXFILE ==> Mappings(old(disk), old(inodes), old(leaked), old(logged), inum, bn, r)
      ensures r.Addr? ==> LoggedOnly(sb, old(logged), logged, Touched(disk, inodes, inum, Path(bn)))
    {
      hide InUse, Owned, Grown, At, LoggedOnly, Touched, Traced;
      ghost var d0, i0, l0 := disk, inodes, logged;
      if bn < MAXFILE { PathSet(disk, inodes, inum, bn); }
      if bn < NDIRECT {
        var a := AddrOf(inum, bn);
        assert {TopSlot(bn)} == Path(bn);
        if a.None? { return NoBlocks; }
        TouchedHas(disk, inodes, inum, Path(bn), Direct(bn));
        LoggedOn(sb, l0, logged, logged, {a.value as nat}, {}, Touched(disk, inodes, inum, Path(bn)));
        return Addr(a.value);
      }
      var n := bn - NDIRECT;
      if n < NINDIRECT {
        var a := AddrOf(inum, NDIRECT);
        if a.None? {
          GrownMore(d0, i0, disk, inodes, inum, {Ind}, Path(bn));
          NoChild(disk, inodes, inum, Ind, n);
          return NoBlocks;
        }
        ghost var d1, i1, l1 := disk, inodes, logged;
        var b := EntryOf(inum, Ind, a.value, n);
        TracedOn(sb, d0, l0, d1, l1, disk, logged);
        GrownOn(d0, i0, d1, i1, disk, inodes, inum, {Ind}, {IndData(n)});
        assert {Ind} + {IndData(n)} == Path(bn);
        if b.None? { return NoBlocks; }
        StillAt(d1, i1, disk, inodes, inum, Owner(inum, Ind));
        TouchedHas(disk, inodes, inum, Path(bn), Ind);
        TouchedHas(disk, inodes, inum, Path(bn), IndData(n));
        LoggedOn(sb, l0, l1, logged, {a.value as nat}, {a.value as nat, b.value as nat},
          Touched(disk, inodes, inum, Path(bn)));
        return Addr(b.value);
      }
      n := n - NINDIRECT;
      if n < NDINDIRECT {
        r := BmapDouble(inum, bn, n);
        return;
      }
      return OutOfRange;
    }

    // bmap's double-indirect branch.
    method BmapDouble(inum: nat, ghost bn: nat, n: nat) returns (r: Mapped)
      requires TreesOk() && inum in inodes && n < NDINDIRECT && bn == NDIRECT + NINDIRECT + n
      modifies this
      ensures Mappings(old(disk), old(inodes), old(leaked), old(logged), inum, bn, r)
      ensures r.Addr? ==> LoggedOnly(sb, old(logged), logged, Touched(disk, inodes, inum, Path(bn)))
    {
      hide InUse, Owned, Grown, At, LoggedOnly, Touched, Traced;
      ghost var d0, i0, l0 := disk, inodes, logged;
      PathSet(disk, inodes, inum, bn);
      var a := AddrOf(inum, NDIRECT + 1);
      if a.None? {
        GrownMore(d0, i0, disk, inodes, inum, {Dbl}, Path(bn));
        NoChild(disk, inodes, inum, Dbl, n / 128);
        NoChild(disk, inodes, inum, Mid(n / 128), n % 128);
        return NoBlocks;
      }
      ghost var d1, i1, l1 := disk, inodes, logged;
      var b := EntryOf(inum, Dbl, a.value, n / 128);
      TracedOn(sb, d0, l0, d1, l1, disk, logged);
      GrownOn(d0, i0, d1, i1, disk, inodes, inum, {Dbl}, {Mid(n / 128)});
      if b.None? {
        GrownMore(d0, i0, disk, inodes, inum, {Dbl} + {Mid(n / 128)}, Path(bn));
        NoChild(disk, inodes, inum, Mid(n / 128), n % 128);
        return NoBlocks;
      }
      ghost var d2, i2, l2 := disk, inodes, logged;
      StillAt(d1, i1, disk, inodes, inum, Owner(inum, Dbl));
      var c := EntryOf(inum, Mid(n / 128), b.value, n % 128);
      TracedOn(sb, d0, l0, d2, l2, disk, logged);
      GrownOn(d0, i0, d2, i2, disk, inodes, inum, {Dbl} + {Mid(n / 128)}, {DblData(n / 128, n % 128)});
      assert {Dbl} + {Mid(n / 128)} + {DblData(n / 128, n % 128)} == Path(bn);
      if c.None? { return NoBlocks; }
      StillAt(d2, i2, disk, inodes, inum, Owner(inum, Dbl));
      StillAt(d2, i2, disk, inodes, inum, Owner(inum, Mid(n / 128)));
      TouchedHas(disk, inodes, inum, Path(bn), Dbl);
      TouchedHas(disk, inodes, inum, Path(bn), Mid(n / 128));
      TouchedHas(disk, inodes, inum, Path(bn), DblData(n / 128, n % 128));
      ghost var t := {a.value as nat, b.value as nat, c.value as nat};
      LoggedOn(sb, l0, l1, l2, {a.value as nat}, {a.value as nat, b.value as nat}, t);
      LoggedOn(sb, l0, l2, logged, t, {b.value as nat, c.value as nat}, Touched(disk, inodes, inum, Path(bn)));
      return Addr(c.value);
    }

    // itrunc under way: the turns before r are done and the first i words of the inode's array cleared.
    ghost predicate Cutting(d0: Disk, i0: Inodes, l0: set<nat>, inum: nat, i: nat, r: nat)
      requires inum in i0
      reads this
    {
      && Owned(sb, d0, i0, owner, leaked) && inodes == Cut(i0, inum, i) && Truncating(sb, d0, owner, inum, disk, r)
      && Traced(sb, d0, {}, disk, logged) && LoggedOnly(sb, l0, logged, {})
    }

    // One if(a) bfree(ip->dev, a), a being the block in slot s.
    method FreeSlot(a: Word, ghost d0: Disk, ghost i0: Inodes, ghost l0: set<nat>, ghost inum: nat, ghost i: nat,
        ghost s: Slot)
      requires inum in i0 && SlotOk(s) && !s.Mid? && Cutting(d0, i0, l0, inum, i, Rank(s)) &&
        a == At(d0, i0, Owner(inum, s))
      modifies this`disk, this`logged
      ensures Cutting(d0, i0, l0, inum, i, Rank(s) + 1)
    {
      hide Owned, InUse, At, Rank, Mark, Cut, Traced, LoggedOnly, BBlock;
      if a != 0 {
        FreeTurn(sb, d0, i0, owner, leaked, inum, disk, s);
        ghost var d1, l1 := disk, logged;
        Bfree(a);
        TracedOn(sb, d0, {}, d1, l1, disk, logged);
        BitLogged(sb, l0, l1, a);
      } else {
        SkipTurn(sb, d0, i0, owner, leaked, inum, disk, s);
      }
    }

    method ClearAddr(inum: nat, i: nat, ghost d0: Disk, ghost i0: Inodes, ghost l0: set<nat>, ghost r: nat)
      requires inum in i0 && i < NDIRECT + 2 && Cutting(d0, i0, l0, inum, i, r)
      modifies this`inodes
      ensures Cutting(d0, i0, l0, inum, i + 1, r)
    {
      hide Owned, Truncating, Traced;
      CutSteps(i0, inum, i);
      inodes := inodes[inum := inodes[inum].(addrs := inodes[inum].addrs[i := 0])];
    }

    // itrunc's first loop.
    method FreeDirect(inum: nat, ghost d0: Disk, ghost i0: Inodes, ghost l0: set<nat>)
      requires inum in i0 && Cutting(d0, i0, l0, inum, 0, 0)
      modifies this`disk, this`logged, this`inodes
      ensures Cutting(d0, i0, l0, inum, NDIRECT, NDIRECT)
    {
      hide Cutting;
      var i := 0;
      while i < NDIRECT
        invariant i <= NDIRECT && Cutting(d0, i0, l0, inum, i, i)
      {
        CutAddr(d0, i0, l0, inum, i, i);
        TopIs(d0, i0, inum, i);
        assert Rank(Direct(i)) == i;
        FreeSlot(inodes[inum].addrs[i], d0, i0, l0, inum, i, Direct(i));
        ClearAddr(inum, i, d0, i0, l0, i + 1);
        i := i + 1;
      }
    }

    // Word i is still what it was when its turn to be cleared comes.
    lemma {:induction false} CutAddr(d0: Disk, i0: Inodes, l0: set<nat>, inum: nat, i: nat, r: nat)
      requires inum in i0 && i < NDIRECT + 2 && Cutting(d0, i0, l0, inum, i, r)
      ensures inum in inodes && inodes[inum].addrs[i] == i0[inum].addrs[i]
    {
      CutSteps(i0, inum, i);
    }

    // An index block of the inode reads as it did: freeing touches only bitmap blocks.
    lemma {:induction false} IndexStays(d0: Disk, i0: Inodes, l0: set<nat>, inum: nat, i: nat, r: nat, t: Slot, j: nat)
      requires inum in i0 && Cutting(d0, i0, l0, inum, i, r) && SlotOk(t) && !IsData(t) && j < WORDS
      requires At(d0, i0, Owner(inum, t)) != 0
      ensures At(d0, i0, Owner(inum, t)) < |disk|
      ensures Live(i0, Owner(inum, Child(t, j)))
      ensures At(d0, i0, Owner(inum, Child(t, j))) == WordAt(disk[At(d0, i0, Owner(inum, t))], j)
    {
      hide Owned, At, WordAt;
      AtOk(sb, d0, i0, owner, leaked, Owner(inum, t));
      ChildIs(d0, i0, inum, t, j);
    }

    // itrunc on the indirect block.
    method FreeIndirect(inum: nat, ghost d0: Disk, ghost i0: Inodes, ghost l0: set<nat>)
      requires inum in i0 && Cutting(d0, i0, l0, inum, NDIRECT, NDIRECT)
      modifies this`disk, this`logged, this`inodes
      ensures Cutting(d0, i0, l0, inum, NDIRECT + 1, R_DBL)
    {
      hide Cutting, At;
      CutAddr(d0, i0, l0, inum, NDIRECT, NDIRECT);
      TopIs(d0, i0, inum, NDIRECT);
      var p := inodes[inum].addrs[NDIRECT];
      if p != 0 {
        var j := 0;
        while j < NINDIRECT
          invariant j <= NINDIRECT && Cutting(d0, i0, l0, inum, NDIRECT, NDIRECT + j)
        {
          IndexStays(d0, i0, l0, inum, NDIRECT, NDIRECT + j, Ind, j);
          FreeSlot(WordAt(disk[p], j), d0, i0, l0, inum, NDIRECT, IndData(j));
          j := j + 1;
        }
        FreeSlot(p, d0, i0, l0, inum, NDIRECT, Ind);
        ClearAddr(inum, NDIRECT, d0, i0, l0, R_DBL);
      } else {
        SkipIndirect(d0, i0, l0, inum);
      }
    }

    lemma {:induction false} SkipIndirect(d0: Disk, i0: Inodes, l0: set<nat>, inum: nat)
      requires inum in i0 && Cutting(d0, i0, l0, inum, NDIRECT, NDIRECT) && i0[inum].addrs[NDIRECT] == 0
      ensures Cutting(d0, i0, l0, inum, NDIRECT + 1, R_DBL)
    {
      hide Owned, Truncating, At, Rank, Cut;
      forall s | SlotOk(s) && NDIRECT <= Rank(s) < R_DBL ensures At(d0, i0, Owner(inum, s)) == 0 {
        NoIndirect(d0, i0, inum, s);
      }
      SkipTurns(sb, d0, i0, owner, leaked, inum, disk, NDIRECT, R_DBL);
      CutSteps(i0, inum, NDIRECT);
    }

    lemma {:induction false} SkipDouble(d0: Disk, i0: Inodes, l0: set<nat>, inum: nat)
      requires inum in i0 && Cutting(d0, i0, l0, inum, NDIRECT + 1, R_DBL) && i0[inum].addrs[NDIRECT + 1] == 0
      ensures Cutting(d0, i0, l0, inum, NDIRECT + 2, R_END)
    {
      hide Owned, Truncating, At, Rank, Cut;
      forall s | SlotOk(s) && R_DBL <= Rank(s) < R_END ensures At(d0, i0, Owner(inum, s)) == 0 {
        NoIndirect(d0, i0, inum, s);
      }
      SkipTurns(sb, d0, i0, owner, leaked, inum, disk, R_DBL, R_END);
      CutSteps(i0, inum, NDIRECT + 1);
    }

    lemma {:induction false} SkipMiddle(d0: Disk, i0: Inodes, l0: set<nat>, inum: nat, j: nat)
      requires inum in i0 && j < WORDS && Cutting(d0, i0, l0, inum, NDIRECT + 1, R_DBL + 128 * j) &&
        At(d0, i0, Owner(inum, Mid(j))) == 0
      ensures Cutting(d0, i0, l0, inum, NDIRECT + 1, R_DBL + 128 * (j + 1))
    {
      hide Owned, Truncating, At, Rank, Cut;
      forall s | SlotOk(s) && R_DBL + 128 * j <= Rank(s) < R_DBL + 128 * (j + 1)
        ensures At(d0, i0, Owner(inum, s)) == 0 {
        NoMiddle(d0, i0, inum, j, s);
      }
      SkipTurns(sb, d0, i0, owner, leaked, inum, disk, R_DBL + 128 * j, R_DBL + 128 * (j + 1));
    }

    // itrunc on the double-indirect block; the middle-level blocks a[j] are read but never freed.
    method FreeDouble(inum: nat, ghost d0: Disk, ghost i0: Inodes, ghost l0: set<nat>)
      requires inum in i0 && Cutting(d0, i0, l0, inum, NDIRECT + 1, R_DBL)
      modifies this`disk, this`logged, this`inodes
      ensures Cutting(d0, i0, l0, inum, NDIRECT + 2, R_END)
    {
      hide Cutting, At;
      CutAddr(d0, i0, l0, inum, NDIRECT + 1, R_DBL);
      TopIs(d0, i0, inum, NDIRECT + 1);
      var p := inodes[inum].addrs[NDIRECT + 1];
      if p != 0 {
        var j := 0;
        while j < 128
          invariant j <= 128 && Cutting(d0, i0, l0, inum, NDIRECT + 1, R_DBL + 128 * j)
        {
          IndexStays(d0, i0, l0, inum, NDIRECT + 1, R_DBL + 128 * j, Dbl, j);
          var a := WordAt(disk[p], j);
          if a != 0 {
            var k := 0;
            while k < 128
              invariant k <= 128 && Cutting(d0, i0, l0, inum, NDIRECT + 1, R_DBL + 128 * j + k)
            {
              IndexStays(d0, i0, l0, inum, NDIRECT + 1, R_DBL + 128 * j + k, Mid(j), k);
              FreeSlot(WordAt(disk[a], k), d0, i0, l0, inum, NDIRECT + 1, DblData(j, k));
              k := k + 1;
            }
          } else {
            SkipMiddle(d0, i0, l0, inum, j);
          }
          j := j + 1;
        }
        FreeSlot(p, d0, i0, l0, inum, NDIRECT + 1, Dbl);
        ClearAddr(inum, NDIRECT + 1, d0, i0, l0, R_END);
      } else {
        SkipDouble(d0, i0, l0, inum);
      }
    }

    // itrunc: every data block and top index block of the file is free again, no other block is, and
    // the middle-level blocks are lost to everyone.
    method ITrunc(inum: nat)
      requires Valid() && inum in inodes
      modifies this
      ensures Valid() && inodes == old(inodes)[inum := Inode(0, NoAddrs())]
      ensures owner == Others(old(owner), inum) && leaked == old(leaked) + Middles(old(owner), inum)
      ensures Truncating(sb, old(disk), old(owner), inum, disk, R_END)
      ensures forall o :: Live(inodes, o) && o.inum != inum ==> At(disk, inodes, o) == old(At(disk, inodes, o))
      ensures forall i, pos: nat :: i in inodes && i != inum && pos < MAXBYTES ==>
        ByteAt(disk, inodes, i, pos) == old(ByteAt(disk, inodes, i, pos))
      ensures AllLogged(old(disk), {}, disk, logged)
      ensures LoggedOnly(sb, old(logged), logged, {InodeBlock(sb, inum)})
      ensures old(logged) == {} ==> forall k: nat :: Spans(sb, k) ==> |logged| <= k + 1
    {
      hide Owned, Truncating, At, ByteAt, Synced, PutInode, Backed, Traced, Others, Middles, LoggedOnly;
      ghost var d0, i0, l0 := disk, inodes, logged;
      TracedNone(sb, disk, logged);
      TracedStart(sb, disk, logged);
      LoggedNone(sb, logged);
      TruncStart(sb, disk, inodes, owner, leaked, inum);
      CutSteps(inodes, inum, 0);
      FreeDirect(inum, d0, i0, l0);
      FreeIndirect(inum, d0, i0, l0);
      FreeDouble(inum, d0, i0, l0);
      AllCut(i0, inum);
      Truncated(sb, d0, i0, owner, leaked, inum, disk, 0);
      inodes := inodes[inum := Inode(0, inodes[inum].addrs)];
      TruncBytes(sb, d0, i0, owner, leaked, inum, disk, 0);
      ghost var own0, d1, l1 := owner, disk, logged;
      owner, leaked := Others(owner, inum), leaked + Middles(owner, inum);
      TracedParts(sb, d0, {}, disk, logged);
      InodeSaved(sb, d0, i0, disk, inodes, owner, leaked, inum);
      IUpdate(inum);
      TruncatingStill(sb, d0, own0, inum, d1, R_END, InodeBlock(sb, inum), disk[InodeBlock(sb, inum)]);
      LoggedToo(sb, l0, l1, InodeBlock(sb, inum));
      LoggedMore(d0, {}, d1, l1, InodeBlock(sb, inum), disk[InodeBlock(sb, inum)]);
      forall i | i in inodes ensures inodes[i].size <= MAXBYTES && Backed(disk, inodes, i, 0, inodes[i].size) {
        if i == inum { BackedNone(disk, inodes, i); } else { BackedStill(d0, i0, disk, inodes, i, 0, i0[i].size); }
      }
      SuperIn(sb, disk, inodes, owner, leaked);
      if l0 == {} {
        forall k: nat | Spans(sb, k) ensures |logged| <= k + 1 {
          TruncFits(sb, k, logged, InodeBlock(sb, inum));
        }
      }
    }

    // iupdate: the dinode takes the size and the addresses.
    method IUpdate(inum: nat)
      requires inum in inodes && inodes[inum].size < UINT && InodeBlock(sb, inum) < |disk|
      modifies this`disk, this`logged
      ensures logged == old(logged) + {InodeBlock(sb, inum)}
      ensures disk == old(disk)[InodeBlock(sb, inum) :=
        PutInode(old(disk)[InodeBlock(sb, inum)], inum % IPB, inodes[inum])]
    {
      var b := InodeBlock(sb, inum);
      LogWrite(b, PutInode(disk[b], inum % IPB, inodes[inum]));
    }

    // readi on a regular file: -1 past the end or on wrap-around; else the bytes there, up to the size.
    method ReadI(inum: nat, off: nat, n: nat) returns (r: int, dst: seq<Byte>)
      requires Valid() && inum in inodes && off < UINT && n < UINT
      modifies this
      ensures Valid() && disk == old(disk) && inodes == old(inodes) && leaked == old(leaked) && logged == old(logged)
      ensures r == -1 <==> off > inodes[inum].size || off + n >= UINT
      ensures r != -1 ==> r == |dst| == Min(n, inodes[inum].size - off)
      ensures r != -1 ==> forall k :: 0 <= k < r ==> off + k < MAXBYTES && dst[k] == ByteAt(disk, inodes, inum, off + k)
    {
      hide Owned, Grown, At, DataSlot, Traced, Synced, Backed, Full;
      dst := [];
      var len := n;
      if off > inodes[inum].size || Wrap(off + n) < off {
        return -1, dst;
      }
      if Wrap(off + n) > inodes[inum].size {
        len := inodes[inum].size - off;
      }
      var tot := 0;
      while tot < len
        invariant tot <= len && |dst| == tot
        invariant disk == old(disk) && inodes == old(inodes) && leaked == old(leaked) && logged == old(logged) &&
          TreesOk()
        invariant forall k :: 0 <= k < tot ==> dst[k] == ByteAt(disk, inodes, inum, off + k)
      {
        var o := off + tot;
        BackedAt(disk, inodes, inum, 0, inodes[inum].size, o);
        var b := Bmap(inum, o / BSIZE);
        var m := Min(len - tot, BSIZE - o % BSIZE);
        AtOk(sb, disk, inodes, owner, leaked, Owner(inum, DataSlot(o / BSIZE)));
        dst := dst + disk[b.b].bytes[o % BSIZE..o % BSIZE + m];
        forall k | tot <= k < tot + m ensures dst[k] == ByteAt(disk, inodes, inum, off + k) {
          InChunk(o, m, off + k);
        }
        tot := tot + m;
      }
      return len, dst;
    }

    // writei under way: tot bytes of src are in the file at off, and nothing else has changed.
    ghost predicate Writing(d0: Disk, i0: Inodes, leaked0: set<nat>, logged0: set<nat>, inum: nat, off: nat,
        src: seq<Byte>, tot: nat)
      requires tot <= |src| && off + tot <= MAXBYTES
      reads this
    {
      && TreesOk() && leaked == leaked0 && inum in i0 && inum in inodes
      && Kept(d0, i0, disk, inodes, inum) && Written(d0, i0, disk, inodes, inum, off, src, tot)
      && Backed(disk, inodes, inum, off, off + tot) && Traced(sb, d0, logged0, disk, logged)
      && Past(off, tot) <= MAXFILE && SamePtrs(d0, i0, disk, inodes, inum, SlotsOf(off / BSIZE, Past(off, tot)))
      && LoggedOnly(sb, logged0, logged, Touched(disk, inodes, inum, SlotsOf(off / BSIZE, Past(off, tot))))
    }

    // writei cut short by balloc's panic: no block is free and some slot still needs one.
    ghost predicate Stuck(d0: Disk, i0: Inodes, leaked0: set<nat>, inum: nat, off: nat, n: nat)
      requires Past(off, n) <= MAXFILE
      reads this
    {
      && TreesOk() && leaked == leaked0 && inum in i0 && inodes.Keys == i0.Keys && Full(sb, disk)
      && SamePtrs(d0, i0, disk, inodes, inum, SlotsOf(off / BSIZE, Past(off, n)))
      && Missing(disk, inodes, inum, SlotsOf(off / BSIZE, Past(off, n))) != {}
    }

    // One turn of writei's loop.
    method WriteBlock(inum: nat, off: nat, src: seq<Byte>, n: nat, tot: nat, ghost d0: Disk, ghost i0: Inodes,
        ghost leaked0: set<nat>, ghost logged0: set<nat>)
      returns (m: nat, ok: bool)
      requires tot < n <= |src| && off + n <= MAXBYTES && Writing(d0, i0, leaked0, logged0, inum, off, src, tot)
      modifies this
      ensures ok ==> 0 < m && tot + m <= n && Writing(d0, i0, leaked0, logged0, inum, off, src, tot + m)
      ensures At(old(disk), old(inodes), Owner(inum, DataSlot((off + tot) / BSIZE))) != 0 ==>
        ok && inodes == old(inodes)
      ensures !ok ==> Past(off, n) <= MAXFILE && Stuck(d0, i0, leaked0, inum, off, n)
    {
      hide Owned, Grown, At, DataSlot, Kept, Written, Backed, LoggedOnly, Touched, Path, InUse;
      hide SlotsOf, Traced, SamePtrs, Missing, Past;
      ghost var d1, i1, l1 := disk, inodes, logged;
      var o := off + tot;
      m := Min(n - tot, BSIZE - o % BSIZE);
      PastNext(off, tot, m);
      var b := Bmap(inum, o / BSIZE);
      KeysKept(d0, i0, d1, i1, inum);
      if b.NoBlocks? {
        StuckHere(d0, i0, d1, i1, disk, inodes, inum, off, n, tot);
        return m, false;
      }
      AtOk(sb, disk, inodes, owner, leaked, Owner(inum, DataSlot(o / BSIZE)));
      ghost var d2, l2 := disk, logged;
      TracedOn(sb, d0, logged0, d1, l1, d2, l2);
      ghost var x := Patch(disk[b.b], o % BSIZE, src[tot..tot + m]);
      ChunkWritten(sb, owner, leaked, d0, i0, d1, i1, disk, inodes, inum, off, src, tot, m, b.b, Path(o / BSIZE));
      DataWritten(sb, disk, inodes, owner, leaked, inum, o / BSIZE, b.b, x);
      TracedWrite(sb, d2, l2, b.b, x);
      LogWrite(b.b, Patch(disk[b.b], o % BSIZE, src[tot..tot + m]));
      TracedOn(sb, d0, logged0, d2, l2, disk, logged);
      ChunkPtrs(d0, i0, d1, i1, d2, inodes, disk, inum, off, tot, m);
      ChunkLogged(sb, d1, i1, d2, inodes, disk, inum, off, tot, m, b.b, logged0, l1, l2);
      return m, true;
    }

    // writei's loop.
    method WriteAll(inum: nat, src: seq<Byte>, off: nat, n: nat) returns (ok: bool)
      requires Valid() && inum in inodes && n <= |src| && off <= inodes[inum].size && off + n <= MAXBYTES
      modifies this
      ensures ok ==> Writing(old(disk), old(inodes), old(leaked), old(logged), inum, off, src, n)
      ensures ok && (n == 0 || off + n <= old(inodes[inum].size)) ==> inodes == old(inodes)
      ensures !ok ==> Past(off, n) <= MAXFILE && Stuck(old(disk), old(inodes), old(leaked), inum, off, n)
    {
      hide Owned, At, Kept, Written, Backed, LoggedOnly, Touched, InUse, SlotsOf, Traced;
      hide SamePtrs, Missing, Past, Synced, DataSlot, Stuck;
      ghost var d0, i0, leaked0, logged0 := disk, inodes, leaked, logged;
      StartWriting(sb, disk, inodes, inum, off, src, logged);
      TracedNone(sb, disk, logged);
      var tot := 0;
      while tot < n
        invariant tot <= n && Writing(d0, i0, leaked0, logged0, inum, off, src, tot)
        invariant off + n <= i0[inum].size || tot == 0 ==> inodes == i0
      {
        ghost var d1 := disk;
        if off + n <= i0[inum].size { AlreadyThere(d0, i0, d1, inodes, inum, off, n, tot); }
        var m, more := WriteBlock(inum, off, src, n, tot, d0, i0, leaked0, logged0);
        if !more {
          return false;
        }
        tot := tot + m;
      }
      return true;
    }

    // When writei refuses.
    ghost predicate Refused(size: nat, off: nat, n: nat) {
      off > size || off + n >= UINT || off + n > MAXBYTES
    }

    // The slots a write must fill.
    ghost function Needed(d: Disk, i: Inodes, inum: nat, off: nat, n: nat): set<Slot>
      requires off + n <= MAXBYTES
    {
      Missing(d, i, inum, SlotsOf(off / BSIZE, Past(off, n)))
    }

    // writei on a regular file: -1, and nothing changes, past the end, on wrap-around or beyond
    // MAXFILE blocks; else the file's bytes from off are src's, and it grows to hold them. Not ok is
    // balloc's panic, which comes exactly when the write needs more blocks than are free. Calling iupdate
    // only when the size has grown is enough: a write within the size allocates nothing.
    method WriteI(inum: nat, src: seq<Byte>, off: nat, n: nat) returns (r: int, ok: bool)
      requires Valid() && inum in inodes && off < UINT && n < UINT && n <= |src|
      modifies this
      ensures SuperOk(sb) && |disk| == |old(disk)| == sb.size
      ensures ok ==> r == if Refused(old(inodes[inum].size), off, n) then -1 else n
      ensures ok ==>
        Valid() && leaked == old(leaked) && inodes.Keys == old(inodes.Keys) &&
        AllLogged(old(disk), old(logged), disk, logged)
      ensures ok && r == -1 ==> disk == old(disk) && inodes == old(inodes) && logged == old(logged)
      ensures ok && r != -1 ==>
        && Written(old(disk), old(inodes), disk, inodes, inum, off, src, n)
        && inodes[inum].size == Max(old(inodes[inum].size), off + n)
        && (forall i :: i in inodes && i != inum ==> inodes[i] == old(inodes)[i])
      ensures ok && r != -1 ==>
        && off + n <= MAXBYTES && Past(off, n) <= MAXFILE
        && SamePtrs(old(disk), old(inodes), disk, inodes, inum, SlotsOf(off / BSIZE, Past(off, n)))
        && Needed(disk, inodes, inum, off, n) == {}
        && LoggedOnly(sb, old(logged), logged, Touched(disk, inodes, inum, SlotsOf(off / BSIZE, Past(off, n))) +
           {InodeBlock(sb, inum)})
      ensures Refused(old(inodes[inum].size), off, n) ==> ok
      ensures !Refused(old(inodes[inum].size), off, n) ==>
        && (ok <==> |Needed(old(disk), old(inodes), inum, off, n)| <= |FreeBlocks(sb, old(disk))|)
        && (ok ==> |FreeBlocks(sb, disk)| == |FreeBlocks(sb, old(disk))| - |Needed(old(disk), old(inodes), inum, off,
           n)|)
      ensures !ok ==> Full(sb, disk)
    {
      hide Owned, At, Kept, Written, Backed, LoggedOnly, Touched, InUse, SlotsOf, Traced;
      hide SamePtrs, Missing, Past, Synced, FreeBlocks, AllLogged, Full;
      SuperIn(sb, disk, inodes, owner, leaked);
      if off > inodes[inum].size || Wrap(off + n) < off {
        LoggedSame(disk, logged);
        return -1, true;
      }
      if Wrap(off + n) > MAXBYTES {
        LoggedSame(disk, logged);
        return -1, true;
      }
      ghost var d0, i0, owner0, leaked0, logged0 := disk, inodes, owner, leaked, logged;
      PastFits(off, n);
      var done := WriteAll(inum, src, off, n);
      SuperIn(sb, disk, inodes, owner, leaked);
      if !done {
        OutOfBlocks(sb, d0, i0, owner0, leaked, disk, inodes, owner, inum, SlotsOf(off / BSIZE, Past(off, n)));
        return -1, false;
      }
      NoneMissing(disk, inodes, inum, off, n, Past(off, n));
      ghost var d1, i1 := disk, inodes;
      Finish(inum, src, off, n, d0, i0, leaked0, logged0);
      MissingSame(d1, i1, disk, inodes, inum, SlotsOf(off / BSIZE, Past(off, n)));
      Spent(sb, d0, i0, owner0, leaked, disk, inodes, owner, inum, SlotsOf(off / BSIZE, Past(off, n)));
      return n, true;
    }

    // The end of writei.
    method Finish(inum: nat, ghost src: seq<Byte>, off: nat, n: nat, ghost d0: Disk, ghost i0: Inodes,
        ghost leaked0: set<nat>, ghost logged0: set<nat>)
      requires n <= |src| && off + n <= MAXBYTES && Past(off, n) <= MAXFILE &&
        Writing(d0, i0, leaked0, logged0, inum, off, src, n)
      requires off <= i0[inum].size && forall x :: x in i0 ==>
        i0[x].size <= MAXBYTES && Backed(d0, i0, x, 0, i0[x].size)
      requires Synced(sb, d0, i0) && (n == 0 || off + n <= i0[inum].size ==> inodes == i0)
      modifies this`disk, this`inodes, this`logged
      ensures Valid() && inum in inodes && AllLogged(d0, logged0, disk, logged)
      ensures Written(d0, i0, disk, inodes, inum, off, src, n) && inodes[inum].size == Max(i0[inum].size, off + n)
      ensures inodes.Keys == i0.Keys && forall i :: i in inodes && i != inum ==> inodes[i] == i0[i]
      ensures SamePtrs(d0, i0, disk, inodes, inum, SlotsOf(off / BSIZE, Past(off, n)))
      ensures forall o :: Live(inodes, o) ==>
        Live(old(inodes), o) && At(disk, inodes, o) == At(old(disk), old(inodes), o)
      ensures LoggedOnly(sb, logged0, logged, Touched(disk, inodes, inum, SlotsOf(off / BSIZE, Past(off, n))) +
        {InodeBlock(sb, inum)})
    {
      hide Owned, At, Kept, Written, Backed, LoggedOnly, Touched, SlotsOf, Traced, SamePtrs;
      hide Past, Synced, AllLogged, PutInode, InodesKept;
      ghost var d1, i1, l1, slots := disk, inodes, logged, SlotsOf(off / BSIZE, Past(off, n));
      EndWriting(sb, d0, i0, disk, inodes, owner, leaked, inum, off, n, src);
      TracedParts(sb, d0, logged0, disk, logged);
      KeysKept(d0, i0, d1, i1, inum);
      if n > 0 && off + n > inodes[inum].size {
        inodes := inodes[inum := inodes[inum].(size := off + n)];
        InodeSaved(sb, d0, i0, disk, inodes, owner, leaked, inum);
        IUpdate(inum);
        SamePtrsStill(d0, i0, d1, i1, disk, inodes, inum, slots);
        LoggedMore(d0, logged0, d1, l1, InodeBlock(sb, inum), disk[InodeBlock(sb, inum)]);
        EndLogged(sb, d1, i1, disk, inodes, inum, slots, logged0, l1, logged, InodeBlock(sb, inum));
        WrittenStill(d0, i0, d1, inodes, disk, inum, off, src, n);
        forall x | x in inodes ensures inodes[x].size <= MAXBYTES && Backed(disk, inodes, x, 0, inodes[x].size) {
          BackedStill(d1, inodes, disk, inodes, x, 0, inodes[x].size);
        }
      } else {
        SyncedStill(sb, d0, disk, i0);
        EndLogged(sb, d1, i1, disk, inodes, inum, slots, logged0, l1, logged, InodeBlock(sb, inum));
      }
    }
  }

  lemma {:induction false} PastFits(off: nat, n: nat)
    requires off + n <= MAXBYTES
    ensures Past(off, n) <= MAXFILE
  {
  }

  lemma {:induction false} LoggedSame(d: Disk, l: set<nat>)
    ensures AllLogged(d, l, d, l)
  {
  }

  lemma {:induction false} OutOfBlocks(sb: Super, d0: Disk, i0: Inodes, owner0: map<nat, Owner>, leaked: set<nat>,
      d: Disk, i: Inodes, owner: map<nat, Owner>, inum: nat, slots: set<Slot>)
    requires Owned(sb, d0, i0, owner0, leaked) && Owned(sb, d, i, owner, leaked)
    requires inum in i0 && i.Keys == i0.Keys && SamePtrs(d0, i0, d, i, inum, slots)
    requires SuperOk(sb) && |d| == sb.size && Full(sb, d) && Missing(d, i, inum, slots) != {}
    ensures |d0| == sb.size && |Missing(d0, i0, inum, slots)| > |FreeBlocks(sb, d0)|
  {
    hide Owned, SamePtrs, Missing, InUse;
    Spent(sb, d0, i0, owner0, leaked, d, i, owner, inum, slots);
    assert FreeBlocks(sb, d) == {};
  }
}
