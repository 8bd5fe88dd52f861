// How many blocks one write touches, and that no block goes missing.
module FsCount {
  import opened Basics
  import opened Blocks
  import opened FsBitmap
  import opened FsTree
  import opened FsLink
  import opened FsFile
  import RedoLog

  function DataSlots(first: nat, last: nat): (s: set<Slot>)
    requires last <= MAXFILE
    ensures |s| <= if last <= first then 0 else last - first
    decreases last
  {
    if last <= first then {} else DataSlots(first, last - 1) + {DataSlot(last - 1)}
  }

  // The index slots above blocks first..last, when these are few.
  function IndexSlots(first: nat, last: nat): (s: set<Slot>)
    requires first < last <= MAXFILE
    ensures |s| <= 3
  {
    var n := NDIRECT + NINDIRECT;
    if last <= n then {Ind}
    else if first < n then {Ind, Dbl, Mid(0)}
    else {Dbl, Mid((first - n) / 128), Mid((last - 1 - n) / 128)}
  }

  lemma {:induction false} PathIn(first: nat, last: nat, bn: nat)
    requires first <= bn < last <= MAXFILE && last <= first + 4
    ensures Path(bn) <= {DataSlot(bn)} + IndexSlots(first, last)
  {
  }

  lemma {:induction false} SlotsIn(first: nat, mid: nat, last: nat)
    requires first < last <= MAXFILE && mid <= last <= first + 4
    ensures SlotsOf(first, mid) <= DataSlots(first, mid) + IndexSlots(first, last)
    decreases mid
  {
    hide Path, DataSlot, IndexSlots;
    if first < mid {
      SlotsIn(first, mid - 1, last);
      PathIn(first, last, mid - 1);
    }
  }

  lemma {:induction false} SetBound<T>(a: set<T>, b: set<T>, c: set<T>)
    requires a <= b + c
    ensures |a| <= |b| + |c|
  {
    SubsetCount(a, b + c);
    assert b + c == b + (c - b);
    assert |b + (c - b)| == |b| + |c - b|;
    SubsetCount(c - b, c);
  }

  // No more blocks are touched than slots.
  lemma {:induction false} TouchedFew(disk: Disk, inodes: Inodes, inum: nat, slots: set<Slot>)
    ensures |Touched(disk, inodes, inum, slots)| <= |slots|
    decreases |slots|
  {
    hide At;
    var t := Touched(disk, inodes, inum, slots);
    if slots == {} {
      assert t == {};
    } else {
      var s :| s in slots;
      TouchedFew(disk, inodes, inum, slots - {s});
      var rest := Touched(disk, inodes, inum, slots - {s});
      var one: set<nat> := if Live(inodes, Owner(inum, s)) &&
        At(disk, inodes, Owner(inum, s)) != 0 then {At(disk, inodes, Owner(inum, s)) as nat} else {};
      assert t <= rest + one;
      SetBound(t, rest, one);
    }
  }

  function BitmapBlocks(sb: Super, l: set<nat>): set<nat> {
    set b | b in l && BitmapFirst(sb) <= b < BitmapEnd(sb)
  }

  lemma {:induction false} BitmapFew(sb: Super, k: nat, l: set<nat>)
    requires SuperOk(sb) && Spans(sb, k)
    ensures |BitmapBlocks(sb, l)| <= k
  {
    hide Below;
    var all := map b | b in BitmapBlocks(sb, l) :: b - BitmapFirst(sb);
    assert BitmapEnd(sb) <= BitmapFirst(sb) + k;
    InjectiveSize(all);
    assert all.Keys == BitmapBlocks(sb, l);
    SubsetCount(all.Values, Below(k));
  }

  // No log_write of a write goes to the boot block, the superblock or the log.
  lemma {:induction false} LoggedHome(sb: Super, disk: Disk, inodes: Inodes, owner: map<nat, Owner>, leaked: set<nat>,
      inum: nat, slots: set<Slot>, l: set<nat>, x: nat)
    requires Owned(sb, disk, inodes, owner, leaked) && sb.inodestart <= x < sb.bmapstart
    requires LoggedOnly(sb, {}, l, Touched(disk, inodes, inum, slots) + {x})
    ensures forall b :: b in l ==> sb.inodestart <= b < sb.size
  {
    hide At;
    forall b | b in l ensures sb.inodestart <= b < sb.size {
      if b in Touched(disk, inodes, inum, slots) {
        var s :| s in slots && Live(inodes, Owner(inum, s)) && At(disk, inodes, Owner(inum, s)) == b != 0;
        AtOk(sb, disk, inodes, owner, leaked, Owner(inum, s));
      }
    }
  }

  // What itrunc logs: bitmap blocks and one block more.
  lemma {:induction false} TruncFits(sb: Super, k: nat, l: set<nat>, x: nat)
    requires SuperOk(sb) && Spans(sb, k) && LoggedOnly(sb, {}, l, {x})
    ensures |l| <= k + 1
  {
    hide Spans;
    BitmapFew(sb, k, l);
    assert l <= BitmapBlocks(sb, l) + {x};
    SetBound(l, BitmapBlocks(sb, l), {x});
  }

  const CHUNK := (RedoLog.MAXOPBLOCKS - 1 - 1 - 2) / 2 * BSIZE

  // A write of at most CHUNK bytes logs at most 4 data blocks, 3 index blocks and the inode's block,
  // besides bitmap blocks.
  lemma {:induction false} ChunkFits(sb: Super, disk: Disk, inodes: Inodes, inum: nat, off: nat, n: nat, l: set<nat>,
      x: nat)
    requires 0 < n <= CHUNK && off + n <= MAXBYTES && Past(off, n) <= MAXFILE
    requires LoggedOnly(sb, {}, l, Touched(disk, inodes, inum, SlotsOf(off / BSIZE, Past(off, n))) + {x})
    ensures |l| <= 4 + 3 + 1 + |BitmapBlocks(sb, l)|
  {
    hide Touched, SlotsOf;
    var first, last := off / BSIZE, Past(off, n);
    assert first < last <= first + 4;
    var slots := SlotsOf(first, last);
    SlotsIn(first, last, last);
    SetBound(slots, DataSlots(first, last), IndexSlots(first, last));
    TouchedFew(disk, inodes, inum, slots);
    var t := Touched(disk, inodes, inum, slots);
    assert l <= (t + {x}) + BitmapBlocks(sb, l);
    SetBound(l, t + {x}, BitmapBlocks(sb, l));
    SetBound(t + {x}, t, {x});
  }

  // Conservation.

  ghost function FreeBlocks(sb: Super, disk: Disk): set<nat>
    requires SuperOk(sb) && |disk| == sb.size
  {
    set b: nat | b < sb.size && !InUse(sb, disk, b)
  }

  // Metadata, owned, leaked and free blocks are all the blocks there are.
  lemma {:induction false} BlocksConserved(sb: Super, disk: Disk, inodes: Inodes, owner: map<nat, Owner>,
      leaked: set<nat>)
    requires Owned(sb, disk, inodes, owner, leaked)
    ensures SuperOk(sb) && |disk| == sb.size
    ensures DataStart(sb) + |owner| + |leaked| + |FreeBlocks(sb, disk)| == sb.size
  {
    hide Owned, Below, FreeBlocks, DataStart, InUse;
    BlockKinds(sb, disk, inodes, owner, leaked);
    var m, o, f := Below(DataStart(sb)), owner.Keys, FreeBlocks(sb, disk);
    assert m + (o + (leaked + f)) == Below(sb.size);
    DisjointCount(leaked, f);
    DisjointCount(o, leaked + f);
    DisjointCount(m, o + (leaked + f));
  }

  lemma {:induction false} BlockKinds(sb: Super, disk: Disk, inodes: Inodes, owner: map<nat, Owner>, leaked: set<nat>)
    requires Owned(sb, disk, inodes, owner, leaked)
    ensures SuperOk(sb) && |disk| == sb.size && DataStart(sb) <= sb.size
    ensures forall b: nat :: b < sb.size <==>
      b < DataStart(sb) || b in owner || b in leaked || b in FreeBlocks(sb, disk)
    ensures leaked !! FreeBlocks(sb, disk) && owner.Keys !! leaked + FreeBlocks(sb, disk)
    ensures forall b :: b in owner || b in leaked || b in FreeBlocks(sb, disk) ==> b >= DataStart(sb)
  {
    hide InUse, At;
    forall b | b in owner ensures DataStart(sb) <= b < sb.size && InUse(sb, disk, b) {
      assert OwnerOk(sb, disk, inodes, owner, b);
    }
  }

  // What allocation costs: each slot filled took one free block, and nothing else did.

  lemma {:induction false} InjectiveSize<K, V>(m: map<K, V>)
    requires forall k, k' :: k in m && k' in m && m[k] == m[k'] ==> k == k'
    ensures |m.Values| == |m|
    decreases |m|
  {
    if |m| == 0 {
      assert m == map[];
      assert m.Values == {};
    } else {
      var k :| k in m;
      var rest := m - {k};
      InjectiveSize(rest);
      forall v | v in m.Values && v != m[k] ensures v in rest.Values {
        var k' :| k' in m && m[k'] == v;
        assert k' in rest && rest[k'] == v;
      }
      assert m.Values == rest.Values + {m[k]};
      assert m[k] !in rest.Values;
    }
  }

  lemma {:induction false} OwnersAre(sb: Super, disk: Disk, inodes: Inodes, owner: map<nat, Owner>, leaked: set<nat>)
    requires Owned(sb, disk, inodes, owner, leaked)
    ensures |owner.Values| == |owner|
    ensures forall o :: o in owner.Values <==> Live(inodes, o) && At(disk, inodes, o) != 0
  {
    hide At, InUse;
    assert forall b :: b in owner ==> OwnerOk(sb, disk, inodes, owner, b);
    InjectiveSize(owner);
    forall o | Live(inodes, o) && At(disk, inodes, o) != 0 ensures o in owner.Values {
      assert owner[At(disk, inodes, o) as nat] == o;
    }
  }

  lemma {:induction false} Spent(sb: Super, d0: Disk, i0: Inodes, owner0: map<nat, Owner>, leaked: set<nat>, d: Disk,
      i: Inodes, owner: map<nat, Owner>, inum: nat, slots: set<Slot>)
    requires Owned(sb, d0, i0, owner0, leaked) && Owned(sb, d, i, owner, leaked)
    requires inum in i0 && i.Keys == i0.Keys && SamePtrs(d0, i0, d, i, inum, slots)
    ensures SuperOk(sb) && |d0| == |d| == sb.size && Missing(d, i, inum, slots) <= Missing(d0, i0, inum, slots)
    ensures |FreeBlocks(sb, d)| + |Missing(d0, i0, inum, slots)| == |FreeBlocks(sb, d0)| + |Missing(d, i, inum, slots)|
  {
    hide At, Owned, FreeBlocks, Missing, SamePtrs;
    BlocksConserved(sb, d0, i0, owner0, leaked);
    BlocksConserved(sb, d, i, owner, leaked);
    OwnersAre(sb, d0, i0, owner0, leaked);
    OwnersAre(sb, d, i, owner, leaked);
    Filled(d0, i0, owner0.Values, d, i, owner.Values, inum, slots);
  }

  lemma {:induction false} Filled(d0: Disk, i0: Inodes, v0: set<Owner>, d: Disk, i: Inodes, v: set<Owner>, inum: nat,
      slots: set<Slot>)
    requires inum in i0 && i.Keys == i0.Keys && SamePtrs(d0, i0, d, i, inum, slots)
    requires forall o :: o in v0 <==> Live(i0, o) && At(d0, i0, o) != 0
    requires forall o :: o in v <==> Live(i, o) && At(d, i, o) != 0
    ensures Missing(d, i, inum, slots) <= Missing(d0, i0, inum, slots)
    ensures |v| + |Missing(d, i, inum, slots)| == |v0| + |Missing(d0, i0, inum, slots)|
  {
    hide At, SlotOk;
    assert forall o :: Live(i, o) <==> Live(i0, o);
    var m0, m1 := Missing(d0, i0, inum, slots), Missing(d, i, inum, slots);
    var filled := map s | s in m0 - m1 :: Owner(inum, s);
    InjectiveSize(filled);
    assert filled.Keys == m0 - m1;
    forall o | o in v && o !in v0 ensures o in filled.Values {
      assert o == Owner(inum, o.slot) && o.slot in m0 && o.slot !in m1;
      assert o.slot in filled && filled[o.slot] == o;
    }
    assert v == v0 + filled.Values;
    DisjointCount(v0, filled.Values);
    DisjointCount(m0 - m1, m1);
    assert m0 - m1 + m1 == m0;
  }

  // Once bytes off..off + tot lie in allocated blocks no slot above them is missing.
  lemma {:induction false} NoneMissing(disk: Disk, inodes: Inodes, inum: nat, off: nat, tot: nat, last: nat)
    requires inum in inodes && off + tot <= MAXBYTES && Backed(disk, inodes, inum, off, off + tot)
    requires last <= Past(off, tot) <= MAXFILE
    ensures Missing(disk, inodes, inum, SlotsOf(off / BSIZE, last)) == {}
    decreases last
  {
    hide At, DataSlot, Path, Backed;
    if off / BSIZE < last {
      NoneMissing(disk, inodes, inum, off, tot, last - 1);
      InBlock(disk, inodes, inum, off, tot, last - 1);
      PathSet(disk, inodes, inum, last - 1);
    }
  }

  lemma {:induction false} InBlock(disk: Disk, inodes: Inodes, inum: nat, off: nat, tot: nat, bn: nat)
    requires inum in inodes && off + tot <= MAXBYTES && Backed(disk, inodes, inum, off, off + tot)
    requires off / BSIZE <= bn < Past(off, tot) <= MAXFILE
    ensures At(disk, inodes, Owner(inum, DataSlot(bn))) != 0
  {
    hide At, DataSlot;
    var pos: nat := if bn == off / BSIZE then off else BSIZE * bn;
    assert pos / BSIZE == bn && off <= pos < off + tot;
  }

  // A file as a sequence of bytes, and what writei makes of it.
  function Content(disk: Disk, inodes: Inodes, inum: nat): seq<Byte>
    requires inum in inodes && inodes[inum].size <= MAXBYTES
  {
    seq(inodes[inum].size, pos requires 0 <= pos < inodes[inum].size => ByteAt(disk, inodes, inum, pos))
  }

  lemma {:induction false} ContentWritten(d0: Disk, i0: Inodes, d: Disk, i: Inodes, inum: nat, off: nat, src: seq<Byte>,
      n: nat)
    requires inum in i0 && n <= |src| && i0[inum].size <= MAXBYTES && off + n <= MAXBYTES && off <= i0[inum].size
    requires Written(d0, i0, d, i, inum, off, src, n)
    requires i[inum].size == if off + n > i0[inum].size then off + n else i0[inum].size
    ensures
      var c := Content(d0, i0, inum);
      Content(d, i, inum) == c[..off] + src[..n] + if off + n <= |c| then c[off + n..] else []
  {
    hide ByteAt;
  }

  lemma {:induction false} OtherContent(d0: Disk, i0: Inodes, d: Disk, i: Inodes, inum: nat, off: nat, src: seq<Byte>,
      n: nat, x: nat)
    requires x in i0 && x != inum && x in i && i[x] == i0[x] && n <= |src| && i0[x].size <= MAXBYTES
    requires Written(d0, i0, d, i, inum, off, src, n)
    ensures Content(d, i, x) == Content(d0, i0, x)
  {
    hide ByteAt;
  }
}
