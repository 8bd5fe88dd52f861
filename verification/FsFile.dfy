// What writei does to files: one chunk, then all of them.
module FsFile {
  import opened Basics
  import opened Blocks
  import opened FsBitmap
  import opened FsTree
  import opened FsLink

  const MAXBYTES := MAXFILE * BSIZE

  // memmove of s into a block at offset at.
  function Patch(x: Block, at: nat, s: seq<Byte>): Block
    requires at + |s| <= BSIZE
  {
    Block(x.bytes[..at] + s + x.bytes[at + |s|..])
  }

  // Writing a data block changes no pointer and no other block of any file.
  lemma {:induction false} DataWritten(sb: Super, disk: Disk, inodes: Inodes, owner: map<nat, Owner>, leaked: set<nat>,
      inum: nat, bn: nat, p: nat, x: Block)
    requires Owned(sb, disk, inodes, owner, leaked) && inum in inodes && bn < MAXFILE
    requires p == At(disk, inodes, Owner(inum, DataSlot(bn))) != 0
    ensures p < |disk| && Owned(sb, disk[p := x], inodes, owner, leaked)
    ensures forall o :: Live(inodes, o) ==> At(disk[p := x], inodes, o) == At(disk, inodes, o)
    ensures forall i, pos: nat :: i in inodes && pos < MAXBYTES ==>
      ByteAt(disk[p := x], inodes, i, pos) == if i == inum && pos / BSIZE == bn then x.bytes[pos % BSIZE]
        else ByteAt(disk, inodes, i, pos)
  {
    hide InUse, At, DataSlot;
    var d := disk[p := x];
    var me := Owner(inum, DataSlot(bn));
    AtOk(sb, disk, inodes, owner, leaked, me);
    forall o | Live(inodes, o) ensures At(d, inodes, o) == At(disk, inodes, o) {
      AtFrame(disk, d, inodes, owner, o);
    }
    forall c | 0 <= c < sb.size ensures InUse(sb, d, c) == InUse(sb, disk, c) {
      BitsFrame(sb, disk, d, c);
    }
    forall c | c in owner ensures OwnerOk(sb, d, inodes, owner, c) {
      assert OwnerOk(sb, disk, inodes, owner, c);
    }
    forall i, pos: nat | i in inodes && pos < MAXBYTES
      ensures ByteAt(d, inodes, i, pos) == if i == inum && pos / BSIZE == bn then x.bytes[pos % BSIZE]
        else ByteAt(disk, inodes, i, pos)
    {
      var o := Owner(i, DataSlot(pos / BSIZE));
      assert Live(inodes, o);
      if At(disk, inodes, o) == p {
        FilesDisjoint(sb, disk, inodes, owner, leaked, i, pos / BSIZE, inum, bn);
      }
    }
  }

  // Same inodes but for inum's pointers; pointers once set stay.
  ghost predicate Kept(d0: Disk, i0: Inodes, d: Disk, i: Inodes, inum: nat) {
    && i.Keys == i0.Keys
    && (forall x :: x in i0 ==> i[x].size == i0[x].size && (x != inum ==> i[x] == i0[x]))
    && (forall o :: Live(i0, o) && At(d0, i0, o) != 0 ==> At(d, i, o) == At(d0, i0, o))
  }

  // The files of (d, i) are those of (d0, i0) with bytes off..off + tot of inum replaced by src's.
  ghost predicate Written(d0: Disk, i0: Inodes, d: Disk, i: Inodes, inum: nat, off: nat, src: seq<Byte>, tot: nat)
    requires tot <= |src|
  {
    && i.Keys == i0.Keys
    && forall x, pos: nat :: x in i0 && pos < MAXBYTES ==>
         ByteAt(d, i, x, pos) == if x == inum && off <= pos < off + tot then src[pos - off] else ByteAt(d0, i0, x, pos)
  }

  // Bytes from..to of inum lie in allocated blocks.
  ghost predicate Backed(d: Disk, i: Inodes, inum: nat, from: nat, to: nat)
    requires inum in i
  {
    forall pos: nat :: from <= pos < to && pos < MAXBYTES ==> At(d, i, Owner(inum, DataSlot(pos / BSIZE))) != 0
  }

  lemma {:induction false} NothingWritten(d: Disk, i: Inodes, inum: nat, off: nat, src: seq<Byte>)
    ensures Kept(d, i, d, i, inum) && Written(d, i, d, i, inum, off, src, 0)
  {
  }

  // One byte of one file after one turn of writei's loop.
  lemma {:induction false} ChunkByte(d0: Disk, i0: Inodes, d1: Disk, i1: Inodes, d2: Disk, i2: Inodes, inum: nat,
      off: nat, src: seq<Byte>, tot: nat, m: nat, p: nat, path: set<Slot>, x: nat, pos: nat)
    requires x in i0 && inum in i2 && pos < MAXBYTES && tot + m <= |src| && off + tot + m <= MAXBYTES
    requires Written(d0, i0, d1, i1, inum, off, src, tot) && Grown(d1, i1, d2, i2, inum, path)
    requires 0 < m && (off + tot) % BSIZE + m <= BSIZE && 0 < p < |d2|
    requires p == At(d2, i2, Owner(inum, DataSlot((off + tot) / BSIZE)))
    ensures
      var b := Patch(d2[p], (off + tot) % BSIZE, src[tot..tot + m]);
      (if x == inum && pos / BSIZE == (off + tot) / BSIZE then b.bytes[pos % BSIZE] else ByteAt(d2, i2, x, pos)) ==
      if x == inum && off <= pos < off + tot + m then src[pos - off] else ByteAt(d0, i0, x, pos)
  {
    hide At, DataSlot, ByteAt, Patch;
    assert ByteAt(d2, i2, x, pos) == ByteAt(d1, i1, x, pos);
    if x == inum {
      InChunk(off + tot, m, pos);
      PatchedAt(d2, i2, inum, (off + tot) / BSIZE, p, (off + tot) % BSIZE, src, tot, m, pos);
    }
  }

  // One turn of writei's loop: bmap, then m bytes copied into the block.
  lemma {:induction false} ChunkWritten(sb: Super, owner: map<nat, Owner>, leaked: set<nat>, d0: Disk, i0: Inodes,
      d1: Disk, i1: Inodes, d2: Disk, i2: Inodes, inum: nat, off: nat, src: seq<Byte>, tot: nat, m: nat, p: nat,
      path: set<Slot>)
    requires Owned(sb, d2, i2, owner, leaked) && inum in i0 && tot + m <= |src| && off + tot + m <= MAXBYTES
    requires Kept(d0, i0, d1, i1, inum) && Written(d0, i0, d1, i1, inum, off, src, tot) &&
      Grown(d1, i1, d2, i2, inum, path)
    requires inum in i1 && Backed(d1, i1, inum, off, off + tot) && inum in i2 && 0 < m &&
      (off + tot) % BSIZE + m <= BSIZE
    requires p == At(d2, i2, Owner(inum, DataSlot((off + tot) / BSIZE))) != 0 && p < |d2|
    ensures
      var d := d2[p := Patch(d2[p], (off + tot) % BSIZE, src[tot..tot + m])];
      && Owned(sb, d, i2, owner, leaked) && Kept(d0, i0, d, i2, inum) && Written(d0, i0, d, i2, inum, off, src, tot + m)
      && Backed(d, i2, inum, off, off + tot + m)
  {
    hide Owned, At, DataSlot, ByteAt, Patch;
    var at, bn := (off + tot) % BSIZE, (off + tot) / BSIZE;
    var d := d2[p := Patch(d2[p], at, src[tot..tot + m])];
    DataWritten(sb, d2, i2, owner, leaked, inum, bn, p, Patch(d2[p], at, src[tot..tot + m]));
    assert forall o :: Live(i0, o) ==> Live(i1, o) && Live(i2, o);
    forall x, pos: nat | x in i0 && pos < MAXBYTES
      ensures ByteAt(d, i2, x, pos) == if x == inum && off <= pos < off + tot + m then src[pos - off]
        else ByteAt(d0, i0, x, pos)
    {
      ChunkByte(d0, i0, d1, i1, d2, i2, inum, off, src, tot, m, p, path, x, pos);
    }
    forall pos: nat | off <= pos < off + tot + m && pos < MAXBYTES
      ensures At(d, i2, Owner(inum, DataSlot(pos / BSIZE))) != 0 {
      InChunk(off + tot, m, pos);
      assert Live(i1, Owner(inum, DataSlot(pos / BSIZE)));
    }
  }

  lemma {:induction false} BackedNone(d: Disk, i: Inodes, x: nat)
    requires x in i
    ensures Backed(d, i, x, 0, 0)
  {
  }

  // Pointers that stay keep a file's bytes in allocated blocks.
  lemma {:induction false} BackedStill(d: Disk, i: Inodes, d': Disk, i': Inodes, x: nat, from: nat, end: nat)
    requires x in i && x in i' && Backed(d, i, x, from, end)
    requires forall o :: Live(i, o) && o.inum == x ==> At(d', i', o) == At(d, i, o)
    ensures Backed(d', i', x, from, end)
  {
    hide At, DataSlot;
    forall pos: nat | from <= pos < end && pos < MAXBYTES ensures At(d', i', Owner(x, DataSlot(pos / BSIZE))) != 0 {
      assert Live(i, Owner(x, DataSlot(pos / BSIZE)));
    }
  }

  // A chunk lies in one block.
  lemma {:induction false} InChunk(start: nat, m: nat, pos: nat)
    requires 0 < m && start % BSIZE + m <= BSIZE
    ensures start <= pos < start + m <==>
      pos / BSIZE == start / BSIZE && start % BSIZE <= pos % BSIZE < start % BSIZE + m
    ensures start <= pos < start + m ==> pos % BSIZE - start % BSIZE == pos - start
  {
  }

  lemma {:induction false} PatchedAt(d: Disk, i: Inodes, inum: nat, bn: nat, p: nat, at: nat, src: seq<Byte>, tot: nat,
      m: nat, pos: nat)
    requires inum in i && bn < MAXFILE && p == At(d, i, Owner(inum, DataSlot(bn))) && 0 < p < |d|
    requires at + m <= BSIZE && tot + m <= |src| && pos < MAXBYTES
    ensures at <= pos % BSIZE < at + m ==>
      Patch(d[p], at, src[tot..tot + m]).bytes[pos % BSIZE] == src[tot + pos % BSIZE - at]
    ensures pos / BSIZE == bn && !(at <= pos % BSIZE < at + m) ==>
      Patch(d[p], at, src[tot..tot + m]).bytes[pos % BSIZE] == ByteAt(d, i, inum, pos)
  {
    hide At, DataSlot;
  }

  // One past the last block that tot bytes at off touch.
  function Past(off: nat, tot: nat): nat {
    if tot == 0 then off / BSIZE else (off + tot - 1) / BSIZE + 1
  }

  lemma {:induction false} PastNext(off: nat, tot: nat, m: nat)
    requires 0 < m && (off + tot) % BSIZE + m <= BSIZE && off + tot + m <= MAXBYTES
    ensures Past(off, tot) <= Past(off, tot + m) == (off + tot) / BSIZE + 1 <= MAXFILE &&
      off / BSIZE <= (off + tot) / BSIZE
  {
  }

  // Blocks touched stay touched: pointers once set stay.
  lemma {:induction false} TouchedGrow(d1: Disk, i1: Inodes, d2: Disk, i2: Inodes, inum: nat, slots: set<Slot>,
      slots': set<Slot>)
    requires slots <= slots' && forall o :: Live(i1, o) && At(d1, i1, o) != 0 ==>
      Live(i2, o) && At(d2, i2, o) == At(d1, i1, o)
    ensures Touched(d1, i1, inum, slots) <= Touched(d2, i2, inum, slots')
  {
    hide At;
  }

  // Setting a file's size moves no pointer and no byte.
  lemma {:induction false} Resized(sb: Super, disk: Disk, inodes: Inodes, owner: map<nat, Owner>, leaked: set<nat>,
      inum: nat, size: nat)
    requires Owned(sb, disk, inodes, owner, leaked) && inum in inodes
    ensures
      var after := inodes[inum := inodes[inum].(size := size)];
      && Owned(sb, disk, after, owner, leaked)
      && (forall o :: Live(inodes, o) ==> At(disk, after, o) == At(disk, inodes, o))
      && (forall i, pos: nat :: i in inodes && pos < MAXBYTES ==>
         ByteAt(disk, after, i, pos) == ByteAt(disk, inodes, i, pos))
  {
    hide InUse, Ptr, DataSlot;
    var after := inodes[inum := inodes[inum].(size := size)];
    assert forall o :: Live(after, o) <==> Live(inodes, o);
    assert forall o :: Live(inodes, o) ==> At(disk, after, o) == At(disk, inodes, o);
    forall b | b in owner ensures OwnerOk(sb, disk, after, owner, b) {
      assert OwnerOk(sb, disk, inodes, owner, b);
    }
  }

  // What one turn of writei's loop has logged.
  lemma {:induction false} ChunkLogged(sb: Super, d1: Disk, i1: Inodes, d2: Disk, i2: Inodes, d: Disk, inum: nat,
      off: nat, tot: nat, m: nat, p: nat, l0: set<nat>, l1: set<nat>, l2: set<nat>)
    requires 0 < m && (off + tot) % BSIZE + m <= BSIZE && off + tot + m <= MAXBYTES && inum in i2
    requires Past(off, tot) <= MAXFILE && Grown(d1, i1, d2, i2, inum, Path((off + tot) / BSIZE))
    requires p == At(d2, i2, Owner(inum, DataSlot((off + tot) / BSIZE))) != 0
    requires forall o :: Live(i2, o) ==> At(d, i2, o) == At(d2, i2, o)
    requires LoggedOnly(sb, l0, l1, Touched(d1, i1, inum, SlotsOf(off / BSIZE, Past(off, tot))))
    requires l2 == l1 || LoggedOnly(sb, l1, l2, Touched(d2, i2, inum, Path((off + tot) / BSIZE)))
    ensures Past(off, tot + m) <= MAXFILE
    ensures LoggedOnly(sb, l0, l2 + {p}, Touched(d, i2, inum, SlotsOf(off / BSIZE, Past(off, tot + m))))
  {
    hide At, ByteAt, Touched, SlotsOf;
    PastNext(off, tot, m);
    var bn, to := (off + tot) / BSIZE, Past(off, tot + m);
    var t := Touched(d, i2, inum, SlotsOf(off / BSIZE, to));
    SlotsGrow(off / BSIZE, Past(off, tot), to);
    assert forall o :: Live(i1, o) <==> Live(i2, o);
    TouchedGrow(d1, i1, d, i2, inum, SlotsOf(off / BSIZE, Past(off, tot)), SlotsOf(off / BSIZE, to));
    TouchedGrow(d2, i2, d, i2, inum, Path(bn), SlotsOf(off / BSIZE, to));
    assert DataSlot(bn) in Path(bn);
    TouchedHas(d, i2, inum, SlotsOf(off / BSIZE, to), DataSlot(bn));
  }

  lemma {:induction false} StartWriting(sb: Super, disk: Disk, inodes: Inodes, inum: nat, off: nat, src: seq<Byte>,
      logged: set<nat>)
    requires inum in inodes && off <= MAXBYTES
    ensures Kept(disk, inodes, disk, inodes, inum) && Written(disk, inodes, disk, inodes, inum, off, src, 0)
    ensures Backed(disk, inodes, inum, off, off) && Past(off, 0) <= MAXFILE
    ensures LoggedOnly(sb, logged, logged, Touched(disk, inodes, inum, SlotsOf(off / BSIZE, Past(off, 0))))
    ensures SamePtrs(disk, inodes, disk, inodes, inum, SlotsOf(off / BSIZE, Past(off, 0)))
  {
    hide At, ByteAt, Touched;
  }

  // After the last turn, with the size brought up to date.
  lemma {:induction false} EndWriting(sb: Super, d0: Disk, i0: Inodes, d: Disk, i: Inodes, owner: map<nat, Owner>,
      leaked: set<nat>, inum: nat, off: nat, n: nat, src: seq<Byte>)
    requires Owned(sb, d, i, owner, leaked) && inum in i0 && inum in i && n <= |src| &&
      off <= i0[inum].size <= MAXBYTES && off + n <= MAXBYTES
    requires forall x :: x in i0 ==> i0[x].size <= MAXBYTES && Backed(d0, i0, x, 0, i0[x].size)
    requires Kept(d0, i0, d, i, inum) && Written(d0, i0, d, i, inum, off, src, n) && Backed(d, i, inum, off, off + n)
    ensures i[inum].size == i0[inum].size
    ensures forall x :: x in i && x != inum ==> x in i0 && i[x] == i0[x]
    ensures forall x :: x in i ==> i[x].size <= MAXBYTES && Backed(d, i, x, 0, i[x].size)
    ensures
      var after := i[inum := i[inum].(size := off + n)];
      && Owned(sb, d, after, owner, leaked) && Written(d0, i0, d, after, inum, off, src, n)
      && (forall o :: Live(i, o) ==> At(d, after, o) == At(d, i, o))
      && (off + n > i[inum].size ==>
         forall x :: x in after ==> after[x].size <= MAXBYTES && Backed(d, after, x, 0, after[x].size))
  {
    hide At, ByteAt, Owned, DataSlot;
    var after := i[inum := i[inum].(size := off + n)];
    Resized(sb, d, i, owner, leaked, inum, off + n);
    assert forall o :: Live(i0, o) <==> Live(i, o);
    assert forall o :: Live(i0, o) <==> Live(after, o);
    forall x | x in i ensures i[x].size <= MAXBYTES && Backed(d, i, x, 0, i[x].size) {
      forall pos: nat | 0 <= pos < i[x].size && pos < MAXBYTES ensures At(d, i, Owner(x, DataSlot(pos / BSIZE))) != 0 {
        assert Live(i0, Owner(x, DataSlot(pos / BSIZE)));
      }
    }
    if off + n > i[inum].size {
      forall x | x in after ensures after[x].size <= MAXBYTES && Backed(d, after, x, 0, after[x].size) {
        forall pos: nat | 0 <= pos < after[x].size && pos < MAXBYTES
          ensures At(d, after, Owner(x, DataSlot(pos / BSIZE))) != 0 {
          assert Live(i, Owner(x, DataSlot(pos / BSIZE)));
        }
      }
    }
  }

  lemma {:induction false} EndLogged(sb: Super, d: Disk, i: Inodes, d': Disk, i': Inodes, inum: nat, slots: set<Slot>,
      l0: set<nat>, l: set<nat>, l': set<nat>, x: nat)
    requires LoggedOnly(sb, l0, l, Touched(d, i, inum, slots)) && (l' == l || l' == l + {x})
    requires forall o :: Live(i, o) && At(d, i, o) != 0 ==> Live(i', o) && At(d', i', o) == At(d, i, o)
    ensures LoggedOnly(sb, l0, l', Touched(d', i', inum, slots) + {x})
  {
    hide Ptr, At, Touched;
    TouchedGrow(d, i, d', i', inum, slots, slots);
  }

  // Which slots a write fills.

  lemma {:induction false} KeysKept(d0: Disk, i0: Inodes, d: Disk, i: Inodes, inum: nat)
    requires Kept(d0, i0, d, i, inum)
    ensures i.Keys == i0.Keys && forall x :: x in i0 ==> i[x].size == i0[x].size && (x != inum ==> i[x] == i0[x])
  {
  }

  lemma {:induction false} PtrsOn(d0: Disk, i0: Inodes, d1: Disk, i1: Inodes, d: Disk, i: Inodes, inum: nat,
      s1: set<Slot>, s2: set<Slot>, s: set<Slot>)
    requires i1.Keys == i0.Keys && i.Keys == i1.Keys && s1 <= s && s2 <= s
    requires SamePtrs(d0, i0, d1, i1, inum, s1) && SamePtrs(d1, i1, d, i, inum, s2)
    ensures SamePtrs(d0, i0, d, i, inum, s)
  {
    hide At;
    assert forall o :: Live(i0, o) ==> Live(i1, o);
  }

  lemma {:induction false} SamePtrsStill(d0: Disk, i0: Inodes, d1: Disk, i1: Inodes, d: Disk, i: Inodes, inum: nat,
      s: set<Slot>)
    requires i1.Keys == i0.Keys && i.Keys == i1.Keys && SamePtrs(d0, i0, d1, i1, inum, s)
    requires forall o :: Live(i1, o) ==> At(d, i, o) == At(d1, i1, o)
    ensures SamePtrs(d0, i0, d, i, inum, s)
  {
    hide At;
    assert forall o :: Live(i0, o) ==> Live(i1, o);
  }

  lemma {:induction false} MissingSame(d1: Disk, i1: Inodes, d: Disk, i: Inodes, inum: nat, s: set<Slot>)
    requires forall o :: Live(i, o) ==> Live(i1, o) && At(d, i, o) == At(d1, i1, o)
    ensures Missing(d, i, inum, s) <= Missing(d1, i1, inum, s)
  {
    hide At;
  }

  lemma {:induction false} PathOf(first: nat, bn: nat, last: nat)
    requires first <= bn < last <= MAXFILE
    ensures Path(bn) <= SlotsOf(first, last)
  {
    hide Path;
    SlotsGrow(first, bn + 1, last);
  }

  lemma {:induction false} ChunkPtrs(d0: Disk, i0: Inodes, d1: Disk, i1: Inodes, d2: Disk, i2: Inodes, d: Disk,
      inum: nat, off: nat, tot: nat, m: nat)
    requires i1.Keys == i0.Keys && 0 < m && (off + tot) % BSIZE + m <= BSIZE && off + tot + m <= MAXBYTES &&
      Past(off, tot) <= MAXFILE
    requires SamePtrs(d0, i0, d1, i1, inum, SlotsOf(off / BSIZE, Past(off, tot))) &&
      Grown(d1, i1, d2, i2, inum, Path((off + tot) / BSIZE))
    requires forall o :: Live(i2, o) ==> At(d, i2, o) == At(d2, i2, o)
    ensures Past(off, tot + m) <= MAXFILE && i2.Keys == i0.Keys
    ensures SamePtrs(d0, i0, d, i2, inum, SlotsOf(off / BSIZE, Past(off, tot + m)))
  {
    hide At, ByteAt, SlotsOf, Path, SamePtrs;
    PastNext(off, tot, m);
    var slots := SlotsOf(off / BSIZE, Past(off, tot + m));
    SlotsGrow(off / BSIZE, Past(off, tot), Past(off, tot + m));
    PathOf(off / BSIZE, (off + tot) / BSIZE, Past(off, tot + m));
    PtrsOn(d0, i0, d1, i1, d2, i2, inum, SlotsOf(off / BSIZE, Past(off, tot)), Path((off + tot) / BSIZE), slots);
    SamePtrsStill(d0, i0, d2, i2, d, i2, inum, slots);
  }

  // bmap has found no block for one of the blocks to be written.
  lemma {:induction false} StuckHere(d0: Disk, i0: Inodes, d1: Disk, i1: Inodes, d: Disk, i: Inodes, inum: nat,
      off: nat, n: nat, tot: nat)
    requires i1.Keys == i0.Keys && inum in i0 && tot < n && off + n <= MAXBYTES && Past(off, tot) <= MAXFILE
    requires SamePtrs(d0, i0, d1, i1, inum, SlotsOf(off / BSIZE, Past(off, tot))) &&
      Grown(d1, i1, d, i, inum, Path((off + tot) / BSIZE))
    requires inum in i && At(d, i, Owner(inum, DataSlot((off + tot) / BSIZE))) == 0
    ensures Past(off, n) <= MAXFILE && i.Keys == i0.Keys
    ensures SamePtrs(d0, i0, d, i, inum, SlotsOf(off / BSIZE, Past(off, n)))
    ensures Missing(d, i, inum, SlotsOf(off / BSIZE, Past(off, n))) != {}
  {
    hide At, ByteAt, SlotsOf, SamePtrs;
    var bn, slots := (off + tot) / BSIZE, SlotsOf(off / BSIZE, Past(off, n));
    SlotsGrow(off / BSIZE, Past(off, tot), Past(off, n));
    PathOf(off / BSIZE, bn, Past(off, n));
    PtrsOn(d0, i0, d1, i1, d, i, inum, SlotsOf(off / BSIZE, Past(off, tot)), Path(bn), slots);
    assert DataSlot(bn) in Path(bn);
    assert DataSlot(bn) in Missing(d, i, inum, slots);
  }

  lemma {:induction false} BackedAt(d: Disk, i: Inodes, inum: nat, from: nat, end: nat, pos: nat)
    requires inum in i && Backed(d, i, inum, from, end) && from <= pos < end && pos < MAXBYTES
    ensures At(d, i, Owner(inum, DataSlot(pos / BSIZE))) != 0
  {
  }

  // A write within the size finds its blocks there.
  lemma {:induction false} AlreadyThere(d0: Disk, i0: Inodes, d: Disk, i: Inodes, inum: nat, off: nat, n: nat, tot: nat)
    requires Kept(d0, i0, d, i, inum) && inum in i0 && tot < n && off + n <= i0[inum].size <= MAXBYTES &&
      Backed(d0, i0, inum, 0, i0[inum].size)
    ensures inum in i && At(d, i, Owner(inum, DataSlot((off + tot) / BSIZE))) != 0
  {
    hide At, DataSlot;
    var pos := off + tot;
    assert Live(i0, Owner(inum, DataSlot(pos / BSIZE)));
  }

  lemma {:induction false} WrittenStill(d0: Disk, i0: Inodes, d: Disk, i: Inodes, d': Disk, inum: nat, off: nat,
      src: seq<Byte>, n: nat)
    requires n <= |src| && Written(d0, i0, d, i, inum, off, src, n)
    requires forall x, pos: nat :: x in i && pos < MAXBYTES ==> ByteAt(d', i, x, pos) == ByteAt(d, i, x, pos)
    ensures Written(d0, i0, d', i, inum, off, src, n)
  {
    hide ByteAt;
  }
}
