// The free-block bitmap of fs.c: one bit a block, packed into the bytes of the bitmap blocks.
module FsBitmap {
  import opened Basics
  import opened Blocks

  const BPB := 4096             // bits in one bitmap block

  // The superblock. Blocks below DataStart are metadata; mkfs marks them in use.
  datatype Super = Super(size: nat, inodestart: nat, bmapstart: nat)

  function DataStart(sb: Super): nat {
    sb.bmapstart + sb.size / BPB + 1
  }

  // The bitmap blocks that have a bit for some data block start and end here.
  function BitmapFirst(sb: Super): nat {
    sb.bmapstart + DataStart(sb) / BPB
  }

  function BitmapEnd(sb: Super): (e: nat)
    ensures e <= DataStart(sb) && forall b: nat :: b < sb.size ==> b / BPB + sb.bmapstart < e
  {
    sb.bmapstart + (sb.size + BPB - 1) / BPB
  }

  // The bits of all data blocks lie in at most k bitmap blocks.
  predicate Spans(sb: Super, k: nat) {
    (sb.size - 1) / BPB < DataStart(sb) / BPB + k
  }

  predicate Narrow(sb: Super) {
    Spans(sb, 2)
  }

  ghost predicate SuperOk(sb: Super) {
    0 < DataStart(sb) <= sb.size < 0x1_0000_0000
  }

  function BBlock(sb: Super, b: nat): nat {
    b / BPB + sb.bmapstart
  }

  // x & (1 << k), as a truth value.
  predicate BitOf(x: nat, k: nat) {
    if k == 0 then x % 2 == 1 else BitOf(x / 2, k - 1)
  }

  // x | (1 << k) or x & ~(1 << k).
  function WithBit(x: nat, k: nat, on: bool): nat {
    if k == 0 then x / 2 * 2 + (if on then 1 else 0) else WithBit(x / 2, k - 1, on) * 2 + x % 2
  }

  lemma {:induction false} Half(x: nat, n: nat)
    requires x < Pow2(n) && n > 0
    ensures Pow2(n) == 2 * Pow2(n - 1) && x / 2 < Pow2(n - 1)
  {
  }

  lemma {:induction false} WithBitFits(x: nat, k: nat, on: bool, n: nat)
    requires x < Pow2(n) && k < n
    ensures WithBit(x, k, on) < Pow2(n)
  {
    hide Pow2;
    Half(x, n);
    if k > 0 {
      WithBitFits(x / 2, k - 1, on, n - 1);
    }
  }

  lemma {:induction false} BitOfWithBit(x: nat, k: nat, on: bool, i: nat)
    ensures BitOf(WithBit(x, k, on), i) <==> if i == k then on else BitOf(x, i)
  {
    if i > 0 && k > 0 {
      BitOfWithBit(x / 2, k - 1, on, i - 1);
    }
  }

  function MarkByte(x: Byte, k: nat, on: bool): Byte
    requires k < 8
  {
    assert Pow2(8) == 256;
    WithBitFits(x, k, on, 8);
    WithBit(x, k, on)
  }

  // Is block b marked in use?
  predicate InUse(sb: Super, disk: Disk, b: nat)
    requires BBlock(sb, b) < |disk|
  {
    BitOf(disk[BBlock(sb, b)].bytes[b % BPB / 8], b % BPB % 8)
  }

  function MarkBlock(x: Block, bi: nat, on: bool): Block
    requires bi < BPB
  {
    Block(x.bytes[bi / 8 := MarkByte(x.bytes[bi / 8], bi % 8, on)])
  }

  // The disk with block b marked in use or free.
  function Mark(sb: Super, disk: Disk, b: nat, on: bool): (d: Disk)
    requires BBlock(sb, b) < |disk|
    ensures |d| == |disk|
  {
    disk[BBlock(sb, b) := MarkBlock(disk[BBlock(sb, b)], b % BPB, on)]
  }

  // Marking a block changes its bit and no other.
  lemma {:induction false} MarkMarks(sb: Super, disk: Disk, b: nat, on: bool, c: nat)
    requires BBlock(sb, b) < |disk| && BBlock(sb, c) < |disk|
    ensures InUse(sb, Mark(sb, disk, b, on), c) <==> if c == b then on else InUse(sb, disk, c)
  {
    hide BitOf, WithBit;
    SamePlace(b, c);
    BitOfWithBit(disk[BBlock(sb, b)].bytes[b % BPB / 8], b % BPB % 8, on, c % BPB % 8);
  }

  lemma {:induction false} SamePlace(b: nat, c: nat)
    ensures b / BPB == c / BPB && b % BPB / 8 == c % BPB / 8 && b % BPB % 8 == c % BPB % 8 <==> b == c
  {
  }

  // Data blocks are not bitmap blocks, nor the other way round.
  ghost predicate SameData(sb: Super, d: Disk, d': Disk) {
    |d'| == |d| && forall b :: DataStart(sb) <= b < |d| ==> d'[b] == d[b]
  }
}
