// Disk blocks as xv6 stores them: 512 bytes, also read as 128 little-endian words.
module Blocks {
  import opened Basics

  const BSIZE := 512
  const WORDS := 128

  type Bytes = b: seq<Byte> | |b| == BSIZE witness seq(BSIZE, _ => 0)
  datatype Block = Block(bytes: Bytes)
  type Disk = seq<Block>

  const ZeroBlock := Block(seq(BSIZE, _ => 0))

  // The j-th uint of a block.
  function WordAt(b: Block, j: nat): (w: Word)
    requires j < WORDS
  {
    b.bytes[4 * j] as int + 0x100 * (b.bytes[4 * j + 1] as int) + 0x1_0000 * (b.bytes[4 * j + 2] as int) +
    0x100_0000 * (b.bytes[4 * j + 3] as int)
  }

  // The block after storing uint w at index j.
  function SetWord(b: Block, j: nat, w: Word): (r: Block)
    requires j < WORDS
  {
    Block(b.bytes[4 * j := w % 0x100]
                 [4 * j + 1 := w / 0x100 % 0x100]
                 [4 * j + 2 := w / 0x1_0000 % 0x100]
                 [4 * j + 3 := w / 0x100_0000])
  }

  lemma {:induction false} WordBytes(w: Word)
    ensures w == w % 0x100 + 0x100 * (w / 0x100 % 0x100) + 0x1_0000 * (w / 0x1_0000 % 0x100) +
      0x100_0000 * (w / 0x100_0000)
  {
    var a, b := w / 0x100, w / 0x1_0000;
    assert a / 0x100 == b && b / 0x100 == w / 0x100_0000;
  }

  // Storing a word changes that word and no other.
  lemma {:induction false} WordAtSetWord(b: Block, j: nat, w: Word, i: nat)
    requires j < WORDS && i < WORDS
    ensures WordAt(SetWord(b, j, w), i) == if i == j then w else WordAt(b, i)
  {
    WordBytes(w);
    if i != j {
      assert 4 * i + 3 < 4 * j || 4 * j + 3 < 4 * i;
    }
  }

  // The first k of some words stored from index at on.
  function PutWords(b: Block, at: nat, ws: seq<nat>, k: nat): Block
    requires k <= |ws| && at + |ws| <= WORDS && forall i :: 0 <= i < |ws| ==> ws[i] < UINT
  {
    if k == 0 then b else SetWord(PutWords(b, at, ws, k - 1), at + k - 1, ws[k - 1])
  }

  lemma {:induction false} PutWordsAt(b: Block, at: nat, ws: seq<nat>, k: nat, j: nat)
    requires k <= |ws| && at + |ws| <= WORDS && j < WORDS && forall i :: 0 <= i < |ws| ==> ws[i] < UINT
    ensures WordAt(PutWords(b, at, ws, k), j) == if at <= j < at + k then ws[j - at] else WordAt(b, j)
  {
    hide WordAt, SetWord;
    if k > 0 {
      WordAtSetWord(PutWords(b, at, ws, k - 1), at + k - 1, ws[k - 1], j);
      PutWordsAt(b, at, ws, k - 1, j);
    }
  }

  lemma {:induction false} WordAtZero(j: nat)
    requires j < WORDS
    ensures WordAt(ZeroBlock, j) == 0
  {
  }
}
