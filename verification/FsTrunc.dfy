// What itrunc frees, in the order it frees it.
module FsTrunc {
  import opened Blocks
  import opened FsBitmap
  import opened FsTree

  // itrunc's order: direct blocks, indirect data blocks, the indirect block, double-indirect data
  // blocks, the double-indirect block. The middle-level blocks have no turn.
  const R_IND := NDIRECT + NINDIRECT
  const R_DBL := R_IND + 1
  const R_LAST := R_DBL + NDINDIRECT
  const R_END := R_LAST + 1

  function Rank(s: Slot): nat {
    match s
    case Direct(i) => i
    case IndData(j) => NDIRECT + j
    case Ind => R_IND
    case DblData(j, k) => R_DBL + 128 * j + k
    case Dbl => R_LAST
    case Mid(j) => R_END
  }

  lemma {:induction false} RanksDiffer(s: Slot, s': Slot)
    requires SlotOk(s) && SlotOk(s') && !s.Mid? && Rank(s) == Rank(s')
    ensures s == s'
  {
  }

  // The blocks of inum whose turn has come before r.
  function FreedBy(owner: map<nat, Owner>, inum: nat, r: nat): set<nat> {
    set b | b in owner && owner[b].inum == inum && Rank(owner[b].slot) < r
  }

  // The middle-level blocks of inum.
  function Middles(owner: map<nat, Owner>, inum: nat): set<nat> {
    set b | b in owner && owner[b].inum == inum && owner[b].slot.Mid?
  }

  function Others(owner: map<nat, Owner>, inum: nat): map<nat, Owner> {
    map b | b in owner && owner[b].inum != inum :: owner[b]
  }

  // d is d0 with the blocks whose turn has come marked free.
  ghost predicate Truncating(sb: Super, d0: Disk, owner: map<nat, Owner>, inum: nat, d: Disk, r: nat) {
    && SuperOk(sb) && |d0| == |d| == sb.size && SameData(sb, d0, d)
    && forall b :: 0 <= b < sb.size ==> (InUse(sb, d, b) <==> InUse(sb, d0, b) && b !in FreedBy(owner, inum, r))
  }

  lemma {:induction false} TruncStart(sb: Super, d: Disk, inodes: Inodes, owner: map<nat, Owner>, leaked: set<nat>,
      inum: nat)
    requires Owned(sb, d, inodes, owner, leaked)
    ensures Truncating(sb, d, owner, inum, d, 0)
  {
    hide InUse;
  }

  // Turns of slots that hold nothing free nothing.
  lemma {:induction false} SkipTurns(sb: Super, d0: Disk, inodes: Inodes, owner: map<nat, Owner>, leaked: set<nat>,
      inum: nat, d: Disk, r: nat, r': nat)
    requires Owned(sb, d0, inodes, owner, leaked) && inum in inodes && Truncating(sb, d0, owner, inum, d, r) && r <= r'
    requires forall s :: SlotOk(s) && r <= Rank(s) < r' ==> At(d0, inodes, Owner(inum, s)) == 0
    ensures Truncating(sb, d0, owner, inum, d, r')
  {
    hide InUse, At, Rank;
    assert FreedBy(owner, inum, r') == FreedBy(owner, inum, r) by {
      forall b | b in FreedBy(owner, inum, r') ensures b in FreedBy(owner, inum, r) {
        assert OwnerOk(sb, d0, inodes, owner, b);
        assert owner[b] == Owner(inum, owner[b].slot);
      }
    }
  }

  // The turn of a slot that holds block b: b is still in use, and freeing it is this turn's work.
  lemma {:induction false} FreeTurn(sb: Super, d0: Disk, inodes: Inodes, owner: map<nat, Owner>, leaked: set<nat>,
      inum: nat, d: Disk, s: Slot)
    requires Owned(sb, d0, inodes, owner, leaked) && inum in inodes && SlotOk(s) && !s.Mid?
    requires Truncating(sb, d0, owner, inum, d, Rank(s)) && At(d0, inodes, Owner(inum, s)) != 0
    ensures
      var b := At(d0, inodes, Owner(inum, s));
      DataStart(sb) <= b < sb.size && InUse(sb, d, b) &&
        Truncating(sb, d0, owner, inum, Mark(sb, d, b, false), Rank(s) + 1)
  {
    hide InUse, At, Rank, Mark;
    var o := Owner(inum, s);
    var b := At(d0, inodes, o);
    AtOk(sb, d0, inodes, owner, leaked, o);
    MarkIs(sb, d, b, false);
    assert FreedBy(owner, inum, Rank(s) + 1) == FreedBy(owner, inum, Rank(s)) + {b} by {
      forall c | c in FreedBy(owner, inum, Rank(s) + 1) && Rank(owner[c].slot) == Rank(s) ensures c == b {
        assert OwnerOk(sb, d0, inodes, owner, c);
        RanksDiffer(s, owner[c].slot);
      }
    }
    forall c | 0 <= c < sb.size
      ensures InUse(sb, Mark(sb, d, b, false), c) <==> InUse(sb, d0, c) && c !in FreedBy(owner, inum, Rank(s) + 1)
    {
      MarkMarks(sb, d, b, false, c);
    }
  }

  function NoAddrs(): Addrs {
    seq(NDIRECT + 2, _ => 0)
  }

  lemma {:induction false} NothingNamed(disk: Disk, inodes: Inodes, inum: nat, s: Slot)
    requires inum in inodes && inodes[inum].addrs == NoAddrs() && SlotOk(s)
    ensures At(disk, inodes, Owner(inum, s)) == 0
  {
    hide WordAt;
  }

  lemma {:induction false} OtherNamed(disk: Disk, inodes: Inodes, inodes': Inodes, o: Owner)
    requires Live(inodes, o) && o.inum in inodes' && inodes'[o.inum].addrs == inodes[o.inum].addrs
    ensures At(disk, inodes', o) == At(disk, inodes, o)
  {
  }

  // After the last turn: the other files own what they owned, and inum's middle-level blocks, still
  // marked in use, are nobody's.
  lemma {:induction false} Truncated(sb: Super, d0: Disk, inodes: Inodes, owner: map<nat, Owner>, leaked: set<nat>,
      inum: nat, d: Disk, size: nat)
    requires Owned(sb, d0, inodes, owner, leaked) && inum in inodes && Truncating(sb, d0, owner, inum, d, R_END)
    ensures
      var after := inodes[inum := Inode(size, NoAddrs())];
      && Owned(sb, d, after, Others(owner, inum), leaked + Middles(owner, inum))
      && (forall o :: Live(inodes, o) ==> At(d, after, o) == if o.inum == inum then 0 else At(d0, inodes, o))
  {
    hide InUse, At;
    var after := inodes[inum := Inode(size, NoAddrs())];
    var own, leak := Others(owner, inum), leaked + Middles(owner, inum);
    DataAgree(sb, d0, inodes, owner, leaked, d);
    assert forall o :: Live(after, o) <==> Live(inodes, o);
    forall o | Live(inodes, o) ensures At(d, after, o) == if o.inum == inum then 0 else At(d0, inodes, o) {
      if o.inum == inum {
        NothingNamed(d, after, inum, o.slot);
      } else {
        OtherNamed(d, inodes, after, o);
        AtFrame(d0, d, inodes, owner, o);
      }
    }
    forall b | 0 <= b < sb.size ensures InUse(sb, d, b) <==> b < DataStart(sb) || b in own || b in leak {
      if b in owner {
        assert OwnerOk(sb, d0, inodes, owner, b);
        RankEnds(owner[b].slot);
      }
    }
    assert LeakedOk(sb, d, own, leak) by {
      forall b | b in leak ensures DataStart(sb) <= b < sb.size && InUse(sb, d, b) && b !in own {
        if b in owner { assert OwnerOk(sb, d0, inodes, owner, b); }
      }
    }
    forall b | b in own ensures OwnerOk(sb, d, after, own, b) {
      assert OwnerOk(sb, d0, inodes, owner, b);
    }
  }

  lemma {:induction false} RankEnds(s: Slot)
    requires SlotOk(s)
    ensures Rank(s) < R_END <==> !s.Mid?
  {
  }

  lemma {:induction false} DataAgree(sb: Super, d0: Disk, inodes: Inodes, owner: map<nat, Owner>, leaked: set<nat>,
      d: Disk)
    requires Owned(sb, d0, inodes, owner, leaked) && SameData(sb, d0, d)
    ensures AgreeIndex(d0, d, owner) && Agree(d0, d, owner)
  {
    hide InUse, At;
    forall p | p in owner ensures p >= DataStart(sb) {
      assert OwnerOk(sb, d0, inodes, owner, p);
    }
  }

  // The inode's own array with its first i words cleared.
  function Cleared(a: Addrs, i: nat): Addrs {
    seq(NDIRECT + 2, t requires 0 <= t < NDIRECT + 2 => if t < i then 0 else a[t])
  }

  function Cut(inodes: Inodes, inum: nat, i: nat): Inodes
    requires inum in inodes
  {
    inodes[inum := Inode(inodes[inum].size, Cleared(inodes[inum].addrs, i))]
  }

  lemma {:induction false} CutSteps(inodes: Inodes, inum: nat, i: nat)
    requires inum in inodes && i < NDIRECT + 2
    ensures Cut(inodes, inum, 0) == inodes
    ensures Cut(inodes, inum, i)[inum].addrs[i] == inodes[inum].addrs[i]
    ensures Cut(inodes, inum, i)[inum := Cut(inodes, inum, i)[inum].(addrs :=
      Cut(inodes, inum, i)[inum].addrs[i := 0])] == Cut(inodes, inum, i + 1)
    ensures inodes[inum].addrs[i] == 0 ==> Cut(inodes, inum, i) == Cut(inodes, inum, i + 1)
  {
    var a := inodes[inum].addrs;
    assert Cleared(a, 0) == a;
    assert Cleared(a, i)[i := 0] == Cleared(a, i + 1);
    assert a[i] == 0 ==> Cleared(a, i) == Cleared(a, i + 1);
    assert inodes[inum := inodes[inum]] == inodes;
  }

  lemma {:induction false} AllCut(inodes: Inodes, inum: nat)
    requires inum in inodes
    ensures Cut(inodes, inum, NDIRECT + 2)[inum := Inode(0, Cut(inodes, inum, NDIRECT + 2)[inum].addrs)] ==
      inodes[inum := Inode(0, NoAddrs())]
  {
    assert Cleared(inodes[inum].addrs, NDIRECT + 2) == NoAddrs();
  }

  lemma {:induction false} TruncatingStill(sb: Super, d0: Disk, owner: map<nat, Owner>, inum: nat, d: Disk, r: nat,
      b: nat, x: Block)
    requires Truncating(sb, d0, owner, inum, d, r) && b < sb.bmapstart
    ensures b < |d| && Truncating(sb, d0, owner, inum, d[b := x], r)
  {
    hide InUse, FreedBy;
    forall c | 0 <= c < sb.size ensures InUse(sb, d[b := x], c) == InUse(sb, d, c) {
      BitsFrame(sb, d, d[b := x], c);
    }
  }

  // The turn of a slot that holds nothing.
  lemma {:induction false} SkipTurn(sb: Super, d0: Disk, inodes: Inodes, owner: map<nat, Owner>, leaked: set<nat>,
      inum: nat, d: Disk, s: Slot)
    requires Owned(sb, d0, inodes, owner, leaked) && inum in inodes && SlotOk(s) && !s.Mid?
    requires Truncating(sb, d0, owner, inum, d, Rank(s)) && At(d0, inodes, Owner(inum, s)) == 0
    ensures Truncating(sb, d0, owner, inum, d, Rank(s) + 1)
  {
    hide Owned, Truncating, At, Rank;
    forall x | SlotOk(x) && Rank(s) <= Rank(x) < Rank(s) + 1 ensures At(d0, inodes, Owner(inum, x)) == 0 {
      RanksDiffer(s, x);
    }
    SkipTurns(sb, d0, inodes, owner, leaked, inum, d, Rank(s), Rank(s) + 1);
  }

  // An index block that is not there holds nothing.
  lemma {:induction false} NoIndirect(disk: Disk, inodes: Inodes, inum: nat, s: Slot)
    requires inum in inodes && SlotOk(s)
    ensures inodes[inum].addrs[NDIRECT] == 0 && NDIRECT <= Rank(s) < R_DBL ==> At(disk, inodes, Owner(inum, s)) == 0
    ensures inodes[inum].addrs[NDIRECT + 1] == 0 && R_DBL <= Rank(s) < R_END ==> At(disk, inodes, Owner(inum, s)) == 0
  {
    hide WordAt;
  }

  lemma {:induction false} NoMiddle(disk: Disk, inodes: Inodes, inum: nat, j: nat, s: Slot)
    requires inum in inodes && SlotOk(s) && j < WORDS && At(disk, inodes, Owner(inum, Mid(j))) == 0
    ensures R_DBL + 128 * j <= Rank(s) < R_DBL + 128 * (j + 1) ==> At(disk, inodes, Owner(inum, s)) == 0
  {
    hide WordAt;
  }

  // The other files read as before.
  lemma {:induction false} TruncBytes(sb: Super, d0: Disk, inodes: Inodes, owner: map<nat, Owner>, leaked: set<nat>,
      inum: nat, d: Disk, size: nat)
    requires Owned(sb, d0, inodes, owner, leaked) && inum in inodes && Truncating(sb, d0, owner, inum, d, R_END)
    ensures
      var after := inodes[inum := Inode(size, NoAddrs())];
      forall i, pos: nat :: i in inodes && i != inum && pos < MAXFILE * BSIZE ==>
        ByteAt(d, after, i, pos) == ByteAt(d0, inodes, i, pos)
  {
    hide InUse, At, DataSlot;
    var after := inodes[inum := Inode(size, NoAddrs())];
    DataAgree(sb, d0, inodes, owner, leaked, d);
    forall i, pos: nat | i in inodes && i != inum && pos < MAXFILE * BSIZE
      ensures ByteAt(d, after, i, pos) == ByteAt(d0, inodes, i, pos) {
      OtherNamed(d, inodes, after, Owner(i, DataSlot(pos / BSIZE)));
      ByteFrame(d0, d, inodes, owner, i, pos);
    }
  }
}
