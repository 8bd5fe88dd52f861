// Hanging a fresh block into an inode's block tree: the pure steps of bmap.
module FsLink {
  import opened Basics
  import opened Blocks
  import opened FsBitmap
  import opened FsTree

  // The slot held by word i of the inode's own array.
  function TopSlot(i: nat): Slot
    requires i < NDIRECT + 2
  {
    if i < NDIRECT then Direct(i) else if i == NDIRECT then Ind else Dbl
  }

  // The slot held by word j of the index block in slot t.
  function Child(t: Slot, j: nat): Slot
    requires !IsData(t)
  {
    match t
    case Ind => IndData(j)
    case Dbl => Mid(j)
    case Mid(i) => DblData(i, j)
  }

  // Exactly slot o has changed, from nothing to b.
  ghost predicate LinksOnly(disk: Disk, inodes: Inodes, disk': Disk, inodes': Inodes, o: Owner, b: nat)
    requires inodes'.Keys == inodes.Keys
  {
    forall x :: Live(inodes, x) ==> At(disk', inodes', x) as nat == if x == o then b else At(disk, inodes, x)
  }

  lemma {:induction false} Linked(sb: Super, disk: Disk, inodes: Inodes, owner: map<nat, Owner>, leaked: set<nat>,
      disk': Disk, inodes': Inodes, o: Owner, b: nat)
    requires Owned(sb, disk, inodes, owner, leaked) && b in leaked && Live(inodes, o) && At(disk, inodes, o) == 0
    requires |disk'| == |disk| && (forall c :: 0 <= c < DataStart(sb) && c < |disk| ==> disk'[c] == disk[c])
    requires inodes'.Keys == inodes.Keys && LinksOnly(disk, inodes, disk', inodes', o, b)
    ensures Owned(sb, disk', inodes', owner[b := o], leaked - {b})
  {
    hide At, InUse;
    assert forall x :: Live(inodes', x) <==> Live(inodes, x);
    forall c | 0 <= c < sb.size ensures InUse(sb, disk', c) == InUse(sb, disk, c) {
      BitsFrame(sb, disk, disk', c);
    }
    forall c | c in owner ensures OwnerOk(sb, disk', inodes', owner[b := o], c) {
      assert OwnerOk(sb, disk, inodes, owner, c);
    }
  }

  // Files read as before: the new block is zero, as a missing block reads.
  lemma {:induction false} LinkedBytes(sb: Super, disk: Disk, inodes: Inodes, owner: map<nat, Owner>, leaked: set<nat>,
      disk': Disk, inodes': Inodes, o: Owner, b: nat, i: nat, pos: nat)
    requires Owned(sb, disk, inodes, owner, leaked) && b < |disk| && Live(inodes, o) && At(disk, inodes, o) == 0
    requires |disk'| == |disk| && inodes'.Keys == inodes.Keys && LinksOnly(disk, inodes, disk', inodes', o, b)
    requires disk'[b] == ZeroBlock && forall c :: c in owner && IsData(owner[c].slot) && c < |disk| ==>
      disk'[c] == disk[c]
    requires i in inodes && pos < MAXFILE * BSIZE
    ensures ByteAt(disk', inodes', i, pos) == ByteAt(disk, inodes, i, pos)
  {
    hide At, InUse, DataSlot;
    var x := Owner(i, DataSlot(pos / BSIZE));
    assert Live(inodes, x);
    if x != o && At(disk, inodes, x) != 0 {
      AtOk(sb, disk, inodes, owner, leaked, x);
    }
  }

  // if((addr = ip->addrs[i]) == 0) ip->addrs[i] = addr
  function WithAddr(inodes: Inodes, inum: nat, i: nat, b: Word): Inodes
    requires inum in inodes && i < NDIRECT + 2
  {
    inodes[inum := inodes[inum].(addrs := inodes[inum].addrs[i := b])]
  }

  lemma {:induction false} TopLinks(disk: Disk, inodes: Inodes, inum: nat, i: nat, b: Word)
    requires inum in inodes && i < NDIRECT + 2 && inodes[inum].addrs[i] == 0 && b < |disk| && disk[b] == ZeroBlock
    ensures WithAddr(inodes, inum, i, b).Keys == inodes.Keys
    ensures LinksOnly(disk, inodes, disk, WithAddr(inodes, inum, i, b), Owner(inum, TopSlot(i)), b)
  {
    hide WordAt;
    assert forall j | 0 <= j < WORDS :: Word0(disk, b, j) == 0 by {
      forall j | 0 <= j < WORDS ensures Word0(disk, b, j) == 0 {
        WordAtZero(j);
      }
    }
  }

  // a[j] = addr in the index block of slot t.
  lemma {:induction false} EntryLinks(sb: Super, disk: Disk, inodes: Inodes, owner: map<nat, Owner>, leaked: set<nat>,
      inum: nat, t: Slot, j: nat, b: Word)
    requires Owned(sb, disk, inodes, owner, leaked) && b in leaked && b < |disk| && disk[b] == ZeroBlock
    requires inum in inodes && SlotOk(t) && !IsData(t) && j < WORDS && At(disk, inodes, Owner(inum, t)) != 0
    requires At(disk, inodes, Owner(inum, t)) < |disk| && At(disk, inodes, Owner(inum, Child(t, j))) == 0
    ensures
      var p := At(disk, inodes, Owner(inum, t));
      LinksOnly(disk, inodes, disk[p := SetWord(disk[p], j, b)], inodes, Owner(inum, Child(t, j)), b)
  {
    hide WordAt, SetWord, InUse, IsData;
    var p := At(disk, inodes, Owner(inum, t));
    var d := disk[p := SetWord(disk[p], j, b)];
    AtOk(sb, disk, inodes, owner, leaked, Owner(inum, t));
    forall x | Live(inodes, x) ensures At(d, inodes, x) == if x == Owner(inum, Child(t, j)) then b
      else At(disk, inodes, x) {
      EntryLinksOne(sb, disk, inodes, owner, leaked, inum, t, j, b, x);
    }
  }

  lemma {:induction false} WordsAfter(disk: Disk, p: nat, j: nat, b: Word, q: nat, i: nat)
    requires 0 < p < |disk| && j < WORDS && i < WORDS
    ensures Word0(disk[p := SetWord(disk[p], j, b)], q, i) == if q == p && i == j then b else Word0(disk, q, i)
  {
    hide WordAt, SetWord;
    WordAtSetWord(disk[p], j, b, i);
  }

  lemma {:induction false} EntryLinksOne(sb: Super, disk: Disk, inodes: Inodes, owner: map<nat, Owner>,
      leaked: set<nat>, inum: nat, t: Slot, j: nat, b: Word, x: Owner)
    requires Owned(sb, disk, inodes, owner, leaked) && b in leaked && b < |disk| && disk[b] == ZeroBlock
    requires inum in inodes && SlotOk(t) && !IsData(t) && j < WORDS && At(disk, inodes, Owner(inum, t)) != 0
    requires 0 < At(disk, inodes, Owner(inum, t)) < |disk| && At(disk, inodes, Owner(inum, Child(t, j))) == 0 &&
      Live(inodes, x)
    ensures
      var p := At(disk, inodes, Owner(inum, t));
      At(disk[p := SetWord(disk[p], j, b)], inodes, x) == if x == Owner(inum, Child(t, j)) then b
        else At(disk, inodes, x)
  {
    hide WordAt, SetWord, Owned, Word0;
    var p := At(disk, inodes, Owner(inum, t));
    var a := inodes[x.inum].addrs;
    FreshBlock(sb, disk, inodes, owner, leaked, Owner(inum, t), b);
    match x.slot
    case IndData(i) =>
      WordsAfter(disk, p, j, b, a[NDIRECT], i);
      SameOwner(sb, disk, inodes, owner, leaked, Owner(inum, t), Owner(x.inum, Ind));
    case Mid(i) =>
      WordsAfter(disk, p, j, b, a[NDIRECT + 1], i);
      SameOwner(sb, disk, inodes, owner, leaked, Owner(inum, t), Owner(x.inum, Dbl));
    case DblData(i, k) =>
      WordsAfter(disk, p, j, b, a[NDIRECT + 1], i);
      SameOwner(sb, disk, inodes, owner, leaked, Owner(inum, t), Owner(x.inum, Dbl));
      WordsAfter(disk, p, j, b, Word0(disk, a[NDIRECT + 1], i), k);
      WordsAfter(disk, p, j, b, b, k);
      WordZero(disk, b, k);
      SameOwner(sb, disk, inodes, owner, leaked, Owner(inum, t), Owner(x.inum, Mid(i)));
    case _ =>
  }

  lemma {:induction false} WordZero(disk: Disk, b: nat, k: nat)
    requires b < |disk| && disk[b] == ZeroBlock && k < WORDS
    ensures Word0(disk, b, k) == 0 && Word0(disk, 0, k) == 0
  {
    WordAtZero(k);
  }

  lemma {:induction false} SameOwner(sb: Super, disk: Disk, inodes: Inodes, owner: map<nat, Owner>, leaked: set<nat>,
      o: Owner, o': Owner)
    requires Owned(sb, disk, inodes, owner, leaked) && Live(inodes, o) && Live(inodes, o') && At(disk, inodes, o) != 0
    ensures At(disk, inodes, o) == At(disk, inodes, o') <==> o == o'
  {
    hide At, InUse;
  }

  lemma {:induction false} FreshBlock(sb: Super, disk: Disk, inodes: Inodes, owner: map<nat, Owner>, leaked: set<nat>,
      o: Owner, b: nat)
    requires Owned(sb, disk, inodes, owner, leaked) && b in leaked && Live(inodes, o)
    ensures At(disk, inodes, o) != b && b > 0
  {
    hide At, InUse;
  }

  // The slots bmap looks at, and may fill, for block bn of a file.
  function Path(bn: nat): set<Slot>
    requires bn < MAXFILE
  {
    var s := DataSlot(bn);
    if s.Direct? then {s} else if s.IndData? then {Ind, s} else {Dbl, Mid(s.j), s}
  }

  lemma {:induction false} TopStep(sb: Super, disk: Disk, inodes: Inodes, owner: map<nat, Owner>, leaked: set<nat>,
      inum: nat, i: nat, b: Word)
    requires Owned(sb, disk, inodes, owner, leaked) && b as nat in leaked && b < |disk| && disk[b] == ZeroBlock
    requires inum in inodes && i < NDIRECT + 2 && inodes[inum].addrs[i] == 0
    ensures
      var o, after := Owner(inum, TopSlot(i)), WithAddr(inodes, inum, i, b);
      && Owned(sb, disk, after, owner[b as nat := o], leaked - {b as nat})
      && Grown(disk, inodes, disk, after, inum, {o.slot}) && Live(after, o) && At(disk, after, o) == b
  {
    hide InUse, Owned, At, ByteAt;
    var o, after := Owner(inum, TopSlot(i)), WithAddr(inodes, inum, i, b);
    TopIs(disk, inodes, inum, i);
    TopLinks(disk, inodes, inum, i, b);
    Linked(sb, disk, inodes, owner, leaked, disk, after, o, b);
    forall x, pos: nat | x in inodes && pos < MAXFILE * BSIZE
      ensures ByteAt(disk, after, x, pos) == ByteAt(disk, inodes, x, pos) {
      LinkedBytes(sb, disk, inodes, owner, leaked, disk, after, o, b, x, pos);
    }
    assert Live(inodes, o);
  }

  lemma {:induction false} TopIs(disk: Disk, inodes: Inodes, inum: nat, i: nat)
    requires inum in inodes && i < NDIRECT + 2
    ensures Live(inodes, Owner(inum, TopSlot(i))) && At(disk, inodes, Owner(inum, TopSlot(i))) == inodes[inum].addrs[i]
  {
  }

  lemma {:induction false} ChildIs(disk: Disk, inodes: Inodes, inum: nat, t: Slot, j: nat)
    requires inum in inodes && SlotOk(t) && !IsData(t) && j < WORDS
    ensures Live(inodes, Owner(inum, t)) && Live(inodes, Owner(inum, Child(t, j)))
    ensures At(disk, inodes, Owner(inum, Child(t, j))) == Word0(disk, At(disk, inodes, Owner(inum, t)), j)
  {
    hide Word0;
  }

  // Below an index block that is missing everything is.
  lemma {:induction false} NoChild(disk: Disk, inodes: Inodes, inum: nat, t: Slot, j: nat)
    requires inum in inodes && SlotOk(t) && !IsData(t) && j < WORDS && At(disk, inodes, Owner(inum, t)) == 0
    ensures Live(inodes, Owner(inum, Child(t, j))) && At(disk, inodes, Owner(inum, Child(t, j))) == 0
  {
    hide WordAt;
    ChildIs(disk, inodes, inum, t, j);
  }

  lemma {:induction false} EntryStep(sb: Super, disk: Disk, inodes: Inodes, owner: map<nat, Owner>, leaked: set<nat>,
      inum: nat, t: Slot, j: nat, b: Word, p: nat)
    requires Owned(sb, disk, inodes, owner, leaked) && b as nat in leaked && b < |disk| && disk[b] == ZeroBlock
    requires inum in inodes && SlotOk(t) && !IsData(t) && j < WORDS && p == At(disk, inodes, Owner(inum, t)) != 0
    requires At(disk, inodes, Owner(inum, Child(t, j))) == 0
    ensures p < |disk| && Live(inodes, Owner(inum, Child(t, j)))
    ensures
      var o, d := Owner(inum, Child(t, j)), disk[p := SetWord(disk[p], j, b)];
      && Owned(sb, d, inodes, owner[b as nat := o], leaked - {b as nat})
      && Grown(disk, inodes, d, inodes, inum, {o.slot}) && At(d, inodes, o) == b
  {
    hide InUse, Owned, At, ByteAt, SetWord, WordAt;
    ChildIs(disk, inodes, inum, t, j);
    AtOk(sb, disk, inodes, owner, leaked, Owner(inum, t));
    var o, d := Owner(inum, Child(t, j)), disk[p := SetWord(disk[p], j, b)];
    FreshBlock(sb, disk, inodes, owner, leaked, Owner(inum, t), b);
    EntryLinks(sb, disk, inodes, owner, leaked, inum, t, j, b);
    Linked(sb, disk, inodes, owner, leaked, d, inodes, o, b);
    forall x, pos: nat | x in inodes && pos < MAXFILE * BSIZE
      ensures ByteAt(d, inodes, x, pos) == ByteAt(disk, inodes, x, pos) {
      LinkedBytes(sb, disk, inodes, owner, leaked, d, inodes, o, b, x, pos);
    }
  }

  // A pointer that was set stays; with nothing filled, one that was not set is still not set.
  lemma {:induction false} StillAt(d0: Disk, i0: Inodes, d: Disk, i: Inodes, inum: nat, o: Owner)
    requires exists path :: Grown(d0, i0, d, i, inum, path)
    requires Live(i0, o) && At(d0, i0, o) != 0
    ensures Live(i, o) && At(d, i, o) == At(d0, i0, o)
  {
    hide At, ByteAt;
  }

  lemma {:induction false} StillNone(d0: Disk, i0: Inodes, d: Disk, i: Inodes, inum: nat, o: Owner)
    requires Grown(d0, i0, d, i, inum, {}) && Live(i0, o)
    ensures Live(i, o) && At(d, i, o) == At(d0, i0, o)
  {
    hide At, ByteAt;
  }

  // The disk blocks in some of a file's slots.
  function Touched(disk: Disk, inodes: Inodes, inum: nat, slots: set<Slot>): set<nat> {
    set s | s in slots && Live(inodes, Owner(inum, s)) &&
      At(disk, inodes, Owner(inum, s)) != 0 :: At(disk, inodes, Owner(inum, s)) as nat
  }

  // Those of a file's slots that hold nothing.
  function Missing(disk: Disk, inodes: Inodes, inum: nat, slots: set<Slot>): set<Slot> {
    set s | s in slots && Live(inodes, Owner(inum, s)) && At(disk, inodes, Owner(inum, s)) == 0
  }

  lemma {:induction false} TouchedHas(disk: Disk, inodes: Inodes, inum: nat, slots: set<Slot>, s: Slot)
    requires s in slots && Live(inodes, Owner(inum, s)) && At(disk, inodes, Owner(inum, s)) != 0
    ensures At(disk, inodes, Owner(inum, s)) as nat in Touched(disk, inodes, inum, slots)
  {
    hide At;
  }

  lemma {:induction false} LoggedOn(sb: Super, l0: set<nat>, l1: set<nat>, l2: set<nat>, t1: set<nat>, t2: set<nat>,
      t: set<nat>)
    requires LoggedOnly(sb, l0, l1, t1) && LoggedOnly(sb, l1, l2, t2) && t1 <= t && t2 <= t
    ensures LoggedOnly(sb, l0, l2, t)
  {
  }

  lemma {:induction false} LoggedNone(sb: Super, l: set<nat>)
    ensures LoggedOnly(sb, l, l, {})
  {
  }

  // bfree logs the bitmap block of a data block.
  lemma {:induction false} BitLogged(sb: Super, l0: set<nat>, l: set<nat>, b: nat)
    requires LoggedOnly(sb, l0, l, {}) && DataStart(sb) <= b < sb.size
    ensures LoggedOnly(sb, l0, l + {BBlock(sb, b)}, {})
  {
  }

  lemma {:induction false} LoggedToo(sb: Super, l0: set<nat>, l: set<nat>, b: nat)
    requires LoggedOnly(sb, l0, l, {})
    ensures LoggedOnly(sb, l0, l + {b}, {b})
  {
  }

  // A block that is there has its index blocks there.
  lemma {:induction false} PathSet(disk: Disk, inodes: Inodes, inum: nat, bn: nat)
    requires inum in inodes && bn < MAXFILE
    ensures forall s :: s in Path(bn) ==> Live(inodes, Owner(inum, s))
    ensures At(disk, inodes, Owner(inum, DataSlot(bn))) != 0 ==>
      forall s :: s in Path(bn) ==> At(disk, inodes, Owner(inum, s)) != 0
  {
    hide WordAt;
  }

  // The slots bmap looks at for blocks first..last of a file.
  function SlotsOf(first: nat, last: nat): set<Slot>
    requires last <= MAXFILE
    decreases last
  {
    if last <= first then {} else SlotsOf(first, last - 1) + Path(last - 1)
  }

  lemma {:induction false} SlotsGrow(first: nat, mid: nat, last: nat)
    requires mid <= last <= MAXFILE
    ensures SlotsOf(first, mid) <= SlotsOf(first, last)
    ensures first < last ==> Path(last - 1) <= SlotsOf(first, last)
  {
    if mid < last && first < last {
      SlotsGrow(first, mid, last - 1);
    }
  }
}
