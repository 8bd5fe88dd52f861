// A page in memory, with its fixed arrays, and the loops that shift and copy inside one page.
module BptPage {
  import opened BptTree
  import opened BptGrow
  import opened BptShrink

  const INTERNAL_ORDER := 249
  const LEAF_ORDER := 32

  function Cut(length: nat): nat {
    if length % 2 == 0 then length / 2 else length / 2 + 1
  }

  lemma {:induction false} InsertSlices(ppo: nat, ompo: nat, a: seq<Entry>, n: nat, at: nat, e: Entry)
    requires at <= n <= |a|
    ensures InsertEnt(Node(ppo, ompo, a[..n]), at, e) == Node(ppo, ompo, a[..at] + [e] + a[at..n])
  {
    assert a[..n][..at] == a[..at] && a[..n][at..] == a[at..n];
  }

  // b is a with element at gone and those after it, up to n, moved one to the left.
  lemma {:induction false} Shifted<T>(a: seq<T>, b: seq<T>, at: nat, n: nat)
    requires at < n <= |a| == |b|
    requires forall k :: 0 <= k < at ==> b[k] == a[k]
    requires forall k :: at <= k < n - 1 ==> b[k] == a[k + 1]
    ensures b[..n - 1] == a[..at] + a[at + 1..n]
  {
  }

  // b is a with x put in at position at and what follows, up to n, moved one to the right.
  lemma {:induction false} Opened<T>(a: seq<T>, b: seq<T>, at: nat, n: nat, x: T)
    requires at <= n < |a| == |b| && b[at] == x
    requires forall k :: 0 <= k < at ==> b[k] == a[k]
    requires forall k :: at < k <= n ==> b[k] == a[k - 1]
    ensures b[..n + 1] == a[..at] + [x] + a[at..n]
  {
  }

  // The loops that open and close a gap at position at among the first n elements.
  method ShiftRight<T>(a: array<T>, at: nat, n: nat)
    requires at <= n < a.Length
    modifies a
    ensures forall k :: 0 <= k < at ==> a[k] == old(a[k])
    ensures forall k :: at < k <= n ==> a[k] == old(a[k - 1])
  {
    var i := n;
    while i > at
      invariant at <= i <= n
      invariant forall k {:trigger a[k]} :: 0 <= k < i ==> a[k] == old(a[k])
      invariant forall k {:trigger a[k]} :: i < k <= n ==> a[k] == old(a[k - 1])
    {
      a[i] := a[i - 1];
      i := i - 1;
    }
  }

  method ShiftLeft<T>(a: array<T>, at: nat, n: nat)
    requires at < n <= a.Length
    modifies a
    ensures forall k :: 0 <= k < at ==> a[k] == old(a[k])
    ensures forall k :: at <= k < n - 1 ==> a[k] == old(a[k + 1])
  {
    var i := at + 1;
    while i < n
      invariant at + 1 <= i <= n
      invariant forall k {:trigger a[k]} :: 0 <= k < at ==> a[k] == old(a[k])
      invariant forall k {:trigger a[k]} :: at <= k < i - 1 ==> a[k] == old(a[k + 1])
      invariant forall k {:trigger a[k]} :: at < k && i - 1 <= k < n ==> a[k] == old(a[k])
    {
      a[i - 1] := a[i];
      i := i + 1;
    }
  }

  // The temporary array of a split: the first n elements with one more put in at position at.
  method Combine<T(0)>(a: array<T>, n: nat, at: nat, x: T) returns (temp: array<T>)
    requires at <= n <= a.Length
    ensures fresh(temp) && temp[..] == a[..at] + [x] + a[at..n]
  {
    temp := new T[n + 1];
    var i, j := 0, 0;
    while i < n
      invariant i <= n && j == if i <= at then i else i + 1
      invariant forall k :: 0 <= k < j && k < at ==> temp[k] == a[k]
      invariant forall k :: at < k < j ==> temp[k] == a[k - 1]
      modifies temp
    {
      if j == at {
        j := j + 1;
      }
      temp[j] := a[i];
      i, j := i + 1, j + 1;
    }
    temp[at] := x;
  }

  class PageBuf {
    var isLeaf: bool
    var ppo: nat
    var numKeys: nat
    var ompo: nat
    const entry: array<Entry>
    const record: array<Record>

    ghost predicate Valid()
      reads this
    {
      && entry.Length == INTERNAL_MAX && record.Length == LEAF_MAX
      && numKeys <= if isLeaf then LEAF_MAX else INTERNAL_MAX
    }

    // calloc: an empty internal page.
    constructor ()
      ensures Valid() && fresh(entry) && fresh(record)
      ensures !isLeaf && ppo == 0 && numKeys == 0 && ompo == 0
    {
      isLeaf, ppo, numKeys, ompo := false, 0, 0, 0;
      entry := new Entry[INTERNAL_MAX](_ => Entry(0, 0));
      record := new Record[LEAF_MAX](_ => Record(0, ""));
    }

    // file_read_page, of a page that fits.
    constructor Read(p: Page)
      requires Size(p) <= if p.Leaf? then LEAF_MAX else INTERNAL_MAX
      ensures Valid() && fresh(entry) && fresh(record) && Snapshot() == p
    {
      isLeaf, ppo, numKeys, ompo := p.Leaf?, p.ppo, Size(p), if p.Leaf? then p.next else p.first;
      entry := new Entry[INTERNAL_MAX](i => if p.Node? && 0 <= i < |p.ents| then p.ents[i] else Entry(0, 0));
      record := new Record[LEAF_MAX](i => if p.Leaf? && 0 <= i < |p.recs| then p.recs[i] else Record(0, ""));
      new;
      assert p.Leaf? ==> record[..numKeys] == p.recs;
      assert p.Node? ==> entry[..numKeys] == p.ents;
    }

    // What file_write_page puts on disk.
    function Snapshot(): (p: Page)
      requires Valid()
      reads this, entry, record
      ensures p.Leaf? == isLeaf && Size(p) == numKeys && p.ppo == ppo
    {
      if isLeaf then Leaf(ppo, ompo, record[..numKeys]) else Node(ppo, ompo, entry[..numKeys])
    }

    // The first record with a key at least this one.
    method LeafPoint(key: int) returns (at: nat)
      requires Valid() && isLeaf
      ensures at <= numKeys
      ensures forall i :: 0 <= i < at ==> record[i].key < key
      ensures at < numKeys ==> record[at].key >= key
    {
      at := 0;
      while at < numKeys && record[at].key < key
        invariant at <= numKeys
        invariant forall i :: 0 <= i < at ==> record[i].key < key
      {
        at := at + 1;
      }
    }

    // insert_into_leaf: shift the tail one to the right and put the record in.
    method InsertRecord(at: nat, r: Record)
      requires Valid() && isLeaf && numKeys < LEAF_MAX && at <= numKeys
      modifies this`numKeys, record
      ensures Valid() && isLeaf && Snapshot() == Leaf(ppo, ompo, old(record[..at]) + [r] + old(record[at..numKeys]))
    {
      ghost var a := record[..];
      ShiftRight(record, at, numKeys);
      record[at] := r;
      numKeys := numKeys + 1;
      Opened(a, record[..], at, numKeys - 1, r);
    }

    // The copy loops of insert_into_leaf_after_splitting: a full leaf and one record more, dealt to two leaves.
    method SplitRecords(at: nat, r: Record, newLeaf: PageBuf)
      requires Valid() && isLeaf && numKeys == LEAF_MAX && at <= numKeys
      requires newLeaf.Valid() && newLeaf.isLeaf && newLeaf.numKeys == 0 && newLeaf != this
      requires newLeaf.record != record
      modifies this`numKeys, record, newLeaf`numKeys, newLeaf.record
      ensures Valid() && newLeaf.Valid()
      ensures numKeys == 16 && newLeaf.numKeys == 16
      ensures
        var all := old(record[..at]) + [r] + old(record[at..numKeys]);
        Snapshot() == Leaf(ppo, ompo, all[..16]) && newLeaf.Snapshot() == Leaf(newLeaf.ppo, newLeaf.ompo, all[16..])
    {
      ghost var all := record[..at] + [r] + record[at..numKeys];
      var temp := Combine(record, numKeys, at, r);
      var i, j := 0, 0;
      numKeys := 0;
      var split := Cut(LEAF_ORDER);
      i := 0;
      while i < split
        invariant i <= split && numKeys == i
        invariant record[..i] == temp[..i]
        modifies record, this`numKeys
      {
        record[i] := temp[i];
        numKeys := numKeys + 1;
        i := i + 1;
      }
      i, j := split, 0;
      while i < LEAF_ORDER
        invariant split <= i <= LEAF_ORDER && j == i - split && newLeaf.numKeys == j
        invariant newLeaf.record[..j] == temp[split..i]
        modifies newLeaf.record, newLeaf`numKeys
      {
        newLeaf.record[j] := temp[i];
        newLeaf.numKeys := newLeaf.numKeys + 1;
        i, j := i + 1, j + 1;
      }
      assert record[..numKeys] == all[..split];
      assert newLeaf.record[..newLeaf.numKeys] == all[split..];
    }

    // The page work of insert_into_leaf_after_splitting: find the place, deal the records to this leaf
    // and a new one, and chain the two.
    method SplitLeaf(key: int, value: Value, q: nat, newLeaf: PageBuf)
      returns (left: Page, right: Page, newKey: int, ghost at: nat)
      requires Valid() && isLeaf && numKeys == LEAF_MAX && SortedRecs(Snapshot().recs)
      requires forall i :: 0 <= i < numKeys ==> Snapshot().recs[i].key != key
      requires newLeaf.Valid() && newLeaf.isLeaf && newLeaf.numKeys == 0 && newLeaf != this && newLeaf.record != record
      modifies this, record, newLeaf, newLeaf.record
      ensures FitsAt(old(Snapshot()).recs, at, Record(key, value))
      ensures
        var n := old(Snapshot());
        var all := InsertRec(n.recs, at, Record(key, value));
        left == Leaf(n.ppo, q, all[..16]) && right == Leaf(n.ppo, n.next, all[16..]) && newKey == all[16].key
    {
      hide FitsAt, SortedRecs;
      ghost var n := Snapshot();
      var here := LeafPoint(key);
      at := here;
      assert forall i :: 0 <= i < |n.recs| ==> n.recs[i] == record[i];
      PointFits(n.recs, at, Record(key, value));
      assert record[..at] == n.recs[..at] && record[at..numKeys] == n.recs[at..];
      SplitRecords(here, Record(key, value), newLeaf);
      newLeaf.ompo := ompo;
      ompo := q;
      newLeaf.ppo := ppo;
      left, right, newKey := Snapshot(), newLeaf.Snapshot(), newLeaf.record[0].key;
      assert right.recs[0] == newLeaf.record[0];
    }

    // get_left_index: -1 for the first child, else the entry whose pointer it is (or the last).
    method LeftIndex(child: nat) returns (i: int)
      requires Valid() && !isLeaf && HasKid(Snapshot(), child)
      ensures -1 <= i < numKeys && Kid(Snapshot(), i + 1) == child
    {
      if ompo == child {
        return -1;
      }
      i := 0;
      while i < numKeys - 1 && entry[i].po != child
        invariant 0 <= i
        invariant forall k :: 0 <= k < i && k < numKeys ==> entry[k].po != child
        invariant i < numKeys || numKeys == 0
      {
        i := i + 1;
      }
      ghost var k :| 0 <= k <= numKeys && Kid(Snapshot(), k) == child;
    }

    // insert_into_page: shift the tail one to the right and put the entry in after the left child.
    method InsertEntry(left: int, e: Entry)
      requires Valid() && !isLeaf && numKeys < INTERNAL_MAX && -1 <= left < numKeys
      modifies this`numKeys, entry
      ensures Valid() && !isLeaf && Snapshot() == InsertEnt(old(Snapshot()), left + 1, e)
    {
      ghost var a, n := entry[..], Snapshot();
      ShiftRight(entry, left + 1, numKeys);
      entry[left + 1] := e;
      numKeys := numKeys + 1;
      Opened(a, entry[..], left + 1, numKeys - 1, e);
      InsertSlices(ppo, ompo, a, numKeys - 1, left + 1, e);
    }

    // A copy loop of the split: part of the temporary array to an empty page.
    method TakeEntries(temp: array<Entry>, start: nat, end: nat)
      requires entry.Length == INTERNAL_MAX && numKeys == 0 && temp != entry && start <= end <= temp.Length &&
        end - start <= INTERNAL_MAX
      modifies this`numKeys, entry
      ensures numKeys == end - start && entry[..numKeys] == temp[start..end]
    {
      var i, j := start, 0;
      while i < end
        invariant start <= i <= end && j == i - start && numKeys == j
        invariant entry[..j] == temp[start..i]
      {
        entry[j] := temp[i];
        numKeys := numKeys + 1;
        i, j := i + 1, j + 1;
      }
    }

    // The copy loops of insert_into_page_after_splitting: a full page and one entry more, dealt to two
    // pages, the middle key going up and its pointer becoming the new page's first child.
    method SplitEntries(left: int, e: Entry, newPage: PageBuf) returns (key: int)
      requires Valid() && !isLeaf && numKeys == INTERNAL_MAX && -1 <= left < numKeys
      requires newPage.Valid() && !newPage.isLeaf && newPage.numKeys == 0 && newPage != this && newPage.entry != entry
      modifies this`numKeys, entry, newPage`numKeys, newPage`ompo, newPage.entry
      ensures Valid() && newPage.Valid() && numKeys == 124 && newPage.numKeys == 124
      ensures
        var fat := InsertEnt(old(Snapshot()), left + 1, e);
        && CanSplit(fat, 124) && Snapshot() == fat.(ents := fat.ents[..124])
        && key == SplitKey(fat, 124) && newPage.Snapshot() == RightPart(fat, 124).(ppo := newPage.ppo)
    {
      ghost var fat := entry[..left + 1] + [e] + entry[left + 1..numKeys];
      var temp := Combine(entry, numKeys, left + 1, e);
      var split := Cut(INTERNAL_ORDER - 1);
      numKeys := 0;
      TakeEntries(temp, 0, split);
      newPage.ompo := temp[split].po;
      key := temp[split].key;
      newPage.TakeEntries(temp, split + 1, INTERNAL_ORDER);
      assert temp[..] == fat;
      assert entry[..numKeys] == fat[..124];
      assert newPage.entry[..newPage.numKeys] == fat[125..];
      InsertSlices(ppo, ompo, old(entry[..]), old(numKeys), left + 1, e);
    }

    // get_neighbor_index: -2 for the first child, else one less than the entry whose pointer it is.
    method NeighborIndex(child: nat) returns (i: int)
      requires Valid() && !isLeaf && HasKid(Snapshot(), child)
      ensures i == -2 || -1 <= i < numKeys - 1
      ensures Kid(Snapshot(), if i == -2 then 0 else i + 2) == child
    {
      if ompo == child {
        return -2;
      }
      ghost var l :| 0 <= l <= numKeys && Kid(Snapshot(), l) == child;
      var k := 0;
      while k < numKeys
        invariant k < l
      {
        if entry[k].po == child {
          return k - 1;
        }
        k := k + 1;
      }
      assert false;
    }

    // remove_entry_from_page: zero the unused end of the page.
    method ClearRecords()
      requires Valid() && isLeaf
      modifies record
      ensures forall k :: 0 <= k < numKeys ==> record[k] == old(record[k])
      ensures forall k :: numKeys <= k < LEAF_MAX ==> record[k] == Record(0, "")
    {
      var i := numKeys;
      while i < LEAF_MAX
        invariant numKeys <= i <= LEAF_MAX
        invariant forall k :: 0 <= k < numKeys ==> record[k] == old(record[k])
        invariant forall k :: numKeys <= k < i ==> record[k] == Record(0, "")
      {
        record[i] := Record(0, "");
        i := i + 1;
      }
    }

    method ClearEntries()
      requires Valid() && !isLeaf
      modifies entry
      ensures forall k :: 0 <= k < numKeys ==> entry[k] == old(entry[k])
      ensures forall k :: numKeys <= k < INTERNAL_MAX ==> entry[k] == Entry(0, 0)
    {
      var i := numKeys;
      while i < INTERNAL_MAX
        invariant numKeys <= i <= INTERNAL_MAX
        invariant forall k :: 0 <= k < numKeys ==> entry[k] == old(entry[k])
        invariant forall k :: numKeys <= k < i ==> entry[k] == Entry(0, 0)
      {
        entry[i] := Entry(0, 0);
        i := i + 1;
      }
    }

    // remove_entry_from_page on a leaf: find the record and shift the tail one to the left.
    method RemoveRecord(key: int) returns (ghost at: nat)
      requires Valid() && isLeaf && exists i :: 0 <= i < numKeys && record[i].key == key
      modifies this`numKeys, record
      ensures Valid() && at < old(numKeys) && old(record[at]).key == key
      ensures Snapshot() == Leaf(ppo, ompo, old(record[..at]) + old(record[at + 1..numKeys]))
      ensures forall k :: numKeys <= k < LEAF_MAX ==> record[k] == Record(0, "")
    {
      ghost var a := record[..];
      ghost var w :| 0 <= w < numKeys && record[w].key == key;
      var i := 0;
      while record[i].key != key
        invariant 0 <= i <= w
        decreases w - i
      {
        i := i + 1;
      }
      at := i;
      ShiftLeft(record, i, numKeys);
      numKeys := numKeys - 1;
      ClearRecords();
      Shifted(a, record[..], at, numKeys + 1);
    }

    // remove_entry_from_page on an internal page.
    method RemoveEntry(key: int) returns (ghost at: nat)
      requires Valid() && !isLeaf && exists i :: 0 <= i < numKeys && entry[i].key == key
      modifies this`numKeys, entry
      ensures Valid() && at < old(numKeys) && old(entry[at]).key == key
      ensures Snapshot() == Node(ppo, ompo, old(entry[..at]) + old(entry[at + 1..numKeys]))
      ensures forall k :: numKeys <= k < INTERNAL_MAX ==> entry[k] == Entry(0, 0)
    {
      ghost var a := entry[..];
      ghost var w :| 0 <= w < numKeys && entry[w].key == key;
      var i := 0;
      while entry[i].key != key
        invariant 0 <= i <= w
        decreases w - i
      {
        i := i + 1;
      }
      at := i;
      ShiftLeft(entry, i, numKeys);
      numKeys := numKeys - 1;
      ClearEntries();
      Shifted(a, entry[..], at, numKeys + 1);
    }

    // remove_entry_from_page, of the entry at position at.
    method Remove(key: int, ghost at: nat)
      requires Valid() && PageBounds(Snapshot()) && at < numKeys && KeyAt(Snapshot(), at) == key
      modifies this`numKeys, record, entry
      ensures Valid() && Snapshot() == Thinner(old(Snapshot()), at)
    {
      hide PageBounds, KeyAt;
      ghost var n := Snapshot();
      KeyThere(n, at);
      if isLeaf {
        assert record[at].key == key;
        ghost var k := RemoveRecord(key);
        KeyThere(n, k);
        Thinned(n, at, k);
        assert old(record[..at]) == n.recs[..at] && old(record[at + 1..numKeys]) == n.recs[at + 1..];
      } else {
        assert entry[at].key == key;
        ghost var k := RemoveEntry(key);
        KeyThere(n, k);
        Thinned(n, at, k);
        assert old(entry[..at]) == n.ents[..at] && old(entry[at + 1..numKeys]) == n.ents[at + 1..];
      }
    }

    // coalesce_nodes on leaves: append the right page's records and take over its neighbour.
    method AppendRecords(n: PageBuf)
      requires Valid() && n.Valid() && isLeaf && n.isLeaf && n != this && n.record != record
      requires numKeys + n.numKeys <= LEAF_MAX
      modifies this`numKeys, this`ompo, record, n`numKeys
      ensures Valid()
      ensures Snapshot() == Leaf(ppo, n.ompo, old(record[..numKeys]) + old(n.record[..n.numKeys]))
    {
      ompo := n.ompo;
      var nEnd := n.numKeys;
      var at := numKeys;
      var i, j := at, 0;
      while j < nEnd
        invariant j <= nEnd && i == at + j && numKeys == i && n.numKeys == nEnd - j
        invariant forall k :: 0 <= k < at ==> record[k] == old(record[k])
        invariant forall k :: 0 <= k < j ==> record[at + k] == old(n.record[k])
        modifies record, this`numKeys, n`numKeys
      {
        record[i] := n.record[j];
        numKeys := numKeys + 1;
        n.numKeys := n.numKeys - 1;
        i, j := i + 1, j + 1;
      }
      assert record[..numKeys] == old(record[..numKeys]) + old(n.record[..n.numKeys]);
    }

    // coalesce_nodes on internal pages: the separating key comes down, then the right page's entries follow.
    method AppendEntries(n: PageBuf, key: int)
      requires Valid() && n.Valid() && !isLeaf && !n.isLeaf && n != this && n.entry != entry
      requires numKeys + 1 + n.numKeys <= INTERNAL_MAX
      modifies this`numKeys, entry, n`numKeys
      ensures Valid()
      ensures Snapshot() == Node(ppo, ompo, old(entry[..numKeys]) + [Entry(key, n.ompo)] + old(n.entry[..n.numKeys]))
    {
      var at := numKeys;
      entry[at] := Entry(key, n.ompo);
      numKeys := numKeys + 1;
      var nEnd := n.numKeys;
      var i, j := at + 1, 0;
      while j < nEnd
        invariant j <= nEnd && i == at + 1 + j && numKeys == i && n.numKeys == nEnd - j
        invariant forall k :: 0 <= k < at ==> entry[k] == old(entry[k])
        invariant entry[at] == Entry(key, n.ompo)
        invariant forall k :: 0 <= k < j ==> entry[at + 1 + k] == old(n.entry[k])
        modifies entry, this`numKeys, n`numKeys
      {
        entry[i] := n.entry[j];
        numKeys := numKeys + 1;
        n.numKeys := n.numKeys - 1;
        i, j := i + 1, j + 1;
      }
      assert entry[..numKeys] == old(entry[..numKeys]) + [Entry(key, n.ompo)] + old(n.entry[..n.numKeys]);
    }

    // The inner loop of find_leaf: the last entry whose key is at most this one, or -1.
    method ChildFor(key: int) returns (i: int)
      requires Valid() && !isLeaf
      ensures -1 <= i < numKeys
      ensures 0 <= i ==> entry[i].key <= key
      ensures i + 1 < numKeys ==> key < entry[i + 1].key
    {
      i := -1;
      while i < numKeys - 1
        invariant -1 <= i < numKeys
        invariant 0 <= i ==> entry[i].key <= key
      {
        if key >= entry[i + 1].key {
          i := i + 1;
        } else {
          break;
        }
      }
    }
  }
}
