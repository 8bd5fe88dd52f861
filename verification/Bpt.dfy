// bpt.c: lookup and insertion in the disk B+tree.
module Bpt {
  import opened Basics
  import opened BptTree
  import opened BptMerge
  import opened BptStore
  import opened BptGrow
  import opened BptShrink
  import opened BptPage

  class Db {
    // The header page's fields (pages_num is |pages|) and the file as an array of pages.
    var fpo: nat
    var rpo: nat
    var pages: Pages
    // Which pages form the tree and where they sit, and the free list in order.
    ghost var tree: Tree
    ghost var free: seq<nat>

    ghost predicate TreeOk(X: set<nat>)
      reads this
    {
      if rpo == 0 then tree == map[] else WF(pages, rpo, tree, X)
    }

    ghost predicate Valid()
      reads this
    {
      TreeOk({}) && FreeOk(pages, fpo, free, tree, {})
    }

    ghost function Contents(): set<Record>
      requires forall p :: p in tree ==> p < |pages|
      reads this
    {
      Stored(pages, tree)
    }

    // What the database means: a map from keys to values.
    ghost function Map(): map<int, Value>
      requires Valid()
      reads this
    {
      assert Functional(Contents()) by {
        if rpo != 0 { StoredFunctional(pages, rpo, tree, {}); }
      }
      AsMap(Contents())
    }

    // open_db on a new file: a header and 100 free pages.
    constructor ()
      ensures Valid() && Contents() == {} && |pages| == 101
    {
      fpo, rpo, pages, tree, free := 0, 0, [Node(0, 0, [])], map[], [];
      new;
      hide FreeOk, WF, HeadOf;
      FreeNone(pages);
      var i := 0;
      while i < 100
        invariant 0 <= i <= 100 && |pages| == 1 + i && rpo == 0 && tree == map[]
        invariant FreeOk(pages, fpo, free, tree, {})
      {
        FreeNew(pages, fpo, free, tree);
        pages := pages + [Node(fpo, 0, [])];
        fpo := |pages| - 1;
        free := [fpo] + free;
        i := i + 1;
      }
    }

    // open_db on a file that is there: the header is read.
    constructor Open(pages: Pages, fpo: nat, rpo: nat, ghost tree: Tree, ghost free: seq<nat>)
      requires if rpo == 0 then tree == map[] else WF(pages, rpo, tree, {})
      requires FreeOk(pages, fpo, free, tree, {})
      ensures Valid() && this.pages == pages && this.fpo == fpo && this.rpo == rpo && this.tree == tree &&
        this.free == free
    {
      this.pages, this.fpo, this.rpo, this.tree, this.free := pages, fpo, rpo, tree, free;
      new;
      hide WF, FreeOk;
    }

    // file_alloc_page: the first free page, or one more at the end of the file.
    method AllocPage(ghost extra: set<nat>) returns (q: nat)
      requires FreeOk(pages, fpo, free, tree, extra)
      modifies this`fpo, this`pages, this`free
      ensures FreeOk(pages, fpo, free, tree, extra + {q}) && q !in tree && q !in extra && 0 < q < |pages|
      ensures |old(pages)| <= |pages| && pages[..|old(pages)|] == old(pages)
      ensures old(fpo) == 0 ==> q == |old(pages)| && |pages| == q + 1 && free == old(free) == [] && fpo == 0
      ensures old(fpo) != 0 ==> q == old(fpo) && pages == old(pages) && old(free) == [q] + free
    {
      FreeHead(pages, fpo, free, tree, extra);
      hide FreeOk;
      if fpo == 0 {
        FreeGrown(pages, fpo, free, tree, extra, Node(0, 0, []));
        q := |pages|;
        pages := pages + [Node(0, 0, [])];
      } else {
        FreeTaken(pages, fpo, free, tree, extra);
        q := fpo;
        fpo := pages[q].ppo;
        free := free[1..];
      }
    }

    // file_free_page: the page becomes the head of the free list.
    method FreePage(p: nat, ghost extra: set<nat>)
      requires p in extra && p < |pages| && FreeOk(pages, fpo, free, tree, extra)
      modifies this`fpo, this`pages, this`free
      ensures FreeOk(pages, fpo, free, tree, extra - {p})
      ensures pages == old(pages)[p := Node(old(fpo), 0, [])]
    {
      hide FreeOk;
      FreeGiven(pages, fpo, free, tree, extra, p, Node(fpo, 0, []));
      pages := pages[p := Node(fpo, 0, [])];
      fpo := p;
      free := [p] + free;
    }

    // find_leaf: down from the root to the leaf whose interval covers the key.
    method FindLeaf(key: int) returns (p: nat)
      requires TreeOk({})
      ensures p == 0 <==> rpo == 0
      ensures p != 0 ==> p in tree && p < |pages| && pages[p].Leaf? && Within(tree[p], key)
    {
      hide WF, SortedPage, KidInfo, Within;
      if rpo == 0 {
        return 0;
      }
      p := rpo;
      RootSpans(pages, rpo, tree, key);
      var c := new PageBuf.Read(pages[p]);
      while !c.isLeaf
        invariant p in tree && 0 < p < |pages| && c.Valid() && c.Snapshot() == pages[p] && Within(tree[p], key)
        decreases tree[p].level
      {
        var i := c.ChildFor(key);
        var po := if i == -1 then c.ompo else c.entry[i].po;
        assert po == Kid(pages[p], i + 1);
        Descend(pages, rpo, tree, p, i + 1, key);
        p := po;
        c := new PageBuf.Read(pages[p]);
      }
    }

    // find: the value stored under the key, if any.
    method Find(key: int) returns (r: Option<Value>)
      requires Valid()
      ensures r.Some? ==> Record(key, r.value) in Contents()
      ensures r.None? ==> forall v :: Record(key, v) !in Contents()
    {
      hide WF, PageOk, FreeOk;
      if rpo == 0 {
        return None;
      }
      var p := FindLeaf(key);
      if p == 0 {
        return None;
      }
      LeafFits(pages, rpo, tree, {}, p);
      var c := new PageBuf.Read(pages[p]);
      assert c.Snapshot().recs == pages[p].recs;
      var i := 0;
      while i < c.numKeys
        invariant i <= c.numKeys
        invariant forall k :: 0 <= k < i ==> pages[p].recs[k].key != key
      {
        assert c.record[i] == pages[p].recs[i];
        if c.record[i].key == key {
          return Some(c.record[i].value);
        }
        i := i + 1;
      }
      StoredNowhere(pages, rpo, tree, {}, p, key);
      return None;
    }

    // insert_into_parent: a page of the tree has been split; tell its parent, splitting upwards as
    // far as need be. g is the store as it was with the page not yet split.
    method InsertIntoParent(p: nat, left: Page, key: int, q: nat, right: Page, ghost g: Pages, ghost sp: nat)
      requires Splitting(g, pages, rpo, tree, p, sp, q, fpo, free)
      requires left == pages[p] && right == pages[q] && key == SplitKey(g[p], sp)
      modifies this
      ensures Valid() && rpo != 0 && Contents() == Stored(g, old(tree))
      ensures
        var P := left.ppo;
        P != 0 && P < |old(pages)| && old(pages)[P].Node? && |old(pages)[P].ents| < INTERNAL_MAX ==>
          rpo == old(rpo) && p in old(tree) && Told(old(pages), old(tree), pages, tree, p, P, key, q)
      decreases tree[rpo].level - tree[p].level, 1
    {
      assert PageOk(g, rpo, tree, {p}, p);
      if left.ppo == 0 {
        InsertIntoNewRoot(p, left, key, q, right, g, sp);
        return;
      }
      ghost var P', j := SplitLeavesParent(g, pages, rpo, tree, p, sp, q, fpo, free);
      var P := left.ppo;
      var parent := new PageBuf.Read(pages[P]);
      var li := parent.LeftIndex(p);
      if parent.numKeys < INTERNAL_ORDER - 1 {
        InsertIntoPage(P, parent, li, key, q, right, g, p, sp);
      } else {
        InsertIntoPageAfterSplitting(P, parent, li, key, q, g, p, sp);
      }
    }

    // insert_into_page: the parent has room.
    method InsertIntoPage(P: nat, parent: PageBuf, li: int, key: int, q: nat, right: Page, ghost g: Pages, ghost p: nat,
        ghost sp: nat)
      requires rpo != 0 && Splitting(g, pages, rpo, tree, p, sp, q, fpo, free) && key == SplitKey(g[p], sp)
      requires -1 <= li && ParentHeld(g, pages, rpo, tree, p, P, li + 1, q) && q < |pages| && right == pages[q] &&
        right.ppo == P
      requires parent.Valid() && parent.Snapshot() == pages[P] && parent.numKeys < INTERNAL_MAX && li < parent.numKeys
      modifies this, parent, parent.entry
      ensures Valid() && rpo != 0 && Contents() == Stored(g, old(tree))
      ensures rpo == old(rpo) && p in old(tree) && Told(old(pages), old(tree), pages, tree, p, P, key, q)
    {
      hide WF, FreeOk, Stored, InsertEnt, SizeOk, Splitting, RightPart, LeftPart, HasKid;
      ghost var pages0, tree0 := pages, tree;
      parent.InsertEntry(li, Entry(key, q));
      pages := pages[P := parent.Snapshot()];
      pages := pages[q := right.(ppo := P)];
      assert pages == pages0[P := InsertEnt(g[P], li + 1, Entry(key, q))];
      ParentRoomy(g, pages0, pages, rpo, tree, p, P, li + 1, sp, q, fpo, free);
      tree := SplitTree(tree, p, key, q);
      OneMoreEnt(g[P], li + 1, Entry(key, q));
    }

    // The loop that writes a new parent into each child of an internal page.
    method ReparentKids(n: Page, Q: nat)
      requires KidsInFile(n, |pages|)
      modifies this`pages
      ensures |pages| == |old(pages)|
      ensures forall r :: 0 <= r < |pages| ==>
        pages[r] == if HasKid(n, r) then old(pages[r]).(ppo := Q) else old(pages[r])
    {
      ghost var pages0 := pages;
      assert Kid(n, 0) == n.first;
      pages := pages[n.first := pages[n.first].(ppo := Q)];
      var i := 0;
      while i < |n.ents|
        invariant 0 <= i <= |n.ents| && |pages| == |pages0|
        invariant forall r :: 0 <= r < |pages| ==>
          pages[r] == if KidUpTo(n, i, r) then pages0[r].(ppo := Q) else pages0[r]
      {
        var c := n.ents[i].po;
        assert Kid(n, i + 1) == c;
        pages := pages[c := pages[c].(ppo := Q)];
        i := i + 1;
        assert forall r :: KidUpTo(n, i, r) <==> KidUpTo(n, i - 1, r) || r == c;
      }
      assert forall r :: KidUpTo(n, i, r) <==> HasKid(n, r);
    }

    // The page work of insert_into_page_after_splitting: a new page, the entries dealt to both, the
    // moved children told, both pages written. fat is the full page with the new entry.
    method WriteSplit(P: nat, parent: PageBuf, li: int, e: Entry, ghost fat: Page)
      returns (oldPage: Page, newPage: Page, key: int, Q: nat, ghost pages1: Pages)
      requires FreeOk(pages, fpo, free, tree, {}) && P in tree && P < |pages| && pages[P].Node?
      requires parent.Valid() && parent.Snapshot() == pages[P] && parent.numKeys == INTERNAL_MAX &&
        -1 <= li < parent.numKeys
      requires fat == InsertEnt(pages[P], li + 1, e) && CanSplit(fat, 124)
      requires KidsInFile(RightPart(fat, 124), |pages|)
      modifies this`fpo, this`pages, this`free, parent, parent.entry
      ensures Q !in tree && 0 < Q < |pages| == |pages1| && |old(pages)| <= |pages| &&
        pages1[..|old(pages)|] == old(pages)
      ensures FreeOk(pages1, fpo, free, tree, {Q})
      ensures pages[P] == oldPage == LeftPart(fat, 124, Q) && pages[Q] == newPage == RightPart(fat, 124)
      ensures key == SplitKey(fat, 124)
      ensures Reparented(pages1, pages, RightPart(fat, 124), P, Q)
    {
      hide FreeOk, HasKid, InsertEnt;
      var newBuf := new PageBuf();
      Q := AllocPage({});
      assert {} + {Q} == {Q};
      pages1 := pages;
      newBuf.ppo := parent.ppo;
      key := parent.SplitEntries(li, e, newBuf);
      oldPage, newPage := parent.Snapshot(), newBuf.Snapshot();
      ReparentKids(newPage, Q);
      pages := pages[P := oldPage];
      pages := pages[Q := newPage];
    }

    // insert_into_page_after_splitting: the parent is full; split it and go on with its own parent.
    method InsertIntoPageAfterSplitting(P: nat, parent: PageBuf, li: int, key: int, q: nat, ghost g: Pages,
        ghost p: nat, ghost sp: nat)
      requires rpo != 0 && Splitting(g, pages, rpo, tree, p, sp, q, fpo, free) && key == SplitKey(g[p], sp)
      requires -1 <= li && ParentHeld(g, pages, rpo, tree, p, P, li + 1, q)
      requires parent.Valid() && parent.Snapshot() == pages[P] && parent.numKeys == INTERNAL_MAX && li < parent.numKeys
      requires P < |pages| && pages[P].Node? && |pages[P].ents| == INTERNAL_MAX
      modifies this, parent, parent.entry
      ensures Valid() && rpo != 0 && Contents() == Stored(g, old(tree))
      decreases tree[rpo].level - tree[p].level, 0
    {
      hide *;
      HeldParent(g, pages, rpo, tree, p, P, li + 1, q);
      ghost var fat, tree0, pages0 := InsertEnt(g[P], li + 1, Entry(key, q)), tree, pages;
      ParentFat(g, pages, rpo, tree, p, P, li + 1, sp, q, fpo, free);
      tree := SplitTree(tree, p, key, q);
      var oldPage, newPage, key', Q;
      ghost var pages1;
      oldPage, newPage, key', Q, pages1 := WriteSplit(P, parent, li, Entry(key, q), fat);
      SplitWritten(pages0[P := fat], pages1, pages, rpo, tree, P, Q, fpo, free, pages0, fat);
      InsertIntoParent(P, oldPage, key', Q, newPage, pages1[P := fat], 124);
    }

    // insert_into_new_root: the root itself was split, so the tree grows by one level.
    method InsertIntoNewRoot(p: nat, left: Page, key: int, q: nat, right: Page, ghost g: Pages, ghost sp: nat)
      requires Splitting(g, pages, rpo, tree, p, sp, q, fpo, free) && rpo == p
      requires left == pages[p] && right == pages[q] && key == SplitKey(g[p], sp)
      modifies this
      ensures Valid() && rpo != 0 && Contents() == Stored(g, old(tree))
    {
      ghost var tree0, pages0 := tree, pages;
      hide WF, FreeOk, Stored, SizeOk, SplitKey, CanSplit, LeftPart, RightPart, HasKid;
      InHand(pages0, fpo, free, tree, {q});
      var r := AllocPage({q});
      ghost var pages1 := pages;
      pages := pages[p := left.(ppo := r)];
      pages := pages[q := right.(ppo := r)];
      pages := pages[r := Node(0, p, [Entry(key, q)])];
      rpo := r;
      tree := SplitTree(RootTree(tree, p, r), p, key, q);
      NewRootWritten(g, pages0, pages1, pages, p, tree0, sp, q, r, fpo, free);
    }

    // start_new_tree: the first record's leaf is the root.
    method StartNewTree(key: int, value: Value)
      requires Valid() && rpo == 0
      modifies this
      ensures Valid() && rpo != 0 && Contents() == {Record(key, value)}
    {
      hide WF, FreeOk, Stored;
      var q := AllocPage({});
      assert {} + {q} == {q};
      NewTree(pages, q, Record(key, value), fpo, free);
      pages := pages[q := Leaf(0, 0, [Record(key, value)])];
      rpo := q;
      tree := map[q := Info(0, Inf, Inf)];
    }

    // insert_into_leaf: the leaf has room.
    method InsertIntoLeaf(p: nat, leaf: PageBuf, key: int, value: Value)
      requires Valid() && rpo != 0 && p in tree && p < |pages| && pages[p].Leaf? && Within(tree[p], key)
      requires leaf.Valid() && leaf.isLeaf && leaf.Snapshot() == pages[p] && leaf.numKeys < LEAF_MAX
      requires forall v :: Record(key, v) !in Contents()
      modifies this, leaf, leaf.record
      ensures Valid() && rpo == old(rpo) && Contents() == old(Contents()) + {Record(key, value)}
      ensures tree == old(tree) && |pages| == |old(pages)| && forall x :: 0 <= x < |pages| && x != p ==>
        pages[x] == old(pages)[x]
    {
      hide WF, FreeOk, Stored, FitsAt, SortedRecs;
      var at := leaf.LeafPoint(key);
      ghost var n, r := pages[p], Record(key, value);
      NewInLeaf(pages, rpo, tree, {}, p, key);
      assert forall i :: 0 <= i < |n.recs| ==> n.recs[i] == leaf.record[i];
      PointFits(n.recs, at, r);
      LeafRoomy(pages, rpo, tree, p, at, r, fpo, free);
      assert leaf.record[..at] == n.recs[..at] && leaf.record[at..leaf.numKeys] == n.recs[at..];
      leaf.InsertRecord(at, Record(key, value));
      pages := pages[p := leaf.Snapshot()];
    }

    // insert_into_leaf_after_splitting: the leaf is full; deal its records and the new one to two
    // leaves, chain them, and tell the parent.
    method InsertIntoLeafAfterSplitting(p: nat, leaf: PageBuf, key: int, value: Value)
      requires Valid() && rpo != 0 && p in tree && p < |pages| && pages[p].Leaf? && Within(tree[p], key)
      requires leaf.Valid() && leaf.isLeaf && leaf.Snapshot() == pages[p] && leaf.numKeys == LEAF_MAX
      requires forall v :: Record(key, v) !in Contents()
      modifies this, leaf, leaf.record
      ensures Valid() && rpo != 0 && Contents() == old(Contents()) + {Record(key, value)}
      ensures forall P :: RoomOver(old(pages), old(tree), key, P) ==>
        rpo == old(rpo) && Grew(old(pages), old(tree), pages, tree, P)
    {
      hide WF, FreeOk, Stored, SortedRecs, Splitting, InsertRec, Within, Told, Grew, RoomOver;
      ghost var n, pages0 := pages[p], pages;
      NewInLeaf(pages, rpo, tree, {}, p, key);
      var q := AllocPage({});
      assert {} + {q} == {q};
      var newLeaf := new PageBuf();
      newLeaf.isLeaf := true;
      ghost var at;
      var left, right, newKey;
      left, right, newKey, at := leaf.SplitLeaf(key, value, q, newLeaf);
      LeafSplitting(pages0, pages, rpo, tree, p, at, Record(key, value), q, fpo, free);
      ghost var g := pages[p := n.(recs := InsertRec(n.recs, at, Record(key, value)))];
      pages := pages[p := left];
      pages := pages[q := right];
      ghost var pages1, root0, tree0 := pages, rpo, tree;
      InsertIntoParent(p, left, newKey, q, right, g, 16);
      forall P | RoomOver(pages0, tree0, key, P) ensures rpo == root0 && Grew(pages0, tree0, pages, tree, P) {
        RoomIs(pages0, root0, tree0, p, key, P);
        ToldOnly(pages0, pages1, tree0, pages, tree, p, P, newKey, q);
      }
    }

    // insert: -1, and nothing changes, when the value is too long or the key is there; else one more record.
    method Insert(key: int, value: Value) returns (r: int)
      requires Valid()
      modifies this
      ensures Valid() && (r == 0 || r == -1)
      ensures r == -1 <==> |value| > 120 || key in old(Map())
      ensures r == -1 ==> pages == old(pages) && fpo == old(fpo) && rpo == old(rpo)
      ensures r == 0 ==> forall P :: RoomOver(old(pages), old(tree), key, P) ==>
        rpo == old(rpo) && Grew(old(pages), old(tree), pages, tree, P)
      ensures Map() == if r == 0 then old(Map())[key := value] else old(Map())
    {
      hide WF, FreeOk, Stored, Grew, RoomOver;
      if |value| > 120 {
        return -1;
      }
      var found := Find(key);
      if found != None {
        return -1;
      }
      InHand(pages, fpo, free, tree, {});
      ghost var before, map0 := Contents(), Map();
      AddIsUpdate(before, Record(key, value));
      if rpo == 0 {
        NothingStored(pages, tree);
        StartNewTree(key, value);
        InHand(pages, fpo, free, tree, {});
        assert Contents() == before + {Record(key, value)};
        NoneOver(old(pages), old(tree), key);
        return 0;
      }
      var p := FindLeaf(key);
      LeafFits(pages, rpo, tree, {}, p);
      var leaf := new PageBuf.Read(pages[p]);
      ghost var pages0, tree0 := pages, tree;
      if leaf.numKeys < LEAF_ORDER - 1 {
        InsertIntoLeaf(p, leaf, key, value);
        forall P | RoomOver(pages0, tree0, key, P) ensures Grew(pages0, tree0, pages, tree, P) {
          RoomIs(pages0, rpo, tree0, p, key, P);
          LeafOnly(pages0, tree0, pages, p, P);
        }
      } else {
        InsertIntoLeafAfterSplitting(p, leaf, key, value);
      }
      return 0;
    }

    // adjust_root: an empty internal root gives way to its only child, an empty leaf root to nothing.
    method AdjustRoot(p: nat, root: PageBuf)
      requires rpo != 0 && p == rpo && WF(pages, rpo, tree, {rpo}) && FreeOk(pages, fpo, free, tree, {}) &&
        rpo < |pages|
      requires root.Valid() && root.Snapshot() == pages[rpo]
      modifies this
      ensures Valid() && Contents() == old(Stored(pages, tree))
      ensures old(root.numKeys) > 0 ==> rpo == old(rpo) && pages == old(pages) && tree == old(tree)
    {
      hide WF, FreeOk, Stored;
      if root.numKeys > 0 {
        Exempt(pages, rpo, tree, {rpo}, {});
        return;
      }
      ghost var pages0, tree0, fpo0, free0 := pages, tree, fpo, free;
      if !root.isLeaf {
        RootChild(pages, p, tree, fpo, free);
        var newRoot := pages[root.ompo].(ppo := 0);
        rpo := root.ompo;
        tree := tree - {p};
        FreePage(p, {p});
        FreeFrame(pages, pages[root.ompo := newRoot], fpo, free, tree, {p} - {p}, tree, {});
        pages := pages[root.ompo := newRoot];
        RootDropped(pages0, pages, p, tree0, fpo0, free0, fpo, free);
      } else {
        EmptyTree(pages, p, tree, fpo, free);
        rpo := 0;
        tree := map[];
        FreePage(p, {p});
        assert {p} - {p} == {};
        NothingStored(pages, tree);
      }
    }

    // The loop of coalesce_nodes that tells the children taken over who their parent is now.
    method ReparentFrom(m: Page, from: nat, Q: nat)
      requires m.Node? && forall c: nat :: ChildFrom(m, from, c) ==> c < |pages|
      modifies this`pages
      ensures |pages| == |old(pages)|
      ensures forall r :: 0 <= r < |pages| ==>
        pages[r] == if ChildFrom(m, from, r) then old(pages[r]).(ppo := Q) else old(pages[r])
    {
      ghost var pages0 := pages;
      var i := from;
      while i < |m.ents|
        invariant from <= i && (i <= |m.ents| || i == from) && |pages| == |pages0|
        invariant forall r :: 0 <= r < |pages| ==>
          pages[r] == if KidBetween(m, from, i, r) then pages0[r].(ppo := Q) else pages0[r]
      {
        var c := m.ents[i].po;
        assert Kid(m, i + 1) == c && ChildFrom(m, from, c);
        pages := pages[c := pages[c].(ppo := Q)];
        i := i + 1;
        assert forall r :: KidBetween(m, from, i, r) <==> KidBetween(m, from, i - 1, r) || r == c;
      }
      assert forall r :: KidBetween(m, from, i, r) <==> ChildFrom(m, from, r);
    }

    // The page work of coalesce_nodes: the right page's contents appended to the left page, the right
    // page freed, the children taken over told, the left page written.
    method WriteMerge(left: nat, l: PageBuf, right: nat, r: PageBuf, key: int)
      requires left != right && left < |pages| && right < |pages| && left in tree && right !in tree
      requires FreeOk(pages, fpo, free, tree, {right})
      requires l.Valid() && r.Valid() && l != r && l.entry != r.entry && l.record != r.record
      requires l.Snapshot() == pages[left] && r.Snapshot() == pages[right] && l.isLeaf == r.isLeaf
      requires if l.isLeaf then l.numKeys + r.numKeys <= LEAF_MAX else l.numKeys + 1 + r.numKeys <= INTERNAL_MAX
      requires forall c: nat :: HasKid(pages[right], c) ==> c in tree && c < |pages| && c != left && c != right
      modifies this`fpo, this`pages, this`free, l, l.entry, l.record, r
      ensures FreeOk(pages, fpo, free, tree, {}) && |pages| == |old(pages)|
      ensures pages[left] == MergePart(old(pages[left]), old(pages[right]), key)
      ensures forall x :: 0 <= x < |pages| && x != left && x != right ==>
        pages[x] == if HasKid(old(pages[right]), x) then old(pages[x]).(ppo := left) else old(pages[x])
    {
      hide FreeOk, HasKid;
      ghost var pages0, a, b := pages, pages[left], pages[right];
      var at := l.numKeys;
      if !l.isLeaf {
        l.AppendEntries(r, key);
        assert l.Snapshot() == MergePart(a, b, key);
        MergedFrom(a, b, key);
        FreePage(right, {right});
        ghost var pages1 := pages;
        ReparentFrom(l.Snapshot(), at, left);
        pages := pages[left := l.Snapshot()];
        FreeFrame(pages1, pages, fpo, free, tree, {right} - {right}, tree, {});
      } else {
        l.AppendRecords(r);
        assert l.Snapshot() == MergePart(a, b, key);
        NoKids(b);
        FreePage(right, {right});
        ghost var pages1 := pages;
        pages := pages[left := l.Snapshot()];
        FreeFrame(pages1, pages, fpo, free, tree, {right} - {right}, tree, {});
      }
    }

    // The merge proper: the right page's entries go to the left page, whose entry in the parent is now due
    // to be dropped.
    method MergePair(p: nat, left: nat, l: PageBuf, right: nat, r: PageBuf, key: int, ghost P: nat, ghost j: nat)
      requires Starved(pages, rpo, tree, p, fpo, free) && P < |pages| && pages[P].Node? && j < |pages[P].ents|
      requires Pair(pages, tree, p, P, j, left, right) && PairOk(pages, rpo, tree, p, P, left, right) &&
        key == pages[P].ents[j].key
      requires l.Valid() && r.Valid() && l != r && l.entry != r.entry && l.record != r.record
      requires l.Snapshot() == pages[left] && r.Snapshot() == pages[right]
      requires l.isLeaf || l.numKeys + 1 + r.numKeys <= INTERNAL_MAX
      modifies this, l, l.entry, l.record, r
      ensures rpo == old(rpo) && tree == MergeTree(old(tree), left, right) && P < |pages| && pages[P] == old(pages)[P]
      ensures P in tree && P in old(tree) && tree[P] == old(tree)[P] && rpo in tree && rpo in old(tree) &&
        tree[rpo] == old(tree)[rpo]
      ensures AllBelow(old(tree), {p}, tree[P].level)
      ensures |pages| == |old(pages)| && (old(pages)[left].Leaf? ==>
        forall x :: 0 <= x < |pages| && x != left && x != right ==> pages[x] == old(pages)[x])
      ensures
        var V := pages[P := RemoveEnt(old(pages)[P], j)];
        && Thinning(V, pages, rpo, tree, P, j, fpo, free) && WF(V, rpo, tree, {P}) &&
           Stored(V, tree) == Stored(old(pages), old(tree))
        && (ThinFits(V, rpo, tree, P) <==> MergeFits(old(pages), rpo, old(tree), {p}, P))
    {
      hide WF, FreeOk, Stored, Pair, MergeFits, ThinFits, HasKid, Thinning, SortedPage, RemoveEnt;
      hide MergePart, MergeTree;
      ghost var g, tree0 := pages, tree;
      RightsKids(g, rpo, tree, p, P, j, left, right);
      RightInHand(pages, fpo, free, tree0, left, right);
      tree := MergeTree(tree, left, right);
      WriteMerge(left, l, right, r, key);
      if g[right].Leaf? { NoKids(g[right]); }
      AfterMerge(g, pages, rpo, tree0, p, P, j, left, right, fpo, free);
    }

    // coalesce_nodes: an empty page is merged with its neighbour and the parent loses the key between
    // them. overflow: an internal neighbour is full, and the source writes past its array.
    method CoalesceNodes(p: nat, n: PageBuf, neighbor: nat, ni: int, key: int, ghost j: nat) returns (overflow: bool)
      requires Starved(pages, rpo, tree, p, fpo, free) && n.Valid() && n.Snapshot() == pages[p] && ni >= -2
      requires j == (if ni == -2 then 0 else ni + 1)
      requires var left, right := if ni == -2 then p else neighbor, if ni == -2 then neighbor else p;
        Pair(pages, tree, p, pages[p].ppo, j, left, right) && key == pages[pages[p].ppo].ents[j].key
      modifies this
      ensures overflow <==> !ThinFits(old(pages), old(rpo), old(tree), p)
      ensures !overflow ==> Valid() && Contents() == old(Stored(pages, tree))
      ensures
        var P := old(pages)[p].ppo;
        old(pages)[p].Leaf? && P < |old(pages)| && old(pages)[P].Node? && |old(pages)[P].ents| >= 2 ==>
          !overflow && rpo == old(rpo) && Shrank(old(pages), old(tree), pages, tree, P)
      decreases tree[rpo].level - tree[p].level, 0
    {
      hide WF, FreeOk, Stored, Pair, MergeFits, ThinFits, Room, HasKid, Thinning, RemoveEnt;
      hide MergeTree;
      ghost var g, rpo0 := pages, rpo;
      var left, right := if ni == -2 then p else neighbor, if ni == -2 then neighbor else p;
      var P := n.ppo;
      PairIs(g, tree, p, P, j, left, right);
      PairPre(g, rpo, tree, p, P, j, left, right);
      PairRoom(g, rpo, tree, p, P, j, left, right);
      StarvedFits(g, rpo, tree, p);
      var parent := new PageBuf.Read(pages[P]);
      var l := new PageBuf.Read(pages[left]);
      var r := new PageBuf.Read(pages[right]);
      if !l.isLeaf && l.numKeys + 1 + r.numKeys > INTERNAL_MAX {
        return true;
      }
      ghost var tree0 := tree;
      MergePair(p, left, l, right, r, key, P, j);
      ghost var mid := pages;
      overflow := DeleteEntry(P, parent, key, pages[P := RemoveEnt(g[P], j)], j);
      if g[p].Leaf? && |g[P].ents| >= 2 {
        PairLevels(g, rpo0, tree0, p, P, left, right);
        MergedOnly(g, tree0, mid, pages, left, right, P);
      }
    }

    // delete_entry: take the key's entry out of the page; merge the page away if that empties it.
    method DeleteEntry(p: nat, n: PageBuf, key: int, ghost g: Pages, ghost at: nat) returns (overflow: bool)
      requires Thinning(g, pages, rpo, tree, p, at, fpo, free) && n.Valid() && n.Snapshot() == pages[p] &&
        key == KeyAt(pages[p], at)
      modifies this, n, n.entry, n.record
      ensures overflow <==> !ThinFits(g, old(rpo), old(tree), p)
      ensures !overflow ==> Valid() && Contents() == Stored(g, old(tree))
      ensures p < |old(pages)| && Size(old(pages)[p]) >= 2 ==>
        !overflow && rpo == old(rpo) && Lessened(old(pages), old(tree), pages, tree, p)
      ensures
        p < |old(pages)| && old(pages)[p].Leaf? && Size(old(pages)[p]) == 1 && p != old(rpo) ==>
          var P := old(pages)[p].ppo;
          P < |old(pages)| && old(pages)[P].Node? && |old(pages)[P].ents| >= 2 ==>
            !overflow && rpo == old(rpo) && Shrank(old(pages), old(tree), pages, tree, P)
      decreases tree[rpo].level - tree[p].level, 1
    {
      hide WF, FreeOk, Stored, MergeFits, Room, HasKid, Thinning, PageBounds, Thinner, KeyAt, Shrank;
      IsThinning(g, pages, rpo, tree, p, at, fpo, free);
      ghost var pages0, rpo0 := pages, rpo;
      n.Remove(key, at);
      pages := pages[p := n.Snapshot()];
      if p == rpo {
        AdjustRoot(p, n);
        return false;
      }
      if n.numKeys >= 1 {
        Exempt(pages, rpo, tree, {p}, {});
        return false;
      }
      MergeReady(pages, rpo, tree, {p}, p);
      LeafFits(pages, rpo, tree, {p}, n.ppo);
      var parent := new PageBuf.Read(pages[n.ppo]);
      var i := parent.NeighborIndex(p);
      var k := if i == -2 then 0 else i + 1;
      var kPrime := parent.entry[k].key;
      var neighbor := if i == -2 then parent.entry[0].po else if i == -1 then parent.ompo else parent.entry[i].po;
      assert pages[n.ppo].ents == parent.entry[..parent.numKeys] && pages[n.ppo].first == parent.ompo;
      ghost var tree0 := tree;
      overflow := CoalesceNodes(p, n, neighbor, i, kPrime, k);
      ghost var P := g[p].ppo;
      if g[p].Leaf? && P < |g| && g[P].Node? && |g[P].ents| >= 2 {
        LeafLevel(g, rpo0, tree0, {p}, p);
        ShrankToo(pages0, g, tree0, pages, tree, p, P);
      }
    }

    // The removals that stay within the pages' arrays: with no redistribution in coalesce_nodes, the
    // chain of merges a removal sets off must not meet a full internal neighbour.
    ghost predicate Fits(key: int)
      requires Valid()
      reads this
    {
      rpo != 0 ==> forall p :: p in tree && pages[p].Leaf? && Within(tree[p], key) ==>
        MergeFits(pages, rpo, tree, {}, p)
    }

    // delete: -1, and nothing changes, when the key is not there; else the key's record is gone.
    method Delete(key: int) returns (r: int, overflow: bool)
      requires Valid()
      modifies this
      ensures r == if key in old(Map()) then 0 else -1
      ensures r == -1 ==> pages == old(pages) && fpo == old(fpo) && rpo == old(rpo)
      ensures overflow <==> key in old(Map()) && !old(Fits(key))
      ensures !overflow ==> Valid() && Map() == old(Map()) - {key}
      ensures r == 0 ==> forall P :: SpareOver(old(pages), old(tree), key, P) ==>
        !overflow && rpo == old(rpo) && Shrank(old(pages), old(tree), pages, tree, P)
      ensures r == 0 ==> forall p :: SpareLeaf(old(pages), old(tree), key, p) ==>
        !overflow && rpo == old(rpo) && Lessened(old(pages), old(tree), pages, tree, p)
    {
      hide WF, FreeOk, Stored, MergeFits, ThinFits, Thinning, Shrank, Lessened, SpareOver;
      InHand(pages, fpo, free, tree, {});
      ghost var before, map0 := Contents(), Map();
      var value := Find(key);
      if rpo == 0 { NothingStored(pages, tree); }
      var p := FindLeaf(key);
      if value != None && p != 0 {
        LeafFits(pages, rpo, tree, {}, p);
        var n := new PageBuf.Read(pages[p]);
        ghost var x := Record(key, value.value);
        ghost var at := StoredWhere(pages, rpo, tree, {}, p, x);
        ghost var g := pages[p := Thinner(pages[p], at)];
        LeafThinned(pages, rpo, tree, p, at, fpo, free);
        OneLeaf(pages, rpo, tree, p, key);
        DropIsRemoval(before, x);
        ghost var pages0, tree0, rpo0 := pages, tree, rpo;
        overflow := DeleteEntry(p, n, key, g, at);
        forall P | SpareOver(pages0, tree0, key, P)
          ensures !overflow && rpo == rpo0 && Shrank(pages0, tree0, pages, tree, P)
        {
          SpareIs(pages0, rpo0, tree0, p, key, P);
          if Size(pages0[p]) >= 2 {
            LessInLeaf(pages0, tree0, pages, tree, p, P);
          }
        }
        return 0, overflow;
      }
      return -1, false;
    }
  }
}
