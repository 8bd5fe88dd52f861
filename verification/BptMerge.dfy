// Merging two neighbouring pages of the B+tree, and growing or shrinking it at the root.
module BptMerge {
  import opened BptTree

  // Two neighbours made one; for internal pages the separating key comes down between them.
  function MergePart(n: Page, m: Page, key: int): (r: Page)
    requires n.Leaf? == m.Leaf?
  {
    if n.Leaf? then Leaf(n.ppo, m.next, n.recs + m.recs)
    else Node(n.ppo, n.first, n.ents + [Entry(key, m.first)] + m.ents)
  }

  function MergeTree(tree: Tree, p: nat, q: nat): Tree
    requires p in tree && q in tree
  {
    (tree - {q})[p := tree[p].(hi := tree[q].hi)]
  }

  // p and q are children j and j + 1 of P.
  ghost predicate MergePre(pages: Pages, root: nat, tree: Tree, X: set<nat>, p: nat, P: nat, j: nat, q: nat) {
    && WF(pages, root, tree, X) && P in tree && pages[P].Node? && j < |pages[P].ents|
    && Kid(pages[P], j) == p && Kid(pages[P], j + 1) == q && p in tree && q in tree
    && pages[p].Leaf? == pages[q].Leaf?
  }

  // The store after q has been merged into p, before the parent forgets q. What becomes of page q is not said.
  ghost predicate IsMerge(pages: Pages, pages': Pages, p: nat, key: int, q: nat) {
    && |pages'| == |pages| && p < |pages| && q < |pages| && pages[p].Leaf? == pages[q].Leaf?
    && pages'[p] == MergePart(pages[p], pages[q], key)
    && forall r :: 0 <= r < |pages| && r != p && r != q ==>
         pages'[r] == if HasKid(pages[q], r) then pages[r].(ppo := p) else pages[r]
  }

  // V is the store after the merge and the removal of the entry from the parent.
  ghost predicate MergePost(pages: Pages, V: Pages, p: nat, P: nat, j: nat, q: nat) {
    && p < |pages| && P < |pages| && P != p && P != q && p != q && pages[P].Node? && j < |pages[P].ents|
    && |V| == |pages| && IsMerge(pages, V[P := pages[P]], p, pages[P].ents[j].key, q)
    && V[P] == RemoveEnt(pages[P], j)
  }

  lemma {:induction false} RemoveKids(n: Page, j: nat, i: nat)
    requires n.Node? && j < |n.ents| && i < |n.ents|
    ensures Kid(RemoveEnt(n, j), i) == if i <= j then Kid(n, i) else Kid(n, i + 1)
  {
  }

  lemma {:induction false} RemoveKeys(n: Page, j: nat, i: nat)
    requires n.Node? && j < |n.ents| && i < |n.ents|
    ensures RemoveEnt(n, j).Node? && |RemoveEnt(n, j).ents| == |n.ents| - 1
    ensures i < |n.ents| - 1 ==> RemoveEnt(n, j).ents[i].key == n.ents[if i < j then i else i + 1].key
    ensures 0 < i ==> RemoveEnt(n, j).ents[i - 1].key == n.ents[if i - 1 < j then i - 1 else i].key
  {
  }

  lemma {:induction false} RemoveHasKid(n: Page, j: nat, c: nat)
    requires n.Node? && j < |n.ents| && HasKid(n, c) && c != Kid(n, j + 1)
    ensures HasKid(RemoveEnt(n, j), c)
  {
    var i :| 0 <= i <= |n.ents| && Kid(n, i) == c;
    RemoveKids(n, j, if i <= j then i else i - 1);
  }

  lemma {:induction false} MergeKids(n: Page, m: Page, key: int)
    requires n.Node? && m.Node?
    ensures forall i :: 0 <= i <= |n.ents| ==> Kid(MergePart(n, m, key), i) == Kid(n, i)
    ensures forall i :: 0 <= i <= |m.ents| ==> Kid(MergePart(n, m, key), |n.ents| + 1 + i) == Kid(m, i)
  {
  }

  lemma {:induction false} MergeHasKid(n: Page, m: Page, key: int, c: nat)
    requires n.Node? && m.Node? && (HasKid(n, c) || HasKid(m, c))
    ensures HasKid(MergePart(n, m, key), c)
  {
    MergeKids(n, m, key);
    if HasKid(n, c) {
      var i :| 0 <= i <= |n.ents| && Kid(n, i) == c;
      assert Kid(MergePart(n, m, key), i) == c;
    } else {
      var i :| 0 <= i <= |m.ents| && Kid(m, i) == c;
      assert Kid(MergePart(n, m, key), |n.ents| + 1 + i) == c;
    }
  }

  // Where the two halves sit.
  lemma {:induction false} MergeShape(pages: Pages, root: nat, tree: Tree, X: set<nat>, p: nat, P: nat, j: nat, q: nat)
    requires MergePre(pages, root, tree, X, p, P, j, q)
    ensures tree[P].level > 0 && NodeOk(pages, tree, P, pages[P], tree[P])
    ensures tree[p] == KidInfo(pages[P], tree[P], j) && tree[q] == KidInfo(pages[P], tree[P], j + 1)
    ensures tree[p].hi == tree[q].lo == Key(pages[P].ents[j].key)
    ensures p < |pages| && q < |pages| && P < |pages|
    ensures pages[p].ppo == P && pages[q].ppo == P && p != q && p != P && q != P && p != root && q != root
    ensures PageOk(pages, root, tree, X, p) && PageOk(pages, root, tree, X, q)
  {
    assert PageOk(pages, root, tree, X, P);
    assert KidOk(pages, tree, P, pages[P], tree[P], j) && KidOk(pages, tree, P, pages[P], tree[P], j + 1);
    KidsDistinct(pages, tree, P, pages[P], tree[P], j, j + 1);
  }

  lemma {:induction false} MergedPage(pages: Pages, V: Pages, p: nat, P: nat, j: nat, q: nat)
    requires MergePost(pages, V, p, P, j, q)
    ensures V[p] == MergePart(pages[p], pages[q], pages[P].ents[j].key) && V[p].ppo == pages[p].ppo
    ensures V[p].Leaf? == pages[p].Leaf?
    ensures V[P].Node? && V[P].ppo == pages[P].ppo && |V[P].ents| == |pages[P].ents| - 1
  {
    assert V[p] == V[P := pages[P]][p];
  }

  // Which pages a merge reparents.
  lemma {:induction false} MergeFrame(pages: Pages, root: nat, tree: Tree, X: set<nat>, V: Pages, p: nat, P: nat,
      j: nat, q: nat, r: nat)
    requires MergePre(pages, root, tree, X, p, P, j, q) && MergePost(pages, V, p, P, j, q)
    requires r in tree && r != p && r != q && r != P
    ensures V[r] == pages[r].(ppo := if pages[r].ppo == q then p else pages[r].ppo)
    ensures pages[r].ppo == q ==> HasKid(pages[q], r) && r != root
  {
    MergeShape(pages, root, tree, X, p, P, j, q);
    assert V[r] == V[P := pages[P]][r];
    if HasKid(pages[q], r) {
      var i :| 0 <= i <= |pages[q].ents| && Kid(pages[q], i) == r;
      assert KidOk(pages, tree, q, pages[q], tree[q], i);
    }
    if r != root {
      var G, i := AsKid(pages, root, tree, X, r);
    }
  }

  lemma {:induction false} MergeParentOf(pages: Pages, root: nat, tree: Tree, X: set<nat>, V: Pages, p: nat, P: nat,
      j: nat, q: nat, r: nat)
    requires MergePre(pages, root, tree, X, p, P, j, q) && MergePost(pages, V, p, P, j, q)
    requires r in tree && r != q && r != root
    ensures ParentOk(V, MergeTree(tree, p, q), root, r, V[r])
  {
    hide WF, PageOk, NodeOk, LeafOk, IsMerge, HasKid, RemoveEnt, SizeOk, MergePart;
    MergeShape(pages, root, tree, X, p, P, j, q);
    var G, i := AsKid(pages, root, tree, X, r);
    KindOk(pages, root, tree, X, r);
    MergedPage(pages, V, p, P, j, q);
    if r != p && r != P {
      MergeFrame(pages, root, tree, X, V, p, P, j, q, r);
    }
    if G == p || G == q {
      MergeHasKid(pages[p], pages[q], pages[P].ents[j].key, r);
    } else if G == P {
      RemoveHasKid(pages[P], j, r);
    } else {
      MergeFrame(pages, root, tree, X, V, p, P, j, q, G);
      IsKid(V[G], i);
      assert Kid(V[G], i) == r;
    }
  }

  // The merged page.
  lemma {:induction false} MergedRecs(a: Page, b: Page, inf: Info, inf': Info, tree: Tree, key: int)
    requires a.Leaf? && b.Leaf? && LeafOk(a, inf, tree) && LeafOk(b, inf', tree) && inf.hi == inf'.lo == Key(key)
    requires inf.lo.Key? ==> inf.lo.k < key
    requires inf'.hi.Key? ==> key < inf'.hi.k
    ensures SortedRecs(a.recs + b.recs)
    ensures forall i :: 0 <= i < |a.recs + b.recs| ==> Within(inf.(hi := inf'.hi), (a.recs + b.recs)[i].key)
  {
    assert forall i :: 0 <= i < |a.recs| ==> a.recs[i].key < key;
    assert forall i :: 0 <= i < |b.recs| ==> key <= b.recs[i].key;
  }

  lemma {:induction false} MergedLeaf(pages: Pages, root: nat, tree: Tree, X: set<nat>, V: Pages, p: nat, P: nat,
      j: nat, q: nat)
    requires MergePre(pages, root, tree, X, p, P, j, q) && MergePost(pages, V, p, P, j, q) && pages[p].Leaf?
    ensures V[p] == MergePart(pages[p], pages[q], pages[P].ents[j].key)
    ensures LeafOk(V[p], MergeTree(tree, p, q)[p], MergeTree(tree, p, q))
  {
    hide WF, PageOk, ParentOk, NodeOk, IsMerge, SortedRecs, HasKid, RemoveEnt;
    MergeShape(pages, root, tree, X, p, P, j, q);
    MergedPage(pages, V, p, P, j, q);
    KindOk(pages, root, tree, X, p);
    KindOk(pages, root, tree, X, q);
    Inhabited(pages, root, tree, X, p);
    Inhabited(pages, root, tree, X, q);
    MergedRecs(pages[p], pages[q], tree[p], tree[q], tree, pages[P].ents[j].key);
  }

  lemma {:induction false} KidsBelow(pages: Pages, tree: Tree, P: nat, j: nat, r: nat, i: nat, p: nat, q: nat)
    requires p in tree && q in tree && r in tree && P in tree && r < |pages| && pages[r].Node? && i <= |pages[r].ents|
    requires tree[p].level == tree[q].level == tree[r].level < tree[P].level && 0 < tree[r].level
    requires KidOk(pages, tree, r, pages[r], tree[r], i)
    ensures Kid(pages[r], i) in tree && Kid(pages[r], i) != p && Kid(pages[r], i) != q && Kid(pages[r], i) != P
  {
  }

  lemma {:induction false} MergedKid(pages: Pages, root: nat, tree: Tree, X: set<nat>, V: Pages, p: nat, P: nat, j: nat,
      q: nat, i: nat)
    requires MergePre(pages, root, tree, X, p, P, j, q) && MergePost(pages, V, p, P, j, q)
    requires pages[p].Node? && pages[q].Node? && i <= |pages[p].ents| + 1 + |pages[q].ents| && tree[p].level > 0
    ensures
      var T := MergeTree(tree, p, q);
      KidOk(V, T, p, MergePart(pages[p], pages[q], pages[P].ents[j].key), T[p], i)
  {
    hide WF, PageOk, NodeOk, IsMerge, HasKid, RemoveEnt;
    MergeShape(pages, root, tree, X, p, P, j, q);
    MergeKids(pages[p], pages[q], pages[P].ents[j].key);
    var k := |pages[p].ents|;
    var r, i0 := if i <= k then p else q, if i <= k then i else i - k - 1;
    KidIs(pages, root, tree, X, r, i0);
    KidNotParent(pages, tree, r, pages[r], i0);
    KidsBelow(pages, tree, P, j, r, i0, p, q);
    MergeFrame(pages, root, tree, X, V, p, P, j, q, Kid(pages[r], i0));
  }

  lemma {:induction false} MergedNode(pages: Pages, root: nat, tree: Tree, X: set<nat>, V: Pages, p: nat, P: nat,
      j: nat, q: nat)
    requires MergePre(pages, root, tree, X, p, P, j, q) && MergePost(pages, V, p, P, j, q) && pages[p].Node?
    ensures V[p] == MergePart(pages[p], pages[q], pages[P].ents[j].key)
    ensures NodeOk(V, MergeTree(tree, p, q), p, V[p], MergeTree(tree, p, q)[p])
  {
    hide WF, PageOk, KidOk, IsMerge, ParentOk, HasKid, RemoveEnt;
    var T, key := MergeTree(tree, p, q), pages[P].ents[j].key;
    MergeShape(pages, root, tree, X, p, P, j, q);
    var n := MergePart(pages[p], pages[q], key);
    MergedPage(pages, V, p, P, j, q);
    Inhabited(pages, root, tree, X, p);
    Inhabited(pages, root, tree, X, q);
    KindOk(pages, root, tree, X, p);
    KindOk(pages, root, tree, X, q);
    forall i | 0 <= i <= |n.ents| ensures KidOk(V, T, p, n, T[p], i) {
      MergedKid(pages, root, tree, X, V, p, P, j, q, i);
    }
    MergedEnts(pages[p].ents, key, pages[q].ents, pages[q].first, tree[p], tree[q]);
  }

  lemma {:induction false} MergedEnts(a: seq<Entry>, key: int, b: seq<Entry>, po: nat, inf: Info, inf': Info)
    requires SortedEnts(a) && SortedEnts(b) && inf.hi == inf'.lo == Key(key)
    requires inf.lo.Key? ==> inf.lo.k < key
    requires inf'.hi.Key? ==> key < inf'.hi.k
    requires forall i :: 0 <= i < |a| ==> Within(inf, a[i].key) && inf.lo != Key(a[i].key)
    requires forall i :: 0 <= i < |b| ==> Within(inf', b[i].key) && inf'.lo != Key(b[i].key)
    ensures
      var all := a + [Entry(key, po)] + b;
      SortedEnts(all) && forall i :: 0 <= i < |all| ==>
        Within(inf.(hi := inf'.hi), all[i].key) && inf.lo != Key(all[i].key)
  {
    assert forall i :: 0 <= i < |a| ==> a[i].key < key;
    assert forall i :: 0 <= i < |b| ==> key < b[i].key;
  }

  // The parent with one entry less.
  lemma {:induction false} RemoveSorted(m: Page, inf: Info, j: nat)
    requires m.Node? && j < |m.ents| && SortedEnts(m.ents)
    requires forall i :: 0 <= i < |m.ents| ==> Within(inf, m.ents[i].key) && inf.lo != Key(m.ents[i].key)
    ensures SortedEnts(RemoveEnt(m, j).ents)
    ensures forall i :: 0 <= i < |m.ents| - 1 ==>
      Within(inf, RemoveEnt(m, j).ents[i].key) && inf.lo != Key(RemoveEnt(m, j).ents[i].key)
  {
  }

  lemma {:induction false} MergedParentKid(pages: Pages, root: nat, tree: Tree, X: set<nat>, V: Pages, p: nat, P: nat,
      j: nat, q: nat, i: nat)
    requires MergePre(pages, root, tree, X, p, P, j, q) && MergePost(pages, V, p, P, j, q)
    requires i < |pages[P].ents| && tree[P].level > 0
    ensures KidOk(V, MergeTree(tree, p, q), P, RemoveEnt(pages[P], j), tree[P], i)
  {
    hide WF, PageOk, NodeOk, IsMerge, HasKid, MergePart, RemoveEnt;
    var m := pages[P];
    var i0 := if i <= j then i else i + 1;
    MergeShape(pages, root, tree, X, p, P, j, q);
    MergedPage(pages, V, p, P, j, q);
    RemoveKids(m, j, i);
    RemoveKeys(m, j, i);
    KidIs(pages, root, tree, X, P, i0);
    KidsDistinct(pages, tree, P, m, tree[P], i0, j + 1);
    KidsDistinct(pages, tree, P, m, tree[P], i0, j);
    KidNotParent(pages, tree, P, m, i0);
    if i0 != j {
      MergeFrame(pages, root, tree, X, V, p, P, j, q, Kid(m, i0));
    }
  }

  lemma {:induction false} MergedParent(pages: Pages, root: nat, tree: Tree, X: set<nat>, V: Pages, p: nat, P: nat,
      j: nat, q: nat)
    requires MergePre(pages, root, tree, X, p, P, j, q) && MergePost(pages, V, p, P, j, q)
    ensures PageOk(V, root, MergeTree(tree, p, q), {P}, P)
  {
    hide WF, ParentOk, KidOk, SortedEnts, IsMerge, PageOk, HasKid;
    var m, T := pages[P], MergeTree(tree, p, q);
    MergeShape(pages, root, tree, X, p, P, j, q);
    RemoveSorted(m, tree[P], j);
    if P != root {
      MergeParentOf(pages, root, tree, X, V, p, P, j, q, P);
    }
    forall i | 0 <= i < |m.ents| ensures KidOk(V, T, P, V[P], T[P], i) {
      MergedParentKid(pages, root, tree, X, V, p, P, j, q, i);
    }
    assert NodeOk(V, T, P, V[P], T[P]);
    PageIs(V, root, T, {P}, P);
  }

  // The other leaves: none but p had q as its neighbour.
  lemma {:induction false} MergeOtherLeaf(pages: Pages, root: nat, tree: Tree, X: set<nat>, p: nat, P: nat, j: nat,
      q: nat, r: nat)
    requires MergePre(pages, root, tree, X, p, P, j, q) && r in tree && pages[r].Leaf? && r != p
    ensures pages[r].next != q
  {
    MergeShape(pages, root, tree, X, p, P, j, q);
    assert PageOk(pages, root, tree, X, r);
    if pages[r].next == q {
      Inhabited(pages, root, tree, X, p);
      Inhabited(pages, root, tree, X, r);
      assert tree[q].level == 0;
      OnePlace(pages, root, tree, X, p, r, pages[P].ents[j].key - 1);
    }
  }

  lemma {:induction false} MergeOtherKid(pages: Pages, root: nat, tree: Tree, X: set<nat>, V: Pages, p: nat, P: nat,
      j: nat, q: nat, r: nat, c: nat)
    requires MergePre(pages, root, tree, X, p, P, j, q) && MergePost(pages, V, p, P, j, q)
    requires r in tree && r != p && r != P && r != q && c in tree && pages[c].ppo == r
    ensures c != p && c != q && V[c].ppo == r
  {
    MergeShape(pages, root, tree, X, p, P, j, q);
    if c != P {
      MergeFrame(pages, root, tree, X, V, p, P, j, q, c);
    }
  }

  lemma {:induction false} MergeOtherNode(pages: Pages, root: nat, tree: Tree, X: set<nat>, V: Pages, p: nat, P: nat,
      j: nat, q: nat, r: nat)
    requires MergePre(pages, root, tree, X, p, P, j, q) && MergePost(pages, V, p, P, j, q)
    requires r in tree && r != p && r != P && r != q && pages[r].Node?
    requires V[r].Node? && V[r].first == pages[r].first && V[r].ents == pages[r].ents
    ensures NodeOk(V, MergeTree(tree, p, q), r, V[r], tree[r])
  {
    hide WF, PageOk, ParentOk, IsMerge, HasKid, NodeOk, RemoveEnt, MergePart;
    var T := MergeTree(tree, p, q);
    KindOk(pages, root, tree, X, r);
    KidIs(pages, root, tree, X, r, 0);
    forall i | 0 <= i <= |pages[r].ents| ensures KidOk(V, T, r, V[r], tree[r], i) {
      KidIs(pages, root, tree, X, r, i);
      MergeOtherKid(pages, root, tree, X, V, p, P, j, q, r, Kid(pages[r], i));
    }
    NodeCarry(pages, tree, V, T, r, pages[r], V[r], tree[r]);
  }

  lemma {:induction false} MergeOther(pages: Pages, root: nat, tree: Tree, X: set<nat>, V: Pages, p: nat, P: nat,
      j: nat, q: nat, r: nat)
    requires MergePre(pages, root, tree, X, p, P, j, q) && MergePost(pages, V, p, P, j, q)
    requires r in tree && r != p && r != P && r != q
    ensures PageOk(V, root, MergeTree(tree, p, q), X, r)
  {
    hide WF, ParentOk, IsMerge, HasKid, NodeOk, LeafOk, SizeOk, PageOk, RemoveEnt, MergePart;
    var T := MergeTree(tree, p, q);
    KindOk(pages, root, tree, X, r);
    MergeFrame(pages, root, tree, X, V, p, P, j, q, r);
    if r != root {
      MergeParentOf(pages, root, tree, X, V, p, P, j, q, r);
    }
    if pages[r].Node? {
      MergeOtherNode(pages, root, tree, X, V, p, P, j, q, r);
    } else {
      MergeOtherLeaf(pages, root, tree, X, p, P, j, q, r);
      LeafCarry(pages[r], V[r], tree[r], tree, T);
    }
    SameSize(pages[r], V[r]);
    PageIs(V, root, T, X, r);
  }

  // A merge keeps the tree; only the merged page and the parent may be out of bounds.
  lemma {:induction false} MergeKeeps(pages: Pages, root: nat, tree: Tree, X: set<nat>, V: Pages, p: nat, P: nat,
      j: nat, q: nat)
    requires MergePre(pages, root, tree, X, p, P, j, q) && MergePost(pages, V, p, P, j, q)
    ensures WF(V, root, MergeTree(tree, p, q), X + {p, P})
  {
    hide PageOk, IsMerge, NodeOk, LeafOk, HasKid, KidOk, ParentOk, SizeOk, RemoveEnt, MergePart;
    var T := MergeTree(tree, p, q);
    MergeShape(pages, root, tree, X, p, P, j, q);
    MergedPage(pages, V, p, P, j, q);
    if P != root { MergeFrame(pages, root, tree, X, V, p, P, j, q, root); }
    assert T[root] == tree[root] && V[root].ppo == 0;
    MergeParentOf(pages, root, tree, X, V, p, P, j, q, p);
    if pages[p].Leaf? {
      MergedLeaf(pages, root, tree, X, V, p, P, j, q);
    } else {
      MergedNode(pages, root, tree, X, V, p, P, j, q);
    }
    PageIs(V, root, T, {p}, p);
    MergedParent(pages, root, tree, X, V, p, P, j, q);
    forall r | r in T ensures PageOk(V, root, T, X + {p, P}, r) {
      if r == p {
        MoreExempt(V, root, T, {p}, X + {p, P}, r);
      } else if r == P {
        MoreExempt(V, root, T, {P}, X + {p, P}, r);
      } else {
        MergeOther(pages, root, tree, X, V, p, P, j, q, r);
        MoreExempt(V, root, T, X, X + {p, P}, r);
      }
    }
  }

  lemma {:induction false} MergeStores(pages: Pages, root: nat, tree: Tree, X: set<nat>, V: Pages, p: nat, P: nat,
      j: nat, q: nat)
    requires MergePre(pages, root, tree, X, p, P, j, q) && MergePost(pages, V, p, P, j, q)
    requires forall r :: r in MergeTree(tree, p, q) ==> r < |V|
    ensures Stored(V, MergeTree(tree, p, q)) == Stored(pages, tree)
  {
    hide PageOk, NodeOk, LeafOk, IsMerge, HasKid, ParentOk, RemoveEnt;
    var T := MergeTree(tree, p, q);
    MergeShape(pages, root, tree, X, p, P, j, q);
    MergedPage(pages, V, p, P, j, q);
    var k := if pages[p].Leaf? then |pages[p].recs| else 0;
    forall r | r in tree && r != p && r != q ensures V[r].Leaf? == pages[r].Leaf? &&
      (V[r].Leaf? ==> V[r].recs == pages[r].recs) {
      if r != P { MergeFrame(pages, root, tree, X, V, p, P, j, q, r); }
    }
    forall x | x in Stored(pages, tree) ensures x in Stored(V, T) {
      var r, i :| r in tree && pages[r].Leaf? && 0 <= i < |pages[r].recs| && pages[r].recs[i] == x;
      assert r != q ==> V[r].recs[i] == x;
      assert r == q ==> V[p].recs[k + i] == x;
    }
    forall x | x in Stored(V, T) ensures x in Stored(pages, tree) {
      var r, i :| r in T && V[r].Leaf? && 0 <= i < |V[r].recs| && V[r].recs[i] == x;
      assert r != p || i < k ==> pages[r].recs[i] == x;
      assert r == p && i >= k ==> pages[q].recs[i - k] == x;
    }
  }

  // Growing and shrinking at the root.

  function RootTree(tree: Tree, root: nat, r: nat): Tree
    requires root in tree
  {
    tree[r := Info(tree[root].level + 1, Inf, Inf)]
  }

  // A fresh page over the old root, holding it as its only child, is a root with too few entries.
  lemma {:induction false} AddRoot(pages: Pages, root: nat, tree: Tree, X: set<nat>, V: Pages, r: nat)
    requires WF(pages, root, tree, X) && r !in tree && 0 < r < |pages| == |V|
    requires V == pages[root := pages[root].(ppo := r)][r := Node(0, root, [])]
    ensures WF(V, r, RootTree(tree, root, r), X + {r})
    ensures Stored(V, RootTree(tree, root, r)) == Stored(pages, tree)
  {
    var T := RootTree(tree, root, r);
    assert Kid(V[r], 0) == root;
    assert KidOk(V, T, r, V[r], T[r], 0);
    forall p | p in T ensures PageOk(V, r, T, X + {r}, p) {
      if p != r {
        assert PageOk(pages, root, tree, X, p);
        AddRootPage(pages, root, tree, X, V, r, p);
      }
    }
    hide Stored, PageOk;
    AddRootStores(pages, root, tree, X, V, r);
  }

  lemma {:induction false} AddRootStores(pages: Pages, root: nat, tree: Tree, X: set<nat>, V: Pages, r: nat)
    requires WF(pages, root, tree, X) && r !in tree && 0 < r < |pages| == |V|
    requires V == pages[root := pages[root].(ppo := r)][r := Node(0, root, [])]
    ensures (forall p :: p in RootTree(tree, root, r) ==> p < |V|) && (forall p :: p in tree ==> p < |pages|)
    ensures Stored(V, RootTree(tree, root, r)) == Stored(pages, tree)
  {
    InFile(pages, root, tree, X);
    hide WF, Stored;
    StoredSame(pages, tree, V, RootTree(tree, root, r));
  }

  lemma {:induction false} AddRootPage(pages: Pages, root: nat, tree: Tree, X: set<nat>, V: Pages, r: nat, p: nat)
    requires WF(pages, root, tree, X) && r !in tree && 0 < r < |pages| == |V| && p in tree
    requires V == pages[root := pages[root].(ppo := r)][r := Node(0, root, [])]
    ensures PageOk(V, r, RootTree(tree, root, r), X + {r}, p)
  {
    var T := RootTree(tree, root, r);
    assert PageOk(pages, root, tree, X, p);
    if pages[p].Node? {
      forall i | 0 <= i <= |pages[p].ents| ensures KidOk(V, T, p, V[p], T[p], i) {
        assert KidOk(pages, tree, p, pages[p], tree[p], i);
        assert PageOk(pages, root, tree, X, Kid(pages[p], i));
      }
    } else {
      LeafCarry(pages[p], V[p], tree[p], tree, T);
    }
    if p != root {
      var P, i := AsKid(pages, root, tree, X, p);
      assert Kid(V[P], i) == p;
    } else {
      assert Kid(V[r], 0) == root;
    }
  }

  // An internal root that has lost its last entry gives way to its only child.
  lemma {:induction false} DropRoot(pages: Pages, root: nat, tree: Tree, X: set<nat>, V: Pages)
    requires WF(pages, root, tree, X) && pages[root].Node? && pages[root].ents == [] && |V| == |pages|
    requires pages[root].first < |V| && forall p :: 0 <= p < |V| && p != root ==>
      V[p] == if p == pages[root].first then pages[p].(ppo := 0) else pages[p]
    ensures WF(V, pages[root].first, tree - {root}, X)
    ensures Stored(V, tree - {root}) == Stored(pages, tree)
  {
    var c, T := pages[root].first, tree - {root};
    RootKid(pages, root, tree, X);
    forall p | p in T ensures PageOk(V, c, T, X, p) {
      DropRootPage(pages, root, tree, X, V, p);
    }
    hide PageOk, Stored;
    DropRootStores(pages, root, tree, X, V);
  }

  lemma {:induction false} DropRootStores(pages: Pages, root: nat, tree: Tree, X: set<nat>, V: Pages)
    requires WF(pages, root, tree, X) && pages[root].Node? && |V| == |pages|
    requires forall p :: 0 <= p < |V| && p != root ==>
      V[p] == if p == pages[root].first then pages[p].(ppo := 0) else pages[p]
    ensures (forall p :: p in tree - {root} ==> p < |V|) && (forall p :: p in tree ==> p < |pages|)
    ensures Stored(V, tree - {root}) == Stored(pages, tree)
  {
    InFile(pages, root, tree, X);
    hide WF, Stored;
    StoredSame(pages, tree, V, tree - {root});
  }

  lemma {:induction false} RootKid(pages: Pages, root: nat, tree: Tree, X: set<nat>)
    requires WF(pages, root, tree, X) && pages[root].Node? && pages[root].ents == []
    ensures
      var c := pages[root].first;
      && c in tree && c < |pages| && c != root && pages[c].ppo == root
      && tree[c].lo == Inf && tree[c].hi == Inf && tree[c].level == tree[root].level - 1
  {
    assert PageOk(pages, root, tree, X, root);
    assert KidOk(pages, tree, root, pages[root], tree[root], 0) && Kid(pages[root], 0) == pages[root].first;
  }

  // The same leaves hold the same records.
  lemma {:induction false} StoredSame(pages: Pages, tree: Tree, V: Pages, T: Tree)
    requires forall p :: p in tree ==> p < |pages|
    requires forall p :: p in T ==> p < |V|
    requires forall p :: p in tree && pages[p].Leaf? ==> p in T && V[p].Leaf? && V[p].recs == pages[p].recs
    requires forall p :: p in T && V[p].Leaf? ==> p in tree && pages[p].Leaf? && pages[p].recs == V[p].recs
    ensures Stored(V, T) == Stored(pages, tree)
  {
    forall x | x in Stored(pages, tree) ensures x in Stored(V, T) {
      var p, i :| p in tree && pages[p].Leaf? && 0 <= i < |pages[p].recs| && pages[p].recs[i] == x;
      assert V[p].recs[i] == x;
    }
    forall x | x in Stored(V, T) ensures x in Stored(pages, tree) {
      var p, i :| p in T && V[p].Leaf? && 0 <= i < |V[p].recs| && V[p].recs[i] == x;
      assert pages[p].recs[i] == x;
    }
  }

  lemma {:induction false} LevelUnder(pages: Pages, root: nat, tree: Tree, X: set<nat>, p: nat)
    requires WF(pages, root, tree, X) && p in tree && p != root
    ensures root in tree && tree[p].level < tree[root].level
  {
    hide NodeOk, LeafOk, SizeOk, HasKid;
    assert PageOk(pages, root, tree, X, p);
  }

  lemma {:induction false} DropRootParent(pages: Pages, root: nat, tree: Tree, X: set<nat>, V: Pages, p: nat)
    requires WF(pages, root, tree, X) && pages[root].Node? && pages[root].ents == [] && |V| == |pages|
    requires pages[root].first < |V| && forall p :: 0 <= p < |V| && p != root ==>
      V[p] == if p == pages[root].first then pages[p].(ppo := 0) else pages[p]
    requires p in tree && p != root && p != pages[root].first
    ensures ParentOk(V, tree - {root}, pages[root].first, p, V[p])
  {
    hide PageOk, NodeOk, LeafOk;
    RootKid(pages, root, tree, X);
    InFile(pages, root, tree, X);
    var P, i := AsKid(pages, root, tree, X, p);
    assert P != root && Kid(V[P], i) == p;
    LevelUnder(pages, root, tree, X, P);
  }

  lemma {:induction false} DropRootNode(pages: Pages, root: nat, tree: Tree, X: set<nat>, V: Pages, p: nat)
    requires WF(pages, root, tree, X) && pages[root].Node? && pages[root].ents == [] && |V| == |pages|
    requires pages[root].first < |V| && forall p :: 0 <= p < |V| && p != root ==>
      V[p] == if p == pages[root].first then pages[p].(ppo := 0) else pages[p]
    requires p in tree && p != root && PageOk(pages, root, tree, X, p) && pages[p].Node?
    ensures NodeOk(V, tree - {root}, p, V[p], tree[p])
  {
    hide PageOk, LeafOk, SortedEnts;
    RootKid(pages, root, tree, X);
    KindOk(pages, root, tree, X, p);
    forall i | 0 <= i <= |pages[p].ents| ensures KidOk(V, tree - {root}, p, V[p], tree[p], i) {
      assert KidOk(pages, tree, p, pages[p], tree[p], i);
    }
  }

  lemma {:induction false} NextIsLeaf(pages: Pages, tree: Tree, root: nat, n: Page, inf: Info)
    requires n.Leaf? && LeafOk(n, inf, tree) && root in tree && root < |pages| && pages[root].Node?
    requires NodeOk(pages, tree, root, pages[root], tree[root]) && 0 !in tree
    ensures n.next != root
  {
  }

  lemma {:induction false} DropRootPage(pages: Pages, root: nat, tree: Tree, X: set<nat>, V: Pages, p: nat)
    requires WF(pages, root, tree, X) && pages[root].Node? && pages[root].ents == [] && |V| == |pages|
    requires pages[root].first < |V| && forall p :: 0 <= p < |V| && p != root ==>
      V[p] == if p == pages[root].first then pages[p].(ppo := 0) else pages[p]
    requires p in tree && p != root
    ensures PageOk(V, pages[root].first, tree - {root}, X, p)
  {
    hide NodeOk, LeafOk, ParentOk, KidOk;
    assert PageOk(pages, root, tree, X, p);
    KindOk(pages, root, tree, X, root);
    if pages[p].Node? {
      DropRootNode(pages, root, tree, X, V, p);
    } else {
      NextIsLeaf(pages, tree, root, pages[p], tree[p]);
      LeafCarry(pages[p], V[p], tree[p], tree, tree - {root});
    }
    if p != pages[root].first { DropRootParent(pages, root, tree, X, V, p); }
  }
}
