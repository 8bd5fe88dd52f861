// The chain of leaves: from the leftmost leaf, following ompo, every stored record once, in key order.
module BptChain {
  import opened BptTree
  import opened BptStore

  // Leaves that begin to the right of where p begins.
  function RightOf(tree: Tree, p: nat): set<nat>
    requires p in tree
  {
    set q | q in tree && tree[q].level == 0 && tree[q].lo.Key? && (tree[p].lo.Key? ==> tree[p].lo.k < tree[q].lo.k)
  }

  lemma {:induction false} NextLeaf(pages: Pages, root: nat, tree: Tree, p: nat)
    requires WF(pages, root, tree, {}) && p in tree && p < |pages| && pages[p].Leaf?
    ensures 0 !in tree && pages[p].next == 0 <==> tree[p].hi.Inf?
    ensures pages[p].next != 0 ==>
      var q := pages[p].next;
      q in tree && q < |pages| && pages[q].Leaf? && tree[q].level == 0 && tree[p].hi == tree[q].lo &&
        RightOf(tree, q) < RightOf(tree, p)
  {
    KindOk(pages, root, tree, {}, p);
    Inhabited(pages, root, tree, {}, p);
    hide WF;
    if pages[p].next != 0 {
      var q := pages[p].next;
      KindOk(pages, root, tree, {}, q);
      assert q in RightOf(tree, p) && q !in RightOf(tree, q);
    }
  }

  // All records met from leaf p on.
  ghost function Scan(pages: Pages, root: nat, tree: Tree, p: nat): (s: seq<Record>)
    requires WF(pages, root, tree, {}) && p in tree && p < |pages| && pages[p].Leaf?
    decreases RightOf(tree, p)
  {
    NextLeaf(pages, root, tree, p);
    if pages[p].next == 0 then pages[p].recs else pages[p].recs + Scan(pages, root, tree, pages[p].next)
  }

  lemma {:induction false} SortedJoin(a: seq<Record>, b: seq<Record>, k: int)
    requires SortedRecs(a) && SortedRecs(b)
    requires forall i :: 0 <= i < |a| ==> a[i].key < k
    requires forall i :: 0 <= i < |b| ==> k <= b[i].key
    ensures SortedRecs(a + b)
  {
  }

  lemma {:induction false} ScanSorted(pages: Pages, root: nat, tree: Tree, p: nat)
    requires WF(pages, root, tree, {}) && p in tree && p < |pages| && pages[p].Leaf?
    ensures SortedRecs(Scan(pages, root, tree, p))
    ensures forall i :: 0 <= i < |Scan(pages, root, tree, p)| ==> Above(tree[p].lo, Scan(pages, root, tree, p)[i].key)
    decreases RightOf(tree, p)
  {
    hide WF, SortedRecs;
    NextLeaf(pages, root, tree, p);
    KindOk(pages, root, tree, {}, p);
    if pages[p].next != 0 {
      ScanSorted(pages, root, tree, pages[p].next);
      Inhabited(pages, root, tree, {}, p);
      SortedJoin(pages[p].recs, Scan(pages, root, tree, pages[p].next), tree[p].hi.k);
    }
  }

  lemma {:induction false} ScanHas(pages: Pages, root: nat, tree: Tree, p: nat, x: Record)
    requires WF(pages, root, tree, {}) && p in tree && p < |pages| && pages[p].Leaf?
    requires forall r :: r in tree ==> r < |pages|
    ensures x in Scan(pages, root, tree, p) <==> x in Stored(pages, tree) && Above(tree[p].lo, x.key)
    decreases RightOf(tree, p)
  {
    hide WF, Stored, SortedRecs;
    NextLeaf(pages, root, tree, p);
    KindOk(pages, root, tree, {}, p);
    LeafFits(pages, root, tree, {}, p);
    Inhabited(pages, root, tree, {}, p);
    if x in Stored(pages, tree) && Within(tree[p], x.key) {
      var i := StoredWhere(pages, root, tree, {}, p, x);
    }
    if pages[p].next != 0 {
      ScanHas(pages, root, tree, pages[p].next, x);
    }
  }

  // Down the first pointers to the leaf with no lower end.
  lemma {:induction false} Leftmost(pages: Pages, root: nat, tree: Tree, p: nat) returns (l: nat)
    requires WF(pages, root, tree, {}) && p in tree && tree[p].lo == Inf
    ensures l in tree && l < |pages| && pages[l].Leaf? && tree[l].lo == Inf
    decreases tree[p].level
  {
    KindOk(pages, root, tree, {}, p);
    if pages[p].Leaf? {
      l := p;
    } else {
      KidIs(pages, root, tree, {}, p, 0);
      l := Leftmost(pages, root, tree, Kid(pages[p], 0));
    }
  }

  // A walk of the chain from the leftmost leaf lists exactly what is stored, in strictly ascending key order.
  lemma {:induction false} LeafChain(pages: Pages, root: nat, tree: Tree) returns (l: nat)
    requires WF(pages, root, tree, {}) && forall r :: r in tree ==> r < |pages|
    ensures l in tree && l < |pages| && pages[l].Leaf? && tree[l].lo == Inf
    ensures SortedRecs(Scan(pages, root, tree, l)) && RecSet(Scan(pages, root, tree, l)) == Stored(pages, tree)
  {
    l := Leftmost(pages, root, tree, root);
    hide WF, Stored, Scan;
    ScanSorted(pages, root, tree, l);
    forall x ensures x in RecSet(Scan(pages, root, tree, l)) <==> x in Stored(pages, tree) {
      ScanHas(pages, root, tree, l, x);
    }
  }
}
