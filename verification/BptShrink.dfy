// How one removal is carried to the parent: the pure steps behind delete_entry, and when a removal fits.
module BptShrink {
  import opened BptTree
  import opened BptMerge
  import opened BptStore
  import opened BptGrow

  function DropRec(recs: seq<Record>, at: nat): seq<Record>
    requires at < |recs|
  {
    recs[..at] + recs[at + 1..]
  }

  function KeyAt(n: Page, at: nat): int
    requires at < Size(n)
  {
    if n.Leaf? then n.recs[at].key else n.ents[at].key
  }

  // remove_entry_from_page.
  function Thinner(n: Page, at: nat): (r: Page)
    requires at < Size(n)
    ensures Size(r) == Size(n) - 1 && r.ppo == n.ppo && r.Leaf? == n.Leaf?
  {
    if n.Leaf? then n.(recs := DropRec(n.recs, at)) else RemoveEnt(n, at)
  }

  ghost predicate PageBounds(n: Page) {
    SortedPage(n) && Size(n) <= if n.Leaf? then LEAF_MAX else INTERNAL_MAX
  }

  // g is the well-formed store in which page p has lost entry number at; on disk it still has it.
  ghost predicate Thinning(g: Pages, pages: Pages, root: nat, tree: Tree, p: nat, at: nat, fpo: nat, free: seq<nat>) {
    && root != 0 && WF(g, root, tree, {p}) && p in tree && root in tree && p < |pages| && at < Size(pages[p])
    && g == pages[p := Thinner(pages[p], at)] && PageBounds(pages[p])
    && FreeOk(pages, fpo, free, tree, {}) && tree[p].level <= tree[root].level
  }

  lemma {:induction false} IsThinning(g: Pages, pages: Pages, root: nat, tree: Tree, p: nat, at: nat, fpo: nat,
      free: seq<nat>)
    requires Thinning(g, pages, root, tree, p, at, fpo, free)
    ensures root != 0 && WF(g, root, tree, {p}) && p in tree && root in tree && p < |pages| && at < Size(pages[p])
    ensures g == pages[p := Thinner(pages[p], at)] && PageBounds(pages[p])
    ensures FreeOk(pages, fpo, free, tree, {}) && FreeOk(g, fpo, free, tree, {})
  {
    hide WF, FreeOk, PageBounds, Thinner;
    FreeFrame(pages, g, fpo, free, tree, {}, tree, {});
  }

  // Which child of the parent a page is, and the page delete_entry merges it with.
  ghost function Place(n: Page, c: nat): (i: nat)
    requires HasKid(n, c)
    ensures i <= |n.ents| && Kid(n, i) == c
  {
    var i :| 0 <= i <= |n.ents| && Kid(n, i) == c;
    i
  }

  ghost function Neighbor(n: Page, c: nat): nat
    requires HasKid(n, c) && n.ents != []
  {
    if Place(n, c) == 0 then Kid(n, 1) else Kid(n, Place(n, c) - 1)
  }

  // Pages in X lie below level l.
  ghost predicate AllBelow(tree: Tree, X: set<nat>, l: nat) {
    forall x :: x in X && x in tree ==> tree[x].level < l
  }

  lemma {:induction false} MergeReady(pages: Pages, root: nat, tree: Tree, X: set<nat>, p: nat)
    requires WF(pages, root, tree, X) && p in tree && p != root && AllBelow(tree, X, tree[p].level + 1)
    ensures p < |pages| && pages[p].ppo in tree && pages[p].ppo < |pages| && HasKid(pages[pages[p].ppo], p)
    ensures pages[pages[p].ppo].Node? && pages[pages[p].ppo].ents != [] &&
      tree[pages[p].ppo].level == tree[p].level + 1 <= tree[root].level
    ensures Neighbor(pages[pages[p].ppo], p) < |pages| && AllBelow(tree, X, tree[pages[p].ppo].level)
    ensures Neighbor(pages[pages[p].ppo], p) in tree && tree[Neighbor(pages[pages[p].ppo], p)].level == tree[p].level
    ensures Neighbor(pages[pages[p].ppo], p) != p
    ensures pages[p].ppo !in X && (pages[p].ppo != root ==> tree[p].level + 1 < tree[root].level)
  {
    hide WF, NodeOk, LeafOk, PageOk, KidOk;
    var P, i := AsKid(pages, root, tree, X, p);
    KindOk(pages, root, tree, X, p);
    KindOk(pages, root, tree, X, P);
    var j := Place(pages[P], p);
    var j' := if j == 0 then 1 else j - 1;
    KidPlaced(pages, root, tree, X, P, j);
    KidPlaced(pages, root, tree, X, P, j');
    KidsDistinct(pages, tree, P, pages[P], tree[P], j, j');
  }

  lemma {:induction false} KidPlaced(pages: Pages, root: nat, tree: Tree, X: set<nat>, p: nat, i: nat)
    requires WF(pages, root, tree, X) && p in tree && p < |pages| && pages[p].Node? && i <= |pages[p].ents|
    ensures tree[p].level > 0 && Kid(pages[p], i) in tree && tree[Kid(pages[p], i)] == KidInfo(pages[p], tree[p], i)
    ensures Kid(pages[p], i) < |pages| && pages[Kid(pages[p], i)].ppo == p
  {
    KidIs(pages, root, tree, X, p, i);
  }

  // Removing the last entry of p and merging p with its neighbour leaves the merged page within its array.
  ghost predicate Room(pages: Pages, root: nat, tree: Tree, X: set<nat>, p: nat)
    requires WF(pages, root, tree, X) && p in tree && p != root && AllBelow(tree, X, tree[p].level + 1)
  {
    MergeReady(pages, root, tree, X, p);
    pages[p].Leaf? || Size(pages[Neighbor(pages[pages[p].ppo], p)]) < INTERNAL_MAX
  }

  // Taking one entry out of p, with all the merges it causes, stays within the pages' arrays.
  ghost predicate MergeFits(pages: Pages, root: nat, tree: Tree, X: set<nat>, p: nat)
    requires WF(pages, root, tree, X) && p in tree && p < |pages| && AllBelow(tree, X, tree[p].level)
    decreases if tree[root].level >= tree[p].level then tree[root].level - tree[p].level else 0
  {
    p == root || Size(pages[p]) >= 2 ||
    (MergeReady(pages, root, tree, X, p);
     Room(pages, root, tree, X, p) && MergeFits(pages, root, tree, X, pages[p].ppo))
  }

  // The same with the entry already taken out of p.
  ghost predicate ThinFits(pages: Pages, root: nat, tree: Tree, p: nat)
    requires WF(pages, root, tree, {p}) && p in tree && p < |pages|
  {
    p == root || Size(pages[p]) >= 1 ||
    (MergeReady(pages, root, tree, {p}, p);
     Room(pages, root, tree, {p}, p) && MergeFits(pages, root, tree, {p}, pages[p].ppo))
  }

  // The stores agree from level l upwards.
  ghost predicate AgreeAbove(g: Pages, tree: Tree, V: Pages, T: Tree, l: nat) {
    forall r :: r in tree && tree[r].level >= l && r < |g| ==>
      r in T && r < |V| && T[r].level == tree[r].level && V[r] == g[r]
  }

  // Whether a removal fits depends only on the pages at its level and above.
  lemma {:induction false} FitsAbove(g: Pages, root: nat, tree: Tree, X: set<nat>, V: Pages, T: Tree, X': set<nat>,
      p: nat)
    requires WF(g, root, tree, X) && WF(V, root, T, X') && p in tree && p < |g| && p in T && p < |V|
    requires AllBelow(tree, X, tree[p].level) && AllBelow(T, X', T[p].level) && AgreeAbove(g, tree, V, T, tree[p].level)
    ensures MergeFits(g, root, tree, X, p) <==> MergeFits(V, root, T, X', p)
    decreases if tree[root].level >= tree[p].level then tree[root].level - tree[p].level else 0
  {
    hide WF, HasKid;
    if p != root {
      MergeReady(g, root, tree, X, p);
      MergeReady(V, root, T, X', p);
      FitsAbove(g, root, tree, X, V, T, X', g[p].ppo);
    }
  }

  // If no internal page is full, every removal fits.
  lemma {:induction false} NoFullPageFits(pages: Pages, root: nat, tree: Tree, X: set<nat>, p: nat)
    requires WF(pages, root, tree, X) && p in tree && p < |pages| && AllBelow(tree, X, tree[p].level)
    requires forall r :: r in tree && r < |pages| && pages[r].Node? ==> Size(pages[r]) < INTERNAL_MAX
    ensures MergeFits(pages, root, tree, X, p)
    decreases if tree[root].level >= tree[p].level then tree[root].level - tree[p].level else 0
  {
    hide WF, HasKid;
    if p != root && Size(pages[p]) < 2 {
      MergeReady(pages, root, tree, X, p);
      KindOk(pages, root, tree, X, p);
      KindOk(pages, root, tree, X, Neighbor(pages[pages[p].ppo], p));
      NoFullPageFits(pages, root, tree, X, pages[p].ppo);
    }
  }

  // An empty page that is not the root.
  ghost predicate Starved(pages: Pages, root: nat, tree: Tree, p: nat, fpo: nat, free: seq<nat>) {
    && root != 0 && WF(pages, root, tree, {p}) && p in tree && p != root && p < |pages| && Size(pages[p]) == 0
    && FreeOk(pages, fpo, free, tree, {})
  }

  // p is left or right, children j and j + 1 of its parent P: the pair that coalesce_nodes merges.
  ghost predicate Pair(pages: Pages, tree: Tree, p: nat, P: nat, j: nat, left: nat, right: nat) {
    && p < |pages| && P == pages[p].ppo && P < |pages| && P in tree && pages[P].Node? && j < |pages[P].ents|
    && Kid(pages[P], j) == left && Kid(pages[P], j + 1) == right && (p == right || (p == left && j == 0))
  }

  // What the pair looks like.
  ghost predicate PairOk(pages: Pages, root: nat, tree: Tree, p: nat, P: nat, left: nat, right: nat) {
    && left < |pages| && right < |pages| && P < |pages| && left in tree && right in tree && P in tree && root in tree &&
       p in tree
    && left != right && left != P && right != P && left != root && right != root
    && pages[left].Leaf? == pages[right].Leaf? && PageBounds(pages[P])
    && tree[left].level == tree[right].level == tree[p].level && tree[P].level == tree[p].level + 1 <= tree[root].level
    && 1 <= Size(pages[left]) + Size(pages[right])
    && Size(pages[left]) + Size(pages[right]) <= if pages[left].Leaf? then LEAF_MAX else INTERNAL_MAX
  }

  lemma {:induction false} PairPre(pages: Pages, root: nat, tree: Tree, p: nat, P: nat, j: nat, left: nat, right: nat)
    requires WF(pages, root, tree, {p}) && p in tree && p != root && p < |pages| && Size(pages[p]) == 0
    requires Pair(pages, tree, p, P, j, left, right)
    ensures MergePre(pages, root, tree, {p}, left, P, j, right) && PairOk(pages, root, tree, p, P, left, right)
  {
    hide WF, PageOk, NodeOk, LeafOk, SortedEnts, SortedRecs, HasKid;
    KidPlaced(pages, root, tree, {p}, P, j);
    KidPlaced(pages, root, tree, {p}, P, j + 1);
    KindOk(pages, root, tree, {p}, left);
    KindOk(pages, root, tree, {p}, right);
    PairKinds(pages, tree, left, right);
    MergeShape(pages, root, tree, {p}, left, P, j, right);
    LeafFits(pages, root, tree, {p}, P);
    MergeReady(pages, root, tree, {p}, p);
  }

  lemma {:induction false} PairKinds(pages: Pages, tree: Tree, left: nat, right: nat)
    requires left in tree && right in tree && left < |pages| && right < |pages| && tree[left].level == tree[right].level
    requires if pages[left].Leaf? then LeafOk(pages[left], tree[left], tree)
      else NodeOk(pages, tree, left, pages[left], tree[left])
    requires if pages[right].Leaf? then LeafOk(pages[right], tree[right], tree)
      else NodeOk(pages, tree, right, pages[right], tree[right])
    ensures pages[left].Leaf? == pages[right].Leaf?
  {
  }

  // The pair's other page is the neighbour, so Room is the bound coalesce_nodes needs.
  lemma {:induction false} PairRoom(pages: Pages, root: nat, tree: Tree, p: nat, P: nat, j: nat, left: nat, right: nat)
    requires WF(pages, root, tree, {p}) && p in tree && p != root && p < |pages| && Size(pages[p]) == 0
    requires Pair(pages, tree, p, P, j, left, right) && PairOk(pages, root, tree, p, P, left, right)
    ensures Room(pages, root, tree, {p}, p) <==>
      pages[left].Leaf? || Size(pages[left]) + 1 + Size(pages[right]) <= INTERNAL_MAX
  {
    hide WF, HasKid, NodeOk, SortedPage;
    MergeReady(pages, root, tree, {p}, p);
    var i := Place(pages[P], p);
    KidIs(pages, root, tree, {p}, P, 0);
    KidsDistinct(pages, tree, P, pages[P], tree[P], i, if p == right then j + 1 else j);
  }

  // The store after the merge, its parent about to lose the separating key.
  lemma {:induction false} Coalesced(g: Pages, pages: Pages, root: nat, tree: Tree, p: nat, P: nat, j: nat, left: nat,
      right: nat, fpo: nat, free: seq<nat>)
    requires root != 0 && WF(g, root, tree, {p}) && p in tree && p != root && p < |g| && Size(g[p]) == 0
    requires Pair(g, tree, p, P, j, left, right) && PairOk(g, root, tree, p, P, left, right)
    requires g[left].Leaf? || Size(g[left]) + 1 + Size(g[right]) <= INTERNAL_MAX
    requires IsMerge(g, pages, left, g[P].ents[j].key, right) && |pages| == |g| && pages[P] == g[P]
    requires FreeOk(pages, fpo, free, MergeTree(tree, left, right), {})
    ensures
      var V, T := pages[P := RemoveEnt(g[P], j)], MergeTree(tree, left, right);
      Thinning(V, pages, root, T, P, j, fpo, free) && WF(V, root, T, {P}) && Stored(V, T) == Stored(g, tree)
  {
    hide WF, IsMerge, Stored, SortedPage, FreeOk, HasKid;
    var V, T := pages[P := RemoveEnt(g[P], j)], MergeTree(tree, left, right);
    PairPre(g, root, tree, p, P, j, left, right);
    assert V[P := g[P]] == pages;
    CoalescedPost(g, pages, V, left, P, j, right);
    MergeKeeps(g, root, tree, {p}, V, left, P, j, right);
    MergedPage(g, V, left, P, j, right);
    InFile(V, root, T, {p} + {left, P});
    MergeStores(g, root, tree, {p}, V, left, P, j, right);
    Exempt(V, root, T, {p} + {left, P}, {P});
  }

  lemma {:induction false} CoalescedPost(g: Pages, pages: Pages, V: Pages, left: nat, P: nat, j: nat, right: nat)
    requires left < |g| && P < |g| && P != left && P != right && left != right && g[P].Node? && j < |g[P].ents|
    requires IsMerge(g, pages, left, g[P].ents[j].key, right) && |pages| == |g| && pages[P] == g[P] &&
      V == pages[P := RemoveEnt(g[P], j)]
    ensures MergePost(g, V, left, P, j, right)
  {
    hide HasKid, RemoveEnt;
    assert V[P := g[P]] == pages;
  }

  // The merge changes no page above the two merged ones but their parent.
  lemma {:induction false} MergeAgrees(g: Pages, V: Pages, root: nat, tree: Tree, p: nat, P: nat, j: nat, left: nat,
      right: nat, r: nat)
    requires MergePre(g, root, tree, {p}, left, P, j, right) && MergePost(g, V, left, P, j, right)
    requires PairOk(g, root, tree, p, P, left, right)
    requires r in tree && tree[r].level >= tree[P].level && r != P
    ensures r < |g| && r in MergeTree(tree, left, right) && MergeTree(tree, left, right)[r] == tree[r] && r < |V| &&
      V[r] == g[r]
  {
    hide WF, IsMerge, RemoveEnt, HasKid, PageOk, NodeOk;
    InFile(g, root, tree, {p});
    MergeFrame(g, root, tree, {p}, V, left, P, j, right, r);
    if r != root {
      var G, i := AsKid(g, root, tree, {p}, r);
    } else {
      RootAlone(g, root, tree, {p});
    }
  }

  lemma {:induction false} RootAlone(pages: Pages, root: nat, tree: Tree, X: set<nat>)
    requires WF(pages, root, tree, X)
    ensures root in tree && root < |pages| && pages[root].ppo == 0 && 0 !in tree
  {
  }

  // Whether the parent's own removal fits is what it was before the merge.
  lemma {:induction false} FitsAfter(g: Pages, pages: Pages, root: nat, tree: Tree, p: nat, P: nat, j: nat, left: nat,
      right: nat)
    requires WF(g, root, tree, {p}) && p in tree && p != root && p < |g| && Size(g[p]) == 0
    requires Pair(g, tree, p, P, j, left, right) && PairOk(g, root, tree, p, P, left, right)
    requires IsMerge(g, pages, left, g[P].ents[j].key, right) && |pages| == |g| && pages[P] == g[P]
    requires WF(pages[P := RemoveEnt(g[P], j)], root, MergeTree(tree, left, right), {P}) &&
      AllBelow(tree, {p}, tree[P].level)
    ensures ThinFits(pages[P := RemoveEnt(g[P], j)], root, MergeTree(tree, left, right), P) <==>
      MergeFits(g, root, tree, {p}, P)
  {
    hide WF, IsMerge, HasKid, NodeOk, MergeFits, Room, SortedPage;
    var V, T := pages[P := RemoveEnt(g[P], j)], MergeTree(tree, left, right);
    PairPre(g, root, tree, p, P, j, left, right);
    CoalescedPost(g, pages, V, left, P, j, right);
    assert Size(V[P]) == Size(g[P]) - 1 && V[P].ppo == g[P].ppo;
    assert T[P] == tree[P];
    if P != root {
      MergeReady(g, root, tree, {p}, P);
      var PP := g[P].ppo;
      forall r | r in tree && tree[r].level >= tree[P].level && r != P
        ensures r < |g| && r in T && r < |V| && T[r] == tree[r] && V[r] == g[r] {
        MergeAgrees(g, V, root, tree, p, P, j, left, right, r);
      }
      MergeReady(V, root, T, {P}, P);
      FitsAbove(g, root, tree, {p}, V, T, {P}, PP);
      RoomAfter(g, V, root, tree, T, p, P);
    }
    FitsUnfold(g, root, tree, {p}, P);
  }

  lemma {:induction false} FitsUnfold(g: Pages, root: nat, tree: Tree, X: set<nat>, P: nat)
    requires WF(g, root, tree, X) && P in tree && P < |g| && AllBelow(tree, X, tree[P].level)
    ensures P == root ==> MergeFits(g, root, tree, X, P)
    ensures P != root ==> g[P].ppo in tree && g[P].ppo < |g| && AllBelow(tree, X, tree[g[P].ppo].level)
    ensures P != root ==>
      (MergeFits(g, root, tree, X, P) <==>
      Size(g[P]) >= 2 || (Room(g, root, tree, X, P) && MergeFits(g, root, tree, X, g[P].ppo)))
  {
    hide WF, HasKid, Room;
    if P != root {
      MergeReady(g, root, tree, X, P);
    }
  }

  lemma {:induction false} RoomAfter(g: Pages, V: Pages, root: nat, tree: Tree, T: Tree, p: nat, P: nat)
    requires WF(g, root, tree, {p}) && WF(V, root, T, {P}) && P in tree && P in T && P != root && P < |g| && P < |V|
    requires V[P].ppo == g[P].ppo && V[P].Leaf? == g[P].Leaf? && AllBelow(tree, {p}, tree[P].level + 1)
    requires forall r :: r in tree && tree[r].level >= tree[P].level && r != P ==>
      r < |g| && r in T && r < |V| && T[r] == tree[r] && V[r] == g[r]
    ensures Room(g, root, tree, {p}, P) <==> Room(V, root, T, {P}, P)
  {
    hide WF, HasKid;
    MergeReady(g, root, tree, {p}, P);
    MergeReady(V, root, T, {P}, P);
  }

  // adjust_root.

  // A leaf under no other page is the whole tree.
  lemma {:induction false} LoneLeaf(pages: Pages, root: nat, tree: Tree, X: set<nat>, p: nat)
    requires WF(pages, root, tree, X) && pages[root].Leaf? && p in tree
    ensures p == root
  {
    KindOk(pages, root, tree, X, root);
    KindOk(pages, root, tree, X, p);
    hide WF;
    if p != root {
      var P, i := AsKid(pages, root, tree, X, p);
    }
  }

  // The last record is gone: no tree at all.
  lemma {:induction false} EmptyTree(pages: Pages, root: nat, tree: Tree, fpo: nat, free: seq<nat>)
    requires WF(pages, root, tree, {root}) && pages[root].Leaf? && pages[root].recs == []
    requires FreeOk(pages, fpo, free, tree, {})
    ensures root < |pages| && Stored(pages, tree) == {} && FreeOk(pages, fpo, free, map[], {root})
  {
    forall p | p in tree ensures p == root {
      LoneLeaf(pages, root, tree, {root}, p);
    }
    hide FreeOk;
    assert tree.Keys == {root};
    var T: Tree := map[];
    FreeFrame(pages, pages, fpo, free, tree, {}, T, {root});
  }

  // The root's only child takes its place; the root's own page is free to be given back.
  lemma {:induction false} RootDropped(pages: Pages, V: Pages, root: nat, tree: Tree, fpo: nat, free: seq<nat>,
      fpo': nat, free': seq<nat>)
    requires root != 0 && WF(pages, root, tree, {root}) && pages[root].Node? && pages[root].ents == [] &&
      pages[root].first < |pages|
    requires FreeOk(V, fpo', free', tree - {root}, {}) &&
      V == pages[root := Node(fpo, 0, [])][pages[root].first := pages[pages[root].first].(ppo := 0)]
    ensures WF(V, pages[root].first, tree - {root}, {}) && Stored(V, tree - {root}) == Stored(pages, tree)
    ensures FreeOk(V, fpo', free', tree - {root}, {}) && pages[root].first != 0
  {
    KidPlaced(pages, root, tree, {root}, root, 0);
    var T := tree - {root};
    hide WF, FreeOk, Stored;
    DropRoot(pages, root, tree, {root}, V);
    InFile(V, pages[root].first, T, {root});
    Exempt(V, pages[root].first, T, {root}, {});
  }

  lemma {:induction false} RootChild(pages: Pages, root: nat, tree: Tree, fpo: nat, free: seq<nat>)
    requires WF(pages, root, tree, {root}) && pages[root].Node? && FreeOk(pages, fpo, free, tree, {})
    ensures root < |pages| && pages[root].first < |pages| && pages[root].first in tree - {root}
    ensures FreeOk(pages, fpo, free, tree - {root}, {root})
  {
    KidPlaced(pages, root, tree, {root}, root, 0);
    InFile(pages, root, tree, {root});
    hide WF, FreeOk;
    FreeFrame(pages, pages, fpo, free, tree, {}, tree - {root}, {root});
  }

  // The page that lost entry at is the thin page, whichever loop found the key.
  lemma {:induction false} Thinned(n: Page, at: nat, at': nat)
    requires PageBounds(n) && at < Size(n) && at' < Size(n) && KeyAt(n, at) == KeyAt(n, at')
    ensures at == at'
  {
  }

  lemma {:induction false} KeyThere(n: Page, at: nat)
    requires at < Size(n)
    ensures KeyAt(n, at) == if n.Leaf? then n.recs[at].key else n.ents[at].key
  {
  }

  // c is a child of n to the right of entry k, or the child that entry k itself points to.
  ghost predicate ChildFrom(n: Page, k: nat, c: nat) {
    n.Node? && exists i :: k < i <= |n.ents| && Kid(n, i) == c
  }

  ghost predicate KidBetween(n: Page, from: nat, to: nat, c: nat) {
    n.Node? && exists i :: from < i <= to && i <= |n.ents| && Kid(n, i) == c
  }

  lemma {:induction false} NoKids(n: Page)
    requires n.Leaf?
    ensures forall c :: !HasKid(n, c)
  {
  }

  lemma {:induction false} PairIs(pages: Pages, tree: Tree, p: nat, P: nat, j: nat, left: nat, right: nat)
    requires Pair(pages, tree, p, P, j, left, right)
    ensures p < |pages| && P == pages[p].ppo && P < |pages| && P in tree && pages[P].Node? && j < |pages[P].ents|
  {
  }

  lemma {:induction false} MergedFrom(a: Page, b: Page, key: int)
    requires a.Node? && b.Node?
    ensures forall c :: ChildFrom(MergePart(a, b, key), |a.ents|, c) <==> HasKid(b, c)
  {
    var m, k := MergePart(a, b, key), |a.ents|;
    MergeKids(a, b, key);
    forall c ensures ChildFrom(m, k, c) <==> HasKid(b, c) {
      if ChildFrom(m, k, c) {
        var i :| k < i <= |m.ents| && Kid(m, i) == c;
        assert Kid(b, i - k - 1) == c;
      }
      if HasKid(b, c) {
        var i :| 0 <= i <= |b.ents| && Kid(b, i) == c;
        assert Kid(m, k + 1 + i) == c;
      }
    }
  }

  // The pages as coalesce_nodes leaves them, with what it may have changed.
  lemma {:induction false} MergeWritten(g: Pages, pages: Pages, root: nat, tree: Tree, p: nat, P: nat, j: nat,
      left: nat, right: nat)
    requires WF(g, root, tree, {p}) && p in tree && p != root && p < |g| && Size(g[p]) == 0
    requires Pair(g, tree, p, P, j, left, right) && PairOk(g, root, tree, p, P, left, right)
    requires |pages| == |g| && pages[left] == MergePart(g[left], g[right], g[P].ents[j].key)
    requires forall r :: 0 <= r < |g| && r != left && r != right ==>
      pages[r] == if HasKid(g[right], r) then g[r].(ppo := left) else g[r]
    ensures IsMerge(g, pages, left, g[P].ents[j].key, right) && pages[P] == g[P]
  {
    hide WF, SortedPage;
    KindOk(g, root, tree, {p}, right);
    if HasKid(g[right], P) {
      var i :| 0 <= i <= |g[right].ents| && Kid(g[right], i) == P;
      KidPlaced(g, root, tree, {p}, right, i);
    }
  }

  // The children of the right page are pages of the tree other than the two.
  lemma {:induction false} RightsKids(g: Pages, root: nat, tree: Tree, p: nat, P: nat, j: nat, left: nat, right: nat)
    requires WF(g, root, tree, {p}) && p in tree && p != root && p < |g| && Size(g[p]) == 0
    requires Pair(g, tree, p, P, j, left, right) && PairOk(g, root, tree, p, P, left, right)
    ensures forall c: nat :: HasKid(g[right], c) ==>
      c in MergeTree(tree, left, right) && c < |g| && c != left && c != right
  {
    hide WF, SortedPage;
    forall c: nat | HasKid(g[right], c) ensures c in MergeTree(tree, left, right) && c < |g| && c != left &&
      c != right {
      var i :| 0 <= i <= |g[right].ents| && Kid(g[right], i) == c;
      KidPlaced(g, root, tree, {p}, right, i);
    }
  }

  // A leaf about to lose a record: the removal fits or not as MergeFits says of the store before.
  lemma {:induction false} LeafThinned(pages: Pages, root: nat, tree: Tree, p: nat, at: nat, fpo: nat, free: seq<nat>)
    requires root != 0 && WF(pages, root, tree, {}) && p in tree && p < |pages| && pages[p].Leaf? &&
      at < |pages[p].recs|
    requires FreeOk(pages, fpo, free, tree, {})
    ensures
      var g := pages[p := Thinner(pages[p], at)];
      && Thinning(g, pages, root, tree, p, at, fpo, free) && WF(g, root, tree, {p})
      && Stored(g, tree) == Stored(pages, tree) - {pages[p].recs[at]}
      && (ThinFits(g, root, tree, p) <==> MergeFits(pages, root, tree, {}, p))
  {
    hide WF, FreeOk, Stored, MergeFits, SortedRecs;
    var g := pages[p := Thinner(pages[p], at)];
    LeafDelete(pages, root, tree, {}, p, at);
    assert {} + {p} == {p};
    LeafFits(pages, root, tree, {}, p);
    RootOver(pages, root, tree, {}, p);
    FitsUnfold(pages, root, tree, {}, p);
    if p != root {
      MergeReady(pages, root, tree, {}, p);
      MergeReady(g, root, tree, {p}, p);
      FitsAbove(pages, root, tree, {}, g, tree, {p}, pages[p].ppo);
    }
  }

  lemma {:induction false} RootOver(pages: Pages, root: nat, tree: Tree, X: set<nat>, p: nat)
    requires WF(pages, root, tree, X) && p in tree
    ensures root in tree && tree[p].level <= tree[root].level
  {
    KindOk(pages, root, tree, X, p);
  }

  // A key belongs to one leaf.
  lemma {:induction false} OneLeaf(pages: Pages, root: nat, tree: Tree, p: nat, key: int)
    requires WF(pages, root, tree, {}) && p in tree && p < |pages| && pages[p].Leaf? && Within(tree[p], key)
    ensures forall q :: q in tree && q < |pages| && pages[q].Leaf? && Within(tree[q], key) ==> q == p
  {
    forall q | q in tree && q < |pages| && pages[q].Leaf? && Within(tree[q], key) ensures q == p {
      KindOk(pages, root, tree, {}, p);
      KindOk(pages, root, tree, {}, q);
      OnePlace(pages, root, tree, {}, p, q, key);
    }
  }

  // Taking a record out of a leaf that keeps one changes that leaf alone.
  ghost predicate Lessened(pages: Pages, tree: Tree, pages': Pages, tree': Tree, p: nat) {
    && tree' == tree && |pages'| == |pages| && p < |pages| && pages'[p].Leaf? == pages[p].Leaf?
    && Size(pages'[p]) + 1 == Size(pages[p]) && forall x :: 0 <= x < |pages| && x != p ==> pages'[x] == pages[x]
  }

  ghost predicate SpareLeaf(pages: Pages, tree: Tree, key: int, p: nat) {
    p in tree && p < |pages| && pages[p].Leaf? && Within(tree[p], key) && |pages[p].recs| >= 2
  }

  lemma {:induction false} LessInLeaf(pages: Pages, tree: Tree, pages': Pages, tree': Tree, p: nat, P: nat)
    requires Lessened(pages, tree, pages', tree', p) && p in tree && tree[p].level == 0 && P in tree && P != p
    requires P < |pages| && pages[P].Node?
    ensures Shrank(pages, tree, pages', tree', P)
  {
  }

  // Two leaves merged, and their parent one key shorter.
  lemma {:induction false} MergedOnly(g: Pages, tree: Tree, mid: Pages, pages: Pages, left: nat, right: nat, P: nat)
    requires left in tree && right in tree && tree[left].level == 0 && tree[right].level == 0 && left != P && right != P
    requires P in tree && P < |g| && g[P].Node? && |mid| == |g|
    requires forall x :: 0 <= x < |g| && x != left && x != right ==> mid[x] == g[x]
    requires Lessened(mid, MergeTree(tree, left, right), pages, MergeTree(tree, left, right), P)
    ensures Shrank(g, tree, pages, MergeTree(tree, left, right), P)
  {
  }

  lemma {:induction false} PairLevels(pages: Pages, root: nat, tree: Tree, p: nat, P: nat, left: nat, right: nat)
    requires WF(pages, root, tree, {p}) && p in tree && p < |pages| && pages[p].Leaf?
    requires PairOk(pages, root, tree, p, P, left, right)
    ensures left in tree && right in tree && tree[left].level == 0 && tree[right].level == 0 && left != P && right != P
    ensures tree[p].level == 0 && left < |pages| && right < |pages| && pages[left].Leaf?
  {
    LeafLevel(pages, root, tree, {p}, p);
    LeafLevel(pages, root, tree, {p}, left);
  }

  lemma {:induction false} LeafLevel(pages: Pages, root: nat, tree: Tree, X: set<nat>, p: nat)
    requires WF(pages, root, tree, X) && p in tree
    ensures p < |pages| && (pages[p].Leaf? <==> tree[p].level == 0)
  {
    assert PageOk(pages, root, tree, X, p);
  }

  // The store from which a starved leaf's removal starts differs from the one before in that leaf.
  lemma {:induction false} ShrankToo(pages: Pages, g: Pages, tree: Tree, pages': Pages, tree': Tree, p: nat, P: nat)
    requires p in tree && tree[p].level == 0 && P != p && |g| == |pages|
    requires forall x :: 0 <= x < |g| && x != p ==> g[x] == pages[x]
    requires Shrank(g, tree, pages', tree', P)
    ensures Shrank(pages, tree, pages', tree', P)
  {
  }

  lemma {:induction false} SpareIs(pages: Pages, root: nat, tree: Tree, p: nat, key: int, P: nat)
    requires WF(pages, root, tree, {}) && p in tree && p < |pages| && pages[p].Leaf? && Within(tree[p], key)
    requires SpareOver(pages, tree, key, P)
    ensures p != root && pages[p].ppo == P && P != 0 && tree[p].level == 0 && p != P
    ensures P in tree && P < |pages| && pages[P].Node? && |pages[P].ents| >= 2
  {
    hide WF, Within;
    ParentOver(pages, root, tree, p, key, P);
  }

  // All that delete_entry on the parent needs to know of the store coalesce_nodes has written.
  ghost predicate MergeDone(g: Pages, pages: Pages, tree: Tree, P: nat, j: nat, left: nat, right: nat) {
    && |pages| == |g| && left < |g| && right < |g| && P < |g| && left in tree && right in tree &&
       g[left].Leaf? == g[right].Leaf?
    && g[P].Node? && j < |g[P].ents|
    && pages[left] == MergePart(g[left], g[right], g[P].ents[j].key)
    && forall r :: 0 <= r < |g| && r != left && r != right ==>
       pages[r] == if HasKid(g[right], r) then g[r].(ppo := left) else g[r]
  }

  lemma {:induction false} AfterMerge(g: Pages, pages: Pages, root: nat, tree: Tree, p: nat, P: nat, j: nat, left: nat,
      right: nat, fpo: nat, free: seq<nat>)
    requires root != 0 && WF(g, root, tree, {p}) && p in tree && p != root && p < |g| && Size(g[p]) == 0
    requires Pair(g, tree, p, P, j, left, right) && PairOk(g, root, tree, p, P, left, right)
    requires g[left].Leaf? || Size(g[left]) + 1 + Size(g[right]) <= INTERNAL_MAX
    requires MergeDone(g, pages, tree, P, j, left, right) && FreeOk(pages, fpo, free, MergeTree(tree, left, right), {})
    ensures P < |pages| && pages[P] == g[P] && j < |g[P].ents|
    ensures
      var V, T := pages[P := RemoveEnt(g[P], j)], MergeTree(tree, left, right);
      && Thinning(V, pages, root, T, P, j, fpo, free) && WF(V, root, T, {P}) && Stored(V, T) == Stored(g, tree)
      && AllBelow(tree, {p}, tree[P].level) && P in T && T[P] == tree[P] && root in T && T[root] == tree[root]
      && (ThinFits(V, root, T, P) <==> MergeFits(g, root, tree, {p}, P))
  {
    hide WF, FreeOk, Stored, MergeFits, ThinFits, HasKid, IsMerge, Thinning, SortedPage, Room, RemoveEnt;
    MergeWritten(g, pages, root, tree, p, P, j, left, right);
    Coalesced(g, pages, root, tree, p, P, j, left, right, fpo, free);
    MergeReady(g, root, tree, {p}, p);
    FitsAfter(g, pages, root, tree, p, P, j, left, right);
  }

  // The right page leaves the tree and is in hand until it is freed.
  lemma {:induction false} RightInHand(pages: Pages, fpo: nat, free: seq<nat>, tree: Tree, left: nat, right: nat)
    requires FreeOk(pages, fpo, free, tree, {}) && left in tree && right in tree && left != right
    ensures FreeOk(pages, fpo, free, MergeTree(tree, left, right), {right})
    ensures left in MergeTree(tree, left, right) && right !in MergeTree(tree, left, right)
  {
    hide FreeOk;
    FreeFrame(pages, pages, fpo, free, tree, {}, MergeTree(tree, left, right), {right});
  }

  // An emptied page's removal fits when there is room to merge it and the parent's removal fits.
  lemma {:induction false} StarvedFits(pages: Pages, root: nat, tree: Tree, p: nat)
    requires WF(pages, root, tree, {p}) && p in tree && p != root && p < |pages| && Size(pages[p]) == 0
    ensures pages[p].ppo in tree && pages[p].ppo < |pages| && AllBelow(tree, {p}, tree[pages[p].ppo].level)
    ensures ThinFits(pages, root, tree, p) <==>
      Room(pages, root, tree, {p}, p) && MergeFits(pages, root, tree, {p}, pages[p].ppo)
  {
    hide WF, MergeFits, Room, HasKid;
    MergeReady(pages, root, tree, {p}, p);
  }
}
