// The page store of the disk B+tree: pages as they lie in the file, the invariant that makes them a
// search tree, and the reshaping steps that insertion and deletion are made of.
module BptTree {
  const INTERNAL_MAX := 248     // Internal_ORDER - 1 entries
  const LEAF_MAX := 31          // Leaf_ORDER - 1 records

  type Value = string

  datatype Record = Record(key: int, value: Value)

  // A key and the page number to its right.
  datatype Entry = Entry(key: int, po: nat)

  // A page, its arrays cut to num_keys. ppo is the parent page (or the next free page); ompo is a
  // leaf's right neighbour or an internal page's first child. Page number 0 stands for "none".
  datatype Page =
    | Leaf(ppo: nat, next: nat, recs: seq<Record>)
    | Node(ppo: nat, first: nat, ents: seq<Entry>)

  type Pages = seq<Page>

  // Ends of key intervals: Inf is minus infinity as a lower and plus infinity as an upper end.
  datatype Bound = Inf | Key(k: int)

  // What a page's place in the tree says of it: its height and the half-open interval of its keys.
  datatype Info = Info(level: nat, lo: Bound, hi: Bound)

  type Tree = map<nat, Info>

  predicate Above(lo: Bound, k: int) {
    lo.Key? ==> lo.k <= k
  }

  predicate Under(k: int, hi: Bound) {
    hi.Key? ==> k < hi.k
  }

  predicate Within(i: Info, k: int) {
    Above(i.lo, k) && Under(k, i.hi)
  }

  // Children of an internal page, left to right.
  function Kid(n: Page, i: nat): nat
    requires n.Node? && i <= |n.ents|
  {
    if i == 0 then n.first else n.ents[i - 1].po
  }

  // Where child i of a page with this info must sit.
  function KidInfo(n: Page, inf: Info, i: nat): Info
    requires n.Node? && i <= |n.ents| && inf.level > 0
  {
    Info(inf.level - 1,
         if i == 0 then inf.lo else Key(n.ents[i - 1].key),
         if i == |n.ents| then inf.hi else Key(n.ents[i].key))
  }

  ghost predicate SortedRecs(recs: seq<Record>) {
    forall i, j :: 0 <= i < j < |recs| ==> recs[i].key < recs[j].key
  }

  ghost predicate SortedEnts(ents: seq<Entry>) {
    forall i, j :: 0 <= i < j < |ents| ==> ents[i].key < ents[j].key
  }

  ghost predicate LeafOk(n: Page, inf: Info, tree: Tree)
    requires n.Leaf?
  {
    && inf.level == 0
    && SortedRecs(n.recs)
    && (forall i :: 0 <= i < |n.recs| ==> Within(inf, n.recs[i].key))
    && (if inf.hi.Inf? then n.next == 0
        else n.next in tree && tree[n.next].level == 0 && tree[n.next].lo == inf.hi)
  }

  ghost predicate KidOk(pages: Pages, tree: Tree, p: nat, n: Page, inf: Info, i: nat)
    requires n.Node? && i <= |n.ents| && inf.level > 0
  {
    var c := Kid(n, i);
    c in tree && c < |pages| && tree[c] == KidInfo(n, inf, i) && pages[c].ppo == p
  }

  ghost predicate NodeOk(pages: Pages, tree: Tree, p: nat, n: Page, inf: Info)
    requires n.Node?
  {
    && inf.level > 0
    && SortedEnts(n.ents)
    && (forall i :: 0 <= i < |n.ents| ==> Within(inf, n.ents[i].key) && inf.lo != Key(n.ents[i].key))
    && (forall i :: 0 <= i <= |n.ents| ==> KidOk(pages, tree, p, n, inf, i))
  }

  ghost predicate HasKid(n: Page, c: nat) {
    n.Node? && exists i :: 0 <= i <= |n.ents| && Kid(n, i) == c
  }

  lemma {:induction false} IsKid(n: Page, i: nat)
    requires n.Node? && i <= |n.ents|
    ensures HasKid(n, Kid(n, i))
  {
  }

  function Size(n: Page): nat {
    if n.Leaf? then |n.recs| else |n.ents|
  }

  ghost predicate SizeOk(n: Page) {
    1 <= Size(n) <= if n.Leaf? then LEAF_MAX else INTERNAL_MAX
  }

  ghost predicate ParentOk(pages: Pages, tree: Tree, root: nat, p: nat, n: Page) {
    && n.ppo in tree && n.ppo < |pages| && HasKid(pages[n.ppo], p)
    && root in tree && p in tree && tree[p].level < tree[root].level
  }

  ghost predicate PageOk(pages: Pages, root: nat, tree: Tree, X: set<nat>, p: nat)
    requires p in tree && p < |pages|
  {
    var n := pages[p];
    && (p in X || SizeOk(n))
    && (if n.Leaf? then LeafOk(n, tree[p], tree) else NodeOk(pages, tree, p, n, tree[p]))
    && (p != root ==> ParentOk(pages, tree, root, p, n))
  }

  // The pages in tree's domain form one B+tree under root; pages in X may be too small or too big.
  ghost predicate WF(pages: Pages, root: nat, tree: Tree, X: set<nat>) {
    && 0 !in tree && root in tree
    && (forall p :: p in tree ==> p < |pages|)
    && pages[root].ppo == 0 && tree[root].lo == Inf && tree[root].hi == Inf
    && (forall p :: p in tree ==> PageOk(pages, root, tree, X, p))
  }

  // Everything stored: the records of all leaves of the tree.
  ghost function Stored(pages: Pages, tree: Tree): set<Record>
    requires forall p :: p in tree ==> p < |pages|
  {
    set p, i | p in tree && pages[p].Leaf? && 0 <= i < |pages[p].recs| :: pages[p].recs[i]
  }

  lemma {:induction false} InFile(pages: Pages, root: nat, tree: Tree, X: set<nat>)
    requires WF(pages, root, tree, X)
    ensures root in tree && root != 0 && forall p :: p in tree ==> p < |pages|
  {
  }

  lemma {:induction false} RootSpans(pages: Pages, root: nat, tree: Tree, key: int)
    requires WF(pages, root, tree, {})
    ensures root in tree && root < |pages| && root != 0 && Within(tree[root], key) && SizeOk(pages[root])
  {
    assert PageOk(pages, root, tree, {}, root);
  }

  // find_leaf's step: the child between whose separators the key lies covers the key.
  lemma {:induction false} Descend(pages: Pages, root: nat, tree: Tree, p: nat, i: nat, key: int)
    requires WF(pages, root, tree, {}) && p in tree && p < |pages| && pages[p].Node? && i <= |pages[p].ents| &&
      Within(tree[p], key)
    requires (i > 0 ==> pages[p].ents[i - 1].key <= key) && (i < |pages[p].ents| ==> key < pages[p].ents[i].key)
    ensures var c := Kid(pages[p], i);
      c != 0 && c in tree && c < |pages| && Within(tree[c], key) && tree[c].level < tree[p].level &&
        SizeOk(pages[c])
  {
    assert PageOk(pages, root, tree, {}, p);
    assert KidOk(pages, tree, p, pages[p], tree[p], i);
    assert PageOk(pages, root, tree, {}, Kid(pages[p], i));
  }

  // A page other than the root is some child of its parent, and sits where that child must.
  lemma {:induction false} AsKid(pages: Pages, root: nat, tree: Tree, X: set<nat>, p: nat) returns (P: nat, i: nat)
    requires WF(pages, root, tree, X) && p in tree && p != root
    ensures P == pages[p].ppo && P in tree && P != p && P < |pages| && pages[P].Node? && i <= |pages[P].ents|
    ensures Kid(pages[P], i) == p && tree[P].level > 0 && tree[p] == KidInfo(pages[P], tree[P], i)
    ensures NodeOk(pages, tree, P, pages[P], tree[P])
  {
    P := pages[p].ppo;
    assert PageOk(pages, root, tree, X, p) && PageOk(pages, root, tree, X, P);
    i :| 0 <= i <= |pages[P].ents| && Kid(pages[P], i) == p;
    assert KidOk(pages, tree, P, pages[P], tree[P], i);
  }

  // What holds of child i of an internal page.
  lemma {:induction false} KidIs(pages: Pages, root: nat, tree: Tree, X: set<nat>, p: nat, i: nat)
    requires WF(pages, root, tree, X) && p in tree && p < |pages| && pages[p].Node? && i <= |pages[p].ents|
    ensures tree[p].level > 0 && NodeOk(pages, tree, p, pages[p], tree[p]) &&
      KidOk(pages, tree, p, pages[p], tree[p], i)
  {
    assert PageOk(pages, root, tree, X, p);
  }

  // What holds of a page by its kind, and the way back.
  lemma {:induction false} KindOk(pages: Pages, root: nat, tree: Tree, X: set<nat>, p: nat)
    requires WF(pages, root, tree, X) && p in tree
    ensures p < |pages| && p != 0 && 0 !in tree
    ensures if pages[p].Leaf? then LeafOk(pages[p], tree[p], tree) else NodeOk(pages, tree, p, pages[p], tree[p])
    ensures p != root ==> ParentOk(pages, tree, root, p, pages[p])
    ensures p in X || SizeOk(pages[p])
  {
    assert PageOk(pages, root, tree, X, p);
  }

  lemma {:induction false} PageIs(pages: Pages, root: nat, tree: Tree, X: set<nat>, p: nat)
    requires p in tree && p < |pages| && (p in X || SizeOk(pages[p]))
    requires if pages[p].Leaf? then LeafOk(pages[p], tree[p], tree) else NodeOk(pages, tree, p, pages[p], tree[p])
    requires p != root ==> ParentOk(pages, tree, root, p, pages[p])
    ensures PageOk(pages, root, tree, X, p)
  {
    hide LeafOk, NodeOk, ParentOk, SizeOk;
  }

  // Intervals of pages of one level are disjoint, so a key has one place.
  lemma {:induction false} OnePlace(pages: Pages, root: nat, tree: Tree, X: set<nat>, p: nat, q: nat, k: int)
    requires WF(pages, root, tree, X) && p in tree && q in tree && tree[p].level == tree[q].level
    requires Within(tree[p], k) && Within(tree[q], k)
    ensures p == q
    decreases tree[root].level - tree[p].level
  {
    assert PageOk(pages, root, tree, X, p) && PageOk(pages, root, tree, X, q);
    if p != root && q != root {
      hide WF, PageOk;
      var pp, i := AsKid(pages, root, tree, X, p);
      var qp, j := AsKid(pages, root, tree, X, q);
      hide *;
      KidWithin(pages, tree, pp, i, k);
      KidWithin(pages, tree, qp, j, k);
      OnePlace(pages, root, tree, X, pp, qp, k);
      SameKid(pages, tree, pp, i, j, k);
    }
  }

  // A child's interval lies in its parent's.
  lemma {:induction false} KidWithin(pages: Pages, tree: Tree, p: nat, i: nat, k: int)
    requires p in tree && p < |pages| && pages[p].Node? && NodeOk(pages, tree, p, pages[p], tree[p]) &&
      i <= |pages[p].ents|
    requires Within(KidInfo(pages[p], tree[p], i), k)
    ensures Within(tree[p], k)
  {
    hide SortedEnts, KidOk;
  }

  // Two children of one page that both cover a key are the same child.
  lemma {:induction false} SameKid(pages: Pages, tree: Tree, p: nat, i: nat, j: nat, k: int)
    requires p in tree && p < |pages| && pages[p].Node? && NodeOk(pages, tree, p, pages[p], tree[p])
    requires i <= |pages[p].ents| && j <= |pages[p].ents|
    requires Within(KidInfo(pages[p], tree[p], i), k) && Within(KidInfo(pages[p], tree[p], j), k)
    ensures i == j
  {
    hide KidOk;
  }

  // Every interval of the tree contains some key.
  lemma {:induction false} Inhabited(pages: Pages, root: nat, tree: Tree, X: set<nat>, p: nat)
    requires WF(pages, root, tree, X) && p in tree
    ensures tree[p].lo.Key? && tree[p].hi.Key? ==> tree[p].lo.k < tree[p].hi.k
    decreases tree[root].level - tree[p].level
  {
    assert PageOk(pages, root, tree, X, p);
    if p != root {
      var P, i := AsKid(pages, root, tree, X, p);
      Inhabited(pages, root, tree, X, P);
      hide WF, KidOk, PageOk;
    }
  }

  // Pages no longer out of bounds need no exemption.
  lemma {:induction false} Exempt(pages: Pages, root: nat, tree: Tree, X: set<nat>, X': set<nat>)
    requires WF(pages, root, tree, X)
    requires forall p :: p in X && p in tree && p !in X' ==> SizeOk(pages[p])
    ensures WF(pages, root, tree, X')
  {
    hide NodeOk, LeafOk, ParentOk, SizeOk;
    assert forall p :: p in tree ==> PageOk(pages, root, tree, X, p) && PageOk(pages, root, tree, X', p);
  }

  lemma {:induction false} MoreExempt(pages: Pages, root: nat, tree: Tree, X: set<nat>, X': set<nat>, p: nat)
    requires p in tree && p < |pages| && PageOk(pages, root, tree, X, p) && X <= X'
    ensures PageOk(pages, root, tree, X', p)
  {
    hide NodeOk, LeafOk, ParentOk, SizeOk;
  }

  // Splitting a page.

  function InsertEnt(n: Page, j: nat, e: Entry): (r: Page)
    requires n.Node? && j <= |n.ents|
  {
    n.(ents := n.ents[..j] + [e] + n.ents[j..])
  }

  function RemoveEnt(n: Page, j: nat): (r: Page)
    requires n.Node? && j < |n.ents|
  {
    n.(ents := n.ents[..j] + n.ents[j + 1..])
  }

  predicate CanSplit(n: Page, sp: nat) {
    sp < Size(n) && (n.Leaf? ==> sp > 0)
  }

  // A leaf keeps the first sp records; an internal page keeps sp entries and gives up the next key.
  function LeftPart(n: Page, sp: nat, q: nat): Page
    requires CanSplit(n, sp)
  {
    if n.Leaf? then Leaf(n.ppo, q, n.recs[..sp]) else Node(n.ppo, n.first, n.ents[..sp])
  }

  function RightPart(n: Page, sp: nat): Page
    requires CanSplit(n, sp)
  {
    if n.Leaf? then Leaf(n.ppo, n.next, n.recs[sp..]) else Node(n.ppo, n.ents[sp].po, n.ents[sp + 1..])
  }

  function SplitKey(n: Page, sp: nat): int
    requires CanSplit(n, sp)
  {
    if n.Leaf? then n.recs[sp].key else n.ents[sp].key
  }

  // Pages after page p has been split at sp into p and q: the children of the right half know their new parent.
  ghost predicate IsSplit(pages: Pages, pages': Pages, p: nat, sp: nat, q: nat) {
    && |pages'| == |pages| && p < |pages| && q < |pages| && CanSplit(pages[p], sp)
    && pages'[p] == LeftPart(pages[p], sp, q)
    && pages'[q] == RightPart(pages[p], sp)
    && forall r :: 0 <= r < |pages| && r != p && r != q ==>
         pages'[r] == if HasKid(RightPart(pages[p], sp), r) then pages[r].(ppo := q) else pages[r]
  }

  function SplitTree(tree: Tree, p: nat, key: int, q: nat): Tree
    requires p in tree
  {
    tree[p := tree[p].(hi := Key(key))][q := tree[p].(lo := Key(key))]
  }

  // p, child j of P, may be split at sp into p and the fresh page q.
  ghost predicate SplitPre(pages: Pages, root: nat, tree: Tree, X: set<nat>, p: nat, P: nat, j: nat, sp: nat, q: nat) {
    && WF(pages, root, tree, X) && p in tree && p != root && P == pages[p].ppo && P in tree
    && pages[P].Node? && j <= |pages[P].ents| && Kid(pages[P], j) == p
    && CanSplit(pages[p], sp) && q !in tree && 0 < q < |pages|
  }

  // V is the store after the split of p and the insertion of the new entry into its parent.
  ghost predicate SplitPost(pages: Pages, V: Pages, p: nat, P: nat, j: nat, sp: nat, q: nat) {
    && p < |pages| && P < |pages| && P != p && P != q && pages[P].Node? && j <= |pages[P].ents|
    && CanSplit(pages[p], sp)
    && |V| == |pages| && IsSplit(pages, V[P := pages[P]], p, sp, q)
    && V[P] == InsertEnt(pages[P], j, Entry(SplitKey(pages[p], sp), q))
  }

  lemma {:induction false} InsertKids(n: Page, j: nat, e: Entry, i: nat)
    requires n.Node? && j <= |n.ents| && i <= |n.ents| + 1
    ensures Kid(InsertEnt(n, j, e), i) == if i <= j then Kid(n, i) else if i == j + 1 then e.po else Kid(n, i - 1)
  {
  }

  lemma {:induction false} InsertKeys(n: Page, j: nat, e: Entry, i: nat)
    requires n.Node? && j <= |n.ents| && i <= |n.ents| + 1
    ensures InsertEnt(n, j, e).Node? && |InsertEnt(n, j, e).ents| == |n.ents| + 1
    ensures i <= |n.ents| ==>
      InsertEnt(n, j, e).ents[i].key == if i < j then n.ents[i].key else if i == j then e.key else n.ents[i - 1].key
    ensures 0 < i ==>
      InsertEnt(n, j, e).ents[i - 1].key == if i - 1 < j then n.ents[i - 1].key else if i - 1 == j then e.key
      else n.ents[i - 2].key
  {
  }

  lemma {:induction false} KidNotParent(pages: Pages, tree: Tree, p: nat, n: Page, i: nat)
    requires p in tree && n.Node? && i <= |n.ents| && tree[p].level > 0 && KidOk(pages, tree, p, n, tree[p], i)
    ensures Kid(n, i) in tree && Kid(n, i) != p && tree[Kid(n, i)].level < tree[p].level
  {
  }

  lemma {:induction false} InsertHasKid(n: Page, j: nat, e: Entry, c: nat)
    requires n.Node? && j <= |n.ents|
    ensures HasKid(n, c) ==> HasKid(InsertEnt(n, j, e), c)
    ensures HasKid(InsertEnt(n, j, e), e.po) && InsertEnt(n, j, e).ppo == n.ppo
  {
    InsertKids(n, j, e, j + 1);
    if HasKid(n, c) {
      var i :| 0 <= i <= |n.ents| && Kid(n, i) == c;
      InsertKids(n, j, e, if i <= j then i else i + 1);
    }
  }

  lemma {:induction false} SplitKids(n: Page, sp: nat, q: nat)
    requires n.Node? && CanSplit(n, sp)
    ensures forall i :: 0 <= i <= sp ==> Kid(LeftPart(n, sp, q), i) == Kid(n, i)
    ensures forall i :: 0 <= i < |n.ents| - sp ==> Kid(RightPart(n, sp), i) == Kid(n, sp + 1 + i)
  {
  }

  lemma {:induction false} SplitSides(n: Page, sp: nat, q: nat, c: nat)
    requires n.Node? && CanSplit(n, sp) && HasKid(n, c)
    ensures HasKid(LeftPart(n, sp, q), c) || HasKid(RightPart(n, sp), c)
  {
    var i :| 0 <= i <= |n.ents| && Kid(n, i) == c;
    SplitKids(n, sp, q);
    if i <= sp {
      assert Kid(LeftPart(n, sp, q), i) == c;
    } else {
      assert Kid(RightPart(n, sp), i - sp - 1) == c;
    }
  }

  // A page's children are all different.
  lemma {:induction false} KidsDistinct(pages: Pages, tree: Tree, p: nat, n: Page, inf: Info, i: nat, i': nat)
    requires n.Node? && NodeOk(pages, tree, p, n, inf) && i <= |n.ents| && i' <= |n.ents|
    ensures Kid(n, i) == Kid(n, i') ==> i == i'
  {
    assert KidOk(pages, tree, p, n, inf, i) && KidOk(pages, tree, p, n, inf, i');
  }

  lemma {:induction false} SplitKeyInside(pages: Pages, root: nat, tree: Tree, X: set<nat>, p: nat, sp: nat)
    requires WF(pages, root, tree, X) && p in tree && CanSplit(pages[p], sp)
    ensures Within(tree[p], SplitKey(pages[p], sp)) && tree[p].lo != Key(SplitKey(pages[p], sp))
  {
    assert PageOk(pages, root, tree, X, p);
    if pages[p].Leaf? {
      assert pages[p].recs[0].key < pages[p].recs[sp].key;
    }
  }

  // Which pages a split reparents, and that it leaves every other page alone.
  lemma {:induction false} SplitFrame(pages: Pages, root: nat, tree: Tree, X: set<nat>, V: Pages, p: nat, P: nat,
      j: nat, sp: nat, q: nat, r: nat)
    requires SplitPre(pages, root, tree, X, p, P, j, sp, q) && SplitPost(pages, V, p, P, j, sp, q)
    requires r in tree && r != p && r != P
    ensures V[r] == pages[r] || (pages[r].ppo == p && V[r] == pages[r].(ppo := q) &&
      HasKid(RightPart(pages[p], sp), r) && r != root)
    ensures pages[r].ppo == p && V[r] == pages[r] ==> HasKid(LeftPart(pages[p], sp, q), r)
  {
    var n := pages[p];
    assert PageOk(pages, root, tree, X, p) && PageOk(pages, root, tree, X, r);
    hide WF, PageOk, LeafOk, KidInfo;
    assert V[r] == V[P := pages[P]][r];
    if n.Node? {
      SplitKids(n, sp, q);
      if HasKid(n, r) { SplitSides(n, sp, q, r); }
      if HasKid(RightPart(n, sp), r) {
        var i :| 0 <= i <= |n.ents| - sp - 1 && Kid(RightPart(n, sp), i) == r;
        assert KidOk(pages, tree, p, n, tree[p], sp + 1 + i);
      }
      if pages[r].ppo == p {
        var p', i := AsKid(pages, root, tree, X, r);
        assert HasKid(n, r);
      }
    }
  }

  // A child of the left half keeps its parent.
  lemma {:induction false} SplitKeepsKid(pages: Pages, root: nat, tree: Tree, X: set<nat>, V: Pages, p: nat, P: nat,
      j: nat, sp: nat, q: nat, i: nat)
    requires SplitPre(pages, root, tree, X, p, P, j, sp, q) && SplitPost(pages, V, p, P, j, sp, q)
    requires pages[p].Node? && i <= |pages[p].ents|
    ensures Kid(pages[p], i) in tree && Kid(pages[p], i) != p && Kid(pages[p], i) != P && Kid(pages[p], i) != q
    ensures V[Kid(pages[p], i)] == pages[Kid(pages[p], i)].(ppo := if i <= sp then p else q)
  {
    hide WF, NodeOk, PageOk, ParentOk;
    var n := pages[p];
    var c := Kid(n, i);
    KidIs(pages, root, tree, X, p, i);
    KidIs(pages, root, tree, X, P, j);
    KidNotParent(pages, tree, p, n, i);
    KidNotParent(pages, tree, P, pages[P], j);
    assert c != P && V[c] == V[P := pages[P]][c];
    SplitKids(n, sp, q);
    if i <= sp {
      if HasKid(RightPart(n, sp), c) {
        var i' :| 0 <= i' < |n.ents| - sp && Kid(RightPart(n, sp), i') == c;
        KidsDistinct(pages, tree, p, n, tree[p], i, sp + 1 + i');
      }
    } else {
      assert Kid(RightPart(n, sp), i - sp - 1) == c;
    }
  }

  // The two halves sit below P.
  lemma {:induction false} SplitHalvesParent(pages: Pages, root: nat, tree: Tree, X: set<nat>, V: Pages, p: nat, P: nat,
      j: nat, sp: nat, q: nat)
    requires SplitPre(pages, root, tree, X, p, P, j, sp, q) && SplitPost(pages, V, p, P, j, sp, q)
    ensures V[p] == LeftPart(pages[p], sp, q) && V[q] == RightPart(pages[p], sp)
    ensures ParentOk(V, SplitTree(tree, p, SplitKey(pages[p], sp), q), root, p, V[p])
    ensures ParentOk(V, SplitTree(tree, p, SplitKey(pages[p], sp), q), root, q, V[q])
  {
    hide WF, PageOk, NodeOk, LeafOk, HasKid, InsertEnt;
    KindOk(pages, root, tree, X, p);
    assert V[p] == V[P := pages[P]][p] && V[q] == V[P := pages[P]][q];
    InsertHasKid(pages[P], j, Entry(SplitKey(pages[p], sp), q), p);
  }

  lemma {:induction false} SplitLeftKids(pages: Pages, root: nat, tree: Tree, X: set<nat>, V: Pages, p: nat, P: nat,
      j: nat, sp: nat, q: nat, i: nat)
    requires SplitPre(pages, root, tree, X, p, P, j, sp, q) && SplitPost(pages, V, p, P, j, sp, q)
    requires pages[p].Node? && i <= sp && tree[p].level > 0
    ensures
      var T := SplitTree(tree, p, SplitKey(pages[p], sp), q);
      T[p].level > 0 && KidOk(V, T, p, LeftPart(pages[p], sp, q), T[p], i)
  {
    hide WF, ParentOk, IsSplit, NodeOk, PageOk;
    SplitKids(pages[p], sp, q);
    KidIs(pages, root, tree, X, p, i);
    SplitKeepsKid(pages, root, tree, X, V, p, P, j, sp, q, i);
  }

  lemma {:induction false} SplitLeft(pages: Pages, root: nat, tree: Tree, X: set<nat>, V: Pages, p: nat, P: nat, j: nat,
      sp: nat, q: nat)
    requires SplitPre(pages, root, tree, X, p, P, j, sp, q) && SplitPost(pages, V, p, P, j, sp, q)
    ensures PageOk(V, root, SplitTree(tree, p, SplitKey(pages[p], sp), q), {p}, p)
  {
    hide WF, ParentOk, KidOk, IsSplit, HasKid, PageOk;
    var n, key := pages[p], SplitKey(pages[p], sp);
    var T := SplitTree(tree, p, key, q);
    var l := LeftPart(n, sp, q);
    SplitHalvesParent(pages, root, tree, X, V, p, P, j, sp, q);
    KindOk(pages, root, tree, X, p);
    SplitKeyInside(pages, root, tree, X, p, sp);
    if n.Node? {
      forall i | 0 <= i <= sp ensures KidOk(V, T, p, l, T[p], i) {
        SplitLeftKids(pages, root, tree, X, V, p, P, j, sp, q, i);
      }
      assert NodeOk(V, T, p, l, T[p]);
    } else {
      assert LeafOk(l, T[p], T);
    }
    PageIs(V, root, T, {p}, p);
  }

  // A leaf's condition looks at other pages only for the height and lower end of its neighbour.
  lemma {:induction false} LeafCarry(n: Page, n': Page, inf: Info, tree: Tree, T: Tree)
    requires n.Leaf? && n'.Leaf? && n'.recs == n.recs && n'.next == n.next && LeafOk(n, inf, tree)
    requires n.next in tree ==> n.next in T && T[n.next].level == tree[n.next].level && T[n.next].lo == tree[n.next].lo
    requires 0 !in tree
    ensures LeafOk(n', inf, T)
  {
  }

  // An internal page's condition, its children apart, looks only at its entries.
  lemma {:induction false} NodeCarry(pages: Pages, tree: Tree, V: Pages, T: Tree, r: nat, n: Page, n': Page, inf: Info)
    requires n.Node? && n'.Node? && n'.first == n.first && n'.ents == n.ents && NodeOk(pages, tree, r, n, inf)
    requires forall i :: 0 <= i <= |n.ents| ==> KidOk(V, T, r, n', inf, i)
    ensures NodeOk(V, T, r, n', inf)
  {
    hide KidOk;
  }

  lemma {:induction false} SameSize(n: Page, n': Page)
    requires n.Leaf? == n'.Leaf? && Size(n) == Size(n')
    ensures SizeOk(n) ==> SizeOk(n')
  {
  }

  lemma {:induction false} SplitOtherNode(pages: Pages, root: nat, tree: Tree, X: set<nat>, V: Pages, p: nat, P: nat,
      j: nat, sp: nat, q: nat, r: nat)
    requires SplitPre(pages, root, tree, X, p, P, j, sp, q) && SplitPost(pages, V, p, P, j, sp, q)
    requires r in tree && r != p && r != P && r < |V| && pages[r].Node? && V[r].Node?
    requires V[r].first == pages[r].first && V[r].ents == pages[r].ents
    ensures NodeOk(V, SplitTree(tree, p, SplitKey(pages[p], sp), q), r, V[r], tree[r])
  {
    hide WF, PageOk, ParentOk, IsSplit, HasKid, NodeOk, InsertEnt;
    var T := SplitTree(tree, p, SplitKey(pages[p], sp), q);
    KidIs(pages, root, tree, X, r, 0);
    forall i | 0 <= i <= |pages[r].ents| ensures KidOk(V, T, r, V[r], tree[r], i) {
      KidIs(pages, root, tree, X, r, i);
      SplitOtherKid(pages, root, tree, X, V, p, P, j, sp, q, r, Kid(pages[r], i));
    }
    NodeCarry(pages, tree, V, T, r, pages[r], V[r], tree[r]);
  }

  lemma {:induction false} SplitRightKids(pages: Pages, root: nat, tree: Tree, X: set<nat>, V: Pages, p: nat, P: nat,
      j: nat, sp: nat, q: nat, i: nat)
    requires SplitPre(pages, root, tree, X, p, P, j, sp, q) && SplitPost(pages, V, p, P, j, sp, q)
    requires pages[p].Node? && i < |pages[p].ents| - sp && tree[p].level > 0
    ensures
      var T := SplitTree(tree, p, SplitKey(pages[p], sp), q);
      T[q].level > 0 && KidOk(V, T, q, RightPart(pages[p], sp), T[q], i)
  {
    hide WF, ParentOk, IsSplit, NodeOk, PageOk;
    var n := pages[p];
    SplitKids(n, sp, q);
    KidIs(pages, root, tree, X, p, sp + 1 + i);
    SplitKeepsKid(pages, root, tree, X, V, p, P, j, sp, q, sp + 1 + i);
  }

  lemma {:induction false} SplitRight(pages: Pages, root: nat, tree: Tree, X: set<nat>, V: Pages, p: nat, P: nat,
      j: nat, sp: nat, q: nat)
    requires SplitPre(pages, root, tree, X, p, P, j, sp, q) && SplitPost(pages, V, p, P, j, sp, q)
    ensures q in SplitTree(tree, p, SplitKey(pages[p], sp), q)
    ensures PageOk(V, root, SplitTree(tree, p, SplitKey(pages[p], sp), q), {q}, q)
  {
    hide WF, ParentOk, KidOk, IsSplit, HasKid, PageOk;
    var n, key := pages[p], SplitKey(pages[p], sp);
    var T := SplitTree(tree, p, key, q);
    SplitHalvesParent(pages, root, tree, X, V, p, P, j, sp, q);
    KindOk(pages, root, tree, X, p);
    if n.Node? {
      forall i | 0 <= i < |n.ents| - sp ensures KidOk(V, T, q, RightPart(n, sp), T[q], i) {
        SplitRightKids(pages, root, tree, X, V, p, P, j, sp, q, i);
      }
      assert NodeOk(V, T, q, RightPart(n, sp), T[q]);
    } else {
      LeafCarry(n, Leaf(n.ppo, n.next, n.recs), tree[p], tree, T);
      assert LeafOk(RightPart(n, sp), T[q], T);
    }
    PageIs(V, root, T, {q}, q);
  }

  // Every other page still has a parent that knows it.
  lemma {:induction false} SplitOtherParent(pages: Pages, root: nat, tree: Tree, X: set<nat>, V: Pages, p: nat, P: nat,
      j: nat, sp: nat, q: nat, r: nat)
    requires SplitPre(pages, root, tree, X, p, P, j, sp, q) && SplitPost(pages, V, p, P, j, sp, q)
    requires r in tree && r != p && r != root
    ensures ParentOk(V, SplitTree(tree, p, SplitKey(pages[p], sp), q), root, r, V[r])
  {
    hide WF, PageOk, NodeOk, IsSplit, HasKid, InsertEnt;
    var G, i := AsKid(pages, root, tree, X, r);
    var P', j' := AsKid(pages, root, tree, X, p);
    KindOk(pages, root, tree, X, r);
    SplitHalvesParent(pages, root, tree, X, V, p, P, j, sp, q);
    InsertHasKid(pages[P], j, Entry(SplitKey(pages[p], sp), q), r);
    if r != P {
      SplitFrame(pages, root, tree, X, V, p, P, j, sp, q, r);
    }
    if G != p && G != P {
      SplitFrame(pages, root, tree, X, V, p, P, j, sp, q, G);
      IsKid(V[G], i);
      assert Kid(V[G], i) == r;
    }
  }

  // The parent with one more entry.
  lemma {:induction false} SplitParent(pages: Pages, root: nat, tree: Tree, X: set<nat>, V: Pages, p: nat, P: nat,
      j: nat, sp: nat, q: nat)
    requires SplitPre(pages, root, tree, X, p, P, j, sp, q) && SplitPost(pages, V, p, P, j, sp, q)
    ensures PageOk(V, root, SplitTree(tree, p, SplitKey(pages[p], sp), q), {P}, P)
  {
    var n, m, key := pages[p], pages[P], SplitKey(pages[p], sp);
    var T := SplitTree(tree, p, key, q);
    var m' := InsertEnt(m, j, Entry(key, q));
    var P', j' := AsKid(pages, root, tree, X, p);
    KidsDistinct(pages, tree, P, m, tree[P], j, j');
    SplitKeyInside(pages, root, tree, X, p, sp);
    InsertSorted(m, tree[P], j, key, q);
    if P != root {
      SplitOtherParent(pages, root, tree, X, V, p, P, j, sp, q, P);
    }
    hide WF, ParentOk, KidOk, SortedEnts, IsSplit, KidInfo;
    forall i | 0 <= i <= |m'.ents| ensures KidOk(V, T, P, m', T[P], i) {
      SplitParentKid(pages, root, tree, X, V, p, P, j, sp, q, i);
    }
    assert NodeOk(V, T, P, m', T[P]);
  }

  lemma {:induction false} Ascending(e: seq<Entry>, j: nat)
    requires SortedEnts(e) && j <= |e|
    ensures forall i :: 0 <= i < j ==> e[i].key <= e[j - 1].key
    ensures forall i :: j <= i < |e| ==> e[j].key <= e[i].key
  {
  }

  lemma {:induction false} InsertAscending(e: seq<Entry>, j: nat, x: Entry)
    requires SortedEnts(e) && j <= |e|
    requires forall i :: 0 <= i < j ==> e[i].key < x.key
    requires forall i :: j <= i < |e| ==> x.key < e[i].key
    ensures SortedEnts(e[..j] + [x] + e[j..])
  {
  }

  // A key strictly inside child j's interval goes at position j.
  lemma {:induction false} InsertSorted(m: Page, inf: Info, j: nat, key: int, q: nat)
    requires m.Node? && j <= |m.ents| && inf.level > 0 && SortedEnts(m.ents)
    requires forall i :: 0 <= i < |m.ents| ==> Within(inf, m.ents[i].key) && inf.lo != Key(m.ents[i].key)
    requires Within(KidInfo(m, inf, j), key) && KidInfo(m, inf, j).lo != Key(key)
    ensures SortedEnts(InsertEnt(m, j, Entry(key, q)).ents)
    ensures forall i :: 0 <= i <= |m.ents| ==>
      Within(inf, InsertEnt(m, j, Entry(key, q)).ents[i].key) &&
      inf.lo != Key(InsertEnt(m, j, Entry(key, q)).ents[i].key)
  {
    hide SortedEnts;
    var e := m.ents;
    Ascending(e, j);
    InsertAscending(e, j, Entry(key, q));
  }

  lemma {:induction false} SplitParentKid(pages: Pages, root: nat, tree: Tree, X: set<nat>, V: Pages, p: nat, P: nat,
      j: nat, sp: nat, q: nat, i: nat)
    requires SplitPre(pages, root, tree, X, p, P, j, sp, q) && SplitPost(pages, V, p, P, j, sp, q)
    requires i <= |pages[P].ents| + 1 && P in tree && tree[P].level > 0
    ensures
      var key := SplitKey(pages[p], sp);
      KidOk(V, SplitTree(tree, p, key, q), P, InsertEnt(pages[P], j, Entry(key, q)), tree[P], i)
  {
    hide WF, PageOk, NodeOk, IsSplit, HasKid, ParentOk, InsertEnt;
    var n, m, key := pages[p], pages[P], SplitKey(pages[p], sp);
    SplitHalvesParent(pages, root, tree, X, V, p, P, j, sp, q);
    InsertKids(m, j, Entry(key, q), i);
    InsertKeys(m, j, Entry(key, q), i);
    var i0 := if i <= j then i else i - 1;
    KidIs(pages, root, tree, X, P, i0);
    KidIs(pages, root, tree, X, P, j);
    if i != j && i != j + 1 {
      var c := Kid(m, i0);
      KidsDistinct(pages, tree, P, m, tree[P], i0, j);
      KidNotParent(pages, tree, P, m, i0);
      SplitFrame(pages, root, tree, X, V, p, P, j, sp, q, c);
    }
  }

  // Pages that are neither half nor the parent.
  lemma {:induction false} SplitOther(pages: Pages, root: nat, tree: Tree, X: set<nat>, V: Pages, p: nat, P: nat,
      j: nat, sp: nat, q: nat, r: nat)
    requires SplitPre(pages, root, tree, X, p, P, j, sp, q) && SplitPost(pages, V, p, P, j, sp, q)
    requires r in tree && r != p && r != P
    ensures PageOk(V, root, SplitTree(tree, p, SplitKey(pages[p], sp), q), X, r)
  {
    hide WF, ParentOk, IsSplit, HasKid, NodeOk, LeafOk, SizeOk, PageOk, InsertEnt;
    var T := SplitTree(tree, p, SplitKey(pages[p], sp), q);
    KindOk(pages, root, tree, X, r);
    SplitFrame(pages, root, tree, X, V, p, P, j, sp, q, r);
    if r != root {
      SplitOtherParent(pages, root, tree, X, V, p, P, j, sp, q, r);
    }
    if pages[r].Node? {
      SplitOtherNode(pages, root, tree, X, V, p, P, j, sp, q, r);
    } else {
      LeafCarry(pages[r], V[r], tree[r], tree, T);
    }
    SameSize(pages[r], V[r]);
    PageIs(V, root, T, X, r);
  }

  lemma {:induction false} SplitOtherKid(pages: Pages, root: nat, tree: Tree, X: set<nat>, V: Pages, p: nat, P: nat,
      j: nat, sp: nat, q: nat, r: nat, c: nat)
    requires SplitPre(pages, root, tree, X, p, P, j, sp, q) && SplitPost(pages, V, p, P, j, sp, q)
    requires r in tree && r != p && r != P && c in tree && pages[c].ppo == r
    ensures c != p && c != q && V[c].ppo == r
  {
    if c != P {
      SplitFrame(pages, root, tree, X, V, p, P, j, sp, q, c);
    }
  }

  // A split keeps the tree and everything stored in it; only its three pages may be out of bounds.
  lemma {:induction false} SplitKeeps(pages: Pages, root: nat, tree: Tree, X: set<nat>, V: Pages, p: nat, P: nat,
      j: nat, sp: nat, q: nat)
    requires SplitPre(pages, root, tree, X, p, P, j, sp, q) && SplitPost(pages, V, p, P, j, sp, q)
    ensures WF(V, root, SplitTree(tree, p, SplitKey(pages[p], sp), q), X + {p, q, P})
  {
    hide LeafOk, SizeOk, IsSplit, HasKid, KidOk, PageOk, ParentOk, NodeOk;
    var T := SplitTree(tree, p, SplitKey(pages[p], sp), q);
    if P != root { SplitFrame(pages, root, tree, X, V, p, P, j, sp, q, root); }
    var P', j' := AsKid(pages, root, tree, X, p);
    assert T[root] == tree[root] && V[root].ppo == 0;
    SplitLeft(pages, root, tree, X, V, p, P, j, sp, q);
    SplitRight(pages, root, tree, X, V, p, P, j, sp, q);
    SplitParent(pages, root, tree, X, V, p, P, j, sp, q);
    forall r | r in T ensures PageOk(V, root, T, X + {p, q, P}, r) {
      if r == p {
        MoreExempt(V, root, T, {p}, X + {p, q, P}, r);
      } else if r == q {
        MoreExempt(V, root, T, {q}, X + {p, q, P}, r);
      } else if r == P {
        MoreExempt(V, root, T, {P}, X + {p, q, P}, r);
      } else {
        SplitOther(pages, root, tree, X, V, p, P, j, sp, q, r);
        MoreExempt(V, root, T, X, X + {p, q, P}, r);
      }
    }
  }

  lemma {:induction false} SplitStores(pages: Pages, root: nat, tree: Tree, X: set<nat>, V: Pages, p: nat, P: nat,
      j: nat, sp: nat, q: nat)
    requires SplitPre(pages, root, tree, X, p, P, j, sp, q) && SplitPost(pages, V, p, P, j, sp, q)
    ensures Stored(V, SplitTree(tree, p, SplitKey(pages[p], sp), q)) == Stored(pages, tree)
  {
    hide LeafOk, NodeOk, PageOk, ParentOk, IsSplit, HasKid;
    var T := SplitTree(tree, p, SplitKey(pages[p], sp), q);
    SplitHalvesParent(pages, root, tree, X, V, p, P, j, sp, q);
    forall x | x in Stored(pages, tree) ensures x in Stored(V, T) {
      var r, i :| r in tree && pages[r].Leaf? && 0 <= i < |pages[r].recs| && pages[r].recs[i] == x;
      if r == p {
        assert if i < sp then V[p].recs[i] == x else V[q].recs[i - sp] == x;
      } else {
        SplitFrame(pages, root, tree, X, V, p, P, j, sp, q, r);
        assert V[r].recs[i] == x;
      }
    }
    forall x | x in Stored(V, T) ensures x in Stored(pages, tree) {
      var r, i :| r in T && V[r].Leaf? && 0 <= i < |V[r].recs| && V[r].recs[i] == x;
      if r == p {
        assert pages[p].recs[i] == x;
      } else if r == q {
        assert pages[p].recs[sp + i] == x;
      } else {
        SplitFrame(pages, root, tree, X, V, p, P, j, sp, q, r);
        assert pages[r].recs[i] == x;
      }
    }
  }
}
