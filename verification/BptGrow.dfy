// How one split is carried to the parent: the pure steps behind insert_into_parent.
module BptGrow {
  import opened BptTree
  import opened BptMerge
  import opened BptStore

  // Pages in hand and pages of the tree may change freely; the free list does not notice.
  lemma {:induction false} FreeFrame(pages: Pages, pages': Pages, fpo: nat, free: seq<nat>, tree: Tree, extra: set<nat>,
      tree': Tree, extra': set<nat>)
    requires FreeOk(pages, fpo, free, tree, extra) && |pages'| == |pages|
    requires tree'.Keys + extra' == tree.Keys + extra && tree'.Keys !! extra'
    requires forall p :: 0 <= p < |pages| && p !in tree && p !in extra ==> pages'[p] == pages[p]
    ensures FreeOk(pages', fpo, free, tree', extra')
  {
    assert forall p :: p in tree' || p in extra' <==> p in tree || p in extra by {
      forall p ensures p in tree' || p in extra' <==> p in tree || p in extra {
        assert p in tree'.Keys + extra' <==> p in tree.Keys + extra;
      }
    }
  }

  // Growing the file leaves the tree as it is.
  lemma {:induction false} Longer(pages: Pages, pages': Pages, root: nat, tree: Tree, X: set<nat>)
    requires WF(pages, root, tree, X) && |pages| <= |pages'| && pages'[..|pages|] == pages
    ensures WF(pages', root, tree, X) && Stored(pages', tree) == Stored(pages, tree)
  {
    assert forall p :: 0 <= p < |pages| ==> pages'[p] == pages[p];
    forall p | p in tree ensures PageOk(pages', root, tree, X, p) {
      assert PageOk(pages, root, tree, X, p);
      if pages[p].Node? {
        forall i | 0 <= i <= |pages[p].ents| ensures KidOk(pages', tree, p, pages'[p], tree[p], i) {
          assert KidOk(pages, tree, p, pages[p], tree[p], i);
        }
      }
    }
    forall x ensures x in Stored(pages', tree) <==> x in Stored(pages, tree) {
      if x in Stored(pages, tree) {
        var r, i :| r in tree && pages[r].Leaf? && 0 <= i < |pages[r].recs| && pages[r].recs[i] == x;
        assert pages'[r].recs[i] == x;
      }
      if x in Stored(pages', tree) {
        var r, i :| r in tree && pages'[r].Leaf? && 0 <= i < |pages'[r].recs| && pages'[r].recs[i] == x;
        assert pages[r].recs[i] == x;
      }
    }
  }

  // The children that go to the right half are children of the page split.
  lemma {:induction false} RightKid(g: Pages, root: nat, tree: Tree, p: nat, sp: nat, r: nat)
    requires WF(g, root, tree, {p}) && p in tree && CanSplit(g[p], sp) && HasKid(RightPart(g[p], sp), r)
    ensures r in tree && r < |g| && g[r].ppo == p && tree[r].level < tree[p].level
  {
    assert PageOk(g, root, tree, {p}, p);
    SplitKids(g[p], sp, 0);
    var i :| 0 <= i < |g[p].ents| - sp && Kid(RightPart(g[p], sp), i) == r;
    assert KidOk(g, tree, p, g[p], tree[p], sp + 1 + i);
  }

  lemma {:induction false} LongerSplit(g: Pages, pages: Pages, g': Pages, pages': Pages, p: nat, sp: nat, q: nat,
      root: nat, tree: Tree)
    requires IsSplit(g, pages, p, sp, q) && |g| <= |g'| == |pages'|
    requires g'[..|g|] == g && pages'[..|pages|] == pages && g'[|g|..] == pages'[|g|..]
    requires WF(g, root, tree, {p}) && p in tree
    ensures IsSplit(g', pages', p, sp, q)
  {
    assert forall r :: 0 <= r < |g| ==> g'[r] == g[r] && pages'[r] == pages[r];
    assert forall r :: |g| <= r < |g'| ==> g'[r] == g'[|g|..][r - |g|] && pages'[r] == pages'[|g|..][r - |g|];
    forall r | |g| <= r < |g'| ensures !HasKid(RightPart(g[p], sp), r) {
      if HasKid(RightPart(g[p], sp), r) {
        RightKid(g, root, tree, p, sp, r);
      }
    }
  }

  // Page p of the well-formed store g has just been written as p and q; its parent does not know yet.
  ghost predicate Splitting(g: Pages, pages: Pages, root: nat, tree: Tree, p: nat, sp: nat, q: nat, fpo: nat,
      free: seq<nat>)
  {
    && root != 0 && WF(g, root, tree, {p}) && p in tree && IsSplit(g, pages, p, sp, q) && q !in tree
    && SizeOk(pages[p]) && SizeOk(pages[q]) && FreeOk(pages, fpo, free, tree, {q})
  }

  // The parent P has one entry more, and knows the page q that p has been split into.
  ghost predicate Told(pages0: Pages, tree0: Tree, pages: Pages, tree: Tree, p: nat, P: nat, key: int, q: nat)
    requires p in tree0
  {
    && |pages| == |pages0| && P < |pages| && pages[P].Node? && pages0[P].Node? && P != q
    && |pages[P].ents| == |pages0[P].ents| + 1 && tree == SplitTree(tree0, p, key, q)
    && forall x :: 0 <= x < |pages| && x != P && x != q ==> pages[x] == pages0[x]
  }

  lemma {:induction false} OneMoreEnt(n: Page, j: nat, e: Entry)
    requires n.Node? && j <= |n.ents|
    ensures InsertEnt(n, j, e).Node? && |InsertEnt(n, j, e).ents| == |n.ents| + 1
  {
  }

  lemma {:induction false} LeafOnly(pages0: Pages, tree: Tree, pages: Pages, p: nat, P: nat)
    requires p in tree && tree[p].level == 0 && |pages| == |pages0| && P in tree && P != p && P < |pages0| &&
      pages0[P].Node?
    requires forall x :: 0 <= x < |pages| && x != p ==> pages[x] == pages0[x]
    ensures Grew(pages0, tree, pages, tree, P)
  {
  }

  // When a leaf has been split and its parent told, no other page above the leaves is different.
  lemma {:induction false} ToldOnly(pages0: Pages, pages1: Pages, tree0: Tree, pages: Pages, tree: Tree, p: nat, P: nat,
      key: int, q: nat)
    requires p in tree0 && Told(pages1, tree0, pages, tree, p, P, key, q) && |pages0| <= |pages1| && q !in tree0
    requires forall x :: 0 <= x < |pages0| && x != p && x != q ==> pages1[x] == pages0[x]
    requires tree0[p].level == 0 && P in tree0 && P != p && P < |pages0| && pages0[P].Node?
    ensures Grew(pages0, tree0, pages, tree, P)
  {
  }

  // P is p's parent and p its child j.
  ghost predicate ParentHeld(g: Pages, pages: Pages, root: nat, tree: Tree, p: nat, P: nat, j: nat, q: nat) {
    && p in tree && p < |g| && P == g[p].ppo && P in tree && P != p && P != q && P < |g| == |pages| && pages[P] == g[P]
    && g[P].Node? && j <= |g[P].ents| && Kid(g[P], j) == p && HasKid(g[P], p) && SizeOk(g[P])
    && p != root && root in tree && tree[p].level < tree[P].level <= tree[root].level
  }

  lemma {:induction false} HeldParent(g: Pages, pages: Pages, root: nat, tree: Tree, p: nat, P: nat, j: nat, q: nat)
    requires ParentHeld(g, pages, root, tree, p, P, j, q)
    ensures p in tree && P in tree && root in tree && tree[p].level < tree[P].level <= tree[root].level
    ensures P < |g| == |pages| && pages[P] == g[P] && g[P].Node? && j <= |g[P].ents|
  {
  }

  // The parent's page is not touched by splitting a child.
  lemma {:induction false} SplitLeavesParent(g: Pages, pages: Pages, root: nat, tree: Tree, p: nat, sp: nat, q: nat,
      fpo: nat, free: seq<nat>)
    returns (P: nat, j: nat)
    requires Splitting(g, pages, root, tree, p, sp, q, fpo, free) && p != root
    ensures ParentHeld(g, pages, root, tree, p, P, j, q)
  {
    P, j := AsKid(g, root, tree, {p}, p);
    assert PageOk(g, root, tree, {p}, P) && PageOk(g, root, tree, {p}, p);
    if HasKid(RightPart(g[p], sp), P) {
      RightKid(g, root, tree, p, sp, P);
    }
  }

  // Telling the parent completes the split.
  lemma {:induction false} ParentTold(g: Pages, pages: Pages, V: Pages, root: nat, tree: Tree, p: nat, P: nat, j: nat,
      sp: nat, q: nat, fpo: nat, free: seq<nat>)
    requires Splitting(g, pages, root, tree, p, sp, q, fpo, free) && ParentHeld(g, pages, root, tree, p, P, j, q)
    requires V == pages[P := InsertEnt(g[P], j, Entry(SplitKey(g[p], sp), q))]
    ensures WF(V, root, SplitTree(tree, p, SplitKey(g[p], sp), q), {P})
    ensures Stored(V, SplitTree(tree, p, SplitKey(g[p], sp), q)) == Stored(g, tree)
    ensures FreeOk(V, fpo, free, SplitTree(tree, p, SplitKey(g[p], sp), q), {})
    ensures FreeOk(pages, fpo, free, SplitTree(tree, p, SplitKey(g[p], sp), q), {})
  {
    hide WF, Stored, SizeOk, FreeOk, HasKid;
    InHand(pages, fpo, free, tree, {q});
    assert V[P := g[P]] == pages;
    var T := SplitTree(tree, p, SplitKey(g[p], sp), q);
    SplitKeeps(g, root, tree, {p}, V, p, P, j, sp, q);
    SplitStores(g, root, tree, {p}, V, p, P, j, sp, q);
    Exempt(V, root, T, {p} + {p, q, P}, {P});
    FreeFrame(pages, V, fpo, free, tree, {q}, T, {});
    FreeFrame(pages, pages, fpo, free, tree, {q}, T, {});
  }

  // A parent with room for the new entry: the insertion is over.
  lemma {:induction false} ParentRoomy(g: Pages, pages: Pages, V: Pages, root: nat, tree: Tree, p: nat, P: nat, j: nat,
      sp: nat, q: nat, fpo: nat, free: seq<nat>)
    requires Splitting(g, pages, root, tree, p, sp, q, fpo, free) && ParentHeld(g, pages, root, tree, p, P, j, q)
    requires V == pages[P := InsertEnt(g[P], j, Entry(SplitKey(g[p], sp), q))] && |g[P].ents| < INTERNAL_MAX
    ensures
      var T := SplitTree(tree, p, SplitKey(g[p], sp), q);
      WF(V, root, T, {}) && Stored(V, T) == Stored(g, tree) && FreeOk(V, fpo, free, T, {})
  {
    ParentTold(g, pages, V, root, tree, p, P, j, sp, q, fpo, free);
    hide WF, Splitting, Stored, FreeOk;
    Exempt(V, root, SplitTree(tree, p, SplitKey(g[p], sp), q), {P}, {});
  }

  ghost predicate KidUpTo(n: Page, k: nat, c: nat) {
    n.Node? && exists i :: 0 <= i <= k && i <= |n.ents| && Kid(n, i) == c
  }

  ghost predicate KidsInFile(n: Page, size: nat) {
    n.Node? && forall i :: 0 <= i <= |n.ents| ==> Kid(n, i) < size
  }

  // Pages with the children of n told that Q is their parent, P and Q apart.
  ghost predicate Reparented(before: Pages, after: Pages, n: Page, P: nat, Q: nat) {
    |after| == |before| && forall r :: 0 <= r < |after| && r != P && r != Q ==>
      after[r] == if HasKid(n, r) then before[r].(ppo := Q) else before[r]
  }

  lemma {:induction false} RightKids(g: Pages, root: nat, tree: Tree, p: nat, sp: nat)
    requires WF(g, root, tree, {p}) && p in tree && g[p].Node? && CanSplit(g[p], sp)
    ensures KidsInFile(RightPart(g[p], sp), |g|)
    ensures forall r :: HasKid(RightPart(g[p], sp), r) ==> r in tree && r != p
  {
    forall i | 0 <= i < |g[p].ents| - sp ensures Kid(RightPart(g[p], sp), i) < |g| {
      assert HasKid(RightPart(g[p], sp), Kid(RightPart(g[p], sp), i));
      RightKid(g, root, tree, p, sp, Kid(RightPart(g[p], sp), i));
    }
    forall r | HasKid(RightPart(g[p], sp), r) ensures r in tree && r != p {
      RightKid(g, root, tree, p, sp, r);
    }
  }

  // The split root below a fresh root page.
  lemma {:induction false} NewRoot(g: Pages, pages0: Pages, pages1: Pages, V: Pages, p: nat, tree: Tree, sp: nat,
      q: nat, r: nat)
    requires WF(g, p, tree, {p}) && IsSplit(g, pages0, p, sp, q) && q !in tree && 0 < q
    requires |pages0| <= |pages1| && pages1[..|pages0|] == pages0 && r !in tree && r != q && 0 < r < |pages1|
    requires SizeOk(pages0[p]) && SizeOk(pages0[q])
    requires V == pages1[p := pages0[p].(ppo := r)][q := pages0[q].(ppo := r)][r :=
      Node(0, p, [Entry(SplitKey(g[p], sp), q)])]
    ensures WF(V, r, SplitTree(RootTree(tree, p, r), p, SplitKey(g[p], sp), q), {})
    ensures Stored(V, SplitTree(RootTree(tree, p, r), p, SplitKey(g[p], sp), q)) == Stored(g, tree)
  {
    var g1 := g + pages1[|g|..];
    LongerSplit(g, pages0, g1, pages1, p, sp, q, p, tree);
    Longer(g, g1, p, tree, {p});
    var h := g1[p := g1[p].(ppo := r)][r := Node(0, p, [])];
    var T0 := RootTree(tree, p, r);
    AddRoot(g1, p, tree, {p}, h, r);
    NewRootPost(g1, pages1, h, V, p, sp, q, r, tree);
    assert V[p] == pages1[p].(ppo := r) && V[q] == pages1[q].(ppo := r);
    NewRootSplit(g1, h, V, p, tree, sp, q, r);
  }

  lemma {:induction false} NewRootSplit(g: Pages, h: Pages, V: Pages, p: nat, tree: Tree, sp: nat, q: nat, r: nat)
    requires p in tree && p < |g| == |h| && q !in tree && 0 < q < |h| && r !in tree && r != q && r != p &&
      0 < r < |h| && CanSplit(g[p], sp)
    requires h == g[p := g[p].(ppo := r)][r := Node(0, p, [])]
    requires WF(h, r, RootTree(tree, p, r), {p} + {r}) && SplitPost(h, V, p, r, 0, sp, q)
    requires SizeOk(V[p]) && SizeOk(V[q]) && V[r] == Node(0, p, [Entry(SplitKey(g[p], sp), q)])
    ensures WF(V, r, SplitTree(RootTree(tree, p, r), p, SplitKey(g[p], sp), q), {})
    ensures Stored(V, SplitTree(RootTree(tree, p, r), p, SplitKey(g[p], sp), q)) == Stored(h, RootTree(tree, p, r))
  {
    hide WF, SplitPost, Stored;
    var T0 := RootTree(tree, p, r);
    assert Kid(h[r], 0) == p;
    SplitKeeps(h, r, T0, {p} + {r}, V, p, r, 0, sp, q);
    SplitStores(h, r, T0, {p} + {r}, V, p, r, 0, sp, q);
    Exempt(V, r, SplitTree(T0, p, SplitKey(g[p], sp), q), {p} + {r} + {p, q, r}, {});
  }

  lemma {:induction false} KidsKept(n: Page, n': Page, x: nat)
    requires n.Node? == n'.Node? && (n.Node? ==> n' == Node(n'.ppo, n.first, n.ents))
    ensures HasKid(n', x) <==> HasKid(n, x)
  {
    if HasKid(n, x) {
      var i :| 0 <= i <= |n.ents| && Kid(n, i) == x;
      assert Kid(n', i) == x;
    }
    if HasKid(n', x) {
      var i :| 0 <= i <= |n'.ents| && Kid(n', i) == x;
      assert Kid(n, i) == x;
    }
  }

  lemma {:induction false} NewRootPost(g: Pages, pages: Pages, h: Pages, V: Pages, p: nat, sp: nat, q: nat, r: nat,
      tree: Tree)
    requires WF(g, p, tree, {p}) && IsSplit(g, pages, p, sp, q) && r !in tree && r != p && r != q && r < |g|
    requires h == g[p := g[p].(ppo := r)][r := Node(0, p, [])]
    requires V == pages[p := pages[p].(ppo := r)][q := pages[q].(ppo := r)][r :=
      Node(0, p, [Entry(SplitKey(g[p], sp), q)])]
    ensures SplitPost(h, V, p, r, 0, sp, q)
  {
    InFile(g, p, tree, {p});
    hide HasKid, WF;
    var W := V[r := h[r]];
    forall x | 0 <= x < |h| && x != p && x != q
      ensures W[x] == if HasKid(RightPart(h[p], sp), x) then h[x].(ppo := q) else h[x]
    {
      assert RightPart(h[p], sp) == RightPart(g[p], sp).(ppo := r);
      KidsKept(RightPart(g[p], sp), RightPart(h[p], sp), x);
      if HasKid(RightPart(g[p], sp), x) {
        RightKid(g, p, tree, p, sp, x);
      }
    }
    assert IsSplit(h, W, p, sp, q);
    assert InsertEnt(h[r], 0, Entry(SplitKey(g[p], sp), q)) == V[r];
  }

  lemma {:induction false} NewRootWritten(g: Pages, pages0: Pages, pages1: Pages, V: Pages, p: nat, tree: Tree, sp: nat,
      q: nat, r: nat, fpo: nat, free: seq<nat>)
    requires p != 0 && p in tree && p < |g| && CanSplit(g[p], sp) && p < |pages0| && q < |pages0| &&
      WF(g, p, tree, {p}) && IsSplit(g, pages0, p, sp, q) && q !in tree && 0 < q
    requires |pages0| <= |pages1| && pages1[..|pages0|] == pages0 && r !in tree && r != q && 0 < r < |pages1|
    requires SizeOk(pages0[p]) && SizeOk(pages0[q])
    requires V == pages1[p := pages0[p].(ppo := r)][q := pages0[q].(ppo := r)][r :=
      Node(0, p, [Entry(SplitKey(g[p], sp), q)])]
    requires FreeOk(pages1, fpo, free, tree, {q} + {r})
    ensures p in RootTree(tree, p, r) && 0 < r
    ensures
      var T := SplitTree(RootTree(tree, p, r), p, SplitKey(g[p], sp), q);
      WF(V, r, T, {}) && Stored(V, T) == Stored(g, tree) && FreeOk(V, fpo, free, T, {})
  {
    hide FreeOk, WF, IsSplit, Stored, SizeOk, SplitKey, CanSplit, LeftPart, RightPart, HasKid;
    NewRoot(g, pages0, pages1, V, p, tree, sp, q, r);
    var T := SplitTree(RootTree(tree, p, r), p, SplitKey(g[p], sp), q);
    assert T.Keys == tree.Keys + ({q} + {r});
    FreeFrame(pages1, V, fpo, free, tree, {q} + {r}, T, {});
  }

  // A full parent with the new entry is a store with one page too big.
  lemma {:induction false} ParentFat(g: Pages, pages: Pages, root: nat, tree: Tree, p: nat, P: nat, j: nat, sp: nat,
      q: nat, fpo: nat, free: seq<nat>)
    requires Splitting(g, pages, root, tree, p, sp, q, fpo, free) && ParentHeld(g, pages, root, tree, p, P, j, q)
    requires |g[P].ents| == INTERNAL_MAX
    ensures
      var T := SplitTree(tree, p, SplitKey(g[p], sp), q);
      var fat := InsertEnt(g[P], j, Entry(SplitKey(g[p], sp), q));
      && P in T && T[P] == tree[P] && root in T && T[root].level == tree[root].level
      && WF(pages[P := fat], root, T, {P}) && Stored(pages[P := fat], T) == Stored(g, tree)
      && FreeOk(pages, fpo, free, T, {})
      && fat.Node? && |fat.ents| == 249 && CanSplit(fat, 124) && KidsInFile(RightPart(fat, 124), |pages|)
  {
    var T := SplitTree(tree, p, SplitKey(g[p], sp), q);
    var V := pages[P := InsertEnt(g[P], j, Entry(SplitKey(g[p], sp), q))];
    ParentTold(g, pages, V, root, tree, p, P, j, sp, q, fpo, free);
    assert q !in tree;
    hide WF, Splitting, Stored, FreeOk, SizeOk;
    assert CanSplit(V[P], 124) && V[P].Node?;
    RightKids(V, root, T, P, 124);
  }

  // The store after an internal page of 249 entries has been split and its right children reparented.
  lemma {:induction false} SplitWritten(V: Pages, pages1: Pages, pages: Pages, root: nat, tree: Tree, P: nat, Q: nat,
      fpo: nat, free: seq<nat>, pages0: Pages, fat: Page)
    requires P in tree && P < |pages0| && V == pages0[P := fat] && WF(V, root, tree, {P}) && fat.Node? &&
      CanSplit(fat, 124) && |fat.ents| == 249
    requires |pages0| <= |pages1| == |pages| && pages1[..|pages0|] == pages0 && Q !in tree && 0 < Q < |pages|
    requires FreeOk(pages1, fpo, free, tree, {Q})
    requires pages[P] == LeftPart(fat, 124, Q) && pages[Q] == RightPart(fat, 124)
    requires Reparented(pages1, pages, RightPart(fat, 124), P, Q)
    ensures WF(pages1[P := fat], root, tree, {P}) && Stored(pages1[P := fat], tree) == Stored(V, tree)
    ensures root != 0 ==> Splitting(pages1[P := fat], pages, root, tree, P, 124, Q, fpo, free)
  {
    hide FreeOk, WF, Stored, HasKid, Reparented;
    var V1 := pages1[P := fat];
    Longer(V, V1, root, tree, {P});
    RightKids(V1, root, tree, P, 124);
    ReparentedFrame(pages1, pages, RightPart(fat, 124), P, Q, tree);
    FreeFrame(pages1, pages, fpo, free, tree, {Q}, tree, {Q});
  }

  lemma {:induction false} ReparentedFrame(before: Pages, after: Pages, n: Page, P: nat, Q: nat, tree: Tree)
    requires Reparented(before, after, n, P, Q) && forall r :: HasKid(n, r) ==> r in tree
    ensures |after| == |before| && forall r :: 0 <= r < |after| && r != P && r != Q && r !in tree ==>
      after[r] == before[r]
    ensures forall r :: 0 <= r < |after| && r != P && r != Q ==>
      after[r] == if HasKid(n, r) then before[r].(ppo := Q) else before[r]
  {
  }

  // r goes in at position at of the leaf's records.
  ghost predicate FitsAt(recs: seq<Record>, at: nat, r: Record) {
    && at <= |recs|
    && (forall i :: 0 <= i < at ==> recs[i].key < r.key)
    && (forall i :: at <= i < |recs| ==> r.key < recs[i].key)
  }

  function InsertRec(recs: seq<Record>, at: nat, r: Record): seq<Record>
    requires at <= |recs|
  {
    recs[..at] + [r] + recs[at..]
  }

  // The first position whose key is not smaller is where a new key goes.
  lemma {:induction false} PointFits(recs: seq<Record>, at: nat, r: Record)
    requires SortedRecs(recs) && at <= |recs| && forall i :: 0 <= i < at ==> recs[i].key < r.key
    requires at < |recs| ==> recs[at].key >= r.key
    requires forall i :: 0 <= i < |recs| ==> recs[i].key != r.key
    ensures FitsAt(recs, at, r)
  {
  }

  // A key that is not stored is not in the leaf.
  lemma {:induction false} NewInLeaf(pages: Pages, root: nat, tree: Tree, X: set<nat>, p: nat, key: int)
    requires WF(pages, root, tree, X) && p in tree && p < |pages| && pages[p].Leaf? && p !in X
    requires forall v :: Record(key, v) !in Stored(pages, tree)
    ensures SortedRecs(pages[p].recs) && forall i :: 0 <= i < |pages[p].recs| ==> pages[p].recs[i].key != key
  {
    hide WF, SortedRecs;
    LeafFits(pages, root, tree, X, p);
    assert forall i :: 0 <= i < |pages[p].recs| ==>
      pages[p].recs[i] == Record(pages[p].recs[i].key, pages[p].recs[i].value);
  }

  // A leaf with room takes the record.
  lemma {:induction false} LeafRoomy(pages: Pages, root: nat, tree: Tree, p: nat, at: nat, r: Record, fpo: nat,
      free: seq<nat>)
    requires WF(pages, root, tree, {}) && p in tree && p < |pages| && pages[p].Leaf? && Within(tree[p], r.key)
    requires FitsAt(pages[p].recs, at, r) && |pages[p].recs| < LEAF_MAX && FreeOk(pages, fpo, free, tree, {})
    ensures
      var V := pages[p := pages[p].(recs := InsertRec(pages[p].recs, at, r))];
      WF(V, root, tree, {}) && Stored(V, tree) == Stored(pages, tree) + {r} && FreeOk(V, fpo, free, tree, {})
  {
    hide WF, FreeOk, Stored;
    var V := pages[p := pages[p].(recs := InsertRec(pages[p].recs, at, r))];
    LeafInsert(pages, root, tree, {}, p, at, r);
    Exempt(V, root, tree, {} + {p}, {});
    FreeFrame(pages, V, fpo, free, tree, {}, tree, {});
  }

  // A full leaf with one record more, dealt to itself and a fresh page.
  lemma {:induction false} LeafSplitting(pages0: Pages, pages1: Pages, root: nat, tree: Tree, p: nat, at: nat,
      r: Record, q: nat, fpo: nat, free: seq<nat>)
    requires root != 0 && WF(pages0, root, tree, {}) && p in tree && p < |pages0| && pages0[p].Leaf? &&
      Within(tree[p], r.key)
    requires FitsAt(pages0[p].recs, at, r) && |pages0[p].recs| == LEAF_MAX
    requires |pages0| <= |pages1| && pages1[..|pages0|] == pages0 && q !in tree && 0 < q < |pages1|
    requires FreeOk(pages1, fpo, free, tree, {q})
    ensures
      var n := pages0[p];
      var all := InsertRec(n.recs, at, r);
      var g := pages1[p := n.(recs := all)];
      var pages := pages1[p := Leaf(n.ppo, q, all[..16])][q := Leaf(n.ppo, n.next, all[16..])];
      Splitting(g, pages, root, tree, p, 16, q, fpo, free) && Stored(g, tree) == Stored(pages0, tree) + {r}
  {
    hide WF, FreeOk, Stored;
    var n := pages0[p];
    var all := InsertRec(n.recs, at, r);
    var g0 := pages0[p := n.(recs := all)];
    var g := pages1[p := n.(recs := all)];
    var pages := pages1[p := Leaf(n.ppo, q, all[..16])][q := Leaf(n.ppo, n.next, all[16..])];
    LeafInsert(pages0, root, tree, {}, p, at, r);
    assert {} + {p} == {p} && g[..|g0|] == g0;
    Longer(g0, g, root, tree, {p});
    FreeFrame(pages1, pages, fpo, free, tree, {q}, tree, {q});
  }

  // The first record makes a one-leaf tree.
  lemma {:induction false} NewTree(pages: Pages, q: nat, r: Record, fpo: nat, free: seq<nat>)
    requires FreeOk(pages, fpo, free, map[], {q}) && 0 < q < |pages|
    ensures
      var V, T := pages[q := Leaf(0, 0, [r])], map[q := Info(0, Inf, Inf)];
      WF(V, q, T, {}) && Stored(V, T) == {r} && FreeOk(V, fpo, free, T, {})
  {
    hide FreeOk;
    var V, T := pages[q := Leaf(0, 0, [r])], map[q := Info(0, Inf, Inf)];
    assert V[q].recs[0] == r;
    FreeFrame(pages, V, fpo, free, map[], {q}, T, {});
  }
}
