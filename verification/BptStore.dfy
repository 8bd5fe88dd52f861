// What the tree stores as a map, changing one leaf, and the list of free pages.
module BptStore {
  import opened Basics
  import opened BptTree

  lemma {:induction false} NothingStored(pages: Pages, tree: Tree)
    requires tree == map[]
    ensures Stored(pages, tree) == {}
  {
  }

  // Replacing one leaf's records by others that fit its interval.
  lemma {:induction false} SetLeaf(pages: Pages, root: nat, tree: Tree, X: set<nat>, p: nat, recs: seq<Record>)
    requires WF(pages, root, tree, X) && p in tree && pages[p].Leaf?
    requires SortedRecs(recs) && forall i :: 0 <= i < |recs| ==> Within(tree[p], recs[i].key)
    ensures WF(pages[p := pages[p].(recs := recs)], root, tree, X + {p})
  {
    var V := pages[p := pages[p].(recs := recs)];
    assert PageOk(pages, root, tree, X, p);
    forall r | r in tree ensures PageOk(V, root, tree, X + {p}, r) {
      assert PageOk(pages, root, tree, X, r);
      if pages[r].Node? {
        forall i | 0 <= i <= |pages[r].ents| ensures KidOk(V, tree, r, V[r], tree[r], i) {
          assert KidOk(pages, tree, r, pages[r], tree[r], i);
        }
      }
      if r != root {
        var P, i := AsKid(pages, root, tree, X, r);
        assert Kid(V[P], i) == r;
      }
    }
  }

  // A page within bounds, and the leaf's records are stored.
  lemma {:induction false} LeafFits(pages: Pages, root: nat, tree: Tree, X: set<nat>, p: nat)
    requires WF(pages, root, tree, X) && p in tree && p !in X
    ensures p < |pages| && SizeOk(pages[p]) && SortedPage(pages[p])
    ensures forall q :: q in tree ==> q < |pages|
    ensures pages[p].Leaf? ==> forall i :: 0 <= i < |pages[p].recs| ==> pages[p].recs[i] in Stored(pages, tree)
  {
    assert PageOk(pages, root, tree, X, p);
  }

  ghost predicate SortedPage(n: Page) {
    if n.Leaf? then SortedRecs(n.recs) else SortedEnts(n.ents)
  }

  // Above the leaves nothing is different but page P, which still has its place.
  ghost predicate OnlyParent(pages: Pages, tree: Tree, pages': Pages, tree': Tree, P: nat) {
    && P in tree && P < |pages| && P in tree' && P < |pages'| && tree'[P] == tree[P] && pages[P].Node? &&
       pages'[P].Node?
    && forall x :: x in tree && tree[x].level >= 1 && x != P && x < |pages| ==>
      x in tree' && x < |pages'| && tree'[x] == tree[x] && pages'[x] == pages[x]
  }

  // P is the page above the leaf for this key.
  ghost predicate OverLeaf(pages: Pages, tree: Tree, key: int, P: nat) {
    P in tree && P < |pages| && pages[P].Node? && tree[P].level == 1 && Within(tree[P], key)
  }

  ghost predicate RoomOver(pages: Pages, tree: Tree, key: int, P: nat) {
    OverLeaf(pages, tree, key, P) && |pages[P].ents| < INTERNAL_MAX
  }

  ghost predicate SpareOver(pages: Pages, tree: Tree, key: int, P: nat) {
    OverLeaf(pages, tree, key, P) && |pages[P].ents| >= 2
  }

  ghost predicate Grew(pages: Pages, tree: Tree, pages': Pages, tree': Tree, P: nat) {
    OnlyParent(pages, tree, pages', tree', P) && |pages[P].ents| <= |pages'[P].ents| <= |pages[P].ents| + 1
  }

  ghost predicate Shrank(pages: Pages, tree: Tree, pages': Pages, tree': Tree, P: nat) {
    OnlyParent(pages, tree, pages', tree', P) && |pages'[P].ents| <= |pages[P].ents| <= |pages'[P].ents| + 1
  }

  // It is that leaf's parent.
  lemma {:induction false} ParentOver(pages: Pages, root: nat, tree: Tree, p: nat, key: int, P: nat)
    requires WF(pages, root, tree, {}) && p in tree && p < |pages| && pages[p].Leaf? && Within(tree[p], key)
    requires OverLeaf(pages, tree, key, P)
    ensures p != root && pages[p].ppo == P && P != 0 && tree[p].level == 0 && p != P
  {
    hide NodeOk, ParentOk, KidInfo, KidOk, Within;
    LevelIn(pages, root, tree, p);
    LevelIn(pages, root, tree, P);
    var P0, i := AsKid(pages, root, tree, {}, p);
    hide WF;
    PlaceOver(pages, root, tree, p, P0, i, key);
    OnePlace(pages, root, tree, {}, P0, P, key);
  }

  lemma {:induction false} RoomIs(pages: Pages, root: nat, tree: Tree, p: nat, key: int, P: nat)
    requires WF(pages, root, tree, {}) && p in tree && p < |pages| && pages[p].Leaf? && Within(tree[p], key)
    requires RoomOver(pages, tree, key, P)
    ensures p != root && pages[p].ppo == P && P != 0 && tree[p].level == 0 && p != P
    ensures P in tree && P < |pages| && pages[P].Node? && |pages[P].ents| < INTERNAL_MAX
  {
    hide WF, Within;
    ParentOver(pages, root, tree, p, key, P);
  }

  lemma {:induction false} NoneOver(pages: Pages, tree: Tree, key: int)
    requires tree == map[]
    ensures forall P :: !RoomOver(pages, tree, key, P)
  {
  }

  lemma {:induction false} LevelIn(pages: Pages, root: nat, tree: Tree, p: nat)
    requires WF(pages, root, tree, {}) && p in tree
    ensures p < |pages| && root in tree && p != 0 && (p == root || tree[p].level < tree[root].level)
    ensures pages[p].Leaf? <==> tree[p].level == 0
  {
    assert PageOk(pages, root, tree, {}, p);
  }

  lemma {:induction false} PlaceOver(pages: Pages, root: nat, tree: Tree, p: nat, P: nat, i: nat, key: int)
    requires p in tree && Within(tree[p], key) && P in tree && P < |pages| && pages[P].Node? && i <= |pages[P].ents|
    requires tree[P].level > 0 && tree[p] == KidInfo(pages[P], tree[P], i) && NodeOk(pages, tree, P, pages[P], tree[P])
    ensures tree[P].level == tree[p].level + 1 && Within(tree[P], key)
  {
    hide NodeOk;
    KidWithin(pages, tree, P, i, key);
  }

  // A stored record is in the one leaf whose interval covers its key.
  lemma {:induction false} StoredWhere(pages: Pages, root: nat, tree: Tree, X: set<nat>, p: nat, x: Record)
    returns (i: nat)
    requires WF(pages, root, tree, X) && p in tree && pages[p].Leaf? && Within(tree[p], x.key) &&
      x in Stored(pages, tree)
    ensures i < |pages[p].recs| && pages[p].recs[i] == x
  {
    hide SortedRecs, Within, NodeOk, ParentOk, KidInfo;
    var r, k := HomeOf(pages, root, tree, X, x);
    assert PageOk(pages, root, tree, X, p);
    hide WF, PageOk, Stored;
    OnePlace(pages, root, tree, X, p, r, x.key);
    i := k;
  }

  // The leaf that holds a stored record.
  lemma {:induction false} HomeOf(pages: Pages, root: nat, tree: Tree, X: set<nat>, x: Record) returns (r: nat, k: nat)
    requires WF(pages, root, tree, X) && x in Stored(pages, tree)
    ensures r in tree && r < |pages| && pages[r].Leaf? && tree[r].level == 0 && SortedRecs(pages[r].recs)
    ensures k < |pages[r].recs| && pages[r].recs[k] == x && Within(tree[r], x.key)
  {
    hide SortedRecs, Within, NodeOk, ParentOk;
    r, k :| r in tree && pages[r].Leaf? && 0 <= k < |pages[r].recs| && pages[r].recs[k] == x;
    assert PageOk(pages, root, tree, X, r);
  }

  lemma {:induction false} SameRec(recs: seq<Record>, k: nat, l: nat)
    requires SortedRecs(recs) && k < |recs| && l < |recs| && recs[k].key == recs[l].key
    ensures k == l
  {
  }

  lemma {:induction false} StoredNowhere(pages: Pages, root: nat, tree: Tree, X: set<nat>, p: nat, key: int)
    requires WF(pages, root, tree, X) && p in tree && pages[p].Leaf? && Within(tree[p], key)
    requires forall i :: 0 <= i < |pages[p].recs| ==> pages[p].recs[i].key != key
    ensures forall v :: Record(key, v) !in Stored(pages, tree)
  {
    forall v ensures Record(key, v) !in Stored(pages, tree) {
      if Record(key, v) in Stored(pages, tree) {
        var i := StoredWhere(pages, root, tree, X, p, Record(key, v));
      }
    }
  }

  ghost function RecSet(recs: seq<Record>): set<Record> {
    set r | r in recs
  }

  // What is stored is what one leaf holds and what the others hold.
  lemma {:induction false} StoredSplit(pages: Pages, tree: Tree, p: nat)
    requires (forall r :: r in tree ==> r < |pages|) && p in tree && pages[p].Leaf?
    ensures Stored(pages, tree) == Stored(pages, tree - {p}) + RecSet(pages[p].recs)
  {
    forall x | x in Stored(pages, tree - {p}) + RecSet(pages[p].recs) ensures x in Stored(pages, tree) {
      if x in RecSet(pages[p].recs) {
        var i :| 0 <= i < |pages[p].recs| && pages[p].recs[i] == x;
      }
    }
  }

  lemma {:induction false} StoredElsewhere(pages: Pages, tree: Tree, p: nat, n: Page)
    requires (forall r :: r in tree ==> r < |pages|) && p < |pages|
    ensures Stored(pages[p := n], tree - {p}) == Stored(pages, tree - {p})
  {
    var V, T := pages[p := n], tree - {p};
    assert forall r :: r in T ==> V[r] == pages[r];
    forall x | x in Stored(pages, T) ensures x in Stored(V, T) {
      var r, i :| r in T && pages[r].Leaf? && 0 <= i < |pages[r].recs| && pages[r].recs[i] == x;
      assert V[r].recs[i] == x;
    }
    forall x | x in Stored(V, T) ensures x in Stored(pages, T) {
      var r, i :| r in T && V[r].Leaf? && 0 <= i < |V[r].recs| && V[r].recs[i] == x;
      assert pages[r].recs[i] == x;
    }
  }

  lemma {:induction false} RecSetAdd(recs: seq<Record>, at: nat, r: Record)
    requires at <= |recs|
    ensures RecSet(recs[..at] + [r] + recs[at..]) == RecSet(recs) + {r}
  {
    assert recs == recs[..at] + recs[at..];
  }

  lemma {:induction false} RecSetDrop(recs: seq<Record>, at: nat)
    requires at < |recs| && SortedRecs(recs)
    ensures RecSet(recs[..at] + recs[at + 1..]) == RecSet(recs) - {recs[at]}
  {
    assert recs == recs[..at] + [recs[at]] + recs[at + 1..];
    assert recs[at] !in recs[..at] && recs[at] !in recs[at + 1..];
  }

  lemma {:induction false} SortedDrop(recs: seq<Record>, at: nat)
    requires at < |recs| && SortedRecs(recs)
    ensures SortedRecs(recs[..at] + recs[at + 1..])
  {
  }

  lemma {:induction false} SortedAdd(recs: seq<Record>, at: nat, r: Record)
    requires at <= |recs| && SortedRecs(recs)
    requires forall i :: 0 <= i < at ==> recs[i].key < r.key
    requires forall i :: at <= i < |recs| ==> r.key < recs[i].key
    ensures SortedRecs(recs[..at] + [r] + recs[at..])
  {
  }

  // Adding one record to a leaf, in key order, adds exactly it to what is stored.
  lemma {:induction false} LeafInsert(pages: Pages, root: nat, tree: Tree, X: set<nat>, p: nat, at: nat, r: Record)
    requires WF(pages, root, tree, X) && p in tree && pages[p].Leaf? && Within(tree[p], r.key) && at <= |pages[p].recs|
    requires forall i :: 0 <= i < at ==> pages[p].recs[i].key < r.key
    requires forall i :: at <= i < |pages[p].recs| ==> r.key < pages[p].recs[i].key
    ensures
      var recs := pages[p].recs[..at] + [r] + pages[p].recs[at..];
      var V := pages[p := pages[p].(recs := recs)];
      WF(V, root, tree, X + {p}) && Stored(V, tree) == Stored(pages, tree) + {r}
  {
    var before := pages[p].recs;
    var recs := before[..at] + [r] + before[at..];
    var n := pages[p].(recs := recs);
    assert PageOk(pages, root, tree, X, p);
    SortedAdd(before, at, r);
    hide SortedRecs;
    SetLeaf(pages, root, tree, X, p, recs);
    StoredSplit(pages, tree, p);
    StoredSplit(pages[p := n], tree, p);
    StoredElsewhere(pages, tree, p, n);
    RecSetAdd(before, at, r);
    hide *;
  }

  // Dropping one record from a leaf drops exactly it from what is stored.
  lemma {:induction false} LeafDelete(pages: Pages, root: nat, tree: Tree, X: set<nat>, p: nat, at: nat)
    requires WF(pages, root, tree, X) && p in tree && pages[p].Leaf? && at < |pages[p].recs|
    ensures
      var recs := pages[p].recs[..at] + pages[p].recs[at + 1..];
      var V := pages[p := pages[p].(recs := recs)];
      WF(V, root, tree, X + {p}) && Stored(V, tree) == Stored(pages, tree) - {pages[p].recs[at]}
  {
    var before, r := pages[p].recs, pages[p].recs[at];
    var recs := before[..at] + before[at + 1..];
    var n := pages[p].(recs := recs);
    assert PageOk(pages, root, tree, X, p);
    SortedDrop(before, at);
    SetLeaf(pages, root, tree, X, p, recs);
    StoredSplit(pages, tree, p);
    StoredSplit(pages[p := n], tree, p);
    StoredElsewhere(pages, tree, p, n);
    OnlyHere(pages, root, tree, X, p, at);
    RecSetDrop(before, at);
    hide *;
  }

  lemma {:induction false} OnlyHere(pages: Pages, root: nat, tree: Tree, X: set<nat>, p: nat, at: nat)
    requires WF(pages, root, tree, X) && p in tree && pages[p].Leaf? && at < |pages[p].recs|
    ensures pages[p].recs[at] !in Stored(pages, tree - {p})
  {
    var x := pages[p].recs[at];
    assert PageOk(pages, root, tree, X, p);
    if x in Stored(pages, tree - {p}) {
      var q, i :| q in tree - {p} && pages[q].Leaf? && 0 <= i < |pages[q].recs| && pages[q].recs[i] == x;
      assert PageOk(pages, root, tree, X, q);
      OnePlace(pages, root, tree, X, p, q, x.key);
    }
  }

  // No key is stored twice, so what is stored is a map.
  ghost predicate Functional(s: set<Record>) {
    forall x, y :: x in s && y in s && x.key == y.key ==> x == y
  }

  ghost function AsMap(s: set<Record>): (m: map<int, Value>)
    requires Functional(s)
    ensures forall k, v :: k in m && m[k] == v <==> Record(k, v) in s
  {
    map x | x in s :: x.key := x.value
  }

  lemma {:induction false} StoredFunctional(pages: Pages, root: nat, tree: Tree, X: set<nat>)
    requires WF(pages, root, tree, X)
    ensures Functional(Stored(pages, tree))
  {
    hide PageOk, Stored, SortedRecs, Within;
    forall x, y | x in Stored(pages, tree) && y in Stored(pages, tree) && x.key == y.key ensures x == y {
      var r, k := HomeOf(pages, root, tree, X, x);
      var l := StoredWhere(pages, root, tree, X, r, y);
      SameRec(pages[r].recs, k, l);
    }
  }

  // Adding a record whose key is new is a map update; dropping one is a removal.
  lemma {:induction false} AddIsUpdate(s: set<Record>, r: Record)
    requires Functional(s) && forall v :: Record(r.key, v) !in s
    ensures Functional(s + {r}) && AsMap(s + {r}) == AsMap(s)[r.key := r.value]
  {
    assert forall x :: x in s ==> x == Record(x.key, x.value);
    var m, m' := AsMap(s)[r.key := r.value], AsMap(s + {r});
    forall k ensures k in m <==> k in m' {
      if k in m' { assert Record(k, m'[k]) in s + {r}; }
      if k in m && k != r.key { assert Record(k, m[k]) in s; }
      assert Record(r.key, r.value) in s + {r};
    }
    forall k | k in m && k in m' ensures m[k] == m'[k] {
      assert Record(k, m'[k]) in s + {r};
    }
  }

  lemma {:induction false} DropIsRemoval(s: set<Record>, r: Record)
    requires Functional(s) && r in s
    ensures Functional(s - {r}) && AsMap(s - {r}) == AsMap(s) - {r.key}
  {
    var m, m' := AsMap(s) - {r.key}, AsMap(s - {r});
    assert Record(r.key, r.value) == r;
    forall k ensures k in m <==> k in m' {
      if k in m' { assert Record(k, m'[k]) in s - {r}; }
      if k in m { assert Record(k, m[k]) in s; }
    }
  }

  // The page a list of free pages goes on with, 0 at its end.
  function HeadOf(free: seq<nat>, i: nat): nat {
    if i < |free| then free[i] else 0
  }

  lemma {:induction false} HeadPushed(free: seq<nat>, p: nat)
    ensures HeadOf([p] + free, 0) == p && forall i :: 0 <= i <= |free| ==> HeadOf([p] + free, i + 1) == HeadOf(free, i)
  {
  }

  lemma {:induction false} HeadTaken(free: seq<nat>)
    requires free != []
    ensures forall i :: 0 <= i < |free| ==> HeadOf(free[1..], i) == HeadOf(free, i + 1)
    ensures forall i :: 0 <= i < |free| - 1 ==> free[1..][i] == free[i + 1]
    ensures forall p :: p in free <==> p == free[0] || p in free[1..]
  {
    assert free == [free[0]] + free[1..];
  }

  lemma {:induction false} HeadIs(free: seq<nat>)
    requires HeadOf(free, 0) != 0
    ensures free != [] && free[0] == HeadOf(free, 0)
  {
  }

  // The list of free pages, threaded through ppo from the header; extra are pages in hand, taken from
  // the list and not yet in the tree or the other way round.
  ghost predicate FreeOk(pages: Pages, fpo: nat, free: seq<nat>, tree: Tree, extra: set<nat>) {
    && |pages| > 0
    && (forall p :: p in tree || p in extra ==> 0 < p < |pages|) && (forall p :: p in extra ==> p !in tree)
    && (forall i :: 0 <= i < |free| ==> 0 < free[i] < |pages| && free[i] !in tree && free[i] !in extra)
    && (forall i, j :: 0 <= i < j < |free| ==> free[i] != free[j])
    && fpo == HeadOf(free, 0)
    && (forall i :: 0 <= i < |free| ==> pages[free[i]].ppo == HeadOf(free, i + 1))
    && (forall p :: 0 < p < |pages| ==> p in tree || p in extra || p in free)
  }

  lemma {:induction false} FreeHead(pages: Pages, fpo: nat, free: seq<nat>, tree: Tree, extra: set<nat>)
    requires FreeOk(pages, fpo, free, tree, extra)
    ensures fpo == 0 <==> free == []
    ensures fpo != 0 ==> free[0] == fpo
  {
  }

  // The four moves of the free list: a page at the end of the file, a page taken, a page given back.
  lemma {:induction false} FreeGrown(pages: Pages, fpo: nat, free: seq<nat>, tree: Tree, extra: set<nat>, n: Page)
    requires FreeOk(pages, fpo, free, tree, extra)
    ensures FreeOk(pages + [n], fpo, free, tree, extra + {|pages|})
    ensures |pages| !in tree && |pages| !in extra && |pages| > 0
  {
    hide HeadOf;
    assert forall p :: 0 <= p < |pages| ==> (pages + [n])[p] == pages[p];
  }

  lemma {:induction false} FreeTaken(pages: Pages, fpo: nat, free: seq<nat>, tree: Tree, extra: set<nat>)
    requires FreeOk(pages, fpo, free, tree, extra) && fpo != 0
    ensures fpo < |pages| && fpo !in tree && fpo !in extra && free != []
    ensures FreeOk(pages, pages[fpo].ppo, free[1..], tree, extra + {fpo})
  {
    hide HeadOf;
    HeadIs(free);
    HeadTaken(free);
  }

  lemma {:induction false} FreeNone(pages: Pages)
    requires |pages| == 1
    ensures FreeOk(pages, 0, [], map[], {})
  {
  }

  // open_db writes a page that points at the previous head and makes it the head.
  lemma {:induction false} FreeNew(pages: Pages, fpo: nat, free: seq<nat>, tree: Tree)
    requires FreeOk(pages, fpo, free, tree, {})
    ensures FreeOk(pages + [Node(fpo, 0, [])], |pages|, [|pages|] + free, tree, {})
  {
    hide FreeOk;
    var n := Node(fpo, 0, []);
    FreeGrown(pages, fpo, free, tree, {}, n);
    FreeGiven(pages + [n], fpo, free, tree, {} + {|pages|}, |pages|, n);
    assert (pages + [n])[|pages| := n] == pages + [n] && {} + {|pages|} - {|pages|} == {};
  }

  lemma {:induction false} FreeGiven(pages: Pages, fpo: nat, free: seq<nat>, tree: Tree, extra: set<nat>, p: nat,
      n: Page)
    requires FreeOk(pages, fpo, free, tree, extra) && p in extra && p < |pages| && n.ppo == fpo
    ensures FreeOk(pages[p := n], p, [p] + free, tree, extra - {p})
  {
    hide HeadOf;
    var V, l := pages[p := n], [p] + free;
    assert forall i :: 0 < i < |l| ==> l[i] == free[i - 1];
    HeadPushed(free, p);
    assert forall x :: x in l <==> x == p || x in free;
  }

  lemma {:induction false} InHand(pages: Pages, fpo: nat, free: seq<nat>, tree: Tree, extra: set<nat>)
    requires FreeOk(pages, fpo, free, tree, extra)
    ensures forall p :: p in tree || p in extra ==> 0 < p < |pages|
    ensures tree.Keys !! extra
  {
  }

  // Header, tree pages and free pages are all the pages there are.
  lemma {:induction false} PagesConserved(pages: Pages, fpo: nat, free: seq<nat>, tree: Tree)
    requires FreeOk(pages, fpo, free, tree, {})
    ensures 1 + |tree| + |free| == |pages|
  {
    hide FreeOk, SetOf, Below;
    var all, t, f := Below(|pages|), tree.Keys, SetOf(free);
    FreeParts(pages, fpo, free, tree);
    assert all == {0} + (t + f);
    DisjointCount(t, f);
    DisjointCount({0}, t + f);
  }

  lemma {:induction false} FreeParts(pages: Pages, fpo: nat, free: seq<nat>, tree: Tree)
    requires FreeOk(pages, fpo, free, tree, {})
    ensures 0 !in tree && 0 !in SetOf(free) && tree.Keys !! SetOf(free)
    ensures forall p :: 0 <= p < |pages| <==> p == 0 || p in tree || p in SetOf(free)
    ensures |SetOf(free)| == |free|
  {
    hide HeadOf;
    SetSize(free);
  }
}
