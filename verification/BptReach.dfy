// A run of inserts and deletes on a new file that ends with a page written past its end.
module BptReach {
  import opened Basics
  import opened BptTree
  import opened BptStore
  import opened BptShrink
  import opened Bpt

  // How many records there can be below a page above the leaves.
  const UNDER_MAX := LEAF_MAX * (INTERNAL_MAX + 1)

  ghost function Under(pages: Pages, tree: Tree, P: nat): set<Record>
    requires P in tree && forall p :: p in tree ==> p < |pages|
  {
    set x | x in Stored(pages, tree) && Within(tree[P], x.key)
  }

  ghost function Held(n: Page): (r: set<Record>)
    ensures forall x :: x in r <==> n.Leaf? && x in n.recs
  {
    if n.Leaf? then RecSet(n.recs) else {}
  }

  lemma {:induction false} RecSetSize(recs: seq<Record>)
    ensures |RecSet(recs)| <= |recs|
  {
    if recs != [] {
      var n := |recs| - 1;
      RecSetSize(recs[..n]);
      assert RecSet(recs) == RecSet(recs[..n]) + {recs[n]};
    }
  }

  // The records of the first k children.
  ghost function UpTo(pages: Pages, n: Page, k: nat): set<Record>
    requires n.Node? && k <= |n.ents| + 1 && forall i :: 0 <= i <= |n.ents| ==> Kid(n, i) < |pages|
  {
    if k == 0 then {} else UpTo(pages, n, k - 1) + Held(pages[Kid(n, k - 1)])
  }

  lemma {:induction false} UpToHas(pages: Pages, n: Page, k: nat, i: nat, x: Record)
    requires n.Node? && k <= |n.ents| + 1 && forall i :: 0 <= i <= |n.ents| ==> Kid(n, i) < |pages|
    requires i < k && x in Held(pages[Kid(n, i)])
    ensures x in UpTo(pages, n, k)
  {
    if i < k - 1 {
      UpToHas(pages, n, k - 1, i, x);
    }
  }

  lemma {:induction false} UpToFew(pages: Pages, n: Page, k: nat)
    requires n.Node? && k <= |n.ents| + 1 && forall i :: 0 <= i <= |n.ents| ==> Kid(n, i) < |pages|
    requires forall i :: 0 <= i <= |n.ents| ==> pages[Kid(n, i)].Leaf? ==> |pages[Kid(n, i)].recs| <= LEAF_MAX
    ensures |UpTo(pages, n, k)| <= LEAF_MAX * k
  {
    if k > 0 {
      UpToFew(pages, n, k - 1);
      var c := pages[Kid(n, k - 1)];
      assert |Held(c)| <= LEAF_MAX by {
        if c.Leaf? { RecSetSize(c.recs); }
      }
      UnionFew(UpTo(pages, n, k - 1), Held(c));
    }
  }

  lemma {:induction false} UnionFew<T>(a: set<T>, b: set<T>)
    ensures |a + b| <= |a| + |b|
  {
    assert a + b == a + (b - a);
    DisjointCount(a, b - a);
    SubsetCount(b - a, b);
  }

  lemma {:induction false} KidsIn(pages: Pages, root: nat, tree: Tree, P: nat)
    requires WF(pages, root, tree, {}) && P in tree && P < |pages| && pages[P].Node?
    ensures forall i :: 0 <= i <= |pages[P].ents| ==> Kid(pages[P], i) < |pages|
    ensures forall i :: 0 <= i <= |pages[P].ents| ==> pages[Kid(pages[P], i)].Leaf? ==>
      |pages[Kid(pages[P], i)].recs| <= LEAF_MAX
  {
    forall i | 0 <= i <= |pages[P].ents| ensures Kid(pages[P], i) < |pages| &&
      (pages[Kid(pages[P], i)].Leaf? ==> |pages[Kid(pages[P], i)].recs| <= LEAF_MAX) {
      KidIs(pages, root, tree, {}, P, i);
      KindOk(pages, root, tree, {}, Kid(pages[P], i));
    }
  }

  // A record below P is in one of its leaves.
  lemma {:induction false} UnderIn(pages: Pages, root: nat, tree: Tree, P: nat, x: Record) returns (i: nat)
    requires WF(pages, root, tree, {}) && P in tree && P < |pages| && pages[P].Node? && tree[P].level == 1
    requires x in Stored(pages, tree) && Within(tree[P], x.key)
    ensures i <= |pages[P].ents| && Kid(pages[P], i) < |pages| && x in Held(pages[Kid(pages[P], i)])
  {
    hide WF, Stored, Within, SortedRecs, NodeOk, KidInfo;
    var h, k := HomeOf(pages, root, tree, {}, x);
    ParentOver(pages, root, tree, h, x.key, P);
    var P0;
    P0, i := AsKid(pages, root, tree, {}, h);
  }

  lemma {:induction false} UnderFew(pages: Pages, root: nat, tree: Tree, P: nat)
    requires WF(pages, root, tree, {}) && P in tree && P < |pages| && pages[P].Node? && tree[P].level == 1
    ensures forall p :: p in tree ==> p < |pages|
    ensures |Under(pages, tree, P)| <= LEAF_MAX * (|pages[P].ents| + 1) && |pages[P].ents| <= INTERNAL_MAX
    ensures |Under(pages, tree, P)| <= UNDER_MAX
  {
    hide WF, Stored, Within, UpTo, Held;
    LeafFits(pages, root, tree, {}, P);
    KidsIn(pages, root, tree, P);
    var n := |pages[P].ents| + 1;
    forall x | x in Under(pages, tree, P) ensures x in UpTo(pages, pages[P], n) {
      var i := UnderIn(pages, root, tree, P, x);
      UpToHas(pages, pages[P], n, i, x);
    }
    SubsetCount(Under(pages, tree, P), UpTo(pages, pages[P], n));
    UpToFew(pages, pages[P], n);
  }

  // More records than one page above the leaves can have below it make the tree higher.
  lemma {:induction false} High(pages: Pages, root: nat, tree: Tree)
    requires WF(pages, root, tree, {})
    ensures root in tree && forall p :: p in tree ==> p < |pages|
    ensures |Stored(pages, tree)| > UNDER_MAX ==> tree[root].level >= 2
  {
    InFile(pages, root, tree, {});
    LevelIn(pages, root, tree, root);
    if tree[root].level == 0 {
      OnlyLeaf(pages, root, tree);
    } else if tree[root].level == 1 {
      hide Stored, PageOk;
      UnderFew(pages, root, tree, root);
      assert Under(pages, tree, root) == Stored(pages, tree);
    }
  }

  lemma {:induction false} OnlyLeaf(pages: Pages, root: nat, tree: Tree)
    requires WF(pages, root, tree, {}) && root in tree && tree[root].level == 0
    ensures root < |pages| && (forall p :: p in tree ==> p < |pages|) && |Stored(pages, tree)| <= LEAF_MAX
  {
    LevelIn(pages, root, tree, root);
    KindOk(pages, root, tree, {}, root);
    forall x | x in Stored(pages, tree) ensures x in Held(pages[root]) {
      var h, k := HomeOf(pages, root, tree, {}, x);
      LevelIn(pages, root, tree, h);
    }
    hide WF, Stored;
    SubsetCount(Stored(pages, tree), Held(pages[root]));
    RecSetSize(pages[root].recs);
  }

  lemma {:induction false} MapFew(s: set<Record>)
    requires Functional(s)
    ensures |AsMap(s)| <= |s|
  {
    hide Functional;
    KeysFew(s);
    assert AsMap(s).Keys == set x | x in s :: x.key by { MapKeys(s); }
  }

  lemma {:induction false} MapKeys(s: set<Record>)
    requires Functional(s)
    ensures AsMap(s).Keys == set x | x in s :: x.key
  {
    var m := AsMap(s);
    forall k ensures k in m <==> k in (set x | x in s :: x.key) {
      if k in m { assert Record(k, m[k]) in s; }
      if k in (set x | x in s :: x.key) {
        var x :| x in s && x.key == k;
        assert x == Record(k, x.value);
      }
    }
  }

  lemma {:induction false} KeysFew(s: set<Record>)
    ensures |set x | x in s :: x.key| <= |s|
  {
    if s == {} {
      assert (set x | x in s :: x.key) == {};
    } else {
      var y :| y in s;
      KeysFew(s - {y});
      assert (set x | x in s :: x.key) == (set x | x in s - {y} :: x.key) + {y.key};
    }
  }

  // Page Q's first two children: L, the leftmost page above the leaves, and its neighbour A.
  ghost predicate Site(pages: Pages, tree: Tree, Q: nat, L: nat, A: nat) {
    && Q in tree && Q < |pages| && pages[Q].Node? && pages[Q].ents != [] && tree[Q].level == 2
    && Kid(pages[Q], 0) == L && Kid(pages[Q], 1) == A && L != A && Q != L && Q != A
    && L in tree && L < |pages| && pages[L].Node? && tree[L].level == 1 && tree[L].lo == Inf
    && A in tree && A < |pages| && pages[A].Node? && tree[A].level == 1
  }

  // An insertion or a deletion that stays below L, or below A, leaves the site in place.
  lemma {:induction false} SiteKept(pages: Pages, tree: Tree, pages': Pages, tree': Tree, Q: nat, L: nat, A: nat,
      X: nat)
    requires Site(pages, tree, Q, L, A) && OnlyParent(pages, tree, pages', tree', X) && (X == L || X == A)
    ensures Site(pages', tree', Q, L, A) && tree'[L] == tree[L] && tree'[A] == tree[A]
    ensures X == L ==> pages'[A] == pages[A]
    ensures X == A ==> pages'[L] == pages[L]
  {
  }

  lemma {:induction false} SiteIs(pages: Pages, root: nat, tree: Tree, q: nat)
    requires WF(pages, root, tree, {}) && q in tree && q < |pages| && pages[q].Node? && tree[q].level == 2 &&
      tree[q].lo == Inf
    ensures pages[q].ents != [] && Site(pages, tree, q, Kid(pages[q], 0), Kid(pages[q], 1))
  {
    hide WF, NodeOk, Within;
    LeafFits(pages, root, tree, {}, q);
    KidIs(pages, root, tree, {}, q, 0);
    KidIs(pages, root, tree, {}, q, 1);
    KidsDistinct(pages, tree, q, pages[q], tree[q], 0, 1);
    LevelIn(pages, root, tree, Kid(pages[q], 0));
    LevelIn(pages, root, tree, Kid(pages[q], 1));
  }

  // The first child of a leftmost page.
  lemma {:induction false} FirstKid(pages: Pages, root: nat, tree: Tree, q: nat)
    requires WF(pages, root, tree, {}) && q in tree && q < |pages| && pages[q].Node?
    ensures
      var c := pages[q].first;
      && c in tree && c < |pages| && tree[c].level + 1 == tree[q].level && tree[c].lo == tree[q].lo
      && (pages[c].Leaf? <==> tree[c].level == 0)
  {
    hide WF, NodeOk;
    KidIs(pages, root, tree, {}, q, 0);
    LevelIn(pages, root, tree, pages[q].first);
  }

  // The page two levels above the first leaf, and its first two children.
  method FindSite(db: Db) returns (Q: nat, L: nat, A: nat)
    requires db.Valid() && db.rpo != 0 && db.rpo in db.tree && db.tree[db.rpo].level >= 2
    ensures Site(db.pages, db.tree, Q, L, A)
  {
    hide WF, FreeOk, Site;
    ghost var root, tree := db.rpo, db.tree;
    RootSpans(db.pages, db.rpo, db.tree, 0);
    RootLow(db.pages, db.rpo, db.tree);
    Q := db.rpo;
    FirstKid(db.pages, root, tree, Q);
    L := db.pages[Q].first;
    FirstKid(db.pages, root, tree, L);
    while db.pages[db.pages[L].first].Node?
      invariant Q in tree && Q < |db.pages| && db.pages[Q].Node? && tree[Q].lo == Inf && tree[Q].level >= 2
      invariant L == db.pages[Q].first && L in tree && L < |db.pages| && db.pages[L].Node?
      invariant tree[L].level + 1 == tree[Q].level
      invariant
        var c := db.pages[L].first;
        && c in tree && c < |db.pages| && tree[c].level + 1 == tree[L].level
        && (db.pages[c].Leaf? <==> tree[c].level == 0)
      decreases tree[Q].level
    {
      FirstKid(db.pages, root, tree, Q);
      Q := L;
      L := db.pages[Q].first;
      FirstKid(db.pages, root, tree, L);
    }
    SiteIs(db.pages, root, tree, Q);
    A := db.pages[Q].ents[0].po;
  }

  lemma {:induction false} RootLow(pages: Pages, root: nat, tree: Tree)
    requires WF(pages, root, tree, {})
    ensures root in tree && root < |pages| && tree[root].lo == Inf && (pages[root].Leaf? <==> tree[root].level == 0)
  {
    LevelIn(pages, root, tree, root);
  }

  // There is a record below every page above the leaves: the first of the first leaf.
  lemma {:induction false} FirstRecord(pages: Pages, root: nat, tree: Tree, P: nat)
    requires WF(pages, root, tree, {}) && P in tree && P < |pages| && pages[P].Node? && tree[P].level == 1
    ensures (forall p :: p in tree ==> p < |pages|) && pages[P].first < |pages| && pages[P].first in tree
    ensures
      var n := pages[pages[P].first];
      && n.Leaf? && n.recs != [] && n.recs[0] in Stored(pages, tree) && Within(tree[P], n.recs[0].key)
      && Within(tree[pages[P].first], n.recs[0].key)
  {
    hide WF, NodeOk, Within, KidInfo;
    FirstKid(pages, root, tree, P);
    var c := pages[P].first;
    LeafFits(pages, root, tree, {}, c);
    KidIs(pages, root, tree, {}, P, 0);
    FirstWithin(pages, root, tree, c);
    KidWithin(pages, tree, P, 0, pages[c].recs[0].key);
  }

  lemma {:induction false} FirstWithin(pages: Pages, root: nat, tree: Tree, c: nat)
    requires WF(pages, root, tree, {}) && c in tree && c < |pages| && pages[c].Leaf? && pages[c].recs != []
    ensures Within(tree[c], pages[c].recs[0].key)
  {
    KindOk(pages, root, tree, {}, c);
  }

  lemma {:induction false} InMap(db: Db, x: Record)
    requires db.Valid() && x in db.Contents()
    ensures x.key in db.Map()
  {
    hide WF, FreeOk, Stored;
    assert x == Record(x.key, x.value);
  }

  // More inserts than one page above the leaves can have below it, every key below the ones before.
  method Many() returns (db: Db, k: int)
    ensures fresh(db) && db.Valid() && |db.Map()| > UNDER_MAX && forall x :: x in db.Map() ==> x > k
  {
    hide WF, FreeOk, Stored, Functional, RoomOver, Grew;
    db := new Db();
    k := 0;
    while k >= -UNDER_MAX
      invariant fresh(db) && db.Valid() && -UNDER_MAX - 1 <= k <= 0 && |db.Map()| == -k
      invariant forall x :: x in db.Map() ==> x > k
    {
      var r := db.Insert(k, "");
      k := k - 1;
    }
  }

  lemma {:induction false} ManyHigh(db: Db)
    requires db.Valid() && |db.Map()| > UNDER_MAX
    ensures db.rpo != 0 && db.rpo in db.tree && db.tree[db.rpo].level >= 2
  {
    hide WF, FreeOk, Stored, Functional;
    InHand(db.pages, db.fpo, db.free, db.tree, {});
    FunctionalIn(db);
    MapFew(db.Contents());
    if db.rpo == 0 {
      NothingStored(db.pages, db.tree);
    } else {
      High(db.pages, db.rpo, db.tree);
    }
  }

  lemma {:induction false} FunctionalIn(db: Db)
    requires db.Valid()
    ensures Functional(db.Contents()) && db.Map() == AsMap(db.Contents())
  {
    hide WF, FreeOk, Stored;
    InHand(db.pages, db.fpo, db.free, db.tree, {});
    if db.rpo != 0 {
      StoredFunctional(db.pages, db.rpo, db.tree, {});
    } else {
      NothingStored(db.pages, db.tree);
    }
  }

  // What is stored follows from the map.
  lemma {:induction false} StoredMore(s: set<Record>, s': set<Record>, k: int, v: Value)
    requires Functional(s) && Functional(s') && k !in AsMap(s) && AsMap(s') == AsMap(s)[k := v]
    ensures s' == s + {Record(k, v)} && Record(k, v) !in s
  {
    hide Functional;
    var m, m' := AsMap(s), AsMap(s');
    assert m'[k] == v;
    forall x ensures x in s' <==> x in s + {Record(k, v)} {
      assert x == Record(x.key, x.value);
      if x in s { assert x.key in m && m'[x.key] == m[x.key] == x.value; }
      if x in s' { assert x.key in m' && m'[x.key] == x.value; }
    }
  }

  lemma {:induction false} UnderMore(pages: Pages, tree: Tree, pages': Pages, tree': Tree, L: nat, x: Record)
    requires L in tree && L in tree' && tree'[L] == tree[L] && Within(tree[L], x.key)
    requires (forall p :: p in tree ==> p < |pages|) && forall p :: p in tree' ==> p < |pages'|
    requires Stored(pages', tree') == Stored(pages, tree) + {x} && x !in Stored(pages, tree)
    ensures |Under(pages', tree', L)| == |Under(pages, tree, L)| + 1
  {
    hide Stored;
    assert Under(pages', tree', L) == Under(pages, tree, L) + {x};
  }

  // An insertion below L that has room there, as far as the site and what is below L go.
  lemma {:induction false} Filled(db: Db, pages: Pages, root: nat, tree: Tree, m: map<int, Value>, Q: nat, L: nat,
      A: nat, k: int)
    requires db.Valid() && Site(pages, tree, Q, L, A) && Within(tree[L], k)
    requires forall p :: p in tree ==> p < |pages|
    requires Functional(Stored(pages, tree)) && m == AsMap(Stored(pages, tree))
    requires k !in m && db.Map() == m[k := ""] && Grew(pages, tree, db.pages, db.tree, L)
    ensures Site(db.pages, db.tree, Q, L, A) && db.tree[L] == tree[L]
    ensures (forall p :: p in db.tree ==> p < |db.pages|)
    ensures |Under(db.pages, db.tree, L)| == |Under(pages, tree, L)| + 1
  {
    hide WF, FreeOk, Stored, Functional, Within, Under, OnlyParent;
    InHand(db.pages, db.fpo, db.free, db.tree, {});
    SiteKept(pages, tree, db.pages, db.tree, Q, L, A, L);
    FunctionalIn(db);
    StoredMore(Stored(pages, tree), db.Contents(), k, "");
    UnderMore(pages, tree, db.pages, db.tree, L, Record(k, ""));
  }

  lemma {:induction false} RoomAt(pages: Pages, root: nat, tree: Tree, Q: nat, L: nat, A: nat, k: int)
    requires WF(pages, root, tree, {}) && Site(pages, tree, Q, L, A) && Within(tree[L], k)
    requires |pages[L].ents| < INTERNAL_MAX
    ensures RoomOver(pages, tree, k, L) && forall p :: p in tree ==> p < |pages|
    ensures |Under(pages, tree, L)| <= UNDER_MAX
  {
    hide WF, Under, Within;
    UnderFew(pages, root, tree, L);
  }

  lemma {:induction false} Lower(tree: Tree, Q: nat, L: nat, A: nat, pages: Pages, k: int, k': int)
    requires Site(pages, tree, Q, L, A) && Within(tree[L], k) && k' <= k
    ensures Within(tree[L], k')
  {
  }

  // A key below all others goes below L.
  lemma {:induction false} Lowest(db: Db, Q: nat, L: nat, A: nat, k: int)
    requires db.Valid() && db.rpo != 0 && Site(db.pages, db.tree, Q, L, A) && forall x :: x in db.Map() ==> x > k
    ensures Within(db.tree[L], k)
  {
    hide WF, FreeOk, Stored, Within;
    FirstRecord(db.pages, db.rpo, db.tree, L);
    InMap(db, db.pages[db.pages[L].first].recs[0]);
    Lower(db.tree, Q, L, A, db.pages, db.pages[db.pages[L].first].recs[0].key, k);
  }

  // Ever lower keys go below L, until L is full.
  method Fill(db: Db, k0: int, Q: nat, L: nat, A: nat)
    requires db.Valid() && db.rpo != 0 && Site(db.pages, db.tree, Q, L, A) && forall x :: x in db.Map() ==> x > k0
    modifies db
    ensures db.Valid() && db.rpo != 0 && Site(db.pages, db.tree, Q, L, A)
    ensures |db.pages[L].ents| == INTERNAL_MAX
  {
    hide WF, FreeOk, Stored, Functional, Grew, Under, Within, RoomOver;
    var k := k0;
    Lowest(db, Q, L, A, k);
    InHand(db.pages, db.fpo, db.free, db.tree, {});
    while |db.pages[L].ents| < INTERNAL_MAX
      invariant db.Valid() && db.rpo != 0 && Site(db.pages, db.tree, Q, L, A)
      invariant forall p :: p in db.tree ==> p < |db.pages|
      invariant Within(db.tree[L], k) && forall x :: x in db.Map() ==> x > k
      decreases UNDER_MAX - |Under(db.pages, db.tree, L)|
    {
      ghost var pages, rpo, tree, m := db.pages, db.rpo, db.tree, db.Map();
      RoomAt(pages, rpo, tree, Q, L, A, k);
      FunctionalIn(db);
      var r := db.Insert(k, "");
      Filled(db, pages, rpo, tree, m, Q, L, A, k);
      Lower(tree, Q, L, A, pages, k, k - 1);
      k := k - 1;
    }
    LeafFits(db.pages, db.rpo, db.tree, {}, L);
  }

  // The first record below A, and what deleting it does not touch.
  lemma {:induction false} FirstBelow(db: Db, Q: nat, L: nat, A: nat)
    requires db.Valid() && db.rpo != 0 && Site(db.pages, db.tree, Q, L, A)
    ensures db.pages[A].first in db.tree && db.pages[A].first < |db.pages|
    ensures
      var n := db.pages[db.pages[A].first];
      n.Leaf? && n.recs != [] && n.recs[0].key in db.Map() && Within(db.tree[A], n.recs[0].key) &&
      Within(db.tree[db.pages[A].first], n.recs[0].key)
    ensures db.pages[A].ents != []
  {
    hide WF, FreeOk, Stored, Within;
    FirstRecord(db.pages, db.rpo, db.tree, A);
    InMap(db, db.pages[db.pages[A].first].recs[0]);
    LeafFits(db.pages, db.rpo, db.tree, {}, A);
  }

  // The lowest keys below A are deleted until A has two children left.
  method Thin(db: Db, Q: nat, L: nat, A: nat)
    requires db.Valid() && db.rpo != 0 && Site(db.pages, db.tree, Q, L, A) && |db.pages[L].ents| == INTERNAL_MAX
    modifies db
    ensures db.Valid() && db.rpo != 0 && Site(db.pages, db.tree, Q, L, A)
    ensures |db.pages[L].ents| == INTERNAL_MAX && |db.pages[A].ents| == 1
  {
    hide WF, FreeOk, Stored, OnlyParent, Within;
    FirstBelow(db, Q, L, A);
    while |db.pages[A].ents| >= 2
      invariant db.Valid() && db.rpo != 0 && Site(db.pages, db.tree, Q, L, A)
      invariant |db.pages[L].ents| == INTERNAL_MAX && db.pages[A].ents != []
      decreases db.Map().Keys
    {
      FirstBelow(db, Q, L, A);
      var key := db.pages[db.pages[A].first].recs[0].key;
      ghost var pages, tree := db.pages, db.tree;
      assert SpareOver(pages, tree, key, A);
      var r, overflow := db.Delete(key);
      SiteKept(pages, tree, db.pages, db.tree, Q, L, A, A);
      FirstBelow(db, Q, L, A);
    }
  }

  // One record too many for the pages: A has one entry, the first leaf below it one record, and A's
  // neighbour L is full.
  lemma {:induction false} Stuck(db: Db, Q: nat, L: nat, A: nat)
    requires db.Valid() && db.rpo != 0 && Site(db.pages, db.tree, Q, L, A)
    requires |db.pages[L].ents| == INTERNAL_MAX && |db.pages[A].ents| == 1
    requires db.pages[A].first < |db.pages| && db.pages[db.pages[A].first].Leaf?
    requires |db.pages[db.pages[A].first].recs| == 1
    ensures db.pages[db.pages[A].first].recs[0].key in db.Map()
    ensures !db.Fits(db.pages[db.pages[A].first].recs[0].key)
  {
    hide WF, FreeOk, Stored, Within, MergeFits, Site;
    FirstBelow(db, Q, L, A);
    NoWay(db.pages, db.rpo, db.tree, Q, L, A);
  }

  lemma {:induction false} NoWay(pages: Pages, root: nat, tree: Tree, Q: nat, L: nat, A: nat)
    requires WF(pages, root, tree, {}) && Site(pages, tree, Q, L, A)
    requires |pages[L].ents| == INTERNAL_MAX && |pages[A].ents| == 1
    requires pages[A].first in tree && pages[A].first < |pages| && pages[pages[A].first].Leaf?
    requires |pages[pages[A].first].recs| == 1
    ensures !MergeFits(pages, root, tree, {}, pages[A].first)
  {
    hide WF, MergeFits, Room, NodeOk, HasKid;
    var p := pages[A].first;
    KidIs(pages, root, tree, {}, A, 0);
    LevelIn(pages, root, tree, A);
    LevelIn(pages, root, tree, Q);
    NoRoom(pages, root, tree, Q, L, A);
    FitsUnfold(pages, root, tree, {}, p);
    FitsUnfold(pages, root, tree, {}, A);
  }

  lemma {:induction false} NoRoom(pages: Pages, root: nat, tree: Tree, Q: nat, L: nat, A: nat)
    requires WF(pages, root, tree, {}) && Site(pages, tree, Q, L, A) && A != root
    requires |pages[L].ents| == INTERNAL_MAX
    ensures !Room(pages, root, tree, {}, A)
  {
    hide WF, NodeOk;
    MergeReady(pages, root, tree, {}, A);
    KidIs(pages, root, tree, {}, Q, 1);
    KidsDistinct(pages, tree, Q, pages[Q], tree[Q], Place(pages[Q], A), 1);
  }

  // The first leaf below A is brought down to its last record.
  method Empty(db: Db, Q: nat, L: nat, A: nat)
    requires db.Valid() && db.rpo != 0 && Site(db.pages, db.tree, Q, L, A)
    requires |db.pages[L].ents| == INTERNAL_MAX && |db.pages[A].ents| == 1
    modifies db
    ensures db.Valid() && db.rpo != 0 && Site(db.pages, db.tree, Q, L, A)
    ensures |db.pages[L].ents| == INTERNAL_MAX && |db.pages[A].ents| == 1
    ensures db.pages[A].first < |db.pages| && db.pages[db.pages[A].first].Leaf?
    ensures |db.pages[db.pages[A].first].recs| == 1
  {
    hide WF, FreeOk, Stored, Within;
    FirstBelow(db, Q, L, A);
    var p := db.pages[A].first;
    while |db.pages[p].recs| >= 2
      invariant db.Valid() && db.rpo != 0 && Site(db.pages, db.tree, Q, L, A)
      invariant |db.pages[L].ents| == INTERNAL_MAX && |db.pages[A].ents| == 1
      invariant p == db.pages[A].first && p < |db.pages| && db.pages[p].Leaf? && db.pages[p].recs != []
      decreases |db.pages[p].recs|
    {
      FirstBelow(db, Q, L, A);
      var key := db.pages[p].recs[0].key;
      ghost var pages, tree := db.pages, db.tree;
      assert SpareLeaf(pages, tree, key, p);
      var r, overflow := db.Delete(key);
    }
  }

  // Inserts and deletes on a new file that end in the overflow.
  method ReachOverflow() returns (r: int, overflow: bool)
    ensures r == 0 && overflow
  {
    hide WF, FreeOk, Stored, Functional;
    var db, k := Many();
    ManyHigh(db);
    var Q, L, A := FindSite(db);
    Fill(db, k, Q, L, A);
    Thin(db, Q, L, A);
    Empty(db, Q, L, A);
    Stuck(db, Q, L, A);
    r, overflow := db.Delete(db.pages[db.pages[A].first].recs[0].key);
  }
}
