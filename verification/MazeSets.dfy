// Union-find without path compression, as an array of parents.
module MazeSets {
  import opened Basics

  // An array of parents: x has a parent when p[x] > 0, and is a root otherwise. root and depth say where
  // following parents from a cell ends, and after how many steps.
  ghost predicate Forest(p: seq<int>, root: seq<nat>, depth: seq<nat>) {
    && |root| == |depth| == |p|
    && forall x :: 0 <= x < |p| ==> CellOk(p, root, depth, x)
  }

  ghost predicate CellOk(p: seq<int>, root: seq<nat>, depth: seq<nat>, x: nat)
    requires x < |p| == |root| == |depth|
  {
    && p[x] < |p| && root[x] < |p| && p[root[x]] <= 0
    && (if p[x] > 0 then root[x] == root[p[x]] && depth[x] == depth[p[x]] + 1 else root[x] == x && depth[x] == 0)
  }

  ghost function Tree(root: seq<nat>, r: nat): (t: set<nat>)
    ensures forall x: nat :: x in t <==> x < |root| && root[x] == r
  {
    set x: nat | 0 <= x < |root| && root[x] == r
  }

  // A root holds minus the height of its tree, and a tree of height h has 2^h cells or more.
  ghost predicate Ranked(p: seq<int>, root: seq<nat>, depth: seq<nat>)
    requires |root| == |depth| == |p|
  {
    && (forall x :: 0 <= x < |p| && root[x] < |p| ==> depth[x] <= -p[root[x]])
    && (forall r :: 0 <= r < |p| && p[r] <= 0 ==> RankOk(root, depth, r, -p[r]))
  }

  ghost predicate RankOk(root: seq<nat>, depth: seq<nat>, r: nat, h: nat)
    requires |root| == |depth|
  {
    Tall(root, depth, r, h) && Pow2(h) <= |Tree(root, r)|
  }

  ghost predicate Tall(root: seq<nat>, depth: seq<nat>, r: nat, h: nat)
    requires |root| == |depth|
  {
    exists x :: 0 <= x < |root| && root[x] == r && depth[x] == h
  }

  // Root a becomes a child of root b.
  ghost function Moved(root: seq<nat>, a: nat, b: nat): (r: seq<nat>)
    ensures |r| == |root| && forall x :: 0 <= x < |r| ==> r[x] == if root[x] == a then b else root[x]
  {
    seq(|root|, x requires 0 <= x < |root| => if root[x] == a then b else root[x])
  }

  ghost function Deeper(root: seq<nat>, depth: seq<nat>, a: nat): (r: seq<nat>)
    requires |root| == |depth|
    ensures |r| == |root| && forall x :: 0 <= x < |r| ==> r[x] == if root[x] == a then depth[x] + 1 else depth[x]
  {
    seq(|root|, x requires 0 <= x < |root| => if root[x] == a then depth[x] + 1 else depth[x])
  }

  // Union, on two roots: the array afterwards.
  function Linked(p: seq<int>, a: nat, b: nat): (r: seq<int>)
    requires a < |p| && b < |p| && a != b
    ensures |r| == |p|
  {
    if p[a] < p[b] then p[b := a] else if p[a] == p[b] then p[b := p[b] - 1][a := b] else p[a := b]
  }

  // The root that loses its place, and the one that keeps it.
  function Loser(p: seq<int>, a: nat, b: nat): nat
    requires a < |p| && b < |p|
  {
    if p[a] < p[b] then b else a
  }

  function Winner(p: seq<int>, a: nat, b: nat): nat
    requires a < |p| && b < |p|
  {
    if p[a] < p[b] then a else b
  }

  lemma {:induction false} LinkForest(p: seq<int>, root: seq<nat>, depth: seq<nat>, a: nat, b: nat)
    requires Forest(p, root, depth) && a < |p| && b < |p| && a != b && p[a] <= 0 && p[b] <= 0 && Winner(p, a, b) != 0
    ensures Forest(Linked(p, a, b), Moved(root, Loser(p, a, b), Winner(p, a, b)), Deeper(root, depth, Loser(p, a, b)))
  {
    hide CellOk;
    var p', l, w := Linked(p, a, b), Loser(p, a, b), Winner(p, a, b);
    forall x | 0 <= x < |p| ensures CellOk(p', Moved(root, l, w), Deeper(root, depth, l), x) {
      LinkCell(p, root, depth, a, b, x);
    }
  }

  lemma {:induction false} LinkCell(p: seq<int>, root: seq<nat>, depth: seq<nat>, a: nat, b: nat, x: nat)
    requires Forest(p, root, depth) && a < |p| && b < |p| && a != b && p[a] <= 0 && p[b] <= 0 && Winner(p, a, b) != 0 &&
      x < |p|
    ensures CellOk(Linked(p, a, b), Moved(root, Loser(p, a, b), Winner(p, a, b)), Deeper(root, depth, Loser(p, a, b)),
      x)
  {
    assert CellOk(p, root, depth, x) && CellOk(p, root, depth, a) && CellOk(p, root, depth, b);
    if p[x] > 0 {
      assert CellOk(p, root, depth, p[x]);
    }
  }

  lemma {:induction false} TreeJoined(root: seq<nat>, a: nat, b: nat)
    requires a != b
    ensures Tree(Moved(root, a, b), b) == Tree(root, a) + Tree(root, b)
    ensures |Tree(Moved(root, a, b), b)| == |Tree(root, a)| + |Tree(root, b)|
    ensures forall r :: r != a && r != b ==> Tree(Moved(root, a, b), r) == Tree(root, r)
  {
    assert Tree(root, a) !! Tree(root, b);
    forall r | r != a && r != b ensures Tree(Moved(root, a, b), r) == Tree(root, r) {
    }
  }

  lemma {:induction false} LinkRanked(p: seq<int>, root: seq<nat>, depth: seq<nat>, a: nat, b: nat)
    requires Forest(p, root, depth) && Ranked(p, root, depth)
    requires a < |p| && b < |p| && a != b && p[a] <= 0 && p[b] <= 0 && Winner(p, a, b) != 0
    ensures Ranked(Linked(p, a, b), Moved(root, Loser(p, a, b), Winner(p, a, b)), Deeper(root, depth, Loser(p, a, b)))
  {
    hide CellOk, RankOk;
    var p', l, w := Linked(p, a, b), Loser(p, a, b), Winner(p, a, b);
    var root', depth' := Moved(root, l, w), Deeper(root, depth, l);
    forall x | 0 <= x < |p'| && root'[x] < |p'| ensures depth'[x] <= -p'[root'[x]] {
      RootIs(p, root, depth, x);
    }
    assert RankOk(root, depth, l, -p[l]) && RankOk(root, depth, w, -p[w]);
    forall r | 0 <= r < |p'| && p'[r] <= 0 ensures RankOk(root', depth', r, -p'[r]) {
      if r == w {
        LinkTall(root, depth, l, w, -p[l], -p[w]);
      } else {
        OtherTall(root, depth, l, w, r, -p[r]);
      }
    }
  }

  lemma {:induction false} RootIs(p: seq<int>, root: seq<nat>, depth: seq<nat>, x: nat)
    requires Forest(p, root, depth) && x < |p|
    ensures root[x] < |p| && p[root[x]] <= 0
  {
    assert CellOk(p, root, depth, x);
  }

  // The tree of height m that a tree of height k <= m has been hung under.
  lemma {:induction false} LinkTall(root: seq<nat>, depth: seq<nat>, l: nat, w: nat, k: nat, m: nat)
    requires |root| == |depth| && l != w && k <= m && RankOk(root, depth, l, k) && RankOk(root, depth, w, m)
    ensures RankOk(Moved(root, l, w), Deeper(root, depth, l), w, if k == m then m + 1 else m)
  {
    var root', depth' := Moved(root, l, w), Deeper(root, depth, l);
    TreeJoined(root, l, w);
    if k == m {
      var x :| 0 <= x < |root| && root[x] == l && depth[x] == k;
      assert root'[x] == w && depth'[x] == m + 1;
    } else {
      var x :| 0 <= x < |root| && root[x] == w && depth[x] == m;
      assert root'[x] == w && depth'[x] == m;
    }
  }

  lemma {:induction false} OtherTall(root: seq<nat>, depth: seq<nat>, l: nat, w: nat, r: nat, h: nat)
    requires |root| == |depth| && l != w && r != l && r != w && RankOk(root, depth, r, h)
    ensures RankOk(Moved(root, l, w), Deeper(root, depth, l), r, h)
  {
    TreeJoined(root, l, w);
    var x :| 0 <= x < |root| && root[x] == r && depth[x] == h;
    assert Moved(root, l, w)[x] == r && Deeper(root, depth, l)[x] == h;
  }

  // With 0 for the parent, the array still reads as if nothing had been joined: a parent of 0 is a root's 0.
  lemma {:induction false} ZeroParentLost(p: seq<int>, root: seq<nat>, depth: seq<nat>, a: nat, b: nat)
    requires Forest(p, root, depth) && a < |p| && b < |p| && a != b && p[a] <= 0 && p[b] <= 0 && Winner(p, a, b) == 0
    ensures Forest(Linked(p, a, b), root, depth)
  {
    var p' := Linked(p, a, b);
    forall x | 0 <= x < |p| ensures CellOk(p', root, depth, x) {
      assert CellOk(p, root, depth, x) && CellOk(p, root, depth, a) && CellOk(p, root, depth, b);
    }
  }
}
