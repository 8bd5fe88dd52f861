// Orders and cycles of a directed graph on the vertices 0 .. n - 1.
module TopOrder {
  import opened Basics

  type Edge = (nat, nat)

  ghost predicate Within(E: set<Edge>, n: nat) {
    forall e :: e in E ==> e.0 < n && e.1 < n
  }

  // Every vertex comes after all that have an edge to it.
  ghost predicate Ordered(E: set<Edge>, s: seq<nat>) {
    forall k, u :: 0 <= k < |s| && (u, s[k]) in E ==> u in s[..k]
  }

  // A permutation of the vertices in which every edge goes forward.
  ghost predicate Topological(E: set<Edge>, n: nat, s: seq<nat>) {
    && |s| == n && NoRepeats(s) && (forall v: nat :: v < n ==> v in s)
    && (forall i, j :: 0 <= i < n && 0 <= j < n && (s[i], s[j]) in E ==> i < j)
  }

  // A closed walk along edges.
  ghost predicate Cycle(E: set<Edge>, c: seq<nat>) {
    |c| > 0 && (forall k :: 0 <= k < |c| - 1 ==> (c[k], c[k + 1]) in E) && (c[|c| - 1], c[0]) in E
  }

  ghost predicate Cyclic(E: set<Edge>) {
    exists c :: Cycle(E, c)
  }

  // The vertices with an edge to w that are not done.
  ghost function Missing(E: set<Edge>, n: nat, w: nat, done: set<nat>): (r: set<nat>)
    ensures forall u: nat :: u in r <==> u < n && (u, w) in E && u !in done
  {
    set u: nat | u < n && (u, w) in E && u !in done
  }

  // No more distinct vertices than there are; as many, and all are there.
  lemma {:induction false} Fill(s: seq<nat>, n: nat)
    requires NoRepeats(s) && forall v :: v in s ==> v < n
    ensures |s| <= n && (|s| == n ==> forall v: nat :: v < n ==> v in s)
  {
    SetSize(s);
    SubsetCount(SetOf(s), Below(n));
  }

  // An order of all the vertices is topological.
  lemma {:induction false} OrderedAll(E: set<Edge>, n: nat, s: seq<nat>)
    requires Ordered(E, s) && NoRepeats(s) && |s| == n && forall v :: v in s ==> v < n
    ensures Topological(E, n, s)
  {
    Fill(s, n);
    forall i, j | 0 <= i < n && 0 <= j < n && (s[i], s[j]) in E ensures i < j {
      assert s[i] in s[..j];
    }
  }

  // A graph with such an order has no cycle.
  lemma {:induction false} NoCycle(E: set<Edge>, n: nat, s: seq<nat>, c: seq<nat>)
    requires Within(E, n) && Topological(E, n, s)
    ensures !Cycle(E, c)
  {
    if Cycle(E, c) {
      var i := Place(E, n, s, c, 0);
      var j := Place(E, n, s, c, |c| - 1);
      assert false;
    }
  }

  // Along a cycle places only grow.
  lemma {:induction false} Place(E: set<Edge>, n: nat, s: seq<nat>, c: seq<nat>, k: nat) returns (i: nat)
    requires Within(E, n) && Topological(E, n, s) && Cycle(E, c) && k < |c|
    ensures i < n && s[i] == c[k] && (forall j :: 0 <= j < n && s[j] == c[0] ==> j <= i)
  {
    if k == 0 {
      assert (c[|c| - 1], c[0]) in E;
      assert c[0] in s;
      i :| 0 <= i < n && s[i] == c[0];
    } else {
      var j := Place(E, n, s, c, k - 1);
      assert (c[k - 1], c[k]) in E;
      assert c[k] in s;
      i :| 0 <= i < n && s[i] == c[k];
      assert (s[j], s[i]) in E;
    }
  }

  ghost predicate Fed(E: set<Edge>, left: set<nat>, v: nat) {
    exists u: nat :: u in left && (u, v) in E
  }

  lemma {:induction false} Longer(E: set<Edge>, left: set<nat>, walk: seq<nat>, u: nat)
    requires walk != [] && NoRepeats(walk) && (forall v :: v in walk ==> v in left) && u in left && u !in walk &&
      (u, walk[0]) in E
    requires forall k :: 0 <= k < |walk| - 1 ==> (walk[k], walk[k + 1]) in E
    ensures NoRepeats([u] + walk) && (forall v :: v in [u] + walk ==> v in left)
    ensures forall k :: 0 <= k < |[u] + walk| - 1 ==> (([u] + walk)[k], ([u] + walk)[k + 1]) in E
  {
    var w := [u] + walk;
    assert forall k :: 0 < k < |w| ==> w[k] == walk[k - 1];
    forall k | 0 <= k < |w| - 1 ensures (w[k], w[k + 1]) in E {
      if k > 0 {
        assert (walk[k - 1], walk[k - 1 + 1]) in E;
      }
    }
  }

  // When every vertex left over has an edge from one left over, there is a cycle.
  lemma {:induction false} CycleFrom(E: set<Edge>, n: nat, left: set<nat>, walk: seq<nat>) returns (c: seq<nat>)
    requires left <= Below(n) && walk != [] && NoRepeats(walk) && (forall v :: v in walk ==> v in left)
    requires forall k :: 0 <= k < |walk| - 1 ==> (walk[k], walk[k + 1]) in E
    requires forall v: nat :: v in left ==> Fed(E, left, v)
    ensures Cycle(E, c)
    decreases n - |walk|
  {
    Fill(walk, n);
    assert walk[0] in walk;
    assert Fed(E, left, walk[0]);
    var u: nat :| u in left && (u, walk[0]) in E;
    if u in walk {
      var i :| 0 <= i < |walk| && walk[i] == u;
      c := walk[..i + 1];
    } else {
      Longer(E, left, walk, u);
      Fill([u] + walk, n);
      c := CycleFrom(E, n, left, [u] + walk);
    }
  }
}
