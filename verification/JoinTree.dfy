// Predicates that form a tree over their tables, and why join can always go on with one of them.
module JoinTree {
  import opened Basics
  import opened JoinTables

  ghost function TablesOf(ops: seq<Pred>): set<nat> {
    (set i | 0 <= i < |ops| :: ops[i].left.table) + (set i | 0 <= i < |ops| :: ops[i].right.table)
  }

  // p has exactly one of its two tables in U.
  predicate Crosses(p: Pred, U: set<nat>) {
    p.left.table in U <==> p.right.table !in U
  }

  // Connected: every set of tables short of all is left by some predicate; and each predicate adds
  // exactly one table.
  ghost predicate Tree(ops: seq<Pred>) {
    && |ops| > 0 && |TablesOf(ops)| == |ops| + 1
    && forall U: set<nat> :: U < TablesOf(ops) && U != {} ==> Left(ops, U)
  }

  // Same predicates up to order and the sides they are written on.
  predicate Alike(p: Pred, q: Pred) {
    p == q || p == Pred(q.right, q.left)
  }

  ghost predicate Has(b: seq<Pred>, p: Pred) {
    exists j :: 0 <= j < |b| && Alike(p, b[j])
  }

  ghost predicate Within(a: seq<Pred>, b: seq<Pred>) {
    forall i :: 0 <= i < |a| ==> Has(b, a[i])
  }

  lemma {:induction false} HasOne(b: seq<Pred>, p: Pred, j: nat)
    requires j < |b| && Alike(p, b[j])
    ensures Has(b, p)
  {
  }

  ghost predicate Left(ops: seq<Pred>, U: set<nat>) {
    exists i :: 0 <= i < |ops| && Crosses(ops[i], U)
  }

  ghost predicate Rearranged(a: seq<Pred>, b: seq<Pred>) {
    |a| == |b| && Within(a, b) && Within(b, a)
  }

  lemma {:induction false} Itself(a: seq<Pred>)
    ensures Rearranged(a, a)
  {
    forall i | 0 <= i < |a| ensures Has(a, a[i]) {
      HasOne(a, a[i], i);
    }
  }

  lemma {:induction false} WithinOn(a: seq<Pred>, b: seq<Pred>, c: seq<Pred>)
    requires Within(a, b) && Within(b, c)
    ensures Within(a, c)
  {
    forall i | 0 <= i < |a| ensures Has(c, a[i]) {
      var j :| 0 <= j < |b| && Alike(a[i], b[j]);
      assert Has(c, b[j]);
      var k :| 0 <= k < |c| && Alike(b[j], c[k]);
      HasOne(c, a[i], k);
    }
  }

  lemma {:induction false} AlikeSelf(p: Pred)
    ensures Alike(p, p)
  {
  }

  lemma {:induction false} Swapped(a: seq<Pred>, i: nat, j: nat)
    requires i < |a| && j < |a|
    ensures Rearranged(a, a[i := a[j]][j := a[i]])
  {
    hide Alike;
    var b := a[i := a[j]][j := a[i]];
    forall x | 0 <= x < |a| ensures Has(b, a[x]) && Has(a, b[x]) {
      var y := if x == i then j else if x == j then i else x;
      assert b[y] == a[x] && a[y] == b[x];
      AlikeSelf(a[x]);
      AlikeSelf(b[x]);
      HasOne(b, a[x], y);
      HasOne(a, b[x], y);
    }
  }

  lemma {:induction false} Flipped(a: seq<Pred>, i: nat)
    requires i < |a|
    ensures Rearranged(a, a[i := Pred(a[i].right, a[i].left)])
  {
    var b := a[i := Pred(a[i].right, a[i].left)];
    forall x | 0 <= x < |a| ensures Has(b, a[x]) && Has(a, b[x]) {
      HasOne(b, a[x], x);
      HasOne(a, b[x], x);
    }
  }

  lemma {:induction false} RearrangedOn(a: seq<Pred>, b: seq<Pred>, c: seq<Pred>)
    requires Rearranged(a, b) && Rearranged(b, c)
    ensures Rearranged(a, c)
  {
    hide Within;
    WithinOn(a, b, c);
    WithinOn(c, b, a);
  }

  // A rearrangement has the same solutions.
  lemma {:induction false} SameSolutions(pre: Tables, a: seq<Pred>, b: seq<Pred>, used: set<nat>, x: Choice)
    requires Within(a, b) && Solution(pre, b, used, x)
    ensures Solution(pre, a, used, x)
  {
    forall i | 0 <= i < |a| ensures Meets(pre, x, a[i]) {
      assert Has(b, a[i]);
      var j :| 0 <= j < |b| && Alike(a[i], b[j]);
      assert Meets(pre, x, b[j]);
    }
  }

  lemma {:induction false} SameTables(a: seq<Pred>, b: seq<Pred>)
    requires Within(a, b)
    ensures TablesOf(a) <= TablesOf(b)
  {
    forall t | t in TablesOf(a) ensures t in TablesOf(b) {
      var i :| 0 <= i < |a| && (a[i].left.table == t || a[i].right.table == t);
      assert Has(b, a[i]);
      var j :| 0 <= j < |b| && Alike(a[i], b[j]);
    }
  }

  lemma {:induction false} TreeKept(a: seq<Pred>, b: seq<Pred>)
    requires Tree(a) && Rearranged(a, b)
    ensures Tree(b)
  {
    hide TablesOf, Left, Has;
    SameTables(a, b);
    SameTables(b, a);
    assert TablesOf(a) == TablesOf(b);
    forall U: set<nat> | U < TablesOf(b) && U != {} ensures Left(b, U) {
      assert Left(a, U);
      LeftKept(a, b, U);
    }
  }

  lemma {:induction false} LeftKept(a: seq<Pred>, b: seq<Pred>, U: set<nat>)
    requires Within(a, b) && Left(a, U)
    ensures Left(b, U)
  {
    hide Crosses, Alike;
    var i :| 0 <= i < |a| && Crosses(a[i], U);
    assert Has(b, a[i]);
    var j :| 0 <= j < |b| && Alike(a[i], b[j]);
    AlikeCrosses(a[i], b[j], U);
  }

  lemma {:induction false} AlikeCrosses(p: Pred, q: Pred, U: set<nat>)
    requires Alike(p, q) && Crosses(p, U)
    ensures Crosses(q, U)
  {
  }

  lemma {:induction false} PredsOkKept(pre: Tables, a: seq<Pred>, b: seq<Pred>)
    requires PredsOk(pre, a) && Within(b, a)
    ensures PredsOk(pre, b)
  {
    forall i | 0 <= i < |b| ensures OpOk(pre, b[i].left) && OpOk(pre, b[i].right) {
      assert Has(a, b[i]);
      var j :| 0 <= j < |a| && Alike(b[i], a[j]);
    }
  }

  // From U, the predicates in R, each used once, reach every table: there are enough of them.
  lemma {:induction false} Enough(ops: seq<Pred>, U: set<nat>, R: set<nat>)
    requires U <= TablesOf(ops) && U != {} && forall r :: r in R ==> r < |ops|
    requires forall W: set<nat> :: U <= W < TablesOf(ops) ==> exists r :: r in R && r < |ops| && Crosses(ops[r], W)
    ensures |TablesOf(ops)| <= |U| + |R|
    decreases |R|
  {
    var T := TablesOf(ops);
    if U != T {
      var c :| c in R && c < |ops| && Crosses(ops[c], U);
      var t := if ops[c].left.table in U then ops[c].right.table else ops[c].left.table;
      InTables(ops, c);
      var U', R' := U + {t}, R - {c};
      forall W: set<nat> | U' <= W < T ensures exists r :: r in R' && r < |ops| && Crosses(ops[r], W) {
        assert U <= W && !Crosses(ops[c], W);
        var r :| r in R && r < |ops| && Crosses(ops[r], W);
        assert r in R';
      }
      Enough(ops, U', R');
    }
  }

  lemma {:induction false} InTables(ops: seq<Pred>, i: nat)
    requires i < |ops|
    ensures ops[i].left.table in TablesOf(ops) && ops[i].right.table in TablesOf(ops)
  {
  }

  function From(i: nat, n: nat): (s: set<nat>)
    ensures |s| == (if i <= n then n - i else 0) && forall x :: x in s <==> i <= x < n
  {
    if n <= i then {} else From(i, n - 1) + {n - 1}
  }

  // The first i predicates are done and have brought in the tables of used.
  ghost predicate Reached(ops: seq<Pred>, i: nat, used: seq<nat>) {
    && 1 <= i <= |ops| && |used| == i + 1 && NoRepeats(used) && SetOf(used) <= TablesOf(ops)
    && forall x :: 0 <= x < i ==> ops[x].left.table in used && ops[x].right.table in used
  }

  // Some predicate still to do touches a table already there.
  lemma {:induction false} SomeTouches(ops: seq<Pred>, i: nat, used: seq<nat>) returns (j: nat)
    requires Tree(ops) && Reached(ops, i, used) && i < |ops|
    ensures i <= j < |ops| && Crosses(ops[j], SetOf(used))
  {
    SetSize(used);
    var U := SetOf(used);
    assert used[0] in U;
    assert U != TablesOf(ops);
    assert Left(ops, U);
    j :| 0 <= j < |ops| && Crosses(ops[j], U);
  }

  // A predicate still to do that touches a table already there brings in a new one.
  lemma {:induction false} TouchesOnce(ops: seq<Pred>, i: nat, used: seq<nat>, j: nat)
    requires Tree(ops) && Reached(ops, i, used) && i <= j < |ops|
    requires ops[j].left.table in used || ops[j].right.table in used
    ensures Crosses(ops[j], SetOf(used))
  {
    SetSize(used);
    var U, T := SetOf(used), TablesOf(ops);
    assert used[0] in U;
    if !Crosses(ops[j], U) {
      var R := From(i, |ops|) - {j};
      assert |R| == |ops| - i - 1;
      forall W: set<nat> | U <= W < T ensures exists r :: r in R && r < |ops| && Crosses(ops[r], W) {
        assert Left(ops, W);
        var r :| 0 <= r < |ops| && Crosses(ops[r], W);
        assert r != j && r >= i;
        assert r in R;
      }
      Enough(ops, U, R);
    }
  }

  // When all predicates are done, all tables are there.
  lemma {:induction false} AllThere(ops: seq<Pred>, used: seq<nat>)
    requires Tree(ops) && Reached(ops, |ops|, used)
    ensures SetOf(used) == TablesOf(ops)
  {
    forall t | t in TablesOf(ops) ensures t in SetOf(used) {
      var i :| 0 <= i < |ops| && (ops[i].left.table == t || ops[i].right.table == t);
    }
  }

  // The two tables of a predicate differ.
  lemma {:induction false} TwoTables(ops: seq<Pred>, i: nat)
    requires Tree(ops) && i < |ops|
    ensures ops[i].left.table != ops[i].right.table
  {
    var T := TablesOf(ops);
    if ops[i].left.table == ops[i].right.table {
      var U := {ops[i].left.table};
      InTables(ops, i);
      var R := From(0, |ops|) - {i};
      assert |R| == |ops| - 1;
      forall W: set<nat> | U <= W < T ensures exists r :: r in R && r < |ops| && Crosses(ops[r], W) {
        assert Left(ops, W);
        var r :| 0 <= r < |ops| && Crosses(ops[r], W);
        assert r != i;
        assert r in R;
      }
      Enough(ops, U, R);
    }
  }
}
