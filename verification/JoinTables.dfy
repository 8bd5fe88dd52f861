// Tables, predicates and what a join means: every way to pick one row a table that meets all predicates.
module JoinTables {
  import opened Basics

  const WIDTH := 16             // columns of one table at most: a key and 15 values

  // table_info: the category row, then the records.
  datatype Table = Table(header: seq<int>, rows: seq<seq<int>>)

  // pre_table: entry 0 is the join's intermediate result, the others are the tables read at open.
  type Tables = seq<Table>

  // Column col (from 1) of a table.
  datatype Op = Op(table: nat, col: nat)

  datatype Pred = Pred(left: Op, right: Op)

  function ColId(t: nat, col: nat): int {
    16 * (t - 1) + col
  }

  // What get_table builds for table t.
  ghost predicate TableOk(tab: Table, t: nat) {
    && 1 <= |tab.header| <= WIDTH
    && (forall c :: 0 <= c < |tab.header| ==> tab.header[c] == ColId(t, c + 1))
    && (forall r :: 0 <= r < |tab.rows| ==> |tab.rows[r]| == |tab.header|)
  }

  ghost predicate TablesOk(pre: Tables) {
    |pre| > 0 && forall t :: 1 <= t < |pre| ==> TableOk(pre[t], t)
  }

  ghost predicate OpOk(pre: Tables, o: Op) {
    1 <= o.table < |pre| && 1 <= o.col <= |pre[o.table].header|
  }

  ghost predicate PredsOk(pre: Tables, ops: seq<Pred>) {
    forall i :: 0 <= i < |ops| ==> OpOk(pre, ops[i].left) && OpOk(pre, ops[i].right)
  }

  // A choice of one row for each of some tables.
  type Choice = map<nat, nat>

  ghost predicate ChoiceOk(pre: Tables, a: Choice) {
    forall t :: t in a ==> 1 <= t < |pre| && a[t] < |pre[t].rows|
  }

  function ValueOf(pre: Tables, a: Choice, o: Op): int {
    if o.table in a && o.table < |pre| && a[o.table] < |pre[o.table].rows| &&
      1 <= o.col <= |pre[o.table].rows[a[o.table]]|
    then pre[o.table].rows[a[o.table]][o.col - 1] else 0
  }

  predicate Meets(pre: Tables, a: Choice, p: Pred) {
    ValueOf(pre, a, p.left) == ValueOf(pre, a, p.right)
  }

  // One row of the filtered cross product.
  ghost predicate Solution(pre: Tables, ops: seq<Pred>, used: set<nat>, a: Choice) {
    a.Keys == used && ChoiceOk(pre, a) && forall i :: 0 <= i < |ops| ==> Meets(pre, a, ops[i])
  }

  // all lists each solution once.
  ghost predicate Lists(pre: Tables, ops: seq<Pred>, used: set<nat>, all: seq<Choice>) {
    NoRepeats(all) && forall a :: a in all <==> Solution(pre, ops, used, a)
  }

  // The row of a choice: its tables' rows side by side, in the order the tables were joined.
  function RowOf(pre: Tables, a: Choice, used: seq<nat>): seq<int>
    requires forall i :: 0 <= i < |used| ==> used[i] in a && used[i] < |pre| && a[used[i]] < |pre[used[i]].rows|
  {
    if used == [] then [] else
      var t := used[|used| - 1];
      RowOf(pre, a, used[..|used| - 1]) + pre[t].rows[a[t]]
  }

  function HeaderOf(pre: Tables, used: seq<nat>): seq<int>
    requires forall i :: 0 <= i < |used| ==> used[i] < |pre|
  {
    if used == [] then [] else HeaderOf(pre, used[..|used| - 1]) + pre[used[|used| - 1]].header
  }

  ghost predicate UsedOk(pre: Tables, used: seq<nat>) {
    NoRepeats(used) && forall i :: 0 <= i < |used| ==> 1 <= used[i] < |pre|
  }

  // tab is the join of the tables in used under ops: a row for each solution.
  ghost predicate Joined(pre: Tables, ops: seq<Pred>, used: seq<nat>, tab: Table, all: seq<Choice>) {
    && UsedOk(pre, used) && Lists(pre, ops, SetOf(used), all)
    && tab.header == HeaderOf(pre, used) && |tab.rows| == |all|
    && (forall k :: 0 <= k < |all| ==> Covers(pre, all[k], used) && tab.rows[k] == RowOf(pre, all[k], used))
  }

  ghost predicate Covers(pre: Tables, a: Choice, used: seq<nat>) {
    forall i :: 0 <= i < |used| ==> used[i] in a && used[i] < |pre| && a[used[i]] < |pre[used[i]].rows|
  }

  lemma {:induction false} RowWidth(pre: Tables, a: Choice, used: seq<nat>)
    requires TablesOk(pre) && UsedOk(pre, used) && Covers(pre, a, used)
    ensures |RowOf(pre, a, used)| == |HeaderOf(pre, used)|
  {
    if used != [] {
      assert TableOk(pre[used[|used| - 1]], used[|used| - 1]);
      RowWidth(pre, a, used[..|used| - 1]);
    }
  }

  // A column found by its number in the category row holds that table's value.
  lemma {:induction false} ColumnHolds(pre: Tables, a: Choice, used: seq<nat>, o: Op, s: nat)
    requires TablesOk(pre) && UsedOk(pre, used) && Covers(pre, a, used) && OpOk(pre, o)
    requires s < |HeaderOf(pre, used)| && HeaderOf(pre, used)[s] == ColId(o.table, o.col)
    ensures |RowOf(pre, a, used)| == |HeaderOf(pre, used)| && RowOf(pre, a, used)[s] == ValueOf(pre, a, o)
  {
    hide HeaderOf, RowOf, TablesOk, TableOk;
    RowWidth(pre, a, used);
    LastTable(pre, a, used);
    var n := |used| - 1;
    var t := used[n];
    var front := HeaderOf(pre, used[..n]);
    RowWidth(pre, a, used[..n]);
    if s < |front| {
      ColumnHolds(pre, a, used[..n], o, s);
    } else {
      LastColumn(pre, t, o, s - |front|);
    }
  }

  lemma {:induction false} LastTable(pre: Tables, a: Choice, used: seq<nat>)
    requires Covers(pre, a, used)
    ensures used == [] ==> HeaderOf(pre, used) == []
    ensures used != [] ==>
      var n := |used| - 1;
      && HeaderOf(pre, used) == HeaderOf(pre, used[..n]) + pre[used[n]].header
      && RowOf(pre, a, used) == RowOf(pre, a, used[..n]) + pre[used[n]].rows[a[used[n]]]
  {
  }

  lemma {:induction false} LastColumn(pre: Tables, t: nat, o: Op, j: nat)
    requires TablesOk(pre) && OpOk(pre, o) && 1 <= t < |pre| && j < |pre[t].header|
    requires pre[t].header[j] == ColId(o.table, o.col)
    ensures t == o.table && j + 1 == o.col
  {
    assert TableOk(pre[t], t) && TableOk(pre[o.table], o.table);
  }

  // The search for a column succeeds.
  lemma {:induction false} ColumnThere(pre: Tables, used: seq<nat>, o: Op) returns (s: nat)
    requires TablesOk(pre) && UsedOk(pre, used) && OpOk(pre, o) && o.table in used
    ensures s < |HeaderOf(pre, used)| && HeaderOf(pre, used)[s] == ColId(o.table, o.col)
  {
    var n := |used| - 1;
    if used[n] == o.table {
      assert TableOk(pre[o.table], o.table);
      s := |HeaderOf(pre, used[..n])| + o.col - 1;
    } else {
      assert used == used[..n] + [used[n]];
      s := ColumnThere(pre, used[..n], o);
    }
  }

  // A table by itself is a join of one table and no predicates.

  function Single(t: nat, n: nat): (s: seq<Choice>)
    ensures |s| == n && forall k :: 0 <= k < n ==> s[k] == map[t := k]
  {
    seq(n, k requires 0 <= k < n => map[t := k])
  }

  lemma {:induction false} OneTable(pre: Tables, t: nat)
    requires TablesOk(pre) && 1 <= t < |pre|
    ensures Joined(pre, [], [t], pre[t], Single(t, |pre[t].rows|))
  {
    var all := Single(t, |pre[t].rows|);
    forall i, j | 0 <= i < j < |all| ensures all[i] != all[j] {
      assert all[i][t] == i && all[j][t] == j;
    }
    forall a ensures a in all <==> Solution(pre, [], SetOf([t]), a) {
      if Solution(pre, [], SetOf([t]), a) {
        assert t in SetOf([t]) && t in a;
        assert a == map[t := a[t]] == all[a[t]];
      }
    }
    forall k | 0 <= k < |all| ensures Covers(pre, all[k], [t]) && pre[t].rows[k] == RowOf(pre, all[k], [t]) {
      assert RowOf(pre, all[k], []) == [];
    }
    assert HeaderOf(pre, []) == [];
  }

  // Joining one table more.

  // The pairs of a left and a right row that Run matches, each once.
  ghost predicate Matches(left: Table, i: nat, right: Table, j: nat, pairs: seq<(nat, nat)>) {
    && NoRepeats(pairs)
    && forall a: nat, b: nat :: (a, b) in pairs <==>
       a < |left.rows| && b < |right.rows| && Same(left, i, a, right, j, b)
  }

  ghost predicate Same(left: Table, i: nat, a: nat, right: Table, j: nat, b: nat) {
    && a < |left.rows| && b < |right.rows| && i < |left.rows[a]| && j < |right.rows[b]|
    && left.rows[a][i] == right.rows[b][j]
  }

  // tab is the table Run makes of the matching pairs.
  ghost predicate Paired(left: Table, right: Table, tab: Table, pairs: seq<(nat, nat)>) {
    && tab.header == left.header + right.header && |tab.rows| == |pairs|
    && forall k :: 0 <= k < |pairs| ==>
       pairs[k].0 < |left.rows| && pairs[k].1 < |right.rows| &&
       tab.rows[k] == left.rows[pairs[k].0] + right.rows[pairs[k].1]
  }

  function Extend(all: seq<Choice>, t: nat, pairs: seq<(nat, nat)>): (r: seq<Choice>)
    requires forall k :: 0 <= k < |pairs| ==> pairs[k].0 < |all|
    ensures |r| == |pairs| && forall k :: 0 <= k < |r| ==> r[k] == all[pairs[k].0][t := pairs[k].1]
  {
    seq(|pairs|, k requires 0 <= k < |pairs| => all[pairs[k].0][t := pairs[k].1])
  }

  // p joins a column o of a table already there with a column f of a new one.
  ghost predicate Adds(p: Pred, used: seq<nat>, o: Op, f: Op) {
    (p == Pred(o, f) || p == Pred(f, o)) && o.table in used && f.table !in used
  }

  lemma {:induction false} MeetsNow(pre: Tables, a: Choice, m: nat, p: Pred, used: seq<nat>, o: Op, f: Op)
    requires Adds(p, used, o, f) && OpOk(pre, o) && OpOk(pre, f) && m < |pre[f.table].rows|
    ensures Meets(pre, a[f.table := m], p) <==> ValueOf(pre, a, o) == ValueOf(pre, map[f.table := m], f)
  {
  }

  // A predicate on other tables does not look at the new one.
  lemma {:induction false} MeetsStill(pre: Tables, a: Choice, t: nat, m: nat, p: Pred)
    requires p.left.table != t && p.right.table != t
    ensures Meets(pre, a[t := m], p) == Meets(pre, a, p)
  {
  }

  lemma {:induction false} RowFrame(pre: Tables, a: Choice, b: Choice, used: seq<nat>)
    requires Covers(pre, a, used) && forall i :: 0 <= i < |used| ==> used[i] in b && b[used[i]] == a[used[i]]
    ensures Covers(pre, b, used) && RowOf(pre, b, used) == RowOf(pre, a, used)
  {
    if used != [] {
      RowFrame(pre, a, b, used[..|used| - 1]);
    }
  }

  // Everything Run is given and gives back in one step of the join.
  ghost predicate StepOk(pre: Tables, ops: seq<Pred>, used: seq<nat>, left: Table, all: seq<Choice>, p: Pred, o: Op,
      f: Op, i: nat, j: nat, pairs: seq<(nat, nat)>, tab: Table)
  {
    && TablesOk(pre) && Joined(pre, ops, used, left, all) && OpOk(pre, o) && OpOk(pre, f) && Adds(p, used, o, f)
    && (forall x :: 0 <= x < |ops| ==> ops[x].left.table in used && ops[x].right.table in used)
    && i < |left.header| && left.header[i] == ColId(o.table, o.col)
    && j < |pre[f.table].header| && pre[f.table].header[j] == ColId(f.table, f.col)
    && Matches(left, i, pre[f.table], j, pairs) && Paired(left, pre[f.table], tab, pairs)
  }

  // A left row and a new row match exactly when the extended choice meets the predicate.
  lemma {:induction false} SameMeets(pre: Tables, ops: seq<Pred>, used: seq<nat>, left: Table, all: seq<Choice>,
      p: Pred, o: Op, f: Op, i: nat, j: nat, pairs: seq<(nat, nat)>, tab: Table, k: nat, m: nat)
    requires StepOk(pre, ops, used, left, all, p, o, f, i, j, pairs, tab) && k < |all| && m < |pre[f.table].rows|
    ensures Same(left, i, k, pre[f.table], j, m) <==> Meets(pre, all[k][f.table := m], p)
  {
    hide Matches, Paired, Lists, Meets, ColId;
    ColumnHolds(pre, all[k], used, o, i);
    MeetsNow(pre, all[k], m, p, used, o, f);
    NewColumn(pre, f, j, m);
  }

  lemma {:induction false} NewColumn(pre: Tables, f: Op, j: nat, m: nat)
    requires TablesOk(pre) && OpOk(pre, f) && m < |pre[f.table].rows|
    requires j < |pre[f.table].header| && pre[f.table].header[j] == ColId(f.table, f.col)
    ensures j < |pre[f.table].rows[m]| && pre[f.table].rows[m][j] == ValueOf(pre, map[f.table := m], f)
  {
    assert TableOk(pre[f.table], f.table);
  }

  // The choices of the longer join are the extensions of the matching pairs.
  lemma {:induction false} StepSolution(pre: Tables, ops: seq<Pred>, used: seq<nat>, left: Table, all: seq<Choice>,
      p: Pred, o: Op, f: Op, i: nat, j: nat, pairs: seq<(nat, nat)>, tab: Table, k: nat, m: nat)
    requires StepOk(pre, ops, used, left, all, p, o, f, i, j, pairs, tab) && k < |all| && m < |pre[f.table].rows|
    ensures Solution(pre, ops + [p], SetOf(used + [f.table]), all[k][f.table := m]) <==> (k, m) in pairs
  {
    hide Paired, Meets, ColId, NoRepeats, Same, ValueOf;
    var t := f.table;
    SameMeets(pre, ops, used, left, all, p, o, f, i, j, pairs, tab, k, m);
    assert Solution(pre, ops, SetOf(used), all[k]);
    assert SetOf(used + [t]) == SetOf(used) + {t};
    forall x | 0 <= x < |ops| ensures Meets(pre, all[k][t := m], ops[x]) {
      MeetsStill(pre, all[k], t, m, ops[x]);
    }
    assert (ops + [p])[|ops|] == p;
    assert forall x :: 0 <= x < |ops| ==> (ops + [p])[x] == ops[x];
  }

  lemma {:induction false} StepBack(pre: Tables, ops: seq<Pred>, used: seq<nat>, left: Table, all: seq<Choice>, p: Pred,
      o: Op, f: Op, i: nat, j: nat, pairs: seq<(nat, nat)>, tab: Table, a: Choice)
    returns (k: nat, m: nat)
    requires StepOk(pre, ops, used, left, all, p, o, f, i, j, pairs, tab) &&
      Solution(pre, ops + [p], SetOf(used + [f.table]), a)
    ensures k < |all| && m < |pre[f.table].rows| && a == all[k][f.table := m]
  {
    hide Paired, Meets, ColId, NoRepeats, Same, Matches, TableOk;
    var t := f.table;
    assert SetOf(used + [t]) == SetOf(used) + {t};
    var b := a - {t};
    assert t in a && a == b[t := a[t]];
    forall x | 0 <= x < |ops| ensures Meets(pre, b, ops[x]) {
      assert Meets(pre, a, (ops + [p])[x]);
      MeetsStill(pre, b, t, a[t], ops[x]);
    }
    assert b.Keys == SetOf(used);
    assert Solution(pre, ops, SetOf(used), b);
    k :| 0 <= k < |all| && all[k] == b;
    m := a[t];
  }

  lemma {:induction false} StepLists(pre: Tables, ops: seq<Pred>, used: seq<nat>, left: Table, all: seq<Choice>,
      p: Pred, o: Op, f: Op, i: nat, j: nat, pairs: seq<(nat, nat)>, tab: Table)
    requires StepOk(pre, ops, used, left, all, p, o, f, i, j, pairs, tab) && forall k :: 0 <= k < |pairs| ==>
      pairs[k].0 < |all|
    ensures Lists(pre, ops + [p], SetOf(used + [f.table]), Extend(all, f.table, pairs))
  {
    hide Paired, Solution, Same, ColId, TableOk, Covers;
    var t := f.table;
    var more := Extend(all, t, pairs);
    forall x, y | 0 <= x < y < |more| ensures more[x] != more[y] {
      DifferentChoices(pre, ops, used, all, t, pairs[x].0, pairs[x].1, pairs[y].0, pairs[y].1);
    }
    forall a ensures a in more <==> Solution(pre, ops + [p], SetOf(used + [t]), a) {
      if a in more {
        var x :| 0 <= x < |more| && more[x] == a;
        assert (pairs[x].0, pairs[x].1) == pairs[x] && pairs[x] in pairs;
        StepSolution(pre, ops, used, left, all, p, o, f, i, j, pairs, tab, pairs[x].0, pairs[x].1);
      }
      if Solution(pre, ops + [p], SetOf(used + [t]), a) {
        var k, m := StepBack(pre, ops, used, left, all, p, o, f, i, j, pairs, tab, a);
        StepSolution(pre, ops, used, left, all, p, o, f, i, j, pairs, tab, k, m);
        var x :| 0 <= x < |pairs| && pairs[x] == (k, m);
        assert more[x] == a;
      }
    }
  }

  lemma {:induction false} DifferentChoices(pre: Tables, ops: seq<Pred>, used: seq<nat>, all: seq<Choice>, t: nat,
      k: nat, m: nat, k': nat, m': nat)
    requires Lists(pre, ops, SetOf(used), all) && t !in used && k < |all| && k' < |all|
    ensures all[k][t := m] == all[k'][t := m'] ==> k == k' && m == m'
  {
    hide Meets, ChoiceOk;
    if all[k][t := m] == all[k'][t := m'] {
      assert all[k] in all && all[k'] in all;
      assert t !in all[k] && t !in all[k'];
      assert all[k][t := m][t] == m && all[k'][t := m'][t] == m';
      assert all[k] == all[k][t := m] - {t} == all[k'][t := m'] - {t} == all[k'];
    }
  }

  // One step of the join: the table Run makes is the join with the new table and the new predicate.
  lemma {:induction false} JoinStep(pre: Tables, ops: seq<Pred>, used: seq<nat>, left: Table, all: seq<Choice>, p: Pred,
      o: Op, f: Op, i: nat, j: nat, pairs: seq<(nat, nat)>, tab: Table)
    requires StepOk(pre, ops, used, left, all, p, o, f, i, j, pairs, tab)
    ensures (forall k :: 0 <= k < |pairs| ==> pairs[k].0 < |all|) &&
      Joined(pre, ops + [p], used + [f.table], tab, Extend(all, f.table, pairs))
  {
    hide Lists, Solution, Same, ColId, TableOk, Matches;
    var t := f.table;
    StepLists(pre, ops, used, left, all, p, o, f, i, j, pairs, tab);
    assert (used + [t])[..|used|] == used;
    forall k | 0 <= k < |pairs|
      ensures Covers(pre, Extend(all, t, pairs)[k], used + [t]) &&
        tab.rows[k] == RowOf(pre, Extend(all, t, pairs)[k], used + [t])
    {
      RowFrame(pre, all[pairs[k].0], all[pairs[k].0][t := pairs[k].1], used);
    }
  }
}
