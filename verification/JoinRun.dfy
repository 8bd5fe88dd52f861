// What holds between two steps of a join, and the sum of the key columns.
module JoinRun {
  import opened Basics
  import opened JoinTables
  import opened JoinTree

  ghost predicate ColumnOk(t: Table, col: nat) {
    forall r :: 0 <= r < |t.rows| ==> col < |t.rows[r]| && t.rows[r][col] >= 0
  }

  // The join columns of the query hold no negative values.
  ghost predicate NonNegative(pre: Tables, ops: seq<Pred>) {
    forall i :: 0 <= i < |ops| ==> ValuesOk(pre, ops[i].left) && ValuesOk(pre, ops[i].right)
  }

  ghost predicate ValuesOk(pre: Tables, o: Op) {
    OpOk(pre, o) && ColumnOk(pre[o.table], o.col - 1)
  }

  // The first i predicates are joined, over the tables of order: entry 0 is their join.
  ghost predicate Going(pre0: Tables, pre: Tables, ops0: seq<Pred>, ops: seq<Pred>, i: nat, order: seq<nat>,
      all: seq<Choice>)
  {
    && TablesOk(pre0) && |pre| == |pre0| && (forall t :: 1 <= t < |pre| ==> pre[t] == pre0[t])
    && Rearranged(ops0, ops) && Tree(ops) && PredsOk(pre0, ops) && NonNegative(pre0, ops)
    && Reached(ops, i, order) && i <= |ops| && Joined(pre0, ops[..i], order, pre[0], all)
  }

  lemma {:induction false} NonNegativeKept(pre: Tables, a: seq<Pred>, b: seq<Pred>)
    requires NonNegative(pre, a) && Within(b, a)
    ensures NonNegative(pre, b)
  {
    hide ValuesOk;
    forall i | 0 <= i < |b| ensures ValuesOk(pre, b[i].left) && ValuesOk(pre, b[i].right) {
      assert Has(a, b[i]);
      var j :| 0 <= j < |a| && Alike(b[i], a[j]);
    }
  }

  // What a query brings along when it is rearranged.
  ghost predicate QueryOk(pre: Tables, ops: seq<Pred>) {
    TablesOk(pre) && Tree(ops) && PredsOk(pre, ops) && NonNegative(pre, ops)
  }

  lemma {:induction false} QueryKept(pre: Tables, a: seq<Pred>, b: seq<Pred>, c: seq<Pred>)
    requires QueryOk(pre, b) && Rearranged(a, b) && Rearranged(b, c)
    ensures QueryOk(pre, c) && Rearranged(a, c)
  {
    hide TablesOk, Tree, PredsOk, NonNegative, Within;
    RearrangedOn(a, b, c);
    TreeKept(b, c);
    PredsOkKept(pre, b, c);
    NonNegativeKept(pre, b, c);
  }

  // The column of the intermediate result that holds a joined column is found, and has no negative values.
  lemma {:induction false} LeftColumn(pre: Tables, ops: seq<Pred>, order: seq<nat>, tab: Table, all: seq<Choice>, o: Op)
    requires TablesOk(pre) && Joined(pre, ops, order, tab, all) && ValuesOk(pre, o) && o.table in order
    ensures ColId(o.table, o.col) in tab.header
    ensures forall x :: 0 <= x < |tab.header| && tab.header[x] == ColId(o.table, o.col) ==> ColumnOk(tab, x)
  {
    hide Lists, ColId, TableOk;
    var s := ColumnThere(pre, order, o);
    forall x, k | 0 <= x < |tab.header| && tab.header[x] == ColId(o.table, o.col) && 0 <= k < |tab.rows|
      ensures x < |tab.rows[k]| && tab.rows[k][x] >= 0
    {
      ColumnHolds(pre, all[k], order, o, x);
    }
  }

  // A table's own column is where its number says.
  lemma {:induction false} BaseColumn(pre: Tables, f: Op)
    requires TablesOk(pre) && ValuesOk(pre, f)
    ensures ColId(f.table, f.col) in pre[f.table].header
    ensures forall x :: 0 <= x < |pre[f.table].header| && pre[f.table].header[x] == ColId(f.table, f.col) ==>
      ColumnOk(pre[f.table], x)
  {
    assert TableOk(pre[f.table], f.table);
    assert pre[f.table].header[f.col - 1] == ColId(f.table, f.col);
    forall x | 0 <= x < |pre[f.table].header| && pre[f.table].header[x] == ColId(f.table, f.col)
      ensures x == f.col - 1 {
    }
  }

  // One turn of join's loop.
  lemma {:induction false} NextStep(pre0: Tables, pre: Tables, ops0: seq<Pred>, ops: seq<Pred>, i: nat, order: seq<nat>,
      all: seq<Choice>, o: Op, f: Op, li: nat, rj: nat, pairs: seq<(nat, nat)>, after: Tables)
    requires Going(pre0, pre, ops0, ops, i, order, all) && i < |ops| && Adds(ops[i], order, o, f)
    requires li < |pre[0].header| && pre[0].header[li] == ColId(o.table, o.col)
    requires f.table < |pre0| && rj < |pre0[f.table].header| && pre0[f.table].header[rj] == ColId(f.table, f.col)
    requires |after| == |pre| && forall t :: 1 <= t < |pre| ==> after[t] == pre[t]
    requires Matches(pre[0], li, pre0[f.table], rj, pairs) && Paired(pre[0], pre0[f.table], after[0], pairs)
    ensures (forall k :: 0 <= k < |pairs| ==> pairs[k].0 < |all|)
    ensures Going(pre0, after, ops0, ops, i + 1, order + [f.table], Extend(all, f.table, pairs))
  {
    hide Joined, Matches, Paired, Tree, Rearranged, ColId, TablesOk, NonNegative, OpOk;
    assert OpOk(pre0, ops[i].left) && OpOk(pre0, ops[i].right);
    assert ops[..i] + [ops[i]] == ops[..i + 1];
    JoinStep(pre0, ops[..i], order, pre[0], all, ops[i], o, f, li, rj, pairs, after[0]);
    InTables(ops, i);
    assert SetOf(order + [f.table]) == SetOf(order) + {f.table};
    NoRepeatsMore(order, f.table);
  }

  lemma {:induction false} NoRepeatsMore(s: seq<nat>, x: nat)
    requires NoRepeats(s) && x !in s
    ensures NoRepeats(s + [x])
  {
  }

  // The first Run, of two base tables.
  lemma {:induction false} FirstStep(pre: Tables, ops0: seq<Pred>, ops: seq<Pred>, o: Op, f: Op, li: nat, rj: nat,
      pairs: seq<(nat, nat)>, after: Tables)
    requires QueryOk(pre, ops) && Rearranged(ops0, ops) && (ops[0] == Pred(o, f) || ops[0] == Pred(f, o)) &&
      OpOk(pre, o) && OpOk(pre, f)
    requires li < |pre[o.table].header| && pre[o.table].header[li] == ColId(o.table, o.col)
    requires rj < |pre[f.table].header| && pre[f.table].header[rj] == ColId(f.table, f.col)
    requires |after| == |pre| && forall t :: 1 <= t < |pre| ==> after[t] == pre[t]
    requires Matches(pre[o.table], li, pre[f.table], rj, pairs) && Paired(pre[o.table], pre[f.table], after[0], pairs)
    ensures forall k :: 0 <= k < |pairs| ==> pairs[k].0 < |pre[o.table].rows|
    ensures Going(pre, after, ops0, ops, 1, [o.table] + [f.table],
      Extend(Single(o.table, |pre[o.table].rows|), f.table, pairs))
  {
    hide Joined, Matches, Paired, Rearranged, ColId, TablesOk, NonNegative, PredsOk, TablesOf, OpOk, Left;
    TwoTables(ops, 0);
    OneTable(pre, o.table) by {
      InRange(pre, o);
    }
    InRange(pre, o);
    InRange(pre, f);
    var all := Single(o.table, |pre[o.table].rows|);
    assert [] + [ops[0]] == ops[..1];
    JoinStep(pre, [], [o.table], pre[o.table], all, ops[0], o, f, li, rj, pairs, after[0]);
    InTables(ops, 0);
    assert SetOf([o.table] + [f.table]) == {o.table, f.table};
  }

  lemma {:induction false} InRange(pre: Tables, o: Op)
    requires OpOk(pre, o)
    ensures 1 <= o.table < |pre|
  {
  }

  // A solution of the whole query gives one of its first predicates.
  lemma {:induction false} Restricted(pre: Tables, ops: seq<Pred>, i: nat, order: seq<nat>, a: Choice)
    returns (b: Choice)
    requires Reached(ops, i, order) && i <= |ops| && Solution(pre, ops, TablesOf(ops), a)
    ensures Solution(pre, ops[..i], SetOf(order), b)
  {
    hide ValueOf;
    b := map t | t in a && t in order :: a[t];
    assert b.Keys == SetOf(order);
    forall x | 0 <= x < i ensures Meets(pre, b, ops[..i][x]) {
      assert ops[..i][x] == ops[x] && Meets(pre, a, ops[x]);
      SameValue(pre, a, b, ops[x].left);
      SameValue(pre, a, b, ops[x].right);
    }
  }

  // No rows part of the way means no rows at all.
  lemma {:induction false} EmptyEarly(pre: Tables, ops: seq<Pred>, i: nat, order: seq<nat>)
    requires Reached(ops, i, order) && i <= |ops| && Lists(pre, ops[..i], SetOf(order), [])
    ensures Lists(pre, ops, TablesOf(ops), [])
  {
    hide Reached, Solution;
    forall a ensures !Solution(pre, ops, TablesOf(ops), a) {
      if Solution(pre, ops, TablesOf(ops), a) {
        var b := Restricted(pre, ops, i, order, a);
        assert false;
      }
    }
  }

  lemma {:induction false} SameValue(pre: Tables, a: Choice, b: Choice, o: Op)
    requires o.table in a && o.table in b && a[o.table] == b[o.table]
    ensures ValueOf(pre, a, o) == ValueOf(pre, b, o)
  {
  }

  // The solutions of the query as written are those of the query as rearranged.
  lemma {:induction false} ListsKept(pre: Tables, a: seq<Pred>, b: seq<Pred>, all: seq<Choice>)
    requires Rearranged(a, b) && Lists(pre, b, TablesOf(b), all)
    ensures Lists(pre, a, TablesOf(a), all)
  {
    SameTables(a, b);
    SameTables(b, a);
    assert TablesOf(a) == TablesOf(b);
    hide TablesOf, Within, NoRepeats;
    forall x ensures Solution(pre, a, TablesOf(a), x) <==> Solution(pre, b, TablesOf(b), x) {
      if Solution(pre, b, TablesOf(b), x) { SameSolutions(pre, a, b, TablesOf(b), x); }
      if Solution(pre, a, TablesOf(a), x) { SameSolutions(pre, b, a, TablesOf(a), x); }
    }
  }

  // Key columns.

  function KeyAt(pre: Tables, a: Choice, t: nat): int {
    ValueOf(pre, a, Op(t, 1))
  }

  // The keys of a choice's rows, tables 1 to hi.
  function KeysTo(pre: Tables, a: Choice, hi: nat): int {
    if hi == 0 then 0 else KeysTo(pre, a, hi - 1) + if hi in a then KeyAt(pre, a, hi) else 0
  }

  // The sum of the key columns over rows of the filtered cross product.
  function Total(pre: Tables, all: seq<Choice>): int {
    if all == [] then 0 else Total(pre, all[..|all| - 1]) + KeysTo(pre, all[|all| - 1], |pre|)
  }

  lemma {:induction false} SomeMember<T>(b: seq<T>)
    ensures b != [] ==> exists x :: x in b
  {
    assert b != [] ==> b[0] in b;
  }

  // It does not depend on the order they are listed in.
  // Two listings of one set, the last choice of the one and the same choice of the other taken out, list one set.
  lemma {:induction false} SameRest(a: seq<Choice>, b: seq<Choice>, k: nat, c: seq<Choice>)
    requires NoRepeats(a) && NoRepeats(b) && forall x :: x in a <==> x in b
    requires a != [] && k < |b| && b[k] == a[|a| - 1] && c == b[..k] + b[k + 1..]
    ensures forall x :: x in a[..|a| - 1] <==> x in c
    ensures NoRepeats(a[..|a| - 1])
  {
    var n := |a| - 1;
    forall x ensures x in a[..n] <==> x in c {
      if x in a[..n] {
        var i :| 0 <= i < n && a[i] == x;
        assert x in b && x != a[n];
        var j :| 0 <= j < |b| && b[j] == x;
        assert x == if j < k then c[j] else c[j - 1];
      }
      if x in c {
        var j :| 0 <= j < |c| && c[j] == x;
        assert x == b[if j < k then j else j + 1] && x != b[k];
        assert x in a;
        var i :| 0 <= i < |a| && a[i] == x;
        assert a[..n][i] == x;
      }
    }
  }

  lemma {:induction false} TotalUnique(pre: Tables, a: seq<Choice>, b: seq<Choice>)
    requires NoRepeats(a) && NoRepeats(b) && forall x :: x in a <==> x in b
    ensures Total(pre, a) == Total(pre, b)
  {
    if a == [] {
      SomeMember(b);
    } else {
      var n := |a| - 1;
      assert a[n] in b;
      var k :| 0 <= k < |b| && b[k] == a[n];
      var c := b[..k] + b[k + 1..];
      TotalWithout(pre, b, k);
      RestDistinct(b, k);
      SameRest(a, b, k, c);
      hide NoRepeats;
      TotalUnique(pre, a[..n], c);
    }
  }

  lemma {:induction false} TotalWithout(pre: Tables, b: seq<Choice>, k: nat)
    requires k < |b|
    ensures Total(pre, b) == Total(pre, b[..k] + b[k + 1..]) + KeysTo(pre, b[k], |pre|)
  {
    hide KeysTo;
    var n := |b| - 1;
    var c := b[..k] + b[k + 1..];
    if k == n {
      assert c == b[..n];
    } else {
      TotalWithout(pre, b[..n], k);
      assert b[..n][..k] + b[..n][k + 1..] == c[..n - 1];
      assert c[..n - 1] + [c[n - 1]] == c && c[n - 1] == b[n];
    }
  }

  lemma {:induction false} RestDistinct(b: seq<Choice>, k: nat)
    requires k < |b| && NoRepeats(b)
    ensures NoRepeats(b[..k] + b[k + 1..])
  {
    var c := b[..k] + b[k + 1..];
    forall i, j | 0 <= i < j < |c| ensures c[i] != c[j] {
      assert c[i] == b[if i < k then i else i + 1] && c[j] == b[if j < k then j else j + 1];
    }
  }

  // The keys of the tables in a list.
  function KeyList(pre: Tables, a: Choice, used: seq<nat>): int {
    if used == [] then 0 else KeyList(pre, a, used[..|used| - 1]) + KeyAt(pre, a, used[|used| - 1])
  }

  function TotalList(pre: Tables, all: seq<Choice>, used: seq<nat>): int {
    if all == [] then 0 else TotalList(pre, all[..|all| - 1], used) + KeyList(pre, all[|all| - 1], used)
  }

  // Only tables of the list that are at most hi.
  function KeysIn(pre: Tables, a: Choice, used: seq<nat>, hi: nat): int {
    if hi == 0 then 0 else KeysIn(pre, a, used, hi - 1) + if hi in used then KeyAt(pre, a, hi) else 0
  }

  lemma {:induction false} KeysInMore(pre: Tables, a: Choice, used: seq<nat>, t: nat, hi: nat)
    requires t !in used && 1 <= t
    ensures KeysIn(pre, a, used + [t], hi) == KeysIn(pre, a, used, hi) + if t <= hi then KeyAt(pre, a, t) else 0
  {
    if hi > 0 {
      KeysInMore(pre, a, used, t, hi - 1);
    }
  }

  lemma {:induction false} KeyListIn(pre: Tables, a: Choice, used: seq<nat>, hi: nat)
    requires NoRepeats(used) && forall i :: 0 <= i < |used| ==> 1 <= used[i] <= hi
    ensures KeyList(pre, a, used) == KeysIn(pre, a, used, hi)
  {
    if used == [] {
      KeysInNone(pre, a, hi);
    } else {
      var n := |used| - 1;
      KeyListIn(pre, a, used[..n], hi);
      assert used == used[..n] + [used[n]];
      KeysInMore(pre, a, used[..n], used[n], hi);
    }
  }

  lemma {:induction false} KeysInNone(pre: Tables, a: Choice, hi: nat)
    ensures KeysIn(pre, a, [], hi) == 0
  {
    if hi > 0 {
      KeysInNone(pre, a, hi - 1);
    }
  }

  lemma {:induction false} KeysSame(pre: Tables, a: Choice, used: seq<nat>, hi: nat)
    requires a.Keys == SetOf(used)
    ensures KeysIn(pre, a, used, hi) == KeysTo(pre, a, hi)
  {
    if hi > 0 {
      KeysSame(pre, a, used, hi - 1);
      assert hi in used <==> hi in a.Keys;
    }
  }

  // Summing key columns table by table is summing row by row.
  lemma {:induction false} TotalIs(pre: Tables, all: seq<Choice>, used: seq<nat>)
    requires UsedOk(pre, used) && forall k :: 0 <= k < |all| ==> all[k].Keys == SetOf(used)
    ensures TotalList(pre, all, used) == Total(pre, all)
  {
    if all != [] {
      var n := |all| - 1;
      TotalIs(pre, all[..n], used);
      KeyListIn(pre, all[n], used, |pre|);
      KeysSame(pre, all[n], used, |pre|);
    }
  }

  // Sum of one table's key over the first k rows.
  function ColumnSum(pre: Tables, all: seq<Choice>, t: nat, k: nat): int
    requires k <= |all|
  {
    if k == 0 then 0 else ColumnSum(pre, all, t, k - 1) + KeyAt(pre, all[k - 1], t)
  }

  lemma {:induction false} TotalMore(pre: Tables, all: seq<Choice>, used: seq<nat>, t: nat)
    ensures TotalList(pre, all, used + [t]) == TotalList(pre, all, used) + ColumnSum(pre, all, t, |all|)
  {
    if all != [] {
      var n := |all| - 1;
      TotalMore(pre, all[..n], used, t);
      ColumnSumPrefix(pre, all, t, n);
      assert (used + [t])[..|used|] == used;
    }
  }

  lemma {:induction false} ColumnSumPrefix(pre: Tables, all: seq<Choice>, t: nat, k: nat)
    requires k < |all|
    ensures forall n :: k <= n <= |all| ==> ColumnSum(pre, all[..n], t, k) == ColumnSum(pre, all, t, k)
  {
    forall n | k <= n <= |all| ensures ColumnSum(pre, all[..n], t, k) == ColumnSum(pre, all, t, k) {
      if k > 0 {
        ColumnSumPrefix(pre, all, t, k - 1);
      }
    }
  }

  lemma {:induction false} TotalNone(pre: Tables, all: seq<Choice>)
    ensures TotalList(pre, all, []) == 0
  {
    if all != [] {
      TotalNone(pre, all[..|all| - 1]);
    }
  }

  lemma {:induction false} JoinedKeys(pre: Tables, ops: seq<Pred>, order: seq<nat>, tab: Table, all: seq<Choice>)
    requires Joined(pre, ops, order, tab, all)
    ensures |tab.rows| == |all| && forall k :: 0 <= k < |all| ==> all[k].Keys == SetOf(order)
  {
    hide NoRepeats, Meets;
    forall k | 0 <= k < |all| ensures all[k].Keys == SetOf(order) {
      assert all[k] in all;
    }
  }

  // result_sum's search for a key column succeeds, and what it finds is that table's key.
  lemma {:induction false} KeyColumn(pre: Tables, ops: seq<Pred>, order: seq<nat>, tab: Table, all: seq<Choice>, t: nat)
    requires TablesOk(pre) && Joined(pre, ops, order, tab, all) && 1 <= t < |pre| && t in order
    ensures ColId(t, 1) in tab.header && |tab.rows| == |all|
  {
    hide Lists, ColId;
    assert TableOk(pre[t], t);
    var s := ColumnThere(pre, order, Op(t, 1));
  }

  lemma {:induction false} KeyValue(pre: Tables, ops: seq<Pred>, order: seq<nat>, tab: Table, all: seq<Choice>, t: nat,
      s: nat, k: nat)
    requires TablesOk(pre) && Joined(pre, ops, order, tab, all) && 1 <= t < |pre| && k < |all| == |tab.rows|
    requires s < |tab.header| && tab.header[s] == ColId(t, 1)
    ensures s < |tab.rows[k]| && tab.rows[k][s] == KeyAt(pre, all[k], t)
  {
    hide Lists, ColId;
    assert TableOk(pre[t], t);
    ColumnHolds(pre, all[k], order, Op(t, 1), s);
  }

  lemma {:induction false} GoingIs(pre0: Tables, pre: Tables, ops0: seq<Pred>, ops: seq<Pred>, i: nat, order: seq<nat>,
      all: seq<Choice>)
    requires Going(pre0, pre, ops0, ops, i, order, all)
    ensures QueryOk(pre0, ops) && Rearranged(ops0, ops) && Reached(ops, i, order) && i <= |ops| && UsedOk(pre0, order)
    ensures 0 < |pre| == |pre0| && Joined(pre0, ops[..i], order, pre[0], all)
  {
    hide TablesOk, Tree, PredsOk, NonNegative, Rearranged, Lists;
    PreNotEmpty(pre0);
  }

  lemma {:induction false} PreNotEmpty(pre: Tables)
    requires TablesOk(pre)
    ensures |pre| > 0
  {
  }

  // Predicates behind the i-th may change places.
  lemma {:induction false} GoingSwapped(pre0: Tables, pre: Tables, ops0: seq<Pred>, ops: seq<Pred>, i: nat,
      order: seq<nat>, all: seq<Choice>, j: nat)
    requires Going(pre0, pre, ops0, ops, i, order, all) && i <= j < |ops|
    ensures Going(pre0, pre, ops0, ops[i := ops[j]][j := ops[i]], i, order, all)
  {
    hide TablesOk, Tree, PredsOk, NonNegative, Rearranged, Joined, TablesOf;
    var b := ops[i := ops[j]][j := ops[i]];
    Swapped(ops, i, j);
    QueryKept(pre0, ops0, ops, b);
    assert b[..i] == ops[..i];
    WithinTables(ops, b);
  }

  lemma {:induction false} WithinTables(a: seq<Pred>, b: seq<Pred>)
    requires Rearranged(a, b)
    ensures TablesOf(a) == TablesOf(b)
  {
    SameTables(a, b);
    SameTables(b, a);
  }

  // The predicate about to be joined: its columns, when o's table is already there and f's is not.
  lemma {:induction false} GoingColumns(pre0: Tables, pre: Tables, ops0: seq<Pred>, ops: seq<Pred>, i: nat,
      order: seq<nat>, all: seq<Choice>, o: Op, f: Op)
    requires Going(pre0, pre, ops0, ops, i, order, all) && i < |ops| && Adds(ops[i], order, o, f)
    ensures 1 <= f.table < |pre0| == |pre| && pre[f.table] == pre0[f.table]
    ensures ColId(o.table, o.col) in pre[0].header && ColId(f.table, f.col) in pre0[f.table].header
    ensures forall x :: 0 <= x < |pre[0].header| && pre[0].header[x] == ColId(o.table, o.col) ==> ColumnOk(pre[0], x)
    ensures forall x :: 0 <= x < |pre0[f.table].header| && pre0[f.table].header[x] == ColId(f.table, f.col) ==>
      ColumnOk(pre0[f.table], x)
  {
    hide Joined, Tree, Rearranged, ColId, TablesOk, Reached, ColumnOk;
    PreNotEmpty(pre0);
    assert ValuesOk(pre0, ops[i].left) && ValuesOk(pre0, ops[i].right);
    LeftColumn(pre0, ops[..i], order, pre[0], all, o);
    BaseColumn(pre0, f);
  }

  lemma {:induction false} FirstColumns(pre: Tables, ops: seq<Pred>, o: Op, f: Op)
    requires QueryOk(pre, ops) && (ops[0] == Pred(o, f) || ops[0] == Pred(f, o))
    ensures 1 <= o.table < |pre| && 1 <= f.table < |pre| && OpOk(pre, o) && OpOk(pre, f)
    ensures ColId(o.table, o.col) in pre[o.table].header && ColId(f.table, f.col) in pre[f.table].header
    ensures forall x :: 0 <= x < |pre[o.table].header| && pre[o.table].header[x] == ColId(o.table, o.col) ==>
      ColumnOk(pre[o.table], x)
    ensures forall x :: 0 <= x < |pre[f.table].header| && pre[f.table].header[x] == ColId(f.table, f.col) ==>
      ColumnOk(pre[f.table], x)
  {
    hide ColId, TablesOk, ColumnOk, TablesOf, Left;
    assert ValuesOk(pre, ops[0].left) && ValuesOk(pre, ops[0].right);
    BaseColumn(pre, o);
    BaseColumn(pre, f);
  }

  // The answer: all predicates joined, or an empty result on the way.
  lemma {:induction false} Done(pre0: Tables, pre: Tables, ops0: seq<Pred>, ops: seq<Pred>, i: nat, order: seq<nat>,
      all: seq<Choice>)
    requires Going(pre0, pre, ops0, ops, i, order, all) && (i == |ops| || pre[0].rows == [])
    ensures Lists(pre0, ops0, TablesOf(ops0), all) && (pre[0].rows == [] ==> all == [])
  {
    hide TablesOk, PredsOk, NonNegative, Rearranged, Lists, Tree, Reached, TablesOf;
    if i == |ops| {
      AllThere(ops, order);
      assert ops[..i] == ops;
    } else {
      EmptyEarly(pre0, ops, i, order);
    }
    ListsKept(pre0, ops0, ops, all);
  }
}
