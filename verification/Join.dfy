// join of bpt.cpp: a hash join of the tables of a query, one predicate at a time, in whatever order the
// program puts them, and the sum of the key columns of the result.
module Join {
  import opened Basics
  import opened JoinTables
  import opened JoinTree
  import opened JoinRun

  // hash_tab: the rows of one bucket, last in first.
  datatype Chain = End | Link(row: nat, value: int, next: Chain)

  ghost function RowsIn(c: Chain): seq<nat> {
    match c
    case End => []
    case Link(r, v, n) => [r] + RowsIn(n)
  }

  ghost predicate ValuesIn(c: Chain, t: Table, col: nat) {
    c.Link? ==> c.row < |t.rows| && col < |t.rows[c.row]| && c.value == t.rows[c.row][col] && ValuesIn(c.next, t, col)
  }

  // Bucket h of m holds those of the first n rows that hash to it, each once.
  ghost predicate BucketOk(c: Chain, t: Table, col: nat, n: nat, h: nat, m: nat)
    requires m > 0 && ColumnOk(t, col)
  {
    && ValuesIn(c, t, col) && NoRepeats(RowsIn(c))
    && forall r: nat :: r in RowsIn(c) <==> r < n && r < |t.rows| && t.rows[r][col] % m == h
  }

  lemma {:induction false} BucketGrows(c: Chain, t: Table, col: nat, n: nat, h: nat, m: nat)
    requires m > 0 && ColumnOk(t, col) && n < |t.rows| && BucketOk(c, t, col, n, h, m)
    ensures
      var v := t.rows[n][col];
      BucketOk(if v % m == h then Link(n, v, c) else c, t, col, n + 1, h, m)
  {
    var v := t.rows[n][col];
    assert v % m == h ==> RowsIn(Link(n, v, c)) == [n] + RowsIn(c);
  }

  // The pairs a walk of a chain adds for row k of the right table.
  ghost function Found(c: Chain, v: int, k: nat): seq<(nat, nat)> {
    match c
    case End => []
    case Link(r, x, n) => (if x == v then [(r, k)] else []) + Found(n, v, k)
  }

  lemma {:induction false} NoRepeatsTail<T>(x: T, s: seq<T>)
    requires NoRepeats([x] + s)
    ensures NoRepeats(s) && x !in s
  {
    var t := [x] + s;
    forall i, j | 0 <= i < j < |s| ensures s[i] != s[j] {
      assert t[i + 1] == s[i] && t[j + 1] == s[j];
    }
    forall i | 0 <= i < |s| ensures s[i] != x {
      assert t[i + 1] == s[i] && t[0] == x;
    }
  }

  lemma {:induction false} FoundWhat(c: Chain, t: Table, col: nat, v: int, k: nat)
    requires ValuesIn(c, t, col) && NoRepeats(RowsIn(c))
    ensures NoRepeats(Found(c, v, k))
    ensures forall a: nat, b: nat :: (a, b) in Found(c, v, k) <==>
      b == k && a in RowsIn(c) && a < |t.rows| && col < |t.rows[a]| && t.rows[a][col] == v
  {
    hide NoRepeats;
    match c
    case End => NoRepeatsNone<(nat, nat)>();
    case Link(r, x, n) =>
      NoRepeatsTail(r, RowsIn(n));
      FoundWhat(n, t, col, v, k);
      if x == v {
        NoRepeatsPrepend((r, k), Found(n, v, k));
      } else {
        assert Found(c, v, k) == Found(n, v, k);
      }
  }

  lemma {:induction false} NoRepeatsNone<T>()
    ensures NoRepeats<T>([])
  {
  }

  lemma {:induction false} NoRepeatsPrepend<T>(x: T, s: seq<T>)
    requires NoRepeats(s) && x !in s
    ensures NoRepeats([x] + s)
  {
  }

  lemma {:induction false} NoRepeatsJoin<T>(a: seq<T>, b: seq<T>)
    requires NoRepeats(a) && NoRepeats(b) && forall x :: x in a ==> x !in b
    ensures NoRepeats(a + b)
  {
    forall i, j | 0 <= i < j < |a + b| ensures (a + b)[i] != (a + b)[j] {
      if i < |a| <= j {
        assert a[i] in a && b[j - |a|] in b;
      }
    }
  }

  // Matching pairs among the first n rows of the right table.
  ghost predicate MatchesTo(left: Table, i: nat, right: Table, j: nat, n: nat, pairs: seq<(nat, nat)>) {
    && NoRepeats(pairs)
    && forall a: nat, b: nat :: (a, b) in pairs <==>
       b < n && a < |left.rows| && b < |right.rows| && Same(left, i, a, right, j, b)
  }

  // The chain of a right row's hash holds all that match the row.
  lemma {:induction false} MatchesMore(left: Table, i: nat, right: Table, j: nat, n: nat, pairs: seq<(nat, nat)>,
      c: Chain, m: nat)
    requires ColumnOk(left, i) && ColumnOk(right, j) && n < |right.rows| && m > 0
    requires MatchesTo(left, i, right, j, n, pairs) && BucketOk(c, left, i, |left.rows|, right.rows[n][j] % m, m)
    ensures MatchesTo(left, i, right, j, n + 1, pairs + Found(c, right.rows[n][j], n))
  {
    var v := right.rows[n][j];
    FoundWhat(c, left, i, v, n);
    hide ValuesIn, Found;
    forall x | x in pairs ensures x !in Found(c, v, n) {
      assert (x.0, x.1) == x;
    }
    NoRepeatsJoin(pairs, Found(c, v, n));
    hide NoRepeats;
    forall a: nat, b: nat
      ensures (a, b) in pairs + Found(c, v, n) <==>
        b < n + 1 && a < |left.rows| && b < |right.rows| && Same(left, i, a, right, j, b)
    {
    }
  }

  // int64_t arithmetic.
  function Int64(x: int): int {
    (x + 0x8000_0000_0000_0000) % 0x1_0000_0000_0000_0000 - 0x8000_0000_0000_0000
  }

  lemma {:induction false} Int64Adds(x: int, y: int)
    ensures Int64(Int64(x) + y) == Int64(x + y)
  {
  }

  lemma {:induction false} Int64Zero()
    ensures Int64(0) == 0
  {
  }

  class Joiner {
    // pre_table, the smallest table, and the hash table of the join step at hand.
    var pre: Tables
    const minTable: nat
    var hash: array<Chain>

    constructor (pre: Tables, minTable: nat)
      ensures this.pre == pre && this.minTable == minTable && fresh(hash)
    {
      this.pre, this.minTable := pre, minTable;
      hash := new Chain[0];
    }

    // build_hash
    method BuildHash(id: nat, col: nat)
      requires id < |pre| && ColumnOk(pre[id], col)
      modifies this`hash
      ensures fresh(hash) && hash.Length == (|pre[id].rows| + 1) * 2
      ensures forall h :: 0 <= h < hash.Length ==> BucketOk(hash[h], pre[id], col, |pre[id].rows|, h, hash.Length)
    {
      var t := pre[id];
      hash := new Chain[(|t.rows| + 1) * 2](_ => End);
      var i := 0;
      while i < |t.rows|
        invariant 0 <= i <= |t.rows| && fresh(hash) && hash.Length == (|t.rows| + 1) * 2
        invariant forall h :: 0 <= h < hash.Length ==> BucketOk(hash[h], t, col, i, h, hash.Length)
        modifies hash
      {
        hide BucketOk;
        var value := t.rows[i][col];
        var hashing := value % hash.Length;
        forall h | 0 <= h < hash.Length ensures BucketOk(if value % hash.Length == h then Link(i, value, hash[h])
          else hash[h], t, col, i + 1, h, hash.Length) {
          BucketGrows(hash[h], t, col, i, h, hash.Length);
        }
        hash[hashing] := Link(i, value, hash[hashing]);
        i := i + 1;
      }
    }

    // The search for a column in a category row.
    method FindCol(header: seq<int>, col: int) returns (i: nat)
      requires col in header
      ensures i < |header| && header[i] == col
    {
      i := 0;
      while header[i] != col
        invariant i < |header| && forall k :: 0 <= k < i ==> header[k] != col
        decreases |header| - i
      {
        i := i + 1;
      }
    }

    // Run: entry 0 becomes the equi-join of two tables, one row for each matching pair.
    method Run(leftId: nat, leftCol: int, rightId: nat, rightCol: int)
      returns (ghost pairs: seq<(nat, nat)>, i: nat, j: nat)
      requires leftId < |pre| && rightId < |pre| && leftCol in pre[leftId].header && rightCol in pre[rightId].header
      requires forall x :: 0 <= x < |pre[leftId].header| && pre[leftId].header[x] == leftCol ==>
        ColumnOk(pre[leftId], x)
      requires forall x :: 0 <= x < |pre[rightId].header| && pre[rightId].header[x] == rightCol ==>
        ColumnOk(pre[rightId], x)
      modifies this
      ensures |pre| == |old(pre)| && forall t :: 1 <= t < |pre| ==> pre[t] == old(pre)[t]
      ensures i < |old(pre)[leftId].header| && old(pre)[leftId].header[i] == leftCol
      ensures j < |old(pre)[rightId].header| && old(pre)[rightId].header[j] == rightCol
      ensures Matches(old(pre)[leftId], i, old(pre)[rightId], j, pairs) &&
        Paired(old(pre)[leftId], old(pre)[rightId], pre[0], pairs)
    {
      i := FindCol(pre[leftId].header, leftCol);
      j := FindCol(pre[rightId].header, rightCol);
      var left, right := pre[leftId], pre[rightId];
      var category := left.header + right.header;
      BuildHash(leftId, i);
      var rows;
      rows, pairs := Probe(left, i, right, j);
      pre := pre[0 := Table(category, rows)];
    }

    // Run's loop over the right table's rows.
    method Probe(left: Table, i: nat, right: Table, j: nat) returns (rows: seq<seq<int>>, ghost pairs: seq<(nat, nat)>)
      requires ColumnOk(left, i) && ColumnOk(right, j) && hash.Length > 0
      requires forall h :: 0 <= h < hash.Length ==> BucketOk(hash[h], left, i, |left.rows|, h, hash.Length)
      ensures Matches(left, i, right, j, pairs) && Paired(left, right, Table(left.header + right.header, rows), pairs)
    {
      hide BucketOk, MatchesTo;
      ghost var category := left.header + right.header;
      rows, pairs := [], [];
      NoMatches(left, i, right, j);
      var k := 0;
      while k < |right.rows|
        invariant 0 <= k <= |right.rows| && MatchesTo(left, i, right, j, k, pairs)
        invariant Paired(left, right, Table(category, rows), pairs)
      {
        var keyData := right.rows[k][j];
        var hashing := keyData % hash.Length;
        MatchesMore(left, i, right, j, k, pairs, hash[hashing], hash.Length);
        BucketValues(hash[hashing], left, i, |left.rows|, hashing, hash.Length);
        rows, pairs := WalkChain(hash[hashing], keyData, left, i, right, k, rows, pairs);
        k := k + 1;
      }
      AllMatches(left, i, right, j, pairs);
    }

    method IsUsed(used: seq<nat>, t: nat) returns (r: bool)
      ensures r == (t in used)
    {
      r := false;
      var i := 0;
      while i < |used|
        invariant 0 <= i <= |used| && t !in used[..i]
      {
        if used[i] == t {
          return true;
        }
        i := i + 1;
      }
      assert used[..i] == used;
    }

    // result_sum, over the final join.
    method ResultSum(used: seq<nat>, ghost pre0: Tables, ghost ops: seq<Pred>, ghost order: seq<nat>,
        ghost all: seq<Choice>) returns (sum: int)
      requires |pre| > 0 && TablesOk(pre0) && Joined(pre0, ops, order, pre[0], all) && UsedOk(pre0, used) &&
        SetOf(used) == SetOf(order)
      ensures sum == Int64(Total(pre0, all))
    {
      hide Joined, Total, TableOk, Lists, Int64;
      sum := 0;
      TotalNone(pre0, all);
      Int64Zero();
      var i := 0;
      assert used[..0] == [];
      while i < |used|
        invariant 0 <= i <= |used| && sum == Int64(TotalList(pre0, all, used[..i]))
      {
        assert used[i] in SetOf(used);
        sum := ColumnTotal(used[i], sum, TotalList(pre0, all, used[..i]), pre0, ops, order, all);
        TotalMore(pre0, all, used[..i], used[i]);
        assert used[..i + 1] == used[..i] + [used[i]];
        i := i + 1;
      }
      assert used[..i] == used;
      JoinedKeys(pre0, ops, order, pre[0], all);
      TotalIs(pre0, all, used);
    }

    // result_sum's loops for one table.
    method ColumnTotal(t: nat, sum0: int, ghost before: int, ghost pre0: Tables, ghost ops: seq<Pred>,
        ghost order: seq<nat>, ghost all: seq<Choice>) returns (sum: int)
      requires |pre| > 0 && TablesOk(pre0) && Joined(pre0, ops, order, pre[0], all) && 1 <= t < |pre0| && t in order
      requires sum0 == Int64(before)
      ensures sum == Int64(before + ColumnSum(pre0, all, t, |all|))
    {
      hide Joined, TableOk, Lists, Int64, KeyAt, OpOk;
      var col := ColId(t, 1);
      KeyColumn(pre0, ops, order, pre[0], all, t);
      var spot := FindCol(pre[0].header, col);
      sum := sum0;
      var j := 0;
      while j < |pre[0].rows|
        invariant 0 <= j <= |pre[0].rows| && sum == Int64(before + ColumnSum(pre0, all, t, j))
      {
        KeyValue(pre0, ops, order, pre[0], all, t, spot, j);
        Int64Adds(before + ColumnSum(pre0, all, t, j), pre[0].rows[j][spot]);
        sum := Int64(sum + pre[0].rows[j][spot]);
        j := j + 1;
      }
    }

    // Does a predicate speak of the smallest table?
    predicate OnSmallest(p: Pred) {
      p.left.table == minTable || p.right.table == minTable
    }

    // join's start: a predicate on the smallest table goes first, its smaller table on the left, and
    // the first two tables are joined, the smaller one, order[0], hashed.
    method FirstRun(ops0: seq<Pred>) returns (ops: seq<Pred>, used: seq<nat>, ghost order: seq<nat>,
        ghost all: seq<Choice>)
      requires QueryOk(pre, ops0)
      modifies this
      ensures Going(old(pre), pre, ops0, ops, 1, order, all) && UsedOk(old(pre), used) && SetOf(used) == SetOf(order)
      ensures |ops| > 0 && ((exists j :: 0 <= j < |ops0| && OnSmallest(ops0[j])) ==> OnSmallest(ops[0]))
      ensures |order| == 2 && multiset(order) == multiset{ops[0].left.table, ops[0].right.table}
      ensures order[0] < |old(pre)| && order[1] < |old(pre)| && |old(pre)[order[0]].rows| <= |old(pre)[order[1]].rows|
    {
      hide QueryOk, Going, Rearranged, OpOk, ColumnOk, Matches, Paired, ColId;
      ops := SmallestFirst(ops0);
      QueryIs(pre, ops);
      var l, r := ops[0].left, ops[0].right;
      used := [l.table, r.table];
      FirstColumns(pre, ops, l, r);
      TwoDiffer(pre, ops);
      ghost var pre0 := pre;
      var leftCol, rightCol := ColId(l.table, l.col), ColId(r.table, r.col);
      ghost var pairs;
      var li, rj;
      if |pre[l.table].rows| > |pre[r.table].rows| {
        pairs, li, rj := Run(r.table, rightCol, l.table, leftCol);
        FirstStep(pre0, ops0, ops, r, l, li, rj, pairs, pre);
        order, all := [r.table] + [l.table], Extend(Single(r.table, |pre0[r.table].rows|), l.table, pairs);
      } else {
        pairs, li, rj := Run(l.table, leftCol, r.table, rightCol);
        FirstStep(pre0, ops0, ops, l, r, li, rj, pairs, pre);
        order, all := [l.table] + [r.table], Extend(Single(l.table, |pre0[l.table].rows|), r.table, pairs);
      }
    }

    // join's first loop.
    method SmallestFirst(ops0: seq<Pred>) returns (ops: seq<Pred>)
      requires QueryOk(pre, ops0)
      ensures QueryOk(pre, ops) && Rearranged(ops0, ops)
      ensures (exists j :: 0 <= j < |ops0| && OnSmallest(ops0[j])) ==> |ops| > 0 && OnSmallest(ops[0])
    {
      hide QueryOk, Rearranged;
      ops := ops0;
      Itself(ops0);
      var j := 0;
      while j < |ops|
        invariant ops == ops0 && forall k :: 0 <= k < j && k < |ops0| ==> !OnSmallest(ops0[k])
      {
        if ops[j].left.table == minTable || ops[j].right.table == minTable {
          Swapped(ops, 0, j);
          ghost var a := ops[0 := ops[j]][j := ops[0]];
          QueryKept(pre, ops0, ops, a);
          var tmp := ops[0];
          ops := ops[0 := ops[j]];
          ops := ops[j := tmp];
          assert ops == a;
          FirstOk(pre, ops);
          if |pre[ops[0].left.table].rows| > |pre[ops[0].right.table].rows| {
            Flipped(ops, 0);
            QueryKept(pre, ops0, ops, ops[0 := Pred(ops[0].right, ops[0].left)]);
            ops := ops[0 := Pred(ops[0].right, ops[0].left)];
          }
          break;
        }
        j := j + 1;
      }
    }

    // The search for a predicate that touches a table already joined; it changes places with the i-th.
    method BringForward(ops1: seq<Pred>, i: nat, used: seq<nat>, ghost pre0: Tables, ghost ops0: seq<Pred>,
        ghost order: seq<nat>, ghost all: seq<Choice>) returns (ops: seq<Pred>)
      requires Going(pre0, pre, ops0, ops1, i, order, all) && i < |ops1| && SetOf(used) == SetOf(order)
      ensures Going(pre0, pre, ops0, ops, i, order, all) && |ops| == |ops1|
      ensures ops[i].left.table in used || ops[i].right.table in used
    {
      hide Going, Reached, QueryOk, Rearranged;
      ops := ops1;
      var leftExist := IsUsed(used, ops[i].left.table);
      var rightExist := IsUsed(used, ops[i].right.table);
      var j := i + 1;
      while !leftExist && !rightExist
        invariant i < j <= |ops| == |ops1| && Going(pre0, pre, ops0, ops, i, order, all)
        invariant leftExist == (ops[i].left.table in used) && rightExist == (ops[i].right.table in used)
        invariant forall x :: i < x < j ==> ops[x].left.table !in used && ops[x].right.table !in used
        decreases |ops| - j
      {
        OneLeft(pre0, pre, ops0, ops, i, order, all, used, j);
        GoingSwapped(pre0, pre, ops0, ops, i, order, all, j);
        ghost var a := ops[i := ops[j]][j := ops[i]];
        var tmp := ops[i];
        ops := ops[i := ops[j]];
        ops := ops[j := tmp];
        assert ops == a;
        leftExist := IsUsed(used, ops[i].left.table);
        rightExist := IsUsed(used, ops[i].right.table);
        j := j + 1;
      }
    }

    // The rest of a turn of join's loop: the new table is joined to the result so far.
    method NextRun(ops: seq<Pred>, i: nat, used0: seq<nat>, ghost pre0: Tables, ghost ops0: seq<Pred>,
        ghost order0: seq<nat>, ghost all0: seq<Choice>)
      returns (used: seq<nat>, ghost order: seq<nat>, ghost all: seq<Choice>)
      requires Going(pre0, pre, ops0, ops, i, order0, all0) && i < |ops| && UsedOk(pre0, used0) &&
        SetOf(used0) == SetOf(order0)
      requires ops[i].left.table in used0 || ops[i].right.table in used0
      modifies this
      ensures Going(pre0, pre, ops0, ops, i + 1, order, all) && UsedOk(pre0, used) && SetOf(used) == SetOf(order)
    {
      hide Going, OpOk, ColumnOk, Matches, Paired, ColId;
      var l, r := ops[i].left, ops[i].right;
      ExactlyOne(pre0, pre, ops0, ops, i, order0, all0, used0);
      var leftExist := IsUsed(used0, l.table);
      var rightExist := IsUsed(used0, r.table);
      var leftCol, rightCol := ColId(l.table, l.col), ColId(r.table, r.col);
      ghost var before, pairs := pre, [];
      var li, rj;
      if leftExist && !rightExist {
        GoingColumns(pre0, pre, ops0, ops, i, order0, all0, l, r);
        used := used0 + [r.table];
        pairs, li, rj := Run(0, leftCol, r.table, rightCol);
        NextStep(pre0, before, ops0, ops, i, order0, all0, l, r, li, rj, pairs, pre);
        order, all := order0 + [r.table], Extend(all0, r.table, pairs);
      } else if !leftExist && rightExist {
        GoingColumns(pre0, pre, ops0, ops, i, order0, all0, r, l);
        used := used0 + [l.table];
        pairs, li, rj := Run(0, rightCol, l.table, leftCol);
        NextStep(pre0, before, ops0, ops, i, order0, all0, r, l, li, rj, pairs, pre);
        order, all := order0 + [l.table], Extend(all0, l.table, pairs);
      } else {
        assert false;
      }
    }

    // join: the sum of the key columns over the rows of the cross product of the query's tables that
    // meet all its predicates. all: those rows, as choices of one row a table.
    method Join(ops0: seq<Pred>) returns (sum: int, ghost all: seq<Choice>)
      requires QueryOk(pre, ops0)
      modifies this
      ensures Lists(old(pre), ops0, TablesOf(ops0), all) && sum == Int64(Total(old(pre), all))
    {
      hide QueryOk, Going, Lists, TablesOf, Total, Int64, Reached, UsedOk, Rearranged;
      ghost var pre0 := pre;
      ghost var order;
      var ops, used;
      ops, used, order, all := FirstRun(ops0);
      var i := 1;
      while i < |ops|
        invariant 1 <= i && Going(pre0, pre, ops0, ops, i, order, all) && UsedOk(pre0, used) &&
          SetOf(used) == SetOf(order)
        decreases |ops| - i
      {
        ops := BringForward(ops, i, used, pre0, ops0, order, all);
        used, order, all := NextRun(ops, i, used, pre0, ops0, order, all);
        i := i + 1;
        GoingIs(pre0, pre, ops0, ops, i, order, all);
        if |pre[0].rows| + 1 == 1 {
          Done(pre0, pre, ops0, ops, i, order, all);
          TotalOfNone(pre0);
          Int64Zero();
          return 0, all;
        }
      }
      GoingIs(pre0, pre, ops0, ops, i, order, all);
      Done(pre0, pre, ops0, ops, i, order, all);
      QueryIs(pre0, ops);
      sum := ResultSum(used, pre0, ops[..i], order, all);
    }
  }

  lemma {:induction false} FoundNext(c: Chain, v: int, k: nat, pairs: seq<(nat, nat)>)
    requires c != End
    ensures pairs + Found(c, v, k) == (if c.value == v then pairs + [(c.row, k)] else pairs) + Found(c.next, v, k)
  {
  }

  lemma {:induction false} PairedMore(left: Table, right: Table, rows: seq<seq<int>>, pairs: seq<(nat, nat)>, i: nat,
      k: nat)
    requires Paired(left, right, Table(left.header + right.header, rows), pairs) && i < |left.rows| && k < |right.rows|
    ensures Paired(left, right, Table(left.header + right.header, rows + [left.rows[i] + right.rows[k]]),
      pairs + [(i, k)])
  {
  }

  // The walk of one bucket: a joined row for each entry with the right row's value.
  method WalkChain(chain: Chain, keyData: int, left: Table, ghost col: nat, right: Table, k: nat, rows0: seq<seq<int>>,
      ghost pairs0: seq<(nat, nat)>)
    returns (rows: seq<seq<int>>, ghost pairs: seq<(nat, nat)>)
    requires ValuesIn(chain, left, col) && k < |right.rows|
    requires Paired(left, right, Table(left.header + right.header, rows0), pairs0)
    ensures pairs == pairs0 + Found(chain, keyData, k) &&
      Paired(left, right, Table(left.header + right.header, rows), pairs)
  {
    hide Paired;
    ghost var category := left.header + right.header;
    rows, pairs := rows0, pairs0;
    var tmp := chain;
    while tmp != End
      invariant ValuesIn(tmp, left, col) && pairs + Found(tmp, keyData, k) == pairs0 + Found(chain, keyData, k)
      invariant Paired(left, right, Table(category, rows), pairs)
      decreases tmp
    {
      FoundNext(tmp, keyData, k, pairs);
      if tmp.value == keyData {
        PairedMore(left, right, rows, pairs, tmp.row, k);
        rows := rows + [left.rows[tmp.row] + right.rows[k]];
        pairs := pairs + [(tmp.row, k)];
      }
      tmp := tmp.next;
    }
  }

  lemma {:induction false} BucketValues(c: Chain, t: Table, col: nat, n: nat, h: nat, m: nat)
    requires m > 0 && ColumnOk(t, col) && BucketOk(c, t, col, n, h, m)
    ensures ValuesIn(c, t, col)
  {
  }

  lemma {:induction false} NoMatches(left: Table, i: nat, right: Table, j: nat)
    ensures MatchesTo(left, i, right, j, 0, [])
  {
  }

  lemma {:induction false} AllMatches(left: Table, i: nat, right: Table, j: nat, pairs: seq<(nat, nat)>)
    requires MatchesTo(left, i, right, j, |right.rows|, pairs)
    ensures Matches(left, i, right, j, pairs)
  {
  }

  lemma {:induction false} TotalOfNone(pre: Tables)
    ensures Total(pre, []) == 0
  {
  }

  lemma {:induction false} QueryIs(pre: Tables, ops: seq<Pred>)
    requires QueryOk(pre, ops)
    ensures TablesOk(pre) && |ops| > 0 && |pre| > 0
  {
    hide TablesOf, PredsOk, NonNegative;
  }

  lemma {:induction false} FirstOk(pre: Tables, ops: seq<Pred>)
    requires QueryOk(pre, ops)
    ensures |ops| > 0 && ops[0].left.table < |pre| && ops[0].right.table < |pre|
  {
    hide TablesOf, NonNegative, TablesOk, Left;
    assert OpOk(pre, ops[0].left) && OpOk(pre, ops[0].right);
  }

  lemma {:induction false} TwoDiffer(pre: Tables, ops: seq<Pred>)
    requires QueryOk(pre, ops)
    ensures |ops| > 0 && UsedOk(pre, [ops[0].left.table, ops[0].right.table])
    ensures SetOf([ops[0].left.table, ops[0].right.table]) == SetOf([ops[0].left.table] + [ops[0].right.table])
    ensures SetOf([ops[0].left.table, ops[0].right.table]) == SetOf([ops[0].right.table] + [ops[0].left.table])
  {
    hide TablesOf, NonNegative, TablesOk, Left;
    assert OpOk(pre, ops[0].left) && OpOk(pre, ops[0].right);
    TwoTables(ops, 0);
    assert SetOf([ops[0].left.table, ops[0].right.table]) == {ops[0].left.table, ops[0].right.table};
  }

  // While nothing found so far touches a joined table, there is one more to look at.
  lemma {:induction false} OneLeft(pre0: Tables, pre: Tables, ops0: seq<Pred>, ops: seq<Pred>, i: nat, order: seq<nat>,
      all: seq<Choice>, used: seq<nat>, j: nat)
    requires Going(pre0, pre, ops0, ops, i, order, all) && i < j <= |ops| && SetOf(used) == SetOf(order)
    requires forall x :: i <= x < j ==> ops[x].left.table !in used && ops[x].right.table !in used
    ensures j < |ops|
  {
    hide Rearranged, Joined, TablesOk, PredsOk, NonNegative, Tree, Reached;
    var k := SomeTouches(ops, i, order);
    assert ops[k].left.table in SetOf(used) || ops[k].right.table in SetOf(used);
  }

  lemma {:induction false} ExactlyOne(pre0: Tables, pre: Tables, ops0: seq<Pred>, ops: seq<Pred>, i: nat,
      order: seq<nat>, all: seq<Choice>, used: seq<nat>)
    requires Going(pre0, pre, ops0, ops, i, order, all) && i < |ops| && UsedOk(pre0, used) &&
      SetOf(used) == SetOf(order)
    requires ops[i].left.table in used || ops[i].right.table in used
    ensures ops[i].left.table in used <==> ops[i].right.table !in used
    ensures forall t: nat :: t in used <==> t in order
    ensures forall t: nat :: t !in used && 1 <= t < |pre0| ==>
      UsedOk(pre0, used + [t]) && SetOf(used + [t]) == SetOf(order + [t])
    ensures 1 <= ops[i].left.table < |pre0| && 1 <= ops[i].right.table < |pre0|
  {
    hide Rearranged, Joined, TablesOk, NonNegative, Tree, Reached;
    assert OpOk(pre0, ops[i].left) && OpOk(pre0, ops[i].right);
    forall t: nat ensures t in used <==> t in order {
      assert t in SetOf(used) <==> t in SetOf(order);
    }
    TouchesOnce(ops, i, order, i);
    forall t: nat | t !in used && 1 <= t < |pre0| ensures UsedOk(pre0, used + [t]) &&
      SetOf(used + [t]) == SetOf(order + [t]) {
      NoRepeatsMore(used, t);
    }
  }
}
