// Topsort: vertices leave an array queue when nothing left points at them.
module TopSort {
  import opened Basics
  import opened TopOrder

  const MAXQUEUE := 100

  // What holds of the vertices queued so far (the first count of them taken out again) and the indegrees
  // left, when the edges of the last one taken out have been followed to the vertices below i.
  ghost predicate Sorting(E: set<Edge>, n: nat, pushed: seq<nat>, count: nat, indegree: seq<int>, i: nat) {
    && count <= |pushed| && |indegree| == n && Queued(E, n, pushed)
    && (forall w: nat :: w < n ==> DegreeOk(E, n, pushed, count, indegree, i, w))
  }

  // Each vertex is queued once, after all that have an edge to it.
  ghost predicate Queued(E: set<Edge>, n: nat, pushed: seq<nat>) {
    NoRepeats(pushed) && (forall v :: v in pushed ==> v < n) && Ordered(E, pushed)
  }

  // An indegree counts the edges from vertices not taken out; it is 0 once the vertex is queued.
  ghost predicate DegreeOk(E: set<Edge>, n: nat, pushed: seq<nat>, count: nat, indegree: seq<int>, i: nat, w: nat)
    requires count <= |pushed| && w < n == |indegree|
  {
    indegree[w] == |Missing(E, n, w, Out(pushed, count, i, w))| && (indegree[w] == 0 <==> w in pushed)
  }

  // The vertices whose edges to w have been followed.
  ghost function Out(pushed: seq<nat>, count: nat, i: nat, w: nat): set<nat>
    requires count <= |pushed|
  {
    SetOf(pushed[..if w < i || count == 0 then count else count - 1])
  }

  class Queue {
    const key: array<nat>
    var first: nat
    var rear: int
    var qsize: nat

    ghost predicate Valid()
      reads this
    {
      -1 <= rear < key.Length && first <= rear + 1 && qsize == rear + 1 - first
    }

    // Everything ever queued.
    ghost function Pushed(): seq<nat>
      requires Valid()
      reads this, key
    {
      key[..rear + 1]
    }

    // MakeNewQueue.
    constructor (x: nat)
      ensures Valid() && fresh(key) && key.Length == x && first == 0 && rear == -1
    {
      key := new nat[x];
      first, rear, qsize := 0, -1, 0;
    }

    method IsEmpty() returns (r: bool)
      requires Valid()
      ensures r <==> first == |Pushed()|
    {
      r := qsize == 0;
    }

    // -1 if there is nothing in the queue.
    method Dequeue() returns (v: int)
      requires Valid()
      modifies this`first, this`qsize
      ensures Valid() && Pushed() == old(Pushed())
      ensures old(first) == |old(Pushed())| ==> v == -1 && first == old(first)
      ensures old(first) < |old(Pushed())| ==> v == old(Pushed())[old(first)] && first == old(first) + 1
    {
      if qsize == 0 {
        return -1;
      }
      qsize := qsize - 1;
      v := key[first];
      first := first + 1;
    }

    // The queue is not circular: there must be room after rear, unless the queue is full and nothing is done.
    method Enqueue(x: nat)
      requires Valid() && (rear + 1 < key.Length || qsize == key.Length)
      modifies this`rear, this`qsize, key
      ensures Valid() && first == old(first)
      ensures Pushed() == if old(qsize) == key.Length then old(Pushed()) else old(Pushed()) + [x]
    {
      if qsize == key.Length {
        return;
      }
      qsize := qsize + 1;
      rear := rear + 1;
      key[rear] := x;
    }
  }

  class Graph {
    const node: array<int>
    const matrix: array2<int>

    ghost predicate Valid() {
      matrix.Length0 == matrix.Length1 == node.Length
    }

    ghost function Edges(): (E: set<Edge>)
      requires Valid()
      reads matrix
      ensures Within(E, node.Length)
      ensures forall i: nat, j: nat :: i < node.Length && j < node.Length ==> ((i, j) in E <==> matrix[i, j] == 1)
    {
      set i: nat, j: nat | i < node.Length && j < node.Length && matrix[i, j] == 1 :: (i, j)
    }

    // CreateGraph: the nodes listed before the first -1, and no edges.
    constructor (nodes: seq<int>)
      requires -1 in nodes
      ensures Valid() && fresh(node) && fresh(matrix) && Edges() == {}
      ensures node.Length < |nodes| && node[..] == nodes[..node.Length] && nodes[node.Length] == -1 && -1 !in node[..]
    {
      var size := 0;
      while nodes[size] != -1
        invariant size < |nodes| && -1 !in nodes[..size] && -1 in nodes[size..]
        decreases |nodes| - size
      {
        size := size + 1;
      }
      node := new int[size](i requires 0 <= i < size <= |nodes| => nodes[i]);
      matrix := new int[size, size]((i, j) => 0);
    }

    // InsertEdge: an edge from every node numbered a to every node numbered b.
    method InsertEdge(a: int, b: int)
      requires Valid()
      modifies matrix
      ensures forall i: nat, j: nat :: i < node.Length && j < node.Length ==>
        ((i, j) in Edges() <==> (i, j) in old(Edges()) || (node[i] == a && node[j] == b))
    {
      var i := 0;
      while i < node.Length
        invariant i <= node.Length
        invariant forall k, j :: 0 <= k < node.Length && 0 <= j < node.Length ==>
          matrix[k, j] == if k < i && node[k] == a && node[j] == b then 1 else old(matrix[k, j])
        modifies matrix
      {
        var j := 0;
        while j < node.Length
          invariant j <= node.Length
          invariant forall k, l :: 0 <= k < node.Length && 0 <= l < node.Length ==>
            matrix[k, l] == if (k < i || (k == i && l < j)) && node[k] == a && node[l] == b then 1
              else old(matrix[k, l])
          modifies matrix
        {
          if node[i] == a && node[j] == b {
            matrix[i, j] := 1;
          }
          j := j + 1;
        }
        i := i + 1;
      }
    }

    // The first loops of Topsort.
    method CountEdges() returns (indegree: array<int>)
      requires Valid()
      ensures fresh(indegree) && indegree.Length == node.Length
      ensures forall w: nat :: w < node.Length ==> indegree[w] == |Missing(Edges(), node.Length, w, {})|
    {
      ghost var E, n := Edges(), node.Length;
      indegree := new int[node.Length](_ => 0);
      var i := 0;
      NoSources(E, n);
      while i < node.Length
        invariant i <= node.Length
        invariant forall w: nat :: w < n ==> indegree[w] == |Sources(E, w, i)|
        modifies indegree
      {
        var j := 0;
        while j < node.Length
          invariant j <= node.Length
          invariant forall w: nat :: w < n ==> indegree[w] == |Sources(E, w, if w < j then i + 1 else i)|
          modifies indegree
        {
          OneSource(E, j, i);
          if matrix[i, j] == 1 {
            indegree[j] := indegree[j] + 1;
          }
          j := j + 1;
        }
        i := i + 1;
      }
      forall w: nat | w < n ensures Missing(E, n, w, {}) == Sources(E, w, n) {
      }
    }

    // The vertices nothing points at are queued.
    method QueueSources(Q: Queue, indegree: array<int>)
      requires Valid() && Q.Valid() && node.Length <= Q.key.Length && Q.first == 0 && Q.rear == -1 &&
        indegree.Length == node.Length
      requires forall w: nat :: w < node.Length ==> indegree[w] == |Missing(Edges(), node.Length, w, {})|
      modifies Q, Q.key
      ensures Q.Valid() && Q.first == 0 && Sorting(Edges(), node.Length, Q.Pushed(), 0, indegree[..], node.Length)
    {
      ghost var E, n := Edges(), node.Length;
      var i := 0;
      while i < node.Length
        invariant i <= node.Length && Q.Valid() && Q.first == 0 && Q.rear < i
        invariant NoRepeats(Q.Pushed()) && forall w: nat :: w in Q.Pushed() <==> w < i && indegree[w] == 0
        modifies Q, Q.key
      {
        if indegree[i] == 0 {
          Q.Enqueue(i);
        }
        i := i + 1;
      }
      Sources0(E, n, Q.Pushed(), indegree[..]);
    }

    // The loop over the edges of a vertex taken out.
    method Follow(v: nat, Q: Queue, indegree: array<int>)
      requires Valid() && Q.Valid() && node.Length <= Q.key.Length && indegree.Length == node.Length
      requires 0 < Q.first <= |Q.Pushed()| && v == Q.Pushed()[Q.first - 1]
      requires Sorting(Edges(), node.Length, Q.Pushed(), Q.first, indegree[..], 0)
      modifies Q`rear, Q`qsize, Q.key, indegree
      ensures Q.Valid() && old(Q.Pushed()) <= Q.Pushed() &&
        Sorting(Edges(), node.Length, Q.Pushed(), Q.first, indegree[..], node.Length)
    {
      hide DegreeOk, Out;
      ghost var E, n, p0 := Edges(), node.Length, Q.Pushed();
      QueuedFew(E, n, p0);
      assert v in p0;
      var i := 0;
      while i < node.Length
        invariant i <= node.Length && Q.Valid() && Q.first <= |Q.Pushed()| && p0 <= Q.Pushed()
        invariant Sorting(E, n, Q.Pushed(), Q.first, indegree[..], i)
        modifies Q`rear, Q`qsize, Q.key, indegree
      {
        ghost var p, was := Q.Pushed(), indegree[..];
        if matrix[v, i] == 1 {
          FollowEdge(E, n, p, Q.first, was, i);
          indegree[i] := indegree[i] - 1;
          if indegree[i] == 0 {
            FollowLast(E, n, p, Q.first, was, i);
            Q.Enqueue(i);
          } else {
            FollowOne(E, n, p, Q.first, was, i);
          }
          assert indegree[..] == was[i := was[i] - 1];
        } else {
          FollowNone(E, n, p, Q.first, was, i);
        }
        i := i + 1;
      }
    }

    // Topsort: the nodes in an order in which every edge goes forward, or !ok if there is a cycle.
    method Topsort() returns (ok: bool, printed: seq<int>, ghost order: seq<nat>)
      requires Valid() && node.Length <= MAXQUEUE
      ensures ok ==> Topological(Edges(), node.Length, order) && |printed| == node.Length
      ensures ok ==> forall i :: 0 <= i < node.Length ==> order[i] < node.Length && printed[i] == node[order[i]]
      ensures ok <==> !Cyclic(Edges())
    {
      hide DegreeOk, Queued, Out, Cyclic;
      ghost var E, n := Edges(), node.Length;
      var Q := new Queue(MAXQUEUE);
      var num := new nat[node.Length](_ => 0);
      var indegree := CountEdges();
      QueueSources(Q, indegree);
      var count := Drain(Q, num, indegree);
      printed, order := [], Q.Pushed();
      if count != node.Length {
        LeftOver(E, n, order, indegree[..]);
        return false, printed, order;
      }
      Finished(E, n, order);
      printed := Labels(num);
      ok := true;
    }

    // The main loop of Topsort, until the queue is empty.
    method Drain(Q: Queue, num: array<nat>, indegree: array<int>) returns (count: nat)
      requires Valid() && Q.Valid() && node.Length <= Q.key.Length && num.Length == indegree.Length == node.Length &&
        num != Q.key
      requires Q.first == 0 && Sorting(Edges(), node.Length, Q.Pushed(), 0, indegree[..], node.Length)
      modifies Q, Q.key, num, indegree
      ensures Q.Valid() && count == |Q.Pushed()| <= node.Length && num[..count] == Q.Pushed()
      ensures Sorting(Edges(), node.Length, Q.Pushed(), count, indegree[..], node.Length)
    {
      hide DegreeOk, Queued, Out;
      ghost var E, n := Edges(), node.Length;
      count := 0;
      QueuedFew(E, n, Q.Pushed());
      while true
        invariant Q.Valid() && Q.first == count <= |Q.Pushed()| <= n &&
          Sorting(E, n, Q.Pushed(), count, indegree[..], n)
        invariant num[..count] == Q.Pushed()[..count]
        decreases n - count
        modifies Q, Q.key, num, indegree
      {
        var empty := Q.IsEmpty();
        if empty {
          break;
        }
        TakeOut(E, n, Q.Pushed(), count, indegree[..]);
        var v := Q.Dequeue();
        num[count] := v;
        count := count + 1;
        Follow(v, Q, indegree);
        QueuedFew(E, n, Q.Pushed());
      }
    }

    // The loop that prints the nodes.
    method Labels(num: array<nat>) returns (printed: seq<int>)
      requires num.Length == node.Length && forall i :: 0 <= i < num.Length ==> num[i] < node.Length
      ensures |printed| == node.Length && forall i :: 0 <= i < node.Length ==> printed[i] == node[num[i]]
    {
      printed := [];
      var i := 0;
      while i < node.Length
        invariant i <= node.Length && |printed| == i && forall k :: 0 <= k < i ==> printed[k] == node[num[k]]
      {
        printed := printed + [node[num[i]]];
        i := i + 1;
      }
    }
  }

  lemma {:induction false} Finished(E: set<Edge>, n: nat, order: seq<nat>)
    requires Within(E, n) && Queued(E, n, order) && |order| == n
    ensures Topological(E, n, order) && !Cyclic(E) && forall i :: 0 <= i < n ==> order[i] < n
  {
    OrderedAll(E, n, order);
    forall c ensures !Cycle(E, c) {
      NoCycle(E, n, order, c);
    }
    forall i | 0 <= i < n ensures order[i] < n {
      assert order[i] in order;
    }
  }

  // All the vertices taken out, and some never queued: they lie on or behind a cycle.
  lemma {:induction false} LeftOver(E: set<Edge>, n: nat, pushed: seq<nat>, indegree: seq<int>)
    requires Within(E, n) && Sorting(E, n, pushed, |pushed|, indegree, n) && |pushed| < n
    ensures Cyclic(E)
  {
    var left := Below(n) - SetOf(pushed);
    assert pushed[..|pushed|] == pushed;
    forall v: nat | v in left ensures Fed(E, left, v) {
      assert DegreeOk(E, n, pushed, |pushed|, indegree, n, v);
      var m := Missing(E, n, v, SetOf(pushed));
      assert m != {};
      var u :| u in m;
      assert u in left;
    }
    SetSize(pushed);
    SubsetCount(SetOf(pushed), Below(n));
    assert left != {};
    var v: nat :| v in left;
    var c := CycleFrom(E, n, left, [v]);
  }

  lemma {:induction false} TakeOut(E: set<Edge>, n: nat, pushed: seq<nat>, count: nat, indegree: seq<int>)
    requires Sorting(E, n, pushed, count, indegree, n) && count < |pushed|
    ensures Sorting(E, n, pushed, count + 1, indegree, 0) && |pushed| <= n && pushed[count] < n
  {
    QueuedFew(E, n, pushed);
    assert pushed[count] in pushed;
    var k := count + 1;
    forall w: nat | w < n ensures DegreeOk(E, n, pushed, k, indegree, 0, w) {
      assert DegreeOk(E, n, pushed, count, indegree, n, w);
    }
  }

  // The vertices below i with an edge to w.
  ghost function Sources(E: set<Edge>, w: nat, i: nat): (r: set<nat>)
    ensures forall u: nat :: u in r <==> u < i && (u, w) in E
  {
    set u: nat | u < i && (u, w) in E
  }

  lemma {:induction false} NoSources(E: set<Edge>, n: nat)
    ensures forall w: nat :: w < n ==> Sources(E, w, 0) == {}
  {
  }

  lemma {:induction false} OneSource(E: set<Edge>, w: nat, i: nat)
    ensures |Sources(E, w, i + 1)| == |Sources(E, w, i)| + if (i, w) in E then 1 else 0
  {
    if (i, w) in E {
      assert Sources(E, w, i + 1) == Sources(E, w, i) + {i};
    } else {
      assert Sources(E, w, i + 1) == Sources(E, w, i);
    }
  }

  lemma {:induction false} Sources0(E: set<Edge>, n: nat, pushed: seq<nat>, indegree: seq<int>)
    requires |indegree| == n && Within(E, n) && NoRepeats(pushed) && forall w: nat :: w in pushed <==>
      w < n && indegree[w] == 0
    requires forall w: nat :: w < n ==> indegree[w] == |Missing(E, n, w, {})|
    ensures Sorting(E, n, pushed, 0, indegree, n)
  {
    assert SetOf(pushed[..0]) == {};
    forall k | 0 <= k < |pushed| ensures Missing(E, n, pushed[k], {}) == {} {
      assert pushed[k] in pushed;
    }
  }

  lemma {:induction false} QueuedFew(E: set<Edge>, n: nat, pushed: seq<nat>)
    requires Queued(E, n, pushed)
    ensures |pushed| <= n
  {
    Fill(pushed, n);
  }

  // An edge followed: one vertex fewer is missing, which had not been queued.
  lemma {:induction false} FollowEdge(E: set<Edge>, n: nat, pushed: seq<nat>, count: nat, indegree: seq<int>, i: nat)
    requires Within(E, n) && 0 < count <= |pushed| && i < n && Sorting(E, n, pushed, count, indegree, i) &&
      (pushed[count - 1], i) in E
    ensures indegree[i] > 0 && i !in pushed && |pushed| < n && NoRepeats(pushed + [i]) &&
      forall v :: v in pushed + [i] ==> v < n
    ensures indegree[i] - 1 == |Missing(E, n, i, SetOf(pushed[..count]))|
  {
    var v := pushed[count - 1];
    assert DegreeOk(E, n, pushed, count, indegree, i, i);
    OutMore(pushed, count, v);
    var before, after := Missing(E, n, i, Out(pushed, count, i, i)), Missing(E, n, i, SetOf(pushed[..count]));
    assert v in pushed;
    assert v in before;
    assert after == before - {v};
    assert |after| == |before| - 1;
    AppendQueued(E, n, pushed, i);
  }

  // Not the last edge into its vertex.
  lemma {:induction false} FollowOne(E: set<Edge>, n: nat, pushed: seq<nat>, count: nat, indegree: seq<int>, i: nat)
    requires Within(E, n) && 0 < count <= |pushed| && i < n && Sorting(E, n, pushed, count, indegree, i) &&
      (pushed[count - 1], i) in E
    requires indegree[i] > 1
    ensures Sorting(E, n, pushed, count, indegree[i := indegree[i] - 1], i + 1)
  {
    FollowEdge(E, n, pushed, count, indegree, i);
    var d, j := indegree[i := indegree[i] - 1], i + 1;
    forall w: nat | w < n ensures DegreeOk(E, n, pushed, count, d, j, w) {
      assert DegreeOk(E, n, pushed, count, indegree, i, w);
    }
  }

  lemma {:induction false} OutMore(pushed: seq<nat>, count: nat, v: nat)
    requires 0 < count <= |pushed| && v == pushed[count - 1] && NoRepeats(pushed)
    ensures SetOf(pushed[..count]) == SetOf(pushed[..count - 1]) + {v} && v !in SetOf(pushed[..count - 1])
  {
    assert pushed[..count] == pushed[..count - 1] + [v];
  }

  lemma {:induction false} AppendQueued(E: set<Edge>, n: nat, pushed: seq<nat>, i: nat)
    requires Queued(E, n, pushed) && i < n && i !in pushed
    ensures |pushed| < n && NoRepeats(pushed + [i]) && forall v :: v in pushed + [i] ==> v < n
  {
    Fill(pushed + [i], n);
  }

  // The last edge into a vertex followed: it is queued.
  lemma {:induction false} FollowLast(E: set<Edge>, n: nat, pushed: seq<nat>, count: nat, indegree: seq<int>, i: nat)
    requires Within(E, n) && 0 < count <= |pushed| && i < n && Sorting(E, n, pushed, count, indegree, i) &&
      (pushed[count - 1], i) in E
    requires indegree[i] == 1
    ensures Sorting(E, n, pushed + [i], count, indegree[i := 0], i + 1)
  {
    FollowEdge(E, n, pushed, count, indegree, i);
    var p, d, j := pushed + [i], indegree[i := 0], i + 1;
    forall k, u | 0 <= k < |p| && (u, p[k]) in E ensures u in p[..k] {
      if k < |pushed| {
        assert p[..k] == pushed[..k];
      } else {
        assert u !in Missing(E, n, i, SetOf(pushed[..count]));
        assert p[..k] == pushed;
      }
    }
    assert p[..count] == pushed[..count] && p[..count - 1] == pushed[..count - 1];
    forall w: nat | w < n ensures DegreeOk(E, n, p, count, d, j, w) {
      assert DegreeOk(E, n, pushed, count, indegree, i, w);
    }
  }

  // No edge to follow.
  lemma {:induction false} FollowNone(E: set<Edge>, n: nat, pushed: seq<nat>, count: nat, indegree: seq<int>, i: nat)
    requires Within(E, n) && 0 < count <= |pushed| && i < n && Sorting(E, n, pushed, count, indegree, i) &&
      (pushed[count - 1], i) !in E
    ensures Sorting(E, n, pushed, count, indegree, i + 1)
  {
    OutMore(pushed, count, pushed[count - 1]);
    var j := i + 1;
    forall w: nat | w < n ensures DegreeOk(E, n, pushed, count, indegree, j, w) {
      assert DegreeOk(E, n, pushed, count, indegree, i, w);
      assert Missing(E, n, i, SetOf(pushed[..count])) == Missing(E, n, i, SetOf(pushed[..count - 1]));
    }
  }
}
