// printShortestPath of p12.c: Dijkstra's algorithm with a heap that keeps stale entries.
module Dijkstra {
  import opened MinHeap
  import opened ShortestPath

  // A printed line: the vertices before v on its path, v and its distance.
  datatype Line = Line(path: seq<nat>, v: nat, cost: int)

  // How many edges there can be.
  function Limit(g: Graph): nat {
    if g.size == 0 then 0 else (g.size - 1) * (g.size - 1)
  }

  // Everything that holds between two turns of the loops.
  ghost predicate Loop(g: Graph, S: set<nat>, nodes: seq<Node>, walks: seq<seq<nat>>, bag: multiset<Entry>,
      used: set<(nat, nat)>, u: nat, i: nat)
  {
    && Progress(g, S, nodes, walks, bag) && |nodes| == g.size && RelaxedTo(g, S, nodes, u, i) &&
       Spent(g, S, nodes, used)
    && |bag| <= |used|
  }

  lemma {:induction false} LoopRelax(g: Graph, S: set<nat>, nodes: seq<Node>, walks: seq<seq<nat>>,
      bag: multiset<Entry>, used: set<(nat, nat)>, u: nat, i: nat)
    requires GraphOk(g) && SumsFit(g) && Loop(g, S, nodes, walks, bag, used, u, i) && u in S && u < g.size &&
      1 <= i < g.size
    ensures |walks| == |nodes| == g.size
    ensures IsEdge(g, u, i) ==> Int32(nodes[u].dist + Weight(g, u, i)) == nodes[u].dist + Weight(g, u, i) >= 0
    ensures
      var d := nodes[u].dist + Weight(g, u, i);
      if IsEdge(g, u, i) && d < nodes[i].dist then
        Loop(g, S, nodes[i := Node(d, u)], walks[i := walks[u] + [i]], bag + multiset{Entry(i, d)}, used + {(u, i)}, u,
          i + 1)
        && |bag| + 1 <= Limit(g)
      else Loop(g, S, nodes, walks, bag, used, u, i + 1)
  {
    hide GraphOk, SumsFit, Progress, RelaxedTo, Spent, IsEdge, Weight;
    Lengths(g, S, nodes, walks, bag);
    if IsEdge(g, u, i) {
      FinalFits(g, S, nodes, walks, bag, u, i);
      if nodes[u].dist + Weight(g, u, i) < nodes[i].dist {
        RelaxStep(g, S, nodes, walks, bag, used, u, i);
        var d := nodes[u].dist + Weight(g, u, i);
        SpentFew(g, S, nodes[i := Node(d, u)], used + {(u, i)});
      } else {
        SkipStep(g, S, nodes, u, i);
      }
    } else {
      SkipStep(g, S, nodes, u, i);
    }
  }

  lemma {:induction false} Lengths(g: Graph, S: set<nat>, nodes: seq<Node>, walks: seq<seq<nat>>, bag: multiset<Entry>)
    requires Progress(g, S, nodes, walks, bag)
    ensures |walks| == |nodes| == g.size && (forall v :: v in S ==> 1 <= v < g.size) && 1 in S
  {
  }

  lemma {:induction false} SpentFew(g: Graph, S: set<nat>, nodes: seq<Node>, used: set<(nat, nat)>)
    requires |nodes| == g.size && g.size >= 1 && Spent(g, S, nodes, used)
    ensures |used| <= Limit(g) && forall e :: e in used ==> IsEdge(g, e.0, e.1)
  {
    hide IsEdge, Weight;
    EdgesFew(g, used);
  }

  lemma {:induction false} LoopPop(g: Graph, S: set<nat>, nodes: seq<Node>, walks: seq<seq<nat>>, bag: multiset<Entry>,
      used: set<(nat, nat)>, e: Entry)
    requires GraphOk(g) && SumsFit(g) && Loop(g, S, nodes, walks, bag, used, 0, 0)
    requires e in bag && forall x :: x in bag ==> e.dist <= x.dist
    ensures 1 <= e.vertex < g.size && Loop(g, S + {e.vertex}, nodes, walks, bag - multiset{e}, used, e.vertex, 0)
  {
    hide GraphOk, SumsFit, Progress, RelaxedTo;
    PopStep(g, S, nodes, walks, bag, e);
    assert bag == (bag - multiset{e}) + multiset{e};
  }

  // Row 0 has no edges.
  lemma {:induction false} LoopFirst(g: Graph, S: set<nat>, nodes: seq<Node>, walks: seq<seq<nat>>,
      bag: multiset<Entry>, used: set<(nat, nat)>, u: nat)
    requires Loop(g, S, nodes, walks, bag, used, u, 0)
    ensures Loop(g, S, nodes, walks, bag, used, u, 1)
  {
    hide Progress, Spent, Weight;
  }

  lemma {:induction false} LoopDone(g: Graph, S: set<nat>, nodes: seq<Node>, walks: seq<seq<nat>>, bag: multiset<Entry>,
      used: set<(nat, nat)>, u: nat)
    requires Loop(g, S, nodes, walks, bag, used, u, g.size)
    ensures Loop(g, S, nodes, walks, bag, used, 0, 0)
  {
    hide Progress, Spent, RelaxedTo;
    AllRelaxed(g, S, nodes, u);
  }

  // printShortestPath. used: the edges for which an entry went into the heap, one entry an edge, so
  // that "Heap is Full" is out of reach.
  method ShortestPaths(g: Graph) returns (nodes: seq<Node>, lines: seq<Line>, ghost walks: seq<seq<nat>>,
      ghost inserted: nat, ghost used: set<(nat, nat)>)
    requires GraphOk(g) && SumsFit(g)
    ensures |nodes| == g.size && forall v :: 1 <= v < g.size ==> DistanceIs(g, v, nodes[v].dist)
    ensures |walks| == g.size && forall v :: 1 <= v < g.size ==> Answer(g, nodes, walks, v)
    ensures |lines| == g.size - 2 && forall j :: 0 <= j < |lines| ==> LineOk(nodes, walks, lines[j], j + 2)
    ensures inserted == |used| && forall e :: e in used ==> IsEdge(g, e.0, e.1)
  {
    var node: array<Node>;
    ghost var S;
    node, walks, S, inserted, used := Distances(g);
    nodes := node[..];
    forall v | 1 <= v < g.size ensures Answer(g, nodes, walks, v) && DistanceIs(g, v, nodes[v].dist) {
      Answered(g, S, nodes, walks, v);
      AnswerIs(g, nodes, walks, v);
    }
    lines := Print(g, nodes, S, walks);
  }

  // The search itself.
  method Distances(g: Graph) returns (node: array<Node>, ghost walks: seq<seq<nat>>, ghost S: set<nat>,
      ghost inserted: nat, ghost used: set<(nat, nat)>)
    requires GraphOk(g) && SumsFit(g)
    ensures fresh(node) && node.Length == g.size
    ensures Progress(g, S, node[..], walks, multiset{}) && RelaxedTo(g, S, node[..], 0, 0)
    ensures inserted == |used| && forall e :: e in used ==> IsEdge(g, e.0, e.1)
  {
    hide SumsFit, Loop, RelaxedTo, Progress, Spent, GraphOk, Limit, Bag, HeapOrder, IsEdge;
    SizeOk(g);
    var heap := new Heap(g.size * g.size);
    node := new Node[g.size](_ => Node(INFINITY, 0));
    node[1] := Node(0, 0);
    LoopStart(g, node[..]);
    inserted, used, walks := FirstEdges(g, heap, node, {1}, seq(g.size, _ => [1]));
    S, walks, inserted, used := Drain(g, heap, node, {1}, walks, inserted, used);
  }

  // The loop over deleteMin.
  method Drain(g: Graph, heap: Heap, node: array<Node>, ghost S0: set<nat>, ghost walks0: seq<seq<nat>>,
      ghost inserted0: nat, ghost used0: set<(nat, nat)>)
    returns (ghost S: set<nat>, ghost walks: seq<seq<nat>>, ghost inserted: nat, ghost used: set<(nat, nat)>)
    requires GraphOk(g) && SumsFit(g) && heap.Valid() && heap.capacity >= Limit(g) && node.Length == g.size
    requires Loop(g, S0, node[..], walks0, heap.Contents(), used0, 0, 0) && inserted0 == |used0|
    modifies heap`size, heap.element, node
    ensures Progress(g, S, node[..], walks, multiset{}) && RelaxedTo(g, S, node[..], 0, 0)
    ensures inserted == |used| && forall e :: e in used ==> IsEdge(g, e.0, e.1)
  {
    hide SumsFit, Loop, RelaxedTo, Progress, Spent, GraphOk, Limit, Bag, HeapOrder, IsEdge;
    SizeOk(g);
    S, walks, inserted, used := S0, walks0, inserted0, used0;
    while heap.size != 0
      invariant heap.Valid() && Loop(g, S, node[..], walks, heap.Contents(), used, 0, 0) && inserted == |used|
      decreases Limit(g) - inserted, heap.size
    {
      ghost var bag := heap.Contents();
      var e := heap.DeleteMin();
      LoopPop(g, S, node[..], walks, bag, used, e);
      var u := e.vertex;
      S := S + {u};
      LoopFirst(g, S, node[..], walks, heap.Contents(), used, u);
      inserted, used, walks := Relax(g, heap, node, u, S, walks, inserted, used);
    }
    EmptyBag(heap.element[..heap.size + 1]);
    LoopEnds(g, S, node[..], walks, heap.Contents(), used);
  }

  lemma {:induction false} SizeOk(g: Graph)
    requires GraphOk(g)
    ensures g.size >= 2 && Limit(g) < g.size * g.size
  {
  }

  lemma {:induction false} EmptyBag(v: seq<Entry>)
    requires |v| == 1
    ensures Bag(v) == multiset{}
  {
    assert v[1..] == [];
  }

  lemma {:induction false} LoopStart(g: Graph, nodes: seq<Node>)
    requires GraphOk(g) && |nodes| == g.size && nodes[1] == Node(0, 0) && forall v :: 2 <= v < g.size ==>
      nodes[v] == Node(INFINITY, 0)
    ensures Loop(g, {1}, nodes, seq(g.size, _ => [1]), multiset{}, {}, 1, 2)
  {
    StartStep(g, nodes);
    hide Progress, RelaxedTo, Spent;
  }

  lemma {:induction false} LoopEnds(g: Graph, S: set<nat>, nodes: seq<Node>, walks: seq<seq<nat>>, bag: multiset<Entry>,
      used: set<(nat, nat)>)
    requires Loop(g, S, nodes, walks, bag, used, 0, 0) && bag == multiset{} && g.size >= 1
    ensures Progress(g, S, nodes, walks, multiset{}) && |nodes| == g.size && RelaxedTo(g, S, nodes, 0, 0)
    ensures |used| <= Limit(g) && forall e :: e in used ==> IsEdge(g, e.0, e.1)
  {
    hide Progress, RelaxedTo, Spent;
    SpentFew(g, S, nodes, used);
  }

  lemma {:induction false} LoopIs(g: Graph, S: set<nat>, nodes: seq<Node>, walks: seq<seq<nat>>, bag: multiset<Entry>,
      used: set<(nat, nat)>, u: nat, i: nat)
    requires Loop(g, S, nodes, walks, bag, used, u, i)
    ensures |nodes| == |walks| == g.size && 1 in S && (forall v :: v in S ==> 1 <= v < g.size) &&
      (g.size >= 1 ==> |used| <= Limit(g))
  {
    hide Progress, RelaxedTo, Spent;
    Lengths(g, S, nodes, walks, bag);
    if g.size >= 1 { SpentFew(g, S, nodes, used); }
  }

  // The first loop: every edge out of vertex 1.
  method FirstEdges(g: Graph, heap: Heap, node: array<Node>, ghost S: set<nat>, ghost walks0: seq<seq<nat>>)
    returns (ghost inserted: nat, ghost used: set<(nat, nat)>, ghost walks: seq<seq<nat>>)
    requires GraphOk(g) && SumsFit(g) && heap.Valid() && heap.capacity >= Limit(g) && node.Length == g.size
    requires Loop(g, S, node[..], walks0, heap.Contents(), {}, 1, 2) && S == {1} && node[1].dist == 0
    requires forall k :: 2 <= k < g.size ==> node[k].dist == INFINITY
    modifies heap`size, heap.element, node
    ensures heap.Valid() && Loop(g, S, node[..], walks, heap.Contents(), used, 0, 0) && inserted == |used|
  {
    hide SumsFit, Loop, GraphOk, Limit, Bag, HeapOrder, Weight, IsEdge;
    SizeOk(g);
    inserted, used, walks := 0, {}, walks0;
    var i := 2;
    while i < g.size
      invariant 2 <= i <= g.size && heap.Valid() && inserted == |used|
      invariant Loop(g, S, node[..], walks, heap.Contents(), used, 1, i)
      invariant node[1].dist == 0 && forall k :: i <= k < g.size ==> node[k].dist == INFINITY
    {
      LoopRelax(g, S, node[..], walks, heap.Contents(), used, 1, i);
      EdgeIs(g, 1, i);
      if g.vertices[1][i] != INFINITY {
        BagSize(heap.element[..heap.size + 1]);
        UsedNew(g, S, node[..], walks, heap.Contents(), used, 1, i);
        ghost var after := node[..][i := Node(g.vertices[1][i], 1)];
        node[i] := Node(g.vertices[1][i], 1);
        assert node[..] == after;
        heap.Insert(i, node[i].dist);
        inserted, used, walks := inserted + 1, used + {(1, i)}, walks[i := walks[1] + [i]];
      }
      i := i + 1;
    }
    LoopDone(g, S, node[..], walks, heap.Contents(), used, 1);
  }

  // The loop over the edges out of the vertex deleteMin gave.
  method Relax(g: Graph, heap: Heap, node: array<Node>, u: nat, ghost S: set<nat>, ghost walks0: seq<seq<nat>>,
      ghost inserted0: nat, ghost used0: set<(nat, nat)>)
    returns (ghost inserted: nat, ghost used: set<(nat, nat)>, ghost walks: seq<seq<nat>>)
    requires GraphOk(g) && SumsFit(g) && heap.Valid() && heap.capacity >= Limit(g) && node.Length == g.size
    requires Loop(g, S, node[..], walks0, heap.Contents(), used0, u, 1) && u in S && u < g.size && inserted0 == |used0|
    modifies heap`size, heap.element, node
    ensures heap.Valid() && Loop(g, S, node[..], walks, heap.Contents(), used, 0, 0) && inserted == |used|
    ensures inserted0 <= inserted <= Limit(g) && heap.size == old(heap.size) + inserted - inserted0
  {
    hide SumsFit, Loop, GraphOk, Limit, Bag, HeapOrder, Weight, IsEdge;
    SizeOk(g);
    inserted, used, walks := inserted0, used0, walks0;
    var i := 1;
    while i < g.size
      invariant 1 <= i <= g.size && heap.Valid() && inserted == |used|
      invariant Loop(g, S, node[..], walks, heap.Contents(), used, u, i)
      invariant inserted0 <= inserted && heap.size == old(heap.size) + inserted - inserted0
    {
      LoopIs(g, S, node[..], walks, heap.Contents(), used, u, i);
      LoopRelax(g, S, node[..], walks, heap.Contents(), used, u, i);
      EdgeIs(g, u, i);
      if g.vertices[u][i] != INFINITY {
        if Int32(node[u].dist + g.vertices[u][i]) < node[i].dist {
          BagSize(heap.element[..heap.size + 1]);
          UsedNew(g, S, node[..], walks, heap.Contents(), used, u, i);
          var d := Int32(node[u].dist + g.vertices[u][i]);
          ghost var after := node[..][i := Node(d, u)];
          node[i] := Node(d, u);
          assert node[..] == after;
          heap.Insert(i, node[i].dist);
          inserted, used, walks := inserted + 1, used + {(u, i)}, walks[i := walks[u] + [i]];
        }
      }
      i := i + 1;
    }
    LoopIs(g, S, node[..], walks, heap.Contents(), used, u, i);
    LoopDone(g, S, node[..], walks, heap.Contents(), used, u);
  }

  lemma {:induction false} EdgeIs(g: Graph, u: nat, i: nat)
    requires GraphOk(g) && 1 <= u < g.size && 1 <= i < g.size
    ensures |g.vertices| == g.size && |g.vertices[u]| == g.size && Weight(g, u, i) == g.vertices[u][i] <= INFINITY
    ensures IsEdge(g, u, i) <==> g.vertices[u][i] != INFINITY
  {
  }

  lemma {:induction false} BagSize(v: seq<Entry>)
    requires |v| >= 1
    ensures |Bag(v)| == |v| - 1
  {
  }

  lemma {:induction false} UsedNew(g: Graph, S: set<nat>, nodes: seq<Node>, walks: seq<seq<nat>>, bag: multiset<Entry>,
      used: set<(nat, nat)>, u: nat, i: nat)
    requires Loop(g, S, nodes, walks, bag, used, u, i) && IsEdge(g, u, i) &&
      nodes[u].dist + Weight(g, u, i) < nodes[i].dist
    ensures (u, i) !in used
  {
    hide Progress, RelaxedTo, Weight;
  }

  // Printing.

  ghost predicate LineOk(nodes: seq<Node>, walks: seq<seq<nat>>, l: Line, j: nat)
    requires j < |nodes| == |walks|
  {
    && l.v == j && l.cost == nodes[j].dist
    && (if nodes[j].dist < INFINITY then l.path + [j] == walks[j] else l.path == [])
  }

  function Reverse(s: seq<nat>): seq<nat> {
    if s == [] then [] else [s[|s| - 1]] + Reverse(s[..|s| - 1])
  }

  lemma {:induction false} ReverseAt(s: seq<nat>)
    ensures |Reverse(s)| == |s| && forall i :: 0 <= i < |s| ==> Reverse(s)[i] == s[|s| - 1 - i]
  {
    if s != [] {
      ReverseAt(s[..|s| - 1]);
    }
  }

  // The printing loops: predecessors of j collected in k, then printed from the last.
  method Print(g: Graph, nodes: seq<Node>, ghost S: set<nat>, ghost walks: seq<seq<nat>>) returns (lines: seq<Line>)
    requires g.size >= 2 && Progress(g, S, nodes, walks, multiset{}) && |nodes| == |walks| == g.size
    ensures |lines| == g.size - 2 && forall j :: 0 <= j < |lines| ==> LineOk(nodes, walks, lines[j], j + 2)
  {
    hide Progress;
    FinalFew(g, S, nodes, walks, multiset{});
    lines := [];
    var k := new nat[g.size];
    var j := 2;
    while j < g.size
      invariant 2 <= j <= g.size && |lines| == j - 2
      invariant forall x :: 0 <= x < |lines| ==> LineOk(nodes, walks, lines[x], x + 2)
    {
      var path := PrintPath(g, nodes, S, walks, k, j);
      lines := lines + [Line(path, j, nodes[j].dist)];
      j := j + 1;
    }
  }

  method PrintPath(g: Graph, nodes: seq<Node>, ghost S: set<nat>, ghost walks: seq<seq<nat>>, k: array<nat>, j: nat)
    returns (path: seq<nat>)
    requires Progress(g, S, nodes, walks, multiset{}) && |nodes| == |walks| == g.size == k.Length && |S| < g.size &&
      2 <= j < g.size
    modifies k
    ensures if nodes[j].dist < INFINITY then path + [j] == walks[j] else path == []
  {
    hide Progress, Reverse;
    PrevWalk(g, S, nodes, walks, j);
    ReverseNone();
    var m, i := 0, j;
    ghost var tail: seq<nat> := [];
    assert k[..0] == [];
    while i < g.size && nodes[i].prev != 0
      invariant 1 <= i < g.size && m <= g.size
      invariant nodes[i].dist < INFINITY ==> |walks[i]| + m <= |S|
      invariant nodes[j].dist < INFINITY ==> nodes[i].dist < INFINITY && walks[j] == walks[i] + tail
      invariant nodes[j].dist >= INFINITY ==> m == 0 && i == j
      invariant [i] + tail == Reverse(k[..m]) + [j]
      decreases |walks[i]|
    {
      PrevWalk(g, S, nodes, walks, i);
      k[m] := nodes[i].prev;
      ReverseMore(k[..m], nodes[i].prev);
      assert k[..m + 1] == k[..m] + [nodes[i].prev];
      tail := [i] + tail;
      m := m + 1;
      i := nodes[i].prev;
    }
    PrevWalk(g, S, nodes, walks, i);
    ReverseAt(k[..m]);
    path := [];
    var x := m;
    while x > 0
      invariant 0 <= x <= m && path == Reverse(k[..m])[..m - x]
    {
      x := x - 1;
      path := path + [k[x]];
    }
  }

  lemma {:induction false} ReverseNone()
    ensures Reverse([]) == []
  {
  }

  lemma {:induction false} ReverseMore(s: seq<nat>, x: nat)
    ensures Reverse(s + [x]) == [x] + Reverse(s)
  {
    assert (s + [x])[..|s|] == s;
  }
}
