// What p12.c's Dijkstra keeps true: graphs, walks and the step lemmas.
module ShortestPath {
  import opened MinHeap

  const INFINITY := 2147483647

  // vertices[i][j] is the weight of the edge from i to j, INFINITY for no edge. Index 0 is not used.
  datatype Graph = Graph(size: nat, vertices: seq<seq<int>>)

  datatype Node = Node(dist: int, prev: nat)

  ghost predicate GraphOk(g: Graph) {
    && g.size >= 2 && |g.vertices| == g.size
    && (forall i :: 0 <= i < g.size ==> |g.vertices[i]| == g.size)
    && (forall i, j :: 1 <= i < g.size && 1 <= j < g.size ==> 0 <= Weight(g, i, j) <= INFINITY)
  }

  function Weight(g: Graph, i: nat, j: nat): int {
    if i < |g.vertices| && j < |g.vertices[i]| then g.vertices[i][j] else INFINITY
  }

  predicate IsEdge(g: Graph, i: nat, j: nat) {
    1 <= i < g.size && 1 <= j < g.size && Weight(g, i, j) != INFINITY
  }

  // A walk along edges from vertex 1.
  predicate IsWalk(g: Graph, p: seq<nat>) {
    if |p| <= 1 then p == [1] else IsWalk(g, p[..|p| - 1]) && IsEdge(g, p[|p| - 2], p[|p| - 1])
  }

  function Cost(g: Graph, p: seq<nat>): int {
    if |p| <= 1 then 0 else Cost(g, p[..|p| - 1]) + Weight(g, p[|p| - 2], p[|p| - 1])
  }

  predicate WalkTo(g: Graph, p: seq<nat>, v: nat) {
    |p| > 0 && p[|p| - 1] == v && IsWalk(g, p)
  }

  ghost predicate AtMostAll(g: Graph, v: nat, d: int) {
    forall q :: WalkTo(g, q, v) ==> d <= Cost(g, q)
  }

  ghost predicate Shortest(g: Graph, p: seq<nat>, v: nat) {
    WalkTo(g, p, v) && AtMostAll(g, v, Cost(g, p))
  }

  // A shortest walk and one edge more cost less than INFINITY: the sums the program forms fit in an int.
  ghost predicate SumsFit(g: Graph) {
    forall p, u, v :: Shortest(g, p, u) && IsEdge(g, u, v) ==> Cost(g, p) + Weight(g, u, v) < INFINITY
  }

  // A 32-bit int.
  function Int32(x: int): int {
    (x + 0x8000_0000) % 0x1_0000_0000 - 0x8000_0000
  }

  lemma {:induction false} Extend(g: Graph, p: seq<nat>, u: nat, v: nat)
    requires WalkTo(g, p, u) && IsEdge(g, u, v)
    ensures WalkTo(g, p + [v], v) && Cost(g, p + [v]) == Cost(g, p) + Weight(g, u, v)
  {
    assert (p + [v])[..|p|] == p;
  }

  lemma {:induction false} CostSign(g: Graph, p: seq<nat>)
    requires GraphOk(g) && IsWalk(g, p)
    ensures Cost(g, p) >= 0 && |p| > 0 && 1 <= p[|p| - 1] < g.size
  {
    if |p| > 1 {
      CostSign(g, p[..|p| - 1]);
    }
  }

  // A vertex reached: its distance is the cost of walks[v], through its predecessor.
  ghost predicate Reached(g: Graph, S: set<nat>, nodes: seq<Node>, walks: seq<seq<nat>>, v: nat)
    requires v < |nodes| == |walks|
  {
    && WalkTo(g, walks[v], v) && Cost(g, walks[v]) == nodes[v].dist
    && (if v == 1 then nodes[v].prev == 0 && walks[v] == [1]
        else nodes[v].prev in S && nodes[v].prev < |walks| && walks[v] == walks[nodes[v].prev] + [v])
  }

  // S: vertices whose distance is final. Every other vertex reached waits in the heap.
  ghost predicate Progress(g: Graph, S: set<nat>, nodes: seq<Node>, walks: seq<seq<nat>>, bag: multiset<Entry>) {
    && |nodes| == |walks| == g.size && 1 in S
    && (forall v :: v in S ==> 1 <= v < g.size && nodes[v].dist < INFINITY && AtMostAll(g, v, nodes[v].dist))
    && (forall v :: 1 <= v < g.size ==>
          if nodes[v].dist < INFINITY then Reached(g, S, nodes, walks, v) else nodes[v] == Node(INFINITY, 0))
    && (forall v :: 1 <= v < g.size && nodes[v].dist < INFINITY && v !in S ==> Entry(v, nodes[v].dist) in bag)
    && (forall e :: e in bag ==> 1 <= e.vertex < g.size && 0 <= e.dist < INFINITY && nodes[e.vertex].dist <= e.dist)
    && (forall v :: 1 <= v < g.size && nodes[v].dist < INFINITY ==> |walks[v]| <= |S| + if v in S then 0 else 1)
  }

  // Edges out of S have been relaxed, those out of u up to vertex i.
  ghost predicate RelaxedTo(g: Graph, S: set<nat>, nodes: seq<Node>, u: nat, i: nat)
    requires |nodes| == g.size
  {
    forall x: nat, y: nat :: x in S && IsEdge(g, x, y) && (x != u || y < i) ==>
      nodes[y].dist <= nodes[x].dist + Weight(g, x, y)
  }

  // The edges that have put an entry into the heap; a relaxed edge never does so again.
  ghost predicate Spent(g: Graph, S: set<nat>, nodes: seq<Node>, used: set<(nat, nat)>)
    requires |nodes| == g.size
  {
    forall e :: e in used ==>
      e.0 in S && IsEdge(g, e.0, e.1) && nodes[e.1].dist <= nodes[e.0].dist + Weight(g, e.0, e.1)
  }

  lemma {:induction false} FinalIs(g: Graph, S: set<nat>, nodes: seq<Node>, walks: seq<seq<nat>>, bag: multiset<Entry>,
      x: nat)
    requires Progress(g, S, nodes, walks, bag) && x in S
    ensures |nodes| == |walks| == g.size && 1 <= x < g.size && nodes[x].dist < INFINITY
    ensures AtMostAll(g, x, nodes[x].dist) && Reached(g, S, nodes, walks, x)
  {
    hide AtMostAll, Reached;
  }

  lemma {:induction false} StartFinal(g: Graph, S: set<nat>, nodes: seq<Node>, walks: seq<seq<nat>>,
      bag: multiset<Entry>)
    requires Progress(g, S, nodes, walks, bag)
    ensures 1 in S
  {
  }

  lemma {:induction false} RelaxedIs(g: Graph, S: set<nat>, nodes: seq<Node>, u: nat, i: nat, x: nat, y: nat)
    requires |nodes| == g.size && RelaxedTo(g, S, nodes, u, i) && x in S && IsEdge(g, x, y) && (x != u || y < i)
    ensures nodes[y].dist <= nodes[x].dist + Weight(g, x, y)
  {
    hide Weight;
  }

  lemma {:induction false} WaitingIs(g: Graph, S: set<nat>, nodes: seq<Node>, walks: seq<seq<nat>>,
      bag: multiset<Entry>, y: nat)
    requires Progress(g, S, nodes, walks, bag) && 1 <= y < g.size == |nodes| && y !in S && nodes[y].dist < INFINITY
    ensures Entry(y, nodes[y].dist) in bag
  {
    hide AtMostAll, Reached;
  }

  // A walk out of S costs at least the least entry of the heap.
  lemma {:induction false} WalkOut(g: Graph, S: set<nat>, nodes: seq<Node>, walks: seq<seq<nat>>, bag: multiset<Entry>,
      d: int, q: seq<nat>)
    requires GraphOk(g) && SumsFit(g) && Progress(g, S, nodes, walks, bag) && RelaxedTo(g, S, nodes, 0, 0)
    requires forall e :: e in bag ==> d <= e.dist
    requires IsWalk(g, q) && q[|q| - 1] !in S
    ensures d <= Cost(g, q)
    decreases |q|
  {
    hide GraphOk, AtMostAll, Progress, SumsFit, Weight, RelaxedTo;
    CostSign(g, q);
    StartFinal(g, S, nodes, walks, bag);
    if |q| > 1 {
      var p := q[..|q| - 1];
      var x, y := q[|q| - 2], q[|q| - 1];
      CostSign(g, p);
      WeightOk(g, x, y);
      if x !in S {
        WalkOut(g, S, nodes, walks, bag, d, p);
      } else {
        FinalFits(g, S, nodes, walks, bag, x, y);
        FinalIs(g, S, nodes, walks, bag, x);
        LeastCost(g, x, nodes[x].dist, p);
        RelaxedIs(g, S, nodes, 0, 0, x, y);
        WaitingIs(g, S, nodes, walks, bag, y);
      }
    }
  }

  lemma {:induction false} LeastCost(g: Graph, v: nat, d: int, q: seq<nat>)
    requires AtMostAll(g, v, d) && WalkTo(g, q, v)
    ensures d <= Cost(g, q)
  {
  }

  lemma {:induction false} WeightOk(g: Graph, x: nat, y: nat)
    requires GraphOk(g) && IsEdge(g, x, y)
    ensures 0 <= Weight(g, x, y) < INFINITY
  {
  }

  // Sums the program forms do not overflow.
  lemma {:induction false} FinalFits(g: Graph, S: set<nat>, nodes: seq<Node>, walks: seq<seq<nat>>,
      bag: multiset<Entry>, x: nat, y: nat)
    requires GraphOk(g) && SumsFit(g) && Progress(g, S, nodes, walks, bag) && x in S && IsEdge(g, x, y)
    ensures 0 <= nodes[x].dist + Weight(g, x, y) < INFINITY
    ensures Int32(nodes[x].dist + Weight(g, x, y)) == nodes[x].dist + Weight(g, x, y)
  {
    hide AtMostAll, WalkTo, IsEdge, GraphOk, Weight, Progress;
    FinalIs(g, S, nodes, walks, bag, x);
    ShortestIs(g, walks[x], x, nodes[x].dist);
    NonNegative(g, walks[x], x);
    WeightOk(g, x, y);
  }

  lemma {:induction false} NonNegative(g: Graph, p: seq<nat>, v: nat)
    requires GraphOk(g) && WalkTo(g, p, v)
    ensures Cost(g, p) >= 0
  {
    CostSign(g, p);
  }

  lemma {:induction false} ShortestIs(g: Graph, p: seq<nat>, v: nat, d: int)
    requires WalkTo(g, p, v) && Cost(g, p) == d && AtMostAll(g, v, d)
    ensures Shortest(g, p, v)
  {
  }

  // deleteMin gives a vertex whose distance is final, perhaps for the second time.
  lemma {:induction false} PopStep(g: Graph, S: set<nat>, nodes: seq<Node>, walks: seq<seq<nat>>, bag: multiset<Entry>,
      e: Entry)
    requires GraphOk(g) && SumsFit(g) && Progress(g, S, nodes, walks, bag) && RelaxedTo(g, S, nodes, 0, 0)
    requires e in bag && forall x :: x in bag ==> e.dist <= x.dist
    ensures 1 <= e.vertex < g.size && Progress(g, S + {e.vertex}, nodes, walks, bag - multiset{e})
    ensures RelaxedTo(g, S + {e.vertex}, nodes, e.vertex, 0)
  {
    hide GraphOk, SumsFit, AtMostAll, Reached;
    var u := e.vertex;
    if u in S {
      assert S + {u} == S;
    } else {
      assert nodes[u].dist == e.dist;
      FinalNow(g, S, nodes, walks, bag, e);
      ReachedMore(g, S, nodes, walks, u);
    }
  }

  lemma {:induction false} ReachedMore(g: Graph, S: set<nat>, nodes: seq<Node>, walks: seq<seq<nat>>, u: nat)
    requires |nodes| == |walks| == g.size
    ensures forall v :: 1 <= v < g.size && Reached(g, S, nodes, walks, v) ==> Reached(g, S + {u}, nodes, walks, v)
  {
    hide WalkTo;
  }

  lemma {:induction false} FinalNow(g: Graph, S: set<nat>, nodes: seq<Node>, walks: seq<seq<nat>>, bag: multiset<Entry>,
      e: Entry)
    requires GraphOk(g) && SumsFit(g) && Progress(g, S, nodes, walks, bag) && RelaxedTo(g, S, nodes, 0, 0)
    requires e in bag && forall x :: x in bag ==> e.dist <= x.dist
    requires e.vertex >= 0 && e.vertex !in S
    ensures AtMostAll(g, e.vertex, e.dist)
  {
    hide GraphOk, SumsFit, Progress, RelaxedTo;
    forall q | WalkTo(g, q, e.vertex) ensures e.dist <= Cost(g, q) {
      WalkOut(g, S, nodes, walks, bag, e.dist, q);
    }
  }

  lemma {:induction false} ReachedWalk(g: Graph, S: set<nat>, nodes: seq<Node>, walks: seq<seq<nat>>, v: nat)
    requires v < |nodes| == |walks| && Reached(g, S, nodes, walks, v)
    ensures WalkTo(g, walks[v], v) && Cost(g, walks[v]) == nodes[v].dist
  {
    hide WalkTo, Cost;
  }

  lemma {:induction false} ReachedStep(g: Graph, S: set<nat>, nodes: seq<Node>, walks: seq<seq<nat>>, u: nat, i: nat,
      v: nat)
    requires |nodes| == |walks| && u in S && u < |nodes| && i < |nodes| && v < |nodes| && i != 1 && i !in S
    requires WalkTo(g, walks[u] + [i], i) && Cost(g, walks[u] + [i]) == nodes[u].dist + Weight(g, u, i)
    requires v != i ==> Reached(g, S, nodes, walks, v)
    ensures Reached(g, S, nodes[i := Node(nodes[u].dist + Weight(g, u, i), u)], walks[i := walks[u] + [i]], v)
  {
    hide WalkTo, Cost, Weight;
  }

  // One relaxation that shortens: the vertex is not final, and the edge has not been used.
  lemma {:induction false} RelaxStep(g: Graph, S: set<nat>, nodes: seq<Node>, walks: seq<seq<nat>>,
      bag: multiset<Entry>, used: set<(nat, nat)>, u: nat, i: nat)
    requires GraphOk(g) && SumsFit(g) && Progress(g, S, nodes, walks, bag) && RelaxedTo(g, S, nodes, u, i) &&
      Spent(g, S, nodes, used)
    requires u in S && IsEdge(g, u, i) && nodes[u].dist + Weight(g, u, i) < nodes[i].dist
    ensures
      var d := nodes[u].dist + Weight(g, u, i);
      var nodes' := nodes[i := Node(d, u)];
      && Progress(g, S, nodes', walks[i := walks[u] + [i]], bag + multiset{Entry(i, d)})
      && RelaxedTo(g, S, nodes', u, i + 1) && (u, i) !in used && Spent(g, S, nodes', used + {(u, i)})
    ensures i !in S
  {
    hide GraphOk, SumsFit, AtMostAll, WalkTo, Weight, Cost, Reached;
    FinalFits(g, S, nodes, walks, bag, u, i);
    FinalIs(g, S, nodes, walks, bag, u);
    ReachedWalk(g, S, nodes, walks, u);
    Extend(g, walks[u], u, i);
    if i in S {
      LeastCost(g, i, nodes[i].dist, walks[u] + [i]);
    }
    var nodes', walks' := nodes[i := Node(nodes[u].dist + Weight(g, u, i), u)], walks[i := walks[u] + [i]];
    forall v | 1 <= v < g.size && nodes'[v].dist < INFINITY ensures Reached(g, S, nodes', walks', v) {
      ReachedStep(g, S, nodes, walks, u, i, v);
    }
  }

  lemma {:induction false} SkipStep(g: Graph, S: set<nat>, nodes: seq<Node>, u: nat, i: nat)
    requires |nodes| == g.size && RelaxedTo(g, S, nodes, u, i)
    requires IsEdge(g, u, i) ==> nodes[i].dist <= nodes[u].dist + Weight(g, u, i)
    ensures RelaxedTo(g, S, nodes, u, i + 1)
  {
    hide Weight;
  }

  lemma {:induction false} AllRelaxed(g: Graph, S: set<nat>, nodes: seq<Node>, u: nat)
    requires |nodes| == g.size && RelaxedTo(g, S, nodes, u, g.size)
    ensures RelaxedTo(g, S, nodes, 0, 0)
  {
    hide Weight;
  }

  // With the heap empty: final distances for the vertices that can be reached, INFINITY for the others.
  ghost predicate Answer(g: Graph, nodes: seq<Node>, walks: seq<seq<nat>>, v: nat)
    requires v < |nodes| == |walks|
  {
    && (nodes[v].dist < INFINITY ==> Shortest(g, walks[v], v) && Cost(g, walks[v]) == nodes[v].dist)
    && (nodes[v].dist >= INFINITY ==> nodes[v] == Node(INFINITY, 0) && forall q :: !WalkTo(g, q, v))
  }

  // d is what vertex 1 is away from v by the shortest walk, or INFINITY if there is none.
  ghost predicate DistanceIs(g: Graph, v: nat, d: int) {
    if d < INFINITY then exists p ::
      Shortest(g, p, v) && Cost(g, p) == d else d == INFINITY && forall q :: !WalkTo(g, q, v)
  }

  lemma {:induction false} AnswerIs(g: Graph, nodes: seq<Node>, walks: seq<seq<nat>>, v: nat)
    requires v < |nodes| == |walks| && Answer(g, nodes, walks, v)
    ensures DistanceIs(g, v, nodes[v].dist)
  {
    hide Shortest, WalkTo, Cost;
  }

  lemma {:induction false} Answered(g: Graph, S: set<nat>, nodes: seq<Node>, walks: seq<seq<nat>>, v: nat)
    requires GraphOk(g) && SumsFit(g) && Progress(g, S, nodes, walks, multiset{}) && RelaxedTo(g, S, nodes, 0, 0)
    requires 1 <= v < g.size
    ensures Answer(g, nodes, walks, v)
  {
    hide GraphOk, SumsFit, AtMostAll, RelaxedTo;
    if nodes[v].dist < INFINITY {
      assert Reached(g, S, nodes, walks, v);
      ShortestIs(g, walks[v], v, nodes[v].dist);
    } else {
      forall q ensures !WalkTo(g, q, v) {
        if WalkTo(g, q, v) {
          WalkOut(g, S, nodes, walks, multiset{}, Cost(g, q) + 1, q);
        }
      }
    }
  }

  // No more pairs than edges, and so fewer than the heap's capacity.

  function PairsTo(n: nat, i: nat): (s: set<(nat, nat)>)
    ensures |s| == i * n && forall e :: e in s <==> 1 <= e.0 <= i && 1 <= e.1 <= n
  {
    if i == 0 then {} else assert (i - 1) * n + n == i * n; PairsTo(n, i - 1) + Row(i, n)
  }

  function Row(i: nat, n: nat): (s: set<(nat, nat)>)
    ensures |s| == n && forall e :: e in s <==> e.0 == i && 1 <= e.1 <= n
  {
    if n == 0 then {} else Row(i, n - 1) + {(i, n)}
  }

  lemma {:induction false} EdgesFew(g: Graph, used: set<(nat, nat)>)
    requires g.size >= 1 && forall e :: e in used ==> IsEdge(g, e.0, e.1)
    ensures |used| <= (g.size - 1) * (g.size - 1)
  {
    var all := PairsTo(g.size - 1, g.size - 1);
    assert all == used + (all - used);
    assert |used + (all - used)| == |used| + |all - used|;
  }

  // Vertex 1 alone is final, nothing is in the heap.
  lemma {:induction false} StartStep(g: Graph, nodes: seq<Node>)
    requires GraphOk(g) && |nodes| == g.size && nodes[1] == Node(0, 0) && forall v :: 2 <= v < g.size ==>
      nodes[v] == Node(INFINITY, 0)
    ensures Progress(g, {1}, nodes, seq(g.size, _ => [1]), multiset{}) && RelaxedTo(g, {1}, nodes, 1, 2)
    ensures Spent(g, {1}, nodes, {})
  {
    var walks := seq(g.size, _ => [1]);
    assert WalkTo(g, [1], 1);
    forall q | WalkTo(g, q, 1) ensures 0 <= Cost(g, q) {
      CostSign(g, q);
    }
    hide WalkTo, AtMostAll;
    forall x: nat, y: nat | x in {1} && IsEdge(g, x, y) && y < 2
      ensures nodes[y].dist <= nodes[x].dist + Weight(g, x, y) {
      WeightOk(g, x, y);
    }
  }

  // The predecessors printed for vertex j, farthest first.
  lemma {:induction false} PrevWalk(g: Graph, S: set<nat>, nodes: seq<Node>, walks: seq<seq<nat>>, v: nat)
    requires Progress(g, S, nodes, walks, multiset{}) && 1 <= v < g.size
    ensures nodes[v].prev == 0 ==> v == 1 || nodes[v] == Node(INFINITY, 0)
    ensures v == 1 ==> nodes[v].prev == 0 && walks[v] == [1]
    ensures nodes[v].dist < INFINITY ==> |walks[v]| <= |S|
    ensures nodes[v].prev != 0 ==>
      && nodes[v].dist < INFINITY && 1 <= nodes[v].prev < g.size && nodes[nodes[v].prev].dist < INFINITY &&
         walks[v] == walks[nodes[v].prev] + [v]
      && |walks[nodes[v].prev]| < |walks[v]|
  {
    hide AtMostAll, WalkTo, Cost;
    AllFinal(g, S, nodes, walks, v);
    if nodes[v].dist < INFINITY {
      FinalIs(g, S, nodes, walks, multiset{}, v);
    }
  }

  lemma {:induction false} AllFinal(g: Graph, S: set<nat>, nodes: seq<Node>, walks: seq<seq<nat>>, v: nat)
    requires Progress(g, S, nodes, walks, multiset{}) && 1 <= v < g.size == |nodes|
    ensures nodes[v].dist < INFINITY ==> v in S
  {
    hide AtMostAll, Reached;
    if nodes[v].dist < INFINITY && v !in S {
      WaitingIs(g, S, nodes, walks, multiset{}, v);
      assert false;
    }
  }

  lemma {:induction false} FinalFew(g: Graph, S: set<nat>, nodes: seq<Node>, walks: seq<seq<nat>>, bag: multiset<Entry>)
    requires Progress(g, S, nodes, walks, bag) && g.size >= 1
    ensures |S| <= g.size - 1
  {
    hide AtMostAll, Reached;
    SmallSet(S, g.size - 1);
  }

  lemma {:induction false} SmallSet(S: set<nat>, n: nat)
    requires forall v :: v in S ==> 1 <= v <= n
    ensures |S| <= n
  {
    if n > 0 {
      SmallSet(S - {n}, n - 1);
      if n in S {
        assert S == (S - {n}) + {n};
      } else {
        assert S - {n} == S;
      }
    }
  }
}
