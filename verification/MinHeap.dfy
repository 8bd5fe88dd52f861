// The binary heap of p12.c, with a sentinel at index 0.
module MinHeap {
  datatype Entry = Entry(vertex: nat, dist: int)

  // Every element but the one at index i, as a child or with its children, is in heap order.
  ghost predicate UpOrder(v: seq<Entry>, i: nat) {
    && (forall k :: 2 <= k < |v| && k != i ==> v[k / 2].dist <= v[k].dist)
    && (i >= 2 ==> forall k :: 2 <= k < |v| && k / 2 == i ==> v[i / 2].dist <= v[k].dist)
  }

  ghost predicate DownOrder(v: seq<Entry>, i: nat) {
    && (forall k :: 2 <= k < |v| && k / 2 != i ==> v[k / 2].dist <= v[k].dist)
    && (i >= 2 ==> forall k :: 2 <= k < |v| && k / 2 == i ==> v[i / 2].dist <= v[k].dist)
  }

  ghost predicate HeapOrder(v: seq<Entry>) {
    forall k :: 2 <= k < |v| ==> v[k / 2].dist <= v[k].dist
  }

  function Swap(v: seq<Entry>, i: nat, j: nat): (r: seq<Entry>)
    requires i < |v| && j < |v|
    ensures |r| == |v| && forall k :: 0 <= k < |v| ==> r[k] == if k == j then v[i] else if k == i then v[j] else v[k]
  {
    v[i := v[j]][j := v[i]]
  }

  ghost function Bag(v: seq<Entry>): multiset<Entry> {
    if v == [] then multiset{} else multiset(v[1..])
  }

  lemma {:induction false} SwapBag(v: seq<Entry>, i: nat, j: nat)
    requires 0 < i < |v| && 0 < j < |v|
    ensures Bag(Swap(v, i, j)) == Bag(v)
  {
    var t := v[1..];
    assert Swap(v, i, j)[1..] == t[i - 1 := t[j - 1]][j - 1 := t[i - 1]];
  }

  lemma {:induction false} UpStep(v: seq<Entry>, i: nat)
    requires 2 <= i < |v| && UpOrder(v, i) && v[i].dist < v[i / 2].dist
    ensures UpOrder(Swap(v, i, i / 2), i / 2)
  {
    var w, p := Swap(v, i, i / 2), i / 2;
    forall k | 2 <= k < |v| && k != p ensures w[k / 2].dist <= w[k].dist {
      assert k != i ==> v[k / 2].dist <= v[k].dist;
    }
    if p >= 2 {
      assert v[p / 2].dist <= v[p].dist;
    }
  }

  lemma {:induction false} DownStep(v: seq<Entry>, i: nat, c: nat)
    requires 1 <= i < c < |v| && c / 2 == i && DownOrder(v, i) && v[c].dist < v[i].dist
    requires forall k :: 2 <= k < |v| && k / 2 == i ==> v[c].dist <= v[k].dist
    ensures DownOrder(Swap(v, i, c), c)
  {
    var w := Swap(v, i, c);
    forall k | 2 <= k < |v| && k / 2 != c ensures w[k / 2].dist <= w[k].dist {
      assert k / 2 != i ==> v[k / 2].dist <= v[k].dist;
    }
    forall k | 2 <= k < |v| && k / 2 == c ensures w[c / 2].dist <= w[k].dist {
      assert v[k / 2].dist <= v[k].dist;
    }
  }

  // The root is smallest.
  lemma {:induction false} RootLeast(v: seq<Entry>, k: nat)
    requires HeapOrder(v) && 1 <= k < |v|
    ensures v[1].dist <= v[k].dist
  {
    if k >= 2 {
      RootLeast(v, k / 2);
    }
  }

  lemma {:induction false} InBag(v: seq<Entry>, e: Entry) returns (k: nat)
    requires e in Bag(v)
    ensures 1 <= k < |v| && v[k] == e
  {
    k :| 1 <= k < |v| && v[k] == e;
  }

  class Heap {
    const capacity: nat
    var size: nat
    const element: array<Entry>

    ghost predicate Shape()
      reads this
    {
      size <= capacity && element.Length == capacity + 1
    }

    ghost predicate Valid()
      reads this, element
    {
      Shape() && element[0].dist == -1 && HeapOrder(element[..size + 1])
    }

    ghost function Contents(): multiset<Entry>
      requires Shape()
      reads this, element
    {
      Bag(element[..size + 1])
    }

    // createMinHeap
    constructor (heapSize: nat)
      ensures Valid() && fresh(element) && size == 0 && capacity == heapSize && Contents() == multiset{}
    {
      capacity, size := heapSize, 0;
      element := new Entry[heapSize + 1](_ => Entry(0, -1));
      new;
      assert element[..1][1..] == [];
    }

    // insertToMinHeap; a full heap is left as it is.
    method Insert(vertex: nat, distance: int)
      requires Valid() && distance >= 0
      modifies this`size, element
      ensures Valid()
      ensures old(size) == capacity ==> Contents() == old(Contents()) && size == old(size)
      ensures old(size) < capacity ==>
        Contents() == old(Contents()) + multiset{Entry(vertex, distance)} && size == old(size) + 1
    {
      if capacity == size {
        return;
      }
      hide SiftingUp, HeapOrder, Bag;
      var node := Entry(vertex, distance);
      ghost var v := element[..size + 1] + [node];
      UpStart(element[..], v);
      size := size + 1;
      SiftUp(node, v);
    }

    // insertToMinHeap's loop: parents greater than the new node move down.
    method SiftUp(node: Entry, ghost v0: seq<Entry>)
      requires Shape() && 1 <= size && |v0| == size + 1 && node.dist >= 0 &&
        SiftingUp(element[..], v0, size, node, Bag(v0))
      modifies element
      ensures Valid() && Contents() == Bag(v0)
    {
      hide SiftingUp, HeapOrder, Bag, Swap;
      ghost var v := v0;
      var i := size;
      while element[i / 2].dist > node.dist
        invariant 1 <= i <= size && |v| == size + 1 && SiftingUp(element[..], v, i, node, Bag(v0))
        decreases i
      {
        UpTurn(element[..], v, i, node, Bag(v0));
        v := Swap(v, i, i / 2);
        ghost var after := element[..][i := element[..][i / 2]];
        element[i] := element[i / 2];
        assert element[..] == after;
        i := i / 2;
      }
      UpEnd(element[..], v, i, node, Bag(v0));
      ghost var after := element[..][i := node];
      element[i] := node;
      assert element[..] == after;
      assert element[..size + 1] == v;
    }

    // deleteMin
    method DeleteMin() returns (min: Entry)
      requires Valid() && size > 0
      modifies this`size, element
      ensures Valid() && size == old(size) - 1
      ensures min in old(Contents()) && Contents() == old(Contents()) - multiset{min}
      ensures forall e :: e in old(Contents()) ==> min.dist <= e.dist
    {
      hide DownOrder, HeapOrder, Bag, Swap, Hole;
      ghost var h := element[..size + 1];
      assert Contents() == Bag(h);
      RootOfBag(h);
      Shortened(h);
      min := element[1];
      var last := element[size];
      size := size - 1;
      if size == 0 {
        element[1] := last;
        assert element[..1] == h[..1];
        DownDone(h[..1], 1);
        return;
      }
      HoleAtRoot(element[..], h, last);
      SiftDown(last, h[..size + 1][1 := last]);
    }

    // deleteMin's loop: the smaller child moves up while it is less than the last node.
    method SiftDown(last: Entry, ghost v0: seq<Entry>)
      requires Shape() && 1 <= size && |v0| == size + 1 && v0[0].dist == -1 && v0[1] == last &&
        Hole(element[..], v0, 1) && DownOrder(v0, 1)
      modifies element
      ensures Valid() && Contents() == Bag(v0)
    {
      hide DownOrder, HeapOrder, Bag, Swap, Hole;
      ghost var v := v0;
      var i := 1;
      while i * 2 <= size
        invariant 1 <= i <= size && |v| == size + 1 && v[0].dist == -1 && v[i] == last
        invariant Hole(element[..], v, i) && DownOrder(v, i) && Bag(v) == Bag(v0)
        decreases size - i
      {
        var child := i * 2;
        HoleIs(element[..], v, i, child);
        if child != size {
          HoleIs(element[..], v, i, child + 1);
        }
        if child != size && element[child + 1].dist < element[child].dist {
          child := child + 1;
        }
        LeastChild(v, i, child);
        if last.dist > element[child].dist {
          HoleMoves(element[..], v, i, child);
          DownStep(v, i, child);
          SwapBag(v, i, child);
          ghost var after := element[..][i := element[..][child]];
          v := Swap(v, i, child);
          element[i] := element[child];
          assert element[..] == after;
        } else {
          break;
        }
        i := child;
      }
      HoleFilled(element[..], v, i);
      DownDone(v, i);
      HoleRoot(element[..], v, i);
      ghost var after := element[..][i := last];
      element[i] := last;
      assert element[..] == after;
      assert element[..size + 1] == v;
    }
  }

  lemma {:induction false} HoleRoot(a: seq<Entry>, v: seq<Entry>, i: nat)
    requires Hole(a, v, i) && 1 <= i < |v|
    ensures 0 < |a| && a[0] == v[0]
  {
  }

  // a holds v except at index i, where v's element is in hand.
  ghost predicate Hole(a: seq<Entry>, v: seq<Entry>, i: nat) {
    |v| <= |a| && forall k :: 0 <= k < |v| && k != i ==> a[k] == v[k]
  }

  lemma {:induction false} HoleIs(a: seq<Entry>, v: seq<Entry>, i: nat, k: nat)
    requires Hole(a, v, i) && k < |v| && k != i
    ensures k < |a| && a[k] == v[k]
  {
  }

  lemma {:induction false} HoleMoves(a: seq<Entry>, v: seq<Entry>, i: nat, j: nat)
    requires Hole(a, v, i) && i < |v| && j < |v| && i != j
    ensures i < |a| && j < |a| && Hole(a[i := a[j]], Swap(v, i, j), j)
  {
  }

  lemma {:induction false} HoleFilled(a: seq<Entry>, v: seq<Entry>, i: nat)
    requires Hole(a, v, i) && i < |v|
    ensures i < |a| && a[i := v[i]][..|v|] == v
  {
  }

  lemma {:induction false} HoleAtEnd(a: seq<Entry>, v: seq<Entry>)
    requires 1 <= |v| <= |a| && v[..|v| - 1] == a[..|v| - 1]
    ensures Hole(a, v, |v| - 1)
  {
    forall k | 0 <= k < |v| - 1 ensures a[k] == v[k] {
      assert v[k] == v[..|v| - 1][k] == a[..|v| - 1][k];
    }
  }

  lemma {:induction false} HoleAtRoot(a: seq<Entry>, h: seq<Entry>, last: Entry)
    requires 3 <= |h| <= |a| && h == a[..|h|]
    ensures Hole(a, h[..|h| - 1][1 := last], 1)
  {
  }

  // The child deleteMin compares with is the smaller one.
  lemma {:induction false} LeastChild(v: seq<Entry>, i: nat, c: nat)
    requires 1 <= i && i * 2 < |v| && c < |v| && (c == i * 2 || c == i * 2 + 1)
    requires v[c].dist <= v[i * 2].dist && (i * 2 + 1 < |v| ==> v[c].dist <= v[i * 2 + 1].dist)
    ensures c / 2 == i && forall k :: 2 <= k < |v| && k / 2 == i ==> v[c].dist <= v[k].dist
  {
    forall k | 2 <= k < |v| && k / 2 == i ensures v[c].dist <= v[k].dist {
      assert k == i * 2 || k == i * 2 + 1;
    }
  }

  // insertToMinHeap's loop: v is the heap with the new node at i, where the array has a hole.
  ghost predicate SiftingUp(a: seq<Entry>, v: seq<Entry>, i: nat, node: Entry, bag: multiset<Entry>) {
    Hole(a, v, i) && UpOrder(v, i) && Bag(v) == bag && i < |v| && v[i] == node && v[0].dist == -1
  }

  lemma {:induction false} UpStart(a: seq<Entry>, v: seq<Entry>)
    requires 2 <= |v| <= |a| && v[..|v| - 1] == a[..|v| - 1] && HeapOrder(a[..|v| - 1]) && a[0].dist == -1
    ensures SiftingUp(a, v, |v| - 1, v[|v| - 1], Bag(v)) && Bag(v) == Bag(a[..|v| - 1]) + multiset{v[|v| - 1]}
  {
    var h := a[..|v| - 1];
    assert v == h + [v[|v| - 1]];
    Appended(h, v[|v| - 1]);
    HoleAtEnd(a, v);
    hide UpOrder, Bag, HeapOrder;
    assert v[0] == h[0];
  }

  lemma {:induction false} UpTurn(a: seq<Entry>, v: seq<Entry>, i: nat, node: Entry, bag: multiset<Entry>)
    requires SiftingUp(a, v, i, node, bag) && 1 <= i < |v| <= |a| && a[i / 2].dist > node.dist && node.dist >= 0
    ensures 1 <= i / 2 && SiftingUp(a[i := a[i / 2]], Swap(v, i, i / 2), i / 2, node, bag)
  {
    hide UpOrder, Bag, Swap, Hole;
    HoleIs(a, v, i, i / 2);
    HoleMoves(a, v, i, i / 2);
    UpStep(v, i);
    SwapBag(v, i, i / 2);
  }

  lemma {:induction false} UpEnd(a: seq<Entry>, v: seq<Entry>, i: nat, node: Entry, bag: multiset<Entry>)
    requires SiftingUp(a, v, i, node, bag) && 1 <= i < |v| <= |a| && a[i / 2].dist <= node.dist
    ensures HeapOrder(v) && Bag(v) == bag && v[0].dist == -1 && a[i := node][..|v|] == v
  {
    hide UpOrder, Bag, Hole, HeapOrder;
    HoleIs(a, v, i, i / 2);
    HoleFilled(a, v, i);
    UpDone(v, i);
  }

  lemma {:induction false} UpDone(v: seq<Entry>, i: nat)
    requires 1 <= i < |v| && UpOrder(v, i) && (i >= 2 ==> v[i / 2].dist <= v[i].dist)
    ensures HeapOrder(v)
  {
  }

  lemma {:induction false} DownDone(v: seq<Entry>, i: nat)
    requires 1 <= i && DownOrder(v, i) && forall k :: 2 <= k < |v| && k / 2 == i ==> v[i].dist <= v[k].dist
    ensures HeapOrder(v)
  {
  }

  lemma {:induction false} Appended(h: seq<Entry>, e: Entry)
    requires HeapOrder(h) && |h| >= 1
    ensures UpOrder(h + [e], |h|) && Bag(h + [e]) == Bag(h) + multiset{e}
  {
    assert (h + [e])[1..] == h[1..] + [e];
  }

  lemma {:induction false} RootOfBag(h: seq<Entry>)
    requires HeapOrder(h) && |h| >= 2
    ensures h[1] in Bag(h) && forall e :: e in Bag(h) ==> h[1].dist <= e.dist
  {
    assert h[1] == h[1..][0];
    forall e | e in Bag(h) ensures h[1].dist <= e.dist {
      var k := InBag(h, e);
      RootLeast(h, k);
    }
  }

  // The heap without its last element, which takes the root's place.
  lemma {:induction false} Shortened(h: seq<Entry>)
    requires HeapOrder(h) && |h| >= 2
    ensures
      var n := |h| - 1;
      var v := if n == 1 then h[..1] else h[..n][1 := h[n]];
      DownOrder(v, 1) && Bag(v) == Bag(h) - multiset{h[1]}
  {
    var n := |h| - 1;
    if n == 1 {
      assert h[1..] == [h[1]];
      assert h[..1][1..] == [];
    } else {
      var v := h[..n][1 := h[n]];
      assert h[1..] == [h[1]] + h[2..n] + [h[n]];
      assert v[1..] == [h[n]] + h[2..n];
    }
  }
}
