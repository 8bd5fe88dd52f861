// The free list of umalloc.c: circular, in address order with one wrap, no two blocks touching.
// Addresses count units of one Header.
module FreeRing {
  // ptr is the next free block; size counts units, the header's own included.
  datatype Header = Header(ptr: nat, size: nat)

  type Mem = map<nat, Header>

  const BASE := 1               // the address of the static header `base`, below all of the heap

  function SizeAt(mem: Mem, a: nat): nat {
    if a in mem then mem[a].size else 0
  }

  function End(mem: Mem, a: nat): nat {
    a + SizeAt(mem, a)
  }

  // The block after the i-th, the first one again after the last.
  function NextOf(ring: seq<nat>, i: nat): nat
    requires i < |ring|
  {
    if i + 1 < |ring| then ring[i + 1] else ring[0]
  }

  function Sum(mem: Mem, s: seq<nat>): nat {
    if s == [] then 0 else Sum(mem, s[..|s| - 1]) + SizeAt(mem, s[|s| - 1])
  }

  ghost predicate Apart(mem: Mem, a: nat, b: nat) {
    End(mem, a) <= b || End(mem, b) <= a
  }

  // Free blocks in order; those in X may touch the next one.
  ghost predicate RingOk(mem: Mem, ring: seq<nat>, brk: nat, X: set<nat>) {
    && |ring| > 0 && ring[0] == BASE
    && (forall i :: 0 <= i < |ring| ==> CellOk(mem, ring, i))
    && (forall i :: 0 <= i < |ring| - 1 ==> GapAfter(mem, ring, i, X))
    && End(mem, ring[|ring| - 1]) <= brk
  }

  ghost predicate CellOk(mem: Mem, ring: seq<nat>, i: nat)
    requires i < |ring|
  {
    ring[i] in mem && mem[ring[i]].ptr == NextOf(ring, i) && (i == 0 <==> mem[ring[i]].size == 0)
  }

  ghost predicate GapAfter(mem: Mem, ring: seq<nat>, i: nat, X: set<nat>)
    requires i + 1 < |ring|
  {
    ring[i] < ring[i + 1] && End(mem, ring[i]) <= ring[i + 1] && (i !in X ==> End(mem, ring[i]) < ring[i + 1])
  }

  // Blocks handed out.
  ghost predicate LiveOk(mem: Mem, live: seq<nat>, brk: nat) {
    && (forall k :: 0 <= k < |live| ==>
       live[k] in mem && BASE < live[k] && mem[live[k]].size >= 1 && End(mem, live[k]) <= brk)
    && (forall k, l :: 0 <= k < l < |live| ==> Apart(mem, live[k], live[l]))
  }

  ghost predicate Separate(mem: Mem, ring: seq<nat>, live: seq<nat>) {
    forall i, k :: 0 <= i < |ring| && 0 <= k < |live| ==> Apart(mem, ring[i], live[k])
  }

  // got: units obtained from sbrk; all of them are free or handed out.
  ghost predicate HeapOk(mem: Mem, ring: seq<nat>, live: seq<nat>, brk: nat, got: nat, X: set<nat>) {
    && RingOk(mem, ring, brk, X) && LiveOk(mem, live, brk) && Separate(mem, ring, live)
    && Sum(mem, ring) + Sum(mem, live) == got
  }

  // Sums.

  lemma {:induction false} SumJoin(mem: Mem, a: seq<nat>, b: seq<nat>)
    ensures Sum(mem, a + b) == Sum(mem, a) + Sum(mem, b)
  {
    if b == [] {
      assert a + b == a;
    } else {
      assert (a + b)[..|a + b| - 1] == a + b[..|b| - 1];
      SumJoin(mem, a, b[..|b| - 1]);
    }
  }

  lemma {:induction false} SumFrame(mem: Mem, mem': Mem, s: seq<nat>)
    requires forall i :: 0 <= i < |s| ==> SizeAt(mem', s[i]) == SizeAt(mem, s[i])
    ensures Sum(mem', s) == Sum(mem, s)
  {
    if s != [] {
      SumFrame(mem, mem', s[..|s| - 1]);
    }
  }

  lemma {:induction false} SumOne(mem: Mem, a: nat)
    ensures Sum(mem, [a]) == SizeAt(mem, a)
  {
    assert [a][..0] == [];
    assert Sum(mem, []) == 0;
  }

  function Without(s: seq<nat>, k: nat): (r: seq<nat>)
    requires k < |s|
    ensures |r| == |s| - 1 && forall i :: 0 <= i < |r| ==> r[i] == if i < k then s[i] else s[i + 1]
  {
    s[..k] + s[k + 1..]
  }

  function With(s: seq<nat>, k: nat, x: nat): (r: seq<nat>)
    requires k <= |s|
    ensures |r| == |s| + 1 && forall i :: 0 <= i < |r| ==>
      r[i] == if i < k then s[i] else if i == k then x else s[i - 1]
  {
    s[..k] + [x] + s[k..]
  }

  lemma {:induction false} SumWithout(mem: Mem, s: seq<nat>, k: nat)
    requires k < |s|
    ensures Sum(mem, s) == Sum(mem, Without(s, k)) + SizeAt(mem, s[k])
  {
    assert s == s[..k] + ([s[k]] + s[k + 1..]);
    SumJoin(mem, s[..k], [s[k]] + s[k + 1..]);
    SumJoin(mem, [s[k]], s[k + 1..]);
    SumJoin(mem, s[..k], s[k + 1..]);
    SumOne(mem, s[k]);
  }

  lemma {:induction false} SumWith(mem: Mem, s: seq<nat>, k: nat, x: nat)
    requires k <= |s|
    ensures Sum(mem, With(s, k, x)) == Sum(mem, s) + SizeAt(mem, x)
  {
    SumWithout(mem, With(s, k, x), k);
    assert Without(With(s, k, x), k) == s;
  }

  // Order.

  lemma {:induction false} Ascending(mem: Mem, ring: seq<nat>, brk: nat, X: set<nat>, i: nat, j: nat)
    requires RingOk(mem, ring, brk, X) && i < j < |ring|
    ensures ring[i] < ring[j] && End(mem, ring[i]) <= ring[j]
  {
    var h := j - 1;
    assert GapAfter(mem, ring, h, X);
    if i < j - 1 {
      Ascending(mem, ring, brk, X, i, j - 1);
    }
  }

  // Where a block belongs in the ring.
  ghost predicate Slot(ring: seq<nat>, t: nat, bp: nat) {
    t < |ring| && ring[t] < bp && (t + 1 < |ring| ==> bp < ring[t + 1])
  }

  lemma {:induction false} SlotThere(ring: seq<nat>, bp: nat) returns (t: nat)
    requires |ring| > 0 && ring[0] < bp && forall i :: 0 <= i < |ring| ==> ring[i] != bp
    ensures Slot(ring, t, bp)
  {
    t := 0;
    while t + 1 < |ring| && ring[t + 1] < bp
      invariant t < |ring| && ring[t] < bp
    {
      t := t + 1;
    }
  }

  lemma {:induction false} SlotOne(mem: Mem, ring: seq<nat>, brk: nat, X: set<nat>, bp: nat, t: nat, c: nat)
    requires RingOk(mem, ring, brk, X) && Slot(ring, t, bp) && c < |ring|
    ensures c < t ==> ring[c + 1] < bp
    ensures c > t ==> bp < ring[c]
  {
    if c < t {
      if c + 1 < t { Ascending(mem, ring, brk, X, c + 1, t); }
    }
    if c > t {
      if t + 1 < c { Ascending(mem, ring, brk, X, t + 1, c); }
    }
  }

  // A block handed out is not in the ring.
  lemma {:induction false} LiveNotFree(mem: Mem, ring: seq<nat>, live: seq<nat>, brk: nat, got: nat, X: set<nat>,
      k: nat, i: nat)
    requires HeapOk(mem, ring, live, brk, got, X) && k < |live| && i < |ring|
    ensures live[k] != ring[i] && BASE < live[k] && live[k] in mem
    ensures ring[i] < live[k] ==> End(mem, ring[i]) <= live[k]
    ensures live[k] < ring[i] ==> End(mem, live[k]) <= ring[i]
  {
    assert Apart(mem, ring[i], live[k]);
  }

  // Freeing: the block goes into the ring, perhaps touching its neighbours.
  function Insert(mem: Mem, ring: seq<nat>, t: nat, bp: nat): Mem
    requires t < |ring|
  {
    mem[bp := Header(NextOf(ring, t), SizeAt(mem, bp))][ring[t] := Header(bp, SizeAt(mem, ring[t]))]
  }

  // What is known of the place where a block is put back.
  ghost predicate Fits(mem: Mem, ring: seq<nat>, t: nat, bp: nat, brk: nat) {
    && RingOk(mem, ring, brk, {}) && t < |ring| && bp in mem && mem[bp].size >= 1 && End(mem, bp) <= brk
    && ring[t] < bp && End(mem, ring[t]) <= bp && (t + 1 < |ring| ==> bp < ring[t + 1] && End(mem, bp) <= ring[t + 1])
  }

  lemma {:induction false} InsertSizes(mem: Mem, ring: seq<nat>, t: nat, bp: nat, brk: nat)
    requires Fits(mem, ring, t, bp, brk)
    ensures forall a :: a in mem ==>
      a in Insert(mem, ring, t, bp) && SizeAt(Insert(mem, ring, t, bp), a) == SizeAt(mem, a)
    ensures forall a :: a in mem && a != bp && a != ring[t] ==> Insert(mem, ring, t, bp)[a] == mem[a]
    ensures Insert(mem, ring, t, bp)[bp].ptr == NextOf(ring, t) && Insert(mem, ring, t, bp)[ring[t]].ptr == bp
  {
    assert CellOk(mem, ring, t);
  }

  lemma {:induction false} InsertCell(mem: Mem, ring: seq<nat>, t: nat, bp: nat, brk: nat, i: nat)
    requires Fits(mem, ring, t, bp, brk) && i <= |ring|
    ensures CellOk(Insert(mem, ring, t, bp), With(ring, t + 1, bp), i)
  {
    InsertSizes(mem, ring, t, bp, brk);
    hide Insert;
    var j := if i <= t then i else i - 1;
    assert CellOk(mem, ring, j);
    if j < t {
      Ascending(mem, ring, brk, {}, j, t);
    }
    if t < j {
      Ascending(mem, ring, brk, {}, t, j);
      if t + 1 < j { Ascending(mem, ring, brk, {}, t + 1, j); }
    }
    hide RingOk, With;
  }

  lemma {:induction false} InsertGap(mem: Mem, ring: seq<nat>, t: nat, bp: nat, brk: nat, i: nat, X: set<nat>)
    requires Fits(mem, ring, t, bp, brk) && i < |ring| && X == {t, t + 1}
    ensures GapAfter(Insert(mem, ring, t, bp), With(ring, t + 1, bp), i, X)
  {
    InsertSizes(mem, ring, t, bp, brk);
    assert CellOk(mem, ring, t);
    var none: set<nat> := {};
    if i < t {
      assert GapAfter(mem, ring, i, none) && CellOk(mem, ring, i) && CellOk(mem, ring, i + 1);
    } else if i > t + 1 {
      assert GapAfter(mem, ring, i - 1, none) && CellOk(mem, ring, i - 1) && CellOk(mem, ring, i);
    } else if i == t + 1 {
      assert CellOk(mem, ring, i);
    }
    hide Insert, RingOk, With;
  }

  lemma {:induction false} InsertRing(mem: Mem, ring: seq<nat>, t: nat, bp: nat, brk: nat, X: set<nat>)
    requires Fits(mem, ring, t, bp, brk) && X == {t, t + 1}
    ensures RingOk(Insert(mem, ring, t, bp), With(ring, t + 1, bp), brk, X)
  {
    var m, r := Insert(mem, ring, t, bp), With(ring, t + 1, bp);
    InsertSizes(mem, ring, t, bp, brk);
    forall i | 0 <= i < |r| ensures CellOk(m, r, i) {
      InsertCell(mem, ring, t, bp, brk, i);
    }
    forall i | 0 <= i < |r| - 1 ensures GapAfter(m, r, i, X) {
      InsertGap(mem, ring, t, bp, brk, i, X);
    }
    assert CellOk(mem, ring, |ring| - 1);
    hide GapAfter, CellOk, Insert;
  }

  // The block lies between its neighbours.
  lemma {:induction false} InSlot(mem: Mem, ring: seq<nat>, live: seq<nat>, brk: nat, got: nat, k: nat, t: nat)
    requires HeapOk(mem, ring, live, brk, got, {}) && k < |live| && Slot(ring, t, live[k])
    ensures Fits(mem, ring, t, live[k], brk)
  {
    LiveNotFree(mem, ring, live, brk, got, {}, k, t);
    if t + 1 < |ring| {
      LiveNotFree(mem, ring, live, brk, got, {}, k, t + 1);
    }
  }

  lemma {:induction false} Inserted(mem: Mem, ring: seq<nat>, live: seq<nat>, brk: nat, got: nat, k: nat, t: nat,
      X: set<nat>)
    requires HeapOk(mem, ring, live, brk, got, {}) && k < |live| && Slot(ring, t, live[k]) && X == {t, t + 1}
    ensures t < |ring| && HeapOk(Insert(mem, ring, t, live[k]), With(ring, t + 1, live[k]), Without(live, k), brk, got,
      X)
  {
    hide Sum, RingOk, Apart;
    InSlot(mem, ring, live, brk, got, k, t);
    var bp := live[k];
    var m, r, l := Insert(mem, ring, t, bp), With(ring, t + 1, bp), Without(live, k);
    InsertRing(mem, ring, t, bp, brk, X);
    InsertSizes(mem, ring, t, bp, brk);
    RingIn(mem, ring, brk);
    SumWith(mem, ring, t + 1, bp);
    SumWithout(mem, live, k);
    SumFrame(mem, m, r);
    SumFrame(mem, m, l);
    forall i, x | 0 <= i < |r| && 0 <= x < |l| ensures Apart(m, r[i], l[x]) {
      var y := if x < k then x else x + 1;
      if i == t + 1 {
        assert Apart(mem, live[if y < k then y else k], live[if y < k then k else y]);
      } else {
        assert Apart(mem, ring[if i <= t then i else i - 1], live[y]);
      }
      assert l[x] == live[y] && r[i] == if i == t + 1 then bp else ring[if i <= t then i else i - 1];
      assert r[i] in mem && l[x] in mem;
      ApartFrame(mem, m, r[i], l[x]);
      assert Apart(mem, r[i], l[x]) || Apart(mem, l[x], r[i]);
    }
    forall x, y | 0 <= x < y < |l| ensures Apart(m, l[x], l[y]) {
      assert Apart(mem, live[if x < k then x else x + 1], live[if y < k then y else y + 1]);
      ApartFrame(mem, m, l[x], l[y]);
    }
    hide Insert;
  }

  lemma {:induction false} ApartFrame(mem: Mem, mem': Mem, a: nat, b: nat)
    requires SizeAt(mem', a) == SizeAt(mem, a) && SizeAt(mem', b) == SizeAt(mem, b)
    ensures Apart(mem, a, b) || Apart(mem, b, a) ==> Apart(mem', a, b)
  {
  }

  lemma {:induction false} RingIn(mem: Mem, ring: seq<nat>, brk: nat)
    requires RingOk(mem, ring, brk, {})
    ensures forall i :: 0 <= i < |ring| ==> ring[i] in mem
  {
    forall i | 0 <= i < |ring| ensures ring[i] in mem {
      assert CellOk(mem, ring, i);
    }
  }

  // A free block takes over the one it touches.
  function Absorb(mem: Mem, ring: seq<nat>, i: nat): Mem
    requires i + 1 < |ring| && ring[i + 1] in mem
  {
    mem[ring[i] := Header(mem[ring[i + 1]].ptr, SizeAt(mem, ring[i]) + SizeAt(mem, ring[i + 1]))]
  }

  ghost predicate Touch(mem: Mem, ring: seq<nat>, i: nat, brk: nat, X: set<nat>) {
    && RingOk(mem, ring, brk, X) && i + 1 < |ring| && End(mem, ring[i]) == ring[i + 1] && forall x :: x in X ==> x <= i
  }

  lemma {:induction false} TouchIs(mem: Mem, ring: seq<nat>, i: nat, brk: nat, X: set<nat>)
    requires Touch(mem, ring, i, brk, X)
    ensures ring[i] in mem && ring[i + 1] in mem && 0 < i && ring[i] < ring[i + 1] && CellOk(mem, ring, i) &&
      CellOk(mem, ring, i + 1)
  {
    assert GapAfter(mem, ring, i, X) && CellOk(mem, ring, i);
    var j := i + 1;
    assert CellOk(mem, ring, j);
  }

  lemma {:induction false} AbsorbCell(mem: Mem, ring: seq<nat>, i: nat, brk: nat, X: set<nat>, k: nat)
    requires Touch(mem, ring, i, brk, X) && ring[i + 1] in mem && k < |ring| - 1
    ensures CellOk(Absorb(mem, ring, i), Without(ring, i + 1), k)
  {
    TouchIs(mem, ring, i, brk, X);
    var j := if k <= i then k else k + 1;
    assert CellOk(mem, ring, j);
    if j < i { Ascending(mem, ring, brk, X, j, i); }
    if i < j { Ascending(mem, ring, brk, X, i, j); }
    hide RingOk, GapAfter;
  }

  lemma {:induction false} AbsorbGap(mem: Mem, ring: seq<nat>, i: nat, brk: nat, X: set<nat>, k: nat, Y: set<nat>)
    requires Touch(mem, ring, i, brk, X) && ring[i + 1] in mem && k < |ring| - 2 && Y == X - {i}
    ensures GapAfter(Absorb(mem, ring, i), Without(ring, i + 1), k, Y)
  {
    TouchIs(mem, ring, i, brk, X);
    var j := if k < i then k else k + 1;
    assert GapAfter(mem, ring, j, X) && CellOk(mem, ring, j);
    var h := j + 1;
    assert CellOk(mem, ring, h);
    if j != i && ring[j] == ring[i] { }
    if j < i { Ascending(mem, ring, brk, X, j, i); }
    if i < j { Ascending(mem, ring, brk, X, i, j); }
    hide RingOk, CellOk;
  }

  lemma {:induction false} AbsorbRing(mem: Mem, ring: seq<nat>, i: nat, brk: nat, X: set<nat>, Y: set<nat>)
    requires Touch(mem, ring, i, brk, X) && ring[i + 1] in mem && Y == X - {i}
    ensures RingOk(Absorb(mem, ring, i), Without(ring, i + 1), brk, Y)
  {
    var m, r := Absorb(mem, ring, i), Without(ring, i + 1);
    TouchIs(mem, ring, i, brk, X);
    forall k | 0 <= k < |r| ensures CellOk(m, r, k) {
      AbsorbCell(mem, ring, i, brk, X, k);
    }
    forall k | 0 <= k < |r| - 1 ensures GapAfter(m, r, k, Y) {
      AbsorbGap(mem, ring, i, brk, X, k, Y);
    }
    var last := |ring| - 1;
    if i < last - 1 {
      Ascending(mem, ring, brk, X, i, last);
      assert CellOk(mem, ring, last);
    }
    hide GapAfter, CellOk;
  }

  // Blocks other than the one that grew keep their sizes.
  lemma {:induction false} AbsorbSizes(mem: Mem, ring: seq<nat>, i: nat)
    requires i + 1 < |ring| && ring[i + 1] in mem
    ensures forall a :: a != ring[i] ==> SizeAt(Absorb(mem, ring, i), a) == SizeAt(mem, a)
    ensures SizeAt(Absorb(mem, ring, i), ring[i]) == SizeAt(mem, ring[i]) + SizeAt(mem, ring[i + 1])
    ensures forall a :: a in mem ==> a in Absorb(mem, ring, i)
  {
  }

  lemma {:induction false} Absorbed(mem: Mem, ring: seq<nat>, live: seq<nat>, brk: nat, got: nat, i: nat, X: set<nat>,
      Y: set<nat>)
    requires HeapOk(mem, ring, live, brk, got, X) && Touch(mem, ring, i, brk, X) && Y == X - {i}
    ensures ring[i + 1] in mem && HeapOk(Absorb(mem, ring, i), Without(ring, i + 1), live, brk, got, Y)
  {
    hide Sum, RingOk, Apart, GapAfter, CellOk, Absorb;
    TouchIs(mem, ring, i, brk, X);
    AbsorbRing(mem, ring, i, brk, X, Y);
    AbsorbSizes(mem, ring, i);
    var m, r := Absorb(mem, ring, i), Without(ring, i + 1);
    AbsorbSum(mem, ring, i, brk, X);
    forall x | 0 <= x < |live| ensures live[x] != ring[i] {
      LiveNotFree(mem, ring, live, brk, got, X, x, i);
    }
    SumFrame(mem, m, live);
    forall j, x | 0 <= j < |r| && 0 <= x < |live| ensures Apart(m, r[j], live[x]) {
      var h := if j <= i then j else j + 1;
      assert Apart(mem, ring[h], live[x]);
      if h == i {
        var i' := i + 1;
        assert Apart(mem, ring[i'], live[x]);
        ApartGrown(mem, m, ring[i], ring[i'], live[x]);
      } else {
        RingDiffers(mem, ring, brk, X, h, i);
        ApartFrame(mem, m, ring[h], live[x]);
      }
    }
    forall x, y | 0 <= x < y < |live| ensures Apart(m, live[x], live[y]) {
      assert Apart(mem, live[x], live[y]);
      ApartFrame(mem, m, live[x], live[y]);
    }
  }

  lemma {:induction false} RingDiffers(mem: Mem, ring: seq<nat>, brk: nat, X: set<nat>, i: nat, j: nat)
    requires RingOk(mem, ring, brk, X) && i < |ring| && j < |ring| && i != j
    ensures ring[i] != ring[j]
  {
    if i < j { Ascending(mem, ring, brk, X, i, j); } else { Ascending(mem, ring, brk, X, j, i); }
  }

  lemma {:induction false} ApartGrown(mem: Mem, mem': Mem, a: nat, b: nat, x: nat)
    requires Apart(mem, a, x) && Apart(mem, b, x) && End(mem, a) == b && SizeAt(mem, x) >= 1
    requires SizeAt(mem', a) == SizeAt(mem, a) + SizeAt(mem, b) && SizeAt(mem', x) == SizeAt(mem, x)
    ensures Apart(mem', a, x)
  {
  }

  lemma {:induction false} AbsorbSum(mem: Mem, ring: seq<nat>, i: nat, brk: nat, X: set<nat>)
    requires Touch(mem, ring, i, brk, X) && ring[i + 1] in mem
    ensures Sum(Absorb(mem, ring, i), Without(ring, i + 1)) == Sum(mem, ring)
  {
    var m, r := Absorb(mem, ring, i), Without(ring, i + 1);
    var rest := Without(r, i);
    SumWithout(mem, ring, i + 1);
    SumWithout(mem, r, i);
    SumWithout(m, r, i);
    AbsorbSizes(mem, ring, i);
    forall k | 0 <= k < |rest| ensures SizeAt(m, rest[k]) == SizeAt(mem, rest[k]) {
      var h := if k < i then k else k + 2;
      RingDiffers(mem, ring, brk, X, h, i);
    }
    SumFrame(mem, m, rest);
  }

  // The block of an X that is not touching after all.
  lemma {:induction false} NotTouching(mem: Mem, ring: seq<nat>, live: seq<nat>, brk: nat, got: nat, i: nat,
      X: set<nat>, Y: set<nat>)
    requires HeapOk(mem, ring, live, brk, got, X) && Y == X - {i} &&
      (i + 1 < |ring| ==> End(mem, ring[i]) != ring[i + 1])
    ensures HeapOk(mem, ring, live, brk, got, Y)
  {
    hide Sum, Apart, CellOk, Separate, LiveOk;
    forall k | 0 <= k < |ring| - 1 ensures GapAfter(mem, ring, k, Y) {
      assert GapAfter(mem, ring, k, X);
    }
  }

  // Taking a whole free block out of the ring.
  function TakeWhole(mem: Mem, ring: seq<nat>, c: nat): Mem
    requires 1 <= c < |ring| && ring[c] in mem
  {
    mem[ring[c - 1] := Header(mem[ring[c]].ptr, SizeAt(mem, ring[c - 1]))]
  }

  lemma {:induction false} WholeCell(mem: Mem, ring: seq<nat>, brk: nat, c: nat, k: nat)
    requires RingOk(mem, ring, brk, {}) && 1 <= c < |ring| && ring[c] in mem && k < |ring| - 1
    ensures CellOk(TakeWhole(mem, ring, c), Without(ring, c), k)
  {
    var j := if k < c then k else k + 1;
    var p := c - 1;
    assert CellOk(mem, ring, j) && CellOk(mem, ring, c) && CellOk(mem, ring, p);
    if j != p { RingDiffers(mem, ring, brk, {}, j, p); }
    hide RingOk;
  }

  lemma {:induction false} WholeGap(mem: Mem, ring: seq<nat>, brk: nat, c: nat, k: nat, none: set<nat>)
    requires RingOk(mem, ring, brk, none) && none == {} && 1 <= c < |ring| && ring[c] in mem && k < |ring| - 2
    ensures GapAfter(TakeWhole(mem, ring, c), Without(ring, c), k, none)
  {
    var j, h := if k < c then k else k + 1, if k + 1 < c then k + 1 else k + 2;
    var p := c - 1;
    assert CellOk(mem, ring, j) && CellOk(mem, ring, c) && CellOk(mem, ring, p) && CellOk(mem, ring, h);
    assert GapAfter(mem, ring, j, none);
    if j + 1 != h { assert GapAfter(mem, ring, c, none); }
    if j != p { RingDiffers(mem, ring, brk, none, j, p); }
    hide RingOk;
  }

  lemma {:induction false} WholeSizes(mem: Mem, ring: seq<nat>, brk: nat, c: nat)
    requires RingOk(mem, ring, brk, {}) && 1 <= c < |ring| && ring[c] in mem
    ensures forall a :: a in mem ==>
      a in TakeWhole(mem, ring, c) && SizeAt(TakeWhole(mem, ring, c), a) == SizeAt(mem, a)
    ensures SizeAt(mem, ring[c]) >= 1 && BASE < ring[c] && End(mem, ring[c]) <= brk && ring[c - 1] in mem
  {
    var p, last, none := c - 1, |ring| - 1, {};
    assert CellOk(mem, ring, p) && CellOk(mem, ring, c) && CellOk(mem, ring, last);
    Ascending(mem, ring, brk, none, 0, c);
    if c < last { Ascending(mem, ring, brk, none, c, last); }
  }

  lemma {:induction false} TakenWhole(mem: Mem, ring: seq<nat>, live: seq<nat>, brk: nat, got: nat, c: nat,
      none: set<nat>)
    requires HeapOk(mem, ring, live, brk, got, none) && none == {} && 1 <= c < |ring| && ring[c] in mem
    ensures HeapOk(TakeWhole(mem, ring, c), Without(ring, c), live + [ring[c]], brk, got, none)
  {
    hide Sum, RingOk, Apart, TakeWhole;
    var m, r, l := TakeWhole(mem, ring, c), Without(ring, c), live + [ring[c]];
    WholeSizes(mem, ring, brk, c);
    WholeRing(mem, ring, brk, c, none);
    RingIn(mem, ring, brk);
    SumWithout(mem, ring, c);
    SumJoin(mem, live, [ring[c]]);
    SumOne(mem, ring[c]);
    SumFrame(mem, m, r);
    SumFrame(mem, m, l);
    forall i, x | 0 <= i < |r| && 0 <= x < |l| ensures Apart(m, r[i], l[x]) {
      var j := if i < c then i else i + 1;
      if x < |live| {
        assert Apart(mem, ring[j], live[x]);
      } else {
        RingApart(mem, ring, brk, none, j, c);
      }
      ApartFrame(mem, m, r[i], l[x]);
    }
    forall x, y | 0 <= x < y < |l| ensures Apart(m, l[x], l[y]) {
      if y < |live| {
        assert Apart(mem, live[x], live[y]);
      } else {
        assert Apart(mem, ring[c], live[x]);
      }
      ApartFrame(mem, m, l[x], l[y]);
    }
  }

  lemma {:induction false} RingApart(mem: Mem, ring: seq<nat>, brk: nat, X: set<nat>, i: nat, j: nat)
    requires RingOk(mem, ring, brk, X) && i < |ring| && j < |ring| && i != j
    ensures Apart(mem, ring[i], ring[j]) && ring[i] != ring[j]
  {
    if i < j { Ascending(mem, ring, brk, X, i, j); } else { Ascending(mem, ring, brk, X, j, i); }
  }

  lemma {:induction false} WholeRing(mem: Mem, ring: seq<nat>, brk: nat, c: nat, none: set<nat>)
    requires RingOk(mem, ring, brk, none) && none == {} && 1 <= c < |ring| && ring[c] in mem
    ensures RingOk(TakeWhole(mem, ring, c), Without(ring, c), brk, none)
  {
    var m, r := TakeWhole(mem, ring, c), Without(ring, c);
    WholeSizes(mem, ring, brk, c);
    RingIn(mem, ring, brk);
    forall k | 0 <= k < |r| ensures CellOk(m, r, k) {
      WholeCell(mem, ring, brk, c, k);
    }
    forall k | 0 <= k < |r| - 1 ensures GapAfter(m, r, k, none) {
      WholeGap(mem, ring, brk, c, k, none);
    }
    var last := |ring| - 1;
    if c == last { var p := c - 1; assert GapAfter(mem, ring, p, none); }
    hide GapAfter, CellOk, TakeWhole;
  }

  // Cutting the tail off a free block.
  function TakeTail(mem: Mem, a: nat, n: nat): Mem
    requires a in mem && n < mem[a].size
  {
    var s := mem[a].size - n;
    mem[a := Header(mem[a].ptr, s)][a + s := Header(0, n)]
  }

  // Nothing else begins inside a free block.
  lemma {:induction false} TailFresh(mem: Mem, ring: seq<nat>, live: seq<nat>, brk: nat, got: nat, c: nat, q: nat,
      none: set<nat>)
    requires HeapOk(mem, ring, live, brk, got, none) && none == {} && 1 <= c < |ring| && ring[c] < q < End(mem, ring[c])
    ensures (forall i :: 0 <= i < |ring| ==> ring[i] != q) &&
      (forall x :: 0 <= x < |live| ==> live[x] != q && live[x] != ring[c])
    ensures BASE < ring[c] && End(mem, ring[c]) <= brk && ring[c] in mem
  {
    hide Sum;
    forall i | 0 <= i < |ring| ensures ring[i] != q {
      if i < c { Ascending(mem, ring, brk, none, i, c); }
      if c < i { Ascending(mem, ring, brk, none, c, i); }
    }
    forall x | 0 <= x < |live| ensures live[x] != q && live[x] != ring[c] {
      LiveNotFree(mem, ring, live, brk, got, none, x, c);
    }
    RingIn(mem, ring, brk);
    WholeSizes(mem, ring, brk, c);
  }

  lemma {:induction false} TakenTail(mem: Mem, ring: seq<nat>, live: seq<nat>, brk: nat, got: nat, c: nat, n: nat,
      none: set<nat>)
    requires HeapOk(mem, ring, live, brk, got, none) && none == {} && 1 <= c < |ring| && ring[c] in mem &&
      1 <= n < mem[ring[c]].size
    ensures HeapOk(TakeTail(mem, ring[c], n), ring, live + [ring[c] + mem[ring[c]].size - n], brk, got, none)
  {
    hide Sum, RingOk, Apart;
    var a := ring[c];
    var q := a + mem[a].size - n;
    var m, l := TakeTail(mem, a, n), live + [q];
    TailFresh(mem, ring, live, brk, got, c, q, none);
    TailRing(mem, ring, live, brk, got, c, n, none);
    TailSum(mem, ring, live, brk, got, c, n, none);
    forall i, x | 0 <= i < |ring| && 0 <= x < |l| ensures Apart(m, ring[i], l[x]) {
      if x < |live| {
        assert Apart(mem, ring[i], live[x]);
        ApartShrunk(mem, m, ring[i], live[x]);
      } else if i != c {
        RingApart(mem, ring, brk, none, i, c);
        RingDown(mem, ring, brk, none, i, c);
        ApartTail(mem, m, ring[i], a, q, n);
      } else {
        ApartSelf(m, a, q);
      }
    }
    forall x, y | 0 <= x < y < |l| ensures Apart(m, l[x], l[y]) {
      if y < |live| {
        assert Apart(mem, live[x], live[y]);
        ApartShrunk(mem, m, live[x], live[y]);
      } else {
        assert Apart(mem, ring[c], live[x]);
        ApartTail(mem, m, live[x], a, q, n);
      }
    }
  }

  lemma {:induction false} RingDown(mem: Mem, ring: seq<nat>, brk: nat, X: set<nat>, i: nat, j: nat)
    requires RingOk(mem, ring, brk, X) && i < |ring| && j < |ring| && i != j
    ensures End(mem, ring[i]) <= ring[j] || End(mem, ring[j]) <= ring[i]
  {
    RingApart(mem, ring, brk, X, i, j);
  }

  lemma {:induction false} ApartSelf(m: Mem, a: nat, q: nat)
    requires End(m, a) <= q
    ensures Apart(m, a, q)
  {
  }

  lemma {:induction false} ApartShrunk(mem: Mem, m: Mem, a: nat, b: nat)
    requires Apart(mem, a, b) && SizeAt(m, a) <= SizeAt(mem, a) && SizeAt(m, b) <= SizeAt(mem, b)
    ensures Apart(m, a, b)
  {
  }

  lemma {:induction false} ApartTail(mem: Mem, m: Mem, x: nat, a: nat, q: nat, n: nat)
    requires Apart(mem, a, x) || Apart(mem, x, a)
    requires a <= q && q + n == End(mem, a) && SizeAt(m, q) == n && SizeAt(m, x) == SizeAt(mem, x)
    ensures Apart(m, x, q)
  {
  }

  lemma {:induction false} TailRing(mem: Mem, ring: seq<nat>, live: seq<nat>, brk: nat, got: nat, c: nat, n: nat,
      none: set<nat>)
    requires HeapOk(mem, ring, live, brk, got, none) && none == {} && 1 <= c < |ring| && ring[c] in mem &&
      1 <= n < mem[ring[c]].size
    ensures RingOk(TakeTail(mem, ring[c], n), ring, brk, none)
  {
    hide Sum, Separate, LiveOk;
    var a := ring[c];
    var q, m := a + mem[a].size - n, TakeTail(mem, a, n);
    TailFresh(mem, ring, live, brk, got, c, q, none);
    forall k | 0 <= k < |ring| ensures CellOk(m, ring, k) && SizeAt(m, ring[k]) <= SizeAt(mem, ring[k]) {
      assert CellOk(mem, ring, k);
      if k != c { RingDiffers(mem, ring, brk, none, k, c); }
    }
    forall k | 0 <= k < |ring| - 1 ensures GapAfter(m, ring, k, none) {
      assert GapAfter(mem, ring, k, none);
    }
    hide CellOk, GapAfter, TakeTail;
  }

  lemma {:induction false} TailSum(mem: Mem, ring: seq<nat>, live: seq<nat>, brk: nat, got: nat, c: nat, n: nat,
      none: set<nat>)
    requires HeapOk(mem, ring, live, brk, got, none) && none == {} && 1 <= c < |ring| && ring[c] in mem &&
      1 <= n < mem[ring[c]].size
    ensures
      var m, l := TakeTail(mem, ring[c], n), live + [ring[c] + mem[ring[c]].size - n];
      Sum(m, ring) + Sum(m, l) == got
  {
    hide Separate, LiveOk, Sum, Apart;
    var a := ring[c];
    var q, m := a + mem[a].size - n, TakeTail(mem, a, n);
    var rest := Without(ring, c);
    TailFresh(mem, ring, live, brk, got, c, q, none);
    SumWithout(mem, ring, c);
    SumWithout(m, ring, c);
    forall k | 0 <= k < |rest| ensures SizeAt(m, rest[k]) == SizeAt(mem, rest[k]) {
      var h := if k < c then k else k + 1;
      RingDiffers(mem, ring, brk, none, h, c);
    }
    SumFrame(mem, m, rest);
    SumFrame(mem, m, live);
    SumJoin(m, live, [q]);
    SumOne(m, q);
  }

  lemma {:induction false} EndIs(m: Mem, a: nat)
    ensures End(m, a) == a + SizeAt(m, a)
  {
  }

  lemma {:induction false} EndFrame(mem: Mem, m: Mem, a: nat)
    requires SizeAt(m, a) == SizeAt(mem, a)
    ensures End(m, a) == End(mem, a)
  {
  }

  lemma {:induction false} ObtainedRing(mem: Mem, ring: seq<nat>, brk: nat, p: nat, n: nat, none: set<nat>)
    requires RingOk(mem, ring, brk, none) && brk <= p && forall i :: 0 <= i < |ring| ==> ring[i] != p
    ensures RingOk(mem[p := Header(0, n)], ring, p + n, none)
  {
    var m := mem[p := Header(0, n)];
    forall k | 0 <= k < |ring| ensures CellOk(m, ring, k) {
      assert CellOk(mem, ring, k);
    }
    forall k | 0 <= k < |ring| - 1 ensures GapAfter(m, ring, k, none) {
      assert GapAfter(mem, ring, k, none);
    }
    hide GapAfter, CellOk;
  }

  // sbrk's new units, as a block handed out.
  lemma {:induction false} Obtained(mem: Mem, ring: seq<nat>, live: seq<nat>, brk: nat, got: nat, p: nat, n: nat,
      none: set<nat>)
    requires HeapOk(mem, ring, live, brk, got, none) && brk <= p && 1 <= n && BASE < p
    ensures HeapOk(mem[p := Header(0, n)], ring, live + [p], p + n, got + n, none)
  {
    hide Sum, RingOk, Apart, End;
    var m, l := mem[p := Header(0, n)], live + [p];
    BelowBrk(mem, ring, live, brk, got, none, p);
    ObtainedRing(mem, ring, brk, p, n, none);
    SumFrame(mem, m, ring);
    SumFrame(mem, m, live);
    SumJoin(m, live, [p]);
    SumOne(m, p);
    EndIs(m, p);
    forall x | 0 <= x < |live| ensures End(m, live[x]) == End(mem, live[x]) {
      EndFrame(mem, m, live[x]);
    }
    forall i, x | 0 <= i < |ring| && 0 <= x < |l| ensures Apart(m, ring[i], l[x]) {
      if x < |live| {
        assert Apart(mem, ring[i], live[x]);
        ApartFrame(mem, m, ring[i], live[x]);
      } else {
        EndFrame(mem, m, ring[i]);
        ApartSelf(m, ring[i], p);
      }
    }
    forall x, y | 0 <= x < y < |l| ensures Apart(m, l[x], l[y]) {
      if y < |live| {
        assert Apart(mem, live[x], live[y]);
        ApartFrame(mem, m, live[x], live[y]);
      } else {
        ApartSelf(m, live[x], p);
      }
    }
  }

  lemma {:induction false} BelowBrk(mem: Mem, ring: seq<nat>, live: seq<nat>, brk: nat, got: nat, X: set<nat>, p: nat)
    requires HeapOk(mem, ring, live, brk, got, X) && brk <= p && BASE < p
    ensures forall i :: 0 <= i < |ring| ==> ring[i] != p && End(mem, ring[i]) <= brk
    ensures forall x :: 0 <= x < |live| ==> live[x] != p && End(mem, live[x]) <= brk
  {
    hide Sum, Separate;
    var last := |ring| - 1;
    forall i | 0 <= i < |ring| ensures ring[i] != p && End(mem, ring[i]) <= brk {
      if i < last { Ascending(mem, ring, brk, X, i, last); }
      assert CellOk(mem, ring, i) && CellOk(mem, ring, last);
    }
  }

  // The static header alone.
  lemma {:induction false} FirstRing(mem: Mem, brk: nat)
    requires BASE <= brk
    ensures HeapOk(mem[BASE := Header(BASE, 0)], [BASE], [], brk, 0, {})
  {
  }
}
