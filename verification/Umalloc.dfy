// umalloc.c: malloc, free and morecore on a first-fit circular list.
module Umalloc {
  import opened Basics
  import opened FreeRing

  const HEADER := 8             // sizeof(Header)

  // Steps around the ring from index c to index t.
  function Dist(c: nat, t: nat, n: nat): (d: int)
    requires c < n && t < n
    ensures 0 <= d < n && (d == 0 <==> c == t)
  {
    if c <= t then t - c else t + n - c
  }

  function Succ(c: nat, n: nat): (r: nat)
    requires c < n
    ensures r < n
  {
    if c + 1 < n then c + 1 else 0
  }

  function Pred(c: nat, n: nat): (r: nat)
    requires c < n
    ensures r < n && Succ(r, n) == c
  {
    if c == 0 then n - 1 else c - 1
  }

  lemma {:induction false} DistStep(c: nat, t: nat, n: nat)
    requires c < n && t < n
    ensures c != t ==> Dist(Succ(c, n), t, n) == Dist(c, t, n) - 1
    ensures Dist(Succ(c, n), c, n) == n - 1 && Pred(Succ(c, n), n) == c
  {
  }

  lemma {:induction false} AtRing(mem: Mem, ring: seq<nat>, brk: nat, c: nat)
    requires RingOk(mem, ring, brk, {}) && c < |ring|
    ensures ring[c] in mem && mem[ring[c]].ptr == ring[Succ(c, |ring|)] && mem[ring[c]].ptr == NextOf(ring, c)
    ensures (c == 0 <==> mem[ring[c]].size == 0) && ring[c] >= BASE
  {
    assert CellOk(mem, ring, c);
    if c > 0 { Ascending(mem, ring, brk, {}, 0, c); }
  }

  // free's search stops exactly where the block belongs.
  lemma {:induction false} StopsAt(mem: Mem, ring: seq<nat>, brk: nat, bp: nat, t: nat, c: nat)
    requires RingOk(mem, ring, brk, {}) && Slot(ring, t, bp) && c < |ring| && bp > BASE
    ensures ring[c] in mem
    ensures
      var p, q := ring[c], mem[ring[c]].ptr;
      c == t <==> (bp > p && bp < q) || (p >= q && (bp > p || bp < q))
  {
    AtRing(mem, ring, brk, c);
    SlotOne(mem, ring, brk, {}, bp, t, c);
    if c + 1 < |ring| {
      Ascending(mem, ring, brk, {}, c, c + 1);
    } else if c > 0 {
      Ascending(mem, ring, brk, {}, 0, c);
    }
    hide RingOk;
  }

  // What free's two ifs leave.
  function FreedMem(mem: Mem, p: nat, bp: nat): Mem
    requires p in mem && bp in mem && (bp + mem[bp].size == mem[p].ptr ==> mem[p].ptr in mem)
  {
    var q := mem[p].ptr;
    var b := if bp + mem[bp].size == q then Header(mem[q].ptr, mem[bp].size + mem[q].size) else Header(q, mem[bp].size);
    if p + mem[p].size == bp then mem[bp := b][p := Header(b.ptr, mem[p].size + b.size)]
    else mem[bp := b][p := Header(bp, mem[p].size)]
  }

  function FreedRing(mem: Mem, ring: seq<nat>, t: nat, bp: nat): seq<nat>
    requires t < |ring| && ring[t] in mem && bp in mem
  {
    var r1 := With(ring, t + 1, bp);
    var r2 := if t + 1 < |ring| && bp + mem[bp].size == ring[t + 1] then Without(r1, t + 2) else r1;
    if ring[t] + mem[ring[t]].size == bp then Without(r2, t + 1) else r2
  }

  // free: the block joins the ring, merged with any neighbour it touches; p, after which freep points,
  // is in the ring, and the ring has a block at least as big as the one freed.
  lemma {:induction false} Freed(mem: Mem, ring: seq<nat>, live: seq<nat>, brk: nat, got: nat, k: nat, t: nat)
    returns (b: nat)
    requires HeapOk(mem, ring, live, brk, got, {}) && k < |live| && Slot(ring, t, live[k])
    ensures t < |ring| && ring[t] in mem && live[k] in mem &&
      (live[k] + mem[live[k]].size == mem[ring[t]].ptr ==> mem[ring[t]].ptr in mem)
    ensures
      var m, r := FreedMem(mem, ring[t], live[k]), FreedRing(mem, ring, t, live[k]);
      && HeapOk(m, r, Without(live, k), brk, got, {}) && t < |r| && r[t] == ring[t]
      && b < |r| && r[b] in m && m[r[b]].size >= mem[live[k]].size
    ensures forall a :: a != ring[t] && a != live[k] ==> SizeAt(FreedMem(mem, ring[t], live[k]), a) == SizeAt(mem, a)
  {
    hide HeapOk, RingOk, Sum, GapAfter, With, Without;
    var bp, p := live[k], ring[t];
    HeapIs(mem, ring, live, brk, got, {});
    InSlot(mem, ring, live, brk, got, k, t);
    FitsIs(mem, ring, t, bp, brk);
    AtRing(mem, ring, brk, t);
    var X1: set<nat>, X2: set<nat>, X3: set<nat> := {t, t + 1}, {t}, {};
    var m1, r1 := Insert(mem, ring, t, bp), With(ring, t + 1, bp);
    Inserted(mem, ring, live, brk, got, k, t, X1);
    WithAt(ring, t + 1, bp);
    assert X1 - {t + 1} == X2 && X2 - {t} == X3;
    var l := Without(live, k);
    var m2, r2 := m1, r1;
    if t + 1 < |ring| && bp + mem[bp].size == ring[t + 1] {
      AtRing(mem, ring, brk, t + 1);
      HeapIs(m1, r1, l, brk, got, X1);
      TouchNow(m1, r1, t + 1, brk, X1);
      Absorbed(m1, r1, l, brk, got, t + 1, X1, X2);
      m2, r2 := Absorb(m1, r1, t + 1), Without(r1, t + 2);
      WithoutAt(r1, t + 2);
    } else {
      NotTouching(m1, r1, l, brk, got, t + 1, X1, X2);
    }
    assert r2[t] == p && r2[t + 1] == bp && m2[bp].size >= mem[bp].size && SizeAt(m2, p) == mem[p].size;
    HeapIs(m2, r2, l, brk, got, X2);
    if p + mem[p].size == bp {
      TouchNow(m2, r2, t, brk, X2);
      Absorbed(m2, r2, l, brk, got, t, X2, X3);
      WithoutAt(r2, t + 1);
      assert Absorb(m2, r2, t) == FreedMem(mem, p, bp);
      b := t;
    } else {
      NotTouching(m2, r2, l, brk, got, t, X2, X3);
      assert m2 == FreedMem(mem, p, bp);
      b := t + 1;
    }
  }

  lemma {:induction false} HeapIs(mem: Mem, ring: seq<nat>, live: seq<nat>, brk: nat, got: nat, X: set<nat>)
    requires HeapOk(mem, ring, live, brk, got, X)
    ensures RingOk(mem, ring, brk, X) && LiveOk(mem, live, brk) && |ring| > 0 && ring[0] == BASE
  {
  }

  lemma {:induction false} FitsIs(mem: Mem, ring: seq<nat>, t: nat, bp: nat, brk: nat)
    requires Fits(mem, ring, t, bp, brk)
    ensures t < |ring| && bp in mem && mem[bp].size >= 1 && ring[t] < bp && (t + 1 < |ring| ==> bp < ring[t + 1])
    ensures RingOk(mem, ring, brk, {})
  {
    hide RingOk;
  }

  lemma {:induction false} TouchNow(mem: Mem, ring: seq<nat>, i: nat, brk: nat, X: set<nat>)
    requires RingOk(mem, ring, brk, X) && i + 1 < |ring| && End(mem, ring[i]) == ring[i + 1] && forall x :: x in X ==>
      x <= i
    ensures Touch(mem, ring, i, brk, X)
  {
    hide RingOk;
  }

  lemma {:induction false} WithAt(s: seq<nat>, k: nat, x: nat)
    requires 1 <= k <= |s|
    ensures |With(s, k, x)| == |s| + 1 && With(s, k, x)[k] == x && With(s, k, x)[k - 1] == s[k - 1]
    ensures k < |s| ==> With(s, k, x)[k + 1] == s[k]
    ensures k == |s| ==> |With(s, k, x)| == k + 1
  {
  }

  lemma {:induction false} WithoutAt(s: seq<nat>, k: nat)
    requires 1 <= k < |s|
    ensures |Without(s, k)| == |s| - 1 && Without(s, k)[k - 1] == s[k - 1] &&
      (k >= 2 ==> Without(s, k)[k - 2] == s[k - 2])
  {
  }

  // malloc's size in units, computed in 32 bits.
  function Units(nbytes: nat): nat {
    (nbytes + HEADER - 1) % UINT / HEADER + 1
  }

  // Some free block has room for a request.
  ghost predicate Room(mem: Mem, ring: seq<nat>, units: nat) {
    exists i: nat :: i < |ring| && SizeAt(mem, ring[i]) >= units
  }

  // What morecore asks of sbrk.
  function Ask(units: nat): nat {
    if units < 4096 then 4096 else units
  }

  // The number of bytes sbrk is asked for: a product in 32 bits, passed as an int.
  function SbrkArg(units: nat): int {
    var n := units * HEADER % UINT;
    if n < UINT / 2 then n else n - UINT
  }

  // sbrk is asked to move the break up.
  predicate AsksUp(units: nat) {
    SbrkArg(Ask(units)) > 0
  }

  // Which requests malloc gets wrong. Within eight bytes of the largest uint its sum wraps around, and one
  // unit, a header without payload, is all that is handed out. From 2^28 units on sbrk is asked for nothing
  // or for a negative number of bytes, and what morecore then puts in the list is no memory of the program.
  lemma {:induction false} SizesRight(nbytes: nat)
    requires nbytes < UINT
    ensures nbytes <= UINT - HEADER ==> nbytes <= (Units(nbytes) - 1) * HEADER < nbytes + HEADER
    ensures nbytes > UINT - HEADER ==> Units(nbytes) == 1
    ensures AsksUp(Units(nbytes)) <==> Units(nbytes) < UINT / 2 / HEADER
    ensures AsksUp(Units(nbytes)) ==> SbrkArg(Ask(Units(nbytes))) == Ask(Units(nbytes)) * HEADER
  {
    var u := Units(nbytes);
    assert u <= UINT / HEADER;
    if u < UINT / 2 / HEADER {
      assert Ask(u) * HEADER < UINT / 2;
    } else {
      assert Ask(u) == u && UINT / 2 <= u * HEADER <= UINT;
    }
  }

  // The blocks malloc's loop has passed since it left place f, short of place c.
  ghost predicate Passed(mem: Mem, ring: seq<nat>, f: nat, c: nat, units: nat)
    requires f < |ring| && c < |ring|
  {
    forall i: nat :: i < |ring| && Dist(i, f, |ring|) > Dist(c, f, |ring|) ==> SizeAt(mem, ring[i]) < units
  }

  lemma {:induction false} PassedMore(mem: Mem, ring: seq<nat>, f: nat, c: nat, units: nat)
    requires f < |ring| && c < |ring| && Passed(mem, ring, f, c, units) && SizeAt(mem, ring[c]) < units
    ensures c == f ==> !Room(mem, ring, units)
    ensures c != f ==> Passed(mem, ring, f, Succ(c, |ring|), units)
  {
  }

  lemma {:induction false} RoomAt(mem: Mem, ring: seq<nat>, c: nat, units: nat)
    requires c < |ring| && SizeAt(mem, ring[c]) >= units
    ensures Room(mem, ring, units)
  {
  }

  lemma {:induction false} PassedNone(mem: Mem, ring: seq<nat>, f: nat, units: nat)
    requires f < |ring|
    ensures Passed(mem, ring, f, Succ(f, |ring|), units)
  {
  }

  class Allocator {
    // Headers by address, the free pointer (0 for null), the end of the heap and how far sbrk can move it.
    var mem: Mem
    var freep: nat
    var brk: nat
    const limit: nat
    // The free list from base on, the blocks handed out, and the units ever obtained.
    ghost var ring: seq<nat>
    ghost var live: seq<nat>
    ghost var got: nat

    ghost predicate Valid()
      reads this
    {
      && brk > BASE
      && (if freep == 0 then ring == [] && live == [] && got == 0
          else freep in ring && HeapOk(mem, ring, live, brk, got, {}))
    }

    constructor (brk: nat, limit: nat)
      requires brk > BASE
      ensures Valid() && live == [] && got == 0
    {
      mem, freep, this.brk, this.limit, ring, live, got := map[], 0, brk, limit, [], [], 0;
    }

    // sbrk, counted in units; other callers of sbrk may leave gaps.
    method Sbrk(n: nat) returns (p: nat)
      requires brk > 0
      modifies this`brk
      ensures p == 0 <==> old(brk) + n > limit
      ensures p == 0 ==> brk == old(brk)
      ensures p != 0 ==> p == old(brk) && brk == p + n
    {
      if brk + n > limit {
        return 0;
      }
      p := brk;
      brk := brk + n;
    }

    // A call of sbrk by the program itself.
    method OtherSbrk(n: nat)
      requires Valid()
      modifies this`brk
      ensures Valid() && brk >= old(brk)
    {
      if brk + n <= limit {
        if freep != 0 { HigherBrk(mem, ring, live, brk, got, brk + n); }
        brk := brk + n;
      }
    }

    // free's walk to the block's place.
    method Search(bp: nat, ghost t: nat) returns (p: nat)
      requires freep in ring && RingOk(mem, ring, brk, {}) && Slot(ring, t, bp) && bp > BASE && t < |ring|
      ensures p == ring[t]
    {
      hide RingOk, Slot, Dist, Succ;
      ghost var c: nat :| c < |ring| && ring[c] == freep;
      p := freep;
      StopsAt(mem, ring, brk, bp, t, c);
      while !(bp > p && bp < mem[p].ptr)
        invariant c < |ring| && p == ring[c] && p in mem
        invariant c == t <==> (bp > p && bp < mem[p].ptr) || (p >= mem[p].ptr && (bp > p || bp < mem[p].ptr))
        decreases Dist(c, t, |ring|)
      {
        if p >= mem[p].ptr && (bp > p || bp < mem[p].ptr) {
          break;
        }
        AtRing(mem, ring, brk, c);
        DistStep(c, t, |ring|);
        c := Succ(c, |ring|);
        StopsAt(mem, ring, brk, bp, t, c);
        p := mem[p].ptr;
      }
    }

    // free, of the k-th block handed out.
    method Free(ap: nat, ghost k: nat) returns (ghost b: nat)
      requires Valid() && k < |live| && ap == live[k] + 1
      modifies this`mem, this`freep, this`ring, this`live
      ensures Valid() && freep != 0 && live == Without(old(live), k) && got == old(got)
      ensures forall x :: 0 <= x < |live| ==> SizeAt(mem, live[x]) == SizeAt(old(mem), live[x])
      ensures b < |ring| && SizeAt(mem, ring[b]) >= old(SizeAt(mem, live[k]))
    {
      hide HeapOk, RingOk, FreedMem, FreedRing, Slot;
      var bp := ap - 1;
      HeapIs(mem, ring, live, brk, got, {});
      LiveIs(mem, ring, live, brk, got, k);
      ghost var t := SlotThere(ring, bp);
      SlotIs(ring, t, bp);
      var p := Search(bp, t);
      b := Freed(mem, ring, live, brk, got, k, t);
      ghost var m, r := FreedMem(mem, p, bp), FreedRing(mem, ring, t, bp);
      Joined(mem, p, bp);
      LiveElsewhere(mem, ring, live, brk, got, k, t);
      if bp + mem[bp].size == mem[p].ptr {
        mem := mem[bp := Header(mem[mem[p].ptr].ptr, mem[bp].size + mem[mem[p].ptr].size)];
      } else {
        mem := mem[bp := Header(mem[p].ptr, mem[bp].size)];
      }
      if p + mem[p].size == bp {
        mem := mem[p := Header(mem[bp].ptr, mem[p].size + mem[bp].size)];
      } else {
        mem := mem[p := Header(bp, mem[p].size)];
      }
      assert mem == m;
      freep := p;
      ring, live := r, Without(live, k);
      assert ring[t] == freep;
      BaseUp(mem, ring, live, brk, got, t);
    }

    // morecore: at least 4096 units from sbrk, freed into the list. Not ok: the request is one that sbrk
    // takes for a smaller or negative one; what follows is left open.
    method Morecore(nu0: nat) returns (r: nat, ok: bool, ghost b: nat)
      requires Valid() && freep != 0 && nu0 >= 1
      modifies this
      ensures Valid() && freep != 0 && live == old(live)
      ensures forall x :: 0 <= x < |live| ==> SizeAt(mem, live[x]) == old(SizeAt(mem, live[x]))
      ensures ok <==> AsksUp(nu0)
      ensures ok ==> (r == 0 <==> old(brk) + Ask(nu0) > limit)
      ensures !ok || r == 0 ==> brk == old(brk) && got == old(got) && mem == old(mem) && ring == old(ring)
      ensures ok && r != 0 ==> r == freep && got == old(got) + Ask(nu0) && b < |ring| && SizeAt(mem, ring[b]) >= nu0
    {
      hide HeapOk, SbrkArg;
      var nu := nu0;
      if nu < 4096 {
        nu := 4096;
      }
      if SbrkArg(nu) <= 0 {
        return 0, false, 0;
      }
      ghost var brk0 := brk;
      var p := Sbrk(nu);
      if p == 0 {
        return 0, true, 0;
      }
      Obtained(mem, ring, live, brk0, got, p, nu, {});
      NotLiveYet(mem, ring, live, brk0, got, p);
      ghost var live0, k := live, |live|;
      mem := mem[p := Header(0, nu)];
      live, got := live + [p], got + nu;
      b := Free(p + 1, k);
      assert live == live0;
      r, ok := freep, true;
    }

    // malloc's first call: the list is the static header alone.
    method Init(ghost units: nat) returns (prevp: nat)
      requires Valid() && freep == 0 && units > 0
      modifies this`mem, this`freep, this`ring
      ensures Valid() && prevp == freep != 0
      ensures !old(Room(mem, ring, units)) && !Room(mem, ring, units)
    {
      FirstRing(mem, brk);
      freep := BASE;
      prevp := BASE;
      mem := mem[BASE := Header(BASE, 0)];
      ring := [BASE];
      assert ring[0] == freep;
    }

    // malloc, of any uint: null, exactly when no free block has room and sbrk fails, or the payload of a
    // block of Units(nbytes) units more handed out; sbrk is asked only when no free block has room. Not ok is
    // the case that no free block has room and morecore is asked for more than sbrk can be told.
    method Malloc(nbytes: nat) returns (ap: nat, ok: bool)
      requires Valid() && nbytes < UINT
      modifies this
      ensures Valid()
      ensures ok <==> old(Room(mem, ring, Units(nbytes))) || AsksUp(Units(nbytes))
      ensures ok ==> (ap == 0 <==> !old(Room(mem, ring, Units(nbytes))) && old(brk) + Ask(Units(nbytes)) > limit)
      ensures ap == 0 ==> live == old(live) && got == old(got)
      ensures ok ==> got == old(got) + if ap == 0 || old(Room(mem, ring, Units(nbytes))) then 0 else Ask(Units(nbytes))
      ensures ok && ap != 0 ==> live == old(live) + [ap - 1] && SizeAt(mem, ap - 1) == Units(nbytes)
      ensures ok && ap != 0 ==> (nbytes <= (SizeAt(mem, ap - 1) - 1) * HEADER <==> nbytes <= UINT - HEADER)
      ensures ok && ap != 0 && nbytes <= UINT - HEADER ==> (SizeAt(mem, ap - 1) - 1) * HEADER < nbytes + HEADER
      ensures forall x :: 0 <= x < |old(live)| ==> SizeAt(mem, old(live)[x]) == old(SizeAt(mem, live[x]))
    {
      hide HeapOk, Room, AsksUp;
      SizesRight(nbytes);
      var nunits := (nbytes + HEADER - 1) % UINT / HEADER + 1;
      var prevp := freep;
      if prevp == 0 {
        prevp := Init(nunits);
      }
      ap, ok := FirstFit(prevp, nunits);
    }

    // malloc's loop, once around the ring and, after morecore, on to a block with room.
    method FirstFit(freep0: nat, nunits: nat) returns (ap: nat, ok: bool)
      requires Valid() && freep0 == freep != 0 && nunits > 0
      modifies this
      ensures Valid()
      ensures ok <==> old(Room(mem, ring, nunits)) || AsksUp(nunits)
      ensures ok ==> (ap == 0 <==> !old(Room(mem, ring, nunits)) && old(brk) + Ask(nunits) > limit)
      ensures ap == 0 ==> live == old(live) && got == old(got)
      ensures ok ==> got == old(got) + if ap == 0 || old(Room(mem, ring, nunits)) then 0 else Ask(nunits)
      ensures ap != 0 ==> live == old(live) + [ap - 1] && SizeAt(mem, ap - 1) == nunits
      ensures forall x :: 0 <= x < |old(live)| ==> SizeAt(mem, old(live)[x]) == old(SizeAt(mem, live[x]))
    {
      hide HeapOk, RingOk, Dist, Succ, CellOk, GapAfter, Room, Passed, Ask, AsksUp;
      ok := true;
      ghost var live0, mem0, brk0 := live, mem, brk;
      ghost var room := Room(mem, ring, nunits);
      var prevp := freep0;
      HeapIs(mem, ring, live, brk, got, {});
      ghost var f: nat :| f < |ring| && ring[f] == freep;
      AtRing(mem, ring, brk, f);
      var p := mem[prevp].ptr;
      ghost var c: nat, target: nat, grown := Succ(f, |ring|), f, false;
      DistStep(f, f, |ring|);
      PassedNone(mem, ring, f, nunits);
      while true
        invariant Valid() && freep != 0 && live == live0 && f < |ring| && ring[f] == freep && c < |ring| &&
          target < |ring|
        invariant p == ring[c] && prevp == ring[Pred(c, |ring|)] && RingOk(mem, ring, brk, {})
        invariant if grown then SizeAt(mem, ring[target]) >= nunits && Dist(c, target, |ring|) <= Dist(c, f, |ring|)
          else target == f && got == old(got)
        invariant forall x :: 0 <= x < |live| ==> SizeAt(mem, live[x]) == SizeAt(mem0, live[x])
        invariant !grown ==> brk == brk0 && (room <==> Room(mem, ring, nunits)) && Passed(mem, ring, f, c, nunits)
        invariant ok && (grown ==> AsksUp(nunits))
        invariant grown ==> !room && brk0 + Ask(nunits) <= limit && got == old(got) + Ask(nunits)
        decreases if grown then 0 else 1, Dist(c, target, |ring|)
      {
        AtRing(mem, ring, brk, c);
        if mem[p].size >= nunits {
          RoomAt(mem, ring, c, nunits);
          AtRing(mem, ring, brk, Pred(c, |ring|));
          ap := TakeFrom(p, prevp, nunits, c);
          return;
        }
        if !grown { PassedMore(mem, ring, f, c, nunits); }
        if p == freep {
          SamePlace(mem, ring, brk, c, f);
          p, ok, target := Morecore(nunits);
          if !ok || p == 0 {
            return 0, ok;
          }
          grown := true;
          HeapIs(mem, ring, live, brk, got, {});
          f :| f < |ring| && ring[f] == freep;
          c := f;
        }
        AtRing(mem, ring, brk, c);
        DistStep(c, target, |ring|);
        DistStep(c, f, |ring|);
        prevp := p;
        p := mem[p].ptr;
        c := Succ(c, |ring|);
      }
    }

    // The block malloc has found: all of it, or its tail.
    method TakeFrom(p: nat, prevp: nat, nunits: nat, ghost c: nat) returns (ap: nat)
      requires Valid() && freep != 0 && 1 <= c < |ring| && p == ring[c] && prevp == ring[c - 1] && p in mem &&
        prevp in mem
      requires 1 <= nunits <= mem[p].size
      modifies this`mem, this`freep, this`ring, this`live
      ensures Valid() && ap != 0 && got == old(got) && live == old(live) + [ap - 1] && SizeAt(mem, ap - 1) == nunits
      ensures forall x :: 0 <= x < |old(live)| ==> SizeAt(mem, old(live)[x]) == old(SizeAt(mem, live[x]))
    {
      hide HeapOk, RingOk;
      HeapIs(mem, ring, live, brk, got, {});
      ghost var none: set<nat> := {};
      var q := p;
      if mem[p].size == nunits {
        TakenWhole(mem, ring, live, brk, got, c, none);
        TakenApart(mem, ring, live, brk, got, c, prevp);
        mem := mem[prevp := Header(mem[p].ptr, mem[prevp].size)];
        WithoutAt(ring, c);
        ring, live := Without(ring, c), live + [p];
        assert ring[c - 1] == prevp;
      } else {
        TakenTail(mem, ring, live, brk, got, c, nunits, none);
        TailFresh(mem, ring, live, brk, got, c, p + mem[p].size - nunits, none);
        mem := mem[p := Header(mem[p].ptr, mem[p].size - nunits)];
        q := p + mem[p].size;
        mem := mem[q := Header(0, nunits)];
        live := live + [q];
        assert ring[c - 1] == prevp;
      }
      BaseUp(mem, ring, live, brk, got, c - 1);
      freep := prevp;
      ap := q + 1;
    }
  }

  lemma {:induction false} HigherBrk(mem: Mem, ring: seq<nat>, live: seq<nat>, brk: nat, got: nat, brk': nat)
    requires HeapOk(mem, ring, live, brk, got, {}) && brk <= brk'
    ensures HeapOk(mem, ring, live, brk', got, {})
  {
    hide Apart, CellOk, GapAfter, Sum;
  }

  lemma {:induction false} LiveIs(mem: Mem, ring: seq<nat>, live: seq<nat>, brk: nat, got: nat, k: nat)
    requires HeapOk(mem, ring, live, brk, got, {}) && k < |live|
    ensures BASE < live[k] && live[k] in mem && forall i :: 0 <= i < |ring| ==> ring[i] != live[k]
  {
    hide Sum;
    forall i | 0 <= i < |ring| ensures ring[i] != live[k] {
      LiveNotFree(mem, ring, live, brk, got, {}, k, i);
    }
  }

  lemma {:induction false} SlotIs(ring: seq<nat>, t: nat, bp: nat)
    requires Slot(ring, t, bp)
    ensures t < |ring|
  {
  }

  lemma {:induction false} Joined(mem: Mem, p: nat, bp: nat)
    requires p in mem && bp in mem && p != bp && (bp + mem[bp].size == mem[p].ptr ==> mem[p].ptr in mem)
    ensures
      var m1 := if bp + mem[bp].size == mem[p].ptr then
        mem[bp := Header(mem[mem[p].ptr].ptr, mem[bp].size + mem[mem[p].ptr].size)]
        else mem[bp := Header(mem[p].ptr, mem[bp].size)];
      FreedMem(mem, p, bp) == if p + m1[p].size == bp then m1[p := Header(m1[bp].ptr, m1[p].size + m1[bp].size)]
        else m1[p := Header(bp, m1[p].size)]
  {
  }

  // The blocks still handed out are neither the one freed nor in the ring.
  lemma {:induction false} LiveElsewhere(mem: Mem, ring: seq<nat>, live: seq<nat>, brk: nat, got: nat, k: nat, t: nat)
    requires HeapOk(mem, ring, live, brk, got, {}) && k < |live| && t < |ring|
    ensures forall x :: 0 <= x < |live| && x != k ==> live[x] != live[k] && live[x] != ring[t]
  {
    hide Sum;
    forall x | 0 <= x < |live| && x != k ensures live[x] != live[k] && live[x] != ring[t] {
      LiveNotFree(mem, ring, live, brk, got, {}, x, t);
      assert Apart(mem, live[if x < k then x else k], live[if x < k then k else x]);
    }
  }

  lemma {:induction false} BaseUp(mem: Mem, ring: seq<nat>, live: seq<nat>, brk: nat, got: nat, t: nat)
    requires HeapOk(mem, ring, live, brk, got, {}) && t < |ring|
    ensures ring[t] >= BASE && ring[t] in ring
  {
    if t > 0 { Ascending(mem, ring, brk, {}, 0, t); }
  }

  lemma {:induction false} NotLiveYet(mem: Mem, ring: seq<nat>, live: seq<nat>, brk: nat, got: nat, p: nat)
    requires HeapOk(mem, ring, live, brk, got, {}) && brk <= p && BASE < p
    ensures forall x :: 0 <= x < |live| ==> live[x] != p
    ensures forall i :: 0 <= i < |ring| ==> ring[i] != p
  {
    BelowBrk(mem, ring, live, brk, got, {}, p);
  }

  lemma {:induction false} SamePlace(mem: Mem, ring: seq<nat>, brk: nat, c: nat, f: nat)
    requires RingOk(mem, ring, brk, {}) && c < |ring| && f < |ring| && ring[c] == ring[f]
    ensures c == f
  {
    if c != f { RingDiffers(mem, ring, brk, {}, c, f); }
  }

  lemma {:induction false} TakenApart(mem: Mem, ring: seq<nat>, live: seq<nat>, brk: nat, got: nat, c: nat, prevp: nat)
    requires HeapOk(mem, ring, live, brk, got, {}) && 1 <= c < |ring| && prevp == ring[c - 1]
    ensures prevp != ring[c] && forall x :: 0 <= x < |live| ==> live[x] != prevp
  {
    hide Sum;
    RingDiffers(mem, ring, brk, {}, c - 1, c);
    forall x | 0 <= x < |live| ensures live[x] != prevp {
      LiveNotFree(mem, ring, live, brk, got, {}, x, c - 1);
    }
  }
}
