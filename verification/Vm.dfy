// kalloc.c's free list and the user half of vm.c over physical memory.
module Vm {
  import opened Basics
  import opened PageTables

  const EXTMEM := 0x10_0000
  const PHYSTOP := 0xE00_0000
  const DEVSPACE := 0xFE00_0000

  function RoundUp(sz: nat): (a: nat)
    ensures a % PGSIZE == 0 && sz <= a < sz + PGSIZE
  {
    (sz + PGSIZE - 1) / PGSIZE * PGSIZE
  }

  // The number of pages that hold sz bytes.
  function PagesOf(sz: nat): (n: nat)
    ensures PGSIZE * n == RoundUp(sz)
  {
    (sz + PGSIZE - 1) / PGSIZE
  }

  // The number of pages that size bytes at va touch.
  function Span(va: nat, size: nat): (n: nat)
    requires size > 0
    ensures n >= 1 && va / PGSIZE + n - 1 == (va + size - 1) / PGSIZE
  {
    (va + size - 1) / PGSIZE - va / PGSIZE + 1
  }

  // The number of directory entries, hence of tables, that n pages from v on touch.
  function Tables(v: nat, n: nat): (r: nat)
  {
    if n == 0 then 0 else (v + n - 1) / ENTRIES - v / ENTRIES + 1
  }

  lemma {:induction false} TablesMore(v: nat, n: nat)
    ensures Tables(v, n) <= Tables(v, n + 1) <= Tables(v, n) + 1 && Tables(v, 1) == 1
    ensures Tables(v, n + 1) == Tables(v, n) + if n > 0 && (v + n - 1) / ENTRIES == (v + n) / ENTRIES then 0 else 1
  {
  }

  lemma {:induction false} TablesUp(v: nat, m: nat, n: nat)
    requires m <= n
    ensures Tables(v, m) <= Tables(v, n)
  {
  }

  // Space s has grown: frames of others are as they were, what is new is its own.
  ghost predicate Grown(mem: seq<Page>, mem': seq<Page>, owner: map<nat, Owner>, owner': map<nat, Owner>, s: nat) {
    && |mem'| == |mem|
    && (forall g :: g in owner ==>
       g in owner' && (owner'[g] == owner[g] || (owner[g] == Other && owner'[g].Data? && owner'[g].dir == s)))
    && (forall g :: g in owner' && g !in owner ==> Of(owner'[g], g, s) && owner'[g] != Dir)
    && (forall g :: g in owner && g < |mem| && !InTables(owner[g], g, s) ==> mem'[g] == mem[g])
  }

  ghost predicate InTables(o: Owner, g: nat, s: nat) {
    (o.Dir? && g == s) || (o.Table? && o.dir == s)
  }

  lemma {:induction false} HeadIs(mem: seq<Page>, head: Word, free: seq<nat>)
    requires FreeList(mem, head, free)
    ensures head == 0 <==> free == []
    ensures free != [] ==>
      head >= KERNBASE && (head - KERNBASE) / PGSIZE == free[0] && free[0] < |mem| &&
      At(mem, free[0], 0) == mem[free[0]].words[0]
  {
  }

  lemma {:induction false} NoFree(mem: seq<Page>)
    ensures FreeList(mem, 0, [])
  {
  }

  ghost function Frames(lo: nat, hi: nat): (r: set<nat>)
    ensures forall f: nat :: f in r <==> lo <= f < hi
  {
    if hi <= lo then {} else Frames(lo, hi - 1) + {hi - 1}
  }

  class Kernel {
    const mem: array<Page>             // physical memory by frame
    const endFrame: nat                // the first frame past the kernel image
    var freelist: Word                 // kmem.freelist
    ghost var free: seq<nat>
    ghost var owner: map<nat, Owner>   // who holds each frame that is not free

    // Every frame of the pool is on the free list once, or held by one owner.
    ghost predicate Heap()
      reads this, mem
    {
      && mem.Length == NFRAMES && 0 < endFrame <= NFRAMES && FreeList(mem[..], freelist, free)
      && (forall f :: f in free ==> endFrame <= f < NFRAMES && f !in owner)
      && (forall f :: f in owner ==> endFrame <= f < NFRAMES)
      && (forall f :: endFrame <= f < NFRAMES ==> f in free || f in owner)
    }

    ghost predicate Valid()
      reads this, mem
    {
      Heap() && Owned(mem[..], owner)
    }

    // kalloc: a frame off the free list, 0 when there is none.
    method Kalloc() returns (f: nat)
      requires Heap()
      modifies this`freelist, this`free, this`owner
      ensures Heap() && (f == 0 <==> old(free) == [])
      ensures f == 0 ==> free == old(free) && owner == old(owner)
      ensures f != 0 ==>
        f == old(free)[0] && free == old(free)[1..] && f !in old(owner) && owner == old(owner)[f := Other]
    {
      hide FreeList;
      HeadIs(mem[..], freelist, free);
      if freelist == 0 {
        return 0;
      }
      PopFree(mem[..], freelist, free);
      f := (freelist - KERNBASE) / PGSIZE;
      freelist := mem[f].words[0];
      owner := owner[f := Other];
      free := free[1..];
    }

    // kfree: a frame filled with junk and put on the free list.
    method Kfree(f: nat)
      requires Heap() && f in owner
      modifies this`freelist, this`free, this`owner, mem
      ensures Heap() && free == [f] + old(free) && owner == old(owner) - {f}
      ensures forall g :: 0 <= g < mem.Length && g != f ==> mem[g] == old(mem[g])
    {
      hide FreeList, Fill;
      ghost var was := mem[..];
      mem[f] := Page(Fill(0x0101_0101)[0 := freelist]);
      PushFree(was, mem[..], freelist, free, f);
      freelist := KERNBASE + PGSIZE * f;
      free := [f] + free;
      owner := owner - {f};
    }

    // kinit1 and kinit2: every frame of the pool is freed in turn.
    constructor (endFrame: nat)
      requires 0 < endFrame <= NFRAMES
      ensures Valid() && fresh(mem) && owner == map[] && this.endFrame == endFrame
    {
      mem := new Page[NFRAMES](_ => ZeroPage());
      this.endFrame, freelist, free := endFrame, 0, [];
      owner := map f | f in Frames(endFrame, NFRAMES) :: Other;
      new;
      NoFree(mem[..]);
      hide FreeList;
      FreeRange();
    }

    method FreeRange()
      requires Heap() && free == []
      modifies this`freelist, this`free, this`owner, mem
      ensures Valid() && owner == map[]
    {
      hide FreeList;
      var f := endFrame;
      while f < NFRAMES
        invariant endFrame <= f <= NFRAMES && Heap()
        invariant forall g :: g in owner <==> f <= g < NFRAMES
        modifies this`freelist, this`free, this`owner, mem
      {
        Kfree(f);
        f := f + 1;
      }
    }

    // walkpgdir: the table that has the entry for va, made if alloc; 0 when there is none.
    method Walk(s: nat, va: nat, alloc: bool) returns (t: nat)
      requires Valid() && IsDir(owner, s) && va < 0x1_0000_0000
      modifies this`freelist, this`free, this`owner, mem
      ensures Valid() && SameMaps(old(mem[..]), mem[..], old(owner)) &&
        Grown(old(mem[..]), mem[..], old(owner), owner, s)
      ensures forall g :: g in old(owner) ==> g in owner && owner[g] == old(owner)[g]
      ensures t != 0 ==>
        Present(At(mem[..], s, va / PGSIZE / ENTRIES)) && FrameOf(At(mem[..], s, va / PGSIZE / ENTRIES)) == t &&
        t < NFRAMES
      ensures t == 0 ==> mem[..] == old(mem[..]) && owner == old(owner) && free == old(free)
      ensures t == 0 ==> !Present(At(mem[..], s, va / PGSIZE / ENTRIES)) && (alloc ==> free == [])
      ensures !alloc ==> mem[..] == old(mem[..]) && owner == old(owner) && free == old(free)
      ensures |free| >= |old(free)| - 1 && (Present(At(old(mem[..]), s, va / PGSIZE / ENTRIES)) ==> free == old(free))
    {
      hide FreeList, Owned, Present, FrameOf, Fill, Grown, SameMaps;
      ghost var was, wasOwner := mem[..], owner;
      SameGrown(was, owner, s);
      var d := va / PGSIZE / ENTRIES;
      if Present(mem[s].words[d]) {
        t := FrameOf(mem[s].words[d]);
        TableOf(mem[..], owner, s, d);
        return;
      }
      if !alloc {
        return 0;
      }
      t := Kalloc();
      if t == 0 {
        return;
      }
      mem[t] := ZeroPage();
      mem[s] := Page(mem[s].words[d := MakePte(t, PTE_P + PTE_W + PTE_U)]);
      Walked(was, mem[..], wasOwner, s, d, t);
      SameFree(was, mem[..], freelist, free);
      owner := owner[t := Table(s, d)];
      assert owner == wasOwner[t := Table(s, d)];
    }

    // One turn of mappages's loop: an entry for the page at va. The panic "remap" is ruled out by its caller.
    method MapOne(s: nat, va: nat, f: nat, perm: nat) returns (ok: bool)
      requires Valid() && IsDir(owner, s) && va < 0x1_0000_0000 && f < 0x10_0000 && perm < PGSIZE
      requires !Present(Pte(mem[..], s, va / PGSIZE)) && (va / PGSIZE < USERPAGES ==> f in owner && owner[f] == Other)
      modifies this`freelist, this`free, this`owner, mem
      ensures Valid() && Grown(old(mem[..]), mem[..], old(owner), owner, s) && |free| >= |old(free)| - 1
      ensures ok ==> Mapped(old(mem[..]), mem[..], old(owner), s, va / PGSIZE, 1, f, perm)
      ensures ok ==> Present(At(mem[..], s, va / PGSIZE / ENTRIES))
      ensures Present(At(old(mem[..]), s, va / PGSIZE / ENTRIES)) ==> ok && free == old(free)
      ensures ok && va / PGSIZE < USERPAGES ==> f in owner && owner[f] == Data(s, va / PGSIZE)
      ensures forall g :: g in old(owner) && (g != f || va / PGSIZE >= USERPAGES) ==>
        g in owner && owner[g] == old(owner)[g]
      ensures !ok ==> mem[..] == old(mem[..]) && owner == old(owner) && free == [] == old(free)
    {
      hide FreeList, Owned, Present, FrameOf, Pte, Mapped, Grown, SameMaps;
      ghost var v := va / PGSIZE;
      ghost var was, wasOwner := mem[..], owner;
      var t := Walk(s, va, true);
      if t == 0 {
        return false;
      }
      ghost var mid, midOwner := mem[..], owner;
      var x := va / PGSIZE % ENTRIES;
      mem[t] := Page(mem[t].words[x := MakePte(f, perm)]);
      Stored(mid, s, v, MakePte(f, perm), t, mem[..]);
      if v < USERPAGES {
        owner := owner[f := Data(s, v)];
      }
      SetMapped(was, mid, mem[..], wasOwner, midOwner, owner, s, v, f, perm, t);
      SameFree(mid, mem[..], freelist, free);
      return true;
    }

    // mappages: entries for the pages from va to va + size - 1, one after the other. -1 when there is no
    // frame for a table; the pages before that one stay mapped.
    method MapPages(s: nat, va: nat, size: nat, pa: nat, perm: nat) returns (r: int)
      requires Valid() && IsDir(owner, s) && size > 0 && va + size <= 0x1_0000_0000 && perm < PGSIZE && pa % PGSIZE == 0
      requires pa / PGSIZE + Span(va, size) <= 0x10_0000
      requires forall u :: va / PGSIZE <= u < va / PGSIZE + Span(va, size) ==> !Present(Pte(mem[..], s, u))
      requires va / PGSIZE < USERPAGES ==> Span(va, size) == 1 && pa / PGSIZE in owner && owner[pa / PGSIZE] == Other
      modifies this`freelist, this`free, this`owner, mem
      ensures Valid() && Grown(old(mem[..]), mem[..], old(owner), owner, s) &&
        |free| >= |old(free)| - Tables(va / PGSIZE, Span(va, size)) && (r == 0 || r == -1)
      ensures r == 0 ==> Mapped(old(mem[..]), mem[..], old(owner), s, va / PGSIZE, Span(va, size), pa / PGSIZE, perm)
      ensures r == 0 && va / PGSIZE < USERPAGES ==> pa / PGSIZE in owner && owner[pa / PGSIZE] == Data(s, va / PGSIZE)
      ensures forall g :: g in old(owner) && (g != pa / PGSIZE || va / PGSIZE >= USERPAGES) ==>
        g in owner && owner[g] == old(owner)[g]
      ensures r == -1 ==>
        |old(free)| < Tables(va / PGSIZE, Span(va, size)) && exists n ::
        0 <= n < Span(va, size) && Mapped(old(mem[..]), mem[..], old(owner), s, va / PGSIZE, n, pa / PGSIZE, perm)
      ensures r == -1 && Span(va, size) == 1 ==> mem[..] == old(mem[..]) && owner == old(owner) && free == old(free)
    {
      hide FreeList, Owned, Present, FrameOf, Pte, Mapped, Grown, Tables;
      ghost var was, wasOwner := mem[..], owner;
      ghost var v, f, n := va / PGSIZE, pa / PGSIZE, 0;
      SameGrown(was, owner, s);
      NoneMapped(was, owner, s, v, f, perm);
      var a, last := va / PGSIZE * PGSIZE, (va + size - 1) / PGSIZE * PGSIZE;
      var p := pa;
      while true
        invariant Valid() && Grown(was, mem[..], wasOwner, owner, s)
        invariant |free| >= |old(free)| - Tables(v, n)
        invariant n > 0 ==> Present(At(mem[..], s, (v + n - 1) / ENTRIES))
        invariant n < Span(va, size) && a == PGSIZE * (v + n) && p == PGSIZE * (f + n)
        invariant Mapped(was, mem[..], wasOwner, s, v, n, f, perm)
        invariant n == 0 ==> mem[..] == was && owner == wasOwner && free == old(free)
        invariant forall g :: g in wasOwner && (g != pa / PGSIZE || va / PGSIZE >= USERPAGES) ==>
          g in owner && owner[g] == wasOwner[g]
        decreases Span(va, size) - n
        modifies this`freelist, this`free, this`owner, mem
      {
        ghost var mid, midOwner := mem[..], owner;
        TablesMore(v, n);
        assert a / PGSIZE == v + n;
        TablesUp(v, n + 1, Span(va, size));
        GrownDir(was, mid, wasOwner, owner, s);
        NotYet(was, mid, wasOwner, s, v, n, f, perm);
        var ok := MapOne(s, a, p / PGSIZE, perm);
        if !ok {
          return -1;
        }
        GrownOn(was, mid, mem[..], wasOwner, midOwner, owner, s);
        MappedOn(was, mid, mem[..], wasOwner, midOwner, s, v, n, f, perm);
        if a == last {
          return 0;
        }
        n := n + 1;
        a := a + PGSIZE;
        p := p + PGSIZE;
      }
    }

    // deallocuvm: the user pages from newsz up to oldsz give their frames back. Where a directory entry is
    // absent the loop goes on at the next one. The panic "kfree" is never met.
    method DeallocUvm(s: nat, oldsz: nat, newsz: nat) returns (r: nat)
      requires Valid() && IsDir(owner, s) && oldsz <= KERNBASE
      modifies this`freelist, this`free, this`owner, mem
      ensures Valid() && IsDir(owner, s) && r == if newsz >= oldsz then oldsz else newsz
      ensures newsz >= oldsz ==> mem[..] == old(mem[..]) && owner == old(owner) && free == old(free)
      ensures newsz < oldsz ==> Cleared(old(mem[..]), mem[..], old(owner), owner, s, PagesOf(newsz), PagesOf(oldsz))
    {
      hide FreeList, Owned, Present, FrameOf, Pte, Cleared;
      if newsz >= oldsz {
        return oldsz;
      }
      ghost var was, wasOwner := mem[..], owner;
      ghost var lo, hi := PagesOf(newsz), PagesOf(oldsz);
      ghost var v := lo;
      ClearedNone(was, owner, s, lo);
      var a := RoundUp(newsz);
      while a < oldsz
        invariant Valid() && IsDir(owner, s) && a == PGSIZE * v && lo <= v
        invariant Cleared(was, mem[..], wasOwner, owner, s, lo, if v < hi then v else hi)
        decreases USERPAGES + ENTRIES - v
        modifies this`freelist, this`free, this`owner, mem
      {
        ghost var mid, midOwner, from := mem[..], owner, v;
        InPages(v, oldsz);
        var t := Walk(s, a, false);
        if t == 0 {
          v := ENTRIES * (v / ENTRIES + 1);
          NoTable(mid, s, from);
          Gap(mid, midOwner, s, from, if v < hi then v else hi);
          a := (a / PGSIZE / ENTRIES + 1) * ENTRIES * PGSIZE - PGSIZE;
        } else {
          ClearEntry(s, a, t);
          v := v + 1;
        }
        ClearedOn(was, mid, mem[..], wasOwner, midOwner, owner, s, lo, from, if v < hi then v else hi);
        a := a + PGSIZE;
      }
      InPages(v, oldsz);
      r := newsz;
    }

    // The entry at va is cleared, its frame freed.
    method ClearEntry(s: nat, va: nat, t: nat)
      requires Valid() && IsDir(owner, s) && va / PGSIZE < USERPAGES && t < NFRAMES
      requires Present(At(mem[..], s, va / PGSIZE / ENTRIES)) && FrameOf(At(mem[..], s, va / PGSIZE / ENTRIES)) == t
      modifies this`freelist, this`free, this`owner, mem
      ensures Valid() && IsDir(owner, s) && Cleared(old(mem[..]), mem[..], old(owner), owner, s, va / PGSIZE,
        va / PGSIZE + 1)
    {
      hide FreeList, Owned, Present, FrameOf, Pte, Cleared;
      ghost var was, wasOwner, v := mem[..], owner, va / PGSIZE;
      var x := va / PGSIZE % ENTRIES;
      PteAt(was, s, v, t);
      PteIs(was, owner, s, v);
      TableHeld(was, owner, s, v, t);
      if Present(mem[t].words[x]) {
        var f := FrameOf(mem[t].words[x]);
        Kfree(f);
        ghost var mid := mem[..];
        mem[t] := Page(mem[t].words[x := 0]);
        ClearedOne(was, mem[..], wasOwner, s, v, t, f);
        SameFree(mid, mem[..], freelist, free);
      } else {
        Gap(was, wasOwner, s, v, v + 1);
      }
    }

    // allocuvm: zeroed frames behind the user pages from oldsz up to newsz, or 0 and all of them taken back.
    method AllocUvm(s: nat, oldsz: nat, newsz: nat) returns (r: nat)
      requires Valid() && IsDir(owner, s)
      requires newsz < KERNBASE ==> forall u :: PagesOf(oldsz) <= u < PagesOf(newsz) ==> !Present(Pte(mem[..], s, u))
      modifies this`freelist, this`free, this`owner, mem
      ensures Valid() && IsDir(owner, s)
      ensures newsz >= KERNBASE || newsz < oldsz ==>
        mem[..] == old(mem[..]) && owner == old(owner) && free == old(free) && r == if newsz >= KERNBASE then 0
          else oldsz
      ensures oldsz <= newsz < KERNBASE && r == newsz ==>
        Allocated(old(mem[..]), mem[..], old(owner), owner, s, PagesOf(oldsz), PagesOf(newsz))
      ensures oldsz <= newsz < KERNBASE && r != newsz ==>
        r == 0 && RolledBack(old(mem[..]), mem[..], old(owner), owner, s)
      ensures oldsz <= newsz < KERNBASE && |old(free)| >= 2 * (PagesOf(newsz) - PagesOf(oldsz)) ==> r == newsz
    {
      hide FreeList, Owned, Present, FrameOf, Pte, Cleared, Allocated, RolledBack, Fill, Mapped, Grown;
      if newsz >= KERNBASE {
        return 0;
      }
      if newsz < oldsz {
        return oldsz;
      }
      ghost var was, wasOwner := mem[..], owner;
      ghost var lo, hi := PagesOf(oldsz), PagesOf(newsz);
      ghost var v := lo;
      NoneAllocated(was, owner, s, lo);
      var a := RoundUp(oldsz);
      while a < newsz
        invariant Valid() && IsDir(owner, s) && a == PGSIZE * v && lo <= v && (v <= hi || v == lo)
        invariant Allocated(was, mem[..], wasOwner, owner, s, lo, v) && |free| >= |old(free)| - 2 * (v - lo)
        modifies this`freelist, this`free, this`owner, mem
      {
        InPages(v, newsz);
        ghost var m1, o1 := mem[..], owner;
        var f := Kalloc();
        if f == 0 {
          r := DeallocUvm(s, newsz, oldsz);
          RollBack(was, m1, mem[..], wasOwner, o1, owner, s, lo, v, hi);
          return 0;
        }
        mem[f] := ZeroPage();
        Zeroed(m1, mem[..], o1, s, v, f);
        SameFree(m1, mem[..], freelist, free);
        NextPage(was, m1, wasOwner, o1, s, lo, v);
        ghost var m2 := mem[..];
        var ok := MapPages(s, a, PGSIZE, PGSIZE * f, PTE_W + PTE_U);
        if ok < 0 {
          GiveBack(s, oldsz, newsz, f, m1, o1);
          RollBack(was, m1, mem[..], wasOwner, o1, owner, s, lo, v, hi);
          return 0;
        }
        AllocStep(was, m1, m2, mem[..], wasOwner, o1, owner, s, lo, v, f);
        v := v + 1;
        a := a + PGSIZE;
      }
      InPages(v, newsz);
      PagesUp(oldsz, newsz);
      r := newsz;
    }

    // allocuvm's way out when there is no frame for a table: frame f, not yet mapped, goes back too.
    method GiveBack(s: nat, oldsz: nat, newsz: nat, f: nat, ghost m1: seq<Page>, ghost o1: map<nat, Owner>)
      requires Valid() && IsDir(owner, s) && Owned(m1, o1) && f !in o1 && oldsz < newsz <= KERNBASE
      requires f < |m1| && mem[..] == m1[f := ZeroPage()] && owner == o1[f := Other]
      modifies this`freelist, this`free, this`owner, mem
      ensures Valid() && IsDir(owner, s) && Cleared(m1, mem[..], o1, owner, s, PagesOf(oldsz), PagesOf(newsz))
    {
      hide FreeList, Owned, Cleared, Fill;
      ghost var m2, o2 := mem[..], owner;
      var r := DeallocUvm(s, newsz, oldsz);
      ghost var m3, o3 := mem[..], owner;
      StillOther(m2, m3, o2, o3, s, PagesOf(oldsz), PagesOf(newsz), f);
      Kfree(f);
      ClearedLess(m1, m2, m3, mem[..], o1, o3, s, PagesOf(oldsz), PagesOf(newsz), f);
    }

    // freevm: every frame of the space goes to the free list, once.
    method FreeVm(s: nat)
      requires Valid() && IsDir(owner, s)
      modifies this`freelist, this`free, this`owner, mem
      ensures Valid() && owner == Without(old(owner), s)
      ensures forall g :: g in owner && g < mem.Length ==> mem[g] == old(mem[g])
      ensures forall r, u: nat :: IsDir(owner, r) && u / ENTRIES < ENTRIES ==>
        Pte(mem[..], r, u) == Pte(old(mem[..]), r, u)
    {
      hide FreeList, Owned, Present, FrameOf, Pte, Cleared;
      ghost var was, wasOwner := mem[..], owner;
      var r := DeallocUvm(s, KERNBASE, 0);
      ghost var m1, o1 := mem[..], owner;
      FreeTables(s);
      Kfree(s);
      AllFreed(was, m1, mem[..], wasOwner, o1, owner, s);
    }

    // The loop of freevm over the directory.
    method FreeTables(s: nat)
      requires Valid() && IsDir(owner, s)
      modifies this`freelist, this`free, this`owner, mem
      ensures Heap() && TablesFreed(old(mem[..]), mem[..], old(owner), owner, s, ENTRIES)
    {
      hide FreeList, Owned, Present, FrameOf;
      ghost var m1, o1 := mem[..], owner;
      var i := 0;
      while i < ENTRIES
        invariant i <= ENTRIES && Heap() && TablesFreed(m1, mem[..], o1, owner, s, i)
        modifies this`freelist, this`free, this`owner, mem
      {
        var e := mem[s].words[i];
        if Present(e) {
          TableOf(m1, o1, s, i);
          Kfree(FrameOf(e));
        }
        OneTable(m1, o1, s, i);
        i := i + 1;
      }
    }

    // setupkvm: a directory with the kernel's mappings, or 0 with every frame given back.
    method SetupKvm(data: nat) returns (d: nat)
      requires Valid() && DataAt(data)
      modifies this`freelist, this`free, this`owner, mem
      ensures Valid()
      ensures d == 0 ==> owner == old(owner) && Unharmed(old(mem[..]), mem[..], owner)
      ensures d != 0 ==> Made(old(mem[..]), mem[..], old(owner), owner, d) && KernelOnly(mem[..], d, data, 4)
      ensures |old(free)| > 66 ==> d != 0 && |free| >= |old(free)| - 67
    {
      hide FreeList, Owned, Present, FrameOf, Pte, Made, Fill, KernelOnly, Unharmed, Mapped, Grown, Kmap, Tables,
        KernelTables;
      ghost var was, wasOwner := mem[..], owner;
      TablesFit(data, 0);
      AsItWas(was, owner);
      d := Kalloc();
      if d == 0 {
        return 0;
      }
      mem[d] := ZeroPage();
      NewDir(was, mem[..], wasOwner, d, data);
      SameFree(was, mem[..], freelist, free);
      owner := owner[d := Dir];
      assert owner == wasOwner[d := Dir];
      var k := 0;
      while k < 4
        invariant k <= 4 && d != 0 && Valid() && Made(was, mem[..], wasOwner, owner, d) &&
          KernelOnly(mem[..], d, data, k)
        invariant |free| >= |old(free)| - 1 - KernelTables(data, k)
        modifies this`freelist, this`free, this`owner, mem
      {
        ghost var m1, o1 := mem[..], owner;
        var e := Kmap(data, k);
        KmapOk(data, k);
        TablesFit(data, k);
        MadeDir(was, m1, wasOwner, o1, d);
        NotMappedYet(m1, d, data, k);
        var r := MapPages(d, e.virt, Size(e), e.start, e.perm);
        MadeGrown(was, m1, mem[..], wasOwner, o1, owner, d, e.virt / PGSIZE, Span(e.virt, Size(e)), e.start / PGSIZE,
          e.perm);
        if r < 0 {
          ghost var m2, o2 := mem[..], owner;
          FreeVm(d);
          MadeGone(was, m2, mem[..], wasOwner, o2, d);
          return 0;
        }
        OneRegion(m1, mem[..], o1, d, data, k);
        k := k + 1;
      }
      TablesFit(data, 3);
    }

    // copyuvm: a second space with a copy of the first sz bytes of s, or 0 with every frame given back. Its
    // panics, on a page of s that is not mapped, are ruled out by its caller.
    method CopyUvm(s: nat, sz: nat, data: nat) returns (d: nat)
      requires Valid() && IsDir(owner, s) && sz <= KERNBASE && DataAt(data)
      requires forall u :: 0 <= u < PagesOf(sz) ==> Present(Pte(mem[..], s, u))
      modifies this`freelist, this`free, this`owner, mem
      ensures Valid()
      ensures d == 0 ==> owner == old(owner) && Unharmed(old(mem[..]), mem[..], owner)
      ensures d != 0 ==> Made(old(mem[..]), mem[..], old(owner), owner, d) && Copied(mem[..], s, d, PagesOf(sz), data)
      ensures |old(free)| >= 67 + 2 * PagesOf(sz) ==> d != 0
    {
      hide FreeList, Owned, Present, FrameOf, Pte, Made, KernelOnly, Unharmed, Mapped, Grown, Copied, DataAt;
      ghost var was, wasOwner := mem[..], owner;
      d := SetupKvm(data);
      if d == 0 {
        return 0;
      }
      MadeDir(was, mem[..], wasOwner, owner, d);
      NoneCopied(mem[..], s, d, data);
      ghost var v := 0;
      var i := 0;
      while i < sz
        invariant i == PGSIZE * v && v <= PagesOf(sz) && d != 0
        invariant Valid() && Made(was, mem[..], wasOwner, owner, d) && Copied(mem[..], s, d, v, data)
        invariant |old(free)| > 66 ==> |free| >= |old(free)| - 67 - 2 * v
        modifies this`freelist, this`free, this`owner, mem
      {
        InPages(v, sz);
        var ok := CopyPage(s, d, i, was, wasOwner, data);
        if !ok {
          ghost var m2, o2 := mem[..], owner;
          MadeDir(was, m2, wasOwner, o2, d);
          FreeVm(d);
          MadeGone(was, m2, mem[..], wasOwner, o2, d);
          return 0;
        }
        v := v + 1;
        i := i + PGSIZE;
      }
      InPages(v, sz);
    }

    // One turn of copyuvm's loop.
    method CopyPage(s: nat, d: nat, va: nat, ghost was: seq<Page>, ghost wasOwner: map<nat, Owner>, ghost data: nat)
      returns (ok: bool)
      requires Valid() && Owned(was, wasOwner) && IsDir(wasOwner, s) && Made(was, mem[..], wasOwner, owner, d) &&
        DataAt(data)
      requires va % PGSIZE == 0 && va / PGSIZE < USERPAGES && Copied(mem[..], s, d, va / PGSIZE, data) &&
        Present(Pte(was, s, va / PGSIZE))
      modifies this`freelist, this`free, this`owner, mem
      ensures Valid() && Made(was, mem[..], wasOwner, owner, d)
      ensures ok ==> Copied(mem[..], s, d, va / PGSIZE + 1, data) && |free| >= |old(free)| - 2
      ensures |old(free)| >= 2 ==> ok
    {
      hide FreeList, Owned, Present, FrameOf, Pte, Made, KernelOnly, Unharmed, Mapped, Grown, Copied, DataAt, FlagsOf;
      ghost var v := va / PGSIZE;
      ghost var m1, o1 := mem[..], owner;
      MadeDir(was, m1, wasOwner, o1, d);
      Source(was, m1, wasOwner, o1, s, d, v);
      var t := Walk(s, va, false);
      PteAt(m1, s, v, t);
      var pte := mem[t].words[va / PGSIZE % ENTRIES];
      var f := Kalloc();
      if f == 0 {
        return false;
      }
      mem[f] := mem[FrameOf(pte)];
      Filled(m1, mem[..], o1, s, d, v, f, data);
      SameFree(m1, mem[..], freelist, free);
      ok := MapCopy(s, d, va, pte, f, m1, o1);
      if ok {
        StepMade(was, m1, m1[f := m1[FrameOf(pte)]], mem[..], wasOwner, o1, owner, s, d, v, f);
        StepCopied(m1, m1[f := m1[FrameOf(pte)]], mem[..], o1, owner, s, d, v, f, data);
      } else {
        Unfilled(was, m1, mem[..], wasOwner, o1, d, f);
      }
    }

    // Frame f, which holds the copy, is mapped, or freed when there is no frame for a table.
    method MapCopy(s: nat, d: nat, va: nat, pte: Word, f: nat, ghost m1: seq<Page>, ghost o1: map<nat, Owner>)
      returns (ok: bool)
      requires Valid() && Owned(m1, o1) && IsDir(o1, s) && IsDir(o1, d) && s != d && va / PGSIZE < USERPAGES &&
        va % PGSIZE == 0 && f !in o1
      requires pte == Pte(m1, s, va / PGSIZE) && FrameOf(pte) < |m1| && f < |m1| && f < NFRAMES
      requires mem[..] == m1[f := m1[FrameOf(pte)]] && owner == o1[f := Other] && !Present(Pte(mem[..], d, va / PGSIZE))
      modifies this`freelist, this`free, this`owner, mem
      ensures Heap() && (ok ==>
        Valid() && CopyStep(m1, m1[f := m1[FrameOf(pte)]], mem[..], o1, owner, s, d, va / PGSIZE, f))
      ensures (ok ==> |free| >= |old(free)| - 1) && (|old(free)| >= 1 ==> ok)
      ensures !ok ==> owner == o1 && mem.Length == |m1| && forall g :: 0 <= g < |m1| && g != f ==> mem[g] == m1[g]
    {
      hide FreeList, Owned, Present, FrameOf, Pte, Mapped, Grown, FlagsOf;
      var r := MapPages(d, va, PGSIZE, PGSIZE * f, FlagsOf(pte));
      if r < 0 {
        Kfree(f);
        assert o1[f := Other] - {f} == o1;
        return false;
      }
      ok := true;
    }
  }

  // Space d has the first n pages of s: the same bytes, the same flags, other frames; and the kernel's pages.
  ghost predicate Copied(mem: seq<Page>, s: nat, d: nat, n: nat, data: nat)
    requires DataAt(data)
  {
    && s != d
    && (forall u: nat :: u < n ==> CopyOf(mem, Pte(mem, s, u), Pte(mem, d, u)))
    && (forall u: nat :: n <= u && u / ENTRIES < ENTRIES ==> KernelPage(data, 4, u, Pte(mem, d, u)))
  }

  ghost predicate CopyOf(mem: seq<Page>, w: Word, w': Word) {
    && Present(w) && Present(w') && FlagsOf(w') == FlagsOf(w) && FrameOf(w') != FrameOf(w)
    && FrameOf(w) < |mem| && FrameOf(w') < |mem| && mem[FrameOf(w')] == mem[FrameOf(w)]
  }

  lemma {:induction false} NoneCopied(mem: seq<Page>, s: nat, d: nat, data: nat)
    requires DataAt(data) && KernelOnly(mem, d, data, 4) && s != d
    ensures Copied(mem, s, d, 0, data)
  {
  }

  // The page to copy is as it was before the copying began.
  lemma {:induction false} Source(was: seq<Page>, m1: seq<Page>, o: map<nat, Owner>, o1: map<nat, Owner>, s: nat,
      d: nat, v: nat)
    requires Owned(was, o) && IsDir(o, s) && Made(was, m1, o, o1, d) && Owned(m1, o1) && v < USERPAGES &&
      Present(Pte(was, s, v))
    ensures IsDir(o1, s) && s != d && Pte(m1, s, v) == Pte(was, s, v) && Present(At(m1, s, v / ENTRIES)) &&
      v / ENTRIES < ENTRIES
    ensures FrameOf(Pte(m1, s, v)) in o1 && o1[FrameOf(Pte(m1, s, v))] == Data(s, v) && FrameOf(Pte(m1, s, v)) < |m1|
  {
    hide FrameOk, FrameOf, At;
    Indices(v);
    ZeroAbsent();
    PteIs(m1, o1, s, v);
  }

  // A frame from kalloc, filled.
  lemma {:induction false} Filled(m1: seq<Page>, m2: seq<Page>, o1: map<nat, Owner>, s: nat, d: nat, v: nat, f: nat,
      data: nat)
    requires Owned(m1, o1) && IsDir(o1, d) && f !in o1 && f < |m1| == |m2| && v < USERPAGES && DataAt(data) &&
      Copied(m1, s, d, v, data)
    requires forall g :: 0 <= g < |m1| && g != f ==> m2[g] == m1[g]
    ensures Owned(m2, o1[f := Other]) && IsDir(o1[f := Other], d) && !Present(Pte(m2, d, v))
  {
    hide FrameOk, Pte, Present, FrameOf;
    assert SameTables(m1, m2, o1);
    TablesKeep(m1, m2, o1);
    OtherFrames(m2, o1, o1[f := Other]);
    Indices(v);
    SamePte(m1, m2, o1, d, v);
    assert KernelPage(data, 4, v, Pte(m1, d, v));
    forall k | 0 <= k < 4 ensures !InRegion(Kmap(data, k), v) {
      KmapOk(data, k);
    }
    ZeroAbsent();
  }

  lemma {:induction false} Unfilled(was: seq<Page>, m1: seq<Page>, m4: seq<Page>, o: map<nat, Owner>,
      o1: map<nat, Owner>, d: nat, f: nat)
    requires Owned(m1, o1) && Made(was, m1, o, o1, d) && f !in o1 && |m4| == |m1|
    requires forall g :: 0 <= g < |m1| && g != f ==> m4[g] == m1[g]
    ensures o1[f := Other] - {f} == o1 && Owned(m4, o1) && Made(was, m4, o, o1, d)
  {
    hide FrameOk, Pte;
    assert SameTables(m1, m4, o1);
    TablesKeep(m1, m4, o1);
    forall r, u: nat | IsDir(o, r) && u / ENTRIES < ENTRIES ensures Pte(m4, r, u) == Pte(was, r, u) {
      assert IsDir(o1, r);
      SamePte(m1, m4, o1, r, u);
    }
  }

  // What the states around a copied page have to do with each other: m1, then m2 with the bytes in frame f,
  // then m3 with f mapped.
  ghost predicate CopyStep(m1: seq<Page>, m2: seq<Page>, m3: seq<Page>, o1: map<nat, Owner>, o3: map<nat, Owner>,
      s: nat, d: nat, v: nat, f: nat)
  {
    && Owned(m1, o1) && IsDir(o1, s) && IsDir(o1, d) && s != d && v < USERPAGES && f !in o1 && f < |m1| == |m2| &&
       f < NFRAMES
    && (forall g :: 0 <= g < |m1| && g != f ==> m2[g] == m1[g])
    && Grown(m2, m3, o1[f := Other], o3, d) && f in o3 && o3[f] == Data(d, v) &&
       (forall g :: g in o1 ==> g in o3 && o3[g] == o1[g])
    && Mapped(m2, m3, o1[f := Other], d, v, 1, f, FlagsOf(Pte(m1, s, v)))
  }

  lemma {:induction false} StepPte(m1: seq<Page>, m2: seq<Page>, m3: seq<Page>, o1: map<nat, Owner>,
      o3: map<nat, Owner>, s: nat, d: nat, v: nat, f: nat, r: nat, u: nat)
    requires CopyStep(m1, m2, m3, o1, o3, s, d, v, f) && IsDir(o1, r) && u / ENTRIES < ENTRIES
    ensures Pte(m3, r, u) == if r == d && u == v then MakePte(f, FlagsOf(Pte(m1, s, v))) else Pte(m1, r, u)
  {
    hide FrameOk, Pte, FlagsOf;
    assert SameTables(m1, m2, o1);
    SamePte(m1, m2, o1, r, u);
    assert IsDir(o1[f := Other], r);
  }

  lemma {:induction false} StepFrame(m1: seq<Page>, m2: seq<Page>, m3: seq<Page>, o1: map<nat, Owner>,
      o3: map<nat, Owner>, s: nat, d: nat, v: nat, f: nat, g: nat)
    requires CopyStep(m1, m2, m3, o1, o3, s, d, v, f) && g in o1 && g < |m1| && !InTables(o1[g], g, d)
    ensures |m3| == |m1| && m3[g] == m1[g] && m3[f] == m2[f]
  {
    hide Owned, Pte, Mapped, FlagsOf;
  }

  lemma {:induction false} StepMade(was: seq<Page>, m1: seq<Page>, m2: seq<Page>, m3: seq<Page>, o: map<nat, Owner>,
      o1: map<nat, Owner>, o3: map<nat, Owner>, s: nat, d: nat, v: nat, f: nat)
    requires Owned(was, o) && Made(was, m1, o, o1, d) && CopyStep(m1, m2, m3, o1, o3, s, d, v, f)
    ensures Made(was, m3, o, o3, d)
  {
    hide FrameOk, Pte, Mapped, FlagsOf;
    forall g | g in o && g < |was| ensures m3[g] == was[g] {
      NotOf(was, o, g, d);
    }
    forall r, u: nat | IsDir(o, r) && u / ENTRIES < ENTRIES ensures Pte(m3, r, u) == Pte(was, r, u) {
      assert IsDir(o1, r);
      StepPte(m1, m2, m3, o1, o3, s, d, v, f, r, u);
    }
  }

  lemma {:induction false} OddFlags(w: Word)
    ensures Present(w) <==> FlagsOf(w) % 2 == 1
  {
  }

  lemma {:induction false} StepCopied(m1: seq<Page>, m2: seq<Page>, m3: seq<Page>, o1: map<nat, Owner>,
      o3: map<nat, Owner>, s: nat, d: nat, v: nat, f: nat, data: nat)
    requires CopyStep(m1, m2, m3, o1, o3, s, d, v, f) && DataAt(data) && Copied(m1, s, d, v, data)
    requires Present(Pte(m1, s, v)) && FrameOf(Pte(m1, s, v)) < |m1| && m2[f] == m1[FrameOf(Pte(m1, s, v))]
    ensures Copied(m3, s, d, v + 1, data)
  {
    hide FrameOk, Pte, Mapped, FlagsOf, KernelPage, CopyOf, CopyStep, Present, FrameOf;
    forall u: nat | u < v + 1 ensures CopyOf(m3, Pte(m3, s, u), Pte(m3, d, u)) {
      assert u < v ==> CopyOf(m1, Pte(m1, s, u), Pte(m1, d, u));
      StepPage(m1, m2, m3, o1, o3, s, d, v, f, u);
    }
    forall u: nat | v + 1 <= u && u / ENTRIES < ENTRIES ensures KernelPage(data, 4, u, Pte(m3, d, u)) {
      assert KernelPage(data, 4, u, Pte(m1, d, u));
      StepDir(m1, m2, m3, o1, o3, s, d, v, f);
      StepPte(m1, m2, m3, o1, o3, s, d, v, f, d, u);
    }
  }

  lemma {:induction false} StepDir(m1: seq<Page>, m2: seq<Page>, m3: seq<Page>, o1: map<nat, Owner>,
      o3: map<nat, Owner>, s: nat, d: nat, v: nat, f: nat)
    requires CopyStep(m1, m2, m3, o1, o3, s, d, v, f)
    ensures IsDir(o1, d) && IsDir(o1, s)
  {
  }

  lemma {:induction false} StepPage(m1: seq<Page>, m2: seq<Page>, m3: seq<Page>, o1: map<nat, Owner>,
      o3: map<nat, Owner>, s: nat, d: nat, v: nat, f: nat, u: nat)
    requires CopyStep(m1, m2, m3, o1, o3, s, d, v, f) && u <= v
    requires Present(Pte(m1, s, v)) && FrameOf(Pte(m1, s, v)) < |m1| && m2[f] == m1[FrameOf(Pte(m1, s, v))]
    requires u < v ==> CopyOf(m1, Pte(m1, s, u), Pte(m1, d, u))
    ensures CopyOf(m3, Pte(m3, s, u), Pte(m3, d, u))
  {
    hide FrameOk, Pte, Mapped, FlagsOf, Present, FrameOf, Grown;
    Indices(u);
    StepPte(m1, m2, m3, o1, o3, s, d, v, f, s, u);
    StepPte(m1, m2, m3, o1, o3, s, d, v, f, d, u);
    PteIs(m1, o1, s, u);
    StepFrame(m1, m2, m3, o1, o3, s, d, v, f, FrameOf(Pte(m1, s, u)));
    if u < v {
      PteIs(m1, o1, d, u);
      StepFrame(m1, m2, m3, o1, o3, s, d, v, f, FrameOf(Pte(m1, d, u)));
    } else {
      OddFlags(Pte(m1, s, v));
    }
  }

  // struct kmap: a region of kernel addresses and the memory it is mapped to.
  datatype Region = Region(virt: nat, start: nat, end: nat, perm: nat)

  // The linker puts data on a page boundary past the kernel's text.
  predicate DataAt(data: nat) {
    KERNBASE + EXTMEM < data < KERNBASE + PHYSTOP && data % PGSIZE == 0
  }

  // The table kmap.
  function Kmap(data: nat, k: nat): Region
    requires k < 4 && DataAt(data)
  {
    if k == 0 then Region(KERNBASE, 0, EXTMEM, PTE_W)
    else if k == 1 then Region(KERNBASE + EXTMEM, EXTMEM, data - KERNBASE, 0)
    else if k == 2 then Region(data, data - KERNBASE, PHYSTOP, PTE_W)
    else Region(DEVSPACE, DEVSPACE, 0, PTE_W)
  }

  // phys_end - phys_start, as uints.
  function Size(e: Region): (n: nat) {
    (e.end - e.start) % 0x1_0000_0000
  }

  // The tables that the first k regions take at most.
  ghost function KernelTables(data: nat, k: nat): (n: nat)
    requires k <= 4 && DataAt(data)
  {
    if k == 0 then 0 else KernelTables(data, k - 1) + Tables(Kmap(data, k - 1).virt / PGSIZE,
      Size(Kmap(data, k - 1)) / PGSIZE)
  }

  lemma {:induction false} TablesFit(data: nat, k: nat)
    requires k < 4 && DataAt(data)
    ensures KernelTables(data, k + 1) == KernelTables(data, k) +
      Tables(Kmap(data, k).virt / PGSIZE, Size(Kmap(data, k)) / PGSIZE)
    ensures KernelTables(data, 0) == 0 && KernelTables(data, k + 1) <= 66
  {
    RegionPages(data);
    MidTables(data / PGSIZE);
    hide Kmap, Size, Tables;
    assert KernelTables(data, 1) == KernelTables(data, 0) + Tables(USERPAGES, 256);
    assert KernelTables(data, 2) <= KernelTables(data, 3) <= 58;
  }

  lemma {:induction false} RegionPages(data: nat)
    requires DataAt(data)
    ensures Kmap(data, 0).virt / PGSIZE == USERPAGES && Size(Kmap(data, 0)) / PGSIZE == 256
    ensures Kmap(data, 1).virt / PGSIZE == USERPAGES + 256 &&
      Size(Kmap(data, 1)) / PGSIZE == data / PGSIZE - USERPAGES - 256
    ensures Kmap(data, 2).virt / PGSIZE == data / PGSIZE &&
      Size(Kmap(data, 2)) / PGSIZE == USERPAGES + NFRAMES - data / PGSIZE
    ensures Kmap(data, 3).virt / PGSIZE == 0xF_E000 && Size(Kmap(data, 3)) / PGSIZE == 0x2000
    ensures USERPAGES + 256 < data / PGSIZE < USERPAGES + NFRAMES
  {
  }

  lemma {:induction false} MidTables(q: nat)
    requires USERPAGES + 256 < q < USERPAGES + NFRAMES
    ensures Tables(USERPAGES, 256) == 1 && Tables(0xF_E000, 0x2000) == 8
    ensures Tables(USERPAGES + 256, q - USERPAGES - 256) + Tables(q, USERPAGES + NFRAMES - q) <= 57
  {
  }

  ghost predicate InRegion(e: Region, u: nat) {
    e.virt / PGSIZE <= u < e.virt / PGSIZE + Size(e) / PGSIZE
  }

  // A directory maps the pages of the first hi kernel regions as kmap says, and nothing else.
  ghost predicate KernelOnly(mem: seq<Page>, d: nat, data: nat, hi: nat)
    requires hi <= 4 && DataAt(data)
  {
    forall u: nat :: u / ENTRIES < ENTRIES ==> KernelPage(data, hi, u, Pte(mem, d, u))
  }

  ghost predicate KernelPage(data: nat, hi: nat, u: nat, w: Word)
    requires hi <= 4 && DataAt(data)
  {
    && (forall k :: 0 <= k < hi && InRegion(Kmap(data, k), u) ==>
          Present(w) && FrameOf(w) == Kmap(data, k).start / PGSIZE + (u - Kmap(data, k).virt / PGSIZE) &&
            FlagsOf(w) == Kmap(data, k).perm + PTE_P)
    && ((forall k :: 0 <= k < hi ==> !InRegion(Kmap(data, k), u)) ==> w == 0)
  }

  // Space d has been made out of frames nobody held; all else is as it was.
  ghost predicate Made(mem: seq<Page>, mem': seq<Page>, owner: map<nat, Owner>, owner': map<nat, Owner>, d: nat) {
    && d !in owner && IsDir(owner', d) && Unharmed(mem, mem', owner)
    && (forall g :: g in owner ==> g in owner' && owner'[g] == owner[g])
    && (forall g :: g in owner' && g !in owner ==> Of(owner'[g], g, d))
  }

  // The frames held and the pages mapped are as they were.
  ghost predicate Unharmed(mem: seq<Page>, mem': seq<Page>, owner: map<nat, Owner>) {
    && |mem'| == |mem| && SameMaps(mem, mem', owner)
    && (forall g :: g in owner && g < |mem| ==> mem'[g] == mem[g])
  }

  lemma {:induction false} AsItWas(mem: seq<Page>, owner: map<nat, Owner>)
    ensures Unharmed(mem, mem, owner)
  {
  }

  lemma {:induction false} NewDir(was: seq<Page>, now: seq<Page>, owner: map<nat, Owner>, d: nat, data: nat)
    requires Owned(was, owner) && d !in owner && d < |was| && |now| == |was| && now == was[d := ZeroPage()] &&
      DataAt(data)
    ensures Owned(now, owner[d := Dir]) && Made(was, now, owner, owner[d := Dir], d) && KernelOnly(now, d, data, 0)
  {
    hide FrameOk, Pte, Fill, Kmap;
    OtherFrames(was, owner, owner[d := Other]);
    AddDir(was, now, owner[d := Other], d);
    assert owner[d := Other][d := Dir] == owner[d := Dir];
    forall r | IsDir(owner, r) ensures IsDir(owner[d := Other], r) {
    }
  }

  lemma {:induction false} MadeDir(was: seq<Page>, now: seq<Page>, o: map<nat, Owner>, o1: map<nat, Owner>, d: nat)
    requires Made(was, now, o, o1, d)
    ensures IsDir(o1, d) && d !in o && forall g :: g in o ==> g in o1 && o1[g] == o[g]
  {
  }

  // Regions are whole pages of kernel space, apart from each other.
  lemma {:induction false} KmapOk(data: nat, k: nat)
    requires k < 4 && DataAt(data)
    ensures
      var e := Kmap(data, k);
      && Size(e) > 0 && e.virt % PGSIZE == 0 && e.start % PGSIZE == 0 && Size(e) % PGSIZE == 0 &&
         e.virt + Size(e) <= 0x1_0000_0000
      && e.virt / PGSIZE >= USERPAGES && e.start / PGSIZE + Size(e) / PGSIZE <= 0x10_0000 &&
         Span(e.virt, Size(e)) == Size(e) / PGSIZE
      && e.perm < PGSIZE && e.perm % 2 == 0
    ensures forall j, u :: 0 <= j < k && InRegion(Kmap(data, j), u) ==> !InRegion(Kmap(data, k), u)
  {
  }

  lemma {:induction false} NotMappedYet(mem: seq<Page>, d: nat, data: nat, k: nat)
    requires k < 4 && DataAt(data) && KernelOnly(mem, d, data, k)
    ensures
      var e := Kmap(data, k);
      Size(e) > 0 && forall u :: e.virt / PGSIZE <= u < e.virt / PGSIZE + Span(e.virt, Size(e)) ==>
        !Present(Pte(mem, d, u))
  {
    hide Pte, Size;
    KmapOk(data, k);
    hide Kmap;
    var e := Kmap(data, k);
    forall u | e.virt / PGSIZE <= u < e.virt / PGSIZE + Span(e.virt, Size(e)) ensures !Present(Pte(mem, d, u)) {
      assert InRegion(Kmap(data, k), u);
      assert KernelPage(data, k, u, Pte(mem, d, u));
      ZeroAbsent();
    }
  }

  // A region more.
  lemma {:induction false} OneRegion(m1: seq<Page>, m2: seq<Page>, o1: map<nat, Owner>, d: nat, data: nat, k: nat)
    requires k < 4 && DataAt(data) && KernelOnly(m1, d, data, k) && IsDir(o1, d)
    requires
      var e := Kmap(data, k);
      Size(e) > 0 && e.start / PGSIZE + Span(e.virt, Size(e)) <= 0x10_0000 && e.perm < PGSIZE
      && Mapped(m1, m2, o1, d, e.virt / PGSIZE, Span(e.virt, Size(e)), e.start / PGSIZE, e.perm)
    ensures KernelOnly(m2, d, data, k + 1)
  {
    hide Pte, Size, Present, FrameOf, FlagsOf;
    KmapOk(data, k);
    hide Kmap;
    forall u: nat | u / ENTRIES < ENTRIES ensures KernelPage(data, k + 1, u, Pte(m2, d, u)) {
      assert KernelPage(data, k, u, Pte(m1, d, u));
      if InRegion(Kmap(data, k), u) {
        forall j | 0 <= j < k ensures !InRegion(Kmap(data, j), u) {
        }
      }
    }
  }

  lemma {:induction false} MadeGrown(was: seq<Page>, m1: seq<Page>, m2: seq<Page>, o: map<nat, Owner>,
      o1: map<nat, Owner>, o2: map<nat, Owner>, d: nat, v: nat, n: nat, f: nat, perm: nat)
    requires Owned(was, o) && Made(was, m1, o, o1, d) && Grown(m1, m2, o1, o2, d) && f + n <= 0x10_0000 && perm < PGSIZE
    requires forall g :: g in o ==> g in o2 && o2[g] == o[g]
    requires exists j :: 0 <= j <= n && Mapped(m1, m2, o1, d, v, j, f, perm)
    ensures Made(was, m2, o, o2, d)
  {
    hide Pte;
    forall g | g in o && g < |was| ensures m2[g] == was[g] {
      NotOf(was, o, g, d);
    }
    var j :| 0 <= j <= n && Mapped(m1, m2, o1, d, v, j, f, perm);
    forall r, u: nat | IsDir(o, r) && u / ENTRIES < ENTRIES ensures Pte(m2, r, u) == Pte(was, r, u) {
      assert IsDir(o1, r);
    }
    forall g | g in o2 && g !in o ensures Of(o2[g], g, d) {
    }
  }

  // Nothing belongs to a space whose directory nobody holds.
  lemma {:induction false} NotOf(mem: seq<Page>, owner: map<nat, Owner>, g: nat, d: nat)
    requires Owned(mem, owner) && g in owner && d !in owner
    ensures !Of(owner[g], g, d)
  {
    assert FrameOk(mem, owner, g);
  }

  // A space made and freed again leaves what there was.
  lemma {:induction false} MadeGone(was: seq<Page>, m1: seq<Page>, m2: seq<Page>, o: map<nat, Owner>,
      o1: map<nat, Owner>, d: nat)
    requires Owned(was, o) && Made(was, m1, o, o1, d) && |m2| == |m1|
    requires forall g :: g in Without(o1, d) && g < |m1| ==> m2[g] == m1[g]
    requires forall r, u: nat :: IsDir(Without(o1, d), r) && u / ENTRIES < ENTRIES ==> Pte(m2, r, u) == Pte(m1, r, u)
    ensures Without(o1, d) == o && Unharmed(was, m2, o)
  {
    hide Pte;
    forall g | g in o ensures g in Without(o1, d) {
      NotOf(was, o, g, d);
    }
    forall g | g in Without(o1, d) ensures g in o {
    }
    assert Without(o1, d) == o;
  }

  // The tables of the first i directory entries have been freed.
  ghost predicate TablesFreed(m1: seq<Page>, mem: seq<Page>, o1: map<nat, Owner>, owner: map<nat, Owner>, s: nat,
      i: nat)
  {
    && |mem| == |m1| && IsDir(owner, s) && s < |m1| && owner.Keys <= o1.Keys
    && (forall g :: g in owner ==> owner[g] == o1[g] && (g < |m1| ==> mem[g] == m1[g]))
    && (forall g :: g in o1 ==> (g in owner <==> !(o1[g].Table? && o1[g].dir == s && o1[g].d < i)))
  }

  lemma {:induction false} OneTable(m1: seq<Page>, o1: map<nat, Owner>, s: nat, i: nat)
    requires Owned(m1, o1) && IsDir(o1, s) && i < ENTRIES
    ensures forall g :: g in o1 && o1[g] == Table(s, i) ==> Present(At(m1, s, i)) && FrameOf(At(m1, s, i)) == g
  {
    forall g | g in o1 && o1[g] == Table(s, i) ensures Present(At(m1, s, i)) && FrameOf(At(m1, s, i)) == g {
      assert FrameOk(m1, o1, g);
    }
  }

  lemma {:induction false} AllFreed(was: seq<Page>, m1: seq<Page>, m2: seq<Page>, o: map<nat, Owner>,
      o1: map<nat, Owner>, o2: map<nat, Owner>, s: nat)
    requires Owned(was, o) && IsDir(o, s) && Owned(m1, o1) && IsDir(o1, s) &&
      Cleared(was, m1, o, o1, s, 0, USERPAGES) && |m2| == |m1|
    requires o2.Keys <= o1.Keys && forall g :: g in o2 ==> o2[g] == o1[g] && (g < |m1| ==> m2[g] == m1[g])
    requires forall g :: g in o1 ==> (g in o2 <==> g != s && !(o1[g].Table? && o1[g].dir == s && o1[g].d < ENTRIES))
    ensures o2 == Without(o, s) && Owned(m2, o2)
    ensures forall g :: g in o2 && g < |m2| ==> m2[g] == was[g]
    ensures forall r, u: nat :: IsDir(o2, r) && u / ENTRIES < ENTRIES ==> Pte(m2, r, u) == Pte(was, r, u)
  {
    hide FrameOk, Pte, Present, FrameOf;
    forall u: nat | u < USERPAGES ensures Pte(m1, s, u) == 0 {
      Indices(u);
    }
    forall g | g in o1 ensures g in o2 <==> !Of(o1[g], g, s) {
      if Of(o1[g], g, s) {
        NoData(m1, o1, s, g);
      }
    }
    assert o2 == Without(o1, s);
    DropDir(m1, m2, o1, s);
    forall g | g in o && !Of(o[g], g, s) ensures g in o1 {
    }
    forall g | g in o2 ensures g in Without(o, s) && o2[g] == o[g] {
    }
    assert o2 == Without(o, s);
  }

  // The user pages lo to hi of space s have been given zeroed frames that nobody held; nothing else changes.
  ghost predicate Allocated(mem: seq<Page>, mem': seq<Page>, owner: map<nat, Owner>, owner': map<nat, Owner>, s: nat,
      lo: nat, hi: nat)
  {
    && Grown(mem, mem', owner, owner', s) && (forall g :: g in owner ==> g in owner' && owner'[g] == owner[g])
    && (forall r, u: nat :: IsDir(owner, r) && u / ENTRIES < ENTRIES && !(r == s && lo <= u < hi) ==>
       Pte(mem', r, u) == Pte(mem, r, u))
    && (forall u: nat :: lo <= u < hi ==> NewPage(mem', owner, owner', Pte(mem', s, u)))
  }

  ghost predicate NewPage(mem': seq<Page>, owner: map<nat, Owner>, owner': map<nat, Owner>, w: Word) {
    && Present(w) && FlagsOf(w) == PTE_P + PTE_W + PTE_U && FrameOf(w) in owner' && FrameOf(w) !in owner
    && FrameOf(w) < |mem'| && mem'[FrameOf(w)] == ZeroPage()
  }

  // Space s maps what it did, and its memory is what it was; it may have kept some new tables.
  ghost predicate RolledBack(mem: seq<Page>, mem': seq<Page>, owner: map<nat, Owner>, owner': map<nat, Owner>, s: nat) {
    && |mem'| == |mem| && SameMaps(mem, mem', owner)
    && (forall g :: g in owner ==> g in owner' && owner'[g] == owner[g])
    && (forall g :: g in owner' && g !in owner ==> owner'[g].Table? && owner'[g].dir == s)
    && (forall g :: g in owner && g < |mem| && !InTables(owner[g], g, s) ==> mem'[g] == mem[g])
  }

  lemma {:induction false} PagesUp(oldsz: nat, newsz: nat)
    requires oldsz <= newsz
    ensures PagesOf(oldsz) <= PagesOf(newsz)
  {
  }

  lemma {:induction false} NoneAllocated(mem: seq<Page>, owner: map<nat, Owner>, s: nat, lo: nat)
    ensures Allocated(mem, mem, owner, owner, s, lo, lo)
  {
  }

  // A frame from kalloc, zeroed.
  lemma {:induction false} Zeroed(mem: seq<Page>, mem': seq<Page>, owner: map<nat, Owner>, s: nat, v: nat, f: nat)
    requires Owned(mem, owner) && IsDir(owner, s) && v / ENTRIES < ENTRIES && f !in owner && f < |mem| &&
      mem' == mem[f := ZeroPage()]
    ensures Owned(mem', owner[f := Other]) && IsDir(owner[f := Other], s) && Pte(mem', s, v) == Pte(mem, s, v)
  {
    hide FrameOk, Fill, Pte;
    assert SameTables(mem, mem', owner);
    TablesKeep(mem, mem', owner);
    SamePte(mem, mem', owner, s, v);
    OtherFrames(mem', owner, owner[f := Other]);
  }

  lemma {:induction false} NextPage(was: seq<Page>, m1: seq<Page>, o: map<nat, Owner>, o1: map<nat, Owner>, s: nat,
      lo: nat, v: nat)
    requires Allocated(was, m1, o, o1, s, lo, v) && IsDir(o, s) && v / ENTRIES < ENTRIES
    ensures Pte(m1, s, v) == Pte(was, s, v)
  {
    hide Pte;
  }

  lemma {:induction false} AllocStep(was: seq<Page>, m1: seq<Page>, m2: seq<Page>, m3: seq<Page>, o: map<nat, Owner>,
      o1: map<nat, Owner>, o3: map<nat, Owner>, s: nat, lo: nat, v: nat, f: nat)
    requires Owned(m1, o1) && IsDir(o, s) && lo <= v < USERPAGES && Allocated(was, m1, o, o1, s, lo, v)
    requires f !in o1 && f < |m1| && f < NFRAMES && m2 == m1[f := ZeroPage()]
    requires Grown(m2, m3, o1[f := Other], o3, s) && Mapped(m2, m3, o1[f := Other], s, v, 1, f, PTE_W + PTE_U)
    requires f in o3 && o3[f] == Data(s, v) && forall g :: g in o1 ==> g in o3 && o3[g] == o1[g]
    ensures Allocated(was, m3, o, o3, s, lo, v + 1)
  {
    hide FrameOk, Pte, Present, FrameOf, Fill, FlagsOf;
    Kept3(m1, m2, m3, o1, o3, s, v, f);
    assert SameTables(m1, m2, o1);
    forall r, u: nat | IsDir(o1, r) && u / ENTRIES < ENTRIES
      ensures Pte(m3, r, u) == if r == s && u == v then MakePte(f, PTE_W + PTE_U) else Pte(m1, r, u)
    {
      SamePte(m1, m2, o1, r, u);
    }
    forall u: nat | lo <= u < v + 1 ensures NewPage(m3, o, o3, Pte(m3, s, u)) {
      Indices(u);
      if u < v {
        PteIs(m1, o1, s, u);
        assert NewPage(m1, o, o1, Pte(m1, s, u));
      }
    }
  }

  // A frame of memory held before a page was added is as it was.
  lemma {:induction false} Kept3(m1: seq<Page>, m2: seq<Page>, m3: seq<Page>, o1: map<nat, Owner>, o3: map<nat, Owner>,
      s: nat, v: nat, f: nat)
    requires Owned(m1, o1) && f !in o1 && f < |m1| && m2 == m1[f := ZeroPage()] && f < 0x10_0000
    requires Grown(m2, m3, o1[f := Other], o3, s) && f in o3 && o3[f] == Data(s, v)
    ensures forall g :: g in o1 && g < |m1| && !InTables(o1[g], g, s) ==> m3[g] == m1[g]
    ensures m3[f] == ZeroPage()
  {
    hide FrameOk, Fill;
  }

  // Clearing the pages an allocation had made, and those it had not come to, undoes it but for tables.
  lemma {:induction false} RollBack(was: seq<Page>, m1: seq<Page>, m2: seq<Page>, o: map<nat, Owner>,
      o1: map<nat, Owner>, o2: map<nat, Owner>, s: nat, lo: nat, v: nat, hi: nat)
    requires Owned(was, o) && Owned(m1, o1) && IsDir(o, s) && lo <= v <= hi <= USERPAGES
    requires Allocated(was, m1, o, o1, s, lo, v) && Cleared(m1, m2, o1, o2, s, lo, hi)
    requires forall u :: lo <= u < hi ==> !Present(Pte(was, s, u))
    ensures RolledBack(was, m2, o, o2, s)
  {
    hide FrameOk, Pte, FrameOf, Present;
    forall r, u: nat | IsDir(o, r) && u / ENTRIES < ENTRIES ensures Pte(m2, r, u) == Pte(was, r, u) {
      assert IsDir(o1, r);
      if r == s && lo <= u < hi {
        PteIs(was, o, s, u);
      }
    }
    forall g | g in o ensures g in o2 {
      if InRange(o[g], s, lo, hi) {
        DataIs(was, o, g, s, o[g].v);
      }
    }
    forall g | g in o2 && g !in o ensures o2[g].Table? && o2[g].dir == s {
      if o2[g].Data? {
        DataIs(m1, o1, g, s, o2[g].v);
        PteIs(was, o, s, o2[g].v);
        Indices(o2[g].v);
        OldFrame(was, m1, o, o1, s, lo, v, hi, g);
      }
    }
  }

  lemma {:induction false} OldFrame(was: seq<Page>, m1: seq<Page>, o: map<nat, Owner>, o1: map<nat, Owner>, s: nat,
      lo: nat, v: nat, hi: nat, g: nat)
    requires Owned(was, o) && Owned(m1, o1) && IsDir(o, s) && v <= hi && Allocated(was, m1, o, o1, s, lo, v)
    requires g in o1 && o1[g].Data? && o1[g].dir == s && !InRange(o1[g], s, lo, hi)
    ensures g in o
  {
    hide FrameOk, Pte, FrameOf, Present;
    DataIs(m1, o1, g, s, o1[g].v);
    Indices(o1[g].v);
    PteIs(was, o, s, o1[g].v);
  }

  // Clearing with one more frame in hand, which is then freed, is clearing.
  lemma {:induction false} ClearedLess(m1: seq<Page>, m2: seq<Page>, m3: seq<Page>, m4: seq<Page>, o1: map<nat, Owner>,
      o3: map<nat, Owner>, s: nat, lo: nat, hi: nat, f: nat)
    requires Owned(m1, o1) && f !in o1 && f < |m1| && m2 == m1[f := ZeroPage()] && Owned(m3, o3) && IsDir(o3, s)
    requires Cleared(m2, m3, o1[f := Other], o3, s, lo, hi) && |m4| == |m3| && f in o3
    requires forall g :: 0 <= g < |m3| && g != f ==> m4[g] == m3[g]
    ensures Cleared(m1, m4, o1, o3 - {f}, s, lo, hi) && Owned(m4, o3 - {f}) && IsDir(o3 - {f}, s)
  {
    hide FrameOk, Pte, Fill;
    assert SameTables(m1, m2, o1);
    assert o3[f] == Other;
    assert SameTables(m3, m4, o3);
    TablesKeep(m3, m4, o3);
    OtherFrames(m4, o3, o3 - {f});
    forall r, u: nat | IsDir(o1, r) && u / ENTRIES < ENTRIES
      ensures Pte(m4, r, u) == if r == s && lo <= u < hi then 0 else Pte(m1, r, u) {
      SamePte(m1, m2, o1, r, u);
      assert IsDir(o1[f := Other], r) && IsDir(o3, r);
      SamePte(m3, m4, o3, r, u);
    }
  }

  lemma {:induction false} StillOther(m2: seq<Page>, m3: seq<Page>, o2: map<nat, Owner>, o3: map<nat, Owner>, s: nat,
      lo: nat, hi: nat, f: nat)
    requires Cleared(m2, m3, o2, o3, s, lo, hi) && f in o2 && o2[f] == Other
    ensures f in o3 && o3[f] == Other
  {
  }

  // The user pages lo to hi of space s have been unmapped and their frames given up; nothing else changes.
  ghost predicate Cleared(mem: seq<Page>, mem': seq<Page>, owner: map<nat, Owner>, owner': map<nat, Owner>, s: nat,
      lo: nat, hi: nat)
  {
    && |mem'| == |mem|
    && (forall r, u: nat :: IsDir(owner, r) && u / ENTRIES < ENTRIES ==>
       Pte(mem', r, u) == if r == s && lo <= u < hi then 0 else Pte(mem, r, u))
    && owner'.Keys <= owner.Keys && (forall g :: g in owner ==> (g in owner' <==> !InRange(owner[g], s, lo, hi)))
    && (forall g :: g in owner' ==>
       owner'[g] == owner[g] && (g < |mem| && !InTables(owner[g], g, s) ==> mem'[g] == mem[g]))
  }

  ghost predicate InRange(o: Owner, s: nat, lo: nat, hi: nat) {
    o.Data? && o.dir == s && lo <= o.v < hi
  }

  lemma {:induction false} InPages(v: nat, sz: nat)
    ensures PGSIZE * v < sz <==> v < PagesOf(sz)
  {
  }

  lemma {:induction false} ClearedNone(mem: seq<Page>, owner: map<nat, Owner>, s: nat, lo: nat)
    ensures Cleared(mem, mem, owner, owner, s, lo, lo)
  {
  }

  lemma {:induction false} ClearedOn(m1: seq<Page>, m2: seq<Page>, m3: seq<Page>, o1: map<nat, Owner>,
      o2: map<nat, Owner>, o3: map<nat, Owner>, s: nat, lo: nat, v: nat, hi: nat)
    requires Cleared(m1, m2, o1, o2, s, lo, v) && Cleared(m2, m3, o2, o3, s, v, hi) && lo <= v <= hi
    ensures Cleared(m1, m3, o1, o3, s, lo, hi)
  {
    hide Pte;
    forall r | IsDir(o1, r) ensures IsDir(o2, r) {
    }
  }

  // Pages that are not mapped are as good as cleared.
  lemma {:induction false} Gap(mem: seq<Page>, owner: map<nat, Owner>, s: nat, lo: nat, hi: nat)
    requires Owned(mem, owner) && IsDir(owner, s) && lo <= hi <= USERPAGES
    requires forall u :: lo <= u < hi ==> !Present(Pte(mem, s, u))
    ensures Cleared(mem, mem, owner, owner, s, lo, hi)
  {
    hide FrameOk, Pte;
    forall u: nat | lo <= u < hi ensures Pte(mem, s, u) == 0 {
      PteIs(mem, owner, s, u);
    }
    forall g | g in owner ensures !InRange(owner[g], s, lo, hi) {
      if InRange(owner[g], s, lo, hi) {
        DataIs(mem, owner, g, s, owner[g].v);
      }
    }
  }

  // An absent directory entry maps none of its pages.
  lemma {:induction false} NoTable(mem: seq<Page>, s: nat, v: nat)
    requires !Present(At(mem, s, v / ENTRIES))
    ensures forall u: nat :: v <= u < ENTRIES * (v / ENTRIES + 1) ==> !Present(Pte(mem, s, u))
  {
    forall u: nat | v <= u < ENTRIES * (v / ENTRIES + 1) ensures !Present(Pte(mem, s, u)) {
      assert u / ENTRIES == v / ENTRIES;
    }
  }

  lemma {:induction false} PteAt(mem: seq<Page>, s: nat, v: nat, t: nat)
    requires Present(At(mem, s, v / ENTRIES)) && FrameOf(At(mem, s, v / ENTRIES)) == t < |mem|
    ensures Pte(mem, s, v) == mem[t].words[v % ENTRIES]
  {
  }

  lemma {:induction false} TableHeld(mem: seq<Page>, owner: map<nat, Owner>, s: nat, v: nat, t: nat)
    requires Owned(mem, owner) && IsDir(owner, s) && v / ENTRIES < ENTRIES
    requires Present(At(mem, s, v / ENTRIES)) && FrameOf(At(mem, s, v / ENTRIES)) == t
    ensures t in owner && owner[t] == Table(s, v / ENTRIES) && t < |mem|
  {
    TableOf(mem, owner, s, v / ENTRIES);
  }

  lemma {:induction false} ClearedOne(was: seq<Page>, now: seq<Page>, owner: map<nat, Owner>, s: nat, v: nat, t: nat,
      f: nat)
    requires Tabled(was, owner, s, v) && v < USERPAGES && Present(Pte(was, s, v)) && FrameOf(Pte(was, s, v)) == f
    requires FrameOf(At(was, s, v / ENTRIES)) == t && t < |was| == |now| && f < |was| && f != t
    requires now[t] == Page(was[t].words[v % ENTRIES := 0]) && forall g :: 0 <= g < |was| && g != t && g != f ==>
      now[g] == was[g]
    ensures Owned(now, owner - {f}) && Cleared(was, now, owner, owner - {f}, s, v, v + 1) && IsDir(owner - {f}, s)
  {
    hide FrameOk, Present, FrameOf, Owned;
    Unmap(was, owner, s, v);
    var mid := WithPte(was, s, v, 0);
    assert forall g :: 0 <= g < |was| && g != f ==> now[g] == mid[g];
    assert SameTables(mid, now, owner - {f});
    TablesKeep(mid, now, owner - {f});
    forall r, u: nat | IsDir(owner, r) && u / ENTRIES < ENTRIES
      ensures Pte(now, r, u) == if r == s && v <= u < v + 1 then 0 else Pte(was, r, u)
    {
      SetPte(was, owner, s, v, 0, r, u);
      SamePte(mid, now, owner - {f}, r, u);
    }
    forall g | g in owner ensures g in owner - {f} <==> !InRange(owner[g], s, v, v + 1) {
      if owner[g] == Data(s, v) {
        DataIs(was, owner, g, s, v);
      }
    }
    TableOf(was, owner, s, v / ENTRIES);
  }

  lemma {:induction false} SameGrown(mem: seq<Page>, owner: map<nat, Owner>, s: nat)
    ensures Grown(mem, mem, owner, owner, s) && SameMaps(mem, mem, owner)
  {
  }

  // A table for entry d, in a frame fresh from kalloc.
  lemma {:induction false} Walked(was: seq<Page>, now: seq<Page>, owner: map<nat, Owner>, s: nat, d: nat, t: nat)
    requires Owned(was, owner) && IsDir(owner, s) && t !in owner && t < 0x10_0000 && t < |was| && d < ENTRIES &&
      !Present(At(was, s, d))
    requires s < |was| && |now| == |was| && now == was[t := ZeroPage()][s :=
      Page(was[s].words[d := MakePte(t, PTE_P + PTE_W + PTE_U)])]
    ensures Owned(now, owner[t := Table(s, d)]) && SameMaps(was, now, owner) &&
      Grown(was, now, owner, owner[t := Table(s, d)], s)
    ensures Present(At(now, s, d)) && FrameOf(At(now, s, d)) == t
  {
    hide FrameOk, Present, FrameOf, Fill;
    OtherFrames(was, owner, owner[t := Other]);
    assert TableAdded(was, now, s, d, t);
    AddTable(was, now, owner[t := Other], s, d, t);
    assert owner[t := Other][t := Table(s, d)] == owner[t := Table(s, d)];
  }

  lemma {:induction false} NoneMapped(mem: seq<Page>, owner: map<nat, Owner>, s: nat, v: nat, f: nat, perm: nat)
    requires f <= 0x10_0000 && perm < PGSIZE
    ensures Mapped(mem, mem, owner, s, v, 0, f, perm)
  {
  }

  lemma {:induction false} GrownDir(m1: seq<Page>, m2: seq<Page>, o1: map<nat, Owner>, o2: map<nat, Owner>, s: nat)
    requires Grown(m1, m2, o1, o2, s)
    ensures forall r :: IsDir(o1, r) ==> IsDir(o2, r)
  {
  }

  // The next page is as unmapped as it was.
  lemma {:induction false} NotYet(m1: seq<Page>, m2: seq<Page>, o1: map<nat, Owner>, s: nat, v: nat, n: nat, f: nat,
      perm: nat)
    requires IsDir(o1, s) && f + n <= 0x10_0000 && perm < PGSIZE && v + n < 0x10_0000 &&
      Mapped(m1, m2, o1, s, v, n, f, perm)
    ensures Pte(m2, s, v + n) == Pte(m1, s, v + n)
  {
    hide Pte;
  }

  // Growing, and growing again.
  lemma {:induction false} GrownOn(m1: seq<Page>, m2: seq<Page>, m3: seq<Page>, o1: map<nat, Owner>,
      o2: map<nat, Owner>, o3: map<nat, Owner>, s: nat)
    requires Grown(m1, m2, o1, o2, s) && Grown(m2, m3, o2, o3, s)
    ensures Grown(m1, m3, o1, o3, s)
  {
  }

  lemma {:induction false} MappedOn(m1: seq<Page>, m2: seq<Page>, m3: seq<Page>, o1: map<nat, Owner>,
      o2: map<nat, Owner>, s: nat, v: nat, n: nat, f: nat, perm: nat)
    requires f + n < 0x10_0000 && perm < PGSIZE && Mapped(m1, m2, o1, s, v, n, f, perm) &&
      Mapped(m2, m3, o2, s, v + n, 1, f + n, perm)
    requires forall r :: IsDir(o1, r) ==> IsDir(o2, r)
    ensures Mapped(m1, m3, o1, s, v, n + 1, f, perm)
  {
    hide Pte;
  }

  lemma {:induction false} Stored(mem: seq<Page>, s: nat, v: nat, w: Word, t: nat, now: seq<Page>)
    requires FrameOf(At(mem, s, v / ENTRIES)) == t < |mem| && now == mem[t := Page(mem[t].words[v % ENTRIES := w])]
    ensures now == WithPte(mem, s, v, w)
  {
  }

  // The state after a turn of mappages's loop: was, then mid with a table for the page, then now.
  lemma {:induction false} SetMapped(was: seq<Page>, mid: seq<Page>, now: seq<Page>, o1: map<nat, Owner>,
      o2: map<nat, Owner>, o3: map<nat, Owner>, s: nat, v: nat, f: nat, perm: nat, t: nat)
    requires Owned(was, o1) && Owned(mid, o2) && IsDir(o1, s) && v / ENTRIES < ENTRIES && f < 0x10_0000 && perm < PGSIZE
    requires SameMaps(was, mid, o1) && Grown(was, mid, o1, o2, s) && forall g :: g in o1 ==> g in o2 && o2[g] == o1[g]
    requires Present(At(mid, s, v / ENTRIES)) && FrameOf(At(mid, s, v / ENTRIES)) == t < |mid|
    requires now == WithPte(mid, s, v, MakePte(f, perm)) && !Present(Pte(was, s, v))
    requires v < USERPAGES ==> f in o1 && o1[f] == Other
    requires o3 == if v < USERPAGES then o2[f := Data(s, v)] else o2
    ensures Owned(now, o3) && Grown(was, now, o1, o3, s) && Mapped(was, now, o1, s, v, 1, f, perm)
    ensures At(now, s, v / ENTRIES) == At(mid, s, v / ENTRIES)
    ensures t in o2 && o2[t] == Table(s, v / ENTRIES)
  {
    hide FrameOk, Present, FrameOf;
    var w := MakePte(f, perm);
    TableOf(mid, o2, s, v / ENTRIES);
    hide Owned;
    if v < USERPAGES {
      PteIs(was, o1, s, v);
      MapUser(mid, o2, s, v, w);
    } else {
      MapKernel(mid, o2, s, v, w);
    }
    forall r, u: nat | IsDir(o1, r) && u / ENTRIES < ENTRIES
      ensures Pte(now, r, u) == if r == s && v <= u < v + 1 then MakePte(f + (u - v), perm) else Pte(was, r, u)
    {
      SetPte(mid, o2, s, v, w, r, u);
    }
  }

  // n pages from v on are mapped to the n frames from f on, and nothing else changes.
  ghost predicate Mapped(mem: seq<Page>, mem': seq<Page>, owner: map<nat, Owner>, s: nat, v: nat, n: nat, f: nat,
      perm: nat)
    requires f + n <= 0x10_0000 && perm < PGSIZE
  {
    forall r, u: nat :: IsDir(owner, r) && u / ENTRIES < ENTRIES ==>
      Pte(mem', r, u) == if r == s && v <= u < v + n then MakePte(f + (u - v), perm) else Pte(mem, r, u)
  }
}
