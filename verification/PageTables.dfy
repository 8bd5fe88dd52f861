// Two-level page tables over physical frames, as values: who owns which frame, and what each change to a
// directory or table does to the mappings.
module PageTables {
  import opened Basics

  const PGSIZE := 4096
  const NFRAMES := 57344              // PHYSTOP / PGSIZE
  const USERPAGES := 524288           // KERNBASE / PGSIZE
  const ENTRIES := 1024               // NPDENTRIES and NPTENTRIES

  const PTE_P := 1
  const PTE_W := 2
  const PTE_U := 4

  type Words = w: seq<Word> | |w| == ENTRIES witness seq(ENTRIES, _ => 0)

  // The contents of a frame, as uints.
  datatype Page = Page(words: Words)

  function Fill(w: Word): (r: Words)
    ensures forall k :: 0 <= k < ENTRIES ==> r[k] == w
  {
    seq(ENTRIES, _ => w)
  }

  function ZeroPage(): (r: Page)
    ensures forall k :: 0 <= k < ENTRIES ==> r.words[k] == 0
  {
    Page(Fill(0))
  }

  predicate Present(w: Word) {
    w % 2 == 1
  }

  // PTE_ADDR as a frame number, and PTE_FLAGS.
  function FrameOf(w: Word): (f: nat) {
    w / PGSIZE
  }

  function FlagsOf(w: Word): (r: nat)
    ensures r < PGSIZE
  {
    w % PGSIZE
  }

  // pa | perm | PTE_P, for a page-aligned pa.
  function MakePte(f: nat, perm: nat): (w: Word)
    requires f < 0x10_0000 && perm < PGSIZE
    ensures Present(w) && FrameOf(w) == f && FlagsOf(w) == if perm % 2 == 1 then perm else perm + 1
  {
    var flags := if perm % 2 == 1 then perm else perm + 1;
    EntryParts(f, flags);
    PGSIZE * f + flags
  }

  // The three readings of a page-table entry.
  lemma {:induction false} EntryParts(f: nat, flags: nat)
    requires f < 0x10_0000 && flags < 0x1000 && flags % 2 == 1
    ensures 0x1000 * f + flags < 0x1_0000_0000 && (0x1000 * f + flags) / 0x1000 == f
    ensures (0x1000 * f + flags) % 0x1000 == flags && (0x1000 * f + flags) % 2 == 1
  {
    FrameAndFlags(f, flags);
    Odd(0x800 * f + flags / 2);
    assert 0x1000 * f + flags == 2 * (0x800 * f + flags / 2) + 1;
  }

  lemma {:induction false} FrameAndFlags(f: nat, flags: nat)
    requires flags < 0x1000
    ensures (0x1000 * f + flags) / 0x1000 == f && (0x1000 * f + flags) % 0x1000 == flags
  {
  }

  lemma {:induction false} Odd(a: nat)
    ensures (2 * a + 1) % 2 == 1
  {
  }

  // A word of memory.
  function At(mem: seq<Page>, f: nat, i: nat): Word {
    if f < |mem| && i < ENTRIES then mem[f].words[i] else 0
  }

  function SetAt(mem: seq<Page>, f: nat, i: nat, w: Word): (r: seq<Page>)
    requires f < |mem| && i < ENTRIES
    ensures |r| == |mem| && forall g, j :: At(r, g, j) == if g == f && j == i then w else At(mem, g, j)
  {
    mem[f := Page(mem[f].words[i := w])]
  }

  // What a directory maps virtual page v to; 0 if there is no table.
  function Pte(mem: seq<Page>, dir: nat, v: nat): Word {
    if Present(At(mem, dir, v / ENTRIES)) then At(mem, FrameOf(At(mem, dir, v / ENTRIES)), v % ENTRIES) else 0
  }

  // What a frame is: a directory, the table of a directory for entry d, the memory behind user page v of a
  // directory, or something outside the page tables.
  datatype Owner = Dir | Table(dir: nat, d: nat) | Data(dir: nat, v: nat) | Other

  ghost predicate IsDir(owner: map<nat, Owner>, s: nat) {
    s in owner && owner[s] == Dir
  }

  ghost predicate PdeOk(mem: seq<Page>, owner: map<nat, Owner>, s: nat, d: nat) {
    Present(At(mem, s, d)) ==> FrameOf(At(mem, s, d)) in owner && owner[FrameOf(At(mem, s, d))] == Table(s, d)
  }

  ghost predicate PteOk(mem: seq<Page>, owner: map<nat, Owner>, s: nat, d: nat, t: nat, x: nat) {
    if Present(At(mem, t, x)) then FrameOf(At(mem, t, x)) in owner &&
      owner[FrameOf(At(mem, t, x))] == Data(s, ENTRIES * d + x)
    else At(mem, t, x) == 0
  }

  // A frame is reached from where its owner says, and what it holds leads to frames that say so.
  ghost predicate FrameOk(mem: seq<Page>, owner: map<nat, Owner>, f: nat)
    requires f in owner
  {
    match owner[f]
    case Dir => forall d :: 0 <= d < ENTRIES ==> PdeOk(mem, owner, f, d)
    case Table(s, d) =>
      && IsDir(owner, s) && d < ENTRIES && Present(At(mem, s, d)) && FrameOf(At(mem, s, d)) == f
      && (d < USERPAGES / ENTRIES ==> forall x :: 0 <= x < ENTRIES ==> PteOk(mem, owner, s, d, f, x))
    case Data(s, v) => IsDir(owner, s) && v < USERPAGES && Present(Pte(mem, s, v)) && FrameOf(Pte(mem, s, v)) == f
    case Other => true
  }

  ghost predicate Owned(mem: seq<Page>, owner: map<nat, Owner>) {
    forall f :: f in owner ==> f < |mem| && FrameOk(mem, owner, f)
  }

  // Facts.

  lemma {:induction false} Indices(v: nat)
    ensures v % ENTRIES < ENTRIES && ENTRIES * (v / ENTRIES) + v % ENTRIES == v
    ensures v < USERPAGES <==> v / ENTRIES < USERPAGES / ENTRIES
    ensures v < 0x10_0000 ==> v / ENTRIES < ENTRIES
  {
  }

  lemma {:induction false} Split(d: nat, x: nat)
    requires x < ENTRIES
    ensures (ENTRIES * d + x) / ENTRIES == d && (ENTRIES * d + x) % ENTRIES == x
  {
  }

  // The table a directory has for an entry.
  lemma {:induction false} TableOf(mem: seq<Page>, owner: map<nat, Owner>, s: nat, d: nat)
    requires Owned(mem, owner) && IsDir(owner, s) && d < ENTRIES && Present(At(mem, s, d))
    ensures FrameOf(At(mem, s, d)) in owner && owner[FrameOf(At(mem, s, d))] == Table(s, d) &&
      FrameOf(At(mem, s, d)) < |mem|
  {
    assert FrameOk(mem, owner, s);
    assert PdeOk(mem, owner, s, d);
  }

  // A user page that is mapped is mapped to memory of its own; one that is not has a zero entry.
  lemma {:induction false} PteIs(mem: seq<Page>, owner: map<nat, Owner>, s: nat, v: nat)
    requires Owned(mem, owner) && IsDir(owner, s) && v < USERPAGES
    ensures
      if Present(Pte(mem, s, v)) then FrameOf(Pte(mem, s, v)) in owner && owner[FrameOf(Pte(mem, s, v))] == Data(s, v)
      else Pte(mem, s, v) == 0
  {
    Indices(v);
    if Present(At(mem, s, v / ENTRIES)) {
      TableOf(mem, owner, s, v / ENTRIES);
      var t := FrameOf(At(mem, s, v / ENTRIES));
      assert FrameOk(mem, owner, t);
      assert PteOk(mem, owner, s, v / ENTRIES, t, v % ENTRIES);
    }
  }

  // Distinct user pages, of one directory or of two, are mapped to distinct frames.
  lemma {:induction false} FramesDiffer(mem: seq<Page>, owner: map<nat, Owner>, s: nat, v: nat, s': nat, v': nat)
    requires Owned(mem, owner) && IsDir(owner, s) && IsDir(owner, s') && v < USERPAGES && v' < USERPAGES
    requires Present(Pte(mem, s, v)) && Present(Pte(mem, s', v')) && (s != s' || v != v')
    ensures FrameOf(Pte(mem, s, v)) != FrameOf(Pte(mem, s', v'))
  {
    PteIs(mem, owner, s, v);
    PteIs(mem, owner, s', v');
  }

  // Frames that are neither directories nor tables may hold anything.
  ghost predicate SameTables(mem: seq<Page>, mem': seq<Page>, owner: map<nat, Owner>) {
    |mem'| == |mem| && forall f :: f in owner && f < |mem| && (owner[f].Dir? || owner[f].Table?) ==> mem'[f] == mem[f]
  }

  lemma {:induction false} SamePte(mem: seq<Page>, mem': seq<Page>, owner: map<nat, Owner>, s: nat, v: nat)
    requires Owned(mem, owner) && SameTables(mem, mem', owner) && IsDir(owner, s) && v / ENTRIES < ENTRIES
    ensures Pte(mem', s, v) == Pte(mem, s, v)
  {
    assert FrameOk(mem, owner, s);
    if Present(At(mem, s, v / ENTRIES)) {
      TableOf(mem, owner, s, v / ENTRIES);
    }
  }

  lemma {:induction false} TablesKeep(mem: seq<Page>, mem': seq<Page>, owner: map<nat, Owner>)
    requires Owned(mem, owner) && SameTables(mem, mem', owner)
    ensures Owned(mem', owner)
  {
    forall f | f in owner ensures f < |mem'| && FrameOk(mem', owner, f) {
      assert FrameOk(mem, owner, f);
      KeptFrame(mem, mem', owner, f);
    }
  }

  lemma {:induction false} KeptFrame(mem: seq<Page>, mem': seq<Page>, owner: map<nat, Owner>, f: nat)
    requires Owned(mem, owner) && SameTables(mem, mem', owner) && f in owner
    ensures FrameOk(mem', owner, f)
  {
    assert FrameOk(mem, owner, f);
    match owner[f]
    case Dir =>
      forall d | 0 <= d < ENTRIES ensures PdeOk(mem', owner, f, d) {
        assert PdeOk(mem, owner, f, d);
      }
    case Table(s, d) =>
      assert FrameOk(mem, owner, s);
      if d < USERPAGES / ENTRIES {
        forall x | 0 <= x < ENTRIES ensures PteOk(mem', owner, s, d, f, x) {
          assert PteOk(mem, owner, s, d, f, x);
        }
      }
    case Data(s, v) =>
      Indices(v);
      SamePte(mem, mem', owner, s, v);
    case Other =>
  }

  // What a new table leaves of any mapping: all of it.
  ghost predicate SameMaps(mem: seq<Page>, mem': seq<Page>, owner: map<nat, Owner>) {
    forall s, v: nat :: IsDir(owner, s) && v / ENTRIES < ENTRIES ==> Pte(mem', s, v) == Pte(mem, s, v)
  }

  // walkpgdir's new table.
  ghost predicate TableAdded(mem: seq<Page>, mem': seq<Page>, s: nat, d: nat, t: nat)
    requires t < 0x10_0000
  {
    && |mem'| == |mem|
    && (forall f, i :: At(mem', f, i) == if f == t then 0
       else if f == s && i == d then MakePte(t, PTE_P + PTE_W + PTE_U) else At(mem, f, i))
  }

  lemma {:induction false} AddTable(mem: seq<Page>, mem': seq<Page>, owner: map<nat, Owner>, s: nat, d: nat, t: nat)
    requires Owned(mem, owner) && IsDir(owner, s) && d < ENTRIES && !Present(At(mem, s, d))
    requires t in owner && owner[t] == Other && t < 0x10_0000 && TableAdded(mem, mem', s, d, t)
    ensures Owned(mem', owner[t := Table(s, d)]) && SameMaps(mem, mem', owner)
    ensures IsDir(owner[t := Table(s, d)], s) && Present(At(mem', s, d)) && FrameOf(At(mem', s, d)) == t
  {
    var owner' := owner[t := Table(s, d)];
    assert s < |mem| && t < |mem|;
    assert At(mem', s, d) == MakePte(t, PTE_P + PTE_W + PTE_U);
    forall r, v: nat | IsDir(owner, r) && v / ENTRIES < ENTRIES ensures Pte(mem', r, v) == Pte(mem, r, v) {
      AddTablePte(mem, mem', owner, s, d, t, r, v);
    }
    forall f | f in owner' ensures f < |mem'| && FrameOk(mem', owner', f) {
      if f == t {
        forall x | 0 <= x < ENTRIES ensures PteOk(mem', owner', s, d, t, x) {
          assert At(mem', t, x) == 0;
        }
      } else {
        AddTableFrame(mem, mem', owner, s, d, t, f);
      }
    }
  }

  lemma {:induction false} AddTablePte(mem: seq<Page>, mem': seq<Page>, owner: map<nat, Owner>, s: nat, d: nat, t: nat,
      r: nat, v: nat)
    requires Owned(mem, owner) && IsDir(owner, s) && d < ENTRIES && !Present(At(mem, s, d))
    requires t in owner && owner[t] == Other && t < 0x10_0000 && TableAdded(mem, mem', s, d, t)
    requires IsDir(owner, r) && v / ENTRIES < ENTRIES
    ensures Pte(mem', r, v) == Pte(mem, r, v)
  {
    hide FrameOk;
    var e := v / ENTRIES;
    assert At(mem', r, e) == if r == s && e == d then MakePte(t, PTE_P + PTE_W + PTE_U) else At(mem, r, e);
    if Present(At(mem, r, e)) {
      TableOf(mem, owner, r, e);
    }
  }

  lemma {:induction false} AddTableFrame(mem: seq<Page>, mem': seq<Page>, owner: map<nat, Owner>, s: nat, d: nat,
      t: nat, f: nat)
    requires Owned(mem, owner) && IsDir(owner, s) && d < ENTRIES && !Present(At(mem, s, d))
    requires t in owner && owner[t] == Other && t < 0x10_0000 && TableAdded(mem, mem', s, d, t)
    requires f in owner && f != t && At(mem', s, d) == MakePte(t, PTE_P + PTE_W + PTE_U)
    ensures FrameOk(mem', owner[t := Table(s, d)], f)
  {
    hide Present, FrameOf;
    var owner' := owner[t := Table(s, d)];
    assert FrameOk(mem, owner, f);
    match owner[f]
    case Dir =>
      forall e | 0 <= e < ENTRIES ensures PdeOk(mem', owner', f, e) {
        assert PdeOk(mem, owner, f, e);
        assert At(mem', f, e) == if f == s && e == d then MakePte(t, PTE_P + PTE_W + PTE_U) else At(mem, f, e);
      }
    case Table(r, e) =>
      assert At(mem', r, e) == At(mem, r, e);
      if e < USERPAGES / ENTRIES {
        forall x | 0 <= x < ENTRIES ensures PteOk(mem', owner', r, e, f, x) {
          assert PteOk(mem, owner, r, e, f, x);
          assert At(mem', f, x) == At(mem, f, x);
        }
      }
    case Data(r, v) =>
      Indices(v);
      AddTablePte(mem, mem', owner, s, d, t, r, v);
    case Other =>
  }

  // Writing one entry of a table changes one page of one mapping.
  lemma {:induction false} SetPte(mem: seq<Page>, owner: map<nat, Owner>, s: nat, v: nat, w: Word, r: nat, u: nat)
    requires Owned(mem, owner) && IsDir(owner, s) && v / ENTRIES < ENTRIES && Present(At(mem, s, v / ENTRIES))
    requires IsDir(owner, r) && u / ENTRIES < ENTRIES
    ensures FrameOf(At(mem, s, v / ENTRIES)) < |mem|
    ensures Pte(SetAt(mem, FrameOf(At(mem, s, v / ENTRIES)), v % ENTRIES, w), r, u) == if r == s && u == v then w
      else Pte(mem, r, u)
  {
    hide FrameOk, Present, FrameOf, SetAt, At;
    TableOf(mem, owner, s, v / ENTRIES);
    if Present(At(mem, r, u / ENTRIES)) {
      TableOf(mem, owner, r, u / ENTRIES);
    }
    Indices(v);
    Indices(u);
  }

  // The frames other than the one whose mapping changes stay in order.
  lemma {:induction false} SetFrame(mem: seq<Page>, owner: map<nat, Owner>, owner': map<nat, Owner>, s: nat, v: nat,
      w: Word, f: nat)
    requires Owned(mem, owner) && IsDir(owner, s) && v / ENTRIES < ENTRIES && Present(At(mem, s, v / ENTRIES))
    requires f in owner && f in owner' && owner'[f] == owner[f] && owner[f] != Data(s, v)
    requires forall g :: g in owner && owner[g] != Data(s, v) && owner[g] != Other ==>
      g in owner' && owner'[g] == owner[g]
    requires v < USERPAGES ==> if Present(w) then FrameOf(w) in owner' && owner'[FrameOf(w)] == Data(s, v) else w == 0
    ensures FrameOf(At(mem, s, v / ENTRIES)) < |mem|
    ensures FrameOk(SetAt(mem, FrameOf(At(mem, s, v / ENTRIES)), v % ENTRIES, w), owner', f)
  {
    hide Present, FrameOf, At;
    TableOf(mem, owner, s, v / ENTRIES);
    var t := FrameOf(At(mem, s, v / ENTRIES));
    var mem' := SetAt(mem, t, v % ENTRIES, w);
    Indices(v);
    hide SetAt;
    assert FrameOk(mem, owner, f);
    match owner[f]
    case Dir =>
      forall e | 0 <= e < ENTRIES ensures PdeOk(mem', owner', f, e) {
        assert PdeOk(mem, owner, f, e);
      }
    case Table(r, e) =>
      if e < USERPAGES / ENTRIES {
        forall x | 0 <= x < ENTRIES ensures PteOk(mem', owner', r, e, f, x) {
          assert PteOk(mem, owner, r, e, f, x);
          Split(e, x);
        }
      }
    case Data(r, u) =>
      Indices(u);
      SetPte(mem, owner, s, v, w, r, u);
    case Other =>
  }

  ghost predicate Tabled(mem: seq<Page>, owner: map<nat, Owner>, s: nat, v: nat) {
    Owned(mem, owner) && IsDir(owner, s) && v / ENTRIES < ENTRIES && Present(At(mem, s, v / ENTRIES)) &&
      FrameOf(At(mem, s, v / ENTRIES)) < |mem|
  }

  // Memory with one entry of one table changed.
  ghost function WithPte(mem: seq<Page>, s: nat, v: nat, w: Word): (r: seq<Page>)
    requires FrameOf(At(mem, s, v / ENTRIES)) < |mem|
  {
    SetAt(mem, FrameOf(At(mem, s, v / ENTRIES)), v % ENTRIES, w)
  }

  // A user page not mapped so far is mapped to a frame of its own.
  lemma {:induction false} MapUser(mem: seq<Page>, owner: map<nat, Owner>, s: nat, v: nat, w: Word)
    requires Tabled(mem, owner, s, v) && v < USERPAGES && Present(w) && Pte(mem, s, v) == 0
    requires FrameOf(w) in owner && owner[FrameOf(w)] == Other
    ensures Owned(WithPte(mem, s, v, w), owner[FrameOf(w) := Data(s, v)])
  {
    hide FrameOk, Present, FrameOf, SetAt, At;
    var owner', mem' := owner[FrameOf(w) := Data(s, v)], WithPte(mem, s, v, w);
    forall g | g in owner && owner[g] == Data(s, v) ensures false {
      DataIs(mem, owner, g, s, v);
    }
    forall f | f in owner' ensures f < |mem'| && FrameOk(mem', owner', f) {
      if f == FrameOf(w) {
        SetPte(mem, owner, s, v, w, s, v);
        IsMapped(mem', owner', f, s, v);
      } else {
        SetFrame(mem, owner, owner', s, v, w, f);
      }
    }
  }

  lemma {:induction false} DataIs(mem: seq<Page>, owner: map<nat, Owner>, g: nat, s: nat, v: nat)
    requires Owned(mem, owner) && g in owner && owner[g] == Data(s, v)
    ensures IsDir(owner, s) && v < USERPAGES && Present(Pte(mem, s, v)) && FrameOf(Pte(mem, s, v)) == g &&
      Pte(mem, s, v) != 0
  {
    assert FrameOk(mem, owner, g);
  }

  lemma {:induction false} IsMapped(mem: seq<Page>, owner: map<nat, Owner>, f: nat, s: nat, v: nat)
    requires f in owner && owner[f] == Data(s, v) && IsDir(owner, s) && v < USERPAGES
    requires Present(Pte(mem, s, v)) && FrameOf(Pte(mem, s, v)) == f
    ensures FrameOk(mem, owner, f)
  {
  }

  // A kernel page may be mapped to any frame.
  lemma {:induction false} MapKernel(mem: seq<Page>, owner: map<nat, Owner>, s: nat, v: nat, w: Word)
    requires Tabled(mem, owner, s, v) && v >= USERPAGES
    ensures Owned(WithPte(mem, s, v, w), owner)
  {
    hide FrameOk, Present, FrameOf, SetAt, At;
    forall f | f in owner ensures f < |mem| && FrameOk(WithPte(mem, s, v, w), owner, f) {
      if owner[f] == Data(s, v) {
        DataIs(mem, owner, f, s, v);
      }
      SetFrame(mem, owner, owner, s, v, w, f);
    }
  }

  // A user page unmapped gives its frame up.
  lemma {:induction false} Unmap(mem: seq<Page>, owner: map<nat, Owner>, s: nat, v: nat)
    requires Tabled(mem, owner, s, v) && v < USERPAGES && Present(Pte(mem, s, v))
    ensures FrameOf(Pte(mem, s, v)) in owner && owner[FrameOf(Pte(mem, s, v))] == Data(s, v)
    ensures Owned(WithPte(mem, s, v, 0), owner - {FrameOf(Pte(mem, s, v))})
  {
    hide FrameOk, FrameOf, SetAt, At;
    PteIs(mem, owner, s, v);
    var g := FrameOf(Pte(mem, s, v));
    forall f | f in owner && owner[f] == Data(s, v) ensures f == g {
      DataIs(mem, owner, f, s, v);
    }
    forall f | f in owner - {g} ensures f < |mem| && FrameOk(WithPte(mem, s, v, 0), owner - {g}, f) {
      SetFrame(mem, owner, owner - {g}, s, v, 0, f);
    }
  }

  // Frames of a directory: itself, its tables and the memory they map.
  ghost predicate Of(o: Owner, f: nat, s: nat) {
    (o.Dir? && f == s) || (o.Table? && o.dir == s) || (o.Data? && o.dir == s)
  }

  ghost function Without(owner: map<nat, Owner>, s: nat): (r: map<nat, Owner>)
    ensures r.Keys <= owner.Keys && forall f :: f in r ==> r[f] == owner[f]
    ensures forall f :: f in owner ==> (f in r <==> !Of(owner[f], f, s))
  {
    map f | f in owner && !Of(owner[f], f, s) :: owner[f]
  }

  // With all frames of a directory given up, the others are in order whatever those now hold.
  lemma {:induction false} DropDir(mem: seq<Page>, mem': seq<Page>, owner: map<nat, Owner>, s: nat)
    requires Owned(mem, owner) && |mem'| == |mem|
    requires forall f :: f in owner && f < |mem| && !Of(owner[f], f, s) ==> mem'[f] == mem[f]
    ensures Owned(mem', Without(owner, s))
    ensures forall r, v: nat :: IsDir(owner, r) && r != s && v / ENTRIES < ENTRIES ==> Pte(mem', r, v) == Pte(mem, r, v)
  {
    hide FrameOk;
    forall r, v: nat | IsDir(owner, r) && r != s && v / ENTRIES < ENTRIES ensures Pte(mem', r, v) == Pte(mem, r, v) {
      DropPte(mem, mem', owner, s, r, v);
    }
    forall f | f in Without(owner, s) ensures f < |mem'| && FrameOk(mem', Without(owner, s), f) {
      DropFrame(mem, mem', owner, s, f);
    }
  }

  lemma {:induction false} DropPte(mem: seq<Page>, mem': seq<Page>, owner: map<nat, Owner>, s: nat, r: nat, v: nat)
    requires Owned(mem, owner) && |mem'| == |mem| && IsDir(owner, r) && r != s && v / ENTRIES < ENTRIES
    requires forall f :: f in owner && f < |mem| && !Of(owner[f], f, s) ==> mem'[f] == mem[f]
    ensures Pte(mem', r, v) == Pte(mem, r, v)
  {
    hide FrameOk;
    assert !Of(owner[r], r, s);
    if Present(At(mem, r, v / ENTRIES)) {
      TableOf(mem, owner, r, v / ENTRIES);
    }
  }

  lemma {:induction false} DropFrame(mem: seq<Page>, mem': seq<Page>, owner: map<nat, Owner>, s: nat, f: nat)
    requires Owned(mem, owner) && |mem'| == |mem| && f in owner && !Of(owner[f], f, s)
    requires forall g :: g in owner && g < |mem| && !Of(owner[g], g, s) ==> mem'[g] == mem[g]
    ensures FrameOk(mem', Without(owner, s), f)
  {
    hide Present, FrameOf;
    var owner' := Without(owner, s);
    assert FrameOk(mem, owner, f);
    match owner[f]
    case Dir =>
      forall d | 0 <= d < ENTRIES ensures PdeOk(mem', owner', f, d) {
        assert PdeOk(mem, owner, f, d);
      }
    case Table(r, d) =>
      assert !Of(owner[r], r, s);
      if d < USERPAGES / ENTRIES {
        forall x | 0 <= x < ENTRIES ensures PteOk(mem', owner', r, d, f, x) {
          assert PteOk(mem, owner, r, d, f, x);
        }
      }
    case Data(r, v) =>
      Indices(v);
      DropPte(mem, mem', owner, s, r, v);
    case Other =>
  }

  // With no user page mapped, a directory's frames are itself and its tables.
  lemma {:induction false} NoData(mem: seq<Page>, owner: map<nat, Owner>, s: nat, f: nat)
    requires Owned(mem, owner) && IsDir(owner, s) && f in owner && Of(owner[f], f, s)
    requires forall v: nat :: v < USERPAGES ==> Pte(mem, s, v) == 0
    ensures owner[f] == Dir || (owner[f].Table? && owner[f].d < ENTRIES && Present(At(mem, s, owner[f].d)) &&
      FrameOf(At(mem, s, owner[f].d)) == f)
  {
    assert FrameOk(mem, owner, f);
  }

  // A new, empty directory.
  lemma {:induction false} AddDir(mem: seq<Page>, mem': seq<Page>, owner: map<nat, Owner>, s: nat)
    requires Owned(mem, owner) && s in owner && owner[s] == Other && |mem'| == |mem| && s < |mem|
    requires mem' == mem[s := ZeroPage()]
    ensures Owned(mem', owner[s := Dir])
    ensures SameMaps(mem, mem', owner) && forall v: nat :: Pte(mem', s, v) == 0
  {
    hide Present, FrameOf;
    var owner' := owner[s := Dir];
    assert SameTables(mem, mem', owner);
    TablesKeep(mem, mem', owner);
    forall r, v: nat | IsDir(owner, r) && v / ENTRIES < ENTRIES ensures Pte(mem', r, v) == Pte(mem, r, v) {
      SamePte(mem, mem', owner, r, v);
    }
    assert forall d :: At(mem', s, d) == 0;
    assert !Present(0) by { ZeroAbsent(); }
    forall f | f in owner' ensures f < |mem'| && FrameOk(mem', owner', f) {
      if f == s {
        assert forall d :: 0 <= d < ENTRIES ==> PdeOk(mem', owner', s, d);
      } else {
        assert FrameOk(mem', owner, f);
        MoreOwner(mem', owner, owner', f);
      }
    }
  }

  lemma {:induction false} ZeroAbsent()
    ensures !Present(0)
  {
  }

  // A frame stays in order when frames outside the page tables change hands.
  lemma {:induction false} MoreOwner(mem: seq<Page>, owner: map<nat, Owner>, owner': map<nat, Owner>, f: nat)
    requires f in owner && f in owner' && owner'[f] == owner[f] && FrameOk(mem, owner, f)
    requires forall g :: g in owner && owner[g] != Other ==> g in owner' && owner'[g] == owner[g]
    ensures FrameOk(mem, owner', f)
  {
    hide Present, FrameOf, At, Pte;
    match owner[f]
    case Dir =>
      forall d | 0 <= d < ENTRIES ensures PdeOk(mem, owner', f, d) {
        assert PdeOk(mem, owner, f, d);
      }
    case Table(s, d) =>
      if d < USERPAGES / ENTRIES {
        forall x | 0 <= x < ENTRIES ensures PteOk(mem, owner', s, d, f, x) {
          assert PteOk(mem, owner, s, d, f, x);
        }
      }
    case Data(s, v) =>
    case Other =>
  }

  // Frames handed to or taken from others leave the page tables in order.
  lemma {:induction false} OtherFrames(mem: seq<Page>, owner: map<nat, Owner>, owner': map<nat, Owner>)
    requires Owned(mem, owner) && forall f :: f in owner' ==>
      f < |mem| && (owner'[f] == Other || (f in owner && owner'[f] == owner[f]))
    requires forall g :: g in owner && owner[g] != Other ==> g in owner' && owner'[g] == owner[g]
    ensures Owned(mem, owner')
  {
    hide FrameOk;
    forall f | f in owner' ensures f < |mem| && FrameOk(mem, owner', f) {
      if owner'[f] == Other {
        OtherOk(mem, owner', f);
      } else {
        MoreOwner(mem, owner, owner', f);
      }
    }
  }

  lemma {:induction false} OtherOk(mem: seq<Page>, owner: map<nat, Owner>, f: nat)
    requires f in owner && owner[f] == Other
    ensures FrameOk(mem, owner, f)
  {
  }

  // The free list of kalloc.c, threaded through the first word of the free frames.

  const KERNBASE := 0x8000_0000

  // The kernel address of the i-th free frame, NULL past the last.
  function Link(free: seq<nat>, i: nat): (a: int) {
    if i < |free| then KERNBASE + PGSIZE * free[i] else 0
  }

  ghost predicate FreeList(mem: seq<Page>, head: Word, free: seq<nat>) {
    && head == Link(free, 0)
    && (forall i :: 0 <= i < |free| ==> free[i] < |mem| && At(mem, free[i], 0) == Link(free, i + 1))
    && (forall i, j :: 0 <= i < j < |free| ==> free[i] != free[j])
  }

  lemma {:induction false} LinkShift(f: nat, free: seq<nat>, i: nat)
    ensures Link([f] + free, i + 1) == Link(free, i)
  {
  }

  lemma {:induction false} PopFree(mem: seq<Page>, head: Word, free: seq<nat>)
    requires FreeList(mem, head, free) && free != []
    ensures free[0] < |mem| && FreeList(mem, At(mem, free[0], 0), free[1..]) && free[0] !in free[1..]
    ensures forall f :: f in free <==> f == free[0] || f in free[1..]
  {
    assert free == [free[0]] + free[1..];
    var rest := free[1..];
    LinkShift(free[0], rest, 0);
    forall i | 0 <= i < |rest| ensures rest[i] < |mem| && At(mem, rest[i], 0) == Link(rest, i + 1) {
      LinkShift(free[0], rest, i + 1);
      assert rest[i] == free[i + 1];
    }
  }

  lemma {:induction false} PushFree(mem: seq<Page>, mem': seq<Page>, head: Word, free: seq<nat>, f: nat)
    requires FreeList(mem, head, free) && f !in free && f < |mem| == |mem'| && KERNBASE + PGSIZE * f < 0x1_0000_0000
    requires forall g :: 0 <= g < |mem| && g != f ==> mem'[g] == mem[g]
    requires At(mem', f, 0) == head
    ensures FreeList(mem', KERNBASE + PGSIZE * f, [f] + free)
  {
    var free' := [f] + free;
    forall i | 0 <= i < |free'| ensures free'[i] < |mem'| && At(mem', free'[i], 0) == Link(free', i + 1) {
      LinkShift(f, free, i);
      if i > 0 {
        assert free'[i] == free[i - 1] && free[i - 1] in free;
      }
    }
  }

  lemma {:induction false} SameFree(mem: seq<Page>, mem': seq<Page>, head: Word, free: seq<nat>)
    requires FreeList(mem, head, free) && |mem'| == |mem| && forall f :: f in free && f < |mem| ==> mem'[f] == mem[f]
    ensures FreeList(mem', head, free)
  {
  }
}
