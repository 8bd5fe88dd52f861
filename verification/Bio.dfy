// The buffer cache of bio.c over the in-memory disk of memide.c.
module Bio {
  import opened Blocks

  const NBUF := 30
  const ROOTDEV := 1

  // struct buf: dev is 0 until the buffer is first used; B_VALID and B_DIRTY are two booleans.
  datatype Buf = Buf(dev: nat, blockno: nat, valid: bool, dirty: bool, refcnt: nat, data: Block)

  // One disk write, in the order the disk sees them.
  datatype Write = Write(blockno: nat, data: Block)

  predicate Caches(b: Buf, blockno: nat) {
    b.dev == ROOTDEV && b.blockno == blockno
  }

  predicate Recyclable(b: Buf) {
    b.refcnt == 0 && !b.dirty
  }

  ghost predicate Unique(bufs: seq<Buf>) {
    forall i, j, n :: 0 <= i < |bufs| && 0 <= j < |bufs| && Caches(bufs[i], n) && Caches(bufs[j], n) ==> i == j
  }

  // Buffers bget may recycle.
  ghost predicate HasFree(bufs: seq<Buf>) {
    exists i: nat :: i < |bufs| && Recyclable(bufs[i])
  }

  ghost predicate TwoFree(bufs: seq<Buf>) {
    exists i: nat, j: nat :: i < j < |bufs| && Recyclable(bufs[i]) && Recyclable(bufs[j])
  }

  ghost predicate StayFree(bufs: seq<Buf>, bufs': seq<Buf>) {
    |bufs| == |bufs'| && forall i: nat :: i < |bufs| && Recyclable(bufs[i]) ==> Recyclable(bufs'[i])
  }

  // When bget panics: the block is not cached and every buffer is held or dirty.
  ghost predicate NoBuffer(bufs: seq<Buf>, n: nat) {
    forall j: nat :: j < |bufs| ==> !Caches(bufs[j], n) && !Recyclable(bufs[j])
  }

  lemma {:induction false} StayFreeOn(a: seq<Buf>, b: seq<Buf>, c: seq<Buf>)
    requires StayFree(a, b) && StayFree(b, c)
    ensures StayFree(a, c)
    ensures (HasFree(a) ==> HasFree(c)) && (TwoFree(a) ==> TwoFree(c))
  {
  }

  // Index of the buffer that caches a block, or |bufs|.
  ghost function Find(bufs: seq<Buf>, blockno: nat): (i: nat)
    ensures i <= |bufs|
    ensures i < |bufs| ==> Caches(bufs[i], blockno)
    ensures i == |bufs| ==> forall j :: 0 <= j < |bufs| ==> !Caches(bufs[j], blockno)
  {
    if bufs == [] then 0
    else if Caches(bufs[0], blockno) then 0
    else 1 + Find(bufs[1..], blockno)
  }

  // What a reader that locks the block sees: the cached copy if there is one, else the disk.
  ghost function View(bufs: seq<Buf>, disk: Disk, n: nat): Block
    requires n < |disk|
  {
    var i := Find(bufs, n);
    if i < |bufs| && bufs[i].valid then bufs[i].data else disk[n]
  }

  ghost predicate Permutation(mru: seq<nat>) {
    && |mru| == NBUF
    && (forall i :: 0 <= i < NBUF ==> mru[i] < NBUF)
    && (forall i, j :: 0 <= i < j < NBUF ==> mru[i] != mru[j])
    && (forall v :: 0 <= v < NBUF ==> v in mru)
  }

  // A clean valid buffer holds what the disk holds, unless its holder is just now changing it.
  ghost predicate Coherent(bufs: seq<Buf>, disk: Disk, hot: set<nat>) {
    forall i :: 0 <= i < |bufs| && i !in hot && bufs[i].dev == ROOTDEV && bufs[i].valid && !bufs[i].dirty ==>
      bufs[i].blockno < |disk| && bufs[i].data == disk[bufs[i].blockno]
  }

  lemma {:induction false} ViewOf(bufs: seq<Buf>, disk: Disk, i: nat)
    requires Unique(bufs) && i < |bufs| && bufs[i].dev == ROOTDEV && bufs[i].blockno < |disk|
    ensures Find(bufs, bufs[i].blockno) == i
    ensures View(bufs, disk, bufs[i].blockno) == if bufs[i].valid then bufs[i].data else disk[bufs[i].blockno]
  {
    assert Caches(bufs[i], bufs[i].blockno);
  }

  lemma {:induction false} ViewUncached(bufs: seq<Buf>, disk: Disk, n: nat)
    requires n < |disk| && forall j :: 0 <= j < |bufs| ==> !Caches(bufs[j], n)
    ensures View(bufs, disk, n) == disk[n]
  {
  }

  ghost function Views(bufs: seq<Buf>, disk: Disk): (v: Disk)
    ensures |v| == |disk|
  {
    seq(|disk|, n requires 0 <= n < |disk| => View(bufs, disk, n))
  }

  ghost function DirtyBlocks(bufs: seq<Buf>): set<nat> {
    set i | 0 <= i < |bufs| && bufs[i].dirty :: bufs[i].blockno
  }

  ghost function NumDirty(bufs: seq<Buf>): nat {
    if bufs == [] then 0 else NumDirty(bufs[..|bufs| - 1]) + if bufs[|bufs| - 1].dirty then 1 else 0
  }

  // With one buffer per block there are as many dirty blocks as dirty buffers.
  lemma {:induction false} DirtyCount(bufs: seq<Buf>)
    requires Unique(bufs) && forall i :: 0 <= i < |bufs| && bufs[i].dirty ==> bufs[i].dev == ROOTDEV
    ensures |DirtyBlocks(bufs)| == NumDirty(bufs) <= |bufs|
    ensures NumDirty(bufs) == |bufs| <==> forall i: nat :: i < |bufs| ==> bufs[i].dirty
  {
    if bufs != [] {
      var a, b := bufs[..|bufs| - 1], bufs[|bufs| - 1];
      DirtyCount(a);
      DirtySnoc(a, b);
      assert a + [b] == bufs;
      if b.dirty {
        assert b.blockno !in DirtyBlocks(a) by {
          assert forall i :: 0 <= i < |a| ==> a[i] == bufs[i];
          assert Caches(bufs[|a|], b.blockno);
          assert forall i :: 0 <= i < |a| ==> !Caches(bufs[i], b.blockno);
        }
      }
    } else {
      assert DirtyBlocks(bufs) == {};
    }
  }

  lemma {:induction false} DirtySnoc(a: seq<Buf>, b: Buf)
    ensures DirtyBlocks(a + [b]) == DirtyBlocks(a) + if b.dirty then {b.blockno} else {}
  {
    forall n | n in DirtyBlocks(a) ensures n in DirtyBlocks(a + [b]) {
      var i :| 0 <= i < |a| && a[i].dirty && a[i].blockno == n;
      assert (a + [b])[i] == a[i];
    }
    assert (a + [b])[|a|] == b;
  }

  // Two buffer arrays that agree on a block give the same view of it.
  lemma {:induction false} ViewSame(bufs: seq<Buf>, bufs': seq<Buf>, disk: Disk, disk': Disk, n: nat)
    requires |bufs| == |bufs'| && n < |disk| == |disk'| && disk[n] == disk'[n]
    requires Unique(bufs) && Unique(bufs')
    requires forall i :: 0 <= i < |bufs| ==>
      (Caches(bufs[i], n) <==> Caches(bufs'[i], n)) &&
      (Caches(bufs[i], n) ==> bufs[i].valid == bufs'[i].valid && bufs[i].data == bufs'[i].data)
    ensures View(bufs, disk, n) == View(bufs', disk', n)
  {
  }

  // Overwriting a buffer keeps one buffer per block when the new block is its own old one or uncached.
  lemma {:induction false} UpdateKeepsUnique(bufs: seq<Buf>, i: nat, b: Buf)
    requires Unique(bufs) && i < |bufs| && b.dev == ROOTDEV
    requires Caches(bufs[i], b.blockno) || forall j :: 0 <= j < |bufs| ==> !Caches(bufs[j], b.blockno)
    ensures Unique(bufs[i := b])
  {
  }

  // Sequences of disk writes.

  ghost predicate InRange(ws: seq<Write>, size: nat) {
    forall i :: 0 <= i < |ws| ==> ws[i].blockno < size
  }

  ghost function Apply(d: Disk, ws: seq<Write>): (r: Disk)
    requires InRange(ws, |d|)
    ensures |r| == |d|
  {
    if ws == [] then d else Apply(d, ws[..|ws| - 1])[ws[|ws| - 1].blockno := ws[|ws| - 1].data]
  }

  lemma {:induction false} ApplyStep(d: Disk, ws: seq<Write>, k: nat)
    requires InRange(ws, |d|) && k < |ws|
    ensures Apply(d, ws[..k + 1]) == Apply(d, ws[..k])[ws[k].blockno := ws[k].data]
  {
    assert ws[..k + 1][..k] == ws[..k];
  }

  lemma {:induction false} ApplyElsewhere(d: Disk, ws: seq<Write>, b: nat)
    requires InRange(ws, |d|) && b < |d| && forall i :: 0 <= i < |ws| ==> ws[i].blockno != b
    ensures Apply(d, ws)[b] == d[b]
  {
    if ws != [] {
      ApplyElsewhere(d, ws[..|ws| - 1], b);
    }
  }

  // All that the layers above see of a cache: disk, readers' view, write history, pinned blocks.
  datatype Snapshot = Snapshot(disk: Disk, logical: Disk, writes: seq<Write>, pinned: set<nat>)

  ghost function Targets(ws: seq<Write>): set<nat> {
    set i | 0 <= i < |ws| :: ws[i].blockno
  }

  // The effect of writing one block through the cache.
  ghost function Put(s: Snapshot, w: Write): Snapshot
    requires w.blockno < |s.disk| == |s.logical|
  {
    Snapshot(s.disk[w.blockno := w.data], s.logical[w.blockno := w.data], s.writes + [w], s.pinned - {w.blockno})
  }

  // The effect of writing blocks through the cache, one after the other.
  ghost function PutAll(s: Snapshot, ws: seq<Write>): Snapshot
    requires InRange(ws, |s.disk|) && |s.logical| == |s.disk|
  {
    Snapshot(Apply(s.disk, ws), Apply(s.logical, ws), s.writes + ws, s.pinned - Targets(ws))
  }

  lemma {:induction false} ApplyConcat(d: Disk, a: seq<Write>, b: seq<Write>)
    requires InRange(a, |d|) && InRange(b, |d|)
    ensures InRange(a + b, |d|)
    ensures Apply(d, a + b) == Apply(Apply(d, a), b)
  {
    if b == [] {
      assert a + b == a;
    } else {
      ApplyConcat(d, a, b[..|b| - 1]);
      assert (a + b)[..|a + b| - 1] == a + b[..|b| - 1];
    }
  }

  lemma {:induction false} TargetsConcat(a: seq<Write>, b: seq<Write>)
    ensures Targets(a + b) == Targets(a) + Targets(b)
  {
    forall t | t in Targets(a) + Targets(b) ensures t in Targets(a + b) {
      if t in Targets(a) {
        var i :| 0 <= i < |a| && a[i].blockno == t;
        assert (a + b)[i].blockno == t;
      } else {
        var i :| 0 <= i < |b| && b[i].blockno == t;
        assert (a + b)[|a| + i].blockno == t;
      }
    }
  }

  lemma {:induction false} PutAllNone(s: Snapshot)
    requires |s.logical| == |s.disk|
    ensures PutAll(s, []) == s
  {
  }

  lemma {:induction false} PutAllStep(s: Snapshot, ws: seq<Write>, k: nat)
    requires InRange(ws, |s.disk|) && |s.logical| == |s.disk| && k < |ws|
    ensures PutAll(s, ws[..k + 1]) == Put(PutAll(s, ws[..k]), ws[k])
  {
    ApplyStep(s.disk, ws, k);
    ApplyStep(s.logical, ws, k);
    assert ws[..k + 1] == ws[..k] + [ws[k]];
    TargetsConcat(ws[..k], [ws[k]]);
    assert Targets([ws[k]]) == {ws[k].blockno} by { assert [ws[k]][0] == ws[k]; }
    assert s.writes + ws[..k + 1] == s.writes + ws[..k] + [ws[k]];
  }

  // Writing two runs of blocks one after the other is writing their concatenation.
  lemma {:induction false} PutAllConcat(s: Snapshot, a: seq<Write>, b: seq<Write>)
    requires InRange(a, |s.disk|) && InRange(b, |s.disk|) && |s.logical| == |s.disk|
    ensures InRange(a + b, |s.disk|)
    ensures PutAll(PutAll(s, a), b) == PutAll(s, a + b)
  {
    ApplyConcat(s.disk, a, b);
    ApplyConcat(s.logical, a, b);
    TargetsConcat(a, b);
    assert s.writes + a + b == s.writes + (a + b);
  }

  class BufferCache {
    const buf: array<Buf>
    var mru: seq<nat>                 // bcache.head list, most recently used first
    var disk: Disk
    ghost var writes: seq<Write>      // every disk write so far

    ghost predicate Inv(hot: set<nat>)
      reads this, buf
    {
      && buf.Length == NBUF
      && Permutation(mru)
      && Unique(buf[..])
      && Coherent(buf[..], disk, hot)
      && (forall i :: 0 <= i < NBUF && buf[i].dirty ==> buf[i].dev == ROOTDEV && buf[i].valid)
    }

    // The content every block has for its readers.
    ghost function Logical(): (v: Disk)
      reads this, buf
      ensures |v| == |disk|
    {
      Views(buf[..], disk)
    }

    // The blocks pinned by B_DIRTY.
    ghost function Pinned(): set<nat>
      reads buf
    {
      DirtyBlocks(buf[..])
    }

    ghost function Snap(): (s: Snapshot)
      reads this, buf
      ensures |s.logical| == |s.disk|
    {
      Snapshot(disk, Logical(), writes, Pinned())
    }

    // binit: every buffer unused, the list holding the last one first.
    constructor (d: Disk)
      ensures Inv({}) && fresh(buf) && disk == d && writes == []
      ensures forall i :: 0 <= i < NBUF ==> buf[i].refcnt == 0 && !buf[i].dirty && buf[i].dev == 0
    {
      buf := new Buf[NBUF](_ => Buf(0, 0, false, false, 0, ZeroBlock));
      disk, writes := d, [];
      mru := seq(NBUF, i requires 0 <= i < NBUF => NBUF - 1 - i);
      new;
      forall v | 0 <= v < NBUF ensures v in mru { assert mru[NBUF - 1 - v] == v; }
    }

    // bget: the buffer that caches the block, or else the least recently used clean unreferenced one.
    // !ok is the panic "no buffers".
    method Bget(n: nat) returns (ok: bool, i: nat)
      requires Inv({})
      modifies buf
      ensures Inv({})
      ensures ok ==> i < NBUF && Caches(buf[i], n) && buf[i].refcnt > 0
      ensures ok ==> forall j :: 0 <= j < NBUF && j != i ==> buf[j] == old(buf[j])
      ensures ok && Caches(old(buf[i]), n) ==> buf[i] == old(buf[i]).(refcnt := old(buf[i]).refcnt + 1)
      ensures ok && !Caches(old(buf[i]), n) ==>
        && buf[i] == Buf(ROOTDEV, n, false, false, 1, old(buf[i]).data)
        && (forall j :: 0 <= j < NBUF ==> !Caches(old(buf[j]), n))
        && Recyclable(old(buf[i]))
        && (exists k :: 0 <= k < NBUF && mru[k] == i && forall l :: k < l < NBUF ==> !Recyclable(old(buf[mru[l]])))
      ensures !ok <==> NoBuffer(old(buf[..]), n)
      ensures !ok ==> buf[..] == old(buf[..])
    {
      i := Cached(n);
      if i < NBUF {
        buf[i] := buf[i].(refcnt := buf[i].refcnt + 1);
        UpdateKeepsUnique(old(buf[..]), i, buf[i]);
        return true, i;
      }
      ghost var k;
      i, k := Victim();
      if i < NBUF {
        buf[i] := Buf(ROOTDEV, n, false, false, 1, buf[i].data);
        UpdateKeepsUnique(old(buf[..]), i, buf[i]);
        return true, i;
      }
      return false, 0;
    }

    // The first scan of bget, from the most recently used end.
    method Cached(n: nat) returns (i: nat)
      requires Inv({})
      ensures i <= NBUF
      ensures i < NBUF ==> Caches(buf[i], n)
      ensures i == NBUF ==> forall j :: 0 <= j < NBUF ==> !Caches(buf[j], n)
    {
      var k := 0;
      while k < NBUF
        invariant k <= NBUF
        invariant forall l :: 0 <= l < k ==> !Caches(buf[mru[l]], n)
      {
        if Caches(buf[mru[k]], n) {
          return mru[k];
        }
        k := k + 1;
      }
      assert forall j :: 0 <= j < NBUF ==> j in mru && !Caches(buf[j], n);
      return NBUF;
    }

    // The second scan of bget, from the least recently used end.
    method Victim() returns (i: nat, ghost k: nat)
      requires Inv({})
      ensures i <= NBUF
      ensures i < NBUF ==> Recyclable(buf[i]) && k < NBUF && mru[k] == i
      ensures i < NBUF ==> forall l :: k < l < NBUF ==> !Recyclable(buf[mru[l]])
      ensures i == NBUF ==> forall j :: 0 <= j < NBUF ==> !Recyclable(buf[j])
    {
      var l := NBUF;
      while l > 0
        invariant 0 <= l <= NBUF
        invariant forall m :: l <= m < NBUF ==> !Recyclable(buf[mru[m]])
      {
        l := l - 1;
        if Recyclable(buf[mru[l]]) {
          return mru[l], l;
        }
      }
      assert forall j :: 0 <= j < NBUF ==> j in mru && !Recyclable(buf[j]);
      return NBUF, 0;
    }

    // bread: a locked buffer holding the current content of the block.
    method Bread(n: nat) returns (ok: bool, i: nat)
      requires Inv({}) && n < |disk|
      modifies buf
      ensures Inv({}) && Logical() == old(Logical()) && Pinned() == old(Pinned())
      ensures ok ==> i < NBUF && Caches(buf[i], n) && buf[i].valid && buf[i].data == Logical()[n]
      ensures ok ==> buf[i].refcnt == old(buf[i].refcnt) + 1 && buf[i].dirty == old(buf[i].dirty)
      ensures ok ==> Caches(old(buf[i]), n) || Recyclable(old(buf[i]))
      ensures ok ==> forall j :: 0 <= j < NBUF && j != i ==> buf[j] == old(buf[j])
      ensures !ok <==> NoBuffer(old(buf[..]), n)
      ensures !ok ==> buf[..] == old(buf[..])
    {
      ok, i := Bget(n);
      if !ok {
        return;
      }
      if !buf[i].valid {
        buf[i] := buf[i].(data := disk[n], dirty := false, valid := true);
      }
      FillKeepsViews(old(buf[..]), buf[..], disk, i, n);
    }

    // The holder of a buffer overwrites its data; the change is not yet known to disk or log.
    method Store(i: nat, x: Block)
      requires i < buf.Length && Inv({}) && buf[i].refcnt > 0
      modifies buf
      ensures Inv({i})
      ensures buf[..] == old(buf[..])[i := old(buf[i]).(data := x)]
      ensures Pinned() == old(Pinned())
      ensures buf[i].dev == ROOTDEV && buf[i].valid && buf[i].blockno < |disk| ==>
        Logical() == old(Logical())[buf[i].blockno := x]
    {
      buf[i] := buf[i].(data := x);
      DirtySame(old(buf[..]), buf[..]);
      if buf[i].dev == ROOTDEV && buf[i].valid && buf[i].blockno < |disk| {
        ViewOf(buf[..], disk, i);
        forall m | 0 <= m < |disk| && m != buf[i].blockno
          ensures View(buf[..], disk, m) == old(View(buf[..], disk, m))
        {
          ViewSame(old(buf[..]), buf[..], disk, disk, m);
        }
      }
    }

    // log_write's B_DIRTY: the holder's change is now pinned in the cache.
    method MarkDirty(i: nat)
      requires i < buf.Length && Inv({i}) && buf[i].dev == ROOTDEV && buf[i].valid
      modifies buf
      ensures Inv({}) && Logical() == old(Logical()) && Pinned() == old(Pinned()) + {buf[i].blockno}
      ensures buf[..] == old(buf[..])[i := old(buf[i]).(dirty := true)]
    {
      buf[i] := buf[i].(dirty := true);
      forall m | 0 <= m < |disk| ensures View(buf[..], disk, m) == old(View(buf[..], disk, m)) {
        ViewSame(old(buf[..]), buf[..], disk, disk, m);
      }
      DirtyAdd(old(buf[..]), buf[..], i);
    }

    // bwrite with memide's iderw: the block reaches the disk and the buffer is clean again.
    method Bwrite(i: nat)
      requires i < buf.Length && Inv({i}) && buf[i].dev == ROOTDEV && buf[i].refcnt > 0 && buf[i].blockno < |disk|
      modifies buf, this`disk, this`writes
      ensures Inv({})
      ensures buf[..] == old(buf[..])[i := old(buf[i]).(dirty := false, valid := true)]
      ensures writes == old(writes) + [Write(buf[i].blockno, buf[i].data)]
      ensures disk == old(disk)[buf[i].blockno := buf[i].data]
      ensures Logical() == old(Logical())[buf[i].blockno := buf[i].data]
      ensures Pinned() == old(Pinned()) - {buf[i].blockno}
    {
      buf[i] := buf[i].(dirty := true);
      // iderw: the dirty flag is cleared, the data copied out, the valid flag set.
      buf[i] := buf[i].(dirty := false);
      disk := disk[buf[i].blockno := buf[i].data];
      writes := writes + [Write(buf[i].blockno, buf[i].data)];
      buf[i] := buf[i].(valid := true);
      ViewOf(buf[..], disk, i);
      forall m | 0 <= m < |disk| && m != buf[i].blockno
        ensures View(buf[..], disk, m) == old(View(buf[..], disk, m))
      {
        ViewSame(old(buf[..]), buf[..], old(disk), disk, m);
      }
      DirtyDrop(old(buf[..]), buf[..], i);
    }

    // brelse: drop the reference; the last one moves the buffer to the front of the list.
    method Brelse(i: nat)
      requires i < buf.Length && Inv({}) && buf[i].refcnt > 0
      modifies buf, this`mru
      ensures Inv({}) && Logical() == old(Logical()) && Pinned() == old(Pinned())
      ensures buf[..] == old(buf[..])[i := old(buf[i]).(refcnt := old(buf[i]).refcnt - 1)]
      ensures buf[i].refcnt > 0 ==> mru == old(mru)
      ensures buf[i].refcnt == 0 ==>
        exists k :: 0 <= k < NBUF && old(mru)[k] == i && mru == [i] + old(mru)[..k] + old(mru)[k + 1..]
    {
      buf[i] := buf[i].(refcnt := buf[i].refcnt - 1);
      if buf[i].refcnt == 0 {
        assert i in mru;
        var k :| 0 <= k < NBUF && mru[k] == i;
        mru := [i] + mru[..k] + mru[k + 1..];
        MoveToFront(old(mru), k);
      }
      forall m | 0 <= m < |disk| ensures View(buf[..], disk, m) == old(View(buf[..], disk, m)) {
        ViewSame(old(buf[..]), buf[..], disk, disk, m);
      }
      DirtySame(old(buf[..]), buf[..]);
    }
  }

  // Reading a block into its own or a recyclable buffer changes nobody's view.
  lemma {:induction false} FillKeepsViews(bufs: seq<Buf>, bufs': seq<Buf>, disk: Disk, i: nat, n: nat)
    requires |bufs| == |bufs'| && i < |bufs| && n < |disk|
    requires Unique(bufs) && Unique(bufs') && Coherent(bufs, disk, {})
    requires forall j :: 0 <= j < |bufs| && j != i ==> bufs'[j] == bufs[j]
    requires Caches(bufs'[i], n) && bufs'[i].valid && bufs'[i].dirty == bufs[i].dirty
    requires if Caches(bufs[i], n) then bufs[i].valid || !bufs[i].dirty
      else Recyclable(bufs[i]) && forall j :: 0 <= j < |bufs| ==> !Caches(bufs[j], n)
    requires bufs'[i].data == if Caches(bufs[i], n) && bufs[i].valid then bufs[i].data else disk[n]
    ensures Views(bufs', disk) == Views(bufs, disk)
    ensures DirtyBlocks(bufs') == DirtyBlocks(bufs)
    ensures bufs'[i].data == Views(bufs, disk)[n]
  {
    assert View(bufs', disk, n) == View(bufs, disk, n) == bufs'[i].data by {
      ViewOf(bufs', disk, i);
      if Caches(bufs[i], n) { ViewOf(bufs, disk, i); } else { ViewUncached(bufs, disk, n); }
    }
    forall m | 0 <= m < |disk| && m != n ensures View(bufs', disk, m) == View(bufs, disk, m) {
      if Caches(bufs[i], m) {
        ViewOf(bufs, disk, i);
        ViewUncached(bufs', disk, m);
      } else {
        ViewSame(bufs, bufs', disk, disk, m);
      }
    }
    DirtySame(bufs, bufs');
  }

  lemma {:induction false} DirtySame(bufs: seq<Buf>, bufs': seq<Buf>)
    requires |bufs| == |bufs'|
    requires forall j :: 0 <= j < |bufs| ==>
      bufs'[j].dirty == bufs[j].dirty && (bufs[j].dirty ==> bufs'[j].blockno == bufs[j].blockno)
    ensures DirtyBlocks(bufs') == DirtyBlocks(bufs)
  {
    forall b | b in DirtyBlocks(bufs) ensures b in DirtyBlocks(bufs') {
      var j :| 0 <= j < |bufs| && bufs[j].dirty && bufs[j].blockno == b;
      assert bufs'[j].dirty && bufs'[j].blockno == b;
    }
    forall b | b in DirtyBlocks(bufs') ensures b in DirtyBlocks(bufs) {
      var j :| 0 <= j < |bufs| && bufs'[j].dirty && bufs'[j].blockno == b;
      assert bufs[j].dirty && bufs[j].blockno == b;
    }
  }

  lemma {:induction false} DirtyDrop(bufs: seq<Buf>, bufs': seq<Buf>, i: nat)
    requires i < |bufs| && bufs[i].dev == ROOTDEV && Unique(bufs)
    requires bufs' == bufs[i := bufs[i].(dirty := false, valid := true)]
    requires forall j :: 0 <= j < |bufs| && bufs[j].dirty ==> bufs[j].dev == ROOTDEV
    ensures DirtyBlocks(bufs') == DirtyBlocks(bufs) - {bufs[i].blockno}
  {
    forall b | b in DirtyBlocks(bufs) && b != bufs[i].blockno ensures b in DirtyBlocks(bufs') {
      var j :| 0 <= j < |bufs| && bufs[j].dirty && bufs[j].blockno == b;
      assert bufs'[j].dirty && bufs'[j].blockno == b;
    }
    forall b | b in DirtyBlocks(bufs') ensures b in DirtyBlocks(bufs) && b != bufs[i].blockno {
      var j :| 0 <= j < |bufs| && bufs'[j].dirty && bufs'[j].blockno == b;
      assert bufs[j] == bufs'[j] && Caches(bufs[j], b) && !Caches(bufs[i], b);
    }
  }

  lemma {:induction false} DirtyAdd(bufs: seq<Buf>, bufs': seq<Buf>, i: nat)
    requires i < |bufs| && bufs' == bufs[i := bufs[i].(dirty := true)]
    ensures DirtyBlocks(bufs') == DirtyBlocks(bufs) + {bufs[i].blockno}
  {
    forall b | b in DirtyBlocks(bufs) ensures b in DirtyBlocks(bufs') {
      var j :| 0 <= j < |bufs| && bufs[j].dirty && bufs[j].blockno == b;
      assert bufs'[j].dirty && bufs'[j].blockno == b;
    }
    assert bufs'[i].dirty;
  }

  lemma {:induction false} MoveToFront(mru: seq<nat>, k: nat)
    requires Permutation(mru) && k < NBUF
    ensures Permutation([mru[k]] + mru[..k] + mru[k + 1..])
  {
    var r := [mru[k]] + mru[..k] + mru[k + 1..];
    forall v | 0 <= v < NBUF ensures v in r {
      assert v in mru;
      var j :| 0 <= j < NBUF && mru[j] == v;
      if j < k { assert r[j + 1] == v; } else if j == k { assert r[0] == v; } else { assert r[j] == v; }
    }
  }
}
