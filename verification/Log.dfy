// log.c: the in-memory log, its copy loops and the operations that bracket a file-system call.
module Log {
  import opened Basics
  import opened Blocks
  import opened Bio
  import opened RedoLog

  // The header after write_head's loop has stored n and the first k block numbers.
  method FillHead(hb: Block, block: array<nat>, n: nat) returns (r: Block)
    requires n <= block.Length == LOGSIZE && forall i :: 0 <= i < n ==> block[i] < 0x1_0000_0000
    ensures r == PutHead(hb, block[..n])
  {
    r := SetWord(hb, 0, n);
    var i := 0;
    while i < n
      invariant i <= n
      invariant r == PutWords(SetWord(hb, 0, n), 1, block[..n], i)
    {
      r := SetWord(r, 1 + i, block[i]);
      i := i + 1;
    }
  }

  // Two blocks in a row can be held: one is pinned in the cache already, or two buffers are free.
  ghost predicate CanHold(bufs: seq<Buf>, second: nat) {
    (HasFree(bufs) && second in DirtyBlocks(bufs)) || TwoFree(bufs)
  }

  // bread of two blocks, one after the other.
  method ReadBoth(cache: BufferCache, a: nat, b: nat) returns (ok: bool, i: nat, j: nat)
    requires cache.Inv({}) && a < |cache.disk| && b < |cache.disk| && a != b
    modifies cache.buf
    ensures cache.Inv({}) && cache.Snap() == old(cache.Snap())
    ensures ok ==> i < NBUF && j < NBUF && i != j && Caches(cache.buf[i], a) && Caches(cache.buf[j], b)
    ensures ok ==> cache.buf[i].valid && cache.buf[j].valid
    ensures ok ==> cache.buf[i].data == cache.Logical()[a] && cache.buf[j].data == cache.Logical()[b]
    ensures ok ==> forall m :: 0 <= m < NBUF ==> cache.buf[m].dirty == old(cache.buf[m].dirty)
    ensures ok ==>
      forall m :: 0 <= m < NBUF ==> cache.buf[m].refcnt == old(cache.buf[m].refcnt) + if m == i || m == j then 1 else 0
    ensures CanHold(old(cache.buf[..]), b) ==> ok
    ensures NoBuffer(old(cache.buf[..]), a) ==> !ok
  {
    hide Unique, Coherent, Permutation, Views, DirtyBlocks, CanHold, NoBuffer;
    i, j := 0, 0;
    ok, i := cache.Bread(a);
    FirstHeld(old(cache.buf[..]), a, b);
    if ok {
      StillHolds(old(cache.buf[..]), cache.buf[..], a, b, i);
      ok, j := cache.Bread(b);
    }
  }

  lemma {:induction false} FirstHeld(bufs: seq<Buf>, a: nat, b: nat)
    ensures CanHold(bufs, b) ==> !NoBuffer(bufs, a)
  {
  }

  lemma {:induction false} StillHolds(bufs: seq<Buf>, bufs': seq<Buf>, a: nat, b: nat, i: nat)
    requires |bufs| == |bufs'| && i < |bufs| && a != b && Caches(bufs'[i], a)
    requires Caches(bufs[i], a) || Recyclable(bufs[i])
    requires forall j :: 0 <= j < |bufs| && j != i ==> bufs'[j] == bufs[j]
    requires forall j :: 0 <= j < |bufs| && bufs[j].dirty ==> bufs[j].dev == ROOTDEV
    ensures CanHold(bufs, b) ==> !NoBuffer(bufs', b)
  {
    if HasFree(bufs) && b in DirtyBlocks(bufs) {
      var s :| 0 <= s < |bufs| && bufs[s].dirty && bufs[s].blockno == b;
      assert Caches(bufs'[s], b);
    } else if TwoFree(bufs) {
      var x: nat, y: nat :| x < y < |bufs| && Recyclable(bufs[x]) && Recyclable(bufs[y]);
      assert Recyclable(bufs'[if x == i then y else x]);
    }
  }

  // The body shared by both copy loops: bread the log block and the home block, memmove from one to
  // the other, bwrite, release. !ok is bget's panic.
  method CopyBlock(cache: BufferCache, logged: nat, home: nat, install: bool) returns (ok: bool)
    requires cache.Inv({}) && logged < |cache.disk| && home < |cache.disk| && logged != home
    modifies cache, cache.buf
    ensures cache.Inv({})
    ensures !ok ==> cache.Snap() == old(cache.Snap())
    ensures ok && install ==> cache.Snap() == Put(old(cache.Snap()), Write(home, old(cache.Logical())[logged]))
    ensures ok && !install ==> cache.Snap() == Put(old(cache.Snap()), Write(logged, old(cache.Logical())[home]))
    ensures ok ==> StayFree(old(cache.buf[..]), cache.buf[..])
    ensures CanHold(old(cache.buf[..]), home) ==> ok
    ensures NoBuffer(old(cache.buf[..]), logged) ==> !ok
  {
    hide Unique, Coherent, Permutation, Views, DirtyBlocks, CanHold, NoBuffer, TwoFree, HasFree;
    var l, h;
    ok, l, h := ReadBoth(cache, logged, home);
    if ok {
      var from, dst := if install then l else h, if install then h else l;
      cache.Store(dst, cache.buf[from].data);
      cache.Bwrite(dst);
      cache.Brelse(from);
      cache.Brelse(dst);
    }
  }

  // The cache has the buffers that copying these blocks needs.
  ghost predicate Ready(bufs: seq<Buf>, bs: seq<nat>) {
    (HasFree(bufs) && forall b :: b in bs ==> b in DirtyBlocks(bufs)) || TwoFree(bufs)
  }

  ghost predicate StayPinned(bufs: seq<Buf>, bufs': seq<Buf>, bs: seq<nat>) {
    forall b :: b in bs && b in DirtyBlocks(bufs) ==> b in DirtyBlocks(bufs')
  }

  lemma {:induction false} ReadyHolds(bufs: seq<Buf>, bufs': seq<Buf>, bs: seq<nat>, t: nat)
    requires StayFree(bufs, bufs') && t < |bs| && (bs[t] in DirtyBlocks(bufs) ==> bs[t] in DirtyBlocks(bufs'))
    ensures Ready(bufs, bs) ==> CanHold(bufs', bs[t])
  {
    hide DirtyBlocks;
    StayFreeOn(bufs, bufs', bufs');
  }

  lemma {:induction false} ReadyOn(bufs: seq<Buf>, bufs': seq<Buf>, bs: seq<nat>, n: nat)
    requires StayFree(bufs, bufs') && StayPinned(bufs, bufs', bs)
    ensures Ready(bufs, bs) ==> Ready(bufs', bs) && !NoBuffer(bufs', n)
  {
    hide DirtyBlocks;
    StayFreeOn(bufs, bufs', bufs');
    hide HasFree;
    assert HasFree(bufs') ==> !NoBuffer(bufs', n) by { FirstHeldFree(bufs', n); }
    TwoHasOne(bufs');
  }

  lemma {:induction false} FirstHeldFree(bufs: seq<Buf>, n: nat)
    ensures HasFree(bufs) ==> !NoBuffer(bufs, n)
  {
  }

  lemma {:induction false} TwoHasOne(bufs: seq<Buf>)
    ensures TwoFree(bufs) ==> HasFree(bufs)
  {
  }

  // A block that none of the writes names stays pinned.
  lemma {:induction false} PinnedStill(s: Snapshot, ws: seq<Write>, b: nat)
    requires InRange(ws, |s.disk|) && |s.logical| == |s.disk|
    requires b in s.pinned && forall i :: 0 <= i < |ws| ==> ws[i].blockno != b
    ensures b in PutAll(s, ws).pinned
  {
  }

  lemma {:induction false} LoggedStayPinned(L: Layout, s: Snapshot, bs: seq<nat>, t: nat)
    requires GoodBlocks(L, |s.disk|, bs) && |s.logical| == |s.disk| && L.start + L.size <= |s.disk| && t <= |bs|
    ensures InRange(LogWrites(L, Values(s.logical, bs))[..t], |s.disk|)
    ensures forall b :: b in bs && b in s.pinned ==> b in PutAll(s, LogWrites(L, Values(s.logical, bs))[..t]).pinned
  {
    hide Apply;
    forall b | b in bs && b in s.pinned ensures b in PutAll(s, LogWrites(L, Values(s.logical, bs))[..t]).pinned {
      PinnedStill(s, LogWrites(L, Values(s.logical, bs))[..t], b);
    }
  }

  lemma {:induction false} PinnedSame(bufs: seq<Buf>, bufs': seq<Buf>, bs: seq<nat>)
    requires forall b :: b in bs && b in DirtyBlocks(bufs) ==> b in DirtyBlocks(bufs')
    ensures StayPinned(bufs, bufs', bs)
  {
  }

  // Nobody holds a buffer, and those pinned are the transaction's.
  ghost predicate Quiet(bufs: seq<Buf>, bs: seq<nat>) {
    (forall i :: 0 <= i < |bufs| ==> bufs[i].refcnt == 0) && DirtyBlocks(bufs) == SetOf(bs)
  }

  // A transaction that fills the whole cache leaves no buffer for the log; any smaller one leaves enough.
  lemma {:induction false} RoomToCommit(bufs: seq<Buf>, L: Layout, size: nat, bs: seq<nat>)
    requires Unique(bufs) && |bufs| == NBUF && Quiet(bufs, bs) && GoodBlocks(L, size, bs)
    requires forall i :: 0 <= i < |bufs| && bufs[i].dirty ==> bufs[i].dev == ROOTDEV
    requires |bs| > 0
    ensures if |bs| < NBUF then Ready(bufs, bs) else NoBuffer(bufs, L.start + 1)
  {
    hide Unique;
    SetSize(bs);
    DirtyCount(bufs);
    if |bs| < NBUF {
      var i: nat :| i < |bufs| && !bufs[i].dirty;
      assert Recyclable(bufs[i]);
    } else {
      forall j: nat | j < |bufs| ensures !Caches(bufs[j], L.start + 1) {
        assert bufs[j].dirty && bufs[j].blockno in DirtyBlocks(bufs);
      }
    }
  }

  lemma {:induction false} TwoReady(bufs: seq<Buf>, bufs': seq<Buf>, bs: seq<nat>, n: nat)
    ensures StayFree(bufs, bufs') && TwoFree(bufs) ==> TwoFree(bufs') && Ready(bufs', bs)
    ensures TwoFree(bufs) ==> !NoBuffer(bufs, n)
  {
    hide DirtyBlocks;
    TwoHasOne(bufs);
    if StayFree(bufs, bufs') { StayFreeOn(bufs, bufs', bufs'); }
  }

  lemma {:induction false} FreeNow(bufs: seq<Buf>, bufs': seq<Buf>, bs: seq<nat>, n: nat)
    requires StayFree(bufs, bufs')
    ensures Ready(bufs, bs) ==> !NoBuffer(bufs', n)
  {
    ReadyOn(bufs, bufs', [], n);
    TwoHasOne(bufs);
  }

  lemma {:induction false} StayFreeSelf(bufs: seq<Buf>)
    ensures StayFree(bufs, bufs)
  {
  }

  class Log {
    const cache: BufferCache
    const L: Layout
    const block: array<nat>       // lh.block
    var n: nat                    // lh.n
    var outstanding: int
    var committing: bool

    constructor (c: BufferCache, l: Layout)
      ensures cache == c && L == l && fresh(block) && block.Length == LOGSIZE
      ensures n == 0 && outstanding == 0 && !committing
    {
      cache, L, n, outstanding, committing := c, l, 0, 0, false;
      block := new nat[LOGSIZE];
    }

    // The blocks of the open transaction.
    ghost function Blocks(): seq<nat>
      requires n <= block.Length
      reads this, block
    {
      block[..n]
    }

    ghost predicate Inv()
      reads this, block, cache, cache.buf
    {
      && cache.Inv({}) && block.Length == LOGSIZE && n <= LOGSIZE
      && L.size >= 1 && L.start + L.size <= |cache.disk|
      && GoodBlocks(L, |cache.disk|, Blocks())
    }

    // read_head: the header block into lh.
    method ReadHead() returns (ok: bool)
      requires cache.Inv({}) && block.Length == LOGSIZE && L.start < |cache.disk|
      requires HeadN(cache.Logical()[L.start]) <= LOGSIZE
      modifies this`n, block, cache.buf, cache`mru
      ensures cache.Inv({}) && cache.Snap() == old(cache.Snap())
      ensures ok ==> n <= LOGSIZE && Blocks() == HeadBlocks(cache.Logical()[L.start])
      ensures ok ==> StayFree(old(cache.buf[..]), cache.buf[..])
      ensures !ok <==> NoBuffer(old(cache.buf[..]), L.start)
    {
      hide Unique, Coherent, Permutation, Views, DirtyBlocks, NoBuffer;
      var b;
      ok, b := cache.Bread(L.start);
      if !ok {
        return;
      }
      var lh := cache.buf[b].data;
      n := HeadN(lh);
      var i := 0;
      while i < n
        invariant i <= n == HeadN(lh)
        invariant forall j :: 0 <= j < i ==> block[j] == WordAt(lh, 1 + j)
        modifies block
      {
        block[i] := WordAt(lh, 1 + i);
        i := i + 1;
      }
      cache.Brelse(b);
    }

    // write_head: lh into the header block; this disk write is the commit or the erasure.
    method WriteHead() returns (ok: bool)
      requires Inv()
      modifies cache, cache.buf
      ensures Inv()
      ensures !ok ==> cache.Snap() == old(cache.Snap())
      ensures ok ==>
        cache.Snap() == Put(old(cache.Snap()), Write(L.start, PutHead(old(cache.Logical())[L.start], Blocks())))
      ensures ok ==>
        StayFree(old(cache.buf[..]), cache.buf[..]) && StayPinned(old(cache.buf[..]), cache.buf[..], Blocks())
      ensures !ok <==> NoBuffer(old(cache.buf[..]), L.start)
    {
      hide Unique, Coherent, Permutation, Views, DirtyBlocks, NoBuffer;
      var b;
      ok, b := cache.Bread(L.start);
      if !ok {
        return;
      }
      var hb := FillHead(cache.buf[b].data, block, n);
      cache.Store(b, hb);
      cache.Bwrite(b);
      cache.Brelse(b);
    }

    // install_trans: each logged block to its home, through the cache.
    method InstallTrans() returns (ok: bool, ghost k: nat)
      requires Inv()
      modifies cache, cache.buf
      ensures Inv() && k <= n && (ok ==> k == n)
      ensures cache.Snap() == PutAll(old(cache.Snap()), HomeWrites(Blocks(), Logged(L, old(cache.Logical()), n))[..k])
      ensures ok ==> StayFree(old(cache.buf[..]), cache.buf[..])
      ensures Ready(old(cache.buf[..]), Blocks()) ==> ok
    {
      hide Unique, Coherent, Permutation, Views, DirtyBlocks, NoBuffer, CanHold, Ready;
      hide Apply, Targets, HeadN, PutHead;
      ghost var bs, s0 := Blocks(), cache.Snap();
      ghost var ws := HomeWrites(bs, Logged(L, s0.logical, n));
      PutAllNone(s0);
      var tail := 0;
      k := 0;
      ok := true;
      while tail < n
        invariant k == tail <= n
        invariant cache.Inv({}) && |cache.disk| == |s0.disk|
        invariant cache.Snap() == PutAll(s0, ws[..tail])
        invariant StayFree(old(cache.buf[..]), cache.buf[..])
        modifies cache, cache.buf
      {
        ApplyElsewhere(s0.logical, ws[..tail], L.start + 1 + tail);
        if bs[tail] in s0.pinned { PinnedStill(s0, ws[..tail], bs[tail]); }
        ReadyHolds(old(cache.buf[..]), cache.buf[..], bs, tail);
        ghost var b1 := cache.buf[..];
        ok := CopyBlock(cache, L.start + tail + 1, block[tail], true);
        if !ok {
          return;
        }
        StayFreeOn(old(cache.buf[..]), b1, cache.buf[..]);
        PutAllStep(s0, ws, tail);
        tail := tail + 1;
        k := tail;
      }
    }

    // write_log: each block of the transaction, as the cache has it, to the log area.
    method WriteLog() returns (ok: bool, ghost k: nat)
      requires Inv()
      modifies cache, cache.buf
      ensures Inv() && k <= n && (ok ==> k == n)
      ensures cache.Snap() == PutAll(old(cache.Snap()), LogWrites(L, Values(old(cache.Logical()), Blocks()))[..k])
      ensures ok ==>
        StayFree(old(cache.buf[..]), cache.buf[..]) && StayPinned(old(cache.buf[..]), cache.buf[..], Blocks())
      ensures Ready(old(cache.buf[..]), Blocks()) ==> ok
      ensures n > 0 && NoBuffer(old(cache.buf[..]), L.start + 1) ==> !ok && k == 0
    {
      hide Unique, Coherent, Permutation, Views, DirtyBlocks, NoBuffer, CanHold, Ready, StayFree, StayPinned,
        Recyclable, Caches, HasFree, TwoFree;
      hide Apply, Targets, HeadN, PutHead;
      ghost var bs, s0 := Blocks(), cache.Snap();
      ghost var ws := LogWrites(L, Values(s0.logical, bs));
      PutAllNone(s0);
      StayFreeSelf(old(cache.buf[..]));
      var tail := 0;
      k := 0;
      ok := true;
      while tail < n
        invariant k == tail <= n
        invariant cache.Inv({}) && |cache.disk| == |s0.disk|
        invariant cache.Snap() == PutAll(s0, ws[..tail])
        invariant StayFree(old(cache.buf[..]), cache.buf[..])
        invariant tail == 0 ==> cache.buf[..] == old(cache.buf[..])
        invariant n > 0 && NoBuffer(old(cache.buf[..]), L.start + 1) ==> tail == 0
        modifies cache, cache.buf
      {
        ApplyElsewhere(s0.logical, ws[..tail], bs[tail]);
        LoggedStayPinned(L, s0, bs, tail);
        ReadyHolds(old(cache.buf[..]), cache.buf[..], bs, tail);
        ghost var b1 := cache.buf[..];
        ok := CopyBlock(cache, L.start + tail + 1, block[tail], false);
        if !ok {
          return;
        }
        StayFreeOn(old(cache.buf[..]), b1, cache.buf[..]);
        PutAllStep(s0, ws, tail);
        tail := tail + 1;
        k := tail;
      }
      LoggedStayPinned(L, s0, bs, tail);
      PinnedSame(old(cache.buf[..]), cache.buf[..], bs);
    }

    lemma {:induction false} WhenQuiet()
      requires Inv() && n > 0
      ensures Quiet(cache.buf[..], Blocks()) ==>
        if n < NBUF then Ready(cache.buf[..], Blocks()) else NoBuffer(cache.buf[..], L.start + 1)
    {
      hide Unique, Coherent, Permutation, Quiet, Ready, NoBuffer, GoodBlocks;
      if Quiet(cache.buf[..], Blocks()) { RoomToCommit(cache.buf[..], L, |cache.disk|, Blocks()); }
    }

    // commit: CommitWrites, cut short after k of them when the cache panics.
    method Commit() returns (ok: bool, ghost k: nat)
      requires Inv()
      modifies this`n, cache, cache.buf
      ensures Inv() && k <= 2 * old(n) + 2
      ensures cache.Snap() == if old(n) == 0 then old(cache.Snap()) else Stage(L, old(cache.Snap()), old(Blocks()), k)
      ensures ok ==> n == 0 && (old(n) > 0 ==> k == 2 * old(n) + 2)
      ensures Ready(old(cache.buf[..]), old(Blocks())) ==> ok
      ensures old(n) > 0 && Quiet(old(cache.buf[..]), old(Blocks())) ==> (ok <==> old(n) < NBUF)
      ensures old(n) > 0 && NoBuffer(old(cache.buf[..]), L.start + 1) ==> !ok && k == 0
    {
      hide Unique, Coherent, Permutation, Views, DirtyBlocks, Quiet, Ready, HasFree, TwoFree, NoBuffer, StayFree,
        StayPinned;
      hide GoodBlocks, Apply, Targets, HeadN, PutHead, PutAll, Stage, Logged, Values, HomeWrites, LogWrites;
      ok, k := true, 0;
      if n > 0 {
        ghost var s0, bs := cache.Snap(), Blocks();
        GoodNone(L, |cache.disk|);
        ghost var b0 := cache.buf[..];
        WhenQuiet();
        ok, k := WriteLog();
        ghost var b1 := cache.buf[..];
        StageLog(L, s0, bs, k);
        if ok {
          ReadyOn(b0, b1, bs, L.start);
          ok := WriteHead();
          StageHead(L, s0, bs);
        }
        if ok {
          ghost var j, b2 := 0, cache.buf[..];
          ReadyOn(b1, b2, bs, L.start);
          ok, j := InstallTrans();
          if ok { FreeNow(b2, cache.buf[..], bs, L.start); }
          StageHome(L, s0, bs, j);
          k := n + 1 + j;
        }
        if ok {
          n := 0;
          assert Blocks() == [];
          ok := WriteHead();
          StageEnd(L, s0, bs);
          k := if ok then k + 1 else k;
        }
      }
    }

    // recover_from_log: redo what a committed header lists, then erase the header.
    method RecoverFromLog() returns (ok: bool, ghost k: nat)
      requires cache.Inv({}) && block.Length == LOGSIZE && GoodDisk(L, cache.disk) && cache.Logical() == cache.disk
      modifies this`n, block, cache, cache.buf
      ensures cache.Inv({}) && k <= HeadN(old(cache.disk)[L.start]) + 1
      ensures cache.disk == RecoverPrefix(L, old(cache.disk), k) && cache.Logical() == cache.disk
      ensures cache.writes == old(cache.writes) + RecoverWrites(L, old(cache.disk))[..k]
      ensures ok ==> Inv() && n == 0 && k == HeadN(old(cache.disk)[L.start]) + 1
      ensures TwoFree(old(cache.buf[..])) ==> ok
      ensures cache.Pinned() <= old(cache.Pinned())
    {
      hide Unique, Coherent, Permutation, Views, DirtyBlocks, Ready, NoBuffer, StayFree, TwoFree;
      ghost var s0, b0 := cache.Snap(), cache.buf[..];
      TwoReady(b0, b0, [], L.start);
      k := 0;
      ok := ReadHead();
      RecoverStages(L, s0, 0);
      hide GoodBlocks, Apply, Targets, PutHead, Logged, HomeWrites, RecoverWrites, RecoverPrefix, PutAll;
      if ok {
        GoodNone(L, |cache.disk|);
        ghost var b1 := cache.buf[..];
        TwoReady(b0, b1, Blocks(), L.start);
        ok, k := InstallTrans();
        if ok { FreeNow(b1, cache.buf[..], Blocks(), L.start); }
        RecoverStages(L, s0, k);
      }
      if ok {
        n := 0;
        assert Blocks() == [];
        ok := WriteHead();
        RecoverLast(L, s0);
        k := if ok then k + 1 else k;
      }
    }

    // begin_op, one turn of its loop: admitted, or !r when the caller must sleep.
    method BeginOp() returns (r: bool)
      modifies this`outstanding
      ensures r <==> !committing && CanBegin(n, old(outstanding))
      ensures outstanding == old(outstanding) + if r then 1 else 0
    {
      if committing {
        return false;
      } else if n + (outstanding + 1) * MAXOPBLOCKS > LOGSIZE {
        return false;
      }
      outstanding := outstanding + 1;
      return true;
    }

    // log_write for buffer i, whose holder has just changed its data; !ok is one of its two panics.
    method LogWrite(i: nat) returns (ok: bool)
      requires i < cache.buf.Length && block.Length == LOGSIZE && n <= LOGSIZE && cache.Inv({i})
      requires L.size >= 1 && L.start + L.size <= |cache.disk| && GoodBlocks(L, |cache.disk|, Blocks())
      requires cache.buf[i].dev == ROOTDEV && cache.buf[i].valid && cache.buf[i].refcnt > 0
      requires cache.buf[i].blockno < |cache.disk| && cache.buf[i].blockno < 0x1_0000_0000 &&
        !InLog(L, cache.buf[i].blockno)
      modifies this`n, block, cache.buf
      ensures ok <==> MayLog(L, old(n)) && outstanding >= 1
      ensures !ok ==> cache.buf[..] == old(cache.buf[..]) && n == old(n) && block[..] == old(block[..])
      ensures ok ==> Inv() && cache.Logical() == old(cache.Logical())
      ensures ok ==> cache.Pinned() == old(cache.Pinned()) + {cache.buf[i].blockno}
      ensures ok ==> cache.buf[..] == old(cache.buf[..])[i := old(cache.buf[i]).(dirty := true)]
      ensures ok ==> Blocks() == Logs(old(Blocks()), cache.buf[i].blockno)
    {
      hide Unique, Coherent, Permutation, Views, DirtyBlocks, InLog;
      if n >= LOGSIZE || n >= L.size - 1 {
        return false;
      }
      if outstanding < 1 {
        return false;
      }
      var bno := cache.buf[i].blockno;
      var j := 0;
      while j < n
        invariant j <= n
        invariant forall l :: 0 <= l < j ==> block[l] != bno
      {
        if block[j] == bno {
          break;
        }
        j := j + 1;
      }
      ghost var bs := Blocks();
      block[j] := bno;
      if j == n {
        n := n + 1;
      }
      assert Blocks() == Logs(bs, bno);
      cache.MarkDirty(i);
      return true;
    }

    // end_op: the last operation out commits. !ok is the panic "log.committing" or a panic inside commit.
    method EndOp() returns (ok: bool, ghost k: nat)
      requires Inv()
      modifies this`n, this`outstanding, this`committing, cache, cache.buf
      ensures Inv() && outstanding == old(outstanding) - 1 && k <= 2 * old(n) + 2
      ensures old(committing) ==> !ok && cache.Snap() == old(cache.Snap()) && committing
      ensures !old(committing) && old(outstanding) != 1 ==>
        ok && n == old(n) && cache.Snap() == old(cache.Snap()) && !committing
      ensures !old(committing) && old(outstanding) == 1 ==>
        cache.Snap() == if old(n) == 0 then old(cache.Snap()) else Stage(L, old(cache.Snap()), old(Blocks()), k)
      ensures ok && old(outstanding) == 1 ==> n == 0 && !committing && (old(n) > 0 ==> k == 2 * old(n) + 2)
      ensures !old(committing) && Ready(old(cache.buf[..]), old(Blocks())) ==> ok
      ensures !old(committing) && old(outstanding) == 1 && old(n) > 0 && Quiet(old(cache.buf[..]), old(Blocks())) ==>
        (ok <==> old(n) < NBUF)
      ensures old(n) > 0 && NoBuffer(old(cache.buf[..]), L.start + 1) ==> k == 0
    {
      hide Ready, Quiet;
      k := 0;
      outstanding := outstanding - 1;
      if committing {
        return false, 0;
      }
      ok := true;
      if outstanding == 0 {
        committing := true;
        ok, k := Commit();
        if ok {
          committing := false;
        }
      }
    }
  }

  // The transaction a log with these blocks would commit from state s.
  ghost function Transaction(L: Layout, s: Snapshot, bs: seq<nat>): (ws: seq<Write>)
    requires GoodBlocks(L, |s.disk|, bs) && |s.logical| == |s.disk| && L.start + L.size <= |s.disk|
    ensures |ws| == 2 * |bs| + 2 && InRange(ws, |s.disk|)
  {
    CommitWrites(L, s.logical[L.start], bs, Values(s.logical, bs))
  }

  // The state after k of commit's writes.
  ghost function Stage(L: Layout, s: Snapshot, bs: seq<nat>, k: nat): (r: Snapshot)
    requires GoodBlocks(L, |s.disk|, bs) && |s.logical| == |s.disk| && L.start + L.size <= |s.disk|
    requires k <= 2 * |bs| + 2
    ensures |r.logical| == |r.disk| == |s.disk|
  {
    PutAll(s, Transaction(L, s, bs)[..k])
  }

  lemma {:induction false} GoodNone(L: Layout, size: nat)
    requires L.size >= 1
    ensures GoodBlocks(L, size, [])
  {
  }

  lemma {:induction false} StageLog(L: Layout, s: Snapshot, bs: seq<nat>, k: nat)
    requires GoodBlocks(L, |s.disk|, bs) && |s.logical| == |s.disk| && L.start + L.size <= |s.disk| && k <= |bs|
    ensures Stage(L, s, bs, k) == PutAll(s, LogWrites(L, Values(s.logical, bs))[..k])
    ensures Stage(L, s, bs, k).logical[L.start] == s.logical[L.start]
    ensures forall i :: 0 <= i < k ==> Stage(L, s, bs, k).logical[L.start + 1 + i] == Values(s.logical, bs)[i]
  {
    var ws := LogWrites(L, Values(s.logical, bs));
    assert Transaction(L, s, bs)[..k] == ws[..k];
    ApplyElsewhere(s.logical, ws[..k], L.start);
    if k > 0 {
      StageLog(L, s, bs, k - 1);
      ApplyStep(s.logical, ws, k - 1);
    }
  }

  lemma {:induction false} StageHead(L: Layout, s: Snapshot, bs: seq<nat>)
    requires GoodBlocks(L, |s.disk|, bs) && |s.logical| == |s.disk| && L.start + L.size <= |s.disk|
    ensures Stage(L, s, bs, |bs| + 1) == Put(Stage(L, s, bs, |bs|), Write(L.start, PutHead(s.logical[L.start], bs)))
    ensures Logged(L, Stage(L, s, bs, |bs| + 1).logical, |bs|) == Values(s.logical, bs)
  {
    StageLog(L, s, bs, |bs|);
    PutAllStep(s, Transaction(L, s, bs), |bs|);
  }

  lemma {:induction false} StageHome(L: Layout, s: Snapshot, bs: seq<nat>, j: nat)
    requires GoodBlocks(L, |s.disk|, bs) && |s.logical| == |s.disk| && L.start + L.size <= |s.disk| && j <= |bs|
    ensures var hw := HomeWrites(bs, Values(s.logical, bs))[..j];
      InRange(hw, |s.disk|) && Stage(L, s, bs, |bs| + 1 + j) == PutAll(Stage(L, s, bs, |bs| + 1), hw)
    ensures Stage(L, s, bs, |bs| + 1 + j).logical[L.start] == PutHead(s.logical[L.start], bs)
  {
    var ws := Transaction(L, s, bs);
    var hw := HomeWrites(bs, Values(s.logical, bs))[..j];
    assert ws[..|bs| + 1 + j] == ws[..|bs| + 1] + hw;
    PutAllConcat(s, ws[..|bs| + 1], hw);
    StageHead(L, s, bs);
    ApplyElsewhere(Stage(L, s, bs, |bs| + 1).logical, hw, L.start);
  }

  lemma {:induction false} StageEnd(L: Layout, s: Snapshot, bs: seq<nat>)
    requires GoodBlocks(L, |s.disk|, bs) && |s.logical| == |s.disk| && L.start + L.size <= |s.disk|
    ensures Stage(L, s, bs, 2 * |bs| + 2) ==
      Put(Stage(L, s, bs, 2 * |bs| + 1), Write(L.start, PutHead(PutHead(s.logical[L.start], bs), [])))
  {
    PutAllStep(s, Transaction(L, s, bs), 2 * |bs| + 1);
  }

  // What Commit leaves on disk is what RedoLog.CrashAtomicity is about.
  lemma {:induction false} StageIsCommitPrefix(L: Layout, s: Snapshot, bs: seq<nat>, k: nat)
    requires |s.logical| == |s.disk| && k <= 2 * |bs| + 2 && GoodBlocks(L, |s.disk|, bs)
    requires GoodDisk(L, s.disk) && HeadN(s.disk[L.start]) == 0 && s.logical[L.start] == s.disk[L.start]
    ensures Stage(L, s, bs, k).disk == CommitPrefix(L, s.disk, bs, Values(s.logical, bs), k)
  {
    CommitPrefixIsApply(L, s.disk, bs, Values(s.logical, bs), k);
  }

  // The states recover_from_log goes through while it installs.
  lemma {:induction false} RecoverStages(L: Layout, s: Snapshot, k: nat)
    requires GoodDisk(L, s.disk) && s.logical == s.disk && k <= HeadN(s.disk[L.start])
    ensures
      var hw := HomeWrites(HeadBlocks(s.disk[L.start]), Logged(L, s.disk, HeadN(s.disk[L.start])))[..k];
      && InRange(hw, |s.disk|)
      && PutAll(s, hw).disk == PutAll(s, hw).logical == RecoverPrefix(L, s.disk, k)
      && PutAll(s, hw).writes == s.writes + RecoverWrites(L, s.disk)[..k]
      && RecoverPrefix(L, s.disk, 0) == s.disk && s.writes + RecoverWrites(L, s.disk)[..0] == s.writes
  {
    var hw := HomeWrites(HeadBlocks(s.disk[L.start]), Logged(L, s.disk, HeadN(s.disk[L.start])));
    RecoverPrefixIsApply(L, s.disk, k);
    assert RecoverWrites(L, s.disk)[..k] == hw[..k];
  }

  lemma {:induction false} RecoverLast(L: Layout, s: Snapshot)
    requires GoodDisk(L, s.disk)
    ensures
      var n := HeadN(s.disk[L.start]);
      var h := PutHead(s.disk[L.start], []);
      && RecoverPrefix(L, s.disk, n + 1) == RecoverPrefix(L, s.disk, n)[L.start := h]
      && RecoverPrefix(L, s.disk, n)[L.start] == s.disk[L.start]
      && s.writes + RecoverWrites(L, s.disk)[..n + 1] == s.writes + RecoverWrites(L, s.disk)[..n] + [Write(L.start, h)]
  {
    var n := HeadN(s.disk[L.start]);
    var bs, vals := HeadBlocks(s.disk[L.start]), Logged(L, s.disk, n);
    OverlayKeepsLog(L, s.disk, bs, vals, n, L.start);
    assert RecoverWrites(L, s.disk)[..n + 1] == RecoverWrites(L, s.disk)[..n] +
      [Write(L.start, PutHead(s.disk[L.start], []))];
  }
}
