// Every interleaving of file-system calls, cache traffic, commits, crashes and recoveries.
module LogProtocol {
  import opened Basics
  import opened Blocks
  import Bio
  import opened RedoLog

  // A cached block. A buffer that an operation has changed but not yet log_written is listed in that
  // operation's hot set: its lock is held, so it is not recycled.
  datatype Cell = Cell(data: Block, dirty: bool)

  // A running file-system call: the blocks it has passed to log_write, those it is changing, and the block
  // for which it is in log_write, past the size test but not yet in the list.
  datatype Op = Op(logged: set<nat>, hot: set<nat>, inside: Option<nat>)

  // Where the process that commits (or boots) is: k blocks of its copy loop are done.
  datatype Phase =
    | Running
    | Logging(k: nat)
    | Installing(k: nat)
    | Recovering(k: nat)

  // saved is a history variable: the home state made durable by the last header write.
  datatype State = State(
    disk: Disk,
    cache: map<nat, Cell>,
    blocks: seq<nat>,
    ops: seq<Op>,
    phase: Phase,
    saved: Disk)

  datatype Step =
    | Begin
    | Read(b: nat)
    | Evict(b: nat)
    | Modify(o: nat, b: nat, x: Block)
    | Test(o: nat, b: nat)
    | Enter(o: nat)
    | End(o: nat)
    | WriteLog
    | WriteHead
    | Install
    | Erase
    | Crash
    | RecoverInstall
    | RecoverErase

  ghost predicate Hot(s: State, b: nat) {
    exists o :: 0 <= o < |s.ops| && b in s.ops[o].hot
  }

  // What a process that locks block b reads.
  function Look(s: State, b: nat): Block
    requires b < |s.disk|
  {
    if b in s.cache then s.cache[b].data else s.disk[b]
  }

  ghost function Logical(s: State): (v: Disk)
    ensures |v| == |s.disk|
  {
    seq(|s.disk|, b requires 0 <= b < |s.disk| => Look(s, b))
  }

  ghost function Dirty(s: State): set<nat> {
    set b | b in s.cache && s.cache[b].dirty
  }

  // One bwrite: cache and disk both take the data, and the buffer is clean.
  function Bwrite(s: State, b: nat, x: Block): State
    requires b < |s.disk|
  {
    s.(disk := s.disk[b := x], cache := s.cache[b := Cell(x, false)])
  }

  function NewOp(): Op {
    Op({}, {}, None)
  }

  // begin_op. Sleeping callers just do not step.
  ghost predicate BeginStep(L: Layout, s: State, s': State) {
    && s.phase.Running? && CanBegin(|s.blocks|, |s.ops|)
    && s' == s.(ops := s.ops + [NewOp()])
  }

  ghost predicate ReadStep(L: Layout, s: State, b: nat, s': State) {
    && b < |s.disk| && b !in s.cache
    && s' == s.(cache := s.cache[b := Cell(s.disk[b], false)])
  }

  // bget recycles only unreferenced clean buffers.
  ghost predicate EvictStep(L: Layout, s: State, b: nat, s': State) {
    && b in s.cache && !s.cache[b].dirty && !Hot(s, b)
    && s' == s.(cache := s.cache - {b})
  }

  ghost predicate ModifyStep(L: Layout, s: State, o: nat, b: nat, x: Block, s': State) {
    && o < |s.ops| && b in s.cache && b < |s.disk| && b < 0x1_0000_0000 && !InLog(L, b) && s.ops[o].inside.None?
    && (b in s.ops[o].hot || !Hot(s, b))
    && s' == s.(cache := s.cache[b := s.cache[b].(data := x)], ops := s.ops[o := s.ops[o].(hot := s.ops[o].hot + {b})])
  }

  // log_write's size test, made before log.lock is taken: other calls may step between it and the entry into
  // the list. Without MayLog log_write panics. (lh.n is read twice and only grows while a call runs, so a test
  // that both reads pass is one passed at the first.) The caller's promise is at most MAXOPBLOCKS blocks.
  ghost predicate TestStep(L: Layout, s: State, o: nat, b: nat, s': State) {
    && o < |s.ops| && b in s.ops[o].hot && b in s.cache && s.ops[o].inside.None?
    && (b in s.ops[o].logged || |s.ops[o].logged| < MAXOPBLOCKS)
    && MayLog(L, |s.blocks|)
    && s' == s.(ops := s.ops[o := s.ops[o].(inside := Some(b))])
  }

  // log_write from acquire to release: the block is listed and pinned.
  ghost predicate EnterStep(L: Layout, s: State, o: nat, s': State) {
    && o < |s.ops| && s.ops[o].inside.Some? && s.ops[o].inside.value in s.cache
    && var b := s.ops[o].inside.value;
       s' == s.(blocks := Logs(s.blocks, b), cache := s.cache[b := s.cache[b].(dirty := true)],
                ops := s.ops[o := Op(s.ops[o].logged + {b}, s.ops[o].hot - {b}, None)])
  }

  // end_op: the last one out commits, if there is anything to commit.
  ghost predicate EndStep(L: Layout, s: State, o: nat, s': State) {
    && o < |s.ops| && s.ops[o].hot == {} && s.ops[o].inside.None?
    && s' == s.(ops := s.ops[..o] + s.ops[o + 1..],
                phase := if |s.ops| == 1 && s.blocks != [] then Logging(0) else s.phase)
  }

  // bread finds a buffer for block b: it has one, or not all are pinned. Without one bread panics.
  ghost predicate HasBuffer(pinned: set<nat>, b: nat) {
    b in pinned || |pinned| < Bio.NBUF
  }

  ghost predicate WriteLogStep(L: Layout, s: State, s': State) {
    && s.phase.Logging? && s.phase.k < |s.blocks| && HasBuffer(Dirty(s), L.start + 1 + s.phase.k)
    && s.blocks[s.phase.k] < |s.disk| && L.start + 1 + s.phase.k < |s.disk|
    && s' == Bwrite(s, L.start + 1 + s.phase.k, Look(s, s.blocks[s.phase.k])).(phase := Logging(s.phase.k + 1))
  }

  ghost predicate WriteHeadStep(L: Layout, s: State, s': State) {
    && s.phase == Logging(|s.blocks|) && L.start < |s.disk| && |s.blocks| <= LOGSIZE
    && (forall i :: 0 <= i < |s.blocks| ==> s.blocks[i] < 0x1_0000_0000)
    && s' == Bwrite(s, L.start, PutHead(Look(s, L.start), s.blocks)).(phase := Installing(0), saved := Logical(s))
  }

  ghost predicate InstallStep(L: Layout, s: State, s': State) {
    && s.phase.Installing? && s.phase.k < |s.blocks|
    && s.blocks[s.phase.k] < |s.disk| && L.start + 1 + s.phase.k < |s.disk|
    && s' == Bwrite(s, s.blocks[s.phase.k], Look(s, L.start + 1 + s.phase.k)).(phase := Installing(s.phase.k + 1))
  }

  ghost predicate EraseStep(L: Layout, s: State, s': State) {
    && s.phase == Installing(|s.blocks|) && L.start < |s.disk|
    && s' == Bwrite(s, L.start, PutHead(Look(s, L.start), [])).(phase := Running, blocks := [])
  }

  // Memory is lost; the next boot reads the header before anything else.
  ghost predicate CrashStep(L: Layout, s: State, s': State) {
    && L.start < |s.disk| && HeadN(s.disk[L.start]) <= LOGSIZE
    && s' == s.(cache := map[], ops := [], phase := Recovering(0), blocks := HeadBlocks(s.disk[L.start]))
  }

  ghost predicate RecoverInstallStep(L: Layout, s: State, s': State) {
    && s.phase.Recovering? && s.phase.k < |s.blocks|
    && s.blocks[s.phase.k] < |s.disk| && L.start + 1 + s.phase.k < |s.disk|
    && s' == Bwrite(s, s.blocks[s.phase.k], Look(s, L.start + 1 + s.phase.k)).(phase := Recovering(s.phase.k + 1))
  }

  ghost predicate RecoverEraseStep(L: Layout, s: State, s': State) {
    && s.phase == Recovering(|s.blocks|) && L.start < |s.disk|
    && s' == Bwrite(s, L.start, PutHead(Look(s, L.start), [])).(phase := Running, blocks := [])
  }

  ghost predicate Next(L: Layout, s: State, step: Step, s': State) {
    match step
    case Begin => BeginStep(L, s, s')
    case Read(b) => ReadStep(L, s, b, s')
    case Evict(b) => EvictStep(L, s, b, s')
    case Modify(o, b, x) => ModifyStep(L, s, o, b, x, s')
    case Test(o, b) => TestStep(L, s, o, b, s')
    case Enter(o) => EnterStep(L, s, o, s')
    case End(o) => EndStep(L, s, o, s')
    case WriteLog => WriteLogStep(L, s, s')
    case WriteHead => WriteHeadStep(L, s, s')
    case Install => InstallStep(L, s, s')
    case Erase => EraseStep(L, s, s')
    case Crash => CrashStep(L, s, s')
    case RecoverInstall => RecoverInstallStep(L, s, s')
    case RecoverErase => RecoverEraseStep(L, s, s')
  }

  // A fresh file system: empty log, nothing cached.
  ghost predicate Init(L: Layout, s: State) {
    && GoodDisk(L, s.disk) && HeadN(s.disk[L.start]) == 0
    && s == State(s.disk, map[], [], [], Running, s.disk)
  }

  // A run is its states and the steps between them.
  ghost predicate IsRun(L: Layout, run: seq<State>, steps: seq<Step>) {
    && |run| == |steps| + 1
    && Init(L, run[0])
    && forall i :: 0 <= i < |steps| ==> Next(L, run[i], steps[i], run[i + 1])
  }

  // Reservations still open: what each running call may yet add to the log.
  ghost function Unused(ops: seq<Op>): int {
    if ops == [] then 0 else Unused(ops[..|ops| - 1]) + MAXOPBLOCKS - |ops[|ops| - 1].logged|
  }

  // An operation within its promise, all of whose changes are cached home blocks.
  ghost predicate OpInv(L: Layout, size: nat, blocks: seq<nat>, cached: set<nat>, op: Op) {
    && |op.logged| <= MAXOPBLOCKS
    && (forall b :: b in op.logged ==> b in blocks)
    && (forall b :: b in op.hot ==> b in cached && b < size && b < 0x1_0000_0000 && !InLog(L, b))
    && (op.inside.Some? ==> InsideOk(L, op, op.inside.value))
  }

  // A call inside log_write: the log has room for some block, and the call's promise for this one.
  ghost predicate InsideOk(L: Layout, op: Op, b: nat) {
    L.size >= 2 && b in op.hot && (b in op.logged || |op.logged| < MAXOPBLOCKS)
  }

  ghost predicate OpsInv(L: Layout, s: State) {
    && (s.ops != [] ==> s.phase.Running?)
    && (forall o :: 0 <= o < |s.ops| ==> OpInv(L, |s.disk|, s.blocks, s.cache.Keys, s.ops[o]))
    && (!s.phase.Recovering? ==> |s.blocks| + Unused(s.ops) <= LOGSIZE)
  }

  // Clean unheld buffers match the disk; dirty ones belong to the transaction.
  ghost predicate CacheInv(s: State) {
    forall b :: b in s.cache ==>
      && b < |s.disk|
      && (s.cache[b].dirty ==> b in s.blocks)
      && (!s.cache[b].dirty && !Hot(s, b) ==> s.cache[b].data == s.disk[b])
  }

  // Every block of the transaction from index k on is pinned in the cache.
  ghost predicate PinnedFrom(s: State, k: nat) {
    forall i :: k <= i < |s.blocks| ==> s.blocks[i] in s.cache && s.cache[s.blocks[i]].dirty
  }

  ghost predicate Done(s: State, vals: seq<Block>, k: nat) {
    |vals| == |s.blocks| && k <= |s.blocks| &&
    forall i :: 0 <= i < k ==> s.blocks[i] < |s.disk| && s.disk[s.blocks[i]] == vals[i]
  }

  // The log areas that suffice: as many blocks as there are buffers, or no block at all.
  predicate LongLog(L: Layout) {
    L.size == 1 || L.size >= Bio.NBUF
  }

  // A list that fills the log area or more has all buffers pinned, so that commit cannot copy a block.
  ghost predicate Fits(L: Layout, n: nat) {
    n < L.size || n == L.size == Bio.NBUF
  }

  ghost predicate PhaseInv(L: Layout, s: State)
    requires GoodDisk(L, s.disk)
  {
    match s.phase
    case Running =>
      HeadN(s.disk[L.start]) == 0 && SameHome(L, s.disk, s.saved) && PinnedFrom(s, 0) && Fits(L, |s.blocks|)
    case Logging(k) =>
      && HeadN(s.disk[L.start]) == 0 && SameHome(L, s.disk, s.saved) && PinnedFrom(s, 0) && k <= |s.blocks|
      && (if k == 0 then Fits(L, |s.blocks|) else |s.blocks| < L.size)
      && (forall i :: 0 <= i < k ==> s.disk[L.start + 1 + i] == s.cache[s.blocks[i]].data)
    case Installing(k) =>
      && |s.blocks| < L.size && HeadBlocks(s.disk[L.start]) == s.blocks && PinnedFrom(s, k)
      && Done(s, Logged(L, s.disk, |s.blocks|), k)
      && (forall i :: k <= i < |s.blocks| ==> s.cache[s.blocks[i]].data == s.disk[L.start + 1 + i])
      && (forall i :: 0 <= i < k && s.blocks[i] in s.cache ==> !s.cache[s.blocks[i]].dirty)
    case Recovering(k) =>
      && |s.blocks| < L.size && HeadBlocks(s.disk[L.start]) == s.blocks
      && Done(s, Logged(L, s.disk, |s.blocks|), k)
      && (forall b :: b in s.cache ==> !s.cache[b].dirty)
  }

  ghost predicate Inv(L: Layout, s: State) {
    && GoodDisk(L, s.disk) && |s.saved| == |s.disk|
    && Listed(L, |s.disk|, s.blocks)
    && SameHome(L, Recovered(L, s.disk), s.saved)
    && OpsInv(L, s) && CacheInv(s) && PhaseInv(L, s)
  }

  lemma {:induction false} InitInv(L: Layout, s: State)
    requires Init(L, s)
    ensures Inv(L, s)
  {
  }

  // The steps in memory: the disk, the copy counters and what is durable do not move.

  // The phase's facts speak only of dirty buffers.
  lemma {:induction false} PhaseKept(L: Layout, s: State, s': State)
    requires GoodDisk(L, s.disk) && PhaseInv(L, s)
    requires s'.disk == s.disk && s'.saved == s.saved && s'.blocks == s.blocks && s'.phase == s.phase
    requires forall c :: c in s.cache && s.cache[c].dirty ==> c in s'.cache && s'.cache[c] == s.cache[c]
    requires forall c :: c in s'.cache && s'.cache[c].dirty ==> c in s.cache && s'.cache[c] == s.cache[c]
    ensures PhaseInv(L, s')
  {
    hide GoodDisk, SameHome, Logged, HeadBlocks, HeadN, Fits;
  }

  lemma {:induction false} CacheKept(s: State, s': State)
    requires CacheInv(s) && s'.disk == s.disk && s'.blocks == s.blocks && s'.cache == s.cache
    requires forall b :: Hot(s', b) <==> Hot(s, b)
    ensures CacheInv(s')
  {
    hide Hot;
  }

  // The parts of the invariant, put together after a step that leaves the disk and the list of blocks alone.
  lemma {:induction false} Together(L: Layout, s: State, s': State)
    requires Inv(L, s) && s'.disk == s.disk && s'.saved == s.saved && s'.blocks == s.blocks
    requires OpsInv(L, s') && CacheInv(s')
    requires GoodDisk(L, s'.disk) ==> PhaseInv(L, s')
    ensures Inv(L, s')
  {
    hide GoodDisk, Listed, SameHome, Recovered, OpsInv, CacheInv, PhaseInv;
  }

  lemma {:induction false} BeginOps(L: Layout, s: State, s': State)
    requires OpsInv(L, s) && BeginStep(L, s, s')
    ensures OpsInv(L, s')
  {
    assert s'.ops[..|s.ops|] == s.ops && s'.ops[|s.ops|] == NewOp();
    UnusedBound(s.ops);
    assert Unused(s'.ops) == Unused(s.ops) + MAXOPBLOCKS;
    hide Unused, InLog;
    forall o | 0 <= o < |s'.ops| ensures OpInv(L, |s'.disk|, s'.blocks, s'.cache.Keys, s'.ops[o]) {
      if o < |s.ops| {
        assert OpInv(L, |s.disk|, s.blocks, s.cache.Keys, s.ops[o]);
      }
    }
  }

  lemma {:induction false} BeginHot(s: State, s': State)
    requires s' == s.(ops := s.ops + [NewOp()])
    ensures forall b :: Hot(s', b) <==> Hot(s, b)
  {
    forall b ensures Hot(s', b) <==> Hot(s, b) {
      if Hot(s, b) {
        var o :| 0 <= o < |s.ops| && b in s.ops[o].hot;
        assert b in s'.ops[o].hot;
      }
    }
  }

  lemma {:induction false} BeginKeeps(L: Layout, s: State, s': State)
    requires Inv(L, s) && BeginStep(L, s, s')
    ensures Inv(L, s')
  {
    hide GoodDisk, Listed, SameHome, Recovered, OpsInv, CacheInv, PhaseInv, Hot, CanBegin;
    BeginOps(L, s, s');
    BeginHot(s, s');
    CacheKept(s, s');
    PhaseKept(L, s, s');
    Together(L, s, s');
  }

  lemma {:induction false} ReadOps(L: Layout, s: State, b: nat, s': State)
    requires OpsInv(L, s) && ReadStep(L, s, b, s')
    ensures OpsInv(L, s') && forall c :: Hot(s', c) <==> Hot(s, c)
  {
    hide Unused, InLog;
    forall o | 0 <= o < |s'.ops| ensures OpInv(L, |s'.disk|, s'.blocks, s'.cache.Keys, s'.ops[o]) {
      assert OpInv(L, |s.disk|, s.blocks, s.cache.Keys, s.ops[o]);
    }
  }

  lemma {:induction false} ReadCache(s: State, b: nat, s': State)
    requires CacheInv(s) && b < |s.disk| && s' == s.(cache := s.cache[b := Cell(s.disk[b], false)])
    requires forall c :: Hot(s', c) <==> Hot(s, c)
    ensures CacheInv(s')
  {
    hide Hot;
  }

  lemma {:induction false} ReadKeeps(L: Layout, s: State, b: nat, s': State)
    requires Inv(L, s) && ReadStep(L, s, b, s')
    ensures Inv(L, s')
  {
    hide GoodDisk, Listed, SameHome, Recovered, OpsInv, CacheInv, PhaseInv, Hot;
    ReadOps(L, s, b, s');
    ReadCache(s, b, s');
    PhaseKept(L, s, s');
    Together(L, s, s');
  }

  lemma {:induction false} EvictOps(L: Layout, s: State, b: nat, s': State)
    requires OpsInv(L, s) && EvictStep(L, s, b, s')
    ensures OpsInv(L, s') && forall c :: Hot(s', c) <==> Hot(s, c)
  {
    hide Unused, InLog;
    forall o | 0 <= o < |s'.ops| ensures OpInv(L, |s'.disk|, s'.blocks, s'.cache.Keys, s'.ops[o]) {
      assert OpInv(L, |s.disk|, s.blocks, s.cache.Keys, s.ops[o]) && b !in s.ops[o].hot;
    }
  }

  lemma {:induction false} EvictCache(s: State, b: nat, s': State)
    requires CacheInv(s) && s' == s.(cache := s.cache - {b})
    requires forall c :: Hot(s', c) <==> Hot(s, c)
    ensures CacheInv(s')
  {
    hide Hot;
  }

  lemma {:induction false} EvictKeeps(L: Layout, s: State, b: nat, s': State)
    requires Inv(L, s) && EvictStep(L, s, b, s')
    ensures Inv(L, s')
  {
    hide GoodDisk, Listed, SameHome, Recovered, OpsInv, CacheInv, PhaseInv, Hot;
    EvictOps(L, s, b, s');
    EvictCache(s, b, s');
    PhaseKept(L, s, s');
    Together(L, s, s');
  }

  // Changing one operation's hot set changes the set of held blocks accordingly.
  lemma {:induction false} HotUpdate(s: State, s': State, o: nat, op: Op)
    requires o < |s.ops| && s'.ops == s.ops[o := op]
    ensures forall c :: c !in s.ops[o].hot && c !in op.hot ==> (Hot(s', c) <==> Hot(s, c))
    ensures forall c :: c in op.hot ==> Hot(s', c)
    ensures forall c :: c in s.ops[o].hot ==> Hot(s, c)
  {
    assert s'.ops[o] == op;
    forall c | c !in s.ops[o].hot && c !in op.hot ensures Hot(s', c) <==> Hot(s, c) {
      if Hot(s, c) {
        var p :| 0 <= p < |s.ops| && c in s.ops[p].hot;
        assert c in s'.ops[p].hot;
      }
    }
  }

  lemma {:induction false} ModifyOps(L: Layout, s: State, o: nat, b: nat, x: Block, s': State)
    requires OpsInv(L, s) && ModifyStep(L, s, o, b, x, s')
    ensures OpsInv(L, s')
  {
    UnusedUpdate(s.ops, o, s'.ops[o]);
    hide Unused, InLog, Hot;
    assert s'.cache.Keys == s.cache.Keys;
    forall p | 0 <= p < |s'.ops| ensures OpInv(L, |s'.disk|, s'.blocks, s'.cache.Keys, s'.ops[p]) {
      assert OpInv(L, |s.disk|, s.blocks, s.cache.Keys, s.ops[p]);
    }
  }

  lemma {:induction false} ModifyCache(s: State, o: nat, b: nat, x: Block, s': State)
    requires CacheInv(s) && o < |s.ops| && b in s.cache && s'.disk == s.disk && s'.blocks == s.blocks
    requires s'.cache == s.cache[b := s.cache[b].(data := x)] &&
      s'.ops == s.ops[o := s.ops[o].(hot := s.ops[o].hot + {b})]
    ensures CacheInv(s')
  {
    HotUpdate(s, s', o, s.ops[o].(hot := s.ops[o].hot + {b}));
    hide Hot;
    assert forall c :: c != b && c !in s.ops[o].hot ==> (Hot(s', c) <==> Hot(s, c));
  }

  // While calls run only the pinning of the logged blocks depends on the cache.
  lemma {:induction false} RunningKept(L: Layout, s: State, s': State)
    requires GoodDisk(L, s.disk) && PhaseInv(L, s) && s.phase.Running?
    requires s'.disk == s.disk && s'.saved == s.saved && s'.blocks == s.blocks && s'.phase == s.phase
    requires forall c :: c in s.cache && s.cache[c].dirty ==> c in s'.cache && s'.cache[c].dirty
    ensures PhaseInv(L, s')
  {
    hide GoodDisk, SameHome, HeadN;
  }

  lemma {:induction false} RunningOps(L: Layout, s: State)
    requires OpsInv(L, s) && s.ops != []
    ensures s.phase.Running?
  {
  }

  lemma {:induction false} ModifyKeeps(L: Layout, s: State, o: nat, b: nat, x: Block, s': State)
    requires Inv(L, s) && ModifyStep(L, s, o, b, x, s')
    ensures Inv(L, s')
  {
    hide GoodDisk, Listed, SameHome, Recovered, OpsInv, CacheInv, PhaseInv, Hot;
    ModifyOps(L, s, o, b, x, s');
    ModifyCache(s, o, b, x, s');
    RunningOps(L, s);
    RunningKept(L, s, s');
    Together(L, s, s');
  }

  // log_write.

  lemma {:induction false} TestOps(L: Layout, s: State, o: nat, b: nat, s': State)
    requires OpsInv(L, s) && TestStep(L, s, o, b, s')
    ensures OpsInv(L, s') && forall c :: Hot(s', c) <==> Hot(s, c)
  {
    UnusedUpdate(s.ops, o, s'.ops[o]);
    HotUpdate(s, s', o, s'.ops[o]);
    hide Unused, InLog;
    forall p | 0 <= p < |s'.ops| ensures OpInv(L, |s'.disk|, s'.blocks, s'.cache.Keys, s'.ops[p]) {
      assert OpInv(L, |s.disk|, s.blocks, s.cache.Keys, s.ops[p]);
    }
  }

  lemma {:induction false} TestKeeps(L: Layout, s: State, o: nat, b: nat, s': State)
    requires Inv(L, s) && TestStep(L, s, o, b, s')
    ensures Inv(L, s')
  {
    hide GoodDisk, Listed, SameHome, Recovered, OpsInv, CacheInv, PhaseInv, Hot;
    TestOps(L, s, o, b, s');
    CacheKept(s, s');
    PhaseKept(L, s, s');
    Together(L, s, s');
  }

  // The reservation arithmetic of one log_write.
  lemma {:induction false} EnterCounts(L: Layout, s: State, o: nat, b: nat, op: Op)
    requires OpsInv(L, s) && o < |s.ops| && s.phase.Running?
    requires b in s.ops[o].logged || |s.ops[o].logged| < MAXOPBLOCKS
    requires op.logged == s.ops[o].logged + {b}
    ensures |op.logged| <= MAXOPBLOCKS
    ensures |Logs(s.blocks, b)| + Unused(s.ops[o := op]) <= LOGSIZE
  {
    UnusedUpdate(s.ops, o, op);
    assert OpInv(L, |s.disk|, s.blocks, s.cache.Keys, s.ops[o]);
    if b in s.ops[o].logged {
      assert op.logged == s.ops[o].logged;
    }
  }

  lemma {:induction false} EnterOps(L: Layout, s: State, o: nat, s': State)
    requires OpsInv(L, s) && EnterStep(L, s, o, s')
    ensures OpsInv(L, s')
  {
    assert OpInv(L, |s.disk|, s.blocks, s.cache.Keys, s.ops[o]);
    EnterCounts(L, s, o, s.ops[o].inside.value, s'.ops[o]);
    hide Unused, InLog;
    assert s'.cache.Keys == s.cache.Keys;
    forall p | 0 <= p < |s'.ops| ensures OpInv(L, |s'.disk|, s'.blocks, s'.cache.Keys, s'.ops[p]) {
      assert OpInv(L, |s.disk|, s.blocks, s.cache.Keys, s.ops[p]);
    }
  }

  lemma {:induction false} EnterCache(s: State, o: nat, b: nat, op: Op, s': State)
    requires CacheInv(s) && o < |s.ops| && b in s.cache && op.hot == s.ops[o].hot - {b}
    requires s'.disk == s.disk && s'.ops == s.ops[o := op] && s'.blocks == Logs(s.blocks, b)
    requires s'.cache == s.cache[b := s.cache[b].(dirty := true)]
    ensures CacheInv(s')
  {
    HotUpdate(s, s', o, op);
    assert forall c :: c != b && Hot(s, c) ==> Hot(s', c);
  }

  // A logged block joins the transaction and is pinned.
  lemma {:induction false} EnterBlocks(L: Layout, s: State, b: nat, s': State)
    requires Listed(L, |s.disk|, s.blocks) && PinnedFrom(s, 0) && |s'.blocks| <= LOGSIZE
    requires b in s.cache && b < |s.disk| && b < 0x1_0000_0000 && !InLog(L, b)
    requires s'.blocks == Logs(s.blocks, b) && s'.cache == s.cache[b := s.cache[b].(dirty := true)]
    ensures Listed(L, |s.disk|, s'.blocks) && PinnedFrom(s', 0)
  {
    assert forall i :: 0 <= i < |s.blocks| ==> s.blocks[i] in s.blocks;
  }

  // What a call inside log_write is about to enter.
  lemma {:induction false} InsideIs(L: Layout, s: State, o: nat)
    requires OpsInv(L, s) && o < |s.ops| && s.ops[o].inside.Some?
    ensures s.phase.Running? && L.size >= 2
    ensures
      var b := s.ops[o].inside.value;
      b in s.cache && b < |s.disk| && b < 0x1_0000_0000 && !InLog(L, b)
  {
    assert OpInv(L, |s.disk|, s.blocks, s.cache.Keys, s.ops[o]);
  }

  lemma {:induction false} EnoughRoom(L: Layout, s: State)
    requires OpsInv(L, s) && s.phase.Running? && LongLog(L) && L.size >= 2
    ensures |s.blocks| <= LOGSIZE && Fits(L, |s.blocks|)
  {
    UnusedPositive(L, s, s.ops);
  }

  lemma {:induction false} EnterPhase(L: Layout, s: State, s': State)
    requires GoodDisk(L, s.disk) && PhaseInv(L, s) && s.phase.Running? && s'.phase.Running?
    requires s'.disk == s.disk && s'.saved == s.saved && PinnedFrom(s', 0) && Fits(L, |s'.blocks|)
    ensures PhaseInv(L, s')
  {
    hide GoodDisk, SameHome, HeadN, PinnedFrom, Fits;
  }

  lemma {:induction false} PhasePins(L: Layout, s: State)
    requires Inv(L, s) && s.phase.Running?
    ensures PinnedFrom(s, 0)
  {
    hide GoodDisk, SameHome, HeadN, PinnedFrom, Fits, OpsInv, CacheInv, Listed, Recovered;
  }

  lemma {:induction false} EnterKeeps(L: Layout, s: State, o: nat, s': State)
    requires Inv(L, s) && EnterStep(L, s, o, s') && LongLog(L)
    ensures Inv(L, s')
  {
    hide GoodDisk, Listed, SameHome, Recovered, OpsInv, CacheInv, PhaseInv, PinnedFrom, Fits, Logs, InLog, LongLog;
    var b := s.ops[o].inside.value;
    EnterOps(L, s, o, s');
    EnterCache(s, o, b, s'.ops[o], s');
    InsideIs(L, s, o);
    EnoughRoom(L, s');
    PhasePins(L, s);
    EnterBlocks(L, s, b, s');
    EnterPhase(L, s, s');
  }

  lemma {:induction false} EndHot(s: State, o: nat, s': State)
    requires o < |s.ops| && s.ops[o].hot == {} && s'.ops == s.ops[..o] + s.ops[o + 1..]
    ensures forall b :: Hot(s', b) <==> Hot(s, b)
  {
    forall b ensures Hot(s', b) <==> Hot(s, b) {
      if Hot(s, b) {
        var p :| 0 <= p < |s.ops| && b in s.ops[p].hot;
        assert b in s'.ops[if p < o then p else p - 1].hot;
      }
    }
  }

  lemma {:induction false} EndOps(L: Layout, s: State, o: nat, s': State)
    requires OpsInv(L, s) && EndStep(L, s, o, s')
    ensures OpsInv(L, s')
  {
    UnusedRemove(s.ops, o);
    hide Unused, InLog;
    assert OpInv(L, |s.disk|, s.blocks, s.cache.Keys, s.ops[o]);
    forall p | 0 <= p < |s'.ops| ensures OpInv(L, |s'.disk|, s'.blocks, s'.cache.Keys, s'.ops[p]) {
      assert s'.ops[p] == s.ops[if p < o then p else p + 1];
    }
  }

  lemma {:induction false} EndKeeps(L: Layout, s: State, o: nat, s': State)
    requires Inv(L, s) && EndStep(L, s, o, s')
    ensures Inv(L, s')
  {
    hide GoodDisk, Listed, SameHome, Recovered, OpsInv, CacheInv, PhaseInv, Hot;
    EndOps(L, s, o, s');
    EndHot(s, o, s');
    CacheKept(s, s');
    RunningOps(L, s);
    EndPhase(L, s, s');
    Together(L, s, s');
  }

  lemma {:induction false} EndPhase(L: Layout, s: State, s': State)
    requires GoodDisk(L, s.disk) && PhaseInv(L, s) && s.phase.Running? && (s'.phase.Running? || s'.phase == Logging(0))
    requires s'.disk == s.disk && s'.saved == s.saved && s'.cache == s.cache && s'.blocks == s.blocks
    ensures PhaseInv(L, s')
  {
    hide GoodDisk, SameHome, HeadN, Fits;
  }

  lemma {:induction false} UnusedPositive(L: Layout, s: State, ops: seq<Op>)
    requires forall p :: 0 <= p < |ops| ==> OpInv(L, |s.disk|, s.blocks, s.cache.Keys, ops[p])
    ensures Unused(ops) >= 0
  {
    if ops != [] {
      OneOfUnused(L, s, ops, 0);
    }
  }

  lemma {:induction false} UnusedBound(ops: seq<Op>)
    ensures Unused(ops) <= MAXOPBLOCKS * |ops|
  {
    if ops != [] { UnusedBound(ops[..|ops| - 1]); }
  }

  // With no call running, the bookkeeping of calls is trivial.
  lemma {:induction false} NoOps(L: Layout, s: State)
    requires s.ops == [] && |s.blocks| <= LOGSIZE
    ensures OpsInv(L, s) && forall b :: !Hot(s, b)
  {
  }

  // A bwrite keeps the cache in step with the disk.
  lemma {:induction false} BwriteCache(s: State, b: nat, x: Block, s': State)
    requires CacheInv(s) && s.ops == [] == s'.ops && b < |s.disk|
    requires s'.disk == s.disk[b := x] && s'.cache == s.cache[b := Cell(x, false)] && s'.blocks == s.blocks
    ensures CacheInv(s')
  {
    assert forall c :: !Hot(s, c) && !Hot(s', c);
  }

  // The disk writes: each is one of the four kinds of RedoLog, interleaved with the steps above.

  lemma {:induction false} NothingHot(L: Layout, s: State)
    requires Inv(L, s) && !s.phase.Running?
    ensures s.ops == [] && (forall b :: !Hot(s, b)) && |s.blocks| <= LOGSIZE
  {
  }

  // Past the first log write the list fits the log area.
  lemma {:induction false} LogFits(L: Layout, s: State)
    requires Inv(L, s) && !s.phase.Running? && (s.phase == Logging(0) ==> |s.blocks| < Bio.NBUF)
    ensures L.start + L.size <= |s.disk| && |s.blocks| < L.size && GoodBlocks(L, |s.disk|, s.blocks)
  {
    hide SameHome, Recovered, Logged, HeadBlocks, HeadN, OpsInv, CacheInv, PinnedFrom, Listed;
  }

  // Each listed block has its buffer; so a list as long as the cache leaves none for the log block.
  lemma {:induction false} ManyPinned(L: Layout, s: State)
    requires Listed(L, |s.disk|, s.blocks) && PinnedFrom(s, 0)
    ensures |s.blocks| <= |Dirty(s)|
  {
    SetSize(s.blocks);
    SubsetCount(SetOf(s.blocks), Dirty(s));
  }

  lemma {:induction false} CopyFits(L: Layout, s: State)
    requires Inv(L, s) && s.phase.Logging? && HasBuffer(Dirty(s), L.start + 1 + s.phase.k)
    ensures |s.blocks| < L.size && GoodBlocks(L, |s.disk|, s.blocks)
  {
    hide SameHome, Recovered, Logged, HeadBlocks, HeadN, OpsInv;
    ManyPinned(L, s);
    assert CacheInv(s) && forall b :: b in Dirty(s) ==> b in s.blocks && !InLog(L, b);
  }

  // Copying block k of the transaction into the log area.
  lemma {:induction false} WriteLogDisk(L: Layout, s: State, k: nat)
    requires Inv(L, s) && s.phase == Logging(k) && k < |s.blocks| < L.size
    ensures s.blocks[k] in s.cache && L.start + 1 + k !in s.blocks
    ensures
      var d := s.disk[L.start + 1 + k := s.cache[s.blocks[k]].data];
      && GoodDisk(L, d) && HeadN(d[L.start]) == 0
      && SameHome(L, d, s.saved) && SameHome(L, Recovered(L, d), s.saved)
  {
    var d := s.disk[L.start + 1 + k := s.cache[s.blocks[k]].data];
    assert d[L.start] == s.disk[L.start];
    assert SameHome(L, d, s.disk);
  }

  lemma {:induction false} WriteLogKeeps(L: Layout, s: State, s': State)
    requires Inv(L, s) && WriteLogStep(L, s, s')
    ensures Inv(L, s')
  {
    hide OpsInv, CacheInv, Hot, HeadN, GoodDisk, SameHome, Recovered, GoodBlocks;
    var k := s.phase.k;
    NothingHot(L, s);
    NoOps(L, s');
    CopyFits(L, s);
    WriteLogDisk(L, s, k);
    BwriteCache(s, L.start + 1 + k, Look(s, s.blocks[k]), s');
    assert forall i :: 0 <= i < |s.blocks| ==> s'.cache[s.blocks[i]] == s.cache[s.blocks[i]];
  }

  // The commit point on disk: what recovery now gives is the cached view.
  lemma {:induction false} WriteHeadDisk(L: Layout, s: State)
    requires Inv(L, s) && s.phase == Logging(|s.blocks|)
    ensures L.start !in s.blocks && Look(s, L.start) == s.disk[L.start]
    ensures
      var d := s.disk[L.start := PutHead(s.disk[L.start], s.blocks)];
      && GoodDisk(L, d) && HeadBlocks(d[L.start]) == s.blocks
      && SameHome(L, Recovered(L, d), Logical(s))
      && Logged(L, d, |s.blocks|) == Logged(L, s.disk, |s.blocks|)
  {
    NothingHot(L, s);
    LogFits(L, s);
    var vals := Logged(L, s.disk, |s.blocks|);
    HeaderCommits(L, s.disk, s.blocks, vals);
    SavedIsOverlay(L, s, vals);
  }

  lemma {:induction false} WriteHeadKeeps(L: Layout, s: State, s': State)
    requires Inv(L, s) && WriteHeadStep(L, s, s')
    ensures Inv(L, s')
  {
    hide OpsInv, CacheInv, Hot, HeadN, HeadBlocks, GoodDisk, SameHome, Recovered;
    hide PutHead;
    NothingHot(L, s);
    NoOps(L, s');
    WriteHeadDisk(L, s);
    assert forall i :: 0 <= i < |s.blocks| ==> s.blocks[i] != L.start;
    BwriteCache(s, L.start, PutHead(s.disk[L.start], s.blocks), s');
  }

  // When every logged copy is made, the cached view is the disk overlaid with the log.
  lemma {:induction false} SavedIsOverlay(L: Layout, s: State, vals: seq<Block>)
    requires Inv(L, s) && s.phase == Logging(|s.blocks|) && |s.blocks| < L.size
    requires vals == Logged(L, s.disk, |s.blocks|)
    ensures SameHome(L, Overlay(s.disk, s.blocks, vals, |s.blocks|), Logical(s))
  {
    forall b | 0 <= b < |s.disk| && !InLog(L, b)
      ensures Overlay(s.disk, s.blocks, vals, |s.blocks|)[b] == Logical(s)[b]
    {
      OverlayAt(L, s.disk, s.blocks, vals, |s.blocks|, b);
      assert s.blocks[..|s.blocks|] == s.blocks;
      LoggedLook(L, s, b);
    }
  }

  lemma {:induction false} LoggedLook(L: Layout, s: State, b: nat)
    requires Inv(L, s) && s.phase == Logging(|s.blocks|) && |s.blocks| < L.size && b < |s.disk|
    ensures b !in s.blocks ==> Look(s, b) == s.disk[b]
    ensures forall i :: 0 <= i < |s.blocks| && s.blocks[i] == b ==> Look(s, b) == Logged(L, s.disk, |s.blocks|)[i]
  {
    NothingHot(L, s);
    hide OpsInv, Hot, HeadN, Recovered, SameHome;
    forall i | 0 <= i < |s.blocks| && s.blocks[i] == b ensures Look(s, b) == Logged(L, s.disk, |s.blocks|)[i] {
      assert s.disk[L.start + 1 + i] == s.cache[s.blocks[i]].data;
    }
  }

  // An install loop reads a log block as it is on disk.
  lemma {:induction false} LogBlockRead(L: Layout, s: State, k: nat)
    requires Inv(L, s) && (s.phase.Installing? || s.phase.Recovering?) && k < |s.blocks|
    ensures L.start + 1 + k < |s.disk| && Look(s, L.start + 1 + k) == s.disk[L.start + 1 + k]
  {
    NothingHot(L, s);
    LogFits(L, s);
    hide OpsInv, Hot, HeadN, PhaseInv, Recovered, SameHome;
    assert L.start + 1 + k !in s.blocks;
  }

  // And what it writes home leaves the outcome of recovery alone.
  lemma {:induction false} InstallWrites(L: Layout, s: State, k: nat)
    requires Inv(L, s) && (s.phase == Installing(k) || s.phase == Recovering(k)) && k < |s.blocks|
    ensures Look(s, L.start + 1 + k) == s.disk[L.start + 1 + k]
    ensures
      var d := s.disk[s.blocks[k] := s.disk[L.start + 1 + k]];
      && GoodDisk(L, d) && d[L.start] == s.disk[L.start]
      && Logged(L, d, |s.blocks|) == Logged(L, s.disk, |s.blocks|)
      && SameHome(L, Recovered(L, d), s.saved)
  {
    hide OpsInv, CacheInv, HeadN, Recovered;
    LogFits(L, s);
    LogBlockRead(L, s, k);
    assert !InLog(L, s.blocks[k]);
    InstallOneHarmless(L, s.disk, s.blocks, Logged(L, s.disk, |s.blocks|), k);
  }

  lemma {:induction false} InstallKeeps(L: Layout, s: State, s': State)
    requires Inv(L, s) && InstallStep(L, s, s')
    ensures Inv(L, s')
  {
    hide Recovered, SameHome, HeadN, HeadBlocks, GoodDisk, OpsInv, CacheInv, Hot, PhaseInv, GoodBlocks, Logged;
    var k := s.phase.k;
    NothingHot(L, s);
    NoOps(L, s');
    InstallWrites(L, s, k);
    BwriteCache(s, s.blocks[k], Look(s, L.start + 1 + k), s');
    LogFits(L, s);
    LoggedAt(L, s.disk, |s.blocks|, k);
    InstallPhase(L, s, s', k, Logged(L, s.disk, |s.blocks|));
  }

  // The phase's facts while blocks are installed, in terms of the logged contents.
  ghost predicate Installs(L: Layout, s: State, k: nat, vals: seq<Block>)
    requires L.start < |s.disk| && HeadN(s.disk[L.start]) <= LOGSIZE
  {
    && HeadBlocks(s.disk[L.start]) == s.blocks && PinnedFrom(s, k) && Done(s, vals, k)
    && (forall i :: k <= i < |s.blocks| && s.blocks[i] in s.cache ==> s.cache[s.blocks[i]].data == vals[i])
    && (forall i :: 0 <= i < k && s.blocks[i] in s.cache ==> !s.cache[s.blocks[i]].dirty)
  }

  lemma {:induction false} InstallsIs(L: Layout, s: State)
    requires GoodDisk(L, s.disk) && GoodBlocks(L, |s.disk|, s.blocks) && s.phase.Installing?
    ensures PhaseInv(L, s) <==> Installs(L, s, s.phase.k, Logged(L, s.disk, |s.blocks|))
  {
    hide HeadN, HeadBlocks;
    var vals := Logged(L, s.disk, |s.blocks|);
    hide GoodBlocks;
    assert forall i :: 0 <= i < |s.blocks| ==> vals[i] == s.disk[L.start + 1 + i];
  }

  // One block installed.
  lemma {:induction false} InstallOne(L: Layout, s: State, s': State, k: nat, vals: seq<Block>)
    requires L.start < |s.disk| && HeadN(s.disk[L.start]) <= LOGSIZE && GoodBlocks(L, |s.disk|, s.blocks)
    requires k < |s.blocks| && Installs(L, s, k, vals) && s'.blocks == s.blocks &&
      s'.cache == s.cache[s.blocks[k] := Cell(vals[k], false)]
    requires s'.disk == s.disk[s.blocks[k] := vals[k]] && s'.disk[L.start] == s.disk[L.start]
    ensures Installs(L, s', k + 1, vals)
  {
    hide HeadN, HeadBlocks;
    Distinct(L, |s.disk|, s.blocks, k);
    hide InLog;
  }

  lemma {:induction false} InstallPhase(L: Layout, s: State, s': State, k: nat, vals: seq<Block>)
    requires GoodDisk(L, s.disk) && GoodBlocks(L, |s.disk|, s.blocks) && PhaseInv(L, s)
    requires s.phase == Installing(k) && k < |s.blocks| && vals == Logged(L, s.disk, |s.blocks|)
    requires s'.blocks == s.blocks && s'.phase == Installing(k + 1) && s.blocks[k] < |s.disk|
    requires s'.disk == s.disk[s.blocks[k] := vals[k]] && s'.cache == s.cache[s.blocks[k] := Cell(vals[k], false)]
    requires GoodDisk(L, s'.disk) && s'.disk[L.start] == s.disk[L.start] && Logged(L, s'.disk, |s.blocks|) == vals
    ensures PhaseInv(L, s')
  {
    hide PhaseInv, Installs, Logged, HeadBlocks, HeadN, Listed, InLog;
    InstallsIs(L, s);
    InstallOne(L, s, s', k, vals);
    InstallsIs(L, s');
  }

  lemma {:induction false} LoggedAt(L: Layout, d: Disk, n: nat, k: nat)
    requires L.start + L.size <= |d| && k < n < L.size
    ensures Logged(L, d, n)[k] == d[L.start + 1 + k]
  {
  }

  lemma {:induction false} Distinct(L: Layout, size: nat, bs: seq<nat>, k: nat)
    requires GoodBlocks(L, size, bs) && k < |bs|
    ensures forall i :: 0 <= i < |bs| && i != k ==> bs[i] != bs[k]
  {
  }

  lemma {:induction false} RecoverInstallKeeps(L: Layout, s: State, s': State)
    requires Inv(L, s) && RecoverInstallStep(L, s, s')
    ensures Inv(L, s')
  {
    hide Recovered, SameHome, HeadN, HeadBlocks, OpsInv, CacheInv, Hot, GoodDisk;
    var k := s.phase.k;
    NothingHot(L, s);
    NoOps(L, s');
    InstallWrites(L, s, k);
    BwriteCache(s, s.blocks[k], Look(s, L.start + 1 + k), s');
    assert forall i :: 0 <= i < |s.blocks| && i != k ==> s.blocks[i] != s.blocks[k];
  }

  // With every block home, the disk is its own recovery, and stays so when the header is erased.
  lemma {:induction false} EraseDisk(L: Layout, s: State)
    requires Inv(L, s) && (s.phase == Installing(|s.blocks|) || s.phase == Recovering(|s.blocks|))
    ensures Look(s, L.start) == s.disk[L.start]
    ensures
      var d := s.disk[L.start := PutHead(s.disk[L.start], [])];
      && GoodDisk(L, d) && HeadN(d[L.start]) == 0
      && SameHome(L, Recovered(L, d), s.saved) && SameHome(L, d, s.saved)
  {
    NothingHot(L, s);
    LogFits(L, s);
    assert L.start !in s.blocks;
    HeadRoundTrip(s.disk[L.start], []);
    InstalledIsRecovered(L, s.disk, s.blocks, Logged(L, s.disk, |s.blocks|));
  }

  lemma {:induction false} EraseKeeps(L: Layout, s: State, s': State)
    requires Inv(L, s) && (EraseStep(L, s, s') || RecoverEraseStep(L, s, s'))
    ensures Inv(L, s')
  {
    hide Recovered, HeadN, HeadBlocks, GoodDisk, PutHead, SameHome, OpsInv;
    NothingHot(L, s);
    NoOps(L, s');
    EraseDisk(L, s);
    assert forall c :: c in s'.cache ==> !s'.cache[c].dirty;
  }

  lemma {:induction false} CrashKeeps(L: Layout, s: State, s': State)
    requires Inv(L, s) && CrashStep(L, s, s')
    ensures Inv(L, s')
  {
  }

  lemma {:induction false} UnusedUpdate(ops: seq<Op>, o: nat, op: Op)
    requires o < |ops|
    ensures Unused(ops[o := op]) == Unused(ops) + |ops[o].logged| - |op.logged|
  {
    var last := |ops| - 1;
    if o < last {
      UnusedUpdate(ops[..last], o, op);
      assert ops[o := op][..last] == ops[..last][o := op];
    } else {
      assert ops[o := op][..last] == ops[..last];
    }
  }

  lemma {:induction false} UnusedRemove(ops: seq<Op>, o: nat)
    requires o < |ops|
    ensures Unused(ops[..o] + ops[o + 1..]) == Unused(ops) - (MAXOPBLOCKS - |ops[o].logged|)
  {
    var last := |ops| - 1;
    var rest := ops[..o] + ops[o + 1..];
    if o < last {
      UnusedRemove(ops[..last], o);
      assert rest[..last - 1] == ops[..last][..o] + ops[..last][o + 1..];
    } else {
      assert rest == ops[..last];
    }
  }

  // Whole runs.

  lemma {:induction false} NextKeeps(L: Layout, s: State, step: Step, s': State)
    requires Inv(L, s) && Next(L, s, step, s') && LongLog(L)
    ensures Inv(L, s')
  {
    hide Inv, LongLog;
    hide BeginStep, ReadStep, EvictStep, ModifyStep, TestStep, EnterStep, EndStep, WriteLogStep, WriteHeadStep;
    hide InstallStep, EraseStep, CrashStep, RecoverInstallStep, RecoverEraseStep;
    match step
    case Begin => BeginKeeps(L, s, s');
    case Read(b) => ReadKeeps(L, s, b, s');
    case Evict(b) => EvictKeeps(L, s, b, s');
    case Modify(o, b, x) => ModifyKeeps(L, s, o, b, x, s');
    case Test(o, b) => TestKeeps(L, s, o, b, s');
    case Enter(o) => EnterKeeps(L, s, o, s');
    case End(o) => EndKeeps(L, s, o, s');
    case WriteLog => WriteLogKeeps(L, s, s');
    case WriteHead => WriteHeadKeeps(L, s, s');
    case Install => InstallKeeps(L, s, s');
    case Erase => EraseKeeps(L, s, s');
    case Crash => CrashKeeps(L, s, s');
    case RecoverInstall => RecoverInstallKeeps(L, s, s');
    case RecoverErase => EraseKeeps(L, s, s');
  }

  lemma {:induction false} RunInv(L: Layout, run: seq<State>, steps: seq<Step>, i: nat)
    requires IsRun(L, run, steps) && i < |run| && LongLog(L)
    ensures Inv(L, run[i])
  {
    if i == 0 {
      InitInv(L, run[0]);
    } else {
      hide Inv, Next, Init, LongLog;
      RunInv(L, run, steps, i - 1);
      NextKeeps(L, run[i - 1], steps[i - 1], run[i]);
    }
  }

  // What the calls do to the reservations does not depend on the size of the log area.
  lemma {:induction false} NextOps(L: Layout, s: State, step: Step, s': State)
    requires OpsInv(L, s) && Next(L, s, step, s')
    ensures OpsInv(L, s')
  {
    hide OpsInv;
    hide BeginStep, ReadStep, EvictStep, ModifyStep, TestStep, EnterStep, EndStep;
    match step
    case Begin => BeginOps(L, s, s');
    case Read(b) => ReadOps(L, s, b, s');
    case Evict(b) => EvictOps(L, s, b, s');
    case Modify(o, b, x) => ModifyOps(L, s, o, b, x, s');
    case Test(o, b) => TestOps(L, s, o, b, s');
    case Enter(o) => EnterOps(L, s, o, s');
    case End(o) => EndOps(L, s, o, s');
    case WriteLog => WriteOps(L, s, s');
    case WriteHead => WriteOps(L, s, s');
    case Install => WriteOps(L, s, s');
    case Erase => WriteOps(L, s, s');
    case Crash => WriteOps(L, s, s');
    case RecoverInstall => WriteOps(L, s, s');
    case RecoverErase => WriteOps(L, s, s');
  }

  // No call runs while a commit, a crash or a recovery writes.
  lemma {:induction false} WriteOps(L: Layout, s: State, s': State)
    requires OpsInv(L, s)
    requires (s'.ops == s.ops && !s.phase.Running?) || (s'.ops == [] && s'.phase.Recovering?)
    requires !s.phase.Recovering? && !s'.phase.Recovering? ==> |s'.blocks| <= |s.blocks|
    requires s.phase.Recovering? && !s'.phase.Recovering? ==> s'.blocks == []
    ensures OpsInv(L, s')
  {
  }

  lemma {:induction false} RunOps(L: Layout, run: seq<State>, steps: seq<Step>, i: nat)
    requires IsRun(L, run, steps) && i < |run|
    ensures OpsInv(L, run[i])
  {
    if i > 0 {
      hide OpsInv, Next, Init;
      RunOps(L, run, steps, i - 1);
      NextOps(L, run[i - 1], steps[i - 1], run[i]);
    }
  }

  // Cut the power in any state of any run and boot, with recoveries interrupted anywhere any number of
  // times: the home blocks are the last state a header write made durable.
  lemma {:induction false} RunCrashSafe(L: Layout, run: seq<State>, steps: seq<Step>, i: nat, ks: seq<nat>)
    requires IsRun(L, run, steps) && i < |run| && LongLog(L)
    ensures GoodDisk(L, run[i].disk)
    ensures SameHome(L, AfterBoots(L, run[i].disk, ks), run[i].saved)
  {
    RunInv(L, run, steps, i);
    RecoveryIdempotent(L, run[i].disk, ks);
  }

  // Until the header write, no block of the open transaction has reached its home.
  lemma {:induction false} UncommittedStaysOffDisk(L: Layout, run: seq<State>, steps: seq<Step>, i: nat)
    requires IsRun(L, run, steps) && i < |run| && (run[i].phase.Running? || run[i].phase.Logging?) && LongLog(L)
    ensures SameHome(L, run[i].disk, run[i].saved)
    ensures forall j :: 0 <= j < |run[i].blocks| ==>
      run[i].blocks[j] in run[i].cache && run[i].cache[run[i].blocks[j]].dirty
  {
    RunInv(L, run, steps, i);
  }

  // What is durable changes only at a commit's header write, made with no call running, and becomes
  // the view every reader then has: all the calls of the group or none.
  lemma {:induction false} DurableMovesAtCommit(L: Layout, run: seq<State>, steps: seq<Step>, i: nat)
    requires IsRun(L, run, steps) && i < |steps| && run[i + 1].saved != run[i].saved
    ensures steps[i] == WriteHead && run[i].ops == [] && run[i + 1].saved == Logical(run[i])
  {
    RunOps(L, run, steps, i);
  }

  // Between the header write and the erasure readers see exactly what is durable.
  lemma {:induction false} CommittedView(L: Layout, s: State)
    requires Inv(L, s) && s.phase.Installing?
    ensures SameHome(L, Logical(s), s.saved)
  {
    forall b | 0 <= b < |s.disk| && !InLog(L, b) ensures Look(s, b) == Recovered(L, s.disk)[b] {
      CommittedLook(L, s, b);
    }
  }

  lemma {:induction false} CommittedBlock(L: Layout, s: State, i: nat)
    requires Inv(L, s) && s.phase.Installing? && i < |s.blocks| < L.size
    ensures Look(s, s.blocks[i]) == Logged(L, s.disk, |s.blocks|)[i]
  {
    NothingHot(L, s);
    LogFits(L, s);
    hide OpsInv, Hot, SameHome, Recovered, GoodDisk, HeadBlocks, HeadN, GoodBlocks, PhaseInv, Logged;
    InstallsIs(L, s);
  }

  lemma {:induction false} CommittedLook(L: Layout, s: State, b: nat)
    requires Inv(L, s) && s.phase.Installing? && b < |s.disk|
    ensures Look(s, b) == Recovered(L, s.disk)[b]
  {
    var n := |s.blocks|;
    LogFits(L, s);
    OverlayAt(L, s.disk, s.blocks, Logged(L, s.disk, n), n, b);
    assert s.blocks[..n] == s.blocks;
    NothingHot(L, s);
    hide OpsInv, Hot, SameHome, GoodBlocks, Overlay;
    if b in s.blocks {
      var i :| 0 <= i < n && s.blocks[i] == b;
      CommittedBlock(L, s, i);
    }
  }

  // Only a caller's own change, a crash and the redoing of a committed log alter what readers see;
  // reading, eviction, logging, committing and installing do not.
  lemma {:induction false} ViewStable(L: Layout, s: State, step: Step, s': State)
    requires Inv(L, s) && Next(L, s, step, s') && !step.Modify? && !step.Crash? && !step.RecoverInstall?
    ensures SameHome(L, Logical(s), Logical(s'))
  {
    if step.Install? {
      hide Inv, Next, SameHome, Logical;
      InstallView(L, s, s');
    } else if step.Evict? {
      assert CacheInv(s);
      hide Inv, SameHome;
      assert forall b :: 0 <= b < |s.disk| ==> Look(s', b) == Look(s, b);
      assert Logical(s') == Logical(s);
      SameHomeRefl(L, Logical(s));
    } else {
      hide Inv, PutHead, CacheInv, Hot;
      assert |s'.disk| == |s.disk|;
      assert forall b :: 0 <= b < |s.disk| && !InLog(L, b) ==> Look(s', b) == Look(s, b) by {
        hide SameHome;
        if step.WriteLog? {
          CopyFits(L, s);
        }
        LogAreaOnly(L, s, step, s');
      }
    }
  }

  lemma {:induction false} InstallView(L: Layout, s: State, s': State)
    requires Inv(L, s) && InstallStep(L, s, s')
    ensures SameHome(L, Logical(s), Logical(s'))
  {
    CommittedView(L, s);
    InstallKeeps(L, s, s');
    CommittedView(L, s');
    assert s'.saved == s.saved;
    hide Inv, Next, Logical;
  }

  // The other steps write no home block, on disk or in the cache.
  lemma {:induction false} LogAreaOnly(L: Layout, s: State, step: Step, s': State)
    requires GoodDisk(L, s.disk) && Next(L, s, step, s') && (step.WriteLog? ==> |s.blocks| < L.size)
    requires step.Begin? || step.Read? || step.Test? || step.Enter? || step.End? || step.WriteLog? || step.WriteHead? ||
      step.Erase? || step.RecoverErase?
    ensures |s'.disk| == |s.disk|
    ensures forall b :: 0 <= b < |s.disk| && !InLog(L, b) ==> Look(s', b) == Look(s, b)
  {
    hide HeadN, HeadBlocks, PutHead, GoodBlocks;
    assert step.WriteLog? ==> InLog(L, L.start + 1 + s.phase.k);
  }

  lemma {:induction false} SameHomeRefl(L: Layout, d: Disk)
    ensures SameHome(L, d, d)
  {
  }

  // Reservations.

  // commit runs only when no call is running; in particular end_op's panic "log.committing" needs a
  // running call in a phase where there is none.
  lemma {:induction false} CommitRunsAlone(L: Layout, run: seq<State>, steps: seq<Step>, i: nat)
    requires IsRun(L, run, steps) && i < |run|
    ensures run[i].ops != [] ==> run[i].phase.Running?
  {
    RunOps(L, run, steps, i);
  }

  // What the log holds plus what running calls may still add never exceeds LOGSIZE.
  lemma {:induction false} ReservationHolds(L: Layout, run: seq<State>, steps: seq<Step>, i: nat)
    requires IsRun(L, run, steps) && i < |run| && !run[i].phase.Recovering?
    ensures |run[i].blocks| + Unused(run[i].ops) <= LOGSIZE
    ensures forall o :: 0 <= o < |run[i].ops| ==> MAXOPBLOCKS - |run[i].ops[o].logged| <= Unused(run[i].ops)
  {
    RunOps(L, run, steps, i);
    forall o | 0 <= o < |run[i].ops| ensures MAXOPBLOCKS - |run[i].ops[o].logged| <= Unused(run[i].ops) {
      OneOfUnused(L, run[i], run[i].ops, o);
    }
  }

  lemma {:induction false} OneOfUnused(L: Layout, s: State, ops: seq<Op>, o: nat)
    requires o < |ops| && forall p :: 0 <= p < |ops| ==> OpInv(L, |s.disk|, s.blocks, s.cache.Keys, ops[p])
    ensures 0 <= MAXOPBLOCKS - |ops[o].logged| <= Unused(ops)
  {
    var last := |ops| - 1;
    assert OpInv(L, |s.disk|, s.blocks, s.cache.Keys, ops[last]) && OpInv(L, |s.disk|, s.blocks, s.cache.Keys, ops[o]);
    if o < last {
      OneOfUnused(L, s, ops[..last], o);
    } else if last > 0 {
      OneOfUnused(L, s, ops[..last], 0);
    }
  }

  // A call that still has unused reservation never meets log_write's size panic, provided the log area
  // is larger than LOGSIZE.
  lemma {:induction false} ReservedLogWriteFits(L: Layout, run: seq<State>, steps: seq<Step>, i: nat, o: nat)
    requires IsRun(L, run, steps) && i < |run| && o < |run[i].ops| && |run[i].ops[o].logged| < MAXOPBLOCKS
    requires L.size > LOGSIZE
    ensures MayLog(L, |run[i].blocks|)
  {
    CommitRunsAlone(L, run, steps, i);
    ReservationHolds(L, run, steps, i);
  }
}
