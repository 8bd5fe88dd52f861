// Log areas that are too short: log_write tests the size before it takes the lock, so that calls which test
// together enter more blocks than the log area holds.
module LogShort {
  import opened Basics
  import opened Blocks
  import opened RedoLog
  import opened LogProtocol
  import Bio

  // How far into the list a run may go: the calls that are inside log_write, past the test.
  ghost function InFlight(ops: seq<Op>): nat {
    if ops == [] then 0
    else InFlight(ops[..|ops| - 1]) + if ops[|ops| - 1].inside.Some? then 1 else 0
  }

  lemma {:induction false} InFlightUpdate(ops: seq<Op>, o: nat, op: Op)
    requires o < |ops|
    ensures InFlight(ops[o := op]) ==
      InFlight(ops) + (if op.inside.Some? then 1 else 0) - if ops[o].inside.Some? then 1 else 0
  {
    var last := |ops| - 1;
    if o < last {
      InFlightUpdate(ops[..last], o, op);
      assert ops[o := op][..last] == ops[..last][o := op];
    } else {
      assert ops[o := op][..last] == ops[..last];
    }
  }

  lemma {:induction false} InFlightRemove(ops: seq<Op>, o: nat)
    requires o < |ops| && ops[o].inside.None?
    ensures InFlight(ops[..o] + ops[o + 1..]) == InFlight(ops)
  {
    var last := |ops| - 1;
    var rest := ops[..o] + ops[o + 1..];
    if o < last {
      InFlightRemove(ops[..last], o);
      assert rest[..last - 1] == ops[..last][..o] + ops[..last][o + 1..];
    } else {
      assert rest == ops[..last];
    }
  }

  lemma {:induction false} InFlightFew(ops: seq<Op>)
    ensures InFlight(ops) <= |ops|
  {
    if ops != [] {
      InFlightFew(ops[..|ops| - 1]);
    }
  }

  // At most three calls run, and those past the test enter at most so many blocks.
  ghost predicate FlightInv(L: Layout, s: State) {
    && (s.ops != [] ==> s.phase.Running?) && |s.ops| <= LOGSIZE / MAXOPBLOCKS
    && (!s.phase.Recovering? ==> |s.blocks| + InFlight(s.ops) <= L.size + 1)
  }

  lemma {:induction false} NextFlight(L: Layout, s: State, step: Step, s': State)
    requires FlightInv(L, s) && Next(L, s, step, s') && L.size >= 1
    ensures FlightInv(L, s')
  {
    hide FlightInv;
    if step.Begin? || step.Modify? || step.Test? || step.Enter? || step.End? {
      hide ReadStep, EvictStep, WriteLogStep, WriteHeadStep, InstallStep, EraseStep, CrashStep;
      CallFlight(L, s, step, s');
    } else {
      hide BeginStep, ModifyStep, TestStep, EnterStep, EndStep;
      OtherFlight(L, s, step, s');
    }
  }

  lemma {:induction false} CallFlight(L: Layout, s: State, step: Step, s': State)
    requires FlightInv(L, s) && Next(L, s, step, s')
    requires step.Begin? || step.Modify? || step.Test? || step.Enter? || step.End?
    ensures FlightInv(L, s')
  {
    hide Hot, InLog, InFlight, Unused;
    match step
    case Begin =>
      InFlightBegin(s.ops);
    case Modify(o, b, x) =>
      hide Logs, CanBegin;
      InFlightUpdate(s.ops, o, s'.ops[o]);
    case Test(o, b) =>
      hide Logs, CanBegin;
      InFlightUpdate(s.ops, o, s'.ops[o]);
      InFlightFew(s'.ops);
    case Enter(o) =>
      hide CanBegin;
      InFlightUpdate(s.ops, o, s'.ops[o]);
    case End(o) =>
      hide Logs, CanBegin;
      InFlightRemove(s.ops, o);
  }

  lemma {:induction false} InFlightBegin(ops: seq<Op>)
    ensures InFlight(ops + [NewOp()]) == InFlight(ops)
  {
    assert (ops + [NewOp()])[..|ops|] == ops;
  }

  lemma {:induction false} OtherFlight(L: Layout, s: State, step: Step, s': State)
    requires FlightInv(L, s) && Next(L, s, step, s') && L.size >= 1
    requires !(step.Begin? || step.Modify? || step.Test? || step.Enter? || step.End?)
    ensures FlightInv(L, s')
  {
    hide Look, Hot, Dirty, PutHead, HeadBlocks, HeadN, Logical, Logs;
  }

  // However calls interleave, the list never holds more than two blocks above what the test admits, nor more
  // than LOGSIZE.
  lemma {:induction false} NeverMore(L: Layout, run: seq<State>, steps: seq<Step>, i: nat)
    requires IsRun(L, run, steps) && i < |run| && !run[i].phase.Recovering?
    ensures |run[i].blocks| <= L.size + 1 && |run[i].blocks| <= LOGSIZE
  {
    hide Next, OpsInv;
    FlightRun(L, run, steps, i);
    RunOps(L, run, steps, i);
    ListBound(L, run[i]);
  }

  lemma {:induction false} ListBound(L: Layout, s: State)
    requires OpsInv(L, s) && !s.phase.Recovering?
    ensures |s.blocks| <= LOGSIZE
  {
    UnusedPositive(L, s, s.ops);
  }

  lemma {:induction false} FlightRun(L: Layout, run: seq<State>, steps: seq<Step>, i: nat)
    requires IsRun(L, run, steps) && i < |run|
    ensures FlightInv(L, run[i])
  {
    hide Next;
    if i > 0 {
      FlightRun(L, run, steps, i - 1);
      assert L.size >= 1;
      hide Init, FlightInv;
      NextFlight(L, run[i - 1], steps[i - 1], run[i]);
    }
  }

  // Runs that do it: three calls, all within their promise, log blocks base, base + 1, ... in turn, all with
  // content x. n are in the list, and the calls whose turn it is have w more past the test.

  // How many calls come before o, from the one whose turn it is when n blocks are listed.
  function Turn(n: nat, o: nat): (t: nat)
    requires o < 3
    ensures t < 3
  {
    if n % 3 <= o then o - n % 3 else o + 3 - n % 3
  }

  function Share(o: nat, n: nat): nat
    requires o < 3
  {
    if n % 3 <= o then n / 3 else n / 3 + 1
  }

  ghost predicate CallOk(op: Op, base: nat, n: nat, w: nat, o: nat)
    requires o < 3
  {
    && |op.logged| == Share(o, n) && (forall b :: b in op.logged ==> base <= b < base + n)
    && (if Turn(n, o) < w then op.inside == Some(base + n + Turn(n, o)) && op.hot == {base + n + Turn(n, o)}
        else op.inside == None && op.hot == {})
  }

  ghost predicate ListOk(blocks: seq<nat>, base: nat, n: nat) {
    |blocks| == n && forall i :: 0 <= i < n ==> blocks[i] == base + i
  }

  ghost predicate CacheOk(cache: map<nat, Cell>, base: nat, n: nat, w: nat, x: Block) {
    forall b :: (b in cache <==> base <= b < base + n + w) && (b in cache ==> cache[b] == Cell(x, b < base + n))
  }

  ghost predicate Filled(s: State, base: nat, n: nat, w: nat, x: Block) {
    && s.phase.Running? && |s.ops| == 3 && ListOk(s.blocks, base, n) && CacheOk(s.cache, base, n, w, x)
    && forall o :: 0 <= o < 3 ==> CallOk(s.ops[o], base, n, w, o)
  }

  lemma {:induction false} Turns(n: nat, o: nat)
    requires o < 3
    ensures Turn(n, n % 3) == 0 && Turn(n + 1, o) == (if Turn(n, o) == 0 then 2 else Turn(n, o) - 1)
    ensures 3 * Share(o, n) + o == n + Turn(n, o)
    ensures Share(o, n + 1) == Share(o, n) + if Turn(n, o) == 0 then 1 else 0
  {
    Thirds(n);
  }

  lemma {:induction false} Thirds(n: nat)
    ensures n == 3 * (n / 3) + n % 3 && n % 3 < 3
    ensures (n + 1) / 3 == (if n % 3 == 2 then n / 3 + 1 else n / 3)
    ensures (n + 1) % 3 == (if n % 3 == 2 then 0 else n % 3 + 1)
  {
  }

  lemma {:induction false} TurnIs(n: nat, w: nat, o: nat)
    requires w < 3 && o < 3
    ensures Turn(n, o) == w <==> o == (n + w) % 3
  {
    Thirds(n);
    Thirds(n + 1);
  }

  // A run whose cache never holds more blocks than there are buffers.
  ghost predicate Small(run: seq<State>) {
    forall i :: 0 <= i < |run| ==> |run[i].cache| <= Bio.NBUF
  }

  lemma {:induction false} CacheSize(cache: map<nat, Cell>, base: nat, m: nat)
    requires forall b :: b in cache <==> base <= b < base + m
    ensures |cache| == m
  {
    var s := seq(m, i requires 0 <= i < m => base + i);
    assert forall b :: b in cache ==> s[b - base] == b;
    SetSize(s);
    assert cache.Keys == SetOf(s);
  }

  lemma {:induction false} Extend(L: Layout, run: seq<State>, steps: seq<Step>, step: Step, s: State)
    requires IsRun(L, run, steps) && Small(run) && Next(L, run[|steps|], step, s) && |s.cache| <= Bio.NBUF
    ensures IsRun(L, run + [s], steps + [step]) && Small(run + [s])
  {
    hide Next, Init;
    var r, t := run + [s], steps + [step];
    forall i | 0 <= i < |t| ensures Next(L, r[i], t[i], r[i + 1]) {
      if i < |steps| {
        assert Next(L, run[i], steps[i], run[i + 1]);
      }
    }
  }

  lemma {:induction false} Free(s: State, base: nat, n: nat, w: nat, x: Block)
    requires Filled(s, base, n, w, x) && w < 3 && n + w < 30
    ensures
      var o, b := (n + w) % 3, base + n + w;
      && o < |s.ops| && b !in s.cache && !Hot(s, b) && s.ops[o].inside.None? && s.ops[o].hot == {}
      && |s.ops[o].logged| < MAXOPBLOCKS && |s.cache| == n + w && |s.blocks| == n
  {
    hide Turn, Share, Hot;
    var o := (n + w) % 3;
    TurnIs(n, w, o);
    Turns(n, o);
    CacheSize(s.cache, base, n + w);
    assert CallOk(s.ops[o], base, n, w, o);
    NotHot(s, base, n, w, x);
  }

  lemma {:induction false} NotHot(s: State, base: nat, n: nat, w: nat, x: Block)
    requires Filled(s, base, n, w, x)
    ensures !Hot(s, base + n + w)
  {
    hide Turn, Share;
    forall p | 0 <= p < |s.ops| ensures base + n + w !in s.ops[p].hot {
      assert CallOk(s.ops[p], base, n, w, p);
    }
  }

  // One more block read, changed, and past the test.
  lemma {:induction false} TestNext(L: Layout, s: State, base: nat, n: nat, w: nat, x: Block)
    returns (s1: State, s2: State, s3: State)
    requires Filled(s, base, n, w, x) && w < 3 && n + w < 30 && MayLog(L, n)
    requires base + n + w < |s.disk| && base + n + w < UINT && !InLog(L, base + n + w)
    ensures
      var o, b := (n + w) % 3, base + n + w;
      ReadStep(L, s, b, s1) && ModifyStep(L, s1, o, b, x, s2) && TestStep(L, s2, o, b, s3)
    ensures Filled(s3, base, n, w + 1, x) && s3.disk == s.disk && s3.saved == s.saved
    ensures |s1.cache| == |s2.cache| == |s3.cache| == n + w + 1
  {
    hide Filled, Hot, InLog;
    Free(s, base, n, w, x);
    var o, b := (n + w) % 3, base + n + w;
    s1 := s.(cache := s.cache[b := Cell(s.disk[b], false)]);
    StillFree(s, s1, b);
    s2 := s1.(cache := s1.cache[b := s1.cache[b].(data := x)],
              ops := s1.ops[o := s1.ops[o].(hot := s1.ops[o].hot + {b})]);
    s3 := s2.(ops := s2.ops[o := s2.ops[o].(inside := Some(b))]);
    assert s3.ops == s.ops[o := Op(s.ops[o].logged, {b}, Some(b))];
    assert s3.cache == s.cache[b := Cell(x, false)];
    assert s1.cache.Keys == s2.cache.Keys == s3.cache.Keys == s.cache.Keys + {b};
    TestDone(s, base, n, w, x, s3);
  }

  lemma {:induction false} StillFree(s: State, t: State, b: nat)
    requires t.ops == s.ops && !Hot(s, b)
    ensures !Hot(t, b)
  {
  }

  lemma {:induction false} TestDone(s: State, base: nat, n: nat, w: nat, x: Block, t: State)
    requires Filled(s, base, n, w, x) && w < 3 && t.phase == s.phase && t.blocks == s.blocks
    requires t.cache == s.cache[base + n + w := Cell(x, false)]
    requires
      var o, b := (n + w) % 3, base + n + w;
      t.ops == s.ops[o := Op(s.ops[o].logged, {b}, Some(b))]
    ensures Filled(t, base, n, w + 1, x)
  {
    hide Share;
    forall p | 0 <= p < 3 ensures CallOk(t.ops[p], base, n, w + 1, p) {
      assert CallOk(s.ops[p], base, n, w, p);
      TurnIs(n, w, p);
      hide Turn;
    }
  }

  // The call whose turn it is enters its block.
  lemma {:induction false} EnterNext(L: Layout, s: State, base: nat, n: nat, w: nat, x: Block) returns (t: State)
    requires Filled(s, base, n, w, x) && 0 < w <= 3 && n + w <= 30
    ensures EnterStep(L, s, n % 3, t) && Filled(t, base, n + 1, w - 1, x)
    ensures t.disk == s.disk && t.saved == s.saved && |t.cache| == n + w
  {
    var o, b := n % 3, base + n;
    Turns(n, o);
    assert CallOk(s.ops[o], base, n, w, o);
    t := s.(blocks := Logs(s.blocks, b), cache := s.cache[b := s.cache[b].(dirty := true)],
            ops := s.ops[o := Op(s.ops[o].logged + {b}, s.ops[o].hot - {b}, None)]);
    assert s.ops[o].hot - {b} == {};
    assert t.blocks == s.blocks + [b];
    forall p | 0 <= p < 3 ensures CallOk(t.ops[p], base, n + 1, w - 1, p) {
      assert CallOk(s.ops[p], base, n, w, p);
      Turns(n, p);
      hide Turn, Share;
    }
    CacheSize(t.cache, base, n + w);
  }

  // A disk with room for the runs: an empty log, and thirty home blocks from base on.
  ghost predicate Roomy(L: Layout, d: Disk, base: nat) {
    && GoodDisk(L, d) && HeadN(d[L.start]) == 0
    && base + 30 <= |d| && base + 30 < UINT && forall b :: base <= b < base + 30 ==> !InLog(L, b)
  }

  lemma {:induction false} ThreeCalls(L: Layout, d: Disk, base: nat, x: Block)
    returns (run: seq<State>, steps: seq<Step>)
    requires GoodDisk(L, d) && HeadN(d[L.start]) == 0
    ensures IsRun(L, run, steps) && Small(run) && Filled(run[|steps|], base, 0, 0, x)
    ensures run[|steps|].disk == d == run[|steps|].saved && run[0].disk == d
  {
    hide GoodDisk, HeadN;
    var s0 := State(d, map[], [], [], Running, d);
    var s1 := s0.(ops := [NewOp()]);
    var s2 := s0.(ops := [NewOp(), NewOp()]);
    var s3 := s0.(ops := [NewOp(), NewOp(), NewOp()]);
    assert s2.ops == s1.ops + [NewOp()] && s3.ops == s2.ops + [NewOp()];
    run, steps := [s0, s1, s2, s3], [Begin, Begin, Begin];
    assert BeginStep(L, s0, s1) && BeginStep(L, s1, s2) && BeginStep(L, s2, s3);
    hide BeginStep;
    NoneFilled(s3, base, x);
  }

  lemma {:induction false} NoneFilled(s: State, base: nat, x: Block)
    requires s.phase.Running? && s.cache == map[] && s.blocks == [] && s.ops == [NewOp(), NewOp(), NewOp()]
    ensures Filled(s, base, 0, 0, x)
  {
    assert forall o :: 0 <= o < 3 ==> s.ops[o] == NewOp();
  }

  // Every list the test admits, up to 30 blocks, with up to three more blocks past the test.
  lemma {:induction false} Reach(L: Layout, d: Disk, base: nat, x: Block, n: nat, w: nat)
    returns (run: seq<State>, steps: seq<Step>)
    requires Roomy(L, d, base) && n + w <= 30 && w <= 3 && n <= L.size - 1 && (w > 0 ==> n < L.size - 1)
    ensures IsRun(L, run, steps) && Small(run) && Filled(run[|steps|], base, n, w, x)
    ensures run[|steps|].disk == d == run[|steps|].saved && run[0].disk == d
    decreases n, w
  {
    hide Filled, Small, ReadStep, ModifyStep, TestStep, EnterStep, Init, GoodDisk, HeadN, IsRun;
    if w > 0 {
      run, steps := Reach(L, d, base, x, n, w - 1);
      var o, b := (n + w - 1) % 3, base + n + w - 1;
      RunEnds(L, run, steps);
      var s1, s2, s3 := TestNext(L, run[|steps|], base, n, w - 1, x);
      Extend(L, run, steps, Read(b), s1);
      run, steps := run + [s1], steps + [Read(b)];
      Extend(L, run, steps, Modify(o, b, x), s2);
      run, steps := run + [s2], steps + [Modify(o, b, x)];
      Extend(L, run, steps, Test(o, b), s3);
      run, steps := run + [s3], steps + [Test(o, b)];
    } else if n > 0 {
      run, steps := Reach(L, d, base, x, n - 1, 1);
      RunEnds(L, run, steps);
      var t := EnterNext(L, run[|steps|], base, n - 1, 1, x);
      Extend(L, run, steps, Enter((n - 1) % 3), t);
      run, steps := run + [t], steps + [Enter((n - 1) % 3)];
    } else {
      run, steps := ThreeCalls(L, d, base, x);
    }
  }

  lemma {:induction false} RunEnds(L: Layout, run: seq<State>, steps: seq<Step>)
    requires IsRun(L, run, steps)
    ensures |run| == |steps| + 1
  {
  }

  // The calls past the test enter their blocks, whatever the size of the log area.
  lemma {:induction false} Entered(L: Layout, d: Disk, base: nat, x: Block, n: nat, m: nat, j: nat)
    returns (run: seq<State>, steps: seq<Step>)
    requires Roomy(L, d, base) && n + m <= 30 && j <= m <= 3 && n < L.size - 1
    ensures IsRun(L, run, steps) && Small(run) && Filled(run[|steps|], base, n + j, m - j, x)
    ensures run[|steps|].disk == d == run[|steps|].saved && run[0].disk == d
  {
    hide Filled, Small, EnterStep, Init, GoodDisk, HeadN, IsRun, Roomy;
    if j == 0 {
      run, steps := Reach(L, d, base, x, n, m);
    } else {
      run, steps := Entered(L, d, base, x, n, m, j - 1);
      RunEnds(L, run, steps);
      var t := EnterNext(L, run[|steps|], base, n + j - 1, m - j + 1, x);
      Extend(L, run, steps, Enter((n + j - 1) % 3), t);
      run, steps := run + [t], steps + [Enter((n + j - 1) % 3)];
    }
  }

  lemma {:induction false} FilledIs(s: State, base: nat, n: nat, x: Block)
    requires Filled(s, base, n, 0, x)
    ensures |s.ops| == 3 && |s.blocks| == n && s.phase.Running?
    ensures forall o :: 0 <= o < 3 ==> |s.ops[o].logged| == Share(o, n) && s.ops[o].inside.None?
  {
    forall o | 0 <= o < 3 ensures |s.ops[o].logged| == Share(o, n) && s.ops[o].inside.None? {
      assert CallOk(s.ops[o], base, n, 0, o);
    }
  }

  // The reservation is one block short exactly when the log area is no larger than LOGSIZE, which is what
  // mkfs makes it: then some run has a call within its promise, with reservation left, that log_write
  // panics on.
  lemma {:induction false} ShortLogPanics(L: Layout, d: Disk, base: nat) returns (run: seq<State>, steps: seq<Step>)
    requires GoodDisk(L, d) && HeadN(d[L.start]) == 0 && L.size <= LOGSIZE
    requires base + 30 <= |d| && base + 30 < 0x1_0000_0000 && forall b :: base <= b < base + 30 ==> !InLog(L, b)
    ensures IsRun(L, run, steps) && |run[|steps|].ops| == 3
    ensures |run[|steps|].ops[2].logged| < MAXOPBLOCKS && !MayLog(L, |run[|steps|].blocks|)
  {
    run, steps := Reach(L, d, base, ZeroBlock, L.size - 1, 0);
    FilledIs(run[|steps|], base, L.size - 1, ZeroBlock);
  }

  // Because the size test comes before absorption, a full log makes even a block already logged panic,
  // however large the log area.
  lemma {:induction false} FullLogRefusesAbsorption(L: Layout, d: Disk, base: nat)
    returns (run: seq<State>, steps: seq<Step>)
    requires GoodDisk(L, d) && HeadN(d[L.start]) == 0 && L.size > LOGSIZE
    requires base + 30 <= |d| && base + 30 < 0x1_0000_0000 && forall b :: base <= b < base + 30 ==> !InLog(L, b)
    ensures IsRun(L, run, steps) && |run[|steps|].ops| == 3
    ensures |run[|steps|].blocks| == LOGSIZE && |run[|steps|].ops[0].logged| == MAXOPBLOCKS &&
      !MayLog(L, |run[|steps|].blocks|)
  {
    run, steps := Reach(L, d, base, ZeroBlock, 30, 0);
    FilledIs(run[|steps|], base, 30, ZeroBlock);
  }

  // The list gets longer than the test admits: with two or three calls past the test it reaches the size of
  // the log area and one block more, all calls within their promise.
  lemma {:induction false} TestsOverfill(L: Layout, d: Disk, base: nat, m: nat)
    returns (run: seq<State>, steps: seq<Step>)
    requires Roomy(L, d, base) && L.size >= 2 && m <= 3 && L.size - 2 + m <= LOGSIZE
    ensures IsRun(L, run, steps) && Small(run) && run[|steps|].phase.Running?
    ensures |run[|steps|].blocks| == L.size - 2 + m
    ensures |run[|steps|].ops| == 3 && forall o :: 0 <= o < 3 ==> |run[|steps|].ops[o].logged| <= MAXOPBLOCKS
  {
    run, steps := Entered(L, d, base, ZeroBlock, L.size - 2, m, m);
    FilledIs(run[|steps|], base, L.size - 2 + m, ZeroBlock);
  }

  // Then the calls end, and the last one out commits.
  lemma {:induction false} Closed(L: Layout, d: Disk, base: nat, x: Block, n: nat)
    returns (run: seq<State>, steps: seq<Step>)
    requires Roomy(L, d, base) && 2 <= L.size && n == L.size <= LOGSIZE
    ensures IsRun(L, run, steps) && Small(run) && Copying(L, run[|steps|], d, base, n, 0, x) && run[0].disk == d
  {
    hide Filled, Small, EndStep, Init, GoodDisk, HeadN, IsRun, Copying, CacheOk, ListOk;
    run, steps := Entered(L, d, base, x, L.size - 2, 2, 2);
    RunEnds(L, run, steps);
    var s1, s2, s3 := EndAll(L, run[|steps|], d, base, n, x);
    Extend(L, run, steps, End(0), s1);
    run, steps := run + [s1], steps + [End(0)];
    Extend(L, run, steps, End(0), s2);
    run, steps := run + [s2], steps + [End(0)];
    Extend(L, run, steps, End(0), s3);
    run, steps := run + [s3], steps + [End(0)];
  }

  lemma {:induction false} EndAll(L: Layout, s: State, d: Disk, base: nat, n: nat, x: Block)
    returns (s1: State, s2: State, s3: State)
    requires Filled(s, base, n, 0, x) && 0 < n <= LOGSIZE && s.disk == d == s.saved
    ensures EndStep(L, s, 0, s1) && EndStep(L, s1, 0, s2) && EndStep(L, s2, 0, s3) && Copying(L, s3, d, base, n, 0, x)
    ensures |s1.cache| == |s2.cache| == |s3.cache| == n
  {
    forall o | 0 <= o < 3 ensures s.ops[o].hot == {} && s.ops[o].inside == None {
      assert CallOk(s.ops[o], base, n, 0, o);
    }
    CacheSize(s.cache, base, n);
    s1 := s.(ops := [s.ops[1], s.ops[2]]);
    s2 := s.(ops := [s.ops[2]]);
    s3 := s.(ops := [], phase := Logging(0));
    assert s1.ops == s.ops[..0] + s.ops[1..] && s2.ops == s1.ops[..0] + s1.ops[1..] &&
      s3.ops == s2.ops[..0] + s2.ops[1..];
    assert s.blocks != [];
  }

  // k blocks of the list are copied to the log area, and beyond it when k is its size.
  ghost predicate Copying(L: Layout, s: State, d: Disk, base: nat, n: nat, k: nat, x: Block) {
    && s.ops == [] && s.phase == Logging(k) && s.saved == d && |s.disk| == |d|
    && ListOk(s.blocks, base, n) && CacheOk(s.cache, base, n, 0, x)
    && forall b :: 0 <= b < |d| ==> s.disk[b] == if L.start < b <= L.start + k then x else d[b]
  }

  lemma {:induction false} CopyNext(L: Layout, s: State, d: Disk, base: nat, n: nat, k: nat, x: Block)
    returns (s1: State, s2: State)
    requires Copying(L, s, d, base, n, k, x) && k < n < Bio.NBUF && L.start + n < base && base + n <= |d|
    ensures WriteLogStep(L, s, s1) && EvictStep(L, s1, L.start + 1 + k, s2)
    ensures Copying(L, s2, d, base, n, k + 1, x) && |s1.cache| <= Bio.NBUF && |s2.cache| <= Bio.NBUF
  {
    var b := L.start + 1 + k;
    CacheSize(s.cache, base, n);
    FewDirty(s);
    assert s.blocks[k] == base + k && Look(s, s.blocks[k]) == x;
    s1 := Bwrite(s, b, x).(phase := Logging(k + 1));
    s2 := s1.(cache := s1.cache - {b});
    assert s2.cache == s.cache;
    assert s1.cache.Keys == s.cache.Keys + {b};
  }

  lemma {:induction false} FewDirty(s: State)
    ensures |Dirty(s)| <= |s.cache|
  {
    SubsetCount(Dirty(s), s.cache.Keys);
    assert |s.cache.Keys| == |s.cache|;
  }

  lemma {:induction false} Copied(L: Layout, d: Disk, base: nat, x: Block, k: nat)
    returns (run: seq<State>, steps: seq<Step>)
    requires Roomy(L, d, base) && 2 <= L.size < LOGSIZE && L.start + L.size < base && k <= L.size
    ensures IsRun(L, run, steps) && Small(run) && Copying(L, run[|steps|], d, base, L.size, k, x)
    ensures run[0].disk == d
  {
    hide Small, WriteLogStep, EvictStep, Init, GoodDisk, HeadN, IsRun, Copying;
    if k == 0 {
      run, steps := Closed(L, d, base, x, L.size);
    } else {
      run, steps := Copied(L, d, base, x, k - 1);
      RunEnds(L, run, steps);
      var s1, s2 := CopyNext(L, run[|steps|], d, base, L.size, k - 1, x);
      Extend(L, run, steps, WriteLog, s1);
      run, steps := run + [s1], steps + [WriteLog];
      Extend(L, run, steps, Evict(L.start + k), s2);
      run, steps := run + [s2], steps + [Evict(L.start + k)];
    }
  }

  // What a crash in a state must lead to, boots interrupted anywhere any number of times.
  ghost predicate Durable(L: Layout, s: State, ks: seq<nat>) {
    GoodDisk(L, s.disk) && SameHome(L, AfterBoots(L, s.disk, ks), s.saved)
  }

  // For a log area of 2 to LOGSIZE - 1 blocks, the last copy of an overfull list goes to the first block behind
  // the log area. The header is not written yet: a crash then leaves a home block changed, and no recovery
  // undoes it.
  lemma {:induction false} ShortLogLosesBlock(L: Layout, d: Disk, base: nat, x: Block, ks: seq<nat>)
    returns (run: seq<State>, steps: seq<Step>)
    requires Roomy(L, d, base) && 2 <= L.size < LOGSIZE && L.start + L.size < base && x != d[L.start + L.size]
    ensures IsRun(L, run, steps) && Small(run) && run[0].disk == d
    ensures |run| == |steps| + 1 && run[|steps|].saved == d && |run[|steps|].disk| == |d| && !InLog(L, L.start + L.size)
    ensures run[|steps|].disk[L.start + L.size] == x
    ensures !Durable(L, run[|steps|], ks)
  {
    run, steps := Copied(L, d, base, x, L.size);
    var s := run[|steps|];
    assert s.disk[L.start + L.size] == x;
    assert s.disk[L.start] == d[L.start];
    hide AfterBoots;
    if GoodDisk(L, s.disk) {
      NothingToRecover(L, s.disk, ks);
    }
  }

  lemma {:induction false} NothingToRecover(L: Layout, d: Disk, ks: seq<nat>)
    requires GoodDisk(L, d) && HeadN(d[L.start]) == 0
    ensures SameHome(L, AfterBoots(L, d, ks), d)
  {
    hide AfterBoots;
    RecoveryIdempotent(L, d, ks);
    assert Recovered(L, d) == d;
  }

  // The log area that mkfs makes has as many blocks as there are buffers. Filled to the last block, it leaves
  // commit no buffer for its first copy: bread panics, and no disk block has changed.
  lemma {:induction false} FullLogHasNoBuffer(L: Layout, s: State, s': State)
    requires Listed(L, |s.disk|, s.blocks) && PinnedFrom(s, 0) && |s.blocks| == Bio.NBUF && L.size >= 2
    requires s.phase == Logging(0) && forall b :: b in Dirty(s) ==> b in s.blocks
    ensures !WriteLogStep(L, s, s')
  {
    ManyPinned(L, s);
  }

  lemma {:induction false} MkfsLogOverfills(L: Layout, d: Disk, base: nat)
    returns (run: seq<State>, steps: seq<Step>)
    requires Roomy(L, d, base) && L.size == LOGSIZE
    ensures IsRun(L, run, steps) && Small(run) && run[|steps|].phase == Logging(0)
    ensures |run[|steps|].blocks| == L.size && run[|steps|].disk == d
    ensures forall s' :: !WriteLogStep(L, run[|steps|], s')
  {
    hide Small, IsRun, WriteLogStep, GoodDisk, HeadN;
    run, steps := Closed(L, d, base, ZeroBlock, LOGSIZE);
    RunEnds(L, run, steps);
    var s := run[|steps|];
    assert s.disk == d;
    assert Listed(L, |s.disk|, s.blocks) && PinnedFrom(s, 0);
    assert forall b :: b in Dirty(s) ==> s.blocks[b - base] == b;
    forall s' ensures !WriteLogStep(L, s, s') {
      FullLogHasNoBuffer(L, s, s');
    }
  }

  ghost predicate Safe(L: Layout, d: Disk) {
    forall run: seq<State>, steps: seq<Step>, i: nat, ks: seq<nat> ::
      IsRun(L, run, steps) && i < |run| && run[0].disk == d ==> Durable(L, run[i], ks)
  }

  // Crash safety, in every state of every run, holds exactly for log areas of one block and of NBUF blocks or
  // more.
  lemma {:induction false} SafeExactly(L: Layout, d: Disk)
    requires GoodDisk(L, d) && HeadN(d[L.start]) == 0 && L.start + L.size + 31 <= |d| < UINT
    ensures Safe(L, d) <==> LongLog(L)
  {
    hide IsRun, Durable, HeadN;
    if LongLog(L) {
      forall run: seq<State>, steps: seq<Step>, i: nat, ks: seq<nat> |
        IsRun(L, run, steps) && i < |run| && run[0].disk == d ensures Durable(L, run[i], ks)
      {
        DurableRun(L, run, steps, i, ks);
      }
    } else {
      assert Roomy(L, d, L.start + L.size + 1) && L.size >= 2;
      var run, steps := ShortLogLosesBlock(L, d, L.start + L.size + 1, OtherBlock(d[L.start + L.size]), []);
      RunEnds(L, run, steps);
      assert !Durable(L, run[|steps|], []);
    }
  }

  lemma {:induction false} DurableRun(L: Layout, run: seq<State>, steps: seq<Step>, i: nat, ks: seq<nat>)
    requires IsRun(L, run, steps) && i < |run| && LongLog(L)
    ensures Durable(L, run[i], ks)
  {
    hide IsRun;
    RunCrashSafe(L, run, steps, i, ks);
  }

  function OtherBlock(b: Block): (r: Block)
    ensures r != b
  {
    var w := if WordAt(b, 0) == 0 then 1 else 0;
    WordAtSetWord(b, 0, w, 0);
    SetWord(b, 0, w)
  }
}
