// What the log's methods do is what the step machine of LogProtocol does: the effect that each method of
// class Log promises is the effect of a path of steps.
module LogRefines {
  import opened Basics
  import opened Blocks
  import opened Bio
  import opened RedoLog
  import opened Log
  import opened LogProtocol

  // A cache and a list of logged blocks as the machine's state has them. Which clean blocks are cached, and
  // in which buffers, makes no difference.
  ghost predicate Shows(s: State, snap: Snapshot, bs: seq<nat>) {
    snap.disk == s.disk && snap.logical == Logical(s) && snap.pinned == Dirty(s) && bs == s.blocks
  }

  ghost predicate Path(L: Layout, path: seq<State>, steps: seq<Step>) {
    |path| == |steps| + 1 && forall i :: 0 <= i < |steps| ==> Next(L, path[i], steps[i], path[i + 1])
  }

  lemma {:induction false} PathOn(L: Layout, path: seq<State>, steps: seq<Step>, step: Step, s: State)
    requires Path(L, path, steps) && Next(L, path[|steps|], step, s)
    ensures Path(L, path + [s], steps + [step])
  {
    hide Next;
    var p, q := path + [s], steps + [step];
    forall i | 0 <= i < |q| ensures Next(L, p[i], q[i], p[i + 1]) {
      if i < |steps| {
        assert Next(L, path[i], steps[i], path[i + 1]);
      }
    }
  }

  lemma {:induction false} PathJoin(L: Layout, p: seq<State>, a: seq<Step>, q: seq<State>, b: seq<Step>)
    requires Path(L, p, a) && Path(L, q, b) && q[0] == p[|a|]
    ensures Path(L, p + q[1..], a + b) && (p + q[1..])[|a| + |b|] == q[|b|] && (p + q[1..])[0] == p[0]
  {
    hide Next;
    var r, c := p + q[1..], a + b;
    forall i | 0 <= i < |c| ensures Next(L, r[i], c[i], r[i + 1]) {
      if i < |a| {
        assert Next(L, p[i], a[i], p[i + 1]);
      } else {
        assert Next(L, q[i - |a|], b[i - |a|], q[i - |a| + 1]);
      }
    }
  }

  // So what holds in every run over a long enough log area holds of what the methods do: a path from a state of a run
  // goes on with it.
  lemma {:induction false} PathInv(L: Layout, path: seq<State>, steps: seq<Step>, i: nat)
    requires Path(L, path, steps) && Inv(L, path[0]) && i < |path| && LongLog(L)
    ensures Inv(L, path[i])
  {
    hide Inv, Next, LongLog;
    if i > 0 {
      PathInv(L, path, steps, i - 1);
      NextKeeps(L, path[i - 1], steps[i - 1], path[i]);
    }
  }

  // One bwrite.
  lemma {:induction false} BwriteShows(s: State, snap: Snapshot, bs: seq<nat>, b: nat, x: Block)
    requires Shows(s, snap, bs) && b < |s.disk| && |snap.logical| == |snap.disk|
    ensures Shows(Bwrite(s, b, x), Put(snap, Write(b, x)), bs)
    ensures var t := Bwrite(s, b, x); |t.disk| == |s.disk| && t.ops == s.ops && t.blocks == s.blocks
  {
    var t := Bwrite(s, b, x);
    assert Dirty(t) == Dirty(s) - {b};
    assert Logical(t) == Logical(s)[b := x];
  }

  lemma {:induction false} Relabelled(s: State, t: State, snap: Snapshot, bs: seq<nat>)
    requires Shows(s, snap, bs) && t.disk == s.disk && t.cache == s.cache
    ensures Shows(t, snap, t.blocks)
  {
    assert Logical(t) == Logical(s);
    assert Dirty(t) == Dirty(s);
  }

  lemma {:induction false} Looks(s: State, snap: Snapshot, bs: seq<nat>)
    requires Shows(s, snap, bs)
    ensures |snap.logical| == |snap.disk| == |s.disk| && s.blocks == bs && Dirty(s) == snap.pinned
    ensures forall b :: 0 <= b < |s.disk| ==> Look(s, b) == snap.logical[b]
  {
    hide Look, Dirty;
  }

  lemma {:induction false} InPlace(L: Layout, snap: Snapshot, bs: seq<nat>)
    requires GoodBlocks(L, |snap.disk|, bs)
    ensures |bs| <= LOGSIZE && |bs| < L.size && forall i :: 0 <= i < |bs| ==>
      bs[i] < |snap.disk| && bs[i] < 0x1_0000_0000
  {
  }

  // begin_op.
  lemma {:induction false} BeginShown(L: Layout, s: State, snap: Snapshot, bs: seq<nat>) returns (t: State)
    requires Shows(s, snap, bs) && s.phase.Running? && CanBegin(|bs|, |s.ops|)
    ensures Next(L, s, Begin, t) && Shows(t, snap, bs) && |t.ops| == |s.ops| + 1 && t.phase == s.phase
  {
    t := s.(ops := s.ops + [NewOp()]);
    Relabelled(s, t, snap, bs);
  }

  // bread, a change of the data, and log_write: its test and its entry into the list.
  lemma {:induction false} LogWriteShown(L: Layout, s: State, snap: Snapshot, bs: seq<nat>, o: nat, b: nat, x: Block)
    returns (path: seq<State>, steps: seq<Step>)
    requires Shows(s, snap, bs) && o < |s.ops| && b < |s.disk| && b < UINT && !InLog(L, b)
    requires s.ops[o].inside.None? && (b in s.ops[o].hot || !Hot(s, b))
    requires (b in s.ops[o].logged || |s.ops[o].logged| < MAXOPBLOCKS) && MayLog(L, |bs|)
    ensures Path(L, path, steps) && path[0] == s && 3 <= |steps| <= 4
    ensures
      var t := path[|steps|];
      && Shows(t, Snapshot(snap.disk, snap.logical[b := x], snap.writes, snap.pinned + {b}), Logs(bs, b))
      && t.ops == s.ops[o := Op(s.ops[o].logged + {b}, s.ops[o].hot - {b}, None)] && t.phase == s.phase
    ensures forall step :: step in steps ==> step.Read? || step.Modify? || step.Test? || step.Enter?
  {
    hide ReadStep, ModifyStep, TestStep, EnterStep, Path, Shows;
    var s0 := s;
    path, steps := [s], [];
    PathNone(L, s);
    if b !in s.cache {
      s0 := ReadShown(L, s, snap, bs, b);
      PathOn(L, path, steps, Read(b), s0);
      path, steps := path + [s0], steps + [Read(b)];
    }
    var s1 := ModifyShown(L, s0, snap, bs, o, b, x);
    PathOn(L, path, steps, Modify(o, b, x), s1);
    path, steps := path + [s1], steps + [Modify(o, b, x)];
    var s2 := TestShown(L, s1, snap.(logical := snap.logical[b := x]), bs, o, b);
    PathOn(L, path, steps, Test(o, b), s2);
    path, steps := path + [s2], steps + [Test(o, b)];
    var t := EnterShown(L, s2, snap.(logical := snap.logical[b := x]), bs, o, b);
    PathOn(L, path, steps, Enter(o), t);
    path, steps := path + [t], steps + [Enter(o)];
    assert s.ops[o].hot + {b} - {b} == s.ops[o].hot - {b};
  }

  lemma {:induction false} PathNone(L: Layout, s: State)
    ensures Path(L, [s], [])
  {
  }

  lemma {:induction false} ReadShown(L: Layout, s: State, snap: Snapshot, bs: seq<nat>, b: nat) returns (t: State)
    requires Shows(s, snap, bs) && b < |s.disk| && b !in s.cache
    ensures ReadStep(L, s, b, t) && Shows(t, snap, bs) && b in t.cache && t.ops == s.ops && t.phase == s.phase &&
      t.disk == s.disk
    ensures Hot(t, b) ==> Hot(s, b)
  {
    t := s.(cache := s.cache[b := Cell(s.disk[b], false)]);
    assert Logical(t) == Logical(s) && Dirty(t) == Dirty(s);
  }

  lemma {:induction false} ModifyShown(L: Layout, s: State, snap: Snapshot, bs: seq<nat>, o: nat, b: nat, x: Block)
    returns (t: State)
    requires Shows(s, snap, bs) && o < |s.ops| && b in s.cache && b < |s.disk| && b < UINT && !InLog(L, b)
    requires s.ops[o].inside.None? && (b in s.ops[o].hot || !Hot(s, b))
    ensures b < |snap.logical| && ModifyStep(L, s, o, b, x, t) && Shows(t, snap.(logical := snap.logical[b := x]), bs)
    ensures b in t.cache && t.ops == s.ops[o := s.ops[o].(hot := s.ops[o].hot + {b})] && t.phase == s.phase
  {
    hide Hot;
    t := s.(cache := s.cache[b := s.cache[b].(data := x)], ops := s.ops[o := s.ops[o].(hot := s.ops[o].hot + {b})]);
    assert Logical(t) == Logical(s)[b := x];
    assert Dirty(t) == Dirty(s);
  }

  lemma {:induction false} TestShown(L: Layout, s: State, snap: Snapshot, bs: seq<nat>, o: nat, b: nat)
    returns (t: State)
    requires Shows(s, snap, bs) && o < |s.ops| && b in s.cache && b in s.ops[o].hot && s.ops[o].inside.None?
    requires (b in s.ops[o].logged || |s.ops[o].logged| < MAXOPBLOCKS) && MayLog(L, |bs|)
    ensures TestStep(L, s, o, b, t) && Shows(t, snap, bs) && t.phase == s.phase
    ensures b in t.cache && t.ops == s.ops[o := s.ops[o].(inside := Some(b))]
  {
    t := s.(ops := s.ops[o := s.ops[o].(inside := Some(b))]);
    Relabelled(s, t, snap, bs);
  }

  lemma {:induction false} EnterShown(L: Layout, s: State, snap: Snapshot, bs: seq<nat>, o: nat, b: nat)
    returns (t: State)
    requires Shows(s, snap, bs) && o < |s.ops| && b in s.cache && s.ops[o].inside == Some(b)
    ensures EnterStep(L, s, o, t) && Shows(t, snap.(pinned := snap.pinned + {b}), Logs(bs, b))
    ensures t.ops == s.ops[o := Op(s.ops[o].logged + {b}, s.ops[o].hot - {b}, None)] && t.phase == s.phase
  {
    t := s.(blocks := Logs(s.blocks, b), cache := s.cache[b := s.cache[b].(dirty := true)],
            ops := s.ops[o := Op(s.ops[o].logged + {b}, s.ops[o].hot - {b}, None)]);
    assert Logical(t) == Logical(s);
    assert Dirty(t) == Dirty(s) + {b};
  }

  // commit, write by write.

  lemma {:induction false} StageStep(L: Layout, s: Snapshot, bs: seq<nat>, k: nat)
    requires GoodBlocks(L, |s.disk|, bs) && |s.logical| == |s.disk| && L.start + L.size <= |s.disk| && k < 2 * |bs| + 2
    ensures InRange([Transaction(L, s, bs)[k]], |s.disk|)
    ensures Stage(L, s, bs, k + 1) == Put(Stage(L, s, bs, k), Transaction(L, s, bs)[k])
    ensures Stage(L, s, bs, 0) == s
  {
    hide Apply, Targets;
    PutAllStep(s, Transaction(L, s, bs), k);
    PutAllNone(s);
  }

  // What commit's k-th write is, in terms of what the cache shows when it is made.
  lemma {:induction false} NextWrite(L: Layout, s: Snapshot, bs: seq<nat>, k: nat)
    requires GoodBlocks(L, |s.disk|, bs) && |s.logical| == |s.disk| && L.start + L.size <= |s.disk| && k < 2 * |bs| + 2
    ensures
      var now := Stage(L, s, bs, k).logical;
      var n := |bs|;
      Transaction(L, s, bs)[k] ==
        if k < n then Write(L.start + 1 + k, now[bs[k]])
        else if k == n then Write(L.start, PutHead(now[L.start], bs))
        else if k <= 2 * n then Write(bs[k - n - 1], now[L.start + 1 + (k - n - 1)])
        else Write(L.start, PutHead(now[L.start], []))
  {
    hide Apply, Targets, PutHead, Stage;
    var n := |bs|;
    if k < n {
      HomeStays(L, s, bs, k);
    } else if k == n {
      StageLog(L, s, bs, n);
    } else if k <= 2 * n {
      LogStays(L, s, bs, k - n - 1);
    } else {
      StageHome(L, s, bs, n);
    }
  }

  lemma {:induction false} HomeStays(L: Layout, s: Snapshot, bs: seq<nat>, k: nat)
    requires GoodBlocks(L, |s.disk|, bs) && |s.logical| == |s.disk| && L.start + L.size <= |s.disk| && k < |bs|
    ensures Stage(L, s, bs, k).logical[bs[k]] == s.logical[bs[k]]
  {
    ApplyElsewhere(s.logical, Transaction(L, s, bs)[..k], bs[k]);
  }

  lemma {:induction false} LogStays(L: Layout, s: Snapshot, bs: seq<nat>, j: nat)
    requires GoodBlocks(L, |s.disk|, bs) && |s.logical| == |s.disk| && L.start + L.size <= |s.disk| && j < |bs|
    ensures Stage(L, s, bs, |bs| + 1 + j).logical[L.start + 1 + j] == Values(s.logical, bs)[j]
  {
    hide Stage, Targets, PutHead;
    StageHead(L, s, bs);
    StageHome(L, s, bs, j);
    var head := Stage(L, s, bs, |bs| + 1).logical;
    assert head[L.start + 1 + j] == Logged(L, head, |bs|)[j];
    ApplyElsewhere(head, HomeWrites(bs, Values(s.logical, bs))[..j], L.start + 1 + j);
  }

  function PhaseAfter(n: nat, k: nat): Phase {
    if k <= n then Logging(k) else if k <= 2 * n + 1 then Installing(k - n - 1) else Running
  }

  // Which of commit's writes the k-th is.
  function Writes(n: nat, k: nat): Step {
    if k < n then WriteLog else if k == n then WriteHead else if k <= 2 * n then Install else Erase
  }

  // Once commit has its first buffer it has one for every log block: bwrite leaves it clean.
  lemma {:induction false} StageBuffer(L: Layout, s: Snapshot, bs: seq<nat>, k: nat)
    requires GoodBlocks(L, |s.disk|, bs) && |s.logical| == |s.disk| && L.start + L.size <= |s.disk| && k < |bs|
    requires |s.pinned| <= NBUF && HasBuffer(s.pinned, L.start + 1)
    ensures HasBuffer(Stage(L, s, bs, k).pinned, L.start + 1 + k)
    ensures k > 0 ==> |Stage(L, s, bs, k).pinned| < NBUF
  {
    hide Stage, Transaction;
    StageStep(L, s, bs, 0);
    if k > 0 {
      StageBuffer(L, s, bs, k - 1);
      StageStep(L, s, bs, k - 1);
      NextWrite(L, s, bs, k - 1);
    }
  }

  lemma {:induction false} CommitStep(L: Layout, t: State, snap: Snapshot, bs: seq<nat>, k: nat)
    returns (step: Step, u: State)
    requires GoodBlocks(L, |snap.disk|, bs) && |snap.logical| == |snap.disk| && L.start + L.size <= |snap.disk| &&
      k < 2 * |bs| + 2
    requires Shows(t, Stage(L, snap, bs, k), bs) && t.phase == PhaseAfter(|bs|, k)
    requires |snap.pinned| <= NBUF && HasBuffer(snap.pinned, L.start + 1)
    ensures Next(L, t, step, u) && u.phase == PhaseAfter(|bs|, k + 1) && u.ops == t.ops && step == Writes(|bs|, k)
    ensures Shows(u, Stage(L, snap, bs, k + 1), if k + 1 == 2 * |bs| + 2 then [] else bs)
  {
    hide Stage, Transaction, PutHead, Apply, Targets, Shows, Look, Bwrite, Put, GoodBlocks, HasBuffer;
    StageStep(L, snap, bs, k);
    NextWrite(L, snap, bs, k);
    var n, w := |bs|, Transaction(L, snap, bs)[k];
    Looks(t, Stage(L, snap, bs, k), bs);
    InPlace(L, snap, bs);
    BwriteShows(t, Stage(L, snap, bs, k), bs, w.blockno, w.data);
    hide Logical, Dirty;
    var v := Bwrite(t, w.blockno, w.data);
    if k < n {
      StageBuffer(L, snap, bs, k);
      step, u := WriteLog, v.(phase := Logging(k + 1));
    } else if k == n {
      step, u := WriteHead, v.(phase := Installing(0), saved := Logical(t));
    } else if k <= 2 * n {
      step, u := Install, v.(phase := Installing(k - n));
    } else {
      step, u := Erase, v.(phase := Running, blocks := []);
    }
    Relabelled(v, u, Stage(L, snap, bs, k + 1), bs);
  }

  // Any number of commit's writes.
  lemma {:induction false} CommitShown(L: Layout, s: State, snap: Snapshot, bs: seq<nat>, k: nat)
    returns (path: seq<State>, steps: seq<Step>)
    requires GoodBlocks(L, |snap.disk|, bs) && |snap.logical| == |snap.disk| && L.start + L.size <= |snap.disk| &&
      k <= 2 * |bs| + 2
    requires Shows(s, snap, bs) && s.phase == Logging(0)
    requires |snap.pinned| <= NBUF && (k > 0 ==> HasBuffer(snap.pinned, L.start + 1))
    ensures Path(L, path, steps) && path[0] == s && |steps| == k
    ensures path[k].phase == PhaseAfter(|bs|, k) && path[k].ops == s.ops
    ensures forall i :: 0 <= i < k ==> steps[i] == Writes(|bs|, i)
    ensures Shows(path[k], Stage(L, snap, bs, k), if k == 2 * |bs| + 2 then [] else bs)
  {
    hide Stage, Shows, Next;
    if k == 0 {
      StageStep(L, snap, bs, 0);
      path, steps := [s], [];
    } else {
      path, steps := CommitShown(L, s, snap, bs, k - 1);
      var step, u := CommitStep(L, path[k - 1], snap, bs, k - 1);
      PathOn(L, path, steps, step, u);
      path, steps := path + [u], steps + [step];
    }
  }

  // end_op, of a call that holds no changed buffer.
  lemma {:induction false} EndStep(L: Layout, s: State, snap: Snapshot, bs: seq<nat>, o: nat) returns (t: State)
    requires Shows(s, snap, bs) && s.phase.Running? && o < |s.ops| && s.ops[o].hot == {} && s.ops[o].inside.None?
    ensures Next(L, s, End(o), t) && Shows(t, snap, bs) && |t.ops| == |s.ops| - 1
    ensures t.phase == if |s.ops| == 1 && bs != [] then Logging(0) else s.phase
  {
    t := s.(ops := s.ops[..o] + s.ops[o + 1..], phase := if |s.ops| == 1 && bs != [] then Logging(0) else s.phase);
    Relabelled(s, t, snap, bs);
  }

  lemma {:induction false} OneStep(L: Layout, s: State, step: Step, t: State)
    requires Next(L, s, step, t)
    ensures Path(L, [s, t], [step])
  {
    hide Next;
  }

  lemma {:induction false} EndShown(L: Layout, s: State, snap: Snapshot, bs: seq<nat>, o: nat, k: nat)
    returns (path: seq<State>, steps: seq<Step>)
    requires GoodBlocks(L, |snap.disk|, bs) && |snap.logical| == |snap.disk| && L.start + L.size <= |snap.disk|
    requires Shows(s, snap, bs) && s.phase.Running? && o < |s.ops| && s.ops[o].hot == {} && s.ops[o].inside.None?
    requires |snap.pinned| <= NBUF && (k > 0 ==> HasBuffer(snap.pinned, L.start + 1))
    requires k <= if |s.ops| == 1 && bs != [] then 2 * |bs| + 2 else 0
    ensures Path(L, path, steps) && path[0] == s && |steps| == 1 + k
    ensures steps[0] == End(o) && forall i :: 0 <= i < k ==> steps[1 + i] == Writes(|bs|, i)
    ensures
      var t := path[|steps|];
      && |t.ops| == |s.ops| - 1
      && (if |s.ops| == 1 && bs != [] then
            Shows(t, Stage(L, snap, bs, k), if k == 2 * |bs| + 2 then [] else bs) &&
              (k == 2 * |bs| + 2 <==> t.phase.Running?)
          else Shows(t, snap, bs) && t.phase.Running?)
  {
    hide Stage, GoodBlocks, Next, Dirty, Logical, Shows;
    var t := EndStep(L, s, snap, bs, o);
    OneStep(L, s, End(o), t);
    path, steps := [s, t], [End(o)];
    if |s.ops| == 1 && bs != [] {
      var q, b := CommitShown(L, t, snap, bs, k);
      PathJoin(L, path, steps, q, b);
      path, steps := path + q[1..], steps + b;
    }
  }

  // A boot and recover_from_log.

  lemma {:induction false} RecoverStep(L: Layout, d: Disk, t: State, k: nat) returns (step: Step, u: State)
    requires GoodDisk(L, d) && k < HeadN(d[L.start]) + 1
    requires t.disk == RecoverPrefix(L, d, k) && Logical(t) == t.disk && t.phase == Recovering(k) &&
      t.blocks == HeadBlocks(d[L.start])
    requires Dirty(t) == {}
    ensures Next(L, t, step, u) && u.disk == RecoverPrefix(L, d, k + 1) && Logical(u) == u.disk && u.ops == t.ops &&
      Dirty(u) == {}
    ensures if k == HeadN(d[L.start]) then u.phase == Running && u.blocks == []
      else u.phase == Recovering(k + 1) && u.blocks == t.blocks
  {
    hide PutHead, HeadBlocks, Shows, Look, Bwrite, Put, Dirty, Logical;
    var bs := HeadBlocks(d[L.start]);
    var n, vals, snap := |bs|, Logged(L, d, |bs|), Snapshot(t.disk, t.disk, [], {});
    Showing(t, snap);
    Looks(t, snap, bs);
    if k < n {
      OverlayKeepsLog(L, d, bs, vals, k, L.start + 1 + k);
      BwriteClean(t, bs[k], vals[k]);
      step, u := RecoverInstall, Bwrite(t, bs[k], vals[k]).(phase := Recovering(k + 1));
      SameView(Bwrite(t, bs[k], vals[k]), u);
    } else {
      OverlayKeepsLog(L, d, bs, vals, n, L.start);
      BwriteClean(t, L.start, PutHead(d[L.start], []));
      step, u := RecoverErase, Bwrite(t, L.start, PutHead(d[L.start], [])).(phase := Running, blocks := []);
      SameView(Bwrite(t, L.start, PutHead(d[L.start], [])), u);
    }
  }

  lemma {:induction false} Showing(t: State, snap: Snapshot)
    requires snap == Snapshot(t.disk, t.disk, [], {}) && Logical(t) == t.disk && Dirty(t) == {}
    ensures Shows(t, snap, t.blocks)
  {
  }

  // A bwrite when cache and disk agree.
  lemma {:induction false} BwriteClean(t: State, b: nat, x: Block)
    requires b < |t.disk| && Logical(t) == t.disk && Dirty(t) == {}
    ensures var u := Bwrite(t, b, x);
      u.disk == t.disk[b := x] == Logical(u) && Dirty(u) == {} && u.ops == t.ops && u.blocks == t.blocks
  {
    BwriteShows(t, Snapshot(t.disk, t.disk, [], {}), t.blocks, b, x);
  }

  lemma {:induction false} SameView(t: State, u: State)
    requires u.disk == t.disk && u.cache == t.cache
    ensures Logical(u) == Logical(t) && Dirty(u) == Dirty(t)
  {
  }

  // From any state: the power fails, and after the boot k writes of the recovery are made.
  lemma {:induction false} RecoverShown(L: Layout, s: State, k: nat) returns (path: seq<State>, steps: seq<Step>)
    requires GoodDisk(L, s.disk) && k <= HeadN(s.disk[L.start]) + 1
    ensures Path(L, path, steps) && path[0] == s && |steps| == k + 1
    ensures
      var t := path[k + 1];
      && t.disk == RecoverPrefix(L, s.disk, k) == Logical(t) && t.ops == [] && Dirty(t) == {}
      && (if k == HeadN(s.disk[L.start]) + 1 then t.phase == Running && t.blocks == []
          else t.phase == Recovering(k) && t.blocks == HeadBlocks(s.disk[L.start]))
  {
    hide RecoverPrefix, HeadBlocks, HeadN, GoodBlocks;
    if k == 0 {
      var t := s.(cache := map[], ops := [], phase := Recovering(0), blocks := HeadBlocks(s.disk[L.start]));
      PathOn(L, [s], [], Crash, t);
      path, steps := [s] + [t], [] + [Crash];
      NothingYet(L, s.disk);
      assert Logical(t) == t.disk;
    } else {
      hide Next, Logical, Dirty;
      path, steps := RecoverShown(L, s, k - 1);
      var step, u := RecoverStep(L, s.disk, path[k], k - 1);
      PathOn(L, path, steps, step, u);
      path, steps := path + [u], steps + [step];
    }
  }

  lemma {:induction false} NothingYet(L: Layout, d: Disk)
    requires GoodDisk(L, d)
    ensures RecoverPrefix(L, d, 0) == d
  {
  }

  // The methods themselves, beside the machine: what they leave is what a path of steps leaves.

  method StepBegin(log: Log, ghost s: State) returns (r: bool, ghost t: State)
    requires log.Inv() && Shows(s, log.cache.Snap(), log.Blocks()) && log.outstanding == |s.ops| &&
      (log.committing <==> !s.phase.Running?)
    modifies log`outstanding
    ensures r <==> s.phase.Running? && CanBegin(|s.blocks|, |s.ops|)
    ensures if r then Next(log.L, s, Begin, t) else t == s
    ensures Shows(t, log.cache.Snap(), log.Blocks()) && log.outstanding == |t.ops| &&
      (log.committing <==> !t.phase.Running?)
  {
    r := log.BeginOp();
    t := s;
    if r {
      t := BeginShown(log.L, s, log.cache.Snap(), log.Blocks());
    }
  }

  // s is the state before the holder of buffer i changed its data, seen0 what the cache then showed.
  method StepLogWrite(log: Log, i: nat, ghost s: State, ghost seen0: Disk, ghost o: nat)
    returns (ok: bool, ghost path: seq<State>, ghost steps: seq<Step>)
    requires i < log.cache.buf.Length && log.block.Length == LOGSIZE && log.n <= LOGSIZE && log.cache.Inv({i})
    requires log.L.size >= 1 && log.L.start + log.L.size <= |log.cache.disk| &&
      GoodBlocks(log.L, |log.cache.disk|, log.Blocks())
    requires log.cache.buf[i].dev == ROOTDEV && log.cache.buf[i].valid && log.cache.buf[i].refcnt > 0
    requires log.cache.buf[i].blockno < |log.cache.disk| && log.cache.buf[i].blockno < UINT &&
      !InLog(log.L, log.cache.buf[i].blockno)
    requires |seen0| == |log.cache.disk| && log.cache.Logical() ==
      seen0[log.cache.buf[i].blockno := log.cache.buf[i].data]
    requires Shows(s, Snapshot(log.cache.disk, seen0, log.cache.writes, log.cache.Pinned()), log.Blocks())
    requires log.outstanding == |s.ops| && o < |s.ops|
    requires s.ops[o].inside.None? &&
      (log.cache.buf[i].blockno in s.ops[o].hot || !Hot(s, log.cache.buf[i].blockno))
    requires log.cache.buf[i].blockno in s.ops[o].logged || |s.ops[o].logged| < MAXOPBLOCKS
    modifies log`n, log.block, log.cache.buf
    ensures ok <==> MayLog(log.L, |s.blocks|)
    ensures ok ==> Path(log.L, path, steps) && path[0] == s && log.Inv()
    ensures ok ==>
      Shows(path[|steps|], log.cache.Snap(), log.Blocks()) && log.outstanding == |path[|steps|].ops| &&
      path[|steps|].phase == s.phase
  {
    hide Unique, Coherent, Permutation, Views, DirtyBlocks, GoodBlocks, Path, Shows, Hot;
    ghost var snap, bs, b, x := Snapshot(log.cache.disk, seen0, log.cache.writes, log.cache.Pinned()), log.Blocks(),
      log.cache.buf[i].blockno, log.cache.buf[i].data;
    Looks(s, snap, bs);
    ok := log.LogWrite(i);
    path, steps := [], [];
    if ok {
      path, steps := LogWriteShown(log.L, s, snap, bs, o, b, x);
    }
  }

  lemma {:induction false} BufferLeft(bufs: seq<Buf>, b: nat)
    requires Unique(bufs) && |bufs| == NBUF && forall i :: 0 <= i < |bufs| && bufs[i].dirty ==> bufs[i].dev == ROOTDEV
    ensures |DirtyBlocks(bufs)| <= NBUF && (!NoBuffer(bufs, b) ==> HasBuffer(DirtyBlocks(bufs), b))
  {
    hide Unique, NumDirty;
    DirtyCount(bufs);
  }

  method StepEnd(log: Log, ghost s: State, ghost o: nat)
    returns (ok: bool, ghost path: seq<State>, ghost steps: seq<Step>)
    requires log.Inv() && Shows(s, log.cache.Snap(), log.Blocks()) && log.outstanding == |s.ops|
    requires s.phase.Running? && !log.committing && o < |s.ops| && s.ops[o].hot == {} && s.ops[o].inside.None?
    modifies log`n, log`outstanding, log`committing, log.cache, log.cache.buf
    ensures log.Inv() && Path(log.L, path, steps) && path[0] == s
    ensures
      var t := path[|steps|];
      && t.disk == log.cache.disk && Logical(t) == log.cache.Logical() && Dirty(t) == log.cache.Pinned() &&
         log.outstanding == |t.ops|
      && (ok ==> Shows(t, log.cache.Snap(), log.Blocks()) && t.phase.Running? && !log.committing)
  {
    hide Unique, Coherent, Permutation, Views, DirtyBlocks, GoodBlocks, Path, Stage, Ready, Quiet;
    hide Logical, Dirty, NoBuffer, HasBuffer;
    ghost var snap, bs, k := log.cache.Snap(), log.Blocks(), 0;
    BufferLeft(log.cache.buf[..], log.L.start + 1);
    ok, k := log.EndOp();
    path, steps := EndShown(log.L, s, snap, bs, o, if |s.ops| == 1 && bs != [] then k else 0);
  }

  method StepBoot(log: Log, ghost s: State) returns (ok: bool, ghost path: seq<State>, ghost steps: seq<Step>)
    requires log.cache.Inv({}) && log.block.Length == LOGSIZE && GoodDisk(log.L, log.cache.disk)
    requires log.cache.Logical() == log.cache.disk == s.disk && log.cache.Pinned() == {}
    modifies log`n, log.block, log.cache, log.cache.buf
    ensures Path(log.L, path, steps) && path[0] == s
    ensures
      var t := path[|steps|];
      && t.disk == log.cache.disk && Logical(t) == log.cache.Logical() && Dirty(t) == log.cache.Pinned() == {} &&
         t.ops == []
      && (ok ==> log.Inv() && Shows(t, log.cache.Snap(), log.Blocks()) && t.phase.Running?)
  {
    hide Unique, Coherent, Permutation, Views, DirtyBlocks, GoodBlocks, Path, HeadBlocks, HeadN;
    hide RecoverPrefix, RecoverWrites, Logical, Dirty, TwoFree;
    ghost var k;
    ok, k := log.RecoverFromLog();
    path, steps := RecoverShown(log.L, s, k);
  }
}
