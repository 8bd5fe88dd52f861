// All or nothing: what a crash can leave of the calls between two commits.
module LogGroup {
  import opened Basics
  import opened Blocks
  import opened Bio
  import opened RedoLog
  import opened Log
  import opened LogProtocol
  import opened LogRefines

  // No call runs and the log is empty.
  ghost predicate AtRest(L: Layout, s: State) {
    Inv(L, s) && s.phase.Running? && s.ops == [] && s.blocks == []
  }

  // Cut the power in s, and boots interrupted anywhere any number of times give the home blocks of d.
  ghost predicate Gives(L: Layout, s: State, ks: seq<nat>, d: Disk) {
    GoodDisk(L, s.disk) && SameHome(L, AfterBoots(L, s.disk, ks), d)
  }

  lemma {:induction false} RestView(L: Layout, s: State)
    requires AtRest(L, s)
    ensures Logical(s) == s.disk && Dirty(s) == {} && SameHome(L, s.disk, s.saved)
    ensures GoodDisk(L, s.disk) && |s.saved| == |s.disk|
  {
    hide GoodDisk, SameHome, Recovered, HeadN;
    assert CacheInv(s) && forall b :: !Hot(s, b);
    assert forall b :: 0 <= b < |s.disk| ==> Look(s, b) == s.disk[b];
  }

  lemma {:induction false} HomeOn(L: Layout, a: Disk, b: Disk, c: Disk)
    requires SameHome(L, a, b) && SameHome(L, b, c)
    ensures SameHome(L, a, c) && SameHome(L, c, a)
  {
  }

  lemma {:induction false} SavedMoves(L: Layout, s: State, step: Step, s': State)
    requires Next(L, s, step, s')
    ensures s'.saved == if step.WriteHead? then Logical(s) else s.saved
  {
    hide Look, Logical, Hot, Dirty, PutHead, HeadBlocks, HeadN, Logs;
  }

  // Steps of which at most step h is a header write.
  ghost predicate OneHead(steps: seq<Step>, h: nat) {
    h <= |steps| && forall i :: 0 <= i < |steps| ==> (steps[i].WriteHead? <==> i == h)
  }

  lemma {:induction false} SavedIs(L: Layout, path: seq<State>, steps: seq<Step>, h: nat, t: nat)
    requires Path(L, path, steps) && OneHead(steps, h) && t < |path|
    ensures path[t].saved == if t <= h then path[0].saved else Logical(path[h])
  {
    hide Next, Logical;
    if t > 0 {
      SavedIs(L, path, steps, h, t - 1);
      SavedMoves(L, path[t - 1], steps[t - 1], path[t]);
    }
  }

  // However the calls of a group interleave: up to the header write of their commit a crash undoes all of
  // them, and after it keeps all of them, just as readers saw them when it was made.
  lemma {:induction false} AllOrNothing(L: Layout, path: seq<State>, steps: seq<Step>, h: nat, t: nat, ks: seq<nat>)
    requires Path(L, path, steps) && AtRest(L, path[0]) && LongLog(L) && OneHead(steps, h) && t < |path|
    ensures Gives(L, path[t], ks, if t <= h then Logical(path[0]) else Logical(path[h]))
  {
    hide Next, Logical, GoodDisk, SameHome, Recovered, AfterBoots, OneHead;
    PathInv(L, path, steps, t);
    SavedIs(L, path, steps, h, t);
    RestView(L, path[0]);
    hide Inv;
    InvDurable(L, path[t], ks);
    if t <= h {
      HomeBack(L, path[0].disk, path[0].saved);
      HomeOn(L, AfterBoots(L, path[t].disk, ks), path[0].saved, path[0].disk);
    }
  }

  lemma {:induction false} HomeBack(L: Layout, a: Disk, b: Disk)
    requires SameHome(L, a, b)
    ensures SameHome(L, b, a) && SameHome(L, a, a)
  {
  }

  lemma {:induction false} InvDurable(L: Layout, s: State, ks: seq<nat>)
    requires Inv(L, s)
    ensures Gives(L, s, ks, s.saved)
  {
    hide AfterBoots;
    RecoveryIdempotent(L, s.disk, ks);
    assert SameHome(L, Recovered(L, s.disk), s.saved);
    hide GoodDisk, OpsInv, CacheInv, PhaseInv, Recovered;
  }

  // One call alone, which logs the blocks bs and makes of what readers see the disk d.

  // Readers' view when the first j blocks are done.
  ghost function Mixed(d0: Disk, d: Disk, bs: seq<nat>, j: nat): (r: Disk)
    requires |d| == |d0| && j <= |bs| && forall i :: 0 <= i < |bs| ==> bs[i] < |d|
    ensures |r| == |d0|
  {
    if j == 0 then d0 else Mixed(d0, d, bs, j - 1)[bs[j - 1] := d[bs[j - 1]]]
  }

  lemma {:induction false} MixedAt(d0: Disk, d: Disk, bs: seq<nat>, j: nat, b: nat)
    requires |d| == |d0| && j <= |bs| && (forall i :: 0 <= i < |bs| ==> bs[i] < |d|) && b < |d|
    ensures Mixed(d0, d, bs, j)[b] == if b in bs[..j] then d[b] else d0[b]
  {
    if j > 0 {
      MixedAt(d0, d, bs, j - 1, b);
      assert bs[..j] == bs[..j - 1] + [bs[j - 1]];
    }
  }

  // The call's blocks are home blocks, no more of them than it has reserved.
  ghost predicate Promised(L: Layout, d0: Disk, d: Disk, bs: seq<nat>) {
    && Listed(L, |d0|, bs) && |bs| <= MAXOPBLOCKS && |d| == |d0|
    && forall b :: 0 <= b < |d| && d[b] != d0[b] ==> b in bs
  }

  lemma {:induction false} AllMixed(L: Layout, d0: Disk, d: Disk, bs: seq<nat>)
    requires Promised(L, d0, d, bs)
    ensures Mixed(d0, d, bs, |bs|) == d
  {
    hide Mixed;
    forall b | 0 <= b < |d| ensures Mixed(d0, d, bs, |bs|)[b] == d[b] {
      MixedAt(d0, d, bs, |bs|, b);
      assert bs[..|bs|] == bs;
    }
  }

  // The call has logged j of its blocks.
  ghost predicate Under(L: Layout, s: State, d0: Disk, d1: Disk, d: Disk, bs: seq<nat>, j: nat)
    requires Promised(L, d0, d, bs) && j <= |bs|
  {
    && Shows(s, Snapshot(d1, Mixed(d0, d, bs, j), [], SetOf(bs[..j])), bs[..j])
    && s.ops == [Op(SetOf(bs[..j]), {}, None)] && s.phase == Running
  }

  lemma {:induction false} FirstStep(L: Layout, s: State, d: Disk, bs: seq<nat>) returns (t: State)
    requires AtRest(L, s) && Promised(L, Logical(s), d, bs)
    ensures BeginStep(L, s, t) && Under(L, t, Logical(s), s.disk, d, bs, 0)
  {
    RestView(L, s);
    t := s.(ops := [NewOp()]);
    assert bs[..0] == [] && SetOf(bs[..0]) == {};
    hide Inv, Promised;
    var snap := Snapshot(s.disk, Logical(s), [], {});
    assert Shows(s, snap, []);
    Relabelled(s, t, snap, []);
  }

  lemma {:induction false} LogNext(L: Layout, s: State, d0: Disk, d1: Disk, d: Disk, bs: seq<nat>, j: nat)
    returns (path: seq<State>, steps: seq<Step>)
    requires Promised(L, d0, d, bs) && j < |bs| && Under(L, s, d0, d1, d, bs, j) && L.size >= NBUF
    ensures Path(L, path, steps) && path[0] == s && forall i :: 0 <= i < |steps| ==> Works(steps[i])
    ensures Under(L, path[|steps|], d0, d1, d, bs, j + 1)
  {
    hide Path, Shows, Mixed;
    var b := bs[j];
    assert bs[..j + 1] == bs[..j] + [b] && b !in bs[..j];
    SetSize(bs[..j]);
    UnderSize(L, s, d0, d1, d, bs, j);
    assert s.ops[0] == Op(SetOf(bs[..j]), {}, None) && !Hot(s, b);
    path, steps := LogWriteShown(L, s, Snapshot(d1, Mixed(d0, d, bs, j), [], SetOf(bs[..j])), bs[..j], 0, b, d[b]);
    assert SetOf(bs[..j]) + {b} == SetOf(bs[..j + 1]);
    NextMixed(d0, d, bs, j);
    assert s.ops[0].hot - {b} == {};
  }

  lemma {:induction false} UnderSize(L: Layout, s: State, d0: Disk, d1: Disk, d: Disk, bs: seq<nat>, j: nat)
    requires Promised(L, d0, d, bs) && j <= |bs| && Under(L, s, d0, d1, d, bs, j)
    ensures |s.disk| == |d0|
  {
  }

  lemma {:induction false} NextMixed(d0: Disk, d: Disk, bs: seq<nat>, j: nat)
    requires |d| == |d0| && j < |bs| && forall i :: 0 <= i < |bs| ==> bs[i] < |d|
    ensures Mixed(d0, d, bs, j + 1) == Mixed(d0, d, bs, j)[bs[j] := d[bs[j]]]
  {
  }

  // Steps of a call at work.
  predicate Works(step: Step) {
    step.Begin? || step.Read? || step.Modify? || step.Test? || step.Enter?
  }

  lemma {:induction false} LogAll(L: Layout, s: State, d: Disk, bs: seq<nat>, j: nat)
    returns (path: seq<State>, steps: seq<Step>)
    requires AtRest(L, s) && Promised(L, Logical(s), d, bs) && j <= |bs| && L.size >= NBUF
    ensures Path(L, path, steps) && path[0] == s && forall i :: 0 <= i < |steps| ==> Works(steps[i])
    ensures Under(L, path[|steps|], Logical(s), s.disk, d, bs, j)
  {
    hide Inv, Under, Promised, Logical, BeginStep;
    if j == 0 {
      var t := FirstStep(L, s, d, bs);
      OneStep(L, s, Begin, t);
      path, steps := [s, t], [Begin];
    } else {
      path, steps := LogAll(L, s, d, bs, j - 1);
      var q, b := LogNext(L, path[|steps|], Logical(s), s.disk, d, bs, j - 1);
      PathJoin(L, path, steps, q, b);
      path, steps := path + q[1..], steps + b;
    }
  }

  // Readers see the same from step i to step j of a commit.
  lemma {:induction false} ViewKept(L: Layout, path: seq<State>, steps: seq<Step>, i: nat, j: nat)
    requires Path(L, path, steps) && Inv(L, path[0]) && LongLog(L) && i <= j < |path|
    requires forall m :: i <= m < j ==> steps[m].End? || steps[m].WriteLog?
    ensures SameHome(L, Logical(path[i]), Logical(path[j]))
  {
    hide Inv, Next, SameHome, Logical, LongLog;
    if i == j {
      SameHomeRefl(L, Logical(path[i]));
    } else {
      ViewKept(L, path, steps, i, j - 1);
      PathInv(L, path, steps, j - 1);
      ViewStable(L, path[j - 1], steps[j - 1], path[j]);
      HomeOn(L, Logical(path[i]), Logical(path[j - 1]), Logical(path[j]));
    }
  }

  // The commit of the call's blocks.
  lemma {:induction false} Finished(L: Layout, s: State, d0: Disk, d1: Disk, d: Disk, bs: seq<nat>)
    returns (path: seq<State>, steps: seq<Step>)
    requires Promised(L, d0, d, bs) && Under(L, s, d0, d1, d, bs, |bs|) && L.size >= NBUF && L.start + L.size <= |d|
    ensures Path(L, path, steps) && path[0] == s && |steps| == 1 + if bs == [] then 0 else 2 * |bs| + 2
    ensures steps[0] == End(0) && forall i :: 0 <= i < |steps| - 1 ==> steps[1 + i] == Writes(|bs|, i)
    ensures path[|steps|].ops == [] && path[|steps|].phase.Running? && path[|steps|].blocks == []
    ensures Logical(s) == d
  {
    hide Path, Mixed, Stage;
    AllMixed(L, d0, d, bs);
    assert bs[..|bs|] == bs;
    SetSize(bs);
    UnderSize(L, s, d0, d1, d, bs, |bs|);
    path, steps := EndShown(L, s, Snapshot(d1, d, [], SetOf(bs)), bs, 0, if bs == [] then 0 else 2 * |bs| + 2);
  }

  // Where the header write is.
  lemma {:induction false} HeadAt(a: seq<Step>, b: seq<Step>, n: nat)
    requires (forall i :: 0 <= i < |a| ==> Works(a[i])) && |b| == 1 + if n == 0 then 0 else 2 * n + 2
    requires b[0] == End(0) && forall i :: 0 <= i < |b| - 1 ==> b[1 + i] == Writes(n, i)
    ensures OneHead(a + b, if n == 0 then |a| + 1 else |a| + 1 + n)
    ensures forall m :: |a| <= m < |a| + 1 + n && m < |a + b| ==> (a + b)[m].End? || (a + b)[m].WriteLog?
  {
    var c := a + b;
    forall i | |a| < i < |c| ensures c[i] == Writes(n, i - |a| - 1) {
      assert c[i] == b[1 + (i - |a| - 1)];
    }
  }

  // A power cut at step t of a path leads to d0 up to step h, and to d after it.
  ghost predicate Outcome(L: Layout, path: seq<State>, h: nat, d0: Disk, d: Disk, t: nat, ks: seq<nat>) {
    t < |path| ==> Gives(L, path[t], ks, if t <= h then d0 else d)
  }

  // A call that runs alone, from a log at rest to a log at rest: whenever the power fails, the home blocks
  // come back as they were before the call or as the call leaves them.
  lemma {:induction false} OneCall(L: Layout, s: State, d: Disk, bs: seq<nat>)
    returns (path: seq<State>, steps: seq<Step>, h: nat)
    requires AtRest(L, s) && Promised(L, Logical(s), d, bs) && L.size >= NBUF
    ensures Path(L, path, steps) && path[0] == s && OneHead(steps, h)
    ensures AtRest(L, path[|steps|]) && SameHome(L, Logical(path[|steps|]), d)
    ensures forall t: nat, ks :: Outcome(L, path, h, Logical(s), d, t, ks)
  {
    hide Inv, Under, Promised, Logical, Next, SameHome, GoodDisk, Gives, OneHead, Works, Writes;
    RestView(L, s);
    var d0 := Logical(s);
    var a, b;
    path, a := LogAll(L, s, d, bs, |bs|);
    LogArea(L, s);
    PromisedSize(L, d0, d, bs);
    var q;
    q, b := Finished(L, path[|a|], d0, s.disk, d, bs);
    HeadAt(a, b, |bs|);
    PathJoin(L, path, a, q, b);
    assert (path + q[1..])[|a|] == path[|a|];
    path, steps := path + q[1..], a + b;
    h := if bs == [] then |a| + 1 else |a| + 1 + |bs|;
    PathInv(L, path, steps, |steps|);
    ViewKept(L, path, steps, |a|, h);
    forall t: nat, ks ensures Outcome(L, path, h, Logical(s), d, t, ks) {
      if t < |path| {
        AllOrNothing(L, path, steps, h, t, ks);
        if t > h {
          GivesOn(L, path[t], ks, Logical(path[h]), d);
        }
      }
    }
    SavedIs(L, path, steps, h, |steps|);
    RestView(L, path[|steps|]);
    if bs == [] {
      HomeBack(L, s.disk, s.saved);
      HomeOn(L, path[|steps|].disk, s.saved, s.disk);
    } else {
      HomeBack(L, d, Logical(path[h]));
      HomeOn(L, path[|steps|].disk, Logical(path[h]), d);
    }
  }

  lemma {:induction false} PromisedSize(L: Layout, d0: Disk, d: Disk, bs: seq<nat>)
    requires Promised(L, d0, d, bs)
    ensures |d| == |d0| && (bs == [] ==> d == d0)
  {
  }

  lemma {:induction false} LogArea(L: Layout, s: State)
    requires AtRest(L, s)
    ensures L.start + L.size <= |s.disk|
  {
    hide Recovered, SameHome, OpsInv, CacheInv, PhaseInv;
  }

  lemma {:induction false} GivesOn(L: Layout, s: State, ks: seq<nat>, a: Disk, b: Disk)
    requires Gives(L, s, ks, a) && SameHome(L, b, a)
    ensures Gives(L, s, ks, b)
  {
    hide AfterBoots;
  }
}
