// The one way a wakeup is lost: a writer killed while the pipe is full.
module PipeCut {
  import opened Basics
  import opened Pipe

  // States some run gets to.
  ghost predicate Reachable(s: State) {
    exists run, steps :: Run(run, steps) && run[|run| - 1] == s
  }

  lemma {:induction false} Onward(s: State, step: Step, s': State)
    requires Reachable(s) && Next(s, step, s') && |s'.procs| == |s.procs|
    ensures Reachable(s')
  {
    hide Next;
    var run, steps :| Run(run, steps) && run[|run| - 1] == s;
    var run', steps' := run + [s'], steps + [step];
    forall i | 0 <= i < |steps'| ensures Next(run'[i], steps'[i], run'[i + 1]) {
      if i < |steps| {
        assert Next(run[i], steps[i], run[i + 1]);
      }
    }
    assert Run(run', steps') && run'[|run'| - 1] == s';
  }

  lemma {:induction false} AtStart(n: nat)
    ensures Reachable(Start(n))
  {
    assert Run([Start(n)], []);
  }

  lemma {:induction false} Went(s: State, p: nat) returns (s': State)
    requires Reachable(s) && |s.pipe.data| == PIPESIZE && Able(s, p)
    requires (ActOf(s.pipe, s.procs[p]).Put? ==> s.procs[p].buf != []) &&
      (ActOf(s.pipe, s.procs[p]).Get? ==> s.procs[p].left > 0)
    ensures Reachable(s') && s' == Do(s, p, ActOf(s.pipe, s.procs[p]))
  {
    hide ActOf;
    s' := Do(s, p, ActOf(s.pipe, s.procs[p]));
    Onward(s, Go(p), s');
  }

  const ASLEEP := Proc(RSlept, true, false, [], 1, false, false)

  function Idle(): Proc {
    Proc(Out, false, false, [], 0, false, false)
  }

  function NewPipe(): Buf {
    Buf(seq(PIPESIZE, _ => 0), 0, 0, true, true, [], [])
  }

  lemma {:induction false} ReaderStarts() returns (s: State)
    ensures Reachable(s) && s == State(NewPipe(), Some(0), None, [ASLEEP.(pc := RSleep, asleep := false), Idle()],
      false)
  {
    AtStart(2);
    var s0 := Start(2);
    assert s0.procs == [Idle(), Idle()];
    s := State(NewPipe(), None, None, [Idle().(pc := RAcquire, left := 1), Idle()], false);
    Onward(s0, Read(0, 1), s);
    s := Went(s, 0);
    assert s == State(NewPipe(), Some(0), None, [ASLEEP.(pc := RWait, asleep := false), Idle()], false);
    s := Went(s, 0);
  }

  // A reader finds the pipe empty and goes to sleep.
  lemma {:induction false} ReaderSleeps() returns (s: State)
    ensures Reachable(s) && s == State(NewPipe(), None, None, [ASLEEP, Idle()], false)
  {
    s := ReaderStarts();
    s := Went(s, 0);
    assert s == State(NewPipe(), Some(0), Some(0), [ASLEEP.(pc := RSleep1, asleep := false), Idle()], false);
    s := Went(s, 0);
    assert s == State(NewPipe(), None, Some(0), [ASLEEP.(pc := RSleep2, asleep := false), Idle()], false);
    s := Went(s, 0);
  }

  // A writer of 513 bytes has put k of them in.
  ghost predicate Filled(s: State, k: nat) {
    && |s.procs| == 2 && s.procs[0] == ASLEEP && s.procs[1].pc == WLoop && !s.procs[1].asleep && !s.procs[1].killed
    && |s.procs[1].buf| == PIPESIZE + 1 - k && (k > 0 ==> s.procs[1].owes) && s.lock == Some(1) && s.ptlock == None &&
       !s.cut
    && |s.pipe.data| == PIPESIZE && s.pipe.nread == 0 && s.pipe.nwrite == k && s.pipe.readopen && s.pipe.writeopen
    && |s.pipe.written| == k && s.pipe.taken == []
  }

  lemma {:induction false} Filling(k: nat) returns (s: State)
    requires k <= PIPESIZE
    ensures Reachable(s) && Filled(s, k)
  {
    if k == 0 {
      var s0 := ReaderSleeps();
      var bytes: seq<Byte> := seq(PIPESIZE + 1, _ => 0);
      s := s0.(procs := s0.procs[1 := s0.procs[1].(pc := WAcquire, buf := bytes)]);
      Onward(s0, Write(1, bytes), s);
      s := Went(s, 1);
    } else {
      var s0 := Filling(k - 1);
      assert ActOf(s0.pipe, s0.procs[1]) == Put;
      s := Went(s0, 1);
    }
  }

  // The writer is killed with the pipe full and returns -1; the reader sleeps on over 512 bytes, with
  // both ends open and the lock free.
  lemma {:induction false} WakeupLost() returns (s: State)
    ensures Reachable(s) && s.lock == None && |s.procs| == 2 && s.procs[0].pc == RSlept && s.procs[0].asleep
    ensures |s.pipe.written| == PIPESIZE && s.pipe.taken == [] && s.pipe.readopen && s.pipe.writeopen && s.cut
  {
    var s0 := Filling(PIPESIZE);
    var s1 := s0.(procs := s0.procs[1 := s0.procs[1].(killed := true, asleep := false)]);
    Onward(s0, Kill(1), s1);
    assert ActOf(s1.pipe, s1.procs[1]) == Abort;
    s := Went(s1, 1);
  }
}
