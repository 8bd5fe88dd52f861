// pipe.c with sleep and wakeup of proc.c: every interleaving of readers, writers, closers and kills, one
// lock operation, test or byte at a time.
module Pipe {
  import opened Basics

  const PIPESIZE := 512

  // Where a process is. Acquire: about to acquire the pipe lock. Wake/Waking: about to acquire
  // ptable.lock for wakeup, about to run wakeup1 with it. Sleep/Sleep1/Sleep2/Slept: in sleep, about to
  // acquire ptable.lock, to release the pipe lock, to become SLEEPING, and asleep or RUNNABLE again.
  datatype PC =
    | Out
    | WAcquire | WLoop | WWake | WWaking | WSleep | WSleep1 | WSleep2 | WSlept | WEndWake | WEndWaking | WRelease
    | RAcquire | RWait | RSleep | RSleep1 | RSleep2 | RSlept | RCopy | REndWake | REndWaking | RRelease
    | CAcquire | CClose | CWake | CWaking | CRelease

  // asleep: SLEEPING, on &nwrite at WSlept and on &nread at RSlept. buf: what is left to write; left: how
  // many bytes a reader still wants. owes: a writer that has put bytes in since it last woke the readers.
  datatype Proc = Proc(pc: PC, asleep: bool, killed: bool, buf: seq<Byte>, left: nat, writable: bool, owes: bool)

  // written and taken: the bytes that ever went in and came out.
  datatype Buf = Buf(data: seq<Byte>, nread: nat, nwrite: nat, readopen: bool, writeopen: bool, written: seq<Byte>,
      taken: seq<Byte>)

  // cut: a writer has returned -1 owing the readers a wakeup.
  datatype State = State(pipe: Buf, lock: Option<nat>, ptlock: Option<nat>, procs: seq<Proc>, cut: bool)

  predicate IsFull(b: Buf) {
    b.nwrite == (b.nread + PIPESIZE) % UINT
  }

  predicate IsEmpty(b: Buf) {
    b.nread == b.nwrite
  }

  // What a process does next.
  datatype Act =
    | Take(pc: PC)                // acquire the pipe lock
    | Drop(pc: PC)                // release it
    | TakeTable(pc: PC)           // acquire ptable.lock
    | Wake(pc: PC, whom: PC)      // wakeup1, and release ptable.lock
    | Doze(pc: PC)                // become SLEEPING; sched releases ptable.lock
    | Goto(pc: PC)                // a test
    | Abort                       // pipewrite returns -1
    | Put                         // one byte in
    | Get                         // one byte out
    | Shut(pc: PC)                // clear readopen or writeopen

  function ActOf(b: Buf, q: Proc): Act {
    match q.pc
    // pipewrite
    case WAcquire => Take(WLoop)
    case WLoop => if q.buf == [] then Goto(WEndWake) else if !IsFull(b) then Put
      else if !b.readopen || q.killed then Abort else Goto(WWake)
    case WWake => TakeTable(WWaking)
    case WWaking => Wake(WSleep, RSlept)
    case WSleep => TakeTable(WSleep1)
    case WSleep1 => Drop(WSleep2)
    case WSleep2 => Doze(WSlept)
    case WSlept => Goto(WAcquire)
    case WEndWake => TakeTable(WEndWaking)
    case WEndWaking => Wake(WRelease, RSlept)
    case WRelease => Drop(Out)
    // piperead
    case RAcquire => Take(RWait)
    case RWait => if IsEmpty(b) && b.writeopen then if q.killed then Drop(Out) else Goto(RSleep) else Goto(RCopy)
    case RSleep => TakeTable(RSleep1)
    case RSleep1 => Drop(RSleep2)
    case RSleep2 => Doze(RSlept)
    case RSlept => Goto(RAcquire)
    case RCopy => if q.left == 0 || IsEmpty(b) then Goto(REndWake) else Get
    case REndWake => TakeTable(REndWaking)
    case REndWaking => Wake(RRelease, WSlept)
    case RRelease => Drop(Out)
    // pipeclose
    case CAcquire => Take(CClose)
    case CClose => Shut(CWake)
    case CWake => TakeTable(CWaking)
    case CWaking => Wake(CRelease, if q.writable then RSlept else WSlept)
    case CRelease => Drop(Out)
    case Out => Goto(Out)
  }

  // wakeup1: every process asleep at this point of the code becomes RUNNABLE.
  function WakeAll(procs: seq<Proc>, pc: PC): (r: seq<Proc>)
    ensures |r| == |procs| && forall p :: 0 <= p < |r| ==>
      r[p] == if procs[p].pc == pc then procs[p].(asleep := false) else procs[p]
  {
    seq(|procs|, p requires 0 <= p < |procs| => if procs[p].pc == pc then procs[p].(asleep := false) else procs[p])
  }

  // Locks must be free to be taken, and sleepers must have been woken.
  predicate Able(s: State, p: nat) {
    && p < |s.procs| && s.procs[p].pc != Out && !s.procs[p].asleep
    && var act := ActOf(s.pipe, s.procs[p]);
       (act.Take? ==> s.lock == None) && (act.TakeTable? ==> s.ptlock == None)
  }

  function PutByte(b: Buf, x: Byte): Buf
    requires |b.data| == PIPESIZE
  {
    b.(data := b.data[b.nwrite % PIPESIZE := x], nwrite := (b.nwrite + 1) % UINT, written := b.written + [x])
  }

  function GetByte(b: Buf): Buf
    requires |b.data| == PIPESIZE
  {
    b.(nread := (b.nread + 1) % UINT, taken := b.taken + [b.data[b.nread % PIPESIZE]])
  }

  // The process and the pipe after an action.
  function After(q: Proc, act: Act): Proc
    requires (act.Put? ==> q.buf != []) && (act.Get? ==> q.left > 0)
  {
    match act
    case Wake(pc, whom) => q.(pc := pc, owes := false)
    case Doze(pc) => q.(pc := pc, asleep := true)
    case Abort => q.(pc := Out, owes := false)
    case Put => q.(buf := q.buf[1..], owes := true)
    case Get => q.(left := q.left - 1)
    case _ => q.(pc := act.pc)
  }

  function BufAfter(b: Buf, q: Proc, act: Act): Buf
    requires |b.data| == PIPESIZE && (act.Put? ==> q.buf != [])
  {
    match act
    case Put => PutByte(b, q.buf[0])
    case Get => GetByte(b)
    case Shut(pc) => if q.writable then b.(writeopen := false) else b.(readopen := false)
    case _ => b
  }

  function Do(s: State, p: nat, act: Act): State
    requires p < |s.procs| && |s.pipe.data| == PIPESIZE && (act.Put? ==> s.procs[p].buf != []) &&
      (act.Get? ==> s.procs[p].left > 0)
  {
    var me := s.procs[p];
    State(BufAfter(s.pipe, me, act),
          if act.Take? then Some(p) else if act.Drop? || act.Abort? then None else s.lock,
          if act.TakeTable? then Some(p) else if act.Wake? || act.Doze? then None else s.ptlock,
          (if act.Wake? then WakeAll(s.procs, act.whom) else s.procs)[p := After(me, act)],
          s.cut || (act.Abort? && me.owes))
  }

  datatype Step =
    | Write(p: nat, bytes: seq<Byte>)
    | Read(p: nat, n: nat)
    | Close(p: nat, writable: bool)
    | Kill(p: nat)
    | Go(p: nat)

  // Calls are made by processes outside; kill makes a sleeping victim RUNNABLE.
  ghost predicate Next(s: State, step: Step, s': State) {
    && |s.pipe.data| == PIPESIZE && step.p < |s.procs|
    && var me := s.procs[step.p];
       match step
       case Write(p, bytes) => me.pc == Out && s' == s.(procs := s.procs[p := me.(pc := WAcquire, buf := bytes)])
       case Read(p, n) => me.pc == Out && s' == s.(procs := s.procs[p := me.(pc := RAcquire, left := n)])
       case Close(p, w) => me.pc == Out && s' == s.(procs := s.procs[p := me.(pc := CAcquire, writable := w)])
       case Kill(p) => s.ptlock == None && s' == s.(procs := s.procs[p := me.(killed := true, asleep := false)])
       case Go(p) => Able(s, p) && s' == Do(s, p, ActOf(s.pipe, me))
  }

  function Start(n: nat): State {
    State(Buf(seq(PIPESIZE, _ => 0), 0, 0, true, true, [], []), None, None,
      seq(n, _ => Proc(Out, false, false, [], 0, false, false)), false)
  }

  ghost predicate Run(run: seq<State>, steps: seq<Step>) {
    |run| == |steps| + 1 && run[0] == Start(|run[0].procs|) && forall i :: 0 <= i < |steps| ==>
      Next(run[i], steps[i], run[i + 1])
  }

  // The invariant.

  predicate HoldsPipe(pc: PC) {
    pc.WLoop? || pc.WWake? || pc.WWaking? || pc.WSleep? || pc.WSleep1? || pc.WEndWake? || pc.WEndWaking? ||
      pc.WRelease? ||
    pc.RWait? || pc.RSleep? || pc.RSleep1? || pc.RCopy? || pc.REndWake? || pc.REndWaking? || pc.RRelease? ||
    pc.CClose? || pc.CWake? || pc.CWaking? || pc.CRelease?
  }

  predicate HoldsTable(pc: PC) {
    pc.WWaking? || pc.WSleep1? || pc.WSleep2? || pc.WEndWaking? || pc.RSleep1? || pc.RSleep2? || pc.REndWaking? ||
      pc.CWaking?
  }

  // Each lock is held by the process that is inside it, and by no other.
  predicate Holds(s: State, p: nat)
    requires p < |s.procs|
  {
    (HoldsPipe(s.procs[p].pc) <==> s.lock == Some(p)) && (HoldsTable(s.procs[p].pc) <==> s.ptlock == Some(p))
  }

  ghost predicate Exclusive(s: State) {
    forall p :: 0 <= p < |s.procs| ==> Holds(s, p)
  }

  // The buffer holds what was written and not yet taken, for all that the counters wrap around.
  ghost predicate Fifo(b: Buf) {
    && |b.data| == PIPESIZE && b.nread == |b.taken| % UINT && b.nwrite == |b.written| % UINT
    && |b.taken| <= |b.written| <= |b.taken| + PIPESIZE && b.taken == b.written[..|b.taken|]
    && forall k :: |b.taken| <= k < |b.written| ==> b.data[k % PIPESIZE] == b.written[k]
  }

  // A reader that sleeps or is past the point of no return.
  predicate ReaderDown(q: Proc) {
    q.pc.RSleep2? || (q.pc.RSlept? && q.asleep)
  }

  predicate WriterDown(q: Proc) {
    q.pc.WSleep2? || (q.pc.WSlept? && q.asleep)
  }

  // The holder of the pipe lock has yet to wake readers (writers) for what it did.
  predicate OwesReaders(q: Proc) {
    q.owes || ((q.pc.CWake? || q.pc.CWaking?) && q.writable)
  }

  predicate OwesWriters(q: Proc) {
    q.pc.RCopy? || q.pc.REndWake? || q.pc.REndWaking? || ((q.pc.CWake? || q.pc.CWaking?) && !q.writable)
  }

  predicate ReaderMay(s: State) {
    (IsEmpty(s.pipe) && s.pipe.writeopen) || s.cut || (s.lock.Some? && s.lock.value < |s.procs| &&
      OwesReaders(s.procs[s.lock.value]))
  }

  predicate WriterMay(s: State) {
    (IsFull(s.pipe) && s.pipe.readopen) || (s.lock.Some? && s.lock.value < |s.procs| &&
      OwesWriters(s.procs[s.lock.value]))
  }

  ghost predicate ReadersOk(s: State) {
    forall p :: 0 <= p < |s.procs| && ReaderDown(s.procs[p]) ==> ReaderMay(s)
  }

  ghost predicate WritersOk(s: State) {
    forall p :: 0 <= p < |s.procs| && WriterDown(s.procs[p]) ==> WriterMay(s)
  }

  // What a process has just seen, and what its flags say of where it is.
  predicate SeenBy(b: Buf, q: Proc) {
    && (q.pc.RSleep? || q.pc.RSleep1? ==> IsEmpty(b) && b.writeopen)
    && (q.pc.WWake? || q.pc.WWaking? || q.pc.WSleep? || q.pc.WSleep1? ==> IsFull(b) && b.readopen)
    && (q.asleep ==> q.pc.RSlept? || q.pc.WSlept?)
    && (q.owes ==> q.pc.WLoop? || q.pc.WWake? || q.pc.WWaking? || q.pc.WEndWake? || q.pc.WEndWaking?)
  }

  ghost predicate Seen(s: State) {
    forall p :: 0 <= p < |s.procs| ==> SeenBy(s.pipe, s.procs[p])
  }

  ghost predicate Inv(s: State) {
    Exclusive(s) && Fifo(s.pipe) && ReadersOk(s) && WritersOk(s) && Seen(s)
  }

  lemma {:induction false} StartInv(n: nat)
    ensures Inv(Start(n))
  {
  }

  // Local facts.

  // The table of actions fits the table of locks.
  predicate Fits(pc: PC, act: Act) {
    match act
    case Take(pc') => !HoldsPipe(pc) && HoldsPipe(pc') && HoldsTable(pc) == HoldsTable(pc')
    case Drop(pc') => HoldsPipe(pc) && !HoldsPipe(pc') && HoldsTable(pc) == HoldsTable(pc')
    case TakeTable(pc') => HoldsPipe(pc) && HoldsPipe(pc') && !HoldsTable(pc) && HoldsTable(pc')
    case Wake(pc', whom) => HoldsPipe(pc) && HoldsPipe(pc') && HoldsTable(pc) && !HoldsTable(pc')
    case Doze(pc') => !HoldsPipe(pc) && !HoldsPipe(pc') && HoldsTable(pc) && !HoldsTable(pc')
    case Goto(pc') => HoldsPipe(pc) == HoldsPipe(pc') && HoldsTable(pc) == HoldsTable(pc')
    case Shut(pc') => HoldsPipe(pc) && HoldsPipe(pc') && HoldsTable(pc) == HoldsTable(pc')
    case _ => HoldsPipe(pc) && !HoldsTable(pc)
  }

  predicate Writing(pc: PC) {
    pc.WAcquire? || pc.WLoop? || pc.WWake? || pc.WWaking? || pc.WSleep? || pc.WSleep1? || pc.WSleep2? || pc.WSlept? ||
    pc.WEndWake? || pc.WEndWaking? || pc.WRelease?
  }

  predicate Reading(pc: PC) {
    pc.RAcquire? || pc.RWait? || pc.RSleep? || pc.RSleep1? || pc.RSleep2? || pc.RSlept? || pc.RCopy? ||
    pc.REndWake? || pc.REndWaking? || pc.RRelease?
  }

  lemma {:induction false} WriterPlaced(b: Buf, q: Proc)
    requires Writing(q.pc)
    ensures Fits(q.pc, ActOf(b, q))
  {
    hide IsFull, IsEmpty;
  }

  lemma {:induction false} ReaderPlaced(b: Buf, q: Proc)
    requires Reading(q.pc)
    ensures Fits(q.pc, ActOf(b, q))
  {
    hide IsFull, IsEmpty;
  }

  lemma {:induction false} CloserPlaced(b: Buf, q: Proc)
    requires !Writing(q.pc) && !Reading(q.pc)
    ensures Fits(q.pc, ActOf(b, q))
  {
    hide IsFull, IsEmpty;
  }

  lemma {:induction false} ActFits(b: Buf, q: Proc)
    ensures Fits(q.pc, ActOf(b, q))
    ensures (ActOf(b, q).Put? ==> q.buf != [] && !IsFull(b)) && (ActOf(b, q).Get? ==> q.left > 0 && !IsEmpty(b))
  {
    hide IsFull, IsEmpty, Fits;
    if Writing(q.pc) {
      WriterPlaced(b, q);
    } else if Reading(q.pc) {
      ReaderPlaced(b, q);
    } else {
      CloserPlaced(b, q);
    }
  }

  // Other processes keep their place; at most they are woken. The locks change hands one at a time.
  ghost predicate Moves(s: State, p: nat, s': State)
    requires p < |s.procs|
  {
    && |s'.procs| == |s.procs| && Holds(s', p) && (s.cut ==> s'.cut)
    && (s'.lock == s.lock || (s.lock == None && s'.lock == Some(p)) || (s.lock == Some(p) && s'.lock == None))
    && (s'.ptlock == s.ptlock || (s.ptlock == None && s'.ptlock == Some(p)) ||
       (s.ptlock == Some(p) && s'.ptlock == None))
    && (forall q :: 0 <= q < |s.procs| && q != p ==>
       s'.procs[q] == s.procs[q] || s'.procs[q] == s.procs[q].(asleep := false))
    && (!HoldsPipe(s.procs[p].pc) ==> s'.pipe == s.pipe)
  }

  lemma {:induction false} DoMoves(s: State, p: nat, act: Act)
    requires p < |s.procs| && |s.pipe.data| == PIPESIZE && (act.Put? ==> s.procs[p].buf != []) &&
      (act.Get? ==> s.procs[p].left > 0)
    requires Holds(s, p) && Fits(s.procs[p].pc, act) && (act.Take? ==> s.lock == None) &&
      (act.TakeTable? ==> s.ptlock == None)
    ensures Moves(s, p, Do(s, p, act))
  {
    hide HoldsPipe, HoldsTable, WakeAll, PutByte, GetByte;
    assert !HoldsPipe(Out) && !HoldsTable(Out) by {
      OutHoldsNone();
    }
  }

  lemma {:induction false} OutHoldsNone()
    ensures !HoldsPipe(Out) && !HoldsTable(Out)
  {
  }

  lemma {:induction false} Tests(b: Buf)
    ensures IsEmpty(b.(readopen := false)) == IsEmpty(b) == IsEmpty(b.(writeopen := false))
    ensures IsFull(b.(readopen := false)) == IsFull(b) == IsFull(b.(writeopen := false))
  {
  }

  // One process's view of its own step.

  lemma {:induction false} SeenNext(b: Buf, q: Proc)
    requires |b.data| == PIPESIZE && SeenBy(b, q) && !q.asleep
    ensures (ActOf(b, q).Put? ==> q.buf != []) && (ActOf(b, q).Get? ==> q.left > 0)
    ensures SeenBy(BufAfter(b, q, ActOf(b, q)), After(q, ActOf(b, q)))
  {
    hide PutByte, GetByte, IsFull, IsEmpty;
  }

  lemma {:induction false} ReaderLies(b: Buf, q: Proc)
    requires |b.data| == PIPESIZE && SeenBy(b, q) && !q.asleep
    ensures (ActOf(b, q).Put? ==> q.buf != []) && (ActOf(b, q).Get? ==> q.left > 0)
    ensures
      var act := ActOf(b, q);
      var b', q' := BufAfter(b, q, act), After(q, act);
      (ReaderDown(q') ==> ReaderDown(q) || (IsEmpty(b') && b'.writeopen))
  {
    hide PutByte, GetByte, IsFull, IsEmpty;
    Tests(b);
  }

  lemma {:induction false} ReaderEmpty(b: Buf, q: Proc)
    requires |b.data| == PIPESIZE && SeenBy(b, q) && !q.asleep
    ensures (ActOf(b, q).Put? ==> q.buf != []) && (ActOf(b, q).Get? ==> q.left > 0)
    ensures
      var act := ActOf(b, q);
      var b', q' := BufAfter(b, q, act), After(q, act);
      (IsEmpty(b) && b.writeopen ==> (IsEmpty(b') && b'.writeopen) || (OwesReaders(q') && HoldsPipe(q'.pc)))
  {
    hide PutByte, GetByte, IsFull, IsEmpty;
    Tests(b);
  }

  lemma {:induction false} ReaderOwes(b: Buf, q: Proc)
    requires |b.data| == PIPESIZE && SeenBy(b, q) && !q.asleep
    ensures (ActOf(b, q).Put? ==> q.buf != []) && (ActOf(b, q).Get? ==> q.left > 0)
    ensures
      var act := ActOf(b, q);
      var b', q' := BufAfter(b, q, act), After(q, act);
      (OwesReaders(q) ==>
        (OwesReaders(q') && HoldsPipe(q'.pc)) || (act.Abort? && q.owes) ||
        (act.Wake? && act.whom == RSlept && HoldsTable(q.pc) && !ReaderDown(q')))
  {
    hide PutByte, GetByte, IsFull, IsEmpty;
    Tests(b);
  }

  lemma {:induction false} ReaderNext(b: Buf, q: Proc)
    requires |b.data| == PIPESIZE && SeenBy(b, q) && !q.asleep
    ensures (ActOf(b, q).Put? ==> q.buf != []) && (ActOf(b, q).Get? ==> q.left > 0)
    ensures
      var act := ActOf(b, q);
      var b', q' := BufAfter(b, q, act), After(q, act);
      && (ReaderDown(q') ==> ReaderDown(q) || (IsEmpty(b') && b'.writeopen))
      && (IsEmpty(b) && b.writeopen ==> (IsEmpty(b') && b'.writeopen) || (OwesReaders(q') && HoldsPipe(q'.pc)))
      && (OwesReaders(q) ==>
         (OwesReaders(q') && HoldsPipe(q'.pc)) || (act.Abort? && q.owes) ||
         (act.Wake? && act.whom == RSlept && HoldsTable(q.pc) && !ReaderDown(q')))
  {
    hide PutByte, GetByte, IsFull, IsEmpty, ActOf, After, BufAfter, ReaderDown, WriterDown, OwesReaders, OwesWriters;
    ReaderLies(b, q);
    ReaderEmpty(b, q);
    ReaderOwes(b, q);
  }

  lemma {:induction false} WriterLies(b: Buf, q: Proc)
    requires |b.data| == PIPESIZE && SeenBy(b, q) && !q.asleep
    ensures (ActOf(b, q).Put? ==> q.buf != []) && (ActOf(b, q).Get? ==> q.left > 0)
    ensures
      var act := ActOf(b, q);
      var b', q' := BufAfter(b, q, act), After(q, act);
      (WriterDown(q') ==> WriterDown(q) || (IsFull(b') && b'.readopen))
  {
    hide PutByte, GetByte, IsFull, IsEmpty;
    Tests(b);
  }

  lemma {:induction false} WriterFull(b: Buf, q: Proc)
    requires |b.data| == PIPESIZE && SeenBy(b, q) && !q.asleep
    ensures (ActOf(b, q).Put? ==> q.buf != []) && (ActOf(b, q).Get? ==> q.left > 0)
    ensures
      var act := ActOf(b, q);
      var b', q' := BufAfter(b, q, act), After(q, act);
      (IsFull(b) && b.readopen ==> (IsFull(b') && b'.readopen) || (OwesWriters(q') && HoldsPipe(q'.pc)))
  {
    hide PutByte, GetByte, IsFull, IsEmpty;
    Tests(b);
  }

  lemma {:induction false} WriterOwes(b: Buf, q: Proc)
    requires |b.data| == PIPESIZE && SeenBy(b, q) && !q.asleep
    ensures (ActOf(b, q).Put? ==> q.buf != []) && (ActOf(b, q).Get? ==> q.left > 0)
    ensures
      var act := ActOf(b, q);
      var b', q' := BufAfter(b, q, act), After(q, act);
      (OwesWriters(q) ==>
        (OwesWriters(q') && HoldsPipe(q'.pc)) || (act.Wake? && act.whom == WSlept && HoldsTable(q.pc) &&
        !WriterDown(q')))
  {
    hide PutByte, GetByte, IsFull, IsEmpty;
    Tests(b);
  }

  lemma {:induction false} WriterNext(b: Buf, q: Proc)
    requires |b.data| == PIPESIZE && SeenBy(b, q) && !q.asleep
    ensures (ActOf(b, q).Put? ==> q.buf != []) && (ActOf(b, q).Get? ==> q.left > 0)
    ensures
      var act := ActOf(b, q);
      var b', q' := BufAfter(b, q, act), After(q, act);
      && (WriterDown(q') ==> WriterDown(q) || (IsFull(b') && b'.readopen))
      && (IsFull(b) && b.readopen ==> (IsFull(b') && b'.readopen) || (OwesWriters(q') && HoldsPipe(q'.pc)))
      && (OwesWriters(q) ==>
         (OwesWriters(q') && HoldsPipe(q'.pc)) || (act.Wake? && act.whom == WSlept && HoldsTable(q.pc) &&
         !WriterDown(q')))
  {
    hide PutByte, GetByte, IsFull, IsEmpty, ActOf, After, BufAfter, ReaderDown, WriterDown, OwesReaders, OwesWriters;
    WriterLies(b, q);
    WriterFull(b, q);
    WriterOwes(b, q);
  }

  // Bytes.

  lemma {:induction false} PutKeeps(b: Buf, x: Byte)
    requires Fifo(b) && !IsFull(b)
    ensures Fifo(PutByte(b, x))
  {
    assert |b.written| < |b.taken| + PIPESIZE by {
      Wraps(|b.taken|, |b.written|);
    }
    Slots(|b.written|);
    var r := PutByte(b, x);
    forall k | |r.taken| <= k < |r.written| ensures r.data[k % PIPESIZE] == r.written[k] {
      if k < |b.written| {
        SlotsDiffer(k, |b.written|);
      }
    }
  }

  lemma {:induction false} GetKeeps(b: Buf)
    requires Fifo(b) && !IsEmpty(b)
    ensures Fifo(GetByte(b))
  {
    assert |b.taken| < |b.written|;
    Slots(|b.taken|);
  }

  // The 32-bit test for a full pipe is exact.
  lemma {:induction false} Wraps(r: nat, w: nat)
    requires r <= w <= r + PIPESIZE
    ensures w % UINT == (r % UINT + PIPESIZE) % UINT <==> w == r + PIPESIZE
    ensures w % UINT == r % UINT <==> w == r
  {
  }

  // 512 divides 2^32, so slots go on in order when a counter wraps.
  lemma {:induction false} Slots(k: nat)
    ensures k % UINT % PIPESIZE == k % PIPESIZE && (k + 1) % UINT == (k % UINT + 1) % UINT
  {
    var q, r := k / 0x1_0000_0000, k % 0x1_0000_0000;
    SameSlot(q, r);
    Counted(q, r);
  }

  lemma {:induction false} SlotOf(a: nat, b: nat)
    requires b < 512
    ensures (512 * a + b) % 512 == b
  {
  }

  lemma {:induction false} SameSlot(q: nat, r: nat)
    ensures (0x1_0000_0000 * q + r) % 512 == r % 512
  {
    var a, b := r / 512, r % 512;
    SlotOf(0x80_0000 * q + a, b);
    assert 0x1_0000_0000 * q + r == 512 * (0x80_0000 * q + a) + b;
  }

  lemma {:induction false} CountOf(q: nat, r: nat)
    requires r < 0x1_0000_0000
    ensures (0x1_0000_0000 * q + r) % 0x1_0000_0000 == r
  {
  }

  lemma {:induction false} Counted(q: nat, r: nat)
    requires r < 0x1_0000_0000
    ensures (0x1_0000_0000 * q + r + 1) % 0x1_0000_0000 == (r + 1) % 0x1_0000_0000
  {
    if r + 1 < 0x1_0000_0000 {
      CountOf(q, r + 1);
      CountOf(0, r + 1);
    } else {
      CountOf(q + 1, 0);
      CountOf(1, 0);
    }
  }

  lemma {:induction false} SlotsDiffer(k: nat, w: nat)
    requires k < w < k + PIPESIZE
    ensures k % PIPESIZE != w % PIPESIZE
  {
  }

  // Whole states.

  ghost predicate Stepped(s: State, p: nat, s': State) {
    Inv(s) && |s.pipe.data| == PIPESIZE && Able(s, p) && Next(s, Go(p), s')
  }

  lemma {:induction false} GoMoves(s: State, p: nat, s': State)
    requires Stepped(s, p, s')
    ensures Moves(s, p, s') && SeenBy(s.pipe, s.procs[p]) && Holds(s, p)
    ensures
      var act := ActOf(s.pipe, s.procs[p]);
      && (act.Put? ==> s.procs[p].buf != []) && (act.Get? ==> s.procs[p].left > 0)
      && s'.procs[p] == After(s.procs[p], act) && s'.pipe == BufAfter(s.pipe, s.procs[p], act) &&
         s'.cut == (s.cut || (act.Abort? && s.procs[p].owes))
      && (act.Wake? ==> forall q :: 0 <= q < |s.procs| && q != p && s.procs[q].pc == act.whom ==> !s'.procs[q].asleep)
  {
    hide ActOf, Fifo, ReadersOk, WritersOk, After, BufAfter, SeenBy, Holds, Moves;
    ActFits(s.pipe, s.procs[p]);
    DoMoves(s, p, ActOf(s.pipe, s.procs[p]));
  }

  lemma {:induction false} GoExclusive(s: State, p: nat, s': State)
    requires Stepped(s, p, s')
    ensures Exclusive(s')
  {
    hide ActOf, Fifo, ReadersOk, WritersOk, After, BufAfter, Seen, HoldsPipe, HoldsTable, SeenBy, Next;
    GoMoves(s, p, s');
    forall q | 0 <= q < |s'.procs| ensures Holds(s', q) {
      if q != p {
        assert Holds(s, q) && s'.procs[q].pc == s.procs[q].pc;
      }
    }
  }

  lemma {:induction false} GoFifo(s: State, p: nat, s': State)
    requires Stepped(s, p, s')
    ensures Fifo(s'.pipe)
  {
    hide ActOf, ReadersOk, WritersOk, After, Seen, Next, SeenBy, Moves, Exclusive, Holds, PutByte, GetByte;
    GoMoves(s, p, s');
    ActFits(s.pipe, s.procs[p]);
    hide Fifo;
    var act := ActOf(s.pipe, s.procs[p]);
    if act.Put? {
      PutKeeps(s.pipe, s.procs[p].buf[0]);
    } else if act.Get? {
      GetKeeps(s.pipe);
    } else {
      ShutKeeps(s.pipe);
    }
  }

  lemma {:induction false} ShutKeeps(b: Buf)
    requires Fifo(b)
    ensures Fifo(b.(readopen := false)) && Fifo(b.(writeopen := false))
  {
  }

  lemma {:induction false} GoSeen(s: State, p: nat, s': State)
    requires Stepped(s, p, s')
    ensures Seen(s')
  {
    hide ActOf, ReadersOk, WritersOk, After, BufAfter, Next, Fifo, IsFull, IsEmpty;
    GoMoves(s, p, s');
    SeenNext(s.pipe, s.procs[p]);
    forall q | 0 <= q < |s'.procs| ensures SeenBy(s'.pipe, s'.procs[q]) {
      if q != p {
        assert Holds(s, q) && SeenBy(s.pipe, s.procs[q]);
      }
    }
  }

  lemma {:induction false} GoReaders(s: State, p: nat, s': State)
    requires Stepped(s, p, s')
    ensures ReadersOk(s')
  {
    hide ActOf, WritersOk, After, BufAfter, Next, Fifo, IsFull, IsEmpty, SeenBy, HoldsPipe, HoldsTable, Seen;
    GoMoves(s, p, s');
    ReaderNext(s.pipe, s.procs[p]);
    forall r | 0 <= r < |s'.procs| && ReaderDown(s'.procs[r]) ensures ReaderMay(s') {
      ReaderStays(s, p, s', r);
    }
  }

  lemma {:induction false} ReaderStays(s: State, p: nat, s': State, r: nat)
    requires Stepped(s, p, s') && r < |s'.procs| && ReaderDown(s'.procs[r])
    ensures ReaderMay(s')
  {
    hide ActOf, WritersOk, After, BufAfter, Next, Fifo, IsFull, IsEmpty, SeenBy, HoldsPipe, Seen, OwesReaders;
    GoMoves(s, p, s');
    ReaderNext(s.pipe, s.procs[p]);
    SleptHoldsNone();
    if r != p {
      assert Holds(s, r) && ReaderDown(s.procs[r]);
      assert ReaderMay(s);
    } else if ReaderDown(s.procs[p]) {
      assert ReaderMay(s);
    }
    OwesSame(s, p, s');
  }

  // Whether another process owes a wakeup does not change.
  lemma {:induction false} OwesSame(s: State, p: nat, s': State)
    requires p < |s.procs| && Moves(s, p, s')
    ensures forall q :: 0 <= q < |s.procs| && q != p ==>
      OwesReaders(s'.procs[q]) == OwesReaders(s.procs[q]) && OwesWriters(s'.procs[q]) == OwesWriters(s.procs[q])
  {
    hide HoldsPipe, HoldsTable;
  }

  lemma {:induction false} SleptHoldsNone()
    ensures !HoldsPipe(RSlept) && !HoldsPipe(WSlept) && !HoldsPipe(RSleep2) && !HoldsPipe(WSleep2)
  {
  }

  lemma {:induction false} GoWriters(s: State, p: nat, s': State)
    requires Stepped(s, p, s')
    ensures WritersOk(s')
  {
    forall r | 0 <= r < |s'.procs| && WriterDown(s'.procs[r]) ensures WriterMay(s') {
      WriterStays(s, p, s', r);
    }
  }

  lemma {:induction false} WriterStays(s: State, p: nat, s': State, r: nat)
    requires Stepped(s, p, s') && r < |s'.procs| && WriterDown(s'.procs[r])
    ensures WriterMay(s')
  {
    hide ActOf, ReadersOk, After, BufAfter, Next, Fifo, IsFull, IsEmpty, SeenBy, HoldsPipe, Seen, OwesWriters;
    GoMoves(s, p, s');
    WriterNext(s.pipe, s.procs[p]);
    SleptHoldsNone();
    if r != p {
      assert Holds(s, r) && WriterDown(s.procs[r]);
      assert WriterMay(s);
    } else if WriterDown(s.procs[p]) {
      assert WriterMay(s);
    }
    OwesSame(s, p, s');
  }

  // A call or a kill.
  // A call's start, and kill, touch one process, which neither lies down nor holds anything new.
  lemma {:induction false} CallOne(s: State, step: Step, s': State)
    requires Inv(s) && Next(s, step, s') && !step.Go?
    ensures s'.pipe == s.pipe && s'.lock == s.lock && s'.ptlock == s.ptlock && s'.cut == s.cut &&
      |s'.procs| == |s.procs|
    ensures forall q :: 0 <= q < |s.procs| && q != step.p ==> s'.procs[q] == s.procs[q]
  {
    hide ActOf, After, BufAfter, Fifo, IsFull, IsEmpty, Holds, SeenBy, Inv;
  }

  lemma {:induction false} Each(s: State, q: nat)
    requires Inv(s) && q < |s.procs|
    ensures Holds(s, q) && SeenBy(s.pipe, s.procs[q])
  {
    hide Fifo, ReadersOk, WritersOk, HoldsPipe, HoldsTable, SeenBy;
  }

  lemma {:induction false} CallHolds(s: State, step: Step, s': State, q: nat)
    requires Inv(s) && Next(s, step, s') && !step.Go? && q < |s'.procs| == |s.procs|
    ensures Holds(s', q) && SeenBy(s'.pipe, s'.procs[q])
  {
    hide ActOf, After, BufAfter, IsFull, IsEmpty, Inv;
    Each(s, q);
  }

  lemma {:induction false} CallLies(s: State, step: Step, s': State, q: nat)
    requires Next(s, step, s') && !step.Go? && q < |s'.procs| == |s.procs|
    ensures ReaderDown(s'.procs[q]) ==> ReaderDown(s.procs[q])
    ensures WriterDown(s'.procs[q]) ==> WriterDown(s.procs[q])
    ensures OwesReaders(s.procs[q]) ==> OwesReaders(s'.procs[q])
    ensures OwesWriters(s.procs[q]) ==> OwesWriters(s'.procs[q])
  {
    hide ActOf, After, BufAfter;
  }

  lemma {:induction false} CallKeeps(s: State, step: Step, s': State)
    requires Inv(s) && Next(s, step, s') && !step.Go?
    ensures Inv(s')
  {
    hide ActOf, After, BufAfter, Fifo, IsFull, IsEmpty, Next, Holds, SeenBy, ReaderDown, WriterDown;
    hide OwesReaders, OwesWriters;
    CallOne(s, step, s');
    forall q | 0 <= q < |s'.procs|
      ensures Holds(s', q) && SeenBy(s'.pipe, s'.procs[q])
      ensures ReaderDown(s'.procs[q]) ==> ReaderDown(s.procs[q])
      ensures WriterDown(s'.procs[q]) ==> WriterDown(s.procs[q])
      ensures OwesReaders(s.procs[q]) ==> OwesReaders(s'.procs[q])
      ensures OwesWriters(s.procs[q]) ==> OwesWriters(s'.procs[q])
    {
      CallHolds(s, step, s', q);
      CallLies(s, step, s', q);
    }
  }

  lemma {:induction false} NextKeeps(s: State, step: Step, s': State)
    requires Inv(s) && Next(s, step, s')
    ensures Inv(s')
  {
    hide Exclusive, Fifo, ReadersOk, WritersOk, Seen, ActOf, Do;
    if step.Go? {
      GoExclusive(s, step.p, s');
      GoFifo(s, step.p, s');
      GoReaders(s, step.p, s');
      GoWriters(s, step.p, s');
      GoSeen(s, step.p, s');
    } else {
      CallKeeps(s, step, s');
    }
  }

  lemma {:induction false} RunInv(run: seq<State>, steps: seq<Step>, i: nat)
    requires Run(run, steps) && i < |run|
    ensures Inv(run[i])
  {
    hide Inv, Next, Start;
    if i == 0 {
      StartInv(|run[0].procs|);
    } else {
      RunInv(run, steps, i - 1);
      NextKeeps(run[i - 1], steps[i - 1], run[i]);
    }
  }

  // In every run, the bytes read are a prefix of the bytes written, no more than 512 behind.
  lemma {:induction false} ReadsArePrefix(run: seq<State>, steps: seq<Step>, i: nat)
    requires Run(run, steps) && i < |run|
    ensures |run[i].pipe.taken| <= |run[i].pipe.written| <= |run[i].pipe.taken| + PIPESIZE
    ensures run[i].pipe.taken == run[i].pipe.written[..|run[i].pipe.taken|]
  {
    RunInv(run, steps, i);
  }

  // No two processes are between acquire and release of the pipe lock, or of ptable.lock.
  lemma {:induction false} OneInside(run: seq<State>, steps: seq<Step>, i: nat, p: nat, q: nat)
    requires Run(run, steps) && i < |run| && p < |run[i].procs| && q < |run[i].procs| && p != q
    ensures !(HoldsPipe(run[i].procs[p].pc) && HoldsPipe(run[i].procs[q].pc)) &&
      !(HoldsTable(run[i].procs[p].pc) && HoldsTable(run[i].procs[q].pc))
  {
    hide HoldsPipe, HoldsTable, Next, Fifo, Seen, ReadersOk, WritersOk;
    RunInv(run, steps, i);
    assert Holds(run[i], p) && Holds(run[i], q);
  }

  // No lost wakeup: with the pipe lock free, a reader still asleep waits on an empty pipe that can be
  // written - unless a writer has been cut short - and a writer still asleep on a full one that can be read.
  lemma {:induction false} NoLostWakeup(run: seq<State>, steps: seq<Step>, i: nat, p: nat)
    requires Run(run, steps) && i < |run| && p < |run[i].procs| && run[i].lock == None && run[i].procs[p].asleep
    ensures run[i].procs[p].pc == RSlept || run[i].procs[p].pc == WSlept
    ensures run[i].procs[p].pc == RSlept && !run[i].cut ==>
      |run[i].pipe.taken| == |run[i].pipe.written| && run[i].pipe.writeopen
    ensures run[i].procs[p].pc == WSlept ==>
      |run[i].pipe.written| == |run[i].pipe.taken| + PIPESIZE && run[i].pipe.readopen
  {
    hide Next;
    RunInv(run, steps, i);
    var s := run[i];
    assert SeenBy(s.pipe, s.procs[p]);
    Wraps(|s.pipe.taken|, |s.pipe.written|);
  }

  // cut is the whole of it: only a write that returns -1 after putting bytes in sets it.
  lemma {:induction false} CutWhen(s: State, step: Step, s': State)
    requires Inv(s) && Next(s, step, s') && s'.cut && !s.cut
    ensures step.Go? && s.procs[step.p].pc == WLoop && s.procs[step.p].owes && s.procs[step.p].buf != []
    ensures IsFull(s.pipe) && (s.procs[step.p].killed || !s.pipe.readopen) && s'.procs[step.p].pc == Out
  {
    hide IsFull;
    assert SeenBy(s.pipe, s.procs[step.p]);
  }
}
