// The on-disk redo log of log.c as a value: what each disk write does to the state that a
// finished recovery would produce, and why a crash between any two writes is harmless.
module RedoLog {
  import opened Basics
  import opened Blocks
  import opened Bio

  const MAXOPBLOCKS := 10
  const LOGSIZE := MAXOPBLOCKS * 3

  // The superblock's logstart and nlog.
  datatype Layout = Layout(start: nat, size: nat)

  predicate InLog(L: Layout, b: nat) {
    L.start <= b < L.start + L.size
  }

  // begin_op's reservation test: room for this operation and every one already running.
  predicate CanBegin(n: nat, outstanding: int) {
    n + (outstanding + 1) * MAXOPBLOCKS <= LOGSIZE
  }

  // log_write's size test, made before absorption is considered.
  predicate MayLog(L: Layout, n: nat) {
    n < LOGSIZE && n < L.size - 1
  }

  // log_write's effect on the list of blocks: absorption, or one more.
  function Logs(blocks: seq<nat>, b: nat): (r: seq<nat>)
    ensures b in r && (forall x :: x in r <==> x in blocks || x == b)
    ensures |r| == |blocks| + if b in blocks then 0 else 1
  {
    if b in blocks then blocks else blocks + [b]
  }

  // The header block: word 0 is n, words 1..n are home block numbers.
  function HeadN(b: Block): nat {
    WordAt(b, 0)
  }

  function HeadBlocks(b: Block): (r: seq<nat>)
    requires HeadN(b) <= LOGSIZE
    ensures |r| == HeadN(b)
  {
    seq(HeadN(b), i requires 0 <= i < HeadN(b) => WordAt(b, 1 + i))
  }

  function PutHead(b: Block, blocks: seq<nat>): Block
    requires |blocks| <= LOGSIZE
    requires forall i :: 0 <= i < |blocks| ==> blocks[i] < 0x1_0000_0000
  {
    PutWords(SetWord(b, 0, |blocks|), 1, blocks, |blocks|)
  }

  // read_head undoes write_head, whatever else the header block held.
  lemma {:induction false} HeadRoundTrip(b: Block, blocks: seq<nat>)
    requires |blocks| <= LOGSIZE
    requires forall i :: 0 <= i < |blocks| ==> blocks[i] < 0x1_0000_0000
    ensures HeadN(PutHead(b, blocks)) == |blocks|
    ensures HeadBlocks(PutHead(b, blocks)) == blocks
  {
    hide WordAt, SetWord, PutWords;
    var b0 := SetWord(b, 0, |blocks|);
    WordAtSetWord(b, 0, |blocks|, 0);
    PutWordsAt(b0, 1, blocks, |blocks|, 0);
    forall i | 0 <= i < |blocks| ensures WordAt(PutHead(b, blocks), 1 + i) == blocks[i] {
      PutWordsAt(b0, 1, blocks, |blocks|, 1 + i);
    }
  }

  // A list of blocks as log_write makes it: distinct, outside the log. Whether it fits the log area is another
  // matter.
  ghost predicate Listed(L: Layout, size: nat, blocks: seq<nat>) {
    && |blocks| <= LOGSIZE
    && (forall i :: 0 <= i < |blocks| ==> blocks[i] < size && blocks[i] < 0x1_0000_0000 && !InLog(L, blocks[i]))
    && (forall i, j :: 0 <= i < j < |blocks| ==> blocks[i] != blocks[j])
  }

  // A list of blocks a transaction may hold: it fits.
  ghost predicate GoodBlocks(L: Layout, size: nat, blocks: seq<nat>) {
    Listed(L, size, blocks) && |blocks| < L.size
  }

  ghost predicate GoodDisk(L: Layout, d: Disk) {
    && L.size >= 1 && L.start + L.size <= |d|
    && HeadN(d[L.start]) <= LOGSIZE
    && GoodBlocks(L, |d|, HeadBlocks(d[L.start]))
  }

  // The logged contents of a log with n blocks.
  ghost function Logged(L: Layout, d: Disk, n: nat): (vals: seq<Block>)
    requires L.start + L.size <= |d| && n < L.size
    ensures |vals| == n
  {
    seq(n, i requires 0 <= i < n => d[L.start + 1 + i])
  }

  // The contents a disk or cache has for a list of blocks.
  ghost function Values(d: Disk, blocks: seq<nat>): (vals: seq<Block>)
    requires forall i :: 0 <= i < |blocks| ==> blocks[i] < |d|
    ensures |vals| == |blocks|
  {
    seq(|blocks|, i requires 0 <= i < |blocks| => d[blocks[i]])
  }

  // The disk with the first k blocks of a transaction put home, as install_trans's loop does it.
  ghost function Overlay(d: Disk, blocks: seq<nat>, vals: seq<Block>, k: nat): (r: Disk)
    requires k <= |blocks| == |vals| && forall i :: 0 <= i < |blocks| ==> blocks[i] < |d|
    ensures |r| == |d|
  {
    if k == 0 then d else Overlay(d, blocks, vals, k - 1)[blocks[k - 1] := vals[k - 1]]
  }

  // The disk with the first k contents in the log area, as write_log's loop does it.
  ghost function Append(L: Layout, d: Disk, vals: seq<Block>, k: nat): (r: Disk)
    requires L.start + L.size <= |d| && k <= |vals| < L.size
    ensures |r| == |d|
  {
    if k == 0 then d else Append(L, d, vals, k - 1)[L.start + k := vals[k - 1]]
  }

  // What a recovery that runs to its end makes of the home blocks.
  ghost function Recovered(L: Layout, d: Disk): (r: Disk)
    requires GoodDisk(L, d)
    ensures |r| == |d|
  {
    var blocks := HeadBlocks(d[L.start]);
    Overlay(d, blocks, Logged(L, d, |blocks|), |blocks|)
  }

  ghost predicate SameHome(L: Layout, d: Disk, d': Disk) {
    |d| == |d'| && forall b :: 0 <= b < |d| && !InLog(L, b) ==> d[b] == d'[b]
  }

  // The log on disk holds a transaction: header blocks, contents vals.
  ghost predicate Holds(L: Layout, d: Disk, blocks: seq<nat>, vals: seq<Block>) {
    GoodDisk(L, d) && HeadBlocks(d[L.start]) == blocks && Logged(L, d, |blocks|) == vals
  }

  lemma {:induction false} OverlayAt(L: Layout, d: Disk, blocks: seq<nat>, vals: seq<Block>, k: nat, b: nat)
    requires GoodBlocks(L, |d|, blocks) && k <= |blocks| == |vals| && b < |d|
    ensures b !in blocks[..k] ==> Overlay(d, blocks, vals, k)[b] == d[b]
    ensures forall i :: 0 <= i < k && blocks[i] == b ==> Overlay(d, blocks, vals, k)[b] == vals[i]
  {
    if k > 0 {
      OverlayAt(L, d, blocks, vals, k - 1, b);
      assert blocks[..k] == blocks[..k - 1] + [blocks[k - 1]];
    }
  }

  lemma {:induction false} OverlaySameAt(L: Layout, d: Disk, d': Disk, blocks: seq<nat>, vals: seq<Block>, b: nat)
    requires GoodBlocks(L, |d|, blocks) && |blocks| == |vals| && |d| == |d'| && b < |d|
    requires b in blocks || d[b] == d'[b]
    ensures Overlay(d, blocks, vals, |blocks|)[b] == Overlay(d', blocks, vals, |blocks|)[b]
  {
    assert blocks[..|blocks|] == blocks;
    OverlayAt(L, d, blocks, vals, |blocks|, b);
    OverlayAt(L, d', blocks, vals, |blocks|, b);
  }

  // A whole overlay hides the blocks it covers, so it looks at the disk below only elsewhere.
  lemma {:induction false} OverlaySame(L: Layout, d: Disk, d': Disk, blocks: seq<nat>, vals: seq<Block>)
    requires GoodBlocks(L, |d|, blocks) && |blocks| == |vals| && |d| == |d'|
    requires forall b :: 0 <= b < |d| && !InLog(L, b) && d[b] != d'[b] ==> b in blocks
    ensures SameHome(L, Overlay(d, blocks, vals, |blocks|), Overlay(d', blocks, vals, |blocks|))
  {
    var r, r' := Overlay(d, blocks, vals, |blocks|), Overlay(d', blocks, vals, |blocks|);
    forall b | 0 <= b < |d| && !InLog(L, b) ensures r[b] == r'[b] {
      OverlaySameAt(L, d, d', blocks, vals, b);
    }
  }

  lemma {:induction false} OverlayKeepsLog(L: Layout, d: Disk, blocks: seq<nat>, vals: seq<Block>, k: nat, b: nat)
    requires GoodBlocks(L, |d|, blocks) && k <= |blocks| == |vals| && b < |d| && InLog(L, b)
    ensures Overlay(d, blocks, vals, k)[b] == d[b]
  {
    OverlayAt(L, d, blocks, vals, k, b);
  }

  // The four kinds of disk write the log code issues, and what each does to Recovered.

  // Writing the log area of an empty log is invisible to recovery.
  lemma {:induction false} AppendHarmless(L: Layout, d: Disk, vals: seq<Block>, k: nat)
    requires GoodDisk(L, d) && HeadN(d[L.start]) == 0 && k <= |vals| < L.size
    ensures GoodDisk(L, Append(L, d, vals, k))
    ensures Append(L, d, vals, k)[L.start] == d[L.start]
    ensures SameHome(L, Append(L, d, vals, k), d)
    ensures SameHome(L, Recovered(L, Append(L, d, vals, k)), d)
    ensures Logged(L, Append(L, d, vals, k), k) == vals[..k]
  {
    if k > 0 {
      AppendHarmless(L, d, vals, k - 1);
      assert vals[..k] == vals[..k - 1] + [vals[k - 1]];
      assert Logged(L, Append(L, d, vals, k), k) == Logged(L, Append(L, d, vals, k - 1), k - 1) + [vals[k - 1]];
    }
  }

  // Writing a header over an empty one commits: the logged contents take effect at once.
  lemma {:induction false} HeaderCommits(L: Layout, d: Disk, blocks: seq<nat>, vals: seq<Block>)
    requires GoodDisk(L, d) && HeadN(d[L.start]) == 0
    requires GoodBlocks(L, |d|, blocks) && Logged(L, d, |blocks|) == vals
    ensures Holds(L, d[L.start := PutHead(d[L.start], blocks)], blocks, vals)
    ensures SameHome(L, Recovered(L, d[L.start := PutHead(d[L.start], blocks)]), Overlay(d, blocks, vals, |blocks|))
  {
    var d' := d[L.start := PutHead(d[L.start], blocks)];
    HeadRoundTrip(d[L.start], blocks);
    assert Logged(L, d', |blocks|) == vals;
    OverlaySame(L, d, d', blocks, vals);
  }

  // Copying logged blocks home is invisible to recovery.
  lemma {:induction false} InstallHarmless(L: Layout, d: Disk, blocks: seq<nat>, vals: seq<Block>, k: nat)
    requires Holds(L, d, blocks, vals) && k <= |blocks|
    ensures Holds(L, Overlay(d, blocks, vals, k), blocks, vals)
    ensures Overlay(d, blocks, vals, k)[L.start] == d[L.start]
    ensures SameHome(L, Recovered(L, Overlay(d, blocks, vals, k)), Recovered(L, d))
  {
    var r := Overlay(d, blocks, vals, k);
    forall b | 0 <= b < |d| && b !in blocks ensures r[b] == d[b] {
      OverlayAt(L, d, blocks, vals, k, b);
    }
    assert forall b :: InLog(L, b) ==> b !in blocks;
    assert Logged(L, r, |blocks|) == vals;
    OverlaySame(L, d, r, blocks, vals);
  }

  lemma {:induction false} InstallOneHarmless(L: Layout, d: Disk, blocks: seq<nat>, vals: seq<Block>, k: nat)
    requires Holds(L, d, blocks, vals) && k < |blocks|
    ensures GoodBlocks(L, |d|, blocks)
    ensures Holds(L, d[blocks[k] := vals[k]], blocks, vals)
    ensures SameHome(L, Recovered(L, d[blocks[k] := vals[k]]), Recovered(L, d))
  {
    var r := d[blocks[k] := vals[k]];
    assert !InLog(L, blocks[k]);
    assert r[L.start] == d[L.start];
    assert Logged(L, r, |blocks|) == vals;
    OverlaySame(L, d, r, blocks, vals);
  }

  // A disk that has every logged block home is its own recovery.
  lemma {:induction false} InstalledIsRecovered(L: Layout, d: Disk, blocks: seq<nat>, vals: seq<Block>)
    requires Holds(L, d, blocks, vals)
    requires forall i :: 0 <= i < |blocks| ==> blocks[i] < |d| && d[blocks[i]] == vals[i]
    ensures SameHome(L, d, Recovered(L, d))
  {
    assert blocks[..|blocks|] == blocks;
    forall b | 0 <= b < |d| && !InLog(L, b) ensures Recovered(L, d)[b] == d[b] {
      OverlayAt(L, d, blocks, vals, |blocks|, b);
    }
  }

  // Erasing the header once every block is home is invisible too.
  lemma {:induction false} EraseHarmless(L: Layout, d: Disk, blocks: seq<nat>, vals: seq<Block>)
    requires Holds(L, d, blocks, vals)
    ensures var r := Overlay(d, blocks, vals, |blocks|)[L.start := PutHead(d[L.start], [])];
      && GoodDisk(L, r) && HeadN(r[L.start]) == 0
      && SameHome(L, r, Recovered(L, d)) && SameHome(L, Recovered(L, r), Recovered(L, d))
  {
    HeadRoundTrip(d[L.start], []);
  }

  // write_log: block i of the transaction goes to log block i.
  function LogWrites(L: Layout, vals: seq<Block>): (ws: seq<Write>)
    ensures |ws| == |vals|
  {
    seq(|vals|, i requires 0 <= i < |vals| => Write(L.start + 1 + i, vals[i]))
  }

  // install_trans: block i of the transaction goes home.
  function HomeWrites(blocks: seq<nat>, vals: seq<Block>): (ws: seq<Write>)
    requires |blocks| == |vals|
    ensures |ws| == |vals|
  {
    seq(|vals|, i requires 0 <= i < |vals| => Write(blocks[i], vals[i]))
  }

  // Everything commit() writes, in order: log blocks, header, home blocks, empty header.
  function CommitWrites(L: Layout, head: Block, blocks: seq<nat>, vals: seq<Block>): (ws: seq<Write>)
    requires |blocks| == |vals| <= LOGSIZE
    requires forall i :: 0 <= i < |blocks| ==> blocks[i] < 0x1_0000_0000
    ensures |ws| == 2 * |blocks| + 2
  {
    var head' := PutHead(head, blocks);
    LogWrites(L, vals) + [Write(L.start, head')] + HomeWrites(blocks, vals) + [Write(L.start, PutHead(head', []))]
  }

  // Everything recover_from_log() writes: home blocks, empty header.
  ghost function RecoverWrites(L: Layout, d: Disk): (ws: seq<Write>)
    requires GoodDisk(L, d)
    ensures |ws| == HeadN(d[L.start]) + 1
  {
    var blocks := HeadBlocks(d[L.start]);
    HomeWrites(blocks, Logged(L, d, |blocks|)) + [Write(L.start, PutHead(d[L.start], []))]
  }

  // The disk after k writes of a recovery.
  ghost function RecoverPrefix(L: Layout, d: Disk, k: nat): (r: Disk)
    requires GoodDisk(L, d) && k <= HeadN(d[L.start]) + 1
    ensures |r| == |d|
  {
    var blocks := HeadBlocks(d[L.start]);
    var vals := Logged(L, d, |blocks|);
    if k <= |blocks| then Overlay(d, blocks, vals, k)
    else Overlay(d, blocks, vals, |blocks|)[L.start := PutHead(d[L.start], [])]
  }

  lemma {:induction false} RecoverInRange(L: Layout, d: Disk)
    requires GoodDisk(L, d)
    ensures InRange(RecoverWrites(L, d), |d|)
  {
    hide HeadN, HeadBlocks, Logged, PutHead;
  }

  lemma {:induction false} RecoverNone(L: Layout, d: Disk)
    requires GoodDisk(L, d)
    ensures RecoverPrefix(L, d, 0) == d == Apply(d, RecoverWrites(L, d)[..0])
  {
  }

  lemma {:induction false} RecoverWriteIs(L: Layout, d: Disk, k: nat)
    requires GoodDisk(L, d) && k <= HeadN(d[L.start])
    ensures
      var w := RecoverWrites(L, d)[k];
      w.blockno < |d| && RecoverPrefix(L, d, k + 1) == RecoverPrefix(L, d, k)[w.blockno := w.data]
  {
    hide PutHead, Logged;
  }

  lemma {:induction false} RecoverPrefixIsApply(L: Layout, d: Disk, k: nat)
    requires GoodDisk(L, d) && k <= HeadN(d[L.start]) + 1
    ensures InRange(RecoverWrites(L, d), |d|)
    ensures RecoverPrefix(L, d, k) == Apply(d, RecoverWrites(L, d)[..k])
  {
    hide GoodDisk, RecoverPrefix, RecoverWrites;
    RecoverInRange(L, d);
    if k == 0 {
      RecoverNone(L, d);
    } else {
      RecoverPrefixIsApply(L, d, k - 1);
      ApplyStep(d, RecoverWrites(L, d), k - 1);
      RecoverWriteIs(L, d, k - 1);
    }
  }

  // A recovery cut short after any number of writes leaves the outcome of recovery as it was,
  // and one that finishes leaves the outcome on disk with an empty log.
  lemma {:induction false} RecoveryPrefixHarmless(L: Layout, d: Disk, k: nat)
    requires GoodDisk(L, d) && k <= HeadN(d[L.start]) + 1
    ensures GoodDisk(L, RecoverPrefix(L, d, k))
    ensures SameHome(L, Recovered(L, RecoverPrefix(L, d, k)), Recovered(L, d))
    ensures k == HeadN(d[L.start]) + 1 ==>
      SameHome(L, RecoverPrefix(L, d, k), Recovered(L, d)) && HeadN(RecoverPrefix(L, d, k)[L.start]) == 0
  {
    var blocks := HeadBlocks(d[L.start]);
    if k <= |blocks| {
      InstallHarmless(L, d, blocks, Logged(L, d, |blocks|), k);
    } else {
      EraseHarmless(L, d, blocks, Logged(L, d, |blocks|));
    }
  }

  // The disk after a boot whose recovery is cut short ks[0] writes in, then one cut short ks[1] writes
  // in, and so on, until one finishes.
  ghost function AfterBoots(L: Layout, d: Disk, ks: seq<nat>): (r: Disk)
    requires GoodDisk(L, d)
    decreases |ks|
  {
    var n := HeadN(d[L.start]);
    var k := if ks == [] || ks[0] > n then n + 1 else ks[0];
    RecoveryPrefixHarmless(L, d, k);
    if ks == [] then RecoverPrefix(L, d, k) else AfterBoots(L, RecoverPrefix(L, d, k), ks[1..])
  }

  // Recovery is idempotent: however often it is interrupted, the home blocks end as one full run leaves them.
  lemma {:induction false} RecoveryIdempotent(L: Layout, d: Disk, ks: seq<nat>)
    requires GoodDisk(L, d)
    ensures GoodDisk(L, AfterBoots(L, d, ks))
    ensures SameHome(L, AfterBoots(L, d, ks), Recovered(L, d))
    ensures HeadN(AfterBoots(L, d, ks)[L.start]) == 0
    decreases |ks|
  {
    var n := HeadN(d[L.start]);
    var k := if ks == [] || ks[0] > n then n + 1 else ks[0];
    RecoveryPrefixHarmless(L, d, k);
    if ks != [] {
      RecoveryIdempotent(L, RecoverPrefix(L, d, k), ks[1..]);
    }
  }

  // A disk with an empty log, and a transaction that fits it.
  ghost predicate Committable(L: Layout, d: Disk, blocks: seq<nat>, vals: seq<Block>) {
    GoodDisk(L, d) && HeadN(d[L.start]) == 0 && GoodBlocks(L, |d|, blocks) && |vals| == |blocks|
  }

  // The disk once commit has written the log blocks and the header.
  ghost function HeaderWritten(L: Layout, d: Disk, blocks: seq<nat>, vals: seq<Block>): (r: Disk)
    requires Committable(L, d, blocks, vals)
    ensures |r| == |d|
  {
    Append(L, d, vals, |vals|)[L.start := PutHead(d[L.start], blocks)]
  }

  lemma {:induction false} HeaderWrittenHolds(L: Layout, d: Disk, blocks: seq<nat>, vals: seq<Block>)
    requires Committable(L, d, blocks, vals)
    ensures Holds(L, HeaderWritten(L, d, blocks, vals), blocks, vals)
    ensures HeaderWritten(L, d, blocks, vals)[L.start] == PutHead(d[L.start], blocks)
    ensures SameHome(L, Recovered(L, HeaderWritten(L, d, blocks, vals)), Overlay(d, blocks, vals, |blocks|))
  {
    var r := Append(L, d, vals, |vals|);
    AppendHarmless(L, d, vals, |vals|);
    assert vals[..|vals|] == vals;
    HeaderCommits(L, r, blocks, vals);
    OverlaySame(L, d, r, blocks, vals);
  }

  // The disk after k of commit's writes.
  ghost function CommitPrefix(L: Layout, d: Disk, blocks: seq<nat>, vals: seq<Block>, k: nat): (r: Disk)
    requires Committable(L, d, blocks, vals) && k <= 2 * |blocks| + 2
    ensures |r| == |d|
  {
    var n := |blocks|;
    if k <= n then Append(L, d, vals, k)
    else if k <= 2 * n + 1 then Overlay(HeaderWritten(L, d, blocks, vals), blocks, vals, k - n - 1)
    else Overlay(HeaderWritten(L, d, blocks, vals), blocks, vals, n)[L.start :=
      PutHead(PutHead(d[L.start], blocks), [])]
  }

  lemma {:induction false} CommitPrefixStep(L: Layout, d: Disk, blocks: seq<nat>, vals: seq<Block>, k: nat)
    requires Committable(L, d, blocks, vals) && k < 2 * |blocks| + 2
    ensures var w := CommitWrites(L, d[L.start], blocks, vals)[k];
      w.blockno < |d| && CommitPrefix(L, d, blocks, vals, k + 1) ==
        CommitPrefix(L, d, blocks, vals, k)[w.blockno := w.data]
  {
    var n := |blocks|;
    var w := CommitWrites(L, d[L.start], blocks, vals)[k];
    if k < n {
      assert w == Write(L.start + 1 + k, vals[k]);
    } else if k == n {
      assert w == Write(L.start, PutHead(d[L.start], blocks));
    } else if k <= 2 * n {
      assert w == Write(blocks[k - n - 1], vals[k - n - 1]);
    }
  }

  lemma {:induction false} CommitPrefixIsApply(L: Layout, d: Disk, blocks: seq<nat>, vals: seq<Block>, k: nat)
    requires Committable(L, d, blocks, vals) && k <= 2 * |blocks| + 2
    ensures InRange(CommitWrites(L, d[L.start], blocks, vals), |d|)
    ensures CommitPrefix(L, d, blocks, vals, k) == Apply(d, CommitWrites(L, d[L.start], blocks, vals)[..k])
  {
    if k > 0 {
      CommitPrefixIsApply(L, d, blocks, vals, k - 1);
      CommitPrefixStep(L, d, blocks, vals, k - 1);
      ApplyStep(d, CommitWrites(L, d[L.start], blocks, vals), k - 1);
    }
  }

  // The state a crash after k of commit's writes recovers to: the old one up to the first header write
  // (write number n), the whole transaction from then on.
  lemma {:induction false} CommittableIs(L: Layout, d: Disk, blocks: seq<nat>, vals: seq<Block>)
    requires Committable(L, d, blocks, vals)
    ensures GoodDisk(L, d) && HeadN(d[L.start]) == 0 && |vals| == |blocks| < L.size && SameHome(L, d, d)
  {
  }

  lemma {:induction false} CommitSwitchPoint(L: Layout, d: Disk, blocks: seq<nat>, vals: seq<Block>, k: nat)
    requires Committable(L, d, blocks, vals) && k <= 2 * |blocks| + 2
    ensures GoodDisk(L, CommitPrefix(L, d, blocks, vals, k))
    ensures SameHome(L, Recovered(L, CommitPrefix(L, d, blocks, vals, k)),
                     if k <= |blocks| then d else Overlay(d, blocks, vals, |blocks|))
    ensures k == 2 * |blocks| + 2 ==>
      SameHome(L, CommitPrefix(L, d, blocks, vals, k), Overlay(d, blocks, vals, |blocks|)) &&
      HeadN(CommitPrefix(L, d, blocks, vals, k)[L.start]) == 0
  {
    hide GoodDisk, Recovered, HeadN, PutHead, Append, Logged, HeadBlocks;
    var n := |blocks|;
    CommittableIs(L, d, blocks, vals);
    if k <= n {
      AppendHarmless(L, d, vals, k);
    } else {
      HeaderWrittenHolds(L, d, blocks, vals);
      if k <= 2 * n + 1 {
        InstallHarmless(L, HeaderWritten(L, d, blocks, vals), blocks, vals, k - n - 1);
      } else {
        EraseHarmless(L, HeaderWritten(L, d, blocks, vals), blocks, vals);
      }
    }
  }

  // Crash atomicity: crash after any k of commit's writes, boot with recoveries cut short anywhere any
  // number of times, and the home blocks are exactly those before or exactly those after the transaction.
  lemma {:induction false} CrashAtomicity(L: Layout, d: Disk, blocks: seq<nat>, vals: seq<Block>, k: nat, ks: seq<nat>)
    requires Committable(L, d, blocks, vals) && k <= 2 * |blocks| + 2
    ensures GoodDisk(L, CommitPrefix(L, d, blocks, vals, k))
    ensures SameHome(L, AfterBoots(L, CommitPrefix(L, d, blocks, vals, k), ks),
                     if k <= |blocks| then d else Overlay(d, blocks, vals, |blocks|))
  {
    CommitSwitchPoint(L, d, blocks, vals, k);
    RecoveryIdempotent(L, CommitPrefix(L, d, blocks, vals, k), ks);
  }
}
