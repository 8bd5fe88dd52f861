// The buffer pool of the disk-based database as values: frames, the recency list threaded through them,
// the hash chains that find them, and the file contents the pool stands for.
module BufPool {
  const PAGESIZE := 4096
  const WORDS := 512

  type Word = x: int | 0 <= x < 0x1_0000_0000_0000_0000

  // A page as eight-byte words: word 0 is fpo of a header page and ppo of any other, word 2 is pages_num.
  type Words = w: seq<Word> | |w| == WORDS witness seq(WORDS, _ => 0)
  datatype Page = Page(words: Words)

  function Zeros(): (z: Words)
    ensures forall k :: 0 <= k < WORDS ==> z[k] == 0
  {
    seq(WORDS, _ => 0)
  }

  const ZeroPage := Page(Zeros())

  // Word 0 of a page.
  function Link(x: Page): Word {
    x.words[0]
  }

  function WithLink(x: Page, w: Word): (r: Page) {
    Page(x.words[0 := w])
  }

  function PagesNum(x: Page): Word {
    x.words[2]
  }

  function WithPagesNum(x: Page, w: Word): (r: Page) {
    Page(x.words[2 := w])
  }

  datatype PageId = PageId(table: nat, page: nat)

  // next and prev are indices of frames, -1 for NULL.
  datatype Frame = Frame(data: Page, table: nat, pagenum: nat, dirty: bool, pins: nat, next: int, prev: int)

  datatype Entry = Entry(table: nat, pagenum: nat, loc: nat)

  // A slot of hash_table and the chain behind its next pointer. Table 0 marks an empty slot.
  datatype Bucket = Bucket(head: Entry, rest: seq<Entry>)

  const NoFrame := Frame(ZeroPage, 0, 0, false, 0, -1, -1)
  const NoEntry := Entry(0, 0, 0)

  function IdOf(f: Frame): PageId {
    PageId(f.table, f.pagenum)
  }

  function Ids(frames: seq<Frame>): (r: seq<PageId>)
    ensures |r| == |frames| && forall i :: 0 <= i < |r| ==> r[i] == IdOf(frames[i])
  {
    seq(|frames|, i requires 0 <= i < |frames| => IdOf(frames[i]))
  }

  // A frame but for its links.
  function Core(f: Frame): Frame {
    f.(next := -1, prev := -1)
  }

  ghost predicate SameCores(a: seq<Frame>, b: seq<Frame>) {
    |a| == |b| && forall i :: 0 <= i < |a| ==> Core(a[i]) == Core(b[i])
  }

  ghost predicate DistinctIds(ids: seq<PageId>, n: nat)
    requires n <= |ids|
  {
    forall i, j :: 0 <= i < j < n ==> ids[i] != ids[j]
  }

  // The recency list, least recently used first: last_page ... first_page along next. The prev of the
  // least recently used frame is never looked at.
  ghost predicate Linked(frames: seq<Frame>, lru: seq<nat>, first: int, last: int) {
    && (forall k :: 0 <= k < |lru| ==> lru[k] < |frames|)
    && (forall j, k :: 0 <= j < k < |lru| ==> lru[j] != lru[k])
    && (if lru == [] then first == -1 && last == -1 else first == lru[|lru| - 1] && last == lru[0])
    && (forall k :: 0 <= k < |lru| ==> frames[lru[k]].next == if k + 1 < |lru| then lru[k + 1] else -1)
    && (forall k :: 0 < k < |lru| ==> frames[lru[k]].prev == lru[k - 1])
  }

  // The list with its k-th frame made the most recent.
  function MoveUp(lru: seq<nat>, k: nat): (r: seq<nat>)
    requires k < |lru|
    ensures |r| == |lru|
  {
    lru[..k] + lru[k + 1..] + [lru[k]]
  }

  ghost function Touch(lru: seq<nat>, loc: nat): (r: seq<nat>)
    ensures loc !in lru ==> r == lru + [loc]
    ensures loc in lru ==> exists k :: 0 <= k < |lru| && lru[k] == loc && r == MoveUp(lru, k)
  {
    if loc in lru then
      var k :| 0 <= k < |lru| && lru[k] == loc;
      MoveUp(lru, k)
    else
      lru + [loc]
  }

  // The hash table.

  function Slot(page: nat, size: nat): (b: nat)
    requires size > 0
    ensures b < size
  {
    page % size
  }

  function Entries(b: Bucket): seq<Entry> {
    if b.head.table == 0 then [] else [b.head] + b.rest
  }

  // A bucket holds entries of live frames that hash to it, each once.
  ghost predicate BucketOk(ids: seq<PageId>, live: set<nat>, b: Bucket, slot: nat, size: nat)
    requires size > 0
  {
    && (b.head.table == 0 ==> b.rest == [])
    && (forall k :: 0 <= k < |Entries(b)| ==> EntryOk(ids, live, Entries(b)[k], slot, size))
    && (forall j, k :: 0 <= j < k < |Entries(b)| ==> Entries(b)[j].loc != Entries(b)[k].loc)
  }

  ghost predicate EntryOk(ids: seq<PageId>, live: set<nat>, e: Entry, slot: nat, size: nat)
    requires size > 0
  {
    e.table > 0 && e.loc in live && e.loc < |ids| && ids[e.loc] == PageId(e.table, e.pagenum) &&
      Slot(e.pagenum, size) == slot
  }

  ghost predicate Listed(ids: seq<PageId>, hash: seq<Bucket>, i: nat)
    requires i < |ids| && |hash| > 0
  {
    Entry(ids[i].table, ids[i].page, i) in Entries(hash[Slot(ids[i].page, |hash|)])
  }

  // The chains index exactly the live frames.
  ghost predicate Indexed(ids: seq<PageId>, live: set<nat>, hash: seq<Bucket>) {
    && |hash| > 0
    && (forall b :: 0 <= b < |hash| ==> BucketOk(ids, live, hash[b], b, |hash|))
    && (forall i :: i in live ==> i < |ids| && Listed(ids, hash, i))
  }

  ghost function Live(n: nat): (r: set<nat>)
    ensures forall i: nat :: i in r <==> i < n
  {
    if n == 0 then {} else Live(n - 1) + {n - 1}
  }

  // Taking the k-th entry out of a sequence.
  function Cut(s: seq<Entry>, k: nat): seq<Entry>
    requires k < |s|
  {
    s[..k] + s[k + 1..]
  }

  lemma {:induction false} CutHas(s: seq<Entry>, k: nat, e: Entry)
    requires k < |s|
    ensures e in s && e != s[k] ==> e in Cut(s, k)
    ensures e in Cut(s, k) ==> e in s
  {
    if e in s && e != s[k] {
      var j :| 0 <= j < |s| && s[j] == e;
      if j < k {
        assert Cut(s, k)[j] == e;
      } else {
        assert Cut(s, k)[j - 1] == e;
      }
    }
  }

  lemma {:induction false} DropBucket(ids: seq<PageId>, live: set<nat>, b: Bucket, b': Bucket, slot: nat, size: nat,
      k: nat)
    requires size > 0 && BucketOk(ids, live, b, slot, size) && k < |Entries(b)| && Entries(b') == Cut(Entries(b), k)
    requires b'.head.table == 0 ==> b'.rest == []
    ensures BucketOk(ids, live - {Entries(b)[k].loc}, b', slot, size)
  {
    hide Slot, Entries;
    var loc := Entries(b)[k].loc;
    forall j | 0 <= j < |Entries(b')| ensures EntryOk(ids, live - {loc}, Entries(b')[j], slot, size) {
      assert Entries(b')[j] == Entries(b)[if j < k then j else j + 1];
    }
  }

  // A bucket without the frame is as good once the frame is gone.
  lemma {:induction false} OtherBucket(ids: seq<PageId>, live: set<nat>, b: Bucket, slot: nat, size: nat, loc: nat)
    requires size > 0 && BucketOk(ids, live, b, slot, size) && loc < |ids| && Slot(ids[loc].page, size) != slot
    ensures BucketOk(ids, live - {loc}, b, slot, size)
  {
    hide Slot, Entries;
  }

  // Removing the entry of a frame from its chain leaves the chains indexing the other frames.
  lemma {:induction false} DropIndexed(ids: seq<PageId>, live: set<nat>, hash: seq<Bucket>, loc: nat, b': Bucket,
      k: nat)
    requires Indexed(ids, live, hash) && loc in live && loc < |ids|
    requires
      var b := hash[Slot(ids[loc].page, |hash|)];
      k < |Entries(b)| && Entries(b)[k].loc == loc && Entries(b') == Cut(Entries(b), k)
    requires b'.head.table == 0 ==> b'.rest == []
    ensures Indexed(ids, live - {loc}, hash[Slot(ids[loc].page, |hash|) := b'])
  {
    hide Slot, Entries, BucketOk, Cut;
    var slot := Slot(ids[loc].page, |hash|);
    var hash' := hash[slot := b'];
    forall s | 0 <= s < |hash'| ensures BucketOk(ids, live - {loc}, hash'[s], s, |hash|) {
      if s == slot {
        DropBucket(ids, live, hash[s], b', s, |hash|, k);
      } else {
        OtherBucket(ids, live, hash[s], s, |hash|, loc);
      }
    }
    forall i | i in live - {loc} ensures i < |ids| && Listed(ids, hash', i) {
      assert Listed(ids, hash, i);
      CutHas(Entries(hash[slot]), k, Entry(ids[i].table, ids[i].page, i));
    }
  }

  lemma {:induction false} MoreBucket(ids: seq<PageId>, live: set<nat>, b: Bucket, slot: nat, size: nat, loc: nat,
      id: PageId)
    requires size > 0 && BucketOk(ids, live, b, slot, size) && loc < |ids| && loc !in live
    ensures BucketOk(ids[loc := id], live + {loc}, b, slot, size)
  {
    hide Slot, Entries;
  }

  // Adding an entry: into an empty head, or behind a full one.
  function AddEntry(b: Bucket, e: Entry): (r: Bucket)
    ensures b.head.table == 0 && b.rest == [] && e.table > 0 ==> Entries(r) == [e]
    ensures b.head.table != 0 ==> Entries(r) == [b.head, e] + b.rest
  {
    if b.head.table == 0 then b.(head := e) else b.(rest := [e] + b.rest)
  }

  lemma {:induction false} AddBucket(ids: seq<PageId>, live: set<nat>, b: Bucket, slot: nat, size: nat, e: Entry)
    requires size > 0 && BucketOk(ids, live, b, slot, size) && e.loc < |ids| && e.loc !in live
    requires e.table > 0 && Slot(e.pagenum, size) == slot
    ensures BucketOk(ids[e.loc := PageId(e.table, e.pagenum)], live + {e.loc}, AddEntry(b, e), slot, size)
    ensures e in Entries(AddEntry(b, e)) && forall x :: x in Entries(b) ==> x in Entries(AddEntry(b, e))
  {
    hide Slot;
    MoreBucket(ids, live, b, slot, size, e.loc, PageId(e.table, e.pagenum));
    var ids', live', es, es' := ids[e.loc := PageId(e.table, e.pagenum)], live + {e.loc}, Entries(b),
      Entries(AddEntry(b, e));
    var at := if b.head.table == 0 then 0 else 1;
    assert |es'| == |es| + 1 && es'[at] == e;
    assert forall k :: 0 <= k < |es| ==> es[k] == es'[if k < at then k else k + 1];
    forall k | 0 <= k < |es'| ensures EntryOk(ids', live', es'[k], slot, size) && (k != at ==> es'[k].loc != e.loc) {
      if k != at {
        assert es'[k] == es[if k < at then k else k - 1];
        assert EntryOk(ids, live, es'[k], slot, size);
      }
    }
    forall j, k | 0 <= j < k < |es'| ensures es'[j].loc != es'[k].loc {
      if j != at && k != at {
        assert es'[j] == es[if j < at then j else j - 1] && es'[k] == es[if k < at then k else k - 1];
      }
    }
  }

  lemma {:induction false} AddIndexed(ids: seq<PageId>, live: set<nat>, hash: seq<Bucket>, e: Entry)
    requires Indexed(ids, live, hash) && e.loc < |ids| && e.loc !in live && e.table > 0
    ensures
      var slot := Slot(e.pagenum, |hash|);
      Indexed(ids[e.loc := PageId(e.table, e.pagenum)], live + {e.loc}, hash[slot := AddEntry(hash[slot], e)])
  {
    hide Slot, Entries, BucketOk, AddEntry;
    var slot := Slot(e.pagenum, |hash|);
    var ids', live', hash' := ids[e.loc := PageId(e.table, e.pagenum)], live + {e.loc},
      hash[slot := AddEntry(hash[slot], e)];
    AddBucket(ids, live, hash[slot], slot, |hash|, e);
    forall s | 0 <= s < |hash'| ensures BucketOk(ids', live', hash'[s], s, |hash|) {
      if s != slot {
        MoreBucket(ids, live, hash[s], s, |hash|, e.loc, PageId(e.table, e.pagenum));
      }
    }
    forall i | i in live' ensures i < |ids'| && Listed(ids', hash', i) {
      if i != e.loc {
        assert Listed(ids, hash, i);
      }
    }
  }

  // File contents behind the pool.

  // The first of n frames that holds a page, or n.
  ghost function Where(ids: seq<PageId>, n: nat, id: PageId): (i: nat)
    requires n <= |ids|
    ensures i <= n && (i < n ==> ids[i] == id)
    ensures i == n ==> forall j :: 0 <= j < n ==> ids[j] != id
    decreases n
  {
    if n == 0 then 0
    else
      var i := Where(ids, n - 1, id);
      if i < n - 1 || ids[n - 1] == id then i else n
  }

  ghost function Look(frames: seq<Frame>, n: nat, disk: map<nat, seq<Page>>, id: PageId): Page
    requires n <= |frames| && id.table in disk && id.page < |disk[id.table]|
  {
    var i := Where(Ids(frames), n, id);
    if i < n then frames[i].data else disk[id.table][id.page]
  }

  // What the tables hold for whoever reads them through the pool.
  ghost function Contents(frames: seq<Frame>, n: nat, disk: map<nat, seq<Page>>): (c: map<nat, seq<Page>>)
    requires n <= |frames|
    ensures c.Keys == disk.Keys && forall t :: t in c ==> |c[t]| == |disk[t]|
    ensures forall t, p :: t in c && 0 <= p < |c[t]| ==> c[t][p] == Look(frames, n, disk, PageId(t, p))
  {
    map t | t in disk :: seq(|disk[t]|, p requires 0 <= p < |disk[t]| => Look(frames, n, disk, PageId(t, p)))
  }

  lemma {:induction false} LookAt(frames: seq<Frame>, n: nat, disk: map<nat, seq<Page>>, i: nat)
    requires n <= |frames| && DistinctIds(Ids(frames), n) && i < n
    requires frames[i].table in disk && frames[i].pagenum < |disk[frames[i].table]|
    ensures Look(frames, n, disk, IdOf(frames[i])) == frames[i].data
  {
    var j := Where(Ids(frames), n, IdOf(frames[i]));
    assert Ids(frames)[i] == IdOf(frames[i]);
    assert j < n && Ids(frames)[j] == Ids(frames)[i];
  }

  // A page looks like the frame that holds it, or, if none does, like the file.
  lemma {:induction false} LookIs(frames: seq<Frame>, n: nat, disk: map<nat, seq<Page>>, id: PageId, x: Page)
    requires n <= |frames| && DistinctIds(Ids(frames), n) && id.table in disk && id.page < |disk[id.table]|
    requires forall i :: 0 <= i < n && IdOf(frames[i]) == id ==> frames[i].data == x
    requires (forall i :: 0 <= i < n ==> IdOf(frames[i]) != id) ==> disk[id.table][id.page] == x
    ensures Look(frames, n, disk, id) == x
  {
    var j := Where(Ids(frames), n, id);
    assert forall i :: 0 <= i < n ==> Ids(frames)[i] == IdOf(frames[i]);
  }

  lemma {:induction false} SameContents(frames: seq<Frame>, n: nat, disk: map<nat, seq<Page>>, c: map<nat, seq<Page>>)
    requires n <= |frames| && c.Keys == disk.Keys && forall t :: t in c ==> |c[t]| == |disk[t]|
    requires forall t, p :: t in c && 0 <= p < |c[t]| ==> c[t][p] == Look(frames, n, disk, PageId(t, p))
    ensures Contents(frames, n, disk) == c
  {
    hide Look;
    var d := Contents(frames, n, disk);
    forall t | t in c ensures c[t] == d[t] {
    }
  }

  // Frames hold pages of their tables; a clean one holds what the file holds, a dirty one is of an open table.
  ghost predicate FrameOk(f: Frame, disk: map<nat, seq<Page>>, open: set<nat>) {
    && f.table > 0 && f.table in disk && f.pagenum < |disk[f.table]|
    && (!f.dirty ==> f.data == disk[f.table][f.pagenum]) && (f.dirty ==> f.table in open)
  }

  ghost predicate Backed(frames: seq<Frame>, n: nat, disk: map<nat, seq<Page>>, open: set<nat>)
    requires n <= |frames|
  {
    forall i :: 0 <= i < n ==> FrameOk(frames[i], disk, open)
  }

  // Recency.

  // When a page was last asked for: the index in the trace, or -1.
  ghost function LastUse(trace: seq<PageId>, id: PageId): (k: int)
    ensures -1 <= k < |trace|
    ensures k >= 0 ==> trace[k] == id
    ensures forall j :: k < j < |trace| ==> trace[j] != id
  {
    if trace == [] then -1
    else if trace[|trace| - 1] == id then |trace| - 1
    else LastUse(trace[..|trace| - 1], id)
  }

  // The list is in order of last use.
  ghost predicate Recent(ids: seq<PageId>, lru: seq<nat>, trace: seq<PageId>) {
    && (forall k :: 0 <= k < |lru| ==> lru[k] < |ids| && LastUse(trace, ids[lru[k]]) >= 0)
    && (forall j, k :: 0 <= j < k < |lru| ==> LastUse(trace, ids[lru[j]]) < LastUse(trace, ids[lru[k]]))
  }

  lemma {:induction false} UsedNow(trace: seq<PageId>, id: PageId, x: PageId)
    ensures LastUse(trace + [id], x) == if x == id then |trace| else LastUse(trace, x)
  {
    assert (trace + [id])[..|trace|] == trace;
  }

  // Using a page and moving its frame up keeps the order.
  lemma {:induction false} RecentTouch(ids: seq<PageId>, ids': seq<PageId>, lru: seq<nat>, trace: seq<PageId>, loc: nat)
    requires |ids| == |ids'| && Recent(ids, lru, trace) && loc < |ids|
    requires forall k :: 0 <= k < |lru| && lru[k] != loc ==> ids'[lru[k]] == ids[lru[k]] && ids'[lru[k]] != ids'[loc]
    requires forall j, k :: 0 <= j < k < |lru| ==> lru[j] != lru[k]
    ensures Recent(ids', Touch(lru, loc), trace + [ids'[loc]])
  {
    hide LastUse;
    var r, trace' := Touch(lru, loc), trace + [ids'[loc]];
    forall x ensures LastUse(trace', x) == if x == ids'[loc] then |trace| else LastUse(trace, x) {
      UsedNow(trace, ids'[loc], x);
    }
    forall x ensures -1 <= LastUse(trace, x) < |trace| {
      Bounded(trace, x);
    }
    var c := Moved(lru, loc);
    forall j, k | 0 <= j < k < |r| ensures LastUse(trace', ids'[r[j]]) < LastUse(trace', ids'[r[k]]) {
    }
  }

  lemma {:induction false} Bounded(trace: seq<PageId>, x: PageId)
    ensures -1 <= LastUse(trace, x) < |trace|
  {
  }

  // Where the frames of a touched list come from: all but the last keep their order.
  lemma {:induction false} Moved(lru: seq<nat>, loc: nat) returns (c: nat)
    requires forall j, k :: 0 <= j < k < |lru| ==> lru[j] != lru[k]
    ensures
      var r := Touch(lru, loc);
      && c <= |lru| && (loc in lru <==> c < |lru|) && (c < |lru| ==> lru[c] == loc && r == MoveUp(lru, c))
      && |r| == |lru| + (if loc in lru then 0 else 1) && r[|r| - 1] == loc
      && (forall k :: 0 <= k < |r| - 1 ==> r[k] == lru[if k < c then k else k + 1] != loc)
      && (forall j, k :: 0 <= j < k < |r| ==> r[j] != r[k])
  {
    hide MoveUp, Touch;
    if loc in lru {
      c :| 0 <= c < |lru| && lru[c] == loc && Touch(lru, loc) == MoveUp(lru, c);
      MovedUp(lru, c);
    } else {
      c := |lru|;
      Appended(lru, loc);
    }
  }

  lemma {:induction false} Appended(lru: seq<nat>, loc: nat)
    requires loc !in lru && forall j, k :: 0 <= j < k < |lru| ==> lru[j] != lru[k]
    ensures
      var r := lru + [loc];
      && r[|r| - 1] == loc && (forall k :: 0 <= k < |r| - 1 ==> r[k] == lru[k] != loc)
      && (forall j, k :: 0 <= j < k < |r| ==> r[j] != r[k])
  {
  }

  lemma {:induction false} MovedUp(lru: seq<nat>, c: nat)
    requires c < |lru| && forall j, k :: 0 <= j < k < |lru| ==> lru[j] != lru[k]
    ensures
      var r := MoveUp(lru, c);
      && r[|r| - 1] == lru[c]
      && (forall k :: 0 <= k < |r| - 1 ==> r[k] == lru[if k < c then k else k + 1] != lru[c])
      && (forall j, k :: 0 <= j < k < |r| ==> r[j] != r[k])
  {
  }

  lemma {:induction false} Touched(lru: seq<nat>, loc: nat, i: nat)
    ensures i in Touch(lru, loc) <==> i in lru || i == loc
  {
    hide Touch, MoveUp;
    if loc in lru {
      var c :| 0 <= c < |lru| && lru[c] == loc && Touch(lru, loc) == MoveUp(lru, c);
      SameMembers(lru, c, i);
    }
  }

  lemma {:induction false} SameMembers(lru: seq<nat>, c: nat, i: nat)
    requires c < |lru|
    ensures i in MoveUp(lru, c) <==> i in lru
  {
    if i in lru {
      var k :| 0 <= k < |lru| && lru[k] == i;
      assert MoveUp(lru, c)[if k < c then k else if k == c then |lru| - 1 else k - 1] == i;
    }
  }

  // What changes to the frames and the files do to the contents.

  ghost function Put(c: map<nat, seq<Page>>, id: PageId, x: Page): map<nat, seq<Page>>
    requires id.table in c && id.page < |c[id.table]|
  {
    c[id.table := c[id.table][id.page := x]]
  }

  ghost predicate Good(frames: seq<Frame>, n: nat, disk: map<nat, seq<Page>>, open: set<nat>) {
    n <= |frames| && DistinctIds(Ids(frames), n) && Backed(frames, n, disk, open)
  }

  // Links and pins are nothing to the contents.
  lemma {:induction false} SameView(frames: seq<Frame>, frames': seq<Frame>, n: nat, disk: map<nat, seq<Page>>,
      open: set<nat>)
    requires Good(frames, n, disk, open) && |frames'| == |frames|
    requires forall i :: 0 <= i < |frames| ==> IdOf(frames'[i]) == IdOf(frames[i])
    requires forall i :: 0 <= i < n ==> frames'[i].data == frames[i].data && frames'[i].dirty == frames[i].dirty
    ensures Ids(frames') == Ids(frames) && Good(frames', n, disk, open)
    ensures Contents(frames', n, disk) == Contents(frames, n, disk)
  {
    assert Ids(frames') == Ids(frames);
    forall i | 0 <= i < n ensures FrameOk(frames'[i], disk, open) {
      assert FrameOk(frames[i], disk, open);
    }
    SameContents(frames', n, disk, Contents(frames, n, disk));
  }

  // Writing a frame back, dirty or not.
  lemma {:induction false} WriteView(frames: seq<Frame>, n: nat, disk: map<nat, seq<Page>>, open: set<nat>, loc: nat)
    requires Good(frames, n, disk, open) && loc < n
    requires frames[loc].table in disk && frames[loc].pagenum < |disk[frames[loc].table]|
    ensures Good(frames, n, Put(disk, IdOf(frames[loc]), frames[loc].data), open)
    ensures Contents(frames, n, Put(disk, IdOf(frames[loc]), frames[loc].data)) == Contents(frames, n, disk)
  {
    hide Look;
    var f := frames[loc];
    var disk', c := Put(disk, IdOf(f), f.data), Contents(frames, n, disk);
    forall i | 0 <= i < n ensures FrameOk(frames[i], disk', open) {
      assert FrameOk(frames[i], disk, open);
      assert Ids(frames)[i] == IdOf(frames[i]) && Ids(frames)[loc] == IdOf(f);
    }
    forall t, p | t in c && 0 <= p < |c[t]| ensures c[t][p] == Look(frames, n, disk', PageId(t, p)) {
      WrittenLook(frames, n, disk, loc, PageId(t, p));
    }
    SameContents(frames, n, disk', c);
  }

  lemma {:induction false} WrittenLook(frames: seq<Frame>, n: nat, disk: map<nat, seq<Page>>, loc: nat, id: PageId)
    requires n <= |frames| && DistinctIds(Ids(frames), n) && loc < n && id.table in disk && id.page < |disk[id.table]|
    requires frames[loc].table in disk && frames[loc].pagenum < |disk[frames[loc].table]|
    ensures Look(frames, n, Put(disk, IdOf(frames[loc]), frames[loc].data), id) == Look(frames, n, disk, id)
  {
    assert Ids(frames)[loc] == IdOf(frames[loc]);
  }

  // A frame given to another page, its old one being safe in the file.
  lemma {:induction false} SwapView(frames: seq<Frame>, n: nat, disk: map<nat, seq<Page>>, open: set<nat>, loc: nat,
      f: Frame)
    requires Good(frames, n, disk, open) && loc < n && FrameOk(f, disk, open) && !f.dirty
    requires frames[loc].table in disk && frames[loc].pagenum < |disk[frames[loc].table]|
    requires frames[loc].data == disk[frames[loc].table][frames[loc].pagenum]
    requires forall i :: 0 <= i < n ==> IdOf(frames[i]) != IdOf(f)
    ensures Good(frames[loc := f], n, disk, open)
    ensures Contents(frames[loc := f], n, disk) == Contents(frames, n, disk)
  {
    hide Look;
    var frames', c := frames[loc := f], Contents(frames, n, disk);
    forall i, j | 0 <= i < j < n ensures Ids(frames')[i] != Ids(frames')[j] {
      assert Ids(frames)[i] != Ids(frames)[j] && Ids(frames)[i] == IdOf(frames[i]) && Ids(frames)[j] == IdOf(frames[j]);
    }
    forall t, p | t in c && 0 <= p < |c[t]| ensures c[t][p] == Look(frames', n, disk, PageId(t, p)) {
      SwappedLook(frames, n, disk, loc, f, PageId(t, p));
    }
    SameContents(frames', n, disk, c);
  }

  lemma {:induction false} SwappedLook(frames: seq<Frame>, n: nat, disk: map<nat, seq<Page>>, loc: nat, f: Frame,
      id: PageId)
    requires n <= |frames| && DistinctIds(Ids(frames), n) && loc < n && DistinctIds(Ids(frames[loc := f]), n)
    requires f.table in disk && f.pagenum < |disk[f.table]| && f.data == disk[f.table][f.pagenum]
    requires frames[loc].table in disk && frames[loc].pagenum < |disk[frames[loc].table]|
    requires frames[loc].data == disk[frames[loc].table][frames[loc].pagenum]
    requires id.table in disk && id.page < |disk[id.table]| && forall i :: 0 <= i < n ==> IdOf(frames[i]) != IdOf(f)
    ensures Look(frames[loc := f], n, disk, id) == Look(frames, n, disk, id)
  {
    var frames' := frames[loc := f];
    forall i | 0 <= i < n && IdOf(frames'[i]) == id ensures frames'[i].data == Look(frames, n, disk, id) {
      if i != loc {
        LookAt(frames, n, disk, i);
      } else {
        LookIs(frames, n, disk, id, f.data);
      }
    }
    if forall i :: 0 <= i < n ==> IdOf(frames'[i]) != id {
      assert forall i :: 0 <= i < n && i != loc ==> frames'[i] == frames[i];
      LookIs(frames, n, disk, id, disk[id.table][id.page]);
    }
    LookIs(frames', n, disk, id, Look(frames, n, disk, id));
  }

  // A frame more.
  lemma {:induction false} GrowView(frames: seq<Frame>, n: nat, disk: map<nat, seq<Page>>, open: set<nat>, f: Frame)
    requires Good(frames, n, disk, open) && n < |frames| && FrameOk(f, disk, open) && !f.dirty
    requires forall i :: 0 <= i < n ==> IdOf(frames[i]) != IdOf(f)
    ensures Good(frames[n := f], n + 1, disk, open)
    ensures Contents(frames[n := f], n + 1, disk) == Contents(frames, n, disk)
  {
    hide Look;
    var frames', c := frames[n := f], Contents(frames, n, disk);
    forall i, j | 0 <= i < j < n + 1 ensures Ids(frames')[i] != Ids(frames')[j] {
      assert Ids(frames)[i] == IdOf(frames[i]) && (j < n ==> Ids(frames)[j] == IdOf(frames[j]));
    }
    forall t, p | t in c && 0 <= p < |c[t]| ensures c[t][p] == Look(frames', n + 1, disk, PageId(t, p)) {
      GrownLook(frames, n, disk, f, PageId(t, p));
    }
    SameContents(frames', n + 1, disk, c);
  }

  lemma {:induction false} OnlyFrame(frames: seq<Frame>, n: nat, i: nat)
    requires n <= |frames| && DistinctIds(Ids(frames), n) && i < n
    ensures forall j :: 0 <= j < n && IdOf(frames[j]) == IdOf(frames[i]) ==> j == i
  {
    forall j | 0 <= j < n && IdOf(frames[j]) == IdOf(frames[i]) ensures j == i {
      assert Ids(frames)[j] == IdOf(frames[j]) && Ids(frames)[i] == IdOf(frames[i]);
    }
  }

  lemma {:induction false} GrownLook(frames: seq<Frame>, n: nat, disk: map<nat, seq<Page>>, f: Frame, id: PageId)
    requires n < |frames| && DistinctIds(Ids(frames), n) && DistinctIds(Ids(frames[n := f]), n + 1)
    requires f.table in disk && f.pagenum < |disk[f.table]| && f.data == disk[f.table][f.pagenum]
    requires id.table in disk && id.page < |disk[id.table]| && forall i :: 0 <= i < n ==> IdOf(frames[i]) != IdOf(f)
    ensures Look(frames[n := f], n + 1, disk, id) == Look(frames, n, disk, id)
  {
    var frames' := frames[n := f];
    forall i | 0 <= i < n + 1 && IdOf(frames'[i]) == id ensures frames'[i].data == Look(frames, n, disk, id) {
      if i != n {
        LookIs(frames, n, disk, id, frames[i].data) by {
          OnlyFrame(frames, n, i);
        }
      } else {
        LookIs(frames, n, disk, id, f.data);
      }
    }
    if forall i :: 0 <= i < n + 1 ==> IdOf(frames'[i]) != id {
      assert forall i :: 0 <= i < n ==> frames'[i] == frames[i];
      LookIs(frames, n, disk, id, disk[id.table][id.page]);
    }
    LookIs(frames', n + 1, disk, id, Look(frames, n, disk, id));
  }

  // A holder's change of a page.
  lemma {:induction false} StoreView(frames: seq<Frame>, n: nat, disk: map<nat, seq<Page>>, open: set<nat>, loc: nat,
      x: Page)
    requires Good(frames, n, disk, open) && loc < n && frames[loc].table in open
    requires frames[loc].table in disk && frames[loc].pagenum < |disk[frames[loc].table]|
    ensures Good(frames[loc := frames[loc].(data := x, dirty := true)], n, disk, open)
    ensures Contents(frames[loc := frames[loc].(data := x, dirty := true)], n, disk) ==
      Put(Contents(frames, n, disk), IdOf(frames[loc]), x)
  {
    hide Look;
    var frames' := frames[loc := frames[loc].(data := x, dirty := true)];
    var c := Put(Contents(frames, n, disk), IdOf(frames[loc]), x);
    assert Ids(frames') == Ids(frames);
    forall t, p | t in c && 0 <= p < |c[t]| ensures c[t][p] == Look(frames', n, disk, PageId(t, p)) {
      StoredLook(frames, n, disk, loc, x, PageId(t, p));
    }
    SameContents(frames', n, disk, c);
  }

  lemma {:induction false} StoredLook(frames: seq<Frame>, n: nat, disk: map<nat, seq<Page>>, loc: nat, x: Page,
      id: PageId)
    requires n <= |frames| && DistinctIds(Ids(frames), n) && loc < n && id.table in disk && id.page < |disk[id.table]|
    ensures Look(frames[loc := frames[loc].(data := x, dirty := true)], n, disk, id) ==
      if id == IdOf(frames[loc]) then x else Look(frames, n, disk, id)
  {
    var frames' := frames[loc := frames[loc].(data := x, dirty := true)];
    assert Ids(frames') == Ids(frames);
    var i := Where(Ids(frames), n, id);
    assert Ids(frames)[loc] == IdOf(frames[loc]);
  }

  // With every frame written back, the files hold the contents.
  lemma {:induction false} CleanView(frames: seq<Frame>, n: nat, disk: map<nat, seq<Page>>, open: set<nat>)
    requires Good(frames, n, disk, open) && forall i :: 0 <= i < n ==> WrittenBack(frames[i], disk)
    ensures Contents(frames, n, disk) == disk
  {
    hide Look;
    forall t, p | t in disk && 0 <= p < |disk[t]| ensures disk[t][p] == Look(frames, n, disk, PageId(t, p)) {
      LookIs(frames, n, disk, PageId(t, p), disk[t][p]);
    }
    SameContents(frames, n, disk, disk);
  }

  ghost predicate WrittenBack(f: Frame, disk: map<nat, seq<Page>>) {
    f.table in disk && f.pagenum < |disk[f.table]| && f.data == disk[f.table][f.pagenum]
  }

  // Writing one frame back leaves those already written back so.
  lemma {:induction false} StaysWritten(frames: seq<Frame>, n: nat, disk: map<nat, seq<Page>>, open: set<nat>, loc: nat,
      i: nat)
    requires Good(frames, n, disk, open) && loc < n && i < n && (i == loc || WrittenBack(frames[i], disk))
    requires frames[loc].table in disk && frames[loc].pagenum < |disk[frames[loc].table]|
    ensures WrittenBack(frames[i], Put(disk, IdOf(frames[loc]), frames[loc].data))
  {
    OnlyFrame(frames, n, loc);
  }

  // A file put in place of one no frame has a page of.
  lemma {:induction false} FileView(frames: seq<Frame>, n: nat, disk: map<nat, seq<Page>>, open: set<nat>, t: nat,
      f: seq<Page>)
    requires Good(frames, n, disk, open) && forall i :: 0 <= i < n ==> frames[i].table != t
    ensures Good(frames, n, disk[t := f], open + {t}) &&
      Contents(frames, n, disk[t := f]) == Contents(frames, n, disk)[t := f]
  {
    hide Look;
    var disk', c := disk[t := f], Contents(frames, n, disk)[t := f];
    forall i | 0 <= i < n ensures FrameOk(frames[i], disk', open + {t}) {
      assert FrameOk(frames[i], disk, open);
    }
    forall u, p | u in c && 0 <= p < |c[u]| ensures c[u][p] == Look(frames, n, disk', PageId(u, p)) {
      FileLook(frames, n, disk, t, f, PageId(u, p));
    }
    SameContents(frames, n, disk', c);
  }

  lemma {:induction false} FileLook(frames: seq<Frame>, n: nat, disk: map<nat, seq<Page>>, t: nat, f: seq<Page>,
      id: PageId)
    requires n <= |frames| && DistinctIds(Ids(frames), n) && forall i :: 0 <= i < n ==> frames[i].table != t
    requires if id.table == t then id.page < |f| else id.table in disk && id.page < |disk[id.table]|
    ensures Look(frames, n, disk[t := f], id) == if id.table == t then f[id.page] else Look(frames, n, disk, id)
  {
    var i := Where(Ids(frames), n, id);
    if i < n {
      assert IdOf(frames[i]) == id;
    }
  }

  // A file one page longer.
  lemma {:induction false} ExtendView(frames: seq<Frame>, n: nat, disk: map<nat, seq<Page>>, open: set<nat>, t: nat)
    requires Good(frames, n, disk, open) && t in disk
    ensures
      var c := Contents(frames, n, disk);
      var disk' := disk[t := disk[t] + [ZeroPage]];
      Good(frames, n, disk', open) && Contents(frames, n, disk') == c[t := c[t] + [ZeroPage]]
  {
    hide Look;
    var disk' := disk[t := disk[t] + [ZeroPage]];
    var c := Contents(frames, n, disk);
    var c' := c[t := c[t] + [ZeroPage]];
    forall i | 0 <= i < n ensures FrameOk(frames[i], disk', open) {
      assert FrameOk(frames[i], disk, open);
    }
    forall u, p | u in c' && 0 <= p < |c'[u]| ensures c'[u][p] == Look(frames, n, disk', PageId(u, p)) {
      ExtendedLook(frames, n, disk, open, t, PageId(u, p));
    }
    SameContents(frames, n, disk', c');
  }

  lemma {:induction false} ExtendedLook(frames: seq<Frame>, n: nat, disk: map<nat, seq<Page>>, open: set<nat>, t: nat,
      id: PageId)
    requires Good(frames, n, disk, open) && t in disk && id.table in disk
    requires id.page < |disk[id.table]| || (id.table == t && id.page == |disk[t]|)
    ensures Look(frames, n, disk[t := disk[t] + [ZeroPage]], id) ==
      if id.page < |disk[id.table]| then Look(frames, n, disk, id) else ZeroPage
  {
    var i := Where(Ids(frames), n, id);
    if i < n {
      assert FrameOk(frames[i], disk, open) && IdOf(frames[i]) == id;
    }
  }

  // Relinking.

  lemma {:induction false} LinkedSame(frames: seq<Frame>, frames': seq<Frame>, lru: seq<nat>, first: int, last: int)
    requires Linked(frames, lru, first, last) && |frames'| == |frames|
    requires forall i :: 0 <= i < |frames| ==> frames'[i].next == frames[i].next && frames'[i].prev == frames[i].prev
    ensures Linked(frames', lru, first, last)
  {
  }

  // A frame that is not in the list goes to its recent end.
  lemma {:induction false} LinkNew(frames: seq<Frame>, frames': seq<Frame>, lru: seq<nat>, first: int, last: int,
      loc: nat)
    requires Linked(frames, lru, first, last) && lru != [] && loc !in lru && loc < |frames| == |frames'|
    requires forall i :: 0 <= i < |frames| && i != loc ==> frames'[i].next == if i == first then loc else frames[i].next
    requires forall i :: 0 <= i < |frames| && i != loc ==> frames'[i].prev == frames[i].prev
    requires frames'[loc].next == -1 && frames'[loc].prev == first
    ensures Linked(frames', lru + [loc], loc, last)
  {
  }

  // The least recently used frame goes to the recent end.
  lemma {:induction false} LinkTail(frames: seq<Frame>, frames': seq<Frame>, lru: seq<nat>, first: int, last: int)
    requires Linked(frames, lru, first, last) && |lru| >= 2 && |frames'| == |frames|
    requires forall i :: 0 <= i < |frames| && i != last ==>
      frames'[i].next == if i == first then last else frames[i].next
    requires forall i :: 0 <= i < |frames| && i != last && i != lru[1] ==> frames'[i].prev == frames[i].prev
    requires frames'[last].next == -1 && frames'[last].prev == first
    ensures Linked(frames', MoveUp(lru, 0), last, lru[1])
  {
    MovedUp(lru, 0);
    hide MoveUp;
  }

  // A frame from the middle goes to the recent end.
  lemma {:induction false} LinksOnly(was: seq<Frame>, now: seq<Frame>)
    requires |now| == |was|
    requires forall i :: 0 <= i < |now| ==> now[i] == was[i].(next := now[i].next, prev := now[i].prev)
    ensures SameCores(now, was)
  {
  }

  lemma {:induction false} LinkMiddle(frames: seq<Frame>, frames': seq<Frame>, lru: seq<nat>, first: int, last: int,
      c: nat)
    requires Linked(frames, lru, first, last) && 0 < c < |lru| - 1 && |frames'| == |frames|
    requires forall i :: 0 <= i < |frames| && i != lru[c] ==>
      frames'[i].next == if i == first then lru[c] else if i == lru[c - 1] then lru[c + 1] else frames[i].next
    requires forall i :: 0 <= i < |frames| && i != lru[c] ==>
      frames'[i].prev == if i == lru[c + 1] then lru[c - 1] else frames[i].prev
    requires frames'[lru[c]].next == -1 && frames'[lru[c]].prev == first
    ensures Linked(frames', MoveUp(lru, c), lru[c], last)
  {
    hide MoveUp;
    MovedUp(lru, c);
    var r := MoveUp(lru, c);
    forall k | 0 <= k < |r| ensures frames'[r[k]].next == if k + 1 < |r| then r[k + 1] else -1 {
      MiddleNext(frames, frames', lru, first, last, c, k);
    }
  }

  lemma {:induction false} MiddleNext(frames: seq<Frame>, frames': seq<Frame>, lru: seq<nat>, first: int, last: int,
      c: nat, k: nat)
    requires Linked(frames, lru, first, last) && 0 < c < |lru| - 1 && |frames'| == |frames| && k < |lru|
    requires forall i :: 0 <= i < |frames| && i != lru[c] ==>
      frames'[i].next == if i == first then lru[c] else if i == lru[c - 1] then lru[c + 1] else frames[i].next
    requires frames'[lru[c]].next == -1
    ensures
      var r := MoveUp(lru, c);
      r[k] < |frames'| && frames'[r[k]].next == if k + 1 < |r| then r[k + 1] else -1
  {
    MovedUp(lru, c);
  }

  // What the links say of a frame in the list, and of the ends of the list.
  lemma {:induction false} LinkFacts(frames: seq<Frame>, lru: seq<nat>, first: int, last: int, loc: nat)
    returns (c: nat)
    requires Linked(frames, lru, first, last) && loc < |frames|
    ensures c <= |lru| && (loc in lru <==> c < |lru|) &&
      (c < |lru| ==> lru[c] == loc && Touch(lru, loc) == MoveUp(lru, c))
    ensures (lru == [] <==> first == -1) && (lru == [] <==> last == -1)
    ensures lru != [] ==> 0 <= first < |frames| && 0 <= last < |frames| && first in lru && last in lru
    ensures lru != [] ==> (loc == first <==> c == |lru| - 1) && (loc == last <==> c == 0)
    ensures |lru| <= 1 && (loc in lru || lru == []) ==> Touch(lru, loc) == [loc]
    ensures c == |lru| - 1 ==> Touch(lru, loc) == lru
    ensures loc in lru && frames[loc].next == -1 && frames[loc].prev == -1 ==> |lru| == 1
  {
    c := Moved(lru, loc);
    if c < |lru| && |lru| > 1 {
      if c + 1 < |lru| {
        assert frames[lru[c]].next == lru[c + 1];
      } else {
        assert frames[lru[c]].prev == lru[c - 1];
      }
    }
  }

  lemma {:induction false} TailFacts(frames: seq<Frame>, lru: seq<nat>, first: int, last: int)
    requires Linked(frames, lru, first, last) && |lru| >= 2
    ensures 0 <= first < |frames| && 0 <= last < |frames| && first != last && first in lru && last in lru
    ensures frames[last].next == lru[1] && lru[1] < |frames| && lru[1] != last && lru[1] in lru
  {
  }

  lemma {:induction false} MiddleFacts(frames: seq<Frame>, lru: seq<nat>, first: int, last: int, c: nat)
    requires Linked(frames, lru, first, last) && 0 < c < |lru| - 1
    ensures var loc, before, after := lru[c], lru[c - 1], lru[c + 1];
      && loc < |frames| && before < |frames| && after < |frames| && 0 <= first < |frames| && first != loc
      && frames[loc].prev == before && frames[loc].next == after
      && before != loc && after != loc && before != after && before != first
  {
  }

  lemma {:induction false} LinkOne(frames: seq<Frame>, loc: nat)
    requires loc < |frames| && frames[loc].next == -1
    ensures Linked(frames, [loc], loc, loc)
  {
  }
}
