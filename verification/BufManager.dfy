// The buffer manager: table files behind a fixed number of frames, found through a hash table and
// recycled least recently used first.
module BufManager {
  import opened BufPool

  const MAXTABLE := 10
  const FREEPAGES := 100

  // What the two open calls of open_table find.
  datatype Opening = Created | Existing(pages: seq<Page>) | Failed

  // File offsets fit off_t.
  predicate FitsFile(pages: nat) {
    pages * PAGESIZE < 0x8000_0000_0000_0000
  }

  // A table file with n free pages, each put at the head of the free list as it is appended.
  function FreshFile(n: nat): (f: seq<Page>)
    requires n <= FREEPAGES
    ensures |f| == n + 1 && PagesNum(f[0]) == n + 1
  {
    if n == 0 then
      [WithPagesNum(ZeroPage, 1)]
    else
      FreshFile(n - 1)[0 := WithPagesNum(WithLink(FreshFile(n - 1)[0], PAGESIZE * n), n + 1)] +
        [WithLink(ZeroPage, Link(FreshFile(n - 1)[0]))]
  }

  lemma {:induction false} FreshNone()
    ensures FreshFile(0) == [WithPagesNum(ZeroPage, 1)] && PagesNum(WithPagesNum(ZeroPage, 1)) == 1
  {
  }

  lemma {:induction false} LinkCounts(x: Page, link: Word, n: Word)
    ensures PagesNum(WithLink(x, link)) == PagesNum(x) && PagesNum(WithPagesNum(x, n)) == n
    ensures PagesNum(WithPagesNum(WithLink(x, link), n)) == n
  {
  }

  lemma {:induction false} FreshMore(n: nat)
    requires n < FREEPAGES
    ensures |FreshFile(n)| == n + 1 && PagesNum(FreshFile(n)[0]) == n + 1
    ensures
      var h := WithLink(FreshFile(n)[0], PAGESIZE * (n + 1));
      && PagesNum(h) == n + 1 && PagesNum(WithPagesNum(h, n + 2)) == n + 2
      && FreshFile(n + 1) == (FreshFile(n) + [WithLink(ZeroPage, Link(FreshFile(n)[0]))])[0 := WithPagesNum(h, n + 2)]
  {
    hide WithLink, WithPagesNum;
    LinkCounts(FreshFile(n)[0], PAGESIZE * (n + 1), n + 2);
    var f, z := FreshFile(n), WithLink(ZeroPage, Link(FreshFile(n)[0]));
    var h := WithPagesNum(WithLink(f[0], PAGESIZE * (n + 1)), n + 2);
    assert f[0 := h] + [z] == (f + [z])[0 := h];
  }

  // A new file's header is in order, and its free list runs from the last page to the first.
  lemma {:induction false} FreshIs(n: nat)
    requires n <= FREEPAGES
    ensures HeaderOk(FreshFile(n)) && Link(FreshFile(n)[0]) == PAGESIZE * n
    ensures forall k :: 0 < k <= n ==> FreshFile(n)[k] == WithLink(ZeroPage, PAGESIZE * (k - 1))
  {
    if n > 0 {
      FreshIs(n - 1);
    }
  }

  // The contents after a page has been taken from the free list, or from the end of the file.
  ghost function Alloced(c: map<nat, seq<Page>>, t: nat): (r: map<nat, seq<Page>>)
    requires t in c && HeaderOk(c[t]) && FitsFile(|c[t]| + 1)
  {
    if Link(c[t][0]) == 0 then c[t := c[t][0 := WithPagesNum(c[t][0], |c[t]| + 1)] + [ZeroPage]]
    else Put(c, PageId(t, 0), WithLink(c[t][0], Link(c[t][Link(c[t][0]) / PAGESIZE])))
  }

  ghost function AllocedPage(c: map<nat, seq<Page>>, t: nat): (p: nat)
    requires t in c && HeaderOk(c[t])
  {
    if Link(c[t][0]) == 0 then |c[t]| else Link(c[t][0]) / PAGESIZE
  }

  ghost function Freed(c: map<nat, seq<Page>>, t: nat, p: nat): (r: map<nat, seq<Page>>)
    requires t in c && 0 < p < |c[t]| && FitsFile(|c[t]|)
  {
    Put(Put(c, PageId(t, p), WithLink(ZeroPage, Link(c[t][0]))), PageId(t, 0), WithLink(c[t][0], PAGESIZE * p))
  }

  // The header counts the pages of the file, and its free link is to a page of it.
  ghost predicate HeaderOk(f: seq<Page>) {
    && |f| > 0 && PagesNum(f[0]) == |f| && Link(f[0]) % PAGESIZE == 0 && Link(f[0]) / PAGESIZE < |f|
  }

  // The recency list has every frame in use.
  ghost predicate Covers(lru: seq<nat>, n: nat) {
    (forall k :: 0 <= k < |lru| ==> lru[k] < n) && (forall i: nat :: i < n ==> i in lru)
  }

  lemma {:induction false} CoversTouch(lru: seq<nat>, n: nat, loc: nat)
    requires Covers(lru, n)
    ensures loc < n ==> Covers(Touch(lru, loc), n)
    ensures loc == n ==> Covers(Touch(lru, loc), n + 1)
    ensures loc in lru ==> loc < n
  {
    hide Touch;
    var r := Touch(lru, loc);
    forall i: nat ensures i in r <==> i in lru || i == loc {
      Touched(lru, loc, i);
    }
    assert forall k :: 0 <= k < |r| ==> r[k] in r;
  }

  class Manager {
    const pool: array<Frame>
    const hash: array<Bucket>
    var curSize: nat
    var tableId: nat                    // the next id open_table gives
    var open: set<nat>                  // the ids with a file descriptor
    var disk: map<nat, seq<Page>>       // the file of every id given so far
    var first: int                      // first_page, the most recently used frame
    var last: int                       // last_page, the least recently used
    ghost var lru: seq<nat>
    ghost var trace: seq<PageId>        // every page asked for so far

    ghost predicate Shape()
      reads this, pool, hash
    {
      && pool.Length == hash.Length > 0 && curSize <= pool.Length
      && (forall i :: curSize <= i < pool.Length ==> pool[i].next == -1 && pool[i].prev == -1 && pool[i].pins == 0)
      && Covers(lru, curSize)
      && (forall t: nat :: t in disk ==> 0 < t < tableId && FitsFile(|disk[t]|)) && 0 < tableId <= MAXTABLE + 1 &&
         open <= disk.Keys
    }

    ghost predicate Valid()
      reads this, pool, hash
    {
      && Shape() && Linked(pool[..], lru, first, last) && Indexed(Ids(pool[..]), Live(curSize), hash[..])
      && Good(pool[..], curSize, disk, open) && Recent(Ids(pool[..]), lru, trace)
    }

    // What each table holds for its readers.
    ghost function Tables(): (c: map<nat, seq<Page>>)
      requires curSize <= pool.Length
      reads this, pool
      ensures c.Keys == disk.Keys && forall t :: t in c ==> |c[t]| == |disk[t]|
    {
      Contents(pool[..], curSize, disk)
    }

    ghost predicate Resident(id: PageId)
      requires curSize <= pool.Length
      reads this, pool
    {
      exists i :: 0 <= i < curSize && IdOf(pool[i]) == id
    }

    lemma {:induction false} Sizes()
      requires Valid()
      ensures curSize <= pool.Length && open <= disk.Keys && forall t :: t in disk ==> FitsFile(|disk[t]|)
    {
    }

    lemma {:induction false} Showing(loc: nat, t: nat, p: nat)
      requires Valid() && loc < curSize && loc < pool.Length && IdOf(pool[loc]) == PageId(t, p)
      ensures t in Tables() && p < |Tables()[t]| && pool[loc].data == Tables()[t][p]
    {
      hide Good, Contents, Linked, Indexed, Recent;
      Shows(pool[..], curSize, disk, open, loc);
    }

    // init_db: num_buf empty frames.
    constructor (numBuf: nat)
      requires numBuf > 0
      ensures Valid() && fresh(pool) && fresh(hash) && pool.Length == numBuf && curSize == 0 && Tables() == map[] &&
        trace == []
    {
      pool := new Frame[numBuf](_ => NoFrame);
      hash := new Bucket[numBuf](_ => Bucket(NoEntry, []));
      curSize, tableId, open, disk, first, last := 0, 1, {}, map[], -1, -1;
      lru, trace := [], [];
    }

    // find_location: the frame of a page, or -1.
    method FindLocation(t: nat, p: nat) returns (loc: int)
      requires Shape() && Indexed(Ids(pool[..]), Live(curSize), hash[..])
      requires t > 0
      ensures -1 <= loc < curSize && (loc == -1 <==> !Resident(PageId(t, p)))
      ensures loc >= 0 ==> IdOf(pool[loc]) == PageId(t, p)
    {
      hide BucketOk, Slot, Linked;
      ghost var ids, live := Ids(pool[..]), Live(curSize);
      var num := Slot(p, hash.Length);
      var b := hash[num];
      assert BucketOk(ids, live, hash[..][num], num, hash.Length);
      if b.head.table == 0 {
        NotThere(ids, live, hash[..], t, p);
        return -1;
      }
      var es := [b.head] + b.rest;
      var k := 0;
      while k < |es|
        invariant k <= |es|
        invariant forall j :: 0 <= j < k ==> es[j].table != t || es[j].pagenum != p
      {
        if es[k].table == t && es[k].pagenum == p {
          EntryIs(ids, live, b, num, hash.Length, k);
          return es[k].loc;
        }
        k := k + 1;
      }
      NotThere(ids, live, hash[..], t, p);
      return -1;
    }

    // insert_LRU_List: make a frame the most recently used.
    method InsertLru(loc: nat)
      requires Linked(pool[..], lru, first, last) && loc < pool.Length
      requires loc !in lru ==> pool[loc].next == -1 && pool[loc].prev == -1
      requires forall i :: i in lru && i != loc ==> i < pool.Length && IdOf(pool[i]) != IdOf(pool[loc])
      modifies pool, this`first, this`last, this`lru
      ensures lru == Touch(old(lru), loc) && Linked(pool[..], lru, first, last)
      ensures SameCores(pool[..], old(pool[..]))
      ensures forall i :: 0 <= i < pool.Length && i !in old(lru) && i != loc ==> pool[i] == old(pool[i])
    {
      hide Linked, MoveUp, Touch;
      ghost var was := pool[..];
      ghost var c := LinkFacts(was, lru, first, last, loc);
      if first == -1 && last == -1 {
        first, last := loc, loc;
        LinkOne(was, loc);
      } else if pool[loc].next == -1 && pool[loc].prev == -1 {
        pool[first] := pool[first].(next := loc);
        pool[loc] := pool[loc].(prev := first);
        first := loc;
        pool[first] := pool[first].(next := -1);
        if c == |lru| {
          LinkNew(was, pool[..], lru, old(first), last, loc);
          TouchNew(lru, loc);
        } else {
          LinkOne(pool[..], loc);
        }
      } else if pool[loc].table == pool[first].table && pool[loc].pagenum == pool[first].pagenum {
      } else if pool[loc].table == pool[last].table && pool[loc].pagenum == pool[last].pagenum {
        FromTail();
      } else {
        FromMiddle(loc, c);
      }
      lru := Touch(lru, loc);
    }

    // last_page to the recent end.
    method FromTail()
      requires Linked(pool[..], lru, first, last) && |lru| >= 2
      modifies pool, this`first, this`last
      ensures Linked(pool[..], MoveUp(lru, 0), first, last)
      ensures SameCores(pool[..], old(pool[..])) && forall i :: 0 <= i < pool.Length && i !in lru ==>
        pool[i] == old(pool[i])
    {
      hide Linked, MoveUp;
      ghost var was := pool[..];
      TailFacts(was, lru, first, last);
      var loc := last;
      pool[first] := pool[first].(next := loc);
      pool[loc] := pool[loc].(prev := first);
      first := loc;
      last := pool[last].next;
      pool[first] := pool[first].(next := -1);
      pool[last] := pool[last].(prev := -1);
      LinkTail(was, pool[..], lru, old(first), old(last));
    }

    // A frame between the ends to the recent end.
    method FromMiddle(loc: nat, ghost c: nat)
      requires Linked(pool[..], lru, first, last) && 0 < c < |lru| - 1 && lru[c] == loc
      modifies pool, this`first
      ensures Linked(pool[..], MoveUp(lru, c), first, last)
      ensures SameCores(pool[..], old(pool[..])) && forall i :: 0 <= i < pool.Length && i !in lru ==>
        pool[i] == old(pool[i])
    {
      hide Linked, MoveUp, SameCores;
      ghost var was := pool[..];
      MiddleFacts(was, lru, first, last, c);
      pool[first] := pool[first].(next := loc);
      var before, after := pool[loc].prev, pool[loc].next;
      pool[before] := pool[before].(next := after);
      pool[after] := pool[after].(prev := before);
      pool[loc] := pool[loc].(prev := first);
      first := loc;
      pool[first] := pool[first].(next := -1);
      LinkMiddle(was, pool[..], lru, old(first), last, c);
      LinkFactsIn(was, lru, old(first), last);
      LinksOnly(was, pool[..]);
    }

    // The search for a frame to recycle: the least recently used one that nobody holds. !ok when all are held,
    // where the code follows a null pointer.
    method Victim() returns (ok: bool, loc: nat, ghost k: nat)
      requires Shape() && Linked(pool[..], lru, first, last)
      ensures ok <==> exists i :: 0 <= i < curSize && pool[i].pins == 0
      ensures ok ==> k < |lru| && lru[k] == loc && loc < curSize && pool[loc].pins == 0
      ensures ok ==> forall j :: 0 <= j < k ==> lru[j] < pool.Length && pool[lru[j]].pins > 0
    {
      hide Indexed;
      var cur := last;
      k := 0;
      while cur != -1 && pool[cur].pins != 0
        invariant k <= |lru| && cur == (if k < |lru| then lru[k] else -1)
        invariant forall j :: 0 <= j < k ==> pool[lru[j]].pins > 0
        decreases |lru| - k
      {
        assert pool[..][lru[k]].next == if k + 1 < |lru| then lru[k + 1] else -1;
        cur := pool[cur].next;
        k := k + 1;
      }
      if cur == -1 {
        forall i: nat | i < curSize ensures pool[i].pins > 0 {
          assert i in lru;
        }
        return false, 0, 0;
      }
      return true, cur, k;
    }

    // The entry of a frame out of its hash chain.
    method DropHash(loc: nat)
      requires Shape() && Indexed(Ids(pool[..]), Live(curSize), hash[..]) && loc < curSize
      requires DistinctIds(Ids(pool[..]), curSize)
      modifies hash
      ensures Indexed(Ids(pool[..]), Live(curSize) - {loc}, hash[..])
    {
      hide Slot, Indexed, Entries, BucketOk, DistinctIds;
      ghost var ids, live := Ids(pool[..]), Live(curSize);
      var hashing := Slot(pool[loc].pagenum, hash.Length);
      ghost var k := EntryOf(ids, live, hash[..], loc);
      var b' := Unlink(hash[hashing], pool[loc].table, pool[loc].pagenum, ids, curSize, hashing, hash.Length, k);
      hash[hashing] := b';
      DropIndexed(ids, live, old(hash[..]), loc, b', k);
    }

    static method Unlink(b: Bucket, t: nat, p: nat, ghost ids: seq<PageId>, ghost n: nat, ghost slot: nat,
        ghost size: nat, ghost k: nat) returns (b': Bucket)
      requires size > 0 && BucketOk(ids, Live(n), b, slot, size) && n <= |ids| && DistinctIds(ids, n)
      requires b.head.table != 0 && k < |Entries(b)| && Entries(b)[k].table == t && Entries(b)[k].pagenum == p
      ensures Entries(b') == Cut(Entries(b), k) && (b'.head.table == 0 ==> b'.rest == [])
    {
      hide Slot, Entries, BucketOk, DistinctIds, Cut;
      EntriesOf(b);
      b' := b;
      if b.rest == [] {
        b' := b.(head := NoEntry);
        CutOnly(b);
      } else if b.head.table == t && b.head.pagenum == p {
        SameEntry(ids, n, b, slot, size, 0, k);
        b' := Bucket(b.rest[0], b.rest[1..]);
        CutHead(ids, Live(n), b, slot, size);
      } else {
        var j := 0;
        while b.rest[j].table != t || b.rest[j].pagenum != p
          invariant j < |b.rest| && j + 1 <= k
          decreases |b.rest| - j
        {
          j := j + 1;
        }
        SameEntry(ids, n, b, slot, size, j + 1, k);
        b' := b.(rest := b.rest[..j] + b.rest[j + 1..]);
        CutRest(b, j);
      }
    }

    // An entry for a page about to be loaded into a frame.
    method AddHash(t: nat, p: nat, loc: nat, ghost live: set<nat>)
      requires pool.Length == hash.Length > 0 && loc < pool.Length && t > 0
      requires loc !in live && Indexed(Ids(pool[..]), live, hash[..])
      modifies hash
      ensures Indexed(Ids(pool[..])[loc := PageId(t, p)], live + {loc}, hash[..])
    {
      hide Indexed, Slot;
      var hashing := Slot(p, hash.Length);
      ghost var was := hash[..];
      hash[hashing] := AddEntry(hash[hashing], Entry(t, p, loc));
      AddIndexed(Ids(pool[..]), live, was, Entry(t, p, loc));
    }

    // buf_write_page.
    method WritePage(loc: nat)
      requires Valid() && loc < curSize && pool[loc].table in open
      modifies this`disk
      ensures Valid() && Tables() == old(Tables())
      ensures pool[loc].table in old(disk) && pool[loc].pagenum < |old(disk)[pool[loc].table]|
      ensures disk == Put(old(disk), IdOf(pool[loc]), pool[loc].data)
    {
      hide Linked, Indexed, Recent, Contents, Covers;
      assert FrameOk(pool[..][loc], disk, open);
      ghost var was := disk;
      disk := disk[pool[loc].table := disk[pool[loc].table][pool[loc].pagenum := pool[loc].data]];
      hide Good;
      WriteView(pool[..], curSize, was, open, loc);
    }

    // buf_read_page when a frame has the page.
    method Hit(loc: nat)
      requires Valid() && loc < curSize
      modifies this`trace, this`lru, this`first, this`last, pool
      ensures Valid() && Tables() == old(Tables()) && trace == old(trace) + [IdOf(old(pool[loc]))]
      ensures Paged(pool[..], old(pool[..]), loc) && IdOf(pool[loc]) == old(IdOf(pool[loc]))
    {
      hide Linked, Indexed, Good, Recent, Contents, Covers, Touch;
      ghost var was := pool[..];
      pool[loc] := pool[loc].(pins := pool[loc].pins + 1);
      LinkedSame(was, pool[..], lru, first, last);
      trace := trace + [IdOf(pool[loc])];
      MoveOk(pool[..], was, curSize, disk, open, lru, loc);
      RecentHit(Ids(was), curSize, lru, old(trace), loc, was, first, last, disk, open);
      CoversTouch(lru, curSize, loc);
      InsertLru(loc);
      SameView(was, pool[..], curSize, disk, open);
    }

    // buf_read_page when the pool is full: the least recently used frame nobody holds changes pages.
    method Recycle(t: nat, p: nat) returns (ok: bool, loc: nat)
      requires Valid() && curSize == pool.Length && t in open && t in disk && p < |disk[t]| && !Resident(PageId(t, p))
      modifies this`trace, this`lru, this`first, this`last, this`disk, pool, hash
      ensures Valid() && Tables() == old(Tables())
      ensures ok <==> exists i :: 0 <= i < curSize && old(pool[i].pins) == 0
      ensures ok ==> loc < curSize && IdOf(pool[loc]) == PageId(t, p) && trace == old(trace) + [PageId(t, p)]
      ensures ok ==> Paged(pool[..], old(pool[..]), loc) && LeastRecent(old(pool[..]), curSize, old(trace), loc)
    {
      hide Linked, Indexed, Good, Recent, Contents, Covers, Touch;
      ghost var k;
      ok, loc, k := Victim();
      if !ok {
        return;
      }
      VictimOk(pool[..], curSize, disk, open, lru, trace, k);
      hide LeastRecent, Paged;
      Reuse(t, p, loc);
    }

    // The victim is written back if it is dirty, and its frame given to the page asked for.
    method Reuse(t: nat, p: nat, loc: nat)
      requires Valid() && loc < curSize && pool[loc].pins == 0
      requires t in open && t in disk && p < |disk[t]| && !Resident(PageId(t, p))
      modifies this`trace, this`lru, this`first, this`last, this`disk, pool, hash
      ensures Valid() && Tables() == old(Tables()) && trace == old(trace) + [PageId(t, p)]
      ensures IdOf(pool[loc]) == PageId(t, p) && Paged(pool[..], old(pool[..]), loc)
    {
      hide Linked, Indexed, Good, Recent, Contents, Covers, Touch, Paged, LastUse, DistinctIds, FrameOk;
      Safe(pool[..], curSize, disk, open, loc);
      var at := FindLocation(pool[loc].table, pool[loc].pagenum);
      OnlyOne(pool[..], curSize, disk, open, loc);
      if pool[loc].dirty {
        WritePage(loc);
      }
      Safe(pool[..], curSize, disk, open, loc);
      DropHash(loc);
      AddHash(t, p, loc, Live(curSize) - {loc});
      assert Live(curSize) - {loc} + {loc} == Live(curSize);
      Load(t, p, loc);
    }

    // The page into its frame, which the chains already have under the page.
    method Load(t: nat, p: nat, loc: nat)
      requires Shape() && Linked(pool[..], lru, first, last) && Good(pool[..], curSize, disk, open) &&
        Recent(Ids(pool[..]), lru, trace)
      requires t in open && t in disk && p < |disk[t]| && !Resident(PageId(t, p)) && loc < curSize &&
        pool[loc].pins == 0
      requires Indexed(Ids(pool[..])[loc := PageId(t, p)], Live(curSize), hash[..])
      requires pool[loc].table in disk && pool[loc].pagenum < |disk[pool[loc].table]|
      requires pool[loc].data == disk[pool[loc].table][pool[loc].pagenum]
      modifies this`trace, this`lru, this`first, this`last, pool
      ensures Valid() && Tables() == old(Tables()) && trace == old(trace) + [PageId(t, p)]
      ensures IdOf(pool[loc]) == PageId(t, p) && Paged(pool[..], old(pool[..]), loc)
    {
      hide Linked, Indexed, Good, Recent, Contents, Covers, Touch;
      ghost var was := pool[..];
      pool[loc] := pool[loc].(data := disk[t][p], table := t, pagenum := p, dirty := false, pins := 1);
      ghost var now := pool[..];
      Loaded(was, now, curSize, disk, open, lru, trace, first, last, loc);
      trace := trace + [PageId(t, p)];
      InsertLru(loc);
      hide FrameOk, SameCores, Paged, LastUse;
      AfterMove(was, now, pool[..], curSize, disk, open, loc);
    }

    // buf_read_page when there is a frame not yet used.
    method TakeNew(t: nat, p: nat) returns (loc: nat)
      requires Valid() && curSize < pool.Length && t in open && t in disk && p < |disk[t]| && !Resident(PageId(t, p))
      modifies this`trace, this`lru, this`first, this`last, this`curSize, pool, hash
      ensures Valid() && Tables() == old(Tables()) && curSize == old(curSize) + 1 && loc == old(curSize)
      ensures IdOf(pool[loc]) == PageId(t, p) && trace == old(trace) + [PageId(t, p)] &&
        Paged(pool[..], old(pool[..]), loc)
    {
      hide Linked, Indexed, Good, Recent, Contents, Covers, Touch;
      loc := curSize;
      AddHash(t, p, loc, Live(curSize));
      LoadNew(t, p);
    }

    method LoadNew(t: nat, p: nat)
      requires Shape() && Linked(pool[..], lru, first, last) && Good(pool[..], curSize, disk, open) &&
        Recent(Ids(pool[..]), lru, trace)
      requires t in open && t in disk && p < |disk[t]| && !Resident(PageId(t, p)) && curSize < pool.Length
      requires Indexed(Ids(pool[..])[curSize := PageId(t, p)], Live(curSize) + {curSize}, hash[..])
      modifies this`trace, this`lru, this`first, this`last, this`curSize, pool
      ensures Valid() && Tables() == old(Tables()) && trace == old(trace) + [PageId(t, p)] &&
        curSize == old(curSize) + 1
      ensures IdOf(pool[old(curSize)]) == PageId(t, p) && Paged(pool[..], old(pool[..]), old(curSize))
    {
      hide Linked, Indexed, Good, Recent, Contents, Covers, Touch, SameCores, Paged, LastUse;
      ghost var was := pool[..];
      pool[curSize] := pool[curSize].(data := disk[t][p], table := t, pagenum := p, dirty := false, pins := 1);
      ghost var now := pool[..];
      LoadedNew(was, now, curSize, disk, open, lru, trace, first, last);
      trace := trace + [PageId(t, p)];
      InsertLru(curSize);
      curSize := curSize + 1;
      hide FrameOk;
      AfterMove(was, now, pool[..], curSize, disk, open, curSize - 1);
    }

    // buf_read_page: a frame that holds the page, pinned. !ok when the page is in no frame and all are held.
    method ReadPage(t: nat, p: nat) returns (ok: bool, loc: nat)
      requires Valid() && t in open && p < |disk[t]|
      modifies this, pool, hash
      ensures Valid() && Tables() == old(Tables()) && open == old(open) && tableId == old(tableId) &&
        curSize >= old(curSize)
      ensures !ok <==> !old(Resident(PageId(t, p))) && forall i :: 0 <= i < pool.Length ==> old(pool[i].pins) > 0
      ensures ok ==> loc < curSize && IdOf(pool[loc]) == PageId(t, p) && pool[loc].data == Tables()[t][p]
      ensures ok ==> Paged(pool[..], old(pool[..]), loc) && trace == old(trace) + [PageId(t, p)]
      ensures ok && !old(Resident(PageId(t, p))) ==> (loc < old(curSize) <==> old(curSize) == pool.Length)
      ensures ok && !old(Resident(PageId(t, p))) && loc < old(curSize) ==>
        LeastRecent(old(pool[..]), old(curSize), old(trace), loc)
    {
      hide Linked, Indexed, Good, Recent, Contents, Covers, Touch;
      TableIs(disk, open, t);
      var at := FindLocation(t, p);
      if at != -1 {
        Hit(at);
        Shows(pool[..], curSize, disk, open, at);
        return true, at;
      }
      if curSize == pool.Length {
        ok, loc := Recycle(t, p);
      } else {
        loc := TakeNew(t, p);
        ok := true;
      }
      if ok {
        Shows(pool[..], curSize, disk, open, loc);
      }
    }

    // What a holder does to its page: change it, and set is_dirty.
    method Store(loc: nat, x: Page)
      requires Valid() && loc < curSize && pool[loc].pins > 0 && pool[loc].table in open
      modifies pool
      ensures Valid() && old(IdOf(pool[loc])).table in old(Tables()) &&
        old(pool[loc].pagenum) < |old(Tables())[old(pool[loc].table)]|
      ensures Tables() == Put(old(Tables()), old(IdOf(pool[loc])), x)
      ensures pool[..] == old(pool[..])[loc := old(pool[loc]).(data := x, dirty := true)]
    {
      hide Linked, Indexed, Good, Recent, Contents, Covers;
      ghost var was := pool[..];
      Safe(was, curSize, disk, open, loc);
      StoreView(was, curSize, disk, open, loc, x);
      pool[loc] := pool[loc].(data := x, dirty := true);
      LinkedSame(was, pool[..], lru, first, last);
      assert Ids(pool[..]) == Ids(was);
    }

    // is_pinned--.
    method Unpin(loc: nat)
      requires Valid() && loc < curSize && pool[loc].pins > 0
      modifies pool
      ensures Valid() && Tables() == old(Tables())
      ensures pool[..] == old(pool[..])[loc := old(pool[loc]).(pins := old(pool[loc]).pins - 1)]
    {
      hide Linked, Indexed, Good, Recent, Contents, Covers;
      ghost var was := pool[..];
      pool[loc] := pool[loc].(pins := pool[loc].pins - 1);
      LinkedSame(was, pool[..], lru, first, last);
      SameView(was, pool[..], curSize, disk, open);
    }

    // buf_alloc_page: a page off the free list or, if that is empty, a new one at the end of the file.
    method AllocPage(t: nat) returns (ok: bool, loc: nat)
      requires Valid() && t in open && t in Tables() && HeaderOk(Tables()[t]) && FitsFile(|Tables()[t]| + 1)
      modifies this, pool, hash
      ensures Valid() && open == old(open)
      ensures ok ==> Tables() == Alloced(old(Tables()), t)
      ensures ok ==> loc < curSize && IdOf(pool[loc]) == PageId(t, AllocedPage(old(Tables()), t))
      ensures ok ==> Shift(pool[..], old(pool[..]), loc, -1)
      ensures (exists i, j :: 0 <= i < j < pool.Length && old(pool[i].pins) == 0 && old(pool[j].pins) == 0) ==> ok
    {
      hide Valid, Tables, LeastRecent, HeaderOk, Shift, Paged, FitsFile;
      Sizes();
      LinkOk(Tables()[t]);
      var h;
      ok, h := ReadPage(t, 0);
      loc := 0;
      if !ok {
        return;
      }
      Sizes();
      PagedShift(pool[..], old(pool[..]), h);
      ghost var mid := pool[..];
      if Link(pool[h].data) == 0 {
        ok, loc := TakeEnd(t, h);
      } else {
        ok, loc := TakeFree(t, h);
      }
      if ok {
        ShiftBack(pool[..], mid, old(pool[..]), h, loc);
      }
    }

    // The free list is empty.
    method TakeEnd(t: nat, h: nat) returns (ok: bool, loc: nat)
      requires Valid() && t in open && t in Tables() && HeaderOk(Tables()[t]) && FitsFile(|Tables()[t]| + 1)
      requires h < curSize && IdOf(pool[h]) == PageId(t, 0) && pool[h].pins > 0 && pool[h].data == Tables()[t][0]
      modifies this, pool, hash
      ensures Valid() && open == old(open) && ((exists i :: 0 <= i < pool.Length && old(pool[i].pins) == 0) ==> ok)
      ensures ok ==>
        Tables() == old(Tables())[t := old(Tables())[t][0 :=
        WithPagesNum(old(Tables())[t][0], |old(Tables())[t]| + 1)] + [ZeroPage]]
      ensures ok ==>
        loc < curSize && IdOf(pool[loc]) == PageId(t, |old(Tables())[t]|) && Shift(pool[..], old(pool[..]), loc, h)
    {
      hide Valid, LeastRecent, Tables, Paged, Shift;
      Sizes();
      ghost var c := Tables();
      Extend(t);
      Sizes();
      ok, loc := ReadPage(t, PagesNum(pool[h].data));
      if !ok {
        return;
      }
      Sizes();
      Held(pool[..], old(pool[..]), loc, h);
      PutEnd(c, t, WithPagesNum(pool[h].data, PagesNum(pool[h].data) + 1));
      ghost var mid := pool[..];
      Finish(h, WithPagesNum(pool[h].data, PagesNum(pool[h].data) + 1));
      ShiftBoth(pool[..], mid, old(pool[..]), h, loc);
    }

    // It is not.
    method TakeFree(t: nat, h: nat) returns (ok: bool, loc: nat)
      requires Valid() && t in open && t in Tables() && HeaderOk(Tables()[t]) && Link(Tables()[t][0]) != 0
      requires h < curSize && IdOf(pool[h]) == PageId(t, 0) && pool[h].pins > 0 && pool[h].data == Tables()[t][0]
      modifies this, pool, hash
      ensures Valid() && open == old(open) && ((exists i :: 0 <= i < pool.Length && old(pool[i].pins) == 0) ==> ok)
      ensures ok ==>
        loc < curSize && IdOf(pool[loc]) == PageId(t, Link(old(Tables())[t][0]) / PAGESIZE) &&
        Shift(pool[..], old(pool[..]), loc, h)
      ensures ok ==>
        Tables() == Put(old(Tables()), PageId(t, 0), WithLink(old(Tables())[t][0],
        Link(old(Tables())[t][Link(old(Tables())[t][0]) / PAGESIZE])))
    {
      hide Valid, LeastRecent, Tables, Paged, Shift;
      Sizes();
      ok, loc := ReadPage(t, Link(pool[h].data) / PAGESIZE);
      if !ok {
        return;
      }
      Sizes();
      Held(pool[..], old(pool[..]), loc, h);
      ghost var mid := pool[..];
      Finish(h, WithLink(pool[h].data, Link(pool[loc].data)));
      ShiftBoth(pool[..], mid, old(pool[..]), h, loc);
    }

    // Change a page and let go of it.
    method Finish(h: nat, x: Page)
      requires Valid() && h < curSize && pool[h].pins > 0 && pool[h].table in open
      modifies pool
      ensures Valid() && old(pool[h].table) in old(Tables()) &&
        old(pool[h].pagenum) < |old(Tables())[old(pool[h].table)]|
      ensures Tables() == Put(old(Tables()), old(IdOf(pool[h])), x)
      ensures Shift(pool[..], old(pool[..]), -1, h) && forall i :: 0 <= i < pool.Length ==>
        IdOf(pool[i]) == IdOf(old(pool[i]))
    {
      hide Valid, Tables;
      Sizes();
      Store(h, x);
      Sizes();
      Unpin(h);
    }

    // The pwrite of an empty page past the end of the file.
    method Extend(t: nat)
      requires Valid() && t in disk && FitsFile(|disk[t]| + 1)
      modifies this`disk
      ensures Valid() && t in old(Tables()) && Tables() == old(Tables())[t := old(Tables())[t] + [ZeroPage]]
    {
      hide Linked, Indexed, Good, Recent, Contents, Covers;
      ExtendView(pool[..], curSize, disk, open, t);
      disk := disk[t := disk[t] + [ZeroPage]];
    }

    // buf_free_page: the page emptied and put at the head of the free list.
    method FreePage(t: nat, p: nat) returns (ok: bool)
      requires Valid() && t in open && t in Tables() && 0 < p < |Tables()[t]| && FitsFile(|Tables()[t]|)
      modifies this, pool, hash
      ensures Valid() && open == old(open)
      ensures ok ==> Tables() == Freed(old(Tables()), t, p) && Shift(pool[..], old(pool[..]), -1, -1)
      ensures (exists i, j :: 0 <= i < j < pool.Length && old(pool[i].pins) == 0 && old(pool[j].pins) == 0) ==> ok
      ensures !ok ==> Tables() == old(Tables())
    {
      hide Valid, LeastRecent, Tables, Paged, Shift;
      Sizes();
      var h;
      ok, h := ReadPage(t, 0);
      if !ok {
        return;
      }
      Sizes();
      PagedShift(pool[..], old(pool[..]), h);
      ghost var one := pool[..];
      var f;
      ok, f := ReadPage(t, p);
      if !ok {
        return;
      }
      Sizes();
      Held(pool[..], one, f, h);
      PagedShift(pool[..], one, f);
      ghost var two := pool[..];
      Finish(f, WithLink(ZeroPage, Link(pool[h].data)));
      Sizes();
      ghost var three := pool[..];
      StillHeld(three, two, f, h);
      Showing(h, t, 0);
      Finish(h, WithLink(pool[h].data, PAGESIZE * p));
      FreedPins(pool[..], three, two, one, old(pool[..]), h, f);
    }

    // open_table: an id for a file, which is made first if there was none.
    method OpenTable(found: Opening) returns (id: int)
      requires Valid() && (found.Existing? ==> FitsFile(|found.pages|))
      modifies this`tableId, this`open, this`disk
      ensures Valid()
      ensures id == -1 <==> old(tableId) == MAXTABLE + 1 || found.Failed?
      ensures id == -1 ==>
        open == old(open) && disk == old(disk) && Tables() == old(Tables()) && tableId == old(tableId)
      ensures id != -1 ==> id == old(tableId) && tableId == id + 1 && id !in old(Tables()) && open == old(open) + {id}
      ensures id != -1 ==> Tables() == old(Tables())[id := if found.Created? then FreshFile(FREEPAGES) else found.pages]
    {
      hide Linked, Indexed, Good, Recent, Contents, Covers;
      if tableId == MAXTABLE + 1 {
        return -1;
      }
      match found
      case Failed =>
        return -1;
      case Existing(pages) =>
        id := EnterTable(pages);
      case Created =>
        var file := MakeFile();
        id := EnterTable(file);
    }

    // The file becomes that of the next table number.
    method EnterTable(file: seq<Page>) returns (id: nat)
      requires Valid() && tableId <= MAXTABLE && FitsFile(|file|)
      modifies this`tableId, this`open, this`disk
      ensures Valid() && id == old(tableId) && tableId == id + 1 && id !in old(Tables())
      ensures open == old(open) + {id} && Tables() == old(Tables())[id := file]
    {
      hide Linked, Indexed, Good, Recent, Contents, Covers;
      Unused(pool[..], curSize, disk, open, tableId);
      FileView(pool[..], curSize, disk, open, tableId, file);
      id := tableId;
      open, disk, tableId := open + {tableId}, disk[tableId := file], tableId + 1;
    }

    // The loop of open_table that builds the free list of a new file, page by page.
    static method MakeFile() returns (file: seq<Page>)
      ensures file == FreshFile(FREEPAGES)
    {
      hide FreshFile, WithLink, WithPagesNum, Link, PagesNum;
      FreshNone();
      var header := WithPagesNum(ZeroPage, 1);
      file := [header];
      var i := 0;
      while i < FREEPAGES
        invariant i <= FREEPAGES
        invariant file == FreshFile(i) && header == file[0] && PagesNum(header) == i + 1
      {
        FreshMore(i);
        var free := WithLink(ZeroPage, Link(header));
        header := WithLink(header, PAGESIZE * PagesNum(header));
        file := file + [free];
        header := WithPagesNum(header, PagesNum(header) + 1);
        file := file[0 := header];
        i := i + 1;
      }
    }

    // close_table: the table's changed pages go to its file, and its frames are let go of.
    method CloseTable(t: nat) returns (r: int)
      requires Valid()
      modifies this`open, this`disk, pool
      ensures Valid() && Tables() == old(Tables()) && (r == -1 <==> t !in old(open)) && (r == 0 <==> t in old(open))
      ensures r == -1 ==> pool[..] == old(pool[..]) && open == old(open) && disk == old(disk)
      ensures r == 0 ==> open == old(open) - {t} && t in disk && disk == old(disk)[t := old(Tables())[t]]
      ensures r == 0 ==> forall i :: 0 <= i < curSize ==> Released(pool[i], old(pool[i]), t)
    {
      hide Linked, Indexed, Good, Recent, Contents, Covers;
      if t !in open {
        return -1;
      }
      ReleaseAll(t);
      Closing(pool[..], curSize, disk, open, t);
      open := open - {t};
      r := 0;
      ClosedFile(old(disk), disk, t);
    }

    method ReleaseAll(t: nat)
      requires Valid() && t in open
      modifies this`disk, pool
      ensures Valid() && Tables() == old(Tables()) && disk.Keys == old(disk).Keys
      ensures forall u :: u in disk && u != t ==> disk[u] == old(disk)[u]
      ensures forall j :: 0 <= j < curSize ==> Released(pool[j], old(pool[j]), t)
    {
      hide Valid, Tables;
      Sizes();
      ghost var c := Tables();
      var i := 0;
      while i < curSize
        invariant i <= curSize <= pool.Length
        invariant Valid() && Tables() == c && disk.Keys == old(disk).Keys
        invariant forall u :: u in disk && u != t ==> disk[u] == old(disk)[u]
        invariant forall j :: 0 <= j < i ==> Released(pool[j], old(pool[j]), t)
        invariant forall j :: i <= j < pool.Length ==> pool[j] == old(pool[j])
        modifies this`disk, pool
      {
        if pool[i].table == t {
          Release(i);
        }
        i := i + 1;
      }
    }

    method Release(i: nat)
      requires Valid() && i < curSize && pool[i].table in open
      modifies this`disk, pool
      ensures Valid() && Tables() == old(Tables()) && disk.Keys == old(disk).Keys
      ensures forall u :: u in disk && u != pool[i].table ==> disk[u] == old(disk)[u]
      ensures pool[..] == old(pool[..])[i := old(pool[i]).(dirty := false, pins := 0)]
    {
      hide Linked, Indexed, Good, Recent, Contents, Covers;
      if pool[i].dirty {
        WritePage(i);
      }
      Safe(pool[..], curSize, disk, open, i);
      ghost var was := pool[..];
      pool[i] := pool[i].(dirty := false, pins := 0);
      LinkedSame(was, pool[..], lru, first, last);
      Cleaned(was, pool[..], curSize, disk, open, i);
    }

    // shutdown_db: every changed page goes to its file.
    method Shutdown()
      requires Valid()
      modifies this`disk
      ensures Valid() && Tables() == old(Tables()) && disk == old(Tables())
    {
      hide Linked, Indexed, Good, Recent, Contents, Covers, WrittenBack;
      ghost var c := Tables();
      var i := 0;
      while i < curSize
        invariant i <= curSize
        invariant Valid() && Tables() == c
        invariant forall j :: 0 <= j < i ==> WrittenBack(pool[j], disk)
        modifies this`disk
      {
        WriteIfDirty(i);
        i := i + 1;
      }
      CleanView(pool[..], curSize, disk, open);
    }

    method WriteIfDirty(i: nat)
      requires Valid() && i < curSize && forall j :: 0 <= j < i ==> WrittenBack(pool[j], disk)
      modifies this`disk
      ensures Valid() && Tables() == old(Tables())
      ensures forall j :: 0 <= j <= i ==> WrittenBack(pool[j], disk)
    {
      hide Linked, Indexed, Good, Recent, Contents, Covers, WrittenBack;
      Safe(pool[..], curSize, disk, open, i);
      ghost var was := disk;
      if pool[i].dirty {
        WritePage(i);
        forall j | 0 <= j <= i ensures WrittenBack(pool[j], disk) {
          StaysWritten(pool[..], curSize, was, open, i, j);
        }
      } else {
        IsWritten(pool[i], disk);
      }
    }
  }

  lemma {:induction false} ClosedFile(was: map<nat, seq<Page>>, now: map<nat, seq<Page>>, t: nat)
    requires was.Keys == now.Keys && t in now && forall u :: u in now && u != t ==> now[u] == was[u]
    ensures now == was[t := now[t]]
  {
  }

  // A frame after its table has been closed.
  ghost predicate Released(now: Frame, was: Frame, t: nat) {
    now == if was.table == t then was.(dirty := false, pins := 0) else was
  }

  lemma {:induction false} IsWritten(f: Frame, disk: map<nat, seq<Page>>)
    requires f.table in disk && f.pagenum < |disk[f.table]| && f.data == disk[f.table][f.pagenum]
    ensures WrittenBack(f, disk)
  {
  }

  lemma {:induction false} Cleaned(was: seq<Frame>, now: seq<Frame>, n: nat, disk: map<nat, seq<Page>>, open: set<nat>,
      i: nat)
    requires Good(was, n, disk, open) && i < n && |now| == |was| && now == was[i := was[i].(dirty := false, pins := 0)]
    requires was[i].table in disk && was[i].pagenum < |disk[was[i].table]| &&
      was[i].data == disk[was[i].table][was[i].pagenum]
    ensures Ids(now) == Ids(was) && Good(now, n, disk, open) && Contents(now, n, disk) == Contents(was, n, disk)
  {
    hide Contents;
    assert Ids(now) == Ids(was);
    forall j | 0 <= j < n ensures FrameOk(now[j], disk, open) {
      assert FrameOk(was[j], disk, open);
    }
    SameData(was, now, n, disk);
  }

  lemma {:induction false} SameData(was: seq<Frame>, now: seq<Frame>, n: nat, disk: map<nat, seq<Page>>)
    requires n <= |was| == |now| && Ids(now) == Ids(was) && forall i :: 0 <= i < n ==> now[i].data == was[i].data
    ensures Contents(now, n, disk) == Contents(was, n, disk)
  {
    SameContents(now, n, disk, Contents(was, n, disk));
  }

  // A table none of whose frames is dirty has its contents in its file, and may be closed.
  lemma {:induction false} Closing(frames: seq<Frame>, n: nat, disk: map<nat, seq<Page>>, open: set<nat>, t: nat)
    requires Good(frames, n, disk, open) && t in disk && forall i :: 0 <= i < n && frames[i].table == t ==>
      !frames[i].dirty
    ensures Good(frames, n, disk, open - {t}) && Contents(frames, n, disk)[t] == disk[t]
  {
    hide Look;
    forall i | 0 <= i < n ensures FrameOk(frames[i], disk, open - {t}) {
      assert FrameOk(frames[i], disk, open);
    }
    forall p | 0 <= p < |disk[t]| ensures Look(frames, n, disk, PageId(t, p)) == disk[t][p] {
      forall i | 0 <= i < n && IdOf(frames[i]) == PageId(t, p) ensures frames[i].data == disk[t][p] {
        assert FrameOk(frames[i], disk, open);
      }
      LookIs(frames, n, disk, PageId(t, p), disk[t][p]);
    }
    assert Contents(frames, n, disk)[t] == disk[t];
  }

  lemma {:induction false} StillHeld(now: seq<Frame>, was: seq<Frame>, f: nat, h: nat)
    requires Shift(now, was, -1, f) && h < |was| && was[h].pins > 0 && h != f
    ensures now[h].pins > 0 && IdOf(now[h]) == IdOf(was[h])
  {
  }

  lemma {:induction false} FreedPins(fin: seq<Frame>, three: seq<Frame>, two: seq<Frame>, one: seq<Frame>,
      was: seq<Frame>, h: nat, f: nat)
    requires Shift(one, was, h, -1) && Shift(two, one, f, -1) && Shift(three, two, -1, f) && Shift(fin, three, -1, h)
    requires h < |was| && f < |was|
    ensures Shift(fin, was, -1, -1)
  {
  }

  // No frame has a page of a table not given out yet.
  lemma {:induction false} Unused(frames: seq<Frame>, n: nat, disk: map<nat, seq<Page>>, open: set<nat>, t: nat)
    requires Good(frames, n, disk, open) && t !in disk
    ensures forall i :: 0 <= i < n ==> frames[i].table != t
  {
    forall i | 0 <= i < n ensures frames[i].table != t {
      assert FrameOk(frames[i], disk, open);
    }
  }

  // One frame gains a pin and one loses one; a held frame keeps its page.
  ghost predicate Shift(now: seq<Frame>, was: seq<Frame>, up: int, down: int) {
    && |now| == |was|
    && (forall i :: 0 <= i < |now| ==>
       now[i].pins == was[i].pins + (if i == up then 1 else 0) - if i == down then 1 else 0)
    && (forall i :: 0 <= i < |now| && was[i].pins > 0 ==> IdOf(now[i]) == IdOf(was[i]))
  }

  lemma {:induction false} PagedShift(now: seq<Frame>, was: seq<Frame>, loc: nat)
    requires Paged(now, was, loc)
    ensures Shift(now, was, loc, -1) && now[loc].pins > 0
    ensures (exists i, j :: 0 <= i < j < |was| && was[i].pins == 0 && was[j].pins == 0) ==>
      exists i :: 0 <= i < |now| && now[i].pins == 0
  {
    forall i | 0 <= i < |now| && i != loc ensures now[i].pins == was[i].pins && IdOf(now[i]) == IdOf(was[i]) {
      assert Core(now[i]) == Core(was[i]);
    }
  }

  lemma {:induction false} ShiftBoth(now: seq<Frame>, mid: seq<Frame>, was: seq<Frame>, h: nat, loc: nat)
    requires Paged(mid, was, loc) && Shift(now, mid, -1, h) && forall i :: 0 <= i < |now| ==>
      IdOf(now[i]) == IdOf(mid[i])
    ensures Shift(now, was, loc, h)
  {
    hide Paged;
    PagedShift(mid, was, loc);
  }

  // A frame that was held is not the one just filled, or has the same page.
  lemma {:induction false} Held(mid: seq<Frame>, was: seq<Frame>, loc: nat, h: nat)
    requires Paged(mid, was, loc) && h < |was| && was[h].pins > 0
    ensures mid[h].pins > 0 && IdOf(mid[h]) == IdOf(was[h]) && mid[h].data == was[h].data
  {
    assert h != loc ==> Core(mid[h]) == Core(was[h]);
  }

  lemma {:induction false} ShiftBack(now: seq<Frame>, mid: seq<Frame>, was: seq<Frame>, h: nat, loc: nat)
    requires Shift(mid, was, h, -1) && Shift(now, mid, loc, h) && h < |was|
    ensures Shift(now, was, loc, -1)
  {
  }

  lemma {:induction false} PutEnd(c: map<nat, seq<Page>>, t: nat, x: Page)
    requires t in c && |c[t]| > 0
    ensures Put(c[t := c[t] + [ZeroPage]], PageId(t, 0), x) == c[t := c[t][0 := x] + [ZeroPage]]
  {
    assert (c[t] + [ZeroPage])[0 := x] == c[t][0 := x] + [ZeroPage];
  }

  lemma {:induction false} LinkOk(f: seq<Page>)
    requires HeaderOk(f)
    ensures |f| > 0 && Link(f[0]) / PAGESIZE < |f|
  {
  }

  lemma {:induction false} VictimOk(frames: seq<Frame>, n: nat, disk: map<nat, seq<Page>>, open: set<nat>,
      lru: seq<nat>, trace: seq<PageId>, k: nat)
    requires Good(frames, n, disk, open) && Covers(lru, n) && Recent(Ids(frames), lru, trace)
    requires k < |lru| && lru[k] < |frames| && frames[lru[k]].pins == 0
    requires forall j :: 0 <= j < k ==> lru[j] < |frames| && frames[lru[j]].pins > 0
    ensures LeastRecent(frames, n, trace, lru[k])
  {
    hide LastUse;
    forall i | 0 <= i < n && i != lru[k] && frames[i].pins == 0
      ensures LastUse(trace, IdOf(frames[lru[k]])) < LastUse(trace, IdOf(frames[i]))
    {
      assert i in lru;
      var j :| 0 <= j < |lru| && lru[j] == i;
      assert Ids(frames)[i] == IdOf(frames[i]) && Ids(frames)[lru[k]] == IdOf(frames[lru[k]]);
    }
  }

  lemma {:induction false} Safe(frames: seq<Frame>, n: nat, disk: map<nat, seq<Page>>, open: set<nat>, loc: nat)
    requires Good(frames, n, disk, open) && loc < n
    ensures frames[loc].table in disk && frames[loc].pagenum < |disk[frames[loc].table]|
    ensures !frames[loc].dirty ==> frames[loc].data == disk[frames[loc].table][frames[loc].pagenum]
    ensures frames[loc].dirty ==> frames[loc].table in open
    ensures frames[loc].table > 0
  {
    assert FrameOk(frames[loc], disk, open);
  }

  lemma {:induction false} RecentLoad(was: seq<Frame>, now: seq<Frame>, n: nat, lru: seq<nat>, trace: seq<PageId>,
      loc: nat, first: int, last: int, disk: map<nat, seq<Page>>, open: set<nat>)
    requires Good(now, n, disk, open) && Covers(lru, n) && loc < n && Recent(Ids(was), lru, trace) &&
      Linked(was, lru, first, last)
    requires |was| == |now| && forall i :: 0 <= i < |was| && i != loc ==> IdOf(now[i]) == IdOf(was[i])
    ensures Recent(Ids(now), Touch(lru, loc), trace + [IdOf(now[loc])])
  {
    hide Recent, Touch, Backed;
    OnlyFrame(now, n, loc);
    RecentTouch(Ids(was), Ids(now), lru, trace, loc);
  }

  lemma {:induction false} NewOk(now: seq<Frame>, n: nat, disk: map<nat, seq<Page>>, open: set<nat>, lru: seq<nat>)
    requires Good(now, n + 1, disk, open) && Covers(lru, n)
    ensures forall i :: i in lru ==> i < |now| && IdOf(now[i]) != IdOf(now[n])
    ensures forall i :: n <= i < |now| ==> i !in lru
  {
    hide Backed;
    OnlyFrame(now, n + 1, n);
  }

  lemma {:induction false} RecentNew(was: seq<Frame>, now: seq<Frame>, n: nat, lru: seq<nat>, trace: seq<PageId>,
      first: int, last: int, disk: map<nat, seq<Page>>, open: set<nat>)
    requires Good(now, n + 1, disk, open) && Covers(lru, n) && Recent(Ids(was), lru, trace) &&
      Linked(was, lru, first, last)
    requires |was| == |now| && forall i :: 0 <= i < |was| && i != n ==> IdOf(now[i]) == IdOf(was[i])
    ensures Recent(Ids(now), Touch(lru, n), trace + [IdOf(now[n])])
  {
    hide Recent, Touch, Backed;
    OnlyFrame(now, n + 1, n);
    RecentTouch(Ids(was), Ids(now), lru, trace, n);
  }

  // A frame shows what its table holds.
  lemma {:induction false} Shows(frames: seq<Frame>, n: nat, disk: map<nat, seq<Page>>, open: set<nat>, loc: nat)
    requires Good(frames, n, disk, open) && loc < n
    ensures frames[loc].table in disk && frames[loc].pagenum < |disk[frames[loc].table]|
    ensures Contents(frames, n, disk)[frames[loc].table][frames[loc].pagenum] == frames[loc].data
  {
    assert FrameOk(frames[loc], disk, open);
    LookAt(frames, n, disk, loc);
  }

  // Everything a load leaves in order before the frame is moved up.
  lemma {:induction false} Loaded(was: seq<Frame>, now: seq<Frame>, n: nat, disk: map<nat, seq<Page>>, open: set<nat>,
      lru: seq<nat>, trace: seq<PageId>, first: int, last: int, loc: nat)
    requires Good(was, n, disk, open) && Covers(lru, n) && Recent(Ids(was), lru, trace) && Linked(was, lru, first, last)
    requires loc < n <= |was| == |now| && now == was[loc := now[loc]] && now[loc].next == was[loc].next &&
      now[loc].prev == was[loc].prev
    requires was[loc].table in disk && was[loc].pagenum < |disk[was[loc].table]|
    requires was[loc].data == disk[was[loc].table][was[loc].pagenum]
    requires FrameOk(now[loc], disk, open) && !now[loc].dirty && forall i :: 0 <= i < n ==>
      IdOf(was[i]) != IdOf(now[loc])
    ensures Good(now, n, disk, open) && Contents(now, n, disk) == Contents(was, n, disk) &&
      Linked(now, lru, first, last)
    ensures loc in lru && forall i :: i in lru && i != loc ==> i < |now| && IdOf(now[i]) != IdOf(now[loc])
    ensures forall i :: n <= i < |now| ==> i !in lru
    ensures Recent(Ids(now), Touch(lru, loc), trace + [IdOf(now[loc])]) && Covers(Touch(lru, loc), n)
    ensures Ids(now) == Ids(was)[loc := IdOf(now[loc])]
  {
    hide Linked, Good, Recent, Contents, Covers, Touch, FrameOk;
    SwapView(was, n, disk, open, loc, now[loc]);
    LinkedSame(was, now, lru, first, last);
    MoveOk(now, now, n, disk, open, lru, loc);
    RecentLoad(was, now, n, lru, trace, loc, first, last, disk, open);
    CoversTouch(lru, n, loc);
  }

  // Moving the frame up changes nothing but links.
  lemma {:induction false} AfterMove(was: seq<Frame>, now: seq<Frame>, fin: seq<Frame>, n: nat,
      disk: map<nat, seq<Page>>, open: set<nat>, loc: nat)
    requires Good(now, n, disk, open) && SameCores(fin, now) && loc < n <= |now| == |was| && now == was[loc := now[loc]]
    requires was[loc].pins == 0 && now[loc].pins == 1
    ensures Ids(fin) == Ids(now) && Good(fin, n, disk, open) && Contents(fin, n, disk) == Contents(now, n, disk)
    ensures Paged(fin, was, loc) && IdOf(fin[loc]) == IdOf(now[loc]) && forall i :: 0 <= i < |fin| ==>
      fin[i].pins == now[i].pins
  {
    hide Good, Contents;
    forall i | 0 <= i < |fin| ensures IdOf(fin[i]) == IdOf(now[i]) && fin[i].data == now[i].data &&
      fin[i].dirty == now[i].dirty && fin[i].pins == now[i].pins {
      assert Core(fin[i]) == Core(now[i]);
    }
    SameView(now, fin, n, disk, open);
  }

  lemma {:induction false} LoadedNew(was: seq<Frame>, now: seq<Frame>, n: nat, disk: map<nat, seq<Page>>,
      open: set<nat>, lru: seq<nat>, trace: seq<PageId>, first: int, last: int)
    requires Good(was, n, disk, open) && Covers(lru, n) && Recent(Ids(was), lru, trace) && Linked(was, lru, first, last)
    requires n < |was| && |now| == |was| && now == was[n := now[n]] && now[n].next == was[n].next &&
      now[n].prev == was[n].prev
    requires FrameOk(now[n], disk, open) && !now[n].dirty && forall i :: 0 <= i < n ==> IdOf(was[i]) != IdOf(now[n])
    ensures Good(now, n + 1, disk, open) && Contents(now, n + 1, disk) == Contents(was, n, disk) &&
      Linked(now, lru, first, last)
    ensures forall i :: i in lru ==> i < |now| && IdOf(now[i]) != IdOf(now[n])
    ensures forall i :: n <= i < |now| ==> i !in lru
    ensures Recent(Ids(now), Touch(lru, n), trace + [IdOf(now[n])]) && Covers(Touch(lru, n), n + 1)
    ensures Ids(now) == Ids(was)[n := IdOf(now[n])] && Live(n + 1) == Live(n) + {n}
  {
    hide Linked, Good, Recent, Contents, Covers, Touch, FrameOk;
    GrowView(was, n, disk, open, now[n]);
    LinkedSame(was, now, lru, first, last);
    NewOk(now, n, disk, open, lru);
    RecentNew(was, now, n, lru, trace, first, last, disk, open);
    CoversTouch(lru, n, n);
  }

  lemma {:induction false} OnlyOne(frames: seq<Frame>, n: nat, disk: map<nat, seq<Page>>, open: set<nat>, loc: nat)
    requires Good(frames, n, disk, open) && loc < n
    ensures FrameOk(frames[loc], disk, open) && DistinctIds(Ids(frames), n)
    ensures forall i :: 0 <= i < n && IdOf(frames[i]) == IdOf(frames[loc]) ==> i == loc
  {
    OnlyFrame(frames, n, loc);
  }

  lemma {:induction false} TableIs(disk: map<nat, seq<Page>>, open: set<nat>, t: nat)
    requires t in open && open <= disk.Keys
    ensures t in disk
  {
  }

  // The frames in the list have pages of their own.
  lemma {:induction false} MoveOk(frames: seq<Frame>, was: seq<Frame>, n: nat, disk: map<nat, seq<Page>>,
      open: set<nat>, lru: seq<nat>, loc: nat)
    requires Good(was, n, disk, open) && Covers(lru, n) && loc < n && |frames| == |was|
    requires forall i :: 0 <= i < n ==> IdOf(frames[i]) == IdOf(was[i])
    ensures loc in lru && forall i :: i in lru && i != loc ==> i < |frames| && IdOf(frames[i]) != IdOf(frames[loc])
    ensures forall i :: n <= i < |frames| ==> i !in lru
  {
    forall i | i in lru && i != loc ensures i < |frames| && IdOf(frames[i]) != IdOf(frames[loc]) {
      assert Ids(was)[i] == IdOf(was[i]) && Ids(was)[loc] == IdOf(was[loc]);
    }
  }

  lemma {:induction false} RecentHit(ids: seq<PageId>, n: nat, lru: seq<nat>, trace: seq<PageId>, loc: nat,
      frames: seq<Frame>, first: int, last: int, disk: map<nat, seq<Page>>, open: set<nat>)
    requires ids == Ids(frames) && Good(frames, n, disk, open) && Covers(lru, n) && loc < n && Recent(ids, lru, trace)
    requires Linked(frames, lru, first, last)
    ensures Recent(ids, Touch(lru, loc), trace + [ids[loc]])
  {
    hide Recent, Touch, Backed;
    RecentTouch(ids, ids, lru, trace, loc);
  }

  // Only one frame changes, and it gains a pin; a held frame keeps its page.
  ghost predicate Paged(now: seq<Frame>, was: seq<Frame>, loc: nat) {
    && |now| == |was| && loc < |now|
    && (forall i :: 0 <= i < |now| && i != loc ==> Core(now[i]) == Core(was[i]))
    && now[loc].pins == was[loc].pins + 1
    && (was[loc].pins > 0 ==> Core(now[loc]) == Core(was[loc].(pins := was[loc].pins + 1)))
  }

  // No other unheld frame holds a page asked for longer ago.
  ghost predicate LeastRecent(frames: seq<Frame>, n: nat, trace: seq<PageId>, loc: nat) {
    && loc < n <= |frames| && frames[loc].pins == 0
    && forall i :: 0 <= i < n && i != loc && frames[i].pins == 0 ==>
       LastUse(trace, IdOf(frames[loc])) < LastUse(trace, IdOf(frames[i]))
  }

  lemma {:induction false} EntriesOf(b: Bucket)
    requires b.head.table != 0
    ensures Entries(b) == [b.head] + b.rest
    ensures |Entries(b)| == |b.rest| + 1 && Entries(b)[0] == b.head && forall j :: 0 <= j < |b.rest| ==>
      Entries(b)[j + 1] == b.rest[j]
  {
  }

  lemma {:induction false} CutOnly(b: Bucket)
    requires b.head.table != 0 && b.rest == []
    ensures Entries(b.(head := NoEntry)) == Cut(Entries(b), 0)
  {
  }

  lemma {:induction false} CutHead(ids: seq<PageId>, live: set<nat>, b: Bucket, slot: nat, size: nat)
    requires size > 0 && BucketOk(ids, live, b, slot, size) && b.head.table != 0 && b.rest != []
    ensures b.rest[0].table != 0 && Entries(Bucket(b.rest[0], b.rest[1..])) == Cut(Entries(b), 0)
  {
    hide Slot;
    assert EntryOk(ids, live, Entries(b)[1], slot, size);
    assert [b.rest[0]] + b.rest[1..] == b.rest;
  }

  lemma {:induction false} CutRest(b: Bucket, j: nat)
    requires b.head.table != 0 && j < |b.rest|
    ensures Entries(b.(rest := b.rest[..j] + b.rest[j + 1..])) == Cut(Entries(b), j + 1)
  {
  }

  // Two entries of a bucket for one page are the same entry.
  lemma {:induction false} SameEntry(ids: seq<PageId>, n: nat, b: Bucket, slot: nat, size: nat, j: nat, k: nat)
    requires size > 0 && BucketOk(ids, Live(n), b, slot, size) && n <= |ids| && DistinctIds(ids, n)
    requires j < |Entries(b)| && k < |Entries(b)|
    requires Entries(b)[j].table == Entries(b)[k].table && Entries(b)[j].pagenum == Entries(b)[k].pagenum
    ensures j == k
  {
    hide Slot, Entries;
    assert EntryOk(ids, Live(n), Entries(b)[j], slot, size) && EntryOk(ids, Live(n), Entries(b)[k], slot, size);
  }

  // The entry of a live frame in its bucket.
  lemma {:induction false} EntryOf(ids: seq<PageId>, live: set<nat>, hash: seq<Bucket>, loc: nat) returns (k: nat)
    requires Indexed(ids, live, hash) && loc in live
    ensures loc < |ids|
    ensures
      var b := hash[Slot(ids[loc].page, |hash|)];
      BucketOk(ids, live, b, Slot(ids[loc].page, |hash|), |hash|) && k < |Entries(b)| &&
      Entries(b)[k] == Entry(ids[loc].table, ids[loc].page, loc) && b.head.table != 0
  {
    hide Slot;
    assert Listed(ids, hash, loc);
    var es := Entries(hash[Slot(ids[loc].page, |hash|)]);
    k :| 0 <= k < |es| && es[k] == Entry(ids[loc].table, ids[loc].page, loc);
  }

  lemma {:induction false} LinkFactsIn(frames: seq<Frame>, lru: seq<nat>, first: int, last: int)
    requires Linked(frames, lru, first, last) && lru != []
    ensures first in lru && last in lru
  {
  }

  lemma {:induction false} TouchNew(lru: seq<nat>, loc: nat)
    requires loc !in lru
    ensures Touch(lru, loc) == lru + [loc]
  {
  }

  lemma {:induction false} NotThere(ids: seq<PageId>, live: set<nat>, hash: seq<Bucket>, t: nat, p: nat)
    requires Indexed(ids, live, hash)
    requires forall e :: e in Entries(hash[Slot(p, |hash|)]) ==> e.table != t || e.pagenum != p
    ensures forall i :: i in live ==> i < |ids| && ids[i] != PageId(t, p)
  {
    hide BucketOk, Entries, Slot;
    forall i | i in live ensures i < |ids| && ids[i] != PageId(t, p) {
      assert Listed(ids, hash, i);
    }
  }

  lemma {:induction false} EntryIs(ids: seq<PageId>, live: set<nat>, b: Bucket, slot: nat, size: nat, k: nat)
    requires size > 0 && BucketOk(ids, live, b, slot, size) && k < |Entries(b)|
    ensures EntryOk(ids, live, Entries(b)[k], slot, size)
  {
  }

  // The free list of a table file.

  ghost predicate Chain(f: seq<Page>, link: Word, list: seq<nat>)
    decreases |list|
  {
    if list == [] then link == 0
    else 0 < list[0] < |f| && link == PAGESIZE * list[0] && Chain(f, Link(f[list[0]]), list[1..])
  }

  // The header counts the pages, and the pages of the list are linked from it, each once.
  ghost predicate FreeList(f: seq<Page>, list: seq<nat>) {
    && |f| > 0 && PagesNum(f[0]) == |f| && Chain(f, Link(f[0]), list)
    && (forall i, j :: 0 <= i < j < |list| ==> list[i] != list[j])
  }

  lemma {:induction false} ChainSame(f: seq<Page>, f': seq<Page>, link: Word, list: seq<nat>)
    requires Chain(f, link, list) && |f'| >= |f|
    requires forall k :: 0 <= k < |f| && k in list ==> f'[k] == f[k]
    ensures Chain(f', link, list)
    decreases |list|
  {
    if list != [] {
      assert forall k :: k in list[1..] ==> k in list;
      ChainSame(f, f', Link(f[list[0]]), list[1..]);
    }
  }

  lemma {:induction false} ChainIn(f: seq<Page>, link: Word, list: seq<nat>)
    requires Chain(f, link, list)
    ensures forall k :: k in list ==> 0 < k < |f|
    decreases |list|
  {
    if list != [] {
      ChainIn(f, Link(f[list[0]]), list[1..]);
      assert list == [list[0]] + list[1..];
    }
  }

  lemma {:induction false} ListHeader(f: seq<Page>, list: seq<nat>)
    requires FreeList(f, list)
    ensures HeaderOk(f)
  {
  }

  // Allocation takes the first page of the list, or makes the file a page longer.
  lemma {:induction false} AllocTakes(c: map<nat, seq<Page>>, t: nat, list: seq<nat>)
    requires t in c && FreeList(c[t], list) && FitsFile(|c[t]| + 1)
    ensures HeaderOk(c[t]) && AllocedPage(c, t) == if list == [] then |c[t]| else list[0]
    ensures FreeList(Alloced(c, t)[t], if list == [] then [] else list[1..])
  {
    var f := c[t];
    ListHeader(f, list);
    if list != [] {
      var f' := Alloced(c, t)[t];
      assert Link(f[0]) / PAGESIZE == list[0];
      ChainIn(f, Link(f[0]), list);
      assert forall k :: k in list[1..] ==> k in list;
      ChainSame(f, f', Link(f[list[0]]), list[1..]);
    }
  }

  // Freeing puts a page at the head of the list.
  lemma {:induction false} FreeAdds(c: map<nat, seq<Page>>, t: nat, p: nat, list: seq<nat>)
    requires t in c && FreeList(c[t], list) && 0 < p < |c[t]| && FitsFile(|c[t]|) && p !in list
    ensures FreeList(Freed(c, t, p)[t], [p] + list)
  {
    var f, f' := c[t], Freed(c, t, p)[t];
    ChainIn(f, Link(f[0]), list);
    ChainSame(f, f', Link(f[0]), list);
    assert ([p] + list)[1..] == list;
  }

  // A page freed and allocated again is the page allocated, and the header is as it was.
  lemma {:induction false} AllocUndoesFree(c: map<nat, seq<Page>>, t: nat, p: nat)
    requires t in c && 0 < p < |c[t]| && FitsFile(|c[t]| + 1) && PagesNum(c[t][0]) == |c[t]|
    ensures HeaderOk(Freed(c, t, p)[t]) && AllocedPage(Freed(c, t, p), t) == p
    ensures Alloced(Freed(c, t, p), t) == Put(c, PageId(t, p), WithLink(ZeroPage, Link(c[t][0])))
  {
    var f := c[t];
    var z := WithLink(ZeroPage, Link(f[0]));
    var g := Freed(c, t, p)[t];
    assert g == f[p := z][0 := WithLink(f[0], PAGESIZE * p)];
    assert Link(g[0]) / PAGESIZE == p;
    assert WithLink(g[0], Link(z)) == f[0];
    assert g[0 := f[0]] == f[p := z];
  }

  // A new file has its hundred pages in the list, the last one first.
  lemma {:induction false} FreshList(n: nat)
    requires n <= FREEPAGES
    ensures FreeList(FreshFile(n), Down(n))
  {
    hide Chain, Link;
    FreshIs(n);
    FreshChain(n, n);
  }

  lemma {:induction false} FreshChain(n: nat, k: nat)
    requires k <= n <= FREEPAGES
    ensures Chain(FreshFile(n), PAGESIZE * k, Down(k))
  {
    if k > 0 {
      FreshIs(n);
      hide FreshFile;
      FreshChain(n, k - 1);
      assert Down(k)[1..] == Down(k - 1);
      assert Link(WithLink(ZeroPage, PAGESIZE * (k - 1))) == PAGESIZE * (k - 1);
    }
  }

  function Down(n: nat): (r: seq<nat>)
    ensures |r| == n && forall k :: 0 <= k < n ==> r[k] == n - k
  {
    if n == 0 then [] else [n] + Down(n - 1)
  }
}
