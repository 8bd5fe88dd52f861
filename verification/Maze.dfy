// createMaze: walls are drawn at random and taken down where they separate, until the first and the last
// cell are joined.
module Maze {
  import opened MazeSets
  import opened MazeWalls

  // Cells have one root exactly when there is a way between them.
  ghost predicate Joined(num: nat, root: seq<nat>, down: set<nat>)
    requires num > 1
  {
    forall x, y :: 0 <= x < |root| && 0 <= y < |root| ==> (root[x] == root[y] <==> Conn(num, down, x, y))
  }

  // The walls taken down make no circle: put any one back and there is no way between its sides.
  ghost predicate NoCircle(num: nat, down: set<nat>)
    requires num > 1
  {
    forall w :: w in down ==> !Conn(num, down - {w}, First(num, w), Second(num, w))
  }

  // Cell 0 is a cell of its own that nobody has joined, or not a root.
  ghost predicate ZeroOk(p: seq<int>, root: seq<nat>) {
    |p| == |root| > 0 && (p[0] <= 0 ==> p[0] == 0 && forall x :: 0 < x < |root| ==> root[x] != 0)
  }

  lemma {:induction false} JoinedMore(num: nat, root: seq<nat>, down: set<nat>, v: nat, a: nat, b: nat)
    requires num > 1 && Joined(num, root, down) && First(num, v) < |root| && Second(num, v) < |root|
    requires a != b && ((root[First(num, v)] == a && root[Second(num, v)] == b) ||
      (root[First(num, v)] == b && root[Second(num, v)] == a))
    ensures Joined(num, Moved(root, a, b), down + {v})
  {
    hide Joined, Conn, First, Second;
    var root' := Moved(root, a, b);
    assert forall x, y :: 0 <= x < |root'| && 0 <= y < |root'| ==>
      (root'[x] == root'[y] <==> Conn(num, down + {v}, x, y)) by {
      forall x, y | 0 <= x < |root'| && 0 <= y < |root'| ensures root'[x] == root'[y] <==> Conn(num, down + {v}, x, y) {
        JoinedPair(num, root, down, v, a, b, x, y);
      }
    }
    JoinedIs(num, root', down + {v});
  }

  lemma {:induction false} JoinedIs(num: nat, root: seq<nat>, down: set<nat>)
    requires num > 1 && forall x, y :: 0 <= x < |root| && 0 <= y < |root| ==>
      (root[x] == root[y] <==> Conn(num, down, x, y))
    ensures Joined(num, root, down)
  {
  }

  lemma {:induction false} JoinedAt(num: nat, root: seq<nat>, down: set<nat>, x: nat, y: nat)
    requires num > 1 && Joined(num, root, down) && x < |root| && y < |root|
    ensures root[x] == root[y] <==> Conn(num, down, x, y)
  {
    hide Conn;
  }

  lemma {:induction false} JoinedPair(num: nat, root: seq<nat>, down: set<nat>, v: nat, a: nat, b: nat, x: nat, y: nat)
    requires num > 1 && Joined(num, root, down) && First(num, v) < |root| && Second(num, v) < |root| && x < |root| &&
      y < |root|
    requires a != b && ((root[First(num, v)] == a && root[Second(num, v)] == b) ||
      (root[First(num, v)] == b && root[Second(num, v)] == a))
    ensures Moved(root, a, b)[x] == Moved(root, a, b)[y] <==> Conn(num, down + {v}, x, y)
  {
    hide Joined, Conn, First, Second;
    var i, j := First(num, v), Second(num, v);
    JoinedAt(num, root, down, x, y);
    JoinedAt(num, root, down, x, i);
    JoinedAt(num, root, down, x, j);
    JoinedAt(num, root, down, i, y);
    JoinedAt(num, root, down, j, y);
    if Conn(num, down + {v}, x, y) {
      ConnThrough(num, down, v, x, y);
    }
    if Through(num, down, v, x, y) {
      ConnVia(num, down, v, x, y);
    }
  }

  lemma {:induction false} ConnVia(num: nat, down: set<nat>, v: nat, x: nat, y: nat)
    requires num > 1 && Through(num, down, v, x, y)
    ensures Conn(num, down + {v}, x, y)
  {
    hide Conn, First, Second;
    var i, j := First(num, v), Second(num, v);
    if Conn(num, down, x, y) {
      ConnWider(num, down, down + {v}, x, y);
    } else if Conn(num, down, x, i) && Conn(num, down, j, y) {
      ConnWider(num, down, down + {v}, x, i);
      ConnWider(num, down, down + {v}, j, y);
      ConnMore(num, down + {v}, x, i, j, v);
      ConnOn(num, down + {v}, x, j, y);
    } else {
      ConnWider(num, down, down + {v}, x, j);
      ConnWider(num, down, down + {v}, i, y);
      ConnMore(num, down + {v}, x, j, i, v);
      ConnOn(num, down + {v}, x, i, y);
    }
  }

  // Taking down a wall that separates closes no circle.
  lemma {:induction false} StillNoCircle(num: nat, down: set<nat>, v: nat)
    requires num > 1 && NoCircle(num, down) && v !in down && !Conn(num, down, First(num, v), Second(num, v))
    ensures NoCircle(num, down + {v})
  {
    hide Conn, First, Second;
    forall w | w in down + {v} ensures !Conn(num, down + {v} - {w}, First(num, w), Second(num, w)) {
      if w == v {
        assert down + {v} - {v} == down;
      } else {
        if Conn(num, down + {v} - {w}, First(num, w), Second(num, w)) {
          Circle(num, down, v, w);
        }
      }
    }
  }

  // A circle through v and w leads from one side of v to the other by w.
  lemma {:induction false} Circle(num: nat, down: set<nat>, v: nat, w: nat)
    requires num > 1 && v !in down && w in down && Conn(num, down + {v} - {w}, First(num, w), Second(num, w))
    requires !Conn(num, down - {w}, First(num, w), Second(num, w))
    ensures Conn(num, down, First(num, v), Second(num, v))
  {
    hide Conn, First, Second;
    var i, j, a, b := First(num, v), Second(num, v), First(num, w), Second(num, w);
    assert down + {v} - {w} == down - {w} + {v};
    ConnThrough(num, down - {w}, v, a, b);
    ConnSelf(num, down, i);
    if Conn(num, down - {w}, a, i) && Conn(num, down - {w}, j, b) {
      ConnWider(num, down - {w}, down, a, i);
      ConnWider(num, down - {w}, down, j, b);
      ConnBack(num, down, a, i);
      ConnBack(num, down, j, b);
      ConnMore(num, down, i, a, b, w);
      ConnOn(num, down, i, b, j);
    } else {
      ConnWider(num, down - {w}, down, a, j);
      ConnWider(num, down - {w}, down, i, b);
      ConnMore(num, down, i, b, a, w);
      ConnOn(num, down, i, a, j);
    }
  }

  // As long as not all cells are joined with the first, some wall still up separates two of them.
  lemma {:induction false} WallLeft(num: nat, root: seq<nat>, down: set<nat>, c: nat) returns (w: nat)
    requires num > 1 && |root| == num * num && Joined(num, root, down) && c < num * num && root[c] != root[0]
    ensures w < Walls(num) && w !in down && First(num, w) < num * num && Second(num, w) < num * num
    ensures root[First(num, w)] != root[Second(num, w)]
    decreases c
  {
    hide Conn, First, Second, Joined;
    w := WallBefore(num, c);
    Sides(num, w);
    if root[First(num, w)] != root[0] {
      w := WallLeft(num, root, down, First(num, w));
    } else if w in down {
      JoinedAt(num, root, down, First(num, w), Second(num, w));
      OneWall(num, down, w);
    }
  }

  lemma {:induction false} OneWall(num: nat, down: set<nat>, w: nat)
    requires num > 1 && w in down
    ensures Conn(num, down, First(num, w), Second(num, w))
  {
    ConnSelf(num, down, First(num, w));
    ConnMore(num, down, First(num, w), First(num, w), Second(num, w), w);
  }

  // Cell 0 never becomes a parent, so a positive entry is a parent and nothing else is.
  lemma {:induction false} LinkZero(p: seq<int>, root: seq<nat>, depth: seq<nat>, a: nat, b: nat)
    requires Forest(p, root, depth) && ZeroOk(p, root) && a < |p| && b < |p| && a != b && p[a] <= 0 && p[b] <= 0 &&
      b != 0
    ensures Winner(p, a, b) != 0
    ensures ZeroOk(Linked(p, a, b), Moved(root, Loser(p, a, b), Winner(p, a, b)))
  {
    assert CellOk(p, root, depth, 0) && CellOk(p, root, depth, a) && CellOk(p, root, depth, b);
  }

  // Only cell 0 itself can have 0 for its root.
  lemma {:induction false} NotZero(p: seq<int>, root: seq<nat>, depth: seq<nat>, j: nat)
    requires Forest(p, root, depth) && ZeroOk(p, root) && 0 < j < |p|
    ensures root[j] != 0
  {
    assert CellOk(p, root, depth, j);
  }

  class DisjointSets {
    const ptr_arr: array<int>
    ghost var root: seq<nat>
    ghost var depth: seq<nat>

    ghost predicate Valid()
      reads this, ptr_arr
    {
      Forest(ptr_arr[..], root, depth) && Ranked(ptr_arr[..], root, depth) && ZeroOk(ptr_arr[..], root)
    }

    constructor (size: nat)
      requires size > 0
      ensures Valid() && fresh(ptr_arr) && ptr_arr.Length == size && root == seq(size, i requires 0 <= i < size => i)
    {
      ptr_arr := new int[size](_ => 0);
      root := seq(size, i requires 0 <= i < size => i);
      depth := seq(size, _ => 0);
      new;
      Singles(ptr_arr[..], root, depth);
    }

    method Find(i: nat) returns (r: nat)
      requires Valid() && i < ptr_arr.Length
      ensures r < ptr_arr.Length && r == root[i] && ptr_arr[r] <= 0
    {
      r := i;
      assert CellOk(ptr_arr[..], root, depth, r);
      while ptr_arr[r] > 0
        invariant r < ptr_arr.Length && root[r] == root[i]
        decreases depth[r]
      {
        assert CellOk(ptr_arr[..], root, depth, r);
        r := ptr_arr[r];
      }
      assert CellOk(ptr_arr[..], root, depth, r);
    }

    // Two sets become one, under the root of the taller tree.
    method Union(i: nat, j: nat)
      requires Valid() && i < ptr_arr.Length && j < ptr_arr.Length && root[i] != root[j] && root[j] != 0
      modifies this, ptr_arr
      ensures Valid() && |root| == |old(root)| && old(root)[i] < ptr_arr.Length && old(root)[j] < ptr_arr.Length
      ensures ptr_arr[..] == Linked(old(ptr_arr[..]), old(root)[i], old(root)[j])
      ensures root == Moved(old(root), Loser(old(ptr_arr[..]), old(root)[i], old(root)[j]),
        Winner(old(ptr_arr[..]), old(root)[i], old(root)[j]))
    {
      hide CellOk, RankOk;
      var a := Find(i);
      var b := Find(j);
      ghost var p := ptr_arr[..];
      LinkZero(p, root, depth, a, b);
      LinkForest(p, root, depth, a, b);
      LinkRanked(p, root, depth, a, b);
      hide Forest, Ranked, ZeroOk;
      if ptr_arr[a] < ptr_arr[b] {
        ptr_arr[b] := a;
      } else {
        if ptr_arr[a] == ptr_arr[b] {
          ptr_arr[b] := ptr_arr[b] - 1;
        }
        ptr_arr[a] := b;
      }
      assert ptr_arr[..] == Linked(p, a, b);
      root, depth := Moved(root, Loser(p, a, b), Winner(p, a, b)), Deeper(root, depth, Loser(p, a, b));
    }
  }

  lemma {:induction false} Singles(p: seq<int>, root: seq<nat>, depth: seq<nat>)
    requires |p| == |root| == |depth| > 0 && forall x :: 0 <= x < |p| ==> p[x] == 0 && root[x] == x && depth[x] == 0
    ensures Forest(p, root, depth) && Ranked(p, root, depth) && ZeroOk(p, root)
  {
    forall r | 0 <= r < |p| ensures RankOk(root, depth, r, 0) {
      assert root[r] == r && depth[r] == 0;
      assert r in Tree(root, r);
    }
  }

  // maze_print: a wall taken down is 0, one still up is -1.
  ghost predicate Shown(print_arr: seq<int>, down: set<nat>) {
    && (forall w :: w in down ==> w < |print_arr|)
    && (forall w :: 0 <= w < |print_arr| ==> print_arr[w] == if w in down then 0 else -1)
  }

  // The wall of the m-th number drawn.
  function Wall(num: nat, rands: seq<nat>, m: nat): (w: nat)
    requires num > 1 && Walls(num) > 0 && m < |rands|
  {
    rands[m] % Walls(num)
  }

  // Every wall drawn so far is down or has a way around it, and only such are down.
  ghost predicate Drawn(num: nat, rands: seq<nat>, k: nat, down: set<nat>)
    requires num > 1 && k <= |rands|
  {
    && Walls(num) > 0
    && (forall m :: 0 <= m < k ==> Settled(num, down, Wall(num, rands, m)))
    && (forall w :: w in down ==> exists m :: 0 <= m < k && Wall(num, rands, m) == w)
  }

  ghost predicate Settled(num: nat, down: set<nat>, w: nat)
    requires num > 1
  {
    w in down || Conn(num, down, First(num, w), Second(num, w))
  }

  // The last cell.
  function Last(num: nat): (c: nat)
    requires num > 1
  {
    WallsSome(num);
    num * num - 1
  }

  // What createMaze keeps.
  ghost predicate MazeOk(sets: DisjointSets, print_arr: array<int>, num: nat, down: set<nat>)
    requires num > 1
    reads sets, sets.ptr_arr, print_arr
  {
    && sets.Valid() && sets.ptr_arr.Length == num * num == |sets.root| && print_arr.Length == Walls(num) &&
       sets.ptr_arr != print_arr
    && Joined(num, sets.root, down) && NoCircle(num, down) && Shown(print_arr[..], down)
  }

  // init: every cell a set of its own, every wall up.
  method Init(num: nat) returns (sets: DisjointSets, print_arr: array<int>)
    requires num > 1
    ensures fresh(sets) && fresh(sets.ptr_arr) && fresh(print_arr) && MazeOk(sets, print_arr, num, {})
  {
    Halves(num);
    var n, h := num * num, num * (num - 1);
    sets := new DisjointSets(n);
    print_arr := RaiseWalls(n, h);
    NoneJoined(num, sets.root);
  }

  lemma {:induction false} Halves(num: nat)
    requires num > 1
    ensures Walls(num) == num * (num - 1) + num * (num - 1) && num * (num - 1) + num == num * num
  {
    Commute(num);
  }

  // init's loop: the walls are 2 * h, the cells n.
  method RaiseWalls(n: nat, h: nat) returns (print_arr: array<int>)
    requires h <= n
    ensures fresh(print_arr) && print_arr.Length == h + h && Shown(print_arr[..], {})
  {
    print_arr := new int[h + h];
    var i := 0;
    while i < n
      invariant i <= n
      invariant forall w :: 0 <= w < i && w < h ==> print_arr[w] == -1
      invariant forall w :: h <= w < h + i && w < h + h ==> print_arr[w] == -1
      modifies print_arr
    {
      if i < h {
        print_arr[i] := -1;
        print_arr[h + i] := -1;
      }
      i := i + 1;
    }
  }

  lemma {:induction false} NoneJoined(num: nat, root: seq<nat>)
    requires num > 1 && forall x :: 0 <= x < |root| ==> root[x] == x
    ensures Joined(num, root, {}) && NoCircle(num, {})
  {
    forall x, y | 0 <= x < |root| && 0 <= y < |root| ensures root[x] == root[y] <==> Conn(num, {}, x, y) {
      if x == y {
        ConnSelf(num, {}, x);
      }
    }
  }

  lemma {:induction false} NothingDrawn(num: nat, rands: seq<nat>)
    requires num > 1
    ensures Drawn(num, rands, 0, {})
  {
    WallsSome(num);
  }

  lemma {:induction false} WallsSome(num: nat)
    requires num > 1
    ensures Walls(num) > 0 && num * num > 1
  {
    Times(2, num, num - 1);
    Times(2, num, num);
  }

  // With every wall up, the first and the last cell are apart.
  lemma {:induction false} Apart(num: nat)
    requires num > 1
    ensures !Conn(num, {}, 0, Last(num))
  {
    WallsSome(num);
  }

  // One more number drawn, for a wall that is down or has a way around it.
  lemma {:induction false} DrawnOn(num: nat, rands: seq<nat>, k: nat, down: set<nat>)
    requires num > 1 && k < |rands| && Drawn(num, rands, k, down)
    requires Walls(num) > 0 && Settled(num, down, Wall(num, rands, k))
    ensures Drawn(num, rands, k + 1, down)
  {
    hide Settled, Wall, Walls;
  }

  // One more, for a wall now taken down.
  lemma {:induction false} DrawnDown(num: nat, rands: seq<nat>, k: nat, down: set<nat>, w: nat)
    requires num > 1 && k < |rands| && Drawn(num, rands, k, down) && Wall(num, rands, k) == w
    ensures Drawn(num, rands, k + 1, down + {w})
  {
    hide Conn, First, Second, Walls, Wall;
    forall m | 0 <= m < k + 1 ensures Settled(num, down + {w}, Wall(num, rands, m)) {
      if m < k {
        var u := Wall(num, rands, m);
        assert Settled(num, down, u);
        if u !in down {
          ConnWider(num, down, down + {w}, First(num, u), Second(num, u));
        }
      }
    }
  }

  // The inner loop of createMaze: numbers are drawn until one is of a wall still up.
  method Draw(print_arr: array<int>, num: nat, rands: seq<nat>, used: nat, ghost down: set<nat>)
    returns (ok: bool, select: nat, used': nat)
    requires num > 1 && used <= |rands| && Drawn(num, rands, used, down) && print_arr.Length == Walls(num) &&
      Shown(print_arr[..], down)
    ensures used <= used' <= |rands|
    ensures !ok ==> used' == |rands| && Drawn(num, rands, used', down)
    ensures ok ==>
      used < used' && Drawn(num, rands, used' - 1, down) && Walls(num) > 0 &&
      select == Wall(num, rands, used' - 1) < Walls(num) && select !in down
  {
    hide Conn, First, Second, Drawn;
    WallsSome(num);
    hide Walls;
    select, used' := 0, used;
    while used' < |rands|
      invariant used <= used' <= |rands| && Drawn(num, rands, used', down)
    {
      select := rands[used'] % Walls(num);
      if print_arr[select] != 0 {
        return true, select, used' + 1;
      }
      DrawnOn(num, rands, used', down);
      used' := used' + 1;
    }
    ok := false;
  }

  // The rest of createMaze's loop: the wall is taken down if it separates.
  method Take(sets: DisjointSets, print_arr: array<int>, num: nat, select: nat, ghost rands: seq<nat>, ghost k: nat,
      ghost down: set<nat>) returns (ghost down': set<nat>)
    requires num > 1 && MazeOk(sets, print_arr, num, down) && select < Walls(num) && select !in down
    requires k < |rands| && Drawn(num, rands, k, down) && Walls(num) > 0 && Wall(num, rands, k) == select
    modifies sets, sets.ptr_arr, print_arr
    ensures MazeOk(sets, print_arr, num, down') && Drawn(num, rands, k + 1, down')
    ensures down' == if Conn(num, down, First(num, select), Second(num, select)) then down else down + {select}
  {
    hide Joined, NoCircle, Conn, Drawn, Forest, Ranked, ZeroOk;
    down' := down;
    Sides(num, select);
    var i, j;
    if select < num * (num - 1) {
      var y, x := select / (num - 1), select % (num - 1);
      i := y * num + x;
      j := i + 1;
    } else {
      i := select - num * (num - 1);
      j := i + num;
    }
    assert i == First(num, select) && j == Second(num, select);
    hide First, Second, Walls;
    JoinedAt(num, sets.root, down, i, j);
    var a := sets.Find(i);
    var b := sets.Find(j);
    if a != b {
      ghost var p, root := sets.ptr_arr[..], sets.root;
      NotZero(p, root, sets.depth, j);
      sets.Union(i, j);
      print_arr[select] := 0;
      JoinedMore(num, root, down, select, Loser(p, a, b), Winner(p, a, b));
      StillNoCircle(num, down, select);
      DrawnDown(num, rands, k, down, select);
      down' := down + {select};
    } else {
      DrawnOn(num, rands, k, down);
    }
  }

  lemma {:induction false} MazeFacts(sets: DisjointSets, print_arr: array<int>, num: nat, down: set<nat>)
    requires num > 1 && MazeOk(sets, print_arr, num, down)
    ensures sets.Valid() && sets.ptr_arr.Length == |sets.root| == Last(num) + 1 && Joined(num, sets.root, down)
    ensures print_arr.Length == Walls(num) && Shown(print_arr[..], down)
  {
  }

  ghost predicate Occurs(num: nat, rands: seq<nat>, w: nat)
    requires num > 1 && Walls(num) > 0
  {
    exists k :: 0 <= k < |rands| && Wall(num, rands, k) == w
  }

  // Every wall occurs among the numbers.
  ghost predicate AllWalls(num: nat, rands: seq<nat>)
    requires num > 1
  {
    Walls(num) > 0 && forall w: nat :: w < Walls(num) ==> Occurs(num, rands, w)
  }

  // With every wall drawn nothing can be apart.
  lemma {:induction false} AllWallsDone(num: nat, root: seq<nat>, down: set<nat>, rands: seq<nat>)
    requires num > 1 && |root| == Last(num) + 1 && Joined(num, root, down) && Drawn(num, rands, |rands|, down) &&
      AllWalls(num, rands)
    ensures Conn(num, down, 0, Last(num))
  {
    hide Conn, First, Second, Joined, Wall, Walls;
    JoinedAt(num, root, down, 0, Last(num));
    if root[0] != root[Last(num)] {
      var w := WallLeft(num, root, down, Last(num));
      DrawnSettled(num, root, down, rands, w);
      assert false;
    }
  }

  lemma {:induction false} DrawnSettled(num: nat, root: seq<nat>, down: set<nat>, rands: seq<nat>, w: nat)
    requires num > 1 && Joined(num, root, down) && Drawn(num, rands, |rands|, down) && AllWalls(num, rands)
    requires w < Walls(num) && w !in down && First(num, w) < |root| && Second(num, w) < |root|
    ensures root[First(num, w)] == root[Second(num, w)]
  {
    hide Conn, First, Second, Joined, Wall, Walls;
    JoinedAt(num, root, down, First(num, w), Second(num, w));
    assert Occurs(num, rands, w);
    var k :| 0 <= k < |rands| && Wall(num, rands, k) == w;
    assert Settled(num, down, Wall(num, rands, k));
  }

  // createMaze, given the numbers rand() will return: it ends when the first and the last cell are joined.
  // !done when the numbers run out before that; used is how many were drawn.
  method CreateMaze(sets: DisjointSets, print_arr: array<int>, num: nat, rands: seq<nat>, ghost down0: set<nat>)
    returns (done: bool, used: nat, ghost down: set<nat>)
    requires num > 1 && MazeOk(sets, print_arr, num, down0) && down0 == {}
    modifies sets, sets.ptr_arr, print_arr
    ensures used <= |rands| && MazeOk(sets, print_arr, num, down) && Drawn(num, rands, used, down)
    ensures done <==> Conn(num, down, 0, Last(num))
    ensures !done ==> used == |rands|
    ensures AllWalls(num, rands) ==> done
  {
    hide MazeOk, Drawn, Conn, Walls, Last, Wall, First, Second, Joined, Forest, Ranked, Shown, AllWalls;
    down := down0;
    used := 0;
    NothingDrawn(num, rands);
    Apart(num);
    var last := Last(num);
    while true
      invariant used <= |rands| && MazeOk(sets, print_arr, num, down) && Drawn(num, rands, used, down)
      invariant !Conn(num, down, 0, last)
      decreases |rands| - used
    {
      var ok, select;
      MazeFacts(sets, print_arr, num, down);
      ok, select, used := Draw(print_arr, num, rands, used, down);
      if !ok {
        if AllWalls(num, rands) { AllWallsDone(num, sets.root, down, rands); }
        return false, used, down;
      }
      down := Take(sets, print_arr, num, select, rands, used - 1, down);
      MazeFacts(sets, print_arr, num, down);
      var a := sets.Find(0);
      var b := sets.Find(last);
      JoinedAt(num, sets.root, down, 0, last);
      if a == b {
        return true, used, down;
      }
    }
  }
}
