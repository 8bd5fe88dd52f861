// The simulation loop of S_5650.cpp: it ends because the motion is reversible, and its score is the
// number of blocks and walls hit.
module Pinball {
  import opened PinballBoard

  // The ball's way from its start, as long as neither the start cell nor a black hole is ahead.
  ghost predicate Path(b: Board, n: nat, start: Pos, path: seq<Ball>) {
    && |path| > 0 && path[0].pos == start && (forall t :: 0 <= t < |path| ==> IsWay(path[t].way))
    && forall t :: 0 <= t < |path| - 1 ==> !Over(b, start, path[t]) && path[t + 1] == Move(b, n, path[t])
  }

  // The next cell ends the game.
  predicate Over(b: Board, start: Pos, s: Ball)
    requires IsWay(s.way)
  {
    Target(s) == start || CellAt(b, Target(s)) == -1
  }

  // A whole game.
  ghost predicate Game(b: Board, n: nat, start: Pos, way: int, path: seq<Ball>) {
    Path(b, n, start, path) && path[0].way == way && Over(b, start, path[|path| - 1])
  }

  predicate Hits(b: Board, s: Ball)
    requires IsWay(s.way)
  {
    1 <= CellAt(b, Target(s)) <= 5
  }

  // How many blocks and walls the ball has hit.
  ghost function Bounces(b: Board, path: seq<Ball>): nat
    requires forall t :: 0 <= t < |path| ==> IsWay(path[t].way)
  {
    if |path| <= 1 then 0 else Bounces(b, path[..|path| - 1]) + if Hits(b, path[|path| - 2]) then 1 else 0
  }

  // No place and way comes twice on a path.
  ghost predicate Fresh(path: seq<Ball>) {
    forall i, j :: 0 <= i < j < |path| ==> path[i] != path[j]
  }

  lemma {:induction false} PathMore(b: Board, n: nat, start: Pos, path: seq<Ball>)
    requires BoardOk(b, n) && Path(b, n, start, path) && Fresh(path)
    requires !Over(b, start, path[|path| - 1]) && CellAt(b, start) == 0
    ensures
      var more := path + [Move(b, n, path[|path| - 1])];
      Path(b, n, start, more) && Fresh(more) && Bounces(b, more) == Bounces(b, path) + if Hits(b, path[|path| - 1]) then
        1 else 0
  {
    hide BoardOk, Turned, Exit;
    var s := path[|path| - 1];
    var more := path + [Move(b, n, s)];
    assert more[..|path|] == path;
    forall i | 0 <= i < |path| ensures path[i] != Move(b, n, s) {
      if i == 0 {
        NotHome(b, n, start, s);
      } else if path[i] == Move(b, n, s) {
        var k := i - 1;
        assert path[k + 1] == Move(b, n, path[k]);
        Reversible(b, n, path[k], s);
      }
    }
  }

  // The ball is not put on the empty start cell by a wormhole.
  lemma {:induction false} NotHome(b: Board, n: nat, start: Pos, s: Ball)
    requires IsWay(s.way) && !Over(b, start, s) && CellAt(b, start) == 0
    ensures Move(b, n, s).pos != start
  {
    hide Turned;
  }

  // A game is over before it has been at every place in every way.
  lemma {:induction false} PathShort(b: Board, n: nat, start: Pos, path: seq<Ball>)
    requires Fresh(path) && forall t :: 0 <= t < |path| ==> path[t] in Balls(n)
    ensures |path| <= |Balls(n)|
  {
    hide Balls;
    Members(path);
    var seen := set s | s in path;
    assert Balls(n) == seen + (Balls(n) - seen);
    assert |seen + (Balls(n) - seen)| == |seen| + |Balls(n) - seen|;
  }

  lemma {:induction false} Members(path: seq<Ball>)
    requires Fresh(path)
    ensures |(set s | s in path)| == |path|
  {
    if path != [] {
      var k := |path| - 1;
      Members(path[..k]);
      assert (set s | s in path) == (set s | s in path[..k]) + {path[k]};
    }
  }

  // The game that a start and a way give is one.
  lemma {:induction false} OneGame(b: Board, n: nat, start: Pos, way: int, p: seq<Ball>, q: seq<Ball>, t: nat)
    requires Game(b, n, start, way, p) && Game(b, n, start, way, q) && t < |p| <= |q|
    ensures p[t] == q[t] && (t == |p| - 1 ==> |p| == |q|)
  {
    if t > 0 {
      OneGame(b, n, start, way, p, q, t - 1);
      var k := t - 1;
      assert p[k + 1] == Move(b, n, p[k]) && q[k + 1] == Move(b, n, q[k]);
    }
  }

  lemma {:induction false} SameOrLonger(b: Board, n: nat, start: Pos, way: int, p: seq<Ball>, q: seq<Ball>)
    requires Game(b, n, start, way, p) && Game(b, n, start, way, q) && |p| <= |q|
    ensures p == q
  {
    forall t | 0 <= t < |p| ensures p[t] == q[t] {
      OneGame(b, n, start, way, p, q, t);
    }
    OneGame(b, n, start, way, p, q, |p| - 1);
  }

  lemma {:induction false} SameGame(b: Board, n: nat, start: Pos, way: int, p: seq<Ball>, q: seq<Ball>)
    requires Game(b, n, start, way, p) && Game(b, n, start, way, q)
    ensures p == q
  {
    hide Game;
    if |p| <= |q| {
      SameOrLonger(b, n, start, way, p, q);
    } else {
      SameOrLonger(b, n, start, way, q, p);
    }
  }

  class Pinball {
    const n: nat
    const board: Board
    // P and max_cnt.
    var pos: Pos
    var way: int
    var cnt: nat
    var maxCnt: nat

    constructor (n: nat, board: Board)
      requires BoardOk(board, n)
      ensures this.n == n && this.board == board && maxCnt == 0
    {
      this.n, this.board, maxCnt, cnt, way, pos := n, board, 0, 0, 0, Pos(0, 0);
    }

    // The search for a wormhole's other end.
    method FindExit(num: int)
      requires BoardOk(board, n) && Inside(n, pos) && IsHole(num) && CellAt(board, pos) == num
      modifies this`pos
      ensures pos == Exit(board, n, old(pos))
    {
      hide Exit;
      ExitIs(board, n, pos);
      var x := 1;
      while x < n + 1
        invariant 1 <= x <= n + 1 && pos == old(pos)
        invariant forall q: Pos :: Inside(n, q) && q.x < x && CellAt(board, q) == num ==> q == pos
      {
        var y := 1;
        while y < n + 1
          invariant 1 <= y <= n + 1 && pos == old(pos)
          invariant forall q: Pos :: Inside(n, q) && (q.x < x || (q.x == x && q.y < y)) && CellAt(board, q) == num ==>
            q == pos
        {
          if board[x][y] == num && !(x == pos.x && y == pos.y) {
            assert Twins(board, n, pos, Pos(x, y));
            pos := Pos(x, y);
            return;
          }
          assert CellAt(board, Pos(x, y)) == board[x][y];
          y := y + 1;
        }
        x := x + 1;
      }
    }

    // The cases of blocks and walls.
    method Bounce(num: int)
      requires 1 <= num <= 5 && IsWay(way)
      modifies this`way, this`cnt
      ensures way == Turned(num, old(way)) && cnt == old(cnt) + 1
    {
      match num
      case 1 =>
        if way == 2 || way == 3 { way := way - 2; } else if way == 0 { way := 3; } else if way == 1 { way := 2; }
        cnt := cnt + 1;
      case 2 =>
        if way == 3 || way == 1 { way := way - 1; } else if way == 0 { way := 3; } else if way == 2 { way := 1; }
        cnt := cnt + 1;
      case 3 =>
        if way == 1 || way == 0 { way := way + 2; } else if way == 2 { way := 1; } else if way == 3 { way := 0; }
        cnt := cnt + 1;
      case 4 =>
        if way == 0 || way == 2 { way := way + 1; } else if way == 1 { way := 2; } else if way == 3 { way := 0; }
        cnt := cnt + 1;
      case 5 =>
        if way == 0 { way := 3; } else if way == 1 { way := 2; } else if way == 2 { way := 1; } else if way == 3 {
          way := 0; }
        cnt := cnt + 1;
    }

    // One game, from cell (i, j) in way k: it ends, and cnt is its score.
    method Play(i: nat, j: nat, k: int) returns (ghost path: seq<Ball>)
      requires BoardOk(board, n) && 1 <= i <= n && 1 <= j <= n && CellAt(board, Pos(i, j)) == 0 && IsWay(k)
      modifies this
      ensures Game(board, n, Pos(i, j), k, path) && cnt == Bounces(board, path)
      ensures maxCnt == if cnt > old(maxCnt) then cnt else old(maxCnt)
    {
      hide BoardOk, Turned, Exit, Balls, CellAt, Bounces, Going, Game, IsHole;
      pos, cnt, way := Pos(i, j), 0, k;
      path := [Ball(pos, way)];
      StartPath(board, n, pos, way);
      while true
        invariant IsWay(way) && |path| > 0 && Going(board, n, Pos(i, j), k, path, Ball(pos, way), cnt)
        invariant maxCnt == old(maxCnt)
        decreases |Balls(n)| - |path|
      {
        ghost var s, c := Ball(pos, way), cnt;
        GoingShort(board, n, Pos(i, j), k, path, s, cnt);
        pos := Pos(pos.x + Dx(way), pos.y + Dy(way));
        CellIs(board, n, pos);
        var num := board[pos.x][pos.y];
        GoingEnds(board, n, Pos(i, j), k, path, s, cnt);
        if pos.x == i && pos.y == j {
          if cnt > maxCnt { maxCnt := cnt; }
          break;
        }
        if num == -1 {
          if cnt > maxCnt { maxCnt := cnt; }
          break;
        }
        GoingOn(board, n, Pos(i, j), k, path, s, cnt);
        HoleInside(board, n, pos);
        if num != 0 {
          if 1 <= num <= 5 {
            Bounce(num);
          } else {
            FindExit(num);
          }
        }
        MoveIs(board, n, s);
        path := path + [Move(board, n, s)];
      }
    }

    // The loops over starts: the best score of all games from empty cells.
    method Best() returns (ghost best: seq<Ball>)
      requires BoardOk(board, n) && maxCnt == 0
      modifies this
      ensures forall i, j, k, path :: Starts(board, n, i, j, k) && Game(board, n, Pos(i, j), k, path) ==>
        Bounces(board, path) <= maxCnt
      ensures maxCnt > 0 ==>
        exists i, j, k ::
        Starts(board, n, i, j, k) && Game(board, n, Pos(i, j), k, best) && Bounces(board, best) == maxCnt
    {
      hide BoardOk, Game, Bounces, CellAt;
      best := [];
      var i := 1;
      while i < n + 1
        invariant 1 <= i <= n + 1 && Won(board, n, best, maxCnt)
        invariant forall x, y, k :: Starts(board, n, x, y, k) && x < i ==> Beaten(board, n, x, y, k, maxCnt)
      {
        var j := 1;
        while j < n + 1
          invariant 1 <= j <= n + 1 && Won(board, n, best, maxCnt)
          invariant forall x, y, k :: Starts(board, n, x, y, k) && (x < i || (x == i && y < j)) ==>
            Beaten(board, n, x, y, k, maxCnt)
        {
          CellIs(board, n, Pos(i, j));
          if board[i][j] == 0 {
            var k := 0;
            while k < 4
              invariant 0 <= k <= 4 && Won(board, n, best, maxCnt)
              invariant forall x, y, w ::
                Starts(board, n, x, y, w) && (x < i || (x == i && y < j) || (x == i && y == j && w < k)) ==>
                Beaten(board, n, x, y, w, maxCnt)
            {
              ghost var before := maxCnt;
              ghost var path := Play(i, j, k);
              if cnt > before {
                best := path;
              }
              NowBeaten(board, n, i, j, k, path, maxCnt);
              forall x, y, w | Starts(board, n, x, y, w) && Beaten(board, n, x, y, w, before)
                ensures Beaten(board, n, x, y, w, maxCnt) {
                StillBeaten(board, n, x, y, w, before, maxCnt);
              }
              k := k + 1;
            }
          }
          j := j + 1;
        }
        i := i + 1;
      }
    }
  }

  predicate Starts(b: Board, n: nat, i: int, j: int, k: int) {
    1 <= i <= n && 1 <= j <= n && CellAt(b, Pos(i, j)) == 0 && IsWay(k)
  }

  // No game from this start scores more than m.
  ghost predicate Beaten(b: Board, n: nat, i: int, j: int, k: int, m: nat) {
    forall path :: Game(b, n, Pos(i, j), k, path) ==> Bounces(b, path) <= m
  }

  // m is nothing or some game's score.
  ghost predicate Won(b: Board, n: nat, best: seq<Ball>, m: nat) {
    m > 0 ==> exists i, j, k :: Starts(b, n, i, j, k) && Game(b, n, Pos(i, j), k, best) && Bounces(b, best) == m
  }

  lemma {:induction false} NowBeaten(b: Board, n: nat, i: int, j: int, k: int, path: seq<Ball>, m: nat)
    requires Game(b, n, Pos(i, j), k, path) && Bounces(b, path) <= m
    ensures Beaten(b, n, i, j, k, m)
  {
    forall q | Game(b, n, Pos(i, j), k, q) ensures Bounces(b, q) <= m {
      SameGame(b, n, Pos(i, j), k, path, q);
    }
  }

  lemma {:induction false} StillBeaten(b: Board, n: nat, i: int, j: int, k: int, m: nat, m': nat)
    requires Beaten(b, n, i, j, k, m) && m <= m'
    ensures Beaten(b, n, i, j, k, m')
  {
  }

  // What the simulation loop keeps.
  ghost predicate Going(b: Board, n: nat, start: Pos, way: int, path: seq<Ball>, s: Ball, cnt: nat) {
    && Path(b, n, start, path) && Fresh(path) && path[0].way == way && path[|path| - 1] == s && BallOk(n, s)
    && (forall t :: 0 <= t < |path| ==> path[t] in Balls(n)) && cnt == Bounces(b, path)
  }

  lemma {:induction false} StartPath(b: Board, n: nat, start: Pos, way: int)
    requires Inside(n, start) && IsWay(way)
    ensures Going(b, n, start, way, [Ball(start, way)], Ball(start, way), 0)
  {
  }

  lemma {:induction false} GoingShort(b: Board, n: nat, start: Pos, way: int, path: seq<Ball>, s: Ball, cnt: nat)
    requires BoardOk(b, n) && Going(b, n, start, way, path, s, cnt)
    ensures |path| <= |Balls(n)| && IsWay(s.way) && OnBoard(n, Target(s))
  {
    hide Path, Bounces, Balls, BoardOk;
    PathShort(b, n, start, path);
    StaysIn(b, n, s);
  }

  lemma {:induction false} GoingEnds(b: Board, n: nat, start: Pos, way: int, path: seq<Ball>, s: Ball, cnt: nat)
    requires Going(b, n, start, way, path, s, cnt) && IsWay(s.way)
    ensures cnt == Bounces(b, path) && (Over(b, start, s) ==> Game(b, n, start, way, path))
  {
    hide Fresh, Balls, Bounces, BallOk;
  }

  lemma {:induction false} GoingOn(b: Board, n: nat, start: Pos, way: int, path: seq<Ball>, s: Ball, cnt: nat)
    requires BoardOk(b, n) && CellAt(b, start) == 0 && IsWay(s.way) && Going(b, n, start, way, path, s, cnt) &&
      !Over(b, start, s)
    ensures Going(b, n, start, way, path + [Move(b, n, s)], Move(b, n, s), cnt + if Hits(b, s) then 1 else 0)
  {
    hide BoardOk, Bounces, Path, Fresh, Turned, Exit, Balls, CellAt;
    PathMore(b, n, start, path);
    StaysIn(b, n, s);
    StaysIn(b, n, Move(b, n, s));
    PathWays(b, n, start, path);
  }

  lemma {:induction false} PathWays(b: Board, n: nat, start: Pos, path: seq<Ball>)
    requires Path(b, n, start, path)
    ensures |path| > 0
  {
  }

  lemma {:induction false} CellIs(b: Board, n: nat, p: Pos)
    requires BoardOk(b, n) && OnBoard(n, p)
    ensures 0 <= p.x < |b| && 0 <= p.y < |b[p.x]| && b[p.x][p.y] == CellAt(b, p)
  {
  }

  lemma {:induction false} HoleInside(b: Board, n: nat, p: Pos)
    requires BoardOk(b, n) && OnBoard(n, p)
    ensures IsHole(CellAt(b, p)) ==> Inside(n, p)
    ensures IsHole(CellAt(b, p)) <==> CellAt(b, p) < -1 || CellAt(b, p) > 5
  {
  }

  lemma {:induction false} MoveIs(b: Board, n: nat, s: Ball)
    requires IsWay(s.way)
    ensures
      var v := CellAt(b, Target(s));
      Move(b, n, s) == Ball(if v < -1 || v > 5 then Exit(b, n, Target(s))
        else Target(s), if 1 <= v <= 5 then Turned(v, s.way) else s.way)
  {
  }

  lemma {:induction false} ExitIs(b: Board, n: nat, p: Pos)
    requires BoardOk(b, n)
    ensures forall q :: Twins(b, n, p, q) ==> Exit(b, n, p) == q
    ensures (forall q :: !Twins(b, n, p, q)) ==> Exit(b, n, p) == p
  {
  }
}
