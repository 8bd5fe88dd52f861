// The pinball board of S_5650.cpp: how the ball moves, and why the motion can be run backwards.
module PinballBoard {
  // A cell, and the ball at a cell about to move. Ways: 0 right, 1 up, 2 down, 3 left.
  datatype Pos = Pos(x: int, y: int)
  datatype Ball = Ball(pos: Pos, way: int)

  type Board = seq<seq<int>>

  predicate IsWay(w: int) {
    0 <= w < 4
  }

  function Dx(w: int): int
    requires IsWay(w)
  {
    [0, -1, 1, 0][w]
  }

  function Dy(w: int): int
    requires IsWay(w)
  {
    [1, 0, 0, -1][w]
  }

  predicate Inside(n: nat, p: Pos) {
    1 <= p.x <= n && 1 <= p.y <= n
  }

  // The ring of cells around the board, without its corners.
  predicate OnRing(n: nat, p: Pos) {
    ((p.x == 0 || p.x == n + 1) && 1 <= p.y <= n) || ((p.y == 0 || p.y == n + 1) && 1 <= p.x <= n)
  }

  predicate OnBoard(n: nat, p: Pos) {
    0 <= p.x <= n + 1 && 0 <= p.y <= n + 1
  }

  function CellAt(b: Board, p: Pos): int {
    if 0 <= p.x < |b| && 0 <= p.y < |b[p.x]| then b[p.x][p.y] else 5
  }

  // 5 all around; -1 black hole, 0 empty, 1 to 5 blocks, anything else a wormhole, of which there are at
  // most two of a number.
  ghost predicate BoardOk(b: Board, n: nat) {
    && |b| == n + 2 && (forall x :: 0 <= x < n + 2 ==> |b[x]| == n + 2)
    && (forall p: Pos :: OnBoard(n, p) && !Inside(n, p) ==> CellAt(b, p) == 5)
    && (forall p: Pos, q: Pos, r: Pos :: Twins(b, n, p, q) && Twins(b, n, p, r) ==> q == r)
  }

  predicate IsHole(v: int) {
    v < -1 || v > 5
  }

  // Two ends of a wormhole.
  predicate Twins(b: Board, n: nat, p: Pos, q: Pos) {
    Inside(n, p) && Inside(n, q) && p != q && IsHole(CellAt(b, p)) && CellAt(b, q) == CellAt(b, p)
  }

  // Where a wormhole at p leads.
  ghost function Exit(b: Board, n: nat, p: Pos): (q: Pos)
    ensures q == p || Twins(b, n, p, q)
    ensures q == p ==> forall r :: !Twins(b, n, p, r)
  {
    if exists q :: Twins(b, n, p, q) then (var q :| Twins(b, n, p, q); q) else p
  }

  // How a block turns the ball.
  function Turned(v: int, w: int): (r: int)
    requires IsWay(w)
    ensures IsWay(r)
  {
    match v
    case 1 => [3, 2, 0, 1][w]
    case 2 => [3, 0, 1, 2][w]
    case 3 => [2, 3, 1, 0][w]
    case 4 => [1, 2, 3, 0][w]
    case 5 => [3, 2, 1, 0][w]
    case _ => w
  }

  function Target(s: Ball): Pos
    requires IsWay(s.way)
  {
    Pos(s.pos.x + Dx(s.way), s.pos.y + Dy(s.way))
  }

  // One turn of the game's loop, when it does not end the game.
  ghost function Move(b: Board, n: nat, s: Ball): (r: Ball)
    requires IsWay(s.way)
    ensures IsWay(r.way)
  {
    var q := Target(s);
    var v := CellAt(b, q);
    Ball(if IsHole(v) then Exit(b, n, q) else q, Turned(v, s.way))
  }

  // The ball is on the board, or on the ring heading back in.
  predicate BallOk(n: nat, s: Ball) {
    IsWay(s.way) && (Inside(n, s.pos) || (OnRing(n, s.pos) && Inside(n, Target(s))))
  }

  // The ball never leaves the board and its ring.
  lemma {:induction false} StaysIn(b: Board, n: nat, s: Ball)
    requires BoardOk(b, n) && BallOk(n, s)
    ensures OnBoard(n, Target(s)) && BallOk(n, Move(b, n, s)) && OnBoard(n, s.pos)
  {
    var q := Target(s);
    assert Inside(n, q) || OnRing(n, q);
    if !Inside(n, q) {
      assert CellAt(b, q) == 5;
      assert Target(Move(b, n, s)) == s.pos;
    }
  }

  // Blocks turn different ways to different ways.
  lemma {:induction false} TurnsDiffer(v: int, w: int, w': int)
    requires IsWay(w) && IsWay(w') && Turned(v, w) == Turned(v, w')
    ensures w == w'
  {
  }

  // Wormholes lead back.
  lemma {:induction false} ExitBack(b: Board, n: nat, p: Pos)
    requires BoardOk(b, n) && IsHole(CellAt(b, p))
    ensures Exit(b, n, Exit(b, n, p)) == p && CellAt(b, Exit(b, n, p)) == CellAt(b, p)
  {
    var q := Exit(b, n, p);
    if q != p {
      assert Twins(b, n, q, p);
    }
  }

  // Two balls that come to the same place going the same way were one ball before.
  lemma {:induction false} Reversible(b: Board, n: nat, s: Ball, t: Ball)
    requires BoardOk(b, n) && IsWay(s.way) && IsWay(t.way) && Move(b, n, s) == Move(b, n, t)
    ensures s == t
  {
    hide BoardOk, Turned, Exit;
    var p, q := Target(s), Target(t);
    if IsHole(CellAt(b, p)) { ExitBack(b, n, p); }
    if IsHole(CellAt(b, q)) { ExitBack(b, n, q); }
    assert p == q;
    TurnsDiffer(CellAt(b, p), s.way, t.way);
  }

  // All balls there are.
  function Balls(n: nat): (r: set<Ball>)
    ensures forall s :: s in r <==> OnBoard(n, s.pos) && IsWay(s.way)
  {
    set x, y, w | 0 <= x <= n + 1 && 0 <= y <= n + 1 && 0 <= w < 4 :: Ball(Pos(x, y), w)
  }
}
