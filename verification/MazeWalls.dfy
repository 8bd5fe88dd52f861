// The walls of a square maze, and walking through the ones that have been taken down.
module MazeWalls {
  // The walls of a num * num maze: num * (num - 1) between neighbours in a row, then as many between rows.
  function Walls(num: nat): (n: nat)
    requires num > 0
  {
    num * (num - 1) * 2
  }

  // The cells on the two sides of a wall.
  function First(num: nat, w: nat): (i: nat)
    requires num > 1
  {
    if w < num * (num - 1) then w / (num - 1) * num + w % (num - 1) else w - num * (num - 1)
  }

  function Second(num: nat, w: nat): (j: nat)
    requires num > 1
  {
    First(num, w) + if w < num * (num - 1) then 1 else num
  }

  lemma {:induction false} Below(y: nat, x: nat, num: nat, rows: nat)
    requires y < rows && x < num
    ensures y * num + x < rows * num
  {
    assert (y + 1) * num <= rows * num by {
      Times(y + 1, rows, num);
    }
  }

  lemma {:induction false} Times(a: nat, b: nat, c: nat)
    requires a <= b
    ensures a * c <= b * c
  {
  }

  lemma {:induction false} Quotient(q: nat, r: nat, d: nat)
    requires r < d
    ensures (q * d + r) / d == q && (q * d + r) % d == r
  {
    var m := q * d + r;
    assert m == m / d * d + m % d by {
      Divided(m, d);
    }
    Unique(q, r, m / d, m % d, d);
  }

  lemma {:induction false} Divided(m: nat, d: nat)
    requires d > 0
    ensures m == m / d * d + m % d && 0 <= m % d < d && m / d >= 0
  {
  }

  lemma {:induction false} Unique(q: nat, r: nat, q': nat, r': nat, d: nat)
    requires q * d + r == q' * d + r' && r < d && r' < d
    ensures q == q' && r == r'
  {
    if q < q' {
      Times(q + 1, q', d);
    } else if q' < q {
      Times(q' + 1, q, d);
    }
  }

  // The sides of a wall are cells, the first before the second.
  lemma {:induction false} Sides(num: nat, w: nat)
    requires num > 1 && w < Walls(num)
    ensures First(num, w) < Second(num, w) < num * num
  {
    if w < num * (num - 1) {
      var y, x := w / (num - 1), w % (num - 1);
      assert w == y * (num - 1) + x;
      if y >= num {
        Times(num, y, num - 1);
      }
      Below(y, x + 1, num, num);
    } else {
      assert num * (num - 1) + num == num * num;
    }
  }

  // Every cell but the first is the second side of some wall.
  lemma {:induction false} WallBefore(num: nat, c: nat) returns (w: nat)
    requires num > 1 && 0 < c < num * num
    ensures w < Walls(num) && Second(num, w) == c
  {
    Divided(c, num);
    if c % num > 0 {
      w := RowWall(num, c / num, c % num);
    } else {
      w := ColumnWall(num, c / num);
    }
  }

  lemma {:induction false} RowWall(num: nat, y: nat, x: nat) returns (w: nat)
    requires num > 1 && 0 < x < num && y * num + x < num * num
    ensures w < Walls(num) && Second(num, w) == y * num + x
  {
    RowBound(num, y, x);
    w := y * (num - 1) + (x - 1);
    Below(y, x - 1, num - 1, num);
    Quotient(y, x - 1, num - 1);
    FirstIs(num, w, y, x - 1);
  }

  lemma {:induction false} RowBound(num: nat, y: nat, x: nat)
    requires y * num + x < num * num
    ensures y < num
  {
    if y >= num {
      Times(num, y, num);
    }
  }

  lemma {:induction false} FirstIs(num: nat, w: nat, y: nat, x: nat)
    requires num > 1 && w < num * (num - 1) && w / (num - 1) == y && w % (num - 1) == x
    ensures First(num, w) == y * num + x && Second(num, w) == y * num + x + 1 && w < Walls(num)
  {
  }

  lemma {:induction false} Commute(num: nat)
    requires num > 0
    ensures num * (num - 1) == (num - 1) * num && num * (num - 1) + num == num * num
  {
  }

  lemma {:induction false} ColumnWall(num: nat, y: nat) returns (w: nat)
    requires num > 1 && 0 < y * num < num * num
    ensures w < Walls(num) && Second(num, w) == y * num
  {
    Times(1, y, num);
    w := num * (num - 1) + (y * num - num);
    Commute(num);
  }

  // Walking through walls that are down.

  ghost predicate Joins(num: nat, w: nat, x: nat, y: nat)
    requires num > 1
  {
    (First(num, w) == x && Second(num, w) == y) || (First(num, w) == y && Second(num, w) == x)
  }

  ghost predicate Reach(num: nat, down: set<nat>, x: nat, y: nat, n: nat)
    requires num > 1
    decreases n
  {
    if n == 0 then x == y else exists z: nat, w: nat ::
      w in down && Joins(num, w, z, y) && Reach(num, down, x, z, n - 1)
  }

  // There is a way from x to y.
  ghost predicate Conn(num: nat, down: set<nat>, x: nat, y: nat)
    requires num > 1
  {
    exists n: nat :: Reach(num, down, x, y, n)
  }

  lemma {:induction false} ConnSelf(num: nat, down: set<nat>, x: nat)
    requires num > 1
    ensures Conn(num, down, x, x)
  {
    assert Reach(num, down, x, x, 0);
  }

  lemma {:induction false} ConnMore(num: nat, down: set<nat>, x: nat, z: nat, y: nat, w: nat)
    requires num > 1 && Conn(num, down, x, z) && w in down && Joins(num, w, z, y)
    ensures Conn(num, down, x, y)
  {
    hide Joins;
    var n: nat :| Reach(num, down, x, z, n);
    assert Reach(num, down, x, y, n + 1);
  }

  lemma {:induction false} ConnOn(num: nat, down: set<nat>, x: nat, z: nat, y: nat)
    requires num > 1 && Conn(num, down, x, z) && Conn(num, down, z, y)
    ensures Conn(num, down, x, y)
  {
    var n: nat :| Reach(num, down, z, y, n);
    ReachOn(num, down, x, z, y, n);
  }

  lemma {:induction false} ReachOn(num: nat, down: set<nat>, x: nat, z: nat, y: nat, n: nat)
    requires num > 1 && Conn(num, down, x, z) && Reach(num, down, z, y, n)
    ensures Conn(num, down, x, y)
    decreases n
  {
    hide Joins, Conn;
    if n > 0 {
      var u: nat, w: nat :| w in down && Joins(num, w, u, y) && Reach(num, down, z, u, n - 1);
      ReachOn(num, down, x, z, u, n - 1);
      ConnMore(num, down, x, u, y, w);
    }
  }

  lemma {:induction false} ConnBack(num: nat, down: set<nat>, x: nat, y: nat)
    requires num > 1 && Conn(num, down, x, y)
    ensures Conn(num, down, y, x)
  {
    var n: nat :| Reach(num, down, x, y, n);
    ReachBack(num, down, x, y, n);
  }

  lemma {:induction false} ReachBack(num: nat, down: set<nat>, x: nat, y: nat, n: nat)
    requires num > 1 && Reach(num, down, x, y, n)
    ensures Conn(num, down, y, x)
    decreases n
  {
    hide Conn, First, Second;
    ConnSelf(num, down, y);
    if n > 0 {
      var u: nat, w: nat :| w in down && Joins(num, w, u, y) && Reach(num, down, x, u, n - 1);
      ReachBack(num, down, x, u, n - 1);
      ConnMore(num, down, y, y, u, w);
      ConnOn(num, down, y, u, x);
    }
  }

  lemma {:induction false} ConnWider(num: nat, down: set<nat>, down': set<nat>, x: nat, y: nat)
    requires num > 1 && down <= down' && Conn(num, down, x, y)
    ensures Conn(num, down', x, y)
  {
    var n: nat :| Reach(num, down, x, y, n);
    ReachWider(num, down, down', x, y, n);
  }

  lemma {:induction false} ReachWider(num: nat, down: set<nat>, down': set<nat>, x: nat, y: nat, n: nat)
    requires num > 1 && down <= down' && Reach(num, down, x, y, n)
    ensures Conn(num, down', x, y)
    decreases n
  {
    hide Conn, Joins;
    ConnSelf(num, down', x);
    if n > 0 {
      var u: nat, w: nat :| w in down && Joins(num, w, u, y) && Reach(num, down, x, u, n - 1);
      ReachWider(num, down, down', x, u, n - 1);
      ConnMore(num, down', x, u, y, w);
    }
  }

  // A way that may use one wall more uses it not at all, or goes to one side of it and on from the other.
  ghost predicate Through(num: nat, down: set<nat>, v: nat, x: nat, y: nat)
    requires num > 1
  {
    || Conn(num, down, x, y)
    || (Conn(num, down, x, First(num, v)) && Conn(num, down, Second(num, v), y))
    || (Conn(num, down, x, Second(num, v)) && Conn(num, down, First(num, v), y))
  }

  lemma {:induction false} ConnThrough(num: nat, down: set<nat>, v: nat, x: nat, y: nat)
    requires num > 1 && Conn(num, down + {v}, x, y)
    ensures Through(num, down, v, x, y)
  {
    var n: nat :| Reach(num, down + {v}, x, y, n);
    ReachThrough(num, down, v, x, y, n);
  }

  lemma {:induction false} ReachThrough(num: nat, down: set<nat>, v: nat, x: nat, y: nat, n: nat)
    requires num > 1 && Reach(num, down + {v}, x, y, n)
    ensures Through(num, down, v, x, y)
    decreases n
  {
    hide Conn, First, Second;
    ConnSelf(num, down, x);
    ConnSelf(num, down, First(num, v));
    ConnSelf(num, down, Second(num, v));
    if n > 0 {
      var u: nat, w: nat :| w in down + {v} && Joins(num, w, u, y) && Reach(num, down + {v}, x, u, n - 1);
      ReachThrough(num, down, v, x, u, n - 1);
      if w != v {
        hide Joins;
        if Conn(num, down, x, u) {
          ConnMore(num, down, x, u, y, w);
        } else if Conn(num, down, Second(num, v), u) && Conn(num, down, x, First(num, v)) {
          ConnMore(num, down, Second(num, v), u, y, w);
        } else {
          ConnMore(num, down, First(num, v), u, y, w);
        }
      }
    }
  }
}
