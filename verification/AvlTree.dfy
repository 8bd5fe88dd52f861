// AVL trees as values: the four rotations, insertion, and what insertion keeps.
module AvlTree {
  import opened Basics

  datatype Tree = Nil | Node(left: Tree, x: int, right: Tree)

  // Height of an empty tree is -1.
  function H(t: Tree): (h: int)
    ensures h >= -1 && (h == -1 <==> t == Nil)
  {
    if t == Nil then -1 else Max(H(t.left), H(t.right)) + 1
  }

  // SingleRotateWithLeft and SingleRotateWithRight; a tree they do not apply to stays as it is.
  function SingleLeft(t: Tree): Tree {
    if t.Node? && t.left.Node? then Node(t.left.left, t.left.x, Node(t.left.right, t.x, t.right)) else t
  }

  function SingleRight(t: Tree): Tree {
    if t.Node? && t.right.Node? then Node(Node(t.left, t.x, t.right.left), t.right.x, t.right.right) else t
  }

  function DoubleLeft(t: Tree): Tree {
    if t.Node? then SingleLeft(Node(SingleRight(t.left), t.x, t.right)) else t
  }

  function DoubleRight(t: Tree): Tree {
    if t.Node? then SingleRight(Node(t.left, t.x, SingleLeft(t.right))) else t
  }

  // Insert.
  function Ins(X: int, t: Tree): Tree {
    if t == Nil then Node(Nil, X, Nil)
    else if X < t.x then FixLeft(X, Node(Ins(X, t.left), t.x, t.right))
    else if X > t.x then FixRight(X, Node(t.left, t.x, Ins(X, t.right)))
    else t
  }

  // What Insert does after its recursive call on the left, or on the right.
  function FixLeft(X: int, t: Tree): Tree {
    if t.Node? && t.left.Node? && H(t.left) - H(t.right) == 2 then
      if X < t.left.x then SingleLeft(t) else DoubleLeft(t)
    else t
  }

  function FixRight(X: int, t: Tree): Tree {
    if t.Node? && t.right.Node? && H(t.right) - H(t.left) == 2 then
      if X > t.right.x then SingleRight(t) else DoubleRight(t)
    else t
  }

  ghost predicate Balanced(t: Tree) {
    t == Nil || (Balanced(t.left) && Balanced(t.right) && -1 <= H(t.left) - H(t.right) <= 1)
  }

  function Elements(t: Tree): (s: set<int>) {
    if t == Nil then {} else Elements(t.left) + {t.x} + Elements(t.right)
  }

  // Everything on the left is smaller, everything on the right larger.
  ghost predicate Search(t: Tree) {
    t == Nil ||
    (Search(t.left) && Search(t.right) && (forall y :: y in Elements(t.left) ==> y < t.x) &&
      (forall y :: y in Elements(t.right) ==> y > t.x))
  }

  function Size(t: Tree): nat {
    if t == Nil then 0 else Size(t.left) + 1 + Size(t.right)
  }

  function Fib(n: nat): nat {
    if n < 2 then n else Fib(n - 1) + Fib(n - 2)
  }

  // Where a tree that was not empty and has grown is heavy: on the side X went to.
  ghost predicate Grown(X: int, t: Tree, r: Tree) {
    t.Node? && r.Node? && r.x == t.x && X != t.x && (X < t.x ==> H(r.left) == H(r.right) + 1) &&
      (X > t.x ==> H(r.right) == H(r.left) + 1)
  }

  // Insertion keeps the balance and makes the tree at most one higher.
  lemma {:induction false} InsBalanced(X: int, t: Tree)
    requires Balanced(t)
    ensures Balanced(Ins(X, t)) && H(t) <= H(Ins(X, t)) <= H(t) + 1 && Ins(X, t).Node?
    ensures H(Ins(X, t)) == H(t) + 1 && t != Nil ==> Grown(X, t, Ins(X, t))
  {
    if t == Nil {
    } else if X < t.x {
      InsBalanced(X, t.left);
      LeftBalanced(X, t, Ins(X, t.left));
    } else if X > t.x {
      InsBalanced(X, t.right);
      RightBalanced(X, t, Ins(X, t.right));
    }
  }

  lemma {:induction false} BalancedNode(l: Tree, x: int, r: Tree)
    requires Balanced(l) && Balanced(r) && -1 <= H(l) - H(r) <= 1
    ensures Balanced(Node(l, x, r)) && H(Node(l, x, r)) == Max(H(l), H(r)) + 1
  {
  }

  lemma {:induction false} LeftBalanced(X: int, t: Tree, l: Tree)
    requires t.Node? && Balanced(t) && X < t.x && Balanced(l) && l.Node? && H(t.left) <= H(l) <= H(t.left) + 1
    requires H(l) == H(t.left) + 1 && t.left != Nil ==> Grown(X, t.left, l)
    ensures var r := FixLeft(X, Node(l, t.x, t.right));
      Balanced(r) && H(t) <= H(r) <= H(t) + 1 && r.Node? && (H(r) == H(t) + 1 ==> Grown(X, t, r))
  {
    BalancedParts(t);
    hide Balanced;
    if H(l) - H(t.right) != 2 {
      BalancedNode(l, t.x, t.right);
    } else if X < l.x {
      SingleLeftBalanced(l, t.x, t.right);
    } else {
      DoubleLeftBalanced(l, t.x, t.right);
    }
  }

  lemma {:induction false} SingleLeftBalanced(l: Tree, x: int, r: Tree)
    requires Balanced(l) && Balanced(r) && l.Node? && H(l) == H(r) + 2 && H(l.left) == H(l.right) + 1
    ensures Balanced(SingleLeft(Node(l, x, r))) && H(SingleLeft(Node(l, x, r))) == H(l) &&
      SingleLeft(Node(l, x, r)).Node?
  {
    BalancedParts(l);
    hide Balanced;
    BalancedNode(l.right, x, r);
    BalancedNode(l.left, l.x, Node(l.right, x, r));
  }

  lemma {:induction false} DoubleLeftBalanced(l: Tree, x: int, r: Tree)
    requires Balanced(l) && Balanced(r) && l.Node? && H(l) == H(r) + 2 && H(l.right) == H(l.left) + 1
    ensures Balanced(DoubleLeft(Node(l, x, r))) && H(DoubleLeft(Node(l, x, r))) == H(l) &&
      DoubleLeft(Node(l, x, r)).Node?
  {
    BalancedParts(l);
    var m := l.right;
    BalancedParts(m);
    hide Balanced;
    BalancedNode(l.left, l.x, m.left);
    BalancedNode(m.right, x, r);
    BalancedNode(Node(l.left, l.x, m.left), m.x, Node(m.right, x, r));
  }

  lemma {:induction false} RightBalanced(X: int, t: Tree, r: Tree)
    requires t.Node? && Balanced(t) && X > t.x && Balanced(r) && r.Node? && H(t.right) <= H(r) <= H(t.right) + 1
    requires H(r) == H(t.right) + 1 && t.right != Nil ==> Grown(X, t.right, r)
    ensures var s := FixRight(X, Node(t.left, t.x, r));
      Balanced(s) && H(t) <= H(s) <= H(t) + 1 && s.Node? && (H(s) == H(t) + 1 ==> Grown(X, t, s))
  {
    BalancedParts(t);
    hide Balanced;
    if H(r) - H(t.left) != 2 {
      BalancedNode(t.left, t.x, r);
    } else if X > r.x {
      SingleRightBalanced(t.left, t.x, r);
    } else {
      DoubleRightBalanced(t.left, t.x, r);
    }
  }

  lemma {:induction false} SingleRightBalanced(l: Tree, x: int, r: Tree)
    requires Balanced(l) && Balanced(r) && r.Node? && H(r) == H(l) + 2 && H(r.right) == H(r.left) + 1
    ensures Balanced(SingleRight(Node(l, x, r))) && H(SingleRight(Node(l, x, r))) == H(r) &&
      SingleRight(Node(l, x, r)).Node?
  {
    BalancedParts(r);
    hide Balanced;
    BalancedNode(l, x, r.left);
    BalancedNode(Node(l, x, r.left), r.x, r.right);
  }

  lemma {:induction false} DoubleRightBalanced(l: Tree, x: int, r: Tree)
    requires Balanced(l) && Balanced(r) && r.Node? && H(r) == H(l) + 2 && H(r.left) == H(r.right) + 1
    ensures Balanced(DoubleRight(Node(l, x, r))) && H(DoubleRight(Node(l, x, r))) == H(r) &&
      DoubleRight(Node(l, x, r)).Node?
  {
    BalancedParts(r);
    var m := r.left;
    BalancedParts(m);
    hide Balanced;
    BalancedNode(m.right, r.x, r.right);
    BalancedNode(l, x, m.left);
    BalancedNode(Node(l, x, m.left), m.x, Node(m.right, r.x, r.right));
  }

  // Insertion adds X to the elements and keeps the search order.
  lemma {:induction false} InsSearch(X: int, t: Tree)
    requires Search(t)
    ensures Search(Ins(X, t)) && Elements(Ins(X, t)) == Elements(t) + {X}
  {
    if t == Nil {
    } else if X < t.x {
      InsSearch(X, t.left);
      var u := Node(Ins(X, t.left), t.x, t.right);
      assert Search(u);
      FixLeftSearch(X, u);
    } else if X > t.x {
      InsSearch(X, t.right);
      var u := Node(t.left, t.x, Ins(X, t.right));
      assert Search(u);
      FixRightSearch(X, u);
    }
  }

  lemma {:induction false} SearchNode(l: Tree, x: int, r: Tree)
    requires Search(l) && Search(r) && (forall y :: y in Elements(l) ==> y < x) &&
      (forall y :: y in Elements(r) ==> y > x)
    ensures Search(Node(l, x, r)) && Elements(Node(l, x, r)) == Elements(l) + {x} + Elements(r)
  {
  }

  lemma {:induction false} SingleLeftSearch(t: Tree)
    requires Search(t)
    ensures Search(SingleLeft(t)) && Elements(SingleLeft(t)) == Elements(t)
  {
    if t.Node? && t.left.Node? {
      assert t.left.x in Elements(t.left) && Elements(t.left.right) <= Elements(t.left);
      SearchNode(t.left.right, t.x, t.right);
      SearchNode(t.left.left, t.left.x, Node(t.left.right, t.x, t.right));
    }
  }

  lemma {:induction false} SingleRightSearch(t: Tree)
    requires Search(t)
    ensures Search(SingleRight(t)) && Elements(SingleRight(t)) == Elements(t)
  {
    if t.Node? && t.right.Node? {
      assert t.right.x in Elements(t.right) && Elements(t.right.left) <= Elements(t.right);
      SearchNode(t.left, t.x, t.right.left);
      SearchNode(Node(t.left, t.x, t.right.left), t.right.x, t.right.right);
    }
  }

  lemma {:induction false} FixLeftSearch(X: int, t: Tree)
    requires Search(t)
    ensures Search(FixLeft(X, t)) && Elements(FixLeft(X, t)) == Elements(t)
  {
    SingleLeftSearch(t);
    if t.Node? {
      SingleRightSearch(t.left);
      SearchNode(SingleRight(t.left), t.x, t.right);
      SingleLeftSearch(Node(SingleRight(t.left), t.x, t.right));
    }
  }

  lemma {:induction false} FixRightSearch(X: int, t: Tree)
    requires Search(t)
    ensures Search(FixRight(X, t)) && Elements(FixRight(X, t)) == Elements(t)
  {
    SingleRightSearch(t);
    if t.Node? {
      SingleLeftSearch(t.right);
      SearchNode(t.left, t.x, SingleLeft(t.right));
      SingleRightSearch(Node(t.left, t.x, SingleLeft(t.right)));
    }
  }

  // An element already there changes nothing.
  lemma {:induction false} InsPresent(X: int, t: Tree)
    requires Search(t) && Balanced(t) && X in Elements(t)
    ensures Ins(X, t) == t
  {
    if X < t.x {
      InsPresent(X, t.left);
      assert FixLeft(X, t) == t;
    } else if X > t.x {
      InsPresent(X, t.right);
      assert FixRight(X, t) == t;
    }
  }

  // A new element makes the tree one larger.
  lemma {:induction false} InsSize(X: int, t: Tree)
    requires Search(t) && X !in Elements(t)
    ensures Size(Ins(X, t)) == Size(t) + 1
  {
    if t == Nil {
    } else if X < t.x {
      InsSize(X, t.left);
      FixSize(X, Node(Ins(X, t.left), t.x, t.right));
    } else {
      InsSize(X, t.right);
      FixSize(X, Node(t.left, t.x, Ins(X, t.right)));
    }
  }

  lemma {:induction false} FixSize(X: int, t: Tree)
    ensures Size(FixLeft(X, t)) == Size(t) && Size(FixRight(X, t)) == Size(t)
  {
    SingleSize(t);
    if t.Node? {
      SingleSize(t.left);
      SingleSize(t.right);
      SingleSize(Node(SingleRight(t.left), t.x, t.right));
      SingleSize(Node(t.left, t.x, SingleLeft(t.right)));
    }
  }

  lemma {:induction false} SingleSize(t: Tree)
    ensures Size(SingleLeft(t)) == Size(t) && Size(SingleRight(t)) == Size(t)
  {
  }

  // A balanced tree of height h has Fib(h + 3) - 1 elements or more.
  lemma {:induction false} EnoughElements(t: Tree)
    requires Balanced(t)
    ensures Size(t) >= Fib(H(t) + 3) - 1
  {
    hide Balanced, Fib;
    if t != Nil {
      BalancedParts(t);
      EnoughElements(t.left);
      EnoughElements(t.right);
      FibSum(H(t.left), H(t.right));
    } else {
      FibFirst();
    }
  }

  lemma {:induction false} FibFirst()
    ensures Fib(2) == 1
  {
  }

  lemma {:induction false} FibSum(l: int, r: int)
    requires -1 <= l - r <= 1 && l >= -1 && r >= -1
    ensures Fib(l + 3) + Fib(r + 3) >= Fib(Max(l, r) + 4)
  {
    var h := Max(l, r) + 1;
    FibUp(l + 3, h + 1);
    FibUp(r + 3, h + 1);
    assert Fib(h + 3) == Fib(h + 2) + Fib(h + 1);
  }

  lemma {:induction false} BalancedParts(t: Tree)
    requires Balanced(t) && t.Node?
    ensures Balanced(t.left) && Balanced(t.right) && -1 <= H(t.left) - H(t.right) <= 1
  {
  }

  // Fib is monotone, here between neighbours.
  lemma {:induction false} FibUp(m: nat, n: nat)
    requires n <= m <= n + 1 && n >= 1
    ensures Fib(m) >= Fib(n)
  {
  }

  lemma {:induction false} NilOk()
    ensures Search(Nil) && Balanced(Nil) && Elements(Nil) == {}
  {
  }

  // The trees that main's loop can make.
  function InsAll(xs: seq<int>): Tree {
    if xs == [] then Nil else Ins(xs[|xs| - 1], InsAll(xs[..|xs| - 1]))
  }

  // Every tree made by insertions is a balanced search tree of the numbers inserted.
  lemma {:induction false} AllInserted(xs: seq<int>)
    ensures var t := InsAll(xs);
      Search(t) && Balanced(t) && (forall x :: x in Elements(t) <==> x in xs) && Size(t) >= Fib(H(t) + 3) - 1
  {
    hide Search, Balanced, Elements, Ins, H, Size, Fib;
    NilOk();
    var t := InsAll(xs);
    if xs != [] {
      var ys := xs[..|xs| - 1];
      AllInserted(ys);
      InsSearch(xs[|xs| - 1], InsAll(ys));
      InsBalanced(xs[|xs| - 1], InsAll(ys));
      assert xs == ys + [xs[|xs| - 1]];
    }
    EnoughElements(t);
  }
}
