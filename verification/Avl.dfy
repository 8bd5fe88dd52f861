// The AVL tree on mutable nodes: rotations reassign links and heights, Insert recurses and mutates.
module Avl {
  import opened Basics
  import opened AvlTree

  class AVLNode {
    var Element: int
    var Left: AVLNode?
    var Right: AVLNode?
    var Height: int
    ghost var repr: set<AVLNode>
    ghost var tree: Tree

    constructor (x: int)
      ensures Valid() && repr == {this} && tree == Node(Nil, x, Nil)
    {
      Element, Left, Right, Height := x, null, null, 0;
      repr, tree := {this}, Node(Nil, x, Nil);
    }

    // The nodes below this one form the tree it says; its own height may not be up to date.
    ghost predicate Linked()
      reads this, repr
      decreases repr, 0
    {
      && this in repr
      && (Left != null ==> Left in repr && Left.repr <= repr && this !in Left.repr && Left.Valid())
      && (Right != null ==> Right in repr && Right.repr <= repr && this !in Right.repr && Right.Valid())
      && (Left != null && Right != null ==> Left.repr !! Right.repr)
      && repr == {this} + ReprOf(Left) + ReprOf(Right)
      && tree == Node(TreeOf(Left), Element, TreeOf(Right))
    }

    ghost predicate Valid()
      reads this, repr
      decreases repr, 1
    {
      Linked() && Height == H(tree)
    }
  }

  ghost function ReprOf(t: AVLNode?): set<AVLNode>
    reads t
  {
    if t == null then {} else t.repr
  }

  ghost function TreeOf(t: AVLNode?): Tree
    reads t
  {
    if t == null then Nil else t.tree
  }

  ghost predicate ValidOf(t: AVLNode?)
    reads t, ReprOf(t)
  {
    t != null ==> t.Valid()
  }

  lemma {:induction false} Inside(t: AVLNode?)
    requires ValidOf(t)
    ensures t != null ==> t in t.repr && t.Linked() && t.Height == H(t.tree)
  {
    if t != null {
      assert t.Linked();
    }
  }

  // What Linked says, one level deep.
  lemma {:induction false} Below(n: AVLNode)
    requires n.Linked()
    ensures ValidOf(n.Left) && ValidOf(n.Right) && n !in ReprOf(n.Left) && n !in ReprOf(n.Right)
    ensures ReprOf(n.Left) !! ReprOf(n.Right) && n.repr == {n} + ReprOf(n.Left) + ReprOf(n.Right)
    ensures n.tree == Node(TreeOf(n.Left), n.Element, TreeOf(n.Right))
    ensures n.Left != null ==> n.Left in n.Left.repr && n.Left.Linked()
    ensures n.Right != null ==> n.Right in n.Right.repr && n.Right.Linked()
  {
    Inside(n.Left);
    Inside(n.Right);
  }

  lemma {:induction false} Fold(n: AVLNode)
    requires ValidOf(n.Left) && ValidOf(n.Right) && n !in ReprOf(n.Left) && n !in ReprOf(n.Right)
    requires ReprOf(n.Left) !! ReprOf(n.Right) && n.repr == {n} + ReprOf(n.Left) + ReprOf(n.Right)
    requires n.tree == Node(TreeOf(n.Left), n.Element, TreeOf(n.Right))
    ensures n.Linked() && (n.Height == H(n.tree) ==> n.Valid())
  {
    Inside(n.Left);
    Inside(n.Right);
  }

  // Height: stored heights are correct.
  method HeightOf(node: AVLNode?) returns (h: int)
    requires ValidOf(node)
    ensures h == H(TreeOf(node))
  {
    Inside(node);
    if node == null {
      return -1;
    }
    return node.Height;
  }

  // node->Height is brought up to date from the heights of the trees below, which have changed.
  method Update(node: AVLNode)
    requires ValidOf(node.Left) && ValidOf(node.Right) && node !in ReprOf(node.Left) && node !in ReprOf(node.Right)
    requires ReprOf(node.Left) !! ReprOf(node.Right)
    modifies node`Height, node`repr, node`tree
    ensures node.Valid() && node.repr == {node} + ReprOf(node.Left) + ReprOf(node.Right)
    ensures node.tree == Node(TreeOf(node.Left), node.Element, TreeOf(node.Right))
    ensures TreeOf(node.Left) == old(TreeOf(node.Left)) && TreeOf(node.Right) == old(TreeOf(node.Right))
    ensures ReprOf(node.Left) == old(ReprOf(node.Left)) && ReprOf(node.Right) == old(ReprOf(node.Right))
  {
    hide AVLNode.Valid, AVLNode.Linked, H;
    Inside(node.Left);
    Inside(node.Right);
    var l := HeightOf(node.Left);
    var r := HeightOf(node.Right);
    node.Height := Max(l, r) + 1;
    node.repr := {node} + ReprOf(node.Left) + ReprOf(node.Right);
    node.tree := Node(TreeOf(node.Left), node.Element, TreeOf(node.Right));
    HeightIs(node.tree);
    Fold(node);
  }

  lemma {:induction false} HeightIs(t: Tree)
    requires t.Node?
    ensures H(t) == Max(H(t.left), H(t.right)) + 1
  {
  }

  // The nodes of a rotated tree, outer subtree a, inner subtree b, are those of the tree before.
  lemma {:induction false} Regrouped(n: AVLNode, t: AVLNode, a: set<AVLNode>, b: set<AVLNode>, c: set<AVLNode>)
    requires n != t && n !in a && n !in b && n !in c && t !in a && t !in b && t !in c && a !! b && a !! c && b !! c
    ensures {t} + a + ({n} + b + c) == {n} + ({t} + a + b) + c && a !! {n} + b + c && t !in {n} + b + c
    ensures {t} + ({n} + c + b) + a == {n} + c + ({t} + b + a)
  {
  }

  method SingleRotateWithLeft(node: AVLNode) returns (tmp: AVLNode)
    requires node.Linked() && node.Left != null
    modifies node.repr
    ensures tmp.Valid() && tmp.tree == SingleLeft(old(node.tree)) && tmp.repr == old(node.repr)
  {
    hide AVLNode.Valid, AVLNode.Linked, H;
    tmp := node.Left;
    Below(node);
    Below(tmp);
    Regrouped(node, tmp, ReprOf(tmp.Left), ReprOf(tmp.Right), ReprOf(node.Right));
    Inside(tmp.Left);
    Inside(tmp.Right);
    node.Left := tmp.Right;
    tmp.Right := node;
    Update(node);
    Inside(node);
    Update(tmp);
  }

  method SingleRotateWithRight(node: AVLNode) returns (tmp: AVLNode)
    requires node.Linked() && node.Right != null
    modifies node.repr
    ensures tmp.Valid() && tmp.tree == SingleRight(old(node.tree)) && tmp.repr == old(node.repr)
  {
    hide AVLNode.Valid, AVLNode.Linked, H;
    tmp := node.Right;
    Below(node);
    Below(tmp);
    Regrouped(node, tmp, ReprOf(tmp.Right), ReprOf(tmp.Left), ReprOf(node.Left));
    Inside(tmp.Left);
    Inside(tmp.Right);
    node.Right := tmp.Left;
    tmp.Left := node;
    Update(node);
    Inside(node);
    Update(tmp);
  }

  method DoubleRotateWithLeft(node: AVLNode) returns (r: AVLNode)
    requires node.Linked() && node.Left != null && node.Left.Right != null
    modifies node.repr
    ensures r.Valid() && r.tree == DoubleLeft(old(node.tree)) && r.repr == old(node.repr)
  {
    hide AVLNode.Valid, AVLNode.Linked, H, SingleLeft, SingleRight;
    Below(node);
    Below(node.Left);
    Inside(node.Right);
    var tmp := SingleRotateWithRight(node.Left);
    Inside(tmp);
    RotatedNode(old(node.Left.tree));
    node.Left := tmp;
    node.tree := Node(tmp.tree, node.Element, TreeOf(node.Right));
    node.repr := {node} + tmp.repr + ReprOf(node.Right);
    Fold(node);
    r := SingleRotateWithLeft(node);
  }

  method DoubleRotateWithRight(node: AVLNode) returns (r: AVLNode)
    requires node.Linked() && node.Right != null && node.Right.Left != null
    modifies node.repr
    ensures r.Valid() && r.tree == DoubleRight(old(node.tree)) && r.repr == old(node.repr)
  {
    hide AVLNode.Valid, AVLNode.Linked, H, SingleLeft, SingleRight;
    Below(node);
    Below(node.Right);
    Inside(node.Left);
    var tmp := SingleRotateWithLeft(node.Right);
    Inside(tmp);
    RotatedNode(old(node.Right.tree));
    node.Right := tmp;
    node.tree := Node(TreeOf(node.Left), node.Element, tmp.tree);
    node.repr := {node} + ReprOf(node.Left) + tmp.repr;
    Fold(node);
    r := SingleRotateWithRight(node);
  }

  // Insert, after its recursive call on the left: rotate if need be, and bring the height up to date.
  method FixUpLeft(X: int, node: AVLNode) returns (r: AVLNode)
    requires node.Linked() && node.Left != null
    requires H(node.tree.left) - H(node.tree.right) == 2 && X >= node.tree.left.x ==> node.tree.left.right.Node?
    modifies node.repr
    ensures r.Valid() && r.tree == FixLeft(X, old(node.tree)) && r.repr == old(node.repr)
  {
    hide AVLNode.Valid, AVLNode.Linked, H, SingleLeft, DoubleLeft;
    Below(node);
    r := node;
    var l := HeightOf(node.Left);
    var h := HeightOf(node.Right);
    if l - h == 2 {
      Below(node.Left);
      if X < node.Left.Element {
        r := SingleRotateWithLeft(node);
      } else {
        r := DoubleRotateWithLeft(node);
      }
      Inside(r);
      Below(r);
    }
    Update(r);
  }

  method FixUpRight(X: int, node: AVLNode) returns (r: AVLNode)
    requires node.Linked() && node.Right != null
    requires H(node.tree.right) - H(node.tree.left) == 2 && X <= node.tree.right.x ==> node.tree.right.left.Node?
    modifies node.repr
    ensures r.Valid() && r.tree == FixRight(X, old(node.tree)) && r.repr == old(node.repr)
  {
    hide AVLNode.Valid, AVLNode.Linked, H, SingleRight, DoubleRight;
    Below(node);
    r := node;
    var h := HeightOf(node.Right);
    var l := HeightOf(node.Left);
    if h - l == 2 {
      Below(node.Right);
      if X > node.Right.Element {
        r := SingleRotateWithRight(node);
      } else {
        r := DoubleRotateWithRight(node);
      }
      Inside(r);
      Below(r);
    }
    Update(r);
  }

  // Insert: the tree with X added, in the old nodes and n, the only one that may be new; an element already
  // there is left alone.
  method Insert(X: int, T: AVLNode?) returns (r: AVLNode, ghost n: AVLNode)
    requires ValidOf(T) && Balanced(TreeOf(T))
    modifies ReprOf(T)
    ensures r.Valid() && r.tree == Ins(X, old(TreeOf(T))) && fresh(r.repr - old(ReprOf(T)))
    ensures old(ReprOf(T)) <= r.repr <= old(ReprOf(T)) + {n}
    decreases TreeOf(T)
  {
    hide AVLNode.Valid, AVLNode.Linked, H, FixLeft, FixRight;
    if T == null {
      r := new AVLNode(X);
      n := r;
      return;
    }
    Inside(T);
    Below(T);
    n := T;
    BalancedKids(T.tree);
    ghost var t := T.tree;
    if X < T.Element {
      var l;
      l, n := Insert(X, T.Left);
      GrownLeft(X, t);
      r := HangLeft(X, T, l);
    } else if X > T.Element {
      var l;
      l, n := Insert(X, T.Right);
      GrownRight(X, t);
      r := HangRight(X, T, l);
    } else {
      r := T;
    }
  }

  // T->Left is set to what the recursive call returned.
  method HangLeft(X: int, T: AVLNode, l: AVLNode) returns (r: AVLNode)
    requires l.Valid() && ValidOf(T.Right) && T !in l.repr && T !in ReprOf(T.Right) && l.repr !! ReprOf(T.Right)
    requires H(l.tree) - H(TreeOf(T.Right)) == 2 && l.tree.Node? && X >= l.tree.x ==> l.tree.right.Node?
    modifies {T} + l.repr + ReprOf(T.Right)
    ensures r.Valid() && r.tree == FixLeft(X, Node(old(l.tree), old(T.Element), old(TreeOf(T.Right))))
    ensures r.repr == {T} + old(l.repr) + old(ReprOf(T.Right))
  {
    hide AVLNode.Valid, AVLNode.Linked, H, FixLeft;
    Inside(l);
    Inside(T.Right);
    T.Left := l;
    T.tree := Node(l.tree, T.Element, TreeOf(T.Right));
    T.repr := {T} + l.repr + ReprOf(T.Right);
    Fold(T);
    r := FixUpLeft(X, T);
  }

  method HangRight(X: int, T: AVLNode, l: AVLNode) returns (r: AVLNode)
    requires l.Valid() && ValidOf(T.Left) && T !in l.repr && T !in ReprOf(T.Left) && l.repr !! ReprOf(T.Left)
    requires H(l.tree) - H(TreeOf(T.Left)) == 2 && l.tree.Node? && X <= l.tree.x ==> l.tree.left.Node?
    modifies {T} + l.repr + ReprOf(T.Left)
    ensures r.Valid() && r.tree == FixRight(X, Node(old(TreeOf(T.Left)), old(T.Element), old(l.tree)))
    ensures r.repr == {T} + old(l.repr) + old(ReprOf(T.Left))
  {
    hide AVLNode.Valid, AVLNode.Linked, H, FixRight;
    Inside(l);
    Inside(T.Left);
    T.Right := l;
    T.tree := Node(TreeOf(T.Left), T.Element, l.tree);
    T.repr := {T} + ReprOf(T.Left) + l.repr;
    Fold(T);
    r := FixUpRight(X, T);
  }

  // main's loop: the numbers of the file, one after the other.
  method InsertAll(nums: seq<int>) returns (myTree: AVLNode?)
    ensures ValidOf(myTree) && TreeOf(myTree) == InsAll(nums) && fresh(ReprOf(myTree))
  {
    hide AVLNode.Valid, AVLNode.Linked, Ins;
    myTree := null;
    var i := 0;
    while i < |nums|
      invariant i <= |nums| && ValidOf(myTree) && TreeOf(myTree) == InsAll(nums[..i]) && fresh(ReprOf(myTree))
      modifies ReprOf(myTree)
    {
      AllInserted(nums[..i]);
      assert nums[..i + 1][..i] == nums[..i];
      ghost var n;
      myTree, n := Insert(nums[i], myTree);
      i := i + 1;
    }
    assert nums[..i] == nums;
  }

  lemma {:induction false} BalancedKids(t: Tree)
    requires Balanced(t) && t.Node?
    ensures Balanced(t.left) && Balanced(t.right)
  {
  }

  // When a double rotation is called for, there is a grandchild to rotate about.
  lemma {:induction false} GrownLeft(X: int, t: Tree)
    requires Balanced(t) && t.Node? && X < t.x
    ensures var l := Ins(X, t.left);
      Ins(X, t) == FixLeft(X, Node(l, t.x, t.right)) && l.Node? &&
        (H(l) - H(t.right) == 2 && X >= l.x ==> l.right.Node?)
  {
    InsBalanced(X, t.left);
  }

  lemma {:induction false} GrownRight(X: int, t: Tree)
    requires Balanced(t) && t.Node? && X > t.x
    ensures var l := Ins(X, t.right);
      Ins(X, t) == FixRight(X, Node(t.left, t.x, l)) && l.Node? && (H(l) - H(t.left) == 2 && X <= l.x ==> l.left.Node?)
  {
    InsBalanced(X, t.right);
  }

  lemma {:induction false} RotatedNode(t: Tree)
    ensures t.Node? ==> SingleLeft(t).Node? && SingleRight(t).Node?
  {
  }
}
