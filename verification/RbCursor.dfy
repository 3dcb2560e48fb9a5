/** Neighbours of a node in key order, and the list cursor that walks by them. */
module RbCursor {
  import opened RbShape
  import opened RbBalance
  import opened RbHeap

  lemma ChildLooks(tree: RbTree, p: Path, t: Tree, x: Node)
    requires tree.At(p, t, x) && t.Fork?
    ensures x == t.node && x in tree.repr && tree.nil !in tree.repr
    ensures x.up == ParentOf(p, tree.nil) && x.colour == t.colour && x.key == t.key
    ensures x.left == tree.nil <==> t.left.Leaf?
    ensures x.right == tree.nil <==> t.right.Leaf?
  {
    tree.Reads(p, t, x);
    tree.ZipLeft(p, t, x);
    tree.Reads(LeftOf(t, p), t.left, x.left);
    tree.ZipRight(p, t, x);
    tree.Reads(RightOf(t, p), t.right, x.right);
  }

  ghost predicate AllOn(side: Side, q: Path) {
    q.Down? ==> q.side == side && AllOn(side, q.rest)
  }

  lemma {:induction false} AllLeftBefore(q: Path)
    requires AllOn(Left, q)
    ensures Before(q) == []
  {
    if q.Down? {
      AllLeftBefore(q.rest);
    }
  }

  lemma LeftmostKeys(q: Path, u: Tree)
    requires AllOn(Left, q) && u.Fork? && u.left.Leaf?
    ensures Keys(Plug(q, u)) == [u.key] + Keys(Plug(q, u.right))
  {
    hide Keys, After, Before, Plug, AllKeys;
    AllLeftBefore(q);
    PlugKeys(q, u);
    PlugKeys(q, u.right);
    LeafFirst(u);
    NothingBefore(q, u);
    NothingBefore(q, u.right);
    assert ([u.key] + Keys(u.right)) + After(q) == [u.key] + (Keys(u.right) + After(q));
  }

  lemma NothingBefore(q: Path, u: Tree)
    requires Before(q) == []
    ensures AllKeys(q, u) == Keys(u) + After(q)
  {
  }

  lemma LeafFirst(u: Tree)
    requires u.Fork? && u.left.Leaf?
    ensures Keys(u) == [u.key] + Keys(u.right)
  {
  }

  lemma {:induction false} AppendBefore(q: Path, p: Path)
    ensures Before(Append(q, p)) == Before(p) + Before(q)
  {
    if q.Down? {
      AppendBefore(q.rest, p);
    }
  }

  /** The node with the smallest key below x. */
  method Leftmost(tree: RbTree, x: Node, ghost p: Path, ghost t: Tree) returns (y: Node, ghost q: Path, ghost u: Tree)
    requires tree.At(p, t, x) && t.Fork?
    ensures tree.At(Append(q, p), u, y) && Plug(q, u) == t && AllOn(Left, q) && u.Fork? && u.left.Leaf?
  {
    y := x;
    q, u := Top, t;
    ChildLooks(tree, p, t, x);
    while y.left != tree.nil
      invariant tree.At(Append(q, p), u, y) && Plug(q, u) == t && AllOn(Left, q) && u.Fork?
      invariant y.left == tree.nil <==> u.left.Leaf?
      decreases u
    {
      tree.ZipLeft(Append(q, p), u, y);
      y := y.left;
      q, u := LeftOf(u, q), u.left;
      ChildLooks(tree, Append(q, p), u, y);
    }
  }

  /** The node with the largest key below x. */
  method Rightmost(tree: RbTree, x: Node, ghost p: Path, ghost t: Tree) returns (y: Node, ghost q: Path, ghost u: Tree)
    requires tree.At(p, t, x) && t.Fork?
    ensures tree.At(Append(q, p), u, y) && Plug(q, u) == t && AllOn(Right, q) && u.Fork? && u.right.Leaf?
  {
    y := x;
    q, u := Top, t;
    ChildLooks(tree, p, t, x);
    while y.right != tree.nil
      invariant tree.At(Append(q, p), u, y) && Plug(q, u) == t && AllOn(Right, q) && u.Fork?
      invariant y.right == tree.nil <==> u.right.Leaf?
      decreases u
    {
      tree.ZipRight(Append(q, p), u, y);
      y := y.right;
      q, u := RightOf(u, q), u.right;
      ChildLooks(tree, Append(q, p), u, y);
    }
  }

  /** The focus (p', t') at y is the node with place i in the shape. */
  ghost predicate Holds(tree: RbTree, shape: Tree, i: int, p: Path, t: Tree, y: Node)
    reads tree`root, tree`repr, tree.repr
  {
    && tree.At(p, t, y) && t.Fork? && Plug(p, t) == shape && Place(p, t) == i
    && 0 <= i < |InOrder(shape)| == |Keys(shape)| && y == InOrder(shape)[i] && y.key == t.key == Keys(shape)[i]
  }

  lemma FocusHolds(tree: RbTree, p: Path, t: Tree, y: Node)
    requires tree.At(p, t, y) && t.Fork?
    ensures Holds(tree, Plug(p, t), Place(p, t), p, t, y)
  {
    tree.Reads(p, t, y);
    PlaceInOrder(p, t);
    KeyAtPlace(p, t);
    InOrderLength(Plug(p, t));
  }

  lemma PathLooks(tree: RbTree, p: Path, t: Tree, x: Node)
    requires tree.At(p, t, x) && t.Fork?
    ensures x.up == ParentOf(p, tree.nil) && (p.Top? <==> x.up == tree.nil)
    ensures p.Down? ==> (x.up.right == x <==> p.side == Right) && (x.up.left == x <==> p.side == Left)
    ensures p.Down? ==> tree.At(p.rest, Hook(p, t), x.up)
    ensures |Before(p)| + |Keys(t)| + |After(p)| == |Keys(Plug(p, t))|
    ensures p.Down? ==> |Keys(Hook(p, t))| == |Keys(t)| + 1 + |Keys(p.sibling)|
  {
    tree.Reads(p, t, x);
    PlugKeys(p, t);
    if p.Down? {
      tree.ZipUp(p, t, x);
    }
  }

  lemma LeftmostPlace(q: Path, p: Path, t: Tree, u: Tree)
    requires t.Fork? && AllOn(Left, q) && u.Fork? && u.left.Leaf? && Plug(q, u) == t.right
    ensures Plug(Append(q, RightOf(t, p)), u) == Plug(p, t) && Place(Append(q, RightOf(t, p)), u) == Place(p, t) + 1
  {
    PlugAppend(q, RightOf(t, p), u);
    AppendBefore(q, RightOf(t, p));
    AllLeftBefore(q);
  }

  lemma RightmostPlace(q: Path, p: Path, t: Tree, u: Tree)
    requires t.Fork? && AllOn(Right, q) && u.Fork? && u.right.Leaf? && Plug(q, u) == t.left
    ensures Plug(Append(q, LeftOf(t, p)), u) == Plug(p, t) && Place(Append(q, LeftOf(t, p)), u) == Place(p, t) - 1
  {
    PlugAppend(q, LeftOf(t, p), u);
    AppendBefore(q, LeftOf(t, p));
    AllRightAfter(q);
    PlugKeys(q, u);
    assert |Keys(u)| == |Keys(u.left)| + 1;
    assert |Keys(t.left)| == |Before(q)| + |Keys(u)|;
  }

  lemma {:induction false} AllRightAfter(q: Path)
    requires AllOn(Right, q)
    ensures After(q) == []
  {
    if q.Down? {
      AllRightAfter(q.rest);
    }
  }

  /** The node with the next key, or the sentinel after the last one. q leads from the right child
      of x down to its leftmost descendant. */
  method Successor(tree: RbTree, x: Node, ghost p: Path, ghost t: Tree)
    returns (y: Node, ghost p': Path, ghost t': Tree, ghost q: Path)
    requires tree.At(p, t, x) && t.Fork?
    ensures var s, i := Plug(p, t), Place(p, t) + 1;
            if i < |Keys(s)| then Holds(tree, s, i, p', t', y) else y == tree.nil
    ensures var s, i := Plug(p, t), Place(p, t) + 1;
            i < |Keys(s)| ==> i < |InOrder(s)| && y == InOrder(s)[i] && y.key == Keys(s)[i]
    ensures t.right.Fork? ==>
              p' == Append(q, RightOf(t, p)) && AllOn(Left, q) && t'.Fork? && t'.left.Leaf? && Plug(q, t') == t.right
                  && tree.At(p', t', y)
  {
    hide RbTree.At, Keys, InOrder, Plug, Before, After;
    ChildLooks(tree, p, t, x);
    ghost var shape, i := Plug(p, t), Place(p, t) + 1;
    q := Top;
    if x.right != tree.nil {
      tree.ZipRight(p, t, x);
      y, q, t' := Leftmost(tree, x.right, RightOf(t, p), t.right);
      p' := Append(q, RightOf(t, p));
      LeftmostPlace(q, p, t, t');
      FocusHolds(tree, p', t', y);
    } else {
      var z := x;
      y := x.up;
      p', t' := p, t;
      UpStarts(p, t);
      PathLooks(tree, p', t', z);
      while y != tree.nil && z == y.right
        invariant tree.At(p', t', z) && t'.Fork? && Plug(p', t') == shape && y == z.up
        invariant |Before(p')| + |Keys(t')| == i
        decreases p'
      {
        PathLooks(tree, p', t', z);
        UpFromRight(p', t');
        z := y;
        p', t' := p'.rest, Hook(p', t');
        PathLooks(tree, p', t', z);
        y := y.up;
      }
      PathLooks(tree, p', t', z);
      if p'.Down? {
        UpFromLeft(p', t');
        p', t' := p'.rest, Hook(p', t');
        FocusHolds(tree, p', t', y);
      } else {
        TopBounds(p', t');
      }
    }
  }

  lemma UpStarts(p: Path, t: Tree)
    requires t.Fork?
    ensures t.right.Leaf? ==> |Before(p)| + |Keys(t)| == Place(p, t) + 1
    ensures t.left.Leaf? ==> |Before(p)| == Place(p, t)
  {
  }

  lemma UpFromRight(p: Path, t: Tree)
    requires p.Down? && p.side == Right
    ensures Plug(p.rest, Hook(p, t)) == Plug(p, t) && |Before(p.rest)| + |Keys(Hook(p, t))| == |Before(p)| + |Keys(t)|
    ensures Place(p.rest, Hook(p, t)) == |Before(p)| - 1
  {
  }

  lemma UpFromLeft(p: Path, t: Tree)
    requires p.Down? && p.side == Left
    ensures Plug(p.rest, Hook(p, t)) == Plug(p, t) && |Before(p.rest)| == |Before(p)|
    ensures Place(p.rest, Hook(p, t)) == |Before(p)| + |Keys(t)|
  {
  }

  lemma TopBounds(p: Path, t: Tree)
    requires p.Top?
    ensures |Before(p)| == 0 && |Keys(t)| == |Keys(Plug(p, t))|
  {
  }

  /** The node with the previous key, or the sentinel before the first one. */
  method Predecessor(tree: RbTree, x: Node, ghost p: Path, ghost t: Tree)
    returns (y: Node, ghost p': Path, ghost t': Tree)
    requires tree.At(p, t, x) && t.Fork?
    ensures var s, i := Plug(p, t), Place(p, t) - 1;
            if i >= 0 then Holds(tree, s, i, p', t', y) else y == tree.nil
    ensures var s, i := Plug(p, t), Place(p, t) - 1;
            i >= 0 ==> i < |InOrder(s)| && i < |Keys(s)| && y == InOrder(s)[i] && y.key == Keys(s)[i]
  {
    hide RbTree.At, Keys, InOrder, Plug, Before, After;
    ChildLooks(tree, p, t, x);
    ghost var shape, i := Plug(p, t), Place(p, t);
    if x.left != tree.nil {
      ghost var q;
      tree.ZipLeft(p, t, x);
      y, q, t' := Rightmost(tree, x.left, LeftOf(t, p), t.left);
      p' := Append(q, LeftOf(t, p));
      RightmostPlace(q, p, t, t');
      FocusHolds(tree, p', t', y);
    } else {
      var z := x;
      y := x.up;
      p', t' := p, t;
      UpStarts(p, t);
      PathLooks(tree, p', t', z);
      while y != tree.nil && z == y.left
        invariant tree.At(p', t', z) && t'.Fork? && Plug(p', t') == shape && y == z.up
        invariant |Before(p')| == i
        decreases p'
      {
        PathLooks(tree, p', t', z);
        UpFromLeft(p', t');
        z := y;
        p', t' := p'.rest, Hook(p', t');
        PathLooks(tree, p', t', z);
        y := y.up;
      }
      PathLooks(tree, p', t', z);
      if p'.Down? {
        UpFromRight(p', t');
        p', t' := p'.rest, Hook(p', t');
        FocusHolds(tree, p', t', y);
      } else {
        TopBounds(p', t');
      }
    }
  }

  /** Each of the two undoes the other, wherever there is a neighbour. */
  method ThereAndBack(tree: RbTree, x: Node, ghost p: Path, ghost t: Tree) returns (afterNext: Node,
      afterPrevious: Node)
    requires tree.At(p, t, x) && t.Fork?
    ensures afterNext == (if Place(p, t) + 1 < |Keys(Plug(p, t))| then x else tree.nil)
    ensures afterPrevious == (if Place(p, t) > 0 then x else tree.nil)
  {
    hide RbTree.At, Keys, InOrder, Plug, Place;
    FocusHolds(tree, p, t, x);
    tree.Reads(p, t, x);
    var next;
    ghost var p', t', q;
    next, p', t', q := Successor(tree, x, p, t);
    afterNext := next;
    if Place(p, t) + 1 < |Keys(Plug(p, t))| {
      tree.Reads(p', t', next);
    }
    if next != tree.nil {
      ghost var p'', t'';
      afterNext, p'', t'' := Predecessor(tree, next, p', t');
    }
    var previous;
    previous, p', t' := Predecessor(tree, x, p, t);
    afterPrevious := previous;
    if Place(p, t) > 0 {
      tree.Reads(p', t', previous);
    }
    if previous != tree.nil {
      ghost var p'', t'', q';
      afterPrevious, p'', t'', q' := Successor(tree, previous, p', t');
    }
  }
}
