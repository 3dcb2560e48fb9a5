/** Removal of a node and the repair loop that follows. */
module RbDelete {
  import opened Watches
  import opened RbShape
  import opened RbBalance
  import opened RbHeap
  import opened RbCursor

  /** The repair is over once the focus is the root or red; until then each round lifts the focus or ends it. */
  ghost function Effort(p: Path, t: Tree): nat {
    if MissingBlack(p, t) then Depth(p) else 0
  }

  /** The sentinel as a focus has no field in the tree, so its up link is followed separately. */
  lemma LeafUp(tree: RbTree, p: Path, t: Tree, x: Node)
    requires tree.At(p, t, x) && (t.Leaf? ==> x.up == ParentOf(p, tree.nil))
    ensures x.up == ParentOf(p, tree.nil)
  {
    tree.Reads(p, t, x);
  }

  /** What a round of the repair sees of the sibling. */
  lemma SiblingLooks(tree: RbTree, p: Path, t: Tree, x: Node)
    requires tree.nil.colour == Black && tree.At(p, t, x) && x.up == ParentOf(p, tree.nil)
    requires Deleting(p, t) && MissingBlack(p, t)
    ensures tree.nil !in tree.repr
    ensures p.sibling.Fork?
    ensures var w := p.sibling.node;
            && w in tree.repr && w == (if p.side == Left then x.up.right else x.up.left)
            && w.colour == p.sibling.colour && w.left.colour == Shade(p.sibling.left)
            && w.right.colour == Shade(p.sibling.right)
  {
    SiblingForks(p, t);
    tree.Reads(p, t, x);
    tree.ToSibling(p, t, x);
    var q, s := Across(p, t), p.sibling;
    tree.Reads(q, s, s.node);
    tree.ZipLeft(q, s, s.node);
    tree.Reads(LeftOf(s, q), s.left, s.node.left);
    tree.ZipRight(q, s, s.node);
    tree.Reads(RightOf(s, q), s.right, s.node.right);
  }

  /** A black sibling w with black children turns red, and the parent is considered next. */
  method Merge(tree: RbTree, x: Node, w: Node, ghost p: Path, ghost t: Tree) returns (x': Node, ghost t': Tree)
    requires tree.At(p, t, x) && p.Down? && p.sibling.Fork? && w == p.sibling.node && x.up == p.node
    modifies w`colour
    ensures t' == Merged(p, t) && tree.At(p.rest, t', x')
  {
    tree.Reads(p, t, x);
    hide RbTree.At;
    tree.PaintSibling(w, Red, p, t);
    x' := x.up;
    t' := Merged(p, t);
    tree.ZipUp(p.(sibling := p.sibling.(colour := Red)), t, x);
  }

  lemma MergedUp(tree: RbTree, p: Path, t: Tree, x: Node)
    requires p.Down? && p.sibling.Fork? && tree.At(p.rest, Merged(p, t), x)
    ensures x.up == ParentOf(p.rest, tree.nil)
    ensures Shade(Merged(p, t)) == p.colour
  {
    tree.Reads(p.rest, Merged(p, t), x);
  }

  /** The whole tree becomes the focus, which ends the repair. */
  method AtTop(tree: RbTree, ghost p: Path, ghost t: Tree, ghost w: Node) returns (x: Node, ghost p': Path,
      ghost t': Tree)
    requires t.Fork? && tree.At(p, t, w) && RedBlack(Plug(p, t))
    ensures tree.At(p', t', x) && Deleting(p', t') && AllKeys(p', t') == AllKeys(p, t)
    ensures p'.Top? && x.up == ParentOf(p', tree.nil)
  {
    x := tree.root;
    p', t' := Top, Plug(p, t);
    tree.Reads(p, t, w);
    tree.ZipAll(p, Top, t);
    AppendTop(p);
    tree.Reads(Top, t', RootOf(t', tree.nil));
    PlugForks(p, t);
    PlugKeys(p, t);
    assert AllKeys(Top, t') == Keys(t');
  }

  /** A red sibling w: it turns black, the parent red, and w is rotated above the parent. */
  method LowerLeft(tree: RbTree, x: Node, w: Node, ghost p: Path, ghost t: Tree)
    requires tree.At(p, t, x) && p.Down? && p.side == Left && p.sibling.Fork? && w == p.sibling.node
    requires x.up == ParentOf(p, tree.nil)
    modifies tree`root, tree`rotations, tree.repr`left, tree.repr`right, tree.repr`up, tree.repr`colour
    ensures tree.At(LoweredPath(p), t, x) && tree.rotations == old(tree.rotations) + 1
    ensures t.Leaf? ==> x.up == old(x.up)
  {
    tree.Reads(p, t, x);
    hide RbTree.At;
    ghost var u := x.up;
    tree.PaintSibling(w, Black, p, t);
    ghost var p1 := p.(sibling := p.sibling.(colour := Black));
    tree.PaintParent(x.up, Red, p1, t);
    ghost var p2 := p1.(colour := Red);
    tree.ZipUp(p2, t, x);
    tree.LeftRotate(x.up, p.rest, Hook(p2, t));
    ghost var v := RotatedLeft(Hook(p2, t));
    tree.ZipLeft(p.rest, v, w);
    tree.Reads(p.rest, v, w);
    tree.ZipLeft(LeftOf(v, p.rest), v.left, u);
    tree.Reads(LeftOf(v, p.rest), v.left, u);
  }

  /** A black sibling w with a red inner child: the inner child turns black and is rotated above w, which turns red. */
  method TurnLeft(tree: RbTree, x: Node, w: Node, ghost p: Path, ghost t: Tree)
    requires tree.At(p, t, x) && p.Down? && p.side == Left && p.sibling.Fork? && w == p.sibling.node
             && p.sibling.left.Fork?
    modifies tree`root, tree`rotations, tree.repr`left, tree.repr`right, tree.repr`up, tree.repr`colour
    ensures tree.At(p.(sibling := TurnedSibling(Left, p.sibling)), t, x) && tree.rotations == old(tree.rotations) + 1
    ensures t.Leaf? ==> x.up == old(x.up)
  {
    tree.Reads(p, t, x);
    tree.ToSibling(p, t, x);
    ghost var q, s := Across(p, t), p.sibling;
    tree.Reads(q, s, w);
    tree.ZipLeft(q, s, w);
    tree.Reads(LeftOf(s, q), s.left, w.left);
    hide RbTree.At;
    tree.Paint(w.left, Black, LeftOf(s, q), s.left);
    ghost var s1 := s.(left := s.left.(colour := Black));
    tree.ZipUp(LeftOf(s, q), s1.left, w.left);
    tree.Paint(w, Red, q, s1);
    ghost var s2 := s1.(colour := Red);
    tree.RightRotate(w, q, s2);
    tree.ToSibling(q, RotatedRight(s2), s.left.node);
  }

  /** A black sibling w with a red outer child: w takes the parent's colour, parent and outer child
      turn black, and w is rotated above the parent. */
  method SettleLeft(tree: RbTree, x: Node, w: Node, ghost p: Path, ghost t: Tree)
    requires tree.At(p, t, x) && p.Down? && p.side == Left && p.sibling.Fork? && w == p.sibling.node
             && p.sibling.right.Fork?
    requires x.up == ParentOf(p, tree.nil)
    modifies tree`root, tree`rotations, tree.repr`left, tree.repr`right, tree.repr`up, tree.repr`colour
    ensures tree.At(p.rest, Settled(p, t), w) && tree.rotations == old(tree.rotations) + 1
  {
    tree.Reads(p, t, x);
    tree.ToSibling(p, t, x);
    ghost var s := p.sibling;
    tree.Reads(Across(p, t), s, w);
    hide RbTree.At;
    tree.PaintSibling(w, x.up.colour, p, t);
    ghost var s1 := s.(colour := p.colour);
    ghost var p1 := p.(sibling := s1);
    tree.PaintParent(x.up, Black, p1, t);
    ghost var p2 := p1.(colour := Black);
    ghost var q := Across(p2, t);
    tree.ToSibling(p2, t, x);
    tree.ZipRight(q, s1, w);
    tree.Paint(w.right, Black, RightOf(s1, q), s1.right);
    ghost var s2 := s1.(right := s1.right.(colour := Black));
    tree.ZipUp(RightOf(s1, q), s2.right, w.right);
    tree.ToSibling(q, s2, w);
    ghost var p3 := p2.(sibling := s2);
    tree.ZipUp(p3, t, x);
    tree.LeftRotate(x.up, p.rest, Hook(p3, t));
  }

  /** One round of the repair for a focus that hangs on the left of its parent. */
  method RefillLeft(tree: RbTree, x: Node, ghost p: Path, ghost t: Tree) returns (x': Node, ghost p': Path,
      ghost t': Tree)
    requires tree.nil.colour == Black && tree.At(p, t, x) && x.up == ParentOf(p, tree.nil)
    requires Deleting(p, t) && MissingBlack(p, t) && p.side == Left
    modifies tree`root, tree`rotations, tree.repr`left, tree.repr`right, tree.repr`up, tree.repr`colour
    ensures tree.At(p', t', x') && Deleting(p', t') && AllKeys(p', t') == AllKeys(p, t)
    ensures x'.up == ParentOf(p', tree.nil)
    ensures Effort(p', t') < Effort(p, t)
    ensures tree.rotations == old(tree.rotations)
            || (tree.rotations <= old(tree.rotations) + 3 && !MissingBlack(p', t'))
  {
    hide RbTree.At, Deleting, AllKeys;
    x', p', t' := x, p, t;
    SiblingLooks(tree, p, t, x);
    var w := x.up.right;
    if w.colour == Red {
      LowerKeeps(p, t);
      LowerKeepsKeys(p, t);
      LowerLeft(tree, x, w, p, t);
      p' := LoweredPath(p);
      LeafUp(tree, p', t, x);
      SiblingLooks(tree, p', t, x);
      w := x.up.right;
    }
    if w.left.colour == Black && w.right.colour == Black {
      MergeKeeps(p', t);
      x', t' := Merge(tree, x, w, p', t);
      MergedUp(tree, p', t, x');
      p' := p'.rest;
    } else {
      if w.right.colour == Black {
        TurnKeeps(p', t);
        TurnKeepsKeys(p', t);
        TurnLeft(tree, x, w, p', t);
        p' := p'.(sibling := TurnedSibling(Left, p'.sibling));
        LeafUp(tree, p', t, x);
        SiblingLooks(tree, p', t, x);
        w := x.up.right;
      }
      SettleKeeps(p', t);
      SettleKeepsKeys(p', t);
      SettleLeft(tree, x, w, p', t);
      x', p', t' := AtTop(tree, p'.rest, Settled(p', t), w);
    }
  }

  /** A red sibling w: it turns black, the parent red, and w is rotated above the parent. */
  method LowerRight(tree: RbTree, x: Node, w: Node, ghost p: Path, ghost t: Tree)
    requires tree.At(p, t, x) && p.Down? && p.side == Right && p.sibling.Fork? && w == p.sibling.node
    requires x.up == ParentOf(p, tree.nil)
    modifies tree`root, tree`rotations, tree.repr`left, tree.repr`right, tree.repr`up, tree.repr`colour
    ensures tree.At(LoweredPath(p), t, x) && tree.rotations == old(tree.rotations) + 1
    ensures t.Leaf? ==> x.up == old(x.up)
  {
    tree.Reads(p, t, x);
    hide RbTree.At;
    ghost var u := x.up;
    tree.PaintSibling(w, Black, p, t);
    ghost var p1 := p.(sibling := p.sibling.(colour := Black));
    tree.PaintParent(x.up, Red, p1, t);
    ghost var p2 := p1.(colour := Red);
    tree.ZipUp(p2, t, x);
    tree.RightRotate(x.up, p.rest, Hook(p2, t));
    ghost var v := RotatedRight(Hook(p2, t));
    tree.ZipRight(p.rest, v, w);
    tree.Reads(p.rest, v, w);
    tree.ZipRight(RightOf(v, p.rest), v.right, u);
    tree.Reads(RightOf(v, p.rest), v.right, u);
  }

  /** A black sibling w with a red inner child: the inner child turns black and is rotated above w, which turns red. */
  method TurnRight(tree: RbTree, x: Node, w: Node, ghost p: Path, ghost t: Tree)
    requires tree.At(p, t, x) && p.Down? && p.side == Right && p.sibling.Fork? && w == p.sibling.node
             && p.sibling.right.Fork?
    modifies tree`root, tree`rotations, tree.repr`left, tree.repr`right, tree.repr`up, tree.repr`colour
    ensures tree.At(p.(sibling := TurnedSibling(Right, p.sibling)), t, x) && tree.rotations == old(tree.rotations) + 1
    ensures t.Leaf? ==> x.up == old(x.up)
  {
    tree.Reads(p, t, x);
    tree.ToSibling(p, t, x);
    ghost var q, s := Across(p, t), p.sibling;
    tree.Reads(q, s, w);
    tree.ZipRight(q, s, w);
    tree.Reads(RightOf(s, q), s.right, w.right);
    hide RbTree.At;
    tree.Paint(w.right, Black, RightOf(s, q), s.right);
    ghost var s1 := s.(right := s.right.(colour := Black));
    tree.ZipUp(RightOf(s, q), s1.right, w.right);
    tree.Paint(w, Red, q, s1);
    ghost var s2 := s1.(colour := Red);
    tree.LeftRotate(w, q, s2);
    tree.ToSibling(q, RotatedLeft(s2), s.right.node);
  }

  /** A black sibling w with a red outer child: w takes the parent's colour, parent and outer child
      turn black, and w is rotated above the parent. */
  method SettleRight(tree: RbTree, x: Node, w: Node, ghost p: Path, ghost t: Tree)
    requires tree.At(p, t, x) && p.Down? && p.side == Right && p.sibling.Fork? && w == p.sibling.node
             && p.sibling.left.Fork?
    requires x.up == ParentOf(p, tree.nil)
    modifies tree`root, tree`rotations, tree.repr`left, tree.repr`right, tree.repr`up, tree.repr`colour
    ensures tree.At(p.rest, Settled(p, t), w) && tree.rotations == old(tree.rotations) + 1
  {
    tree.Reads(p, t, x);
    tree.ToSibling(p, t, x);
    ghost var s := p.sibling;
    tree.Reads(Across(p, t), s, w);
    hide RbTree.At;
    tree.PaintSibling(w, x.up.colour, p, t);
    ghost var s1 := s.(colour := p.colour);
    ghost var p1 := p.(sibling := s1);
    tree.PaintParent(x.up, Black, p1, t);
    ghost var p2 := p1.(colour := Black);
    ghost var q := Across(p2, t);
    tree.ToSibling(p2, t, x);
    tree.ZipLeft(q, s1, w);
    tree.Paint(w.left, Black, LeftOf(s1, q), s1.left);
    ghost var s2 := s1.(left := s1.left.(colour := Black));
    tree.ZipUp(LeftOf(s1, q), s2.left, w.left);
    tree.ToSibling(q, s2, w);
    ghost var p3 := p2.(sibling := s2);
    tree.ZipUp(p3, t, x);
    tree.RightRotate(x.up, p.rest, Hook(p3, t));
  }

  /** One round of the repair for a focus that hangs on the right of its parent. */
  method RefillRight(tree: RbTree, x: Node, ghost p: Path, ghost t: Tree) returns (x': Node, ghost p': Path,
      ghost t': Tree)
    requires tree.nil.colour == Black && tree.At(p, t, x) && x.up == ParentOf(p, tree.nil)
    requires Deleting(p, t) && MissingBlack(p, t) && p.side == Right
    modifies tree`root, tree`rotations, tree.repr`left, tree.repr`right, tree.repr`up, tree.repr`colour
    ensures tree.At(p', t', x') && Deleting(p', t') && AllKeys(p', t') == AllKeys(p, t)
    ensures x'.up == ParentOf(p', tree.nil)
    ensures Effort(p', t') < Effort(p, t)
    ensures tree.rotations == old(tree.rotations)
            || (tree.rotations <= old(tree.rotations) + 3 && !MissingBlack(p', t'))
  {
    hide RbTree.At, Deleting, AllKeys;
    x', p', t' := x, p, t;
    SiblingLooks(tree, p, t, x);
    var w := x.up.left;
    if w.colour == Red {
      LowerKeeps(p, t);
      LowerKeepsKeys(p, t);
      LowerRight(tree, x, w, p, t);
      p' := LoweredPath(p);
      LeafUp(tree, p', t, x);
      SiblingLooks(tree, p', t, x);
      w := x.up.left;
    }
    if w.left.colour == Black && w.right.colour == Black {
      MergeKeeps(p', t);
      x', t' := Merge(tree, x, w, p', t);
      MergedUp(tree, p', t, x');
      p' := p'.rest;
    } else {
      if w.left.colour == Black {
        TurnKeeps(p', t);
        TurnKeepsKeys(p', t);
        TurnRight(tree, x, w, p', t);
        p' := p'.(sibling := TurnedSibling(Right, p'.sibling));
        LeafUp(tree, p', t, x);
        SiblingLooks(tree, p', t, x);
        w := x.up.left;
      }
      SettleKeeps(p', t);
      SettleKeepsKeys(p', t);
      SettleRight(tree, x, w, p', t);
      x', p', t' := AtTop(tree, p'.rest, Settled(p', t), w);
    }
  }

  /** What the loop tests see. Even when x is the sentinel it is told apart from its sibling, for
      the sibling is then a real node. */
  lemma RefillLooks(tree: RbTree, p: Path, t: Tree, x: Node)
    requires tree.nil.colour == Black && tree.At(p, t, x) && x.up == ParentOf(p, tree.nil) && Deleting(p, t)
    ensures tree.nil !in tree.repr
    ensures x == tree.root <==> p.Top?
    ensures x.colour == Shade(t)
    ensures MissingBlack(p, t) ==> (x == x.up.left <==> p.side == Left)
  {
    tree.Reads(p, t, x);
    if MissingBlack(p, t) {
      SiblingForks(p, t);
    }
  }

  /** Restores the colour rules after a black node was taken out above x. */
  method RepairDeleted(tree: RbTree, x0: Node, ghost p0: Path, ghost t0: Tree) returns (ghost u: Tree)
    requires tree.nil.colour == Black && tree.At(p0, t0, x0) && x0.up == ParentOf(p0, tree.nil) && Deleting(p0, t0)
    modifies tree`root, tree`rotations, tree.repr`left, tree.repr`right, tree.repr`up, tree.repr`colour, tree.nil`colour
    ensures tree.At(Top, u, tree.root) && RedBlack(u) && Keys(u) == AllKeys(p0, t0)
    ensures tree.rotations <= old(tree.rotations) + 3 && tree.nil.colour == Black
  {
    hide RbTree.At, Deleting, AllKeys, RedBlack, Keys;
    var x := x0;
    ghost var p, t := p0, t0;
    RefillLooks(tree, p, t, x);
    while x != tree.root && x.colour == Black
      invariant tree.nil.colour == Black && tree.nil !in tree.repr
      invariant tree.At(p, t, x) && x.up == ParentOf(p, tree.nil)
      invariant Deleting(p, t) && AllKeys(p, t) == AllKeys(p0, t0)
      invariant x == tree.root <==> p.Top?
      invariant x.colour == Shade(t)
      invariant tree.rotations <= old(tree.rotations) + if MissingBlack(p, t) then 0 else 3
      decreases Effort(p, t)
    {
      RefillLooks(tree, p, t, x);
      if x == x.up.left {
        x, p, t := RefillLeft(tree, x, p, t);
      } else {
        x, p, t := RefillRight(tree, x, p, t);
      }
      RefillLooks(tree, p, t, x);
    }
    u := Blacken(tree, x, p, t);
  }

  /** The last step of the repair; on an empty tree it paints the sentinel, which is black already. */
  method Blacken(tree: RbTree, x: Node, ghost p: Path, ghost t: Tree) returns (ghost u: Tree)
    requires tree.nil.colour == Black && tree.At(p, t, x) && Deleting(p, t) && !MissingBlack(p, t)
    modifies tree.repr`colour, tree.nil`colour
    ensures tree.At(Top, u, tree.root) && RedBlack(u) && Keys(u) == AllKeys(p, t)
    ensures tree.nil.colour == Black
  {
    tree.Reads(p, t, x);
    DoneDeleting(p, t);
    BlackenedKeys(p, t);
    u := Plug(p, Blackened(t));
    PlugKeys(p, Blackened(t));
    AppendTop(p);
    assert tree.nil !in tree.repr;
    hide RbTree.At, Deleting, AllKeys, RedBlack, Keys;
    if x == tree.nil {
      x.colour := Black;
    } else {
      tree.Paint(x, Black, p, t);
    }
    tree.ZipAll(p, Top, Blackened(t));
    tree.Reads(Top, u, RootOf(u, tree.nil));
  }

  // ----- the key of a removed inner node -----

  /** The colour rules do not look at keys. */
  lemma RekeyRedBlack(p: Path, t: Tree, k: Watch)
    requires t.Fork? && RedBlack(Plug(p, t))
    ensures RedBlack(Plug(p, t.(key := k)))
  {
    var u := t.(key := k);
    PlugBalanced(p, t);
    PlugNoRedRed(p, t);
    PlugBalanced(p, u);
    PlugNoRedRed(p, u);
  }

  /** z keeps its place and takes the key of its successor y, the leftmost node on its right. */
  ghost function Replaced(q: Path, p: Path, t: Tree, k: Watch): Path
    requires t.Fork?
  {
    Append(q, RightOf(t.(key := k), p))
  }

  lemma ReplacedRedBlack(q: Path, p: Path, t: Tree, u: Tree, k: Watch)
    requires t.Fork? && Plug(q, u) == t.right && RedBlack(Plug(p, t))
    ensures RedBlack(Plug(Replaced(q, p, t, k), u))
  {
    RekeyRedBlack(p, t, k);
    PlugAppend(q, RightOf(t.(key := k), p), u);
  }

  lemma RemoveMiddle(s: seq<Watch>, a: seq<Watch>, k: Watch, b: seq<Watch>)
    requires s == a + [k] + b
    ensures |a| < |s| && s[|a|] == k && Removed(s, |a|) == a + b
  {
  }

  lemma ReplaceMiddle(a: seq<Watch>, k: Watch, k': Watch, b: seq<Watch>, c: seq<Watch>)
    ensures Removed(a + [k] + (([k'] + b) + c), |a|) == a + [k'] + (b + c)
  {
    assert a + [k'] + (b + c) == a + (([k'] + b) + c);
    RemoveMiddle(a + [k] + (([k'] + b) + c), a, k, ([k'] + b) + c);
  }

  lemma ReplacedKeys(q: Path, p: Path, t: Tree, u: Tree)
    requires t.Fork? && Plug(q, u) == t.right && AllOn(Left, q) && u.Fork? && u.left.Leaf?
    ensures Place(p, t) < |AllKeys(p, t)|
    ensures AllKeys(Replaced(q, p, t, u.key), u.right) == Removed(AllKeys(p, t), Place(p, t))
  {
    hide Keys, Before, After, AllKeys, Removed, Append;
    var r, v := RightOf(t.(key := u.key), p), Plug(q, u.right);
    var t' := Hook(r, v);
    LeftmostKeys(q, u);
    PlugAppend(q, r, u.right);
    PlugKeys(Replaced(q, p, t, u.key), u.right);
    PlugKeys(p, t');
    ForkKeys(p, t);
    ForkKeys(p, t');
    ReplaceMiddle(Before(p) + Keys(t.left), t.key, u.key, Keys(v), After(p));
  }

  lemma OnlyChildKeys(p: Path, t: Tree)
    requires t.Fork? && (t.left.Leaf? || t.right.Leaf?)
    ensures Place(p, t) < |AllKeys(p, t)|
    ensures AllKeys(p, OnlyChild(t)) == Removed(AllKeys(p, t), Place(p, t))
  {
    ForkKeys(p, t);
    var a, b := Before(p) + Keys(t.left), Keys(t.right) + After(p);
    RemoveMiddle(AllKeys(p, t), a, t.key, b);
    if t.left.Fork? {
      assert Keys(t.right) == [];
      assert AllKeys(p, t.left) == a + b;
    } else {
      assert Keys(t.left) == [];
      assert AllKeys(p, t.right) == a + b;
    }
  }

  /** Copies the key of y, already taken out, into z. */
  method TakeKey(tree: RbTree, z: Node, k: Watch, ghost q: Path, ghost p: Path, ghost t: Tree, ghost u: Tree)
    requires t.Fork? && z == t.node && tree.At(Append(q, RightOf(t, p)), u, RootOf(u, tree.nil))
    modifies z`key
    ensures tree.At(Replaced(q, p, t, k), u, RootOf(u, tree.nil))
  {
    ghost var r, v := RightOf(t, p), Plug(q, u);
    tree.ZipAll(q, r, u);
    tree.Reads(r, v, RootOf(v, tree.nil));
    tree.ZipUp(r, v, RootOf(v, tree.nil));
    hide RbTree.At;
    tree.Rekey(z, k, p, Hook(r, v));
    ghost var t' := Hook(r, v).(key := k);
    tree.ZipRight(p, t', z);
    tree.Reads(RightOf(t', p), v, z.right);
    tree.ZipAll(q, RightOf(t', p), u);
  }

  /** Everything Delete knows once y is chosen: y is z itself or, when z has two children, its successor. */
  lemma Chosen(tree: RbTree, q: Path, pz: Path, tz: Tree, p: Path, t: Tree)
    requires tree.Valid() && tz.Fork? && t.Fork? && Plug(pz, tz) == tree.shape
    requires (p == pz && t == tz && (t.left.Leaf? || t.right.Leaf?))
             || (p == Append(q, RightOf(tz, pz)) && AllOn(Left, q) && t.left.Leaf? && Plug(q, t) == tz.right)
    ensures Place(pz, tz) < |tree.Contents()|
    ensures Ascending(tree.cmp, Removed(tree.Contents(), Place(pz, tz)))
    ensures p == pz && t == tz && (t.left.Leaf? || t.right.Leaf?) ==>
              && AllKeys(p, OnlyChild(t)) == Removed(tree.Contents(), Place(pz, tz))
              && (t.colour == Black ==> Deleting(p, OnlyChild(t)))
              && (t.colour == Red ==> RedBlack(Plug(p, OnlyChild(t))))
    ensures p == Append(q, RightOf(tz, pz)) && AllOn(Left, q) && t.left.Leaf? && Plug(q, t) == tz.right ==>
              var p' := Replaced(q, pz, tz, t.key);
              && AllKeys(p', OnlyChild(t)) == Removed(tree.Contents(), Place(pz, tz))
              && (t.colour == Black ==> Deleting(p', OnlyChild(t)))
              && (t.colour == Red ==> RedBlack(Plug(p', OnlyChild(t))))
  {
    hide Keys, Before, After, Plug, AllKeys, Removed, Append, Ascending, RedBlack, Deleting;
    PlugKeys(pz, tz);
    ForkPlace(pz, tz);
    AscendingRemove(tree.cmp, tree.Contents(), Place(pz, tz));
    if p == pz && t == tz && (t.left.Leaf? || t.right.Leaf?) {
      OnlyChildKeys(p, t);
      StartDeleting(p, t);
    }
    if p == Append(q, RightOf(tz, pz)) && AllOn(Left, q) && t.left.Leaf? && Plug(q, t) == tz.right {
      ReplacedKeys(q, pz, tz, t);
      ReplacedRedBlack(q, pz, tz, t, t.key);
      StartDeleting(Replaced(q, pz, tz, t.key), t);
    }
  }

  lemma ForkPlace(p: Path, t: Tree)
    requires t.Fork?
    ensures Place(p, t) < |AllKeys(p, t)|
  {
    ForkKeys(p, t);
  }

  lemma ReplacedParent(q: Path, p: Path, t: Tree, k: Watch, nil: Node)
    requires t.Fork?
    ensures ParentOf(Replaced(q, p, t, k), nil) == ParentOf(Append(q, RightOf(t, p)), nil)
  {
  }

  lemma {:induction false} AppendNodes(q: Path, p: Path)
    ensures PathNodes(p) <= PathNodes(Append(q, p))
  {
    if q.Down? {
      AppendNodes(q.rest, p);
    }
  }

  lemma AboveDiffers(tree: RbTree, q: Path, p: Path, t: Tree, y: Node)
    requires t.Fork? && p.Down? && tree.At(Append(q, p), t, y)
    ensures y != p.node
  {
    tree.Reads(Append(q, p), t, y);
    AppendNodes(q, p);
    assert p.node in PathNodes(p) && y in Nodes(t);
  }

  lemma WholeTree(tree: RbTree, p: Path, t: Tree, x: Node)
    requires tree.At(p, t, x)
    ensures tree.At(Top, Plug(p, t), tree.root) && Keys(Plug(p, t)) == AllKeys(p, t)
  {
    tree.Reads(p, t, x);
    tree.ZipAll(p, Top, t);
    AppendTop(p);
    tree.Reads(Top, Plug(p, t), RootOf(Plug(p, t), tree.nil));
    PlugKeys(p, t);
  }

  /** Takes the key of z out of the tree; the node that goes is z or, when z has two children, its
      successor, whose key z inherits. */
  method Remove(tree: RbTree, z: Node, ghost pz: Path, ghost tz: Tree) returns (ghost freed: Node)
    requires tree.Valid() && tree.At(pz, tz, z) && Plug(pz, tz) == tree.shape && tz.Fork?
    modifies tree, tree.repr, tree.nil`up, tree.nil`colour
    ensures tree.Valid() && freed in old(tree.repr) && tree.repr == old(tree.repr) - {freed}
    ensures Place(pz, tz) < |old(tree.Contents())| && tree.Contents() == Removed(old(tree.Contents()), Place(pz, tz))
    ensures tree.rotations <= old(tree.rotations) + 3
  {
    hide RbTree.At, Keys, Before, After, Plug, AllKeys, Removed, Append, Ascending, RedBlack, Deleting, Place,
        InOrder, Orders, AllOn;
    var y := z;
    ghost var p, t, q := pz, tz, Top;
    ChildLooks(tree, pz, tz, z);
    if z.left != tree.nil && z.right != tree.nil {
      y, p, t, q := Successor(tree, z, pz, tz);
      AboveDiffers(tree, q, RightOf(tz, pz), t, y);
    }
    ChildLooks(tree, p, t, y);
    Chosen(tree, q, pz, tz, p, t);
    var x := tree.Splice(y, p, t);
    freed := y;
    ghost var s := OnlyChild(t);
    tree.Reads(p, s, x);
    if y != z {
      TakeKey(tree, z, y.key, q, pz, tz, s);
      ReplacedParent(q, pz, tz, t.key, tree.nil);
      p := Replaced(q, pz, tz, t.key);
    }
    if y.colour == Black {
      tree.shape := RepairDeleted(tree, x, p, s);
    } else {
      WholeTree(tree, p, s, x);
      tree.shape := Plug(p, s);
    }
  }
}
