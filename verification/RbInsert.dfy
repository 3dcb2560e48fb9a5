/** Search from the root, insertion of a leaf, and the repair loop that follows. */
module RbInsert {
  import opened Watches
  import opened RbShape
  import opened RbBalance
  import opened RbHeap

  /** The keys passed on the way to the focus lie on the proper sides of k. */
  ghost predicate Between(cmp: Compare, p: Path, k: Watch) {
    && (forall j | 0 <= j < |Before(p)| :: cmp(k, Before(p)[j]) > 0)
    && (forall j | 0 <= j < |After(p)| :: cmp(k, After(p)[j]) < 0)
  }

  lemma StepLeft(cmp: Compare, p: Path, t: Tree, k: Watch)
    requires Orders(cmp) && t.Fork? && Ascending(cmp, AllKeys(p, t)) && Between(cmp, p, k) && cmp(k, t.key) < 0
    ensures Between(cmp, LeftOf(t, p), k)
  {
    var s, q := AllKeys(p, t), LeftOf(t, p);
    var m := |Before(p)| + |Keys(t.left)|;
    assert s[m] == t.key;
    forall j | 0 <= j < |After(q)| ensures cmp(k, After(q)[j]) < 0 {
      assert After(q)[j] == s[m + j];
      OrdersStrictly(cmp, k, t.key, s[m + j]);
    }
  }

  lemma StepRight(cmp: Compare, p: Path, t: Tree, k: Watch)
    requires Orders(cmp) && t.Fork? && Ascending(cmp, AllKeys(p, t)) && Between(cmp, p, k) && cmp(k, t.key) > 0
    ensures Between(cmp, RightOf(t, p), k)
  {
    var s, q := AllKeys(p, t), RightOf(t, p);
    var m := |Before(p)| + |Keys(t.left)|;
    assert s[m] == t.key;
    forall j | 0 <= j < |Before(q)| ensures cmp(k, Before(q)[j]) > 0 {
      assert Before(q)[j] == s[j];
      assert j < m ==> cmp(s[j], t.key) < 0;
      OrdersStrictly(cmp, s[j], t.key, k);
    }
  }

  lemma FoundSplits(cmp: Compare, p: Path, t: Tree, k: Watch)
    requires Orders(cmp) && t.Fork? && Ascending(cmp, AllKeys(p, t)) && Between(cmp, p, k) && cmp(k, t.key) == 0
    ensures var i := |Before(p)| + |Keys(t.left)|;
            Splits(cmp, AllKeys(p, t), k, i) && Present(cmp, AllKeys(p, t), k, i) && AllKeys(p, t)[i] == t.key
  {
    var s, i := AllKeys(p, t), |Before(p)| + |Keys(t.left)|;
    assert s[i] == t.key;
    forall j | 0 <= j < i ensures cmp(k, s[j]) > 0 {
      OrdersStrictly(cmp, s[j], t.key, k);
    }
    forall j | i < j < |s| ensures cmp(k, s[j]) <= 0 {
      OrdersStrictly(cmp, k, t.key, s[j]);
    }
  }

  lemma MissingSplits(cmp: Compare, p: Path, k: Watch)
    requires Between(cmp, p, k)
    ensures Splits(cmp, AllKeys(p, Leaf), k, |Before(p)|) && !Present(cmp, AllKeys(p, Leaf), k, |Before(p)|)
  {
    var s, i := AllKeys(p, Leaf), |Before(p)|;
    assert s == Before(p) + After(p);
    forall j | i <= j < |s| ensures cmp(k, s[j]) < 0 {
      assert s[j] == After(p)[j - i];
    }
  }

  /** One step of the walk down. */
  lemma DescendStep(tree: RbTree, k: Watch, p: Path, t: Tree, x: Node)
    requires tree.Valid() && tree.At(p, t, x) && Plug(p, t) == tree.shape && Between(tree.cmp, p, k) && x != tree.nil
    ensures t.Fork? && x == t.node && x.key == t.key
    ensures tree.cmp(k, t.key) < 0 ==>
              tree.At(LeftOf(t, p), t.left, x.left) && Plug(LeftOf(t, p), t.left) == tree.shape
                  && Between(tree.cmp, LeftOf(t, p), k)
    ensures tree.cmp(k, t.key) > 0 ==>
              tree.At(RightOf(t, p), t.right, x.right) && Plug(RightOf(t, p), t.right) == tree.shape
                  && Between(tree.cmp, RightOf(t, p), k)
  {
    tree.Reads(p, t, x);
    PlugKeys(p, t);
    if tree.cmp(k, t.key) < 0 {
      StepLeft(tree.cmp, p, t, k);
      tree.ZipLeft(p, t, x);
    } else if tree.cmp(k, t.key) > 0 {
      StepRight(tree.cmp, p, t, k);
      tree.ZipRight(p, t, x);
    }
  }

  /** Where k belongs among the stored keys, once the walk has ended. */
  lemma DescendEnds(tree: RbTree, k: Watch, p: Path, t: Tree, x: Node)
    requires tree.Valid() && tree.At(p, t, x) && Plug(p, t) == tree.shape && Between(tree.cmp, p, k)
    requires t.Fork? ==> tree.cmp(k, t.key) == 0
    ensures x == tree.nil <==> t.Leaf?
    ensures var i := Place(p, t);
            && Splits(tree.cmp, tree.Contents(), k, i)
            && (t.Fork? <==> Present(tree.cmp, tree.Contents(), k, i))
            && (t.Fork? ==> x in tree.repr && x.key == tree.Contents()[i])
  {
    tree.Reads(p, t, x);
    PlugKeys(p, t);
    if t.Fork? {
      FoundSplits(tree.cmp, p, t, k);
    } else {
      MissingSplits(tree.cmp, p, k);
    }
  }

  /** How many nodes a search for k visits. */
  ghost function Visits(cmp: Compare, t: Tree, k: Watch): nat {
    if t.Leaf? then 0
    else if cmp(k, t.key) < 0 then 1 + Visits(cmp, t.left, k)
    else if cmp(k, t.key) > 0 then 1 + Visits(cmp, t.right, k)
    else 1
  }

  lemma {:induction false} VisitsHeight(cmp: Compare, t: Tree, k: Watch)
    ensures Visits(cmp, t, k) <= Height(t)
  {
    if t.Fork? {
      VisitsHeight(cmp, t.left, k);
      VisitsHeight(cmp, t.right, k);
    }
  }

  /** At most 2 * log2(n + 1). */
  ghost predicate Few(visited: nat, n: nat) {
    Pow2(visited) <= (n + 1) * (n + 1)
  }

  /** A search in a red-black tree is short. */
  lemma VisitsFew(cmp: Compare, t: Tree, k: Watch)
    requires RedBlack(t)
    ensures Few(Visits(cmp, t, k), |Keys(t)|)
  {
    hide RedBlack, Keys, Height, Visits;
    VisitsHeight(cmp, t, k);
    RedBlackIsShallow(t);
    Pow2Monotone(Visits(cmp, t, k), Height(t));
  }

  /** The walk down from the root that both the traversal and the lookup begin with: y is the last
      node visited and c the outcome of the last comparison; i keys lie below k, and visited nodes were
      compared with it. */
  method Descend(tree: RbTree, k: Watch)
    returns (x: Node, y: Node, c: int, found: bool, ghost p: Path, ghost t: Tree, ghost i: nat, ghost visited: nat)
    requires tree.Valid()
    ensures tree.At(p, t, x) && Plug(p, t) == tree.shape && Between(tree.cmp, p, k) && i == Place(p, t)
    ensures Splits(tree.cmp, tree.Contents(), k, i)
    ensures found <==> Present(tree.cmp, tree.Contents(), k, i)
    ensures found <==> t.Fork?
    ensures found ==> y == x && x in tree.repr && x.key == tree.Contents()[i]
    ensures !found ==> x == tree.nil && y == ParentOf(p, tree.nil)
    ensures !found && p.Down? ==> c == tree.cmp(k, p.key) && (if p.side == Left then c < 0 else c > 0)
    ensures visited == Visits(tree.cmp, tree.shape, k) && Few(visited, |tree.Contents()|)
  {
    hide RbTree.At, Ascending, RedBlack, Between, Splits, Orders, Height, Keys, AllKeys, Before, Plug, Few;
    VisitsFew(tree.cmp, tree.shape, k);
    y := tree.nil;
    x := tree.root;
    found := false;
    c := 0;
    p, t, visited := Top, tree.shape, 0;
    DescendStarts(tree, k);
    while x != tree.nil && !found
      invariant tree.At(p, t, x) && Plug(p, t) == tree.shape && Between(tree.cmp, p, k)
      invariant found ==> t.Fork? && y == x && c == tree.cmp(k, t.key) == 0
      invariant !found ==> y == ParentOf(p, tree.nil)
      invariant !found && p.Down? ==> c == tree.cmp(k, p.key) && (if p.side == Left then c < 0 else c > 0)
      invariant visited + (if found then 0 else Visits(tree.cmp, t, k)) == Visits(tree.cmp, tree.shape, k)
      decreases !found, t
    {
      DescendStep(tree, k, p, t, x);
      y := x;
      c := tree.cmp(k, x.key);
      visited := visited + 1;
      if c < 0 {
        x := x.left;
        p, t := LeftOf(t, p), t.left;
      } else if c > 0 {
        x := x.right;
        p, t := RightOf(t, p), t.right;
      } else {
        found := true;
      }
    }
    i := Place(p, t);
    LeafBelowNil(tree, p, t, x);
    DescendEnds(tree, k, p, t, x);
  }

  lemma DescendStarts(tree: RbTree, k: Watch)
    requires tree.Valid()
    ensures tree.At(Top, tree.shape, tree.root) && Plug(Top, tree.shape) == tree.shape && Between(tree.cmp, Top, k)
  {
  }

  lemma LeafBelowNil(tree: RbTree, p: Path, t: Tree, x: Node)
    requires tree.At(p, t, x)
    ensures x == tree.nil <==> t.Leaf?
  {
    tree.Reads(p, t, x);
  }

  /** Parent and uncle turn black and the grandparent red; the grandparent is considered next. */
  method Recolour(tree: RbTree, x: Node, y: Node, ghost p: Path, ghost t: Tree) returns (x': Node)
    requires t.Fork? && tree.At(p, t, x) && p.Down? && p.rest.Down? && p.rest.sibling.Fork? && y == p.rest.sibling.node
    modifies tree.repr`colour
    ensures tree.At(RecolouredPath(p), Recoloured(p, t), x')
  {
    tree.Reads(p, t, x);
    tree.PaintParent(x.up, Black, p, t);
    ghost var p', g := p.(colour := Black), p.rest;
    ghost var u := Hook(p', t);
    tree.Reads(p', t, x);
    tree.ZipUp(p', t, x);
    tree.Reads(g, u, x.up);
    hide RbTree.At;
    tree.PaintSibling(y, Black, g, u);
    ghost var g' := g.(sibling := g.sibling.(colour := Black));
    tree.Reads(g', u, x.up);
    tree.PaintParent(x.up.up, Red, g', u);
    x' := x.up.up;
    tree.ZipUp(g'.(colour := Red), u, x.up);
  }

  /** The outer red child x of a red parent with a black uncle: the parent is rotated above the grandparent. */
  method RaiseLeft(tree: RbTree, x: Node, ghost p: Path, ghost t: Tree)
    requires t.Fork? && tree.At(p, t, x) && p.Down? && p.rest.Down? && p.side == Left && p.rest.side == Left
    modifies tree`root, tree`rotations, tree.repr`left, tree.repr`right, tree.repr`up, tree.repr`colour
    ensures tree.At(RaisedPath(p), t, x) && tree.rotations == old(tree.rotations) + 1
  {
    tree.Reads(p, t, x);
    tree.PaintParent(x.up, Black, p, t);
    ghost var p', g := p.(colour := Black), p.rest;
    tree.ZipUp(p', t, x);
    tree.Reads(p', t, x);
    tree.Reads(g, Hook(p', t), x.up);
    hide RbTree.At;
    tree.PaintParent(x.up.up, Red, g, Hook(p', t));
    ghost var g', u := g.(colour := Red), Hook(p', t);
    tree.Reads(g', u, p.node);
    tree.ZipUp(g', u, p.node);
    tree.RightRotate(x.up.up, g.rest, Hook(g', u));
    tree.ZipLeft(g.rest, RotatedRight(Hook(g', u)), p.node);
    tree.Reads(g.rest, RotatedRight(Hook(g', u)), p.node);
  }

  /** The outer red child x of a red parent with a black uncle: the parent is rotated above the grandparent. */
  method RaiseRight(tree: RbTree, x: Node, ghost p: Path, ghost t: Tree)
    requires t.Fork? && tree.At(p, t, x) && p.Down? && p.rest.Down? && p.side == Right && p.rest.side == Right
    modifies tree`root, tree`rotations, tree.repr`left, tree.repr`right, tree.repr`up, tree.repr`colour
    ensures tree.At(RaisedPath(p), t, x) && tree.rotations == old(tree.rotations) + 1
  {
    tree.Reads(p, t, x);
    tree.PaintParent(x.up, Black, p, t);
    ghost var p', g := p.(colour := Black), p.rest;
    tree.ZipUp(p', t, x);
    tree.Reads(p', t, x);
    tree.Reads(g, Hook(p', t), x.up);
    hide RbTree.At;
    tree.PaintParent(x.up.up, Red, g, Hook(p', t));
    ghost var g', u := g.(colour := Red), Hook(p', t);
    tree.Reads(g', u, p.node);
    tree.ZipUp(g', u, p.node);
    tree.LeftRotate(x.up.up, g.rest, Hook(g', u));
    tree.ZipRight(g.rest, RotatedLeft(Hook(g', u)), p.node);
    tree.Reads(g.rest, RotatedLeft(Hook(g', u)), p.node);
  }

  /** What the tests of the repair loop look at. */
  lemma Looks(tree: RbTree, p: Path, t: Tree, x: Node)
    requires tree.nil.colour == Black && tree.At(p, t, x) && t.Fork?
    ensures x == t.node && (x == tree.root <==> p.Top?)
    ensures p.Down? ==>
            x.up == p.node && x.up.colour == p.colour && (x == x.up.left <==> p.side == Left)
                && (x == x.up.right <==> p.side == Right)
    ensures p.Down? && p.rest.Down? ==>
      && x.up.up == p.rest.node
      && (x.up == x.up.up.left <==> p.rest.side == Left)
      && (p.rest.side == Left ==>
         x.up.up.right == RootOf(p.rest.sibling, tree.nil) && x.up.up.right.colour == Shade(p.rest.sibling))
      && (p.rest.side == Right ==>
         x.up.up.left == RootOf(p.rest.sibling, tree.nil) && x.up.up.left.colour == Shade(p.rest.sibling))
  {
    tree.Reads(p, t, x);
    if p.Down? {
      tree.ZipUp(p, t, x);
      tree.Reads(p.rest, Hook(p, t), p.node);
    }
  }

  /** One round of the repair when the parent of x hangs on the left of the grandparent. */
  method RepairLeft(tree: RbTree, x: Node, ghost p: Path, ghost t: Tree) returns (x': Node, ghost p': Path,
      ghost t': Tree)
    requires tree.nil.colour == Black
    requires tree.At(p, t, x) && Inserting(p, t) && RedParent(p) && p.rest.Down? && p.rest.side == Left
    modifies tree`root, tree`rotations, tree.repr`left, tree.repr`right, tree.repr`up, tree.repr`colour
    ensures tree.At(p', t', x') && Inserting(p', t') && AllKeys(p', t') == AllKeys(p, t) && Depth(p') < Depth(p)
    ensures tree.rotations == old(tree.rotations) || (tree.rotations <= old(tree.rotations) + 2 && !RedParent(p'))
  {
    Looks(tree, p, t, x);
    hide RbTree.At, Inserting;
    var y := x.up.up.right;
    if y.colour == Red {
      RecolourKeeps(p, t);
      RecolourKeepsKeys(p, t);
      x' := Recolour(tree, x, y, p, t);
      p', t' := RecolouredPath(p), Recoloured(p, t);
    } else {
      x', p', t' := x, p, t;
      if x == x.up.right {
        StraightenKeeps(p, t);
        StraightenKeepsKeys(p, t);
        x' := x.up;
        tree.ZipUp(p, t, x);
        tree.LeftRotate(x', p.rest, Hook(p, t));
        tree.ZipLeft(p.rest, RotatedLeft(Hook(p, t)), x);
        tree.Reads(p.rest, RotatedLeft(Hook(p, t)), x);
        p', t' := StraightenedPath(p, t), Straightened(p, t);
      }
      RaiseKeeps(p', t');
      RaiseKeepsKeys(p', t');
      RaiseLeft(tree, x', p', t');
      p' := RaisedPath(p');
    }
  }

  /** One round of the repair when the parent of x hangs on the right of the grandparent. */
  method RepairRight(tree: RbTree, x: Node, ghost p: Path, ghost t: Tree) returns (x': Node, ghost p': Path,
      ghost t': Tree)
    requires tree.nil.colour == Black
    requires tree.At(p, t, x) && Inserting(p, t) && RedParent(p) && p.rest.Down? && p.rest.side == Right
    modifies tree`root, tree`rotations, tree.repr`left, tree.repr`right, tree.repr`up, tree.repr`colour
    ensures tree.At(p', t', x') && Inserting(p', t') && AllKeys(p', t') == AllKeys(p, t) && Depth(p') < Depth(p)
    ensures tree.rotations == old(tree.rotations) || (tree.rotations <= old(tree.rotations) + 2 && !RedParent(p'))
  {
    Looks(tree, p, t, x);
    hide RbTree.At, Inserting;
    var y := x.up.up.left;
    if y.colour == Red {
      RecolourKeeps(p, t);
      RecolourKeepsKeys(p, t);
      x' := Recolour(tree, x, y, p, t);
      p', t' := RecolouredPath(p), Recoloured(p, t);
    } else {
      x', p', t' := x, p, t;
      if x == x.up.left {
        StraightenKeeps(p, t);
        StraightenKeepsKeys(p, t);
        x' := x.up;
        tree.ZipUp(p, t, x);
        tree.RightRotate(x', p.rest, Hook(p, t));
        tree.ZipRight(p.rest, RotatedRight(Hook(p, t)), x);
        tree.Reads(p.rest, RotatedRight(Hook(p, t)), x);
        p', t' := StraightenedPath(p, t), Straightened(p, t);
      }
      RaiseKeeps(p', t');
      RaiseKeepsKeys(p', t');
      RaiseRight(tree, x', p', t');
      p' := RaisedPath(p');
    }
  }

  /** Walks back up from the new red node z until no red node has a red child, then blackens the root. */
  method Rebalance(tree: RbTree, z: Node, ghost p0: Path, ghost t0: Tree) returns (ghost u: Tree)
    requires tree.nil.colour == Black
    requires tree.At(p0, t0, z) && Inserting(p0, t0)
    modifies tree`root, tree`rotations, tree.repr`left, tree.repr`right, tree.repr`up, tree.repr`colour
    ensures tree.At(Top, u, tree.root) && RedBlack(u) && Keys(u) == AllKeys(p0, t0)
    ensures tree.rotations <= old(tree.rotations) + 2
  {
    hide RbTree.At, Inserting, AllKeys, RedBlack, Keys;
    var x := z;
    ghost var p, t := p0, t0;
    RebalanceLooks(tree, p, t, x);
    while x != tree.root && x.up.colour == Red
      invariant tree.nil.colour == Black
      invariant tree.At(p, t, x) && Inserting(p, t) && AllKeys(p, t) == AllKeys(p0, t0)
      invariant x == tree.root <==> p.Top?
      invariant p.Down? ==> x.up.colour == p.colour
      invariant tree.rotations <= old(tree.rotations) + if RedParent(p) then 0 else 2
      decreases Depth(p)
    {
      RebalanceLooks(tree, p, t, x);
      if x.up == x.up.up.left {
        x, p, t := RepairLeft(tree, x, p, t);
      } else {
        x, p, t := RepairRight(tree, x, p, t);
      }
      RebalanceLooks(tree, p, t, x);
    }
    u := BlackenRoot(tree, x, p, t);
  }

  /** What the repair loop sees around x. */
  lemma RebalanceLooks(tree: RbTree, p: Path, t: Tree, x: Node)
    requires tree.nil.colour == Black && tree.At(p, t, x) && Inserting(p, t)
    ensures tree.nil !in tree.repr
    ensures x == tree.root <==> p.Top?
    ensures p.Down? ==> x.up.colour == p.colour
    ensures RedParent(p) ==> p.rest.Down? && (x.up == x.up.up.left <==> p.rest.side == Left)
  {
    Looks(tree, p, t, x);
    if RedParent(p) {
      RedParentHasParent(p, t);
    }
  }

  method BlackenRoot(tree: RbTree, x: Node, ghost p: Path, ghost t: Tree) returns (ghost u: Tree)
    requires tree.At(p, t, x) && Inserting(p, t) && !RedParent(p)
    modifies tree.repr`colour
    ensures tree.At(Top, u, tree.root) && RedBlack(u) && Keys(u) == AllKeys(p, t)
  {
    DoneInserting(p, t);
    PlugKeys(p, t);
    tree.Reads(p, t, x);
    tree.ZipAll(p, Top, t);
    AppendTop(p);
    u := Plug(p, t);
    tree.Reads(Top, u, RootOf(u, tree.nil));
    hide RbTree.At, Inserting, AllKeys, RedBlack;
    tree.Paint(tree.root, Black, Top, u);
    u := u.(colour := Black);
  }

  lemma LeafKeys(p: Path, z: Node, k: Watch)
    ensures var s, i := AllKeys(p, Leaf), |Before(p)|;
            AllKeys(p, Fork(Leaf, z, Red, k, Leaf)) == Inserted(s, i, k)
  {
    assert AllKeys(p, Leaf) == Before(p) + After(p);
    assert Keys(Fork(Leaf, z, Red, k, Leaf)) == [k];
  }

  /** Adds a leaf at the end of p and repairs the colours. */
  method Grow(tree: RbTree, k: Watch, y: Node, toLeft: bool, ghost p: Path) returns (z: Node)
    requires tree.Valid() && tree.At(p, Leaf, tree.nil) && Plug(p, Leaf) == tree.shape && Between(tree.cmp, p, k)
    requires y == ParentOf(p, tree.nil) && (p.Down? ==> (toLeft <==> p.side == Left))
    modifies tree, tree.repr
    ensures tree.Valid() && fresh(z) && tree.repr == old(tree.repr) + {z} && z.key == k
    ensures var s, i := old(tree.Contents()), |Before(p)|;
            i <= |s| && tree.Contents() == Inserted(s, i, k)
    ensures tree.rotations <= old(tree.rotations) + 2
  {
    hide RbTree.At, Ascending, RedBlack, Between, Inserting, Splits, Orders, Plug, Keys, AllKeys, Before, Inserted,
        Present;
    GrowReady(tree, k, p);
    z := tree.AddLeaf(k, y, toLeft, p);
    StartInserting(p, z, k);
    LeafKeys(p, z, k);
    tree.shape := Rebalance(tree, z, p, Fork(Leaf, z, Red, k, Leaf));
  }

  /** What is known before a leaf is added at the end of p. */
  lemma GrowReady(tree: RbTree, k: Watch, p: Path)
    requires tree.Valid() && tree.At(p, Leaf, tree.nil) && Plug(p, Leaf) == tree.shape && Between(tree.cmp, p, k)
    ensures tree.nil !in tree.repr && RedBlack(Plug(p, Leaf)) && tree.Contents() == AllKeys(p, Leaf)
    ensures |Before(p)| <= |tree.Contents()| && Ascending(tree.cmp, Inserted(tree.Contents(), |Before(p)|, k))
  {
    PlugKeys(p, Leaf);
    MissingSplits(tree.cmp, p, k);
    AscendingInsert(tree.cmp, tree.Contents(), k, |Before(p)|);
  }

  /** Finds the node whose key compares equal to k, or makes one when insert is set. i is the number
      of stored keys below k, visited the number of nodes compared with k. */
  method Traverse(tree: RbTree, insert: bool, k: Watch) returns (x: Node, ghost i: nat, ghost visited: nat)
    requires tree.Valid()
    modifies if insert then {tree} else {}, if insert then tree.repr else {}
    ensures tree.Valid()
    ensures Splits(tree.cmp, old(tree.Contents()), k, i)
    ensures visited == old(Visits(tree.cmp, tree.shape, k)) && Few(visited, |old(tree.Contents())|)
    ensures Present(tree.cmp, old(tree.Contents()), k, i) ==>
              x in tree.repr && x.key == old(tree.Contents())[i] && tree.shape == old(tree.shape)
                  && tree.repr == old(tree.repr)
    ensures !Present(tree.cmp, old(tree.Contents()), k, i) && !insert ==> x == tree.nil
    ensures !Present(tree.cmp, old(tree.Contents()), k, i) && insert ==>
              && fresh(x) && tree.repr == old(tree.repr) + {x} && x.key == k
              && tree.Contents() == Inserted(old(tree.Contents()), i, k)
    ensures tree.rotations <= old(tree.rotations) + 2
  {
    hide RbTree.At, Ascending, RedBlack, Between, Splits, Orders, Plug, Height, Keys, AllKeys, Before, Inserted, Few,
        Visits;
    var y, c, found;
    ghost var p, t;
    x, y, c, found, p, t, i, visited := Descend(tree, k);
    if found || !insert {
      return;
    }
    x := Grow(tree, k, y, c < 0, p);
  }
}
