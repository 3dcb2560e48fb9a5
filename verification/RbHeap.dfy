/** The tree header and the operations that rewrite links and colours in place. */
module RbHeap {
  import opened Watches
  import opened RbShape
  import opened RbBalance

  class RbTree {
    const cmp: Compare
    const nil: Node
    var root: Node
    ghost var repr: set<Node>
    ghost var shape: Tree
    /** How many rotations were made so far. */
    ghost var rotations: nat

    constructor (cmp: Compare, nil: Node)
      requires Orders(cmp) && nil.colour == Black
      ensures Valid() && this.cmp == cmp && this.nil == nil && repr == {} && Contents() == []
    {
      this.cmp, this.nil, root, repr, rotations, shape := cmp, nil, nil, {}, 0, Leaf;
    }

    /** The stored keys in ascending order. */
    ghost function Contents(): seq<Watch>
      reads this
    {
      Keys(shape)
    }

    ghost predicate Valid()
      reads this, repr, nil`colour
    {
      && Orders(cmp) && nil.colour == Black
      && At(Top, shape, root) && RedBlack(shape) && Ascending(cmp, Keys(shape))
    }

    /** The heap holds the tree Plug(p, t), and x is the root of its subtree t. */
    ghost predicate At(p: Path, t: Tree, x: Node)
      reads `root, `repr, repr
    {
      && nil !in repr
      && Nodes(t) + PathNodes(p) == repr
      && Distinct(t) && PathDistinct(p) && Nodes(t) !! PathNodes(p)
      && Spells(t, x, ParentOf(p, nil), nil) && SpellsPath(p, x, root, nil)
    }

    /** What the fields next to the focus hold. */
    lemma Reads(p: Path, t: Tree, x: Node)
      requires At(p, t, x)
      ensures x == RootOf(t, nil) && (x == nil <==> t.Leaf?)
      ensures t.Fork? ==> (x in repr && x.up == ParentOf(p, nil) && x.colour == t.colour && x.key == t.key
                           && x.left == RootOf(t.left, nil) && x.right == RootOf(t.right, nil))
      ensures p.Top? ==> x == root
      ensures p.Down? ==> (p.node in repr && p.node != nil && p.node != x && p.node.up == ParentOf(p.rest, nil)
                           && p.node.colour == p.colour && p.node.key == p.key && root != x
                           && p.node.left == (if p.side == Left then x else RootOf(p.sibling, nil))
                           && p.node.right == (if p.side == Right then x else RootOf(p.sibling, nil)))
      ensures p.Down? && p.sibling.Fork? ==> p.sibling.node in repr && p.sibling.node.colour == p.sibling.colour
      ensures p.Down? && (p.sibling.Fork? || t.Fork?) ==> RootOf(p.sibling, nil) != x
    {
      if t.Fork? {
        assert Spells(t.left, x.left, x, nil) && Spells(t.right, x.right, x, nil);
      }
      assert p.Down? ==> p.node in PathNodes(p);
      assert p.Down? && p.sibling.Fork? ==> p.sibling.node in Nodes(p.sibling);
      if p.Down? { RootAbove(p.rest, p.node); }
    }

    lemma RootAbove(p: Path, x: Node)
      requires SpellsPath(p, x, root, nil)
      ensures p.Top? ==> x == root
      ensures p.Down? ==> root in PathNodes(p)
    {
      if p.Down? { RootAbove(p.rest, p.node); }
    }

    /** Moving the focus to the parent and to the children. */
    lemma ZipUp(p: Path, t: Tree, x: Node)
      requires At(p, t, x) && p.Down?
      ensures At(p.rest, Hook(p, t), p.node)
    {
    }

    lemma ZipLeft(p: Path, t: Tree, x: Node)
      requires At(p, t, x) && t.Fork?
      ensures At(LeftOf(t, p), t.left, x.left)
    {
    }

    lemma ZipRight(p: Path, t: Tree, x: Node)
      requires At(p, t, x) && t.Fork?
      ensures At(RightOf(t, p), t.right, x.right)
    {
    }

    twostate predicate Kept(n: Node)
      reads n
    {
      n.colour == old(n.colour) && n.key == old(n.key)
    }

    ghost predicate Apart(t: Tree, touched: set<Node>)
      reads this
    {
      Nodes(t) <= repr && Nodes(t) !! touched
    }

    ghost predicate ApartPath(p: Path, touched: set<Node>)
      reads this
    {
      PathNodes(p) <= repr && PathNodes(p) !! touched
    }

    /** The link changes of a left rotation of x. */
    method LeftRelink(x: Node, ghost touched: set<Node>)
      requires x != nil && x.right != nil && x != x.right && x in touched && x.right in touched
      requires x.right.left != nil ==> x.right.left in touched && x.right.left != x && x.right.left != x.right
      requires x.up != nil ==> x.up in touched && x.up != x && x.up != x.right && x.up != x.right.left
      modifies `root, `rotations, touched`left, touched`right, touched`up
      ensures x.left == old(x.left) && x.right == old(x.right.left) && x.up == old(x.right)
      ensures var y := old(x.right);
              y.left == x && y.right == old(y.right) && y.up == old(x.up)
      ensures var b := old(x.right.left);
              b != nil ==> b.left == old(b.left) && b.right == old(b.right) && b.up == x
      ensures var u := old(x.up);
              u != nil ==>
                && u.up == old(u.up)
                && u.left == (if x == old(u.left) then old(x.right) else old(u.left))
                && u.right == (if x == old(u.left) then old(u.right) else old(x.right))
      ensures root == if old(x.up) == nil then old(x.right) else old(root)
      ensures rotations == old(rotations) + 1
    {
      var y := x.right;
      x.right := y.left;
      if y.left != nil {
        y.left.up := x;
      }
      y.up := x.up;
      if x.up == nil {
        root := y;
      } else {
        if x == x.up.left {
          x.up.left := y;
        } else {
          x.up.right := y;
        }
      }
      y.left := x;
      x.up := y;
      rotations := rotations + 1;
    }

    /** The link changes of a right rotation of x. */
    method RightRelink(x: Node, ghost touched: set<Node>)
      requires x != nil && x.left != nil && x != x.left && x in touched && x.left in touched
      requires x.left.right != nil ==> x.left.right in touched && x.left.right != x && x.left.right != x.left
      requires x.up != nil ==> x.up in touched && x.up != x && x.up != x.left && x.up != x.left.right
      modifies `root, `rotations, touched`left, touched`right, touched`up
      ensures x.right == old(x.right) && x.left == old(x.left.right) && x.up == old(x.left)
      ensures var y := old(x.left);
              y.right == x && y.left == old(y.left) && y.up == old(x.up)
      ensures var b := old(x.left.right);
              b != nil ==> b.left == old(b.left) && b.right == old(b.right) && b.up == x
      ensures var u := old(x.up);
              u != nil ==>
                && u.up == old(u.up)
                && u.left == (if x == old(u.left) then old(x.left) else old(u.left))
                && u.right == (if x == old(u.left) then old(u.right) else old(x.left))
      ensures root == if old(x.up) == nil then old(x.left) else old(root)
      ensures rotations == old(rotations) + 1
    {
      var y := x.left;
      x.left := y.right;
      if y.right != nil {
        y.right.up := x;
      }
      y.up := x.up;
      if x.up == nil {
        root := y;
      } else {
        if x == x.up.left {
          x.up.left := y;
        } else {
          x.up.right := y;
        }
      }
      y.right := x;
      x.up := y;
      rotations := rotations + 1;
    }

    /** The nodes whose fields a left rotation writes. */
    ghost function LeftTouched(p: Path, t: Tree): set<Node>
      requires t.Fork? && t.right.Fork?
    {
      {t.node, t.right.node} + (if t.right.left.Fork? then {t.right.left.node} else {})
          + (if p.Down? then {p.node} else {})
    }

    /** The surroundings of a left rotation. */
    ghost predicate LeftSite(p: Path, t: Tree)
      requires t.Fork? && t.right.Fork?
      reads this, repr
    {
      var x, y, a, b, d, touched := t.node, t.right.node, t.left, t.right.left, t.right.right, LeftTouched(p, t);
      && touched <= repr
      && x != y && x.up == ParentOf(p, nil) && x.colour == t.colour && x.key == t.key
      && y.colour == t.right.colour && y.key == t.right.key
      && x.right == y && y.left == RootOf(b, nil)
      && Apart(a, touched) && Spells(a, x.left, x, nil)
      && Apart(d, touched) && Spells(d, y.right, y, nil)
      && (b.Fork? ==>
            var z := b.node;
            && z != nil && z != x && z != y && z.colour == b.colour && z.key == b.key
            && Apart(b.left, touched) && Spells(b.left, z.left, z, nil)
            && Apart(b.right, touched) && Spells(b.right, z.right, z, nil))
      && (p.Top? ==> root == x)
      && (p.Down? ==>
            var u := p.node;
            && u != x && u != y && (b.Fork? ==> u != b.node) 
            && u.up == ParentOf(p.rest, nil) && u.colour == p.colour && u.key == p.key
            && Apart(p.sibling, touched) && ApartPath(p.rest, touched) && SpellsPath(p.rest, u, root, nil)
            && (if p.side == Left then u.left == x && Spells(p.sibling, u.right, u, nil)
                else u.right == x && u.left != x && Spells(p.sibling, u.left, u, nil)))
    }

    lemma LeftSites(p: Path, t: Tree, x: Node)
      requires t.Fork? && t.right.Fork? && At(p, t, x)
      ensures x == t.node && LeftSite(p, t)
    {
      var y, a, b, d := t.right.node, t.left, t.right.left, t.right.right;
      assert Spells(t.right, x.right, x, nil) && Distinct(t.right);
      assert Spells(b, y.left, y, nil) && Spells(d, y.right, y, nil) && Distinct(b);
      assert Nodes(t.right) == Nodes(b) + {y} + Nodes(d);
      assert Nodes(t) == Nodes(a) + {x} + Nodes(t.right);
      if p.Down? {
        assert p.node in PathNodes(p);
        assert p.sibling.Fork? ==> p.sibling.node in Nodes(p.sibling);
      }
    }

    /** The rotation keeps the tree around it and turns t into RotatedLeft(t). */
    method LeftRotate(x: Node, ghost p: Path, ghost t: Tree)
      requires t.Fork? && t.right.Fork? && At(p, t, x)
      modifies `root, `rotations, repr`left, repr`right, repr`up
      ensures At(p, RotatedLeft(t), t.right.node)
      ensures rotations == old(rotations) + 1
    {
      RotatedLeftDistinct(t);
      ghost var a, b, d, y := t.left, t.right.left, t.right.right, t.right.node;
      LeftSites(p, t, x);
      hide Nodes, PathNodes, Distinct, PathDistinct;
      LeftRelink(x, LeftTouched(p, t));
      assert Spells(a, x.left, x, nil) && Spells(d, y.right, y, nil);
      assert b.Fork? ==> Spells(b.left, b.node.left, b.node, nil) && Spells(b.right, b.node.right, b.node, nil);
      assert p.Down? && p.side == Left ==>
             Spells(p.sibling, p.node.right, p.node, nil) && SpellsPath(p.rest, p.node, root, nil);
      assert p.Down? && p.side == Right ==>
             Spells(p.sibling, p.node.left, p.node, nil) && SpellsPath(p.rest, p.node, root, nil);
      assert Spells(RotatedLeft(t).left, x, y, nil);
    }

    /** The nodes whose fields a right rotation writes. */
    ghost function RightTouched(p: Path, t: Tree): set<Node>
      requires t.Fork? && t.left.Fork?
    {
      {t.node, t.left.node} + (if t.left.right.Fork? then {t.left.right.node} else {})
          + (if p.Down? then {p.node} else {})
    }

    /** The surroundings of a right rotation. */
    ghost predicate RightSite(p: Path, t: Tree)
      requires t.Fork? && t.left.Fork?
      reads this, repr
    {
      var x, y, a, b, d, touched := t.node, t.left.node, t.right, t.left.right, t.left.left, RightTouched(p, t);
      && touched <= repr
      && x != y && x.up == ParentOf(p, nil) && x.colour == t.colour && x.key == t.key
      && y.colour == t.left.colour && y.key == t.left.key
      && x.left == y && y.right == RootOf(b, nil)
      && Apart(a, touched) && Spells(a, x.right, x, nil)
      && Apart(d, touched) && Spells(d, y.left, y, nil)
      && (b.Fork? ==>
            var z := b.node;
            && z != nil && z != x && z != y && z.colour == b.colour && z.key == b.key
            && Apart(b.left, touched) && Spells(b.left, z.left, z, nil)
            && Apart(b.right, touched) && Spells(b.right, z.right, z, nil))
      && (p.Top? ==> root == x)
      && (p.Down? ==>
            var u := p.node;
            && u != x && u != y && (b.Fork? ==> u != b.node) 
            && u.up == ParentOf(p.rest, nil) && u.colour == p.colour && u.key == p.key
            && Apart(p.sibling, touched) && ApartPath(p.rest, touched) && SpellsPath(p.rest, u, root, nil)
            && (if p.side == Left then u.left == x && Spells(p.sibling, u.right, u, nil)
                else u.right == x && u.left != x && Spells(p.sibling, u.left, u, nil)))
    }

    lemma RightSites(p: Path, t: Tree, x: Node)
      requires t.Fork? && t.left.Fork? && At(p, t, x)
      ensures x == t.node && RightSite(p, t)
    {
      var y, a, b, d := t.left.node, t.right, t.left.right, t.left.left;
      assert Spells(t.left, x.left, x, nil) && Distinct(t.left);
      assert Spells(b, y.right, y, nil) && Spells(d, y.left, y, nil) && Distinct(b);
      assert Nodes(t.left) == Nodes(b) + {y} + Nodes(d);
      assert Nodes(t) == Nodes(a) + {x} + Nodes(t.left);
      if p.Down? {
        assert p.node in PathNodes(p);
        assert p.sibling.Fork? ==> p.sibling.node in Nodes(p.sibling);
      }
    }

    /** The rotation keeps the tree around it and turns t into RotatedRight(t). */
    method RightRotate(x: Node, ghost p: Path, ghost t: Tree)
      requires t.Fork? && t.left.Fork? && At(p, t, x)
      modifies `root, `rotations, repr`left, repr`right, repr`up
      ensures At(p, RotatedRight(t), t.left.node)
      ensures rotations == old(rotations) + 1
    {
      RotatedRightDistinct(t);
      ghost var a, b, d, y := t.right, t.left.right, t.left.left, t.left.node;
      RightSites(p, t, x);
      hide Nodes, PathNodes, Distinct, PathDistinct;
      RightRelink(x, RightTouched(p, t));
      assert Spells(a, x.right, x, nil) && Spells(d, y.left, y, nil);
      assert b.Fork? ==> Spells(b.left, b.node.left, b.node, nil) && Spells(b.right, b.node.right, b.node, nil);
      assert p.Down? && p.side == Left ==>
             Spells(p.sibling, p.node.right, p.node, nil) && SpellsPath(p.rest, p.node, root, nil);
      assert p.Down? && p.side == Right ==>
             Spells(p.sibling, p.node.left, p.node, nil) && SpellsPath(p.rest, p.node, root, nil);
      assert Spells(RotatedRight(t).right, x, y, nil);
    }

    method Paint(x: Node, c: Colour, ghost p: Path, ghost t: Tree)
      requires t.Fork? && At(p, t, x)
      modifies x`colour
      ensures At(p, t.(colour := c), x) && x.colour == c
    {
      assert Nodes(t) == Nodes(t.(colour := c));
      hide Nodes, PathNodes, PathDistinct;
      x.colour := c;
      assert Spells(t.left, x.left, x, nil) && Spells(t.right, x.right, x, nil);
    }

    /** The focus moves to the sibling, and back. */
    lemma ToSibling(p: Path, t: Tree, x: Node)
      requires At(p, t, x) && p.Down?
      ensures At(Across(p, t), p.sibling, RootOf(p.sibling, nil))
      ensures Across(Across(p, t), p.sibling) == p
    {
      Reads(p, t, x);
      ZipUp(p, t, x);
      if p.side == Left {
        ZipRight(p.rest, Hook(p, t), p.node);
      } else {
        ZipLeft(p.rest, Hook(p, t), p.node);
      }
    }

    method PaintSibling(w: Node, c: Colour, ghost p: Path, ghost t: Tree)
      requires At(p, t, RootOf(t, nil)) && p.Down? && p.sibling.Fork? && w == p.sibling.node
      modifies w`colour
      ensures At(p.(sibling := p.sibling.(colour := c)), t, RootOf(t, nil)) && w.colour == c
    {
      ToSibling(p, t, RootOf(t, nil));
      hide At;
      Paint(w, c, Across(p, t), p.sibling);
      ToSibling(Across(p, t), p.sibling.(colour := c), w);
    }

    method PaintParent(u: Node, c: Colour, ghost p: Path, ghost t: Tree)
      requires At(p, t, RootOf(t, nil)) && p.Down? && u == p.node
      modifies u`colour
      ensures At(p.(colour := c), t, RootOf(t, nil)) && u.colour == c
    {
      ghost var x := RootOf(t, nil);
      Reads(p, t, x);
      ZipUp(p, t, x);
      hide At;
      Paint(u, c, p.rest, Hook(p, t));
      if p.side == Left {
        ZipLeft(p.rest, Hook(p.(colour := c), t), u);
      } else {
        ZipRight(p.rest, Hook(p.(colour := c), t), u);
      }
    }

    method Rekey(x: Node, k: Watch, ghost p: Path, ghost t: Tree)
      requires t.Fork? && At(p, t, x)
      modifies x`key
      ensures At(p, t.(key := k), x)
    {
      assert Nodes(t) == Nodes(t.(key := k));
      hide Nodes, PathNodes, PathDistinct;
      x.key := k;
      assert Spells(t.left, x.left, x, nil) && Spells(t.right, x.right, x, nil);
    }

    /** A new red leaf below y takes the place of the missing subtree at the end of p. */
    method AddLeaf(k: Watch, y: Node, toLeft: bool, ghost p: Path) returns (z: Node)
      requires At(p, Leaf, nil) && y == ParentOf(p, nil)
      requires p.Down? ==> (toLeft <==> p.side == Left)
      modifies `root, `repr, repr`left, repr`right
      ensures fresh(z) && z.key == k && repr == old(repr) + {z}
      ensures At(p, Fork(Leaf, z, Red, k, Leaf), z)
    {
      Reads(p, Leaf, nil);
      if p.Down? {
        assert p.node in PathNodes(p) && PathNodes(p.rest) <= repr && Nodes(p.sibling) <= repr;
        assert p.node !in Nodes(p.sibling) && p.node !in PathNodes(p.rest);
      }
      hide Nodes, PathNodes, Distinct, PathDistinct;
      z := new Node(k, y, nil);
      SingleNode(z, Red, k);
      if y == nil {
        root := z;
      } else {
        if toLeft {
          y.left := z;
        } else {
          y.right := z;
        }
      }
      repr := repr + {z};
      assert PathNodes(p) == old(repr) && Spells(Fork(Leaf, z, Red, k, Leaf), z, y, nil);
      assert SpellsPath(p, z, root, nil);
    }

    /** The link changes of taking y out. */
    method Unlink(y: Node, ghost touched: set<Node>) returns (x: Node)
      requires y != nil && y !in touched && (y.left == nil || y.right == nil)
      requires y.left != nil ==> y.left in touched
      requires y.right != nil ==> y.right in touched
      requires y.up != nil ==> y.up in touched && y.up != y.left && y.up != y.right
      modifies `root, touched, nil`up
      ensures x == (if y.left != nil then y.left else y.right) && x.up == y.up
      ensures x != nil ==> x.left == old(x.left) && x.right == old(x.right) && Kept(x)
      ensures var u := y.up;
              u != nil ==>
                && u.up == old(u.up) && Kept(u)
                && u.left == (if y == old(u.left) then x else old(u.left))
                && u.right == (if y == old(u.left) then old(u.right) else x)
      ensures root == if y.up == nil then x else old(root)
    {
      if y.left != nil {
        x := y.left;
      } else {
        x := y.right;
      }
      x.up := y.up;
      if y.up == nil {
        root := x;
      } else {
        if y == y.up.left {
          y.up.left := x;
        } else {
          y.up.right := x;
        }
      }
    }

    ghost function SpliceTouched(p: Path, t: Tree): set<Node>
      requires t.Fork?
    {
      (if OnlyChild(t).Fork? then {OnlyChild(t).node} else {}) + (if p.Down? then {p.node} else {})
    }

    /** The surroundings of a node that is taken out. */
    ghost predicate SpliceSite(p: Path, t: Tree)
      requires t.Fork? && (t.left.Leaf? || t.right.Leaf?)
      reads this, repr
    {
      var y, s, touched := t.node, OnlyChild(t), SpliceTouched(p, t);
      && y in repr && touched <= repr && y !in touched
      && y.up == ParentOf(p, nil) && y.left == RootOf(t.left, nil) && y.right == RootOf(t.right, nil)
      && Nodes(s) + PathNodes(p) == repr - {y} && Distinct(s) && Nodes(s) !! PathNodes(p)
      && (s.Fork? ==>
            var x := s.node;
            && x != nil && x.colour == s.colour && x.key == s.key
            && Apart(s.left, touched) && Spells(s.left, x.left, x, nil)
            && Apart(s.right, touched) && Spells(s.right, x.right, x, nil))
      && (p.Top? ==> root == y)
      && (p.Down? ==>
            var u := p.node;
            && u != RootOf(s, nil)
            && u.up == ParentOf(p.rest, nil) && u.colour == p.colour && u.key == p.key
            && Apart(p.sibling, touched) && ApartPath(p.rest, touched) && SpellsPath(p.rest, u, root, nil)
            && (if p.side == Left then u.left == y && Spells(p.sibling, u.right, u, nil)
                else u.right == y && u.left != y && Spells(p.sibling, u.left, u, nil)))
    }

    lemma SpliceSites(p: Path, t: Tree, y: Node)
      requires t.Fork? && (t.left.Leaf? || t.right.Leaf?) && At(p, t, y)
      ensures y == t.node && SpliceSite(p, t)
    {
      var s := OnlyChild(t);
      assert Spells(t.left, y.left, y, nil) && Spells(t.right, y.right, y, nil);
      assert Nodes(t) == Nodes(s) + {y};
      if p.Down? {
        assert p.node in PathNodes(p);
        assert p.sibling.Fork? ==> p.sibling.node in Nodes(p.sibling);
      }
    }

    /** y, which has at most one child x, leaves the tree and x takes its place; the sentinel, too,
        gets the place's parent for its up link. */
    method Splice(y: Node, ghost p: Path, ghost t: Tree) returns (x: Node)
      requires t.Fork? && (t.left.Leaf? || t.right.Leaf?) && At(p, t, y)
      modifies `root, `repr, repr, nil`up
      ensures repr == old(repr) - {y} && At(p, OnlyChild(t), x) && x.up == ParentOf(p, nil)
      ensures y.colour == old(y.colour) && y.key == old(y.key)
    {
      SpliceSites(p, t, y);
      ghost var s := OnlyChild(t);
      hide Nodes, PathNodes, Distinct, PathDistinct;
      x := Unlink(y, SpliceTouched(p, t));
      repr := repr - {y};
      assert s.Fork? ==> Spells(s.left, x.left, x, nil) && Spells(s.right, x.right, x, nil);
      assert p.Down? ==> SpellsPath(p.rest, p.node, root, nil);
      assert p.Down? ==> Spells(p.sibling, if p.side == Left then p.node.right else p.node.left, p.node, nil);
    }

    /** Climbing a whole path, and coming back. */
    lemma ZipAll(q: Path, p: Path, t: Tree)
      ensures At(Append(q, p), t, RootOf(t, nil)) <==> At(p, Plug(q, t), RootOf(Plug(q, t), nil))
    {
      if q.Down? {
        ZipAll(q.rest, p, Hook(q, t));
        var r := Append(q, p);
        if At(r, t, RootOf(t, nil)) {
          ZipUp(r, t, RootOf(t, nil));
        }
        if At(Append(q.rest, p), Hook(q, t), RootOf(Hook(q, t), nil)) {
          if q.side == Left {
            ZipLeft(r.rest, Hook(q, t), q.node);
          } else {
            ZipRight(r.rest, Hook(q, t), q.node);
          }
          Reads(r, t, if q.side == Left then q.node.left else q.node.right);
        }
      }
    }
  }
}
