/** The heap node of the red-black tree, and the shapes that a heap of such nodes represents. */
module RbShape {
  import opened Watches

  datatype Colour = Black | Red

  class Node {
    var left: Node
    var right: Node
    var up: Node
    var colour: Colour
    var key: Watch

    /** The shared dummy node: all its links lead to itself and it is black. */
    constructor Sentinel(k: Watch)
      ensures left == this && right == this && up == this && colour == Black
    {
      left, right, up, colour, key := this, this, this, Black, k;
    }

    /** A new red node, not yet reachable from its parent. */
    constructor (k: Watch, up: Node, nil: Node)
      ensures key == k && this.up == up && left == nil && right == nil && colour == Red
    {
      key, this.up, left, right, colour := k, up, nil, nil, Red;
    }
  }

  /** A tree shape records for every position the node found there, its colour and its key. */
  datatype Tree = Leaf | Fork(left: Tree, node: Node, colour: Colour, key: Watch, right: Tree)

  datatype Side = Left | Right

  /** The way from a subtree up to the root: at each step the side on which the subtree hangs, the
      parent, and the sibling subtree. */
  datatype Path = Top | Down(side: Side, node: Node, colour: Colour, key: Watch, sibling: Tree, rest: Path)

  ghost function Nodes(t: Tree): set<Node> {
    match t
    case Leaf => {}
    case Fork(l, n, _, _, r) => Nodes(l) + {n} + Nodes(r)
  }

  ghost function PathNodes(p: Path): set<Node> {
    match p
    case Top => {}
    case Down(_, n, _, _, s, rest) => {n} + Nodes(s) + PathNodes(rest)
  }

  ghost predicate Distinct(t: Tree) {
    match t
    case Leaf => true
    case Fork(l, n, _, _, r) =>
      Distinct(l) && Distinct(r) && n !in Nodes(l) && n !in Nodes(r) && Nodes(l) !! Nodes(r)
  }

  ghost predicate PathDistinct(p: Path) {
    match p
    case Top => true
    case Down(_, n, _, _, s, rest) =>
      Distinct(s) && PathDistinct(rest) && n !in Nodes(s) && n !in PathNodes(rest) && Nodes(s) !! PathNodes(rest)
  }

  ghost function RootOf(t: Tree, nil: Node): Node {
    if t.Leaf? then nil else t.node
  }

  ghost function ParentOf(p: Path, nil: Node): Node {
    if p.Top? then nil else p.node
  }

  /** The tree whose subtree on the side of p is t. */
  function Hook(p: Path, t: Tree): Tree
    requires p.Down?
  {
    if p.side == Left then Fork(t, p.node, p.colour, p.key, p.sibling) else Fork(p.sibling, p.node, p.colour, p.key, t)
  }

  /** The whole tree around t. */
  function Plug(p: Path, t: Tree): Tree {
    if p.Top? then t else Plug(p.rest, Hook(p, t))
  }

  /** The path that first climbs p and then q. */
  function Append(p: Path, q: Path): Path {
    match p
    case Top => q
    case Down(s, n, c, k, sib, rest) => Down(s, n, c, k, sib, Append(rest, q))
  }

  lemma {:induction false} AppendTop(p: Path)
    ensures Append(p, Top) == p
  {
    if p.Down? {
      AppendTop(p.rest);
    }
  }

  lemma {:induction false} PlugAppend(q: Path, p: Path, t: Tree)
    ensures Plug(Append(q, p), t) == Plug(p, Plug(q, t))
  {
    if q.Down? {
      PlugAppend(q.rest, p, Hook(q, t));
    }
  }

  function LeftOf(t: Tree, p: Path): Path
    requires t.Fork?
  {
    Down(Left, t.node, t.colour, t.key, t.right, p)
  }

  function RightOf(t: Tree, p: Path): Path
    requires t.Fork?
  {
    Down(Right, t.node, t.colour, t.key, t.left, p)
  }

  /** The path to the sibling of t. */
  function Across(p: Path, t: Tree): Path
    requires p.Down?
  {
    Down(if p.side == Left then Right else Left, p.node, p.colour, p.key, t, p.rest)
  }

  function RotatedLeft(t: Tree): Tree
    requires t.Fork? && t.right.Fork?
  {
    var u := t.right;
    Fork(Fork(t.left, t.node, t.colour, t.key, u.left), u.node, u.colour, u.key, u.right)
  }

  function RotatedRight(t: Tree): Tree
    requires t.Fork? && t.left.Fork?
  {
    var u := t.left;
    Fork(u.left, u.node, u.colour, u.key, Fork(u.right, t.node, t.colour, t.key, t.right))
  }

  /** The only subtree of a node with a missing child. */
  function OnlyChild(t: Tree): Tree
    requires t.Fork?
  {
    if t.left.Fork? then t.left else t.right
  }

  lemma SingleNode(z: Node, c: Colour, k: Watch)
    ensures Nodes(Fork(Leaf, z, c, k, Leaf)) == {z} && Distinct(Fork(Leaf, z, c, k, Leaf))
  {
  }

  lemma RotatedLeftDistinct(t: Tree)
    requires t.Fork? && t.right.Fork? && Distinct(t)
    ensures Distinct(RotatedLeft(t)) && Nodes(RotatedLeft(t)) == Nodes(t)
  {
    var r := RotatedLeft(t);
    assert Nodes(r.left) == Nodes(t.left) + {t.node} + Nodes(t.right.left);
    assert Distinct(r.left);
  }

  lemma RotatedRightDistinct(t: Tree)
    requires t.Fork? && t.left.Fork? && Distinct(t)
    ensures Distinct(RotatedRight(t)) && Nodes(RotatedRight(t)) == Nodes(t)
  {
    var r := RotatedRight(t);
    assert Nodes(r.right) == Nodes(t.left.right) + {t.node} + Nodes(t.right);
    assert Distinct(r.right);
  }

  /** The nodes reached from x spell out the shape t, and x hangs below up. */
  ghost predicate Spells(t: Tree, x: Node, up: Node, nil: Node)
    reads Nodes(t)
  {
    match t
    case Leaf => x == nil
    case Fork(l, n, c, k, r) =>
      && x == n && n.up == up && n.colour == c && n.key == k
      && Spells(l, n.left, n, nil) && Spells(r, n.right, n, nil)
  }

  /** The nodes above x, up to root, spell out the path p. */
  ghost predicate SpellsPath(p: Path, x: Node, root: Node, nil: Node)
    reads PathNodes(p)
  {
    match p
    case Top => x == root
    case Down(side, n, c, k, s, rest) =>
      && n.up == ParentOf(rest, nil) && n.colour == c && n.key == k
      && (if side == Left then n.left == x && Spells(s, n.right, n, nil) else n.right == x && Spells(s, n.left, n, nil))
      && SpellsPath(rest, n, root, nil)
  }
}
