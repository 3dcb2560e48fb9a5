/** The colour rules, stated on shapes, and what each step of the two repair loops does to them. */
module RbBalance {
  import opened Numbers
  import opened Watches
  import opened RbShape
  import opened Sequences

  // ----- the rules -----

  ghost function Shade(t: Tree): Colour {
    if t.Leaf? then Black else t.colour
  }

  /** The number of black nodes on the way down the left edge. */
  ghost function Blacks(t: Tree): nat {
    match t
    case Leaf => 0
    case Fork(l, _, c, _, _) => Blacks(l) + (if c == Black then 1 else 0)
  }

  /** Every way down from a node meets the same number of black nodes. */
  ghost predicate Balanced(t: Tree) {
    match t
    case Leaf => true
    case Fork(l, _, _, _, r) => Balanced(l) && Balanced(r) && Blacks(l) == Blacks(r)
  }

  /** The children of a red node are black. */
  ghost predicate NoRedRed(t: Tree) {
    match t
    case Leaf => true
    case Fork(l, _, c, _, r) => NoRedRed(l) && NoRedRed(r) && (c == Red ==> Shade(l) == Black && Shade(r) == Black)
  }

  ghost predicate RedBlack(t: Tree) {
    Balanced(t) && NoRedRed(t) && Shade(t) == Black
  }

  // ----- the same rules on a path, for a subtree with h black nodes on each way down and a root of colour c -----

  ghost predicate PathBalanced(p: Path, h: nat) {
    match p
    case Top => true
    case Down(_, _, c, _, s, rest) =>
      Balanced(s) && Blacks(s) == h && PathBalanced(rest, h + if c == Black then 1 else 0)
  }

  ghost predicate PathNoRedRed(p: Path, below: Colour) {
    match p
    case Top => true
    case Down(_, _, c, _, s, rest) =>
      && NoRedRed(s) && (c == Red ==> below == Black && Shade(s) == Black)
      && PathNoRedRed(rest, c)
  }

  ghost function TopShade(p: Path, below: Colour): Colour {
    match p
    case Top => below
    case Down(_, _, c, _, _, rest) => TopShade(rest, c)
  }

  lemma {:induction false} PlugBalanced(p: Path, t: Tree)
    ensures Balanced(Plug(p, t)) <==> Balanced(t) && PathBalanced(p, Blacks(t))
  {
    if p.Down? {
      PlugBalanced(p.rest, Hook(p, t));
    }
  }

  lemma {:induction false} PlugNoRedRed(p: Path, t: Tree)
    ensures NoRedRed(Plug(p, t)) <==> NoRedRed(t) && PathNoRedRed(p, Shade(t))
    ensures Shade(Plug(p, t)) == TopShade(p, Shade(t))
  {
    if p.Down? {
      PlugNoRedRed(p.rest, Hook(p, t));
    }
  }

  lemma PathBlacken(p: Path, c: Colour)
    requires PathNoRedRed(p, c)
    ensures PathNoRedRed(p, Black)
  {
  }

  // ----- keys in ascending order -----

  ghost function Keys(t: Tree): seq<Watch> {
    match t
    case Leaf => []
    case Fork(l, _, _, k, r) => Keys(l) + [k] + Keys(r)
  }

  ghost function Before(p: Path): seq<Watch> {
    match p
    case Top => []
    case Down(s, _, _, k, sib, rest) => if s == Left then Before(rest) else Before(rest) + Keys(sib) + [k]
  }

  ghost function After(p: Path): seq<Watch> {
    match p
    case Top => []
    case Down(s, _, _, k, sib, rest) => if s == Left then [k] + Keys(sib) + After(rest) else After(rest)
  }

  ghost function AllKeys(p: Path, t: Tree): seq<Watch> {
    Before(p) + Keys(t) + After(p)
  }

  lemma HookKeys(p: Path, t: Tree)
    requires p.Down?
    ensures AllKeys(p.rest, Hook(p, t)) == AllKeys(p, t)
  {
  }

  lemma SameKeys(p: Path, t: Tree, u: Tree)
    requires Keys(t) == Keys(u)
    ensures AllKeys(p, t) == AllKeys(p, u)
  {
  }

  lemma RotatedLeftKeys(t: Tree)
    requires t.Fork? && t.right.Fork?
    ensures Keys(RotatedLeft(t)) == Keys(t)
  {
    var a, b, d := Keys(t.left), Keys(t.right.left), Keys(t.right.right);
    assert Keys(RotatedLeft(t)) == (a + [t.key] + b) + [t.right.key] + d;
    assert Keys(t) == a + [t.key] + (b + [t.right.key] + d);
    Regroup(a + [t.key], b + [t.right.key], d);
    Regroup(a + [t.key], b, [t.right.key]);
  }

  lemma RotatedRightKeys(t: Tree)
    requires t.Fork? && t.left.Fork?
    ensures Keys(RotatedRight(t)) == Keys(t)
  {
    RotatedLeftKeys(RotatedRight(t));
  }

  lemma {:induction false} PlugKeys(p: Path, t: Tree)
    ensures Keys(Plug(p, t)) == AllKeys(p, t)
  {
    if p.Down? {
      PlugKeys(p.rest, Hook(p, t));
      HookKeys(p, t);
    }
  }

  /** The number of keys that precede the root of t in the whole tree. */
  ghost function Place(p: Path, t: Tree): nat {
    |Before(p)| + if t.Fork? then |Keys(t.left)| else 0
  }

  lemma ForkKeys(p: Path, t: Tree)
    requires t.Fork?
    ensures AllKeys(p, t) == (Before(p) + Keys(t.left)) + [t.key] + (Keys(t.right) + After(p))
  {
    var b, l, r, a := Before(p), Keys(t.left), Keys(t.right), After(p);
    assert b + (l + [t.key] + r) + a == (b + l) + [t.key] + (r + a);
  }

  lemma KeyAtPlace(p: Path, t: Tree)
    requires t.Fork?
    ensures var s := Keys(Plug(p, t)); Place(p, t) < |s| && s[Place(p, t)] == t.key
  {
    PlugKeys(p, t);
    ForkKeys(p, t);
  }

  // ----- nodes in ascending order of their keys -----

  ghost function InOrder(t: Tree): seq<Node> {
    match t
    case Leaf => []
    case Fork(l, n, _, _, r) => InOrder(l) + [n] + InOrder(r)
  }

  lemma {:induction false} InOrderLength(t: Tree)
    ensures |InOrder(t)| == |Keys(t)|
  {
    if t.Fork? {
      InOrderLength(t.left);
      InOrderLength(t.right);
    }
  }

  /** The nodes of t keep their places in the whole tree. */
  lemma {:induction false} PlugInOrder(p: Path, t: Tree, j: nat)
    requires j < |InOrder(t)|
    ensures var i := |Before(p)| + j;
            i < |InOrder(Plug(p, t))| && InOrder(Plug(p, t))[i] == InOrder(t)[j]
  {
    if p.Down? {
      InOrderLength(p.sibling);
      PlugInOrder(p.rest, Hook(p, t), if p.side == Left then j else |InOrder(p.sibling)| + 1 + j);
    }
  }

  lemma PlaceInOrder(p: Path, t: Tree)
    requires t.Fork?
    ensures Place(p, t) < |InOrder(Plug(p, t))| && InOrder(Plug(p, t))[Place(p, t)] == t.node
  {
    InOrderLength(t.left);
    PlugInOrder(p, t, |Keys(t.left)|);
  }

  // ----- lengths of the ways down -----

  /** The number of nodes on the longest way down. */
  ghost function Height(t: Tree): nat {
    if t.Leaf? then 0 else 1 + Max(Height(t.left), Height(t.right))
  }

  /** The number of nodes on the shortest way down. */
  ghost function Shortest(t: Tree): nat {
    if t.Leaf? then 0 else 1 + Min(Shortest(t.left), Shortest(t.right))
  }

  ghost function Depth(p: Path): nat {
    if p.Top? then 0 else 1 + Depth(p.rest)
  }

  lemma {:induction false} PlugHeight(p: Path, t: Tree)
    ensures Depth(p) + Height(t) <= Height(Plug(p, t))
  {
    if p.Down? {
      PlugHeight(p.rest, Hook(p, t));
    }
  }

  ghost function Pow2(n: nat): nat {
    if n == 0 then 1 else 2 * Pow2(n - 1)
  }

  lemma {:induction false} Pow2Monotone(a: nat, b: nat)
    requires a <= b
    ensures Pow2(a) <= Pow2(b)
  {
    if a < b {
      Pow2Monotone(a, b - 1);
    }
  }

  lemma {:induction false} Pow2Sum(a: nat, b: nat)
    ensures Pow2(a + b) == Pow2(a) * Pow2(b)
  {
    if a > 0 {
      Pow2Sum(a - 1, b);
      assert a + b - 1 == (a - 1) + b;
    }
  }

  /** Between the black nodes of a way down there is room for as many red ones. */
  lemma {:induction false} HeightBounds(t: Tree)
    requires Balanced(t) && NoRedRed(t)
    ensures Blacks(t) <= Shortest(t) && Height(t) <= 2 * Blacks(t) + (if Shade(t) == Red then 1 else 0)
    ensures Pow2(Blacks(t)) <= |Keys(t)| + 1
  {
    if t.Fork? {
      HeightBounds(t.left);
      HeightBounds(t.right);
    }
  }

  /** The longest way from the root to a leaf is at most twice the shortest, and in a tree of n keys
      it has at most 2 * log2(n + 1) nodes. */
  lemma RedBlackIsShallow(t: Tree)
    requires RedBlack(t)
    ensures Height(t) <= 2 * Shortest(t)
    ensures Pow2(Height(t)) <= (|Keys(t)| + 1) * (|Keys(t)| + 1)
  {
    HeightBounds(t);
    var b, n := Blacks(t), |Keys(t)| + 1;
    Pow2Monotone(Height(t), b + b);
    Pow2Sum(b, b);
    SquareMonotone(Pow2(b), n);
  }

  lemma SquareMonotone(a: nat, b: nat)
    requires a <= b
    ensures a * a <= b * b
  {
    assert a * a <= a * b <= b * b;
  }

  // ----- positions relative to a side -----

  function Near(s: Side, t: Tree): Tree
    requires t.Fork?
  {
    if s == Left then t.left else t.right
  }

  function Far(s: Side, t: Tree): Tree
    requires t.Fork?
  {
    if s == Left then t.right else t.left
  }

  function Join(s: Side, near: Tree, n: Node, c: Colour, k: Watch, far: Tree): Tree {
    if s == Left then Fork(near, n, c, k, far) else Fork(far, n, c, k, near)
  }

  // ----- insertion -----

  /** All rules hold, except that the red root of t may hang below a red node. */
  ghost predicate Inserting(p: Path, t: Tree) {
    && t.Fork? && t.colour == Red && NoRedRed(t) && Balanced(t)
    && PathBalanced(p, Blacks(t)) && PathNoRedRed(p, Black)
    && (p.Down? ==> TopShade(p, Red) == Black)
  }

  ghost predicate RedParent(p: Path) {
    p.Down? && p.colour == Red
  }

  lemma RedParentHasParent(p: Path, t: Tree)
    requires Inserting(p, t) && RedParent(p)
    ensures p.rest.Down? && p.rest.colour == Black
  {
    assert TopShade(p, Red) == TopShade(p.rest, Red);
    assert PathNoRedRed(p.rest, Red);
  }

  lemma StartInserting(p: Path, z: Node, k: Watch)
    requires RedBlack(Plug(p, Leaf))
    ensures Inserting(p, Fork(Leaf, z, Red, k, Leaf))
  {
    PlugBalanced(p, Leaf);
    PlugNoRedRed(p, Leaf);
    assert p.Down? ==> TopShade(p, Red) == TopShade(p, Black);
  }

  lemma DoneInserting(p: Path, t: Tree)
    requires Inserting(p, t) && !RedParent(p)
    ensures Plug(p, t).Fork? && RedBlack(Plug(p, t).(colour := Black))
    ensures p.Down? ==> Plug(p, t).colour == Black
  {
    PlugBalanced(p, t);
    if p.Top? {
      assert RedBlack(t.(colour := Black));
    } else {
      assert PathNoRedRed(p, Red);
      PlugNoRedRed(p, t);
      PlugForks(p, t);
      assert Plug(p, t).(colour := Black) == Plug(p, t);
    }
  }

  lemma PlugForks(p: Path, t: Tree)
    requires t.Fork?
    ensures Plug(p, t).Fork?
  {
  }

  /** Parent and uncle turn black, the grandparent turns red and becomes the focus. */
  function RecolouredPath(p: Path): Path
    requires p.Down? && p.rest.Down?
  {
    p.rest.rest
  }

  function Recoloured(p: Path, t: Tree): Tree
    requires p.Down? && p.rest.Down? && p.rest.sibling.Fork?
  {
    var g := p.rest;
    Hook(g.(colour := Red, sibling := g.sibling.(colour := Black)), Hook(p.(colour := Black), t))
  }

  lemma RecolourKeeps(p: Path, t: Tree)
    requires Inserting(p, t) && RedParent(p) && p.rest.Down? && Shade(p.rest.sibling) == Red
    ensures Inserting(RecolouredPath(p), Recoloured(p, t))
    ensures Depth(RecolouredPath(p)) < Depth(p)
  {
    RedParentHasParent(p, t);
    var g, u := p.rest, Hook(p.(colour := Black), t);
    assert PathNoRedRed(g, Red) && PathBalanced(g, Blacks(t));
    assert NoRedRed(u) && Balanced(u) && Blacks(u) == Blacks(t) + 1;
    assert TopShade(p, Red) == TopShade(g.rest, Black);
    assert g.rest.Down? ==> TopShade(g.rest, Black) == TopShade(g.rest, Red);
  }

  lemma RecolourKeepsKeys(p: Path, t: Tree)
    requires p.Down? && p.rest.Down? && p.rest.sibling.Fork?
    ensures AllKeys(RecolouredPath(p), Recoloured(p, t)) == AllKeys(p, t)
  {
    HookKeys(p, t);
    HookKeys(p.rest, Hook(p, t));
    assert Keys(Hook(p.(colour := Black), t)) == Keys(Hook(p, t));
    SameKeys(p.rest.rest, Hook(p.rest, Hook(p, t)), Recoloured(p, t));
  }

  /** x moves to the outer side of its parent: the parent is rotated below it. */
  function StraightenedPath(p: Path, t: Tree): Path
    requires t.Fork? && p.Down? && p.rest.Down?
  {
    var s := p.rest.side;
    Down(s, t.node, t.colour, t.key, Far(s, t), p.rest)
  }

  function Straightened(p: Path, t: Tree): Tree
    requires t.Fork? && p.Down? && p.rest.Down?
  {
    var s := p.rest.side;
    Join(s, p.sibling, p.node, p.colour, p.key, Near(s, t))
  }

  lemma StraightenKeeps(p: Path, t: Tree)
    requires Inserting(p, t) && RedParent(p) && p.rest.Down? && p.side != p.rest.side
    ensures Inserting(StraightenedPath(p, t), Straightened(p, t)) && RedParent(StraightenedPath(p, t))
  {
    RedParentHasParent(p, t);
    var g := p.rest;
    assert PathNoRedRed(g, Red) && PathBalanced(g, Blacks(t));
    assert TopShade(p, Red) == TopShade(g, Red);
  }

  lemma StraightenKeepsKeys(p: Path, t: Tree)
    requires t.Fork? && p.Down? && p.rest.Down? && p.side != p.rest.side
    ensures AllKeys(StraightenedPath(p, t), Straightened(p, t)) == AllKeys(p, t)
  {
    var p', t' := StraightenedPath(p, t), Straightened(p, t);
    HookKeys(p, t);
    HookKeys(p', t');
    if p.side == Left {
      assert Hook(p', t') == RotatedRight(Hook(p, t));
      RotatedRightKeys(Hook(p, t));
    } else {
      assert Hook(p', t') == RotatedLeft(Hook(p, t));
      RotatedLeftKeys(Hook(p, t));
    }
    SameKeys(p.rest, Hook(p, t), Hook(p', t'));
  }

  /** The black parent takes the place of the grandparent, which turns red and becomes x's sibling. */
  function RaisedPath(p: Path): Path
    requires p.Down? && p.rest.Down?
  {
    var g := p.rest;
    Down(g.side, p.node, Black, p.key, Join(g.side, p.sibling, g.node, Red, g.key, g.sibling), g.rest)
  }

  lemma RaiseKeeps(p: Path, t: Tree)
    requires Inserting(p, t) && RedParent(p) && p.rest.Down? && Shade(p.rest.sibling) == Black && p.side == p.rest.side
    ensures Inserting(RaisedPath(p), t) && !RedParent(RaisedPath(p))
    ensures Depth(RaisedPath(p)) < Depth(p)
  {
    RedParentHasParent(p, t);
    var g := p.rest;
    assert PathNoRedRed(g, Red) && PathBalanced(g, Blacks(t));
    var u := Join(g.side, p.sibling, g.node, Red, g.key, g.sibling);
    assert NoRedRed(u) && Balanced(u) && Blacks(u) == Blacks(t);
    assert TopShade(p, Red) == TopShade(g.rest, Black);
  }

  lemma RaiseKeepsKeys(p: Path, t: Tree)
    requires p.Down? && p.rest.Down? && p.side == p.rest.side
    ensures AllKeys(RaisedPath(p), t) == AllKeys(p, t)
  {
    HookKeys(p, t);
    HookKeys(p.rest, Hook(p, t));
    HookKeys(RaisedPath(p), t);
    var u, v := Hook(p.rest, Hook(p, t)), Hook(RaisedPath(p), t);
    if p.side == Left {
      RotatedRightKeys(u);
      assert Keys(v) == Keys(RotatedRight(u));
    } else {
      RotatedLeftKeys(u);
      assert Keys(v) == Keys(RotatedLeft(u));
    }
    SameKeys(p.rest.rest, u, v);
  }

  // ----- deletion -----

  function Blackened(t: Tree): Tree {
    if t.Leaf? then t else t.(colour := Black)
  }

  /** All rules would hold if the root of t were black and counted twice when it is black already. */
  ghost predicate Deleting(p: Path, t: Tree) {
    && Balanced(t) && NoRedRed(Blackened(t))
    && (p.Down? ==> PathBalanced(p, Blacks(t) + 1) && PathNoRedRed(p, Black) && TopShade(p, Black) == Black)
  }

  ghost predicate MissingBlack(p: Path, t: Tree) {
    p.Down? && Shade(t) == Black
  }

  lemma StartDeleting(p: Path, t: Tree)
    requires RedBlack(Plug(p, t)) && t.Fork? && (t.left.Leaf? || t.right.Leaf?)
    ensures t.colour == Black ==> Deleting(p, OnlyChild(t))
    ensures t.colour == Red ==> RedBlack(Plug(p, OnlyChild(t)))
  {
    PlugBalanced(p, t);
    PlugNoRedRed(p, t);
    var s := OnlyChild(t);
    if t.colour == Red {
      assert Blacks(s) == 0 && Shade(s) == Black;
      PlugBalanced(p, s);
      PathBlacken(p, Red);
      PlugNoRedRed(p, s);
      assert p.Down? ==> TopShade(p, Red) == TopShade(p, Black);
    }
  }

  lemma DoneDeleting(p: Path, t: Tree)
    requires Deleting(p, t) && !MissingBlack(p, t)
    ensures RedBlack(Plug(p, Blackened(t)))
  {
    PlugBalanced(p, Blackened(t));
    PlugNoRedRed(p, Blackened(t));
  }

  lemma BlackenedKeys(p: Path, t: Tree)
    ensures AllKeys(p, Blackened(t)) == AllKeys(p, t)
  {
  }

  lemma SiblingForks(p: Path, t: Tree)
    requires Deleting(p, t) && MissingBlack(p, t)
    ensures p.sibling.Fork?
  {
  }

  /** A red sibling is rotated above the parent; the focus sinks by one level. */
  function LoweredPath(p: Path): Path
    requires p.Down? && p.sibling.Fork?
  {
    var s, w := p.side, p.sibling;
    Down(s, p.node, Red, p.key, Near(s, w), Down(s, w.node, Black, w.key, Far(s, w), p.rest))
  }

  lemma LowerKeeps(p: Path, t: Tree)
    requires Deleting(p, t) && MissingBlack(p, t) && Shade(p.sibling) == Red
    ensures Deleting(LoweredPath(p), t) && LoweredPath(p).sibling.Fork? && Shade(LoweredPath(p).sibling) == Black
  {
    var s, w, p' := p.side, p.sibling, LoweredPath(p);
    assert p.colour == Black && PathNoRedRed(p.rest, Black) && PathBalanced(p.rest, Blacks(t) + 2);
    assert NoRedRed(Near(s, w)) && NoRedRed(Far(s, w)) && Balanced(Near(s, w)) && Balanced(Far(s, w));
    assert Blacks(Near(s, w)) == Blacks(Far(s, w)) == Blacks(t) + 1;
    assert PathNoRedRed(p'.rest, Red);
    assert TopShade(p, Black) == TopShade(p.rest, Black)
           && TopShade(p', Black) == TopShade(p'.rest, Red) == TopShade(p.rest, Black);
  }

  lemma LowerKeepsKeys(p: Path, t: Tree)
    requires p.Down? && p.sibling.Fork?
    ensures AllKeys(LoweredPath(p), t) == AllKeys(p, t)
  {
    var p' := LoweredPath(p);
    HookKeys(p, t);
    HookKeys(p', t);
    HookKeys(p'.rest, Hook(p', t));
    var u, v := Hook(p, t), Hook(p'.rest, Hook(p', t));
    if p.side == Left {
      RotatedLeftKeys(u);
      assert Keys(v) == Keys(RotatedLeft(u));
    } else {
      RotatedRightKeys(u);
      assert Keys(v) == Keys(RotatedRight(u));
    }
    SameKeys(p.rest, u, v);
  }

  /** The sibling turns red and the parent becomes the focus. */
  function Merged(p: Path, t: Tree): Tree
    requires p.Down? && p.sibling.Fork?
  {
    Hook(p.(sibling := p.sibling.(colour := Red)), t)
  }

  lemma MergeKeeps(p: Path, t: Tree)
    requires Deleting(p, t) && MissingBlack(p, t) && p.sibling.Fork? && Shade(p.sibling) == Black
    requires Shade(p.sibling.left) == Black && Shade(p.sibling.right) == Black
    ensures Deleting(p.rest, Merged(p, t))
    ensures AllKeys(p.rest, Merged(p, t)) == AllKeys(p, t)
  {
    HookKeys(p, t);
    SameKeys(p.rest, Hook(p, t), Merged(p, t));
    PathBlacken(p.rest, p.colour);
    assert Blackened(t) == t;
    assert TopShade(p, Black) == TopShade(p.rest, p.colour);
    assert p.rest.Down? ==> TopShade(p.rest, p.colour) == TopShade(p.rest, Black);
  }

  /** The red inner child of the sibling is rotated above it, so that the outer child is red. */
  function TurnedSibling(s: Side, w: Tree): Tree
    requires w.Fork? && Near(s, w).Fork?
  {
    var v := Near(s, w);
    Join(s, Near(s, v), v.node, Black, v.key, Join(s, Far(s, v), w.node, Red, w.key, Far(s, w)))
  }

  lemma TurnKeeps(p: Path, t: Tree)
    requires Deleting(p, t) && MissingBlack(p, t) && p.sibling.Fork? && Shade(p.sibling) == Black
    requires Shade(Near(p.side, p.sibling)) == Red && Shade(Far(p.side, p.sibling)) == Black
    ensures Deleting(p.(sibling := TurnedSibling(p.side, p.sibling)), t)
  {
    var s, w := p.side, p.sibling;
    var v := Near(s, w);
    var w' := TurnedSibling(s, w);
    assert NoRedRed(v) && NoRedRed(Far(s, w)) && Balanced(v) && Balanced(Far(s, w));
    assert Shade(Near(s, v)) == Black && Shade(Far(s, v)) == Black;
    assert NoRedRed(Far(s, w')) && Balanced(Far(s, w')) && Blacks(Far(s, w')) == Blacks(v);
    assert NoRedRed(w') && Balanced(w') && Blacks(w') == Blacks(w);
    assert TopShade(p.(sibling := w'), Black) == TopShade(p.rest, p.colour) == TopShade(p, Black);
  }

  lemma TurnKeepsKeys(p: Path, t: Tree)
    requires p.Down? && p.sibling.Fork? && Near(p.side, p.sibling).Fork?
    ensures AllKeys(p.(sibling := TurnedSibling(p.side, p.sibling)), t) == AllKeys(p, t)
  {
    var w, w' := p.sibling, TurnedSibling(p.side, p.sibling);
    if p.side == Left {
      RotatedRightKeys(w);
      assert Keys(w') == Keys(RotatedRight(w));
    } else {
      RotatedLeftKeys(w);
      assert Keys(w') == Keys(RotatedLeft(w));
    }
  }

  /** The sibling takes the parent's place and colour; parent and red outer child turn black. */
  function Settled(p: Path, t: Tree): Tree
    requires p.Down? && p.sibling.Fork? && Far(p.side, p.sibling).Fork?
  {
    var s, w := p.side, p.sibling;
    Join(s, Join(s, t, p.node, Black, p.key, Near(s, w)), w.node, p.colour, w.key, Far(s, w).(colour := Black))
  }

  lemma SettleKeeps(p: Path, t: Tree)
    requires Deleting(p, t) && MissingBlack(p, t) && p.sibling.Fork? && Shade(p.sibling) == Black
    requires Shade(Far(p.side, p.sibling)) == Red
    ensures RedBlack(Plug(p.rest, Settled(p, t)))
  {
    var s, w, u := p.side, p.sibling, Settled(p, t);
    assert NoRedRed(Near(s, w)) && NoRedRed(Far(s, w)) && Balanced(Near(s, w)) && Balanced(Far(s, w)) && NoRedRed(t);
    assert NoRedRed(Near(s, u)) && Balanced(Near(s, u)) && Blacks(Near(s, u)) == Blacks(t) + 1;
    assert NoRedRed(Far(s, u)) && Balanced(Far(s, u)) && Blacks(Far(s, u)) == Blacks(t) + 1;
    assert TopShade(p, Black) == TopShade(p.rest, p.colour);
    PlugBalanced(p.rest, u);
    PlugNoRedRed(p.rest, u);
  }

  lemma SettleKeepsKeys(p: Path, t: Tree)
    requires p.Down? && p.sibling.Fork? && Far(p.side, p.sibling).Fork?
    ensures AllKeys(p.rest, Settled(p, t)) == AllKeys(p, t)
  {
    HookKeys(p, t);
    var u, v := Hook(p, t), Settled(p, t);
    if p.side == Left {
      RotatedLeftKeys(u);
      assert Keys(v) == Keys(RotatedLeft(u));
    } else {
      RotatedRightKeys(u);
      assert Keys(v) == Keys(RotatedRight(u));
    }
    SameKeys(p.rest, u, v);
  }
}
