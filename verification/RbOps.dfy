/** The public operations on a tree: find, search (insert unless present), delete and lookup by mode. */
module RbOps {
  import opened Options
  import opened Watches
  import opened RbShape
  import opened RbBalance
  import opened RbHeap
  import opened RbInsert
  import opened RbCursor
  import opened RbDelete

  /** The stored key equal to k, if there is one. */
  ghost predicate Finds(cmp: Compare, s: seq<Watch>, k: Watch, r: Option<Watch>) {
    match r
    case Some(v) => v in s && cmp(k, v) == 0
    case None => forall v | v in s :: cmp(k, v) != 0
  }

  lemma SplitsFinds(cmp: Compare, s: seq<Watch>, k: Watch, i: nat)
    requires Orders(cmp) && Ascending(cmp, s) && Splits(cmp, s, k, i)
    ensures Finds(cmp, s, k, if Present(cmp, s, k, i) then Some(s[i]) else None)
  {
    if !Present(cmp, s, k, i) {
      forall v | v in s ensures cmp(k, v) != 0 {
        var j :| 0 <= j < |s| && s[j] == v;
        if i < j {
          OrdersStrictly(cmp, k, s[i], s[j]);
        }
      }
    }
  }

  /** At most one stored key is equal to k. */
  lemma FindsUnique(cmp: Compare, s: seq<Watch>, k: Watch, r: Option<Watch>, r': Option<Watch>)
    requires Orders(cmp) && Ascending(cmp, s) && Finds(cmp, s, k, r) && Finds(cmp, s, k, r')
    ensures r == r'
  {
    if r.Some? && r'.Some? {
      var i :| 0 <= i < |s| && s[i] == r.value;
      var j :| 0 <= j < |s| && s[j] == r'.value;
      assert cmp(s[i], k) == 0 && cmp(s[j], k) == 0;
      assert cmp(s[i], s[j]) <= 0 && cmp(s[j], s[i]) <= 0;
      assert i == j;
    }
  }

  method Find(tree: RbTree, k: Watch) returns (r: Option<Watch>, ghost visited: nat)
    requires tree.Valid()
    ensures Finds(tree.cmp, tree.Contents(), k, r)
    ensures visited == Visits(tree.cmp, tree.shape, k) && Few(visited, |tree.Contents()|)
  {
    if tree.root == tree.nil {
      EmptyContents(tree);
      VisitsFew(tree.cmp, tree.shape, k);
      return None, 0;
    }
    var x;
    ghost var i;
    x, i, visited := Traverse(tree, false, k);
    SplitsFinds(tree.cmp, tree.Contents(), k, i);
    NilOutside(tree);
    r := if x == tree.nil then None else Some(x.key);
  }

  lemma EmptyContents(tree: RbTree)
    requires tree.Valid()
    ensures tree.root == tree.nil <==> tree.Contents() == []
  {
    tree.Reads(Top, tree.shape, tree.root);
  }

  lemma NilOutside(tree: RbTree)
    requires tree.Valid()
    ensures tree.nil !in tree.repr
  {
  }

  /** Stores k unless an equal key is stored already; r is the key that is stored afterwards. */
  method Search(tree: RbTree, k: Watch) returns (r: Watch, ghost i: nat, ghost visited: nat)
    requires tree.Valid()
    modifies tree, tree.repr
    ensures tree.Valid()
    ensures Splits(tree.cmp, old(tree.Contents()), k, i)
    ensures var s := old(tree.Contents());
            if Present(tree.cmp, s, k, i) then r == s[i] && tree.Contents() == s && tree.repr == old(tree.repr)
            else r == k && tree.Contents() == Inserted(s, i, k) && fresh(tree.repr - old(tree.repr))
    ensures old(tree.repr) <= tree.repr
    ensures Finds(tree.cmp, tree.Contents(), k, Some(r))
    ensures tree.rotations <= old(tree.rotations) + 2
    ensures visited == old(Visits(tree.cmp, tree.shape, k)) && Few(visited, |old(tree.Contents())|)
  {
    var x;
    x, i, visited := Traverse(tree, true, k);
    r := x.key;
    SplitsFinds(tree.cmp, old(tree.Contents()), k, i);
    InsertedFinds(tree.cmp, old(tree.Contents()), k, i);
  }

  lemma InsertedFinds(cmp: Compare, s: seq<Watch>, k: Watch, i: nat)
    requires Orders(cmp) && i <= |s|
    ensures Finds(cmp, Inserted(s, i, k), k, Some(k))
  {
    assert Inserted(s, i, k)[i] == k;
    assert cmp(k, k) == 0;
  }

  /** Removes the stored key equal to k and returns it; the sentinel's up link may change. */
  method Delete(tree: RbTree, k: Watch) returns (r: Option<Watch>, ghost i: nat, ghost visited: nat)
    requires tree.Valid()
    modifies tree, tree.repr, tree.nil`up, tree.nil`colour
    ensures tree.Valid() && tree.repr <= old(tree.repr)
    ensures Splits(tree.cmp, old(tree.Contents()), k, i) && Finds(tree.cmp, old(tree.Contents()), k, r)
    ensures var s := old(tree.Contents());
            if Present(tree.cmp, s, k, i) then r == Some(s[i]) && tree.Contents() == Removed(s, i)
            else r == None && tree.Contents() == s && tree.repr == old(tree.repr)
    ensures tree.rotations <= old(tree.rotations) + 3
    ensures visited == old(Visits(tree.cmp, tree.shape, k)) && Few(visited, |old(tree.Contents())|)
  {
    var x, y, c, found;
    ghost var p, t;
    x, y, c, found, p, t, i, visited := Descend(tree, k);
    SplitsFinds(tree.cmp, tree.Contents(), k, i);
    if !found {
      return None, i, visited;
    }
    r := Some(x.key);
    ghost var freed := Remove(tree, x, p, t);
  }

  // ----- lookup by mode -----

  datatype Mode = Equal | GreaterOrEqual | LessOrEqual | Less | Greater | Next | Previous | First | Last

  /** Which stored keys a mode accepts for k, by the sign of the comparison of k with the stored key. */
  predicate Accepts(mode: Mode, c: int) {
    match mode
    case Equal => c == 0
    case GreaterOrEqual => c <= 0
    case LessOrEqual => c >= 0
    case Less => c > 0
    case Greater => c < 0
    case Next => c < 0
    case Previous => c > 0
    case First => true
    case Last => true
  }

  /** Whether a mode takes the smallest or the largest key it accepts. */
  predicate TakesSmallest(mode: Mode) {
    mode in {Equal, GreaterOrEqual, Greater, Next, First}
  }

  /** What the modes mean: the accepted key nearest to k, or the outermost one; the two modes that
      step on from a current key also ask for that key to be stored. */
  ghost predicate LooksUp(cmp: Compare, s: seq<Watch>, mode: Mode, k: Watch, r: Option<Watch>) {
    if mode in {Next, Previous} && (forall v | v in s :: cmp(k, v) != 0) then r == None
    else
      match r
      case None => forall v | v in s :: !Accepts(mode, cmp(k, v))
      case Some(w) =>
        && w in s && Accepts(mode, cmp(k, w))
        && forall v | v in s && Accepts(mode, cmp(k, v)) ::
             if TakesSmallest(mode) then cmp(w, v) <= 0 else cmp(v, w) <= 0
  }

  /** The place at which each mode looks, given the number i of keys below k. */
  ghost function Target(s: seq<Watch>, mode: Mode, present: bool, i: nat): int {
    match mode
    case Equal => if present then i else -1
    case GreaterOrEqual => i
    case LessOrEqual => if present then i else i - 1
    case Less => i - 1
    case Greater => if present then i + 1 else i
    case Next => if present then i + 1 else -1
    case Previous => if present then i - 1 else -1
    case First => 0
    case Last => |s| - 1
  }

  ghost function KeyAt(s: seq<Watch>, i: int): Option<Watch> {
    if 0 <= i < |s| then Some(s[i]) else None
  }

  lemma Signs(cmp: Compare, s: seq<Watch>, k: Watch, i: nat, j: nat)
    requires Orders(cmp) && Ascending(cmp, s) && Splits(cmp, s, k, i) && j < |s|
    ensures j < i ==> cmp(k, s[j]) > 0
    ensures j == i && Present(cmp, s, k, i) ==> cmp(k, s[j]) == 0
    ensures j >= i && (j > i || !Present(cmp, s, k, i)) ==> cmp(k, s[j]) < 0
  {
    if j > i {
      OrdersStrictly(cmp, k, s[i], s[j]);
    }
  }

  /** No accepted key lies beyond the target. */
  lemma TargetBounds(cmp: Compare, s: seq<Watch>, mode: Mode, k: Watch, i: nat, l: nat)
    requires Orders(cmp) && Ascending(cmp, s) && Splits(cmp, s, k, i) && l < |s|
    requires Accepts(mode, cmp(k, s[l])) && (mode in {Next, Previous} ==> Present(cmp, s, k, i))
    ensures var j := Target(s, mode, Present(cmp, s, k, i), i);
            0 <= j < |s| && if TakesSmallest(mode) then cmp(s[j], s[l]) <= 0 else cmp(s[l], s[j]) <= 0
  {
    Signs(cmp, s, k, i, l);
    var j := Target(s, mode, Present(cmp, s, k, i), i);
    assert cmp(s[l], s[l]) == 0;
    assert if TakesSmallest(mode) then j <= l else l <= j;
  }

  lemma TargetAccepted(cmp: Compare, s: seq<Watch>, mode: Mode, k: Watch, i: nat)
    requires Orders(cmp) && Ascending(cmp, s) && Splits(cmp, s, k, i)
    ensures var j := Target(s, mode, Present(cmp, s, k, i), i);
            0 <= j < |s| ==> Accepts(mode, cmp(k, s[j])) && (mode in {Next, Previous} ==> Present(cmp, s, k, i))
    ensures mode in {Next, Previous} && !Present(cmp, s, k, i) ==> Target(s, mode, Present(cmp, s, k, i), i) == -1
  {
    var j := Target(s, mode, Present(cmp, s, k, i), i);
    if 0 <= j < |s| {
      Signs(cmp, s, k, i, j);
    }
  }

  lemma TargetLooksUp(cmp: Compare, s: seq<Watch>, mode: Mode, k: Watch, i: nat)
    requires Orders(cmp) && Ascending(cmp, s) && Splits(cmp, s, k, i)
    ensures LooksUp(cmp, s, mode, k, KeyAt(s, Target(s, mode, Present(cmp, s, k, i), i)))
  {
    var present := Present(cmp, s, k, i);
    var j := Target(s, mode, present, i);
    hide Target, Orders, Ascending, TakesSmallest, Accepts, Splits;
    SplitsFinds(cmp, s, k, i);
    TargetAccepted(cmp, s, mode, k, i);
    if mode in {Next, Previous} && !present {
      return;
    }
    forall v | v in s && Accepts(mode, cmp(k, v))
      ensures 0 <= j < |s| && if TakesSmallest(mode) then cmp(s[j], v) <= 0 else cmp(v, s[j]) <= 0
    {
      var l :| 0 <= l < |s| && s[l] == v;
      TargetBounds(cmp, s, mode, k, i, l);
    }
  }

  lemma {:induction false} SplitPoint(cmp: Compare, s: seq<Watch>, k: Watch) returns (i: nat)
    requires Orders(cmp) && Ascending(cmp, s)
    ensures Splits(cmp, s, k, i)
  {
    if s == [] {
      i := 0;
    } else if cmp(k, s[|s| - 1]) > 0 {
      forall j | 0 <= j < |s| ensures cmp(k, s[j]) > 0 {
        OrdersStrictly(cmp, s[j], s[|s| - 1], k);
      }
      i := |s|;
    } else {
      i := SplitPoint(cmp, s[..|s| - 1], k);
    }
  }

  lemma OuterStarts(tree: RbTree)
    requires tree.Valid()
    ensures tree.At(Top, tree.shape, tree.root) && Plug(Top, tree.shape) == tree.shape
    ensures tree.root == tree.nil <==> tree.shape.Leaf?
  {
    tree.Reads(Top, tree.shape, tree.root);
  }

  /** Keeps going left until there is no further node. */
  method FirstNode(tree: RbTree) returns (y: Node)
    requires tree.Valid()
    ensures var s := tree.Contents();
            if s == [] then y == tree.nil else y in tree.repr && y.key == s[0]
  {
    hide RbTree.At, Keys, InOrder, Before, After, RedBlack, Ascending, Orders;
    var x := tree.root;
    y := tree.nil;
    ghost var p, t := Top, tree.shape;
    OuterStarts(tree);
    while x != tree.nil
      invariant tree.At(p, t, x) && AllOn(Left, p) && Plug(p, t) == tree.shape
      invariant p.Down? ==> y in tree.repr && y == p.node && y.key == p.key
      invariant p.Top? ==> y == tree.nil
      invariant x == tree.nil <==> t.Leaf?
      decreases t
    {
      ChildLooks(tree, p, t, x);
      tree.ZipLeft(p, t, x);
      y := x;
      x := x.left;
      p, t := LeftOf(t, p), t.left;
    }
    FirstEnds(p);
  }

  lemma FirstEnds(p: Path)
    requires AllOn(Left, p)
    ensures var s := Keys(Plug(p, Leaf)); if p.Top? then s == [] else |s| > 0 && s[0] == p.key
  {
    PlugKeys(p, Leaf);
    AllLeftBefore(p);
  }

  /** Keeps going right until there is no further node. */
  method LastNode(tree: RbTree) returns (y: Node)
    requires tree.Valid()
    ensures var s := tree.Contents();
            if s == [] then y == tree.nil else y in tree.repr && y.key == s[|s| - 1]
  {
    hide RbTree.At, Keys, InOrder, Before, After, RedBlack, Ascending, Orders;
    var x := tree.root;
    y := tree.nil;
    ghost var p, t := Top, tree.shape;
    OuterStarts(tree);
    while x != tree.nil
      invariant tree.At(p, t, x) && AllOn(Right, p) && Plug(p, t) == tree.shape
      invariant p.Down? ==> y in tree.repr && y == p.node && y.key == p.key
      invariant p.Top? ==> y == tree.nil
      invariant x == tree.nil <==> t.Leaf?
      decreases t
    {
      ChildLooks(tree, p, t, x);
      tree.ZipRight(p, t, x);
      y := x;
      x := x.right;
      p, t := RightOf(t, p), t.right;
    }
    LastEnds(p);
  }

  lemma LastEnds(p: Path)
    requires AllOn(Right, p)
    ensures var s := Keys(Plug(p, Leaf)); if p.Top? then s == [] else |s| > 0 && s[|s| - 1] == p.key
  {
    PlugKeys(p, Leaf);
    AllRightAfter(p);
  }

  /** The last node visited before a missing key is a neighbour of the place where the key belongs. */
  lemma Neighbour(tree: RbTree, p: Path, y: Node)
    requires tree.Valid() && tree.At(p, Leaf, tree.nil) && Plug(p, Leaf) == tree.shape && y == ParentOf(p, tree.nil)
    requires tree.root != tree.nil
    ensures p.Down? && tree.At(p.rest, Hook(p, Leaf), y)
    ensures Holds(tree, tree.shape, if p.side == Left then |Before(p)| else |Before(p)| - 1, p.rest, Hook(p, Leaf), y)
    ensures y in tree.repr && y.key == p.key
  {
    tree.Reads(p, Leaf, tree.nil);
    tree.ZipUp(p, Leaf, tree.nil);
    FocusHolds(tree, p.rest, Hook(p, Leaf), y);
    if p.side == Left {
      UpFromLeft(p, Leaf);
    } else {
      UpFromRight(p, Leaf);
    }
  }

  lemma VisitsNone(tree: RbTree)
    requires tree.Valid()
    ensures Few(0, |tree.Contents()|)
  {
  }

  /** The node a mode selects; a mode that takes a neighbour of a missing key needs a tree that is not empty. */
  method LookupNode(tree: RbTree, mode: Mode, k: Watch) returns (r: Node, ghost i: nat, ghost visited: nat)
    requires tree.Valid() && (mode in {First, Last, Equal, Next, Previous} || tree.root != tree.nil)
    ensures Splits(tree.cmp, tree.Contents(), k, i)
    ensures var s := tree.Contents();
            var j := Target(s, mode, Present(tree.cmp, s, k, i), i);
            if 0 <= j < |s| then r in tree.repr && r.key == s[j] else r == tree.nil
    ensures visited == (if mode in {First, Last} then 0 else Visits(tree.cmp, tree.shape, k))
    ensures Few(visited, |tree.Contents()|)
  {
    hide RbTree.At, Keys, InOrder, Plug, Before, After, RedBlack, Ascending, Orders, Splits, Height, Between, Visits,
        Few, TakesSmallest;
    VisitsNone(tree);
    var x, y, c, found;
    ghost var p, t;
    visited := 0;
    if mode == First || mode == Last {
      i := SplitPoint(tree.cmp, tree.Contents(), k);
      if mode == First {
        r := FirstNode(tree);
      } else {
        r := LastNode(tree);
      }
      return;
    }
    x, y, c, found, p, t, i, visited := Descend(tree, k);
    if found && mode in {Equal, GreaterOrEqual, LessOrEqual} {
      return x, i, visited;
    }
    if !found && mode in {Equal, Next, Previous} {
      return tree.nil, i, visited;
    }
    if !found {
      Neighbour(tree, p, y);
    }
    if mode == GreaterOrEqual || (!found && mode == Greater) {
      if c > 0 {
        r := NextNode(tree, y, p.rest, Hook(p, t));
        return r, i, visited;
      } else {
        return y, i, visited;
      }
    }
    if mode == LessOrEqual || (!found && mode == Less) {
      if c < 0 {
        r := PreviousNode(tree, y, p.rest, Hook(p, t));
        return r, i, visited;
      } else {
        return y, i, visited;
      }
    }
    if mode == Next || (found && mode == Greater) {
      r := NextNode(tree, x, p, t);
      return r, i, visited;
    }
    r := PreviousNode(tree, x, p, t);
  }

  /** The modes one by one. */
  lemma LooksUpMeans(cmp: Compare, s: seq<Watch>, mode: Mode, k: Watch, w: Watch)
    requires LooksUp(cmp, s, mode, k, Some(w))
    ensures w in s
    ensures mode == Equal ==> cmp(k, w) == 0
    ensures mode == GreaterOrEqual ==> cmp(k, w) <= 0 && forall v | v in s && cmp(k, v) <= 0 :: cmp(w, v) <= 0
    ensures mode == LessOrEqual ==> cmp(k, w) >= 0 && forall v | v in s && cmp(k, v) >= 0 :: cmp(v, w) <= 0
    ensures mode == Greater || mode == Next ==> cmp(k, w) < 0 && forall v | v in s && cmp(k, v) < 0 :: cmp(w, v) <= 0
    ensures mode == Less || mode == Previous ==> cmp(k, w) > 0 && forall v | v in s && cmp(k, v) > 0 :: cmp(v, w) <= 0
    ensures mode == First ==> forall v | v in s :: cmp(w, v) <= 0
    ensures mode == Last ==> forall v | v in s :: cmp(v, w) <= 0
  {
  }

  lemma LooksUpNone(cmp: Compare, s: seq<Watch>, mode: Mode, k: Watch)
    requires LooksUp(cmp, s, mode, k, None)
    ensures mode == Equal ==> forall v | v in s :: cmp(k, v) != 0
    ensures mode == GreaterOrEqual ==> forall v | v in s :: cmp(k, v) > 0
    ensures mode == LessOrEqual ==> forall v | v in s :: cmp(k, v) < 0
    ensures mode == Greater ==> forall v | v in s :: cmp(k, v) >= 0
    ensures mode == Less ==> forall v | v in s :: cmp(k, v) <= 0
    ensures mode == Next ==> (forall v | v in s :: cmp(k, v) != 0) || forall v | v in s :: cmp(k, v) >= 0
    ensures mode == Previous ==> (forall v | v in s :: cmp(k, v) != 0) || forall v | v in s :: cmp(k, v) <= 0
    ensures mode == First || mode == Last ==> forall v :: v !in s
  {
  }

  method NextNode(tree: RbTree, x: Node, ghost p: Path, ghost t: Tree) returns (y: Node)
    requires tree.At(p, t, x) && t.Fork?
    ensures var s, i := Keys(Plug(p, t)), Place(p, t) + 1;
            if i < |s| then y in tree.repr && y.key == s[i] else y == tree.nil
  {
    ghost var p', t', q;
    y, p', t', q := Successor(tree, x, p, t);
    if y != tree.nil {
      tree.Reads(p', t', y);
    }
  }

  method PreviousNode(tree: RbTree, x: Node, ghost p: Path, ghost t: Tree) returns (y: Node)
    requires tree.At(p, t, x) && t.Fork?
    ensures var s, i := Keys(Plug(p, t)), Place(p, t) - 1;
            if 0 <= i < |s| then y in tree.repr && y.key == s[i] else y == tree.nil
  {
    ghost var p', t';
    y, p', t' := Predecessor(tree, x, p, t);
    if y != tree.nil {
      tree.Reads(p', t', y);
    }
  }

  method Lookup(tree: RbTree, mode: Mode, k: Watch) returns (r: Option<Watch>, ghost visited: nat)
    requires tree.Valid() && (mode in {First, Last, Equal, Next, Previous} || tree.root != tree.nil)
    ensures LooksUp(tree.cmp, tree.Contents(), mode, k, r)
    ensures visited == (if mode in {First, Last} then 0 else Visits(tree.cmp, tree.shape, k))
    ensures Few(visited, |tree.Contents()|)
  {
    var x;
    ghost var i;
    TreeOrders(tree);
    hide RbTree.Valid, RbTree.Contents, LooksUp, Target, Visits, Few, Splits, Orders, Ascending;
    x, i, visited := LookupNode(tree, mode, k);
    NilOutside(tree);
    TargetLooksUp(tree.cmp, tree.Contents(), mode, k, i);
    r := if x == tree.nil then None else Some(x.key);
  }

  lemma TreeOrders(tree: RbTree)
    requires tree.Valid()
    ensures Orders(tree.cmp) && Ascending(tree.cmp, tree.Contents())
  {
  }
}
