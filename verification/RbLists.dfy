/** The list cursor, which reads the keys of a tree in ascending order. */
module RbLists {
  import opened Options
  import opened Watches
  import opened RbShape
  import opened RbBalance
  import opened RbHeap
  import opened RbCursor
  import opened RbOps

  class RbList {
    var nextp: Node
    /** How many keys were read, and where the next one is. */
    ghost var pos: nat
    ghost var path: Path
    ghost var sub: Tree

    ghost predicate On(tree: RbTree)
      reads this, tree, tree.repr, tree.nil`colour
    {
      && tree.Valid()
      && if pos < |tree.Contents()| then Holds(tree, tree.shape, pos, path, sub, nextp)
         else pos == |tree.Contents()| && nextp == tree.nil
    }

    /** The cursor starts at the leftmost node. */
    constructor (tree: RbTree)
      requires tree.Valid()
      ensures On(tree) && pos == 0 <= |tree.Contents()|
    {
      hide RbTree.At, Keys, InOrder, Before, After, RedBlack, Ascending, Orders, Place;
      var n := tree.root;
      ghost var p, t := Top, tree.shape;
      OuterStarts(tree);
      EmptyContents(tree);
      if n != tree.nil {
        ChildLooks(tree, p, t, n);
        while n.left != tree.nil
          invariant tree.At(p, t, n) && AllOn(Left, p) && t.Fork? && Plug(p, t) == tree.shape
          invariant n.left == tree.nil <==> t.left.Leaf?
          decreases t
        {
          tree.ZipLeft(p, t, n);
          n := n.left;
          p, t := LeftOf(t, p), t.left;
          ChildLooks(tree, p, t, n);
        }
        AllLeftBefore(p);
        FocusHolds(tree, p, t, n);
        LeftmostPlaced(p, t);
      }
      nextp, pos, path, sub := n, 0, p, t;
    }

    /** The next key, or None at the end. */
    method Read(tree: RbTree) returns (r: Option<Watch>)
      requires On(tree)
      modifies this
      ensures On(tree) && pos <= |tree.Contents()|
      ensures if old(pos) < |tree.Contents()| then r == Some(tree.Contents()[old(pos)]) && pos == old(pos) + 1
              else r == None && pos == old(pos)
    {
      hide RbTree.At, Keys, InOrder, Plug, Before, After, RedBlack, Ascending, Orders, Place;
      r := None;
      HoldsInside(tree, this);
      if nextp != tree.nil {
        r := Some(nextp.key);
        var y;
        ghost var p', t', q;
        y, p', t', q := Successor(tree, nextp, path, sub);
        nextp, path, sub, pos := y, p', t', pos + 1;
      }
    }
  }

  lemma LeftmostPlaced(p: Path, t: Tree)
    requires Before(p) == [] && t.Fork? && t.left.Leaf?
    ensures Place(p, t) == 0
  {
  }

  lemma HoldsInside(tree: RbTree, list: RbList)
    requires list.On(tree)
    ensures list.nextp == tree.nil <==> list.pos == |tree.Contents()|
    ensures list.nextp != tree.nil ==> list.nextp.key == tree.Contents()[list.pos]
  {
    if list.pos < |tree.Contents()| {
      tree.Reads(list.path, list.sub, list.nextp);
    }
  }

  /** Opening a list and reading it until the end yields every key once, in ascending order. */
  method ReadAll(tree: RbTree) returns (all: seq<Watch>)
    requires tree.Valid()
    ensures all == tree.Contents()
  {
    hide RbList.On, RbTree.Valid, RbTree.Contents;
    var list := new RbList(tree);
    all := [];
    var r := list.Read(tree);
    while r.Some?
      invariant fresh(list) && list.On(tree) && list.pos <= |tree.Contents()|
      invariant if r.Some? then list.pos == |all| + 1 && all + [r.value] == tree.Contents()[..list.pos]
                else all == tree.Contents()
      decreases |tree.Contents()| - |all|
    {
      all := all + [r.value];
      r := list.Read(tree);
    }
  }
}
