/** The recursive walk that calls an action at fixed moments of its visit to each node. */
module RbWalks {
  import opened Watches
  import opened RbShape
  import opened Sequences
  import opened RbBalance
  import opened RbHeap
  import opened RbCursor

  datatype Moment = PreOrder | PostOrder | EndOrder | LeafVisit

  datatype Call = Call(key: Watch, moment: Moment, level: nat)

  /** The calls made for the nodes of t. */
  ghost function Calls(t: Tree, level: nat): seq<Call> {
    match t
    case Leaf => []
    case Fork(Leaf, _, _, k, Leaf) => [Call(k, LeafVisit, level)]
    case Fork(l, _, _, k, r) =>
      [Call(k, PreOrder, level)] + Calls(l, level + 1) + [Call(k, PostOrder, level)] + Calls(r, level + 1)
          + [Call(k, EndOrder, level)]
  }

  /** The visit to a node begins with its first call and ends with its last. */
  lemma CallsAround(t: Tree, level: nat)
    requires t.Fork?
    ensures var calls, n := Calls(t, level), |Calls(t, level)|;
            && n > 0
            && (if t.left.Leaf? && t.right.Leaf? then calls == [Call(t.key, LeafVisit, level)]
                else calls[0] == Call(t.key, PreOrder, level) && calls[n - 1] == Call(t.key, EndOrder, level))
  {
  }

  /** The keys called at the middle of their visit, and at its end. */
  ghost function Middles(calls: seq<Call>): seq<Watch> {
    if calls == [] then []
    else (if calls[0].moment in {PostOrder, LeafVisit} then [calls[0].key] else []) + Middles(calls[1..])
  }

  ghost function Ends(calls: seq<Call>): seq<Watch> {
    if calls == [] then []
    else (if calls[0].moment in {EndOrder, LeafVisit} then [calls[0].key] else []) + Ends(calls[1..])
  }

  lemma MiddlesFirst(x: Call, s: seq<Call>)
    ensures Middles([x] + s) == (if x.moment in {PostOrder, LeafVisit} then [x.key] else []) + Middles(s)
  {
    Consed(x, s);
  }

  lemma {:induction false} MiddlesAppend(a: seq<Call>, b: seq<Call>)
    ensures Middles(a + b) == Middles(a) + Middles(b)
  {
    if a == [] {
      assert a + b == b;
    } else {
      hide Middles;
      var x, t := a[0], a[1..];
      Uncons(a, b);
      MiddlesFirst(x, t);
      MiddlesFirst(x, t + b);
      MiddlesAppend(t, b);
      Regroup(if x.moment in {PostOrder, LeafVisit} then [x.key] else [], Middles(t), Middles(b));
    }
  }

  lemma EndsFirst(x: Call, s: seq<Call>)
    ensures Ends([x] + s) == (if x.moment in {EndOrder, LeafVisit} then [x.key] else []) + Ends(s)
  {
    Consed(x, s);
  }

  lemma {:induction false} EndsAppend(a: seq<Call>, b: seq<Call>)
    ensures Ends(a + b) == Ends(a) + Ends(b)
  {
    if a == [] {
      assert a + b == b;
    } else {
      hide Ends;
      var x, t := a[0], a[1..];
      Uncons(a, b);
      EndsFirst(x, t);
      EndsFirst(x, t + b);
      EndsAppend(t, b);
      Regroup(if x.moment in {EndOrder, LeafVisit} then [x.key] else [], Ends(t), Ends(b));
    }
  }

  /** The calls for an inner node, given those for its subtrees. */
  ghost function Around(l: seq<Call>, k: Watch, r: seq<Call>, level: nat): seq<Call> {
    [Call(k, PreOrder, level)] + l + [Call(k, PostOrder, level)] + r + [Call(k, EndOrder, level)]
  }

  lemma AroundMiddles(l: seq<Call>, k: Watch, r: seq<Call>, level: nat)
    ensures Middles(Around(l, k, r, level)) == Middles(l) + [k] + Middles(r)
  {
    var a, b, c := [Call(k, PreOrder, level)], [Call(k, PostOrder, level)], [Call(k, EndOrder, level)];
    assert a[1..] == [] && b[1..] == [] && c[1..] == [];
    MiddlesAppend(a + l + b + r, c);
    MiddlesAppend(a + l + b, r);
    MiddlesAppend(a + l, b);
    MiddlesAppend(a, l);
  }

  lemma AroundEnds(l: seq<Call>, k: Watch, r: seq<Call>, level: nat)
    ensures Ends(Around(l, k, r, level)) == Ends(l) + Ends(r) + [k]
  {
    var a, b, c := [Call(k, PreOrder, level)], [Call(k, PostOrder, level)], [Call(k, EndOrder, level)];
    assert a[1..] == [] && b[1..] == [] && c[1..] == [];
    EndsAppend(a + l + b + r, c);
    EndsAppend(a + l + b, r);
    EndsAppend(a + l, b);
    EndsAppend(a, l);
  }

  lemma InnerCalls(t: Tree, level: nat)
    requires t.Fork? && (t.left.Fork? || t.right.Fork?)
    ensures Calls(t, level) == Around(Calls(t.left, level + 1), t.key, Calls(t.right, level + 1), level)
  {
  }

  /** Called at the middle of each visit, the keys come in ascending order. */
  lemma {:induction false} MiddlesAscend(t: Tree, level: nat)
    ensures Middles(Calls(t, level)) == Keys(t)
  {
    if t.Fork? && (t.left.Fork? || t.right.Fork?) {
      MiddlesAscend(t.left, level + 1);
      MiddlesAscend(t.right, level + 1);
      InnerCalls(t, level);
      AroundMiddles(Calls(t.left, level + 1), t.key, Calls(t.right, level + 1), level);
    }
  }

  lemma Shuffle(a: seq<Watch>, b: seq<Watch>, k: Watch, a': seq<Watch>, b': seq<Watch>)
    requires multiset(a) == multiset(a') && multiset(b) == multiset(b')
    ensures multiset(a + b + [k]) == multiset(a' + [k] + b')
  {
  }

  /** Every key is called once at the end of its visit. */
  lemma {:induction false} EndsOnce(t: Tree, level: nat)
    ensures multiset(Ends(Calls(t, level))) == multiset(Keys(t))
  {
    if t.Fork? && (t.left.Fork? || t.right.Fork?) {
      EndsOnce(t.left, level + 1);
      EndsOnce(t.right, level + 1);
      InnerCalls(t, level);
      var l, r := Calls(t.left, level + 1), Calls(t.right, level + 1);
      AroundEnds(l, t.key, r, level);
      Shuffle(Ends(l), Ends(r), t.key, Keys(t.left), Keys(t.right));
    }
  }

  /** No key is called again after its end. */
  ghost predicate Quiet(c: seq<Call>) {
    forall i, j | 0 <= i < j < |c| && c[i].moment in {EndOrder, LeafVisit} :: c[i].key != c[j].key
  }

  lemma AroundQuiet(l: seq<Call>, k: Watch, r: seq<Call>, level: nat)
    requires Quiet(l) && Quiet(r)
    requires forall c | c in l || c in r :: c.key != k
    requires forall c, d | c in l && d in r :: c.key != d.key
    ensures Quiet(Around(l, k, r, level))
  {
    var w, n := Around(l, k, r, level), |l|;
    forall i, j | 0 <= i < j < |w| && w[i].moment in {EndOrder, LeafVisit}
      ensures w[i].key != w[j].key
    {
      if 1 <= i < 1 + n {
        assert w[i] == l[i - 1];
        if j < 1 + n {
          assert w[j] == l[j - 1];
        } else if 2 + n <= j < |w| - 1 {
          assert w[j] == r[j - n - 2];
        }
      } else {
        assert w[i] == r[i - n - 2];
        if j < |w| - 1 {
          assert w[j] == r[j - n - 2];
        }
      }
    }
  }

  lemma DifferentParts(l: seq<Watch>, k: Watch, r: seq<Watch>)
    requires AllDifferent(l + [k] + r)
    ensures AllDifferent(l) && AllDifferent(r) && k !in l && k !in r && forall v | v in l :: v !in r
  {
    var s, m := l + [k] + r, |l|;
    assert forall a | 0 <= a < m :: s[a] == l[a];
    assert s[m] == k;
    assert forall a | 0 <= a < |r| :: s[m + 1 + a] == r[a];
  }

  lemma {:induction false} CallsName(t: Tree, level: nat)
    ensures forall c | c in Calls(t, level) :: c.key in Keys(t)
  {
    if t.Fork? && (t.left.Fork? || t.right.Fork?) {
      CallsName(t.left, level + 1);
      CallsName(t.right, level + 1);
      InnerCalls(t, level);
    }
  }

  /** After its end call a key is not called again, so the action may dispose of the record there. */
  lemma {:induction false} EndIsLast(t: Tree, level: nat)
    requires AllDifferent(Keys(t))
    ensures Quiet(Calls(t, level))
  {
    if t.Fork? && (t.left.Fork? || t.right.Fork?) {
      InnerCalls(t, level);
      CallsName(t.left, level + 1);
      CallsName(t.right, level + 1);
      DifferentParts(Keys(t.left), t.key, Keys(t.right));
      EndIsLast(t.left, level + 1);
      EndIsLast(t.right, level + 1);
      AroundQuiet(Calls(t.left, level + 1), t.key, Calls(t.right, level + 1), level);
    }
  }

  /** The calls made below x. */
  method WalkBelow(tree: RbTree, x: Node, level: nat, ghost p: Path, ghost t: Tree) returns (calls: seq<Call>)
    requires tree.At(p, t, x)
    ensures calls == Calls(t, level)
    decreases t
  {
    hide RbTree.At;
    AtLooks(tree, p, t, x);
    if x == tree.nil {
      return [];
    }
    ChildLooks(tree, p, t, x);
    if x.left == tree.nil && x.right == tree.nil {
      return [Call(x.key, LeafVisit, level)];
    }
    calls := [Call(x.key, PreOrder, level)];
    tree.ZipLeft(p, t, x);
    var l := WalkBelow(tree, x.left, level + 1, LeftOf(t, p), t.left);
    calls := calls + l;
    calls := calls + [Call(x.key, PostOrder, level)];
    tree.ZipRight(p, t, x);
    var r := WalkBelow(tree, x.right, level + 1, RightOf(t, p), t.right);
    calls := calls + r;
    calls := calls + [Call(x.key, EndOrder, level)];
  }

  lemma AtLooks(tree: RbTree, p: Path, t: Tree, x: Node)
    requires tree.At(p, t, x)
    ensures x == tree.nil <==> t.Leaf?
  {
    tree.Reads(p, t, x);
  }

  method Walk(tree: RbTree) returns (calls: seq<Call>)
    requires tree.Valid()
    ensures calls == Calls(tree.shape, 0)
  {
    calls := WalkBelow(tree, tree.root, 0, Top, tree.shape);
  }

  /** Counts the end calls of a walk, which are as many as the stored keys. */
  method CountKeys(tree: RbTree) returns (n: nat)
    requires tree.Valid()
    ensures n == |tree.Contents()|
  {
    var calls := Walk(tree);
    n := 0;
    for i := 0 to |calls|
      invariant n == |Ends(calls[..i])|
    {
      assert calls[..i + 1] == calls[..i] + [calls[i]];
      EndsAppend(calls[..i], [calls[i]]);
      if calls[i].moment == EndOrder || calls[i].moment == LeafVisit {
        n := n + 1;
      }
    }
    assert calls[..|calls|] == calls;
    EndsOnce(tree.shape, 0);
    assert |multiset(Ends(calls))| == |multiset(tree.Contents())|;
  }
}
