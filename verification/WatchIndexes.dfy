/** The index of watch records: one tree by descriptor and one by file name, which share the sentinel. */
module WatchIndexes {
  import opened Options
  import opened Watches
  import opened RbShape
  import opened RbBalance
  import opened RbHeap
  import opened RbOps
  import opened RbWalks

  /** The stored records. */
  ghost function Records(s: seq<Watch>): set<Watch> {
    set w | w in s
  }

  lemma InsertedRecords(s: seq<Watch>, i: nat, k: Watch)
    requires i <= |s|
    ensures Records(Inserted(s, i, k)) == Records(s) + {k}
  {
    var s' := Inserted(s, i, k);
    assert s'[i] == k;
    forall w | w in s ensures w in s' {
      var j :| 0 <= j < |s| && s[j] == w;
      assert s'[if j < i then j else j + 1] == w;
    }
  }

  lemma RemovedRecords(s: seq<Watch>, i: nat)
    requires AllDifferent(s) && i < |s|
    ensures Records(Removed(s, i)) == Records(s) - {s[i]}
  {
    var s' := Removed(s, i);
    forall w | w in s && w != s[i] ensures w in s' {
      var j :| 0 <= j < |s| && s[j] == w;
      assert s'[if j < i then j else j - 1] == w;
    }
    forall w | w in s' ensures w in s && w != s[i] {
      var j :| 0 <= j < |s'| && s'[j] == w;
      assert w == s[if j < i then j else j + 1];
    }
  }

  lemma {:induction false} RecordsCount(s: seq<Watch>)
    requires AllDifferent(s)
    ensures |Records(s)| == |s|
  {
    if s == [] {
      assert Records(s) == {};
    } else {
      var n := |s| - 1;
      RecordsCount(s[..n]);
      assert s == s[..n] + [s[n]];
      assert Records(s) == Records(s[..n]) + {s[n]};
    }
  }

  /** All records were allocated before the next one. */
  ghost predicate Older(s: seq<Watch>, id: nat) {
    forall w | w in s :: w.id < id
  }

  /** A stored record compares equal to w. */
  ghost predicate Known(tree: RbTree, w: Watch)
    reads tree
  {
    exists v :: v in tree.Contents() && tree.cmp(w, v) == 0
  }

  /** Inserts w and drops the answer. */
  method Store(tree: RbTree, w: Watch)
    requires tree.Valid()
    modifies tree, tree.repr
    ensures tree.Valid() && tree.nil !in tree.repr && fresh(tree.repr - old(tree.repr)) && old(tree.repr) <= tree.repr
    ensures Records(tree.Contents()) == old(Records(tree.Contents())) + (if old(Known(tree, w)) then {} else {w})
    ensures forall id: nat :: w.id < id && old(Older(tree.Contents(), id)) ==> Older(tree.Contents(), id)
  {
    hide RbTree.At, RedBlack, Keys, Inserted, Records, Older;
    ghost var s := tree.Contents();
    NilOutside(tree);
    var r;
    ghost var i, visited;
    r, i, visited := Search(tree, w);
    NilOutside(tree);
    SplitsFinds(tree.cmp, s, w, i);
    StoredRecords(s, i, w);
  }

  lemma StoredRecords(s: seq<Watch>, i: nat, w: Watch)
    requires i <= |s|
    ensures Records(Inserted(s, i, w)) == Records(s) + {w} && Records(s) + {} == Records(s)
    ensures forall id: nat :: w.id < id && Older(s, id) ==> Older(Inserted(s, i, w), id)
  {
    InsertedRecords(s, i, w);
    assert forall v | v in Inserted(s, i, w) :: v in Records(Inserted(s, i, w));
  }

  /** The records that do not compare equal to w. */
  ghost function Others(cmp: Compare, records: set<Watch>, w: Watch): set<Watch> {
    set v | v in records && cmp(w, v) != 0
  }

  lemma OthersLeft(cmp: Compare, s: seq<Watch>, w: Watch, r: Option<Watch>)
    requires Orders(cmp) && Ascending(cmp, s) && Finds(cmp, s, w, r)
    ensures Others(cmp, Records(s), w) == Records(s) - (if r.Some? then {r.value} else {})
  {
    forall v | v in s && cmp(w, v) == 0 ensures r == Some(v) {
      FindsUnique(cmp, s, w, r, Some(v));
    }
  }

  lemma OthersByKey(records: set<Watch>, w: Watch)
    ensures Others(WdCompare, records, w) == set v | v in records && v.wd != w.wd
    ensures Others(FilenameCompare, records, w) == set v | v in records && v.filename != w.filename
  {
    forall v ensures FilenameCompare(w, v) == 0 <==> v.filename == w.filename {
      StrCmpSign(w.filename, v.filename);
    }
  }

  /** Deletes the record that compares equal to w. */
  method Drop(tree: RbTree, w: Watch) returns (r: Option<Watch>)
    requires tree.Valid()
    modifies tree, tree.repr, tree.nil`up, tree.nil`colour
    ensures tree.Valid() && tree.nil !in tree.repr && tree.repr <= old(tree.repr)
    ensures Finds(tree.cmp, old(tree.Contents()), w, r)
    ensures Records(tree.Contents()) == old(Records(tree.Contents())) - (if r.Some? then {r.value} else {})
    ensures Records(tree.Contents()) == Others(tree.cmp, old(Records(tree.Contents())), w)
    ensures old(w in Records(tree.Contents())) ==> r == Some(w)
    ensures forall id: nat :: old(Older(tree.Contents(), id)) ==> Older(tree.Contents(), id)
  {
    ghost var s := tree.Contents();
    ghost var i, visited;
    r, i, visited := Delete(tree, w);
    AscendingDifferent(tree.cmp, s);
    OthersLeft(tree.cmp, s, w, r);
    if r.Some? {
      RemovedRecords(s, i);
      assert forall v | v in tree.Contents() :: v in Records(tree.Contents());
    }
    if w in s {
      assert tree.cmp(w, w) == 0;
      FindsUnique(tree.cmp, s, w, r, Some(w));
    }
  }

  class WatchIndex {
    const nil: Node
    const treeWd: RbTree
    const treeFilename: RbTree
    /** The address that the next allocated record gets. */
    var nextId: nat
    var error: int

    ghost predicate Valid()
      reads this, treeWd, treeWd.repr, treeFilename, treeFilename.repr, nil`colour
    {
      && treeWd != treeFilename && treeWd.nil == nil == treeFilename.nil
      && treeWd.cmp == WdCompare && treeFilename.cmp == FilenameCompare
      && treeWd.Valid() && treeFilename.Valid() && treeWd.repr !! treeFilename.repr
      && Older(treeWd.Contents(), nextId) && Older(treeFilename.Contents(), nextId)
    }

    /** Both trees index the same records. */
    ghost predicate Coherent()
      reads this, treeWd, treeFilename
    {
      Records(treeWd.Contents()) == Records(treeFilename.Contents())
    }

    constructor ()
      ensures Valid() && Coherent() && treeWd.Contents() == [] && treeFilename.Contents() == [] && nextId == 0
      ensures fresh(treeWd) && fresh(treeFilename) && treeWd.repr == {} && treeFilename.repr == {}
    {
      WdOrders();
      FilenameOrders();
      var s := new Node.Sentinel(Watch(0, 0, ""));
      nil := s;
      treeWd := new RbTree(WdCompare, s);
      treeFilename := new RbTree(FilenameCompare, s);
      nextId, error := 0, 0;
    }

    ghost predicate KnowsWd(wd: int)
      reads this, treeWd
    {
      exists w :: w in treeWd.Contents() && w.wd == wd
    }

    ghost predicate KnowsFilename(filename: string)
      reads this, treeFilename
    {
      exists w :: w in treeFilename.Contents() && w.filename == filename
    }

    method FromWd(wd: int) returns (r: Option<Watch>)
      requires Valid()
      ensures match r
              case Some(w) => w in treeWd.Contents() && w.wd == wd
              case None => !KnowsWd(wd)
    {
      ghost var visited;
      r, visited := Find(treeWd, Watch(0, wd, ""));
    }

    method FromFilename(filename: string) returns (r: Option<Watch>)
      requires Valid()
      ensures match r
              case Some(w) => w in treeFilename.Contents() && w.filename == filename
              case None => !KnowsFilename(filename)
    {
      ghost var visited;
      r, visited := Find(treeFilename, Watch(0, 0, filename));
      forall w | w in treeFilename.Contents() ensures FilenameCompare(Watch(0, 0, filename), w) == 0 <==>
          w.filename == filename {
        StrCmpSign(filename, w.filename);
      }
    }

    method StoreBoth(w: Watch)
      requires Valid() && w.id < nextId
      modifies treeWd, treeFilename, treeWd.repr, treeFilename.repr
      ensures Valid()
      ensures fresh(treeWd.repr - old(treeWd.repr)) && fresh(treeFilename.repr - old(treeFilename.repr))
      ensures Records(treeWd.Contents()) == old(Records(treeWd.Contents())) + (if old(KnowsWd(w.wd)) then {} else {w})
      ensures Records(treeFilename.Contents()) ==
              old(Records(treeFilename.Contents())) + (if old(KnowsFilename(w.filename)) then {} else {w})
    {
      hide RbTree.Valid, RbTree.Contents, Records, Known, KnowsWd, KnowsFilename, Older;
      WdKnown(this, w);
      FilenameKnown(this, w);
      Store(treeWd, w);
      Store(treeFilename, w);
    }

    /** Makes a record for a descriptor that the kernel returned. Each tree keeps the record it has
        when the new one compares equal, and neither outcome is looked at; so the two trees stay in
        step exactly when both know the new record's key or neither does. */
    method CreateWatch(wd: int, filename: Option<string>)
      requires Valid()
      modifies `nextId, treeWd, treeFilename, treeWd.repr, treeFilename.repr
      ensures Valid()
      ensures fresh(treeWd.repr - old(treeWd.repr)) && fresh(treeFilename.repr - old(treeFilename.repr))
      ensures nextId == old(nextId) + if wd <= 0 || filename.None? then 0 else 1
      ensures wd <= 0 || filename.None? ==>
              treeWd.Contents() == old(treeWd.Contents()) && treeFilename.Contents() == old(treeFilename.Contents())
      ensures wd > 0 && filename.Some? ==>
                var w := Watch(old(nextId), wd, filename.value);
                && Records(treeWd.Contents()) ==
                   old(Records(treeWd.Contents())) + (if old(KnowsWd(wd)) then {} else {w})
                && Records(treeFilename.Contents()) ==
                   old(Records(treeFilename.Contents())) + (if old(KnowsFilename(filename.value)) then {} else {w})
      ensures old(Coherent()) ==>
                (Coherent() <==>
                    wd <= 0 || filename.None? || (old(KnowsWd(wd)) <==> old(KnowsFilename(filename.value))))
    {
      if wd <= 0 || filename.None? {
        return;
      }
      var w := Watch(nextId, wd, filename.value);
      nextId := nextId + 1;
      NewRecord(treeWd.Contents(), w);
      hide RbTree.Contents, Records, KnowsWd, KnowsFilename, RbTree.Valid;
      StoreBoth(w);
    }

    /** Removes the record w that a tree returned, unless the kernel refuses; status is the kernel's answer.
        Each tree loses the record with the same key, and only that, whether or not it is w. */
    method RemoveRecord(w: Watch, status: int) returns (ok: bool)
      requires Valid()
      modifies `error, treeWd, treeFilename, treeWd.repr, treeFilename.repr, nil`up, nil`colour
      ensures Valid()
      ensures treeWd.repr <= old(treeWd.repr) && treeFilename.repr <= old(treeFilename.repr)
      ensures ok <==> status >= 0
      ensures error == if status < 0 then status else 0
      ensures !ok ==>
              treeWd.Contents() == old(treeWd.Contents()) && treeFilename.Contents() == old(treeFilename.Contents())
      ensures ok ==> Records(treeWd.Contents()) == set v | v in old(Records(treeWd.Contents())) && v.wd != w.wd
      ensures ok ==>
                Records(treeFilename.Contents()) == set v | v in old(Records(treeFilename.Contents()))
                    && v.filename != w.filename
      ensures ok && old(w in Records(treeWd.Contents())) ==>
              Records(treeWd.Contents()) == old(Records(treeWd.Contents())) - {w}
      ensures ok && old(w in Records(treeFilename.Contents())) ==>
                Records(treeFilename.Contents()) == old(Records(treeFilename.Contents())) - {w}
    {
      hide RbTree.At, RedBlack, Ascending, Orders, Keys, Records, Older, Finds, Others;
      OthersByKey(Records(treeWd.Contents()), w);
      OthersByKey(Records(treeFilename.Contents()), w);
      error := 0;
      if status < 0 {
        error := status;
        return false;
      }
      NilOutside(treeFilename);
      var r := Drop(treeWd, w);
      var r' := Drop(treeFilename, w);
      ok := true;
    }

    method RemoveByWd(wd: int, status: int) returns (ok: bool, ghost gone: set<Watch>)
      requires Valid()
      modifies `error, treeWd, treeFilename, treeWd.repr, treeFilename.repr, nil`up, nil`colour
      ensures Valid() && treeWd.repr <= old(treeWd.repr) && treeFilename.repr <= old(treeFilename.repr)
      ensures ok <==> !old(KnowsWd(wd)) || status >= 0
      ensures gone == {} <==> !old(KnowsWd(wd)) || status < 0
      ensures forall w | w in gone :: w in old(Records(treeWd.Contents())) && w.wd == wd && gone == {w}
      ensures Records(treeWd.Contents()) == old(Records(treeWd.Contents())) - gone
      ensures gone == {} ==> Records(treeFilename.Contents()) == old(Records(treeFilename.Contents()))
      ensures forall w | w in gone ::
                Records(treeFilename.Contents()) == set v | v in old(Records(treeFilename.Contents()))
                    && v.filename != w.filename
      ensures old(Coherent()) ==>
              Records(treeFilename.Contents()) == old(Records(treeFilename.Contents())) - gone && Coherent()
    {
      hide RbTree.At, RedBlack, Ascending, Orders, Keys, Older;
      gone := {};
      var r := FromWd(wd);
      if r.None? {
        return true, gone;
      }
      hide Valid, RbTree.Contents;
      ok := RemoveRecord(r.value, status);
      gone := if ok then {r.value} else {};
    }

    method RemoveByFilename(filename: string, status: int) returns (ok: bool, ghost gone: set<Watch>)
      requires Valid()
      modifies `error, treeWd, treeFilename, treeWd.repr, treeFilename.repr, nil`up, nil`colour
      ensures Valid() && treeWd.repr <= old(treeWd.repr) && treeFilename.repr <= old(treeFilename.repr)
      ensures ok <==> !old(KnowsFilename(filename)) || status >= 0
      ensures gone == {} <==> !old(KnowsFilename(filename)) || status < 0
      ensures forall w | w in gone ::
              w in old(Records(treeFilename.Contents())) && w.filename == filename && gone == {w}
      ensures Records(treeFilename.Contents()) == old(Records(treeFilename.Contents())) - gone
      ensures gone == {} ==> Records(treeWd.Contents()) == old(Records(treeWd.Contents()))
      ensures forall w | w in gone ::
              Records(treeWd.Contents()) == set v | v in old(Records(treeWd.Contents())) && v.wd != w.wd
      ensures old(Coherent()) ==> Records(treeWd.Contents()) == old(Records(treeWd.Contents())) - gone && Coherent()
    {
      hide RbTree.At, RedBlack, Ascending, Orders, Keys, Older;
      gone := {};
      var r := FromFilename(filename);
      if r.None? {
        return true, gone;
      }
      hide Valid, RbTree.Contents;
      ok := RemoveRecord(r.value, status);
      gone := if ok then {r.value} else {};
    }

    method NumWatches() returns (n: nat)
      requires Valid()
      ensures n == |Records(treeFilename.Contents())|
      ensures Coherent() ==> n == |Records(treeWd.Contents())|
    {
      n := CountKeys(treeFilename);
      AscendingDifferent(FilenameCompare, treeFilename.Contents());
      RecordsCount(treeFilename.Contents());
    }
  }

  lemma KnowsStored(index: WatchIndex)
    ensures forall wd :: index.KnowsWd(wd) <==> exists w :: w in Records(index.treeWd.Contents()) && w.wd == wd
    ensures forall f :: index.KnowsFilename(f) <==>
            exists w :: w in Records(index.treeFilename.Contents()) && w.filename == f
  {
    assert forall w :: w in Records(index.treeWd.Contents()) <==> w in index.treeWd.Contents();
    assert forall w :: w in Records(index.treeFilename.Contents()) <==> w in index.treeFilename.Contents();
  }

  /** One descriptor for two names, as the kernel returns it for two links to a file: the tree by descriptor
      knows it already, the tree by name stores the new record. */
  method PartsWays() returns (index: WatchIndex)
    ensures index.Valid() && !index.Coherent()
    ensures Records(index.treeWd.Contents()) == {Watch(0, 1, "a")}
    ensures Records(index.treeFilename.Contents()) == {Watch(0, 1, "a"), Watch(1, 1, "b")}
  {
    hide WatchIndex.Valid, RbTree.Contents, WatchIndex.KnowsWd, WatchIndex.KnowsFilename;
    index := new WatchIndex();
    KnowsStored(index);
    index.CreateWatch(1, Some("a"));
    KnowsStored(index);
    index.CreateWatch(1, Some("b"));
    assert Watch(1, 1, "b") !in Records(index.treeWd.Contents());
  }

  lemma NewRecord(s: seq<Watch>, w: Watch)
    requires Older(s, w.id)
    ensures w !in Records(s)
  {
  }

  lemma WdKnown(index: WatchIndex, w: Watch)
    requires index.treeWd.cmp == WdCompare
    ensures Known(index.treeWd, w) <==> index.KnowsWd(w.wd)
  {
  }

  lemma FilenameKnown(index: WatchIndex, w: Watch)
    requires index.treeFilename.cmp == FilenameCompare
    ensures Known(index.treeFilename, w) <==> index.KnowsFilename(w.filename)
  {
    forall v | v in index.treeFilename.Contents() ensures FilenameCompare(w, v) == 0 <==> v.filename == w.filename {
      StrCmpSign(w.filename, v.filename);
    }
  }

  // ----- runs -----

  datatype Op =
    | Create(wd: int, name: Option<string>)
    | RemoveWd(wd: int, status: int)
    | RemoveFilename(filename: string, status: int)

  /** What the index holds as a set of records, and the address of the next record. */
  datatype State = State(records: set<Watch>, nextId: nat)

  ghost predicate HasWd(records: set<Watch>, wd: int) {
    exists w :: w in records && w.wd == wd
  }

  ghost predicate HasFilename(records: set<Watch>, filename: string) {
    exists w :: w in records && w.filename == filename
  }

  /** A creation must bring a new descriptor and a new name, or bring neither. */
  ghost predicate Fits(s: State, op: Op) {
    op.Create? && op.wd > 0 && op.name.Some? ==> (HasWd(s.records, op.wd) <==> HasFilename(s.records, op.name.value))
  }

  ghost function Step(s: State, op: Op): State {
    match op
    case Create(wd, filename) =>
      if wd <= 0 || filename.None? then s
      else State(s.records + (if HasWd(s.records, wd) then {} else {Watch(s.nextId, wd, filename.value)}), s.nextId + 1)
    case RemoveWd(wd, status) =>
      if status < 0 then s else s.(records := set w | w in s.records && w.wd != wd)
    case RemoveFilename(filename, status) =>
      if status < 0 then s else s.(records := set w | w in s.records && w.filename != filename)
  }

  ghost predicate AllFit(s: State, ops: seq<Op>)
    decreases |ops|
  {
    ops != [] ==> Fits(s, ops[0]) && AllFit(Step(s, ops[0]), ops[1..])
  }

  ghost function Steps(s: State, ops: seq<Op>): State
    decreases |ops|
  {
    if ops == [] then s else Steps(Step(s, ops[0]), ops[1..])
  }

  /** Descriptors and names are each unique, so either one identifies a record. */
  ghost predicate Keyed(records: set<Watch>) {
    forall v, w | v in records && w in records && (v.wd == w.wd || v.filename == w.filename) :: v == w
  }

  lemma {:induction false} StepsKeyed(s: State, ops: seq<Op>)
    requires Keyed(s.records) && AllFit(s, ops)
    ensures Keyed(Steps(s, ops).records)
    decreases |ops|
  {
    if ops != [] {
      StepsKeyed(Step(s, ops[0]), ops[1..]);
    }
  }

  ghost predicate Represents(index: WatchIndex, s: State)
    reads index, index.treeWd, index.treeFilename
  {
    index.nextId == s.nextId && Records(index.treeWd.Contents()) == Records(index.treeFilename.Contents()) == s.records
  }

  lemma RepresentedKeyed(index: WatchIndex, s: State)
    requires index.Valid() && Represents(index, s)
    ensures Keyed(s.records)
    ensures forall wd :: index.KnowsWd(wd) <==> HasWd(s.records, wd)
    ensures forall f :: index.KnowsFilename(f) <==> HasFilename(s.records, f)
  {
    forall v, w | v in s.records && w in s.records && (v.wd == w.wd || v.filename == w.filename) ensures v == w {
      if v.wd == w.wd {
        FindsUnique(WdCompare, index.treeWd.Contents(), v, Some(v), Some(w));
      } else {
        assert v in Records(index.treeFilename.Contents()) && w in Records(index.treeFilename.Contents());
        StrCmpSign(v.filename, w.filename);
        StrCmpSign(v.filename, v.filename);
        FindsUnique(FilenameCompare, index.treeFilename.Contents(), v, Some(v), Some(w));
      }
    }
    assert forall w :: w in index.treeWd.Contents() <==> w in s.records;
    assert forall w :: w in index.treeFilename.Contents() <==> w in Records(index.treeFilename.Contents());
  }

  lemma GoneByWd(records: set<Watch>, wd: int, gone: set<Watch>)
    requires Keyed(records)
    requires forall w | w in gone :: w in records && w.wd == wd && gone == {w}
    requires gone == {} ==> !HasWd(records, wd)
    ensures (set w | w in records && w.wd != wd) == records - gone
  {
    assert forall v, w | v in gone && w in records && w.wd == wd :: v == w;
  }

  lemma GoneByFilename(records: set<Watch>, filename: string, gone: set<Watch>)
    requires Keyed(records)
    requires forall w | w in gone :: w in records && w.filename == filename && gone == {w}
    requires gone == {} ==> !HasFilename(records, filename)
    ensures (set w | w in records && w.filename != filename) == records - gone
  {
    assert forall v, w | v in gone && w in records && w.filename == filename :: v == w;
  }

  method RunCreate(index: WatchIndex, wd: int, name: Option<string>, ghost s: State)
    requires index.Valid() && Represents(index, s) && Fits(s, Create(wd, name))
    modifies index, index.treeWd, index.treeFilename, index.treeWd.repr, index.treeFilename.repr, index.nil`up,
             index.nil`colour
    ensures index.Valid() && Represents(index, Step(s, Create(wd, name)))
    ensures fresh(index.treeWd.repr - old(index.treeWd.repr))
            && fresh(index.treeFilename.repr - old(index.treeFilename.repr))
  {
    hide WatchIndex.Valid, RbTree.Contents, Records, WatchIndex.KnowsWd, WatchIndex.KnowsFilename, HasWd, HasFilename,
        Keyed;
    RepresentedKeyed(index, s);
    index.CreateWatch(wd, name);
  }

  method RunRemoveWd(index: WatchIndex, wd: int, status: int, ghost s: State)
    requires index.Valid() && Represents(index, s) && Fits(s, RemoveWd(wd, status))
    modifies index, index.treeWd, index.treeFilename, index.treeWd.repr, index.treeFilename.repr, index.nil`up,
             index.nil`colour
    ensures index.Valid() && Represents(index, Step(s, RemoveWd(wd, status)))
    ensures fresh(index.treeWd.repr - old(index.treeWd.repr))
            && fresh(index.treeFilename.repr - old(index.treeFilename.repr))
  {
    hide WatchIndex.Valid, RbTree.Contents, Records, WatchIndex.KnowsWd, WatchIndex.KnowsFilename, HasWd, HasFilename,
        Keyed;
    RepresentedKeyed(index, s);
    var ok;
    ghost var gone;
    ok, gone := index.RemoveByWd(wd, status);
    if status >= 0 {
      GoneByWd(s.records, wd, gone);
    }
  }

  method RunRemoveFilename(index: WatchIndex, filename: string, status: int, ghost s: State)
    requires index.Valid() && Represents(index, s) && Fits(s, RemoveFilename(filename, status))
    modifies index, index.treeWd, index.treeFilename, index.treeWd.repr, index.treeFilename.repr, index.nil`up,
             index.nil`colour
    ensures index.Valid() && Represents(index, Step(s, RemoveFilename(filename, status)))
    ensures fresh(index.treeWd.repr - old(index.treeWd.repr))
            && fresh(index.treeFilename.repr - old(index.treeFilename.repr))
  {
    hide WatchIndex.Valid, RbTree.Contents, Records, WatchIndex.KnowsWd, WatchIndex.KnowsFilename, HasWd, HasFilename,
        Keyed;
    RepresentedKeyed(index, s);
    var ok;
    ghost var gone;
    ok, gone := index.RemoveByFilename(filename, status);
    if status >= 0 {
      GoneByFilename(s.records, filename, gone);
    }
  }

  method RunOne(index: WatchIndex, op: Op, ghost s: State)
    requires index.Valid() && Represents(index, s) && Fits(s, op)
    modifies index, index.treeWd, index.treeFilename, index.treeWd.repr, index.treeFilename.repr, index.nil`up,
             index.nil`colour
    ensures index.Valid() && Represents(index, Step(s, op))
    ensures fresh(index.treeWd.repr - old(index.treeWd.repr))
            && fresh(index.treeFilename.repr - old(index.treeFilename.repr))
  {
    hide WatchIndex.Valid, Represents, Step;
    match op
    case Create(wd, name) => RunCreate(index, wd, name, s);
    case RemoveWd(wd, status) => RunRemoveWd(index, wd, status, s);
    case RemoveFilename(filename, status) => RunRemoveFilename(index, filename, status, s);
  }

  /** Over any run of fitting creations and removals both trees stay well formed and hold the same
      records, namely those that the run leaves, and the number of watches is their number. */
  method Run(index: WatchIndex, ops: seq<Op>, ghost s: State) returns (n: nat)
    requires index.Valid() && Represents(index, s) && AllFit(s, ops)
    modifies index, index.treeWd, index.treeFilename, index.treeWd.repr, index.treeFilename.repr, index.nil`up,
             index.nil`colour
    ensures index.Valid() && index.Coherent() && Represents(index, Steps(s, ops))
    ensures n == |Steps(s, ops).records|
    ensures index.nil.left == old(index.nil.left) && index.nil.right == old(index.nil.right)
            && index.nil.colour == Black
  {
    hide RbTree.At, RedBlack, Ascending, Orders, Keys, Records, Older;
    ghost var t := s;
    for i := 0 to |ops|
      invariant index.Valid() && Represents(index, t) && AllFit(t, ops[i..]) && Steps(t, ops[i..]) == Steps(s, ops)
      invariant fresh(index.treeWd.repr - old(index.treeWd.repr))
                && fresh(index.treeFilename.repr - old(index.treeFilename.repr))
      invariant index.nil.left == old(index.nil.left) && index.nil.right == old(index.nil.right)
    {
      assert ops[i..][1..] == ops[i + 1..];
      NilOutside(index.treeWd);
      NilOutside(index.treeFilename);
      RunOne(index, ops[i], t);
      t := Step(t, ops[i]);
    }
    n := index.NumWatches();
  }
}
