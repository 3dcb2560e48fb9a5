/** The configured files and directories. */
module Configs {
  import opened Bytes
  import opened Options
  import opened Names
  import opened TextLines

  datatype Info = Info(
    isDir: bool, isBinary: bool, isRecursive: bool, timeWait: int, deleteTime: nat, moveTime: nat,
    topicName: seq<Byte>, format: Format)

  // ----- paths -----

  /** The parts of s between slashes, without empty ones. */
  function Explode(s: Name): seq<Name> {
    ExplodeFrom(s, [])
  }

  function ExplodeFrom(s: Name, part: Name): seq<Name> {
    if s == [] then
      if part == [] then [] else [part]
    else if s[0] == SLASH then
      (if part == [] then [] else [part]) + ExplodeFrom(s[1..], [])
    else
      ExplodeFrom(s[1..], part + [s[0]])
  }

  function Join(parts: seq<Name>): Name {
    if parts == [] then [] else Join(parts[..|parts| - 1]) + [SLASH] + parts[|parts| - 1]
  }

  function TrimLeft(s: Name): Name {
    if s != [] && s[0] == SLASH then TrimLeft(s[1..]) else s
  }

  function TrimRight(s: Name): Name {
    if s != [] && s[|s| - 1] == SLASH then TrimRight(s[..|s| - 1]) else s
  }

  function Trim(s: Name): Name {
    TrimRight(TrimLeft(s))
  }

  predicate FoundAt(s: Name, t: Name, i: nat) {
    i + |t| <= |s| && s[i..i + |t|] == t
  }

  predicate Contains(s: Name, t: Name) {
    exists i | 0 <= i <= |s| :: FoundAt(s, t, i)
  }

  /** Whether a file belongs to a configured path. */
  predicate Belongs(origFile: Name, path: Name, info: Info) {
    if info.deleteTime != 0 then false
    else if !info.isDir then origFile == path
    else if info.isRecursive then Contains(origFile, path)
    else
      var parts := Explode(origFile);
      parts != [] && Trim(Join(parts[..|parts| - 1])) == Trim(path)
  }

  /** A file of which only slashes are known ends the search at a directory that is not recursive. */
  predicate Ends(origFile: Name, info: Info) {
    info.deleteTime == 0 && info.isDir && !info.isRecursive && Explode(origFile) == []
  }

  /** The first path, in the fixed order of the table, that a file belongs to. */
  function Pattern(fileMap: map<Name, Info>, order: seq<Name>, origFile: Name): (r: Option<Name>)
    requires forall k | k in order :: k in fileMap
    ensures r.Some? ==> r.value in order && Belongs(origFile, r.value, fileMap[r.value])
  {
    if order == [] || Ends(origFile, fileMap[order[0]]) then None
    else if Belongs(origFile, order[0], fileMap[order[0]]) then Some(order[0])
    else Pattern(fileMap, order[1..], origFile)
  }

  /** The file belongs to none of the first n paths, and none of them ends the search. */
  predicate PassedBy(fileMap: map<Name, Info>, order: seq<Name>, origFile: Name, n: nat)
    requires n <= |order| && forall k | k in order :: k in fileMap
  {
    forall j | 0 <= j < n :: !Belongs(origFile, order[j], fileMap[order[j]]) && !Ends(origFile, fileMap[order[j]])
  }

  /** The answer is the path at place n: the file belongs to it and is passed by all before it. Without an
      answer it is passed by all paths, or by those before one that ends the search. */
  ghost predicate FirstAt(fileMap: map<Name, Info>, order: seq<Name>, origFile: Name, r: Option<Name>, n: nat)
    requires forall k | k in order :: k in fileMap
  {
    && n <= |order| && PassedBy(fileMap, order, origFile, n)
    && match r
       case Some(path) => n < |order| && order[n] == path && Belongs(origFile, path, fileMap[path])
       case None =>
         n == |order|
         || (var info := fileMap[order[n]];
             info.deleteTime == 0 && info.isDir && !info.isRecursive
             && forall i | 0 <= i < |origFile| :: origFile[i] == SLASH)
  }

  /** Without slashes nothing is between slashes. */
  lemma {:induction false} ExplodeNone(s: Name, part: Name)
    ensures ExplodeFrom(s, part) == [] <==> part == [] && forall i | 0 <= i < |s| :: s[i] == SLASH
  {
    if s != [] {
      ExplodeNone(s[1..], if s[0] == SLASH then [] else part + [s[0]]);
      assert forall i | 0 < i < |s| :: s[i] == s[1..][i - 1];
      assert (forall i | 0 <= i < |s| :: s[i] == SLASH)
        <==> s[0] == SLASH && forall i | 0 <= i < |s[1..]| :: s[1..][i] == SLASH;
    }
  }

  lemma EndsIs(origFile: Name, info: Info)
    ensures Ends(origFile, info) <==>
              info.deleteTime == 0 && info.isDir && !info.isRecursive
              && forall i | 0 <= i < |origFile| :: origFile[i] == SLASH
  {
    ExplodeNone(origFile, []);
  }

  lemma {:induction false} PatternFirst(fileMap: map<Name, Info>, order: seq<Name>, origFile: Name) returns (n: nat)
    requires forall k | k in order :: k in fileMap
    ensures FirstAt(fileMap, order, origFile, Pattern(fileMap, order, origFile), n)
  {
    hide Belongs, Ends;
    n := 0;
    if order != [] {
      EndsIs(origFile, fileMap[order[0]]);
    }
    if order != [] && !Ends(origFile, fileMap[order[0]]) && !Belongs(origFile, order[0], fileMap[order[0]]) {
      var m := PatternFirst(fileMap, order[1..], origFile);
      n := m + 1;
      forall j | 0 <= j < n
        ensures !Belongs(origFile, order[j], fileMap[order[j]]) && !Ends(origFile, fileMap[order[j]])
      {
        assert j > 0 ==> order[j] == order[1..][j - 1];
      }
    }
  }

  /** The answer is not deleted; a plain file takes only itself, and a recursive directory what its path occurs in. */
  lemma PatternTakes(fileMap: map<Name, Info>, order: seq<Name>, origFile: Name)
    requires forall k | k in order :: k in fileMap
    ensures var r := Pattern(fileMap, order, origFile);
            r.Some? ==>
              && r.value in fileMap && var info := fileMap[r.value];
              && info.deleteTime == 0 && (!info.isDir ==> r.value == origFile)
              && (info.isDir && info.isRecursive ==>
                  exists i, j :: 0 <= i <= j <= |origFile| && origFile[i..j] == r.value)
  {
    hide Explode, Trim, Pattern;
    var r := Pattern(fileMap, order, origFile);
    if r.Some? {
      PatternBelongs(fileMap, order, origFile);
      if fileMap[r.value].isDir && fileMap[r.value].isRecursive {
        var i :| 0 <= i <= |origFile| && FoundAt(origFile, r.value, i);
        assert origFile[i..i + |r.value|] == r.value;
      }
    }
  }

  lemma PatternBelongs(fileMap: map<Name, Info>, order: seq<Name>, origFile: Name)
    requires forall k | k in order :: k in fileMap
    ensures var r := Pattern(fileMap, order, origFile);
            r.Some? ==> r.value in order && Belongs(origFile, r.value, fileMap[r.value])
  {
  }

  /** A configured file that is not deleted is answered by itself unless a directory ahead of it takes it. */
  lemma {:induction false} PlainFirst(fileMap: map<Name, Info>, order: seq<Name>, origFile: Name, n: nat)
    requires forall k | k in order :: k in fileMap
    requires n < |order| && order[n] == origFile && !fileMap[origFile].isDir && fileMap[origFile].deleteTime == 0
    requires forall j | 0 <= j < n && fileMap[order[j]].isDir ::
               !Belongs(origFile, order[j], fileMap[order[j]]) && !Ends(origFile, fileMap[order[j]])
    ensures Pattern(fileMap, order, origFile) == Some(origFile)
  {
    hide Explode, Trim, Contains;
    var info := fileMap[order[0]];
    if n > 0 && !Belongs(origFile, order[0], info) && !Ends(origFile, info) {
      assert forall j | 0 < j < n :: order[j] == order[1..][j - 1];
      forall j | 0 <= j < n - 1 && fileMap[order[1..][j]].isDir
        ensures !Belongs(origFile, order[1..][j], fileMap[order[1..][j]]) && !Ends(origFile, fileMap[order[1..][j]])
      {
        assert order[1..][j] == order[j + 1];
      }
      PlainFirst(fileMap, order[1..], origFile, n - 1);
    }
  }

  /** Only a file of slashes alone, which belongs to no directory that is not recursive, can end the search
      early; for any other no answer means that it belongs to no path. */
  lemma NoPattern(fileMap: map<Name, Info>, order: seq<Name>, origFile: Name)
    requires forall k | k in order :: k in fileMap
    ensures Explode(origFile) != [] ==>
              (Pattern(fileMap, order, origFile).None? <==> forall k | k in order :: !Belongs(origFile, k, fileMap[k]))
  {
    hide Belongs, Explode;
    var n := PatternFirst(fileMap, order, origFile);
    ExplodeSlashes(origFile);
    if Explode(origFile) != [] && Pattern(fileMap, order, origFile).None? {
      forall k | k in order ensures !Belongs(origFile, k, fileMap[k]) {
        var j :| 0 <= j < |order| && order[j] == k;
      }
    }
  }

  lemma ExplodeSlashes(s: Name)
    ensures Explode(s) == [] <==> forall i | 0 <= i < |s| :: s[i] == SLASH
  {
    ExplodeNone(s, []);
  }

  /** The table with the move time of a path, if that is configured. */
  function WithMoveTime(fileMap: map<Name, Info>, path: Name, time: nat): map<Name, Info> {
    if path in fileMap then fileMap[path := fileMap[path].(moveTime := time)] else fileMap
  }

  class Config {
    var fileMap: map<Name, Info>
    /** The order in which the table is walked; it changes only with the set of paths. */
    const order: seq<Name>

    constructor (order: seq<Name>, fileMap: map<Name, Info>)
      requires (forall k :: k in fileMap <==> k in order) && [] !in fileMap
      ensures Valid() && this.order == order && this.fileMap == fileMap
    {
      this.order, this.fileMap := order, fileMap;
    }

    /** Paths are trimmed when they are parsed and empty ones skipped. */
    ghost predicate Valid()
      reads this
    {
      (forall k :: k in fileMap <==> k in order) && [] !in fileMap
    }

    method SetMoveTime(path: Name, time: nat)
      requires Valid()
      modifies this
      ensures Valid()
      ensures fileMap == if path in old(fileMap) then old(fileMap)[path := old(fileMap)[path].(moveTime := time)]
                         else old(fileMap)
      ensures fileMap == WithMoveTime(old(fileMap), path, time)
    {
      if path !in fileMap {
        return;
      }
      var info := fileMap[path];
      info := info.(moveTime := time);
      fileMap := fileMap[path := info];
    }

    function FindFile(path: Name): Option<Info>
      reads this
    {
      if path in fileMap then Some(fileMap[path]) else None
    }

    method PatternPath(origFile: Name) returns (r: Option<Name>)
      requires Valid()
      ensures exists n :: FirstAt(fileMap, order, origFile, r, n)
      ensures Explode(origFile) != [] ==> (r.None? <==> forall k | k in order :: !Belongs(origFile, k, fileMap[k]))
      ensures r.Some? ==>
                && r.value in fileMap && fileMap[r.value].deleteTime == 0
                && (!fileMap[r.value].isDir ==> r.value == origFile)
                && (fileMap[r.value].isDir && fileMap[r.value].isRecursive ==>
                    exists i, j :: 0 <= i <= j <= |origFile| && origFile[i..j] == r.value)
      ensures forall n | 0 <= n < |order| && order[n] == origFile && !fileMap[origFile].isDir
                         && fileMap[origFile].deleteTime == 0
                         && forall j | 0 <= j < n && fileMap[order[j]].isDir ::
                              !Belongs(origFile, order[j], fileMap[order[j]]) && !Ends(origFile, fileMap[order[j]]) ::
                r == Some(origFile)
      ensures r == Pattern(fileMap, order, origFile)
    {
      hide Belongs, Ends, Pattern, Explode;
      forall n | 0 <= n < |order| && order[n] == origFile && !fileMap[origFile].isDir
                 && fileMap[origFile].deleteTime == 0
                 && forall j | 0 <= j < n && fileMap[order[j]].isDir ::
                      !Belongs(origFile, order[j], fileMap[order[j]]) && !Ends(origFile, fileMap[order[j]])
        ensures Pattern(fileMap, order, origFile) == Some(origFile)
      {
        PlainFirst(fileMap, order, origFile, n);
      }
      PatternTakes(fileMap, order, origFile);
      NoPattern(fileMap, order, origFile);
      ghost var first := PatternFirst(fileMap, order, origFile);
      r := Search(origFile);
    }

    /** Walks the table in its order. */
    method Search(origFile: Name) returns (r: Option<Name>)
      requires Valid()
      ensures r == Pattern(fileMap, order, origFile)
    {
      hide Explode, Contains, Trim;
      assert order[0..] == order;
      for i := 0 to |order|
        invariant Pattern(fileMap, order, origFile) == Pattern(fileMap, order[i..], origFile)
      {
        assert order[i..][0] == order[i] && order[i..][1..] == order[i + 1..];
        var info := fileMap[order[i]];
        if info.deleteTime != 0 {
          continue;
        }
        if !info.isDir {
          if origFile == order[i] {
            return Some(order[i]);
          }
        } else if info.isRecursive {
          if Contains(origFile, order[i]) {
            return Some(order[i]);
          }
        } else {
          var pathSplit := Explode(origFile);
          if pathSplit == [] {
            return None;
          }
          var newOriginFile := [];
          for k := 0 to |pathSplit| - 1
            invariant newOriginFile == Join(pathSplit[..k])
          {
            assert pathSplit[..k + 1][..k] == pathSplit[..k];
            newOriginFile := newOriginFile + [SLASH] + pathSplit[k];
          }
          if Trim(newOriginFile) == Trim(order[i]) {
            return Some(order[i]);
          }
        }
      }
      r := None;
    }
  }
}
