/** The watching thread's cache of which configured path a file belongs to. */
module PatternCaches {
  import opened Configs
  import opened Names
  import opened Options

  // ----- what the patterns mean -----

  predicate IsPart(part: Name) {
    part != [] && SLASH !in part
  }

  predicate AreParts(parts: seq<Name>) {
    forall i | 0 <= i < |parts| :: IsPart(parts[i])
  }

  lemma {:induction false} ExplodePart(s: Name, part: Name)
    requires SLASH !in s && SLASH !in part
    ensures ExplodeFrom(s, part) == if part + s == [] then [] else [part + s]
  {
    if s == [] {
      assert part + s == part;
    } else {
      ExplodePart(s[1..], part + [s[0]]);
      assert part + [s[0]] + s[1..] == part + s;
    }
  }

  lemma {:induction false} ExplodeAppend(s: Name, p: Name, part: Name)
    requires IsPart(p)
    ensures ExplodeFrom(s + [SLASH] + p, part) == ExplodeFrom(s, part) + [p]
  {
    var t := s + [SLASH] + p;
    if s == [] {
      assert t[1..] == p;
      ExplodePart(p, []);
      assert [] + p == p;
    } else {
      assert t[0] == s[0] && t[1..] == s[1..] + [SLASH] + p;
      ExplodeAppend(s[1..], p, if s[0] == SLASH then [] else part + [s[0]]);
    }
  }

  /** Taking a path apart undoes putting its parts together. */
  lemma {:induction false} ExplodeJoin(parts: seq<Name>)
    requires AreParts(parts)
    ensures Explode(Join(parts)) == parts
  {
    if parts != [] {
      var n := |parts| - 1;
      ExplodeJoin(parts[..n]);
      ExplodeAppend(Join(parts[..n]), parts[n], []);
      assert parts == parts[..n] + [parts[n]];
    }
  }

  lemma {:induction false} JoinEnds(parts: seq<Name>)
    requires AreParts(parts) && parts != []
    ensures var s := Join(parts); |s| > 1 && s[0] == SLASH && s[1] != SLASH && s[|s| - 1] != SLASH
  {
    var n := |parts| - 1;
    var p := parts[n];
    assert p[|p| - 1] in p && p[0] in p;
    if n > 0 {
      JoinEnds(parts[..n]);
    }
  }

  lemma TrimJoin(parts: seq<Name>)
    requires AreParts(parts)
    ensures Trim(Join(parts)) == if parts == [] then [] else Join(parts)[1..]
  {
    if parts != [] {
      JoinEnds(parts);
      var s := Join(parts);
      assert TrimLeft(s) == TrimLeft(s[1..]) == s[1..];
      assert s[1..][|s| - 2] == s[|s| - 1];
    }
  }

  predicate AllSlashes(s: Name) {
    forall i | 0 <= i < |s| :: s[i] == SLASH
  }

  lemma {:induction false} TrimLeftPadded(a: Name, s: Name)
    requires AllSlashes(a)
    ensures TrimLeft(a + s) == TrimLeft(s)
  {
    if a == [] {
      assert a + s == s;
    } else {
      assert (a + s)[1..] == a[1..] + s;
      TrimLeftPadded(a[1..], s);
    }
  }

  lemma {:induction false} TrimRightPadded(s: Name, b: Name)
    requires AllSlashes(b)
    ensures TrimRight(s + b) == TrimRight(s)
  {
    if b == [] {
      assert s + b == s;
    } else {
      var n := |b| - 1;
      assert (s + b)[..|s| + n] == s + b[..n];
      TrimRightPadded(s, b[..n]);
    }
  }

  /** Exactly the slashes at both ends are trimmed. */
  lemma TrimPadded(a: Name, core: Name, b: Name)
    requires AllSlashes(a) && AllSlashes(b)
    requires core != [] ==> core[0] != SLASH && core[|core| - 1] != SLASH
    ensures Trim(a + core + b) == core
  {
    TrimLeftPadded(a, core + b);
    assert a + core + b == a + (core + b);
    if core == [] {
      assert core + b == b && b + [] == b;
      TrimLeftPadded(b, []);
    } else {
      TrimRightPadded(core, b);
    }
  }

  /** A directory may be configured with slashes before and behind it, or without. */
  lemma DirectlyWithinPadded(a: Name, dir: seq<Name>, b: Name, file: seq<Name>, info: Info)
    requires AreParts(dir) && dir != [] && AreParts(file) && file != [] && AllSlashes(a) && AllSlashes(b)
    requires info.deleteTime == 0 && info.isDir && !info.isRecursive
    ensures Belongs(Join(file), a + Join(dir)[1..] + b, info) <==> file[..|file| - 1] == dir
  {
    hide Explode, Join, Trim;
    JoinEnds(dir);
    var core := Join(dir)[1..];
    TrimPadded(a, core, b);
    assert Join(dir) == [SLASH] + core + [];
    TrimPadded([SLASH], core, []);
    DirectlyWithin(dir, file, info);
  }

  /** A file belongs to a directory that is not recursive exactly if it lies directly in it. */
  lemma DirectlyWithin(dir: seq<Name>, file: seq<Name>, info: Info)
    requires AreParts(dir) && AreParts(file) && file != []
    requires info.deleteTime == 0 && info.isDir && !info.isRecursive
    ensures Belongs(Join(file), Join(dir), info) <==> file[..|file| - 1] == dir
  {
    hide Explode, Join;
    var parent := file[..|file| - 1];
    ExplodeJoin(file);
    TrimJoin(parent);
    TrimJoin(dir);
    ExplodeJoin(parent);
    ExplodeJoin(dir);
    if Trim(Join(parent)) == Trim(Join(dir)) {
      SameTrimmed(parent, dir);
    }
  }

  lemma SameTrimmed(a: seq<Name>, b: seq<Name>)
    requires AreParts(a) && AreParts(b) && Trim(Join(a)) == Trim(Join(b))
    ensures a == b
  {
    TrimJoin(a);
    TrimJoin(b);
    ExplodeJoin(a);
    ExplodeJoin(b);
    if a != [] {
      JoinEnds(a);
    }
    if b != [] {
      JoinEnds(b);
    }
    if a != [] && b != [] {
      assert Join(a) == [SLASH] + Join(a)[1..] && Join(b) == [SLASH] + Join(b)[1..];
    }
  }

  /** The file starts with the parts of the directory, but its last one may go on. */
  predicate StartsLike(dir: seq<Name>, file: seq<Name>) {
    if dir == [] || file == [] then dir == []
    else if |dir| == 1 then dir[0] <= file[0]
    else dir[0] == file[0] && StartsLike(dir[1..], file[1..])
  }

  /** Somewhere in the file there are parts like those of the directory. */
  predicate Occurs(dir: seq<Name>, file: seq<Name>) {
    file != [] && (StartsLike(dir, file) || Occurs(dir, file[1..]))
  }

  lemma {:induction false} JoinFirst(parts: seq<Name>)
    requires parts != []
    ensures Join(parts) == [SLASH] + parts[0] + Join(parts[1..])
  {
    var n := |parts| - 1;
    if n > 0 {
      JoinFirst(parts[..n]);
      assert parts[..n][1..] == parts[1..][..n - 1];
    }
  }

  /** What goes on behind a part goes on with a slash, or not at all. */
  lemma PartAhead(d: Name, f: Name, rest: Name)
    requires IsPart(d) && IsPart(f) && (rest == [] || rest[0] == SLASH)
    ensures [SLASH] + d <= [SLASH] + f + rest <==> d <= f
  {
    var t, s := [SLASH] + d, [SLASH] + f + rest;
    assert |s| > |f| + 1 ==> s[|f| + 1] == SLASH;
    if t <= s {
      assert forall i | 0 <= i < |d| :: d[i] == t[i + 1] == s[i + 1];
      assert forall i | 1 <= i <= |d| :: s[i] != SLASH;
    }
    if d <= f {
      assert f == d + f[|d|..];
      assert s == t + (f[|d|..] + rest);
    }
  }

  lemma SamePart(d: Name, f: Name, more: Name, rest: Name)
    requires IsPart(d) && IsPart(f) && (rest == [] || rest[0] == SLASH) && more != [] && more[0] == SLASH
    ensures [SLASH] + d + more <= [SLASH] + f + rest <==> d == f && more <= rest
  {
    var t, s := [SLASH] + d + more, [SLASH] + f + rest;
    if t <= s {
      assert [SLASH] + d <= t;
      PartAhead(d, f, rest);
      assert forall i | 1 <= i <= |f| :: s[i] == f[i - 1] && s[i] != SLASH;
      assert t[|d| + 1] == s[|d| + 1] == SLASH;
      assert s[|d| + 1..] == rest;
      assert t[|d| + 1..] == more && t[|d| + 1..] <= s[|d| + 1..];
    }
    if d == f && more <= rest {
      assert s == t + rest[|more|..];
    }
  }

  lemma JoinOpens(parts: seq<Name>)
    ensures parts != [] ==> Join(parts) != [] && Join(parts)[0] == SLASH
  {
    if parts != [] {
      JoinFirst(parts);
    }
  }

  lemma {:induction false} StartsExactly(dir: seq<Name>, file: seq<Name>)
    requires AreParts(dir) && AreParts(file) && dir != []
    ensures Join(dir) <= Join(file) <==> StartsLike(dir, file)
  {
    hide Join;
    JoinFirst(dir);
    if file == [] {
      JoinOpens(dir);
      assert Join([]) == [] by { JoinNone(); }
    } else {
      JoinFirst(file);
      JoinOpens(file[1..]);
      JoinOpens(dir[1..]);
      JoinNone();
      if |dir| == 1 {
        PartAhead(dir[0], file[0], Join(file[1..]));
        assert Join(dir) == [SLASH] + dir[0];
      } else {
        SamePart(dir[0], file[0], Join(dir[1..]), Join(file[1..]));
        StartsExactly(dir[1..], file[1..]);
      }
    }
  }

  lemma JoinNone()
    ensures Join([]) == []
  {
  }

  lemma FoundShifted(s: Name, rest: Name, t: Name, k: nat, i: nat)
    requires k <= |s| && s[k..] == rest
    ensures FoundAt(rest, t, i) <==> FoundAt(s, t, k + i)
  {
    if k + i + |t| <= |s| {
      var a, b := s[k + i..k + i + |t|], rest[i..i + |t|];
      assert |a| == |b| && forall p | 0 <= p < |a| :: a[p] == s[k + i + p] == rest[i + p] == b[p];
    }
  }

  /** Paths can only be found where a part begins. */
  lemma ContainsBehind(f: Name, rest: Name, t: Name)
    requires IsPart(f) && t != [] && t[0] == SLASH
    ensures Contains([SLASH] + f + rest, t) <==> t <= [SLASH] + f + rest || Contains(rest, t)
  {
    var s := [SLASH] + f + rest;
    var k := 1 + |f|;
    assert s[k..] == rest;
    assert forall j | 1 <= j < k :: s[j] == f[j - 1] && s[j] != SLASH;
    if Contains(s, t) {
      var i :| 0 <= i <= |s| && FoundAt(s, t, i);
      assert s[i] == s[i..i + |t|][0] == SLASH;
      if i > 0 {
        FoundShifted(s, rest, t, k, i - k);
      }
    }
    if t <= s {
      assert FoundAt(s, t, 0);
    }
    if Contains(rest, t) {
      var i :| 0 <= i <= |rest| && FoundAt(rest, t, i);
      FoundShifted(s, rest, t, k, i);
    }
  }

  lemma {:induction false} ContainsExactly(dir: seq<Name>, file: seq<Name>)
    requires AreParts(dir) && AreParts(file) && dir != []
    ensures Contains(Join(file), Join(dir)) <==> Occurs(dir, file)
  {
    hide Join, StartsLike, Contains;
    JoinOpens(dir);
    if file == [] {
      JoinNone();
      NotInNothing(Join(dir));
    } else {
      JoinFirst(file);
      ContainsBehind(file[0], Join(file[1..]), Join(dir));
      StartsExactly(dir, file);
      ContainsExactly(dir, file[1..]);
    }
  }

  lemma NotInNothing(t: Name)
    requires t != []
    ensures !Contains([], t)
  {
  }

  /** A file belongs to a recursive directory exactly if parts like those of the directory occur anywhere in
      it, where the last one may go on. */
  lemma RecursiveExactly(dir: seq<Name>, file: seq<Name>, info: Info)
    requires AreParts(dir) && AreParts(file) && dir != []
    requires info.deleteTime == 0 && info.isDir && info.isRecursive
    ensures Belongs(Join(file), Join(dir), info) <==> Occurs(dir, file)
  {
    hide Join, Contains, Occurs;
    ContainsExactly(dir, file);
  }

  /** Every file that lies below the directory belongs to it. */
  lemma {:induction false} BelowOccurs(dir: seq<Name>, file: seq<Name>)
    requires dir != [] && dir <= file
    ensures StartsLike(dir, file) && Occurs(dir, file)
  {
    if |dir| > 1 {
      BelowOccurs(dir[1..], file[1..]);
    }
  }

  /** Also the file /x/a/bc belongs to the recursive directory /a/b. */
  lemma OccursElsewhere()
    ensures var dir: seq<Name>, file: seq<Name> := [[97], [98]], [[120], [97], [98, 99]];
            AreParts(dir) && AreParts(file) && Occurs(dir, file) && !(dir <= file)
  {
    var dir: seq<Name>, file: seq<Name> := [[97], [98]], [[120], [97], [98, 99]];
    assert file[1..][0] == dir[0] && dir[1..] == [[98]] && file[1..][1..] == [[98, 99]];
    assert StartsLike(dir[1..], file[1..][1..]);
    assert StartsLike(dir, file[1..]);
    assert Occurs(dir, file[1..]);
    assert file[0] != dir[0];
  }

  // ----- the cache -----

  /** The configured path is empty when a file belongs to none. */
  datatype CacheItem = CacheItem(pathfile: Name, lastTime: int)

  function Uncached(fileMap: map<Name, Info>, order: seq<Name>, origFile: Name): Name
    requires forall k | k in order :: k in fileMap
  {
    match Pattern(fileMap, order, origFile)
    case None => []
    case Some(p) => p
  }

  /** What a file's path is configured as, found without a cache. */
  function Lookup(fileMap: map<Name, Info>, order: seq<Name>, origFile: Name): Option<Info>
    requires forall k | k in order :: k in fileMap
  {
    match Pattern(fileMap, order, origFile)
    case None => None
    case Some(p) => Some(fileMap[p])
  }

  ghost predicate Cached(cache: map<Name, CacheItem>, fileMap: map<Name, Info>, order: seq<Name>)
    requires forall k | k in order :: k in fileMap
  {
    forall k | k in cache :: cache[k].pathfile == Uncached(fileMap, order, k)
  }

  /** Which path a file belongs to does not depend on when that was moved. */
  lemma {:induction false} PatternMoved(fileMap: map<Name, Info>, order: seq<Name>, origFile: Name, path: Name,
      time: nat)
    requires forall k | k in order :: k in fileMap
    ensures Pattern(WithMoveTime(fileMap, path, time), order, origFile) == Pattern(fileMap, order, origFile)
  {
    hide Belongs;
    if order != [] {
      var a, b := fileMap[order[0]], WithMoveTime(fileMap, path, time)[order[0]];
      assert Belongs(origFile, order[0], a) == Belongs(origFile, order[0], b) by {
        BelongsMoved(origFile, order[0], a, b.moveTime);
      }
      PatternMoved(fileMap, order[1..], origFile, path, time);
    }
  }

  lemma BelongsMoved(origFile: Name, path: Name, info: Info, time: nat)
    ensures Belongs(origFile, path, info.(moveTime := time)) == Belongs(origFile, path, info)
  {
  }

  datatype Request = Query(origFile: Name, now: int) | SetMoveTime(path: Name, time: nat)

  /** The answers to a run of requests when nothing is cached. */
  function Answers(fileMap: map<Name, Info>, order: seq<Name>, requests: seq<Request>): seq<Option<Info>>
    requires forall k | k in order :: k in fileMap
  {
    if requests == [] then []
    else match requests[0]
      case Query(origFile, _) => [Lookup(fileMap, order, origFile)] + Answers(fileMap, order, requests[1..])
      case SetMoveTime(path, time) => Answers(WithMoveTime(fileMap, path, time), order, requests[1..])
  }

  class Watcher {
    const config: Config
    var cache: map<Name, CacheItem>

    constructor (config: Config)
      requires config.Valid()
      ensures Valid() && this.config == config
    {
      this.config, cache := config, map[];
    }

    ghost predicate Valid()
      reads this, config
    {
      config.Valid() && Cached(cache, config.fileMap, config.order)
    }

    /** Beyond 1024 entries, those not used for more than a second are dropped. */
    method Evict(now: int)
      requires Valid()
      modifies this
      ensures Valid()
      ensures cache == if |old(cache)| > 1024 then
                         map k | k in old(cache) && now - old(cache)[k].lastTime <= 1 :: old(cache)[k]
                       else old(cache)
    {
      hide Uncached;
      if |cache| > 1024 {
        var keys := set k | k in cache && now - cache[k].lastTime > 1;
        var left := keys;
        while left != {}
          invariant left <= keys && cache == old(cache) - (keys - left)
          decreases |left|
        {
          var k :| k in left;
          cache, left := cache - {k}, left - {k};
        }
      }
    }

    method PatternPathFile(origFile: Name, now: int) returns (r: Option<Info>)
      requires Valid()
      modifies this
      ensures Valid() && r == Lookup(config.fileMap, config.order, origFile)
      ensures r.Some? ==>
                && r.value.deleteTime == 0
                && (!r.value.isDir ==> origFile in config.fileMap && r.value == config.fileMap[origFile])
      ensures forall n | 0 <= n < |config.order| && config.order[n] == origFile && !config.fileMap[origFile].isDir
                         && config.fileMap[origFile].deleteTime == 0
                         && forall j | 0 <= j < n && config.fileMap[config.order[j]].isDir ::
                              !Belongs(origFile, config.order[j], config.fileMap[config.order[j]])
                              && !Ends(origFile, config.fileMap[config.order[j]]) ::
                r == Some(config.fileMap[origFile])
      ensures origFile in cache && cache[origFile].lastTime == now
              && (cache[origFile].pathfile == [] <==> r.None?)
              && (r.Some? ==> cache[origFile].pathfile in config.fileMap
                              && r.value == config.fileMap[cache[origFile].pathfile])
      ensures cache - {origFile} == (if |old(cache)| > 1024 then
                                       map k | k in old(cache) && now - old(cache)[k].lastTime <= 1 :: old(cache)[k]
                                     else old(cache)) - {origFile}
    {
      hide Pattern, Belongs, Ends, Lookup, Uncached, Cached;
      LookupTakes(config.fileMap, config.order, origFile);
      UncachedIs(config.fileMap, config.order, origFile);
      Evict(now);
      ghost var left := cache;
      var pathFile := [];
      if origFile !in cache {
        var found := config.PatternPath(origFile);
        if found.Some? {
          pathFile := found.value;
        }
        cache := cache[origFile := CacheItem(pathFile, now)];
      } else {
        CachedAt(cache, config.fileMap, config.order, origFile);
        pathFile := cache[origFile].pathfile;
        cache := cache[origFile := cache[origFile].(lastTime := now)];
      }
      CachedUpdate(left, config.fileMap, config.order, origFile, cache[origFile]);
      r := config.FindFile(pathFile);
    }

    /** Over any run of queries and moved files, whatever is evicted in between, the answers are those
        without a cache. */
    method Run(requests: seq<Request>) returns (answers: seq<Option<Info>>)
      requires Valid()
      modifies this, config
      ensures Valid() && answers == Answers(old(config.fileMap), config.order, requests)
    {
      hide Pattern, Lookup, Cached;
      answers := [];
      for i := 0 to |requests|
        invariant Valid()
        invariant answers + Answers(config.fileMap, config.order, requests[i..]) ==
                  Answers(old(config.fileMap), config.order, requests)
      {
        assert requests[i..][0] == requests[i] && requests[i..][1..] == requests[i + 1..];
        match requests[i]
        case Query(origFile, now) =>
          var r := PatternPathFile(origFile, now);
          answers := answers + [r];
        case SetMoveTime(path, time) =>
          CachedMoved(cache, config.fileMap, config.order, path, time);
          config.SetMoveTime(path, time);
      }
    }
  }

  lemma CachedAt(cache: map<Name, CacheItem>, fileMap: map<Name, Info>, order: seq<Name>, k: Name)
    requires (forall j | j in order :: j in fileMap) && Cached(cache, fileMap, order) && k in cache
    ensures cache[k].pathfile == Uncached(fileMap, order, k)
  {
  }

  lemma CachedUpdate(cache: map<Name, CacheItem>, fileMap: map<Name, Info>, order: seq<Name>, k: Name, item: CacheItem)
    requires (forall j | j in order :: j in fileMap) && Cached(cache, fileMap, order)
    requires item.pathfile == Uncached(fileMap, order, k)
    ensures Cached(cache[k := item], fileMap, order)
  {
    hide Uncached;
  }

  /** An empty path stands for no answer. */
  lemma UncachedIs(fileMap: map<Name, Info>, order: seq<Name>, origFile: Name)
    requires (forall k | k in order :: k in fileMap) && [] !in fileMap
    ensures var p, r := Uncached(fileMap, order, origFile), Lookup(fileMap, order, origFile);
            && p == (match Pattern(fileMap, order, origFile) case None => [] case Some(q) => q)
            && (p == [] <==> r.None?) && (p in fileMap <==> r.Some?) && (r.Some? ==> r.value == fileMap[p])
  {
    hide Pattern;
    PatternTakes(fileMap, order, origFile);
  }

  /** What the answer says, in terms of the table. */
  lemma LookupTakes(fileMap: map<Name, Info>, order: seq<Name>, origFile: Name)
    requires forall k | k in order :: k in fileMap
    ensures var r := Lookup(fileMap, order, origFile);
            r.Some? ==>
              r.value.deleteTime == 0 && (!r.value.isDir ==> origFile in fileMap && r.value == fileMap[origFile])
    ensures forall n | 0 <= n < |order| && order[n] == origFile && !fileMap[origFile].isDir
                       && fileMap[origFile].deleteTime == 0
                       && forall j | 0 <= j < n && fileMap[order[j]].isDir ::
                            !Belongs(origFile, order[j], fileMap[order[j]]) && !Ends(origFile, fileMap[order[j]]) ::
              Lookup(fileMap, order, origFile) == Some(fileMap[origFile])
  {
    hide Pattern, Belongs, Ends;
    PatternTakes(fileMap, order, origFile);
    forall n | 0 <= n < |order| && order[n] == origFile && !fileMap[origFile].isDir
               && fileMap[origFile].deleteTime == 0
               && forall j | 0 <= j < n && fileMap[order[j]].isDir ::
                    !Belongs(origFile, order[j], fileMap[order[j]]) && !Ends(origFile, fileMap[order[j]])
      ensures Pattern(fileMap, order, origFile) == Some(origFile)
    {
      PlainFirst(fileMap, order, origFile, n);
    }
  }

  lemma CachedMoved(cache: map<Name, CacheItem>, fileMap: map<Name, Info>, order: seq<Name>, path: Name, time: nat)
    requires (forall k | k in order :: k in fileMap) && Cached(cache, fileMap, order)
    ensures Cached(cache, WithMoveTime(fileMap, path, time), order)
  {
    hide Pattern;
    forall k | k in cache ensures cache[k].pathfile == Uncached(WithMoveTime(fileMap, path, time), order, k) {
      PatternMoved(fileMap, order, k, path, time);
    }
  }
}
