/** The reader of growing files: which are open, how far each has been read, and under which name. */
module Readers {
  import opened Bytes
  import opened Configs
  import opened Events
  import opened FilePieces
  import opened MessageFlow
  import opened MessageStores
  import opened Names
  import opened Options
  import opened Scanning
  import opened Tails
  import opened TextLines

  /** The files that are read. A name stands for an inode; a stream keeps its inode under any name. */
  class Files {
    var names: map<Name, nat>
    var data: FileData

    ghost predicate Valid()
      reads this
    {
      forall k | k in names :: names[k] in data
    }

    constructor ()
      ensures Valid() && names == map[] && data == map[]
    {
      names, data := map[], map[];
    }

    /** A program appends to a file. */
    method Append(inode: nat, bytes: seq<Byte>)
      requires Valid() && inode in data
      modifies this
      ensures Valid() && Grows(old(data), data) && names == old(names)
      ensures data == old(data)[inode := old(data)[inode] + bytes]
    {
      data := data[inode := data[inode] + bytes];
    }

    method Create(name: Name, inode: nat)
      requires Valid() && inode !in data
      modifies this
      ensures Valid() && Grows(old(data), data) && names == old(names)[name := inode] && data == old(data)[inode := []]
    {
      data, names := data[inode := []], names[name := inode];
    }

    method Rename(from: Name, to: Name)
      requires Valid() && from in names
      modifies this
      ensures Valid() && data == old(data) && names == (old(names) - {from})[to := old(names)[from]]
    {
      names := (names - {from})[to := names[from]];
    }

    /** The bytes stay with those who have the file open. */
    method Unlink(name: Name)
      requires Valid()
      modifies this
      ensures Valid() && data == old(data) && names == old(names) - {name}
    {
      names := names - {name};
    }
  }

  /** Files only grow. */
  ghost predicate Grows(data: FileData, more: FileData) {
    forall i | i in data :: i in more && data[i] <= more[i]
  }

  class FileStream {
    var inode: nat
    var open: bool
    var good: bool

    constructor ()
      ensures !open && good
    {
      open, good := false, true;
    }

    method Open(target: Option<nat>)
      requires !open
      modifies this
      ensures open == good == target.Some?
      ensures target.Some? ==> inode == target.value
    {
      open, good := target.Some?, target.Some?;
      if target.Some? {
        inode := target.value;
      }
    }
  }

  /** A file being read. The stream is null until it could be live. */
  datatype FdItem = FdItem(pathfile: Name, origfile: Name, offset: nat, lastTime: int, moveProtected: bool,
      fs: FileStream?)

  type FdMap = map<Name, FdItem>

  type TailMap = map<Name, Tail>

  /** The inodes that open streams read. */
  type StreamMap = map<Name, nat>

  /** Whether the collection closes the stream of an item. */
  predicate Idle(item: FdItem, lifeTime: int, now: int) {
    item.lastTime != 0 && now - item.lastTime >= lifeTime && !item.moveProtected
  }

  /** Whether a file that was moved has waited long enough to be read anew. */
  predicate TimedOut(info: Info, now: int) {
    info.moveTime != 0 && ToU32(now - info.moveTime) > ToU32(info.timeWait)
  }

  ghost function LastTailIn(tails: TailMap, k: Name, info: Info, now: int): Tail {
    if k in tails && !TimedOut(info, now) then tails[k] else Tail(None, 0, [])
  }

  function LastOffsetIn(fdMap: FdMap, k: Name, info: Info, now: int): nat {
    if k in fdMap && !TimedOut(info, now) then fdMap[k].offset else 0
  }

  ghost function FileMapIn(fdMap: FdMap, fileMap: map<Name, Info>, k: Name, info: Info, now: int): map<Name, Info> {
    if k in fdMap && TimedOut(info, now) then WithMoveTime(fileMap, k, 0) else fileMap
  }

  function Most(maxLines: int): nat {
    if maxLines < 0 then 0 else maxLines
  }

  function Largest(maxfd: int): nat {
    if maxfd < 0 then 0 else maxfd + 1
  }

  ghost predicate Keyed(fdMap: FdMap) {
    forall k | k in fdMap :: fdMap[k].origfile == k
  }

  ghost predicate Unshared(fdMap: FdMap) {
    forall j, k | j in fdMap && k in fdMap && fdMap[j].fs == fdMap[k].fs != null :: j == k
  }

  ghost predicate Known(live: StreamMap, data: FileData) {
    forall k | k in live :: live[k] in data
  }

  /** An open stream reads the inode that its tail is about. */
  ghost predicate Sourced(tails: TailMap, live: StreamMap) {
    forall k | k in live :: k in tails && tails[k].source.Some? && tails[k].source.value.0 == live[k]
  }

  /** The tails tell of each file exactly what was sent of it. */
  ghost predicate Agree(fdMap: FdMap, tails: TailMap, data: FileData) {
    tails.Keys == fdMap.Keys && forall k | k in fdMap :: Faithful(tails[k], fdMap[k].offset, data)
  }

  /** What is open while the collection has the keys still before it. */
  ghost function Remaining(was: StreamMap, fdMap: FdMap, keys: set<Name>, lifeTime: int, now: int): StreamMap {
    map k | k in was && k in fdMap && (k in keys || !Idle(fdMap[k], lifeTime, now)) :: was[k]
  }

  lemma RemainingStep(was: StreamMap, fdMap: FdMap, keys: set<Name>, k: Name, lifeTime: int, now: int)
    requires k in keys && k in fdMap
    ensures Remaining(was, fdMap, keys - {k}, lifeTime, now)
            == if Idle(fdMap[k], lifeTime, now) then Remaining(was, fdMap, keys, lifeTime, now) - {k}
               else Remaining(was, fdMap, keys, lifeTime, now)
    ensures k in Remaining(was, fdMap, keys, lifeTime, now) <==> k in was
  {
  }

  lemma RemainingAll(was: StreamMap, fdMap: FdMap, lifeTime: int, now: int)
    requires was.Keys <= fdMap.Keys
    ensures Remaining(was, fdMap, fdMap.Keys, lifeTime, now) == was
  {
  }

  lemma RemainingFewer(was: StreamMap, fdMap: FdMap, lifeTime: int, now: int, data: FileData)
    requires Known(was, data)
    ensures var live := Remaining(was, fdMap, {}, lifeTime, now);
            Known(live, data) && |live| <= |was| && forall k | k in live :: k in was && live[k] == was[k]
  {
    var live := Remaining(was, fdMap, {}, lifeTime, now);
    Fewer(live.Keys, was.Keys);
    assert |live| == |live.Keys| && |was| == |was.Keys|;
  }

  /** Open stay the streams of files that have not been read yet, were read within the life time, or are
      protected. */
  lemma RemainingIs(was: StreamMap, fdMap: FdMap, lifeTime: int, now: int)
    requires was.Keys <= fdMap.Keys
    ensures forall k :: k in Remaining(was, fdMap, {}, lifeTime, now) <==>
              k in was && (fdMap[k].lastTime == 0 || now - fdMap[k].lastTime < lifeTime || fdMap[k].moveProtected)
  {
  }

  /** The path was moved longer ago than it may wait. */
  ghost predicate Waited(info: Info, now: int) {
    && 0 <= now - info.moveTime < TWO_32 && 0 <= info.timeWait < TWO_32
    && info.moveTime != 0 && now - info.moveTime > info.timeWait
  }

  /** How long ago the path was moved, against the waiting time, as far as these numbers fit into 32 bits. */
  lemma TimedOutIs(info: Info, now: int)
    requires 0 <= now - info.moveTime < TWO_32 && 0 <= info.timeWait < TWO_32
    ensures TimedOut(info, now) <==> info.moveTime != 0 && now - info.moveTime > info.timeWait
  {
  }

  /** The move time of one path, if that is configured, is cleared. */
  ghost predicate Cleared(fileMap: map<Name, Info>, after: map<Name, Info>, path: Name) {
    && after.Keys == fileMap.Keys
    && forall k | k in fileMap :: after[k] == if k == path then fileMap[k].(moveTime := 0) else fileMap[k]
  }

  /** The item of a name before reading: a new one at the beginning of the file, the one there was, or, when the
      path was moved longer ago than it may wait, the one there was at the beginning again and unprotected. */
  ghost predicate Readied(fdMap: FdMap, item: FdItem, k: Name, pathfile: Name, info: Info, now: int,
      fileMap: map<Name, Info>, after: map<Name, Info>)
  {
    0 <= now - info.moveTime < TWO_32 && 0 <= info.timeWait < TWO_32 ==>
      && item.lastTime == now
      && if k !in fdMap then item.offset == 0 && item.pathfile == pathfile && after == fileMap
         else if info.moveTime == 0 || now - info.moveTime <= info.timeWait then
           item == fdMap[k].(fs := item.fs, lastTime := now) && after == fileMap
         else
           && item == fdMap[k].(fs := item.fs, lastTime := now, offset := 0, moveProtected := false)
           && Cleared(fileMap, after, k)
  }

  /** So it was before the offset was moved by n. */
  ghost predicate ReadiedThen(fdMap: FdMap, item: FdItem, n: nat, k: Name, pathfile: Name, info: Info, now: int,
      fileMap: map<Name, Info>, after: map<Name, Info>)
  {
    item.offset >= n && Readied(fdMap, item.(offset := item.offset - n), k, pathfile, info, now, fileMap, after)
  }

  lemma ReadiedMoved(fdMap: FdMap, item: FdItem, moved: FdItem, n: nat, k: Name, pathfile: Name, info: Info, now: int,
      fileMap: map<Name, Info>, after: map<Name, Info>)
    requires Readied(fdMap, item, k, pathfile, info, now, fileMap, after)
    requires moved == item.(offset := item.offset + n)
    ensures ReadiedThen(fdMap, moved, n, k, pathfile, info, now, fileMap, after)
  {
    hide Readied;
    assert moved.(offset := moved.offset - n) == item;
  }

  lemma ReadiedWith(fdMap: FdMap, before: FdItem, item: FdItem, k: Name, pathfile: Name, info: Info, now: int,
      fileMap: map<Name, Info>, after: map<Name, Info>)
    requires Readied(fdMap, before.(lastTime := now), k, pathfile, info, now, fileMap, after)
    requires item == before.(fs := item.fs, lastTime := now)
    ensures Readied(fdMap, item, k, pathfile, info, now, fileMap, after)
  {
  }

  /** What a call starts from: the items, the tails, the journal and the queue. */
  datatype Before = Before(fdMap: FdMap, tails: TailMap, entries: seq<Entry>, queued: seq<MessageItem>)

  /** All that a reader is at one time: its items, aliases and tails, the table of paths, the inodes that are open
      and how many were counted, the journal and the queue. */
  datatype State = State(
    fdMap: FdMap, aliasMap: map<Name, Name>, tails: TailMap, fileMap: map<Name, Info>, live: StreamMap,
    counted: int, entries: seq<Entry>, queued: seq<MessageItem>)
  {
    ghost function Start(): Before {
      Before(fdMap, tails, entries, queued)
    }
  }

  class Reader {
    const config: Config
    const files: Files
    const message: Message
    const maxfd: int
    const maxLines: int
    const maxLineBytes: int
    var fdMap: FdMap
    /** The present names of renamed files, by the old ones. */
    var aliasMap: map<Name, Name>
    var currentFdNum: int
    ghost var tails: TailMap

    constructor (config: Config, files: Files, message: Message, maxfd: int, maxLines: int, maxLineBytes: int)
      requires config.Valid() && files.Valid() && message.Wired()
      ensures Valid() && Exact() && fdMap == map[] && aliasMap == map[] && tails == map[]
      ensures this.config == config && this.files == files && this.message == message
      ensures this.maxfd == maxfd && this.maxLines == maxLines && this.maxLineBytes == maxLineBytes
    {
      this.config, this.files, this.message := config, files, message;
      this.maxfd, this.maxLines, this.maxLineBytes := maxfd, maxLines, maxLineBytes;
      fdMap, aliasMap, currentFdNum, tails := map[], map[], 0, map[];
      new;
      assert Opened() == map[];
    }

    ghost function Streams(): set<FileStream>
      reads this`fdMap
    {
      set k | k in fdMap && fdMap[k].fs != null :: fdMap[k].fs
    }

    /** The files whose streams are open, with the inodes these read. */
    ghost function Opened(): StreamMap
      reads this`fdMap, Streams()
    {
      map k | k in fdMap && fdMap[k].fs != null && fdMap[k].fs.open :: fdMap[k].fs.inode
    }

    /** Every item is found under its own name, no two share a stream, and the open streams are no
        more than were counted, which are at most one more than configured. */
    ghost predicate Valid()
      reads this, Streams(), files, config
    {
      && config.Valid() && files.Valid() && message.Wired()
      && Keyed(fdMap) && Unshared(fdMap) && Known(Opened(), files.data) && Sourced(tails, Opened())
      && fdMap.Keys == tails.Keys
      && |Opened()| <= currentFdNum <= Largest(maxfd)
    }

    /** Of every file exactly the pieces between its start and its offset were sent. */
    ghost predicate Exact()
      reads this`fdMap, this`tails, files`data
    {
      Agree(fdMap, tails, files.data)
    }

    // ----- streams -----

    method CloseStream(fs: FileStream?)
      modifies (if fs == null then {} else {fs})`open
      ensures fs != null ==> !fs.open
    {
      if fs != null && fs.open {
        fs.open := false;
      }
    }

    /** One round of the collection. */
    method CollectKey(k: Name, lifeTime: int, now: int) returns (count: nat)
      requires k in fdMap && Unshared(fdMap)
      modifies Streams()`open
      ensures count == if k in old(Opened().Keys) then 1 else 0
      ensures Opened() == if Idle(fdMap[k], lifeTime, now) then old(Opened()) - {k} else old(Opened())
    {
      hide Unshared, Opened, Relive;
      Apart(k);
      OpenedAt();
      var item := fdMap[k];
      count := 0;
      if item.fs != null && item.fs.open {
        count := 1;
      }
      if item.lastTime == 0 || now - item.lastTime < lifeTime || item.moveProtected {
        return;
      }
      CloseStream(item.fs);
      OpenedAt();
      IsRelive(old(Opened()), Opened(), k, None);
      NoLonger(old(Opened()), k);
    }

    method Collect(lifeTime: int, now: int) returns (count: nat)
      requires Unshared(fdMap)
      modifies Streams()`open
      ensures count == |old(Opened())|
      ensures Opened() == Remaining(old(Opened()), fdMap, {}, lifeTime, now)
    {
      hide Opened, Unshared, Idle, Gone, Remaining;
      count := 0;
      var keys := fdMap.Keys;
      ghost var was := Opened();
      OpenedKnown();
      GoneAtEnds(was.Keys, keys);
      RemainingAll(was, fdMap, lifeTime, now);
      while keys != {}
        invariant keys <= fdMap.Keys && count == Gone(was.Keys, keys)
        invariant Opened() == Remaining(was, fdMap, keys, lifeTime, now)
        decreases |keys|
      {
        var k :| k in keys;
        CountOne(was.Keys, keys, k);
        RemainingStep(was, fdMap, keys, k, lifeTime, now);
        keys := keys - {k};
        var r := CollectKey(k, lifeTime, now);
        count := count + r;
      }
    }

    /** Closes what has been idle. Streams are counted before they are closed, so the count may be
        too high but never too low. */
    method GcFstream(lifeTime: int, now: int)
      requires Valid()
      modifies this`currentFdNum, Streams()`open
      ensures Valid() && currentFdNum == |old(Opened())| <= old(currentFdNum)
      ensures Opened() == Remaining(old(Opened()), fdMap, {}, lifeTime, now)
      ensures forall k :: k in Opened() <==>
                k in old(Opened())
                && (fdMap[k].lastTime == 0 || now - fdMap[k].lastTime < lifeTime || fdMap[k].moveProtected)
      ensures forall k | k in Opened() :: k in old(Opened()) && Opened()[k] == old(Opened())[k]
    {
      hide Opened, Unshared, Idle, Known, Keyed, Remaining;
      OpenedKnown();
      RemainingIs(Opened(), fdMap, lifeTime, now);
      RemainingFewer(Opened(), fdMap, lifeTime, now, files.data);
      var count := Collect(lifeTime, now);
      currentFdNum := count;
    }

    lemma OpenedKnown()
      ensures Opened().Keys <= fdMap.Keys
    {
    }

    /** A stream that is open and in order is kept; any other is live anew. Every attempt counts,
        even one that fails. */
    method OpenStream(name: Name, stream: FileStream?, opens: bool) returns (r: FileStream?)
      requires files.Valid()
      modifies this`currentFdNum, if stream == null then {} else {stream}
      ensures if stream != null && old(stream.open && stream.good) then
                r == stream && r.open && r.good && r.inode == old(r.inode) && currentFdNum == old(currentFdNum)
              else
                && currentFdNum == old(currentFdNum) + 1
                && if name in files.names && opens then
                     && r != null && r.open && r.good && r.inode == files.names[name]
                     && (if stream == null then fresh(r) else r == stream)
                   else r == null && (stream != null ==> !stream.open)
    {
      if stream != null && stream.open && stream.good {
        return stream;
      }
      if stream != null && !stream.good && stream.open {
        CloseStream(stream);
      }
      if stream == null {
        r := new FileStream();
      } else {
        r := stream;
      }
      r.Open(if name in files.names && opens then Some(files.names[name]) else None);
      currentFdNum := currentFdNum + 1;
      if !r.good {
        CloseStream(r);
      }
      if !r.open {
        r := null;
      }
    }

    // ----- preparing a file for reading -----

    function Target(origfile: Name): Name
      reads this`aliasMap
    {
      if origfile in aliasMap then aliasMap[origfile] else origfile
    }

    ghost function StreamOf(k: Name): set<FileStream>
      reads this`fdMap
    {
      if k in fdMap && fdMap[k].fs != null then {fdMap[k].fs} else {}
    }

    /** The tail that a reading of name k goes on with: the last one, unless the file was moved too
        long ago. */
    ghost function LastTail(k: Name, info: Info, now: int): Tail
      reads this`tails
    {
      LastTailIn(tails, k, info, now)
    }

    ghost predicate Kept(k: Name, info: Info, now: int)
      reads this`fdMap, Streams()
    {
      k in Opened() && fdMap[k].fs.good && !TimedOut(info, now)
    }

    function LastOffset(k: Name, info: Info, now: int): nat
      reads this`fdMap
    {
      LastOffsetIn(fdMap, k, info, now)
    }

    /** The item that a reading of name k goes on with; the protection of a new one is whatever the memory holds. */
    function ItemBefore(k: Name, pathfile: Name, info: Info, now: int, stale: bool): FdItem
      reads this`fdMap
    {
      if k !in fdMap then FdItem(pathfile, k, 0, 0, stale, null)
      else if TimedOut(info, now) then fdMap[k].(offset := 0, moveProtected := false)
      else fdMap[k]
    }

    /** Only a timed-out move changes the table of paths. */
    ghost function FileMapAfter(k: Name, info: Info, now: int): map<Name, Info>
      reads this`fdMap, config
    {
      FileMapIn(fdMap, config.fileMap, k, info, now)
    }

    /** What the item and the table of paths are, by the time since the path was moved. */
    lemma ReadiedIs(k: Name, pathfile: Name, info: Info, now: int, stale: bool)
      ensures Readied(fdMap, ItemBefore(k, pathfile, info, now, stale).(lastTime := now), k, pathfile, info, now,
                      config.fileMap, FileMapAfter(k, info, now))
      ensures 0 <= now - info.moveTime < TWO_32 && 0 <= info.timeWait < TWO_32
              && (info.moveTime == 0 || now - info.moveTime <= info.timeWait) && k in Opened() && fdMap[k].fs.good ==>
                Kept(k, info, now)
      ensures Waited(info, now) ==> !Kept(k, info, now)
    {
      if 0 <= now - info.moveTime < TWO_32 && 0 <= info.timeWait < TWO_32 {
        TimedOutIs(info, now);
      }
    }

    /** The item of a file, new or as it was; its stream is closed if it was moved too long ago. */
    method LastItem(target: Name, pathfile: Name, info: Info, now: int, stale: bool) returns (item: FdItem)
      requires config.Valid() && Keyed(fdMap)
      modifies config, StreamOf(target)
      ensures config.Valid() && item.origfile == target && item.offset == old(LastOffset(target, info, now))
      ensures item == ItemBefore(target, pathfile, info, now, stale)
              && config.fileMap == old(FileMapAfter(target, info, now))
      ensures item.fs != null ==> item.fs.open == (old(fdMap[target].fs.open) && !TimedOut(info, now))
      ensures item.fs != null ==>
              item.fs.good == old(fdMap[target].fs.good) && item.fs.inode == old(fdMap[target].fs.inode)
      ensures target !in fdMap ==>
                item == FdItem(pathfile, target, 0, 0, stale, null) && config.fileMap == old(config.fileMap)
      ensures target in fdMap && 0 <= now - info.moveTime < TWO_32 && 0 <= info.timeWait < TWO_32 ==>
                if info.moveTime == 0 || now - info.moveTime <= info.timeWait then
                  && item == fdMap[target] && config.fileMap == old(config.fileMap)
                  && (item.fs != null ==> item.fs.open == old(fdMap[target].fs.open))
                else
                  && item == fdMap[target].(offset := 0, moveProtected := false) && (item.fs != null ==> !item.fs.open)
                  && Cleared(old(config.fileMap), config.fileMap, target)
    {
      if 0 <= now - info.moveTime < TWO_32 && 0 <= info.timeWait < TWO_32 {
        TimedOutIs(info, now);
      }
      if target !in fdMap {
        item := FdItem(pathfile, target, 0, 0, stale, null);
      } else {
        item := fdMap[target];
        if TimedOut(info, now) {
          item := item.(offset := 0);
          CloseStream(item.fs);
          item := item.(moveProtected := false);
          config.SetMoveTime(target, 0);
        }
      }
    }

    /** Fetches or creates the item of a file and opens its stream. */
    method FetchItem(target: Name, pathfile: Name, info: Info, now: int, stale: bool,
        opens: bool) returns (item: FdItem)
      requires files.Valid() && config.Valid() && Keyed(fdMap)
      modifies this`fdMap, this`currentFdNum, this`tails, config, StreamOf(target)
      ensures tails == old(tails)[target := NextTail(old(LastTail(target, info, now)), item, info.isBinary)]
      ensures config.Valid() && item.origfile == target && fdMap == old(fdMap)[target := item]
      ensures item == old(ItemBefore(target, pathfile, info, now, stale)).(fs := item.fs, lastTime := now)
      ensures config.fileMap == old(FileMapAfter(target, info, now))
      ensures item.fs != null ==> item.fs in old(StreamOf(target)) || fresh(item.fs)
      ensures item.offset == old(LastOffset(target, info, now))
      ensures currentFdNum == old(currentFdNum) + if old(Kept(target, info, now)) then 0 else 1
      ensures item.fs != null ==> item.fs.open && item.fs.good
      ensures if old(Kept(target, info, now)) then
                item.fs == old(fdMap[target].fs) && item.fs.inode == old(fdMap[target].fs.inode)
              else
                && (item.fs != null <==> target in files.names && opens)
                && (item.fs != null ==> item.fs.inode == files.names[target])
    {
      hide TimedOut, NextTail, Opened, Kept;
      KeptAt(target, info, now);
      ghost var last := LastTail(target, info, now);
      item := LastItem(target, pathfile, info, now, stale);
      var fs := OpenStream(target, item.fs, opens);
      item := item.(fs := fs, lastTime := now);
      fdMap := fdMap[target := item];
      tails := tails[target := NextTail(last, item, info.isBinary)];
    }

    lemma OpenedAt()
      ensures forall k :: k in Opened() <==> k in fdMap && fdMap[k].fs != null && fdMap[k].fs.open
      ensures forall k | k in Opened() :: Opened()[k] == fdMap[k].fs.inode
    {
    }

    lemma Apart(k: Name)
      requires Unshared(fdMap)
      ensures forall j | j in fdMap && j != k :: fdMap[j].fs !in StreamOf(k)
    {
    }

    method FetchItemAlone(target: Name, pathfile: Name, info: Info, now: int, stale: bool,
        opens: bool) returns (item: FdItem)
      requires files.Valid() && config.Valid() && Keyed(fdMap) && Unshared(fdMap)
      modifies this`fdMap, this`currentFdNum, this`tails, config, StreamOf(target)
      ensures tails == old(tails)[target := NextTail(old(LastTail(target, info, now)), item, info.isBinary)]
      ensures config.Valid() && item.origfile == target && fdMap == old(fdMap)[target := item]
      ensures item == old(ItemBefore(target, pathfile, info, now, stale)).(fs := item.fs, lastTime := now)
      ensures config.fileMap == old(FileMapAfter(target, info, now))
      ensures item.fs != null ==> item.fs.open && item.fs.good && (item.fs in old(StreamOf(target)) || fresh(item.fs))
      ensures item.offset == old(LastOffset(target, info, now))
      ensures currentFdNum == old(currentFdNum) + if old(Kept(target, info, now)) then 0 else 1
      ensures if old(Kept(target, info, now)) then
                item.fs == old(fdMap[target].fs) != null && item.fs.inode == old(Opened())[target]
              else
                && (item.fs != null <==> target in files.names && opens)
                && (item.fs != null ==> item.fs.inode == files.names[target])
      ensures Unshared(fdMap)
              && Opened() == Relive(old(Opened()), target, if item.fs == null then None else Some(item.fs.inode))
    {
      hide TimedOut, LastOffset, Unshared, Keyed, Files.Valid, LastTail, NextTail, Relive, Opened, Kept, ItemBefore,
          FileMapAfter;
      Apart(target);
      KeptOpened(target, info, now);
      OpenedAt();
      item := FetchItem(target, pathfile, info, now, stale, opens);
      UnsharedUpdate(old(fdMap), target, item);
      OpenedAt();
      IsRelive(old(Opened()), Opened(), target, if item.fs == null then None else Some(item.fs.inode));
    }

    lemma LastTailFaithful(k: Name, info: Info, now: int)
      requires Exact()
      ensures Faithful(LastTail(k, info, now), LastOffset(k, info, now), files.data)
    {
      hide TimedOut;
      hide Faithful;
      NothingSent(files.data);
    }

    lemma KeptAt(k: Name, info: Info, now: int)
      ensures Kept(k, info, now)
              <==> k in fdMap && fdMap[k].fs != null && fdMap[k].fs.open && fdMap[k].fs.good && !TimedOut(info, now)
    {
    }

    lemma KeptOpened(k: Name, info: Info, now: int)
      ensures Kept(k, info, now) ==> k in Opened() && Opened()[k] == fdMap[k].fs.inode
      ensures Known(Opened(), files.data) && Kept(k, info, now) ==> Opened()[k] in files.data
    {
    }

    ghost function Look(): State
      reads this, Streams(), config, message.journal, message.queue
    {
      State(fdMap, aliasMap, tails, config.fileMap, Opened(), currentFdNum, message.journal.entries,
          message.queue.items)
    }

    /** The item of the file is readied, and its stream live unless the file cannot be opened; an attempt to open it
        is counted. The other items and streams stay. */
    ghost predicate AttachedSo(before: State, after: State, names: map<Name, nat>, k: Name, pathfile: Name, info: Info,
        now: int, opens: bool, inode: Option<nat>)
    {
      && k in after.fdMap && after.fdMap == before.fdMap[k := after.fdMap[k]]
      && Readied(before.fdMap, after.fdMap[k], k, pathfile, info, now, before.fileMap, after.fileMap)
      && after.fileMap == FileMapIn(before.fdMap, before.fileMap, k, info, now)
      && after.fdMap[k].offset == LastOffsetIn(before.fdMap, k, info, now)
      && before.counted <= after.counted <= before.counted + 1
      && after.aliasMap == before.aliasMap && after.entries == before.entries && after.queued == before.queued
      && (forall j | j != k :: j in after.live <==> j in before.live)
      && (forall j | j in after.live && j != k :: after.live[j] == before.live[j])
      && (k in after.live <==> inode.Some?)
      && var last := LastTailIn(before.tails, k, info, now);
         match inode
         case None => !(opens && k in names) && after.tails == before.tails[k := last]
         case Some(i) =>
           && after.live[k] == i
           && ((k in before.live && i == before.live[k] && !Waited(info, now)) || (k in names && i == names[k]))
           && after.tails == before.tails[k := Resumed(last, after.fdMap[k].offset, i, info.isBinary)]
    }

    /** At the limit of open streams the idle ones are closed, but all are counted. */
    ghost function Reclaimed(before: State, now: int): State {
      if before.counted > maxfd then
        before.(counted := |before.live|,
                live := map k | k in before.live && k in before.fdMap
                              && (before.fdMap[k].lastTime == 0 || now - before.fdMap[k].lastTime < 1
                                  || before.fdMap[k].moveProtected) :: before.live[k])
      else before
    }

    lemma ReclaimedSame(before: State, now: int)
      ensures Reclaimed(before, now)
              == before.(counted := Reclaimed(before, now).counted, live := Reclaimed(before, now).live)
    {
    }

    /** How a file is prepared for reading: if the limit is still exceeded then, nothing else is done. */
    ghost predicate PreparedSo(before: State, after: State, names: map<Name, nat>, origfile: Name, pathfile: Name,
        info: Info, now: int, opens: bool, isContinue: bool, inode: Option<nat>)
    {
      var mid := Reclaimed(before, now);
      && (isContinue <==> mid.counted > maxfd)
      && if isContinue then after == mid && inode.None?
         else
           var k := if origfile in mid.aliasMap then mid.aliasMap[origfile] else origfile;
           AttachedSo(mid, after, names, k, pathfile, info, now, opens, inode)
    }

    lemma ValidHas()
      requires Valid()
      ensures config.Valid() && files.Valid() && message.Wired() && Keyed(fdMap) && Unshared(fdMap)
      ensures Known(Opened(), files.data) && Sourced(tails, Opened()) && fdMap.Keys == tails.Keys
      ensures |Opened()| <= currentFdNum <= Largest(maxfd)
    {
    }

    lemma ValidIs()
      requires config.Valid() && files.Valid() && message.Wired() && Keyed(fdMap) && Unshared(fdMap)
      requires Known(Opened(), files.data) && Sourced(tails, Opened()) && fdMap.Keys == tails.Keys
      requires |Opened()| <= currentFdNum <= Largest(maxfd)
      ensures Valid()
    {
    }

    lemma AttachedIs(before: State, after: State, names: map<Name, nat>, k: Name, pathfile: Name, info: Info, now: int,
        opens: bool, inode: Option<nat>, item: FdItem)
      requires after == before.(fdMap := before.fdMap[k := item], fileMap := after.fileMap, counted := after.counted,
                                live := Relive(before.live, k, inode), tails := after.tails)
      requires Readied(before.fdMap, item, k, pathfile, info, now, before.fileMap, after.fileMap)
      requires after.fileMap == FileMapIn(before.fdMap, before.fileMap, k, info, now)
      requires item.offset == LastOffsetIn(before.fdMap, k, info, now)
      requires before.counted <= after.counted <= before.counted + 1
      requires inode.None? ==> !(opens && k in names)
      requires inode.Some? ==>
                 (k in before.live && inode.value == before.live[k] && !Waited(info, now))
                 || (k in names && inode.value == names[k])
      requires var last := LastTailIn(before.tails, k, info, now);
               after.tails ==
               before.tails[k := if inode.None? then last else Resumed(last, item.offset, inode.value, info.isBinary)]
      ensures AttachedSo(before, after, names, k, pathfile, info, now, opens, inode)
    {
      ReliveAt(before.live, k, inode);
    }

    method FetchReadied(target: Name, pathfile: Name, info: Info, now: int, stale: bool,
        opens: bool) returns (item: FdItem)
      requires files.Valid() && config.Valid() && Keyed(fdMap) && Unshared(fdMap)
      modifies this`fdMap, this`currentFdNum, this`tails, config, StreamOf(target)
      ensures tails == old(tails)[target := NextTail(old(LastTail(target, info, now)), item, info.isBinary)]
      ensures config.Valid() && item.origfile == target && fdMap == old(fdMap)[target := item]
      ensures item.fs != null ==> item.fs.open && item.fs.good && (item.fs in old(StreamOf(target)) || fresh(item.fs))
      ensures item.offset == old(LastOffset(target, info, now))
      ensures currentFdNum == old(currentFdNum) + if old(Kept(target, info, now)) then 0 else 1
      ensures if old(Kept(target, info, now)) then
                item.fs == old(fdMap[target].fs) != null && item.fs.inode == old(Opened())[target]
              else item.fs != null ==> target in files.names && item.fs.inode == files.names[target]
      ensures Unshared(fdMap)
              && Opened() == Relive(old(Opened()), target, if item.fs == null then None else Some(item.fs.inode))
      ensures target in old(Opened()) && 0 <= now - info.moveTime < TWO_32 && 0 <= info.timeWait < TWO_32
              && (info.moveTime == 0 || now - info.moveTime <= info.timeWait) && old(fdMap[target].fs.good) ==>
                item.fs == old(fdMap[target].fs)
      ensures AttachedSo(old(Look()), Look(), files.names, target, pathfile, info, now, opens,
                         if item.fs == null then None else Some(item.fs.inode))
    {
      hide TimedOut, Opened, Unshared, Keyed, Relive, LastTailIn, LastOffsetIn, Resumed, ItemBefore, FileMapIn, Kept,
          Readied, AttachedSo, Waited, Config.Valid, Files.Valid;
      ghost var before := ItemBefore(target, pathfile, info, now, stale);
      ReadiedIs(target, pathfile, info, now, stale);
      KeptOpened(target, info, now);
      item := FetchItemAlone(target, pathfile, info, now, stale, opens);
      ReadiedWith(old(fdMap), before, item, target, pathfile, info, now, old(config.fileMap), config.fileMap);
      AttachedIs(old(Look()), Look(), files.names, target, pathfile, info, now, opens,
                 if item.fs == null then None else Some(item.fs.inode), item);
    }

    method Attach(target: Name, pathfile: Name, info: Info, now: int, stale: bool, opens: bool) returns (item: FdItem)
      requires Valid() && currentFdNum <= maxfd
      modifies this`fdMap, this`currentFdNum, this`tails, config, StreamOf(target)
      ensures Valid() && (old(Exact()) ==> Exact())
      ensures fdMap == old(fdMap)[target := item]
      ensures item.fs != null ==> item.fs in old(StreamOf(target)) || fresh(item.fs)
      ensures item.fs != null ==> item.fs.open && item.fs.good && item.fs.inode in files.data
      ensures target in old(Opened()) && 0 <= now - info.moveTime < TWO_32 && 0 <= info.timeWait < TWO_32
              && (info.moveTime == 0 || now - info.moveTime <= info.timeWait) && old(fdMap[target].fs.good) ==>
                item.fs == old(fdMap[target].fs)
      ensures AttachedSo(old(Look()), Look(), files.names, target, pathfile, info, now, opens,
                         if item.fs == null then None else Some(item.fs.inode))
    {
      hide Faithful, TimedOut, Opened, Unshared, Keyed, Agree, Known, Sourced, Relive, LastTailIn, LastOffsetIn,
          Resumed,
          ItemBefore, FileMapIn, Kept, Readied, AttachedSo, Waited, Valid, Config.Valid, Files.Valid;
      ValidHas();
      ghost var was, last, exact := Opened(), LastTail(target, info, now), Exact();
      if exact {
        LastTailFaithful(target, info, now);
      }
      KeptOpened(target, info, now);
      item := FetchReadied(target, pathfile, info, now, stale, opens);
      ghost var tail := last;
      if item.fs != null {
        if exact {
          ResumedFaithful(last, item.offset, item.fs.inode, info.isBinary, files.data);
        }
        ResumedSource(last, item.offset, item.fs.inode, info.isBinary);
        tail := Resumed(last, item.offset, item.fs.inode, info.isBinary);
      }
      ghost var inode := if item.fs == null then None else Some(item.fs.inode);
      if exact {
        AgreeUpdate(old(fdMap), old(tails), files.data, target, item, tail);
      }
      KnownUpdate(was, files.data, target, inode);
      SourcedUpdate(old(tails), was, target, tail, inode);
      KeyedUpdate(old(fdMap), target, item);
      LiveCount(was, target, inode);
      ValidIs();
    }

    /** At the limit of open streams the idle ones are closed. */
    method Reclaim(now: int)
      requires Valid()
      modifies this`currentFdNum, Streams()`open
      ensures Valid() && (old(Exact()) ==> Exact())
      ensures Look() == Reclaimed(old(Look()), now)
    {
      hide Opened, Valid, Exact, Remaining, Idle;
      OpenedKnown();
      if currentFdNum > maxfd {
        GcFstream(1, now);
        SameMap(Reclaimed(old(Look()), now).live, Opened());
      }
    }

    /** Prepares a file for reading. At the limit of open streams the idle ones are closed first, and
        if that does not help the event has to come back. */
    method InitStream(origfile: Name, pathfile: Name, info: Info, now: int, stale: bool,
        opens: bool) returns (item: Option<FdItem>, isContinue: bool)
      requires Valid()
      modifies this`fdMap, this`currentFdNum, this`tails, config, Streams()
      ensures Valid() && (old(Exact()) ==> Exact())
      ensures forall fs | fs in Streams() :: fs in old(Streams()) || fresh(fs)
      ensures item.Some? ==>
                var fs := item.value.fs;
                fs != null && fs.open && fs.good && fs.inode in files.data && Target(origfile) in fdMap
                && item.value == fdMap[Target(origfile)]
      ensures item.Some? ==> !isContinue
      ensures PreparedSo(old(Look()), Look(), files.names, origfile, pathfile, info, now, opens, isContinue,
                         if item.None? then None else Some(item.value.fs.inode))
    {
      hide Opened, Valid, Exact, Reclaimed, AttachedSo;
      isContinue := false;
      Reclaim(now);
      if currentFdNum > maxfd {
        return None, true;
      }
      var target := Target(origfile);
      var attached := Attach(target, pathfile, info, now, stale, opens);
      item := if attached.fs == null then None else Some(attached);
    }

    // ----- reading -----

    /** Makes the message of a line or frame and offers it to the queue. */
    method SendMessage(msg: seq<Byte>, info: Info, memory: Memory, ghost i: nat) returns (ok: bool, ghost sent: Sent)
      modifies message.journal, message.queue
      ensures ok <==> |old(message.queue.items)| <= message.limit
      ensures sent.piece == msg && sent.format == FormatOf(info) && IsShown(sent)
      ensures sent.body == if info.isBinary then msg else Shown(info.format, msg, memory)
      ensures !info.isBinary && info.format.post == [] && 0 !in msg ==> sent.body == info.format.pre + msg
      ensures !info.isBinary ==> |sent.body| == |info.format.pre| + |msg| + |info.format.post|
      ensures message.queue.items ==
              old(message.queue.items) + if ok then [MessageItem(-1, 0, info.topicName, sent.body)] else []
      ensures message.journal.entries ==
              old(message.journal.entries) + if ok then [EntryFor(info.topicName, i, sent)] else []
      ensures message.queue.items == old(message.queue.items) + if ok then [ItemFor(info.topicName, sent)] else []
    {
      var body;
      if info.isBinary {
        body := msg;
      } else {
        var f := info.format;
        var bufferSize := |msg| + (|f.pre| + 2 + |f.post|) - 1;
        body := Fill(f.pre + CString(msg + memory.behind) + f.post + [0] + memory.junk, bufferSize - 1);
        assert body == Shown(f, msg, memory);
        if 0 !in msg {
          ShownIsFormatted(f, msg, memory);
        }
      }
      sent := Sent(msg, FormatOf(info), body);
      ok := message.SetMessage(info.topicName, -1, body, Some(i));
    }

    method SetFileOffset(pathFile: Name, offset: nat)
      modifies this`fdMap
      ensures fdMap == Moved(old(fdMap), pathFile, offset)
      ensures fdMap == if pathFile in old(fdMap) then
                         old(fdMap)[pathFile := old(fdMap)[pathFile].(offset := old(fdMap)[pathFile].offset + offset)]
                       else old(fdMap)
    {
      if pathFile !in fdMap {
        return;
      }
      var item := fdMap[pathFile];
      item := item.(offset := item.offset + offset);
      fdMap := fdMap[pathFile := item];
    }

    ghost function Now(): Before
      reads this`fdMap, this`tails, message.journal, message.queue
    {
      Before(fdMap, tails, message.journal.entries, message.queue.items)
    }

    /** In this call so far n bytes of inode i were read and these messages sent. */
    ghost predicate Sending(before: Before, origfile: Name, info: Info, i: nat, n: nat, sent: seq<Sent>)
      reads this`fdMap, message.journal, message.queue
    {
      && fdMap == Moved(before.fdMap, origfile, n)
      && message.journal.entries == before.entries + EntriesFor(info.topicName, i, sent)
      && message.queue.items == before.queued + ItemsFor(info.topicName, sent)
      && AllShown(sent) && AllOf(sent, FormatOf(info))
    }

    lemma SendingNothing(origfile: Name, info: Info, i: nat)
      ensures Sending(Now(), origfile, info, i, 0, [])
    {
    }

    /** Sends a piece and, if it was taken, moves the offset over the bytes read for it. */
    method SendPiece(origfile: Name, piece: seq<Byte>, readSize: nat, info: Info, memory: Memory,
        ghost before: Before, ghost i: nat, ghost n: nat, ghost sent: seq<Sent>)
      returns (ok: bool, ghost more: seq<Sent>)
      requires Sending(before, origfile, info, i, n, sent)
      modifies this`fdMap, message.journal, message.queue
      ensures !ok ==> Refusing() && more == sent
      ensures Sending(before, origfile, info, i, if ok then n + readSize else n, more)
      ensures ok ==> |more| == |sent| + 1 && PiecesIn(more) == PiecesIn(sent) + [piece]
    {
      hide IsShown, Moved, AllShown, AllOf;
      ghost var s;
      ok, s := SendMessage(piece, info, memory, i);
      more := sent;
      if ok {
        MovedMore(before.fdMap, origfile, n, readSize);
        AnotherSent(sent, s, info.topicName, i);
        SetFileOffset(origfile, readSize);
        more := sent + [s];
      }
    }

    ghost predicate Refusing()
      reads message.queue
    {
      |message.queue.items| > message.limit
    }

    /** What one call reads, and why it stops: unless the event has to come back, everything there
        was, or the reader is stopping. */
    ghost predicate Outcome(binary: bool, ahead: seq<Byte>, running: nat, isContinue: bool, n: nat, sent: seq<Sent>)
      reads message.queue
    {
      OutcomeIf(Refusing(), binary, ahead, running, isContinue, n, sent)
    }

    ghost predicate OutcomeIf(refusing: bool, binary: bool, ahead: seq<Byte>, running: nat, isContinue: bool, n: nat,
        sent: seq<Sent>)
    {
      && Took(binary, ahead, n, PiecesIn(sent)) && (n == 0 <==> sent == [])
      && |sent| <= (if maxLines < 0 then 0 else maxLines) + (if isContinue then 1 else 0)
      && (!isContinue && running > |ahead| ==>
         Exhausted(binary, ahead, n) && (binary || !TooLong(ahead, n, maxLineBytes)))
      && (!binary ==> Within(sent, maxLineBytes) && n <= Upto(ahead, EOF))
      && (isContinue ==>
         refusing || (sent != [] && |sent| > maxLines) || (!binary && TooLong(ahead, n, maxLineBytes)))
    }

    /** Reads lines from the offset of item on until there is no more, the queue refuses one, there
        were too many, one is too long, or running characters were read. */
    method ReadLines(origfile: Name, item: FdItem, info: Info, running: nat, memory: seq<Memory>)
      returns (isContinue: bool, ghost n: nat, ghost sent: seq<Sent>)
      requires item.fs != null && item.fs.inode in files.data && !info.isBinary
      modifies this`fdMap, message.journal, message.queue
      ensures Outcome(false, Ahead(files.data[item.fs.inode], item.offset), running, isContinue, n, sent)
      ensures Sending(old(Now()), origfile, info, item.fs.inode, n, sent)
    {
      hide Took, Scanned, Exhausted, TooLong, Ahead, Sending;
      var ahead := Ahead(files.data[item.fs.inode], item.offset);
      var pos, readSize, lines, buffer := 0, 0, 0, [];
      isContinue, n, sent := false, 0, [];
      ScanStart(ahead);
      SendingNothing(origfile, info, item.fs.inode);
      while pos < |ahead| && ahead[pos] != EOF && pos < running
        invariant pos <= |ahead| && readSize == pos - n && lines == |sent| <= Most(maxLines)
        invariant Scanned(ahead, n, pos, buffer, PiecesIn(sent)) && (buffer == [] || |buffer| <= maxLineBytes)
        invariant Within(sent, maxLineBytes)
        invariant Sending(old(Now()), origfile, info, item.fs.inode, n, sent) && (n == 0 <==> sent == [])
      {
        var nextchar := ahead[pos];
        readSize := readSize + 1;
        if nextchar != NEWLINE {
          ScanCharacter(ahead, n, pos, buffer, PiecesIn(sent));
          pos, buffer := pos + 1, buffer + [nextchar];
          if |buffer| > maxLineBytes {
            ScanTooLong(ahead, n, pos, buffer, PiecesIn(sent), maxLineBytes);
            isContinue := true;
            break;
          }
          continue;
        }
        if buffer == [] {
          ScanBlank(ahead, n, pos, PiecesIn(sent));
          pos := pos + 1;
        } else {
          ScanLine(ahead, n, pos, buffer, PiecesIn(sent));
          var ok;
          ghost var more;
          var m := if lines < |memory| then memory[lines] else Memory([], []);
          ok, more := SendPiece(origfile, buffer, readSize, info, m, old(Now()), item.fs.inode, n, sent);
          if !ok {
            isContinue := true;
            break;
          }
          pos, buffer, lines, readSize := pos + 1, [], lines + 1, 0;
          n, sent := pos, more;
          if lines > maxLines {
            isContinue := true;
            break;
          }
        }
      }
      ScannedTook(ahead, n, pos, buffer, PiecesIn(sent), maxLineBytes);
      ScannedSeen(ahead, n, pos, buffer, PiecesIn(sent));
    }

    /** Reads frames likewise; a frame that is cut off is left where it is, and the stream is not in
        order after it. */
    method ReadFrames(origfile: Name, item: FdItem, info: Info, running: nat)
      returns (isContinue: bool, ghost n: nat, ghost sent: seq<Sent>)
      requires item.fs != null && item.fs.inode in files.data && info.isBinary
      modifies this`fdMap, message.journal, message.queue, item.fs`good
      ensures Outcome(true, Ahead(files.data[item.fs.inode], item.offset), running, isContinue, n, sent)
      ensures isContinue ==> item.fs.good == old(item.fs.good)
      ensures !isContinue && running > |Ahead(files.data[item.fs.inode], item.offset)| ==> !item.fs.good
      ensures Sending(old(Now()), origfile, info, item.fs.inode, n, sent)
    {
      hide Took, Scanned, Exhausted, Ahead, Sending;
      var ahead := Ahead(files.data[item.fs.inode], item.offset);
      var lines, pos := 0, 0;
      isContinue, n, sent := false, 0, [];
      TookNothing(true, ahead);
      SendingNothing(origfile, info, item.fs.inode);
      while lines < running
        invariant pos == n <= |ahead| && lines == |sent| <= Most(maxLines) && |sent| <= n
        invariant Took(true, ahead, n, PiecesIn(sent)) && item.fs.good == old(item.fs.good)
        invariant Sending(old(Now()), origfile, info, item.fs.inode, n, sent) && (n == 0 <==> sent == [])
        decreases |ahead| - pos
      {
        var found, body := NextFrame(ahead, pos, PiecesIn(sent));
        if !found {
          item.fs.good := false;
          break;
        }
        var len := |body|;
        var ok;
        ghost var more;
        ok, more := SendPiece(origfile, body, len + 4, info, Memory([], []), old(Now()), item.fs.inode, n, sent);
        if !ok {
          isContinue := true;
          break;
        }
        pos, lines := pos + 4 + len, lines + 1;
        n, sent := pos, more;
        if lines > maxLines {
          isContinue := true;
          break;
        }
      }
    }

    /** The item t was prepared for reading as the info says. */
    ghost predicate Ready(t: Name, info: Info)
      reads this, Streams(), files
    {
      && t in fdMap && fdMap[t].fs != null && fdMap[t].fs.open && fdMap[t].fs.inode in files.data
      && t in tails && tails[t].source == Some((fdMap[t].fs.inode, info.isBinary))
    }

    method ReadPieces(t: Name, origfile: Name, info: Info, running: nat, memory: seq<Memory>)
      returns (isContinue: bool, ghost n: nat, ghost sent: seq<Sent>)
      requires Ready(t, info)
      modifies this`fdMap, this`tails, message.journal, message.queue, fdMap[t].fs`good
      ensures Outcome(info.isBinary, Ahead(files.data[old(tails)[t].source.value.0], old(fdMap)[t].offset), running,
              isContinue, n, sent)
      ensures Sending(old(Now()), origfile, info, old(tails)[t].source.value.0, n, sent)
      ensures tails == old(tails)[t := old(tails)[t].(sent := old(tails)[t].sent + sent)]
    {
      hide Outcome, Ahead, Opened, Sending;
      var item := fdMap[t];
      if info.isBinary {
        isContinue, n, sent := ReadFrames(origfile, item, info, running);
      } else {
        isContinue, n, sent := ReadLines(origfile, item, info, running, memory);
      }
      tails := tails[t := tails[t].(sent := tails[t].sent + sent)];
    }

    /** The streams stay as they are. */
    method ReadSteadily(t: Name, origfile: Name, info: Info, running: nat, memory: seq<Memory>)
      returns (isContinue: bool, ghost n: nat, ghost sent: seq<Sent>)
      requires Ready(t, info) && Keyed(fdMap) && Unshared(fdMap)
      modifies this`fdMap, this`tails, message.journal, message.queue, fdMap[t].fs`good
      ensures Opened() == old(Opened()) && Streams() == old(Streams())
      ensures Keyed(fdMap) && Unshared(fdMap) && fdMap == Moved(old(fdMap), origfile, n)
              && fdMap.Keys == old(fdMap).Keys
      ensures Outcome(info.isBinary, Ahead(files.data[old(tails)[t].source.value.0], old(fdMap)[t].offset), running,
              isContinue, n, sent)
      ensures Sending(old(Now()), origfile, info, old(tails)[t].source.value.0, n, sent)
      ensures tails == old(tails)[t := old(tails)[t].(sent := old(tails)[t].sent + sent)]
    {
      hide Outcome, Ahead, Opened, Unshared, Keyed, Moved, IsShown, AllOf, AllShown;
      OpenedAt();
      isContinue, n, sent := ReadPieces(t, origfile, info, running, memory);
      MovedKeeps(old(fdMap), origfile, n);
      OpenedAt();
      SameMap(old(Opened()), Opened());
    }

    /** With room in the queue nothing is sent exactly if nothing is to be sent. */
    lemma SentNothing(binary: bool, ahead: seq<Byte>, running: nat, isContinue: bool, n: nat, sent: seq<Sent>,
        queued: nat)
      requires Outcome(binary, ahead, running, isContinue, n, sent) && running > |ahead|
      requires queued <= message.limit && |message.queue.items| == queued + |sent|
      ensures sent == [] <==> NothingAhead(binary, ahead, maxLineBytes)
    {
      hide TooLong, FilePieces.Whole, Pieces;
      if !binary && TooLong(ahead, 0, maxLineBytes) && sent != [] {
        TooLongFirst(ahead, n, PiecesIn(sent), maxLineBytes);
      }
      if Exhausted(binary, ahead, 0) {
        TakenAndLeft(binary, ahead, n, PiecesIn(sent));
        assert Seen(binary, ahead)[0..] == Seen(binary, ahead);
      }
    }

    /** Reads from a prepared item, but moves the offset that belongs to the name in the event. What was
        sent and the offsets go together afterwards exactly if these are the same or nothing was sent. */
    method ReadOn(t: Name, origfile: Name, info: Info, running: nat, memory: seq<Memory>)
      returns (isContinue: bool, ghost n: nat, ghost sent: seq<Sent>)
      requires Valid() && Ready(t, info)
      modifies this`fdMap, this`tails, message.journal, message.queue, fdMap[t].fs`good
      ensures Valid() && Opened() == old(Opened()) && Streams() == old(Streams())
      ensures old(Exact()) ==> (Exact() <==> t == origfile || sent == [])
      ensures var ahead := Ahead(files.data[old(tails)[t].source.value.0], old(fdMap)[t].offset);
              |old(message.queue.items)| <= message.limit && running > |ahead| ==>
                (sent == [] <==> NothingAhead(info.isBinary, ahead, maxLineBytes))
      ensures Outcome(info.isBinary, Ahead(files.data[old(tails)[t].source.value.0], old(fdMap)[t].offset), running,
              isContinue, n, sent)
      ensures Sending(old(Now()), origfile, info, old(tails)[t].source.value.0, n, sent)
      ensures tails == old(tails)[t := old(tails)[t].(sent := old(tails)[t].sent + sent)]
    {
      hide Took, Exhausted, TooLong, Ahead, Opened, Unshared, Keyed, Agree, Known, Sourced, Moved, IsShown, AllOf;
      isContinue, n, sent := ReadSteadily(t, origfile, info, running, memory);
      ghost var ahead := Ahead(files.data[old(tails)[t].source.value.0], old(fdMap)[t].offset);
      if |old(message.queue.items)| <= message.limit && running > |ahead| {
        SentNothing(info.isBinary, ahead, running, isContinue, n, sent, |old(message.queue.items)|);
      }
      if old(Exact()) {
        ReadAgrees(old(fdMap), old(tails), files.data, t, origfile, info.isBinary, n, sent);
      }
      SourcedGrown(old(tails), Opened(), t, sent);
    }

    /** The file of item t was read from inode i, at this offset and to go on with this tail. */
    ghost predicate HasRead(before: Before, t: Name, origfile: Name, info: Info, last: Tail, offset: nat, i: nat,
        running: nat, isContinue: bool, n: nat, sent: seq<Sent>)
      reads this`fdMap, this`tails, message.journal, message.queue, files`data
    {
      HasReadSo(before, Now(), files.data, t, origfile, info, last, offset, i, running, isContinue, n, sent)
    }

    ghost predicate HasReadSo(before: Before, after: Before, data: FileData, t: Name, origfile: Name, info: Info,
        last: Tail, offset: nat, i: nat, running: nat, isContinue: bool, n: nat, sent: seq<Sent>)
    {
      && i in data
      && OutcomeIf(|after.queued| > message.limit, info.isBinary, Ahead(data[i], offset), running, isContinue, n, sent)
      && t in after.fdMap && after.fdMap[t].offset == offset + (if t == origfile then n else 0)
      && (forall j | j in after.fdMap && j != t && j != origfile ::
            j in before.fdMap && after.fdMap[j] == before.fdMap[j])
      && (origfile != t && origfile in before.fdMap ==>
            origfile in after.fdMap
            && after.fdMap[origfile] == before.fdMap[origfile].(offset := before.fdMap[origfile].offset + n))
      && after.fdMap.Keys == before.fdMap.Keys + {t}
      && after.tails == before.tails[t := Grown(Resumed(last, offset, i, info.isBinary), sent)]
      && after.entries == before.entries + EntriesFor(info.topicName, i, sent)
      && after.queued == before.queued + ItemsFor(info.topicName, sent)
      && AllShown(sent) && AllOf(sent, FormatOf(info))
      && (|before.queued| <= message.limit && running > |Ahead(data[i], offset)| ==>
          (sent == [] <==> NothingAhead(info.isBinary, Ahead(data[i], offset), maxLineBytes)))
    }

    lemma SendingSame(a: Before, b: Before, origfile: Name, info: Info, i: nat, n: nat, sent: seq<Sent>)
      requires Sending(a, origfile, info, i, n, sent) && a.fdMap == b.fdMap && a.entries == b.entries
               && a.queued == b.queued
      ensures Sending(b, origfile, info, i, n, sent)
    {
    }

    lemma HasReadNow(before: Before, item: FdItem, t: Name, origfile: Name, info: Info, last: Tail, i: nat,
        running: nat, isContinue: bool, n: nat, sent: seq<Sent>)
      requires i in files.data
               && Outcome(info.isBinary, Ahead(files.data[i], item.offset), running, isContinue, n, sent)
      requires Sending(before.(fdMap := before.fdMap[t := item]), origfile, info, i, n, sent)
      requires var base := before.tails[t := Resumed(last, item.offset, i, info.isBinary)];
               tails == base[t := Grown(base[t], sent)]
      ensures HasRead(before, t, origfile, info, last, item.offset, i, running, isContinue, n, sent)
    {
      hide OutcomeIf, Ahead, AllShown, AllOf, Resumed, Moved, Grown, NothingAhead;
      MovedItems(before.fdMap, fdMap, t, item, origfile, n);
      var ahead := Ahead(files.data[i], item.offset);
      if |before.queued| <= message.limit && running > |ahead| {
        SentNothing(info.isBinary, ahead, running, isContinue, n, sent, |before.queued|);
      }
    }

    /** Nothing was sent. */
    ghost predicate UnchangedQueue(before: Before)
      reads message.journal, message.queue
    {
      message.journal.entries == before.entries && message.queue.items == before.queued
    }

    /** What a modification of a file whose path is configured does. If the limit of open streams is exceeded even
        when the idle ones are closed, the event comes back. Otherwise the item of the file is readied, and the file
        is read unless it cannot be opened. */
    ghost predicate WentSo(before: State, after: State, names: map<Name, nat>, data: FileData, event: Event, info: Info,
        now: int, opens: bool, running: nat, isContinue: bool, from: Option<nat>, n: nat, sent: seq<Sent>)
    {
      var mid := Reclaimed(before, now);
      var k := if event.origfile in before.aliasMap then before.aliasMap[event.origfile] else event.origfile;
      if mid.counted > maxfd then after == mid && isContinue && from.None? && n == 0 && sent == []
      else
        match from
        case None =>
          && !isContinue && n == 0 && sent == []
          && AttachedSo(mid, after, names, k, event.pathfile, info, now, opens, None)
        case Some(i) =>
          && after.aliasMap == before.aliasMap && mid.counted <= after.counted <= mid.counted + 1
          && (forall j | j != k :: j in after.live <==> j in mid.live)
          && (forall j | j in after.live && j != k :: after.live[j] == mid.live[j])
          && k in after.live && after.live[k] == i
          && ((k in mid.live && i == mid.live[k] && !Waited(info, now)) || (k in names && i == names[k]))
          && k in after.fdMap
          && ReadiedThen(before.fdMap, after.fdMap[k], if k == event.origfile then n
                                                       else 0, k, event.pathfile, info, now,
                         before.fileMap, after.fileMap)
          && after.fileMap == FileMapIn(before.fdMap, before.fileMap, k, info, now)
          && HasReadSo(before.Start(), after.Start(), data, k, event.origfile, info,
                       LastTailIn(before.tails, k, info, now), LastOffsetIn(before.fdMap, k, info, now), i, running,
                       isContinue, n, sent)
    }

    /** What a modification does; one of a file whose path is not configured does nothing. */
    ghost predicate ReadSo(before: State, after: State, names: map<Name, nat>, data: FileData, event: Event, now: int,
        opens: bool, running: nat, isContinue: bool, from: Option<nat>, n: nat, sent: seq<Sent>)
    {
      if event.pathfile in before.fileMap then
        WentSo(before, after, names, data, event, before.fileMap[event.pathfile], now, opens, running, isContinue,
            from, n,
               sent)
      else after == before && from.None? && !isContinue && n == 0 && sent == []
    }

    /** An event that comes back because of the limit does so only once at a time when no file is protected and each
        open one was last read a second ago or more, whatever else the second event is about. */
    lemma ComesBackOnce(before: State, mid: State, after: State, names: map<Name, nat>, data: FileData, first: Event,
        second: Event, now: int, opens: bool, running: nat, from: Option<nat>, n: nat, sent: seq<Sent>,
        isContinue: bool, from': Option<nat>, n': nat, sent': seq<Sent>)
      requires maxfd >= 0 && before.live.Keys <= before.fdMap.Keys
      requires forall k | k in before.live ::
                 !before.fdMap[k].moveProtected && before.fdMap[k].lastTime != 0 && now - before.fdMap[k].lastTime >= 1
      requires ReadSo(before, mid, names, data, first, now, opens, running, true, from, n, sent) && from.None?
      requires ReadSo(mid, after, names, data, second, now, opens, running, isContinue, from', n', sent')
      ensures !(isContinue && from'.None?) && mid.live == map[]
    {
      hide HasReadSo, AttachedSo;
      assert mid.live == map[];
      assert |mid.live| == 0;
    }

    /** A prepared file was read. */
    lemma WentOn(before: State, ready: State, after: State, names: map<Name, nat>, data: FileData, event: Event,
        info: Info, now: int, opens: bool, running: nat, isContinue: bool, i: nat, n: nat, sent: seq<Sent>)
      requires PreparedSo(before, ready, names, event.origfile, event.pathfile, info, now, opens, false, Some(i))
      requires after == ready.(fdMap := Moved(ready.fdMap, event.origfile, n), tails := after.tails,
                               entries := after.entries, queued := after.queued)
      requires var k := if event.origfile in before.aliasMap then before.aliasMap[event.origfile] else event.origfile;
               HasReadSo(before.Start(), after.Start(), data, k, event.origfile, info,
                         LastTailIn(before.tails, k, info, now), LastOffsetIn(before.fdMap, k, info, now), i, running,
                         isContinue, n, sent)
      ensures WentSo(before, after, names, data, event, info, now, opens, running, isContinue, Some(i), n, sent)
    {
      hide Readied, HasReadSo, Waited, LastTailIn, LastOffsetIn, FileMapIn, Moved, Reclaimed, ReadiedThen;
      ReclaimedSame(before, now);
      var k := if event.origfile in before.aliasMap then before.aliasMap[event.origfile] else event.origfile;
      MovedOne(ready.fdMap, event.origfile, n, k);
      ReadiedMoved(before.fdMap, ready.fdMap[k], after.fdMap[k], if k == event.origfile then n
                                                                 else 0, k, event.pathfile,
                   info, now, before.fileMap, after.fileMap);
    }

    lemma PreparedHas(before: State, ready: State, names: map<Name, nat>, event: Event, info: Info, now: int,
        opens: bool, i: nat)
      requires PreparedSo(before, ready, names, event.origfile, event.pathfile, info, now, opens, false, Some(i))
      ensures var k := if event.origfile in before.aliasMap then before.aliasMap[event.origfile] else event.origfile;
              && k in ready.fdMap && ready.fdMap == before.fdMap[k := ready.fdMap[k]]
              && ready.fdMap[k].offset == LastOffsetIn(before.fdMap, k, info, now)
              && ready.tails ==
                 before.tails[k := Resumed(LastTailIn(before.tails, k, info, now), ready.fdMap[k].offset, i,
                                                          info.isBinary)]
              && ready.entries == before.entries && ready.queued == before.queued
    {
      hide Readied, Waited, LastTailIn, LastOffsetIn, FileMapIn, Reclaimed, Resumed;
      ReclaimedSame(before, now);
    }

    method ReadConfigured(event: Event, info: Info, now: int, stale: bool, opens: bool, running: nat,
        memory: seq<Memory>)
      returns (isContinue: bool, ghost from: Option<nat>, ghost n: nat, ghost sent: seq<Sent>)
      requires Valid()
      modifies this`fdMap, this`currentFdNum, this`tails, config, Streams(), message.journal, message.queue
      ensures Valid() && (old(Exact()) ==> (Exact() <==> Target(event.origfile) == event.origfile || sent == []))
      ensures forall fs | fs in Streams() :: fs in old(Streams()) || fresh(fs)
      ensures WentSo(old(Look()), Look(), files.names, files.data, event, info, now, opens, running, isContinue, from,
              n, sent)
    {
      hide Outcome, Ahead, Opened, Valid, Exact, AllShown, IsShown, AllOf, LastOffsetIn, LastTailIn, TimedOut, Resumed,
          Moved, Sending, Readied, Waited, FileMapIn, WentSo, HasReadSo, Reclaimed, AttachedSo, PreparedSo;
      n, sent, from := 0, [], None;
      var item;
      item, isContinue := InitStream(event.origfile, event.pathfile, info, now, stale, opens);
      if item.None? {
        WentNowhere(old(Look()), Look(), files.names, files.data, event, info, now, opens, running, isContinue);
        return;
      }
      var k := Target(event.origfile);
      ghost var ready := Look();
      from := Some(item.value.fs.inode);
      PreparedHas(old(Look()), ready, files.names, event, info, now, opens, from.value);
      ghost var last := LastTailIn(old(tails), k, info, now);
      ResumedSource(last, item.value.offset, from.value, info.isBinary);
      ghost var mid := Now();
      isContinue, n, sent := ReadOn(k, event.origfile, info, running, memory);
      SendingSame(mid, old(Now()).(fdMap := mid.fdMap), event.origfile, info, from.value, n, sent);
      HasReadNow(old(Now()), item.value, k, event.origfile, info, last, from.value, running, isContinue, n, sent);
      WentOn(old(Look()), ready, Look(), files.names, files.data, event, info, now, opens, running, isContinue,
          from.value,
             n, sent);
    }

    lemma WentNowhere(before: State, after: State, names: map<Name, nat>, data: FileData, event: Event, info: Info,
        now: int, opens: bool, running: nat, isContinue: bool)
      requires PreparedSo(before, after, names, event.origfile, event.pathfile, info, now, opens, isContinue, None)
      ensures WentSo(before, after, names, data, event, info, now, opens, running, isContinue, None, 0, [])
    {
    }

    /** Handles a modified file. Reads nothing when the path is not configured, the streams have
        run out or the file cannot be opened; else it reads from the inode returned. */
    method Read(event: Event, now: int, stale: bool, opens: bool, running: nat, memory: seq<Memory>)
      returns (isContinue: bool, ghost from: Option<nat>, ghost n: nat, ghost sent: seq<Sent>)
      requires Valid()
      modifies this`fdMap, this`currentFdNum, this`tails, config, Streams(), message.journal, message.queue
      ensures Valid() && (old(Exact()) ==> (Exact() <==> Target(event.origfile) == event.origfile || sent == []))
      ensures forall fs | fs in Streams() :: fs in old(Streams()) || fresh(fs)
      ensures ReadSo(old(Look()), Look(), files.names, files.data, event, now, opens, running, isContinue, from, n,
              sent)
    {
      hide HasReadSo, Opened, Valid, Exact, TimedOut, ReadiedThen, Waited, LastTailIn, LastOffsetIn, FileMapIn;
      isContinue, from, n, sent := false, None, 0, [];
      var found := config.FindFile(event.pathfile);
      if found.Some? {
        isContinue, from, n, sent := ReadConfigured(event, found.value, now, stale, opens, running, memory);
      }
    }

    // ----- renamed and deleted files -----

    method ProtectItem(event: Event, now: nat)
      requires config.Valid()
      modifies this`fdMap, config
      ensures config.Valid() && fdMap == Protected(old(fdMap), event.origfile)
      ensures config.fileMap == WithMoveTime(old(config.fileMap), event.pathfile, now)
    {
      config.SetMoveTime(event.pathfile, now);
      if event.origfile in fdMap {
        fdMap := fdMap[event.origfile := fdMap[event.origfile].(moveProtected := true)];
      }
    }

    /** A watched file was moved: until it is read under its new name its stream is kept open. */
    method MoveSelf(event: Event, now: nat)
      requires Valid()
      modifies this`fdMap, config
      ensures Valid() && (old(Exact()) ==> Exact()) && Opened() == old(Opened()) && Streams() == old(Streams())
      ensures Look() == old(Look()).(
                fdMap := if event.origfile in old(fdMap) then
                           old(fdMap)[event.origfile := old(fdMap)[event.origfile].(moveProtected := true)]
                         else old(fdMap),
                fileMap := if event.pathfile in old(config.fileMap) then
                             old(config.fileMap)[
                               event.pathfile := old(config.fileMap)[event.pathfile].(moveTime := now)]
                           else old(config.fileMap))
      ensures fdMap == Protected(old(fdMap), event.origfile)
      ensures config.fileMap == WithMoveTime(old(config.fileMap), event.pathfile, now)
    {
      hide Opened, Unshared, Keyed, Agree, Known, Sourced, Protected;
      OpenedAt();
      ProtectItem(event, now);
      ProtectedIs(old(fdMap), event.origfile);
      ProtectedKeeps(old(fdMap), event.origfile);
      if old(Exact()) {
        ProtectedAgrees(old(fdMap), tails, files.data, event.origfile);
      }
      OpenedAt();
      SameMap(old(Opened()), Opened());
    }

    /** The stream goes with the item. */
    method RenameSteadily(event: Event)
      requires event.aliasfile in fdMap && event.aliasfile in tails
      modifies this`fdMap, this`aliasMap, this`tails
      ensures Opened() == RelabelLive(old(Opened()), event.aliasfile, event.origfile) && Streams() <= old(Streams())
      ensures fdMap == RelabelItems(old(fdMap), event.aliasfile, event.origfile)
      ensures tails == Relabel(old(tails), event.aliasfile, event.origfile)
      ensures aliasMap == old(aliasMap)[event.aliasfile := event.origfile]
    {
      hide Opened, RelabelLive, Relabel;
      OpenedAt();
      RelabelLiveAt(Opened(), event.aliasfile, event.origfile);
      RenameItem(event);
      OpenedAt();
      SameMap(RelabelLive(old(Opened()), event.aliasfile, event.origfile), Opened());
    }

    method RenameItem(event: Event)
      requires event.aliasfile in fdMap && event.aliasfile in tails
      modifies this`fdMap, this`aliasMap, this`tails
      ensures fdMap == RelabelItems(old(fdMap), event.aliasfile, event.origfile)
      ensures tails == Relabel(old(tails), event.aliasfile, event.origfile)
      ensures aliasMap == old(aliasMap)[event.aliasfile := event.origfile]
    {
      fdMap := fdMap[event.origfile := fdMap[event.aliasfile]];
      fdMap := fdMap[event.origfile := fdMap[event.origfile].(origfile := event.origfile)];
      aliasMap := aliasMap[event.aliasfile := event.origfile];
      fdMap := fdMap - {event.aliasfile};
      tails := Relabel(tails, event.aliasfile, event.origfile);
    }

    /** A file was renamed: what is known of it goes to the new name, and the old one becomes an alias. */
    method MoveTo(event: Event)
      requires Valid()
      modifies this`fdMap, this`aliasMap, this`tails
      ensures Valid() && (old(Exact()) ==> Exact()) && Streams() <= old(Streams())
      ensures Look() == if event.aliasfile in old(fdMap) then
                          old(Look()).(
                            fdMap := old(fdMap)[
                                       event.origfile := old(fdMap)[event.aliasfile].(origfile := event.origfile)]
                                     - {event.aliasfile},
                            aliasMap := old(aliasMap)[event.aliasfile := event.origfile],
                            tails := tails, live := RelabelLive(old(Opened()), event.aliasfile, event.origfile))
                        else old(Look())
      ensures if event.aliasfile in old(fdMap) then
                && event.aliasfile in old(tails)
                && fdMap == RelabelItems(old(fdMap), event.aliasfile, event.origfile)
                && tails == Relabel(old(tails), event.aliasfile, event.origfile)
                && aliasMap == old(aliasMap)[event.aliasfile := event.origfile]
              else fdMap == old(fdMap) && aliasMap == old(aliasMap) && tails == old(tails)
    {
      hide Opened, Streams, Unshared, Keyed, Agree, Known, Sourced, RelabelLive, RelabelItems, Relabel;
      if event.aliasfile in fdMap {
        RelabelItemsIs(fdMap, event.aliasfile, event.origfile);
        RelabelKeeps(fdMap, tails, Opened(), files.data, event.aliasfile, event.origfile);
        if Exact() {
          RelabelAgrees(fdMap, tails, files.data, event.aliasfile, event.origfile);
        }
        RelabelKeys(fdMap, tails, event.aliasfile, event.origfile);
        SourcedRelabel(tails, Opened(), event.aliasfile, event.origfile);
        RelabelCount(Opened(), event.aliasfile, event.origfile);
        RenameSteadily(event);
      }
    }

    /** The other streams are not touched. */
    method ForgetSteadily(event: Event)
      requires Unshared(fdMap) && fdMap.Keys == tails.Keys
      modifies this`fdMap, this`aliasMap, this`tails, StreamOf(event.origfile)
      ensures Opened() == Without(old(Opened()), event.origfile) && Streams() <= old(Streams())
      ensures fdMap == Without(old(fdMap), event.origfile) && tails == Without(old(tails), event.origfile)
      ensures forall fs | fs in old(StreamOf(event.origfile)) :: !fs.open
      ensures aliasMap == Unaliased(old(aliasMap), event.origfile)
    {
      hide Opened, Unshared;
      Apart(event.origfile);
      OpenedAt();
      ForgetItem(event);
      OpenedAt();
      SameMap(Without(old(Opened()), event.origfile), Opened());
    }

    method ForgetItem(event: Event)
      modifies this`fdMap, this`aliasMap, this`tails, StreamOf(event.origfile)
      ensures fdMap == Without(old(fdMap), event.origfile)
              && tails == old(tails) - (if event.origfile in old(fdMap) then {event.origfile} else {})
      ensures forall fs | fs in old(StreamOf(event.origfile)) :: !fs.open
      ensures aliasMap == Unaliased(old(aliasMap), event.origfile)
    {
      if event.origfile in fdMap {
        CloseStream(fdMap[event.origfile].fs);
        fdMap := fdMap - {event.origfile};
        tails := tails - {event.origfile};
      }
      var keys := set k | k in aliasMap && aliasMap[k] == event.origfile;
      aliasMap := aliasMap - keys;
    }

    /** A file was deleted: it is forgotten together with the aliases of it. */
    method Clear(event: Event)
      requires Valid()
      modifies this`fdMap, this`aliasMap, this`tails, StreamOf(event.origfile)
      ensures Valid() && (old(Exact()) ==> Exact()) && Streams() <= old(Streams())
      ensures Look() == Forgotten(old(Look()), event.origfile)
      ensures fdMap == Without(old(fdMap), event.origfile) && tails == Without(old(tails), event.origfile)
      ensures forall fs | fs in old(StreamOf(event.origfile)) :: !fs.open
      ensures aliasMap == Unaliased(old(aliasMap), event.origfile)
    {
      hide Opened, Unshared, Keyed, Agree, Known, Sourced, Config.Valid, Files.Valid, Unaliased, Without, Valid,
          Forgotten;
      ValidHas();
      ForgetKeeps(fdMap, tails, Opened(), files.data, event.origfile);
      if Exact() {
        ForgetAgrees(fdMap, tails, files.data, event.origfile);
      }
      ForgetSteadily(event);
      ForgottenIs(old(Look()), event.origfile);
      ValidIs();
    }
  }

  ghost function Without<T>(m: map<Name, T>, k: Name): map<Name, T> {
    m - {k}
  }

  /** The aliases of other files. */
  ghost function Unaliased(aliasMap: map<Name, Name>, name: Name): map<Name, Name> {
    map k | k in aliasMap && aliasMap[k] != name :: aliasMap[k]
  }

  /** Of one file nothing is known any more, and no alias leads to it. */
  ghost function Forgotten(s: State, name: Name): State {
    s.(fdMap := s.fdMap - {name}, tails := s.tails - {name}, live := s.live - {name},
       aliasMap := map k | k in s.aliasMap && s.aliasMap[k] != name :: s.aliasMap[k])
  }

  lemma ForgottenIs(s: State, name: Name)
    ensures Forgotten(s, name) == s.(fdMap := Without(s.fdMap, name), tails := Without(s.tails, name),
                                     live := Without(s.live, name), aliasMap := Unaliased(s.aliasMap, name))
  {
  }

  ghost function Protected(fdMap: FdMap, k: Name): FdMap {
    if k in fdMap then fdMap[k := fdMap[k].(moveProtected := true)] else fdMap
  }

  lemma ProtectedIs(fdMap: FdMap, k: Name)
    ensures Protected(fdMap, k) == if k in fdMap then fdMap[k := fdMap[k].(moveProtected := true)] else fdMap
  {
  }

  lemma ProtectedKeeps(fdMap: FdMap, k: Name)
    requires Keyed(fdMap) && Unshared(fdMap)
    ensures var after := Protected(fdMap, k);
            && Keyed(after) && Unshared(after) && after.Keys == fdMap.Keys
            && forall j | j in fdMap :: after[j].fs == fdMap[j].fs
  {
  }

  lemma ProtectedAgrees(fdMap: FdMap, tails: TailMap, data: FileData, k: Name)
    requires Agree(fdMap, tails, data)
    ensures Agree(Protected(fdMap, k), tails, data)
  {
    hide Faithful;
  }

  /** The entry of a becomes that of b. */
  ghost function Relabel<T>(m: map<Name, T>, a: Name, b: Name): map<Name, T>
    requires a in m
  {
    m[b := m[a]] - {a}
  }

  ghost function RelabelLive(live: StreamMap, a: Name, b: Name): StreamMap {
    if a in live then Relabel(live, a, b) else live - {b}
  }

  ghost function RelabelItems(fdMap: FdMap, a: Name, b: Name): FdMap
    requires a in fdMap
  {
    fdMap[b := fdMap[a].(origfile := b)] - {a}
  }

  lemma RelabelItemsIs(fdMap: FdMap, a: Name, b: Name)
    requires a in fdMap
    ensures RelabelItems(fdMap, a, b) == fdMap[b := fdMap[a].(origfile := b)] - {a}
  {
  }

  lemma RelabelKeeps(fdMap: FdMap, tails: TailMap, live: StreamMap, data: FileData, a: Name, b: Name)
    requires a in fdMap && Keyed(fdMap) && Unshared(fdMap) && Known(live, data)
    ensures Keyed(RelabelItems(fdMap, a, b)) && Unshared(RelabelItems(fdMap, a, b))
            && Known(RelabelLive(live, a, b), data)
  {
  }

  lemma RelabelKeys(fdMap: FdMap, tails: TailMap, a: Name, b: Name)
    requires a in fdMap && fdMap.Keys == tails.Keys
    ensures a in tails && RelabelItems(fdMap, a, b).Keys == Relabel(tails, a, b).Keys
  {
  }

  lemma RelabelAgrees(fdMap: FdMap, tails: TailMap, data: FileData, a: Name, b: Name)
    requires a in fdMap && Agree(fdMap, tails, data)
    ensures a in tails && Agree(RelabelItems(fdMap, a, b), Relabel(tails, a, b), data)
  {
    hide Faithful;
    var items, ts := RelabelItems(fdMap, a, b), Relabel(tails, a, b);
    forall k | k in items
      ensures k in ts && Faithful(ts[k], items[k].offset, data)
    {
    }
  }

  lemma RelabelCount(live: StreamMap, a: Name, b: Name)
    ensures |RelabelLive(live, a, b)| <= |live|
  {
    var l := RelabelLive(live, a, b);
    if a in live {
      OneMore((live - {a}).Keys, l.Keys, b);
      assert live.Keys == (live - {a}).Keys + {a};
    } else {
      Fewer(l.Keys, live.Keys);
    }
    assert |l| == |l.Keys| && |live| == |live.Keys|;
  }

  lemma RelabelLiveAt(live: StreamMap, a: Name, b: Name)
    ensures var l := RelabelLive(live, a, b);
            && (forall k :: k in l <==> k != a && if k == b then a in live else k in live)
            && (forall k | k in l :: l[k] == live[if k == b then a else k])
  {
  }

  lemma ForgetAgrees(fdMap: FdMap, tails: TailMap, data: FileData, k: Name)
    requires Agree(fdMap, tails, data)
    ensures Agree(Without(fdMap, k), Without(tails, k), data)
  {
    hide Faithful;
  }

  lemma ForgetKeeps(fdMap: FdMap, tails: TailMap, live: StreamMap, data: FileData, k: Name)
    requires Keyed(fdMap) && Unshared(fdMap) && Known(live, data)
    ensures fdMap.Keys == tails.Keys ==> Without(fdMap, k).Keys == Without(tails, k).Keys
    ensures Keyed(Without(fdMap, k)) && Unshared(Without(fdMap, k)) && Known(Without(live, k), data)
    ensures Sourced(tails, live) ==> Sourced(Without(tails, k), Without(live, k))
    ensures |Without(live, k)| <= |live|
  {
    Fewer(Without(live, k).Keys, live.Keys);
    assert |Without(live, k)| == |Without(live, k).Keys| && |live| == |live.Keys|;
  }

  ghost function Grown(t: Tail, sent: seq<Sent>): Tail {
    t.(sent := t.sent + sent)
  }

  /** One item is set and then the offset of one moved. */
  lemma MovedItems(fdMap: FdMap, after: FdMap, t: Name, item: FdItem, origfile: Name, n: nat)
    requires after == Moved(fdMap[t := item], origfile, n)
    ensures t in after && after[t].offset == item.offset + (if t == origfile then n else 0)
    ensures forall j | j in after && j != t && j != origfile :: j in fdMap && after[j] == fdMap[j]
    ensures origfile != t && origfile in fdMap ==>
              origfile in after && after[origfile] == fdMap[origfile].(offset := fdMap[origfile].offset + n)
    ensures after.Keys == fdMap.Keys + {t}
  {
  }

  lemma MovedOne(fdMap: FdMap, name: Name, n: nat, k: Name)
    requires k in fdMap
    ensures k in Moved(fdMap, name, n)
    ensures Moved(fdMap, name, n)[k] == fdMap[k].(offset := fdMap[k].offset + if k == name then n else 0)
  {
  }

  lemma SameMap(a: StreamMap, b: StreamMap)
    requires (forall k :: k in a <==> k in b) && forall k | k in a :: a[k] == b[k]
    ensures a == b
  {
  }

  function FormatOf(info: Info): Option<Format> {
    if info.isBinary then None else Some(info.format)
  }

  /** The partition is left to the producer. */
  ghost function ItemFor(topic: seq<Byte>, s: Sent): MessageItem {
    MessageItem(-1, 0, topic, s.body)
  }

  ghost function ItemsFor(topic: seq<Byte>, sent: seq<Sent>): (r: seq<MessageItem>)
    ensures |r| == |sent| && forall i | 0 <= i < |r| :: r[i] == ItemFor(topic, sent[i])
  {
    seq(|sent|, i requires 0 <= i < |sent| => ItemFor(topic, sent[i]))
  }

  /** The messages as the journal names them. */
  ghost function EntryFor(topic: seq<Byte>, i: nat, s: Sent): Entry {
    Entry(ItemFor(topic, s), Some(i))
  }

  ghost function EntriesFor(topic: seq<Byte>, i: nat, sent: seq<Sent>): (r: seq<Entry>)
    ensures |r| == |sent| && forall j | 0 <= j < |r| :: r[j] == EntryFor(topic, i, sent[j])
  {
    seq(|sent|, j requires 0 <= j < |sent| => EntryFor(topic, i, sent[j]))
  }

  ghost predicate AllOf(sent: seq<Sent>, format: Option<Format>) {
    forall i | 0 <= i < |sent| :: sent[i].format == format
  }

  ghost predicate Within(sent: seq<Sent>, limit: int) {
    forall i | 0 <= i < |sent| :: |sent[i].piece| <= limit
  }

  lemma AnotherSent(sent: seq<Sent>, s: Sent, topic: seq<Byte>, i: nat)
    requires AllShown(sent) && AllOf(sent, s.format) && IsShown(s)
    ensures AllShown(sent + [s]) && AllOf(sent + [s], s.format)
    ensures PiecesIn(sent + [s]) == PiecesIn(sent) + [s.piece]
    ensures ItemsFor(topic, sent + [s]) == ItemsFor(topic, sent) + [ItemFor(topic, s)]
    ensures EntriesFor(topic, i, sent + [s]) == EntriesFor(topic, i, sent) + [EntryFor(topic, i, s)]
  {
    hide IsShown;
  }

  ghost function Moved(fdMap: FdMap, k: Name, n: nat): FdMap {
    if k in fdMap then fdMap[k := fdMap[k].(offset := fdMap[k].offset + n)] else fdMap
  }

  lemma MovedNothing(fdMap: FdMap, k: Name)
    ensures Moved(fdMap, k, 0) == fdMap
  {
  }

  lemma MovedMore(fdMap: FdMap, k: Name, a: nat, b: nat)
    ensures Moved(Moved(fdMap, k, a), k, b) == Moved(fdMap, k, a + b)
  {
  }

  lemma MovedKeeps(fdMap: FdMap, k: Name, n: nat)
    requires Keyed(fdMap) && Unshared(fdMap)
    ensures Keyed(Moved(fdMap, k, n)) && Unshared(Moved(fdMap, k, n)) && Moved(fdMap, k, n).Keys == fdMap.Keys
    ensures forall j | j in fdMap :: Moved(fdMap, k, n)[j].fs == fdMap[j].fs
  {
  }

  lemma ReadAgrees(fdMap: FdMap, tails: TailMap, data: FileData,
      t: Name, origfile: Name, binary: bool, n: nat, sent: seq<Sent>)
    requires Agree(fdMap, tails, data) && t in fdMap && tails[t].source.Some? && tails[t].source.value.0 in data
    requires tails[t].source.value.1 == binary
    requires Took(binary, Ahead(data[tails[t].source.value.0], fdMap[t].offset), n, PiecesIn(sent))
    requires AllShown(sent) && (n == 0 <==> sent == [])
    ensures Agree(Moved(fdMap, origfile, n), tails[t := tails[t].(sent := tails[t].sent + sent)], data)
            <==> t == origfile || sent == []
  {
    hide Faithful, IsShown, FilePieces.Whole, Pieces, Ahead;
    var tail := tails[t];
    if t == origfile {
      FaithfulAdvance(tail, fdMap[t].offset, data, n, sent);
    } else if sent == [] {
      assert tail.sent + sent == tail.sent;
      assert tails[t := tail] == tails;
      MovedNothing(fdMap, origfile);
    } else {
      FaithfulNoMore(tail, fdMap[t].offset, data, sent);
      assert Moved(fdMap, origfile, n)[t] == fdMap[t];
    }
  }

  lemma ScannedTook(ahead: seq<Byte>, n: nat, pos: nat, buffer: seq<Byte>, pieces: seq<seq<Byte>>, limit: int)
    requires Scanned(ahead, n, pos, buffer, pieces)
    ensures Took(false, ahead, n, pieces)
    ensures pos == |ahead| || ahead[pos] == EOF ==>
            Exhausted(false, ahead, n) && (buffer == [] || |buffer| <= limit ==> !TooLong(ahead, n, limit))
  {
    if pos == |ahead| || ahead[pos] == EOF {
      if buffer == [] || |buffer| <= limit {
        ScanNotTooLong(ahead, n, pos, buffer, pieces, limit);
      }
      ScanEnd(ahead, n, pos, buffer, pieces);
    }
  }

  lemma SourcedUpdate(tails: TailMap, live: StreamMap, k: Name, tail: Tail, inode: Option<nat>)
    requires Sourced(tails, live)
    requires inode.Some? ==> tail.source.Some? && tail.source.value.0 == inode.value
    ensures Sourced(tails[k := tail], Relive(live, k, inode))
  {
  }

  lemma SourcedRelabel(tails: TailMap, live: StreamMap, a: Name, b: Name)
    requires Sourced(tails, live) && a in tails
    ensures Sourced(Relabel(tails, a, b), RelabelLive(live, a, b))
  {
  }

  lemma SourcedGrown(tails: TailMap, live: StreamMap, t: Name, sent: seq<Sent>)
    requires Sourced(tails, live) && t in tails
    ensures Sourced(tails[t := tails[t].(sent := tails[t].sent + sent)], live)
  {
  }

  ghost function Relive(live: StreamMap, k: Name, inode: Option<nat>): StreamMap {
    match inode
    case None => live - {k}
    case Some(i) => live[k := i]
  }

  lemma IsRelive(was: StreamMap, live: StreamMap, k: Name, inode: Option<nat>)
    requires forall j | j != k :: (j in live <==> j in was) && (j in was ==> live[j] == was[j])
    requires k in live <==> inode.Some?
    requires k in live ==> live[k] == inode.value
    ensures live == Relive(was, k, inode)
  {
  }

  lemma ReliveAt(was: StreamMap, k: Name, inode: Option<nat>)
    ensures var live := Relive(was, k, inode);
            && (k in live <==> inode.Some?) && (inode.Some? ==> live[k] == inode.value)
            && (forall j | j != k :: (j in live <==> j in was) && (j in live ==> live[j] == was[j]))
  {
  }

  lemma NoLonger(was: StreamMap, k: Name)
    ensures Relive(was, k, None) == was - {k}
  {
  }

  lemma NothingSent(data: FileData)
    ensures Faithful(Tail(None, 0, []), 0, data)
  {
  }

  lemma AgreeUpdate(fdMap: FdMap, tails: TailMap, data: FileData, k: Name, item: FdItem, tail: Tail)
    requires Agree(fdMap, tails, data) && Faithful(tail, item.offset, data)
    ensures Agree(fdMap[k := item], tails[k := tail], data)
  {
    hide Faithful;
  }

  lemma KnownUpdate(live: StreamMap, data: FileData, k: Name, inode: Option<nat>)
    requires Known(live, data) && (inode.Some? ==> inode.value in data)
    ensures Known(Relive(live, k, inode), data)
  {
  }

  lemma KeyedUpdate(fdMap: FdMap, k: Name, item: FdItem)
    requires Keyed(fdMap) && item.origfile == k
    ensures Keyed(fdMap[k := item])
  {
  }

  lemma UnsharedUpdate(fdMap: FdMap, k: Name, item: FdItem)
    requires Unshared(fdMap)
    requires item.fs == null || forall j | j in fdMap && j != k :: fdMap[j].fs != item.fs
    ensures Unshared(fdMap[k := item])
  {
  }

  lemma LiveCount(live: StreamMap, k: Name, inode: Option<nat>)
    ensures |Relive(live, k, inode)| <= |live| + 1 && (k in live ==> |Relive(live, k, inode)| <= |live|)
    ensures Relive(live, k, inode).Keys <= live.Keys + {k}
  {
    OneMore(live.Keys, Relive(live, k, inode).Keys, k);
    assert |live| == |live.Keys| && |Relive(live, k, inode)| == |Relive(live, k, inode).Keys|;
  }

  lemma OneMore<T>(a: set<T>, b: set<T>, t: T)
    requires b <= a + {t}
    ensures |b| <= |a| + 1 && (t in a ==> |b| <= |a|)
  {
    Fewer(b, a + {t});
    if t in a {
      assert a + {t} == a;
    }
  }

  lemma ResumedSource(last: Tail, offset: nat, inode: nat, binary: bool)
    ensures Resumed(last, offset, inode, binary).source == Some((inode, binary))
  {
  }

  lemma ResumedFaithful(last: Tail, offset: nat, inode: nat, binary: bool, data: FileData)
    requires Faithful(last, offset, data)
    ensures Faithful(Resumed(last, offset, inode, binary), offset, data)
    ensures Resumed(last, offset, inode, binary).source == Some((inode, binary))
  {
  }

  ghost function NextTail(last: Tail, item: FdItem, binary: bool): Tail
    reads item.fs
  {
    if item.fs == null then last else Resumed(last, item.offset, item.fs.inode, binary)
  }

  ghost function Resumed(last: Tail, offset: nat, inode: nat, binary: bool): Tail {
    if last.source == Some((inode, binary)) then last else Tail(Some((inode, binary)), offset, [])
  }

  ghost function Gone<T>(was: set<T>, keys: set<T>): nat {
    |was - keys|
  }

  lemma CountOne<T>(was: set<T>, keys: set<T>, k: T)
    requires k in keys
    ensures Gone(was, keys - {k}) == Gone(was, keys) + if k in was then 1 else 0
  {
    assert was - (keys - {k}) == (was - keys) + if k in was then {k} else {};
  }

  lemma GoneAtEnds<T>(was: set<T>, all: set<T>)
    requires was <= all
    ensures Gone(was, all) == 0 && Gone(was, {}) == |was|
  {
    assert was - all == {} && was - {} == was;
  }

  lemma Fewer<T>(a: set<T>, b: set<T>)
    requires a <= b
    ensures |a| <= |b|
  {
    assert b == a + (b - a);
  }
}
