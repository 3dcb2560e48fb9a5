/** Runs of the reader while other programs append to files and rename them. */
module ReaderRuns {
  import opened Bytes
  import opened Configs
  import opened Events
  import opened MessageFlow
  import opened Names
  import opened Options
  import opened Readers
  import opened Tails
  import opened TextLines

  datatype Change =
    | Append(inode: nat, bytes: seq<Byte>)
    | Create(name: Name, inode: nat)
    | Rename(from: Name, to: Name)
    | Unlink(name: Name)

  datatype Op =
    | Changed(change: Change)
    | ReadFile(event: Event, now: int, stale: bool, opens: bool, running: nat, memory: seq<Memory>)
    | MovedSelf(event: Event, time: nat)
    | MovedTo(event: Event)
    | Deleted(event: Event)
    | Popped

  lemma AgreeGrows(fdMap: FdMap, tails: TailMap, data: FileData, more: FileData)
    requires Agree(fdMap, tails, data) && Grows(data, more)
    ensures Agree(fdMap, tails, more)
  {
    hide Faithful;
    forall k | k in fdMap ensures Faithful(tails[k], fdMap[k].offset, more) {
      FaithfulGrows(tails[k], fdMap[k].offset, data, more);
    }
  }

  lemma KnownGrows(live: StreamMap, data: FileData, more: FileData)
    requires Known(live, data) && Grows(data, more)
    ensures Known(live, more)
  {
  }

  lemma GrowsNot(data: FileData)
    ensures Grows(data, data)
  {
  }

  /** What the names stand for after a change, and the inodes there are. */
  function Renamed(names: map<Name, nat>, inodes: set<nat>, change: Change): (map<Name, nat>, set<nat>) {
    match change
    case Append(_, _) => (names, inodes)
    case Create(name, inode) => if inode in inodes then (names, inodes) else (names[name := inode], inodes + {inode})
    case Rename(from, to) => if from in names then ((names - {from})[to := names[from]], inodes) else (names, inodes)
    case Unlink(name) => (names - {name}, inodes)
  }

  function DataAfter(data: FileData, change: Change): (r: FileData)
    ensures data.Keys <= r.Keys
  {
    match change
    case Append(inode, bytes) => if inode in data then data[inode := data[inode] + bytes] else data
    case Create(_, inode) => if inode in data then data else data[inode := []]
    case Rename(_, _) => data
    case Unlink(_) => data
  }

  method ChangeFiles(files: Files, change: Change)
    requires files.Valid()
    modifies files
    ensures files.Valid() && Grows(old(files.data), files.data)
    ensures files.data == DataAfter(old(files.data), change)
    ensures (files.names, files.data.Keys) == Renamed(old(files.names), old(files.data).Keys, change)
  {
    GrowsNot(files.data);
    match change
    case Append(inode, bytes) =>
      if inode in files.data {
        files.Append(inode, bytes);
        assert files.data.Keys == old(files.data).Keys;
      }
    case Create(name, inode) =>
      if inode !in files.data {
        files.Create(name, inode);
        assert files.data.Keys == old(files.data).Keys + {inode};
      }
    case Rename(from, to) =>
      if from in files.names {
        files.Rename(from, to);
      }
    case Unlink(name) =>
      files.Unlink(name);
  }

  /** Whatever other programs do to the files, what was sent of them still goes with the offsets. */
  method ChangeBeside(reader: Reader, change: Change)
    requires reader.Valid()
    modifies reader.files
    ensures reader.Valid() && (old(reader.Exact()) ==> reader.Exact())
    ensures reader.Opened() == old(reader.Opened()) && reader.Streams() == old(reader.Streams())
    ensures Grows(old(reader.files.data), reader.files.data)
            && reader.files.data == DataAfter(old(reader.files.data), change)
    ensures (reader.files.names, reader.files.data.Keys) ==
            Renamed(old(reader.files.names), old(reader.files.data).Keys, change)
  {
    hide Reader.Opened, Agree, Known, Sourced, Grows, Keyed, Unshared, Renamed, DataAfter;
    reader.OpenedAt();
    ghost var live, data := reader.Opened(), reader.files.data;
    ChangeFiles(reader.files, change);
    reader.OpenedAt();
    SameMap(live, reader.Opened());
    KnownGrows(live, data, reader.files.data);
    if old(reader.Exact()) {
      AgreeGrows(reader.fdMap, reader.tails, data, reader.files.data);
    }
  }

  /** The producer takes a message. */
  method PopBeside(reader: Reader)
    requires reader.Valid()
    modifies reader.message.queue
    ensures reader.Valid() && (old(reader.Exact()) ==> reader.Exact())
    ensures reader.Opened() == old(reader.Opened()) && reader.Streams() == old(reader.Streams())
    ensures reader.message.queue.items == if old(reader.message.queue.items) == [] then []
                                          else old(reader.message.queue.items)[1..]
  {
    hide Reader.Opened, Agree, Known, Sourced, Keyed, Unshared;
    reader.OpenedAt();
    var r := reader.message.queue.TryPop();
    reader.OpenedAt();
    SameMap(old(reader.Opened()), reader.Opened());
  }

  method Do(reader: Reader, op: Op)
    requires reader.Valid()
    modifies reader, reader.Streams(), reader.config, reader.files, reader.message.journal, reader.message.queue
    ensures reader.Valid() && old(reader.message.journal.entries) <= reader.message.journal.entries
    ensures forall fs | fs in reader.Streams() :: fs in old(reader.Streams()) || fresh(fs)
  {
    hide Reader.Opened, Reader.Valid, Reader.Exact, Reader.Outcome, Reader.LastTail, Reader.LastOffset;
    match op
    case Changed(change) => ChangeBeside(reader, change);
    case ReadFile(event, now, junk, opens, running, memory) =>
      var isContinue;
      ghost var from, n, sent;
      isContinue, from, n, sent := reader.Read(event, now, junk, opens, running, memory);
    case MovedSelf(event, time) => reader.MoveSelf(event, time);
    case MovedTo(event) => reader.MoveTo(event);
    case Deleted(event) => reader.Clear(event);
    case Popped => PopBeside(reader);
  }

  /** Over every run, with events under any names, each item is found under its own name, no two share a
      stream, and the open streams are at most the counter, which is at most one above the limit. */
  method Run(reader: Reader, ops: seq<Op>)
    requires reader.Valid()
    modifies reader, reader.Streams(), reader.config, reader.files, reader.message.journal, reader.message.queue
    ensures reader.Valid() && old(reader.message.journal.entries) <= reader.message.journal.entries
    ensures |reader.Opened()| <= reader.currentFdNum <= if reader.maxfd < 0 then 0 else reader.maxfd + 1
  {
    hide Reader.Streams;
    for i := 0 to |ops|
      invariant reader.Valid() && old(reader.message.journal.entries) <= reader.message.journal.entries
      invariant forall fs | fs in reader.Streams() :: fs in old(reader.Streams()) || fresh(fs)
    {
      Do(reader, ops[i]);
    }
  }

  // ----- following one file -----

  /** The event names inode i: the name is not an old one, and under it i is found, if anything, and has
      been read so far, if anything. */
  ghost predicate Naming(reader: Reader, event: Event, info: Info, i: nat)
    reads reader, reader.Streams(), reader.files, reader.config
  {
    var k := event.origfile;
    && reader.Valid() && i in reader.files.data
    && k !in reader.aliasMap && (k in reader.files.names ==> reader.files.names[k] == i)
    && (k in reader.tails && reader.tails[k].source.Some? ==> reader.tails[k].source.value.0 == i)
    && reader.config.FindFile(event.pathfile) == Some(info)
  }

  /** The file is there under that name, and the configured path was not moved. */
  ghost predicate Tracking(reader: Reader, event: Event, info: Info, i: nat)
    reads reader, reader.Streams(), reader.files, reader.config
  {
    Naming(reader, event, info, i) && event.origfile in reader.files.names && info.moveTime == 0
  }

  lemma TrackedNamed(reader: Reader, event: Event, info: Info, i: nat, now: int)
    requires Tracking(reader, event, info, i)
    ensures Naming(reader, event, info, i) && !TimedOut(info, now)
    ensures event.origfile in reader.files.names && i in reader.files.data && info.moveTime == 0
  {
  }

  lemma NamedTracked(reader: Reader, event: Event, info: Info, i: nat)
    requires Naming(reader, event, info, i) && event.origfile in reader.files.names && info.moveTime == 0
    ensures Tracking(reader, event, info, i)
  {
  }

  ghost function OffsetOf(reader: Reader, k: Name): nat
    reads reader`fdMap
  {
    if k in reader.fdMap then reader.fdMap[k].offset else 0
  }

  /** Since the offset was at start and the journal as it was, exactly this was sent of inode i: the pieces
      up to the present offset. */
  ghost predicate Followed(reader: Reader, k: Name, info: Info, i: nat, start: nat, was: seq<Entry>, added: seq<Sent>)
    reads reader`fdMap, reader.files, reader.message.journal
  {
    FollowedTo(OffsetOf(reader, k), reader.files.data, reader.message.journal.entries, info, i, start, was, added)
  }

  ghost predicate FollowedTo(offset: nat, data: FileData, entries: seq<Entry>, info: Info, i: nat, start: nat,
      was: seq<Entry>, added: seq<Sent>)
  {
    && Faithful(Tail(Some((i, info.isBinary)), start, added), offset, data)
    && was <= entries && Of(Since(was, entries), i) == EntriesFor(info.topicName, i, added)
    && AllOf(added, FormatOf(info))
  }

  lemma FollowedGrows(reader: Reader, k: Name, info: Info, i: nat, was: nat, added: seq<Sent>)
    requires Faithful(Tail(Some((i, info.isBinary)), was, added), OffsetOf(reader, k), reader.files.data)
    ensures forall more | Grows(reader.files.data, more) ::
              Faithful(Tail(Some((i, info.isBinary)), was, added), OffsetOf(reader, k), more)
  {
    hide Faithful;
    forall more | Grows(reader.files.data, more)
      ensures Faithful(Tail(Some((i, info.isBinary)), was, added), OffsetOf(reader, k), more)
    {
      FaithfulGrows(Tail(Some((i, info.isBinary)), was, added), OffsetOf(reader, k), reader.files.data, more);
    }
  }

  /** What the next read goes on with. */
  ghost function TailOf(reader: Reader, k: Name): Tail
    reads reader`tails
  {
    if k in reader.tails then reader.tails[k] else Tail(None, 0, [])
  }

  lemma NamedBefore(reader: Reader, event: Event, info: Info, i: nat, now: int)
    requires Naming(reader, event, info, i) && !TimedOut(info, now)
    ensures var k := event.origfile;
            && reader.Target(k) == k
            && reader.LastOffset(k, info, now) == OffsetOf(reader, k)
            && reader.LastTail(k, info, now) == TailOf(reader, k)
            && (k in reader.Opened() ==> reader.Opened()[k] == i)
            && (TailOf(reader, k).source.Some? ==> TailOf(reader, k).source.value.0 == i)
  {
  }

  /** The name stands for i after the read as before it. */
  lemma NamedAfter(reader: Reader, event: Event, info: Info, i: nat, last: Tail, offset: nat)
    requires reader.Valid() && i in reader.files.data && event.origfile !in reader.aliasMap
    requires event.origfile in reader.files.names ==> reader.files.names[event.origfile] == i
    requires reader.config.FindFile(event.pathfile) == Some(info)
    requires last.source.Some? ==> last.source.value.0 == i
    requires var t := TailOf(reader, event.origfile);
             t == last || t.source == Resumed(last, offset, i, info.isBinary).source
    ensures Naming(reader, event, info, i)
  {
  }

  lemma FollowedOn(reader: Reader, before: Before, k: Name, info: Info, last: Tail, offset: nat, i: nat, running: nat,
      isContinue: bool, n: nat, sent: seq<Sent>, start: nat, was: seq<Entry>, added: seq<Sent>)
    requires i in reader.files.data && reader.HasRead(before, k, k, info, last, offset, i, running, isContinue, n, sent)
    requires FollowedTo(offset, reader.files.data, before.entries, info, i, start, was, added)
    ensures Followed(reader, k, info, i, start, was, added + sent)
    ensures k in reader.tails && reader.tails[k].source == Some((i, info.isBinary))
    ensures TailOf(reader, k).source == Resumed(last, offset, i, info.isBinary).source
    ensures OffsetOf(reader, k) == offset + n && |reader.message.queue.items| == |before.queued| + |sent|
    ensures reader.Outcome(info.isBinary, Ahead(reader.files.data[i], offset), running, isContinue, n, sent)
  {
    hide Faithful, AllShown, Ahead, Of, Since, Within, Upto;
    FaithfulAdvance(Tail(Some((i, info.isBinary)), start, added), offset, reader.files.data, n, sent);
    SinceMore(was, before.entries, EntriesFor(info.topicName, i, sent), i);
    OfOne(EntriesFor(info.topicName, i, sent), i, i);
    assert EntriesFor(info.topicName, i, added + sent) ==
           EntriesFor(info.topicName, i, added) + EntriesFor(info.topicName, i, sent);
  }

  /** How the reader answered an event that it took for one under name k: it read from an inode, or it
      sent nothing. */
  ghost predicate Answered(reader: Reader, before: Before, k: Name, origfile: Name, info: Info, last: Tail, offset: nat,
      running: nat, from: Option<nat>, isContinue: bool, n: nat, sent: seq<Sent>)
    reads reader`fdMap, reader`tails, reader.files, reader.message.journal, reader.message.queue
  {
    match from
    case Some(j) => reader.HasRead(before, k, origfile, info, last, offset, j, running, isContinue, n, sent)
    case None =>
      && n == 0 && sent == [] && reader.UnchangedQueue(before)
      && (reader.fdMap == before.fdMap
          || (k in reader.fdMap && reader.fdMap == before.fdMap[k := reader.fdMap[k]]
              && reader.fdMap[k].offset == offset))
      && (reader.tails == before.tails || reader.tails == before.tails[k := last])
  }

  /** The info of a path, if it is configured. */
  ghost function InfoOf(reader: Reader, path: Name, otherwise: Info): Info
    reads reader.config
  {
    if reader.config.FindFile(path).Some? then reader.config.FindFile(path).value else otherwise
  }

  method ReadEvent(reader: Reader, event: Event, now: int, stale: bool, opens: bool, running: nat, memory: seq<Memory>,
      ghost info: Info)
    returns (isContinue: bool, ghost from: Option<nat>, ghost n: nat, ghost sent: seq<Sent>)
    requires reader.Valid() && info == InfoOf(reader, event.pathfile, info)
    modifies reader`fdMap, reader`currentFdNum, reader`tails, reader.Streams(), reader.config
    modifies reader.message.journal, reader.message.queue
    ensures reader.Valid() && forall fs | fs in reader.Streams() :: fs in old(reader.Streams()) || fresh(fs)
    ensures reader.Opened().Keys <= old(reader.Opened()).Keys + {reader.Target(event.origfile)}
    ensures var k := reader.Target(event.origfile);
            && Answered(reader, old(reader.Now()), k, event.origfile, info, old(reader.LastTail(k, info, now)),
                        old(reader.LastOffset(k, info, now)), running, from, isContinue, n, sent)
            && (from.Some? ==>
                (k in old(reader.Opened()) && from.value == old(reader.Opened())[k])
                || (k in reader.files.names && from.value == reader.files.names[k]))
            && (from.None? && opens && k in reader.files.names && old(reader.config.FindFile(event.pathfile)).Some? ==>
                |old(reader.Opened())| > reader.maxfd)
    ensures !TimedOut(info, now) ==> reader.config.fileMap == old(reader.config.fileMap)
    ensures reader.config.fileMap == old(reader.config.fileMap)
            || reader.config.fileMap == WithMoveTime(old(reader.config.fileMap), reader.Target(event.origfile), 0)
  {
    hide Reader.Valid, Reader.Exact, Reader.Opened, Reader.HasReadSo, Reader.ReadSo, LastOffsetIn, LastTailIn, TimedOut,
        Answered;
    isContinue, from, n, sent := reader.Read(event, now, stale, opens, running, memory);
    ReadMeans(reader, old(reader.Look()), event, info, now, opens, running, isContinue, from, n, sent);
  }

  lemma ReadMeans(reader: Reader, before: State, event: Event, info: Info, now: int, opens: bool, running: nat,
      isContinue: bool, from: Option<nat>, n: nat, sent: seq<Sent>)
    requires reader.ReadSo(before, reader.Look(), reader.files.names, reader.files.data, event, now, opens, running,
                           isContinue, from, n, sent)
    requires info == if event.pathfile in before.fileMap then before.fileMap[event.pathfile] else info
    ensures var k := if event.origfile in before.aliasMap then before.aliasMap[event.origfile] else event.origfile;
            && Answered(reader, before.Start(), k, event.origfile, info, LastTailIn(before.tails, k, info, now),
                        LastOffsetIn(before.fdMap, k, info, now), running, from, isContinue, n, sent)
            && reader.Opened().Keys <= before.live.Keys + {k}
            && (from.Some? ==>
                (k in before.live && from.value == before.live[k])
                || (k in reader.files.names && from.value == reader.files.names[k]))
            && (from.None? && opens && k in reader.files.names && event.pathfile in before.fileMap ==>
                |before.live| > reader.maxfd)
            && (!TimedOut(info, now) ==> reader.config.fileMap == before.fileMap)
            && (reader.config.fileMap == before.fileMap
                || reader.config.fileMap == WithMoveTime(before.fileMap, k, 0))
  {
    hide Reader.Valid, Reader.Exact, Reader.Opened, Reader.HasReadSo, LastOffsetIn, LastTailIn, TimedOut, Readied,
        Waited, Reader.Reclaimed, ReadiedThen, WithMoveTime;
    reader.ReclaimedSame(before, now);
    ReclaimedFew(reader, before, now);
  }

  lemma ReclaimedFew(reader: Reader, before: State, now: int)
    ensures var mid := reader.Reclaimed(before, now);
            && mid.live.Keys <= before.live.Keys && (forall k | k in mid.live :: mid.live[k] == before.live[k])
            && (mid.counted > reader.maxfd ==> |before.live| > reader.maxfd)
  {
  }

  lemma AnsweredOn(reader: Reader, before: Before, k: Name, info: Info, last: Tail, offset: nat, i: nat, running: nat,
      from: Option<nat>, isContinue: bool, n: nat, sent: seq<Sent>, start: nat, was: seq<Entry>, added: seq<Sent>)
    requires Answered(reader, before, k, k, info, last, offset, running, from, isContinue, n, sent)
    requires from.Some? ==> from.value == i
    requires i in reader.files.data && FollowedTo(offset, reader.files.data, before.entries, info, i, start, was, added)
    requires last == (if k in before.tails then before.tails[k] else Tail(None, 0, []))
    requires offset == (if k in before.fdMap then before.fdMap[k].offset else 0)
    ensures Followed(reader, k, info, i, start, was, added + sent)
    ensures forall j | j in reader.tails && j != k :: j in before.tails && reader.tails[j] == before.tails[j]
    ensures before.fdMap.Keys <= reader.fdMap.Keys && OffsetOf(reader, k) == offset + n
    ensures |reader.message.queue.items| == |before.queued| + |sent|
    ensures from.Some? ==>
            reader.Outcome(info.isBinary, Ahead(reader.files.data[i], offset), running, isContinue, n, sent)
    ensures var t := TailOf(reader, k); t == last || t.source == Resumed(last, offset, i, info.isBinary).source
  {
    hide FollowedTo, Reader.Outcome, AllShown, AllOf;
    assert added + [] == added;
    if from.Some? {
      FollowedOn(reader, before, k, info, last, offset, i, running, isContinue, n, sent, start, was, added);
    }
  }

  method FollowRead(reader: Reader, event: Event, ghost info: Info, ghost i: nat, now: int, stale: bool, opens: bool,
      running: nat, memory: seq<Memory>,
      ghost start: nat, ghost was: seq<Entry>, ghost added: seq<Sent>)
    returns (isContinue: bool, ghost n: nat, ghost sent: seq<Sent>)
    requires Naming(reader, event, info, i) && !TimedOut(info, now)
    requires Followed(reader, event.origfile, info, i, start, was, added)
    modifies reader`fdMap, reader`currentFdNum, reader`tails, reader.Streams(), reader.config
    modifies reader.message.journal, reader.message.queue
    ensures Naming(reader, event, info, i) && Followed(reader, event.origfile, info, i, start, was, added + sent)
    ensures forall fs | fs in reader.Streams() :: fs in old(reader.Streams()) || fresh(fs)
    ensures reader.config.fileMap == old(reader.config.fileMap)
    ensures forall j | j in reader.tails && j != event.origfile ::
            j in old(reader.tails) && reader.tails[j] == old(reader.tails)[j]
    ensures old(reader.fdMap).Keys <= reader.fdMap.Keys
    ensures reader.Opened().Keys <= old(reader.Opened()).Keys + {event.origfile}
    ensures OffsetOf(reader, event.origfile) == old(OffsetOf(reader, event.origfile)) + n
    ensures |reader.message.queue.items| == |old(reader.message.queue.items)| + |sent|
    ensures opens && event.origfile in reader.files.names && |old(reader.Opened())| <= reader.maxfd ==>
              reader.Outcome(info.isBinary, Ahead(reader.files.data[i], old(OffsetOf(reader, event.origfile))),
                  running, isContinue, n, sent)
  {
    hide Reader.Valid, Reader.Exact, Reader.Opened, Answered, Reader.LastOffset, Reader.LastTail,
        Reader.Outcome, FollowedTo, AllOf, AllShown, TimedOut, Resumed;
    NamedBefore(reader, event, info, i, now);
    ghost var k, from := event.origfile, None;
    ghost var last, offset := TailOf(reader, k), OffsetOf(reader, k);
    isContinue, from, n, sent := ReadEvent(reader, event, now, stale, opens, running, memory, info);
    AnsweredOn(reader, old(reader.Now()), k, info, last, offset, i, running, from, isContinue, n, sent, start, was,
        added);
    NamedAfter(reader, event, info, i, last, offset);
  }

  lemma FollowedNothing(reader: Reader, k: Name, info: Info, i: nat)
    ensures Followed(reader, k, info, i, OffsetOf(reader, k), reader.message.journal.entries, [])
  {
  }

  /** The producer takes a message. */
  method FollowHanded(reader: Reader, event: Event, ghost info: Info, ghost i: nat, ghost start: nat,
      ghost was: seq<Entry>, ghost added: seq<Sent>)
    requires Tracking(reader, event, info, i) && Followed(reader, event.origfile, info, i, start, was, added)
    modifies reader.message.queue
    ensures Tracking(reader, event, info, i) && Followed(reader, event.origfile, info, i, start, was, added)
    ensures reader.Opened() == old(reader.Opened()) && reader.Streams() == old(reader.Streams())
            && reader.fdMap == old(reader.fdMap)
    ensures reader.message.queue.items == if old(reader.message.queue.items) == [] then []
                                          else old(reader.message.queue.items)[1..]
  {
    hide Reader.Valid, Reader.Exact, Reader.Opened, Reader.Streams, Followed;
    PopBeside(reader);
  }
}
