/** Runs of the reader, with events about all files, seen from one file: also when it is renamed, exactly
    its pieces are sent, once each and in order. */
module Following {
  import opened Bytes
  import opened Configs
  import opened Events
  import opened FilePieces
  import opened MessageFlow
  import opened MessageStores
  import opened Names
  import opened Options
  import opened ReaderRuns
  import opened Readers
  import opened Sequences
  import opened Tails
  import opened TextLines

  /** What is known, without looking at the reader, of the file that is followed: the name it has for the
      reader, the configured path and when that was moved, and whether the reader has an item of it; what
      the names stand for and which inodes there are; the renamings that the reader may have noted, and the
      names under which it may have items. */
  datatype Track = Track(
    key: Name, path: Name, moveTime: nat, tabled: bool,
    names: map<Name, nat>, inodes: set<nat>, aliases: set<(Name, Name)>, taken: set<Name>)

  /** The reader may handle an event under name a as one under name b. */
  predicate MayMean(t: Track, a: Name, b: Name) {
    a == b || (a, b) in t.aliases
  }

  /** Events tell the truth about the file: they name it by the name it has for the reader, and nothing
      else by that name. A read under its name comes before the path has been moved for too long; the
      name is neither an old one nor taken by another file. A read under another name may be anything,
      even under an old name, as long as that cannot mean the file. When it is renamed, the reader has an
      item of it or none under its new name. */
  ghost predicate Fair(t: Track, info: Info, i: nat, op: Op) {
    match op
    case Changed(_) => true
    case ReadFile(event, now, _, _, _, _) =>
      if event.origfile == t.key then
        && event.pathfile == t.path && !TimedOut(info.(moveTime := t.moveTime), now)
        && (forall b :: (t.key, b) !in t.aliases) && (t.key in t.names ==> t.names[t.key] == i)
      else
        forall b | MayMean(t, event.origfile, b) :: b != t.key && (b in t.names ==> t.names[b] != i)
    case MovedSelf(_, _) => true
    case MovedTo(event) => event.origfile != t.key
        && (event.aliasfile == t.key ==> t.tabled || event.origfile !in t.taken)
    case Deleted(event) => event.origfile != t.key
    case Popped => true
  }

  ghost function After(t: Track, op: Op): Track {
    match op
    case Changed(change) =>
      var after := Renamed(t.names, t.inodes, change);
      t.(names := after.0, inodes := after.1)
    case MovedSelf(event, time) => if event.pathfile == t.path then t.(moveTime := time) else t
    case MovedTo(event) =>
      t.(key := if event.aliasfile == t.key then event.origfile else t.key,
         aliases := t.aliases + {(event.aliasfile, event.origfile)}, taken := t.taken + {event.origfile})
    case Deleted(event) => t.(aliases := set a | a in t.aliases && a.1 != event.origfile)
    case ReadFile(event, _, _, _, _, _) => t.(taken := t.taken + {event.origfile})
    case Popped => t
  }

  ghost predicate AllFair(t: Track, info: Info, i: nat, ops: seq<Op>)
    decreases |ops|
  {
    ops == [] || (Fair(t, info, i, ops[0]) && AllFair(After(t, ops[0]), info, i, ops[1..]))
  }

  ghost function AfterAll(t: Track, ops: seq<Op>): Track
    decreases |ops|
  {
    if ops == [] then t else AfterAll(After(t, ops[0]), ops[1..])
  }

  /** The tail of this key, and no other, is about inode i. */
  ghost predicate Solely(tails: TailMap, key: Name, i: nat) {
    forall k | k in tails && tails[k].source.Some? :: tails[k].source.value.0 == i <==> k == key
  }

  /** Every renaming that the reader has noted is among these. */
  ghost predicate Among(aliasMap: map<Name, Name>, aliases: set<(Name, Name)>) {
    forall a | a in aliasMap :: (a, aliasMap[a]) in aliases
  }

  /** The path is configured, with its move time as it was set or cleared again. */
  ghost predicate Configured(fileMap: map<Name, Info>, path: Name, info: Info, moveTime: nat) {
    path in fileMap && (fileMap[path] == info.(moveTime := 0) || fileMap[path] == info.(moveTime := moveTime))
  }

  /** The reader has items under these names only. */
  ghost predicate Taken(fdMap: FdMap, aliases: set<(Name, Name)>, taken: set<Name>) {
    fdMap.Keys <= taken && forall a | a in aliases :: a.1 in taken
  }

  /** The reader and the files are as the track says. */
  ghost predicate Follows(reader: Reader, t: Track, info: Info, i: nat)
    reads reader, reader.Streams(), reader.files, reader.config
  {
    && reader.Valid()
    && reader.files.names == t.names && reader.files.data.Keys == t.inodes && i in t.inodes
    && Among(reader.aliasMap, t.aliases) && Solely(reader.tails, t.key, i)
    && (t.tabled ==> t.key in reader.fdMap) && Taken(reader.fdMap, t.aliases, t.taken)
    && Configured(reader.config.fileMap, t.path, info, t.moveTime)
  }

  // ----- what one step keeps -----

  lemma SolelyOther(tails: TailMap, key: Name, i: nat, k: Name, tail: Tail)
    requires Solely(tails, key, i) && k != key
    requires tail.source.Some? ==> tail.source.value.0 != i
    ensures Solely(tails[k := tail], key, i)
  {
  }

  lemma SolelyRead(tails: TailMap, after: TailMap, key: Name, i: nat)
    requires Solely(tails, key, i)
    requires forall k | k in after && k != key :: k in tails && after[k] == tails[k]
    requires key in after && after[key].source.Some? ==> after[key].source.value.0 == i
    ensures Solely(after, key, i)
  {
  }

  lemma SolelyRelabel(tails: TailMap, key: Name, i: nat, a: Name, b: Name)
    requires Solely(tails, key, i) && a in tails && b != key
    ensures Solely(Relabel(tails, a, b), if a == key then b else key, i)
  {
  }

  /** Without an item the key may change to one that has none either. */
  lemma SolelyFree(reader: Reader, t: Track, i: nat, k: Name)
    requires reader.Valid() && Solely(reader.tails, t.key, i) && Taken(reader.fdMap, t.aliases, t.taken)
    ensures t.key !in reader.fdMap && k !in t.taken ==> Solely(reader.tails, k, i) && k !in reader.fdMap
  {
  }

  lemma SolelyWithout(tails: TailMap, key: Name, i: nat, k: Name)
    requires Solely(tails, key, i)
    ensures Solely(Without(tails, k), key, i)
  {
  }

  lemma AmongMoved(aliasMap: map<Name, Name>, aliases: set<(Name, Name)>, a: Name, b: Name)
    requires Among(aliasMap, aliases)
    ensures Among(aliasMap, aliases + {(a, b)}) && Among(aliasMap[a := b], aliases + {(a, b)})
  {
  }

  lemma AmongCleared(aliasMap: map<Name, Name>, aliases: set<(Name, Name)>, name: Name)
    requires Among(aliasMap, aliases)
    ensures Among(Unaliased(aliasMap, name), set a | a in aliases && a.1 != name)
  {
  }

  lemma ConfiguredAfter(fileMap: map<Name, Info>, path: Name, info: Info, moveTime: nat, k: Name, time: nat)
    requires Configured(fileMap, path, info, moveTime)
    ensures Configured(WithMoveTime(fileMap, k, time), path, info, if k == path then time else moveTime)
    ensures Configured(WithMoveTime(fileMap, k, 0), path, info, moveTime)
  {
  }

  method StepChanged(reader: Reader, change: Change, ghost t: Track, ghost info: Info, ghost i: nat, ghost start: nat,
      ghost was: seq<Entry>, ghost sent: seq<Sent>)
    requires Follows(reader, t, info, i) && Followed(reader, t.key, info, i, start, was, sent)
    modifies reader.files
    ensures Follows(reader, After(t, Changed(change)), info, i) && Followed(reader, t.key, info, i, start, was, sent)
    ensures Grows(old(reader.files.data), reader.files.data)
    ensures reader.files.data == DataAfter(old(reader.files.data), change)
    ensures reader.Streams() == old(reader.Streams())
  {
    hide Reader.Valid, Reader.Exact, Faithful, AllOf, Of, Since, Renamed, DataAfter, Solely, Among, Configured,
        Taken;
    FollowedGrows(reader, t.key, info, i, start, sent);
    ChangeBeside(reader, change);
    assert Grows(old(reader.files.data), reader.files.data);
  }

  /** What the event may mean is not the file, and neither what is open nor what would be opened is inode i. */
  lemma MeansAnother(reader: Reader, t: Track, info: Info, i: nat, event: Event, now: int, stale: bool, opens: bool,
      running: nat, memory: seq<Memory>)
    requires Follows(reader, t, info, i) && event.origfile != t.key
    requires Fair(t, info, i, ReadFile(event, now, stale, opens, running, memory))
    ensures var b := reader.Target(event.origfile);
            && b != t.key && (b in reader.Opened() ==> reader.Opened()[b] != i)
            && (b in reader.files.names ==> reader.files.names[b] != i)
  {
    assert MayMean(t, event.origfile, reader.Target(event.origfile));
  }

  /** Nothing that is known of the file changes while another one is read. */
  lemma ReadBeside(reader: Reader, before: Before, key: Name, k: Name, origfile: Name, other: Info, last: Tail,
      offset: nat, running: nat, from: Option<nat>, isContinue: bool, n: nat, added: seq<Sent>,
      here: nat, info: Info, i: nat, start: nat, was: seq<Entry>, sent: seq<Sent>)
    requires Answered(reader, before, k, origfile, other, last, offset, running, from, isContinue, n, added)
    requires from != Some(i) && key != k && key != origfile
    requires Solely(before.tails, key, i) && Solely(before.tails[k := last], key, i)
    requires FollowedTo(here, reader.files.data, before.entries, info, i, start, was, sent)
    requires here == if key in before.fdMap then before.fdMap[key].offset else 0
    ensures Followed(reader, key, info, i, start, was, sent) && (key in before.fdMap ==> key in reader.fdMap)
    ensures OffsetOf(reader, key) == here
    ensures Solely(reader.tails, key, i)
  {
    hide Reader.Outcome, Of, Since, AllShown, AllOf, Faithful, Solely;
    if from.Some? {
      var j := from.value;
      ResumedSource(last, offset, j, other.isBinary);
      SolelyOther(before.tails, key, i, k, Grown(Resumed(last, offset, j, other.isBinary), added));
      var more := EntriesFor(other.topicName, j, added);
      SinceMore(was, before.entries, more, i);
      OfOne(more, i, j);
    }
  }

  lemma TakenRead(reader: Reader, before: Before, k: Name, origfile: Name, info: Info, last: Tail, offset: nat,
      running: nat, from: Option<nat>, isContinue: bool, n: nat, added: seq<Sent>, t: Track)
    requires Answered(reader, before, k, origfile, info, last, offset, running, from, isContinue, n, added)
    requires Taken(before.fdMap, t.aliases, t.taken) && Among(reader.aliasMap, t.aliases)
             && k == reader.Target(origfile)
    ensures Taken(reader.fdMap, t.aliases, t.taken + {origfile})
  {
    hide Reader.Outcome;
  }

  lemma LastBeside(reader: Reader, k: Name, info: Info, now: int, key: Name, i: nat)
    requires Solely(reader.tails, key, i) && k != key
    ensures Solely(reader.tails[k := reader.LastTail(k, info, now)], key, i)
  {
    hide TimedOut;
  }

  lemma NamesIt(reader: Reader, t: Track, info: Info, i: nat, event: Event, now: int, stale: bool, opens: bool,
      running: nat, memory: seq<Memory>)
    requires Follows(reader, t, info, i) && event.origfile == t.key
    requires Fair(t, info, i, ReadFile(event, now, stale, opens, running, memory))
    ensures var m := InfoOf(reader, event.pathfile, info);
            && Naming(reader, event, m, i) && !TimedOut(m, now)
            && m.topicName == info.topicName && m.isBinary == info.isBinary && m.format == info.format
  {
    hide Reader.Valid;
  }

  /** Move times do not matter for what is sent. */
  lemma FollowedSame(offset: nat, data: FileData, entries: seq<Entry>, info: Info, m: Info, i: nat, start: nat,
      was: seq<Entry>, sent: seq<Sent>)
    requires m.topicName == info.topicName && m.isBinary == info.isBinary && m.format == info.format
    ensures FollowedTo(offset, data, entries, info, i, start, was, sent)
            <==> FollowedTo(offset, data, entries, m, i, start, was, sent)
  {
  }

  method StepRead(reader: Reader, event: Event, now: int, stale: bool, opens: bool, running: nat, memory: seq<Memory>,
      ghost t: Track, ghost info: Info, ghost i: nat, ghost start: nat, ghost was: seq<Entry>, ghost sent: seq<Sent>)
    returns (ghost longer: seq<Sent>)
    requires Follows(reader, t, info, i) && Followed(reader, t.key, info, i, start, was, sent)
    requires Fair(t, info, i, ReadFile(event, now, stale, opens, running, memory))
    modifies reader`fdMap, reader`currentFdNum, reader`tails, reader.Streams(), reader.config
    modifies reader.message.journal, reader.message.queue
    ensures Follows(reader, After(t, ReadFile(event, now, stale, opens, running, memory)), info, i)
    ensures Followed(reader, t.key, info, i, start, was, longer) && sent <= longer
    ensures OffsetOf(reader, t.key) >= old(OffsetOf(reader, t.key))
    ensures forall fs | fs in reader.Streams() :: fs in old(reader.Streams()) || fresh(fs)
  {
    hide Reader.Valid, Reader.Exact, Reader.Opened, Reader.LastOffset, Reader.LastTail, Answered, FollowedTo, Solely,
        Among, Configured, TimedOut, Resumed, Taken;
    ghost var b, before, own := reader.Target(event.origfile), reader.Now(), event.origfile == t.key;
    ghost var m, offset := InfoOf(reader, event.pathfile, info), OffsetOf(reader, t.key);
    if own {
      NamesIt(reader, t, info, i, event, now, stale, opens, running, memory);
      NamedBefore(reader, event, m, i, now);
    } else {
      MeansAnother(reader, t, info, i, event, now, stale, opens, running, memory);
      LastBeside(reader, b, m, now, t.key, i);
    }
    ghost var last, lastOffset := reader.LastTail(b, m, now), reader.LastOffset(b, m, now);
    ConfiguredAfter(reader.config.fileMap, t.path, info, t.moveTime, b, 0);
    var isContinue;
    ghost var from, n, added;
    isContinue, from, n, added := ReadEvent(reader, event, now, stale, opens, running, memory, m);
    longer := if own then sent + added else sent;
    TakenRead(reader, before, b, event.origfile, m, last, lastOffset, running, from, isContinue, n, added, t);
    if own {
      FollowedSame(offset, reader.files.data, before.entries, info, m, i, start, was, sent);
      AnsweredOn(reader, before, t.key, m, last, offset, i, running, from, isContinue, n, added, start, was, sent);
      NamedAfter(reader, event, m, i, last, offset);
      SolelyRead(before.tails, reader.tails, t.key, i);
      FollowedSame(OffsetOf(reader, t.key), reader.files.data, reader.message.journal.entries, info, m, i, start, was,
          longer);
    } else {
      ReadBeside(reader, before, t.key, b, event.origfile, m, last, lastOffset, running, from, isContinue, n, added,
                 offset, info, i, start, was, sent);
    }
  }

  method StepSelf(reader: Reader, event: Event, time: nat, ghost t: Track, ghost info: Info, ghost i: nat,
      ghost start: nat, ghost was: seq<Entry>, ghost sent: seq<Sent>)
    requires Follows(reader, t, info, i) && Followed(reader, t.key, info, i, start, was, sent)
    modifies reader`fdMap, reader.config
    ensures Follows(reader, After(t, MovedSelf(event, time)), info, i)
            && Followed(reader, t.key, info, i, start, was, sent)
    ensures OffsetOf(reader, t.key) == old(OffsetOf(reader, t.key)) && reader.Streams() == old(reader.Streams())
  {
    hide Reader.Valid, Reader.Exact, Reader.Opened, Faithful, AllOf, Of, Since, Solely, Among, Configured;
    ConfiguredAfter(reader.config.fileMap, t.path, info, t.moveTime, event.pathfile, time);
    reader.MoveSelf(event, time);
  }

  /** A renaming takes all that is known of the file to its new name. */
  method StepMoved(reader: Reader, event: Event, ghost t: Track, ghost info: Info, ghost i: nat,
      ghost start: nat, ghost was: seq<Entry>, ghost sent: seq<Sent>)
    requires Follows(reader, t, info, i) && Followed(reader, t.key, info, i, start, was, sent)
    requires Fair(t, info, i, MovedTo(event))
    modifies reader`fdMap, reader`aliasMap, reader`tails
    ensures var after := After(t, MovedTo(event));
            && Follows(reader, after, info, i) && Followed(reader, after.key, info, i, start, was, sent)
            && OffsetOf(reader, after.key) == old(OffsetOf(reader, t.key))
    ensures reader.Streams() <= old(reader.Streams())
  {
    hide Reader.Valid, Reader.Exact, Faithful, AllOf, Of, Since, Solely, Among, Configured;
    AmongMoved(reader.aliasMap, t.aliases, event.aliasfile, event.origfile);
    SolelyFree(reader, t, i, event.origfile);
    if event.aliasfile in reader.tails {
      SolelyRelabel(reader.tails, t.key, i, event.aliasfile, event.origfile);
    }
    reader.MoveTo(event);
  }

  method StepDeleted(reader: Reader, event: Event, ghost t: Track, ghost info: Info, ghost i: nat,
      ghost start: nat, ghost was: seq<Entry>, ghost sent: seq<Sent>)
    requires Follows(reader, t, info, i) && Followed(reader, t.key, info, i, start, was, sent)
    requires Fair(t, info, i, Deleted(event))
    modifies reader`fdMap, reader`aliasMap, reader`tails, reader.StreamOf(event.origfile)
    ensures Follows(reader, After(t, Deleted(event)), info, i) && Followed(reader, t.key, info, i, start, was, sent)
    ensures OffsetOf(reader, t.key) == old(OffsetOf(reader, t.key)) && reader.Streams() <= old(reader.Streams())
  {
    hide Reader.Valid, Reader.Exact, Faithful, AllOf, Of, Since, Solely, Among, Configured;
    AmongCleared(reader.aliasMap, t.aliases, event.origfile);
    SolelyWithout(reader.tails, t.key, i, event.origfile);
    reader.Clear(event);
  }

  method StepPopped(reader: Reader, ghost t: Track, ghost info: Info, ghost i: nat,
      ghost start: nat, ghost was: seq<Entry>, ghost sent: seq<Sent>)
    requires Follows(reader, t, info, i) && Followed(reader, t.key, info, i, start, was, sent)
    modifies reader.message.queue
    ensures Follows(reader, t, info, i) && Followed(reader, t.key, info, i, start, was, sent)
    ensures reader.Streams() == old(reader.Streams())
  {
    hide Reader.Valid, Reader.Exact, Reader.Opened, Reader.Streams, Followed, Solely, Among, Configured;
    PopBeside(reader);
  }

  method Step(reader: Reader, op: Op, ghost t: Track, ghost info: Info, ghost i: nat, ghost start: nat,
      ghost was: seq<Entry>, ghost sent: seq<Sent>)
    returns (ghost longer: seq<Sent>)
    requires Follows(reader, t, info, i) && Followed(reader, t.key, info, i, start, was, sent) && Fair(t, info, i, op)
    modifies reader, reader.Streams(), reader.config, reader.files, reader.message.journal, reader.message.queue
    ensures var after := After(t, op);
            Follows(reader, after, info, i) && Followed(reader, after.key, info, i, start, was, longer)
    ensures sent <= longer && OffsetOf(reader, After(t, op).key) >= old(OffsetOf(reader, t.key))
    ensures Grows(old(reader.files.data), reader.files.data)
    ensures reader.files.data == if op.Changed? then DataAfter(old(reader.files.data), op.change)
                                 else old(reader.files.data)
    ensures forall fs | fs in reader.Streams() :: fs in old(reader.Streams()) || fresh(fs)
  {
    hide Follows, Followed, Fair, DataAfter, Grows;
    GrowsNot(reader.files.data);
    longer := sent;
    match op
    case Changed(change) => StepChanged(reader, change, t, info, i, start, was, sent);
    case ReadFile(event, now, stale, opens, running, memory) =>
      longer := StepRead(reader, event, now, stale, opens, running, memory, t, info, i, start, was, sent);
    case MovedSelf(event, time) => StepSelf(reader, event, time, t, info, i, start, was, sent);
    case MovedTo(event) => StepMoved(reader, event, t, info, i, start, was, sent);
    case Deleted(event) => StepDeleted(reader, event, t, info, i, start, was, sent);
    case Popped => StepPopped(reader, t, info, i, start, was, sent);
  }

  /** Over every fair run, with events about any files, renamings, and messages taken by the producer, what
      was sent of inode i is what had been sent of it and the pieces that the offset moved over. */
  method Run(reader: Reader, ops: seq<Op>, ghost t: Track, ghost info: Info, ghost i: nat, ghost start: nat,
      ghost was: seq<Entry>, ghost sent: seq<Sent>)
    returns (ghost longer: seq<Sent>)
    requires Follows(reader, t, info, i) && Followed(reader, t.key, info, i, start, was, sent)
    requires AllFair(t, info, i, ops)
    modifies reader, reader.Streams(), reader.config, reader.files, reader.message.journal, reader.message.queue
    ensures var after := AfterAll(t, ops);
            Follows(reader, after, info, i) && Followed(reader, after.key, info, i, start, was, longer)
    ensures sent <= longer
  {
    hide Follows, Followed, Fair, After, Reader.Streams;
    longer := sent;
    ghost var now := t;
    assert ops[0..] == ops;
    for n := 0 to |ops|
      invariant Follows(reader, now, info, i) && Followed(reader, now.key, info, i, start, was, longer)
                && sent <= longer
      invariant AllFair(now, info, i, ops[n..]) && AfterAll(now, ops[n..]) == AfterAll(t, ops)
      invariant forall fs | fs in reader.Streams() :: fs in old(reader.Streams()) || fresh(fs)
    {
      assert ops[n..][0] == ops[n] && ops[n..][1..] == ops[n + 1..];
      longer := Step(reader, ops[n], now, info, i, start, was, longer);
      now := After(now, ops[n]);
    }
  }

  // ----- what was sent, as a function of the file -----

  /** The message that a piece should come out as. */
  function MessageOf(info: Info, piece: seq<Byte>): MessageItem {
    MessageItem(-1, 0, info.topicName, if info.isBinary then piece else info.format.pre + piece + info.format.post)
  }

  function MessagesOf(info: Info, pieces: seq<seq<Byte>>): (r: seq<MessageItem>)
    ensures |r| == |pieces| && forall j | 0 <= j < |r| :: r[j] == MessageOf(info, pieces[j])
  {
    seq(|pieces|, j requires 0 <= j < |pieces| => MessageOf(info, pieces[j]))
  }

  /** The bytes between two offsets. */
  function Between(bytes: seq<Byte>, start: nat, offset: nat): seq<Byte> {
    if start <= offset <= |bytes| then bytes[start..offset] else []
  }

  /** Bytes that come out as they should: frames always do, lines if nothing follows the directive in the
      format and they have no zeros. */
  predicate Clean(info: Info, bytes: seq<Byte>) {
    info.isBinary || (info.format.post == [] && 0 !in bytes)
  }

  /** The bytes of a line are bytes of the text. */
  lemma {:induction false} LinesWithin(s: seq<Byte>, x: Byte)
    requires x !in s
    ensures forall p | p in Lines(s) :: x !in p
    decreases s
  {
    var k := Upto(s, NEWLINE);
    if k < |s| {
      LinesWithin(s[k + 1..], x);
    }
  }

  lemma ShownClean(info: Info, s: Sent)
    requires IsShown(s) && s.format == FormatOf(info) && Clean(info, s.piece)
    ensures ItemFor(info.topicName, s) == MessageOf(info, s.piece)
  {
    if !info.isBinary {
      var m :| s.body == Shown(info.format, s.piece, m);
      ShownIsFormatted(info.format, s.piece, m);
    }
  }

  lemma CleanPieces(info: Info, bytes: seq<Byte>, p: seq<Byte>)
    requires Clean(info, bytes) && p in Pieces(info.isBinary, bytes)
    ensures Clean(info, p)
  {
    if !info.isBinary {
      LinesWithin(bytes, 0);
    }
  }

  /** Since the beginning of the run the queue took from inode i exactly the messages of the pieces between
      the two offsets, once each and in their order. */
  lemma ExactlyOnce(reader: Reader, key: Name, info: Info, i: nat, start: nat, was: seq<Entry>, sent: seq<Sent>)
    requires Followed(reader, key, info, i, start, was, sent) && i in reader.files.data
    requires Clean(info, Between(reader.files.data[i], start, OffsetOf(reader, key)))
    ensures was <= reader.message.journal.entries
    ensures ItemsOf(Of(Since(was, reader.message.journal.entries), i))
            == MessagesOf(info, Pieces(info.isBinary, Between(reader.files.data[i], start, OffsetOf(reader, key))))
  {
    hide IsShown, FilePieces.Whole, Pieces, Clean, Of, Since;
    var bytes := Between(reader.files.data[i], start, OffsetOf(reader, key));
    var pieces := Pieces(info.isBinary, bytes);
    if OffsetOf(reader, key) == start {
      assert bytes == [];
      NoPieces(info.isBinary);
    }
    assert PiecesIn(sent) == pieces;
    forall j | 0 <= j < |sent| ensures ItemFor(info.topicName, sent[j]) == MessageOf(info, pieces[j]) {
      CleanPieces(info, bytes, pieces[j]);
      ShownClean(info, sent[j]);
    }
    assert |ItemsOf(EntriesFor(info.topicName, i, sent))| == |pieces|;
  }

  // ----- a renaming is fair -----

  /** A file that was read is renamed, another takes its old name, and it is read on under its new one, any time
      before the waiting time is over. */
  function Rotation(path: Name, log: Name, saved: Name, i: nat, time: nat, later: nat): seq<Op> {
    [Changed(Rename(log, saved)),
     ReadFile(Event(path, log, [], Modify), time, false, true, 1, []),
     MovedSelf(Event(path, log, [], Modify), time),
     Changed(Create(log, i + 1)),
     MovedTo(Event(path, saved, log, Modify)),
     ReadFile(Event(path, saved, [], Modify), later, false, true, 1, []),
     Popped]
  }

  lemma FairFirst(t: Track, info: Info, i: nat, op: Op, ops: seq<Op>)
    requires Fair(t, info, i, op) && AllFair(After(t, op), info, i, ops)
    ensures AllFair(t, info, i, [op] + ops) && AfterAll(t, [op] + ops) == AfterAll(After(t, op), ops)
  {
    Consed(op, ops);
  }

  lemma RotationIsFair(info: Info, i: nat, path: Name, log: Name, saved: Name, time: nat,
      later: nat)
    requires log != saved && info.moveTime == 0
    requires time <= later <= time + info.timeWait && later - time < TWO_32 && info.timeWait < TWO_32
    ensures var t, ops := Track(log, path, 0, true, map[log := i], {i}, {}, {log}),
            Rotation(path, log, saved, i, time, later);
            AllFair(t, info, i, ops) && AfterAll(t, ops).key == saved
  {
    hide AllFair, AfterAll, Fair, After;
    var ops := Rotation(path, log, saved, i, time, later);
    var t0 := Track(log, path, 0, true, map[log := i], {i}, {}, {log});
    var t1 := t0.(names := map[saved := i]);
    var t2 := t1.(moveTime := time);
    var t3 := t2.(names := map[saved := i, log := i + 1], inodes := {i, i + 1});
    var t4 := t3.(key := saved, aliases := {(log, saved)}, taken := {log, saved});
    assert ops[3..] == [ops[3]] + ([ops[4]] + ([ops[5]] + ([ops[6]] + [])));
    assert ops[2..] == [ops[2]] + ops[3..] && ops[1..] == [ops[1]] + ops[2..] && ops == [ops[0]] + ops[1..];
    RotationSteps(info, i, path, log, saved, time, later);
    FairNone(t4, info, i);
    FairFirst(t4, info, i, ops[6], []);
    FairFirst(t4, info, i, ops[5], [ops[6]] + []);
    FairFirst(t3, info, i, ops[4], [ops[5]] + ([ops[6]] + []));
    FairFirst(t2, info, i, ops[3], [ops[4]] + ([ops[5]] + ([ops[6]] + [])));
    FairFirst(t1, info, i, ops[2], ops[3..]);
    FairFirst(t1, info, i, ops[1], ops[2..]);
    FairFirst(t0, info, i, ops[0], ops[1..]);
  }

  lemma RotationSteps(info: Info, i: nat, path: Name, log: Name, saved: Name, time: nat,
      later: nat)
    requires log != saved && info.moveTime == 0
    requires time <= later <= time + info.timeWait && later - time < TWO_32 && info.timeWait < TWO_32
    ensures var t0, ops := Track(log, path, 0, true, map[log := i], {i}, {}, {log}),
            Rotation(path, log, saved, i, time, later);
            var t1 := t0.(names := map[saved := i]);
            var t2 := t1.(moveTime := time);
            var t3 := t2.(names := map[saved := i, log := i + 1], inodes := {i, i + 1});
            var t4 := t3.(key := saved, aliases := {(log, saved)}, taken := {log, saved});
            && Fair(t0, info, i, ops[0]) && After(t0, ops[0]) == t1
            && Fair(t1, info, i, ops[1]) && After(t1, ops[1]) == t1
            && Fair(t1, info, i, ops[2]) && After(t1, ops[2]) == t2
            && Fair(t2, info, i, ops[3]) && After(t2, ops[3]) == t3
            && Fair(t3, info, i, ops[4]) && After(t3, ops[4]) == t4
            && Fair(t4, info, i, ops[5]) && After(t4, ops[5]) == t4
            && Fair(t4, info, i, ops[6]) && After(t4, ops[6]) == t4
  {
    TimedOutIs(info.(moveTime := time), later);
  }

  lemma FairNone(t: Track, info: Info, i: nat)
    ensures AllFair(t, info, i, []) && AfterAll(t, []) == t
  {
  }
}
