/** What a restart makes of a file that has taken over a name: its reading resumes where that of the file which
    had the name before has come, because the inode in the offset file is not looked at. */
module Resuming {
  import opened Bytes
  import opened Configs
  import opened Events
  import opened EventThreads
  import opened FilePieces
  import opened Lives
  import opened MessageFlow
  import opened Names
  import opened OffsetStores
  import opened Options
  import opened ReaderRuns
  import opened Readers
  import opened Scanning
  import opened Snapshots
  import opened Tails
  import opened TextLines

  /** A line of the file begins ahead of the offset. */
  ghost predicate LineBefore(bytes: seq<Byte>, offset: nat) {
    exists p, q | 0 <= p < q < |bytes| :: p < offset && bytes[p] != NEWLINE && bytes[q] == NEWLINE
  }

  lemma SomeLine(x: seq<Byte>, p: seq<Byte>)
    requires NEWLINE !in p && p != []
    ensures Lines(x + p + [NEWLINE]) != []
  {
    var s := x + p + [NEWLINE];
    LinesNone(s);
    assert s[|x|] == p[0] && s[|x| + |p|] == NEWLINE;
  }

  /** What stands ahead of the last line makes it longer, or makes a line of its own. */
  lemma {:induction false} MoreLines(a: seq<Byte>, p: seq<Byte>)
    requires NEWLINE !in p && exists i | 0 <= i < |a| :: a[i] != NEWLINE
    ensures Lines(a + p + [NEWLINE]) != if p == [] then [] else [p]
    decreases a
  {
    hide Lines;
    var k := Upto(a, NEWLINE);
    if k == |a| {
      assert a[..k] == a;
      LinesOpen(a + p);
      assert |a + p| != |p|;
    } else {
      var w, rest := a[..k], a[k + 1..];
      assert a + p + [NEWLINE] == w + [NEWLINE] + (rest + p + [NEWLINE]);
      LinesStep(w, rest + p + [NEWLINE]);
      if k == 0 {
        assert forall i | 0 < i < |a| :: rest[i - 1] == a[i];
        MoreLines(rest, p);
      } else if p != [] {
        SomeLine(rest, p);
      }
    }
  }

  /** When a newline is ahead, lines are missing unless only newlines stand behind. */
  lemma LinesMissing(a: seq<Byte>, b: seq<Byte>)
    requires NEWLINE in b
    ensures Lines(b) == Lines(a + b) <==> forall i | 0 <= i < |a| :: a[i] == NEWLINE
  {
    hide Lines;
    if forall i | 0 <= i < |a| :: a[i] == NEWLINE {
      LinesBlank(a);
      LinesAppend(a, b);
    } else {
      var m := Upto(b, NEWLINE);
      assert b[..|b|] == b;
      var p, rest := b[..m], b[m + 1..];
      LinesStep(p, rest);
      assert b == p + [NEWLINE] + rest && a + b == (a + p + [NEWLINE]) + rest;
      LinesAppend(a + p + [NEWLINE], rest);
      MoreLines(a, p);
      Differ(if p == [] then [] else [p], Lines(a + p + [NEWLINE]), Lines(rest));
    }
  }

  lemma Differ<T>(x: seq<T>, y: seq<T>, z: seq<T>)
    requires x != y
    ensures x + z != y + z
  {
    if |x| == |y| {
      assert (x + z)[..|x|] == x && (y + z)[..|y|] == y;
    }
  }

  lemma LineBeforeIs(a: seq<Byte>, b: seq<Byte>)
    requires NEWLINE in b
    ensures LineBefore(a + b, |a|) <==> exists i | 0 <= i < |a| :: a[i] != NEWLINE
  {
    var s := a + b;
    var j :| 0 <= j < |b| && b[j] == NEWLINE;
    assert s[|a| + j] == NEWLINE;
    if i :| 0 <= i < |a| && a[i] != NEWLINE {
      assert s[i] != NEWLINE;
    }
    if LineBefore(s, |a|) {
      var p, q :| 0 <= p < q < |s| && p < |a| && s[p] != NEWLINE && s[q] == NEWLINE;
      assert a[p] != NEWLINE;
    }
  }

  /** From an offset on all lines of the file are found exactly if none begins ahead of it. */
  lemma ResumedText(bytes: seq<Byte>, offset: nat)
    ensures Lines(Ahead(bytes, offset)) == Lines(bytes) <==> !LineBefore(bytes, offset)
  {
    hide Lines;
    var b := Ahead(bytes, offset);
    if NEWLINE !in b {
      LinesOpen(b);
      NoneAhead(bytes, offset);
      LinesNone(bytes);
    } else {
      var a := bytes[..offset];
      assert bytes == a + b;
      LinesMissing(a, b);
      LineBeforeIs(a, b);
    }
  }

  lemma NoneAhead(bytes: seq<Byte>, offset: nat)
    requires NEWLINE !in Ahead(bytes, offset)
    ensures forall q | offset <= q < |bytes| :: bytes[q] != NEWLINE
  {
    forall q | offset <= q < |bytes| ensures bytes[q] != NEWLINE {
      assert bytes[q] == Ahead(bytes, offset)[q - offset];
    }
  }

  /** What was sent of a text that was read from start to its end. */
  lemma ReadOutText(bytes: seq<Byte>, start: nat, offset: nat, i: nat, data: FileData, sent: seq<Sent>)
    requires i in data && data[i] == bytes && Faithful(Tail(Some((i, false)), start, sent), offset, data)
    requires Exhausted(false, Ahead(bytes, offset), 0) && EOF !in bytes
    ensures PiecesIn(sent) == Lines(Ahead(bytes, start))
  {
    hide Lines, Upto, AllShown, Exhausted;
    var rest := Ahead(bytes, offset);
    BehindEof(rest);
    assert Passable(rest) by {
      UptoIs(rest, EOF, |rest|);
    }
    if offset == start {
      assert PiecesIn(sent) == [];
    } else {
      var a := bytes[start..offset];
      assert Ahead(bytes, start) == a + rest;
      LinesAppend(a, rest);
      assert Lines(a) + [] == Lines(a);
    }
  }

  /** Saves the offsets, without a crash, just before the program ends. */
  method Leave(reader: Reader, disk: Disk, offsetFile: Name, stats: Stats, k: Name)
    requires reader.Valid() && Savable(reader.fdMap) && IsSaved(reader.fdMap, reader.config.fileMap, stats, k)
    modifies disk
    ensures var found := Snapshots.Found(disk.files, offsetFile);
            k in found && found[k].offset == reader.fdMap[k].offset
  {
    hide ByFile, RecordsFrom, DiskOk;
    ghost var history := AnyDisk(disk.files, offsetFile);
    var crashed := Save(reader, disk, offsetFile, stats, true, |reader.fdMap| + 2, 0, history);
  }

  /** The names after a file was renamed and another one has taken its name. */
  function Rotated(names: map<Name, nat>, k: Name, moved: Name, j: nat): map<Name, nat>
    requires k in names
  {
    (names - {k})[moved := names[k]][k := j]
  }

  method Rotate(files: Files, k: Name, moved: Name, j: nat, bytes: seq<Byte>)
    requires files.Valid() && k in files.names && moved != k && j !in files.data
    modifies files
    ensures files.Valid() && files.names == Rotated(old(files.names), k, moved, j)
    ensures files.data == old(files.data)[j := bytes]
  {
    files.Rename(k, moved);
    files.Create(k, j);
    files.Append(j, bytes);
    assert [] + bytes == bytes;
  }

  /** The program starts and reads file j, which it finds under this name, to its end. */
  method Enter(files: Files, disk: Disk, journal: Journal, event: Event, ghost info: Info, settings: Settings,
      lastTime: int, moveProtected: bool, ghost j: nat, ghost offset: nat, now: int, running: nat, memory: seq<Memory>)
    returns (reader: Reader, ghost sent: seq<Sent>)
    requires files.Valid() && event.origfile in files.names && files.names[event.origfile] == j && j in files.data
    requires event.origfile in Snapshots.Found(disk.files, settings.offsetFile)
    requires Snapshots.Found(disk.files, settings.offsetFile)[event.origfile].offset == offset
    requires Configurable(settings) && event.pathfile in settings.fileMap && settings.fileMap[event.pathfile] == info
    requires info.moveTime == 0 && event.event == Modify && Roomy(settings, info.isBinary, files.data[j], running)
    modifies journal
    ensures reader.files == files && reader.message.journal == journal
    ensures Followed(reader, event.origfile, info, j, offset, old(journal.entries), sent)
    ensures Exhausted(info.isBinary, Ahead(files.data[j], OffsetOf(reader, event.origfile)), 0)
  {
    hide Reader.Valid, Reader.Exact, Reader.Opened, Snapshots.Found, Tracking, Followed, Exhausted, Short;
    var config := new Config(settings.order, settings.fileMap);
    var message := new Message(disk, journal, settings.limit, settings.sendError);
    reader := Start(config, files, message, settings.maxfd, settings.maxLines, settings.maxLineBytes, disk,
        settings.offsetFile, lastTime, moveProtected);
    assert Tracking(reader, event, info, j) by {
      EnterTracked(reader, event, info, j);
    }
    FollowedNothing(reader, event.origfile, info, j);
    assert OffsetOf(reader, event.origfile) == offset;
    assert reader.Opened().Keys + {event.origfile} == {event.origfile};
    ghost var streams: set<object> := reader.Streams();
    var thread := new EventThread(reader);
    assert thread !in streams;
    thread.queue := [event];
    sent := thread.Drain(event, info, j, now, running, memory, offset, journal.entries, []);
  }

  lemma EnterTracked(reader: Reader, event: Event, info: Info, i: nat)
    requires reader.Valid() && reader.aliasMap == map[] && i in reader.files.data && info.moveTime == 0
    requires event.origfile in reader.files.names && reader.files.names[event.origfile] == i
    requires event.origfile in reader.tails ==> reader.tails[event.origfile].source.None?
    requires reader.config.FindFile(event.pathfile) == Some(info)
    ensures Tracking(reader, event, info, i)
  {
  }

  lemma NothingBehind(bytes: seq<Byte>, start: nat, offset: nat, i: nat, binary: bool, data: FileData, sent: seq<Sent>)
    requires i in data && data[i] == bytes && Faithful(Tail(Some((i, binary)), start, sent), offset, data)
    ensures |bytes| <= start ==> sent == []
  {
    hide AllShown, Pieces, FilePieces.Whole;
  }

  /** The offsets are saved, the file is renamed, another one takes its name, and the program starts anew.
      Reading the new file to its end sends only what is behind the offset of the old one: nothing if it is
      not longer than that, and all lines exactly if none begins ahead of that. */
  method TakenOver(reader: Reader, disk: Disk, event: Event, ghost info: Info, settings: Settings, stats: Stats,
      moved: Name, j: nat, bytes: seq<Byte>, lastTime: int, moveProtected: bool, now: int, running: nat,
      memory: seq<Memory>)
    returns (newer: Reader, ghost sent: seq<Sent>)
    requires reader.Valid() && Savable(reader.fdMap)
    requires IsSaved(reader.fdMap, reader.config.fileMap, stats, event.origfile)
    requires event.origfile in reader.files.names && moved != event.origfile && j !in reader.files.data
    requires Configurable(settings) && event.pathfile in settings.fileMap && settings.fileMap[event.pathfile] == info
    requires info.moveTime == 0 && event.event == Modify && Roomy(settings, info.isBinary, bytes, running)
    modifies reader.files, reader.message.journal, disk
    ensures newer.files == reader.files && newer.message.journal == reader.message.journal
    ensures reader.files.names == Rotated(old(reader.files.names), event.origfile, moved, j)
    ensures reader.files.data == old(reader.files.data)[j := bytes]
    ensures Followed(newer, event.origfile, info, j, old(reader.fdMap[event.origfile].offset),
                     old(reader.message.journal.entries), sent)
    ensures Exhausted(info.isBinary, Ahead(bytes, OffsetOf(newer, event.origfile)), 0)
    ensures |bytes| <= old(reader.fdMap[event.origfile].offset) ==> sent == []
    ensures !info.isBinary && EOF !in bytes ==>
              (PiecesIn(sent) == Lines(bytes) <==> !LineBefore(bytes, old(reader.fdMap[event.origfile].offset)))
  {
    hide Reader.Valid, Savable, Reader.Exact, Exhausted, LineBefore, Lines, Snapshots.Found, Configurable, Faithful;
    ghost var k, offset := event.origfile, reader.fdMap[event.origfile].offset;
    ValidFiles(reader);
    Leave(reader, disk, settings.offsetFile, stats, event.origfile);
    Rotate(reader.files, event.origfile, moved, j, bytes);
    newer, sent := Enter(reader.files, disk, reader.message.journal, event, info, settings, lastTime, moveProtected, j,
        offset, now, running, memory);
    NothingBehind(bytes, offset, OffsetOf(newer, k), j, info.isBinary, reader.files.data, sent);
    if !info.isBinary && EOF !in bytes {
      ReadOutText(bytes, offset, OffsetOf(newer, k), j, reader.files.data, sent);
      ResumedText(bytes, offset);
    }
  }

  lemma ValidFiles(reader: Reader)
    requires reader.Valid()
    ensures reader.files.Valid()
  {
  }

  /** A file of one line that takes over the name of a file of two bytes which was read to its end: the line is
      never sent. */
  lemma LineSkipped()
    ensures var bytes: seq<Byte> := [98, NEWLINE];
            Lines(bytes) == [[98]] && LineBefore(bytes, 2) && Ahead(bytes, 2) == []
  {
    var bytes: seq<Byte> := [98, NEWLINE];
    assert bytes == [98] + [NEWLINE] && bytes[0] != NEWLINE && bytes[1] == NEWLINE;
    LinesOpen([98]);
  }
}
