/** A run in which an event under an old name makes the reader lose track of what it sent. */
module OldNames {
  import opened Bytes
  import opened Configs
  import opened Events
  import opened MessageFlow
  import opened Names
  import opened Options
  import opened ReaderRuns
  import opened Readers
  import opened Scanning
  import opened Tails
  import opened TextLines

  const PATH: Name := [112]
  const LOG: Name := [108]
  const SAVED: Name := [115]
  const LINE: seq<Byte> := [120, NEWLINE]

  lemma LineAhead()
    ensures !NothingAhead(false, Ahead(LINE, 0), 10)
  {
    hide Lines, Upto, Blank;
    var bytes: seq<Byte> := [120, NEWLINE];
    assert Ahead(LINE, 0) == bytes && bytes[0..] == bytes && bytes == [120] + [NEWLINE];
    UptoIs(bytes, EOF, 2);
    assert bytes[..2] == bytes;
    LinesOpen([120]);
    BlankIs(bytes, 0);
    UptoIs(bytes, NEWLINE, 1);
  }

  /** The reader knows one file and has not sent anything of it. */
  ghost predicate KnowsFile(reader: Reader, info: Info, name: Name)
    reads reader, reader.Streams(), reader.files, reader.config, reader.message.queue
  {
    && reader.Valid() && reader.Exact() && reader.fdMap.Keys == {name} && reader.fdMap[name].offset == 0
    && name in reader.tails && reader.tails[name].source == Some((1, false))
    && reader.config.FindFile(PATH) == Some(info) && reader.maxfd == 1 && reader.maxLineBytes == 10
    && reader.message.limit == 1 && reader.message.queue.items == []
  }

  method NewReader(info: Info) returns (reader: Reader)
    ensures fresh(reader) && fresh(reader.files) && fresh(reader.config)
    ensures fresh(reader.message.journal) && fresh(reader.message.queue)
    ensures reader.Valid() && reader.Exact() && reader.fdMap == map[] && reader.tails == map[]
            && reader.aliasMap == map[]
    ensures reader.config.FindFile(PATH) == Some(info) && reader.maxfd == 1 && reader.maxLineBytes == 10
    ensures reader.message.limit == 1 && reader.message.queue.items == []
    ensures reader.files.names == map[LOG := 1] && reader.files.data == map[1 := []]
  {
    hide Reader.Valid, Reader.Exact;
    var config := new Config([PATH], map[PATH := info]);
    var files := new Files();
    files.Create(LOG, 1);
    var disk := new Disk();
    var journal := new Journal();
    var message := new Message(disk, journal, 1, []);
    reader := new Reader(config, files, message, 1, 10, 10);
  }

  lemma NothingRead(reader: Reader, before: Before, info: Info, offset: nat, isContinue: bool, n: nat, sent: seq<Sent>)
    requires !info.isBinary && reader.files.data == map[1 := []] && before.fdMap == map[] && before.queued == []
    requires reader.HasRead(before, LOG, LOG, info, Tail(None, 0, []), 0, 1, 1, isContinue, n, sent)
    ensures reader.fdMap.Keys == {LOG} && reader.fdMap[LOG].offset == 0 && sent == []
    ensures LOG in reader.tails && reader.tails[LOG].source == Some((1, false)) && reader.message.queue.items == []
  {
    hide Took, Exhausted, TooLong;
  }

  /** An empty file is opened. */
  method FirstRead(info: Info) returns (reader: Reader)
    requires !info.isBinary && info.moveTime == 0
    ensures fresh(reader) && fresh(reader.files) && fresh(reader.config) && fresh(reader.Streams())
    ensures fresh(reader.message.journal) && fresh(reader.message.queue)
    ensures KnowsFile(reader, info, LOG) && reader.aliasMap == map[]
    ensures reader.files.names == map[LOG := 1] && reader.files.data == map[1 := []]
  {
    hide Reader.Valid, Reader.Exact, Reader.Opened, Reader.HasRead, Reader.HasReadSo, Reader.ReadSo;
    reader := NewReader(info);
    NoneOpen(reader);
    ghost var before := reader.Look();
    var isContinue;
    ghost var from, n, sent;
    isContinue, from, n, sent := reader.Read(Event(PATH, LOG, [], Modify), 0, false, true, 1, []);
    ReadMeans(reader, before, Event(PATH, LOG, [], Modify), info, 0, true, 1, isContinue, from, n, sent);
    NothingRead(reader, before.Start(), info, 0, isContinue, n, sent);
  }

  lemma NoneOpen(reader: Reader)
    requires reader.Valid() && reader.fdMap.Keys <= {LOG}
    ensures |reader.Opened()| <= 1 && (reader.fdMap == map[] ==> reader.Opened() == map[])
  {
    Fewer(reader.Opened().Keys, {LOG});
    assert |reader.Opened()| == |reader.Opened().Keys|;
  }

  /** The file is renamed and written to, and the reader hears of its new name. */
  method Renaming(info: Info) returns (reader: Reader)
    requires !info.isBinary && info.moveTime == 0
    ensures fresh(reader) && fresh(reader.files) && fresh(reader.config) && fresh(reader.Streams())
    ensures fresh(reader.message.journal) && fresh(reader.message.queue)
    ensures KnowsFile(reader, info, SAVED) && reader.aliasMap == map[LOG := SAVED]
    ensures reader.files.names == map[SAVED := 1] && reader.files.data == map[1 := LINE]
  {
    hide Reader.Valid, Reader.Exact, Reader.Opened, Faithful;
    reader := FirstRead(info);
    ChangeBeside(reader, Rename(LOG, SAVED));
    ChangeBeside(reader, Append(1, LINE));
    assert [] + LINE == LINE;
    reader.MoveTo(Event(PATH, SAVED, LOG, MoveTo));
  }

  /** The file has one line, which is sent if anything is. */
  lemma OneLine(n: nat, pieces: seq<seq<Byte>>)
    requires Took(false, Ahead(LINE, 0), n, pieces) && pieces != []
    ensures pieces == [[120]]
  {
    hide Lines;
    var bytes: seq<Byte> := [120, NEWLINE];
    assert Ahead(LINE, 0) == bytes && bytes[..2] == bytes == [120] + [NEWLINE];
    LinesOpen([120]);
    assert bytes[..0] == [] && bytes[..1] == [120];
    LinesOpen([]);
  }

  /** An event that sends the line, whose file is at the beginning for the reader. */
  method SendLine(reader: Reader, info: Info, name: Name, memory: seq<Memory>)
    requires !info.isBinary && info.moveTime == 0 && reader.Target(name) == SAVED
    requires reader.Valid() && reader.fdMap.Keys == {SAVED} && reader.fdMap[SAVED].offset == 0
    requires SAVED in reader.tails && reader.tails[SAVED].source == Some((1, false))
    requires reader.config.FindFile(PATH) == Some(info) && reader.maxfd == 1 && reader.maxLineBytes == 10
    requires reader.message.limit == 1 && |reader.message.queue.items| <= 1
    requires reader.files.names == map[SAVED := 1] && reader.files.data == map[1 := LINE]
    modifies reader, reader.Streams(), reader.config, reader.message.journal, reader.message.queue
    ensures reader.Valid() && reader.fdMap.Keys == {SAVED} && reader.aliasMap == old(reader.aliasMap)
    ensures SAVED in reader.tails && reader.tails[SAVED].source == Some((1, false))
    ensures reader.fdMap[SAVED].offset == if name == SAVED then 2 else 0
    ensures reader.config.FindFile(PATH) == Some(info)
    ensures old(reader.Exact()) ==> (reader.Exact() <==> name == SAVED)
    ensures forall fs | fs in reader.Streams() :: fs in old(reader.Streams()) || fresh(fs)
    ensures |reader.message.queue.items| == |old(reader.message.queue.items)| + 1
    ensures |reader.message.journal.entries| == |old(reader.message.journal.entries)| + 1
  {
    hide Reader.Valid, Reader.Exact, Reader.Opened, NothingAhead, Reader.HasRead, Reader.HasReadSo, Reader.ReadSo;
    FewOpen(reader, info);
    var isContinue;
    ghost var from, n, sent;
    ghost var before, last := reader.Look(), reader.LastTail(SAVED, info, 0);
    isContinue, from, n, sent := reader.Read(Event(PATH, name, [], Modify), 0, false, true, 3, memory);
    ReadMeans(reader, before, Event(PATH, name, [], Modify), info, 0, true, 3, isContinue, from, n, sent);
    LineSent(reader, before.Start(), info, name, last, isContinue, n, sent);
  }

  lemma LineSent(reader: Reader, before: Before, info: Info, name: Name, last: Tail, isContinue: bool, n: nat,
      sent: seq<Sent>)
    requires !info.isBinary && reader.files.data == map[1 := LINE] && before.fdMap.Keys == {SAVED}
    requires reader.maxLineBytes == 10 && reader.message.limit == 1 && |before.queued| <= 1
    requires reader.HasRead(before, SAVED, name, info, last, 0, 1, 3, isContinue, n, sent)
    ensures |sent| == 1 && n == 2
    ensures reader.fdMap.Keys == {SAVED} && reader.fdMap[SAVED].offset == if name == SAVED then 2 else 0
    ensures SAVED in reader.tails && reader.tails[SAVED].source == Some((1, false))
    ensures |reader.message.queue.items| == |before.queued| + 1
    ensures |reader.message.journal.entries| == |before.entries| + 1
  {
    hide NothingAhead, TooLong, Exhausted, Took;
    LineAhead();
    OneLine(n, PiecesIn(sent));
    AllRead(n, PiecesIn(sent));
  }

  lemma AllRead(n: nat, pieces: seq<seq<Byte>>)
    requires Took(false, Ahead(LINE, 0), n, pieces) && pieces != []
    ensures n == 2
  {
    hide Lines;
    var bytes: seq<Byte> := [120, NEWLINE];
    assert Ahead(LINE, 0) == bytes;
    assert bytes[..0] == [] && bytes[..1] == [120];
    LinesOpen([]);
    LinesOpen([120]);
  }

  lemma FewOpen(reader: Reader, info: Info)
    requires reader.Valid() && reader.fdMap.Keys == {SAVED} && reader.fdMap[SAVED].offset == 0 && info.moveTime == 0
    requires SAVED in reader.tails && reader.tails[SAVED].source == Some((1, false))
    ensures |reader.Opened()| <= 1 && (SAVED in reader.Opened() ==> reader.Opened()[SAVED] == 1)
    ensures reader.LastOffset(SAVED, info, 0) == 0
  {
    Fewer(reader.Opened().Keys, {SAVED});
    assert |reader.Opened()| == |reader.Opened().Keys|;
  }

  /** An event under the old name, which was queued before the file was renamed, sends the line that was written
      since but does not move the offset. */
  method LineMisdirected(info: Info, memory: seq<Memory>) returns (reader: Reader)
    requires !info.isBinary && info.moveTime == 0
    ensures fresh(reader) && fresh(reader.files) && fresh(reader.config) && fresh(reader.Streams())
    ensures fresh(reader.message.journal) && fresh(reader.message.queue)
    ensures reader.Valid() && !reader.Exact() && reader.aliasMap == map[LOG := SAVED]
    ensures reader.fdMap.Keys == {SAVED} && reader.fdMap[SAVED].offset == 0
    ensures SAVED in reader.tails && reader.tails[SAVED].source == Some((1, false))
    ensures reader.config.FindFile(PATH) == Some(info) && reader.maxfd == 1 && reader.maxLineBytes == 10
    ensures reader.message.limit == 1 && |reader.message.queue.items| == 1
    ensures reader.files.names == map[SAVED := 1] && reader.files.data == map[1 := LINE]
  {
    hide Reader.Valid, Reader.Exact, Reader.Opened;
    reader := Renaming(info);
    SendLine(reader, info, LOG, memory);
  }

  /** The next event under the new name sends the same line again. */
  method LineSentTwice(info: Info, memory: seq<Memory>) returns (reader: Reader)
    requires !info.isBinary && info.moveTime == 0
    ensures reader.Valid() && reader.aliasMap == map[LOG := SAVED]
    ensures reader.files.names == map[SAVED := 1] && reader.files.data == map[1 := LINE]
    ensures SAVED in reader.fdMap && reader.fdMap[SAVED].offset == 2 && |reader.message.queue.items| == 2
  {
    hide Reader.Valid, Reader.Exact, Reader.Opened;
    reader := LineMisdirected(info, memory);
    SendLine(reader, info, SAVED, memory);
  }
}
