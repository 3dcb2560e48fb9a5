/** Reading a file over crashes and restarts: no piece of it is skipped. */
module Lives {
  import opened Bytes
  import opened Configs
  import opened Events
  import opened EventThreads
  import opened FilePieces
  import opened Following
  import opened MessageFlow
  import opened Names
  import opened Numbers
  import opened OffsetStores
  import opened Options
  import opened ReaderRuns
  import opened Readers
  import opened Scanning
  import opened Sequences
  import opened Snapshots
  import opened Tails
  import opened TextLines

  /** The first n bytes end where a piece ends. */
  ghost predicate Boundary(binary: bool, bytes: seq<Byte>, n: nat) {
    n <= |bytes| && FilePieces.Whole(binary, bytes[..n])
  }

  /** Of the first n bytes every piece was sent at least once. */
  ghost predicate Caught(binary: bool, bytes: seq<Byte>, n: nat, sent: seq<Sent>) {
    Boundary(binary, bytes, n) && forall p | p in Pieces(binary, bytes[..n]) :: p in PiecesIn(sent)
  }

  lemma CaughtNothing(binary: bool, bytes: seq<Byte>)
    ensures Caught(binary, bytes, 0, []) && Boundary(binary, bytes, 0)
  {
    assert bytes[..0] == [];
    NoPieces(binary);
  }

  lemma BoundaryGrows(binary: bool, bytes: seq<Byte>, more: seq<Byte>, n: nat)
    requires bytes <= more
    ensures Boundary(binary, bytes, n) ==> Boundary(binary, more, n)
  {
    if n <= |bytes| {
      assert more[..n] == bytes[..n];
    }
  }

  /** A life that starts at or behind what was caught before and reads on from there catches all up to
      where it has come. */
  lemma Catch(i: nat, binary: bool, data: FileData, base: nat, earlier: seq<Sent>, was: nat, life: seq<Sent>,
      offset: nat)
    requires i in data && Caught(binary, data[i], base, earlier)
    requires was <= base && Boundary(binary, data[i], was)
    requires Faithful(Tail(Some((i, binary)), was, life), offset, data)
    ensures Caught(binary, data[i], Max(base, offset), earlier + life) && Boundary(binary, data[i], offset)
  {
    hide FilePieces.Whole, Pieces, AllShown;
    var bytes := data[i];
    PiecesInAppend(earlier, life);
    if offset == was {
      assert earlier + life == earlier;
    } else {
      var a, b := bytes[..was], bytes[was..offset];
      assert bytes[..offset] == a + b;
      PiecesAppend(binary, a, b);
      var c := bytes[was..base];
      assert bytes[..base] == a + c;
      PiecesAppend(binary, a, c);
    }
  }

  /** Every snapshot has the file at most where reading has come, and where a piece ends. */
  ghost predicate Past(history: History, k: Name, binary: bool, bytes: seq<Byte>, top: nat) {
    forall j | 0 <= j < |history| :: k in history[j] ==>
        history[j][k].offset <= top && Boundary(binary, bytes, history[j][k].offset)
  }

  lemma PastGrows(history: History, k: Name, binary: bool, bytes: seq<Byte>, top: nat, more: seq<Byte>, higher: nat)
    requires Past(history, k, binary, bytes, top) && bytes <= more && top <= higher
    ensures Past(history, k, binary, more, higher)
  {
    hide Boundary;
    forall j | 0 <= j < |history| && k in history[j]
      ensures history[j][k].offset <= higher && Boundary(binary, more, history[j][k].offset)
    {
      BoundaryGrows(binary, bytes, more, history[j][k].offset);
    }
  }

  /** No snapshot tells of other names than these. */
  ghost predicate Told(history: History, taken: set<Name>) {
    forall j | 0 <= j < |history| :: history[j].Keys <= taken
  }

  lemma ToldMore(history: History, taken: set<Name>, more: set<Name>, snapshot: map<Name, Loaded>)
    requires Told(history, taken) && taken <= more
    ensures Told(history, more) && (snapshot.Keys <= more ==> Told(history + [snapshot], more))
  {
    var longer := history + [snapshot];
    assert forall j | 0 <= j < |history| :: longer[j] == history[j];
  }

  /** Of a name that no snapshot tells of, any bound holds. */
  lemma PastFree(history: History, taken: set<Name>, k: Name, binary: bool, bytes: seq<Byte>, top: nat)
    requires Told(history, taken) && k !in taken
    ensures Past(history, k, binary, bytes, top)
  {
  }

  /** What a start finds is nothing, or what some snapshot told. */
  lemma FoundPast(files: map<Name, seq<Byte>>, offsetFile: Name, history: History, taken: set<Name>, k: Name,
      binary: bool, bytes: seq<Byte>, top: nat)
    requires DiskOk(files, offsetFile, history) && Past(history, k, binary, bytes, top) && Told(history, taken)
    ensures var found := Found(files, offsetFile);
            && found.Keys <= taken
            && (k in found ==> found[k].offset <= top && Boundary(binary, bytes, found[k].offset))
  {
    hide Boundary, RecordsFrom, ByFile;
  }

  /** One life of the program, as far as one file goes: where reading it began and has come to, and what was
      sent of it. */
  datatype Life = Life(start: nat, end: nat, sent: seq<Sent>)

  /** The farthest offset of all lives. */
  ghost function Farthest(lives: seq<Life>): nat {
    if lives == [] then 0 else Max(Farthest(lives[..|lives| - 1]), lives[|lives| - 1].end)
  }

  /** All that was sent, life after life. */
  ghost function SentIn(lives: seq<Life>): seq<Sent> {
    if lives == [] then [] else SentIn(lives[..|lives| - 1]) + lives[|lives| - 1].sent
  }

  /** The life began where a piece ends, not behind what was reached before, and sent exactly the pieces
      between its two offsets. */
  ghost predicate Lived(i: nat, binary: bool, data: FileData, reached: nat, life: Life) {
    && i in data && life.start <= reached && Boundary(binary, data[i], life.start)
    && Faithful(Tail(Some((i, binary)), life.start, life.sent), life.end, data)
  }

  ghost predicate AllLived(i: nat, binary: bool, data: FileData, lives: seq<Life>) {
    lives == [] ||
    var before := lives[..|lives| - 1];
    AllLived(i, binary, data, before) && Lived(i, binary, data, Farthest(before), lives[|lives| - 1])
  }

  lemma AnotherLife(i: nat, binary: bool, data: FileData, lives: seq<Life>, life: Life)
    requires AllLived(i, binary, data, lives) && Lived(i, binary, data, Farthest(lives), life)
    ensures AllLived(i, binary, data, lives + [life])
    ensures Farthest(lives + [life]) == Max(Farthest(lives), life.end)
            && SentIn(lives + [life]) == SentIn(lives) + life.sent
  {
    assert (lives + [life])[..|lives|] == lives;
  }

  lemma {:induction false} AllLivedGrows(i: nat, binary: bool, data: FileData, more: FileData, lives: seq<Life>)
    requires AllLived(i, binary, data, lives) && i in data && i in more && data[i] <= more[i]
    ensures AllLived(i, binary, more, lives)
  {
    if lives != [] {
      hide Boundary, Faithful;
      var life := lives[|lives| - 1];
      AllLivedGrows(i, binary, data, more, lives[..|lives| - 1]);
      BoundaryGrows(binary, data[i], more[i], life.start);
      FaithfulGrows(Tail(Some((i, binary)), life.start, life.sent), life.end, data, more);
    }
  }

  /** Together the lives missed nothing: every piece up to the farthest offset was sent in one of them. */
  lemma {:induction false} AllCaught(i: nat, binary: bool, data: FileData, lives: seq<Life>)
    requires AllLived(i, binary, data, lives) && i in data
    ensures Caught(binary, data[i], Farthest(lives), SentIn(lives))
    ensures forall j | 0 <= j < |lives| :: Boundary(binary, data[i], lives[j].end)
  {
    if lives == [] {
      CaughtNothing(binary, data[i]);
    } else {
      hide Boundary, Caught, Faithful;
      var before, life := lives[..|lives| - 1], lives[|lives| - 1];
      AllCaught(i, binary, data, before);
      Catch(i, binary, data, Farthest(before), SentIn(before), life.start, life.sent, life.end);
      assert forall j | 0 <= j < |before| :: before[j] == lives[j];
    }
  }

  /** What the journal names of inode i since it was as it was is what these lives sent. */
  ghost predicate Noted(origin: seq<Entry>, entries: seq<Entry>, info: Info, i: nat, sent: seq<Sent>) {
    && origin <= entries && Of(Since(origin, entries), i) == EntriesFor(info.topicName, i, sent)
    && AllOf(sent, FormatOf(info))
  }

  lemma NotedNothing(origin: seq<Entry>, info: Info, i: nat)
    ensures Noted(origin, origin, info, i, [])
  {
  }

  lemma NotedMore(origin: seq<Entry>, was: seq<Entry>, entries: seq<Entry>, info: Info, i: nat, earlier: seq<Sent>,
      life: seq<Sent>)
    requires Noted(origin, was, info, i, earlier) && Noted(was, entries, info, i, life)
    ensures Noted(origin, entries, info, i, earlier + life)
  {
    hide Of;
    var more := entries[|was|..];
    assert entries == was + more;
    SinceMore(origin, was, more, i);
    assert EntriesFor(info.topicName, i, earlier + life)
        == EntriesFor(info.topicName, i, earlier) + EntriesFor(info.topicName, i, life);
  }

  // ----- one life -----

  /** The present life after earlier ones: the reader follows the file, which was read from start on when the
      journal was as it was then, and sent this since; and the snapshots tell only where reading has been. */
  ghost predicate Alive(reader: Reader, t: Track, info: Info, i: nat, origin: seq<Entry>, lives: seq<Life>,
      start: nat, was: seq<Entry>, sent: seq<Sent>, history: History)
    reads reader, reader.Streams(), reader.files, reader.config, reader.message.journal
  {
    && Follows(reader, t, info, i) && Followed(reader, t.key, info, i, start, was, sent)
    && i in reader.files.data
    && Boundary(info.isBinary, reader.files.data[i], start) && start <= Farthest(lives)
    && AllLived(i, info.isBinary, reader.files.data, lives) && Noted(origin, was, info, i, SentIn(lives))
    && Past(history, t.key, info.isBinary, reader.files.data[i], Max(Farthest(lives), OffsetOf(reader, t.key)))
    && Told(history, t.taken)
  }

  /** Fair also over restarts: the new name of a file that is renamed must not be one that a snapshot could
      tell of. */
  ghost predicate Lasting(t: Track, info: Info, i: nat, op: Op) {
    Fair(t, info, i, op) && (op.MovedTo? && op.event.aliasfile == t.key ==> op.event.origfile !in t.taken)
  }

  lemma LastingKey(t: Track, info: Info, i: nat, op: Op)
    requires Lasting(t, info, i, op)
    ensures Fair(t, info, i, op) && t.taken <= After(t, op).taken
    ensures After(t, op).key == t.key || After(t, op).key !in t.taken
  {
  }

  method LiveStep(reader: Reader, op: Op, ghost t: Track, ghost info: Info, ghost i: nat, ghost origin: seq<Entry>,
      ghost lives: seq<Life>, ghost start: nat, ghost was: seq<Entry>, ghost sent: seq<Sent>, ghost history: History)
    returns (ghost longer: seq<Sent>)
    requires Alive(reader, t, info, i, origin, lives, start, was, sent, history) && Lasting(t, info, i, op)
    modifies reader, reader.Streams(), reader.config, reader.files, reader.message.journal, reader.message.queue
    ensures Alive(reader, After(t, op), info, i, origin, lives, start, was, longer, history)
    ensures forall fs | fs in reader.Streams() :: fs in old(reader.Streams()) || fresh(fs)
    ensures reader.files.data ==
            if op.Changed? then DataAfter(old(reader.files.data), op.change) else old(reader.files.data)
  {
    hide Follows, Followed, AllLived, Boundary, Past, Told, Noted, Grows, DataAfter, Lasting, Fair, After, OffsetOf;
    LastingKey(t, info, i, op);
    ghost var binary, data := info.isBinary, reader.files.data;
    ghost var key, offset, top := After(t, op).key, OffsetOf(reader, t.key),
        Max(Farthest(lives), OffsetOf(reader, t.key));
    longer := Step(reader, op, t, info, i, start, was, sent);
    DataGrows(data, reader.files.data, i);
    AllLivedGrows(i, binary, data, reader.files.data, lives);
    BoundaryGrows(binary, data[i], reader.files.data[i], start);
    ghost var higher := Max(Farthest(lives), OffsetOf(reader, key));
    ToldMore(history, t.taken, After(t, op).taken, map[]);
    if key == t.key {
      PastGrows(history, key, binary, data[i], top, reader.files.data[i], higher);
    } else {
      PastFree(history, t.taken, key, binary, reader.files.data[i], higher);
    }
  }

  lemma DataGrows(data: FileData, more: FileData, i: nat)
    requires Grows(data, more) && i in data
    ensures i in more && data[i] <= more[i]
  {
  }

  /** A life that ends here belongs to the earlier ones. */
  lemma LifeEnds(reader: Reader, key: Name, info: Info, i: nat, origin: seq<Entry>, lives: seq<Life>, start: nat,
      was: seq<Entry>, sent: seq<Sent>)
    requires i in reader.files.data && Followed(reader, key, info, i, start, was, sent)
    requires Boundary(info.isBinary, reader.files.data[i], start) && start <= Farthest(lives)
    requires AllLived(i, info.isBinary, reader.files.data, lives) && Noted(origin, was, info, i, SentIn(lives))
    ensures var offset, data := OffsetOf(reader, key), reader.files.data;
            var more := lives + [Life(start, offset, sent)];
            && AllLived(i, info.isBinary, data, more)
            && Noted(origin, reader.message.journal.entries, info, i, SentIn(more))
            && Farthest(more) == Max(Farthest(lives), offset) && Boundary(info.isBinary, data[i], offset)
            && Caught(info.isBinary, data[i], Farthest(more), SentIn(more))
            && Caught(info.isBinary, data[i], offset, SentIn(more))
  {
    hide AllLived, Boundary, Of, Faithful, Caught, SentIn, Farthest;
    var offset, binary, data := OffsetOf(reader, key), info.isBinary, reader.files.data;
    var life := Life(start, offset, sent);
    var more := lives + [life];
    AnotherLife(i, binary, data, lives, life);
    NotedMore(origin, was, reader.message.journal.entries, info, i, SentIn(lives), sent);
    AllCaught(i, binary, data, more);
    assert more[|lives|].end == offset;
    CaughtBefore(binary, data[i], offset, Farthest(more), SentIn(more));
  }

  lemma CaughtBefore(binary: bool, bytes: seq<Byte>, n: nat, m: nat, sent: seq<Sent>)
    requires Caught(binary, bytes, m, sent) && Boundary(binary, bytes, n) && n <= m
    ensures Caught(binary, bytes, n, sent)
  {
    hide FilePieces.Whole, Pieces;
    assert bytes[..m] == bytes[..n] + bytes[n..m];
    PiecesAppend(binary, bytes[..n], bytes[n..m]);
  }

  /** What is configured for every life of the program. */
  datatype Settings = Settings(
    limit: int, sendError: Name, maxfd: int, maxLines: int, maxLineBytes: int, offsetFile: Name,
    order: seq<Name>, fileMap: map<Name, Info>)

  ghost predicate Configurable(settings: Settings) {
    (forall k :: k in settings.fileMap <==> k in settings.order) && [] !in settings.fileMap
  }

  /** Between two lives: the files are there, and the path of the one that is followed is configured. */
  ghost predicate Resting(files: Files, t: Track, info: Info, i: nat, settings: Settings)
    reads files
  {
    && files.Valid() && files.names == t.names && files.data.Keys == t.inodes && i in t.inodes
    && Configurable(settings) && t.path in settings.fileMap && settings.fileMap[t.path] == info && info.moveTime == 0
    && forall a | a in t.aliases :: a.1 in t.taken
  }

  /** What is known of the file when the program starts anew and the file has this name then. */
  ghost function Restarted(t: Track, name: Name): Track {
    t.(key := name, moveTime := 0, tabled := false, aliases := {})
  }

  /** A life that ends here belongs to the earlier ones, and everything is as the next one needs it. */
  lemma AliveEnds(reader: Reader, t: Track, info: Info, i: nat, origin: seq<Entry>, lives: seq<Life>, start: nat,
      was: seq<Entry>, sent: seq<Sent>, history: History, settings: Settings, name: Name)
    requires Alive(reader, t, info, i, origin, lives, start, was, sent, history)
    requires Configurable(settings) && t.path in settings.fileMap && settings.fileMap[t.path] == info
             && info.moveTime == 0
    requires name == t.key || name !in t.taken
    ensures Resting(reader.files, Restarted(t, name), info, i, settings) && i in reader.files.data
    ensures Resting(reader.files, t.(tabled := false), info, i, settings)
    ensures var offset, data := OffsetOf(reader, t.key), reader.files.data;
            var more := lives + [Life(start, offset, sent)];
            && AllLived(i, info.isBinary, data, more)
            && Noted(origin, reader.message.journal.entries, info, i, SentIn(more))
            && Past(history, name, info.isBinary, data[i], Farthest(more)) && Told(history, t.taken)
            && Farthest(more) == Max(Farthest(lives), offset) && Boundary(info.isBinary, data[i], offset)
  {
    hide AllLived, Past, Told, Boundary, Noted, Followed, Caught, SentIn, Farthest, Solely, Among, Configured;
    LifeEnds(reader, t.key, info, i, origin, lives, start, was, sent);
    if name != t.key {
      PastFree(history, t.taken, name, info.isBinary, reader.files.data[i],
          Max(Farthest(lives), OffsetOf(reader, t.key)));
    }
  }

  /** The reader works on these objects. */
  ghost predicate Started(reader: Reader, files: Files, journal: Journal, settings: Settings) {
    && reader.files == files && reader.message.journal == journal && reader.message.limit == settings.limit
    && reader.maxfd == settings.maxfd && reader.maxLines == settings.maxLines
    && reader.maxLineBytes == settings.maxLineBytes && reader.config.order == settings.order
  }

  // ----- saving and starting anew -----

  /** A save, complete or interrupted, leaves a disk that tells only where reading has been. */
  method LiveSave(reader: Reader, ghost t: Track, ghost info: Info, ghost i: nat, disk: Disk, offsetFile: Name,
      stats: Stats, opens: bool, fuel: nat, cut: nat, ghost origin: seq<Entry>, ghost lives: seq<Life>,
      ghost start: nat, ghost was: seq<Entry>, ghost sent: seq<Sent>, ghost history: History)
    returns (crashed: bool, ghost longer: History)
    requires Alive(reader, t, info, i, origin, lives, start, was, sent, history)
    requires DiskOk(disk.files, offsetFile, history) && Savable(reader.fdMap)
    modifies disk
    ensures Alive(reader, t, info, i, origin, lives, start, was, sent, longer)
    ensures DiskOk(disk.files, offsetFile, longer)
  {
    hide Followed, AllLived, Noted, Boundary, Past, Told, DiskOk, Savable, Snapshot, Keyed, Solely, Among, Configured;
    FollowsKeyed(reader, t, info, i);
    SnapshotAt(reader, t.key, stats);
    ghost var streams: set<object> := reader.Streams();
    assert disk !in streams;
    LifeEnds(reader, t.key, info, i, origin, lives, start, was, sent);
    ghost var snapshot := Snapshot(reader.fdMap, reader.config.fileMap, stats);
    longer := history + [snapshot];
    PastMore(history, t.key, info.isBinary, reader.files.data[i], Max(Farthest(lives), OffsetOf(reader, t.key)),
        snapshot);
    ToldMore(history, t.taken, t.taken, snapshot);
    crashed := Save(reader, disk, offsetFile, stats, opens, fuel, cut, history);
  }

  lemma FollowsKeyed(reader: Reader, t: Track, info: Info, i: nat)
    requires Follows(reader, t, info, i)
    ensures Keyed(reader.fdMap) && reader.fdMap.Keys <= t.taken
  {
  }

  lemma SnapshotAt(reader: Reader, k: Name, stats: Stats)
    ensures var s := Snapshot(reader.fdMap, reader.config.fileMap, stats);
            s.Keys <= reader.fdMap.Keys && (k in s ==> s[k].offset == OffsetOf(reader, k))
  {
  }

  lemma PastMore(history: History, k: Name, binary: bool, bytes: seq<Byte>, top: nat, snapshot: map<Name, Loaded>)
    requires Past(history, k, binary, bytes, top)
    requires k in snapshot ==> snapshot[k].offset <= top && Boundary(binary, bytes, snapshot[k].offset)
    ensures Past(history + [snapshot], k, binary, bytes, top)
  {
    hide Boundary;
    var more: History := history + [snapshot];
    forall j: nat | j < |more| && k in more[j]
      ensures more[j][k].offset <= top && Boundary(binary, bytes, more[j][k].offset)
    {
      if j < |history| {
        assert more[j] == history[j];
      }
    }
  }

  /** A life begins with an empty queue and with the offsets found on the disk, of all files; the journal
      goes on. */
  method Begin(files: Files, disk: Disk, journal: Journal, ghost t: Track, ghost info: Info, ghost i: nat,
      settings: Settings, lastTime: int, moveProtected: bool,
      ghost origin: seq<Entry>, ghost lives: seq<Life>, ghost history: History)
    returns (reader: Reader, ghost start: nat)
    requires Resting(files, t, info, i, settings) && !t.tabled && DiskOk(disk.files, settings.offsetFile, history)
    requires AllLived(i, info.isBinary, files.data, lives) && Noted(origin, journal.entries, info, i, SentIn(lives))
    requires Past(history, t.key, info.isBinary, files.data[i], Farthest(lives)) && Told(history, t.taken)
    ensures Started(reader, files, journal, settings)
    ensures reader.config.fileMap == settings.fileMap && reader.aliasMap == map[] && reader.Opened() == map[]
    ensures fresh(reader) && fresh(reader.config) && fresh(reader.message) && fresh(reader.message.queue)
    ensures reader.Streams() == {}
    ensures Alive(reader, t, info, i, origin, lives, start, journal.entries, [], history)
  {
    hide AllLived, Noted, Boundary, Past, Told, DiskOk, Faithful, Found, Reader.Valid, Reader.Exact;
    var config := new Config(settings.order, settings.fileMap);
    var message := new Message(disk, journal, settings.limit, settings.sendError);
    reader := Snapshots.Start(config, files, message, settings.maxfd, settings.maxLines, settings.maxLineBytes, disk,
        settings.offsetFile, lastTime, moveProtected);
    ghost var k, bytes := t.key, files.data[i];
    FoundPast(disk.files, settings.offsetFile, history, t.taken, k, info.isBinary, bytes, Farthest(lives));
    CaughtNothing(info.isBinary, bytes);
    start := OffsetOf(reader, k);
    FollowedNothing(reader, k, info, i);
    PastGrows(history, k, info.isBinary, bytes, Farthest(lives), bytes, Max(Farthest(lives), start));
    assert forall j | j in reader.tails :: reader.tails[j].source.None?;
  }

  // ----- runs over many lives -----

  /** What the program does or what happens to it; fuel and cut say where a crash interrupts a save, and a
      crash at any other time leaves the file under this name. After a crash the next life begins. */
  datatype Act =
    | Does(op: Op)
    | Saves(stats: Stats, opens: bool, fuel: nat, cut: nat, lastTime: int, moveProtected: bool)
    | Dies(name: Name, lastTime: int, moveProtected: bool)

  /** Events tell the truth as in one life. A file that got another name, also while the program was not
      running, must have one that no snapshot can tell of: the inode that a snapshot names is not looked at
      when it is loaded, so the file would be taken for the one that had the name before. */
  ghost predicate FairAct(t: Track, info: Info, i: nat, act: Act) {
    match act
    case Does(op) => Lasting(t, info, i, op)
    case Saves(_, _, _, _, _, _) => true
    case Dies(name, _, _) => name == t.key || name !in t.taken
  }

  ghost function AfterAct(t: Track, act: Act): Track {
    match act
    case Does(op) => After(t, op)
    case Saves(_, _, _, _, _, _) => t.(tabled := false)
    case Dies(name, _, _) => Restarted(t, name)
  }

  ghost predicate AllFairActs(t: Track, info: Info, i: nat, acts: seq<Act>)
    decreases |acts|
  {
    acts == [] || (FairAct(t, info, i, acts[0]) && AllFairActs(AfterAct(t, acts[0]), info, i, acts[1..]))
  }

  ghost function AfterActs(t: Track, acts: seq<Act>): Track
    decreases |acts|
  {
    if acts == [] then t else AfterActs(AfterAct(t, acts[0]), acts[1..])
  }

  /** What an act does to the files. */
  ghost function DataOf(data: FileData, act: Act): (r: FileData)
    ensures data.Keys <= r.Keys
  {
    if act.Does? && act.op.Changed? then DataAfter(data, act.op.change) else data
  }

  ghost function Outlived(data: FileData, acts: seq<Act>): (r: FileData)
    ensures data.Keys <= r.Keys
    decreases |acts|
  {
    if acts == [] then data else Outlived(DataOf(data, acts[0]), acts[1..])
  }

  ghost function Deaths(acts: seq<Act>): nat {
    if acts == [] then 0 else (if acts[0].Dies? then 1 else 0) + Deaths(acts[1..])
  }

  lemma AliveVaguer(reader: Reader, t: Track, info: Info, i: nat, origin: seq<Entry>, lives: seq<Life>, start: nat,
      was: seq<Entry>, sent: seq<Sent>, history: History)
    requires Alive(reader, t, info, i, origin, lives, start, was, sent, history)
    ensures Alive(reader, t.(tabled := false), info, i, origin, lives, start, was, sent, history)
  {
    hide Reader.Valid, Followed, AllLived, Noted, Boundary, Past, Told, Solely, Among, Configured;
  }

  /** The reader dies and the next life begins. */
  method LiveAgain(reader: Reader, disk: Disk, ghost t: Track, ghost name: Name, ghost next: Track, ghost info: Info,
      ghost i: nat, settings: Settings, lastTime: int, moveProtected: bool, ghost origin: seq<Entry>,
      ghost lives: seq<Life>, ghost start: nat, ghost was: seq<Entry>, ghost sent: seq<Sent>, ghost history: History)
    returns (newer: Reader, ghost longer: seq<Life>, ghost begin: nat)
    requires Alive(reader, t, info, i, origin, lives, start, was, sent, history)
    requires Configurable(settings) && t.path in settings.fileMap && settings.fileMap[t.path] == info
             && info.moveTime == 0
    requires name == t.key || name !in t.taken
    requires next == Restarted(t, name) || (name == t.key && next == t.(tabled := false))
    requires DiskOk(disk.files, settings.offsetFile, history)
    ensures Started(newer, reader.files, reader.message.journal, settings)
    ensures newer.config.fileMap == settings.fileMap && newer.aliasMap == map[] && newer.Opened() == map[]
    ensures fresh(newer) && fresh(newer.config) && fresh(newer.message) && fresh(newer.message.queue)
    ensures newer.Streams() == {}
    ensures longer == lives + [Life(start, OffsetOf(reader, t.key), sent)]
    ensures Alive(newer, next, info, i, origin, longer, begin, reader.message.journal.entries, [], history)
  {
    hide Alive, Resting, AllLived, Noted, Past, Told, DiskOk, Reader.Opened;
    AliveEnds(reader, t, info, i, origin, lives, start, was, sent, history, settings, name);
    longer := lives + [Life(start, OffsetOf(reader, t.key), sent)];
    newer, begin := Begin(reader.files, disk, reader.message.journal, next, info, i, settings, lastTime, moveProtected,
        origin, longer, history);
  }

  /** Nothing has been read or saved yet. */
  lemma FirstLife(files: Files, disk: Disk, journal: Journal, t: Track, info: Info, i: nat, settings: Settings)
    requires Resting(files, t, info, i, settings)
    requires settings.offsetFile !in disk.files && settings.offsetFile + SWP !in disk.files
    ensures i in files.data && AllLived(i, info.isBinary, files.data, [])
    ensures Noted(journal.entries, journal.entries, info, i, SentIn([]))
    ensures Past([], t.key, info.isBinary, files.data[i], Farthest([])) && Told([], t.taken)
    ensures DiskOk(disk.files, settings.offsetFile, [])
  {
    NotedNothing(journal.entries, info, i);
  }

  method LiveOn(files: Files, disk: Disk, journal: Journal, ghost t: Track, ghost info: Info, ghost i: nat,
      settings: Settings, acts: seq<Act>)
    returns (reader: Reader, ghost lives: seq<Life>, ghost start: nat, ghost was: seq<Entry>, ghost sent: seq<Sent>,
      ghost history: History)
    requires Resting(files, t, info, i, settings) && !t.tabled && AllFairActs(t, info, i, acts)
    requires settings.offsetFile !in disk.files && settings.offsetFile + SWP !in disk.files
    modifies files, disk, journal
    ensures Started(reader, files, journal, settings)
    ensures files.data == Outlived(old(files.data), acts) && |lives| >= Deaths(acts)
    ensures Alive(reader, AfterActs(t, acts), info, i, old(journal.entries), lives, start, was, sent, history)
    ensures DiskOk(disk.files, settings.offsetFile, history)
    ensures AfterActs(t, acts).path == t.path
    ensures fresh(reader) && fresh(reader.config) && fresh(reader.message) && fresh(reader.message.queue)
    ensures fresh(reader.Streams())
  {
    hide AllLived, Noted, Past, Told, DiskOk, Alive, Savable, FairAct, AfterAct, DataOf, DataAfter;
    lives, history, sent := [], [], [];
    FirstLife(files, disk, journal, t, info, i, settings);
    ghost var origin := journal.entries;
    reader, start := Begin(files, disk, journal, t, info, i, settings, 0, false, origin, lives, history);
    was := journal.entries;
    ghost var now := t;
    assert acts[0..] == acts;
    for n := 0 to |acts|
      invariant Alive(reader, now, info, i, origin, lives, start, was, sent, history) && now.path == t.path
      invariant DiskOk(disk.files, settings.offsetFile, history)
      invariant fresh(reader) && fresh(reader.config) && fresh(reader.message) && fresh(reader.message.queue)
      invariant fresh(reader.Streams()) && Started(reader, files, journal, settings)
      invariant AllFairActs(now, info, i, acts[n..]) && AfterActs(now, acts[n..]) == AfterActs(t, acts)
      invariant Outlived(files.data, acts[n..]) == Outlived(old(files.data), acts)
      invariant |lives| + Deaths(acts[n..]) >= Deaths(acts)
    {
      assert acts[n..][0] == acts[n] && acts[n..][1..] == acts[n + 1..];
      reader, lives, start, was, sent, history := LiveAct(reader, disk, acts[n], now, info, i, settings, origin, lives,
          start, was, sent, history);
      now := AfterAct(now, acts[n]);
    }
  }

  method LiveAct(reader: Reader, disk: Disk, act: Act, ghost t: Track, ghost info: Info, ghost i: nat,
      settings: Settings, ghost origin: seq<Entry>, ghost lives: seq<Life>, ghost start: nat, ghost was: seq<Entry>,
      ghost sent: seq<Sent>, ghost history: History)
    returns (newer: Reader, ghost lives': seq<Life>, ghost start': nat, ghost was': seq<Entry>, ghost sent': seq<Sent>,
      ghost history': History)
    requires Alive(reader, t, info, i, origin, lives, start, was, sent, history) && FairAct(t, info, i, act)
    requires Started(reader, reader.files, reader.message.journal, settings)
    requires Configurable(settings) && t.path in settings.fileMap && settings.fileMap[t.path] == info
             && info.moveTime == 0
    requires DiskOk(disk.files, settings.offsetFile, history)
    modifies reader, reader.Streams(), reader.config, reader.files, reader.message.journal, reader.message.queue, disk
    ensures Started(newer, reader.files, reader.message.journal, settings)
    ensures AfterAct(t, act).path == t.path
    ensures Alive(newer, AfterAct(t, act), info, i, origin, lives', start', was', sent', history')
    ensures DiskOk(disk.files, settings.offsetFile, history')
    ensures reader.files.data == DataOf(old(reader.files.data), act)
    ensures |lives'| >= |lives| + if act.Dies? then 1 else 0
    ensures newer == reader
            || (fresh(newer) && fresh(newer.config) && fresh(newer.message) && fresh(newer.message.queue))
    ensures forall fs | fs in newer.Streams() :: fs in old(reader.Streams()) || fresh(fs)
  {
    hide AllLived, Noted, Past, Told, DiskOk, Alive, Savable, DataAfter, Reader.Opened;
    newer, lives', start', was', sent', history' := reader, lives, start, was, sent, history;
    match act
    case Does(op) => sent' := LiveStep(reader, op, t, info, i, origin, lives, start, was, sent, history);
    case Saves(stats, opens, fuel, cut, lastTime, moveProtected) =>
      AliveVaguer(reader, t, info, i, origin, lives, start, was, sent, history);
      if Savable(reader.fdMap) {
        var crashed;
        crashed, history' := LiveSave(reader, t, info, i, disk, settings.offsetFile, stats, opens, fuel, cut, origin,
            lives, start, was, sent, history);
        AliveVaguer(reader, t, info, i, origin, lives, start, was, sent, history');
        if crashed {
          was', sent' := reader.message.journal.entries, [];
          newer, lives', start' := LiveAgain(reader, disk, t, t.key, t.(tabled := false), info, i, settings, lastTime,
              moveProtected, origin, lives, start, was, sent, history');
        }
      }
    case Dies(name, lastTime, moveProtected) =>
      was', sent' := reader.message.journal.entries, [];
      newer, lives', start' := LiveAgain(reader, disk, t, name, Restarted(t, name), info, i, settings, lastTime,
          moveProtected, origin, lives, start, was, sent, history);
  }

  /** Over any run in which the reader handles events about all files, other programs change these, the
      producer takes messages, the offsets of all files are saved, and the program dies at any point, also
      in the middle of a save: each life, and there are more than deaths, began where a piece of the file
      ends, at most as far as one before it had come, and sent exactly the pieces between where it began and
      where it came to. What the queues of all lives took from inode i is what these sent. So every piece
      up to the farthest offset ever reached was queued at least once. */
  method Live(files: Files, disk: Disk, journal: Journal, ghost t: Track, ghost info: Info, ghost i: nat,
      settings: Settings, acts: seq<Act>)
    returns (reader: Reader, ghost lives: seq<Life>)
    requires Resting(files, t, info, i, settings) && !t.tabled && AllFairActs(t, info, i, acts)
    requires settings.offsetFile !in disk.files && settings.offsetFile + SWP !in disk.files
    modifies files, disk, journal
    ensures Started(reader, files, journal, settings) && Follows(reader, AfterActs(t, acts), info, i)
    ensures files.data == Outlived(old(files.data), acts) && i in files.data
    ensures |lives| > Deaths(acts) && lives[|lives| - 1].end == OffsetOf(reader, AfterActs(t, acts).key)
    ensures AllLived(i, info.isBinary, files.data, lives)
    ensures Noted(old(journal.entries), journal.entries, info, i, SentIn(lives))
    ensures Caught(info.isBinary, files.data[i], Farthest(lives), SentIn(lives))
  {
    hide Resting, AllLived, Noted, Alive, Outlived, Deaths, Follows, Followed, Boundary, Caught, SentIn, Farthest,
        AllFairActs, AfterActs;
    ghost var start, was, sent, history;
    reader, lives, start, was, sent, history := LiveOn(files, disk, journal, t, info, i, settings, acts);
    ghost var key := AfterActs(t, acts).key;
    AliveHas(reader, AfterActs(t, acts), info, i, old(journal.entries), lives, start, was, sent, history);
    LifeEnds(reader, key, info, i, old(journal.entries), lives, start, was, sent);
    lives := lives + [Life(start, OffsetOf(reader, key), sent)];
  }

  lemma AliveHas(reader: Reader, t: Track, info: Info, i: nat, origin: seq<Entry>, lives: seq<Life>, start: nat,
      was: seq<Entry>, sent: seq<Sent>, history: History)
    requires Alive(reader, t, info, i, origin, lives, start, was, sent, history)
    ensures Follows(reader, t, info, i) && Followed(reader, t.key, info, i, start, was, sent) && i in reader.files.data
    ensures Boundary(info.isBinary, reader.files.data[i], start) && start <= Farthest(lives)
    ensures AllLived(i, info.isBinary, reader.files.data, lives) && Noted(origin, was, info, i, SentIn(lives))
    ensures reader.files.names == t.names
  {
  }

  /** All pieces are caught if those up to n are and behind n there are none. */
  lemma CaughtAll(binary: bool, bytes: seq<Byte>, n: nat, sent: seq<Sent>)
    requires Caught(binary, bytes, n, sent) && Exhausted(binary, bytes[n..], 0) && (binary || Passable(bytes))
    ensures forall p | p in Pieces(binary, bytes) :: p in PiecesIn(sent)
  {
    hide Passable, Lines, FilePieces.Whole;
    var a, b := bytes[..n], bytes[n..];
    assert bytes == a + b;
    PiecesAppend(binary, a, b);
    assert b[0..] == b;
    if !binary {
      PassableBehind(bytes, n);
      BehindEof(b);
    }
  }

  /** What the thread needs to read the file to its end. */
  ghost predicate Roomy(settings: Settings, binary: bool, bytes: seq<Byte>, running: nat) {
    settings.limit >= 0 && settings.maxfd >= 1 && running > |bytes| && (binary || Short(bytes, settings.maxLineBytes))
  }

  /** The program starts anew after the run, and the file has this name, under which events tell of it. */
  ghost predicate FoundAs(t: Track, i: nat, name: Name) {
    (name == t.key || name !in t.taken) && name in t.names && t.names[name] == i
  }

  /** Nothing is lost: after any such run, if the program starts once more, the file then no longer grows and
      its event is handled as often as it comes back, every piece of the file has been queued in some life. */
  method Recover(files: Files, disk: Disk, journal: Journal, ghost t: Track, ghost info: Info, ghost i: nat,
      settings: Settings, acts: seq<Act>, event: Event, lastTime: int, moveProtected: bool, now: int, running: nat,
      memory: seq<Memory>)
    returns (reader: Reader, ghost lives: seq<Life>)
    requires Resting(files, t, info, i, settings) && !t.tabled && AllFairActs(t, info, i, acts)
    requires settings.offsetFile !in disk.files && settings.offsetFile + SWP !in disk.files
    requires event.event == Modify && event.pathfile == t.path && FoundAs(AfterActs(t, acts), i, event.origfile)
    requires Roomy(settings, info.isBinary, Outlived(files.data, acts)[i], running)
    modifies files, disk, journal
    ensures files.data == Outlived(old(files.data), acts) && |lives| > Deaths(acts) + 1
    ensures AllLived(i, info.isBinary, files.data, lives)
    ensures Noted(old(journal.entries), journal.entries, info, i, SentIn(lives))
    ensures info.isBinary || Passable(files.data[i]) ==>
              forall p | p in Pieces(info.isBinary, files.data[i]) :: p in PiecesIn(SentIn(lives))
  {
    hide AllLived, Noted, Alive, Outlived, Deaths, Follows, Followed, Tracking, Caught, SentIn, Farthest, Short,
        Exhausted, Passable, Boundary, Reader.Opened, AllFairActs, AfterActs, DiskOk;
    ghost var start, was, sent, history;
    ghost var last, k, origin := AfterActs(t, acts), event.origfile, journal.entries;
    reader, lives, start, was, sent, history := LiveOn(files, disk, journal, t, info, i, settings, acts);
    AliveHas(reader, last, info, i, origin, lives, start, was, sent, history);
    ghost var next := Restarted(last, k);
    ghost var entries := journal.entries;
    reader, lives, start := LiveAgain(reader, disk, last, k, next, info, i, settings, lastTime, moveProtected, origin,
        lives, start, was, sent, history);
    lives := ReadOut(reader, event, next, info, i, settings, origin, lives, start, entries, history, now, running,
        memory);
  }

  /** The event of the file is handled as often as it comes back. */
  method ReadOut(reader: Reader, event: Event, ghost t: Track, ghost info: Info, ghost i: nat, settings: Settings,
      ghost origin: seq<Entry>, ghost lives: seq<Life>, ghost start: nat, ghost was: seq<Entry>, ghost history: History,
      now: int, running: nat, memory: seq<Memory>)
    returns (ghost longer: seq<Life>)
    requires Alive(reader, t, info, i, origin, lives, start, was, [], history)
    requires reader.aliasMap == map[] && reader.Opened() == map[] && reader.config.FindFile(t.path) == Some(info)
    requires Started(reader, reader.files, reader.message.journal, settings) && info.moveTime == 0
    requires event == Event(t.path, t.key, event.aliasfile, Modify) && t.key in t.names && t.names[t.key] == i
    requires Roomy(settings, info.isBinary, reader.files.data[i], running)
    modifies reader, reader.Streams(), reader.config, reader.message.journal, reader.message.queue
    ensures |longer| == |lives| + 1 && AllLived(i, info.isBinary, reader.files.data, longer)
    ensures Noted(origin, reader.message.journal.entries, info, i, SentIn(longer))
    ensures info.isBinary || Passable(reader.files.data[i]) ==>
              forall p | p in Pieces(info.isBinary, reader.files.data[i]) :: p in PiecesIn(SentIn(longer))
  {
    hide AllLived, Noted, Alive, Follows, Followed, Tracking, Caught, SentIn, Farthest, Short, Exhausted, Passable,
        Boundary, Reader.Opened;
    AliveHas(reader, t, info, i, origin, lives, start, was, [], history);
    AnewTracked(reader, event, t, info, i);
    assert reader.Opened().Keys + {t.key} == {t.key};
    ghost var streams: set<object> := reader.Streams();
    var thread := new EventThread(reader);
    assert thread !in streams;
    thread.queue := [event];
    ghost var sent := thread.Drain(event, info, i, now, running, memory, start, was, []);
    LifeEnds(reader, t.key, info, i, origin, lives, start, was, sent);
    longer := lives + [Life(start, OffsetOf(reader, t.key), sent)];
    if info.isBinary || Passable(reader.files.data[i]) {
      CaughtAhead(info.isBinary, reader.files.data[i], OffsetOf(reader, t.key), SentIn(longer));
    }
  }

  lemma AnewTracked(reader: Reader, event: Event, t: Track, info: Info, i: nat)
    requires Follows(reader, t, info, i) && reader.aliasMap == map[] && event.origfile == t.key
    requires t.key in t.names && t.names[t.key] == i && info.moveTime == 0
    requires reader.config.FindFile(event.pathfile) == Some(info)
    ensures Tracking(reader, event, info, i)
  {
    hide Reader.Valid;
  }

  lemma CaughtAhead(binary: bool, bytes: seq<Byte>, offset: nat, sent: seq<Sent>)
    requires Caught(binary, bytes, offset, sent) && Exhausted(binary, Ahead(bytes, offset), 0)
    requires binary || Passable(bytes)
    ensures forall p | p in Pieces(binary, bytes) :: p in PiecesIn(sent)
  {
    hide Exhausted, Passable, Pieces;
    CaughtAll(binary, bytes, offset, sent);
  }

  // ----- a renaming while the program is not running is fair -----

  /** A file is read and saved, then renamed, another one takes its name, the program dies and goes on reading
      the first one under its new name. */
  function DeadRotation(path: Name, log: Name, saved: Name, i: nat, time: nat, later: nat): seq<Act> {
    [Does(ReadFile(Event(path, log, [], Modify), time, false, true, 1, [])),
     Saves(map[log := (i, 0)], true, 3, 0, 0, false),
     Does(Changed(Rename(log, saved))),
     Does(Changed(Create(log, i + 1))),
     Dies(saved, 0, false),
     Does(ReadFile(Event(path, saved, [], Modify), later, false, true, 1, []))]
  }

  lemma FairActFirst(t: Track, info: Info, i: nat, act: Act, acts: seq<Act>)
    requires FairAct(t, info, i, act) && AllFairActs(AfterAct(t, act), info, i, acts)
    ensures AllFairActs(t, info, i, [act] + acts) && AfterActs(t, [act] + acts) == AfterActs(AfterAct(t, act), acts)
  {
    Consed(act, acts);
  }

  lemma FairActNone(t: Track, info: Info, i: nat)
    ensures AllFairActs(t, info, i, []) && AfterActs(t, []) == t
  {
  }

  lemma DeadRotationSteps(info: Info, i: nat, path: Name, log: Name, saved: Name, time: nat,
      later: nat)
    requires log != saved && info.moveTime == 0
    ensures var t0, acts := Track(log, path, 0, false, map[log := i], {i}, {}, {}),
            DeadRotation(path, log, saved, i, time, later);
            var t1 := t0.(taken := {log});
            var t2 := t1.(names := map[saved := i]);
            var t3 := t2.(names := map[saved := i, log := i + 1], inodes := {i, i + 1});
            var t4 := t3.(key := saved);
            && FairAct(t0, info, i, acts[0]) && AfterAct(t0, acts[0]) == t1
            && FairAct(t1, info, i, acts[1]) && AfterAct(t1, acts[1]) == t1
            && FairAct(t1, info, i, acts[2]) && AfterAct(t1, acts[2]) == t2
            && FairAct(t2, info, i, acts[3]) && AfterAct(t2, acts[3]) == t3
            && FairAct(t3, info, i, acts[4]) && AfterAct(t3, acts[4]) == t4
            && FairAct(t4, info, i, acts[5]) && AfterAct(t4, acts[5]) == t4.(taken := {log, saved})
  {
  }

  lemma DeadRotationIsFair(info: Info, i: nat, path: Name, log: Name, saved: Name, time: nat,
      later: nat)
    requires log != saved && info.moveTime == 0
    ensures var t, acts := Track(log, path, 0, false, map[log := i], {i}, {}, {}),
            DeadRotation(path, log, saved, i, time, later);
            AllFairActs(t, info, i, acts) && AfterActs(t, acts).key == saved
  {
    hide AllFairActs, AfterActs, FairAct, AfterAct;
    var acts := DeadRotation(path, log, saved, i, time, later);
    var t0 := Track(log, path, 0, false, map[log := i], {i}, {}, {});
    var t1 := t0.(taken := {log});
    var t2 := t1.(names := map[saved := i]);
    var t3 := t2.(names := map[saved := i, log := i + 1], inodes := {i, i + 1});
    var t4 := t3.(key := saved);
    var t5 := t4.(taken := {log, saved});
    assert acts[3..] == [acts[3]] + ([acts[4]] + ([acts[5]] + []));
    assert acts[2..] == [acts[2]] + acts[3..] && acts[1..] == [acts[1]] + acts[2..] && acts == [acts[0]] + acts[1..];
    DeadRotationSteps(info, i, path, log, saved, time, later);
    FairActNone(t5, info, i);
    FairActFirst(t4, info, i, acts[5], []);
    FairActFirst(t3, info, i, acts[4], [acts[5]] + []);
    FairActFirst(t2, info, i, acts[3], [acts[4]] + ([acts[5]] + []));
    FairActFirst(t1, info, i, acts[2], acts[3..]);
    FairActFirst(t1, info, i, acts[1], acts[2..]);
    FairActFirst(t0, info, i, acts[0], acts[1..]);
  }
}
