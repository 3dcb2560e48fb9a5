/** Saving the offsets of a reader, with a crash at any point, and loading them after a restart. */
module Snapshots {
  import opened Bytes
  import opened Configs
  import opened MessageFlow
  import opened Names
  import opened OffsetStores
  import opened Options
  import opened Readers
  import opened Tails

  /** The inodes and sizes of the regular files. */
  type Stats = map<Name, (nat, nat)>

  /** A file is saved if its path is still configured and it is a regular file. */
  predicate IsSaved(fdMap: FdMap, fileMap: map<Name, Info>, stats: Stats, k: Name) {
    k in fdMap && fdMap[k].pathfile in fileMap && k in stats
  }

  function RecordOf(fdMap: FdMap, stats: Stats, k: Name): Record
    requires k in fdMap && k in stats
  {
    Record(fdMap[k].offset, stats[k].0, stats[k].1, fdMap[k].pathfile, k)
  }

  /** What a complete save makes known. */
  ghost function Snapshot(fdMap: FdMap, fileMap: map<Name, Info>, stats: Stats): map<Name, Loaded> {
    map k | k in fdMap && IsSaved(fdMap, fileMap, stats, k) :: LoadedOf(RecordOf(fdMap, stats, k))
  }

  /** What a start finds in the offset file. */
  function Found(files: map<Name, seq<Byte>>, offsetFile: Name): map<Name, Loaded> {
    if offsetFile in files then ByFile(RecordsFrom(files[offsetFile], 0)) else map[]
  }

  /** All that a knows b knows as well. */
  ghost predicate Within(a: map<Name, Loaded>, b: map<Name, Loaded>) {
    forall k | k in a :: k in b && a[k] == b[k]
  }

  /** The records are those of distinct saved files. */
  ghost predicate Records(rs: seq<Record>, fdMap: FdMap, fileMap: map<Name, Info>, stats: Stats) {
    && AllFit(rs) && Distinct(rs)
    && forall i | 0 <= i < |rs| :: var k := rs[i].origfile;
       IsSaved(fdMap, fileMap, stats, k) && rs[i] == RecordOf(fdMap, stats, k)
  }

  lemma RecordsWithin(rs: seq<Record>, fdMap: FdMap, fileMap: map<Name, Info>, stats: Stats)
    requires Records(rs, fdMap, fileMap, stats)
    ensures Within(ByFile(LoadedAll(rs)), Snapshot(fdMap, fileMap, stats))
  {
    ByFileIs(rs);
    var known := ByFile(LoadedAll(rs));
    forall k | k in known ensures k in Snapshot(fdMap, fileMap, stats)
        && known[k] == Snapshot(fdMap, fileMap, stats)[k] {
      var i :| 0 <= i < |rs| && rs[i].origfile == k;
    }
  }

  lemma RecordsComplete(rs: seq<Record>, fdMap: FdMap, fileMap: map<Name, Info>, stats: Stats)
    requires Records(rs, fdMap, fileMap, stats)
    requires forall k | IsSaved(fdMap, fileMap, stats, k) :: exists i :: 0 <= i < |rs| && rs[i].origfile == k
    ensures ByFile(LoadedAll(rs)) == Snapshot(fdMap, fileMap, stats)
  {
    RecordsWithin(rs, fdMap, fileMap, stats);
    ByFileIs(rs);
  }

  /** However much of the records has been written, no more is found than they tell. */
  lemma CutWithin(s: seq<Byte>, rs: seq<Record>, fdMap: FdMap, fileMap: map<Name, Info>, stats: Stats)
    requires Records(rs, fdMap, fileMap, stats) && s <= EncodedAll(rs)
    ensures Within(ByFile(RecordsFrom(s, 0)), Snapshot(fdMap, fileMap, stats))
    ensures s == EncodedAll(rs) ==> ByFile(RecordsFrom(s, 0)) == ByFile(LoadedAll(rs))
  {
    hide Encoded, RecordsFrom, ByFile;
    assert s[0..] == s;
    var k := CutLoads(s, 0, rs);
    assert rs[..|rs|] == rs;
    FewerKnown(rs, k);
    RecordsWithin(rs, fdMap, fileMap, stats);
  }

  /** Offsets and names are within what their fields hold. */
  predicate Savable(fdMap: FdMap) {
    forall k | k in fdMap :: fdMap[k].offset < TWO_64 && |fdMap[k].pathfile| < TWO_32 && |k| < TWO_32
  }

  /** The records are those of the saved files whose keys are not left. */
  ghost predicate Written(rs: seq<Record>, left: set<Name>, fdMap: FdMap, fileMap: map<Name, Info>, stats: Stats) {
    && Records(rs, fdMap, fileMap, stats) && (forall i | 0 <= i < |rs| :: rs[i].origfile !in left)
    && forall k | IsSaved(fdMap, fileMap, stats, k) && k !in left :: exists i :: 0 <= i < |rs| && rs[i].origfile == k
  }

  lemma WrittenNone(fdMap: FdMap, fileMap: map<Name, Info>, stats: Stats)
    ensures Written([], fdMap.Keys, fdMap, fileMap, stats)
  {
  }

  lemma WrittenSkip(rs: seq<Record>, left: set<Name>, fdMap: FdMap, fileMap: map<Name, Info>, stats: Stats, k: Name)
    requires Written(rs, left, fdMap, fileMap, stats) && !IsSaved(fdMap, fileMap, stats, k)
    ensures Written(rs, left - {k}, fdMap, fileMap, stats)
  {
    hide IsSaved, Records;
  }

  lemma WrittenMore(rs: seq<Record>, left: set<Name>, fdMap: FdMap, fileMap: map<Name, Info>, stats: Stats, k: Name)
    requires Written(rs, left, fdMap, fileMap, stats) && IsSaved(fdMap, fileMap, stats, k) && k in left
             && Savable(fdMap)
    ensures Written(rs + [RecordOf(fdMap, stats, k)], left - {k}, fdMap, fileMap, stats)
  {
    var r := RecordOf(fdMap, stats, k);
    var more := rs + [r];
    assert OffsetStores.Fits(r);
    hide IsSaved, OffsetStores.Fits;
    assert forall i | 0 <= i < |rs| :: more[i] == rs[i];
    assert more[|rs|].origfile == k;
  }

  lemma WrittenAll(rs: seq<Record>, fdMap: FdMap, fileMap: map<Name, Info>, stats: Stats)
    requires Written(rs, {}, fdMap, fileMap, stats)
    ensures ByFile(RecordsFrom(EncodedAll(rs), 0)) == Snapshot(fdMap, fileMap, stats)
    ensures Beginning(EncodedAll(rs), fdMap, fileMap, stats)
  {
    RecordsComplete(rs, fdMap, fileMap, stats);
    CutWithin(EncodedAll(rs), rs, fdMap, fileMap, stats);
  }

  /** A beginning of the bytes of records that are to be saved. */
  ghost predicate Beginning(bytes: seq<Byte>, fdMap: FdMap, fileMap: map<Name, Info>, stats: Stats) {
    exists rs :: Records(rs, fdMap, fileMap, stats) && bytes <= EncodedAll(rs)
  }

  lemma BeginningCut(rs: seq<Record>, left: set<Name>, fdMap: FdMap, fileMap: map<Name, Info>, stats: Stats, k: Name,
      part: seq<Byte>)
    requires Written(rs, left, fdMap, fileMap, stats) && IsSaved(fdMap, fileMap, stats, k) && k in left
             && Savable(fdMap)
    requires k in fdMap && k in stats && part <= Encoded(RecordOf(fdMap, stats, k))
    ensures Beginning(EncodedAll(rs) + part, fdMap, fileMap, stats)
  {
    hide Encoded, IsSaved, Records;
    var r := RecordOf(fdMap, stats, k);
    WrittenMore(rs, left, fdMap, fileMap, stats, k);
    EncodedAppend(rs, r);
    assert EncodedAll(rs) + part <= EncodedAll(rs + [r]);
  }

  /** The disk as it was, but for the content of a file that could be opened. */
  ghost predicate Holds(disk: Disk, was: map<Name, seq<Byte>>, file: Name, content: seq<Byte>, opens: bool)
    reads disk
  {
    disk.files == if opens then was[file := content] else was
  }

  method WritePart(disk: Disk, file: Name, part: seq<Byte>, opens: bool, ghost was: map<Name, seq<Byte>>,
      ghost content: seq<Byte>)
    requires Holds(disk, was, file, content, opens)
    modifies disk
    ensures Holds(disk, was, file, content + part, opens)
  {
    disk.Append(file, part, opens);
  }

  /** Writes the records one after the other; a crash leaves a part of the next one. */
  method WriteRecords(reader: Reader, disk: Disk, file: Name, stats: Stats, opens: bool, fuel: nat,
      cut: nat) returns (left: nat, crashed: bool, ghost content: seq<Byte>)
    requires Keyed(reader.fdMap) && Savable(reader.fdMap)
    modifies disk
    ensures Holds(disk, old(disk.files), file, content, opens)
            && Beginning(content, reader.fdMap, reader.config.fileMap, stats)
    ensures !crashed ==> ByFile(RecordsFrom(content, 0)) == Snapshot(reader.fdMap, reader.config.fileMap, stats)
    ensures fuel >= |reader.fdMap| + 2 ==> !crashed && left >= 2
  {
    hide Encoded, EncodedAll, RecordsFrom, ByFile, Snapshot, Written, Beginning, Savable, Holds;
    ghost var fdMap, fileMap := reader.fdMap, reader.config.fileMap;
    ghost var rs: seq<Record> := [];
    left := fuel;
    disk.Truncate(file, opens);
    var keys := reader.fdMap.Keys;
    content := [];
    WrittenNone(fdMap, fileMap, stats);
    HoldsNothing(disk, old(disk.files), file, opens);
    while keys != {}
      invariant keys <= fdMap.Keys && left + |fdMap.Keys| >= fuel + |keys|
      invariant Holds(disk, old(disk.files), file, content, opens) && content == EncodedAll(rs)
      invariant Written(rs, keys, fdMap, fileMap, stats)
      decreases |keys|
    {
      var k :| k in keys;
      var item := reader.fdMap[k];
      if reader.config.FindFile(item.pathfile).None? || item.origfile !in stats {
        WrittenSkip(rs, keys, fdMap, fileMap, stats, k);
        keys := keys - {k};
        continue;
      }
      var r := Record(item.offset, stats[item.origfile].0, stats[item.origfile].1, item.pathfile, item.origfile);
      if left == 0 {
        var part := Encoded(r);
        part := if cut <= |part| then part[..cut] else part;
        BeginningCut(rs, keys, fdMap, fileMap, stats, k, part);
        WritePart(disk, file, part, opens, old(disk.files), content);
        return 0, true, content + part;
      }
      left := left - 1;
      WritePart(disk, file, Encoded(r), opens, old(disk.files), content);
      WrittenMore(rs, keys, fdMap, fileMap, stats, k);
      EncodedAppend(rs, r);
      keys, rs, content := keys - {k}, rs + [r], content + Encoded(r);
    }
    WrittenAll(rs, fdMap, fileMap, stats);
    crashed := false;
  }

  lemma HoldsNothing(disk: Disk, was: map<Name, seq<Byte>>, file: Name, opens: bool)
    requires disk.files == if opens then was[file := []] else was
    ensures Holds(disk, was, file, [], opens) && EncodedAll([]) == []
  {
  }

  // ----- what survives a crash -----

  /** The snapshots that were begun so far. */
  type History = seq<map<Name, Loaded>>

  /** A file tells no more than some earlier snapshot. */
  ghost predicate Traces(bytes: seq<Byte>, history: History) {
    exists j | 0 <= j < |history| :: Within(ByFile(RecordsFrom(bytes, 0)), history[j])
  }

  ghost predicate DiskOk(files: map<Name, seq<Byte>>, offsetFile: Name, history: History) {
    && (offsetFile in files ==> Traces(files[offsetFile], history))
    && (offsetFile + SWP in files ==> Traces(files[offsetFile + SWP], history))
  }

  lemma TracesMore(bytes: seq<Byte>, history: History, snapshot: map<Name, Loaded>)
    ensures Traces(bytes, history) ==> Traces(bytes, history + [snapshot])
    ensures Within(ByFile(RecordsFrom(bytes, 0)), snapshot) ==> Traces(bytes, history + [snapshot])
  {
    hide Within, ByFile, RecordsFrom;
    var more := history + [snapshot];
    if Traces(bytes, history) {
      var j :| 0 <= j < |history| && Within(ByFile(RecordsFrom(bytes, 0)), history[j]);
      assert more[j] == history[j];
    }
    assert more[|history|] == snapshot;
  }

  lemma BeginningTraces(bytes: seq<Byte>, fdMap: FdMap, fileMap: map<Name, Info>, stats: Stats, history: History)
    requires Beginning(bytes, fdMap, fileMap, stats)
    ensures Traces(bytes, history + [Snapshot(fdMap, fileMap, stats)])
  {
    hide Traces;
    var rs :| Records(rs, fdMap, fileMap, stats) && bytes <= EncodedAll(rs);
    CutWithin(bytes, rs, fdMap, fileMap, stats);
    TracesMore(bytes, history, Snapshot(fdMap, fileMap, stats));
  }

  /** A snapshot tells, of each regular file whose path is configured, the path and the offset. */
  lemma SnapshotIs(fdMap: FdMap, fileMap: map<Name, Info>, stats: Stats)
    ensures var s := Snapshot(fdMap, fileMap, stats);
            && (forall k :: k in s <==> k in fdMap && fdMap[k].pathfile in fileMap && k in stats)
            && forall k | k in s :: s[k] == Loaded(fdMap[k].offset, fdMap[k].pathfile, k)
  {
  }

  /** The files after one has been given another name. */
  function Shifted(files: map<Name, seq<Byte>>, from: Name, to: Name): map<Name, seq<Byte>> {
    if from in files then (files - {from})[to := files[from]] else files
  }

  function Swapped(files: map<Name, seq<Byte>>, offsetFile: Name, left: nat): map<Name, seq<Byte>> {
    var aside := Shifted(files, offsetFile, offsetFile + BAK);
    if left == 1 then aside else Shifted(aside, offsetFile + SWP, offsetFile)
  }

  lemma EndingsDiffer(offsetFile: Name)
    ensures offsetFile + SWP != offsetFile && offsetFile + BAK != offsetFile && offsetFile + SWP != offsetFile + BAK
  {
    assert (offsetFile + SWP)[|offsetFile|..] == SWP && (offsetFile + BAK)[|offsetFile|..] == BAK;
  }

  lemma SwappedTells(files: map<Name, seq<Byte>>, offsetFile: Name, left: nat, history: History)
    requires left > 0 && DiskOk(files, offsetFile, history)
    ensures var after, path := Swapped(files, offsetFile, left), offsetFile + SWP;
            && DiskOk(after, offsetFile, history)
            && (left == 1 ==> Found(after, offsetFile) == map[])
            && (left > 1 ==> path !in after)
            && (left > 1 && path in files ==> Found(after, offsetFile) == ByFile(RecordsFrom(files[path], 0)))
            && (offsetFile in files ==> offsetFile + BAK in after && after[offsetFile + BAK] == files[offsetFile])
            && forall n | n !in {offsetFile, path, offsetFile + BAK} ::
                 (n in after <==> n in files) && (n in after ==> after[n] == files[n])
  {
    hide Traces, ByFile, RecordsFrom;
    EndingsDiffer(offsetFile);
  }

  /** The new file is being written; the present one is as it was. */
  lemma HeldTells(was: map<Name, seq<Byte>>, offsetFile: Name, content: seq<Byte>, opens: bool, history: History,
      snapshot: map<Name, Loaded>)
    requires DiskOk(was, offsetFile, history) && Traces(content, history + [snapshot])
    ensures var files := if opens then was[offsetFile + SWP := content] else was;
            && DiskOk(files, offsetFile, history + [snapshot]) && Found(files, offsetFile) == Found(was, offsetFile)
            && (offsetFile in files <==> offsetFile in was)
            && (offsetFile in was ==> files[offsetFile] == was[offsetFile])
            && forall n | n != offsetFile + SWP :: (n in files <==> n in was) && (n in files ==> files[n] == was[n])
  {
    hide Traces, ByFile, RecordsFrom;
    EndingsDiffer(offsetFile);
    if offsetFile in was {
      TracesMore(was[offsetFile], history, snapshot);
    }
    if offsetFile + SWP in was {
      TracesMore(was[offsetFile + SWP], history, snapshot);
    }
  }

  /** Saves the offsets; fuel and cut say where a crash interrupts it. Whatever happens the disk tells
      nothing but what this or an earlier snapshot told. If the new file opens, what is found is what was
      found before, the complete new snapshot, or nothing, and the new snapshot unless there is a crash. */
  method Save(reader: Reader, disk: Disk, offsetFile: Name, stats: Stats, opens: bool, fuel: nat, cut: nat,
      ghost history: History)
    returns (crashed: bool)
    requires Keyed(reader.fdMap) && Savable(reader.fdMap) && DiskOk(disk.files, offsetFile, history)
    modifies disk
    ensures DiskOk(disk.files, offsetFile, history + [Snapshot(reader.fdMap, reader.config.fileMap, stats)])
    ensures fuel >= |reader.fdMap| + 2 ==> !crashed
    ensures var found, snapshot := Found(disk.files, offsetFile), Snapshot(reader.fdMap, reader.config.fileMap, stats);
            opens ==>
              if crashed then found == old(Found(disk.files, offsetFile)) || found == snapshot || found == map[]
              else found == snapshot
    ensures opens && !crashed ==>
              var found, fdMap := Found(disk.files, offsetFile), reader.fdMap;
              && (forall k :: k in found <==>
                   k in fdMap && fdMap[k].pathfile in reader.config.fileMap && k in stats)
              && forall k | k in found :: found[k] == Loaded(fdMap[k].offset, fdMap[k].pathfile, k)
    ensures !crashed ==> offsetFile + SWP !in disk.files
    ensures !crashed && offsetFile in old(disk.files) ==>
            offsetFile + BAK in disk.files && disk.files[offsetFile + BAK] == old(disk.files)[offsetFile]
    ensures forall n | n !in {offsetFile, offsetFile + SWP, offsetFile + BAK} ::
              (n in disk.files <==> n in old(disk.files)) && (n in disk.files ==> disk.files[n] == old(disk.files)[n])
  {
    hide Beginning, Traces, Snapshot, ByFile, RecordsFrom, Savable, DiskOk, Found, Swapped;
    ghost var snapshot := Snapshot(reader.fdMap, reader.config.fileMap, stats);
    SnapshotIs(reader.fdMap, reader.config.fileMap, stats);
    var left;
    ghost var content;
    left, crashed, content := WriteRecords(reader, disk, offsetFile + SWP, stats, opens, fuel, cut);
    BeginningTraces(content, reader.fdMap, reader.config.fileMap, stats, history);
    HeldTells(old(disk.files), offsetFile, content, opens, history, snapshot);
    if left > 0 {
      SwappedTells(disk.files, offsetFile, left, history + [snapshot]);
    }
    if crashed || left == 0 {
      return true;
    }
    crashed := Swap(disk, offsetFile, left);
  }

  /** The present file becomes the last but one, and the new one the present one, unless there is a crash after
      the first step. */
  method Swap(disk: Disk, offsetFile: Name, left: nat) returns (crashed: bool)
    requires left > 0
    modifies disk
    ensures crashed == (left == 1) && disk.files == Swapped(old(disk.files), offsetFile, left)
  {
    var ok := disk.Rename(offsetFile, offsetFile + BAK);
    if left == 1 {
      return true;
    }
    ok := disk.Rename(offsetFile + SWP, offsetFile);
    crashed := false;
  }

  // ----- loading -----

  function ItemOf(r: Loaded, lastTime: int, moveProtected: bool): FdItem {
    FdItem(r.pathfile, r.origfile, r.offset, lastTime, moveProtected, null)
  }

  function Overlaid(fdMap: FdMap, found: map<Name, Loaded>, lastTime: int, moveProtected: bool): FdMap {
    map k | k in fdMap.Keys + found.Keys :: if k in found then ItemOf(found[k], lastTime, moveProtected) else fdMap[k]
  }

  ghost function OverlaidTails(tails: TailMap, found: map<Name, Loaded>): TailMap {
    map k | k in tails.Keys + found.Keys :: if k in found then Tail(None, found[k].offset, []) else tails[k]
  }

  lemma OverlaidIs(fdMap: FdMap, found: map<Name, Loaded>, lastTime: int, moveProtected: bool)
    ensures var after := Overlaid(fdMap, found, lastTime, moveProtected);
            && after.Keys == fdMap.Keys + found.Keys
            && (forall k | k in found :: after[k] ==
                 FdItem(found[k].pathfile, found[k].origfile, found[k].offset, lastTime, moveProtected, null))
            && (forall k | k in fdMap && k !in found :: after[k] == fdMap[k])
  {
  }

  lemma OverlaidNone(fdMap: FdMap, tails: TailMap, lastTime: int, moveProtected: bool)
    ensures Overlaid(fdMap, map[], lastTime, moveProtected) == fdMap && OverlaidTails(tails, map[]) == tails
  {
  }

  lemma OverlaidMore(fdMap: FdMap, found: map<Name, Loaded>, r: Loaded, lastTime: int, moveProtected: bool)
    ensures Overlaid(fdMap, found, lastTime, moveProtected)[r.origfile := ItemOf(r, lastTime, moveProtected)]
            == Overlaid(fdMap, found[r.origfile := r], lastTime, moveProtected)
  {
  }

  lemma OverlaidTailsMore(tails: TailMap, found: map<Name, Loaded>, r: Loaded)
    ensures OverlaidTails(tails, found)[r.origfile := Tail(None, r.offset, [])] ==
            OverlaidTails(tails, found[r.origfile := r])
  {
  }

  /** Sets the offsets that the file tells; time and protection of these items are whatever the memory holds. */
  method LoadOffsets(reader: Reader, disk: Disk, offsetFile: Name, lastTime: int, moveProtected: bool)
    modifies reader`fdMap, reader`tails
    ensures var found := Found(disk.files, offsetFile);
            && reader.fdMap.Keys == old(reader.fdMap).Keys + found.Keys
            && (forall k | k in found :: reader.fdMap[k] ==
                 FdItem(found[k].pathfile, found[k].origfile, found[k].offset, lastTime, moveProtected, null))
            && (forall k | k in old(reader.fdMap) && k !in found :: reader.fdMap[k] == old(reader.fdMap)[k])
    ensures reader.fdMap == Overlaid(old(reader.fdMap), Found(disk.files, offsetFile), lastTime, moveProtected)
    ensures reader.tails == OverlaidTails(old(reader.tails), Found(disk.files, offsetFile))
  {
    hide Overlaid, OverlaidTails, RecordAt, ByFile, RecordsFrom;
    OverlaidNone(reader.fdMap, reader.tails, lastTime, moveProtected);
    OverlaidIs(reader.fdMap, Found(disk.files, offsetFile), lastTime, moveProtected);
    if offsetFile !in disk.files {
      return;
    }
    var s, pos := disk.files[offsetFile], 0;
    ghost var all, ls: seq<Loaded> := RecordsFrom(s, 0), [];
    ByFileNone();
    while true
      invariant pos <= |s| && all == ls + RecordsFrom(s, pos)
      invariant reader.fdMap == Overlaid(old(reader.fdMap), ByFile(ls), lastTime, moveProtected)
      invariant reader.tails == OverlaidTails(old(reader.tails), ByFile(ls))
      decreases |s| - pos
    {
      RecordsStep(s, pos, ls);
      var r := ReadRecord(s, pos);
      if r.None? {
        break;
      }
      var item := r.value.0;
      OverlaidMore(old(reader.fdMap), ByFile(ls), item, lastTime, moveProtected);
      OverlaidTailsMore(old(reader.tails), ByFile(ls), item);
      NextByFile(ls, item);
      reader.fdMap := reader.fdMap[item.origfile := ItemOf(item, lastTime, moveProtected)];
      reader.tails := reader.tails[item.origfile := Tail(None, item.offset, [])];
      pos, ls := r.value.1, ls + [item];
    }
  }

  lemma ByFileNone()
    ensures ByFile([]) == map[]
  {
  }

  lemma RecordsStep(s: seq<Byte>, pos: nat, ls: seq<Loaded>)
    requires pos <= |s|
    ensures match RecordAt(s, pos)
            case None => RecordsFrom(s, pos) == [] && ls + [] == ls
            case Some((r, next)) => pos < next <= |s| && ls + RecordsFrom(s, pos) == (ls + [r]) + RecordsFrom(s, next)
  {
  }

  /** A new reader starts with what the offset file tells. */
  method Start(config: Config, files: Files, message: Message, maxfd: int, maxLines: int, maxLineBytes: int,
      disk: Disk, offsetFile: Name, lastTime: int, moveProtected: bool)
    returns (reader: Reader)
    requires config.Valid() && files.Valid() && message.Wired()
    ensures fresh(reader) && reader.Valid() && reader.Exact()
    ensures reader.config == config && reader.files == files && reader.message == message
    ensures reader.maxfd == maxfd && reader.maxLines == maxLines && reader.maxLineBytes == maxLineBytes
    ensures reader.aliasMap == map[] && reader.Streams() == {} && reader.Opened() == map[]
    ensures var found := Found(disk.files, offsetFile);
            && reader.fdMap.Keys == found.Keys && reader.tails.Keys == found.Keys
            && forall k | k in found ::
                 && reader.fdMap[k] == FdItem(found[k].pathfile, k, found[k].offset, lastTime, moveProtected, null)
                 && reader.tails[k] == Tail(None, found[k].offset, [])
  {
    hide RecordAt, RecordsFrom, Overlaid, OverlaidTails, Keyed, Unshared, Agree, Faithful, ByFile;
    reader := new Reader(config, files, message, maxfd, maxLines, maxLineBytes);
    LoadOffsets(reader, disk, offsetFile, lastTime, moveProtected);
    if offsetFile in disk.files {
      ByFileKeys(RecordsFrom(disk.files[offsetFile], 0));
    }
    StartAgrees(Found(disk.files, offsetFile), lastTime, moveProtected, files.data);
    assert reader.Opened() == map[];
  }

  lemma StartAgrees(found: map<Name, Loaded>, lastTime: int, moveProtected: bool, data: FileData)
    requires forall k | k in found :: found[k].origfile == k
    ensures var fdMap, tails := Overlaid(map[], found, lastTime, moveProtected), OverlaidTails(map[], found);
            && fdMap.Keys == found.Keys && tails.Keys == found.Keys
            && Keyed(fdMap) && Unshared(fdMap) && Agree(fdMap, tails, data)
            && (forall k | k in found ::
               fdMap[k].offset == found[k].offset && tails[k] == Tail(None, found[k].offset, []))
            && (forall k | k in fdMap :: fdMap[k].fs == null)
  {
    var fdMap, tails := Overlaid(map[], found, lastTime, moveProtected), OverlaidTails(map[], found);
    forall k | k in fdMap ensures Faithful(tails[k], fdMap[k].offset, data) {
    }
  }

  /** A start makes the items that a save right after it makes found again, if all these files are regular and
      their paths configured: the next life finds the same. */
  method Resave(config: Config, files: Files, message: Message, maxfd: int, maxLines: int, maxLineBytes: int,
      disk: Disk, offsetFile: Name, lastTime: int, moveProtected: bool, stats: Stats)
    returns (reader: Reader)
    requires config.Valid() && files.Valid() && message.Wired()
    requires forall k | k in Found(disk.files, offsetFile) ::
               Found(disk.files, offsetFile)[k].pathfile in config.fileMap && k in stats
    modifies disk
    ensures Found(disk.files, offsetFile) == old(Found(disk.files, offsetFile))
  {
    hide Found, DiskOk, Reader.Valid, Reader.Exact;
    reader := Start(config, files, message, maxfd, maxLines, maxLineBytes, disk, offsetFile, lastTime, moveProtected);
    FoundFits(disk.files, offsetFile);
    StartKeyed(reader);
    ghost var was := Found(disk.files, offsetFile);
    ghost var history := AnyDisk(disk.files, offsetFile);
    var crashed := Save(reader, disk, offsetFile, stats, true, |reader.fdMap| + 2, 0, history);
    SameFound(was, Found(disk.files, offsetFile));
  }

  lemma SameFound(a: map<Name, Loaded>, b: map<Name, Loaded>)
    requires (forall k :: k in b <==> k in a) && forall k | k in b :: b[k] == a[k]
    ensures a == b
  {
  }

  lemma StartKeyed(reader: Reader)
    requires reader.Valid()
    ensures Keyed(reader.fdMap)
  {
  }

  /** What is found can be saved again. */
  lemma FoundFits(files: map<Name, seq<Byte>>, offsetFile: Name)
    ensures forall k | k in Found(files, offsetFile) ::
              var r := Found(files, offsetFile)[k];
              r.offset < TWO_64 && |r.pathfile| < TWO_32 && |r.origfile| < TWO_32 && r.origfile == k
  {
    hide RecordsFrom, ByFile;
    if offsetFile in files {
      AllReadFit(files[offsetFile], 0);
      ByFileFrom(RecordsFrom(files[offsetFile], 0));
      ByFileKeys(RecordsFrom(files[offsetFile], 0));
    }
  }

  lemma AnyDisk(files: map<Name, seq<Byte>>, offsetFile: Name) returns (history: History)
    ensures DiskOk(files, offsetFile, history)
  {
    hide ByFile, RecordsFrom;
    var a := if offsetFile in files then ByFile(RecordsFrom(files[offsetFile], 0)) else map[];
    var b := if offsetFile + SWP in files then ByFile(RecordsFrom(files[offsetFile + SWP], 0)) else map[];
    history := [a, b];
    assert history[0] == a && history[1] == b;
  }

  lemma {:induction false} ByFileKeys(ls: seq<Loaded>)
    ensures forall k | k in ByFile(ls) :: ByFile(ls)[k].origfile == k
  {
    if ls != [] {
      ByFileKeys(ls[..|ls| - 1]);
    }
  }
}
