/** The message queue, the error file behind it, and the producer that empties the queue. */
module MessageFlow {
  import opened Bytes
  import opened Options
  import opened Names
  import opened MessageStores
  import opened Sequences

  /** The files of the host, by name. */
  class Disk {
    var files: map<Name, seq<Byte>>

    constructor ()
      ensures files == map[]
    {
      files := map[];
    }

    ghost function Contents(name: Name): seq<Byte>
      reads this
    {
      if name in files then files[name] else []
    }

    /** Appends to a file, which comes into being if need be; nothing happens when it cannot be opened. */
    method Append(name: Name, bytes: seq<Byte>, opens: bool)
      modifies this
      ensures files == if opens then old(files)[name := old(Contents(name)) + bytes] else old(files)
    {
      if opens {
        files := files[name := (if name in files then files[name] else []) + bytes];
      }
    }

    /** Opens a file for writing from its start. */
    method Truncate(name: Name, opens: bool)
      modifies this
      ensures files == if opens then old(files)[name := []] else old(files)
    {
      if opens {
        files := files[name := []];
      }
    }

    method Rename(from: Name, to: Name) returns (ok: bool)
      modifies this
      ensures ok <==> from in old(files)
      ensures files == if from in old(files) then (old(files) - {from})[to := old(files)[from]] else old(files)
    {
      ok := from in files;
      if ok {
        files := (files - {from})[to := files[from]];
      }
    }
  }

  class MessageQueue {
    var items: seq<MessageItem>

    constructor ()
      ensures items == []
    {
      items := [];
    }

    method Push(item: MessageItem)
      modifies this
      ensures items == old(items) + [item]
    {
      items := items + [item];
    }

    method TryPop() returns (r: Option<MessageItem>)
      modifies this
      ensures if old(items) == [] then r == None && items == []
              else r == Some(old(items)[0]) && items == old(items)[1..]
    {
      if items == [] {
        r := None;
      } else {
        r := Some(items[0]);
        items := items[1..];
      }
    }
  }

  /** The record that starts at pos. */
  function ItemAt(s: seq<Byte>, pos: nat): Option<(MessageItem, nat)>
    requires pos <= |s|
  {
    if |s| - pos < 12 then None
    else
      var t := pos + 12 + Decode(s[pos + 8..pos + 12]);
      if |s| < t + 4 then None
      else
        var m := t + 4 + Decode(s[t..t + 4]);
        if |s| < m then None
        else Some((MessageItem(ToInt32(Decode(s[pos..pos + 4])), ToInt32(Decode(s[pos + 4..pos + 8])), s[pos + 12..t],
            s[t + 4..m]), m))
  }

  lemma ParseAt(s: seq<Byte>, pos: nat)
    requires pos <= |s|
    ensures match ItemAt(s, pos)
            case None => ParseAll(s[pos..]) == []
            case Some((item, next)) => pos < next <= |s| && ParseAll(s[pos..]) == [item] + ParseAll(s[next..])
  {
    hide Decode, ToInt32;
    var r := s[pos..];
    if |r| >= 12 {
      assert r[0..4] == s[pos..pos + 4] && r[4..8] == s[pos + 4..pos + 8] && r[8..12] == s[pos + 8..pos + 12];
      var t := 12 + Decode(r[8..12]);
      if |r| >= t + 4 {
        assert r[t..t + 4] == s[pos + t..pos + t + 4] && r[12..t] == s[pos + 12..pos + t];
        var m := t + 4 + Decode(r[t..t + 4]);
        if |r| >= m {
          assert r[t + 4..m] == s[pos + t + 4..pos + m] && r[m..] == s[pos + m..];
        }
      }
    }
  }

  /** The successive reads of one record; a short read ends the loading. */
  method ReadItem(s: seq<Byte>, start: nat) returns (r: Option<(MessageItem, nat)>)
    requires start <= |s|
    ensures r == ItemAt(s, start)
  {
    hide Decode, ToInt32;
    var pos := start;
    if |s| - pos < 12 {
      return None;
    }
    var partId := Decode(s[pos..pos + 4]);
    var tryNum := Decode(s[pos + 4..pos + 8]);
    var topicNameSize := Decode(s[pos + 8..pos + 12]);
    pos := pos + 12;
    if |s| - pos < topicNameSize {
      return None;
    }
    var topicName := s[pos..pos + topicNameSize];
    pos := pos + topicNameSize;
    if |s| - pos < 4 {
      return None;
    }
    var messageSize := Decode(s[pos..pos + 4]);
    pos := pos + 4;
    if |s| - pos < messageSize {
      return None;
    }
    var message := s[pos..pos + messageSize];
    r := Some((MessageItem(ToInt32(partId), ToInt32(tryNum), topicName, message), pos + messageSize));
  }

  class DataStore {
    const queue: MessageQueue
    const disk: Disk

    constructor (queue: MessageQueue, disk: Disk)
      ensures this.queue == queue && this.disk == disk
    {
      this.queue, this.disk := queue, disk;
    }

    /** Empties the queue into the file. */
    method SaveQueue(file: Name, opens: bool)
      modifies queue, disk
      ensures queue.items == []
      ensures disk.files ==
              if opens then old(disk.files)[file := old(disk.Contents(file)) + SerializeAll(old(queue.items))]
              else old(disk.files)
    {
      hide Serialize, SerializeAll;
      disk.Append(file, [], opens);
      SavedNone(disk, file);
      ghost var q, base := queue.items, old(disk.Contents(file));
      ghost var n := 0;
      while queue.items != []
        invariant n <= |q| && queue.items == q[n..]
        invariant disk.files == if opens then old(disk.files)[file := base + SerializeAll(q[..n])] else old(disk.files)
        decreases |queue.items|
      {
        var r := queue.TryPop();
        match r
        case Some(item) =>
          SavedOneMore(base, q, n);
          disk.Append(file, Serialize(item), opens);
          n := n + 1;
      }
      assert q[..n] == q;
    }

    method SaveItem(file: Name, item: MessageItem, opens: bool)
      modifies disk
      ensures disk.files == if opens then old(disk.files)[file := old(disk.Contents(file)) + Serialize(item)]
                            else old(disk.files)
    {
      disk.Append(file, Serialize(item), opens);
    }

    /** Queues the records of the file up to the first incomplete one, and moves the file aside; a file
        that does not open is left alone, and one that cannot be renamed stays where it is. */
    method LoadMessages(file: Name, opens: bool, renames: bool)
      modifies queue, disk
      ensures queue.items == old(queue.items) + if opens then ParseAll(old(disk.Contents(file))) else []
      ensures disk.files == if opens && renames && file in old(disk.files) then
                              (old(disk.files) - {file})[file + BAK := old(disk.files)[file]]
                            else old(disk.files)
    {
      hide ParseItem, ParseAll, ItemAt, SerializeAll, WellFormed;
      NothingThere();
      if file !in disk.files || !opens {
        return;
      }
      var s, pos := disk.files[file], 0;
      ghost var q, all, n := queue.items, ParseAll(s), 0;
      assert s[0..] == s;
      while true
        invariant pos <= |s| && disk.files == old(disk.files)
        invariant n <= |all| && ParseAll(s[pos..]) == all[n..] && queue.items == q + all[..n]
        decreases |s| - pos
      {
        ParseAt(s, pos);
        var r := ReadItem(s, pos);
        if r.None? {
          break;
        }
        Advance(q, all, n, r.value.0, ParseAll(s[r.value.1..]));
        queue.Push(r.value.0);
        pos, n := r.value.1, n + 1;
      }
      assert all[..n] == all;
      if renames {
        var ok := disk.Rename(file, file + BAK);
      }
    }
  }

  lemma SavedNone(disk: Disk, file: Name)
    ensures SerializeAll([]) == [] && disk.Contents(file) + [] == disk.Contents(file)
  {
  }

  lemma SavedOneMore(base: seq<Byte>, q: seq<MessageItem>, n: nat)
    requires n < |q|
    ensures base + SerializeAll(q[..n]) + Serialize(q[n]) == base + SerializeAll(q[..n + 1])
  {
    hide Serialize, SerializeAll;
    SerializeAppend(q[..n], [q[n]]);
    SerializeOne(q[n]);
    assert q[..n + 1] == q[..n] + [q[n]];
    var a, b := SerializeAll(q[..n]), Serialize(q[n]);
    assert base + a + b == base + (a + b);
  }

  lemma Advance(q: seq<MessageItem>, all: seq<MessageItem>, n: nat, item: MessageItem, rest: seq<MessageItem>)
    requires n <= |all| && all[n..] == [item] + rest
    ensures n < |all| && all[n + 1..] == rest && q + all[..n] + [item] == q + all[..n + 1]
  {
    assert all[n..][0] == item && all[n..][1..] == rest;
  }

  lemma SerializeOne(item: MessageItem)
    ensures SerializeAll([item]) == Serialize(item)
  {
    assert SerializeAll([item]) == Serialize(item) + SerializeAll([]);
  }

  // ----- what is conserved -----

  type Core = (int, seq<Byte>, seq<Byte>)

  /** Partition, topic and body of a message; the counter does not survive the error file. */
  function CoreOf(item: MessageItem): Core {
    (item.partId, item.topicName, item.message)
  }

  /** Messages without a topic or a body are dropped by the error path and are not counted. */
  predicate Counted(item: MessageItem) {
    item.topicName != [] && item.message != []
  }

  ghost function One(item: MessageItem): multiset<Core> {
    if Counted(item) then multiset{CoreOf(item)} else multiset{}
  }

  ghost function Cores(items: seq<MessageItem>): multiset<Core> {
    if items == [] then multiset{} else One(items[0]) + Cores(items[1..])
  }

  lemma SumRegroup(x: multiset<Core>, y: multiset<Core>, z: multiset<Core>)
    ensures (x + y) + z == x + (y + z)
  {
  }

  lemma CoresFirst(x: MessageItem, s: seq<MessageItem>)
    ensures Cores([x] + s) == One(x) + Cores(s)
  {
    Consed(x, s);
  }

  lemma {:induction false} CoresAppend(a: seq<MessageItem>, b: seq<MessageItem>)
    ensures Cores(a + b) == Cores(a) + Cores(b)
  {
    if a == [] {
      assert a + b == b;
    } else {
      hide Cores, One;
      var x, t := a[0], a[1..];
      Uncons(a, b);
      CoresFirst(x, t);
      CoresFirst(x, t + b);
      CoresAppend(t, b);
      SumRegroup(One(x), Cores(t), Cores(b));
    }
  }

  lemma CoresOne(item: MessageItem)
    ensures Cores([item]) == One(item)
  {
    assert [item][1..] == [];
  }

  lemma CoresTake(s: seq<MessageItem>, i: nat)
    requires i < |s|
    ensures Cores(s) == Cores(s[..i] + s[i + 1..]) + One(s[i])
  {
    hide Cores, One;
    assert s == s[..i] + ([s[i]] + s[i + 1..]);
    CoresAppend(s[..i], [s[i]] + s[i + 1..]);
    CoresAppend([s[i]], s[i + 1..]);
    CoresAppend(s[..i], s[i + 1..]);
    CoresOne(s[i]);
    assert Cores(s[..i]) + (One(s[i]) + Cores(s[i + 1..])) == (Cores(s[..i]) + Cores(s[i + 1..])) + One(s[i]);
  }

  /** The file holds whole records and nothing else. */
  ghost predicate WellFormed(s: seq<Byte>) {
    s == SerializeAll(ParseAll(s))
  }

  lemma WellFormedAppend(s: seq<Byte>, q: seq<MessageItem>)
    requires WellFormed(s) && AllFit(q)
    ensures WellFormed(s + SerializeAll(q)) && ParseAll(s + SerializeAll(q)) == ParseAll(s) + q
  {
    hide ParseAll, Fits;
    ParsedFit(s);
    SavedIsReloaded(ParseAll(s), q);
    SerializeAppend(ParseAll(s), q);
    assert AllFit(ParseAll(s) + q);
  }

  /** A message that a queue took, with the inode that its text was read from, if it was. */
  datatype Entry = Entry(item: MessageItem, source: Option<nat>)

  ghost function ItemsOf(entries: seq<Entry>): (r: seq<MessageItem>)
    ensures |r| == |entries| && forall i | 0 <= i < |r| :: r[i] == entries[i].item
  {
    seq(|entries|, i requires 0 <= i < |entries| => entries[i].item)
  }

  /** The messages that come from inode i. */
  ghost function Of(entries: seq<Entry>, i: nat): seq<Entry> {
    if entries == [] then []
    else (if entries[0].source == Some(i) then [entries[0]] else []) + Of(entries[1..], i)
  }

  lemma OfFirst(e: Entry, s: seq<Entry>, i: nat)
    ensures Of([e] + s, i) == (if e.source == Some(i) then [e] else []) + Of(s, i)
  {
    Consed(e, s);
  }

  lemma {:induction false} OfAppend(a: seq<Entry>, b: seq<Entry>, i: nat)
    ensures Of(a + b, i) == Of(a, i) + Of(b, i)
  {
    if a == [] {
      assert a + b == b;
    } else {
      hide Of;
      var e, t := a[0], a[1..];
      Uncons(a, b);
      OfFirst(e, t, i);
      OfFirst(e, t + b, i);
      OfAppend(t, b, i);
      Regroup(if e.source == Some(i) then [e] else [], Of(t, i), Of(b, i));
    }
  }

  /** Only one inode. */
  lemma {:induction false} OfOne(entries: seq<Entry>, i: nat, j: nat)
    requires forall k | 0 <= k < |entries| :: entries[k].source == Some(j)
    ensures Of(entries, i) == if i == j then entries else []
  {
    if entries != [] {
      OfOne(entries[1..], i, j);
      assert entries == [entries[0]] + entries[1..];
    }
  }

  /** What has come in since the journal was as it was. */
  ghost function Since(was: seq<Entry>, entries: seq<Entry>): seq<Entry>
    requires was <= entries
  {
    entries[|was|..]
  }

  lemma SinceMore(was: seq<Entry>, entries: seq<Entry>, more: seq<Entry>, i: nat)
    requires was <= entries
    ensures was <= entries + more && Of(Since(was, entries + more), i) == Of(Since(was, entries), i) + Of(more, i)
  {
    OfAppend(Since(was, entries), more, i);
    assert (entries + more)[|was|..] == entries[|was|..] + more;
  }

  /** Every message that the queues of a host took, over all lives of the program. */
  class Journal {
    ghost var entries: seq<Entry>

    constructor ()
      ensures entries == []
    {
      entries := [];
    }
  }

  class Message {
    const queue: MessageQueue
    const journal: Journal
    const disk: Disk
    const store: DataStore
    const limit: int
    const sendError: Name

    constructor (disk: Disk, journal: Journal, limit: int, sendError: Name)
      ensures this.disk == disk && this.journal == journal && this.limit == limit && this.sendError == sendError
      ensures store.queue == queue && store.disk == disk && fresh(queue) && fresh(store)
      ensures queue.items == []
    {
      this.disk, this.journal, this.limit, this.sendError := disk, journal, limit, sendError;
      var q := new MessageQueue();
      queue := q;
      store := new DataStore(q, disk);
    }

    ghost predicate Wired() {
      store.queue == queue && store.disk == disk
    }

    /** Every message that the journal names. */
    ghost function Accepted(): seq<MessageItem>
      reads journal
    {
      ItemsOf(journal.entries)
    }

    /** The messages in the error file. */
    ghost function Failed(): seq<MessageItem>
      reads disk
    {
      ParseAll(disk.Contents(sendError))
    }

    ghost predicate Tidy()
      reads queue, disk
    {
      Wired() && AllFit(queue.items) && WellFormed(disk.Contents(sendError))
    }

    /** Takes a message unless more than limit messages are waiting. */
    method SetMessage(topicName: seq<Byte>, partId: int, message: seq<Byte>,
        ghost source: Option<nat>) returns (ok: bool)
      modifies journal, queue
      ensures ok <==> |old(queue.items)| <= limit
      ensures var item := MessageItem(partId, 0, topicName, message);
              if ok then queue.items == old(queue.items) + [item]
                  && journal.entries == old(journal.entries) + [Entry(item, source)]
              else queue.items == old(queue.items) && journal.entries == old(journal.entries)
    {
      if |queue.items| > limit {
        return false;
      }
      var item := MessageItem(partId, 0, topicName, message);
      queue.Push(item);
      journal.entries := journal.entries + [Entry(item, source)];
      ok := true;
    }

    /** Hands out the oldest message; without one the caller's variables keep their values. */
    method Send(topicName0: seq<Byte>, partId0: int, message0: seq<Byte>)
      returns (ok: bool, topicName: seq<Byte>, partId: int, message: seq<Byte>)
      modifies queue
      ensures ok <==> old(queue.items) != []
      ensures if ok then
                var item := old(queue.items)[0];
                queue.items == old(queue.items)[1..] && topicName == item.topicName && partId == item.partId
                    && message == item.message
              else queue.items == [] && topicName == topicName0 && partId == partId0 && message == message0
    {
      topicName, partId, message := topicName0, partId0, message0;
      var r := queue.TryPop();
      if r.None? {
        return false, topicName, partId, message;
      }
      partId, message, topicName := r.value.partId, r.value.message, r.value.topicName;
      ok := true;
    }

    /** Writes a failed message to the error file. The counter of the written record is never set, so
        it is whatever the memory holds. */
    method ErrorCallback(topicName: seq<Byte>, partId: int, message: seq<Byte>, tryNum: int, opens: bool)
      requires Tidy() && Fits(MessageItem(partId, tryNum, topicName, message))
      modifies disk
      ensures Tidy()
      ensures var item := MessageItem(partId, tryNum, topicName, message);
              Failed() == old(Failed()) + (if topicName != [] && message != [] && opens then [item] else [])
    {
      if topicName == [] || message == [] {
        return;
      }
      hide SerializeAll, ParseAll, Fits, Serialize;
      var item := MessageItem(partId, tryNum, topicName, message);
      ghost var s := disk.Contents(sendError);
      SerializeOne(item);
      WellFormedAppend(s, [item]);
      store.SaveItem(sendError, item, opens);
    }

    method SaveMessage(opens: bool)
      requires Tidy()
      modifies queue, disk
      ensures Tidy() && queue.items == []
      ensures Failed() == old(Failed()) + (if opens then old(queue.items) else [])
    {
      hide SerializeAll, ParseAll, Fits, Serialize;
      WellFormedAppend(disk.Contents(sendError), queue.items);
      assert Failed() + [] == Failed();
      store.SaveQueue(sendError, opens);
    }

    /** Queues what the error file holds, also when its last record is cut off, and moves the file aside. */
    method LoadMessage(opens: bool, renames: bool)
      requires Wired() && AllFit(queue.items)
      modifies queue, disk
      ensures AllFit(queue.items) && queue.items == old(queue.items) + if opens then old(Failed()) else []
      ensures Failed() == if opens && renames then [] else old(Failed())
      ensures old(Tidy()) || (opens && renames) ==> Tidy()
    {
      hide SerializeAll, ParseAll, Fits, Serialize, WellFormed;
      NothingThere();
      ParsedFit(disk.Contents(sendError));
      assert AllFit(queue.items + Failed());
      store.LoadMessages(sendError, opens, renames);
      assert sendError != sendError + BAK;
    }
  }

  lemma NothingThere()
    ensures ParseAll([]) == [] && WellFormed([])
  {
    assert SerializeAll([]) == [];
  }
}
