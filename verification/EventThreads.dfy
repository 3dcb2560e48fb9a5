/** The thread that handles the watched events one after the other. */
module EventThreads {
  import opened Bytes
  import opened Configs
  import opened Events
  import opened FilePieces
  import opened MessageFlow
  import opened Names
  import opened Options
  import opened ReaderRuns
  import opened Readers
  import opened Scanning
  import opened Sequences
  import opened Tails
  import opened TextLines

  /** What the rest of the world does in one round: events that arrive, and how a read will go. */
  datatype Round = Round(arrived: seq<Event>, now: nat, stale: bool, opens: bool, running: nat, memory: seq<Memory>)

  /** What handling one event came to: what was pushed again, and of a reading from which inode it was, how far it
      went, and what it sent. */
  datatype Answer = Answer(pushed: seq<Event>, from: Option<nat>, n: nat, sent: seq<Sent>)

  function Stops(queue: seq<Event>): (k: nat)
    ensures k <= |queue| && (k < |queue| ==> queue[k].event == Stop)
    ensures forall i | 0 <= i < k :: queue[i].event != Stop
  {
    if queue == [] || queue[0].event == Stop then 0 else 1 + Stops(queue[1..])
  }

  class EventThread {
    const reader: Reader
    var queue: seq<Event>

    constructor (reader: Reader)
      ensures this.reader == reader && queue == []
    {
      this.reader, queue := reader, [];
    }

    method PushStop(item: Event)
      modifies this`queue
      ensures queue == old(queue) + [item.(event := Stop)] && Stops(queue) < |queue|
    {
      queue := queue + [item.(event := Stop)];
      StopFound(queue, |queue| - 1);
    }

    /** What handling an event does to the reader, and what goes to the end of the queue. */
    ghost predicate HandledSo(before: State, after: State, names: map<Name, nat>, data: FileData, item: Event,
        round: Round, answer: Answer)
    {
      var k := item.origfile;
      match item.event
      case Delete =>
        && answer == Answer([], None, 0, [])
        && after == before.(fdMap := before.fdMap - {k}, tails := before.tails - {k}, live := before.live - {k},
                            aliasMap := map a | a in before.aliasMap && before.aliasMap[a] != k :: before.aliasMap[a])
      case MoveSelf =>
        && answer == Answer([item.(event := Modify)], None, 0, [])
        && after == before.(
             fdMap := if k in before.fdMap then before.fdMap[k := before.fdMap[k].(moveProtected := true)]
                      else before.fdMap,
             fileMap := if item.pathfile in before.fileMap then
                          before.fileMap[item.pathfile := before.fileMap[item.pathfile].(moveTime := round.now)]
                        else before.fileMap)
      case MoveTo =>
        && answer == Answer([item.(event := Modify)], None, 0, [])
        && var a := item.aliasfile;
           if a in before.fdMap then
             && a in before.tails
             && after == before.(fdMap := before.fdMap[k := before.fdMap[a].(origfile := k)] - {a},
                                 tails := before.tails[k := before.tails[a]] - {a},
                                 aliasMap := before.aliasMap[a := k],
                                 live := if a in before.live then before.live[k := before.live[a]] - {a}
                                         else before.live - {k})
           else after == before
      case Modify =>
        && (answer.pushed == [] || answer.pushed == [item])
        && reader.ReadSo(before, after, names, data, item, round.now, round.opens, round.running, answer.pushed != [],
                         answer.from, answer.n, answer.sent)
      case Stop => false
    }

    /** Handles one event that is not a stop. Whatever has to be done later goes to the end of the queue. */
    method Handle(item: Event, round: Round) returns (ghost answer: Answer)
      requires reader.Valid() && item.event != Stop
      modifies this, reader, reader.Streams(), reader.config, reader.message.journal, reader.message.queue
      ensures reader.Valid() && queue == old(queue) + answer.pushed
      ensures forall fs | fs in reader.Streams() :: fs in old(reader.Streams()) || fresh(fs)
      ensures item.event.Delete? ==> forall fs | fs in old(reader.StreamOf(item.origfile)) :: !fs.open
      ensures HandledSo(old(reader.Look()), reader.Look(), reader.files.names, reader.files.data, item, round, answer)
    {
      hide Reader.Valid, Reader.Exact, Reader.Opened, Reader.ReadSo, Without, Protected, RelabelItems, Unaliased,
          WithMoveTime;
      var next := item.(event := Modify);
      answer := Answer([], None, 0, []);
      match item.event
      case Delete =>
        reader.Clear(item);
      case MoveSelf =>
        QueueAside(next);
        answer := Answer([next], None, 0, []);
        reader.MoveSelf(next, round.now);
      case Modify =>
        var isContinue;
        ghost var from, n, sent;
        isContinue, from, n,
            sent := reader.Read(item, round.now, round.stale, round.opens, round.running, round.memory);
        answer := Answer([], from, n, sent);
        if isContinue {
          QueueAside(item);
          answer := Answer([item], from, n, sent);
        }
      case MoveTo =>
        QueueAside(next);
        answer := Answer([next], None, 0, []);
        reader.MoveTo(next);
    }

    /** The reader does not notice. */
    method QueueAside(item: Event)
      requires reader.Valid()
      modifies this
      ensures queue == old(queue) + [item] && reader.Valid() && reader.Look() == old(reader.Look())
      ensures reader.Exact() == old(reader.Exact())
    {
      hide Reader.Valid, Reader.Exact, Reader.Opened;
      ghost var streams: set<object> := reader.Streams();
      assert this !in streams;
      queue := queue + [item];
    }

    /** What the handled events send to the end of the queue, behind what arrives meanwhile. */
    ghost function Joined(world: nat -> Round, answers: seq<Answer>): seq<Event> {
      if answers == [] then []
      else
        var n := |answers| - 1;
        Joined(world, answers[..n]) + world(n).arrived + answers[n].pushed
    }

    lemma JoinedMore(world: nat -> Round, answers: seq<Answer>, answer: Answer)
      ensures Joined(world, answers + [answer])
              == Joined(world, answers) + world(|answers|).arrived + answer.pushed
    {
      assert (answers + [answer])[..|answers|] == answers;
    }

    /** The states were passed through one after the other by handling these events. */
    ghost predicate Chained(states: seq<State>, names: map<Name, nat>, data: FileData, events: seq<Event>,
        world: nat -> Round, answers: seq<Answer>)
    {
      && |states| == |events| + 1 && |answers| == |events|
      && forall i | 0 <= i < |events| ::
         HandledSo(states[i], states[i + 1], names, data, events[i], world(i), answers[i])
    }

    lemma ChainedMore(states: seq<State>, names: map<Name, nat>, data: FileData, events: seq<Event>,
        world: nat -> Round, answers: seq<Answer>, event: Event, state: State, answer: Answer)
      requires Chained(states, names, data, events, world, answers)
      requires HandledSo(states[|events|], state, names, data, event, world(|events|), answer)
      ensures Chained(states + [state], names, data, events + [event], world, answers + [answer])
    {
      hide HandledSo;
    }

    /** Once a stop is queued, exactly the events ahead of it are handled, in their order, whatever arrives or
        is pushed again meanwhile, and then the thread ends; what is left in the queue is what stood behind the stop,
        and what joined since. */
    method Run(world: nat -> Round) returns (ghost states: seq<State>, ghost answers: seq<Answer>)
      requires reader.Valid() && Stops(queue) < |queue|
      modifies this, reader, reader.Streams(), reader.config, reader.message.journal, reader.message.queue
      ensures reader.Valid()
      ensures var k := Stops(old(queue));
              && Chained(states, reader.files.names, reader.files.data, old(queue)[..k], world, answers)
              && states[0] == old(reader.Look()) && states[k] == reader.Look()
              && queue == old(queue)[k + 1..] + Joined(world, answers) + world(k).arrived
    {
      hide Reader.Valid, Reader.Exact, Reader.Opened, Reader.Look, Stops, HandledSo, Joined, Chained;
      ghost var was, k := queue, Stops(queue);
      var n := 0;
      states, answers := [reader.Look()], [];
      ChainedNone(states, reader.files.names, reader.files.data, world);
      while true
        invariant reader.Valid() && forall fs | fs in reader.Streams() :: fs in old(reader.Streams()) || fresh(fs)
        invariant n <= k && |states| == n + 1 && |answers| == n
        invariant Chained(states, reader.files.names, reader.files.data, was[..n], world, answers)
        invariant states[0] == old(reader.Look()) && states[n] == reader.Look()
        invariant queue == was[n..] + Joined(world, answers)
        decreases k - n
      {
        QueueMoves(was, n, Joined(world, answers), world(n).arrived);
        var item;
        ghost var answer;
        item, answer := HandleNext(world(n));
        if item.event == Stop {
          break;
        }
        ChainedMore(states, reader.files.names, reader.files.data, was[..n], world, answers, item, reader.Look(),
            answer);
        JoinedMore(world, answers, answer);
        Regroup(was[n + 1..], Joined(world, answers) + world(n).arrived, answer.pushed);
        states, answers, n := states + [reader.Look()], answers + [answer], n + 1;
      }
    }

    lemma ChainedNone(states: seq<State>, names: map<Name, nat>, data: FileData, world: nat -> Round)
      requires |states| == 1
      ensures Chained(states, names, data, [], world, []) && Joined(world, []) == []
    {
    }

    /** One round: the first event, after others have arrived, is handled unless it is a stop. */
    method HandleNext(round: Round) returns (item: Event, ghost answer: Answer)
      requires reader.Valid() && queue != []
      modifies this, reader, reader.Streams(), reader.config, reader.message.journal, reader.message.queue
      ensures reader.Valid() && item == old(queue)[0]
      ensures forall fs | fs in reader.Streams() :: fs in old(reader.Streams()) || fresh(fs)
      ensures item.event == Stop ==> queue == old(queue)[1..] + round.arrived && reader.Look() == old(reader.Look())
      ensures item.event != Stop ==>
                && queue == old(queue)[1..] + round.arrived + answer.pushed
                && HandledSo(old(reader.Look()), reader.Look(), reader.files.names, reader.files.data, item, round,
                   answer)
    {
      hide Reader.Valid, Reader.Exact, Reader.Opened, Reader.Look, HandledSo;
      item := Next(round.arrived);
      answer := Answer([], None, 0, []);
      if item.event != Stop {
        answer := Handle(item, round);
      }
    }

    /** Takes the first event, after others have arrived. */
    method Next(arrived: seq<Event>) returns (item: Event)
      requires reader.Valid() && queue != []
      modifies this
      ensures item == old(queue)[0] && queue == old(queue)[1..] + arrived
      ensures reader.Valid() && reader.Look() == old(reader.Look()) && reader.Streams() == old(reader.Streams())
    {
      hide Reader.Valid, Reader.Exact, Reader.Opened;
      ghost var streams: set<object> := reader.Streams();
      assert this !in streams;
      queue := queue + arrived;
      item := queue[0];
      queue := queue[1..];
    }

    /** The producer takes everything that waits. */
    method HandAll(event: Event, ghost info: Info, ghost i: nat, ghost start: nat, ghost was: seq<Entry>,
        ghost sent: seq<Sent>)
      requires Tracking(reader, event, info, i) && Followed(reader, event.origfile, info, i, start, was, sent)
      modifies reader.message.queue
      ensures Tracking(reader, event, info, i) && Followed(reader, event.origfile, info, i, start, was, sent)
      ensures reader.Opened() == old(reader.Opened()) && reader.Streams() == old(reader.Streams())
      ensures reader.message.queue.items == []
    {
      hide Tracking, Followed, Reader.Opened, Reader.Streams;
      while reader.message.queue.items != []
        invariant Tracking(reader, event, info, i) && Followed(reader, event.origfile, info, i, start, was, sent)
        invariant reader.Opened() == old(reader.Opened()) && reader.Streams() == old(reader.Streams())
        decreases |reader.message.queue.items|
      {
        FollowHanded(reader, event, info, i, start, was, sent);
      }
    }

    /** One round of that: the queue is empty and a stream is at hand. */
    method DrainOnce(event: Event, ghost info: Info, ghost i: nat, now: int, running: nat, memory: seq<Memory>,
        ghost most: set<Name>, ghost start: nat, ghost was: seq<Entry>, ghost sent: seq<Sent>)
      returns (isContinue: bool, ghost more: seq<Sent>)
      requires Tracking(reader, event, info, i) && Followed(reader, event.origfile, info, i, start, was, sent)
      requires reader.message.limit >= 0 && reader.Opened().Keys <= most && event.origfile in most
               && |most| <= reader.maxfd
      requires i in reader.files.data && running > |reader.files.data[i]|
      requires info.isBinary || Short(reader.files.data[i], reader.maxLineBytes)
      modifies reader, reader.Streams(), reader.config, reader.message.journal, reader.message.queue
      ensures Tracking(reader, event, info, i) && Followed(reader, event.origfile, info, i, start, was, sent + more)
      ensures forall fs | fs in reader.Streams() :: fs in old(reader.Streams()) || fresh(fs)
      ensures reader.Opened().Keys <= most
      ensures Left(reader, event.origfile, i) <= old(Left(reader, event.origfile, i))
      ensures !info.isBinary ==> (Passing(reader, event.origfile, i) <==> old(Passing(reader, event.origfile, i)))
      ensures if isContinue then Left(reader, event.origfile, i) < old(Left(reader, event.origfile, i))
              else Exhausted(info.isBinary, Ahead(reader.files.data[i], OffsetOf(reader, event.origfile)), 0)
    {
      hide Tracking, Naming, Followed, Reader.Streams, Reader.Opened, Reader.Outcome, Exhausted, Short, Ahead, TimedOut,
          Passable;
      HandAll(event, info, i, start, was, sent);
      Fewer(reader.Opened().Keys, most);
      ghost var offset, n := OffsetOf(reader, event.origfile), 0;
      TrackedNamed(reader, event, info, i, now);
      isContinue, n, more := FollowRead(reader, event, info, i, now, false, true, running, memory, start, was, sent);
      NamedTracked(reader, event, info, i);
      Progress(reader, info.isBinary, reader.files.data[i], offset, running, isContinue, n, more);
    }

    /** A file that no longer grows is read to its end by pushing its event again as often as needed,
        if no line is too long, the producer keeps up and there are streams enough: each further round
        moves the offset. Then no piece is left to see. In a text file none is left at all exactly if no
        line ended behind a byte 0xFF ahead of where reading began. */
    method Drain(event: Event, ghost info: Info, ghost i: nat, now: int, running: nat, memory: seq<Memory>,
        ghost start: nat, ghost was: seq<Entry>, ghost already: seq<Sent>)
      returns (ghost sent: seq<Sent>)
      requires queue == [event] && event.event == Modify
      requires Tracking(reader, event, info, i) && Followed(reader, event.origfile, info, i, start, was, already)
      requires reader.message.limit >= 0 && |reader.Opened().Keys + {event.origfile}| <= reader.maxfd
      requires i in reader.files.data && running > |reader.files.data[i]|
      requires info.isBinary || Short(reader.files.data[i], reader.maxLineBytes)
      modifies this, reader, reader.Streams(), reader.config, reader.message.journal, reader.message.queue
      ensures queue == [] && Tracking(reader, event, info, i) && already <= sent
      ensures Followed(reader, event.origfile, info, i, start, was, sent)
      ensures fresh(reader.Streams() - old(reader.Streams()))
      ensures Exhausted(info.isBinary, Ahead(reader.files.data[i], OffsetOf(reader, event.origfile)), 0)
      ensures !info.isBinary ==>
                (Lines(Ahead(reader.files.data[i], OffsetOf(reader, event.origfile))) == []
                 <==> Passable(Ahead(reader.files.data[i], old(OffsetOf(reader, event.origfile)))))
    {
      hide Tracking, Followed, Reader.Streams, Reader.Opened, Exhausted, Short, Ahead, Left, OffsetOf, Passable, Lines;
      sent := already;
      ghost var k, most := event.origfile, reader.Opened().Keys + {event.origfile};
      ghost var offset := OffsetOf(reader, k);
      while queue != []
        invariant queue == [] || queue == [event]
        invariant Tracking(reader, event, info, i) && Followed(reader, k, info, i, start, was, sent)
        invariant already <= sent && reader.Opened().Keys <= most
        invariant !info.isBinary ==> (Passing(reader, k, i) <==> Passable(Ahead(reader.files.data[i], offset)))
        invariant queue == [] ==> Exhausted(info.isBinary, Ahead(reader.files.data[i], OffsetOf(reader, k)), 0)
        invariant forall fs | fs in reader.Streams() :: fs in old(reader.Streams()) || fresh(fs)
        decreases Left(reader, k, i) + |queue|
      {
        ghost var streams: set<object> := reader.Streams();
        assert this !in streams;
        var item := queue[0];
        queue := queue[1..];
        var isContinue;
        ghost var more;
        isContinue, more := DrainOnce(item, info, i, now, running, memory, most, start, was, sent);
        sent := sent + more;
        streams := reader.Streams();
        assert this !in streams;
        if isContinue {
          queue := queue + [item];
        }
      }
      if !info.isBinary {
        BehindEof(Ahead(reader.files.data[i], OffsetOf(reader, k)));
      }
    }
  }

  /** How many bytes of inode i are ahead of the offset. */
  ghost function Left(reader: Reader, k: Name, i: nat): nat
    requires i in reader.files.data
    reads reader`fdMap, reader.files
  {
    |Ahead(reader.files.data[i], OffsetOf(reader, k))|
  }

  /** The bytes ahead of the offset of inode i can all be passed. */
  ghost predicate Passing(reader: Reader, k: Name, i: nat)
    requires i in reader.files.data
    reads reader`fdMap, reader.files
  {
    Passable(Ahead(reader.files.data[i], OffsetOf(reader, k)))
  }

  /** Either the event does not come back and nothing is left, or the offset has moved. */
  lemma Progress(reader: Reader, binary: bool, bytes: seq<Byte>, offset: nat, running: nat, isContinue: bool, n: nat,
      sent: seq<Sent>)
    requires reader.Outcome(binary, Ahead(bytes, offset), running, isContinue, n, sent)
    requires reader.message.limit >= 0 && |reader.message.queue.items| == |sent|
    requires running > |bytes| && (binary || Short(bytes, reader.maxLineBytes))
    ensures n <= |Ahead(bytes, offset)| && |Ahead(bytes, offset + n)| == |Ahead(bytes, offset)| - n
    ensures !binary ==> (Passable(Ahead(bytes, offset + n)) <==> Passable(Ahead(bytes, offset)))
    ensures if isContinue then n > 0 else Exhausted(binary, Ahead(bytes, offset + n), 0)
  {
    hide Short, TooLong, FilePieces.Whole, Pieces, Passable;
    var ahead := Ahead(bytes, offset);
    if !binary {
      if offset <= |bytes| {
        ShortAhead(bytes, offset, n, reader.maxLineBytes);
      } else {
        ShortAhead(bytes, |bytes|, n, reader.maxLineBytes);
        assert bytes[|bytes|..] == [];
      }
    }
    assert Ahead(bytes, offset + n) == ahead[n..];
    if !binary {
      PassableAfter(ahead, n);
    }
    if !isContinue {
      SeenAfter(binary, ahead, n);
      assert Seen(binary, ahead)[n..][0..] == Seen(binary, ahead)[n..];
    }
  }

  /** The first of those that wait leaves, and others join. */
  lemma QueueMoves(was: seq<Event>, n: nat, joined: seq<Event>, arrived: seq<Event>)
    requires n < |was|
    ensures (was[n..] + joined)[0] == was[n] && was[..n + 1] == was[..n] + [was[n]]
    ensures (was[n..] + joined)[1..] + arrived == was[n + 1..] + (joined + arrived)
    ensures was[n + 1..] + (joined + arrived) == was[n + 1..] + joined + arrived
  {
    assert was[n..] == [was[n]] + was[n + 1..];
  }

  lemma StopFound(queue: seq<Event>, i: nat)
    requires i < |queue| && queue[i].event == Stop
    ensures Stops(queue) <= i
  {
  }

  /** With a queue that takes everything, a text file is stuck, its event coming back without the offset
      having moved, exactly if the next line is too long. */
  lemma StuckExactly(reader: Reader, ahead: seq<Byte>, running: nat, isContinue: bool, n: nat, sent: seq<Sent>)
    requires reader.Outcome(false, ahead, running, isContinue, n, sent) && running > |ahead|
    requires reader.message.limit >= 0 && |reader.message.queue.items| == |sent|
    ensures isContinue && n == 0 <==> TooLong(ahead, 0, reader.maxLineBytes)
  {
    hide TooLong, Exhausted;
    if TooLong(ahead, 0, reader.maxLineBytes) && sent != [] {
      TooLongFirst(ahead, n, PiecesIn(sent), reader.maxLineBytes);
    }
  }
}
