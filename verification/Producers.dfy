/** The producer that empties the message queue, and where every accepted message ends up. */
module Producers {
  import opened Bytes
  import opened Names
  import opened Options
  import opened MessageStores
  import opened MessageFlow

  type Partitions = map<seq<Byte>, seq<nat>>

  /** Part -1 leaves the choice of partition open. */
  ghost predicate ValidIn(known: Partitions, topic: seq<Byte>, part: int) {
    topic in known && (part == -1 || ToU32(part) in known[topic])
  }

  /** The topics last seen, refreshed from the producer when an unknown one is asked for. */
  class Topics {
    var known: Partitions

    method CheckValid(topic: seq<Byte>, part: int, current: Partitions) returns (ok: bool)
      modifies this
      ensures known == if topic == [] || topic in old(known) then old(known) else current
      ensures ok <==> topic != [] && ValidIn(known, topic, part)
      ensures part == -1 ==> (ok <==> topic != [] && (topic in old(known) || topic in current))
      ensures 0 <= part < TWO_32 ==>
                (ok <==> topic != [] && if topic in old(known) then part in old(known)[topic]
                                        else topic in current && part in current[topic])
      ensures -TWO_31 <= part < -1 ==>
                (ok <==> topic != [] && if topic in old(known) then part + TWO_32 in old(known)[topic]
                                        else topic in current && part + TWO_32 in current[topic])
    {
      if topic == [] {
        return false;
      }
      if topic !in known {
        known := current;
      }
      if topic !in known {
        return false;
      }
      if part == -1 {
        return true;
      }
      for i := 0 to |known[topic]|
        invariant ToU32(part) !in known[topic][..i]
      {
        if known[topic][i] == ToU32(part) {
          return true;
        }
      }
      ok := false;
    }
  }

  /** What the producer's variables hold before it asks for a message. */
  datatype Buffers = Buffers(topic: seq<Byte>, part: int, data: seq<Byte>)

  function ItemOf(b: Buffers, tryNum: int): MessageItem {
    MessageItem(b.part, tryNum, b.topic, b.data)
  }

  class ProducerIn {
    const message: Message
    const topics: Topics
    /** The messages the producer was given and has not reported as failed; it never sees a counter. */
    var handed: seq<MessageItem>

    constructor (message: Message)
      ensures this.message == message && handed == [] && fresh(topics)
    {
      this.message, handed := message, [];
      topics := new Topics;
    }

    ghost predicate Valid(item: MessageItem)
      reads topics
    {
      item.topicName != [] && ValidIn(topics.known, item.topicName, item.partId)
    }

    /** Gives the producer the oldest message. Topic and partition are checked even when there was
        none: then it is what the caller's variables held before that is checked, and an invalid
        content is written to the error file. */
    method Send(before: Buffers, current: Partitions, tryNum: int, opens: bool) returns (ok: bool, after: Buffers)
      requires message.Tidy() && Fits(ItemOf(before, tryNum))
      modifies this, topics, message.queue, message.disk
      ensures message.Tidy()
      ensures message.queue.items == if old(message.queue.items) == [] then [] else old(message.queue.items)[1..]
      ensures var got := if old(message.queue.items) == [] then ItemOf(before, tryNum)
                         else old(message.queue.items)[0].(tryNum := tryNum);
              && after == Buffers(got.topicName, got.partId, got.message)
              && topics.known ==
                 (if got.topicName == [] || got.topicName in old(topics.known) then old(topics.known) else current)
              && ok == (old(message.queue.items) != [] && Valid(got))
              && message.Failed() ==
                 old(message.Failed()) + (if !Valid(got) && Counted(got) && opens then [got] else [])
              && handed == old(handed) + (if ok then [ItemOf(after, 0)] else [])
      ensures old(message.queue.items) != [] ==>
                var first := old(message.queue.items)[0];
                first.partId == -1 && first.topicName != []
                && (first.topicName in old(topics.known) || first.topicName in current) ==>
                  && ok && message.Failed() == old(message.Failed())
                  && handed == old(handed) + [MessageItem(-1, 0, first.topicName, first.message)]
    {
      hide MessageFlow.Message.Failed, ParseAll, SerializeAll;
      assert old(message.queue.items) != [] ==> Fits(old(message.queue.items)[0]);
      assert message.Failed() + [] == message.Failed();
      var ret, topic, part, data := message.Send(before.topic, before.part, before.data);
      after := Buffers(topic, part, data);
      var valid := topics.CheckValid(topic, part, current);
      if !valid {
        message.ErrorCallback(topic, part, data, tryNum, opens);
        return false, after;
      }
      if ret {
        handed := handed + [ItemOf(after, 0)];
      }
      ok := ret;
    }

    /** The producer reports message i as failed. */
    method ErrorCallback(i: nat, tryNum: int, opens: bool)
      requires message.Tidy() && i < |handed| && Fits(handed[i].(tryNum := tryNum))
      modifies this, message.disk
      ensures message.Tidy() && message.queue.items == old(message.queue.items)
      ensures handed == old(handed)[..i] + old(handed)[i + 1..]
      ensures var got := old(handed)[i].(tryNum := tryNum);
              message.Failed() == old(message.Failed()) + (if Counted(got) && opens then [got] else [])
    {
      var got := handed[i];
      message.ErrorCallback(got.topicName, got.partId, got.message, tryNum, opens);
      handed := handed[..i] + handed[i + 1..];
    }
  }

  // ----- where every message ends up -----

  /** One step of the machine; the environment chooses the arguments. */
  datatype Step =
    | Accept(topic: seq<Byte>, part: int, body: seq<Byte>)
    | Pop(before: Buffers, current: Partitions, tryNum: int, opens: bool)
    | Report(index: nat, tryNum: int, opens: bool)
    | Save(opens: bool)
    | Load(opens: bool, renames: bool)

  predicate StepFits(step: Step) {
    match step
    case Accept(topic, part, body) => Fits(MessageItem(part, 0, topic, body))
    case Pop(before, _, tryNum, _) => Fits(ItemOf(before, tryNum))
    case Report(_, tryNum, _) => IsInt32(tryNum)
    case _ => true
  }

  /** The error file opens, it can be moved aside once it was read, and a producer that finds the queue
      empty has nothing left in its variables. */
  predicate Benign(step: Step) {
    match step
    case Pop(before, _, tryNum, opens) => opens && !Counted(ItemOf(before, tryNum))
    case Report(_, _, opens) => opens
    case Save(opens) => opens
    case Load(opens, renames) => !opens || renames
    case _ => true
  }

  lemma CoresDropFirst(s: seq<MessageItem>)
    requires s != []
    ensures Cores(s) == One(s[0]) + Cores(s[1..])
  {
  }

  lemma CoresPush(s: seq<MessageItem>, item: MessageItem)
    ensures Cores(s + [item]) == Cores(s) + One(item)
    ensures s + [] == s
  {
    CoresAppend(s, [item]);
    CoresOne(item);
  }

  lemma AllFitTake(s: seq<MessageItem>, i: nat)
    requires AllFit(s) && i < |s|
    ensures Fits(s[i]) && AllFit(s[..i] + s[i + 1..]) && AllFit(s[1..])
  {
    hide Fits;
  }

  lemma AllFitPush(s: seq<MessageItem>, item: MessageItem)
    requires AllFit(s) && Fits(item)
    ensures AllFit(s + [item])
  {
    hide Fits;
  }

  type Bag = multiset<Core>

  /** What came in equals what is kept: the queue, the producer, the error file, the lost. */
  ghost predicate Balance(a: Bag, s: Bag, q: Bag, h: Bag, f: Bag, l: Bag) {
    a + s == q + h + f + l
  }

  lemma BalanceIn(a: Bag, s: Bag, q: Bag, h: Bag, f: Bag, l: Bag, x: Bag)
    requires Balance(a, s, q, h, f, l)
    ensures Balance(a + x, s, q + x, h, f, l) && Balance(a, s + x, q, h, f + x, l)
  {
    assert (a + x) + s == (a + s) + x == a + (s + x);
    assert (q + x) + h + f + l == (q + h + f + l) + x == q + h + (f + x) + l;
  }

  lemma BalanceFromQueue(a: Bag, s: Bag, q: Bag, h: Bag, f: Bag, l: Bag, x: Bag)
    requires Balance(a, s, x + q, h, f, l)
    ensures Balance(a, s, q, h + x, f, l) && Balance(a, s, q, h, f + x, l) && Balance(a, s, q, h, f, l + x)
    ensures x == multiset{} ==> Balance(a, s, q, h, f, l)
  {
  }

  lemma BalanceFromProducer(a: Bag, s: Bag, q: Bag, h: Bag, f: Bag, l: Bag, x: Bag)
    requires Balance(a, s, q, h + x, f, l)
    ensures Balance(a, s, q, h, f + x, l) && Balance(a, s, q, h, f, l + x)
    ensures x == multiset{} ==> Balance(a, s, q, h, f, l)
  {
  }

  lemma BalanceDump(a: Bag, s: Bag, q: Bag, h: Bag, f: Bag, l: Bag)
    requires Balance(a, s, q, h, f, l)
    ensures Balance(a, s, multiset{}, h, f + q, l) && Balance(a, s, multiset{}, h, f, l + q)
            && Balance(a, s, q + f, h, multiset{}, l)
  {
  }

  /** Records that are queued while they stay in the file are there twice. */
  lemma BalanceCopy(a: Bag, s: Bag, q: Bag, h: Bag, f: Bag, l: Bag)
    requires Balance(a, s, q, h, f, l)
    ensures Balance(a, s + f, q + f, h, f, l)
  {
    assert a + (s + f) == (a + s) + f;
    assert (q + f) + h + f + l == (q + h + f + l) + f;
  }

  lemma CoresNone(a: seq<MessageItem>, b: seq<MessageItem>)
    ensures Cores([]) == multiset{} && a + [] == a && b + [] == b
  {
  }

  lemma AcceptedMore(entries: seq<Entry>, e: Entry)
    ensures ItemsOf(entries + [e]) == ItemsOf(entries) + [e.item]
  {
  }

  class Flow {
    const message: Message
    const producer: ProducerIn
    /** Messages that were in the queue or with the producer and could not be written anywhere. */
    ghost var lost: seq<MessageItem>
    /** Messages written to the error file that were not in the queue at that time. */
    ghost var strayed: seq<MessageItem>

    /** A life begins with whatever an earlier one left in the error file. */
    constructor (disk: Disk, limit: int, sendError: Name)
      ensures Ready() && Accounted() && (Tidy() <==> WellFormed(disk.Contents(sendError)))
      ensures message.disk == disk && message.limit == limit && message.sendError == sendError
      ensures message.Accepted() == [] && lost == [] && strayed == message.Failed()
      ensures fresh(message) && fresh(message.queue) && fresh(message.journal) && fresh(producer)
              && fresh(producer.topics)
    {
      var j := new Journal();
      var m := new Message(disk, j, limit, sendError);
      message := m;
      producer := new ProducerIn(m);
      lost, strayed := [], ParseAll(disk.Contents(sendError));
    }

    ghost predicate Ready()
      reads producer, message.queue
    {
      producer.message == message && message.Wired() && AllFit(message.queue.items) && AllFit(producer.handed)
    }

    ghost predicate Tidy()
      reads producer, message.queue, message.disk
    {
      Ready() && message.Tidy()
    }

    /** Every accepted message with a topic and a body, and every stray one, is in exactly one place:
        the queue, the producer, the error file, or lost. */
    ghost predicate Accounted()
      reads this, message.journal, message.queue, message.disk, producer
    {
      Balance(Cores(message.Accepted()), Cores(strayed),
              Cores(message.queue.items), Cores(producer.handed), Cores(message.Failed()), Cores(lost))
    }

    method Accept(topic: seq<Byte>, part: int, body: seq<Byte>)
      requires Tidy() && Accounted() && Fits(MessageItem(part, 0, topic, body))
      modifies message.journal, message.queue
      ensures Tidy() && Accounted()
      ensures var entry, ok := Entry(MessageItem(part, 0, topic, body), None),
              |old(message.queue.items)| <= message.limit;
              && message.journal.entries == old(message.journal.entries) + (if ok then [entry] else [])
              && message.queue.items == old(message.queue.items) + (if ok then [entry.item] else [])
    {
      hide MessageFlow.Message.Failed, Cores, Fits, WellFormed, One, Balance;
      BalanceIn(Cores(message.Accepted()), Cores(strayed), Cores(message.queue.items), Cores(producer.handed),
                Cores(message.Failed()), Cores(lost), One(MessageItem(part, 0, topic, body)));
      CoresPush(message.Accepted(), MessageItem(part, 0, topic, body));
      CoresPush(message.queue.items, MessageItem(part, 0, topic, body));
      var ok := message.SetMessage(topic, part, body, None);
      AcceptedMore(old(message.journal.entries), Entry(MessageItem(part, 0, topic, body), None));
    }

    /** The producer asks for a message. One is lost exactly when it is refused as invalid and the
        error file does not open; one strays exactly when there was none, what the producer's
        variables held is refused, and the error file opens. */
    method Pop(before: Buffers, current: Partitions, tryNum: int, opens: bool)
      requires Tidy() && Accounted() && Fits(ItemOf(before, tryNum))
      modifies this, producer, producer.topics, message.queue, message.disk
      ensures Tidy() && Accounted()
      ensures var none := old(message.queue.items) == [];
              var got := if none then ItemOf(before, tryNum) else old(message.queue.items)[0].(tryNum := tryNum);
              && lost == old(lost) + (if !none && !producer.Valid(got) && Counted(got) && !opens then [got] else [])
              && strayed == old(strayed) + (if none && !producer.Valid(got) && Counted(got) && opens then [got] else [])
    {
      hide MessageFlow.Message.Failed, Cores, WellFormed, ProducerIn.Valid, One, Balance;
      ghost var q := message.queue.items;
      ghost var none := q == [];
      ghost var got := if none then ItemOf(before, tryNum) else q[0].(tryNum := tryNum);
      if none {
        BalanceIn(Cores(message.Accepted()), Cores(strayed), Cores(q), Cores(producer.handed), Cores(message.Failed()),
            Cores(lost), One(got));
        FitsAnyway(got, 0);
      } else {
        AllFitTake(q, 0);
        FitsAnyway(q[0], tryNum);
        FitsAnyway(q[0], 0);
        CoresDropFirst(q);
        BalanceFromQueue(Cores(message.Accepted()), Cores(strayed), Cores(q[1..]), Cores(producer.handed),
            Cores(message.Failed()), Cores(lost), One(got));
      }
      CoresPush(producer.handed, got.(tryNum := 0));
      AllFitPush(producer.handed, got.(tryNum := 0));
      CoresPush(message.Failed(), got);
      CoresPush(lost, got);
      CoresPush(strayed, got);
      var ok, after := producer.Send(before, current, tryNum, opens);
      if !producer.Valid(got) && Counted(got) {
        if none && opens {
          strayed := strayed + [got];
        } else if !none && !opens {
          lost := lost + [got];
        }
      }
    }

    /** The producer reports a failure; the message is lost exactly when the error file does not open. */
    method Report(i: nat, tryNum: int, opens: bool)
      requires Tidy() && Accounted() && i < |producer.handed| && IsInt32(tryNum)
      modifies this, producer, message.disk
      ensures Tidy() && Accounted() && strayed == old(strayed)
      ensures var got := old(producer.handed)[i].(tryNum := tryNum);
              lost == old(lost) + (if Counted(got) && !opens then [got] else [])
    {
      hide MessageFlow.Message.Failed, Cores, Fits, WellFormed, One, Balance;
      ghost var got := producer.handed[i].(tryNum := tryNum);
      ghost var rest := producer.handed[..i] + producer.handed[i + 1..];
      CoresTake(producer.handed, i);
      AllFitTake(producer.handed, i);
      FitsAnyway(producer.handed[i], tryNum);
      BalanceFromProducer(Cores(message.Accepted()), Cores(strayed), Cores(message.queue.items), Cores(rest),
          Cores(message.Failed()), Cores(lost), One(got));
      CoresPush(message.Failed(), got);
      CoresPush(lost, got);
      producer.ErrorCallback(i, tryNum, opens);
      if Counted(got) && !opens {
        lost := lost + [got];
      }
    }

    /** The queue is emptied either way; its messages are lost exactly when the file does not open. */
    method Save(opens: bool)
      requires Tidy() && Accounted()
      modifies this, message.queue, message.disk
      ensures Tidy() && Accounted() && strayed == old(strayed) && message.queue.items == []
      ensures lost == old(lost) + (if opens then [] else old(message.queue.items))
    {
      hide MessageFlow.Message.Failed, Fits, WellFormed, Balance, Cores, One;
      BalanceDump(Cores(message.Accepted()), Cores(strayed), Cores(message.queue.items), Cores(producer.handed),
          Cores(message.Failed()), Cores(lost));
      CoresAppend(message.Failed(), message.queue.items);
      CoresAppend(lost, message.queue.items);
      CoresNone(message.Failed(), lost);
      message.SaveMessage(opens);
      lost := lost + if opens then [] else old(message.queue.items);
    }

    /** What was in the error file strays exactly when it is read and the file cannot be moved aside. An
        error file that was cut off is tidy afterwards. */
    method Load(opens: bool, renames: bool)
      requires Ready() && Accounted()
      modifies this, message.queue, message.disk
      ensures Ready() && Accounted() && lost == old(lost) && (old(Tidy()) || (opens && renames) ==> Tidy())
      ensures strayed == old(strayed) + (if opens && !renames then old(message.Failed()) else [])
    {
      hide MessageFlow.Message.Failed, Fits, WellFormed, Balance, Cores, One;
      ghost var a, s, q, h, f, l := Cores(message.Accepted()), Cores(strayed), Cores(message.queue.items),
          Cores(producer.handed),
                              Cores(message.Failed()), Cores(lost);
      BalanceDump(a, s, q, h, f, l);
      BalanceCopy(a, s, q, h, f, l);
      CoresAppend(message.queue.items, message.Failed());
      CoresAppend(strayed, message.Failed());
      CoresNone(message.queue.items, strayed);
      message.LoadMessage(opens, renames);
      strayed := strayed + if opens && !renames then old(message.Failed()) else [];
    }

    /** One step; a report about a message that the producer does not hold cannot happen. */
    method Do(step: Step)
      requires Tidy() && Accounted() && StepFits(step)
      modifies this, producer, producer.topics, message.journal, message.queue, message.disk
      ensures Tidy() && Accounted() && old(message.journal.entries) <= message.journal.entries
      ensures Benign(step) ==> lost == old(lost) && strayed == old(strayed)
    {
      hide MessageFlow.Message.Failed, Cores, Fits, WellFormed, ProducerIn.Valid;
      assert lost + [] == lost && strayed + [] == strayed;
      match step
      case Accept(topic, part, body) => Accept(topic, part, body);
      case Pop(before, current, tryNum, opens) => Pop(before, current, tryNum, opens);
      case Report(i, tryNum, opens) =>
        if i < |producer.handed| {
          Report(i, tryNum, opens);
        }
      case Save(opens) => Save(opens);
      case Load(opens, renames) => Load(opens, renames);
    }

    /** Over any run every message that was ever accepted stays accounted for, and over a benign run none is
        lost or strays. */
    method Run(steps: seq<Step>)
      requires Tidy() && Accounted() && forall i | 0 <= i < |steps| :: StepFits(steps[i])
      modifies this, producer, producer.topics, message.journal, message.queue, message.disk
      ensures Tidy() && Accounted() && old(message.journal.entries) <= message.journal.entries
      ensures (forall i | 0 <= i < |steps| :: Benign(steps[i])) ==> lost == old(lost) && strayed == old(strayed)
    {
      hide Tidy, Accounted, Benign, StepFits;
      for i := 0 to |steps|
        invariant Tidy() && Accounted() && old(message.journal.entries) <= message.journal.entries
        invariant (forall k | 0 <= k < i :: Benign(steps[k])) ==> lost == old(lost) && strayed == old(strayed)
      {
        Do(steps[i]);
      }
    }
  }

  lemma FitsAnyway(item: MessageItem, tryNum: int)
    requires Fits(item) && IsInt32(tryNum)
    ensures Fits(item.(tryNum := tryNum)) && One(item.(tryNum := tryNum)) == One(item)
    ensures !Counted(item) ==> One(item) == multiset{}
  {
  }
}
