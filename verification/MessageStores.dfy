/** The binary log that queued and failed messages are written to and reloaded from. */
module MessageStores {
  import opened Bytes
  import opened Options
  import opened Sequences

  datatype MessageItem = MessageItem(partId: int, tryNum: int, topicName: seq<Byte>, message: seq<Byte>)

  /** The partition and the counter are C ints, and the sizes are written as 32 bits. */
  predicate Fits(item: MessageItem) {
    IsInt32(item.partId) && IsInt32(item.tryNum) && |item.topicName| < TWO_32 && |item.message| < TWO_32
  }

  predicate AllFit(items: seq<MessageItem>) {
    forall i | 0 <= i < |items| :: Fits(items[i])
  }

  function Serialize(item: MessageItem): seq<Byte> {
    U32(item.partId) + U32(item.tryNum) + U32(|item.topicName|) + item.topicName + U32(|item.message|) + item.message
  }

  function SerializeAll(items: seq<MessageItem>): seq<Byte> {
    if items == [] then [] else Serialize(items[0]) + SerializeAll(items[1..])
  }

  lemma SerializeFirst(x: MessageItem, s: seq<MessageItem>)
    ensures SerializeAll([x] + s) == Serialize(x) + SerializeAll(s)
  {
    hide Serialize;
    Consed(x, s);
  }

  lemma {:induction false} SerializeAppend(a: seq<MessageItem>, b: seq<MessageItem>)
    ensures SerializeAll(a + b) == SerializeAll(a) + SerializeAll(b)
  {
    if a == [] {
      assert a + b == b;
    } else {
      hide Serialize, SerializeAll;
      var x, t := a[0], a[1..];
      Uncons(a, b);
      SerializeFirst(x, t);
      SerializeFirst(x, t + b);
      SerializeAppend(t, b);
      Regroup(Serialize(x), SerializeAll(t), SerializeAll(b));
    }
  }

  // ----- reading back -----

  /** The record at the start of s with its length, unless s ends before the record does. */
  function ParseItem(s: seq<Byte>): Option<(MessageItem, nat)> {
    if |s| < 12 then None
    else
      var t := 12 + Decode(s[8..12]);
      if |s| < t + 4 then None
      else
        var m := t + 4 + Decode(s[t..t + 4]);
        if |s| < m then None
        else Some((MessageItem(ToInt32(Decode(s[0..4])), ToInt32(Decode(s[4..8])), s[12..t], s[t + 4..m]), m))
  }

  /** The records at the start of s, up to the first that is cut off. */
  function ParseAll(s: seq<Byte>): seq<MessageItem> {
    match ParseItem(s)
    case None => []
    case Some((item, n)) => [item] + ParseAll(s[n..])
  }

  lemma Front(s: seq<Byte>, rest: seq<Byte>, a: nat, b: nat)
    requires a <= b <= |s|
    ensures (s + rest)[a..b] == s[a..b]
  {
  }

  /** The three numbers at the start of a record. */
  lemma Header(item: MessageItem)
    ensures var s := Serialize(item);
            |s| >= 12 && s[0..4] == U32(item.partId) && s[4..8] == U32(item.tryNum) && s[8..12] == U32(|item.topicName|)
  {
    hide U32;
    var p, n, t := U32(item.partId), U32(item.tryNum), U32(|item.topicName|);
    var h, rest := p + n + t, item.topicName + U32(|item.message|) + item.message;
    assert Serialize(item) == h + rest;
    assert h[0..4] == p && h[4..8] == n && h[8..12] == t;
    Front(h, rest, 0, 4);
    Front(h, rest, 4, 8);
    Front(h, rest, 8, 12);
  }

  /** Behind them the topic, the length of the body, and the body. */
  lemma Behind(item: MessageItem)
    ensures var s, t := Serialize(item), 12 + |item.topicName|;
            |s| == t + 4 + |item.message| && s[12..t] == item.topicName && s[t..t + 4] == U32(|item.message|)
                && s[t + 4..] == item.message
  {
    hide U32;
    var h, m := U32(item.partId) + U32(item.tryNum) + U32(|item.topicName|), U32(|item.message|);
    var x := h + item.topicName;
    var y := x + m;
    assert Serialize(item) == y + item.message;
    assert x[12..] == item.topicName && y[|x|..] == m;
    Front(x, m, 12, |x|);
    Front(y, item.message, 12, |x|);
    Front(y, item.message, |x|, |y|);
  }

  lemma NumberRead(s: seq<Byte>, x: int)
    requires s == U32(x)
    ensures Decode(s) == ToU32(x) && (IsInt32(x) ==> ToInt32(Decode(s)) == x) && (0 <= x < TWO_32 ==> Decode(s) == x)
  {
    U32RoundTrip(x);
  }

  lemma ParseSerialized(item: MessageItem, rest: seq<Byte>)
    requires Fits(item)
    ensures ParseItem(Serialize(item) + rest) == Some((item, |Serialize(item)|))
  {
    hide Decode, U32, ToInt32, ToU32, Serialize;
    Header(item);
    Behind(item);
    var s, t := Serialize(item), 12 + |item.topicName|;
    Front(s, rest, 0, 4);
    Front(s, rest, 4, 8);
    Front(s, rest, 8, 12);
    Front(s, rest, 12, t);
    Front(s, rest, t, t + 4);
    Front(s, rest, t + 4, |s|);
    NumberRead(s[0..4], item.partId);
    NumberRead(s[4..8], item.tryNum);
    NumberRead(s[8..12], |item.topicName|);
    NumberRead(s[t..t + 4], |item.message|);
    assert s[t + 4..|s|] == s[t + 4..];
  }

  /** A record that is cut off is not read. */
  lemma ParseCut(item: MessageItem, n: nat)
    requires Fits(item) && n < |Serialize(item)|
    ensures ParseItem(Serialize(item)[..n]) == None
  {
    hide Decode, U32, ToInt32, ToU32, Serialize;
    Header(item);
    Behind(item);
    var s, t := Serialize(item), 12 + |item.topicName|;
    var c, rest := s[..n], s[n..];
    assert c + rest == s;
    NumberRead(s[8..12], |item.topicName|);
    NumberRead(s[t..t + 4], |item.message|);
    if n >= 12 {
      Front(c, rest, 8, 12);
      if n >= t + 4 {
        Front(c, rest, t, t + 4);
      }
    }
  }

  lemma ParseStep(item: MessageItem, rest: seq<Byte>)
    requires Fits(item)
    ensures ParseAll(Serialize(item) + rest) == [item] + ParseAll(rest)
  {
    ParseSerialized(item, rest);
    hide Serialize, ParseItem;
    assert (Serialize(item) + rest)[|Serialize(item)|..] == rest;
  }

  lemma {:induction false} ParseAllAfter(items: seq<MessageItem>, rest: seq<Byte>)
    requires AllFit(items)
    ensures ParseAll(SerializeAll(items) + rest) == items + ParseAll(rest)
  {
    hide Serialize, ParseItem, ParseAll;
    if items == [] {
      assert SerializeAll(items) + rest == rest;
    } else {
      var xs := SerializeAll(items[1..]) + rest;
      assert SerializeAll(items) + rest == Serialize(items[0]) + xs;
      ParseStep(items[0], xs);
      ParseAllAfter(items[1..], rest);
      assert items == [items[0]] + items[1..];
    }
  }

  /** Queueing what was saved gives back the saved records, in order; so a queue saved after the
      records already in the file is reloaded behind them. */
  lemma SavedIsReloaded(p: seq<MessageItem>, q: seq<MessageItem>)
    requires AllFit(p) && AllFit(q)
    ensures ParseAll(SerializeAll(p) + SerializeAll(q)) == p + q
  {
    ParseAllAfter(p, SerializeAll(q));
    ParseAllAfter(q, []);
    assert SerializeAll(q) + [] == SerializeAll(q);
    assert ParseAll([]) == [];
  }

  /** How many of the records lie wholly within the first n bytes. */
  function Whole(items: seq<MessageItem>, n: nat): (k: nat)
    ensures k <= |items|
  {
    if items == [] || n < |Serialize(items[0])| then 0 else 1 + Whole(items[1..], n - |Serialize(items[0])|)
  }

  /** Whole counts exactly the records that end at or before byte n. */
  lemma {:induction false} WholeIsWithin(items: seq<MessageItem>, n: nat, k: nat)
    requires k <= |items|
    ensures k <= Whole(items, n) <==> |SerializeAll(items[..k])| <= n
  {
    hide Serialize;
    if k > 0 {
      assert items[..k][0] == items[0] && items[..k][1..] == items[1..][..k - 1];
      if n >= |Serialize(items[0])| {
        WholeIsWithin(items[1..], n - |Serialize(items[0])|, k - 1);
      }
    }
  }

  /** From a file cut off after n bytes exactly the records wholly contained in it are reloaded. */
  lemma {:induction false} TruncatedIsReloaded(items: seq<MessageItem>, n: nat)
    requires AllFit(items) && n <= |SerializeAll(items)|
    ensures ParseAll(SerializeAll(items)[..n]) == items[..Whole(items, n)]
  {
    hide Serialize, ParseItem, ParseAll;
    if items == [] {
      NothingParsed();
      assert SerializeAll(items)[..n] == [];
    } else {
      var x, xs := Serialize(items[0]), SerializeAll(items[1..]);
      var c := SerializeAll(items)[..n];
      if n < |x| {
        assert c == x[..n];
        CutParsed(items[0], n);
        assert items[..0] == [];
      } else {
        assert c == x + xs[..n - |x|];
        ParseStep(items[0], xs[..n - |x|]);
        TruncatedIsReloaded(items[1..], n - |x|);
        assert items[..Whole(items, n)] == [items[0]] + items[1..][..Whole(items[1..], n - |x|)];
      }
    }
  }

  lemma NothingParsed()
    ensures ParseAll([]) == []
  {
  }

  lemma CutParsed(item: MessageItem, n: nat)
    requires Fits(item) && n < |Serialize(item)|
    ensures ParseAll(Serialize(item)[..n]) == []
  {
    hide Serialize, ParseItem;
    ParseCut(item, n);
  }

  /** Whatever the bytes are, the fields of what is read keep within their widths. */
  lemma {:induction false} ParsedFit(s: seq<Byte>)
    ensures AllFit(ParseAll(s))
    decreases s
  {
    hide ParseItem, Fits;
    ParsedItemFits(s);
    match ParseItem(s)
    case None =>
    case Some((item, n)) => ParsedFit(s[n..]);
  }

  lemma ParsedItemFits(s: seq<Byte>)
    ensures ParseItem(s).Some? ==> Fits(ParseItem(s).value.0) && 0 < ParseItem(s).value.1 <= |s|
  {
    hide Decode;
    if |s| >= 12 {
      var t := 12 + Decode(s[8..12]);
      DecodeFits(s[8..12]);
      if |s| >= t + 4 {
        DecodeFits(s[t..t + 4]);
      }
    }
  }

  lemma DecodeFits(s: seq<Byte>)
    requires |s| == 4
    ensures Decode(s) < TWO_32
  {
    DecodeBelow(s);
    Widths();
  }
}
