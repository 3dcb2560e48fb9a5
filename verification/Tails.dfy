/** What has been sent of one file since reading it began. */
module Tails {
  import opened Bytes
  import opened Options
  import opened TextLines
  import opened FilePieces

  /** A piece of a file and the message made of it; frames have no format. */
  datatype Sent = Sent(piece: seq<Byte>, format: Option<Format>, body: seq<Byte>)

  ghost predicate IsShown(s: Sent) {
    match s.format
    case None => s.body == s.piece
    case Some(f) => exists m :: s.body == Shown(f, s.piece, m)
  }

  ghost predicate AllShown(sent: seq<Sent>) {
    forall i | 0 <= i < |sent| :: IsShown(sent[i])
  }

  ghost function PiecesIn(sent: seq<Sent>): (r: seq<seq<Byte>>)
    ensures |r| == |sent| && forall i | 0 <= i < |r| :: r[i] == sent[i].piece
  {
    seq(|sent|, i requires 0 <= i < |sent| => sent[i].piece)
  }

  lemma PiecesInAppend(a: seq<Sent>, b: seq<Sent>)
    ensures PiecesIn(a + b) == PiecesIn(a) + PiecesIn(b)
    ensures AllShown(a) && AllShown(b) ==> AllShown(a + b)
  {
    hide IsShown;
  }

  /** The file that is read, by inode, and whether it is binary; where reading it began; and what
      was sent of it since. */
  datatype Tail = Tail(source: Option<(nat, bool)>, start: nat, sent: seq<Sent>)

  /** The contents of the files, by inode. */
  type FileData = map<nat, seq<Byte>>

  /** The bytes from offset on. */
  function Ahead(bytes: seq<Byte>, offset: nat): seq<Byte> {
    if offset <= |bytes| then bytes[offset..] else []
  }

  /** The pieces sent are those of the bytes between the start and the offset, in order and once each;
      an offset that has moved is where a piece ends. */
  ghost predicate Faithful(t: Tail, offset: nat, data: FileData) {
    && AllShown(t.sent)
    && if offset == t.start then t.sent == []
       else
         && t.source.Some? && t.source.value.0 in data
         && var bytes := data[t.source.value.0];
         && t.start <= offset <= |bytes|
         && Whole(t.source.value.1, bytes[t.start..offset])
         && PiecesIn(t.sent) == Pieces(t.source.value.1, bytes[t.start..offset])
  }

  /** Reading further pieces, and moving the offset over them, keeps a tail faithful. */
  lemma FaithfulAdvance(t: Tail, offset: nat, data: FileData, n: nat, added: seq<Sent>)
    requires Faithful(t, offset, data) && t.source.Some? && t.source.value.0 in data
    requires n <= |Ahead(data[t.source.value.0], offset)|
    requires var run := Ahead(data[t.source.value.0], offset)[..n];
             Whole(t.source.value.1, run) && PiecesIn(added) == Pieces(t.source.value.1, run) && AllShown(added)
    ensures Faithful(t.(sent := t.sent + added), offset + n, data)
  {
    hide Whole, Pieces, IsShown;
    var binary, bytes := t.source.value.1, data[t.source.value.0];
    PiecesInAppend(t.sent, added);
    NoPieces(binary);
    if n == 0 {
      assert Ahead(bytes, offset)[..n] == [];
      assert added == [];
      assert t.sent + added == t.sent;
    } else {
      var a, b := bytes[t.start..offset], Ahead(bytes, offset)[..n];
      assert b == bytes[offset..offset + n];
      if offset == t.start {
        assert a == [];
      }
      PiecesAppend(binary, a, b);
      assert bytes[t.start..offset + n] == a + b;
    }
  }

  /** Sending pieces without moving the offset breaks it. */
  lemma FaithfulNoMore(t: Tail, offset: nat, data: FileData, added: seq<Sent>)
    requires Faithful(t, offset, data) && added != []
    ensures !Faithful(t.(sent := t.sent + added), offset, data)
  {
    hide Whole, Pieces, IsShown;
    PiecesInAppend(t.sent, added);
  }

  /** A file that grows keeps it. */
  lemma FaithfulGrows(t: Tail, offset: nat, data: FileData, more: FileData)
    requires Faithful(t, offset, data)
    requires t.source.Some? && t.source.value.0 in data ==>
             t.source.value.0 in more && data[t.source.value.0] <= more[t.source.value.0]
    ensures Faithful(t, offset, more)
  {
    hide Whole, Pieces, IsShown;
    if offset != t.start {
      var i := t.source.value.0;
      assert more[i][t.start..offset] == data[i][t.start..offset];
    }
  }
}
