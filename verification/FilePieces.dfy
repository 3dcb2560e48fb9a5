/** What text and binary files have in common for the reader: both are cut into pieces. */
module FilePieces {
  import opened Bytes
  import opened TextLines
  import opened BinaryFrames

  /** s ends where a piece ends. */
  predicate Whole(binary: bool, s: seq<Byte>) {
    if binary then FramesLength(s) == |s| else Ended(s)
  }

  function Pieces(binary: bool, s: seq<Byte>): seq<seq<Byte>> {
    if binary then Frames(s) else Lines(s)
  }

  /** The part of s that the reader can see. */
  function Seen(binary: bool, s: seq<Byte>): (t: seq<Byte>)
    ensures t <= s
  {
    if binary then s else s[..Upto(s, EOF)]
  }

  lemma PiecesAppend(binary: bool, a: seq<Byte>, b: seq<Byte>)
    requires Whole(binary, a)
    ensures Pieces(binary, a + b) == Pieces(binary, a) + Pieces(binary, b)
    ensures Whole(binary, b) ==> Whole(binary, a + b)
  {
    if binary {
      FramesAppend(a, b);
    } else {
      LinesAppend(a, b);
    }
  }

  lemma NoPieces(binary: bool)
    ensures Whole(binary, []) && Pieces(binary, []) == []
  {
  }
}
