/** How far reading has got in the bytes ahead of the offset, character by character and frame by frame. */
module Scanning {
  import opened Bytes
  import opened TextLines
  import opened BinaryFrames
  import opened FilePieces

  /** The first n bytes hold exactly these pieces. */
  ghost predicate Took(binary: bool, ahead: seq<Byte>, n: nat, pieces: seq<seq<Byte>>) {
    n <= |ahead| && Whole(binary, ahead[..n]) && pieces == Pieces(binary, ahead[..n])
  }

  /** Nothing more can be read behind the first n bytes. */
  ghost predicate Exhausted(binary: bool, ahead: seq<Byte>, n: nat) {
    n <= |Seen(binary, ahead)| && Pieces(binary, Seen(binary, ahead)[n..]) == []
  }

  /** The pieces end at n; up to pos only newlines and then the buffer were read. */
  ghost predicate Scanned(ahead: seq<Byte>, n: nat, pos: nat, buffer: seq<Byte>, pieces: seq<seq<Byte>>) {
    && Took(false, ahead, n, pieces)
    && n + |buffer| <= pos <= |ahead|
    && EOF !in ahead[..pos] && NEWLINE !in buffer
    && ahead[pos - |buffer|..pos] == buffer
    && forall i | n <= i < pos - |buffer| :: ahead[i] == NEWLINE
  }

  lemma TookNothing(binary: bool, ahead: seq<Byte>)
    ensures Took(binary, ahead, 0, [])
  {
    NoPieces(binary);
    assert ahead[..0] == [];
  }

  lemma ScanStart(ahead: seq<Byte>)
    ensures Scanned(ahead, 0, 0, [], [])
  {
    TookNothing(false, ahead);
  }

  lemma ScanCharacter(ahead: seq<Byte>, n: nat, pos: nat, buffer: seq<Byte>, pieces: seq<seq<Byte>>)
    requires Scanned(ahead, n, pos, buffer, pieces) && pos < |ahead| && ahead[pos] != EOF && ahead[pos] != NEWLINE
    ensures Scanned(ahead, n, pos + 1, buffer + [ahead[pos]], pieces)
  {
    hide Took;
    assert ahead[..pos + 1] == ahead[..pos] + [ahead[pos]];
    assert ahead[pos - |buffer|..pos + 1] == buffer + [ahead[pos]];
  }

  lemma ScanBlank(ahead: seq<Byte>, n: nat, pos: nat, pieces: seq<seq<Byte>>)
    requires Scanned(ahead, n, pos, [], pieces) && pos < |ahead| && ahead[pos] == NEWLINE
    ensures Scanned(ahead, n, pos + 1, [], pieces)
  {
    hide Took;
    assert ahead[..pos + 1] == ahead[..pos] + [ahead[pos]];
  }

  /** Newlines hold no line. */
  lemma {:induction false} LinesBlank(s: seq<Byte>)
    requires forall i | 0 <= i < |s| :: s[i] == NEWLINE
    ensures Lines(s) == [] && Ended(s)
  {
    if s == [] {
      LinesOpen([]);
    } else {
      LinesBlank(s[1..]);
      assert s == [] + [NEWLINE] + s[1..];
      LinesStep([], s[1..]);
    }
  }

  /** What was read so far is what was taken, newlines, and the buffer. */
  lemma ScannedIs(ahead: seq<Byte>, n: nat, pos: nat, buffer: seq<Byte>, pieces: seq<seq<Byte>>)
    requires Scanned(ahead, n, pos, buffer, pieces)
    ensures Ended(ahead[..pos - |buffer|]) && Lines(ahead[..pos - |buffer|]) == pieces
    ensures ahead[..pos] == ahead[..pos - |buffer|] + buffer
  {
    hide Took, Lines, Ended;
    TookLines(ahead, n, pieces);
    var j := pos - |buffer|;
    var blank := ahead[n..j];
    LinesBlank(blank);
    assert ahead[..j] == ahead[..n] + blank;
    LinesAppend(ahead[..n], blank);
    EndedAppend(ahead[..n], blank);
    assert pieces + [] == pieces;
  }

  lemma TookLines(ahead: seq<Byte>, n: nat, pieces: seq<seq<Byte>>)
    requires Took(false, ahead, n, pieces)
    ensures n <= |ahead| && Ended(ahead[..n]) && pieces == Lines(ahead[..n])
  {
  }

  lemma EndedAppend(a: seq<Byte>, b: seq<Byte>)
    requires Ended(a) && Ended(b)
    ensures Ended(a + b)
  {
  }

  lemma LineTaken(ahead: seq<Byte>, j: nat, pos: nat, buffer: seq<Byte>)
    requires j <= pos < |ahead| && ahead[pos] == NEWLINE && ahead[..pos] == ahead[..j] + buffer
    requires Ended(ahead[..j]) && NEWLINE !in buffer && buffer != []
    ensures Took(false, ahead, pos + 1, Lines(ahead[..j]) + [buffer])
  {
    hide Lines;
    var a, x := ahead[..j], buffer + [NEWLINE];
    assert ahead[..pos + 1] == ahead[..pos] + [NEWLINE] == a + x;
    LinesAppend(a, x);
    LinesOpen(buffer);
  }

  lemma ScanLine(ahead: seq<Byte>, n: nat, pos: nat, buffer: seq<Byte>, pieces: seq<seq<Byte>>)
    requires Scanned(ahead, n, pos, buffer, pieces) && buffer != [] && pos < |ahead| && ahead[pos] == NEWLINE
    ensures Scanned(ahead, pos + 1, pos + 1, [], pieces + [buffer])
  {
    hide Took;
    ScannedIs(ahead, n, pos, buffer, pieces);
    LineTaken(ahead, pos - |buffer|, pos, buffer);
    assert ahead[..pos + 1] == ahead[..pos] + [NEWLINE];
  }

  /** At the end of what can be seen no line is left. */
  lemma ScanEnd(ahead: seq<Byte>, n: nat, pos: nat, buffer: seq<Byte>, pieces: seq<seq<Byte>>)
    requires Scanned(ahead, n, pos, buffer, pieces) && (pos == |ahead| || ahead[pos] == EOF)
    ensures Exhausted(false, ahead, n)
  {
    hide Took, Lines, Upto, Ended;
    TookLines(ahead, n, pieces);
    UptoIs(ahead, EOF, pos);
    var blank := ahead[n..pos - |buffer|];
    LinesBlank(blank);
    LinesAppend(blank, buffer);
    LinesOpen(buffer);
    assert ahead[..pos][n..] == blank + buffer;
  }

  /** How many newlines s starts with. */
  function Blank(s: seq<Byte>): (k: nat)
    ensures k <= |s| && forall i | 0 <= i < k :: s[i] == NEWLINE
    ensures k < |s| ==> s[k] != NEWLINE
  {
    if s == [] || s[0] != NEWLINE then 0 else 1 + Blank(s[1..])
  }

  /** The next line from n on is longer than the limit, whether it is complete or not. */
  predicate TooLong(ahead: seq<Byte>, n: nat, limit: int) {
    var s := Seen(false, ahead);
    n <= |s| && var k := Upto(s[n..][Blank(s[n..])..], NEWLINE); k > 0 && k > limit
  }

  lemma {:induction false} UptoAtLeast(s: seq<Byte>, x: Byte, k: nat)
    requires k <= |s| && x !in s[..k]
    ensures Upto(s, x) >= k
  {
    if k > 0 {
      assert s[0] == s[..k][0] && s[1..][..k - 1] == s[..k][1..];
      UptoAtLeast(s[1..], x, k - 1);
    }
  }

  lemma {:induction false} BlankIs(s: seq<Byte>, k: nat)
    requires k < |s| && s[k] != NEWLINE && forall i | 0 <= i < k :: s[i] == NEWLINE
    ensures Blank(s) == k
  {
    if k > 0 {
      BlankIs(s[1..], k - 1);
    }
  }

  lemma SliceOfSeen(s: seq<Byte>, e: nat, n: nat, b: nat, m: nat)
    requires n <= e <= |s| && n + b + m <= e
    ensures s[..e][n..][b..b + m] == s[n + b..n + b + m]
  {
    var x, y := s[..e][n..][b..b + m], s[n + b..n + b + m];
    assert |x| == |y| && forall i | 0 <= i < m :: x[i] == s[n + b + i] == y[i];
  }

  lemma ScanTooLong(ahead: seq<Byte>, n: nat, pos: nat, buffer: seq<Byte>, pieces: seq<seq<Byte>>, limit: int)
    requires Scanned(ahead, n, pos, buffer, pieces) && |buffer| > limit && buffer != []
    ensures TooLong(ahead, n, limit)
  {
    hide Took, Upto, Blank;
    UptoAtLeast(ahead, EOF, pos);
    var s, b := Seen(false, ahead)[n..], pos - |buffer| - n;
    SliceOfSeen(ahead, |Seen(false, ahead)|, n, b, |buffer|);
    assert s[b] == s[b..b + |buffer|][0];
    BlankIs(s, b);
    var t := s[b..];
    assert t[..|buffer|] == buffer;
    UptoAtLeast(t, NEWLINE, |buffer|);
  }

  lemma ScanNotTooLong(ahead: seq<Byte>, n: nat, pos: nat, buffer: seq<Byte>, pieces: seq<seq<Byte>>, limit: int)
    requires Scanned(ahead, n, pos, buffer, pieces) && (pos == |ahead| || ahead[pos] == EOF)
    requires buffer == [] || |buffer| <= limit
    ensures !TooLong(ahead, n, limit)
  {
    hide Took, Upto, Blank;
    UptoIs(ahead, EOF, pos);
    var s, b := ahead[..pos][n..], pos - |buffer| - n;
    if buffer == [] {
      assert Blank(s) == |s|;
    } else {
      assert s[b] == buffer[0];
      BlankIs(s, b);
      assert s[b..] == buffer;
    }
  }

  /** The next line is too long exactly if newlines, and then more other bytes than the limit, can be seen. */
  lemma TooLongIs(ahead: seq<Byte>, limit: nat)
    ensures TooLong(ahead, 0, limit) <==>
              exists b, e | 0 <= b <= e <= |ahead| ::
                && e - b > limit && EOF !in ahead[..e] && NEWLINE !in ahead[b..e]
                && forall i | 0 <= i < b :: ahead[i] == NEWLINE
  {
    hide Upto, Blank;
    var s := Seen(false, ahead);
    assert s[0..] == s;
    var b := Blank(s);
    var k := Upto(s[b..], NEWLINE);
    if TooLong(ahead, 0, limit) {
      assert ahead[b..b + k] == s[b..][..k];
      assert ahead[..b + k] == s[..b + k];
    }
    if c, e :| 0 <= c <= e <= |ahead| && e - c > limit && EOF !in ahead[..e] && NEWLINE !in ahead[c..e]
               && forall i | 0 <= i < c :: ahead[i] == NEWLINE {
      UptoAtLeast(ahead, EOF, e);
      assert s[c] == ahead[c..e][0];
      BlankIs(s, c);
      assert s[c..][..e - c] == ahead[c..e];
      UptoAtLeast(s[c..], NEWLINE, e - c);
    }
  }

  /** When the next line is too long, any piece that is taken is too. */
  lemma TooLongFirst(ahead: seq<Byte>, n: nat, pieces: seq<seq<Byte>>, limit: int)
    requires TooLong(ahead, 0, limit) && Took(false, ahead, n, pieces) && pieces != []
    ensures |pieces[0]| > limit
  {
    hide Upto, Blank, Lines;
    var s := Seen(false, ahead);
    assert s[0..] == s;
    var b := Blank(s);
    var k := Upto(s[b..], NEWLINE);
    assert s[b..][..k] == ahead[b..b + k];
    LongRunFirst(ahead, b, k, n);
  }

  /** After newlines and then k other bytes the first line has k bytes or more. */
  lemma LongRunFirst(ahead: seq<Byte>, b: nat, k: nat, n: nat)
    requires b + k <= |ahead| && n <= |ahead| && k > 0
    requires (forall i | 0 <= i < b :: ahead[i] == NEWLINE) && NEWLINE !in ahead[b..b + k]
    requires Ended(ahead[..n]) && Lines(ahead[..n]) != []
    ensures |Lines(ahead[..n])[0]| >= k
  {
    hide Lines;
    LinesBlank(ahead[..if n <= b then n else b]);
    NoneIn(ahead, b, b + k, NEWLINE);
    assert ahead[n - 1] == NEWLINE;
    var blank, c := ahead[..b], ahead[b..n];
    assert ahead[..n] == blank + c;
    LinesAppend(blank, c);
    LongFirst(c, ahead[b..b + k]);
  }

  /** What was taken does not reach past the last byte that can be seen. */
  lemma ScannedSeen(ahead: seq<Byte>, n: nat, pos: nat, buffer: seq<Byte>, pieces: seq<seq<Byte>>)
    requires Scanned(ahead, n, pos, buffer, pieces)
    ensures n <= Upto(ahead, EOF)
  {
    hide Took, Upto;
    UptoAtLeast(ahead, EOF, pos);
  }

  lemma NoneIn(s: seq<Byte>, a: nat, b: nat, x: Byte)
    requires a <= b <= |s| && x !in s[a..b]
    ensures forall i | a <= i < b :: s[i] != x
  {
    forall i | a <= i < b ensures s[i] != x {
      assert s[i] in s[a..b];
    }
  }

  lemma LongFirst(c: seq<Byte>, run: seq<Byte>)
    requires run <= c && NEWLINE !in run && run != [] && Lines(c) != []
    ensures |Lines(c)[0]| >= |run|
  {
    UptoAtLeast(c, NEWLINE, |run|);
  }

  // ----- frames -----

  lemma TakeFrame(ahead: seq<Byte>, n: nat, pieces: seq<seq<Byte>>)
    requires Took(true, ahead, n, pieces)
    ensures n <= |ahead|
    ensures var k := FrameAt(ahead[n..]);
            if k == 0 then Exhausted(true, ahead, n)
            else n + k <= |ahead| && Took(true, ahead, n + k, pieces + [ahead[n + 4..n + k]])
  {
    hide Decode;
    var rest := ahead[n..];
    var k := FrameAt(rest);
    if k != 0 {
      var x := ahead[n..n + k];
      assert x[..4] == rest[..4];
      assert FrameAt(x) == k;
      FramesOne(x);
      assert x[4..] == ahead[n + 4..n + k];
      assert ahead[..n + k] == ahead[..n] + x;
      FramesAppend(ahead[..n], x);
    }
  }

  /** Reads the length and then the body of the frame at n. */
  method NextFrame(ahead: seq<Byte>, n: nat, ghost pieces: seq<seq<Byte>>) returns (ok: bool, body: seq<Byte>)
    requires Took(true, ahead, n, pieces)
    ensures if ok then n + 4 + |body| <= |ahead| && Took(true, ahead, n + 4 + |body|, pieces + [body])
            else Exhausted(true, ahead, n)
    ensures |ahead| - n < 4 ==> !ok
    ensures |ahead| - n >= 4 ==>
              var len := 0x100_0000 * ahead[n] as int + 0x1_0000 * ahead[n + 1] as int + 0x100 * ahead[n + 2] as int
                         + ahead[n + 3] as int;
              (ok <==> |ahead| - n - 4 >= len) && (ok ==> body == ahead[n + 4..n + 4 + len])
  {
    hide Decode, Took, Exhausted;
    TakeFrame(ahead, n, pieces);
    ghost var rest := ahead[n..];
    if |ahead| - n < 4 {
      return false, [];
    }
    var len := Decode(ahead[n..n + 4]);
    DecodeFour(ahead[n..n + 4]);
    assert rest[..4] == ahead[n..n + 4];
    if |ahead| - n - 4 < len {
      return false, [];
    }
    return true, ahead[n + 4..n + 4 + len];
  }

  // ----- what is left for the next call -----

  /** What is left behind n bytes that were taken is what can be seen without what was taken. */
  lemma TakenAndLeft(binary: bool, ahead: seq<Byte>, n: nat, pieces: seq<seq<Byte>>)
    requires Took(binary, ahead, n, pieces) && n <= |Seen(binary, ahead)|
    ensures Pieces(binary, Seen(binary, ahead)) == pieces + Pieces(binary, Seen(binary, ahead)[n..])
  {
    hide Whole, Pieces;
    var s := Seen(binary, ahead);
    assert s[..n] == ahead[..n] && s == s[..n] + s[n..];
    PiecesAppend(binary, s[..n], s[n..]);
  }

  /** Nothing is to be sent: no piece is left to see, or the next line is too long. */
  ghost predicate NothingAhead(binary: bool, ahead: seq<Byte>, limit: int) {
    Exhausted(binary, ahead, 0) || (!binary && TooLong(ahead, 0, limit))
  }

  // ----- reading stops at a byte that equals EOF -----

  /** There is no line exactly if only newlines stand before each newline. */
  lemma {:induction false} LinesNone(s: seq<Byte>)
    ensures Lines(s) == [] <==> forall i, j | 0 <= i < j < |s| && s[j] == NEWLINE :: s[i] == NEWLINE
    decreases s
  {
    var k := Upto(s, NEWLINE);
    if k == |s| {
      assert s[..k] == s;
    } else {
      var t := s[k + 1..];
      LinesNone(t);
      if k == 0 {
        assert forall j | 0 <= j < |t| :: t[j] == s[j + 1];
        assert s[0] == NEWLINE;
      } else {
        assert s[..k][0] == s[0];
      }
    }
  }

  /** No byte 0xFF is ahead, or no line ends behind it. */
  ghost predicate Passable(ahead: seq<Byte>) {
    var e := Upto(ahead, EOF);
    e == |ahead| || NEWLINE !in ahead[e..]
  }

  /** When everything that can be seen has been sent, everything there is has been sent exactly if no line
      ends behind a byte that equals EOF. */
  lemma BehindEof(ahead: seq<Byte>)
    requires Exhausted(false, ahead, 0)
    ensures Lines(ahead) == [] <==> Passable(ahead)
  {
    hide Lines, Upto;
    var e := Upto(ahead, EOF);
    var x, y := ahead[..e], ahead[e..];
    assert x[0..] == x;
    LinesNone(x);
    LinesNone(ahead);
    if e == |ahead| {
      assert x == ahead;
    } else if NEWLINE in y {
      var j :| 0 <= j < |y| && y[j] == NEWLINE;
      assert ahead[e + j] == NEWLINE && ahead[e] != NEWLINE;
    } else {
      assert forall j | e <= j < |ahead| :: ahead[j] == y[j - e] && ahead[j] != NEWLINE;
      forall i, j | 0 <= i < j < |ahead| && ahead[j] == NEWLINE ensures ahead[i] == NEWLINE {
        assert x[j] == ahead[j] && x[i] == ahead[i];
      }
    }
  }

  /** Reading what can be seen does not change whether the rest can be passed. */
  lemma PassableAfter(ahead: seq<Byte>, n: nat)
    requires n <= Upto(ahead, EOF)
    ensures Passable(ahead[n..]) <==> Passable(ahead)
  {
    var e := Upto(ahead, EOF);
    assert ahead[n..][..e - n] == ahead[..e][n..];
    UptoIs(ahead[n..], EOF, e - n);
    assert ahead[n..][e - n..] == ahead[e..];
  }

  lemma PassableBehind(ahead: seq<Byte>, n: nat)
    requires Passable(ahead) && n <= |ahead|
    ensures Passable(ahead[n..])
  {
    var e := Upto(ahead, EOF);
    if n <= e {
      PassableAfter(ahead, n);
    } else {
      var rest, k := ahead[n..], Upto(ahead[n..], EOF);
      forall j | 0 <= j < |rest[k..]| ensures rest[k..][j] != NEWLINE {
        assert rest[k..][j] == ahead[e..][n - e + k + j];
      }
    }
  }

  /** A file of two lines of which none is ever sent. */
  lemma EofWitness()
    ensures var bytes := [EOF, NEWLINE, 120, NEWLINE];
            Exhausted(false, bytes, 0) && !Passable(bytes) && Lines(bytes) != []
  {
    var bytes := [EOF, NEWLINE, 120, NEWLINE];
    assert Upto(bytes, EOF) == 0;
    assert Seen(false, bytes) == [];
    LinesOpen([]);
    assert bytes[0..][1] == NEWLINE;
    BehindEof(bytes);
  }

  /** No run of bytes without a newline is longer than the limit. */
  ghost predicate Short(s: seq<Byte>, limit: int) {
    forall a, b | 0 <= a <= b <= |s| && NEWLINE !in s[a..b] :: b - a <= limit
  }

  lemma ShortAhead(bytes: seq<Byte>, offset: nat, n: nat, limit: int)
    requires Short(bytes, limit) && offset <= |bytes|
    ensures !TooLong(bytes[offset..], n, limit)
  {
    var ahead := bytes[offset..];
    var s := Seen(false, ahead);
    if n <= |s| {
      var b := Blank(s[n..]);
      var k := Upto(s[n..][b..], NEWLINE);
      assert bytes[offset + n + b..offset + n + b + k] == s[n..][b..][..k];
    }
  }

  /** What can be seen after n bytes is the rest of what could be seen before. */
  lemma SeenAfter(binary: bool, ahead: seq<Byte>, n: nat)
    requires n <= |Seen(binary, ahead)|
    ensures Seen(binary, ahead[n..]) == Seen(binary, ahead)[n..]
  {
    if !binary {
      var k := Upto(ahead, EOF);
      assert ahead[n..][..k - n] == ahead[..k][n..];
      UptoIs(ahead[n..], EOF, k - n);
    }
  }
}
