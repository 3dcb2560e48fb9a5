/** The messages of a binary file: each has its length before it, in four bytes. */
module BinaryFrames {
  import opened Bytes
  import opened Sequences

  /** The length of the frame at the start of s, unless s ends before the frame does. */
  function FrameAt(s: seq<Byte>): (n: nat)
    ensures n <= |s| && (n == 0 || n >= 4)
  {
    if |s| < 4 || |s| - 4 < Decode(s[..4]) then 0 else 4 + Decode(s[..4])
  }

  /** The four bytes of the length come most significant first. */
  lemma FrameAtIs(s: seq<Byte>)
    ensures |s| < 4 ==> FrameAt(s) == 0
    ensures |s| >= 4 ==>
              var len := 0x100_0000 * s[0] as int + 0x1_0000 * s[1] as int + 0x100 * s[2] as int + s[3] as int;
              FrameAt(s) == if |s| - 4 < len then 0 else 4 + len
  {
    if |s| >= 4 {
      DecodeFour(s[..4]);
    }
  }

  /** The file 0, 0, 0, 1, 65 holds the message "A". */
  lemma OneByteFrame()
    ensures Frames([0, 0, 0, 1, 65]) == [[65]]
  {
    var s: seq<Byte> := [0, 0, 0, 1, 65];
    FrameAtIs(s);
    FramesOne(s);
    assert s[4..] == [65];
  }

  /** The bodies of the frames at the start of s. */
  function Frames(s: seq<Byte>): seq<seq<Byte>> {
    var n := FrameAt(s);
    if n == 0 then [] else [s[4..n]] + Frames(s[n..])
  }

  /** How many bytes these frames take. */
  function FramesLength(s: seq<Byte>): (n: nat)
    ensures n <= |s|
  {
    var n := FrameAt(s);
    if n == 0 then 0 else n + FramesLength(s[n..])
  }

  lemma FrameAtAppend(a: seq<Byte>, b: seq<Byte>)
    requires FrameAt(a) != 0
    ensures FrameAt(a + b) == FrameAt(a)
  {
    assert (a + b)[..4] == a[..4];
  }

  lemma FramesFirst(s: seq<Byte>)
    requires FrameAt(s) != 0
    ensures var n := FrameAt(s);
            Frames(s) == [s[4..n]] + Frames(s[n..]) && FramesLength(s) == n + FramesLength(s[n..])
  {
  }

  lemma {:induction false} FramesAppend(a: seq<Byte>, b: seq<Byte>)
    requires FramesLength(a) == |a|
    ensures Frames(a + b) == Frames(a) + Frames(b) && FramesLength(a + b) == |a| + FramesLength(b)
  {
    if a == [] {
      assert a + b == b;
    } else {
      var n := FrameAt(a);
      hide Frames, FrameAt;
      FrameAtAppend(a, b);
      FramesFirst(a);
      FramesFirst(a + b);
      assert (a + b)[4..n] == a[4..n] && (a + b)[n..] == a[n..] + b;
      FramesAppend(a[n..], b);
      Regroup([a[4..n]], Frames(a[n..]), Frames(b));
    }
  }

  lemma FramesOne(s: seq<Byte>)
    requires FrameAt(s) == |s| > 0
    ensures Frames(s) == [s[4..]] && FramesLength(s) == |s|
  {
    assert s[|s|..] == [] && s[4..|s|] == s[4..];
    assert FrameAt([]) == 0;
  }

  function Framed(bodies: seq<seq<Byte>>): seq<Byte> {
    if bodies == [] then [] else U32(|bodies[0]|) + bodies[0] + Framed(bodies[1..])
  }

  lemma FrameAtFramed(body: seq<Byte>, cut: seq<Byte>)
    requires |body| < TWO_32
    ensures FrameAt(U32(|body|) + body) == 4 + |body|
    ensures cut < U32(|body|) + body ==> FrameAt(cut) == 0
  {
    U32RoundTrip(|body|);
    SmallU32(|body|);
    hide Decode, U32;
    var s := U32(|body|) + body;
    assert s[..4] == U32(|body|);
    if cut < s && |cut| >= 4 {
      assert cut == s[..|cut|];
      assert cut[..4] == s[..4];
    }
  }

  /** Exactly the bodies that were framed are found, and a truncated frame behind them is not. */
  lemma {:induction false} FramesFramed(bodies: seq<seq<Byte>>, body: seq<Byte>, cut: seq<Byte>)
    requires (forall i | 0 <= i < |bodies| :: |bodies[i]| < TWO_32) && |body| < TWO_32 && cut < U32(|body|) + body
    ensures Frames(Framed(bodies) + cut) == bodies && FramesLength(Framed(bodies) + cut) == |Framed(bodies)|
  {
    hide Decode, U32, FrameAt;
    if bodies == [] {
      assert Framed(bodies) + cut == cut;
      FrameAtFramed(body, cut);
    } else {
      var x, xs := U32(|bodies[0]|) + bodies[0], Framed(bodies[1..]);
      assert Framed(bodies) + cut == x + (xs + cut);
      FrameAtFramed(bodies[0], x);
      FramesOne(x);
      FramesAppend(x, xs + cut);
      FramesFramed(bodies[1..], body, cut);
      assert x[4..] == bodies[0];
    }
  }
}
