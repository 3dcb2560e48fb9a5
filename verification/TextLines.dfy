/** The non-empty lines of a text file, and how one is put into the configured format. */
module TextLines {
  import opened Bytes

  const NEWLINE: Byte := 10

  /** The byte that, as a signed char, equals EOF: reading text never gets past it. */
  const EOF: Byte := 255

  /** The distance to the first x, or to the end. */
  function Upto(s: seq<Byte>, x: Byte): (k: nat)
    ensures k <= |s| && x !in s[..k]
    ensures k < |s| ==> s[k] == x
  {
    if s == [] || s[0] == x then 0
    else
      var k := 1 + Upto(s[1..], x);
      assert s[..k] == [s[0]] + s[1..][..k - 1];
      k
  }

  lemma {:induction false} UptoIs(s: seq<Byte>, x: Byte, k: nat)
    requires k <= |s| && x !in s[..k] && (k < |s| ==> s[k] == x)
    ensures Upto(s, x) == k
  {
    if k > 0 {
      assert s[0] == s[..k][0] && s[1..][..k - 1] == s[..k][1..];
      UptoIs(s[1..], x, k - 1);
    }
  }

  /** The lines of s that a newline ends and that are not empty. */
  function Lines(s: seq<Byte>): seq<seq<Byte>> {
    var k := Upto(s, NEWLINE);
    if k == |s| then [] else (if k == 0 then [] else [s[..k]]) + Lines(s[k + 1..])
  }

  /** s is empty or stops just after a newline. */
  predicate Ended(s: seq<Byte>) {
    s == [] || s[|s| - 1] == NEWLINE
  }

  lemma LinesStep(p: seq<Byte>, s: seq<Byte>)
    requires NEWLINE !in p
    ensures Lines(p + [NEWLINE] + s) == (if p == [] then [] else [p]) + Lines(s)
  {
    var t := p + [NEWLINE] + s;
    assert t[..|p|] == p && t[|p| + 1..] == s;
    UptoIs(t, NEWLINE, |p|);
  }

  lemma {:induction false} LinesAppend(a: seq<Byte>, b: seq<Byte>)
    requires Ended(a)
    ensures Lines(a + b) == Lines(a) + Lines(b)
  {
    hide Lines, Upto;
    if a == [] {
      LinesOpen([]);
      assert a + b == b;
    } else {
      var k := Upto(a, NEWLINE);
      assert k < |a| by {
        assert a[..|a|] == a;
      }
      var p, c := a[..k], a[k + 1..];
      assert a == p + [NEWLINE] + c && a + b == p + [NEWLINE] + (c + b);
      LinesStep(p, c);
      LinesStep(p, c + b);
      LinesAppend(c, b);
    }
  }

  /** Bytes without a newline hold no line; with one behind them they are a line unless there are none. */
  lemma LinesOpen(p: seq<Byte>)
    requires NEWLINE !in p
    ensures Lines(p) == [] && Lines(p + [NEWLINE]) == if p == [] then [] else [p]
  {
    var s := p + [NEWLINE];
    assert p[..|p|] == p && s[..|p|] == p && s[|p| + 1..] == [];
    UptoIs(p, NEWLINE, |p|);
    UptoIs(s, NEWLINE, |p|);
  }

  /** What a program writes that ends each line with a newline. */
  function Written(lines: seq<seq<Byte>>): seq<Byte> {
    if lines == [] then [] else lines[0] + [NEWLINE] + Written(lines[1..])
  }

  predicate AreLines(lines: seq<seq<Byte>>) {
    forall i | 0 <= i < |lines| :: lines[i] != [] && NEWLINE !in lines[i]
  }

  /** Exactly the lines that were written are found, and an unfinished line behind them is not. */
  lemma {:induction false} LinesWritten(lines: seq<seq<Byte>>, open: seq<Byte>)
    requires AreLines(lines) && NEWLINE !in open
    ensures Ended(Written(lines)) && Lines(Written(lines) + open) == lines
  {
    if lines == [] {
      assert Written(lines) + open == open;
      LinesOpen(open);
    } else {
      var x, xs := lines[0] + [NEWLINE], Written(lines[1..]);
      assert Written(lines) + open == x + (xs + open);
      LinesWritten(lines[1..], open);
      LinesAppend(x, xs + open);
      LinesOpen(lines[0]);
    }
  }

  // ----- the configured format -----

  /** A format with exactly one string directive: what stands before and after it. */
  datatype Format = Format(pre: seq<Byte>, post: seq<Byte>)

  /** Memory that the formatting reads without having written it: what follows the line in its buffer,
      up to the next zero, and what the new output buffer holds. */
  datatype Memory = Memory(behind: seq<Byte>, junk: seq<Byte>)

  /** A zero-terminated string at the start of s. */
  function CString(s: seq<Byte>): (c: seq<Byte>)
    ensures 0 !in c
  {
    s[..Upto(s, 0)]
  }

  /** The first n bytes of s, which zeros follow. */
  function Fill(s: seq<Byte>, n: nat): (t: seq<Byte>)
    ensures |t| == n
  {
    if n <= |s| then s[..n] else s + seq(n - |s|, _ => 0)
  }

  /** The message made of a line: as many bytes as format and line have together, of what is printed
      into a buffer one larger. The line is not zero-terminated, so printing goes on behind it. */
  function Shown(f: Format, line: seq<Byte>, m: Memory): (body: seq<Byte>)
    ensures |body| == |f.pre| + |line| + |f.post|
  {
    Fill(f.pre + CString(line + m.behind) + f.post + [0] + m.junk, |f.pre| + |line| + |f.post|)
  }

  function Formatted(f: Format, line: seq<Byte>): seq<Byte> {
    f.pre + line + f.post
  }

  lemma CStringAppend(line: seq<Byte>, behind: seq<Byte>)
    requires 0 !in line
    ensures CString(line + behind) == line + CString(behind)
  {
    var s, k := line + behind, |line| + Upto(behind, 0);
    assert s[..k] == line + behind[..Upto(behind, 0)];
    UptoIs(s, 0, k);
  }

  /** A line without zeros comes out formatted exactly if what follows it in memory, with the end of
      the format behind, starts with the end of the format. */
  lemma ShownIsFormatted(f: Format, line: seq<Byte>, m: Memory)
    requires 0 !in line
    ensures Shown(f, line, m) == Formatted(f, line) <==> (CString(m.behind) + f.post)[..|f.post|] == f.post
  {
    CStringAppend(line, m.behind);
    var c, n := CString(m.behind), |f.pre| + |line|;
    hide CString;
    var p := f.pre + (line + c) + f.post + [0] + m.junk;
    assert p == f.pre + line + (c + f.post) + [0] + m.junk;
    assert Shown(f, line, m) == p[..n + |f.post|];
    assert p[..n + |f.post|] == f.pre + line + (c + f.post)[..|f.post|];
    var x := (c + f.post)[..|f.post|];
    assert (f.pre + line + x)[n..] == x && (f.pre + line + f.post)[n..] == f.post;
  }

  /** Only a format that ends with the directive is safe whatever the memory holds. */
  lemma AlwaysFormatted(f: Format, line: seq<Byte>)
    requires 0 !in line
    ensures (forall m :: Shown(f, line, m) == Formatted(f, line)) <==> f.post == []
  {
    if f.post != [] {
      var x: Byte := if f.post[0] == 1 then 2 else 1;
      var m := Memory([x], []);
      UptoIs([x], 0, 1);
      assert CString([x]) == [x];
      assert ([x] + f.post)[..|f.post|][0] != f.post[0];
      ShownIsFormatted(f, line, m);
      assert Shown(f, line, m) != Formatted(f, line);
    } else {
      forall m ensures Shown(f, line, m) == Formatted(f, line) {
        ShownIsFormatted(f, line, m);
      }
    }
  }
}
