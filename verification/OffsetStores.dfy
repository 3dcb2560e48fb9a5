/** The file in which the offsets survive a restart. */
module OffsetStores {
  import opened Bytes
  import opened Names
  import opened Options

  datatype Record = Record(offset: nat, inode: nat, size: nat, pathfile: Name, origfile: Name)

  predicate Fits(r: Record) {
    r.offset < TWO_64 && |r.pathfile| < TWO_32 && |r.origfile| < TWO_32
  }

  predicate AllFit(rs: seq<Record>) {
    forall i | 0 <= i < |rs| :: Fits(rs[i])
  }

  function Encoded(r: Record): seq<Byte> {
    U64(r.offset) + U64(r.inode) + U64(r.size) + U32(|r.pathfile|) + U32(|r.origfile|) + r.pathfile + r.origfile
  }

  function EncodedAll(rs: seq<Record>): seq<Byte> {
    if rs == [] then [] else Encoded(rs[0]) + EncodedAll(rs[1..])
  }

  lemma {:induction false} EncodedAppend(a: seq<Record>, r: Record)
    ensures EncodedAll(a + [r]) == EncodedAll(a) + Encoded(r)
  {
    hide Encoded;
    if a == [] {
      assert [r][1..] == [] && a + [r] == [r];
    } else {
      EncodedAppend(a[1..], r);
      assert (a + [r])[1..] == a[1..] + [r];
    }
  }

  /** What is loaded from a record: the inode and the size are not looked at. */
  datatype Loaded = Loaded(offset: nat, pathfile: Name, origfile: Name)

  function LoadedOf(r: Record): Loaded {
    Loaded(r.offset, r.pathfile, r.origfile)
  }

  function LoadedAll(rs: seq<Record>): (ls: seq<Loaded>)
    ensures |ls| == |rs|
  {
    seq(|rs|, i requires 0 <= i < |rs| => LoadedOf(rs[i]))
  }

  /** The record that starts at pos, with the position behind it, unless s ends before the record does. */
  function RecordAt(s: seq<Byte>, pos: nat): Option<(Loaded, nat)>
    requires pos <= |s|
  {
    if |s| - pos < 32 then None
    else
      var p := pos + 32 + Decode(s[pos + 24..pos + 28]);
      var q := p + Decode(s[pos + 28..pos + 32]);
      if |s| < q then None
      else Some((Loaded(Decode(s[pos..pos + 8]), s[pos + 32..p], s[p..q]), q))
  }

  /** The records from pos on, up to the first that is cut off. */
  function RecordsFrom(s: seq<Byte>, pos: nat): seq<Loaded>
    requires pos <= |s|
    decreases |s| - pos
  {
    match RecordAt(s, pos)
    case None => []
    case Some((r, next)) => [r] + RecordsFrom(s, next)
  }

  lemma FieldIs(s: seq<Byte>, at: nat, x: nat)
    requires at + 4 <= |s| && s[at..at + 4] == U32(x) && x < TWO_32
    ensures Decode(s[at..at + 4]) == x
  {
    U32RoundTrip(x);
    SmallU32(x);
  }

  lemma Slices(s: seq<Byte>, pos: nat, m: nat, a: nat, b: nat)
    requires pos <= m <= |s| && a <= b <= m - pos
    ensures s[pos + a..pos + b] == s[pos..m][a..b]
  {
    var t, u := s[pos + a..pos + b], s[pos..m][a..b];
    assert |t| == |u| && forall i | 0 <= i < |t| :: t[i] == u[i];
  }

  lemma Layout(r: Record)
    ensures var e, p := Encoded(r), 32 + |r.pathfile|;
            && |e| == p + |r.origfile| && e[..8] == U64(r.offset) && e[24..28] == U32(|r.pathfile|)
            && e[8..16] == U64(r.inode) && e[16..24] == U64(r.size) && e[28..32] == U32(|r.origfile|)
            && e[32..p] == r.pathfile && e[p..] == r.origfile
  {
    hide U32, U64;
    var a := U64(r.offset) + U64(r.inode) + U64(r.size);
    var b := a + U32(|r.pathfile|) + U32(|r.origfile|);
    assert Encoded(r) == b + r.pathfile + r.origfile;
    assert b[24..28] == U32(|r.pathfile|) && b[28..32] == U32(|r.origfile|) && b[..8] == U64(r.offset);
    assert b[8..16] == U64(r.inode) && b[16..24] == U64(r.size);
  }

  /** Where the fields of a record lie of which m - pos bytes are there. */
  lemma EncodedAt(s: seq<Byte>, pos: nat, m: nat, r: Record)
    requires pos + 32 <= m <= |s| && m - pos <= |Encoded(r)| && s[pos..m] == Encoded(r)[..m - pos] && Fits(r)
    ensures Decode(s[pos..pos + 8]) == r.offset
    ensures Decode(s[pos + 24..pos + 28]) == |r.pathfile| && Decode(s[pos + 28..pos + 32]) == |r.origfile|
  {
    hide Decode, U32, U64;
    Layout(r);
    hide Encoded;
    var e, t := Encoded(r), s[pos..m];
    assert s[pos..pos + 8] == t[..8] && e[..m - pos][..8] == e[..8];
    Slices(s, pos, m, 24, 28);
    Slices(e, 0, m - pos, 24, 28);
    Slices(s, pos, m, 28, 32);
    Slices(e, 0, m - pos, 28, 32);
    U64RoundTrip(r.offset);
    FieldIs(s, pos + 24, |r.pathfile|);
    FieldIs(s, pos + 28, |r.origfile|);
  }

  lemma RecordWhole(s: seq<Byte>, pos: nat, r: Record)
    requires pos + |Encoded(r)| <= |s| && s[pos..pos + |Encoded(r)|] == Encoded(r) && Fits(r)
    ensures RecordAt(s, pos) == Some((LoadedOf(r), pos + |Encoded(r)|))
  {
    hide Decode, U32, U64, Encoded;
    var e := Encoded(r);
    Layout(r);
    EncodedAt(s, pos, pos + |e|, r);
    var p, q := pos + 32 + |r.pathfile|, pos + |e|;
    Slices(s, pos, q, 32, 32 + |r.pathfile|);
    Slices(s, pos, q, 32 + |r.pathfile|, |e|);
    assert e[32 + |r.pathfile|..|e|] == e[32 + |r.pathfile|..];
  }

  /** A record in front of anything tells the offset, the configured path and the file it was written for. */
  lemma RecordReads(r: Record, rest: seq<Byte>)
    requires Fits(r)
    ensures RecordAt(Encoded(r) + rest, 0) == Some((Loaded(r.offset, r.pathfile, r.origfile), |Encoded(r)|))
  {
    hide Encoded, RecordAt;
    var s := Encoded(r) + rest;
    assert s[0..0 + |Encoded(r)|] == Encoded(r);
    RecordWhole(s, 0, r);
  }

  lemma RecordCut(s: seq<Byte>, pos: nat, r: Record)
    requires pos <= |s| < pos + |Encoded(r)| && s[pos..] == Encoded(r)[..|s| - pos] && Fits(r)
    ensures RecordAt(s, pos) == None
  {
    hide Decode, U32, U64, Encoded;
    Layout(r);
    if |s| - pos >= 32 {
      assert s[pos..|s|] == s[pos..];
      EncodedAt(s, pos, |s|, r);
    }
  }

  /** From a file cut off anywhere the first records are loaded, and from a whole one all. */
  lemma {:induction false} CutLoads(s: seq<Byte>, pos: nat, rs: seq<Record>) returns (k: nat)
    requires AllFit(rs) && pos <= |s| && |s| - pos <= |EncodedAll(rs)| && s[pos..] == EncodedAll(rs)[..|s| - pos]
    ensures k <= |rs| && RecordsFrom(s, pos) == LoadedAll(rs[..k])
    ensures |s| - pos == |EncodedAll(rs)| ==> k == |rs|
    decreases rs
  {
    hide Encoded, RecordAt;
    k := 0;
    if rs == [] {
      NothingAt(s, pos);
    } else {
      var e, rest := Encoded(rs[0]), EncodedAll(rs[1..]);
      if |s| - pos < |e| {
        assert s[pos..] == e[..|s| - pos];
        RecordCut(s, pos, rs[0]);
      } else {
        var next := pos + |e|;
        assert s[pos..next] == s[pos..][..|e|] == e;
        RecordWhole(s, pos, rs[0]);
        assert s[next..] == s[pos..][|e|..] == rest[..|s| - next];
        var j := CutLoads(s, next, rs[1..]);
        k := j + 1;
        assert rs[..k] == [rs[0]] + rs[1..][..j];
        assert LoadedAll(rs[..k]) == [LoadedOf(rs[0])] + LoadedAll(rs[1..][..j]);
      }
    }
  }

  lemma NothingAt(s: seq<Byte>, pos: nat)
    requires pos == |s|
    ensures RecordAt(s, pos) == None
  {
  }

  // ----- by file -----

  /** The last record of each file counts. */
  function ByFile(ls: seq<Loaded>): map<Name, Loaded> {
    if ls == [] then map[] else ByFile(ls[..|ls| - 1])[ls[|ls| - 1].origfile := ls[|ls| - 1]]
  }

  predicate Distinct(rs: seq<Record>) {
    forall i, j | 0 <= i < j < |rs| :: rs[i].origfile != rs[j].origfile
  }

  lemma {:induction false} ByFileIs(rs: seq<Record>)
    requires Distinct(rs)
    ensures forall k :: k in ByFile(LoadedAll(rs)) <==> exists i :: 0 <= i < |rs| && rs[i].origfile == k
    ensures forall i | 0 <= i < |rs| ::
            rs[i].origfile in ByFile(LoadedAll(rs)) && ByFile(LoadedAll(rs))[rs[i].origfile] == LoadedOf(rs[i])
  {
    if rs != [] {
      var n := |rs| - 1;
      ByFileIs(rs[..n]);
      assert LoadedAll(rs)[..n] == LoadedAll(rs[..n]);
      assert forall i | 0 <= i < n :: rs[..n][i] == rs[i];
    }
  }

  /** With fewer records fewer files are known, but these at the same offset. */
  lemma FewerKnown(rs: seq<Record>, n: nat)
    requires Distinct(rs) && n <= |rs|
    ensures forall k | k in ByFile(LoadedAll(rs[..n])) ::
            k in ByFile(LoadedAll(rs)) && ByFile(LoadedAll(rs[..n]))[k] == ByFile(LoadedAll(rs))[k]
  {
    ByFileIs(rs);
    ByFileIs(rs[..n]);
    forall k | k in ByFile(LoadedAll(rs[..n]))
      ensures k in ByFile(LoadedAll(rs)) && ByFile(LoadedAll(rs[..n]))[k] == ByFile(LoadedAll(rs))[k]
    {
      var i :| 0 <= i < n && rs[..n][i].origfile == k;
      assert rs[i].origfile == k;
    }
  }

  /** The successive reads of one record. */
  method ReadRecord(s: seq<Byte>, start: nat) returns (r: Option<(Loaded, nat)>)
    requires start <= |s|
    ensures r == RecordAt(s, start)
  {
    hide Decode;
    var pos := start;
    if |s| - pos < 32 {
      return None;
    }
    var offset := Decode(s[pos..pos + 8]);
    var pathFileSize, origFileSize := Decode(s[pos + 24..pos + 28]), Decode(s[pos + 28..pos + 32]);
    pos := pos + 32;
    if |s| - pos < pathFileSize {
      return None;
    }
    var pathFile := s[pos..pos + pathFileSize];
    pos := pos + pathFileSize;
    if |s| - pos < origFileSize {
      return None;
    }
    r := Some((Loaded(offset, pathFile, s[pos..pos + origFileSize]), pos + origFileSize));
  }

  /** The numbers and names in a record that was read fit into their fields. */
  lemma ReadFits(s: seq<Byte>, pos: nat)
    requires pos <= |s|
    ensures match RecordAt(s, pos)
            case None => true
            case Some((r, _)) => r.offset < TWO_64 && |r.pathfile| < TWO_32 && |r.origfile| < TWO_32
  {
    if |s| - pos >= 32 {
      DecodeBelow(s[pos..pos + 8]);
      DecodeBelow(s[pos + 24..pos + 28]);
      DecodeBelow(s[pos + 28..pos + 32]);
      Widths();
    }
  }

  lemma {:induction false} AllReadFit(s: seq<Byte>, pos: nat)
    requires pos <= |s|
    ensures forall r | r in RecordsFrom(s, pos) :: r.offset < TWO_64 && |r.pathfile| < TWO_32 && |r.origfile| < TWO_32
    decreases |s| - pos
  {
    hide RecordAt;
    ReadFits(s, pos);
    if RecordAt(s, pos).Some? {
      RecordAhead(s, pos);
      AllReadFit(s, RecordAt(s, pos).value.1);
    }
  }

  lemma RecordAhead(s: seq<Byte>, pos: nat)
    requires pos <= |s| && RecordAt(s, pos).Some?
    ensures pos < RecordAt(s, pos).value.1 <= |s|
  {
  }

  lemma {:induction false} ByFileFrom(ls: seq<Loaded>)
    ensures forall k | k in ByFile(ls) :: ByFile(ls)[k] in ls
  {
    if ls != [] {
      ByFileFrom(ls[..|ls| - 1]);
    }
  }

  lemma NextByFile(ls: seq<Loaded>, r: Loaded)
    ensures ByFile(ls + [r]) == ByFile(ls)[r.origfile := r]
  {
    assert (ls + [r])[..|ls|] == ls;
  }
}
