/** The records that the two search trees index, and the two comparison functions. */
module Watches {

  /** One watch record. `id` stands for the address of the record: two records allocated at
      different times differ in it even when their descriptor and name agree. */
  datatype Watch = Watch(id: nat, wd: int, filename: string)

  type Compare = (Watch, Watch) -> int

  /** What the tree demands of a comparison function: it orders the records by some total preorder,
      and only the sign of its result matters. */
  ghost predicate Orders(cmp: Compare) {
    && (forall a, b :: cmp(a, b) < 0 <==> cmp(b, a) > 0)
    && (forall a, b, c :: cmp(a, b) <= 0 && cmp(b, c) <= 0 ==> cmp(a, c) <= 0)
  }

  lemma OrdersStrictly(cmp: Compare, a: Watch, b: Watch, c: Watch)
    requires Orders(cmp)
    ensures cmp(a, b) < 0 && cmp(b, c) <= 0 ==> cmp(a, c) < 0
    ensures cmp(a, b) <= 0 && cmp(b, c) < 0 ==> cmp(a, c) < 0
  {
    assert cmp(c, a) <= 0 && cmp(a, b) <= 0 ==> cmp(c, b) <= 0;
    assert cmp(b, c) <= 0 && cmp(c, a) <= 0 ==> cmp(b, a) <= 0;
  }

  ghost predicate Ascending(cmp: Compare, s: seq<Watch>) {
    forall i, j | 0 <= i < j < |s| :: cmp(s[i], s[j]) < 0
  }

  ghost predicate AllDifferent(s: seq<Watch>) {
    forall a, b | 0 <= a < b < |s| :: s[a] != s[b]
  }

  lemma AscendingDifferent(cmp: Compare, s: seq<Watch>)
    requires Orders(cmp) && Ascending(cmp, s)
    ensures AllDifferent(s)
  {
    forall a, b | 0 <= a < b < |s| ensures s[a] != s[b] {
      assert cmp(s[a], s[a]) == 0;
    }
  }

  /** i keys lie below k and the others do not. */
  ghost predicate Splits(cmp: Compare, s: seq<Watch>, k: Watch, i: nat) {
    && i <= |s|
    && (forall j | 0 <= j < i :: cmp(k, s[j]) > 0)
    && (forall j | i <= j < |s| :: cmp(k, s[j]) <= 0)
  }

  ghost predicate Present(cmp: Compare, s: seq<Watch>, k: Watch, i: nat) {
    i < |s| && cmp(k, s[i]) == 0
  }

  ghost function Inserted(s: seq<Watch>, i: nat, k: Watch): seq<Watch>
    requires i <= |s|
  {
    s[..i] + [k] + s[i..]
  }

  ghost function Removed(s: seq<Watch>, i: nat): seq<Watch>
    requires i < |s|
  {
    s[..i] + s[i + 1..]
  }

  lemma AscendingInsert(cmp: Compare, s: seq<Watch>, k: Watch, i: nat)
    requires Orders(cmp) && Ascending(cmp, s) && Splits(cmp, s, k, i) && !Present(cmp, s, k, i)
    ensures Ascending(cmp, Inserted(s, i, k))
  {
    if i < |s| {
      forall j | i < j < |s| ensures cmp(k, s[j]) < 0 {
        OrdersStrictly(cmp, k, s[i], s[j]);
      }
    }
  }

  lemma AscendingRemove(cmp: Compare, s: seq<Watch>, i: nat)
    requires Ascending(cmp, s) && i < |s|
    ensures Ascending(cmp, Removed(s, i))
  {
  }

  // ----- the two orders -----

  function WdCompare(a: Watch, b: Watch): int {
    a.wd - b.wd
  }

  /** The sign of the first difference; a proper prefix comes first, for no name contains the terminator. */
  function StrCmp(a: string, b: string): int {
    if a == [] && b == [] then 0
    else if a == [] then -1
    else if b == [] then 1
    else if a[0] != b[0] then a[0] as int - b[0] as int
    else StrCmp(a[1..], b[1..])
  }

  function FilenameCompare(a: Watch, b: Watch): int {
    StrCmp(a.filename, b.filename)
  }

  /** Descriptors of stored watches are positive C ints, and that of an event may also be -1; so the
      difference of one looked for and one stored does not wrap around. */
  lemma WdDifferenceFits(a: Watch, b: Watch)
    requires -1 <= a.wd < 0x8000_0000 && 0 < b.wd < 0x8000_0000
    ensures -0x8000_0000 <= WdCompare(a, b) < 0x8000_0000
  {
  }

  lemma WdOrders()
    ensures Orders(WdCompare)
    ensures forall a: Watch, b: Watch :: WdCompare(a, b) < 0 <==> a.wd < b.wd
  {
  }

  /** The first difference decides, or the end of the shorter one. */
  lemma {:induction false} StrCmpFirst(a: string, b: string, i: nat)
    requires i <= |a| && i < |b| && a[..i] == b[..i] && (i == |a| || a[i] < b[i])
    ensures StrCmp(a, b) < 0
  {
    if i > 0 {
      assert a[0] == a[..i][0] == b[..i][0] == b[0];
      assert a[1..][..i - 1] == a[..i][1..] && b[1..][..i - 1] == b[..i][1..];
      StrCmpFirst(a[1..], b[1..], i - 1);
    }
  }

  lemma {:induction false} StrCmpSign(a: string, b: string)
    ensures StrCmp(a, b) < 0 <==> StrCmp(b, a) > 0
    ensures StrCmp(a, b) == 0 <==> a == b
  {
    if a != [] && b != [] && a[0] == b[0] {
      StrCmpSign(a[1..], b[1..]);
      assert a == [a[0]] + a[1..] && b == [b[0]] + b[1..];
    }
  }

  lemma {:induction false} StrCmpTransitive(a: string, b: string, c: string)
    requires StrCmp(a, b) <= 0 && StrCmp(b, c) <= 0
    ensures StrCmp(a, c) <= 0
  {
    if a != [] && b != [] && c != [] && a[0] == b[0] == c[0] {
      StrCmpTransitive(a[1..], b[1..], c[1..]);
    }
  }

  lemma FilenameOrders()
    ensures Orders(FilenameCompare)
  {
    forall a: Watch, b: Watch
      ensures FilenameCompare(a, b) < 0 <==> FilenameCompare(b, a) > 0
    {
      StrCmpSign(a.filename, b.filename);
    }
    forall a: Watch, b: Watch, c: Watch | FilenameCompare(a, b) <= 0 && FilenameCompare(b, c) <= 0
      ensures FilenameCompare(a, c) <= 0
    {
      StrCmpTransitive(a.filename, b.filename, c.filename);
    }
  }
}
