/** Bytes and the fixed-width big-endian numbers that the files hold. */
module Bytes {

  type Byte = b: int | 0 <= b < 256

  /** n bytes, most significant first, of a number taken modulo 256 to the n. */
  function Encode(n: nat, x: nat): (s: seq<Byte>)
    ensures |s| == n
  {
    if n == 0 then [] else Encode(n - 1, x / 256) + [x % 256]
  }

  function Decode(s: seq<Byte>): nat {
    if s == [] then 0 else Decode(s[..|s| - 1]) * 256 + s[|s| - 1]
  }

  ghost function Radix(n: nat): nat {
    if n == 0 then 1 else 256 * Radix(n - 1)
  }

  lemma {:induction false} RoundTrip(n: nat, x: nat)
    requires x < Radix(n)
    ensures Decode(Encode(n, x)) == x
  {
    if n > 0 {
      var s := Encode(n, x);
      assert s[..n - 1] == Encode(n - 1, x / 256);
      RoundTrip(n - 1, x / 256);
    }
  }

  /** The byte at i has the weight of as many places as stand behind it. */
  lemma {:induction false} EncodeAt(n: nat, x: nat, i: nat)
    requires i < n
    ensures Radix(n - 1 - i) > 0 && Encode(n, x)[i] == x / Radix(n - 1 - i) % 256
  {
    if i == n - 1 {
      assert Radix(0) == 1;
    } else {
      var r := Radix(n - 2 - i);
      EncodeAt(n - 1, x / 256, i);
      DivTwice(x, r);
      assert Radix(n - 1 - i) == 256 * r;
    }
  }

  lemma DivTwice(x: nat, r: nat)
    requires r > 0
    ensures x / 256 / r == x / (256 * r)
  {
    var q := x / 256 / r;
    var a, b := x / 256 % r, x % 256;
    assert x / 256 == q * r + a;
    assert x == 256 * (q * r + a) + b == q * (256 * r) + (256 * a + b);
    assert 256 * a + b < 256 * r;
    QuotientIs(x, 256 * r, q, 256 * a + b);
  }

  lemma QuotientIs(x: nat, d: nat, q: nat, r: nat)
    requires d > 0 && x == q * d + r && r < d
    ensures x / d == q
  {
    var k := x / d - q;
    assert k * d == r - x % d;
    NoSmaller(k, d);
  }

  lemma NoSmaller(k: int, d: nat)
    ensures k > 0 ==> k * d >= d
    ensures k < 0 ==> k * d + d <= 0
  {
  }

  /** Reading back and writing again changes no byte, so the two determine each other. */
  lemma {:induction false} EncodeDecode(s: seq<Byte>)
    ensures Encode(|s|, Decode(s)) == s
  {
    if s != [] {
      var n := |s| - 1;
      EncodeDecode(s[..n]);
      assert (Decode(s[..n]) * 256 + s[n]) / 256 == Decode(s[..n]);
      assert s == s[..n] + [s[n]];
    }
  }

  lemma {:induction false} DecodeBelow(s: seq<Byte>)
    ensures Decode(s) < Radix(|s|)
  {
    if s != [] {
      DecodeBelow(s[..|s| - 1]);
    }
  }

  /** The value of four bytes. */
  lemma DecodeFour(s: seq<Byte>)
    requires |s| == 4
    ensures Decode(s) == 0x100_0000 * s[0] as int + 0x1_0000 * s[1] as int + 0x100 * s[2] as int + s[3] as int
  {
    assert s[..3][..2] == s[..2] && s[..2][..1] == s[..1] && s[..1][..0] == [];
    assert Decode(s[..1]) == s[0];
    assert Decode(s[..2]) == Decode(s[..1]) * 256 + s[1];
    assert Decode(s[..3]) == Decode(s[..2]) * 256 + s[2];
  }

  const TWO_31 := 0x8000_0000
  const TWO_32 := 0x1_0000_0000
  const TWO_64 := 0x1_0000_0000_0000_0000

  lemma Widths()
    ensures Radix(4) == TWO_32 && Radix(8) == TWO_64
  {
    assert Radix(4) == 256 * (256 * (256 * (256 * Radix(0))));
    assert Radix(8) == 256 * (256 * (256 * (256 * Radix(4))));
  }

  /** The value of a C int converted to 32 unsigned bits, and back. */
  function ToU32(x: int): (u: nat)
    ensures u < TWO_32
  {
    x % TWO_32
  }

  function ToInt32(u: nat): int {
    if u % TWO_32 < TWO_31 then u % TWO_32 else u % TWO_32 - TWO_32
  }

  predicate IsInt32(x: int) {
    -TWO_31 <= x < TWO_31
  }

  lemma SmallU32(x: nat)
    requires x < TWO_32
    ensures ToU32(x) == x
  {
  }

  /** A 32-bit field and its reading. */
  function U32(x: int): (s: seq<Byte>)
    ensures |s| == 4
  {
    Encode(4, ToU32(x))
  }

  lemma U32RoundTrip(x: int)
    ensures Decode(U32(x)) == ToU32(x)
  {
    Widths();
    RoundTrip(4, ToU32(x));
  }

  /** Its bytes, most significant first. */
  lemma U32Bytes(x: nat)
    requires x < TWO_32
    ensures var s := U32(x);
            s[0] == x / 0x100_0000 && s[1] == x / 0x1_0000 % 256 && s[2] == x / 0x100 % 256 && s[3] == x % 256
  {
    hide Encode;
    SmallU32(x);
    assert Radix(1) == 256 * Radix(0) && Radix(2) == 256 * Radix(1) && Radix(3) == 256 * Radix(2);
    EncodeAt(4, x, 0);
    EncodeAt(4, x, 1);
    EncodeAt(4, x, 2);
    EncodeAt(4, x, 3);
  }

  function U64(x: nat): (s: seq<Byte>)
    ensures |s| == 8
  {
    Encode(8, x % TWO_64)
  }

  lemma U64RoundTrip(x: nat)
    requires x < TWO_64
    ensures Decode(U64(x)) == x
  {
    hide Encode, Decode;
    Widths();
    RoundTrip(8, x);
    assert x % TWO_64 == x;
  }
}
