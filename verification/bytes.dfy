/** Fixed-width integers, their wrap-around, and the byte orders of Go's
    encoding/binary. */
module Bytes {
  type Byte = b: int | 0 <= b < 0x100
  type uint16 = x: int | 0 <= x < 0x1_0000
  type uint32 = x: int | 0 <= x < 0x1_0000_0000
  type uint64 = x: int | 0 <= x < 0x1_0000_0000_0000_0000
  type int16 = x: int | -0x8000 <= x < 0x8000
  type int32 = x: int | -0x8000_0000 <= x < 0x8000_0000
  type int64 = x: int | -0x8000_0000_0000_0000 <= x < 0x8000_0000_0000_0000

  // Go's conversions keep the low bits: the results of overflowing arithmetic.
  function U16(x: int): uint16 {
    x % 0x1_0000
  }

  function U32(x: int): uint32 {
    x % 0x1_0000_0000
  }

  function U64(x: int): uint64 {
    x % 0x1_0000_0000_0000_0000
  }

  function I16(x: int): int16 {
    if U16(x) < 0x8000 then U16(x) else U16(x) - 0x1_0000
  }

  function I32(x: int): int32 {
    if U32(x) < 0x8000_0000 then U32(x) else U32(x) - 0x1_0000_0000
  }

  function I64(x: int): int64 {
    if U64(x) < 0x8000_0000_0000_0000 then U64(x) else U64(x) - 0x1_0000_0000_0000_0000
  }

  // One more step on a number that has wrapped around.

  lemma I16Step(n: int, d: int)
    ensures I16(I16(n) + d) == I16(n + d)
  {
  }

  lemma U16Step(n: int, d: int)
    ensures U16(U16(n) + d) == U16(n + d)
  {
  }

  lemma I64Step(n: int, d: int)
    ensures I64(I64(n) + d) == I64(n + d)
  {
  }

  function Pow256(w: nat): (p: nat)
    ensures p >= 1
  {
    if w == 0 then 1 else 256 * Pow256(w - 1)
  }

  /** The low `w` bytes of `x`, least significant first. */
  function LittleEndian(x: nat, w: nat): (bs: seq<Byte>)
    ensures |bs| == w
  {
    seq(w, i requires 0 <= i < w => x / Pow256(i) % 0x100)
  }

  function FromLittleEndian(bs: seq<Byte>): (x: nat)
    ensures x < Pow256(|bs|)
  {
    if bs == [] then 0 else bs[0] + 0x100 * FromLittleEndian(bs[1..])
  }

  lemma QuotientIs(x: nat, m: nat, q: nat, r: nat)
    requires m > 0 && x == m * q + r && r < m
    ensures x / m == q
  {
    var d := x / m - q;
    assert x == m * (x / m) + x % m;
    assert m * d == r - x % m;
    assert d >= 1 ==> m * d >= m;
    assert d <= -1 ==> m * d + m <= 0;
  }

  lemma DivideTwice(x: nat, p: nat)
    requires p >= 1
    ensures x / (0x100 * p) == x / 0x100 / p
  {
    var q, r := x / 0x100 / p, x / 0x100 % p;
    assert x / 0x100 == p * q + r;
    assert x == 0x100 * p * q + (0x100 * r + x % 0x100);
    QuotientIs(x, 0x100 * p, q, 0x100 * r + x % 0x100);
  }

  lemma LittleEndianStep(x: nat, w: nat)
    requires w > 0
    ensures LittleEndian(x, w) == [x % 0x100] + LittleEndian(x / 0x100, w - 1)
  {
    forall i | 1 <= i < w ensures LittleEndian(x, w)[i] == LittleEndian(x / 0x100, w - 1)[i - 1] {
      DivideTwice(x, Pow256(i - 1));
    }
  }

  lemma {:induction false} LittleEndianRoundTrip(x: nat, w: nat)
    requires x < Pow256(w)
    ensures FromLittleEndian(LittleEndian(x, w)) == x
  {
    if w > 0 {
      LittleEndianStep(x, w);
      LittleEndianRoundTrip(x / 0x100, w - 1);
      assert LittleEndian(x, w)[1..] == LittleEndian(x / 0x100, w - 1);
    }
  }

  /** The low `w` bytes of `x`, most significant first. */
  function BigEndian(x: nat, w: nat): (bs: seq<Byte>)
    ensures |bs| == w
  {
    seq(w, i requires 0 <= i < w => x / Pow256(w - 1 - i) % 0x100)
  }

  function FromBigEndian(bs: seq<Byte>): (x: nat)
    ensures x < Pow256(|bs|)
  {
    if bs == [] then 0 else 0x100 * FromBigEndian(bs[..|bs| - 1]) + bs[|bs| - 1]
  }

  lemma BigEndianStep(x: nat, w: nat)
    requires w > 0
    ensures BigEndian(x, w) == BigEndian(x / 0x100, w - 1) + [x % 0x100]
  {
    forall i | 0 <= i < w - 1 ensures BigEndian(x, w)[i] == BigEndian(x / 0x100, w - 1)[i] {
      DivideTwice(x, Pow256(w - 2 - i));
      assert Pow256(w - 1 - i) == 0x100 * Pow256(w - 2 - i);
    }
    assert BigEndian(x, w)[w - 1] == x / Pow256(0) % 0x100 == x % 0x100;
  }

  lemma {:induction false} BigEndianRoundTrip(x: nat, w: nat)
    requires x < Pow256(w)
    ensures FromBigEndian(BigEndian(x, w)) == x
  {
    if w > 0 {
      BigEndianStep(x, w);
      BigEndianRoundTrip(x / 0x100, w - 1);
      assert BigEndian(x, w)[..w - 1] == BigEndian(x / 0x100, w - 1);
    }
  }

  lemma {:induction false} BigEndianOnto(bs: seq<Byte>)
    ensures BigEndian(FromBigEndian(bs), |bs|) == bs
  {
    if bs != [] {
      BigEndianStep(FromBigEndian(bs), |bs|);
      BigEndianOnto(bs[..|bs| - 1]);
      assert FromBigEndian(bs) / 0x100 == FromBigEndian(bs[..|bs| - 1]);
    }
  }

  lemma Widths()
    ensures Pow256(1) == 0x100 && Pow256(2) == 0x1_0000 && Pow256(4) == 0x1_0000_0000
    ensures Pow256(8) == 0x1_0000_0000_0000_0000
  {
    assert Pow256(1) == 256 * Pow256(0);
    assert Pow256(2) == 256 * Pow256(1);
    assert Pow256(3) == 256 * Pow256(2);
    assert Pow256(4) == 256 * Pow256(3);
    assert Pow256(5) == 256 * Pow256(4);
    assert Pow256(6) == 256 * Pow256(5);
    assert Pow256(7) == 256 * Pow256(6);
    assert Pow256(8) == 256 * Pow256(7);
  }

  /** The bytes of an ASCII string literal. */
  function Ascii(s: string): (bs: seq<Byte>)
    ensures |bs| == |s|
    ensures forall i | 0 <= i < |s| :: bs[i] == s[i] as int % 0x100
  {
    seq(|s|, i requires 0 <= i < |s| => s[i] as int % 0x100)
  }
}
