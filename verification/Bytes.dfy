/** Bytes, fixed-width integers as bit patterns, and the two byte orders the query protocols use. */
module Bytes {

  type byte = x: int | 0 <= x < 256
  type u16 = x: int | 0 <= x < 0x1_0000
  type u32 = x: int | 0 <= x < 0x1_0000_0000
  type int32 = x: int | -0x8000_0000 <= x < 0x8000_0000

  datatype Option<+T> = None | Some(value: T)

  /** The number of values that fit in `width` bytes. */
  function Range(width: nat): (r: nat)
    ensures r >= 1
  {
    if width == 0 then 1 else 256 * Range(width - 1)
  }

  function LittleEndian(v: nat, width: nat): (r: seq<byte>)
    ensures |r| == width
  {
    if width == 0 then [] else [v % 256] + LittleEndian(v / 256, width - 1)
  }

  function BigEndian(v: nat, width: nat): (r: seq<byte>)
    ensures |r| == width
  {
    if width == 0 then [] else BigEndian(v / 256, width - 1) + [v % 256]
  }

  function FromLittleEndian(s: seq<byte>): (v: nat)
    ensures v < Range(|s|)
  {
    if s == [] then 0 else s[0] + 256 * FromLittleEndian(s[1..])
  }

  function FromBigEndian(s: seq<byte>): (v: nat)
    ensures v < Range(|s|)
  {
    if s == [] then 0 else FromBigEndian(s[..|s| - 1]) * 256 + s[|s| - 1]
  }

  /** Four bytes hold exactly the 32-bit values; the smaller widths likewise. */
  lemma Widths()
    ensures Range(1) == 256 && Range(2) == 0x1_0000 && Range(4) == 0x1_0000_0000
  {
    assert Range(2) == 256 * Range(1);
    assert Range(3) == 256 * Range(2);
  }

  /** Writing then reading a number keeps it modulo the width, in either byte order. */
  lemma {:induction false} NumberRoundTrip(v: nat, width: nat)
    ensures FromLittleEndian(LittleEndian(v, width)) == v % Range(width)
    ensures FromBigEndian(BigEndian(v, width)) == v % Range(width)
  {
    if width > 0 {
      NumberRoundTrip(v / 256, width - 1);
      SplitModulo(v, Range(width - 1));
    }
  }

  /** A number that fits its width comes back unchanged. */
  lemma FittingRoundTrip(v: nat, width: nat)
    requires v < Range(width)
    ensures FromLittleEndian(LittleEndian(v, width)) == v
    ensures FromBigEndian(BigEndian(v, width)) == v
  {
    NumberRoundTrip(v, width);
    ModuloUnique(v, Range(width), 0, v);
  }

  lemma SplitModulo(v: nat, r: nat)
    requires r >= 1
    ensures v % (256 * r) == v % 256 + 256 * ((v / 256) % r)
  {
    var q, m := (v / 256) / r, (v / 256) % r;
    assert v / 256 == q * r + m;
    assert v == 256 * (q * r + m) + v % 256;
    assert 256 * (q * r) == q * (256 * r);
    var rest := 256 * m + v % 256;
    assert v == q * (256 * r) + rest && 0 <= rest < 256 * r;
    ModuloUnique(v, 256 * r, q, rest);
  }

  lemma ModuloUnique(v: nat, d: nat, q: nat, r: nat)
    requires d >= 1 && r < d && v == q * d + r
    ensures v % d == r
  {
    var k := v / d - q;
    assert v == (v / d) * d + v % d;
    assert k * d == (v / d) * d - q * d;
    MultipleIsFar(k, d);
  }

  /** A non-zero multiple of `d` lies at least `d` away from zero. */
  lemma MultipleIsFar(k: int, d: nat)
    ensures k >= 1 ==> k * d >= d
    ensures k <= -1 ==> k * d <= -(d as int)
  {
  }

  /** Reading then writing bytes gives the same bytes back. */
  lemma {:induction false} BytesRoundTrip(s: seq<byte>)
    ensures LittleEndian(FromLittleEndian(s), |s|) == s
    ensures BigEndian(FromBigEndian(s), |s|) == s
  {
    LittleEndianRoundTrip(s);
    BigEndianRoundTrip(s);
  }

  lemma {:induction false} LittleEndianRoundTrip(s: seq<byte>)
    ensures LittleEndian(FromLittleEndian(s), |s|) == s
  {
    if s != [] {
      var v, rest := FromLittleEndian(s), FromLittleEndian(s[1..]);
      DivideByBase(s[0], rest);
      LittleEndianRoundTrip(s[1..]);
      assert v % 256 == s[0] && v / 256 == rest;
      assert LittleEndian(v, |s|) == [s[0]] + s[1..];
    }
  }

  lemma {:induction false} BigEndianRoundTrip(s: seq<byte>)
    ensures BigEndian(FromBigEndian(s), |s|) == s
  {
    if s != [] {
      var init, last := s[..|s| - 1], s[|s| - 1];
      var v, rest := FromBigEndian(s), FromBigEndian(init);
      DivideByBase(last, rest);
      BigEndianRoundTrip(init);
      assert v % 256 == last && v / 256 == rest;
      assert BigEndian(v, |s|) == init + [last];
    }
  }

  lemma DivideByBase(b: byte, v: nat)
    ensures (b + 256 * v) % 256 == b && (b + 256 * v) / 256 == v
  {
  }

  /** Big-endian puts the most significant of four bytes first; little-endian puts it last. */
  lemma Word(v: u32)
    ensures BigEndian(v, 4) == [v / 0x100_0000, v / 0x1_0000 % 256, v / 0x100 % 256, v % 256]
    ensures LittleEndian(v, 4) == [v % 256, v / 0x100 % 256, v / 0x1_0000 % 256, v / 0x100_0000]
  {
    assert v / 256 / 256 == v / 0x1_0000 && v / 256 / 256 / 256 == v / 0x100_0000;
    assert BigEndian(v / 256 / 256, 2) == [v / 0x100_0000, v / 0x1_0000 % 256];
    assert LittleEndian(v / 256 / 256, 2) == [v / 0x1_0000 % 256, v / 0x100_0000];
  }
}
