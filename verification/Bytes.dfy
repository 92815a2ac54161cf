/** Bytes as the wire carries them, and big-endian numbers over them. */
module Bytes {
  type byte = bv8

  /** The first integer that a Go int or int64 cannot hold. */
  const INT64_LIMIT: nat := 0x8000_0000_0000_0000

  /** The byte with value n. */
  function ByteOf(n: nat): (b: byte)
    requires n < 256
    ensures b as int == n
  {
    if n == 0 then 0 else NextByte(ByteOf(n - 1)); ByteOf(n - 1) + 1
  }

  lemma NextByte(b: byte)
    requires b != 255
    ensures (b + 1) as int == b as int + 1
  {
  }

  lemma ByteOfValue(b: byte)
    ensures ByteOf(b as int) == b
  {
    SameValue(ByteOf(b as int), b);
  }

  lemma SameValue(b: byte, c: byte)
    requires b as int == c as int
    ensures b == c
  {
  }

  function Pow256(n: nat): (p: nat)
    ensures p > 0
  {
    if n == 0 then 1 else 256 * Pow256(n - 1)
  }

  /** The value of s read with its most significant byte first. */
  function BigEndian(s: seq<byte>): nat {
    if s == [] then 0 else BigEndian(s[..|s| - 1]) * 256 + s[|s| - 1] as int
  }

  /** The n low-order bytes of v, most significant first. */
  function ToBigEndian(v: nat, n: nat): (s: seq<byte>)
    ensures |s| == n
  {
    if n == 0 then [] else ToBigEndian(v / 256, n - 1) + [ByteOf(v % 256)]
  }

  lemma {:induction false} BigEndianBound(s: seq<byte>)
    ensures BigEndian(s) < Pow256(|s|)
  {
    if s != [] {
      BigEndianBound(s[..|s| - 1]);
    }
  }

  lemma TwoBytes(v: nat)
    requires v < 65536
    ensures ToBigEndian(v, 2) == [ByteOf(v / 256), ByteOf(v % 256)]
  {
    hide ByteOf;
    assert ToBigEndian(v / 256, 1) == ToBigEndian(v / 256 / 256, 0) + [ByteOf(v / 256 % 256)];
    assert v / 256 % 256 == v / 256;
  }

  lemma BigEndianSnoc(s: seq<byte>, b: byte)
    ensures BigEndian(s + [b]) == BigEndian(s) * 256 + b as int
  {
    assert (s + [b])[..|s|] == s;
  }

  lemma {:induction false} BigEndianRoundTrip(v: nat, n: nat)
    requires v < Pow256(n)
    ensures BigEndian(ToBigEndian(v, n)) == v
  {
    if n != 0 {
      BigEndianRoundTrip(v / 256, n - 1);
      BigEndianSnoc(ToBigEndian(v / 256, n - 1), ByteOf(v % 256));
    }
  }

  lemma {:induction false} ToBigEndianRoundTrip(s: seq<byte>)
    ensures ToBigEndian(BigEndian(s), |s|) == s
  {
    if s != [] {
      var t, b := s[..|s| - 1], s[|s| - 1];
      ToBigEndianRoundTrip(t);
      ByteOfValue(b);
      var d := b as int;
      assert BigEndian(s) == BigEndian(t) * 256 + d;
      assert BigEndian(s) / 256 == BigEndian(t) && BigEndian(s) % 256 == d;
      assert s == t + [b];
    }
  }

  lemma DivDiv(v: nat, p: nat)
    requires p > 0
    ensures v / 256 / p == v / (256 * p)
  {
    var q, r := v / 256, v % 256;
    var q2, r2 := q / p, q % p;
    var low := 256 * r2 + r;
    assert v == (256 * p) * q2 + low by {
      assert q == p * q2 + r2;
      assert 256 * q == 256 * (p * q2) + 256 * r2;
      assert 256 * (p * q2) == (256 * p) * q2;
    }
    assert 0 <= low < 256 * p;
    QuotientUnique(v, 256 * p, q2, low);
  }

  lemma QuotientUnique(v: nat, d: nat, q: nat, r: nat)
    requires d > 0 && v == d * q + r && r < d
    ensures v / d == q
  {
    var e: int := v / d - q;
    assert d * e == r - v % d by {
      assert v == d * (v / d) + v % d;
      assert d * e == d * (v / d) - d * q;
    }
    if e != 0 {
      MultipleIsFar(d, e);
    }
  }

  lemma MultipleIsFar(d: int, e: int)
    requires d > 0 && e != 0
    ensures d * e >= d || d * e <= -d
  {
  }

  /** Byte i of the encoding is what a right shift by 8 * (n - 1 - i) bits leaves in the low byte. */
  lemma {:induction false} ToBigEndianAt(v: nat, n: nat, i: nat)
    requires i < n
    ensures ToBigEndian(v, n)[i] == ByteOf((v / Pow256(n - 1 - i)) % 256)
  {
    hide ByteOf;
    if i < n - 1 {
      ToBigEndianAt(v / 256, n - 1, i);
      DivDiv(v, Pow256(n - 2 - i));
    }
  }
}
