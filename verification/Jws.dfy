/** The fixed-width encodings that JSON Web Signature needs for elliptic curves: section 3.4 of RFC 7518 for a
    signature, section 6.2.1.2 for the coordinates of a key. */
module Jws {
  import opened Bytes
  import opened Wrappers

  /** What big.Int.Bytes gives: the big-endian bytes of v with no leading zero. */
  function Magnitude(v: nat): seq<byte> {
    if v == 0 then [] else Magnitude(v / 256) + [ByteOf(v % 256)]
  }

  lemma {:induction false} MagnitudeValue(v: nat)
    ensures BigEndian(Magnitude(v)) == v
  {
    hide ByteOf;
    if v != 0 {
      MagnitudeValue(v / 256);
      BigEndianSnoc(Magnitude(v / 256), ByteOf(v % 256));
    }
  }

  lemma {:induction false} MagnitudeFits(v: nat, n: nat)
    ensures |Magnitude(v)| <= n <==> v < Pow256(n)
  {
    hide ByteOf;
    if v != 0 && n != 0 {
      MagnitudeFits(v / 256, n - 1);
      assert v / 256 < Pow256(n - 1) <==> v < 256 * Pow256(n - 1);
    }
  }

  function Zeros(n: nat): (s: seq<byte>)
    ensures |s| == n
  {
    seq(n, _ => 0)
  }

  lemma {:induction false} ZerosValue(n: nat)
    ensures BigEndian(Zeros(n)) == 0
  {
    if n != 0 {
      ZerosValue(n - 1);
      assert Zeros(n) == Zeros(n - 1) + [0];
      BigEndianSnoc(Zeros(n - 1), 0);
    }
  }

  lemma {:induction false} LeadingZeros(n: nat, s: seq<byte>)
    ensures BigEndian(Zeros(n) + s) == BigEndian(s)
    decreases |s|
  {
    hide Zeros, BigEndian;
    if s == [] {
      ZerosValue(n);
      EmptyValue();
      assert Zeros(n) + s == Zeros(n);
    } else {
      var t, b := s[..|s| - 1], s[|s| - 1];
      LeadingZeros(n, t);
      assert Zeros(n) + s == (Zeros(n) + t) + [b] && s == t + [b];
      BigEndianSnoc(Zeros(n) + t, b);
      BigEndianSnoc(t, b);
    }
  }

  lemma EmptyValue()
    ensures BigEndian([]) == 0
  {
  }

  /** Padded on the left to its width, the magnitude is the fixed-width encoding. */
  lemma {:induction false} PaddedMagnitude(v: nat, n: nat)
    requires v < Pow256(n)
    ensures |Magnitude(v)| <= n
    ensures Zeros(n - |Magnitude(v)|) + Magnitude(v) == ToBigEndian(v, n)
  {
    MagnitudeFits(v, n);
    MagnitudeValue(v);
    var p := Zeros(n - |Magnitude(v)|) + Magnitude(v);
    LeadingZeros(n - |Magnitude(v)|, Magnitude(v));
    ToBigEndianRoundTrip(p);
  }

  // ---------------------------------------------------------------- widths

  /** The number of bytes that hold a number of bits. */
  function Octets(bits: nat): nat {
    (bits + 7) / 8
  }

  /** The width jwsSign computes; it tests the number of bytes, not of bits, for a remainder. */
  function SignatureWidth(bits: nat): nat {
    if bits / 8 % 8 > 0 then bits / 8 + 1 else bits / 8
  }

  /** The width is right for the curves that jwsHasher lets through, P-256, P-384 and P-521, but not for every
      curve: it is one byte too wide for P-224. */
  lemma WidthIsCeiling(bits: nat)
    ensures SignatureWidth(bits) == Octets(bits) <==> (bits % 8 > 0 <==> bits / 8 % 8 > 0)
    ensures bits == 256 || bits == 384 || bits == 521 ==> SignatureWidth(bits) == Octets(bits)
    ensures SignatureWidth(224) == Octets(224) + 1
  {
    var q, r := bits / 8, bits % 8;
    assert bits == 8 * q + r;
    assert Octets(bits) == if r > 0 then q + 1 else q;
  }

  function Pow2(n: nat): (p: nat)
    ensures p > 0
  {
    if n == 0 then 1 else 2 * Pow2(n - 1)
  }

  lemma {:induction false} Pow2Grows(m: nat, n: nat)
    requires m <= n
    ensures Pow2(m) <= Pow2(n)
  {
    if m < n {
      Pow2Grows(m, n - 1);
    }
  }

  /** A number of that many bits, such as a coordinate or half a signature, fits its octets. */
  lemma {:induction false} BitsFit(v: nat, bits: nat)
    requires v < Pow2(bits)
    ensures v < Pow256(Octets(bits))
  {
    if bits >= 8 {
      EightBits(bits - 8);
      BitsFit(v / 256, bits - 8);
      assert Octets(bits) == Octets(bits - 8) + 1;
    } else {
      Pow2Grows(bits, 7);
      assert Pow2(7) == 2 * Pow2(6) && Pow2(6) == 4 * Pow2(4) && Pow2(4) == 4 * Pow2(2) && Pow2(2) == 4;
      if bits > 0 {
        assert Octets(bits) == 1 && Pow256(1) == 256 * Pow256(0);
      }
    }
  }

  lemma EightBits(n: nat)
    ensures Pow2(n + 8) == 256 * Pow2(n)
  {
    assert Pow2(n + 2) == 4 * Pow2(n);
    assert Pow2(n + 4) == 4 * Pow2(n + 2);
    assert Pow2(n + 6) == 4 * Pow2(n + 4);
  }

  // ---------------------------------------------------------------- signatures

  /** The bytes of dst with src laid over them from at on. */
  function Overlaid(dst: seq<byte>, at: nat, src: seq<byte>): seq<byte>
    requires at + |src| <= |dst|
  {
    dst[..at] + src + dst[at + |src|..]
  }

  method Copy(dst: array<byte>, at: nat, src: seq<byte>)
    requires at + |src| <= dst.Length
    modifies dst
    ensures dst[..] == Overlaid(old(dst[..]), at, src)
  {
    for i := 0 to |src|
      invariant dst[..] == Overlaid(old(dst[..]), at, src[..i])
    {
      assert src[..i + 1] == src[..i] + [src[i]];
      dst[at + i] := src[i];
    }
    assert src[..|src|] == src;
  }

  /** What the two copies leave in the buffer. */
  function Buffer(r: nat, s: nat, size: nat): (b: seq<byte>)
    requires |Magnitude(r)| <= size && |Magnitude(s)| <= 2 * size
    ensures |b| == 2 * size
  {
    var first := Overlaid(Zeros(size * 2), size - |Magnitude(r)|, Magnitude(r));
    Overlaid(first, size * 2 - |Magnitude(s)|, Magnitude(s))
  }

  /** jwsSign for an elliptic-curve key, once the two numbers are known. None is the panic of a slice bound below
      zero. */
  method EncodeSignature(bits: nat, r: nat, s: nat) returns (sig: Option<array<byte>>)
    ensures sig.Some? <==>
      |Magnitude(r)| <= SignatureWidth(bits) && |Magnitude(s)| <= 2 * SignatureWidth(bits)
    ensures sig.Some? ==> fresh(sig.value) && sig.value[..] == Buffer(r, s, SignatureWidth(bits))
  {
    hide Magnitude, Overlaid;
    var rb, sb := Magnitude(r), Magnitude(s);
    var size := bits / 8;
    if size % 8 > 0 {
      size := size + 1;
    }
    var a := new byte[size * 2](_ => 0);
    assert a[..] == Zeros(size * 2);
    if |rb| > size {
      return None;
    }
    Copy(a, size - |rb|, rb);
    if |sb| > size * 2 {
      return None;
    }
    Copy(a, size * 2 - |sb|, sb);
    sig := Some(a);
  }

  /** The call survives exactly when r fits its half and s the whole buffer; and then the halves read back as the
      two numbers exactly when s fits its half, too. A longer s is not refused but overwrites the end of r. */
  lemma BufferReadsBack(r: nat, s: nat, size: nat)
    ensures |Magnitude(r)| <= size && |Magnitude(s)| <= 2 * size <==> r < Pow256(size) && s < Pow256(2 * size)
    ensures r < Pow256(size) && s < Pow256(2 * size) ==>
      var b := Buffer(r, s, size);
      BigEndian(b[..size]) == r && BigEndian(b[size..]) == s <==> s < Pow256(size)
  {
    hide *;
    MagnitudeFits(r, size);
    MagnitudeFits(s, 2 * size);
    if r < Pow256(size) && s < Pow256(2 * size) {
      if s < Pow256(size) {
        Halves(r, s, size);
      } else {
        BigEndianBound(Buffer(r, s, size)[size..]);
      }
    }
  }

  lemma Halves(r: nat, s: nat, size: nat)
    requires r < Pow256(size) && s < Pow256(size)
    ensures |Magnitude(r)| <= size && |Magnitude(s)| <= size
    ensures var b := Buffer(r, s, size);
      && b == ToBigEndian(r, size) + ToBigEndian(s, size)
      && BigEndian(b[..size]) == r && BigEndian(b[size..]) == s
  {
    hide Pow256, BigEndian, ToBigEndian, Magnitude;
    PaddedMagnitude(r, size);
    PaddedMagnitude(s, size);
    BigEndianRoundTrip(r, size);
    BigEndianRoundTrip(s, size);
    var rb, sb := Magnitude(r), Magnitude(s);
    var first := Overlaid(Zeros(size * 2), size - |rb|, rb);
    assert first == (Zeros(size - |rb|) + rb) + Zeros(size);
    assert Buffer(r, s, size) == ToBigEndian(r, size) + (Zeros(size - |sb|) + sb);
    var b := Buffer(r, s, size);
    assert b[..size] == ToBigEndian(r, size) && b[size..] == ToBigEndian(s, size);
  }

  /** For each curve that jwsHasher lets through, and numbers of its size, the signature is twice the octets of
      the curve long and its halves are r and s. */
  lemma SignatureReadsBack(bits: nat, r: nat, s: nat)
    requires bits == 256 || bits == 384 || bits == 521
    requires r < Pow2(bits) && s < Pow2(bits)
    ensures var size := SignatureWidth(bits);
      && |Magnitude(r)| <= size && |Magnitude(s)| <= size
      && size == Octets(bits)
      && BigEndian(Buffer(r, s, size)[..size]) == r && BigEndian(Buffer(r, s, size)[size..]) == s
  {
    hide *;
    WidthIsCeiling(bits);
    BitsFit(r, bits);
    BitsFit(s, bits);
    Halves(r, s, SignatureWidth(bits));
  }

  // ---------------------------------------------------------------- keys

  /** jwkEncode on one coordinate: never shortened, and of the full width exactly when it fits it. */
  method EncodeCoordinate(bits: nat, x: nat) returns (b: seq<byte>)
    ensures BigEndian(b) == x && |b| >= Octets(bits)
    ensures |b| == Octets(bits) <==> x < Pow256(Octets(bits))
    ensures x < Pow2(bits) ==> b == ToBigEndian(x, Octets(bits))
  {
    hide Pow2, Pow256, BigEndian, ToBigEndian, Magnitude;
    var n := bits / 8;
    if bits % 8 != 0 {
      n := n + 1;
    }
    assert n == Octets(bits);
    b := Magnitude(x);
    MagnitudeValue(x);
    MagnitudeFits(x, n);
    if n > |b| {
      LeadingZeros(n - |b|, b);
      b := Zeros(n - |b|) + b;
    }
    ToBigEndianRoundTrip(b);
    if x < Pow2(bits) {
      BitsFit(x, bits);
    }
  }
}
