/** The base framing of RFC 6455, sections 5.2 and 5.3: what the frame writer puts on the wire and what the
    frame reader makes of it, as functions on byte strings. */
module Frames {
  import opened Bytes
  import opened Wrappers

  type Rsv = r: seq<bool> | |r| == 3 witness [false, false, false]

  const CONTINUATION: byte := 0
  const TEXT: byte := 1
  const BINARY: byte := 2
  const CLOSE: byte := 8
  const PING: byte := 9
  const PONG: byte := 10

  datatype Frame = Frame(fin: bool, rsv: Rsv, opcode: byte, key: Option<seq<byte>>, payload: seq<byte>)

  /** A frame whose key, if any, has the four bytes the writer insists on, and whose length fits a Go int. */
  predicate WellFormed(f: Frame) {
    && (f.key.Some? ==> |f.key.value| == 4)
    && |f.payload| < INT64_LIMIT
  }

  type WireFrame = f: Frame | WellFormed(f) witness Frame(true, [false, false, false], TEXT, None, [])

  // ---------------------------------------------------------------- writing

  function RsvBit(r: Rsv, i: nat): byte
    requires i < 3
  {
    if !r[i] then 0 else if i == 0 then 0x40 else if i == 1 then 0x20 else 0x10
  }

  function FirstByte(fin: bool, rsv: Rsv, opcode: byte): byte {
    (if fin then 0x80 else 0) | RsvBit(rsv, 0) | RsvBit(rsv, 1) | RsvBit(rsv, 2) | opcode
  }

  /** How many bytes of extended length a payload of n bytes gets. */
  function LengthFields(n: nat): nat {
    if n <= 125 then 0 else if n < 65536 then 2 else 8
  }

  function SecondByte(masked: bool, n: nat): byte {
    (if masked then 0x80 else 0) | (if n <= 125 then ByteOf(n) else if n < 65536 then 126 else 127)
  }

  function KeyAt(key: seq<byte>, i: nat): byte
    requires |key| == 4
  {
    key[i % 4]
  }

  /** Exclusive or with the key, starting at offset pos of the payload; with no key nothing changes. */
  function Mask(key: Option<seq<byte>>, pos: nat, data: seq<byte>): (r: seq<byte>)
    requires key.Some? ==> |key.value| == 4
    ensures |r| == |data|
  {
    if key.None? then data
    else seq(|data|, i requires 0 <= i < |data| => data[i] ^ KeyAt(key.value, pos + i))
  }

  function KeyBytes(key: Option<seq<byte>>): seq<byte> {
    if key.Some? then key.value else []
  }

  function HeaderBytes(f: Frame): seq<byte> {
    [FirstByte(f.fin, f.rsv, f.opcode), SecondByte(f.key.Some?, |f.payload|)]
    + ToBigEndian(|f.payload|, LengthFields(|f.payload|))
    + KeyBytes(f.key)
  }

  function Encode(f: WireFrame): (r: seq<byte>)
    ensures |r| >= 2
  {
    HeaderBytes(f) + Mask(f.key, 0, f.payload)
  }

  function EncodeAll(fs: seq<WireFrame>): seq<byte>
  {
    if fs == [] then [] else Encode(fs[0]) + EncodeAll(fs[1..])
  }

  // ---------------------------------------------------------------- reading

  datatype Header = Header(fin: bool, rsv: Rsv, opcode: byte, length: nat, key: Option<seq<byte>>)

  datatype ParsedHeader = Short | Parsed(h: Header, used: nat)

  function RsvOf(b: byte): Rsv {
    [(b >> 6) & 1 != 0, (b >> 5) & 1 != 0, (b >> 4) & 1 != 0]
  }

  /** The number of length bytes that the seven-bit length field asks for. */
  function Extended(b: byte): nat
  {
    if b <= 125 then 0 else if b == 126 then 2 else 8
  }

  /** The value of the length field; the top bit of the eight-byte form is ignored. */
  function LengthValue(small: byte, ext: seq<byte>): nat {
    if |ext| == 0 then small as int
    else if |ext| == 8 then BigEndian([ext[0] & 0x7f] + ext[1..])
    else BigEndian(ext)
  }

  /** How many bytes the header that starts with first, second takes. */
  function HeaderSize(second: byte): nat {
    2 + Extended(second & 0x7f) + (if second & 0x80 != 0 then 4 else 0)
  }

  function ParseHeader(s: seq<byte>): (p: ParsedHeader)
    ensures p.Parsed? ==> 2 <= p.used <= |s| && (p.h.key.Some? ==> |p.h.key.value| == 4)
  {
    if |s| < 2 || |s| < HeaderSize(s[1]) then Short
    else
      var n := Extended(s[1] & 0x7f);
      var used := HeaderSize(s[1]);
      var key := if s[1] & 0x80 != 0 then Some(s[2 + n..used]) else None;
      Parsed(Header((s[0] >> 7) & 1 != 0, RsvOf(s[0]), s[0] & 0x0f,
                    LengthValue(s[1] & 0x7f, s[2..2 + n]), key), used)
  }

  datatype ParsedFrame = Incomplete | Whole(f: Frame, used: nat)

  function ParseFrame(s: seq<byte>): (p: ParsedFrame)
    ensures p.Whole? ==> 2 <= p.used <= |s|
  {
    match ParseHeader(s)
    case Short => Incomplete
    case Parsed(h, used) =>
      if |s| < used + h.length then Incomplete
      else Whole(Frame(h.fin, h.rsv, h.opcode, h.key, Mask(h.key, 0, s[used..used + h.length])), used + h.length)
  }

  /** The first n frames of s and what follows them. */
  function ParseMany(s: seq<byte>, n: nat): Option<(seq<Frame>, seq<byte>)> {
    if n == 0 then Some(([], s))
    else
      match ParseFrame(s)
      case Incomplete => None
      case Whole(f, used) =>
        var rest := ParseMany(s[used..], n - 1);
        if rest.None? then None else Some(([f] + rest.value.0, rest.value.1))
  }

  // ---------------------------------------------------------------- properties

  lemma MaskTwice(key: Option<seq<byte>>, pos: nat, data: seq<byte>)
    requires key.Some? ==> |key.value| == 4
    ensures Mask(key, pos, Mask(key, pos, data)) == data
  {
  }

  /** Masking a payload in two pieces is masking it at once, if the offset is carried over. */
  lemma MaskSplit(key: Option<seq<byte>>, pos: nat, a: seq<byte>, b: seq<byte>)
    requires key.Some? ==> |key.value| == 4
    ensures Mask(key, pos, a + b) == Mask(key, pos, a) + Mask(key, pos + |a|, b)
  {
    if key.Some? {
      forall i | 0 <= i < |a + b|
        ensures Mask(key, pos, a + b)[i] == (Mask(key, pos, a) + Mask(key, pos + |a|, b))[i]
      {
        if i >= |a| {
          assert pos + |a| + (i - |a|) == pos + i;
        }
      }
    }
  }

  lemma Pow256Values()
    ensures Pow256(1) == 256 && Pow256(2) == 65536 && Pow256(8) == 2 * INT64_LIMIT
  {
    assert Pow256(1) == 256 * Pow256(0);
    assert Pow256(3) == 256 * Pow256(2);
    assert Pow256(4) == 256 * Pow256(3);
    assert Pow256(5) == 256 * Pow256(4);
    assert Pow256(6) == 256 * Pow256(5);
    assert Pow256(7) == 256 * Pow256(6);
  }

  /** With its top byte below 128, a big-endian number is below half its range. */
  lemma {:induction false} BigEndianTopBound(s: seq<byte>)
    requires s != [] && s[0] < 128
    ensures BigEndian(s) < 128 * Pow256(|s| - 1)
  {
    if |s| > 1 {
      BigEndianTopBound(s[..|s| - 1]);
    } else {
      assert s[..0] == [];
    }
  }

  /** No header yields a length outside [0, 2^63): the accumulating product never overflows an int64. */
  lemma LengthInRange(s: seq<byte>)
    requires ParseHeader(s).Parsed?
    ensures ParseHeader(s).h.length < INT64_LIMIT
    ensures ParseHeader(s).h.opcode <= 15
  {
    var n := Extended(s[1] & 0x7f);
    var ext := s[2..2 + n];
    Pow256Values();
    if n == 8 {
      BigEndianTopBound([ext[0] & 0x7f] + ext[1..]);
      assert Pow256(8) == 256 * Pow256(7);
    } else if n == 2 {
      BigEndianBound(ext);
    }
  }

  lemma FirstByteFields(fin: bool, rsv: Rsv, opcode: byte)
    ensures var b := FirstByte(fin, rsv, opcode);
      opcode <= 15 ==>
        ((b >> 7) & 1 != 0) == fin && RsvOf(b) == rsv && b & 0x0f == opcode
  {
    var r0, r1, r2 := rsv[0], rsv[1], rsv[2];
    assert rsv == [r0, r1, r2];
  }

  lemma MaskBitSplits(masked: bool, small: byte)
    requires small < 128
    ensures var b := (if masked then 0x80 else 0) | small;
      (b & 0x80 != 0) == masked && b & 0x7f == small
  {
  }

  lemma ByteOrder(b: byte, c: byte)
    requires b as int <= c as int
    ensures b <= c
  {
  }

  lemma SecondByteFields(masked: bool, n: nat)
    ensures var b := SecondByte(masked, n);
      && (b & 0x80 != 0) == masked
      && Extended(b & 0x7f) == LengthFields(n)
      && (n <= 125 ==> (b & 0x7f) as int == n)
  {
    if n <= 125 {
      ByteOrder(ByteOf(n), 125);
      MaskBitSplits(masked, ByteOf(n));
    } else {
      MaskBitSplits(masked, if n < 65536 then 126 else 127);
    }
  }

  lemma LengthFieldRoundTrip(n: nat, small: byte)
    requires n < INT64_LIMIT
    requires n <= 125 ==> small as int == n
    ensures LengthValue(small, ToBigEndian(n, LengthFields(n))) == n
  {
    var ext := ToBigEndian(n, LengthFields(n));
    Pow256Values();
    if n > 125 {
      BigEndianRoundTrip(n, LengthFields(n));
      if n >= 65536 {
        ToBigEndianAt(n, 8, 0);
        assert Pow256(8) == 256 * Pow256(7);
        TopByteSmall(n, Pow256(7));
        assert ext[0] < 128;
        assert ext[0] & 0x7f == ext[0];
        assert [ext[0]] + ext[1..] == ext;
      }
    }
  }

  lemma TopByteSmall(n: nat, p: nat)
    requires p > 0 && n < 128 * p
    ensures (n / p) % 256 == n / p < 128
  {
    assert n == p * (n / p) + n % p;
    QuotientBelow(p, n / p, 128);
  }

  lemma QuotientBelow(p: nat, q: nat, m: nat)
    requires p > 0 && p * q < m * p
    ensures q < m
  {
  }

  /** Where the pieces of an encoded header lie. */
  lemma HeaderShape(f: WireFrame, rest: seq<byte>)
    ensures var s := Encode(f) + rest; var n := LengthFields(|f.payload|); var used := |HeaderBytes(f)|;
      && |s| == used + |f.payload| + |rest|
      && used == 2 + n + |KeyBytes(f.key)|
      && s[0] == FirstByte(f.fin, f.rsv, f.opcode)
      && s[1] == SecondByte(f.key.Some?, |f.payload|)
      && s[2..2 + n] == ToBigEndian(|f.payload|, n)
      && s[2 + n..used] == KeyBytes(f.key)
      && s[used..used + |f.payload|] == Mask(f.key, 0, f.payload)
      && s[used + |f.payload|..] == rest
  {
    var s := Encode(f) + rest;
    assert s == HeaderBytes(f) + (Mask(f.key, 0, f.payload) + rest);
  }

  /** What the reader makes of an encoded header. */
  lemma HeaderRoundTrip(f: WireFrame, rest: seq<byte>)
    requires f.opcode <= 15
    ensures ParseHeader(Encode(f) + rest)
         == Parsed(Header(f.fin, f.rsv, f.opcode, |f.payload|, f.key), |HeaderBytes(f)|)
  {
    EncodedFlags(f, rest);
    EncodedLength(f, rest);
    EncodedKey(f, rest);
    HeaderFields(Encode(f) + rest, Header(f.fin, f.rsv, f.opcode, |f.payload|, f.key), LengthFields(|f.payload|));
  }

  lemma EncodedFlags(f: WireFrame, rest: seq<byte>)
    requires f.opcode <= 15
    ensures var b := (Encode(f) + rest)[0];
      ((b >> 7) & 1 != 0) == f.fin && RsvOf(b) == f.rsv && b & 0x0f == f.opcode
  {
    FirstByteFields(f.fin, f.rsv, f.opcode);
  }

  lemma EncodedKey(f: WireFrame, rest: seq<byte>)
    ensures var s := Encode(f) + rest; var n := LengthFields(|f.payload|);
      && |s| >= 2 + n + |KeyBytes(f.key)|
      && (f.key.Some? ==> s[2 + n..2 + n + 4] == f.key.value)
  {
    HeaderShape(f, rest);
  }

  lemma EncodedLength(f: WireFrame, rest: seq<byte>)
    ensures var s := Encode(f) + rest; var n := LengthFields(|f.payload|);
      && (s[1] & 0x80 != 0) == f.key.Some?
      && Extended(s[1] & 0x7f) == n
      && 2 + n <= |s|
      && LengthValue(s[1] & 0x7f, s[2..2 + n]) == |f.payload|
  {
    var s := Encode(f) + rest;
    HeaderShape(f, rest);
    SecondByteFields(f.key.Some?, |f.payload|);
    LengthFieldRoundTrip(|f.payload|, s[1] & 0x7f);
  }

  /** A header is determined by its fields, read off one by one. */
  lemma HeaderFields(s: seq<byte>, h: Header, n: nat)
    requires |s| >= 2 + n + |KeyBytes(h.key)|
    requires ((s[0] >> 7) & 1 != 0) == h.fin && RsvOf(s[0]) == h.rsv && s[0] & 0x0f == h.opcode
    requires (s[1] & 0x80 != 0) == h.key.Some? && Extended(s[1] & 0x7f) == n
    requires LengthValue(s[1] & 0x7f, s[2..2 + n]) == h.length
    requires h.key.Some? ==> |h.key.value| == 4 && s[2 + n..2 + n + 4] == h.key.value
    ensures ParseHeader(s) == Parsed(h, 2 + n + |KeyBytes(h.key)|)
  {
  }

  /** Reading back what was written gives the frame and consumes its bytes, exactly when the opcode fits
      the four bits it has in the header. */
  lemma RoundTrip(f: WireFrame, rest: seq<byte>)
    ensures ParseFrame(Encode(f) + rest) == Whole(f, |Encode(f)|) <==> f.opcode <= 15
  {
    if f.opcode <= 15 {
      HeaderRoundTrip(f, rest);
      HeaderShape(f, rest);
      MaskTwice(f.key, 0, f.payload);
    } else if ParseFrame(Encode(f) + rest).Whole? {
      LengthInRange(Encode(f) + rest);
    }
  }

  lemma ParseManyCons(f: WireFrame, tail: seq<byte>, n: nat)
    requires f.opcode <= 15
    ensures var p := ParseMany(tail, n);
      ParseMany(Encode(f) + tail, n + 1) == if p.None? then None else Some(([f] + p.value.0, p.value.1))
  {
    var s := Encode(f) + tail;
    RoundTrip(f, tail);
    assert s[|Encode(f)|..] == tail;
  }

  /** Any list of frames with four-bit opcodes is read back, and reading stops where the encoding ends. */
  lemma {:induction false} RoundTripAll(fs: seq<WireFrame>, rest: seq<byte>)
    requires forall f <- fs :: f.opcode <= 15
    ensures ParseMany(EncodeAll(fs) + rest, |fs|) == Some((fs, rest))
  {
    if fs == [] {
      assert EncodeAll(fs) + rest == rest;
    } else {
      var tail := EncodeAll(fs[1..]) + rest;
      assert EncodeAll(fs) + rest == Encode(fs[0]) + tail;
      ParseManyCons(fs[0], tail, |fs| - 1);
      RoundTripAll(fs[1..], rest);
      assert [fs[0]] + fs[1..] == fs;
    }
  }

  lemma {:induction false} EncodeAllAppend(fs: seq<WireFrame>, gs: seq<WireFrame>)
    ensures EncodeAll(fs + gs) == EncodeAll(fs) + EncodeAll(gs)
  {
    if fs == [] {
      assert fs + gs == gs;
    } else {
      assert (fs + gs)[1..] == fs[1..] + gs;
      EncodeAllAppend(fs[1..], gs);
    }
  }

  /** Two lists of frames never share an encoding: frame boundaries cannot be misread. */
  lemma EncodeAllInjective(fs: seq<WireFrame>, gs: seq<WireFrame>)
    requires forall f <- fs :: f.opcode <= 15
    requires forall f <- gs :: f.opcode <= 15
    requires EncodeAll(fs) == EncodeAll(gs)
    ensures fs == gs
  {
    if |fs| <= |gs| {
      ShorterFirst(fs, gs);
    } else {
      ShorterFirst(gs, fs);
    }
  }

  lemma {:induction false} ShorterFirst(fs: seq<WireFrame>, gs: seq<WireFrame>)
    requires forall f <- fs :: f.opcode <= 15
    requires forall f <- gs :: f.opcode <= 15
    requires EncodeAll(fs) == EncodeAll(gs) && |fs| <= |gs|
    ensures fs == gs
  {
    var head, tail := gs[..|fs|], gs[|fs|..];
    assert forall f <- head :: f in gs;
    assert head + tail == gs;
    EncodeAllAppend(head, tail);
    PrefixUnique(fs, head, EncodeAll(tail));
    NoEmptyEncoding(tail);
  }

  lemma {:induction false} PrefixUnique(fs: seq<WireFrame>, gs: seq<WireFrame>, rest: seq<byte>)
    requires |fs| == |gs|
    requires forall f <- fs :: f.opcode <= 15
    requires forall f <- gs :: f.opcode <= 15
    requires EncodeAll(fs) == EncodeAll(gs) + rest
    ensures fs == gs && rest == []
  {
    var s := EncodeAll(fs);
    assert s + [] == s;
    RoundTripAll(fs, []);
    RoundTripAll(gs, rest);
  }

  lemma {:induction false} NoEmptyEncoding(fs: seq<WireFrame>)
    ensures EncodeAll(fs) == [] ==> fs == []
  {
  }

  /** The length form is minimal: no byte string that reads as f is shorter than the writer's. */
  lemma Shortest(w: seq<byte>, f: Frame)
    requires ParseFrame(w) == Whole(f, |w|)
    ensures WellFormed(f) && |Encode(f)| <= |w|
  {
    LengthInRange(w);
    var n := Extended(w[1] & 0x7f);
    Pow256Values();
    if n == 2 {
      BigEndianBound(w[2..4]);
    }
  }
}
