/** hybiFrameReader and its factory: parsing a header off the wire, then reading the payload in place. */
module FrameReader {
  import opened Bytes
  import opened Frames
  import opened Io
  import opened Wrappers

  newtype int64 = x: int | -0x8000_0000_0000_0000 <= x < 0x8000_0000_0000_0000

  class Reader {
    const src: Source
    const header: Header
    var opcode: byte      // header.OpCode, which the frame handler may rewrite
    var limit: nat        // what the io.LimitReader still lets through
    var pos: nat          // payload bytes unmasked so far

    ghost predicate Valid()
      reads this, src
    {
      src.Valid() && (header.key.Some? ==> |header.key.value| == 4)
    }

    /** The payload bytes still to come from this frame, unmasked. */
    ghost function Remaining(): seq<byte>
      reads this, src
      requires Valid()
    {
      Mask(header.key, pos, Take(src.Rest(), limit))
    }

    /** The input that follows this frame. */
    ghost function After(): seq<byte>
      reads this, src
      requires Valid()
    {
      Drop(src.Rest(), limit)
    }

    /** The error met at the end of the payload: EOF, unless the input gives out first. */
    ghost function Ending(): Error
      reads this, src
      requires Valid()
    {
      if limit <= |src.Rest()| then EOF else src.end
    }

    constructor (src: Source, header: Header)
      requires src.Valid() && (header.key.Some? ==> |header.key.value| == 4)
      ensures Valid() && this.src == src && this.header == header
      ensures opcode == header.opcode && limit == header.length && pos == 0
    {
      this.src, this.header := src, header;
      opcode, limit, pos := header.opcode, header.length, 0;
    }

    /** io.LimitReader: at most limit bytes come through, and then EOF. */
    method LimitedRead(msg: array<byte>, lo: nat, hi: nat) returns (n: nat, err: Error)
      requires Valid() && lo <= hi <= msg.Length
      modifies this`limit, src, msg
      ensures Valid()
      ensures n <= hi - lo && old(Take(src.Rest(), limit)) == msg[lo..lo + n] + Take(src.Rest(), limit)
      ensures After() == old(After()) && Ending() == old(Ending())
      ensures msg[..lo] == old(msg[..lo]) && msg[lo + n..] == old(msg[lo + n..])
      ensures err == if old(limit) == 0 then EOF
                     else if lo < hi && old(src.Rest()) == [] then src.end
                     else NoError
      ensures lo < hi && old(limit) > 0 && old(src.Rest()) != [] ==> n > 0
    {
      if limit == 0 {
        return 0, EOF;
      }
      var cap := if hi - lo > limit then lo + limit else hi;
      n, err := src.Read(msg, lo, cap);
      limit := limit - n;
    }

    /** Unmasks msg[lo..lo + n] in place, going on in the key from where the last call stopped. */
    method UnmaskInPlace(msg: array<byte>, lo: nat, n: nat)
      requires header.key.Some? && |header.key.value| == 4
      requires lo + n <= msg.Length
      modifies this`pos, msg
      ensures msg[lo..lo + n] == Mask(header.key, old(pos), old(msg[lo..lo + n]))
      ensures forall k :: lo <= k < lo + n ==> msg[k] == old(msg[k]) ^ header.key.value[(old(pos) + (k - lo)) % 4]
      ensures pos == old(pos) + n
      ensures msg[..lo] == old(msg[..lo]) && msg[lo + n..] == old(msg[lo + n..])
    {
      var key := header.key.value;
      for i := 0 to n
        invariant pos == old(pos) + i
        invariant forall k :: lo <= k < lo + i ==> msg[k] == old(msg[k]) ^ KeyAt(key, old(pos) + (k - lo))
        invariant forall k :: 0 <= k < msg.Length && !(lo <= k < lo + i) ==> msg[k] == old(msg[k])
      {
        msg[lo + i] := msg[lo + i] ^ key[pos % 4];
        pos := pos + 1;
      }
    }

    /** hybiFrameReader.Read on the slice msg[lo..hi]. */
    method Read(msg: array<byte>, lo: nat, hi: nat) returns (n: nat, err: Error)
      requires Valid() && lo <= hi <= msg.Length
      modifies this`limit, this`pos, src, msg
      ensures Valid()
      ensures n <= hi - lo && old(Remaining()) == msg[lo..lo + n] + Remaining()
      ensures After() == old(After()) && Ending() == old(Ending())
      ensures msg[..lo] == old(msg[..lo]) && msg[lo + n..] == old(msg[lo + n..])
      ensures err == if old(limit) == 0 then EOF
                     else if lo < hi && old(Remaining()) == [] then src.end
                     else NoError
      ensures lo < hi && old(Remaining()) != [] ==> n > 0
    {
      n, err := LimitedRead(msg, lo, hi);
      MaskSplit(header.key, pos, msg[lo..lo + n], Take(src.Rest(), limit));
      if header.key.Some? {
        UnmaskInPlace(msg, lo, n);
      }
    }
  }

  lemma Regroup(a: seq<byte>, b: seq<byte>, c: seq<byte>)
    ensures a + (b + c) == (a + b) + c
  {
  }

  /** io.ReadFull. */
  method ReadFull(frame: Reader, b: array<byte>) returns (n: nat, err: Error)
    requires frame.Valid() && b.Length > 0
    modifies frame`limit, frame`pos, frame.src, b
    ensures frame.Valid()
    ensures n <= b.Length && old(frame.Remaining()) == b[..n] + frame.Remaining()
    ensures frame.After() == old(frame.After()) && frame.Ending() == old(frame.Ending())
    ensures n < b.Length ==> frame.Remaining() == []
    ensures err == if n == b.Length then NoError
                   else if frame.Ending() == EOF then if n == 0 then EOF else UnexpectedEOF
                   else frame.Ending()
  {
    hide Mask, Take, Drop;
    n, err := 0, NoError;
    while n < b.Length && err == NoError
      invariant frame.Valid()
      invariant n <= b.Length && old(frame.Remaining()) == b[..n] + frame.Remaining()
      invariant frame.After() == old(frame.After()) && frame.Ending() == old(frame.Ending())
      invariant err != NoError ==> frame.Remaining() == [] && err == frame.Ending()
      decreases |frame.Remaining()|, if err == NoError then 1 else 0
    {
      ghost var got := b[..n];
      var nn: nat;
      nn, err := frame.Read(b, n, b.Length);
      assert b[..n + nn] == got + b[n..n + nn];
      Regroup(got, b[n..n + nn], frame.Remaining());
      n := n + nn;
    }
    if n >= b.Length {
      err := NoError;
    } else if n > 0 && err == EOF {
      err := UnexpectedEOF;
    }
  }

  /** io.Copy(ioutil.Discard, frame). */
  method Discard(frame: Reader) returns (err: Error)
    requires frame.Valid()
    modifies frame`limit, frame`pos, frame.src
    ensures frame.Valid() && frame.Remaining() == [] && frame.src.Rest() == frame.After()
    ensures frame.After() == old(frame.After()) && frame.Ending() == old(frame.Ending())
    ensures err == if frame.Ending() == EOF then NoError else frame.Ending()
  {
    hide Mask;
    var buf := new byte[8192];
    err := NoError;
    while err == NoError
      invariant frame.Valid()
      invariant frame.After() == old(frame.After()) && frame.Ending() == old(frame.Ending())
      invariant err != NoError ==> frame.Remaining() == [] && err == frame.Ending()
      decreases |frame.Remaining()|, if err == NoError then 1 else 0
    {
      var n;
      n, err := frame.Read(buf, 0, buf.Length);
    }
    if err == EOF {
      err := NoError;
    }
  }

  /** ioutil.ReadAll. */
  method ReadAll(frame: Reader) returns (data: seq<byte>, err: Error)
    requires frame.Valid()
    modifies frame`limit, frame`pos, frame.src
    ensures frame.Valid() && frame.Remaining() == [] && frame.src.Rest() == frame.After()
    ensures data == old(frame.Remaining())
    ensures frame.After() == old(frame.After()) && frame.Ending() == old(frame.Ending())
    ensures err == if frame.Ending() == EOF then NoError else frame.Ending()
  {
    hide Mask;
    var buf := new byte[512];
    data, err := [], NoError;
    while err == NoError
      invariant frame.Valid()
      invariant old(frame.Remaining()) == data + frame.Remaining()
      invariant frame.After() == old(frame.After()) && frame.Ending() == old(frame.Ending())
      invariant err != NoError ==> frame.Remaining() == [] && err == frame.Ending()
      decreases |frame.Remaining()|, if err == NoError then 1 else 0
    {
      var n;
      n, err := frame.Read(buf, 0, buf.Length);
      Regroup(data, buf[..n], frame.Remaining());
      data := data + buf[..n];
    }
    if err == EOF {
      err := NoError;
    }
  }

  /** The extended length bytes as the header buffer keeps them: the top bit of eight is cleared. */
  function Kept(ext: seq<byte>, eight: bool): (r: seq<byte>)
    ensures |r| == |ext|
  {
    if eight && ext != [] then [ext[0] & 0x7f] + ext[1..] else ext
  }

  lemma KeptSnoc(ext: seq<byte>, b: byte, eight: bool)
    ensures Kept(ext + [b], eight) == Kept(ext, eight) + [if eight && ext == [] then b & 0x7f else b]
  {
  }

  lemma KeptIsLength(small: byte, ext: seq<byte>)
    requires |ext| == 0 || |ext| == 2 || |ext| == 8
    ensures LengthValue(small, ext) == if |ext| == 0 then small as int else BigEndian(Kept(ext, |ext| == 8))
  {
  }

  /** One more byte of an accumulated length. */
  lemma AccumulateStep(ext: seq<byte>, b: byte, lengthFields: nat)
    requires lengthFields == 2 || lengthFields == 8
    requires |ext| < lengthFields
    ensures var kept := if lengthFields == 8 && ext == [] then b & 0x7f else b;
      && BigEndian(Kept(ext + [b], lengthFields == 8)) == BigEndian(Kept(ext, lengthFields == 8)) * 256 + kept as int
      && BigEndian(Kept(ext + [b], lengthFields == 8)) < INT64_LIMIT
  {
    KeptSnoc(ext, b, lengthFields == 8);
    BigEndianSnoc(Kept(ext, lengthFields == 8), if lengthFields == 8 && ext == [] then b & 0x7f else b);
    PartialLengthFits(Kept(ext + [b], lengthFields == 8));
  }

  lemma Pow256Monotone(m: nat, n: nat)
    requires m <= n
    ensures Pow256(m) <= Pow256(n)
    decreases n - m
  {
    if m < n {
      Pow256Monotone(m, n - 1);
    }
  }

  /** Any leading part of a length that the parser accumulates fits an int64. */
  lemma PartialLengthFits(kept: seq<byte>)
    requires kept != [] && |kept| <= 8
    requires kept[0] < 128 || |kept| <= 2
    ensures BigEndian(kept) < INT64_LIMIT
  {
    Pow256Values();
    if |kept| <= 2 {
      BigEndianBound(kept);
      Pow256Monotone(|kept|, 2);
    } else {
      BigEndianTopBound(kept);
      Pow256Monotone(|kept| - 1, 7);
      assert Pow256(8) == 256 * Pow256(7);
    }
  }

  lemma BigEndianEmpty()
    ensures BigEndian([]) == 0
  {
  }

  /** One round of that loop; neither the product nor the sum overflows. */
  method AddLengthByte(length: int64, read: byte, lengthFields: nat, i: nat, ghost ext: seq<byte>)
    returns (longer: int64)
    requires lengthFields == 2 || lengthFields == 8
    requires i == |ext| < lengthFields && length as int == BigEndian(Kept(ext, lengthFields == 8))
    ensures longer as int == BigEndian(Kept(ext + [read], lengthFields == 8))
  {
    hide BigEndian, Kept;
    AccumulateStep(ext, read, lengthFields);
    var b := read;
    if lengthFields == 8 && i == 0 {
      b := b & 0x7f;
    }
    longer := length * 256 + b as int as int64;
  }

  lemma OneByteOn(rest: seq<byte>, i: nat, b: byte, after: seq<byte>)
    requires i <= |rest| && rest[i..] == [b] + after
    ensures i < |rest| && rest[..i + 1] == rest[..i] + [b] && after == rest[i + 1..]
  {
    assert rest[i..][0] == b && rest[i..][1..] == after;
  }

  /** The loop that accumulates the extended length in an int64. */
  method ReadExtended(src: Source, lengthFields: nat) returns (length: int64, err: Error)
    requires src.Valid() && (lengthFields == 2 || lengthFields == 8)
    modifies src
    ensures src.Valid()
    ensures |old(src.Rest())| < lengthFields ==> err == src.end && src.Rest() == []
    ensures |old(src.Rest())| >= lengthFields ==>
      && err == NoError
      && src.Rest() == old(src.Rest())[lengthFields..]
      && length as int == BigEndian(Kept(old(src.Rest())[..lengthFields], lengthFields == 8))
  {
    assert Kept([], lengthFields == 8) == [];
    BigEndianEmpty();
    hide BigEndian, Kept;
    length, err := 0, NoError;
    ghost var rest := src.Rest();
    for i := 0 to lengthFields
      invariant src.Valid() && i <= |rest| && src.Rest() == rest[i..] && err == NoError
      invariant length as int == BigEndian(Kept(rest[..i], lengthFields == 8))
    {
      var b;
      b, err := src.ReadByte();
      if err != NoError {
        return;
      }
      OneByteOn(rest, i, b, src.Rest());
      length := AddLengthByte(length, b, lengthFields, i, rest[..i]);
    }
  }

  /** The length, in the seven bits of small or in the bytes that follow. */
  method ReadLength(src: Source, lengthFields: nat, small: byte) returns (length: int64, err: Error)
    requires src.Valid() && small < 128 && lengthFields == Extended(small)
    modifies src
    ensures src.Valid()
    ensures |old(src.Rest())| < lengthFields ==> err == src.end && src.Rest() == []
    ensures |old(src.Rest())| >= lengthFields ==>
      && err == NoError
      && src.Rest() == old(src.Rest())[lengthFields..]
      && length as int == LengthValue(small, old(src.Rest())[..lengthFields])
  {
    assert lengthFields == 0 || lengthFields == 2 || lengthFields == 8;
    hide BigEndian, Kept, LengthValue, Extended;
    ghost var rest := src.Rest();
    length, err := small as int as int64, NoError;
    if lengthFields != 0 {
      length, err := ReadExtended(src, lengthFields);
    }
    if |rest| >= lengthFields {
      KeptIsLength(small, rest[..lengthFields]);
    }
  }

  method ReadKey(src: Source) returns (key: seq<byte>, err: Error)
    requires src.Valid()
    modifies src
    ensures src.Valid()
    ensures |old(src.Rest())| < 4 ==> err == src.end && src.Rest() == []
    ensures |old(src.Rest())| >= 4 ==>
      err == NoError && key == old(src.Rest())[..4] && src.Rest() == old(src.Rest())[4..]
  {
    key, err := [], NoError;
    ghost var rest := src.Rest();
    for i := 0 to 4
      invariant src.Valid() && i <= |rest| && src.Rest() == rest[i..] && err == NoError
      invariant key == rest[..i]
    {
      var b;
      b, err := src.ReadByte();
      if err != NoError {
        return;
      }
      key := key + [b];
    }
  }

  /** The mask bit and the length, from the second byte on. */
  method ReadMaskAndLength(src: Source) returns (mask: bool, length: int64, ghost n: nat, err: Error)
    requires src.Valid()
    modifies src
    ensures src.Valid()
    ensures old(src.Rest()) == [] ==> err == src.end && src.Rest() == []
    ensures old(src.Rest()) != [] ==>
      && var b := old(src.Rest())[0];
      && n == Extended(b & 0x7f) && mask == (b & 0x80 != 0)
      && (|old(src.Rest())| < 1 + n ==> err == src.end && src.Rest() == [])
      && (|old(src.Rest())| >= 1 + n ==>
           && err == NoError && src.Rest() == old(src.Rest())[1 + n..]
           && length as int == LengthValue(b & 0x7f, old(src.Rest())[1..1 + n]))
  {
    ghost var rest := src.Rest();
    var b;
    mask, length, n := false, 0, 0;
    b, err := src.ReadByte();
    if err != NoError {
      return;
    }
    mask := b & 0x80 != 0;
    b := b & 0x7f;
    var lengthFields := 0;
    if b <= 125 {
    } else if b == 126 {
      lengthFields := 2;
    } else {
      lengthFields := 8;
    }
    n := lengthFields;
    length, err := ReadLength(src, lengthFields, b);
    if |rest| >= 1 + n {
      assert rest[1..][..n] == rest[1..1 + n];
    }
  }

  /** Everything after the first byte. */
  method ReadTail(src: Source, ghost rest: seq<byte>)
    returns (length: int64, key: Option<seq<byte>>, ghost n: nat, err: Error)
    requires src.Valid() && rest != [] && src.Rest() == rest[1..]
    modifies src
    ensures src.Valid()
    ensures |rest| < 2 || |rest| < HeaderSize(rest[1]) ==> err == src.end && src.Rest() == []
    ensures |rest| >= 2 && |rest| >= HeaderSize(rest[1]) ==>
      && err == NoError
      && n == Extended(rest[1] & 0x7f) && (key.Some? <==> rest[1] & 0x80 != 0)
      && length as int == LengthValue(rest[1] & 0x7f, rest[2..2 + n])
      && |rest| >= 2 + n + |KeyBytes(key)|
      && (key.Some? ==> key.value == rest[2 + n..2 + n + 4] && |key.value| == 4)
      && src.Rest() == rest[2 + n + |KeyBytes(key)|..]
  {
    assert |rest| >= 2 ==> Extended(rest[1] & 0x7f) <= 8;
    assert |rest| >= 2 ==>
      HeaderSize(rest[1]) == 2 + Extended(rest[1] & 0x7f) + if rest[1] & 0x80 != 0 then 4 else 0;
    hide LengthValue, Extended, HeaderSize;
    var mask;
    key := None;
    mask, length, n, err := ReadMaskAndLength(src);
    if err != NoError {
      return;
    }
    assert rest[1..][1..1 + n] == rest[2..2 + n] && src.Rest() == rest[2 + n..];
    key, err := ReadOptionalKey(src, mask);
    if mask && err == NoError {
      assert rest[2 + n..][..4] == rest[2 + n..2 + n + 4];
      assert rest[2 + n..][4..] == rest[2 + n + 4..];
    }
  }

  lemma HeaderShort(s: seq<byte>)
    ensures ParseHeader(s).Short? <==> |s| < 2 || |s| < HeaderSize(s[1])
  {
    hide LengthValue;
  }

  /** The whole header, byte by byte. */
  method ReadHeader(src: Source) returns (h: Option<Header>, err: Error)
    requires src.Valid()
    modifies src
    ensures src.Valid()
    ensures match ParseHeader(old(src.Rest()))
      case Short => h == None && err == src.end && src.Rest() == []
      case Parsed(header, used) => h == Some(header) && err == NoError && src.Rest() == old(src.Rest())[used..]
  {
    h := None;
    ghost var rest := src.Rest();
    HeaderShort(rest);
    hide ParseHeader, LengthValue, Extended, RsvOf, HeaderSize, KeyBytes;
    var first, length, key;
    ghost var n;
    first, err := src.ReadByte();
    if err != NoError {
      return;
    }
    var rsv := RsvFlags(first);
    length, key, n, err := ReadTail(src, rest);
    if err == NoError {
      h := Some(Header((first >> 7) & 1 != 0, rsv, first & 0x0f, length as int, key));
      HeaderFields(rest, h.value, n);
    }
  }

  method ReadOptionalKey(src: Source, mask: bool) returns (key: Option<seq<byte>>, err: Error)
    requires src.Valid()
    modifies src
    ensures src.Valid()
    ensures !mask ==> key == None && err == NoError && src.Rest() == old(src.Rest())
    ensures mask && |old(src.Rest())| < 4 ==> err == src.end && src.Rest() == []
    ensures mask && |old(src.Rest())| >= 4 ==>
      err == NoError && key == Some(old(src.Rest())[..4]) && src.Rest() == old(src.Rest())[4..]
  {
    key, err := None, NoError;
    if mask {
      var k;
      k, err := ReadKey(src);
      key := Some(k);
    }
  }

  /** hybiFrameReaderFactory.NewFrameReader: a reader placed at the start of the payload, or the error at
      the end of an input that stops inside the header. */
  method NewFrameReader(src: Source) returns (frame: Reader?, err: Error)
    requires src.Valid()
    modifies src
    ensures src.Valid()
    ensures match ParseHeader(old(src.Rest()))
      case Short => frame == null && err == src.end && src.Rest() == []
      case Parsed(h, used) =>
        && err == NoError && frame != null && fresh(frame) && frame.Valid()
        && frame.src == src && frame.header == h
        && frame.opcode == h.opcode && frame.limit == h.length && frame.pos == 0
        && src.Rest() == old(src.Rest())[used..]
  {
    frame := null;
    var h;
    h, err := ReadHeader(src);
    if err == NoError {
      frame := new Reader(src, h.value);
    }
  }

  method RsvFlags(b: byte) returns (rsv: seq<bool>)
    ensures rsv == RsvOf(b)
  {
    rsv := [];
    for i := 0 to 3
      invariant rsv == RsvOf(b)[..i]
    {
      var bit := ShiftedDown(b, 6 - i);
      rsv := rsv + [bit & 1 != 0];
    }
  }

  method ShiftedDown(b: byte, j: nat) returns (r: byte)
    requires 4 <= j <= 6
    ensures r == if j == 6 then b >> 6 else if j == 5 then b >> 5 else b >> 4
  {
    r := b >> j;
  }
}
