/** The frames of section 5.2 of RFC 6455 as the bits on the wire, by arithmetic on the bytes alone; and what the
    writer puts there, and Read and Receive make of it, in those terms. */
module Wire {
  import opened Bytes
  import opened Frames
  import opened Io
  import opened FrameWriter
  import opened Streams
  import opened Conn
  import opened Wrappers

  // ---------------------------------------------------------------- the layout

  predicate Masked(s: seq<byte>)
    requires |s| >= 2
  {
    s[1] as int >= 128
  }

  /** The seven-bit length. */
  function Small(s: seq<byte>): nat
    requires |s| >= 2
  {
    s[1] as int % 128
  }

  function LengthSize(s: seq<byte>): nat
    requires |s| >= 2
  {
    if Small(s) == 127 then 8 else if Small(s) == 126 then 2 else 0
  }

  /** Where the payload starts. */
  function Start(s: seq<byte>): nat
    requires |s| >= 2
  {
    2 + LengthSize(s) + if Masked(s) then 4 else 0
  }

  predicate HasHeader(s: seq<byte>) {
    |s| >= 2 && |s| >= Start(s)
  }

  function At(s: seq<byte>, i: nat): nat
    requires i < |s|
  {
    s[i] as int
  }

  /** The length announced, the most significant byte first and without its top bit. */
  function Announced(s: seq<byte>): nat
    requires HasHeader(s)
  {
    if LengthSize(s) == 0 then Small(s)
    else if LengthSize(s) == 2 then At(s, 2) * 256 + At(s, 3)
    else
      At(s, 2) % 128 * 0x100_0000_0000_0000 + At(s, 3) * 0x1_0000_0000_0000 + At(s, 4) * 0x100_0000_0000
      + At(s, 5) * 0x1_0000_0000 + At(s, 6) * 0x100_0000 + At(s, 7) * 0x1_0000 + At(s, 8) * 0x100 + At(s, 9)
  }

  function Opcode(s: seq<byte>): nat
    requires |s| >= 2
  {
    s[0] as int % 16
  }

  /** Byte i of the payload, unmasked with the four bytes before it where there is a mask. */
  function PayloadByte(s: seq<byte>, i: nat): byte
    requires HasHeader(s) && Start(s) + i < |s|
  {
    if Masked(s) then s[Start(s) + i] ^ s[Start(s) - 4 + i % 4] else s[Start(s) + i]
  }

  // ---------------------------------------------------------------- the parser reads that layout

  lemma TopBit(b: byte)
    ensures (b & 0x80 != 0) <==> b as int >= 128
    ensures ((b >> 7) & 1 != 0) <==> b as int >= 128
  {
  }

  lemma LowBits(b: byte)
    ensures (b & 0x7f) as int == b as int % 128
    ensures (b & 0x0f) as int == b as int % 16
  {
  }

  lemma BitSix(b: byte)
    ensures ((b >> 6) & 1 != 0) <==> b as int / 64 % 2 == 1
  {
  }

  lemma BitFive(b: byte)
    ensures ((b >> 5) & 1 != 0) <==> b as int / 32 % 2 == 1
  {
  }

  lemma BitFour(b: byte)
    ensures ((b >> 4) & 1 != 0) <==> b as int / 16 % 2 == 1
  {
  }

  lemma ByteAsInt(b: byte, c: byte)
    ensures b == c <==> b as int == c as int
    ensures b <= c <==> b as int <= c as int
  {
  }

  /** The header is as long as the layout says. */
  lemma HeaderLength(s: seq<byte>)
    requires |s| >= 2
    ensures Extended(s[1] & 0x7f) == LengthSize(s)
    ensures HeaderSize(s[1]) == Start(s)
    ensures (s[1] & 0x80 != 0) == Masked(s) && (s[1] & 0x7f) as int == Small(s)
  {
    var small := s[1] & 0x7f;
    TopBit(s[1]);
    LowBits(s[1]);
    ByteAsInt(small, 125);
    ByteAsInt(small, 126);
  }

  lemma {:induction false} TwoByteValue(s: seq<byte>)
    requires |s| == 2
    ensures BigEndian(s) == At(s, 0) * 256 + At(s, 1)
  {
    var a, b := s[0], s[1];
    assert BigEndian([]) == 0;
    BigEndianSnoc([], a);
    BigEndianSnoc([] + [a], b);
    assert s == [] + [a] + [b];
  }

  lemma {:induction false} LongerValue(s: seq<byte>, n: nat)
    requires n + 2 <= |s|
    ensures BigEndian(s[..n + 2]) == BigEndian(s[..n]) * 0x1_0000 + At(s, n) * 0x100 + At(s, n + 1)
  {
    BigEndianSnoc(s[..n], s[n]);
    assert s[..n] + [s[n]] == s[..n + 1];
    BigEndianSnoc(s[..n + 1], s[n + 1]);
    assert s[..n + 1] + [s[n + 1]] == s[..n + 2];
  }

  lemma {:induction false} EightByteValue(s: seq<byte>)
    requires |s| == 8
    ensures BigEndian(s) ==
      At(s, 0) * 0x100_0000_0000_0000 + At(s, 1) * 0x1_0000_0000_0000 + At(s, 2) * 0x100_0000_0000
      + At(s, 3) * 0x1_0000_0000 + At(s, 4) * 0x100_0000 + At(s, 5) * 0x1_0000 + At(s, 6) * 0x100 + At(s, 7)
  {
    assert BigEndian(s[..0]) == 0;
    LongerValue(s, 0);
    LongerValue(s, 2);
    LongerValue(s, 4);
    LongerValue(s, 6);
    assert s[..8] == s;
    hide BigEndian;
  }

  /** The length field has the value announced. */
  lemma LengthAnnounced(s: seq<byte>)
    requires HasHeader(s)
    ensures LengthValue(s[1] & 0x7f, s[2..2 + LengthSize(s)]) == Announced(s)
  {
    LowBits(s[1]);
    if LengthSize(s) == 2 {
      ShortLength(s[1] & 0x7f, s[2..4]);
    } else if LengthSize(s) == 8 {
      LongLength(s[1] & 0x7f, s[2..10]);
    }
    hide BigEndian;
  }

  lemma ShortLength(small: byte, ext: seq<byte>)
    requires |ext| == 2
    ensures LengthValue(small, ext) == At(ext, 0) * 256 + At(ext, 1)
  {
    TwoByteValue(ext);
  }

  lemma LongLength(small: byte, ext: seq<byte>)
    requires |ext| == 8
    ensures LengthValue(small, ext) ==
      At(ext, 0) % 128 * 0x100_0000_0000_0000 + At(ext, 1) * 0x1_0000_0000_0000 + At(ext, 2) * 0x100_0000_0000
      + At(ext, 3) * 0x1_0000_0000 + At(ext, 4) * 0x100_0000 + At(ext, 5) * 0x1_0000 + At(ext, 6) * 0x100 + At(ext, 7)
  {
    var kept := [ext[0] & 0x7f] + ext[1..];
    LowBits(ext[0]);
    assert At(kept, 0) == At(ext, 0) % 128;
    assert forall i :: 1 <= i < 8 ==> kept[i] == ext[i];
    EightByteValue(kept);
    hide BigEndian;
  }

  /** The parser finds a header exactly when its bytes are all there, and reads its fields off their places. */
  lemma HeaderOf(s: seq<byte>)
    ensures HasHeader(s) <==> ParseHeader(s).Parsed?
    ensures HasHeader(s) ==>
      && var h := ParseHeader(s).h;
      && ParseHeader(s).used == Start(s)
      && (h.fin <==> At(s, 0) >= 128)
      && (h.rsv[0] <==> At(s, 0) / 64 % 2 == 1)
      && (h.rsv[1] <==> At(s, 0) / 32 % 2 == 1)
      && (h.rsv[2] <==> At(s, 0) / 16 % 2 == 1)
      && h.opcode as int == Opcode(s)
      && h.length == Announced(s)
      && h.key == if Masked(s) then Some(s[Start(s) - 4..Start(s)]) else None
  {
    if |s| >= 2 {
      HeaderLength(s);
    }
    if HasHeader(s) {
      LengthAnnounced(s);
      TopBit(s[0]);
      LowBits(s[0]);
      BitSix(s[0]);
      BitFive(s[0]);
      BitFour(s[0]);
    }
    hide BigEndian, LengthValue, Announced;
  }

  // ---------------------------------------------------------------- what a data frame delivers

  /** How many bytes of its payload an input holds. */
  function Present(s: seq<byte>): nat
    requires HasHeader(s)
  {
    Min(Announced(s), |s| - Start(s))
  }

  /** s starts with a data frame, masked exactly if the receiving side is the server. */
  predicate StartsWithData(s: seq<byte>, server: bool) {
    HasHeader(s) && Masked(s) == server && Opcode(s) != 8 && Opcode(s) != 9 && Opcode(s) != 10
  }

  /** data has all the payload bytes present in s, or those of them that fit, at its front. */
  predicate Carries(data: seq<byte>, s: seq<byte>)
    requires HasHeader(s)
  {
    forall i :: 0 <= i < |data| && i < Present(s) ==> data[i] == PayloadByte(s, i)
  }

  lemma UnmaskedAt(h: Header, body: seq<byte>, i: nat)
    requires h.key.Some? ==> |h.key.value| == 4
    requires i < |Unmasked(h, body)|
    ensures i < |body|
    ensures Unmasked(h, body)[i] == if h.key.Some? then body[i] ^ h.key.value[i % 4] else body[i]
  {
    var part := Take(body, h.length);
    assert part[i] == body[i];
    if h.key.Some? {
      MaskedAt(h.key.value, part, i);
    }
  }

  lemma MaskedAt(key: seq<byte>, data: seq<byte>, i: nat)
    requires |key| == 4 && i < |data|
    ensures Mask(Some(key), 0, data)[i] == data[i] ^ key[i % 4]
  {
    assert KeyAt(key, 0 + i) == key[i % 4];
  }

  lemma UnmaskedBytes(s: seq<byte>)
    requires HasHeader(s)
    ensures ParseHeader(s).Parsed?
    ensures var payload := Unmasked(ParseHeader(s).h, s[ParseHeader(s).used..]);
      |payload| == Present(s) && Carries(payload, s)
  {
    HeaderOf(s);
    var start, payload := Start(s), Unmasked(ParseHeader(s).h, s[ParseHeader(s).used..]);
    assert |payload| == Min(ParseHeader(s).h.length, |s[start..]|);
    hide ParseHeader, Announced, Unmasked;
    forall i | 0 <= i < |payload| ensures payload[i] == PayloadByte(s, i) {
      UnmaskedAt(ParseHeader(s).h, s[start..], i);
      if Masked(s) {
        assert s[start - 4..start][i % 4] == s[start - 4 + i % 4];
      }
    }
  }

  /** Judge sets that frame apart, and delivers it. */
  lemma DataDelivered(s: seq<byte>, c: End)
    requires StartsWithData(s, c.server)
    ensures ParseHeader(s).Parsed?
    ensures Judge(s, c) == Deliver(ParseHeader(s).h, s[ParseHeader(s).used..])
  {
    HeaderOf(s);
    var opcode := ParseHeader(s).h.opcode;
    ByteAsInt(opcode, CLOSE);
    ByteAsInt(opcode, PING);
    ByteAsInt(opcode, PONG);
  }

  /** The stream delivers those bytes first, and they are the first message. */
  lemma FirstBytes(s: seq<byte>, last: byte, c: End)
    requires StartsWithData(s, c.server)
    ensures var m, ms := MeaningOf(s, c), MessagesOf(s, last, c);
      && |m.data| >= Present(s) && Carries(m.data, s)
      && ms != [] && ms[0].length == Announced(s)
      && |ms[0].payload| == Present(s) && Carries(ms[0].payload, s)
  {
    DataDelivered(s, c);
    UnmaskedBytes(s);
    HeaderOf(s);
    ReadingStep(s, last, c);
    hide MeaningOf, MessagesOf, Judge, ParseHeader, Unmasked, Announced, Start, PayloadByte;
  }

  lemma FirstKind(s: seq<byte>, last: byte, c: End)
    requires StartsWithData(s, c.server)
    ensures var ms := MessagesOf(s, last, c);
      ms != [] && if Opcode(s) == 0 then ms[0].kind == last else ms[0].kind as int == Opcode(s)
  {
    DataDelivered(s, c);
    HeaderOf(s);
    ByteAsInt(ParseHeader(s).h.opcode, CONTINUATION);
    ReadingStep(s, last, c);
    hide MeaningOf, MessagesOf, Judge, ParseHeader, Announced;
  }

  lemma PrefixCarries(chunk: seq<byte>, more: seq<byte>, data: seq<byte>, s: seq<byte>)
    requires HasHeader(s) && Carries(data, s) && data == chunk + more
    ensures Carries(chunk, s)
  {
  }

  /** A fresh connection over an input that starts with a data frame. */
  method Connect(server: bool, end: Error, input: seq<byte>, max: int) returns (ws: Conn)
    requires end == EOF || end == NetFailed
    requires StartsWithData(input, server)
    ensures fresh(ws) && fresh(ws.src) && fresh(ws.writers) && fresh(ws.writers.out) && ws.frameReader == null
    ensures ws.Valid() && ws.server == server && ws.src.end == end && ws.Limit() == if max == 0 then 33554432 else max
    ensures |ws.Pending().data| >= Present(input) && Carries(ws.Pending().data, input)
    ensures ws.Inbox() != [] && FirstIs(ws.Inbox()[0], input)
  {
    var src := new Source(input, end);
    var out := new Sink();
    ws := new Conn(server, src, out);
    ws.maxPayloadBytes := max;
    FirstBytes(input, 0, ws.Side());
    FirstKind(input, 0, ws.Side());
    assert ws.Pending() == MeaningOf(input, ws.Side()) && ws.Inbox() == MessagesOf(input, 0, ws.Side());
    hide MeaningOf, MessagesOf, Announced, ParseHeader, Carries;
  }

  /** m is the data frame at the front of s, as far as it has come; a continuation that follows nothing has
      type 0. */
  predicate FirstIs(m: Message, s: seq<byte>)
    requires HasHeader(s)
  {
    m.kind as int == Opcode(s) && m.length == Announced(s) && |m.payload| == Present(s) && Carries(m.payload, s)
  }

  /** One call of Read on a fresh connection whose input starts with a data frame: byte i of what it gives is
      byte i of that frame's payload, as far as the frame goes. */
  method ReadOnce(server: bool, end: Error, input: seq<byte>, size: nat) returns (chunk: seq<byte>, err: Error)
    requires end == EOF || end == NetFailed
    requires StartsWithData(input, server) && size > 0
    ensures Carries(chunk, input)
    ensures Present(input) > 0 && err != WriteFailed ==> err == NoError && chunk != []
  {
    var ws := Connect(server, end, input, 0);
    ghost var m := ws.Pending();
    hide *;
    ghost var rs;
    chunk, err, rs := ReadChunk(ws);
    if err == NoError || err == WriteFailed {
      PrependData(chunk, rs, ws.Pending());
      PrefixCarries(chunk, ws.Pending().data, m.data, input);
    } else {
      NothingCarries(input);
    }
  }

  lemma NothingCarries(s: seq<byte>)
    requires HasHeader(s)
    ensures Carries([], s)
  {
  }

  lemma PrependData(data: seq<byte>, rs: seq<Reply>, m: Meaning)
    ensures Prepend(data, rs, m).data == data + m.data
  {
  }

  /** Reading on to the first error gives the payload whole, or all of it that came. */
  method ReadBytes(server: bool, end: Error, input: seq<byte>) returns (data: seq<byte>, err: Error)
    requires end == EOF || end == NetFailed
    requires StartsWithData(input, server)
    ensures Carries(data, input)
    ensures err != WriteFailed ==> |data| >= Present(input)
  {
    var ws := Connect(server, end, input, 0);
    ghost var m := ws.Pending();
    hide *;
    ghost var rs;
    data, err, rs := ReadToError(ws);
    if err == WriteFailed {
      PrependData(data, rs, ws.Pending());
      PrefixCarries(data, ws.Pending().data, m.data, input);
    }
  }

  /** The first call of Receive on such a connection gives Unmarshal that payload, of the type in the frame, and
      refuses it exactly if it announces more than the limit, 32 MB where none is set. */
  method ReceiveBytes(server: bool, end: Error, input: seq<byte>, max: int, unmarshal: (seq<byte>, byte) -> Error)
    returns (what: Received, err: Error)
    requires end == EOF || end == NetFailed
    requires StartsWithData(input, server)
    ensures what.Given? ==>
      |what.data| == Present(input) && Carries(what.data, input) && what.kind as int == Opcode(input)
    ensures what != Nothing ==> (what == TooLarge <==> Announced(input) > if max == 0 then 33554432 else max)
    ensures what == Nothing && err != WriteFailed ==> end != EOF && Present(input) < Announced(input)
  {
    var ws := Connect(server, end, input, max);
    ghost var m, limit := ws.Inbox()[0], ws.Limit();
    FirstExpected(m, input, limit);
    hide *;
    ghost var rs;
    err, what, rs := ReceiveOne(ws, unmarshal);
  }

  lemma FirstExpected(m: Message, s: seq<byte>, limit: int)
    requires HasHeader(s) && FirstIs(m, s)
    ensures m.length == Announced(s) && |m.payload| == Present(s)
    ensures Announced(s) > limit ==> Expected(m, limit) == TooLarge
    ensures Announced(s) <= limit ==>
      && var what := Expected(m, limit);
      && what.Given? && |what.data| == Present(s) && Carries(what.data, s) && what.kind as int == Opcode(s)
  {
  }

  // ---------------------------------------------------------------- what a control frame brings about

  /** The input ends inside a control payload, before byte 125 of it, and not with EOF. */
  predicate Unreadable(s: seq<byte>, c: End)
    requires HasHeader(s)
  {
    Present(s) < 125 && Present(s) < Announced(s) && c.end != EOF
  }

  /** A frame masked for the other side is answered by a close, a close frame ends the reading, and a ping is
      answered by a pong with the first 125 bytes of its payload; a pong is passed over. */
  lemma ControlFrame(s: seq<byte>, c: End)
    requires HasHeader(s)
    ensures Masked(s) != c.server ==> Judge(s, c) == Stop([ProtocolErrorClose], EOF)
    ensures Masked(s) == c.server && Opcode(s) == 8 ==> Judge(s, c) == Stop([], EOF)
    ensures Masked(s) == c.server && (Opcode(s) == 9 || Opcode(s) == 10) && Unreadable(s, c) ==>
      Judge(s, c) == Stop([], c.end)
    ensures Masked(s) == c.server && Opcode(s) == 10 && !Unreadable(s, c) ==>
      Judge(s, c) == Skip([], s[Start(s) + Present(s)..])
    ensures Masked(s) == c.server && Opcode(s) == 9 && !Unreadable(s, c) ==>
      && var v := Judge(s, c);
      && v.Skip? && v.after == s[Start(s) + Present(s)..]
      && |v.replies| == 1 && v.replies[0].Pong?
      && |v.replies[0].payload| == Min(125, Present(s)) && Carries(v.replies[0].payload, s)
  {
    UnmaskedBytes(s);
    HeaderOf(s);
    var h := ParseHeader(s).h;
    ByteAsInt(h.opcode, CLOSE);
    ByteAsInt(h.opcode, PING);
    ByteAsInt(h.opcode, PONG);
    var body := s[ParseHeader(s).used..];
    DropBoth(s, Start(s), h.length);
    var payload := Unmasked(h, body);
    var front := Take(payload, MAX_CONTROL_PAYLOAD);
    PrefixCarries(front, Drop(payload, MAX_CONTROL_PAYLOAD), payload, s);
    hide ParseHeader, Announced, Start, PayloadByte, Carries, Take, Drop, Unmasked;
  }

  lemma DropBoth(s: seq<byte>, m: nat, n: nat)
    requires m <= |s|
    ensures Drop(s[m..], n) == s[m + Min(n, |s| - m)..]
  {
  }

  // ---------------------------------------------------------------- what the writer puts there

  function Bit(b: bool): nat {
    if b then 1 else 0
  }

  /** s is the frame (fin, rsv, opcode, key, payload) in the layout above, in the shortest of the length forms. */
  predicate LaidOut(s: seq<byte>, fin: bool, rsv: Rsv, opcode: byte, key: Option<seq<byte>>, payload: seq<byte>) {
    && HasHeader(s) && |s| == Start(s) + |payload|
    && At(s, 0) == 128 * Bit(fin) + 64 * Bit(rsv[0]) + 32 * Bit(rsv[1]) + 16 * Bit(rsv[2]) + opcode as int
    && Announced(s) == |payload|
    && LengthSize(s) == (if |payload| <= 125 then 0 else if |payload| <= 65535 then 2 else 8)
    && Masked(s) == key.Some? && (key.Some? ==> s[Start(s) - 4..Start(s)] == key.value)
    && forall i :: 0 <= i < |payload| ==> PayloadByte(s, i) == payload[i]
  }

  lemma EncodedPayload(f: WireFrame, n: nat)
    requires n + |f.payload| == |Encode(f)|
    ensures n == 2 + LengthFields(|f.payload|) + |KeyBytes(f.key)|
    ensures forall i :: 0 <= i < |f.payload| ==>
      Encode(f)[n + i] == if f.key.Some? then f.payload[i] ^ f.key.value[i % 4] else f.payload[i]
  {
    HeaderShape(f, []);
    assert Encode(f) + [] == Encode(f);
    hide Encode, HeaderBytes;
    forall i | 0 <= i < |f.payload|
      ensures Encode(f)[n + i] == if f.key.Some? then f.payload[i] ^ f.key.value[i % 4] else f.payload[i]
    {
      assert Encode(f)[n..n + |f.payload|][i] == Encode(f)[n + i];
      if f.key.Some? {
        MaskedAt(f.key.value, f.payload, i);
      }
    }
  }

  lemma XorTwice(a: byte, k: byte)
    ensures (a ^ k) ^ k == a
  {
  }

  /** A byte is the sum of its bits. */
  lemma ByteParts(b: nat, fin: bool, r0: bool, r1: bool, r2: bool)
    requires b < 256 && fin == (b >= 128)
    requires r0 == (b / 64 % 2 == 1) && r1 == (b / 32 % 2 == 1) && r2 == (b / 16 % 2 == 1)
    ensures b == 128 * Bit(fin) + 64 * Bit(r0) + 32 * Bit(r1) + 16 * Bit(r2) + b % 16
  {
  }

  lemma PayloadBack(s: seq<byte>, key: Option<seq<byte>>, payload: seq<byte>)
    requires HasHeader(s) && |s| == Start(s) + |payload| && Masked(s) == key.Some?
    requires key.Some? ==> |key.value| == 4 && s[Start(s) - 4..Start(s)] == key.value
    requires forall i :: 0 <= i < |payload| ==>
      s[Start(s) + i] == if key.Some? then payload[i] ^ key.value[i % 4] else payload[i]
    ensures forall i :: 0 <= i < |payload| ==> PayloadByte(s, i) == payload[i]
  {
    forall i | 0 <= i < |payload| ensures PayloadByte(s, i) == payload[i] {
      if key.Some? {
        assert s[Start(s) - 4..Start(s)][i % 4] == s[Start(s) - 4 + i % 4];
        XorTwice(payload[i], key.value[i % 4]);
      }
    }
  }

  lemma HeaderInPlace(s: seq<byte>, h: Header, used: nat)
    requires ParseHeader(s) == Parsed(h, used)
    ensures HasHeader(s) && used == Start(s) && Announced(s) == h.length
    ensures At(s, 0)
         == 128 * Bit(h.fin) + 64 * Bit(h.rsv[0]) + 32 * Bit(h.rsv[1]) + 16 * Bit(h.rsv[2]) + h.opcode as int
    ensures Masked(s) == h.key.Some? && (h.key.Some? ==> |h.key.value| == 4 && s[Start(s) - 4..Start(s)] == h.key.value)
  {
    HeaderOf(s);
    hide ParseHeader, Announced, Start, LengthSize;
    ByteParts(At(s, 0), h.fin, h.rsv[0], h.rsv[1], h.rsv[2]);
  }

  lemma EncodedHeader(f: WireFrame)
    requires f.opcode <= 15
    ensures var s := Encode(f);
      && HasHeader(s) && |s| == Start(s) + |f.payload| && Announced(s) == |f.payload|
      && At(s, 0) == 128 * Bit(f.fin) + 64 * Bit(f.rsv[0]) + 32 * Bit(f.rsv[1]) + 16 * Bit(f.rsv[2]) + f.opcode as int
      && LengthSize(s) == (if |f.payload| <= 125 then 0 else if |f.payload| <= 65535 then 2 else 8)
      && Masked(s) == f.key.Some? && (f.key.Some? ==> s[Start(s) - 4..Start(s)] == f.key.value)
  {
    var s := Encode(f);
    assert s + [] == s;
    HeaderRoundTrip(f, []);
    HeaderInPlace(s, Header(f.fin, f.rsv, f.opcode, |f.payload|, f.key), |HeaderBytes(f)|);
    EncodedPayload(f, |HeaderBytes(f)|);
    assert LengthFields(|f.payload|) == if |f.payload| <= 125 then 0 else if |f.payload| <= 65535 then 2 else 8;
    assert |KeyBytes(f.key)| == if f.key.Some? then 4 else 0;
    assert |s| == |HeaderBytes(f)| + |f.payload|;
    assert Start(s) == 2 + LengthSize(s) + if Masked(s) then 4 else 0;
    hide *;
  }

  /** The writer's encoding is that layout. */
  lemma EncodedLayout(f: WireFrame)
    requires f.opcode <= 15
    ensures LaidOut(Encode(f), f.fin, f.rsv, f.opcode, f.key, f.payload)
  {
    var s := Encode(f);
    EncodedHeader(f);
    hide *;
    EncodedPayload(f, Start(s));
    PayloadBack(s, f.key, f.payload);
    Assembled(s, f);
  }

  lemma Assembled(s: seq<byte>, f: WireFrame)
    requires HasHeader(s) && |s| == Start(s) + |f.payload| && Announced(s) == |f.payload|
    requires At(s, 0)
          == 128 * Bit(f.fin) + 64 * Bit(f.rsv[0]) + 32 * Bit(f.rsv[1]) + 16 * Bit(f.rsv[2]) + f.opcode as int
    requires LengthSize(s) == if |f.payload| <= 125 then 0 else if |f.payload| <= 65535 then 2 else 8
    requires Masked(s) == f.key.Some? && (f.key.Some? ==> s[Start(s) - 4..Start(s)] == f.key.value)
    requires forall i :: 0 <= i < |f.payload| ==> PayloadByte(s, i) == f.payload[i]
    ensures LaidOut(s, f.fin, f.rsv, f.opcode, f.key, f.payload)
  {
  }

  /** hybiFrameWriter.Write, as bytes on the wire: behind what is already there come the flags and the opcode, the
      length, the key, and each byte of the message xored with the key byte of its place. */
  method Put(out: Sink, h: WriterHeader, msg: seq<byte>) returns (err: Error)
    requires |msg| < INT64_LIMIT && h.opcode <= 15
    modifies out
    ensures err == NoError ==>
      && old(out.wire) <= out.wire
      && LaidOut(out.wire[|old(out.wire)|..], h.fin, h.rsv, h.opcode, h.key, msg)
    ensures err != NoError ==> err == WriteFailed || (err == BadMaskingKey && h.key.Some? && |h.key.value| != 4)
  {
    var n;
    n, err := WriteFrame(out, h, msg);
    if err == NoError {
      EncodedLayout(FrameOf(h, msg));
      assert out.wire[|old(out.wire)|..] == Encode(FrameOf(h, msg));
    }
    hide Encode, LaidOut;
  }

  /** The two frames a connection sends by itself: a pong, and a close with status 1002. */
  lemma ReplyBytes(f: WireFrame, r: Reply, server: bool)
    requires IsReply(f, r, server)
    ensures f.key.Some? == !server
    ensures r.Pong? ==> LaidOut(Encode(f), true, [false, false, false], 10, f.key, r.payload)
    ensures r == ProtocolErrorClose ==>
      LaidOut(Encode(f), true, [false, false, false], 8, f.key, [0x03, 0xea])
  {
    EncodedLayout(f);
    if r == ProtocolErrorClose {
      TwoBytes(1002);
      ByteOfValue(0x03);
      ByteOfValue(0xea);
    }
    hide LaidOut, Encode, ByteOf, ToBigEndian;
  }
}
