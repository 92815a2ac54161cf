/** What a stream of bytes means to the receiving end of a connection: the payload bytes it delivers, the
    messages it holds, and the control frames it makes the receiver send. Defined on every byte string,
    malformed and truncated ones included. */
module Streams {
  import opened Bytes
  import opened Frames
  import opened Io
  import opened Wrappers

  const MAX_CONTROL_PAYLOAD: nat := 125

  /** A frame the receiver sends by itself. */
  datatype Reply = Pong(payload: seq<byte>) | ProtocolErrorClose

  /** The receiving end: which side of the connection, and how its input ends. */
  datatype End = End(server: bool, end: Error)

  /** What becomes of the frame at the front of the input. */
  datatype Verdict =
    | Stop(replies: seq<Reply>, err: Error)
    | Skip(replies: seq<Reply>, after: seq<byte>)
    | Deliver(h: Header, body: seq<byte>)

  /** The client masks, the server does not (section 5.1 of RFC 6455). */
  predicate MaskOk(masked: bool, server: bool) {
    masked == server
  }

  function Unmasked(h: Header, body: seq<byte>): seq<byte>
    requires h.key.Some? ==> |h.key.value| == 4
  {
    Mask(h.key, 0, Take(body, h.length))
  }

  function Judge(s: seq<byte>, c: End): (v: Verdict)
    ensures v.Skip? ==> |v.after| < |s|
    ensures v.Deliver? ==> |v.body| < |s| && (v.h.key.Some? ==> |v.h.key.value| == 4)
  {
    match ParseHeader(s)
    case Short => Stop([], c.end)
    case Parsed(h, used) =>
      var body := s[used..];
      if !MaskOk(h.key.Some?, c.server) then Stop([ProtocolErrorClose], EOF)
      else if h.opcode == CLOSE then Stop([], EOF)
      else if h.opcode == PING || h.opcode == PONG then
        var payload := Unmasked(h, body);
        if |payload| < MAX_CONTROL_PAYLOAD && h.length > |body| && c.end != EOF then Stop([], c.end)
        else Skip(if h.opcode == PING then [Pong(Take(payload, MAX_CONTROL_PAYLOAD))] else [], Drop(body, h.length))
      else Deliver(h, body)
  }

  /** All that a byte string delivers, all the replies it provokes, and the error at its end. */
  datatype Meaning = Meaning(data: seq<byte>, replies: seq<Reply>, err: Error)

  function Prepend(data: seq<byte>, replies: seq<Reply>, m: Meaning): Meaning {
    Meaning(data + m.data, replies + m.replies, m.err)
  }

  function MeaningOf(s: seq<byte>, c: End): Meaning
    decreases |s|
  {
    match Judge(s, c)
    case Stop(replies, err) => Meaning([], replies, err)
    case Skip(replies, after) => Prepend([], replies, MeaningOf(after, c))
    case Deliver(h, body) => Prepend(Unmasked(h, body), [], MeaningOf(Drop(body, h.length), c))
  }

  lemma PrependTwice(d: seq<byte>, rs: seq<Reply>, d': seq<byte>, rs': seq<Reply>, m: Meaning)
    ensures Prepend(d, rs, Prepend(d', rs', m)) == Prepend(d + d', rs + rs', m)
  {
  }

  lemma PrependKeepsReplies(d: seq<byte>, m: Meaning)
    ensures Prepend(d, [], m).replies == m.replies
  {
  }

  lemma PrependReplies(rs: seq<Reply>, d: seq<byte>, m: Meaning)
    ensures Prepend([], rs, Prepend(d, [], m)) == Prepend(d, rs, m)
    ensures m.data == [] && m.replies == [] ==> Prepend([], rs, m) == Meaning([], rs, m.err)
    ensures Prepend([], [], m) == m
  {
  }

  lemma PrependLast(d: seq<byte>, rs: seq<Reply>, rs': seq<Reply>, err: Error)
    ensures Prepend(d, rs, Meaning([], rs', err)) == Meaning(d + [], rs + rs', err)
  {
  }

  lemma NoMeaning(c: End)
    ensures MeaningOf([], c) == Meaning([], [], c.end)
  {
  }

  lemma PrependNothing(m: Meaning)
    ensures Prepend([], [], m) == m
  {
  }

  /** A data frame as Receive sees it; the payload is shorter than length when the input gives out. */
  datatype Message = Message(kind: byte, length: nat, payload: seq<byte>)

  /** The type of a data frame: a continuation takes the type of the data frame before it. */
  function KindOf(opcode: byte, last: byte): byte {
    if opcode == CONTINUATION then last else opcode
  }

  /** The type a later continuation will take; only text and binary frames change it. */
  function NextKind(opcode: byte, last: byte): byte {
    if opcode == TEXT || opcode == BINARY then opcode else last
  }

  function MessagesOf(s: seq<byte>, last: byte, c: End): seq<Message>
    decreases |s|
  {
    match Judge(s, c)
    case Stop(_, _) => []
    case Skip(_, after) => MessagesOf(after, last, c)
    case Deliver(h, body) =>
      [Message(KindOf(h.opcode, last), h.length, Unmasked(h, body))]
      + MessagesOf(Drop(body, h.length), NextKind(h.opcode, last), c)
  }

  /** One step of both readings of a stream. */
  lemma ReadingStep(s: seq<byte>, last: byte, c: End)
    ensures var v := Judge(s, c);
      && (v.Stop? ==>
           && MeaningOf(s, c) == Meaning([], v.replies, v.err) && MessagesOf(s, last, c) == []
           && (v.err == EOF || v.err == c.end))
      && (v.Skip? ==>
           && MeaningOf(s, c) == Prepend([], v.replies, MeaningOf(v.after, c))
           && MessagesOf(s, last, c) == MessagesOf(v.after, last, c)
           && |v.after| < |s|)
      && (v.Deliver? ==>
           && |v.body| < |s| && (v.h.key.Some? ==> |v.h.key.value| == 4)
           && var payload := Unmasked(v.h, v.body);
           && |payload| == Min(v.h.length, |v.body|)
           && MeaningOf(s, c) == Prepend(payload, [], MeaningOf(Drop(v.body, v.h.length), c))
           && MessagesOf(s, last, c) ==
                [Message(KindOf(v.h.opcode, last), v.h.length, payload)]
                + MessagesOf(Drop(v.body, v.h.length), NextKind(v.h.opcode, last), c))
  {
  }

  // ---------------------------------------------------------------- streams of whole frames

  predicate IsControl(opcode: byte) {
    opcode == CLOSE || opcode == PING || opcode == PONG
  }

  /** The concatenated payloads of the data frames up to the first close. */
  function DataOf(fs: seq<WireFrame>): seq<byte> {
    if fs == [] || fs[0].opcode == CLOSE then []
    else (if IsControl(fs[0].opcode) then [] else fs[0].payload) + DataOf(fs[1..])
  }

  /** One pong for each ping up to the first close, in order, with at most the first 125 bytes of its payload. */
  function PongsOf(fs: seq<WireFrame>): seq<Reply> {
    if fs == [] || fs[0].opcode == CLOSE then []
    else (if fs[0].opcode == PING then [Pong(Take(fs[0].payload, MAX_CONTROL_PAYLOAD))] else []) + PongsOf(fs[1..])
  }

  function DataFramesOf(fs: seq<WireFrame>, last: byte): seq<Message> {
    if fs == [] || fs[0].opcode == CLOSE then []
    else if IsControl(fs[0].opcode) then DataFramesOf(fs[1..], last)
    else [Message(KindOf(fs[0].opcode, last), |fs[0].payload|, fs[0].payload)]
         + DataFramesOf(fs[1..], NextKind(fs[0].opcode, last))
  }

  lemma {:induction false} DataFramesWhole(fs: seq<WireFrame>, last: byte)
    ensures forall m <- DataFramesOf(fs, last) :: |m.payload| == m.length
  {
    if fs != [] {
      DataFramesWhole(fs[1..], if IsControl(fs[0].opcode) then last else NextKind(fs[0].opcode, last));
    }
  }

  /** How many of the frames are data frames. */
  function DataCount(fs: seq<WireFrame>): nat {
    if fs == [] then 0 else (if IsControl(fs[0].opcode) then 0 else 1) + DataCount(fs[1..])
  }

  /** The type of the latest text or binary frame before frame p, looking back from there. */
  function TypedBefore(fs: seq<WireFrame>, p: nat, last: byte): byte
    requires p <= |fs|
  {
    if p == 0 then last
    else if fs[p - 1].opcode == 1 || fs[p - 1].opcode == 2 then fs[p - 1].opcode
    else TypedBefore(fs, p - 1, last)
  }

  lemma {:induction false} TypedBeforeTail(fs: seq<WireFrame>, p: nat, last: byte)
    requires 0 < p <= |fs|
    ensures TypedBefore(fs, p, last)
         == TypedBefore(fs[1..], p - 1, if fs[0].opcode == 1 || fs[0].opcode == 2 then fs[0].opcode else last)
  {
    if p > 1 {
      TypedBeforeTail(fs, p - 1, last);
    }
  }

  /** Where the message of a data frame stands among the messages, and its type: the frame's own, or for a
      continuation that of the latest text or binary frame before it, whatever lies between the two. */
  lemma {:induction false} KindByPosition(fs: seq<WireFrame>, last: byte, p: nat)
    requires p < |fs| && forall r :: 0 <= r <= p ==> fs[r].opcode != 8
    requires fs[p].opcode != 9 && fs[p].opcode != 10
    ensures DataCount(fs[..p]) < |DataFramesOf(fs, last)|
    ensures var m := DataFramesOf(fs, last)[DataCount(fs[..p])];
      && m.payload == fs[p].payload && m.length == |fs[p].payload|
      && m.kind == if fs[p].opcode == 0 then TypedBefore(fs, p, last) else fs[p].opcode
  {
    if p > 0 {
      var rest := fs[1..];
      var next := if IsControl(fs[0].opcode) then last else NextKind(fs[0].opcode, last);
      assert forall r :: 0 <= r < |rest| ==> rest[r] == fs[r + 1];
      assert fs[..p][1..] == rest[..p - 1];
      assert DataCount(fs[..p]) == DataCount(rest[..p - 1]) + if IsControl(fs[0].opcode) then 0 else 1;
      TypedBeforeTail(fs, p, last);
      hide DataCount, TypedBefore;
      KindByPosition(rest, next, p - 1);
    }
  }

  predicate Closes(fs: seq<WireFrame>) {
    exists f <- fs :: f.opcode == CLOSE
  }

  predicate Receivable(fs: seq<WireFrame>, server: bool) {
    forall f <- fs :: f.opcode <= 15 && MaskOk(f.key.Some?, server)
  }

  lemma JudgeWhole(f: WireFrame, tail: seq<byte>, c: End)
    requires f.opcode <= 15 && MaskOk(f.key.Some?, c.server)
    ensures Judge(Encode(f) + tail, c) ==
      if f.opcode == CLOSE then Stop([], EOF)
      else if f.opcode == PING then Skip([Pong(Take(f.payload, MAX_CONTROL_PAYLOAD))], tail)
      else if f.opcode == PONG then Skip([], tail)
      else Deliver(Header(f.fin, f.rsv, f.opcode, |f.payload|, f.key), Mask(f.key, 0, f.payload) + tail)
  {
    HeaderRoundTrip(f, tail);
    var body := Mask(f.key, 0, f.payload) + tail;
    assert (Encode(f) + tail)[|HeaderBytes(f)|..] == body;
    BodyOfWhole(f, tail);
  }

  lemma BodyOfWhole(f: WireFrame, tail: seq<byte>)
    ensures var body := Mask(f.key, 0, f.payload) + tail;
      && Mask(f.key, 0, Take(body, |f.payload|)) == f.payload
      && Drop(body, |f.payload|) == tail
  {
    var body := Mask(f.key, 0, f.payload) + tail;
    assert Take(body, |f.payload|) == Mask(f.key, 0, f.payload);
    MaskTwice(f.key, 0, f.payload);
  }

  /** For frames masked as the receiver's side demands, the stream delivers exactly the data payloads and
      provokes exactly the pongs, however control and empty frames are interleaved. */
  lemma {:induction false} MeaningOfFrames(fs: seq<WireFrame>, c: End)
    requires Receivable(fs, c.server)
    ensures MeaningOf(EncodeAll(fs), c)
         == Meaning(DataOf(fs), PongsOf(fs), if Closes(fs) then EOF else c.end)
  {
    if fs != [] {
      var tail := EncodeAll(fs[1..]);
      JudgeWhole(fs[0], tail, c);
      BodyOfWhole(fs[0], tail);
      assert fs == [fs[0]] + fs[1..];
      assert Receivable(fs[1..], c.server);
      MeaningOfFrames(fs[1..], c);
      assert fs[0].opcode != CLOSE ==> Closes(fs) == Closes(fs[1..]);
    }
  }

  /** The messages in a stream of whole frames are its data frames up to the first close, in order and entire. */
  lemma {:induction false} MessagesOfFrames(fs: seq<WireFrame>, last: byte, c: End)
    requires Receivable(fs, c.server)
    ensures MessagesOf(EncodeAll(fs), last, c) == DataFramesOf(fs, last)
  {
    if fs != [] {
      var tail := EncodeAll(fs[1..]);
      JudgeWhole(fs[0], tail, c);
      BodyOfWhole(fs[0], tail);
      assert Receivable(fs[1..], c.server);
      if fs[0].opcode != CLOSE {
        MessagesOfFrames(fs[1..], if IsControl(fs[0].opcode) then last else NextKind(fs[0].opcode, last), c);
      }
    }
  }

  /** A pong carries the ping's whole payload exactly when that is within the control frame limit. */
  lemma PongEchoes(f: WireFrame, tail: seq<byte>, c: End)
    requires f.opcode == PING && MaskOk(f.key.Some?, c.server)
    ensures Judge(Encode(f) + tail, c) == Skip([Pong(f.payload)], tail) <==> |f.payload| <= MAX_CONTROL_PAYLOAD
  {
    JudgeWhole(f, tail, c);
    assert |f.payload| <= MAX_CONTROL_PAYLOAD ==> Take(f.payload, MAX_CONTROL_PAYLOAD) == f.payload;
  }

  // ---------------------------------------------------------------- messages cut short

  /** A data frame's header and the input behind it. */
  datatype DataFrame = DataFrame(h: Header, body: seq<byte>)

  /** The first data frame of a stream, behind the control frames that come before it. */
  function FirstData(s: seq<byte>, c: End): Option<DataFrame>
    decreases |s|
  {
    match Judge(s, c)
    case Stop(_, _) => None
    case Skip(_, after) => FirstData(after, c)
    case Deliver(h, body) => Some(DataFrame(h, body))
  }

  /** The input stops inside the payload of its first data frame. */
  predicate CutShort(s: seq<byte>, c: End) {
    var d := FirstData(s, c);
    d.Some? && |d.value.body| < d.value.h.length
  }

  /** The first message is that frame, and its payload short exactly if the input stops inside it. */
  lemma {:induction false} FirstMessage(s: seq<byte>, last: byte, c: End)
    ensures var d, ms := FirstData(s, c), MessagesOf(s, last, c);
      && (ms == [] <==> d.None?)
      && (ms != [] ==> ms[0].length == d.value.h.length)
      && (ms != [] ==> (|ms[0].payload| < ms[0].length <==> CutShort(s, c)))
    decreases |s|
  {
    var v := Judge(s, c);
    if v.Skip? {
      FirstMessage(v.after, last, c);
    }
  }

  /** Over every stream, however malformed, each message but the last is entire, and none is longer than
      announced. */
  lemma {:induction false} OnlyLastCutShort(s: seq<byte>, last: byte, c: End, k: nat)
    requires k < |MessagesOf(s, last, c)|
    ensures var ms := MessagesOf(s, last, c);
      |ms[k].payload| <= ms[k].length && (k < |ms| - 1 ==> |ms[k].payload| == ms[k].length)
    decreases |s|
  {
    var v := Judge(s, c);
    ReadingStep(s, last, c);
    hide MeaningOf, MessagesOf, Judge;
    if v.Skip? {
      OnlyLastCutShort(v.after, last, c, k);
    } else if v.Deliver? {
      var rest, next := Drop(v.body, v.h.length), NextKind(v.h.opcode, last);
      if |v.body| < v.h.length {
        ReadingStep([], next, c);
        NoMessages(next, c);
      }
      if k > 0 {
        OnlyLastCutShort(rest, next, c, k - 1);
      }
    }
  }

  lemma CutHasFrame(s: seq<byte>, c: End)
    ensures CutShort(s, c) ==> FirstData(s, c).Some?
  {
  }

  lemma NoMessages(last: byte, c: End)
    ensures MessagesOf([], last, c) == []
  {
  }

  /** An input that ends inside a payload still counts as a message when it ends with EOF: here five bytes
      are announced, two come, and the message has two. */
  lemma TruncatedMessage()
    ensures var s := [0x82, 0x05, 0x68, 0x69];
      MessagesOf(s, 0, End(false, EOF)) == [Message(BINARY, 5, [0x68, 0x69])]
  {
    var s: seq<byte> := [0x82, 0x05, 0x68, 0x69];
    var c := End(false, EOF);
    var h := Header(true, [false, false, false], BINARY, 5, None);
    assert s[2..2] == [];
    HeaderFields(s, h, 0);
    assert s[2..] == [0x68, 0x69];
    assert Judge(s, c) == Deliver(h, s[2..]);
    assert Take(s[2..], 5) == s[2..];
    assert Drop(s[2..], 5) == [];
    assert MessagesOf([], NextKind(BINARY, 0), c) == [];
  }
}
