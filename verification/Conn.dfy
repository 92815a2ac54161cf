/** Conn, Codec and the frame handler: the state machine over frames. */
module Conn {
  import opened Bytes
  import opened Frames
  import opened Io
  import opened FrameWriter
  import opened FrameReader
  import opened Streams
  import opened Wrappers

  const DEFAULT_MAX_PAYLOAD_BYTES: int := 32 * 1024 * 1024
  const CLOSE_STATUS_PROTOCOL_ERROR: nat := 1002

  /** f is a final frame of the given type and payload, masked as the sending side must. */
  predicate IsFrameOf(f: WireFrame, opcode: byte, payload: seq<byte>, server: bool) {
    f.fin && f.rsv == [false, false, false] && f.key.Some? == !server && f.opcode == opcode && f.payload == payload
  }

  predicate IsReply(f: WireFrame, r: Reply, server: bool) {
    match r
    case Pong(payload) => IsFrameOf(f, PONG, payload, server)
    case ProtocolErrorClose => IsFrameOf(f, CLOSE, ToBigEndian(CLOSE_STATUS_PROTOCOL_ERROR, 2), server)
  }

  /** The frames ks answer the replies rs one for one and in order, or their beginning if the sink broke. */
  predicate Answers(ks: seq<WireFrame>, rs: seq<Reply>, server: bool, broken: bool) {
    && |ks| <= |rs| && (!broken ==> |ks| == |rs|)
    && forall i :: 0 <= i < |ks| ==> IsReply(ks[i], rs[i], server)
  }

  lemma NoAnswers(sent: seq<WireFrame>, server: bool, broken: bool)
    ensures Answers(sent[|sent|..], [], server, broken)
  {
  }

  lemma AnswersAppend(first: seq<WireFrame>, mid: seq<WireFrame>, last: seq<WireFrame>,
                      rs: seq<Reply>, next: seq<Reply>, midBroken: bool, lastBroken: bool, server: bool)
    requires first <= mid <= last
    requires Answers(mid[|first|..], rs, server, midBroken) && Answers(last[|mid|..], next, server, lastBroken)
    requires midBroken ==> lastBroken && last == mid
    ensures Answers(last[|first|..], rs + next, server, lastBroken)
  {
    assert last[|first|..] == mid[|first|..] + last[|mid|..];
  }

  /** What a call of Receive did: gave data of a type to Unmarshal, refused a frame for its size, or neither. */
  datatype Received = Given(data: seq<byte>, kind: byte) | TooLarge | Nothing

  /** What Receive has to do with a message. */
  function Expected(m: Message, limit: int): Received {
    if m.length > limit then TooLarge else Given(m.payload, m.kind)
  }

  class Conn {
    const server: bool
    const src: Source
    const writers: Writers
    var frameReader: Reader?
    var handlerType: byte        // hybiFrameHandler.payloadType
    var payloadType: byte        // Conn.PayloadType
    var maxPayloadBytes: int

    ghost predicate Valid()
      reads this, src, writers, writers.out, frameReader
    {
      && src.Valid()
      && writers.Valid() && writers.needMaskingKey == !server
      && (frameReader != null ==> frameReader.src == src && frameReader.Valid())
    }

    function Side(): End {
      End(server, src.end)
    }

    /** What is still to come of the input: the rest of the current frame, then the frames behind it. */
    ghost function Pending(): Meaning
      reads this, src, writers, writers.out, frameReader
      requires Valid()
    {
      if frameReader == null then MeaningOf(src.Rest(), Side())
      else Prepend(frameReader.Remaining(), [], MeaningOf(frameReader.After(), Side()))
    }

    /** The input behind the current frame. */
    ghost function Behind(): seq<byte>
      reads this, src, writers, writers.out, frameReader
      requires Valid()
    {
      if frameReader == null then src.Rest() else frameReader.After()
    }

    /** The messages that Receive has still to deal with; a frame already begun is not one of them. */
    ghost function Inbox(): seq<Message>
      reads this, src, writers, writers.out, frameReader
      requires Valid()
    {
      MessagesOf(Behind(), handlerType, Side())
    }

    constructor (server: bool, src: Source, out: Sink)
      requires src.Valid() && out.wire == [] && !out.broken
      ensures Valid() && this.server == server && this.src == src && fresh(writers) && writers.out == out
      ensures frameReader == null && handlerType == 0 && payloadType == TEXT && maxPayloadBytes == 0
      ensures writers.sent == []
    {
      this.server, this.src := server, src;
      writers := new Writers(out, !server);
      frameReader, handlerType, payloadType, maxPayloadBytes := null, 0, TEXT, 0;
    }

    /** Since the time when the frames before had been sent, the input has called for the replies rs, and the
        frames sent since then answer them. */
    ghost predicate Answered(before: seq<WireFrame>, wasBroken: bool, rs: seq<Reply>)
      reads writers, writers.out
    {
      && before <= writers.sent
      && (wasBroken ==> writers.out.broken && writers.sent == before)
      && Answers(writers.sent[|before|..], rs, server, writers.out.broken)
    }

    /** Conn.Write. */
    method Write(msg: seq<byte>) returns (n: nat, err: Error)
      requires Valid() && |msg| < INT64_LIMIT
      modifies writers, writers.out
      ensures Valid() && Pending() == old(Pending()) && Inbox() == old(Inbox())
      ensures n == |msg| && err == if writers.out.broken then WriteFailed else NoError
      ensures if writers.out.broken then writers.sent == old(writers.sent)
              else exists f: WireFrame ::
                (IsFrameOf(f, payloadType, msg, server) && writers.sent == old(writers.sent) + [f])
    {
      ghost var f;
      err, f := writers.SendFrame(payloadType, msg);
      n := |msg|;
    }

    /** Codec.Send, once the value has been marshalled into data and a type. */
    method Send(data: seq<byte>, kind: byte) returns (err: Error)
      requires Valid() && |data| < INT64_LIMIT
      modifies writers, writers.out
      ensures Valid() && Pending() == old(Pending()) && Inbox() == old(Inbox())
      ensures err == if writers.out.broken then WriteFailed else NoError
      ensures if writers.out.broken then writers.sent == old(writers.sent)
              else exists f: WireFrame :: IsFrameOf(f, kind, data, server) && writers.sent == old(writers.sent) + [f]
    {
      ghost var f;
      err, f := writers.SendFrame(kind, data);
    }

    /** WritePong. */
    method WritePong(msg: seq<byte>) returns (err: Error)
      requires Valid() && |msg| < INT64_LIMIT
      modifies writers, writers.out
      ensures Valid() && Answered(old(writers.sent), old(writers.out.broken), [Pong(msg)])
      ensures err == if writers.out.broken then WriteFailed else NoError
    {
      ghost var f;
      err, f := writers.SendFrame(PONG, msg);
    }

    /** WriteClose, with the status of a protocol error. */
    method WriteProtocolErrorClose() returns (err: Error)
      requires Valid()
      modifies writers, writers.out
      ensures Valid() && Answered(old(writers.sent), old(writers.out.broken), [ProtocolErrorClose])
    {
      hide ByteOf, ToBigEndian;
      ghost var f;
      var msg := BigEndian16(CLOSE_STATUS_PROTOCOL_ERROR);
      err, f := writers.SendFrame(CLOSE, msg);
    }

    /** binary.BigEndian.PutUint16. */
    method BigEndian16(status: nat) returns (msg: seq<byte>)
      requires status < 65536
      ensures msg == ToBigEndian(status, 2)
    {
      msg := [ByteOf(status / 256), ByteOf(status % 256)];
      TwoBytes(status);
    }

    /** The ping and pong case of HandleFrame. */
    method HandleControl(frame: Reader) returns (err: Error, ghost rs: seq<Reply>)
      requires Valid() && frameReader == null
      requires frame.src == src && frame.Valid()
      requires frame.opcode == PING || frame.opcode == PONG
      modifies src, writers, writers.out, frame`limit, frame`pos
      ensures Valid() && Answered(old(writers.sent), old(writers.out.broken), rs)
      ensures var payload := old(frame.Remaining());
        if |payload| < MAX_CONTROL_PAYLOAD && old(frame.Ending()) != EOF then
          err == src.end && rs == []
        else
          && rs == (if frame.opcode == PING then [Pong(Take(payload, MAX_CONTROL_PAYLOAD))] else [])
          && src.Rest() == old(frame.After())
          && (err == NoError || (err == WriteFailed && writers.out.broken))
    {
      hide Answers;
      NoAnswers(writers.sent, server, writers.out.broken);
      rs := [];
      var b;
      b, err := TakeControlPayload(frame);
      if err == NoError && frame.opcode == PING {
        err := WritePong(b);
        rs := [Pong(b)];
      }
    }

    /** The payload of a control frame, cut at 125 bytes; the frame is read to its end. */
    method TakeControlPayload(frame: Reader) returns (payload: seq<byte>, err: Error)
      requires frame.Valid()
      modifies frame.src, frame`limit, frame`pos
      ensures frame.Valid()
      ensures if |old(frame.Remaining())| < MAX_CONTROL_PAYLOAD && old(frame.Ending()) != EOF then
          err == frame.src.end
        else
          err == NoError && payload == Take(old(frame.Remaining()), MAX_CONTROL_PAYLOAD)
          && frame.src.Rest() == old(frame.After())
    {
      hide Mask;
      var b := new byte[MAX_CONTROL_PAYLOAD];
      var n;
      n, err := ReadFull(frame, b);
      payload := b[..n];
      if err != NoError && err != EOF && err != UnexpectedEOF {
        return;
      }
      var _ := Discard(frame);
      err := NoError;
    }

    /** hybiFrameHandler.HandleFrame on the frame whose header stands at the front of s. */
    method HandleFrame(frame: Reader, ghost s: seq<byte>) returns (r: Reader?, err: Error, ghost rs: seq<Reply>)
      requires Valid() && frameReader == null
      requires frame.src == src && frame.Valid()
      requires ParseHeader(s).Parsed? && frame.header == ParseHeader(s).h && src.Rest() == s[ParseHeader(s).used..]
      requires frame.opcode == frame.header.opcode && frame.limit == frame.header.length && frame.pos == 0
      modifies src, writers, writers.out, frame, this`handlerType
      ensures Valid() && Answered(old(writers.sent), old(writers.out.broken), rs)
      ensures match Judge(s, Side())
        case Stop(replies, e) => r == null && err == e && rs == replies
        case Skip(replies, after) =>
          && r == null && rs == replies && src.Rest() == after && handlerType == old(handlerType)
          && (err == NoError || (err == WriteFailed && writers.out.broken))
        case Deliver(h, body) =>
          && r == frame && err == NoError && rs == [] && frame.Valid() && src.Rest() == body
          && frame.limit == h.length && frame.pos == 0
          && frame.opcode == KindOf(h.opcode, old(handlerType)) && handlerType == NextKind(h.opcode, old(handlerType))
          && writers.sent == old(writers.sent)
    {
      r, err, rs := null, EOF, [];
      if server {
        if frame.header.key.None? {
          var _ := WriteProtocolErrorClose();
          rs := [ProtocolErrorClose];
          return;
        }
      } else {
        if frame.header.key.Some? {
          var _ := WriteProtocolErrorClose();
          rs := [ProtocolErrorClose];
          return;
        }
      }
      if frame.opcode == CONTINUATION {
        frame.opcode := handlerType;
      } else if frame.opcode == TEXT || frame.opcode == BINARY {
        handlerType := frame.opcode;
      } else if frame.opcode == CLOSE {
        return;
      } else if frame.opcode == PING || frame.opcode == PONG {
        err, rs := HandleControl(frame);
        return;
      }
      r, err := frame, NoError;
    }

    /** What a call does while no frame is open: parse the next header and handle the frame. */
    method NextFrame() returns (err: Error, ghost rs: seq<Reply>)
      requires Valid() && frameReader == null
      modifies this`frameReader, this`handlerType, src, writers, writers.out
      ensures Valid() && Answered(old(writers.sent), old(writers.out.broken), rs)
      ensures frameReader != null ==> fresh(frameReader)
      ensures match Judge(old(src.Rest()), Side())
        case Stop(replies, e) => err == e && rs == replies && frameReader == null
        case Skip(replies, after) =>
          && (err == NoError || (err == WriteFailed && writers.out.broken))
          && rs == replies && frameReader == null && src.Rest() == after && handlerType == old(handlerType)
        case Deliver(h, body) =>
          && err == NoError && rs == [] && frameReader != null
          && frameReader.header.length == frameReader.limit == h.length
          && frameReader.opcode == KindOf(h.opcode, old(handlerType))
          && frameReader.Remaining() == Unmasked(h, body)
          && frameReader.After() == Drop(body, h.length)
          && (frameReader.Ending() == if h.length <= |body| then EOF else src.end)
          && handlerType == NextKind(h.opcode, old(handlerType))
          && src.Rest() == body
    {
      ghost var s := src.Rest();
      rs := [];
      var frame;
      frame, err := NewFrameReader(src);
      if err != NoError {
        return;
      }
      var r;
      r, err, rs := HandleFrame(frame, s);
      frameReader := r;
    }

    /** NextFrame seen from outside: it takes the next frame off what is pending, and if that is a data frame
        it is the next message and now open. */
    method Advance() returns (err: Error, ghost rs: seq<Reply>)
      requires Valid() && frameReader == null
      modifies this`frameReader, this`handlerType, src, writers, writers.out
      ensures Valid() && Answered(old(writers.sent), old(writers.out.broken), rs)
      ensures frameReader != null ==> fresh(frameReader)
      ensures err == NoError || err == WriteFailed ==>
        && old(Pending()) == Prepend([], rs, Pending())
        && |src.Rest()| < |old(src.Rest())|
        && old(Inbox()) == (if frameReader == null then [] else [Opened()]) + Inbox()
      ensures err == WriteFailed ==> writers.out.broken
      ensures err != NoError ==> frameReader == null
      ensures err != NoError && err != WriteFailed ==>
        old(Pending()) == Meaning([], rs, err) && old(Inbox()) == [] && (err == EOF || err == src.end)
      ensures frameReader != null ==>
        && |frameReader.Remaining()| <= frameReader.header.length
        && (frameReader.Ending() == if |frameReader.Remaining()| == frameReader.header.length then EOF else src.end)
    {
      hide Judge, MeaningOf, MessagesOf, Answers;
      ReadingStep(src.Rest(), handlerType, Side());
      err, rs := NextFrame();
      PrependNothing(Pending());
    }

    /** The message whose frame has just been opened. */
    ghost function Opened(): Message
      reads this, src, frameReader
      requires src.Valid() && frameReader != null && frameReader.src == src && frameReader.Valid()
    {
      Message(frameReader.opcode, frameReader.header.length, frameReader.Remaining())
    }

    /** What Read does while a frame is open. EOF means that the frame is used up and has been put aside. */
    method ReadOpen(msg: array<byte>) returns (n: nat, err: Error)
      requires Valid() && frameReader != null
      modifies this`frameReader, src, frameReader, msg
      ensures Valid() && (frameReader == null || frameReader == old(frameReader))
      ensures n <= msg.Length && (err == NoError && msg.Length > 0 ==> n > 0)
      ensures err == NoError ==> old(Pending()) == Prepend(msg[..n], [], Pending())
      ensures err == EOF ==>
        n == 0 && frameReader == null && Pending() == old(Pending()) && src.Rest() == old(src.Rest())
      ensures err != NoError && err != EOF ==> n == 0 && err == src.end && old(Pending()) == Meaning([], [], err)
    {
      ghost var rest := MeaningOf(frameReader.After(), Side());
      ghost var left := frameReader.Remaining();
      NoMeaning(Side());
      n, err := frameReader.Read(msg, 0, msg.Length);
      assert left == msg[..n] + frameReader.Remaining();
      PrependTwice(msg[..n], [], frameReader.Remaining(), [], rest);
      PrependNothing(rest);
      if err == EOF {
        assert left == [] && frameReader.After() == src.Rest() == old(src.Rest());
        frameReader := null;
      } else if err != NoError {
        assert left == [] && frameReader.After() == [];
      }
    }

    /** Goes on to the next data frame and opens it; the control frames passed on the way are answered. */
    method OpenNext() returns (err: Error, ghost rs: seq<Reply>)
      requires Valid() && frameReader == null
      modifies this`frameReader, this`handlerType, src, writers, writers.out
      ensures Valid() && Answered(old(writers.sent), old(writers.out.broken), rs)
      ensures frameReader != null ==> fresh(frameReader)
      ensures err == NoError <==> frameReader != null
      ensures err == NoError || err == WriteFailed ==>
        && old(Pending()) == Prepend([], rs, Pending())
        && |src.Rest()| < |old(src.Rest())|
        && old(Inbox()) == (if frameReader == null then [] else [Opened()]) + Inbox()
      ensures err == WriteFailed ==> writers.out.broken
      ensures err != NoError && err != WriteFailed ==>
        old(Pending()) == Meaning([], rs, err) && old(Inbox()) == [] && (err == EOF || err == src.end)
      ensures frameReader != null ==>
        && |frameReader.Remaining()| <= frameReader.header.length
        && (frameReader.Ending() == if |frameReader.Remaining()| == frameReader.header.length then EOF else src.end)
    {
      hide MeaningOf, MessagesOf, Answers;
      rs := [];
      NoAnswers(writers.sent, server, writers.out.broken);
      PrependNothing(Pending());
      while true
        invariant Valid() && Answered(old(writers.sent), old(writers.out.broken), rs)
        invariant frameReader == null
        invariant old(Pending()) == Prepend([], rs, Pending()) && old(Inbox()) == Inbox()
        decreases |src.Rest()|
      {
        ghost var more;
        ghost var mid, broken := writers.sent, writers.out.broken;
        err, more := Advance();
        PrependTwice([], rs, [], more, Pending());
        AnswersAppend(old(writers.sent), mid, writers.sent, rs, more, broken, writers.out.broken, server);
        rs := rs + more;
        if err != NoError || frameReader != null {
          return;
        }
      }
    }

    /** One round of Read: open the next data frame if none is open, and read from it. */
    method ReadRound(msg: array<byte>) returns (n: nat, err: Error, ended: bool, ghost rs: seq<Reply>)
      requires Valid()
      modifies this`frameReader, this`handlerType, src, writers, writers.out, frameReader, msg
      ensures Valid() && Answered(old(writers.sent), old(writers.out.broken), rs)
      ensures frameReader != null ==> frameReader == old(frameReader) || fresh(frameReader)
      ensures n <= msg.Length && (err == NoError && msg.Length > 0 ==> n > 0)
      ensures err == NoError ==> old(Pending()) == Prepend(msg[..n], rs, Pending())
      ensures err == WriteFailed ==> n == 0 && writers.out.broken && old(Pending()) == Prepend([], rs, Pending())
      ensures err == EOF ==> n == 0
      ensures err == EOF && !ended ==>
        && frameReader == null && old(Pending()) == Prepend([], rs, Pending())
        && (|src.Rest()| < |old(src.Rest())| || (old(frameReader) != null && src.Rest() == old(src.Rest())))
      ensures err != NoError && err != WriteFailed && (err == EOF ==> ended) ==>
        n == 0 && old(Pending()) == Meaning([], rs, err)
    {
      hide MeaningOf, MessagesOf, Answers, Prepend;
      n, rs, ended := 0, [], false;
      NoAnswers(writers.sent, server, writers.out.broken);
      PrependNothing(Pending());
      if frameReader == null {
        err, rs := OpenNext();
        if err != NoError {
          ended := true;
          return;
        }
      }
      ghost var pending := Pending();
      n, err := ReadOpen(msg);
      PrependReplies(rs, msg[..n], Pending());
      PrependReplies(rs, [], pending);
    }

    /** Conn.Read: the bytes returned are the next of the data payloads, an error comes with no bytes and only
        at the end of them, and the control frames passed on the way are answered. */
    method Read(msg: array<byte>) returns (n: nat, err: Error, ghost rs: seq<Reply>)
      requires Valid()
      modifies this`frameReader, this`handlerType, src, writers, writers.out, frameReader, msg
      ensures Valid() && Answered(old(writers.sent), old(writers.out.broken), rs)
      ensures frameReader != null ==> frameReader == old(frameReader) || fresh(frameReader)
      ensures n <= msg.Length && (err == NoError && msg.Length > 0 ==> n > 0)
      ensures err == NoError ==> old(Pending()) == Prepend(msg[..n], rs, Pending())
      ensures err == WriteFailed ==> n == 0 && writers.out.broken && old(Pending()) == Prepend([], rs, Pending())
      ensures err != NoError && err != WriteFailed ==> n == 0 && old(Pending()) == Meaning([], rs, err)
    {
      hide MeaningOf, Answers;
      rs, n := [], 0;
      NoAnswers(writers.sent, server, writers.out.broken);
      PrependNothing(Pending());
      while true
        invariant Valid() && Answered(old(writers.sent), old(writers.out.broken), rs)
        invariant frameReader != null ==> frameReader == old(frameReader) || fresh(frameReader)
        invariant old(Pending()) == Prepend([], rs, Pending())
        decreases |src.Rest()|, if frameReader == null then 0 else 1
      {
        ghost var more;
        ghost var mid, broken := writers.sent, writers.out.broken;
        var ended;
        n, err, ended, more := ReadRound(msg);
        PrependTwice([], rs, msg[..n], more, Pending());
        AnswersAppend(old(writers.sent), mid, writers.sent, rs, more, broken, writers.out.broken, server);
        rs := rs + more;
        if err != EOF || ended {
          return;
        }
      }
    }

    function Limit(): int
      reads this
    {
      if maxPayloadBytes == 0 then DEFAULT_MAX_PAYLOAD_BYTES else maxPayloadBytes
    }

    /** Discards what is left of the frame that an earlier call has left open. */
    method DrainOpen() returns (err: Error)
      requires Valid()
      modifies this`frameReader, src, frameReader
      ensures Valid() && Inbox() == old(Inbox()) && Pending().replies == old(Pending()).replies
      ensures frameReader == null || frameReader == old(frameReader)
      ensures err == NoError ==> frameReader == null
      ensures err != NoError ==> err == src.end && err != EOF && Inbox() == [] && Pending().replies == []
    {
      hide MeaningOf, MessagesOf;
      err := NoError;
      if frameReader != null {
        ReadingStep([], handlerType, Side());
        err := Discard(frameReader);
        if err == NoError {
          frameReader := null;
        }
      }
    }

    /** Codec.Receive deals with the first message not yet dealt with: it is given to Unmarshal, or left open and
        refused for its size. Nothing happens to a message only at the end of the input, or when a reply on the way
        to it cannot be written. What is given is shorter than announced exactly if the input stops inside the next
        data frame, which is within the limit, and ends with EOF. */
    method Receive(unmarshal: (seq<byte>, byte) -> Error) returns (err: Error, what: Received, ghost rs: seq<Reply>)
      requires Valid()
      modifies this`frameReader, this`handlerType, src, writers, writers.out, frameReader
      ensures Valid() && Answered(old(writers.sent), old(writers.out.broken), rs)
      ensures frameReader != null ==> frameReader == old(frameReader) || fresh(frameReader)
      ensures what != Nothing ==>
        && old(Inbox()) != [] && Inbox() == old(Inbox())[1..]
        && what == Expected(old(Inbox())[0], Limit())
        && old(Pending()).replies == rs + Pending().replies
      ensures what == TooLarge ==>
        err == FrameTooLarge && frameReader != null && frameReader.Remaining() == old(Inbox())[0].payload
      ensures what.Given? ==> err == unmarshal(what.data, what.kind) && frameReader == null
      ensures what != Nothing || err != WriteFailed ==>
        ((what.Given? && |what.data| < old(Inbox())[0].length) <==>
          (CutShort(old(Behind()), Side()) && src.end == EOF
           && FirstData(old(Behind()), Side()).value.h.length <= Limit()))
      ensures what == Nothing ==> err == WriteFailed || err == EOF || err == src.end
      ensures what == Nothing && err == WriteFailed ==>
        writers.out.broken && Inbox() == old(Inbox()) && old(Pending()).replies == rs + Pending().replies
      ensures what == Nothing && err != WriteFailed ==>
        && old(Pending()).replies == rs
        && (old(Inbox()) == []
            || (src.end != EOF && old(Inbox())[0].length <= Limit()
                && |old(Inbox())[0].payload| < old(Inbox())[0].length))
    {
      hide MeaningOf, MessagesOf, Answers, FirstData, CutShort;
      what, rs := Nothing, [];
      FirstMessage(Behind(), handlerType, Side());
      CutHasFrame(Behind(), Side());
      NoAnswers(writers.sent, server, writers.out.broken);
      err := DrainOpen();
      if err != NoError {
        return;
      }
      err, rs := OpenNext();
      if err != NoError {
        return;
      }
      err, what := TakeOpened(unmarshal);
    }

    /** The rest of Receive, once a data frame has come. */
    method TakeOpened(unmarshal: (seq<byte>, byte) -> Error) returns (err: Error, what: Received)
      requires Valid() && frameReader != null
      requires |frameReader.Remaining()| <= frameReader.header.length
      requires frameReader.Ending() == if |frameReader.Remaining()| == frameReader.header.length then EOF else src.end
      modifies this`frameReader, src, frameReader
      ensures Valid() && Inbox() == old(Inbox()) && Pending().replies == old(Pending()).replies
      ensures frameReader == null || frameReader == old(frameReader)
      ensures old(Opened()).length > Limit() ==>
        && what == TooLarge && err == FrameTooLarge
        && frameReader != null && frameReader.Remaining() == old(Opened()).payload
      ensures old(Opened()).length <= Limit() ==> frameReader == null
      ensures old(Opened()).length <= Limit() && old(frameReader.Ending()) == EOF ==>
        what == Given(old(Opened()).payload, old(Opened()).kind) && err == unmarshal(what.data, what.kind)
      ensures old(Opened()).length <= Limit() && old(frameReader.Ending()) != EOF ==>
        && what == Nothing && err == src.end
        && Pending().replies == [] && |old(Opened()).payload| < old(Opened()).length
    {
      hide MeaningOf, MessagesOf, Prepend, Mask, Take, Drop;
      var frame := frameReader;
      what := Nothing;
      PrependKeepsReplies(frame.Remaining(), MeaningOf(frame.After(), Side()));
      if frame.header.length > Limit() {
        return FrameTooLarge, TooLarge;
      }
      frameReader := null;
      var kind := frame.opcode;
      NoMeaning(Side());
      var data;
      data, err := ReadAll(frame);
      if err == NoError {
        what, err := Given(data, kind), unmarshal(data, kind);
      }
    }
  }

  // ---------------------------------------------------------------- whole runs

  /** A call of Read with a buffer of any positive size. */
  method ReadChunk(ws: Conn) returns (chunk: seq<byte>, err: Error, ghost rs: seq<Reply>)
    requires ws.Valid()
    modifies ws`frameReader, ws`handlerType, ws.src, ws.writers, ws.writers.out, ws.frameReader
    ensures ws.Valid() && ws.Answered(old(ws.writers.sent), old(ws.writers.out.broken), rs)
    ensures ws.frameReader != null ==> ws.frameReader == old(ws.frameReader) || fresh(ws.frameReader)
    ensures err == NoError || err == WriteFailed ==> old(ws.Pending()) == Prepend(chunk, rs, ws.Pending())
    ensures err == NoError ==> chunk != []
    ensures err == WriteFailed ==> ws.writers.out.broken
    ensures err != NoError && err != WriteFailed ==> chunk == [] && old(ws.Pending()) == Meaning([], rs, err)
  {
    hide MeaningOf, Answers;
    var size: nat :| size > 0;
    var msg := new byte[size];
    var n;
    n, err, rs := ws.Read(msg);
    chunk := msg[..n];
  }

  /** Any client that reads until the first error, into buffers of any positive sizes it likes, gets the data
      of the stream in order, and the replies the stream calls for have been sent. */
  method ReadToError(ws: Conn) returns (data: seq<byte>, err: Error, ghost rs: seq<Reply>)
    requires ws.Valid()
    modifies ws`frameReader, ws`handlerType, ws.src, ws.writers, ws.writers.out, ws.frameReader
    ensures ws.Valid() && ws.Answered(old(ws.writers.sent), old(ws.writers.out.broken), rs)
    ensures err != NoError
    ensures err != WriteFailed ==> old(ws.Pending()) == Meaning(data, rs, err)
    ensures err == WriteFailed ==> ws.writers.out.broken && old(ws.Pending()) == Prepend(data, rs, ws.Pending())
  {
    hide MeaningOf, Answers;
    data, err, rs := [], NoError, [];
    NoAnswers(ws.writers.sent, ws.server, ws.writers.out.broken);
    PrependNothing(ws.Pending());
    while err == NoError
      invariant ws.Valid() && ws.Answered(old(ws.writers.sent), old(ws.writers.out.broken), rs)
      invariant ws.frameReader != null ==> ws.frameReader == old(ws.frameReader) || fresh(ws.frameReader)
      invariant err == NoError || err == WriteFailed ==> old(ws.Pending()) == Prepend(data, rs, ws.Pending())
      invariant err == WriteFailed ==> ws.writers.out.broken
      invariant err != NoError && err != WriteFailed ==> old(ws.Pending()) == Meaning(data, rs, err)
      decreases if err == NoError then 1 + |ws.Pending().data| else 0
    {
      ghost var mid, broken := ws.writers.sent, ws.writers.out.broken;
      var chunk;
      ghost var more;
      chunk, err, more := ReadChunk(ws);
      PrependTwice(data, rs, chunk, more, ws.Pending());
      PrependLast(data, rs, more, err);
      AnswersAppend(old(ws.writers.sent), mid, ws.writers.sent, rs, more, broken, ws.writers.out.broken, ws.server);
      data, rs := data + chunk, rs + more;
    }
  }

  /** The same on a fresh connection over whole frames that are masked as its side demands: the bytes read are
      the data payloads, in order, and each ping has had its pong. */
  method ReadFrames(server: bool, end: Error, ghost fs: seq<WireFrame>, input: seq<byte>)
    returns (ws: Conn, data: seq<byte>, err: Error)
    requires Receivable(fs, server) && input == EncodeAll(fs)
    requires end == EOF || end == NetFailed
    ensures fresh(ws) && ws.Valid()
    ensures err != WriteFailed ==> data == DataOf(fs) && err == if Closes(fs) then EOF else end
    ensures err != WriteFailed ==> Answers(ws.writers.sent, PongsOf(fs), server, ws.writers.out.broken)
  {
    hide MeaningOf;
    var src := new Source(input, end);
    var out := new Sink();
    ws := new Conn(server, src, out);
    MeaningOfFrames(fs, ws.Side());
    ghost var rs;
    data, err, rs := ReadToError(ws);
    assert ws.writers.sent[0..] == ws.writers.sent;
  }

  /** What a run of Receive has done with the messages so far. */
  predicate DealtWith(log: seq<Received>, inbox: seq<Message>, limit: int) {
    |log| <= |inbox| && forall k :: 0 <= k < |log| ==> log[k] == Expected(inbox[k], limit)
  }

  lemma DealtWithMore(log: seq<Received>, inbox: seq<Message>, limit: int, rest: seq<Message>, what: Received)
    requires DealtWith(log, inbox, limit) && rest == inbox[|log|..]
    requires rest != [] && what == Expected(rest[0], limit)
    ensures DealtWith(log + [what], inbox, limit) && rest[1..] == inbox[|log| + 1..]
  {
  }

  /** A call of Receive, by what it does to the messages. */
  method ReceiveOne(ws: Conn, unmarshal: (seq<byte>, byte) -> Error)
    returns (err: Error, what: Received, ghost rs: seq<Reply>)
    requires ws.Valid()
    modifies ws`frameReader, ws`handlerType, ws.src, ws.writers, ws.writers.out, ws.frameReader
    ensures ws.Valid() && ws.Answered(old(ws.writers.sent), old(ws.writers.out.broken), rs)
    ensures ws.frameReader != null ==> ws.frameReader == old(ws.frameReader) || fresh(ws.frameReader)
    ensures what != Nothing ==>
      && old(ws.Inbox()) != [] && ws.Inbox() == old(ws.Inbox())[1..]
      && what == Expected(old(ws.Inbox())[0], ws.Limit())
    ensures what == Nothing && err == WriteFailed ==> ws.writers.out.broken
    ensures what == Nothing && err != WriteFailed && old(ws.Inbox()) != [] ==>
      ws.src.end != EOF && |old(ws.Inbox())[0].payload| < old(ws.Inbox())[0].length
  {
    hide *;
    err, what, rs := ws.Receive(unmarshal);
  }

  /** Up to n calls of Receive: the k-th deals with the k-th message and no other, whatever the sizes. The run
      stops early only when a reply cannot be written, or the input has no further message, whole or refused. */
  method ReceiveRun(ws: Conn, unmarshal: (seq<byte>, byte) -> Error, n: nat)
    returns (log: seq<Received>, err: Error, ghost rs: seq<Reply>)
    requires ws.Valid()
    modifies ws`frameReader, ws`handlerType, ws.src, ws.writers, ws.writers.out, ws.frameReader
    ensures ws.Valid() && ws.Answered(old(ws.writers.sent), old(ws.writers.out.broken), rs)
    ensures |log| <= n && |log| <= |old(ws.Inbox())| && ws.Limit() == old(ws.Limit())
    ensures forall k :: 0 <= k < |log| ==> log[k] == Expected(old(ws.Inbox())[k], ws.Limit())
    ensures |log| < n && err != WriteFailed && |log| < |old(ws.Inbox())| ==>
      ws.src.end != EOF && |old(ws.Inbox())[|log|].payload| < old(ws.Inbox())[|log|].length
    ensures err == WriteFailed && |log| < n ==> ws.writers.out.broken
  {
    hide MeaningOf, MessagesOf, Answers, Expected, FirstData, CutShort;
    log, err, rs := [], NoError, [];
    ghost var inbox, limit := ws.Inbox(), ws.Limit();
    NoAnswers(ws.writers.sent, ws.server, ws.writers.out.broken);
    while |log| < n
      invariant ws.Valid() && ws.Answered(old(ws.writers.sent), old(ws.writers.out.broken), rs)
      invariant ws.frameReader != null ==> ws.frameReader == old(ws.frameReader) || fresh(ws.frameReader)
      invariant |log| <= n && DealtWith(log, inbox, limit) && ws.Inbox() == inbox[|log|..]
    {
      ghost var mid, broken, rest := ws.writers.sent, ws.writers.out.broken, ws.Inbox();
      var what;
      ghost var more;
      err, what, more := ReceiveOne(ws, unmarshal);
      AnswersAppend(old(ws.writers.sent), mid, ws.writers.sent, rs, more, broken, ws.writers.out.broken, ws.server);
      rs := rs + more;
      if what == Nothing {
        return;
      }
      DealtWithMore(log, inbox, limit, rest, what);
      log := log + [what];
    }
  }

  /** The same on a fresh connection over whole frames: the k-th call deals with the k-th data frame. */
  method ReceiveFrames(server: bool, end: Error, ghost fs: seq<WireFrame>, input: seq<byte>, max: int,
                       unmarshal: (seq<byte>, byte) -> Error, n: nat) returns (ws: Conn, log: seq<Received>, err: Error)
    requires Receivable(fs, server) && input == EncodeAll(fs)
    requires end == EOF || end == NetFailed
    ensures fresh(ws) && ws.Valid() && ws.maxPayloadBytes == max
    ensures forall k :: 0 <= k < |log| ==>
      k < |DataFramesOf(fs, 0)| && log[k] == Expected(DataFramesOf(fs, 0)[k], ws.Limit())
    ensures err != WriteFailed ==> |log| == Min(n, |DataFramesOf(fs, 0)|)
  {
    hide MeaningOf, MessagesOf;
    var src := new Source(input, end);
    var out := new Sink();
    ws := new Conn(server, src, out);
    ws.maxPayloadBytes := max;
    MessagesOfFrames(fs, 0, ws.Side());
    DataFramesWhole(fs, 0);
    ghost var rs;
    log, err, rs := ReceiveRun(ws, unmarshal, n);
  }
}
