/** hybiFrameWriter and its factory: one frame goes out with each call. */
module FrameWriter {
  import opened Bytes
  import opened Frames
  import opened Io
  import opened Wrappers

  /** The header of a frame about to be written (hybiFrameHeader without what only the reader uses). */
  datatype WriterHeader = WriterHeader(fin: bool, rsv: Rsv, opcode: byte, key: Option<seq<byte>>)

  function FrameOf(h: WriterHeader, msg: seq<byte>): Frame {
    Frame(h.fin, h.rsv, h.opcode, h.key, msg)
  }

  /** How the wire may have grown when all of p was to be sent: wholly if the sink still works, by a prefix
      of p otherwise, and not at all if it was broken before. */
  twostate predicate Sent(out: Sink, p: seq<byte>)
    reads out
  {
    && old(out.wire) <= out.wire <= old(out.wire) + p
    && (!out.broken ==> out.wire == old(out.wire) + p)
    && (old(out.broken) ==> out.broken && out.wire == old(out.wire))
  }

  /** The flag bits set once the first i reserved bits have been looked at. */
  function Flags(fin: bool, rsv: Rsv, i: nat): byte
    requires i <= 3
  {
    var f: byte := if fin then 0x80 else 0;
    if i == 0 then f
    else if i == 1 then f | RsvBit(rsv, 0)
    else if i == 2 then f | RsvBit(rsv, 0) | RsvBit(rsv, 1)
    else f | RsvBit(rsv, 0) | RsvBit(rsv, 1) | RsvBit(rsv, 2)
  }

  method ShiftedOne(j: nat) returns (b: byte)
    requires 4 <= j <= 6
    ensures b == if j == 6 then 0x40 else if j == 5 then 0x20 else 0x10
  {
    b := 1 << j;
  }

  method FlagByte(h: WriterHeader) returns (b: byte)
    ensures b == FirstByte(h.fin, h.rsv, h.opcode)
  {
    b := 0;
    if h.fin {
      b := b | 0x80;
    }
    for i := 0 to 3
      invariant b == Flags(h.fin, h.rsv, i)
    {
      if h.rsv[i] {
        var bit := ShiftedOne(6 - i);
        b := b | bit;
      }
    }
    b := b | h.opcode;
  }

  /** The length bytes, the most significant first: byte i is length >> 8 * (lengthFields - i - 1). */
  method LengthBytes(length: nat, lengthFields: nat) returns (s: seq<byte>)
    ensures s == ToBigEndian(length, lengthFields)
  {
    s := [];
    for i := 0 to lengthFields
      invariant s == ToBigEndian(length, lengthFields)[..i]
    {
      var b := ByteOf((length / Pow256(lengthFields - i - 1)) % 256);
      ToBigEndianAt(length, lengthFields, i);
      s := s + [b];
    }
  }

  method MaskedCopy(key: seq<byte>, msg: seq<byte>) returns (data: array<byte>)
    requires |key| == 4
    ensures fresh(data) && data[..] == Mask(Some(key), 0, msg)
    ensures data.Length == |msg| && forall i :: 0 <= i < |msg| ==> data[i] == msg[i] ^ key[i % 4]
  {
    data := new byte[|msg|];
    for i := 0 to data.Length
      invariant forall k :: 0 <= k < i ==> data[k] == msg[k] ^ KeyAt(key, k)
    {
      data[i] := msg[i] ^ key[i % 4];
    }
  }

  /** The first two bytes and the extended length. */
  method LengthHeader(h: WriterHeader, length: nat) returns (header: seq<byte>)
    ensures header == [FirstByte(h.fin, h.rsv, h.opcode), SecondByte(h.key.Some?, length)]
                   + ToBigEndian(length, LengthFields(length))
  {
    var b := FlagByte(h);
    header := [b];
    b := if h.key.Some? then 0x80 else 0;
    var lengthFields := 0;
    if length <= 125 {
      b := b | ByteOf(length);
    } else if length < 65536 {
      b := b | 126;
      lengthFields := 2;
    } else {
      b := b | 127;
      lengthFields := 8;
    }
    assert b == SecondByte(h.key.Some?, length) && lengthFields == LengthFields(length);
    header := header + [b];
    var ext := LengthBytes(length, lengthFields);
    header := header + ext;
  }

  /** hybiFrameWriter.Write: a key of the wrong size writes nothing; otherwise the encoded frame goes out, or a
      prefix of it on a sink that breaks, and nothing on one that was broken. */
  method WriteFrame(out: Sink, h: WriterHeader, msg: seq<byte>) returns (n: nat, err: Error)
    requires |msg| < INT64_LIMIT
    modifies out
    ensures h.key.Some? && |h.key.value| != 4 ==>
      n == 0 && err == BadMaskingKey && out.wire == old(out.wire) && out.broken == old(out.broken)
    ensures h.key.None? || |h.key.value| == 4 ==>
      n == |msg| && (err == if out.broken then WriteFailed else NoError) && Sent(out, Encode(FrameOf(h, msg)))
  {
    var header := LengthHeader(h, |msg|);
    if h.key.Some? {
      if |h.key.value| != 4 {
        return 0, BadMaskingKey;
      }
      header := header + h.key.value;
      var data := MaskedCopy(h.key.value, msg);
      err := WriteBoth(out, header, data[..]);
      return |msg|, err;
    }
    assert header + [] == header;
    err := WriteBoth(out, header, msg);
    return |msg|, err;
  }

  method WriteBoth(out: Sink, header: seq<byte>, data: seq<byte>) returns (err: Error)
    modifies out
    ensures err == if out.broken then WriteFailed else NoError
    ensures Sent(out, header + data)
  {
    ghost var was := out.wire;
    out.Write(header);
    assert was + (header + data) == (was + header) + data;
    out.Write(data);
    err := out.Flush();
  }

  /** hybiFrameWriterFactory over its buffered writer, with the frames that have gone out through it. */
  class Writers {
    const needMaskingKey: bool
    const out: Sink
    ghost var sent: seq<WireFrame>      // frames put whole on the wire, in order
    ghost var partial: seq<byte>        // what a failed write left behind them

    ghost predicate Valid()
      reads this, out
    {
      && out.wire == EncodeAll(sent) + partial
      && (partial != [] ==> out.broken)
    }

    constructor (out: Sink, needMaskingKey: bool)
      requires out.wire == [] && !out.broken
      ensures Valid() && this.out == out && this.needMaskingKey == needMaskingKey && sent == []
    {
      this.out, this.needMaskingKey := out, needMaskingKey;
      sent, partial := [], [];
    }

    /** generateMaskingKey, when the side of the connection calls for one. */
    method NewKey() returns (key: Option<seq<byte>>)
      ensures key.Some? == needMaskingKey && (key.Some? ==> |key.value| == 4)
    {
      key := None;
      if needMaskingKey {
        assert |[0 as byte, 0, 0, 0]| == 4;
        var k: seq<byte> :| |k| == 4;
        key := Some(k);
      }
    }

    /** NewFrameWriter and one Write on it: one whole frame goes out with a fresh key, unless the sink breaks. */
    method SendFrame(opcode: byte, msg: seq<byte>) returns (err: Error, ghost f: WireFrame)
      requires Valid() && |msg| < INT64_LIMIT
      modifies this, out
      ensures Valid() && (old(out.broken) ==> out.broken)
      ensures f.fin && f.rsv == [false, false, false] && f.opcode == opcode && f.payload == msg
      ensures f.key.Some? == needMaskingKey
      ensures err == if out.broken then WriteFailed else NoError
      ensures sent == if out.broken then old(sent) else old(sent) + [f]
    {
      var key := NewKey();
      var h := WriterHeader(true, [false, false, false], opcode, key);
      f := FrameOf(h, msg);
      var n;
      n, err := WriteFrame(out, h, msg);
      ghost var whole := EncodeAll(sent);
      assert old(out.wire) == whole + old(partial);
      if out.broken {
        SplitPrefix(whole, old(out.wire), out.wire);
        partial := out.wire[|whole|..];
      } else {
        assert old(partial) == [] && old(out.wire) == whole;
        EncodeAllSnoc(sent, f);
        sent := sent + [f];
      }
    }
  }

  lemma SplitPrefix(a: seq<byte>, b: seq<byte>, c: seq<byte>)
    requires a <= b <= c
    ensures c == a + c[|a|..]
  {
  }

  lemma EncodeAllSnoc(fs: seq<WireFrame>, f: WireFrame)
    ensures EncodeAll(fs + [f]) == EncodeAll(fs) + Encode(f)
  {
    EncodeAllAppend(fs, [f]);
    assert EncodeAll([f]) == Encode(f) + EncodeAll([]);
  }
}
