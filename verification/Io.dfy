/** The two directions of a connection as the WebSocket code sees them. */
module Io {
  import opened Bytes

  datatype Error =
    | NoError
    | EOF
    | UnexpectedEOF
    | NetFailed
    | WriteFailed
    | BadMaskingKey
    | FrameTooLarge
    | BadMessage

  function Min(a: nat, b: nat): nat {
    if a <= b then a else b
  }

  function Take(s: seq<byte>, n: nat): (r: seq<byte>)
    ensures |r| == Min(n, |s|)
  {
    s[..Min(n, |s|)]
  }

  function Drop(s: seq<byte>, n: nat): (r: seq<byte>)
    ensures |r| == |s| - Min(n, |s|)
  {
    s[Min(n, |s|)..]
  }

  /** The buffered reader over the socket: every byte the peer will ever send, how much of it has been
      read, and the error that every read gives once there is none left. */
  class Source {
    const input: seq<byte>
    const end: Error
    var cur: nat

    ghost predicate Valid()
      reads this
    {
      cur <= |input| && (end == EOF || end == NetFailed)
    }

    ghost function Rest(): seq<byte>
      reads this
      requires Valid()
    {
      input[cur..]
    }

    constructor (input: seq<byte>, end: Error)
      requires end == EOF || end == NetFailed
      ensures Valid() && Rest() == input && this.end == end
    {
      this.input, this.end, cur := input, end, 0;
    }

    method ReadByte() returns (b: byte, err: Error)
      requires Valid()
      modifies this
      ensures Valid()
      ensures old(Rest()) == [] ==> err == end && Rest() == []
      ensures old(Rest()) != [] ==> err == NoError && old(Rest()) == [b] + Rest()
    {
      if cur == |input| {
        return 0, end;
      }
      b, err, cur := input[cur], NoError, cur + 1;
    }

    /** Fills some of msg[lo..hi]: the transport decides how much, but never nothing while there is room
        and input. An error comes with no data. */
    method Read(msg: array<byte>, lo: nat, hi: nat) returns (n: nat, err: Error)
      requires Valid() && lo <= hi <= msg.Length
      modifies this, msg
      ensures Valid()
      ensures n <= hi - lo && old(Rest()) == msg[lo..lo + n] + Rest()
      ensures msg[..lo] == old(msg[..lo]) && msg[lo + n..] == old(msg[lo + n..])
      ensures err == if lo < hi && old(Rest()) == [] then end else NoError
      ensures lo < hi && old(Rest()) != [] ==> n > 0
    {
      if lo == hi {
        return 0, NoError;
      }
      if cur == |input| {
        return 0, end;
      }
      var k: nat :| 0 < k <= hi - lo && k <= |input| - cur;
      forall i | 0 <= i < k {
        msg[lo + i] := input[cur + i];
      }
      assert msg[lo..lo + k] == input[cur..cur + k];
      n, err, cur := k, NoError, cur + k;
    }
  }

  /** The buffered writer over the socket. Once a write fails every later one fails too, and nothing more
      reaches the wire. */
  class Sink {
    var wire: seq<byte>
    var broken: bool

    constructor ()
      ensures wire == [] && !broken
    {
      wire, broken := [], false;
    }

    method Write(p: seq<byte>)
      modifies this
      ensures old(broken) ==> broken && wire == old(wire)
      ensures !broken ==> wire == old(wire) + p
      ensures old(wire) <= wire <= old(wire) + p
    {
      if !broken {
        var k: nat :| k <= |p|;
        wire, broken := wire + p[..k], k < |p|;
        assert old(wire) + p == wire + p[k..];
      }
    }

    method Flush() returns (err: Error)
      modifies this
      ensures wire == old(wire) && (old(broken) ==> broken)
      ensures err == if broken then WriteFailed else NoError
    {
      var fails: bool :| true;
      broken := broken || fails;
      err := if broken then WriteFailed else NoError;
    }
  }
}
