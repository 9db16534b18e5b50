/** Byte streams that deliver and accept data in pieces of any size. */
module ByteStreams {
  import opened Basics

  /** The transport: what the peer will still send, and what has been sent to it. */
  class Transport {
    var unread: seq<Byte>
    var wire: seq<Byte>

    constructor (bytes: seq<Byte>)
      ensures unread == bytes && wire == []
    {
      unread, wire := bytes, [];
    }

    /** Delivers some non-empty piece of at most `max` bytes, or nothing at the end of the stream. */
    method Read(max: nat) returns (chunk: seq<Byte>)
      requires max > 0
      modifies this`unread
      ensures chunk + unread == old(unread)
      ensures |chunk| <= max && (chunk == [] <==> old(unread) == [])
    {
      if unread == [] {
        return [];
      }
      var n :| 1 <= n <= max && n <= |unread|;
      chunk, unread := unread[..n], unread[n..];
    }

    /** Takes some non-empty prefix of a non-empty buffer. */
    method Write(buffer: seq<Byte>) returns (n: nat)
      modifies this`wire
      ensures n <= |buffer| && (n == 0 <==> buffer == [])
      ensures wire == old(wire) + buffer[..n]
    {
      if buffer == [] {
        return 0;
      }
      n :| 1 <= n <= |buffer|;
      wire := wire + buffer[..n];
    }

    method WriteAll(buffer: seq<Byte>)
      modifies this`wire
      ensures wire == old(wire) + buffer
    {
      var done := 0;
      while done < |buffer|
        invariant done <= |buffer| && wire == old(wire) + buffer[..done]
      {
        var n := Write(buffer[done..]);
        assert buffer[..done] + buffer[done..][..n] == buffer[..done + n];
        done := done + n;
      }
      assert buffer[..done] == buffer;
    }
  }
}
