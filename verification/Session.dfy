/** One client connection on the receiver, with its receive buffer updated in place. */
module Sessions {
  import opened Bytes
  import opened Wrappers
  import opened Wire
  import opened Streaming

  class Session {
    const recvBuf: array<byte>
    var recvLen: nat

    ghost predicate Valid()
      reads this
    {
      recvBuf.Length == RECV_CAP && recvLen <= RECV_CAP
    }

    function Buffered(): seq<byte>
      requires Valid()
      reads this, recvBuf
    {
      recvBuf[..recvLen]
    }

    constructor ()
      ensures Valid() && fresh(recvBuf) && Buffered() == []
    {
      recvBuf := new byte[RECV_CAP](_ => 0);
      recvLen := 0;
    }

    /** memmove of the octets after the first n to the front. */
    method Consume(n: nat)
      requires Valid() && n <= recvLen
      modifies this`recvLen, recvBuf
      ensures Valid() && Buffered() == old(Buffered())[n..]
    {
      var remaining := recvLen - n;
      forall i | 0 <= i < remaining { recvBuf[i] := recvBuf[n + i]; }
      recvLen := remaining;
    }

    method Accept(chunk: seq<byte>)
      requires Valid() && recvLen + |chunk| <= RECV_CAP
      modifies this`recvLen, recvBuf
      ensures Valid() && Buffered() == old(Buffered()) + chunk
    {
      forall i | 0 <= i < |chunk| { recvBuf[recvLen + i] := chunk[i]; }
      recvLen := recvLen + |chunk|;
    }

    /** Returns 1 with a message, 0 when more octets are needed, -1 on overflow or a bad frame. */
    method ProtocolDecode(c: Codec, chunk: seq<byte>) returns (rc: int, msg: Option<Msg>)
      requires Valid()
      modifies this`recvLen, recvBuf
      ensures Valid()
      ensures old(recvLen) + |chunk| > RECV_CAP ==> rc == -1 && Buffered() == old(Buffered())
      ensures old(recvLen) + |chunk| <= RECV_CAP ==>
                var s := old(Buffered()) + chunk;
                match DecodeOne(c, s)
                case NeedMore => rc == 0 && Buffered() == s
                case Bad => rc == -1
                case Got(m, used) => rc == 1 && msg == Some(m) && Buffered() == s[used..]
    {
      msg := None;
      if chunk != [] {
        if recvLen + |chunk| > RECV_CAP { return -1, None; }
        Accept(chunk);
      }
      ghost var s := old(Buffered()) + chunk;
      assert Buffered() == s;
      if recvLen < 4 { return 0, None; }
      var frameLen := FromBE(recvBuf[..4]);
      assert s[..4] == recvBuf[..4];
      if frameLen > FRAME_MAX { return -1, None; }
      var needed := 4 + frameLen;
      if recvLen < needed { return 0, None; }
      assert s[4..needed] == recvBuf[4..needed];
      msg := ParseBody(c, recvBuf[4..needed]);
      rc := if msg.Some? then 1 else -1;
      Consume(needed);
    }
  }
}
