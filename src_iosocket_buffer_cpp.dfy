/**
 * src/IOSocketBuffer.cpp: the stream buffer over the unframed connection of
 * include/Network.h.  It keeps no put or get area: every operation is one
 * `sendBytes` or `receiveBytes` call, whose count and end-of-stream flag the
 * buffer records.  The class declaration (a header of its own) is not part
 * of this model; its two recorded fields are `int` and `bool`.
 */
module SrcIOSocketBufferCpp {
  import opened Bytes
  import opened Socket
  import opened IncludeNetwork

  /**
   * What one buffer operation leaves behind: the peer, the look-ahead queue,
   * the returned value (or the exception), `lastPacketSize` and `endOfStream`.
   */
  datatype Op = Op(state: PeerState, queue: seq<seq<byte>>, result: Outcome<int>, last: int, endOfStream: bool)

  /** Record a `sendBytes` call: its count and flag, and eof as the result on end of stream. */
  function AfterSendBytes(queue: seq<seq<byte>>, last: int, o: Sent, value: int): Op {
    if !o.result.Done? then Op(o.state, queue, Thrown, last, false)
    else Op(o.state, queue, Done(if o.endOfStream then EOF else value), o.result.value, o.endOfStream)
  }

  /**
   * `overflow(ch)`: the low byte of `ch` goes out through `sendBytes`, raw and
   * without a length prefix; the result is eof on end of stream, else 0.
   */
  function OverflowSpec(s: PeerState, queue: seq<seq<byte>>, last: int, ch: int): (r: Op)
    ensures r.result == Thrown || r.result == Done(0) || r.result == Done(EOF)
    ensures r.endOfStream <==> r.result == Done(EOF)
    ensures r.result == Done(0) ==> r.state.outgoing == s.outgoing + [Truncate(ch)] && r.last == 1
    ensures r.result == Thrown ==> r.last == last
    ensures r.queue == queue && r.state.incoming == s.incoming
  {
    var o := SendLoop(s, [Truncate(ch)], 0);
    SendLoopAppends(s, [Truncate(ch)], 0);
    AfterSendBytes(queue, last, o, 0)
  }

  /**
   * `xsputn(s, count)`: the bytes go out through `sendBytes`, raw; the result
   * is eof on end of stream (always so for `count == 0`), else the count.
   */
  function XsputnSpec(s: PeerState, queue: seq<seq<byte>>, last: int, data: seq<byte>): (r: Op)
    ensures r.result == Thrown || r.result == Done(EOF) || r.result == Done(|data|)
    ensures r.endOfStream <==> r.result == Done(EOF)
    ensures r.result == Done(|data|) ==> |data| > 0 && r.state.outgoing == s.outgoing + data && r.last == |data|
    ensures r.result == Done(EOF) ==> 0 <= r.last <= |data| && r.state.outgoing == s.outgoing + data[..r.last]
    ensures r.queue == queue && r.state.incoming == s.incoming
  {
    var o := SendLoop(s, data, 0);
    SendLoopAppends(s, data, 0);
    AfterSendBytes(queue, last, o, if o.result.Done? then o.result.value else 0)
  }

  /** Record a `receiveBytes` call the same way. */
  function AfterReceiveBytes(last: int, f: Fetched, value: int): Op {
    if !f.result.Done? then Op(f.state, f.queue, Thrown, last, false)
    else Op(f.state, f.queue, Done(if f.endOfStream then EOF else value), f.result.value, f.endOfStream)
  }

  /**
   * `underflow()`: one byte through `receiveBytes`, which consumes it; the
   * result is eof on end of stream, else the byte as a signed `char` widened
   * to `int`.
   */
  function UnderflowSpec(s: PeerState, queue: seq<seq<byte>>, last: int): (r: Op)
    requires TotalLength(queue) <= 1
    ensures r.result == Thrown || r.result == Done(EOF) || (r.result.Done? && -128 <= r.result.value < 128)
    ensures r.endOfStream ==> r.result == Done(EOF)
    ensures r.result.Done? && !r.endOfStream ==>
      var stream := Concat(queue) + s.incoming;
      r.last == 1 && stream != [] && r.result.value == SignedChar(stream[0]) && r.state.incoming + Concat(r.queue) == stream[1..]
  {
    var f := ReceiveSpec(s, queue, 1);
    if f.result.Done? && !f.endOfStream then
      assert |f.bytes| == 1;
      AfterReceiveBytes(last, f, SignedChar(f.bytes[0]))
    else
      AfterReceiveBytes(last, f, 0)
  }

  /**
   * `xsgetn(s, count)`: up to `count` bytes through `receiveBytes` (the queue,
   * then one `recv`); the result is eof on end of stream, else the count.
   */
  function XsgetnSpec(s: PeerState, queue: seq<seq<byte>>, last: int, count: nat): (r: Op)
    requires TotalLength(queue) <= count
    ensures r.endOfStream ==> r.result == Done(EOF)
    ensures r.result.Done? && !r.endOfStream ==> r.result.value == r.last
    ensures r.result == Thrown ==> r.last == last && Concat(queue) == [] && count > 0
  {
    var f := ReceiveSpec(s, queue, count);
    AfterReceiveBytes(last, f, if f.result.Done? then f.result.value else 0)
  }

  /** The bytes `xsgetn` stores: the queue, front first, then what the one `recv` delivered. */
  function XsgetnBytes(s: PeerState, queue: seq<seq<byte>>, count: nat): (got: seq<byte>)
    requires TotalLength(queue) <= count
    ensures Concat(queue) <= got && |got| <= count
    ensures got <= Concat(queue) + s.incoming
  {
    var f := ReceiveSpec(s, queue, count);
    assert f.bytes + f.state.incoming == Concat(queue) + s.incoming;
    f.bytes
  }

  /**
   * The byte 0xFF, read by `underflow` on a live connection, comes back as
   * the value of eof, which the caller cannot tell from the end of the stream.
   */
  lemma ByteFFReadsAsEof(s: PeerState)
    requires s.incoming != [] && s.incoming[0] == 0xFF
    requires s.script != [] && s.script[0] > 0
    ensures UnderflowSpec(s, [], 0).result == Done(EOF) && !UnderflowSpec(s, [], 0).endOfStream
  {
    assert RecvResult(s, 1) == 1;
  }

  /** A write of one byte, to a peer that takes it, puts exactly that byte on the wire. */
  lemma OverflowSendsOneRawByte(s: PeerState, ch: int)
    requires s.script != [] && s.script[0] > 0
    ensures var r := OverflowSpec(s, [], 0, ch);
      r.result == Done(0) && r.state.outgoing == s.outgoing + [Truncate(ch)]
  {
    assert SendResult(s, 1) == 1;
  }

  /** A write of nothing reports eof even though the connection is open. */
  lemma EmptyWriteReportsEof(s: PeerState, queue: seq<seq<byte>>, last: int)
    requires s.script != [] && s.script[0] >= 0
    ensures XsputnSpec(s, queue, last, []).result == Done(EOF)
  {
    EmptySendCallsOnce(s);
  }

  class IOSocketBuffer {
    const network: Network
    var lastPacketSize: int
    var endOfStream: bool

    /** The constructors that take a socket, an address or a network subclass all just keep the network. */
    constructor (network: Network)
      ensures this.network == network
    {
      this.network := network;
    }

    method Overflow(ch: int) returns (r: Outcome<int>)
      modifies this, network.socket
      ensures Op(network.socket.State(), network.buffers, r, lastPacketSize, endOfStream)
           == OverflowSpec(old(network.socket.State()), old(network.buffers), old(lastPacketSize), ch)
    {
      var data := Truncate(ch);
      var sent, eos := network.SendBytes([data]);
      endOfStream := eos;
      if sent.Thrown? {
        return Thrown;
      }
      lastPacketSize := sent.value;
      r := Done(if endOfStream then EOF else 0);
    }

    method Underflow() returns (r: Outcome<int>)
      requires TotalLength(network.buffers) <= 1
      modifies this, network, network.socket
      ensures Op(network.socket.State(), network.buffers, r, lastPacketSize, endOfStream)
           == UnderflowSpec(old(network.socket.State()), old(network.buffers), old(lastPacketSize))
    {
      ghost var f := ReceiveSpec(network.socket.State(), network.buffers, 1);
      var received, data, eos := network.ReceiveBytes(1);
      endOfStream := eos;
      if received.Thrown? {
        return Thrown;
      }
      lastPacketSize := received.value;
      if endOfStream {
        return Done(EOF);
      }
      assert |data| == 1;
      r := Done(SignedChar(data[0]));
    }

    method Xsputn(data: seq<byte>) returns (r: Outcome<int>)
      requires |data| < TWO_31
      modifies this, network.socket
      ensures Op(network.socket.State(), network.buffers, r, lastPacketSize, endOfStream)
           == XsputnSpec(old(network.socket.State()), old(network.buffers), old(lastPacketSize), data)
    {
      var sent, eos := network.SendBytes(data);
      endOfStream := eos;
      if sent.Thrown? {
        return Thrown;
      }
      lastPacketSize := sent.value;
      r := Done(if endOfStream then EOF else lastPacketSize);
    }

    method Xsgetn(count: nat) returns (r: Outcome<int>, got: seq<byte>)
      requires count < TWO_31 && TotalLength(network.buffers) <= count
      modifies this, network, network.socket
      ensures Op(network.socket.State(), network.buffers, r, lastPacketSize, endOfStream)
           == XsgetnSpec(old(network.socket.State()), old(network.buffers), old(lastPacketSize), count)
      ensures got == XsgetnBytes(old(network.socket.State()), old(network.buffers), count)
    {
      var received, eos;
      received, got, eos := network.ReceiveBytes(count);
      endOfStream := eos;
      if received.Thrown? {
        return Thrown, got;
      }
      lastPacketSize := received.value;
      r := Done(if endOfStream then EOF else lastPacketSize);
    }

    method GetLastPacketSize() returns (n: int)
      ensures n == lastPacketSize
    {
      n := lastPacketSize;
    }

    method GetEndOfStream() returns (b: bool)
      ensures b == endOfStream
    {
      b := endOfStream;
    }
  }
}
