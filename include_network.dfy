/**
 * include/Network.h: the unframed connection used by the byte-level stream
 * buffer of src/IOSocketBuffer.cpp.
 *
 * `sendBytes` and `receiveBytes` report an orderly close through an
 * `endOfStream` flag instead of throwing, and `receiveBytes` first serves
 * bytes from a queue of look-ahead views (`buffers`) before it asks the
 * socket once for the rest.  `callInNonBlockingMode` runs a function with the
 * socket switched to non-blocking mode (the Linux branch).
 */
module IncludeNetwork {
  import opened Bytes
  import opened Socket

  /** `O_NONBLOCK` of Linux `fcntl`. */
  const O_NONBLOCK: bv32 := 0x800

  /** What `sendBytes` leaves behind: the peer, the outcome and `endOfStream`. */
  datatype Sent = Sent(state: PeerState, result: Outcome<int>, endOfStream: bool)

  /**
   * What `receiveBytes` leaves behind: the peer, the look-ahead queue, the
   * outcome, the bytes stored at the start of the destination and
   * `endOfStream`.
   */
  datatype Fetched = Fetched(state: PeerState, queue: seq<seq<byte>>, result: Outcome<int>, bytes: seq<byte>,
                             endOfStream: bool)

  /**
   * The loop of `sendBytes` from `total` on: `SOCKET_ERROR` throws, a call
   * that sends nothing sets `endOfStream` and returns what went out so far.
   * The loop body runs before its condition is tested, so even `data == []`
   * makes one call.
   */
  function SendLoop(s: PeerState, data: seq<byte>, total: nat): (r: Sent)
    requires total <= |data|
    ensures r.result == Thrown || r.result.Done?
    ensures r.result == Thrown ==> !r.endOfStream
    ensures r.result.Done? ==> total <= r.result.value <= |data|
    ensures r.result.Done? && !r.endOfStream ==> r.result.value == |data| && |data| > 0
    ensures r.endOfStream ==> r.result.Done? && (r.result.value < |data| || total == |data|)
    decreases |s.script|
  {
    var n := SendResult(s, |data| - total);
    var t := AfterSend(s, data[total..]);
    if n == EOF then Sent(t, Thrown, false)
    else if n == 0 then Sent(t, Done(total), true)
    else if total + n < |data| then SendLoop(t, data, total + n)
    else Sent(t, Done(total + n), false)
  }

  /**
   * `sendBytes` hands the peer exactly the bytes it reports, in order, and
   * leaves the incoming bytes alone; when it throws the peer got a prefix.
   */
  lemma SendLoopAppends(s: PeerState, data: seq<byte>, total: nat)
    requires total <= |data|
    ensures var r := SendLoop(s, data, total);
      r.state.incoming == s.incoming &&
      s.outgoing <= r.state.outgoing <= s.outgoing + data[total..] &&
      (r.result.Done? ==> r.state.outgoing == s.outgoing + data[total..r.result.value])
  {
    SendLoopPrefix(s, data, total);
    SendLoopDelivers(s, data, total);
  }

  lemma {:induction false} SendLoopPrefix(s: PeerState, data: seq<byte>, total: nat)
    requires total <= |data|
    ensures var r := SendLoop(s, data, total);
      r.state.incoming == s.incoming && s.outgoing <= r.state.outgoing <= s.outgoing + data[total..]
    decreases |s.script|
  {
    var n := SendResult(s, |data| - total);
    var t := AfterSend(s, data[total..]);
    var m := if n > 0 then n else 0;
    assert t.outgoing == s.outgoing + data[total..total + m];
    assert data[total..] == data[total..total + m] + data[total + m..];
    AppendAssoc(s.outgoing, data[total..total + m], data[total + m..]);
    if n > 0 && total + n < |data| {
      SendLoopPrefix(t, data, total + n);
    }
  }

  lemma {:induction false} SendLoopDelivers(s: PeerState, data: seq<byte>, total: nat)
    requires total <= |data|
    ensures var r := SendLoop(s, data, total);
      r.result.Done? ==> r.state.outgoing == s.outgoing + data[total..r.result.value]
    decreases |s.script|
  {
    var n := SendResult(s, |data| - total);
    var t := AfterSend(s, data[total..]);
    if n > 0 && total + n < |data| {
      var r := SendLoop(t, data, total + n);
      assert SendLoop(s, data, total) == r;
      SendLoopDelivers(t, data, total + n);
      if r.result.Done? {
        assert data[total..r.result.value] == data[total..total + n] + data[total + n..r.result.value];
        AppendAssoc(s.outgoing, data[total..total + n], data[total + n..r.result.value]);
      }
    } else if n > 0 {
      assert data[total..][..n] == data[total..total + n];
    }
  }

  /** A request for zero bytes still makes one `send` call, and a peer that accepts it ends the stream. */
  lemma EmptySendCallsOnce(s: PeerState)
    ensures var r := SendLoop(s, [], 0);
      r.state.trace == s.trace + [SendCall(0, SendResult(s, 0))] &&
      (s.script != [] && s.script[0] >= 0 ==> r.result == Done(0) && r.endOfStream)
  {
  }

  /** Against a peer whose every call moves at least one byte, every byte goes out and the stream stays open. */
  lemma {:induction false} SendLoopPositive(s: PeerState, data: seq<byte>, total: nat)
    requires total < |data|
    requires AllPositive(s.script) && |s.script| >= |data| - total
    ensures var r := SendLoop(s, data, total);
      r.result == Done(|data|) && !r.endOfStream
    decreases |s.script|
  {
    var t := AfterSend(s, data[total..]);
    var n := SendResult(s, |data| - total);
    SendMovesSome(s, data[total..]);
    if total + n < |data| {
      assert SendLoop(s, data, total) == SendLoop(t, data, total + n);
      SendLoopPositive(t, data, total + n);
    }
  }

  /** One turn of the look-ahead drain loop. */
  datatype Drain = Drain(queue: seq<seq<byte>>, size: nat, copied: seq<byte>)

  /**
   * One turn of the drain loop of `receiveBytes`: copy up to `size` bytes
   * from the front view, shorten it, pop it once it is empty.
   */
  function DrainTurn(q: seq<seq<byte>>, size: nat): (t: Drain)
    requires q != []
    ensures t.copied + Concat(t.queue) == Concat(q)
    ensures t.size + |t.copied| == size
  {
    var k := Min(|q[0]|, size);
    var front := q[0][k..];
    assert q[0] == q[0][..k] + front;
    if front == [] then
      Drain(q[1..], size - k, q[0][..k])
    else
      assert ([front] + q[1..])[1..] == q[1..];
      AppendAssoc(q[0][..k], front, Concat(q[1..]));
      Drain([front] + q[1..], size - k, q[0][..k])
  }

  /**
   * When the queue holds more bytes than were requested, no turn of the drain
   * loop ever empties it: the loop `while (buffers.size())` never ends (once
   * `size` reaches 0 every turn copies nothing).
   */
  lemma DrainNeverEnds(q: seq<seq<byte>>, size: nat)
    requires q != [] && TotalLength(q) > size
    ensures var t := DrainTurn(q, size);
      t.queue != [] && TotalLength(t.queue) > t.size
  {
    var t := DrainTurn(q, size);
    var k := Min(|q[0]|, size);
    if q[0][k..] != [] {
      assert t.queue[1..] == q[1..];
    }
  }

  /** Once `size` is 0 a turn of the drain loop changes nothing. */
  lemma DrainStalls(q: seq<seq<byte>>)
    requires q != [] && q[0] != []
    ensures DrainTurn(q, 0) == Drain(q, 0, [])
  {
    assert [q[0][0..]] + q[1..] == q;
  }

  /**
   * `receiveBytes`, for a queue that the requested size covers: the queued
   * views, front to back, then one `recv` for whatever is still missing.
   * The count is the sum of the two, so a `SOCKET_ERROR` (-1) adds -1 to the
   * drained count; it throws only when that sum is -1.
   */
  function ReceiveSpec(s: PeerState, buffers: seq<seq<byte>>, size: nat): (r: Fetched)
    requires TotalLength(buffers) <= size
    ensures r.queue == [] && Concat(buffers) <= r.bytes && |r.bytes| <= size
    ensures r.bytes + r.state.incoming == Concat(buffers) + s.incoming && r.state.outgoing == s.outgoing
    ensures r.result == Thrown || r.result.Done?
    ensures r.endOfStream <==> r.result == Done(0)
    ensures r.result == Thrown <==> Concat(buffers) == [] && size > 0 && RecvResult(s, size) == EOF
    ensures r.result.Done? ==> r.result.value == |r.bytes| || r.result.value == |r.bytes| - 1
    ensures r.state.trace == s.trace || r.state.trace == s.trace + [RecvCall(size - TotalLength(buffers), RecvResult(s, size - TotalLength(buffers)))]
  {
    ConcatLength(buffers);
    var r := ReceiveRest(s, Concat(buffers), size);
    AppendAssoc(Concat(buffers), r.bytes[|Concat(buffers)|..], r.state.incoming);
    r
  }

  /** The part of `receiveBytes` after the queue was drained into `drained`. */
  function ReceiveRest(s: PeerState, drained: seq<byte>, size: nat): Fetched
    requires |drained| <= size
  {
    var rest := size - |drained|;
    var n := if rest > 0 then RecvResult(s, rest) else 0;
    var t := if rest > 0 then AfterRecv(s, rest) else s;
    var got := if rest > 0 then Received(s, rest) else [];
    var receive := |drained| + n;
    Fetched(t, [], if receive == EOF then Thrown else Done(receive), drained + got, receive == 0)
  }

  /**
   * A failed `recv` after bytes were drained from the queue is not reported:
   * the call returns one less than the number of bytes it stored, and when a
   * single byte was drained it reports a closed connection.
   */
  lemma ErrorAfterDrainIsHidden(s: PeerState, buffers: seq<seq<byte>>, size: nat)
    requires TotalLength(buffers) < size && TotalLength(buffers) > 0
    requires RecvResult(s, size - TotalLength(buffers)) == EOF
    ensures var r := ReceiveSpec(s, buffers, size);
      r.result == Done(|r.bytes| - 1) && |r.bytes| == TotalLength(buffers) &&
      (TotalLength(buffers) == 1 ==> r.endOfStream)
  {
    ConcatLength(buffers);
  }

  /**
   * The drain loop as evidently intended (`while (buffers.size() && size)`):
   * it stops once the request is met, leaving the rest queued.
   */
  function DrainCorrected(q: seq<seq<byte>>, size: nat): (r: Drain)
    ensures |r.copied| == Min(size, TotalLength(q)) && r.size == size - |r.copied|
    ensures r.copied + Concat(r.queue) == Concat(q)
    decreases |q|
  {
    if q == [] || size == 0 then Drain(q, size, [])
    else if |q[0]| <= size then
      var r := DrainCorrected(q[1..], size - |q[0]|);
      AppendAssoc(q[0], r.copied, Concat(r.queue));
      Drain(r.queue, r.size, q[0] + r.copied)
    else
      var front := q[0][size..];
      assert q[0] == q[0][..size] + front;
      assert ([front] + q[1..])[1..] == q[1..];
      AppendAssoc(q[0][..size], front, Concat(q[1..]));
      Drain([front] + q[1..], 0, q[0][..size])
  }

  /**
   * `receiveBytes` as evidently intended: the corrected drain, then one
   * `recv` for the rest, whose `SOCKET_ERROR` throws whatever was drained.
   */
  function ReceiveCorrected(s: PeerState, buffers: seq<seq<byte>>, size: nat): (r: Fetched)
    ensures r.bytes + Concat(r.queue) + r.state.incoming == Concat(buffers) + s.incoming
    ensures r.result.Done? ==> r.result.value == |r.bytes| <= size
    ensures r.result == Thrown <==> TotalLength(buffers) < size && RecvResult(s, size - TotalLength(buffers)) == EOF
    ensures r.endOfStream <==> r.result == Done(0)
  {
    var d := DrainCorrected(buffers, size);
    if d.size == 0 then
      AppendAssoc(d.copied, Concat(d.queue), s.incoming);
      Fetched(s, d.queue, Done(|d.copied|), d.copied, |d.copied| == 0)
    else
      ConcatLength(buffers);
      assert d.size == size - TotalLength(buffers) && Concat(d.queue) == [];
      var n := RecvResult(s, d.size);
      var got := Received(s, d.size);
      var t := AfterRecv(s, d.size);
      assert d.copied == Concat(buffers) && s.incoming == got + t.incoming;
      AppendAssoc(d.copied, got, t.incoming);
      assert (d.copied + got) + Concat(d.queue) + t.incoming == Concat(buffers) + s.incoming;
      Fetched(t, d.queue, if n == EOF then Thrown else Done(|d.copied| + n), d.copied + got, n != EOF && |d.copied| + n == 0)
  }

  /** Under the covering precondition the corrected call differs only in the error case. */
  lemma CorrectedAgrees(s: PeerState, buffers: seq<seq<byte>>, size: nat)
    requires TotalLength(buffers) <= size
    requires TotalLength(buffers) < size ==> RecvResult(s, size - TotalLength(buffers)) != EOF
    ensures var c := ReceiveCorrected(s, buffers, size);
      var w := ReceiveSpec(s, buffers, size);
      c.state == w.state && c.result == w.result && c.bytes == w.bytes && c.endOfStream == w.endOfStream
  {
    var d := DrainCorrected(buffers, size);
    ConcatLength(buffers);
    assert |d.copied| == TotalLength(buffers) && d.size == size - TotalLength(buffers);
    assert d.copied == Concat(buffers) by {
      assert Concat(buffers)[..|d.copied|] == d.copied;
    }
  }

  /** The socket is in blocking mode: `O_NONBLOCK` is clear. */
  predicate Blocking(flags: bv32) {
    flags & O_NONBLOCK == 0
  }

  /** The flags while the function runs: `O_NONBLOCK` added to a blocking socket's flags. */
  function During(flags: bv32): bv32 {
    if Blocking(flags) then flags | O_NONBLOCK else flags
  }

  /** Either way the function runs with `O_NONBLOCK` set and every other flag as it was. */
  lemma DuringSetsNonBlocking(flags: bv32)
    ensures During(flags) == flags | O_NONBLOCK && !Blocking(During(flags))
  {
  }

  /**
   * `callInNonBlockingMode` (Linux): read the flags (`-1` throws), set
   * `O_NONBLOCK` when the socket was blocking, run the function, and restore
   * the original flags afterwards.  A function that throws skips the
   * restore.  The result pairs the final flags with the outcome.
   */
  function NonBlockingCall(open: bool, flags: bv32, functor: bv32 -> Outcome<int>): (r: (bv32, Outcome<int>))
    ensures !open ==> r == (flags, Thrown)
    ensures open ==> r.1 == functor(During(flags))
    ensures open && r.1.Done? ==> r.0 == flags
    ensures open && !Blocking(flags) ==> r.0 == flags
  {
    if !open then (flags, Thrown)
    else
      var result := functor(During(flags));
      if result.Done? && Blocking(flags) then (flags, result)
      else (During(flags), result)
  }

  /** A function that throws on a blocking socket leaves it non-blocking. */
  lemma ThrowLeavesNonBlocking(flags: bv32, functor: bv32 -> Outcome<int>)
    requires Blocking(flags) && functor(During(flags)) == Thrown
    ensures NonBlockingCall(true, flags, functor).0 != flags
    ensures !Blocking(NonBlockingCall(true, flags, functor).0)
  {
    DuringSetsNonBlocking(flags);
  }

  /** The evidently intended behaviour: the original flags come back however the function ends. */
  function NonBlockingCallCorrected(open: bool, flags: bv32, functor: bv32 -> Outcome<int>): (r: (bv32, Outcome<int>))
    ensures r.0 == flags
    ensures open ==> r.1 == functor(During(flags))
    ensures NonBlockingCall(open, flags, functor).1 == r.1
  {
    if !open then (flags, Thrown) else (flags, functor(During(flags)))
  }

  /** The socket's descriptor: whether `fcntl` can read its flags, and the flags. */
  class Descriptor {
    const open: bool
    var flags: bv32

    constructor (open: bool, flags: bv32)
      ensures this.open == open && this.flags == flags
    {
      this.open := open;
      this.flags := flags;
    }
  }

  class Network {
    const socket: Peer
    const descriptor: Descriptor
    /** The look-ahead views `receiveBytes` serves first, front first. */
    var buffers: seq<seq<byte>>

    constructor (socket: Peer, descriptor: Descriptor)
      ensures this.socket == socket && this.descriptor == descriptor && buffers == []
    {
      this.socket := socket;
      this.descriptor := descriptor;
      buffers := [];
    }

    /** `sendBytes`, with `endOfStream` as a second result. */
    method SendBytes(data: seq<byte>) returns (r: Outcome<int>, endOfStream: bool)
      modifies socket
      ensures Sent(socket.State(), r, endOfStream) == SendLoop(old(socket.State()), data, 0)
    {
      var total: nat := 0;
      endOfStream := false;
      while true
        invariant total <= |data| && !endOfStream
        invariant SendLoop(socket.State(), data, total) == SendLoop(old(socket.State()), data, 0)
        decreases |socket.script|
      {
        var last := socket.Send(data[total..]);
        if last == EOF {
          return Thrown, endOfStream;
        } else if last == 0 {
          endOfStream := true;
          return Done(total), endOfStream;
        }
        total := total + last;
        if total >= |data| {
          return Done(total), endOfStream;
        }
      }
    }

    /**
     * `receiveBytes`; `got` are the bytes stored at the start of the
     * destination.  The requested size must cover the queued bytes, or the
     * drain loop never ends (`DrainNeverEnds`).
     */
    method ReceiveBytes(size: nat) returns (r: Outcome<int>, got: seq<byte>, endOfStream: bool)
      requires TotalLength(buffers) <= size
      modifies this, socket
      ensures Fetched(socket.State(), buffers, r, got, endOfStream) == ReceiveSpec(old(socket.State()), old(buffers), size)
    {
      var receive := 0;
      var remaining := size;
      got := [];
      ConcatLength(buffers);
      while buffers != []
        invariant got + Concat(buffers) == Concat(old(buffers))
        invariant receive == |got| && remaining + receive == size
        invariant TotalLength(buffers) <= remaining
        invariant socket.State() == old(socket.State())
        decreases |buffers|
      {
        var front := buffers[0];
        var k := Min(|front|, remaining);
        assert front[..k] == front;
        AppendAssoc(got, front, Concat(buffers[1..]));
        got := got + front[..k];
        front := front[k..];
        receive := receive + k;
        remaining := remaining - k;
        var tail := buffers[1..];
        buffers := if front == [] then tail else [front] + tail;
      }
      assert got == Concat(old(buffers));
      ghost var goal := ReceiveRest(socket.State(), got, size);
      assert goal == ReceiveSpec(old(socket.State()), old(buffers), size);
      if remaining > 0 {
        var last, bytes := socket.Recv(remaining);
        got := got + bytes;
        receive := receive + last;
      }
      endOfStream := receive == 0;
      if receive == EOF {
        return Thrown, got, endOfStream;
      }
      r := Done(receive);
    }

    /** `callInNonBlockingMode` (Linux branch); `functor` sees the flags in effect while it runs. */
    method CallInNonBlockingMode(functor: bv32 -> Outcome<int>) returns (r: Outcome<int>)
      modifies descriptor
      ensures (descriptor.flags, r) == NonBlockingCall(descriptor.open, old(descriptor.flags), functor)
    {
      if !descriptor.open {
        return Thrown;
      }
      var flags := descriptor.flags;
      var isBlocking := flags & O_NONBLOCK == 0;
      if isBlocking {
        descriptor.flags := flags | O_NONBLOCK;
      }
      assert descriptor.flags == During(flags);
      r := functor(descriptor.flags);
      if r.Done? && isBlocking {
        descriptor.flags := flags;
      }
    }
  }
}
