/**
 * src/BaseNetwork.h: the framed connection of the newest generation.
 *
 * A frame is the 4-byte length followed by the payload.  `sendBytes` and
 * `receiveBytes` repeat single socket calls until the requested count moved;
 * `sendData` and `receiveData` turn every `WebException` into the result -1.
 * The receive mode decides whether `receiveData` resizes the caller's
 * container to the announced length.
 */
module SrcBaseNetwork {
  import opened Bytes
  import opened Socket
  import opened Transfers

  datatype ReceiveMode = AllowResize | ProhibitResize

  /** What `sendData` leaves behind: the peer and the returned count (-1 on failure). */
  datatype Posted = Posted(state: PeerState, result: int)

  /** What `receiveData` leaves behind: the peer, the outcome and the caller's container. */
  datatype Delivery = Delivery(state: PeerState, result: Outcome<int>, data: seq<byte>)

  /** The wire form of one frame. */
  function Frame(payload: seq<byte>): (w: seq<byte>)
    requires |payload| < TWO_31
    ensures |w| == 4 + |payload| && w[4..] == payload
  {
    EncodeInt32(|payload|) + payload
  }

  /** Only a container that has `resize` and a connection in allow-resize mode grow on receipt. */
  predicate Grows(mode: ReceiveMode, resizable: bool) {
    resizable && mode == AllowResize
  }

  /**
   * `sendData`: the length, then the payload, each through `sendBytes`; any
   * failure makes the result -1.
   */
  function SendDataSpec(s: PeerState, payload: seq<byte>): (r: Posted)
    requires |payload| < TWO_31
    ensures r.result == -1 || r.result == |payload|
    ensures r.result == |payload| ==> r.state.outgoing == s.outgoing + Frame(payload)
    ensures s.outgoing <= r.state.outgoing <= s.outgoing + Frame(payload) && r.state.incoming == s.incoming
  {
    var head := SendAll(s, EncodeInt32(|payload|), 0);
    SendAllAppends(s, EncodeInt32(|payload|), 0);
    AppendAssoc(s.outgoing, EncodeInt32(|payload|), payload);
    if head.result.Thrown? then
      assert head.state.outgoing <= s.outgoing + Frame(payload) by {
        PrefixOfPrefix(head.state.outgoing, s.outgoing + EncodeInt32(|payload|), payload);
      }
      Posted(head.state, -1)
    else
      var body := SendAll(head.state, payload, 0);
      SendAllAppends(head.state, payload, 0);
      assert s.outgoing <= body.state.outgoing by {
        assert body.state.outgoing[..|head.state.outgoing|] == head.state.outgoing;
        assert head.state.outgoing[..|s.outgoing|] == s.outgoing;
      }
      if body.result.Thrown? then Posted(body.state, -1)
      else
        AppendAssoc(s.outgoing, EncodeInt32(|payload|), payload);
        Posted(body.state, body.result.value)
  }

  /** A prefix of `a` is a prefix of `a` followed by anything. */
  lemma PrefixOfPrefix(p: seq<byte>, a: seq<byte>, b: seq<byte>)
    requires p <= a
    ensures p <= a + b
  {
    assert (a + b)[..|p|] == a[..|p|];
  }

  /**
   * `receiveData`: read the 4-byte length, resize the container when it
   * grows, then read that many bytes into its start.  A negative length, or
   * one larger than a container that does not grow, is a `Fault`: the resize
   * throws `std::length_error`, or `recv` writes past the container.
   */
  function ReceiveDataSpec(s: PeerState, data: seq<byte>, mode: ReceiveMode, resizable: bool): (r: Delivery)
    ensures r.state.outgoing == s.outgoing
    ensures r.result == Fault || r.result == Done(-1) || (r.result.Done? && 0 < r.result.value < TWO_31)
    ensures r.result.Done? && r.result.value > 0 ==>
      var n := r.result.value;
      n <= |r.data| && s.incoming == EncodeInt32(n) + r.data[..n] + r.state.incoming
    ensures r.result.Done? && r.result.value > 0 && Grows(mode, resizable) ==> |r.data| == r.result.value
    ensures r.result != Fault && !Grows(mode, resizable) ==> |r.data| == |data|
  {
    var head := ReceiveAll(s, 4, 0);
    ReceiveAllTakes(s, 4, 0);
    if head.result.Thrown? then Delivery(head.state, Done(-1), data)
    else
      var size := DecodeInt32(head.bytes);
      if size < 0 || (!Grows(mode, resizable) && size > |data|) then Delivery(head.state, Fault, data)
      else
        var sized := if Grows(mode, resizable) then Resize(data, size) else data;
        var body := ReceiveAll(head.state, size, 0);
        ReceiveAllTakes(head.state, size, 0);
        var filled := Overwrite(sized, body.bytes);
        if body.result.Thrown? then Delivery(body.state, Done(-1), filled)
        else
          EncodeDecode(head.bytes);
          AppendAssoc(head.bytes, body.bytes, body.state.incoming);
          Delivery(body.state, body.result, filled)
  }

  /**
   * What `sendData` puts on the wire, `receiveData` at the other end hands
   * back: the announced count, and the payload at the start of the container
   * (the whole container when it grows).  Calls that move only part of the
   * requested bytes change nothing.
   */
  lemma FrameRoundTrip(sender: PeerState, payload: seq<byte>, receiver: PeerState, rest: seq<byte>,
                       data: seq<byte>, mode: ReceiveMode, resizable: bool)
    requires 0 < |payload| < TWO_31
    requires SendDataSpec(sender, payload).result == |payload|
    requires receiver.incoming == SendDataSpec(sender, payload).state.outgoing[|sender.outgoing|..] + rest
    requires AllPositive(receiver.script) && |receiver.script| >= 4 + |payload|
    requires !Grows(mode, resizable) ==> |payload| <= |data|
    ensures var r := ReceiveDataSpec(receiver, data, mode, resizable);
      r.result == Done(|payload|) && r.data[..|payload|] == payload && r.state.incoming == rest &&
      (Grows(mode, resizable) ==> r.data == payload)
  {
    SentFrame(sender, payload);
    FrameArrives(receiver, payload, rest, data, mode, resizable);
  }

  /** A frame waiting at a peer that moves bytes on every call arrives whole. */
  lemma FrameArrives(receiver: PeerState, payload: seq<byte>, rest: seq<byte>,
                     data: seq<byte>, mode: ReceiveMode, resizable: bool)
    requires 0 < |payload| < TWO_31
    requires receiver.incoming == Frame(payload) + rest
    requires AllPositive(receiver.script) && |receiver.script| >= 4 + |payload|
    requires !Grows(mode, resizable) ==> |payload| <= |data|
    ensures var r := ReceiveDataSpec(receiver, data, mode, resizable);
      r.result == Done(|payload|) && r.data[..|payload|] == payload && r.state.incoming == rest &&
      (Grows(mode, resizable) ==> r.data == payload)
  {
    FrameHeadArrives(receiver, payload, rest);
    var head := ReceiveAll(receiver, 4, 0);
    ReceiveAllPositive(head.state, |payload|, 0);
    assert (payload + rest)[..|payload|] == payload;
    assert (payload + rest)[|payload|..] == rest;
  }

  /** The bytes a successful `sendData` appends are exactly one frame. */
  lemma SentFrame(sender: PeerState, payload: seq<byte>)
    requires |payload| < TWO_31
    requires SendDataSpec(sender, payload).result == |payload|
    ensures SendDataSpec(sender, payload).state.outgoing[|sender.outgoing|..] == Frame(payload)
  {
  }

  /**
   * An empty payload goes out as a frame, and `sendData` reports success, but
   * `receiveData` never returns it: the payload loop asks `recv` for zero
   * bytes, gets 0 back and takes it for a closed connection.
   */
  lemma EmptyFrameIsNeverReceived(receiver: PeerState, data: seq<byte>, mode: ReceiveMode, resizable: bool)
    requires ReceiveAll(receiver, 4, 0).result.Done?
    requires |receiver.incoming| >= 4 && receiver.incoming[..4] == EncodeInt32(0)
    ensures ReceiveDataSpec(receiver, data, mode, resizable).result == Done(-1)
  {
    var head := ReceiveAll(receiver, 4, 0);
    ReceiveAllTakes(receiver, 4, 0);
    assert head.bytes == receiver.incoming[..4];
    DecodeEncode(0);
    ZeroLengthIsNeverReceived(receiver, data, mode, resizable);
  }

  lemma ZeroLengthIsNeverReceived(receiver: PeerState, data: seq<byte>, mode: ReceiveMode, resizable: bool)
    requires ReceiveAll(receiver, 4, 0).result.Done?
    requires DecodeInt32(ReceiveAll(receiver, 4, 0).bytes) == 0
    ensures ReceiveDataSpec(receiver, data, mode, resizable).result == Done(-1)
  {
    ReceivingNothingThrows(ReceiveAll(receiver, 4, 0).state);
  }

  lemma ReceivingNothingThrows(s: PeerState)
    ensures ReceiveAll(s, 0, 0).result == Thrown
  {
    assert RecvResult(s, 0) <= 0;
  }

  /** `receiveBytes` as evidently intended: a request for zero bytes receives nothing and succeeds. */
  function ReceiveAllCorrected(s: PeerState, count: nat): (r: Got)
    ensures r.result == Thrown || r.result == Done(count)
    ensures s.incoming == r.bytes + r.state.incoming
    ensures r.result.Done? ==> |r.bytes| == count
  {
    if count == 0 then Got(s, Done(0), [])
    else
      ReceiveAllTakes(s, count, 0);
      ReceiveAll(s, count, 0)
  }

  /** `receiveData` built on the corrected `receiveBytes`. */
  function ReceiveDataCorrected(s: PeerState, data: seq<byte>, mode: ReceiveMode, resizable: bool): (r: Delivery)
    ensures r.result == Fault || r.result == Done(-1) || (r.result.Done? && 0 <= r.result.value < TWO_31)
    ensures r.result.Done? && r.result.value >= 0 ==>
      var n := r.result.value;
      n <= |r.data| && s.incoming == EncodeInt32(n) + r.data[..n] + r.state.incoming
  {
    var head := ReceiveAll(s, 4, 0);
    ReceiveAllTakes(s, 4, 0);
    if head.result.Thrown? then Delivery(head.state, Done(-1), data)
    else
      var size := DecodeInt32(head.bytes);
      if size < 0 || (!Grows(mode, resizable) && size > |data|) then Delivery(head.state, Fault, data)
      else
        var sized := if Grows(mode, resizable) then Resize(data, size) else data;
        var body := ReceiveAllCorrected(head.state, size);
        var filled := Overwrite(sized, body.bytes);
        if body.result.Thrown? then Delivery(body.state, Done(-1), filled)
        else
          EncodeDecode(head.bytes);
          AppendAssoc(head.bytes, body.bytes, body.state.incoming);
          Delivery(body.state, body.result, filled)
  }

  /** With the correction the round trip holds for every payload, the empty one included. */
  lemma CorrectedFrameRoundTrip(payload: seq<byte>, receiver: PeerState, rest: seq<byte>,
                                data: seq<byte>, mode: ReceiveMode, resizable: bool)
    requires |payload| < TWO_31
    requires receiver.incoming == Frame(payload) + rest
    requires AllPositive(receiver.script) && |receiver.script| >= 4 + |payload|
    requires !Grows(mode, resizable) ==> |payload| <= |data|
    ensures var r := ReceiveDataCorrected(receiver, data, mode, resizable);
      r.result == Done(|payload|) && r.data[..|payload|] == payload && r.state.incoming == rest
  {
    FrameHeadArrives(receiver, payload, rest);
    PayloadArrives(ReceiveAll(receiver, 4, 0).state, payload, rest);
  }

  /** A frame's length prefix, waiting at the front of a peer that moves bytes on every call, arrives whole. */
  lemma FrameHeadArrives(receiver: PeerState, payload: seq<byte>, rest: seq<byte>)
    requires |payload| < TWO_31
    requires receiver.incoming == Frame(payload) + rest
    requires AllPositive(receiver.script) && |receiver.script| >= 4 + |payload|
    ensures var head := ReceiveAll(receiver, 4, 0);
      head.result == Done(4) && DecodeInt32(head.bytes) == |payload| && head.state.incoming == payload + rest &&
      AllPositive(head.state.script) && |head.state.script| >= |payload|
  {
    FrameSplits(payload, rest);
    ReceiveAllPositive(receiver, 4, 0);
    DecodeEncode(|payload|);
  }

  /** A frame followed by anything starts with the length prefix, then the payload. */
  lemma FrameSplits(payload: seq<byte>, rest: seq<byte>)
    requires |payload| < TWO_31
    ensures (Frame(payload) + rest)[..4] == EncodeInt32(|payload|)
    ensures (Frame(payload) + rest)[4..] == payload + rest
  {
    var wire := Frame(payload);
    assert (wire + rest)[..4] == wire[..4];
    assert (wire + rest)[4..] == wire[4..] + rest;
  }

  /** The payload then arrives through the corrected loop, whatever its length. */
  lemma PayloadArrives(s: PeerState, payload: seq<byte>, rest: seq<byte>)
    requires s.incoming == payload + rest
    requires AllPositive(s.script) && |s.script| >= |payload|
    ensures var body := ReceiveAllCorrected(s, |payload|);
      body.result == Done(|payload|) && body.bytes == payload && body.state.incoming == rest
  {
    if |payload| > 0 {
      ReceiveAllPositive(s, |payload|, 0);
      assert (payload + rest)[..|payload|] == payload;
      assert (payload + rest)[|payload|..] == rest;
    } else {
      assert payload + rest == rest;
    }
  }

  /** `sendBytes`: repeat `send` until `|data|` bytes went out; `SOCKET_ERROR` throws. */
  method SendBytes(socket: Peer, data: seq<byte>) returns (r: Outcome<int>)
    modifies socket
    ensures Sent(socket.State(), r) == SendAll(old(socket.State()), data, 0)
  {
    var total: nat := 0;
    while true
      invariant total <= |data|
      invariant SendAll(socket.State(), data, total) == SendAll(old(socket.State()), data, 0)
      decreases |socket.script|
    {
      var last := socket.Send(data[total..]);
      if last == EOF {
        return Thrown;
      }
      total := total + last;
      if total >= |data| {
        return Done(total);
      }
    }
  }

  /**
   * One turn of the loop of `receiveBytes`: the call on `before` returned
   * `last`, stored `bytes` and left `after`.
   */
  predicate RecvTurn(before: PeerState, n: nat, last: int, bytes: seq<byte>, after: PeerState) {
    last == RecvResult(before, n) && bytes == Received(before, n) && after == AfterRecv(before, n)
  }

  /** A turn whose call fails or finds the connection closed ends the loop. */
  lemma ReceiveAllStops(before: PeerState, count: nat, total: nat, last: int, bytes: seq<byte>, after: PeerState,
                        prefix: seq<byte>, goal: Got)
    requires total <= count && RecvTurn(before, count - total, last, bytes, after)
    requires last <= 0
    requires Pending(before, count, total, prefix) == goal
    ensures Got(after, Thrown, prefix + bytes) == goal
  {
  }

  /** A turn whose call brings the total to `count` ends the loop. */
  lemma ReceiveAllFinishes(before: PeerState, count: nat, total: nat, last: int, bytes: seq<byte>, after: PeerState,
                           prefix: seq<byte>, goal: Got)
    requires total <= count && RecvTurn(before, count - total, last, bytes, after)
    requires last > 0 && total + last >= count
    requires Pending(before, count, total, prefix) == goal
    ensures Got(after, Done(total + last), prefix + bytes) == goal
  {
  }

  /** What the loop of `receiveBytes` ends with, once it has stored `got` and reached `total`. */
  function Pending(s: PeerState, count: nat, total: nat, got: seq<byte>): Got
    requires total <= count
  {
    Prepend(got, ReceiveAll(s, count, total))
  }

  /** Any other turn leaves the rest of the loop to do. */
  lemma ReceiveAllGoesOn(before: PeerState, count: nat, total: nat, last: int, bytes: seq<byte>, after: PeerState,
                         prefix: seq<byte>, goal: Got)
    requires total <= count && RecvTurn(before, count - total, last, bytes, after)
    requires last > 0 && total + last < count
    requires Pending(before, count, total, prefix) == goal
    ensures Pending(after, count, total + last, prefix + bytes) == goal
  {
    ReceiveAllContinues(before, count, total);
    PrependTwice(prefix, bytes, ReceiveAll(after, count, total + last));
  }

  /**
   * `receiveBytes`: repeat `recv` until `count` bytes arrived;
   * `SOCKET_ERROR` and a closed connection throw.  `got` are the bytes stored
   * at the start of the destination.
   */
  method ReceiveBytes(socket: Peer, count: nat) returns (r: Outcome<int>, got: seq<byte>)
    modifies socket
    ensures Got(socket.State(), r, got) == ReceiveAll(old(socket.State()), count, 0)
  {
    var total: nat := 0;
    got := [];
    ghost var goal := ReceiveAll(socket.State(), count, 0);
    ghost var st := socket.State();
    assert [] + goal.bytes == goal.bytes;
    while true
      invariant total <= count && st == socket.State()
      invariant Pending(st, count, total, got) == goal
      decreases |st.script|
    {
      ghost var before := st;
      ghost var prefix := got;
      var last, bytes := socket.Recv(count - total);
      st := socket.State();
      assert RecvTurn(before, count - total, last, bytes, st);
      got := got + bytes;
      if last == EOF || last == 0 {
        ReceiveAllStops(before, count, total, last, bytes, st, prefix, goal);
        return Thrown, got;
      }
      if total + last >= count {
        ReceiveAllFinishes(before, count, total, last, bytes, st, prefix, goal);
        return Done(total + last), got;
      }
      ReceiveAllGoesOn(before, count, total, last, bytes, st, prefix, goal);
      total := total + last;
    }
  }

  class BaseNetwork {
    const socket: Peer
    var mode: ReceiveMode

    /** Both constructors keep the receive mode they are given. */
    constructor (socket: Peer, mode: ReceiveMode)
      ensures this.socket == socket && this.mode == mode
    {
      this.socket := socket;
      this.mode := mode;
    }

    method SetReceiveMode(mode: ReceiveMode)
      modifies this
      ensures this.mode == mode
    {
      this.mode := mode;
    }

    method GetResizeMode() returns (m: ReceiveMode)
      ensures m == mode
    {
      m := mode;
    }

    /** Both overloads (container and `string_view`) send the same bytes for the same content. */
    method SendData(data: seq<byte>) returns (r: int)
      requires |data| < TWO_31
      modifies socket
      ensures Posted(socket.State(), r) == SendDataSpec(old(socket.State()), data)
    {
      var sent := SendBytes(socket, EncodeInt32(|data|));
      if sent.Thrown? {
        return -1;
      }
      var body := SendBytes(socket, data);
      if body.Thrown? {
        return -1;
      }
      r := body.value;
    }

    /**
     * `receiveData`; `resizable` says whether the container type has
     * `resize` (always true for the `std::string` overload).
     */
    method ReceiveData(data: seq<byte>, resizable: bool) returns (r: Outcome<int>, filled: seq<byte>)
      modifies socket
      ensures Delivery(socket.State(), r, filled) == ReceiveDataSpec(old(socket.State()), data, mode, resizable)
    {
      var head, lengthBytes := ReceiveBytes(socket, 4);
      if head.Thrown? {
        return Done(-1), data;
      }
      var size := DecodeInt32(lengthBytes);
      if size < 0 || (!Grows(mode, resizable) && size > |data|) {
        return Fault, data;
      }
      var sized := if Grows(mode, resizable) then Resize(data, size) else data;
      var body, bytes := ReceiveBytes(socket, size);
      filled := Overwrite(sized, bytes);
      if body.Thrown? {
        return Done(-1), filled;
      }
      r := body;
    }
  }
}
