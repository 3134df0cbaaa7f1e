/**
 * src/Network.h: the Windows-only, `CharT`-templated network class that
 * src/IOSocketBuffer.h uses.  Frames carry a `sizeof(int_fast32_t)`-byte
 * length (4 bytes with the supported compiler).  Unlike src/BaseNetwork.h,
 * `receiveBytes` returns early, without throwing, when the peer closes.
 */
module SrcNetwork {
  import opened Bytes
  import opened Socket
  import opened Transfers
  import SrcBaseNetwork

  type ReceiveMode = SrcBaseNetwork.ReceiveMode

  /**
   * `receiveData` (both overloads): read the length into an uninitialised
   * `int_fast32_t`, resize when the mode allows it and the container can,
   * then receive that many bytes into the container's start.  A length read
   * cut short by a close leaves the length indeterminate: a `Fault`.  The
   * result is the count the payload loop returns, which is short of the
   * announced length when the peer closes.
   */
  function ReceiveDataSpec(s: PeerState, data: seq<byte>, mode: ReceiveMode, resizable: bool): (r: SrcBaseNetwork.Delivery)
    ensures r.state.outgoing == s.outgoing
    ensures r.result == Fault || r.result == Done(-1) || (r.result.Done? && 0 <= r.result.value < TWO_31)
    ensures r.result.Done? && r.result.value >= 0 ==>
      var n := r.result.value;
      |s.incoming| >= 4 && n <= DecodeInt32(s.incoming[..4]) && n <= |r.data| &&
      s.incoming[4..] == r.data[..n] + r.state.incoming &&
      (SrcBaseNetwork.Grows(mode, resizable) ==> |r.data| == DecodeInt32(s.incoming[..4]))
    ensures r.result != Fault && !SrcBaseNetwork.Grows(mode, resizable) ==> |r.data| == |data|
  {
    var head := ReceiveUntilClose(s, 4, 0);
    ReceiveUntilCloseTakes(s, 4, 0);
    if head.result.Thrown? then SrcBaseNetwork.Delivery(head.state, Done(-1), data)
    else if |head.bytes| < 4 then SrcBaseNetwork.Delivery(head.state, Fault, data)
    else
      assert s.incoming[..4] == head.bytes && s.incoming[4..] == head.state.incoming;
      var size := DecodeInt32(head.bytes);
      if size < 0 || (!SrcBaseNetwork.Grows(mode, resizable) && size > |data|) then
        SrcBaseNetwork.Delivery(head.state, Fault, data)
      else
        var sized := if SrcBaseNetwork.Grows(mode, resizable) then Resize(data, size) else data;
        var body := ReceiveUntilClose(head.state, size, 0);
        ReceiveUntilCloseTakes(head.state, size, 0);
        var filled := Overwrite(sized, body.bytes);
        if body.result.Thrown? then SrcBaseNetwork.Delivery(body.state, Done(-1), filled)
        else SrcBaseNetwork.Delivery(body.state, body.result, filled)
  }

  /**
   * Round trip, the empty payload included: a frame waiting at a peer that
   * moves bytes on every call comes back as its count, with the payload at
   * the start of the container.
   */
  lemma FrameRoundTrip(payload: seq<byte>, receiver: PeerState, rest: seq<byte>, data: seq<byte>,
                       mode: ReceiveMode, resizable: bool)
    requires |payload| < TWO_31
    requires receiver.incoming == SrcBaseNetwork.Frame(payload) + rest
    requires AllPositive(receiver.script) && |receiver.script| >= 5 + |payload|
    requires !SrcBaseNetwork.Grows(mode, resizable) ==> |payload| <= |data|
    ensures var r := ReceiveDataSpec(receiver, data, mode, resizable);
      r.result == Done(|payload|) && r.data[..|payload|] == payload && r.state.incoming == rest
  {
    HeadArrives(receiver, payload, rest);
    PayloadArrives(ReceiveUntilClose(receiver, 4, 0).state, payload, rest);
  }

  lemma HeadArrives(receiver: PeerState, payload: seq<byte>, rest: seq<byte>)
    requires |payload| < TWO_31
    requires receiver.incoming == SrcBaseNetwork.Frame(payload) + rest
    requires AllPositive(receiver.script) && |receiver.script| >= 5 + |payload|
    ensures var head := ReceiveUntilClose(receiver, 4, 0);
      head.result == Done(4) && |head.bytes| == 4 && DecodeInt32(head.bytes) == |payload| &&
      head.state.incoming == payload + rest && AllPositive(head.state.script) && |head.state.script| >= 1 + |payload|
  {
    var wire := SrcBaseNetwork.Frame(payload);
    ReceiveUntilClosePositive(receiver, 4, 0);
    var head := ReceiveUntilClose(receiver, 4, 0);
    assert head.bytes == EncodeInt32(|payload|) by {
      assert receiver.incoming[..4] == wire[..4];
    }
    DecodeEncode(|payload|);
    assert head.state.incoming == payload + rest by {
      assert receiver.incoming[4..] == wire[4..] + rest;
    }
  }

  lemma PayloadArrives(s: PeerState, payload: seq<byte>, rest: seq<byte>)
    requires s.incoming == payload + rest
    requires AllPositive(s.script) && |s.script| >= 1 + |payload|
    ensures var body := ReceiveUntilClose(s, |payload|, 0);
      body.result == Done(|payload|) && body.bytes == payload && body.state.incoming == rest
  {
    if |payload| > 0 {
      ReceiveUntilClosePositive(s, |payload|, 0);
      assert (payload + rest)[..|payload|] == payload;
      assert (payload + rest)[|payload|..] == rest;
    } else {
      assert payload + rest == rest;
      assert RecvResult(s, 0) == 0;
    }
  }

  /**
   * A close in the middle of the payload is not an error: after the length
   * and `k` payload bytes the peer closes, and `receiveData` returns `k`
   * with those bytes at the container's start.
   */
  lemma CloseMidPayloadReturnsCount(s: PeerState, payload: seq<byte>, k: nat, data: seq<byte>,
                                    mode: ReceiveMode, resizable: bool)
    requires k < |payload| < TWO_31
    requires s.incoming == EncodeInt32(|payload|) + payload
    requires s.script == [4, k, 0]
    requires !SrcBaseNetwork.Grows(mode, resizable) ==> |payload| <= |data|
    ensures var r := ReceiveDataSpec(s, data, mode, resizable);
      r.result == Done(k) && r.data[..k] == payload[..k] && r.state.incoming == payload[k..]
  {
    var head := ReceiveUntilClose(s, 4, 0);
    assert RecvResult(s, 4) == 4;
    assert head.bytes == s.incoming[..4] == EncodeInt32(|payload|);
    assert head.state.incoming == payload && head.state.script == [k, 0];
    DecodeEncode(|payload|);
    var body := ReceiveUntilClose(head.state, |payload|, 0);
    assert RecvResult(head.state, |payload|) == k;
    if k > 0 {
      var t := AfterRecv(head.state, |payload|);
      assert t.script == [0] && t.incoming == payload[k..];
      assert RecvResult(t, |payload| - k) == 0;
      var rest := ReceiveUntilClose(t, |payload|, k);
      assert rest.result == Done(k) && rest.bytes == [];
      assert Received(head.state, |payload|) == payload[..k];
      assert body == Got(rest.state, rest.result, payload[..k] + rest.bytes);
    }
  }

  /** One turn of the loop of `receiveBytes`, as in src/BaseNetwork.h. */
  predicate RecvTurn(before: PeerState, n: nat, last: int, bytes: seq<byte>, after: PeerState) {
    last == RecvResult(before, n) && bytes == Received(before, n) && after == AfterRecv(before, n)
  }

  /** What the loop of `receiveBytes` ends with, once it has stored `got` and reached `total`. */
  function Pending(s: PeerState, count: nat, total: nat, got: seq<byte>): Got
    requires total <= count
  {
    Prepend(got, ReceiveUntilClose(s, count, total))
  }

  lemma ReceiveFails(before: PeerState, count: nat, total: nat, last: int, bytes: seq<byte>, after: PeerState,
                     prefix: seq<byte>, goal: Got)
    requires total <= count && RecvTurn(before, count - total, last, bytes, after)
    requires last == EOF
    requires Pending(before, count, total, prefix) == goal
    ensures Got(after, Thrown, prefix + bytes) == goal
  {
  }

  lemma ReceiveCloses(before: PeerState, count: nat, total: nat, last: int, bytes: seq<byte>, after: PeerState,
                      prefix: seq<byte>, goal: Got)
    requires total <= count && RecvTurn(before, count - total, last, bytes, after)
    requires last == 0
    requires Pending(before, count, total, prefix) == goal
    ensures Got(after, Done(total), prefix + bytes) == goal
  {
  }

  lemma ReceiveFinishes(before: PeerState, count: nat, total: nat, last: int, bytes: seq<byte>, after: PeerState,
                        prefix: seq<byte>, goal: Got)
    requires total <= count && RecvTurn(before, count - total, last, bytes, after)
    requires last > 0 && total + last >= count
    requires Pending(before, count, total, prefix) == goal
    ensures Got(after, Done(total + last), prefix + bytes) == goal
  {
  }

  lemma ReceiveGoesOn(before: PeerState, count: nat, total: nat, last: int, bytes: seq<byte>, after: PeerState,
                      prefix: seq<byte>, goal: Got)
    requires total <= count && RecvTurn(before, count - total, last, bytes, after)
    requires last > 0 && total + last < count
    requires Pending(before, count, total, prefix) == goal
    ensures Pending(after, count, total + last, prefix + bytes) == goal
  {
    ReceiveUntilCloseContinues(before, count, total);
    PrependTwice(prefix, bytes, ReceiveUntilClose(after, count, total + last));
  }

  class Network {
    const socket: Peer
    var mode: ReceiveMode

    /** The client-side constructor keeps the mode it is given (connecting is not modelled). */
    constructor Client(socket: Peer, mode: ReceiveMode)
      ensures this.socket == socket && this.mode == mode
    {
      this.socket := socket;
      this.mode := mode;
    }

    /** The server-side constructor ignores its mode argument. */
    constructor Server(socket: Peer, mode: ReceiveMode)
      ensures this.socket == socket && this.mode == SrcBaseNetwork.AllowResize
    {
      this.socket := socket;
      this.mode := SrcBaseNetwork.AllowResize;
    }

    method SetReceiveMode(mode: ReceiveMode)
      modifies this
      ensures this.mode == mode
    {
      this.mode := mode;
    }

    method GetResizeMode() returns (m: ReceiveMode)
      ensures m == mode
    {
      m := mode;
    }

    /** `sendBytes`: repeat `send` until `count` bytes went out; `SOCKET_ERROR` throws. */
    method SendBytes(data: seq<byte>) returns (r: Outcome<int>)
      modifies socket
      ensures Sent(socket.State(), r) == SendAll(old(socket.State()), data, 0)
    {
      var totalSend: nat := 0;
      while true
        invariant totalSend <= |data|
        invariant SendAll(socket.State(), data, totalSend) == SendAll(old(socket.State()), data, 0)
        decreases |socket.script|
      {
        var lastSend := socket.Send(data[totalSend..]);
        if lastSend == EOF {
          return Thrown;
        }
        totalSend := totalSend + lastSend;
        if totalSend >= |data| {
          return Done(totalSend);
        }
      }
    }

    /**
     * `receiveBytes`: repeat `recv` until `count` bytes arrived;
     * `SOCKET_ERROR` throws and a close returns the count so far.
     */
    method ReceiveBytes(count: nat) returns (r: Outcome<int>, got: seq<byte>)
      modifies socket
      ensures Got(socket.State(), r, got) == ReceiveUntilClose(old(socket.State()), count, 0)
    {
      var totalReceive: nat := 0;
      got := [];
      ghost var goal := ReceiveUntilClose(socket.State(), count, 0);
      ghost var st := socket.State();
      assert [] + goal.bytes == goal.bytes;
      while true
        invariant totalReceive <= count && st == socket.State()
        invariant Pending(st, count, totalReceive, got) == goal
        decreases |st.script|
      {
        ghost var before := st;
        ghost var prefix := got;
        var lastReceive, bytes := socket.Recv(count - totalReceive);
        st := socket.State();
        assert RecvTurn(before, count - totalReceive, lastReceive, bytes, st);
        got := got + bytes;
        if lastReceive == EOF {
          ReceiveFails(before, count, totalReceive, lastReceive, bytes, st, prefix, goal);
          return Thrown, got;
        } else if lastReceive == 0 {
          ReceiveCloses(before, count, totalReceive, lastReceive, bytes, st, prefix, goal);
          return Done(totalReceive), got;
        }
        if totalReceive + lastReceive >= count {
          ReceiveFinishes(before, count, totalReceive, lastReceive, bytes, st, prefix, goal);
          return Done(totalReceive + lastReceive), got;
        }
        ReceiveGoesOn(before, count, totalReceive, lastReceive, bytes, st, prefix, goal);
        totalReceive := totalReceive + lastReceive;
      }
    }

    /** `sendData` (both overloads): the same frame as src/BaseNetwork.h. */
    method SendData(data: seq<byte>) returns (r: int)
      requires |data| < TWO_31
      modifies socket
      ensures SrcBaseNetwork.Posted(socket.State(), r) == SrcBaseNetwork.SendDataSpec(old(socket.State()), data)
    {
      var sent := SendBytes(EncodeInt32(|data|));
      if sent.Thrown? {
        return -1;
      }
      var body := SendBytes(data);
      if body.Thrown? {
        return -1;
      }
      r := body.value;
    }

    /** `receiveData`; `resizable` is false for a container overload whose type has no `resize`. */
    method ReceiveData(data: seq<byte>, resizable: bool) returns (r: Outcome<int>, filled: seq<byte>)
      modifies socket
      ensures SrcBaseNetwork.Delivery(socket.State(), r, filled) == ReceiveDataSpec(old(socket.State()), data, mode, resizable)
    {
      var head, lengthBytes := ReceiveBytes(4);
      if head.Thrown? {
        return Done(-1), data;
      }
      if |lengthBytes| < 4 {
        return Fault, data;
      }
      var size := DecodeInt32(lengthBytes);
      if size < 0 || (!SrcBaseNetwork.Grows(mode, resizable) && size > |data|) {
        return Fault, data;
      }
      var sized := if SrcBaseNetwork.Grows(mode, resizable) then Resize(data, size) else data;
      var body, bytes := ReceiveBytes(size);
      filled := Overwrite(sized, bytes);
      if body.Thrown? {
        return Done(-1), filled;
      }
      r := body;
    }
  }
}
