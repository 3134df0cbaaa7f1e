/**
 * src/Network.cpp: a non-template network class whose header is not part of
 * this model.  Its `sendBytes` and `receiveBytes` are the two-argument
 * loops of src/BaseNetwork.h, so the transfers are `SendAll` and
 * `ReceiveAll`.  `receiveData` has no receive mode: it grows the container
 * when it is shorter than the announced length and never shrinks it.
 */
module SrcNetworkCpp {
  import opened Bytes
  import opened Socket
  import opened Transfers
  import SrcBaseNetwork

  /** `SO_SNDTIMEO`/`SO_RCVTIMEO` as a `timeval`: whole seconds and the remaining microseconds. */
  datatype TimeVal = TimeVal(sec: int, usec: int)

  /** The constructor's split of a timeout in milliseconds (a `DWORD`). */
  function TimeoutSplit(timeout: nat): (t: TimeVal)
    requires timeout < TWO_32
    ensures t.sec * 1_000_000 + t.usec == timeout * 1000
    ensures 0 <= t.usec < 1_000_000 && 0 <= t.sec
  {
    var sec := timeout / 1000;
    TimeVal(sec, (timeout - sec * 1000) * 1000)
  }

  /**
   * `receiveData` (both overloads): the 4-byte length, then, when the
   * container is shorter, a resize to that length, then the payload into
   * its start.  A negative length compares as a huge unsigned value, so the
   * resize is asked for an impossible size: a `Fault`.
   */
  function ReceiveDataSpec(s: PeerState, data: seq<byte>): (r: SrcBaseNetwork.Delivery)
    ensures r.state.outgoing == s.outgoing
    ensures r.result == Fault || r.result == Done(-1) || (r.result.Done? && 0 < r.result.value < TWO_31)
    ensures r.result != Fault ==> |data| <= |r.data|
    ensures r.result.Done? && r.result.value > 0 ==>
      var n := r.result.value;
      |r.data| == Max(|data|, n) && s.incoming == EncodeInt32(n) + r.data[..n] + r.state.incoming &&
      r.data[n..] == (if n < |data| then data[n..] else [])
  {
    var head := ReceiveAll(s, 4, 0);
    ReceiveAllTakes(s, 4, 0);
    if head.result.Thrown? then SrcBaseNetwork.Delivery(head.state, Done(-1), data)
    else
      var size := DecodeInt32(head.bytes);
      if size < 0 then SrcBaseNetwork.Delivery(head.state, Fault, data)
      else
        var sized := if |data| < size then Resize(data, size) else data;
        var body := ReceiveAll(head.state, size, 0);
        ReceiveAllTakes(head.state, size, 0);
        var filled := Overwrite(sized, body.bytes);
        if body.result.Thrown? then SrcBaseNetwork.Delivery(body.state, Done(-1), filled)
        else
          EncodeDecode(head.bytes);
          AppendAssoc(head.bytes, body.bytes, body.state.incoming);
          SrcBaseNetwork.Delivery(body.state, body.result, filled)
  }

  /**
   * Round trip: the frame `sendData` produces comes back as the announced
   * count with the payload at the start of the container; the container's
   * bytes past the payload are the old ones.
   */
  lemma FrameRoundTrip(sender: PeerState, payload: seq<byte>, receiver: PeerState, rest: seq<byte>, data: seq<byte>)
    requires 0 < |payload| < TWO_31
    requires SrcBaseNetwork.SendDataSpec(sender, payload).result == |payload|
    requires receiver.incoming == SrcBaseNetwork.SendDataSpec(sender, payload).state.outgoing[|sender.outgoing|..] + rest
    requires AllPositive(receiver.script) && |receiver.script| >= 4 + |payload|
    ensures var r := ReceiveDataSpec(receiver, data);
      r.result == Done(|payload|) && r.data[..|payload|] == payload && r.state.incoming == rest &&
      |r.data| == Max(|data|, |payload|)
  {
    SrcBaseNetwork.SentFrame(sender, payload);
    SrcBaseNetwork.FrameHeadArrives(receiver, payload, rest);
    var head := ReceiveAll(receiver, 4, 0);
    ReceiveAllPositive(head.state, |payload|, 0);
    assert (payload + rest)[..|payload|] == payload;
    assert (payload + rest)[|payload|..] == rest;
  }

  /** As in src/BaseNetwork.h, a frame with an empty payload is reported as a failure (-1). */
  lemma EmptyFrameIsNeverReceived(receiver: PeerState, data: seq<byte>)
    requires ReceiveAll(receiver, 4, 0).result.Done?
    requires DecodeInt32(ReceiveAll(receiver, 4, 0).bytes) == 0
    ensures ReceiveDataSpec(receiver, data).result == Done(-1)
  {
    SrcBaseNetwork.ReceivingNothingThrows(ReceiveAll(receiver, 4, 0).state);
  }

  class Network {
    const socket: Peer

    /** The server-side constructor; the client-side one also connects, which is not modelled. */
    constructor (socket: Peer)
      ensures this.socket == socket
    {
      this.socket := socket;
    }

    /**
     * `sendData` (the vector and the `string_view` overload alike): the same
     * frame as src/BaseNetwork.h, so identical content gives identical bytes.
     */
    method SendData(data: seq<byte>) returns (r: int)
      requires |data| < TWO_31
      modifies socket
      ensures SrcBaseNetwork.Posted(socket.State(), r) == SrcBaseNetwork.SendDataSpec(old(socket.State()), data)
    {
      var sent := SrcBaseNetwork.SendBytes(socket, EncodeInt32(|data|));
      if sent.Thrown? {
        return -1;
      }
      var body := SrcBaseNetwork.SendBytes(socket, data);
      if body.Thrown? {
        return -1;
      }
      r := body.value;
    }

    /** `receiveData` (the vector and the string overload alike). */
    method ReceiveData(data: seq<byte>) returns (r: Outcome<int>, filled: seq<byte>)
      modifies socket
      ensures SrcBaseNetwork.Delivery(socket.State(), r, filled) == ReceiveDataSpec(old(socket.State()), data)
    {
      var head, lengthBytes := SrcBaseNetwork.ReceiveBytes(socket, 4);
      if head.Thrown? {
        return Done(-1), data;
      }
      var size := DecodeInt32(lengthBytes);
      if size < 0 {
        return Fault, data;
      }
      var sized := data;
      if |sized| < size {
        sized := Resize(sized, size);
      }
      var body, bytes := SrcBaseNetwork.ReceiveBytes(socket, size);
      filled := Overwrite(sized, bytes);
      if body.Thrown? {
        return Done(-1), filled;
      }
      r := body;
    }
  }
}
