/**
 * Network.h (at the repository root): the oldest, Windows-only network class.
 * Every transfer is a single socket call whose result is not checked, and
 * each frame is acknowledged: the receiver answers the length and the payload
 * with one status byte (the value 1) each, and the sender reads both.
 */
module RootNetwork {
  import opened Bytes
  import opened Socket
  import SrcBaseNetwork

  type ReceiveMode = SrcBaseNetwork.ReceiveMode

  /** The status byte the receiver sends after the length and after the payload. */
  const STATUS: byte := 1

  /** The first `|sizes|` calls of the script each move at least the size asked for. */
  predicate Allows(script: seq<int>, sizes: seq<nat>) {
    |script| >= |sizes| && forall i :: 0 <= i < |sizes| ==> script[i] >= sizes[i]
  }

  /** A one-byte status call in the other direction from `c`. */
  predicate Answers(c: Call, d: Call) {
    d.requested == 1 && d.SendCall? == c.RecvCall?
  }

  /** The last four calls of `trace` are the acknowledged exchange: `first`, a status, `third`, a status. */
  predicate Handshake(trace: seq<Call>, first: Call, third: Call)
    requires |trace| >= 4
  {
    var k := |trace| - 4;
    trace[k] == first && Answers(first, trace[k + 1]) && trace[k + 2] == third && Answers(first, trace[k + 3])
  }

  /** One acknowledged send: `send` the bytes with a single call, then read a status byte. */
  function Acked(s: PeerState, data: seq<byte>): (t: PeerState)
    ensures t.outgoing == s.outgoing + data[..Max(SendResult(s, |data|), 0)]
    ensures |s.incoming| - 1 <= |t.incoming| <= |s.incoming| && s.incoming[|s.incoming| - |t.incoming|..] == t.incoming
    ensures t.script == Tail(Tail(s.script))
    ensures |t.trace| == |s.trace| + 2 && s.trace <= t.trace && t.trace[|s.trace|] == SendCall(|data|, SendResult(s, |data|))
    ensures t.trace[|s.trace| + 1].RecvCall? && t.trace[|s.trace| + 1].requested == 1
  {
    var sent := AfterSend(s, data);
    assert SendResult(s, |data|) <= 0 ==> data[..Max(SendResult(s, |data|), 0)] == [];
    var t := AfterRecv(sent, 1);
    assert s.incoming[|s.incoming| - |t.incoming|..] == t.incoming by {
      assert s.incoming == Received(sent, 1) + t.incoming;
    }
    t
  }

  /**
   * `sendData` (both overloads): send the 4-byte length, read a status byte,
   * send the payload, read a status byte.  Every call is made once; the
   * result is what the payload's `send` returned.
   */
  function SendDataSpec(s: PeerState, payload: seq<byte>): (r: SrcBaseNetwork.Posted)
    requires |payload| < TWO_31
    ensures r.result == EOF || 0 <= r.result <= |payload|
    ensures var sent := Max(r.result, 0);
      |s.outgoing| + sent <= |r.state.outgoing| <= |s.outgoing| + 4 + sent &&
      s.outgoing <= r.state.outgoing && r.state.outgoing[|r.state.outgoing| - sent..] == payload[..sent]
    ensures |s.incoming| - 2 <= |r.state.incoming| <= |s.incoming| && s.incoming[|s.incoming| - |r.state.incoming|..] == r.state.incoming
    ensures |r.state.trace| == |s.trace| + 4 && s.trace <= r.state.trace
    ensures Handshake(r.state.trace, SendCall(4, SendResult(s, 4)), SendCall(|payload|, r.result))
  {
    var length := Acked(s, EncodeInt32(|payload|));
    var n := SendResult(length, |payload|);
    var done := Acked(length, payload);
    var head := EncodeInt32(|payload|)[..Max(SendResult(s, 4), 0)];
    var body := payload[..Max(n, 0)];
    assert done.outgoing == s.outgoing + head + body;
    assert done.outgoing[|done.outgoing| - |body|..] == body;
    assert s.incoming[|s.incoming| - |done.incoming|..] == done.incoming by {
      var k := |s.incoming| - |length.incoming|;
      assert s.incoming[k..][|length.incoming| - |done.incoming|..] == done.incoming;
    }
    SrcBaseNetwork.Posted(done, n)
  }

  /**
   * `receiveData` (both overloads): read the length with one `recv` into an
   * uninitialised `__int32`, send a status byte, resize when the mode allows
   * it and the container can (shrinking as well as growing), read the
   * payload with one `recv` into the container's start, send a status byte.
   * A length read that returns anything but 4 leaves the length
   * indeterminate, and a negative length, or one larger than a container
   * that does not resize, makes the resize or the `recv` go wrong: a `Fault`.
   * The result is what the payload's `recv` returned.
   */
  function ReceiveDataSpec(s: PeerState, data: seq<byte>, mode: ReceiveMode, resizable: bool): (r: SrcBaseNetwork.Delivery)
    ensures r.result != Fault ==> |s.incoming| >= 4 && 0 <= DecodeInt32(s.incoming[..4])
    ensures r.result != Fault ==>
      var size := DecodeInt32(s.incoming[..4]);
      r.result.Done? && (r.result.value == EOF || 0 <= r.result.value <= size) &&
      |r.data| == (if SrcBaseNetwork.Grows(mode, resizable) then size else |data|)
    ensures r.result != Fault ==>
      var n := Max(r.result.value, 0);
      n <= |r.data| && s.incoming == s.incoming[..4] + r.data[..n] + r.state.incoming &&
      r.data[n..] == (if SrcBaseNetwork.Grows(mode, resizable) then Resize(data, |r.data|) else data)[n..]
    ensures r.result != Fault ==>
      s.outgoing <= r.state.outgoing <= s.outgoing + [STATUS, STATUS] &&
      |r.state.trace| == |s.trace| + 4 && s.trace <= r.state.trace &&
      Handshake(r.state.trace, RecvCall(4, 4), RecvCall(DecodeInt32(s.incoming[..4]), r.result.value))
  {
    var head := RecvResult(s, 4);
    var length := AfterRecv(s, 4);
    if head != 4 then SrcBaseNetwork.Delivery(length, Fault, data)
    else
      var lengthBytes := Received(s, 4);
      assert lengthBytes == s.incoming[..4];
      var size := DecodeInt32(lengthBytes);
      var ack := AfterSend(length, [STATUS]);
      var grows := SrcBaseNetwork.Grows(mode, resizable);
      if size < 0 || (!grows && size > |data|) then SrcBaseNetwork.Delivery(ack, Fault, data)
      else
        var sized := if grows then Resize(data, size) else data;
        var n := RecvResult(ack, size);
        var bytes := Received(ack, size);
        var body := AfterRecv(ack, size);
        var done := AfterSend(body, [STATUS]);
        AppendAssoc(lengthBytes, bytes, body.incoming);
        SrcBaseNetwork.Delivery(done, Done(n), Overwrite(sized, bytes))
  }

  /**
   * Round trip: when every call moves what it asks for, the frame that
   * `sendData` writes comes back from `receiveData` at the other end as its
   * length, with the payload at the container's start; the receiver answers
   * with exactly two status bytes and the sender reads exactly two bytes.
   */
  lemma Exchange(sender: PeerState, payload: seq<byte>, receiver: PeerState, rest: seq<byte>,
                 data: seq<byte>, mode: ReceiveMode, resizable: bool)
    requires |payload| < TWO_31 && |sender.incoming| >= 2
    requires Allows(sender.script, [4, 1, |payload|, 1])
    requires receiver.incoming == SrcBaseNetwork.Frame(payload) + rest
    requires Allows(receiver.script, [4, 1, |payload|, 1])
    requires !SrcBaseNetwork.Grows(mode, resizable) ==> |payload| <= |data|
    ensures var w := SendDataSpec(sender, payload);
      w.result == |payload| && w.state.outgoing == sender.outgoing + SrcBaseNetwork.Frame(payload) &&
      w.state.incoming == sender.incoming[2..]
    ensures var r := ReceiveDataSpec(receiver, data, mode, resizable);
      r.result == Done(|payload|) && r.data[..|payload|] == payload && r.state.incoming == rest &&
      r.state.outgoing == receiver.outgoing + [STATUS, STATUS]
  {
    SendArrives(sender, payload);
    ReceiveArrives(receiver, payload, rest, data, mode, resizable);
  }

  lemma SendArrives(s: PeerState, payload: seq<byte>)
    requires |payload| < TWO_31 && |s.incoming| >= 2
    requires Allows(s.script, [4, 1, |payload|, 1])
    ensures var w := SendDataSpec(s, payload);
      w.result == |payload| && w.state.outgoing == s.outgoing + SrcBaseNetwork.Frame(payload) &&
      w.state.incoming == s.incoming[2..]
  {
    assert s.script[0] >= 4 && s.script[1] >= 1 && s.script[2] >= |payload| && s.script[3] >= 1;
    var length := AfterSend(s, EncodeInt32(|payload|));
    assert length.outgoing == s.outgoing + EncodeInt32(|payload|);
    var ack := AfterRecv(length, 1);
    assert ack.script == s.script[2..];
    assert SendResult(ack, |payload|) == |payload|;
    var body := AfterSend(ack, payload);
    assert body.script == s.script[3..];
    assert body.outgoing == s.outgoing + EncodeInt32(|payload|) + payload;
    assert ack.incoming == s.incoming[1..];
  }

  lemma ReceiveArrives(s: PeerState, payload: seq<byte>, rest: seq<byte>, data: seq<byte>,
                       mode: ReceiveMode, resizable: bool)
    requires |payload| < TWO_31
    requires s.incoming == SrcBaseNetwork.Frame(payload) + rest
    requires Allows(s.script, [4, 1, |payload|, 1])
    requires !SrcBaseNetwork.Grows(mode, resizable) ==> |payload| <= |data|
    ensures var r := ReceiveDataSpec(s, data, mode, resizable);
      r.result == Done(|payload|) && r.data[..|payload|] == payload && r.state.incoming == rest &&
      r.state.outgoing == s.outgoing + [STATUS, STATUS]
  {
    assert s.script[0] >= 4 && s.script[1] >= 1 && s.script[2] >= |payload| && s.script[3] >= 1;
    SrcBaseNetwork.FrameSplits(payload, rest);
    DecodeEncode(|payload|);
    assert RecvResult(s, 4) == 4;
    assert Received(s, 4) == EncodeInt32(|payload|);
    var length := AfterRecv(s, 4);
    assert length.incoming == payload + rest;
    var ack := AfterSend(length, [STATUS]);
    assert ack.script == s.script[2..];
    assert RecvResult(ack, |payload|) == |payload|;
    assert Received(ack, |payload|) == payload;
    var body := AfterRecv(ack, |payload|);
    assert body.incoming == rest by {
      assert (payload + rest)[|payload|..] == rest;
    }
    assert body.script == s.script[3..];
    var done := AfterSend(body, [STATUS]);
    var sized := if SrcBaseNetwork.Grows(mode, resizable) then Resize(data, |payload|) else data;
    assert ReceiveDataSpec(s, data, mode, resizable) ==
      SrcBaseNetwork.Delivery(done, Done(|payload|), Overwrite(sized, payload));
  }

  /**
   * Unlike the later generations, a payload the socket takes only in part is
   * not retried: `sendData` reports the part.
   */
  lemma PartialSendIsNotRetried(s: PeerState, payload: seq<byte>, k: nat)
    requires |payload| < TWO_31 && 0 < k < |payload|
    requires |s.script| >= 3 && s.script[0] >= 0 && s.script[1] >= 0 && s.script[2] == k
    ensures SendDataSpec(s, payload).result == k
  {
    var ack := AfterRecv(AfterSend(s, EncodeInt32(|payload|)), 1);
    assert ack.script == s.script[2..];
  }

  /** A peer that closes before the whole length arrived leaves the length indeterminate. */
  lemma ShortLengthFaults(s: PeerState, data: seq<byte>, mode: ReceiveMode, resizable: bool)
    requires |s.incoming| < 4
    ensures ReceiveDataSpec(s, data, mode, resizable).result == Fault
  {
  }

  class Network {
    const socket: Peer
    var mode: ReceiveMode

    /** The client-side constructor keeps the mode it is given (connecting is not modelled). */
    constructor Client(socket: Peer, mode: ReceiveMode)
      ensures this.socket == socket && this.mode == mode
    {
      this.socket := socket;
      this.mode := mode;
    }

    /** The server-side constructor ignores its mode argument. */
    constructor Server(socket: Peer, mode: ReceiveMode)
      ensures this.socket == socket && this.mode == SrcBaseNetwork.AllowResize
    {
      this.socket := socket;
      this.mode := SrcBaseNetwork.AllowResize;
    }

    method SetReceiveMode(mode: ReceiveMode)
      modifies this
      ensures this.mode == mode
    {
      this.mode := mode;
    }

    method GetResizeMode() returns (m: ReceiveMode)
      ensures m == mode
    {
      m := mode;
    }

    method SendData(data: seq<byte>) returns (r: int)
      requires |data| < TWO_31
      modifies socket
      ensures SrcBaseNetwork.Posted(socket.State(), r) == SendDataSpec(old(socket.State()), data)
    {
      var _ := socket.Send(EncodeInt32(|data|));
      var _, _ := socket.Recv(1);
      r := socket.Send(data);
      var _, _ := socket.Recv(1);
    }

    /** `receiveData`; `resizable` is false for a container overload whose type has no `resize`. */
    method ReceiveData(data: seq<byte>, resizable: bool) returns (r: Outcome<int>, filled: seq<byte>)
      modifies socket
      ensures SrcBaseNetwork.Delivery(socket.State(), r, filled) == ReceiveDataSpec(old(socket.State()), data, mode, resizable)
    {
      var head, lengthBytes := socket.Recv(4);
      if head != 4 {
        return Fault, data;
      }
      var size := DecodeInt32(lengthBytes);
      var _ := socket.Send([STATUS]);
      var grows := SrcBaseNetwork.Grows(mode, resizable);
      if size < 0 || (!grows && size > |data|) {
        return Fault, data;
      }
      var sized := if grows then Resize(data, size) else data;
      var n, bytes := socket.Recv(size);
      filled := Overwrite(sized, bytes);
      var _ := socket.Send([STATUS]);
      r := Done(n);
    }
  }
}
