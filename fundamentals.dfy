/**
 * The scalar transfers and stream state bits that src/BaseIOSocketStream.h
 * and src/IOSocketStream.h write the same way.  `sendFundamental(value)`
 * hands the `sizeof(T)` bytes of a scalar's object representation to the
 * `sendBytes` loop of src/BaseNetwork.h, with no length prefix;
 * `receiveFundamental(value)` fills those bytes through `receiveBytes`.
 * A `WebException` from either loop is logged, sets failbit unless the
 * stream already failed, and propagates.  A scalar is its bytes: the model
 * never interprets them, so every `bool`, integer and floating-point
 * overload is the same transfer at a different width.
 */
module Fundamentals {
  import opened Bytes
  import opened Socket
  import opened Transfers

  /** A stream's `rdstate()`: badbit, failbit and eofbit. */
  datatype IOState = IOState(bad: bool, fail: bool, eof: bool)

  /**
   * What `rdbuf(sb)` leaves behind: it calls `clear()`, which sets badbit
   * exactly when the stream has no buffer.
   */
  function Cleared(hasBuffer: bool): IOState {
    IOState(!hasBuffer, false, false)
  }

  /** `fail()`: failbit or badbit is set. */
  predicate Fail(st: IOState) {
    st.fail || st.bad
  }

  /**
   * `if (!fail()) setstate(failbit)`: a stream that has not failed gets
   * failbit; one that has failed is left as it is.  No bit is ever cleared.
   */
  function Failed(st: IOState): (t: IOState)
    ensures Fail(t) && t.bad == st.bad && t.eof == st.eof
    ensures Fail(st) ==> t == st
    ensures !Fail(st) ==> t.fail
  {
    if Fail(st) then st else st.(fail := true)
  }

  /** What a scalar transfer leaves: the peer, the stream bits, the result and the scalar's bytes. */
  datatype Scalar = Scalar(state: PeerState, bits: IOState, result: Outcome<int>, value: seq<byte>)

  /**
   * `sendFundamental(value)`: the bytes of `value` go out through the send
   * loop, and only they; the result is their count, or a throw (failbit).
   */
  function SendFundamentalSpec(s: PeerState, st: IOState, value: seq<byte>): (r: Scalar)
    ensures r.result == Thrown || r.result == Done(|value|)
    ensures r.result.Done? ==> r.bits == st
    ensures r.result == Thrown ==> r.bits == Failed(st)
    ensures r.value == value && r.state.incoming == s.incoming
    ensures s.outgoing <= r.state.outgoing <= s.outgoing + value
    ensures r.result.Done? ==> r.state.outgoing == s.outgoing + value
  {
    var x := SendAll(s, value, 0);
    SendAllAppends(s, value, 0);
    assert value[0..] == value;
    Scalar(x.state, if x.result == Thrown then Failed(st) else st, x.result, value)
  }

  /**
   * `receiveFundamental(value)`: the receive loop stores the next bytes at
   * the start of `value`, all `sizeof(T)` of them unless it throws (on
   * `SOCKET_ERROR` or an orderly close), in which case failbit is set and
   * the bytes that did arrive are already stored.
   */
  function ReceiveFundamentalSpec(s: PeerState, st: IOState, value: seq<byte>): (r: Scalar)
    ensures r.result == Thrown || r.result == Done(|value|)
    ensures r.result.Done? ==> r.bits == st
    ensures r.result == Thrown ==> r.bits == Failed(st)
    ensures |r.value| == |value| && r.state.outgoing == s.outgoing
    ensures var k := |s.incoming| - |r.state.incoming|;
      0 <= k <= |value| && s.incoming == r.value[..k] + r.state.incoming && r.value[k..] == value[k..]
    ensures r.result.Done? ==>
      |value| <= |s.incoming| && r.value == s.incoming[..|value|] && r.state.incoming == s.incoming[|value|..]
  {
    var x := ReceiveAll(s, |value|, 0);
    ReceiveAllTakes(s, |value|, 0);
    Scalar(x.state, if x.result == Thrown then Failed(st) else st, x.result, Overwrite(value, x.bytes))
  }

  /**
   * A scalar sent by one stream arrives whole at the other: the receiver,
   * whose incoming bytes start with what the sender put on the wire and
   * whose every call moves something, gets back exactly the sent bytes.
   */
  lemma ScalarRoundTrip(sender: PeerState, st: IOState, value: seq<byte>,
                        receiver: PeerState, st2: IOState, slot: seq<byte>, rest: seq<byte>)
    requires 0 < |value| == |slot|
    requires SendFundamentalSpec(sender, st, value).result.Done?
    requires receiver.incoming == SendFundamentalSpec(sender, st, value).state.outgoing[|sender.outgoing|..] + rest
    requires AllPositive(receiver.script) && |receiver.script| >= |value|
    ensures var r := ReceiveFundamentalSpec(receiver, st2, slot);
      r.result == Done(|value|) && r.value == value && r.state.incoming == rest && r.bits == st2
  {
    var wire := SendFundamentalSpec(sender, st, value).state.outgoing;
    assert wire[|sender.outgoing|..] == value;
    ReceiveAllPositive(receiver, |slot|, 0);
    assert (value + rest)[..|value|] == value && (value + rest)[|value|..] == rest;
  }

  /** A peer that closes the connection in place of the scalar's bytes makes the stream fail. */
  lemma ClosedPeerFailsStream(s: PeerState, st: IOState, value: seq<byte>)
    requires 0 < |value| && s.script != [] && s.script[0] == 0
    ensures var r := ReceiveFundamentalSpec(s, st, value);
      r.result == Thrown && Fail(r.bits) && r.value == value
  {
    assert ReceiveAll(s, |value|, 0).bytes == [];
  }
}
