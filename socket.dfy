/**
 * The operating system's TCP socket, seen from one end of a connection.
 *
 * The peer is abstract: every `send` or `recv` call consumes the next entry of
 * a script chosen by whoever drives the model.  A negative entry makes the
 * call fail with `SOCKET_ERROR`; an entry `k >= 0` lets the call move at most
 * `k` bytes, so `0` is an orderly close when bytes were asked for.  Once the
 * script is used up every further call fails, as a call that times out does.
 * A call asking for zero bytes moves none and returns 0.
 */
module Socket {
  import opened Bytes

  datatype Call = SendCall(requested: nat, result: int) | RecvCall(requested: nat, result: int)

  /**
   * `outgoing`: every byte the peer has accepted, in order;
   * `incoming`: the bytes the peer will still deliver, in order;
   * `script`: the results of the coming calls; `trace`: every call made.
   */
  datatype PeerState = PeerState(outgoing: seq<byte>, incoming: seq<byte>, script: seq<int>, trace: seq<Call>)

  function Head(script: seq<int>): int {
    if script == [] then EOF else script[0]
  }

  function Tail(script: seq<int>): (t: seq<int>)
    ensures script != [] ==> |t| == |script| - 1
  {
    if script == [] then [] else script[1..]
  }

  /** The return value of `send(socket, data, n, 0)`. */
  function SendResult(s: PeerState, n: nat): (r: int)
    ensures r == EOF || 0 <= r <= n
    ensures r != EOF ==> s.script != []
  {
    var e := Head(s.script);
    if e < 0 then EOF else Min(e, n)
  }

  /** The peer after `send(socket, data, |data|, 0)`. */
  function AfterSend(s: PeerState, data: seq<byte>): (t: PeerState)
    ensures t.incoming == s.incoming && t.script == Tail(s.script)
    ensures var r := SendResult(s, |data|);
      t.outgoing == s.outgoing + (if r > 0 then data[..r] else [])
  {
    var r := SendResult(s, |data|);
    PeerState(s.outgoing + (if r > 0 then data[..r] else []), s.incoming, Tail(s.script),
              s.trace + [SendCall(|data|, r)])
  }

  /** The return value of `recv(socket, buffer, n, 0)`. */
  function RecvResult(s: PeerState, n: nat): (r: int)
    ensures r == EOF || (0 <= r <= n && r <= |s.incoming|)
    ensures r != EOF ==> s.script != []
  {
    var e := Head(s.script);
    if e < 0 then EOF else Min(Min(e, n), |s.incoming|)
  }

  /** The bytes `recv(socket, buffer, n, 0)` stores in `buffer`. */
  function Received(s: PeerState, n: nat): (got: seq<byte>)
    ensures |got| == if RecvResult(s, n) > 0 then RecvResult(s, n) else 0
  {
    var r := RecvResult(s, n);
    if r > 0 then s.incoming[..r] else []
  }

  /** The peer after `recv(socket, buffer, n, 0)`. */
  function AfterRecv(s: PeerState, n: nat): (t: PeerState)
    ensures t.outgoing == s.outgoing && t.script == Tail(s.script)
    ensures s.incoming == Received(s, n) + t.incoming
  {
    var got := Received(s, n);
    PeerState(s.outgoing, s.incoming[|got|..], Tail(s.script), s.trace + [RecvCall(n, RecvResult(s, n))])
  }

  /** Every remaining call of the script moves at least one byte. */
  predicate AllPositive(script: seq<int>) {
    script == [] || (script[0] > 0 && AllPositive(script[1..]))
  }

  lemma SendMovesSome(s: PeerState, data: seq<byte>)
    requires AllPositive(s.script) && s.script != [] && data != []
    ensures SendResult(s, |data|) >= 1
    ensures AllPositive(AfterSend(s, data).script)
  {
  }

  lemma RecvMovesSome(s: PeerState, n: nat)
    requires AllPositive(s.script) && s.script != [] && n > 0 && s.incoming != []
    ensures RecvResult(s, n) >= 1
    ensures AllPositive(AfterRecv(s, n).script)
  {
  }

  class Peer {
    var outgoing: seq<byte>
    var incoming: seq<byte>
    var script: seq<int>
    var trace: seq<Call>

    function State(): PeerState
      reads this
    {
      PeerState(outgoing, incoming, script, trace)
    }

    constructor (incoming: seq<byte>, script: seq<int>)
      ensures State() == PeerState([], incoming, script, [])
    {
      this.outgoing := [];
      this.incoming := incoming;
      this.script := script;
      this.trace := [];
    }

    method Send(data: seq<byte>) returns (r: int)
      modifies this
      ensures r == SendResult(old(State()), |data|)
      ensures State() == AfterSend(old(State()), data)
    {
      r := SendResult(State(), |data|);
      outgoing := outgoing + (if r > 0 then data[..r] else []);
      script := Tail(script);
      trace := trace + [SendCall(|data|, r)];
    }

    method Recv(n: nat) returns (r: int, got: seq<byte>)
      modifies this
      ensures r == RecvResult(old(State()), n) && got == Received(old(State()), n)
      ensures State() == AfterRecv(old(State()), n)
    {
      r := RecvResult(State(), n);
      got := Received(State(), n);
      incoming := incoming[|got|..];
      script := Tail(script);
      trace := trace + [RecvCall(n, r)];
    }
  }
}
