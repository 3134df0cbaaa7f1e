/**
 * The transfer loops that several generations of the network class share,
 * written as functions of the peer's state.  Each generation's `sendBytes` or
 * `receiveBytes` method is proved to end in the state these functions give.
 */
module Transfers {
  import opened Bytes
  import opened Socket

  /** What a send loop leaves behind: the peer and the outcome. */
  datatype Sent = Sent(state: PeerState, result: Outcome<int>)

  /** What a receive loop leaves behind: the peer, the outcome and the bytes it stored. */
  datatype Got = Got(state: PeerState, result: Outcome<int>, bytes: seq<byte>)

  /**
   * Send `data[total..]`, one `send` call at a time, until every byte went
   * out; a `SOCKET_ERROR` throws.  A call that sends nothing does not end the
   * loop.
   */
  function SendAll(s: PeerState, data: seq<byte>, total: nat): (r: Sent)
    requires total <= |data|
    ensures r.result == Thrown || r.result == Done(|data|)
    decreases |s.script|
  {
    var n := SendResult(s, |data| - total);
    var t := AfterSend(s, data[total..]);
    if n == EOF then Sent(t, Thrown)
    else if total + n < |data| then SendAll(t, data, total + n)
    else Sent(t, Done(total + n))
  }

  /**
   * Receive until `count` bytes arrived; `SOCKET_ERROR` and an orderly close
   * both throw.  `bytes` are the bytes stored from offset `total` on, also
   * when the loop throws.
   */
  function ReceiveAll(s: PeerState, count: nat, total: nat): (r: Got)
    requires total <= count
    ensures r.result == Thrown || r.result == Done(count)
    ensures total + |r.bytes| <= count
    ensures r.result.Done? ==> total + |r.bytes| == count
    decreases |s.script|
  {
    var n := RecvResult(s, count - total);
    var got := Received(s, count - total);
    var t := AfterRecv(s, count - total);
    if n == EOF || n == 0 then
      Got(t, Thrown, got)
    else if total + n < count then
      var r := ReceiveAll(t, count, total + n);
      Got(r.state, r.result, got + r.bytes)
    else
      Got(t, Done(total + n), got)
  }

  /**
   * Receive until `count` bytes arrived; `SOCKET_ERROR` throws and an orderly
   * close ends the loop early with the number of bytes received so far.
   */
  function ReceiveUntilClose(s: PeerState, count: nat, total: nat): (r: Got)
    requires total <= count
    ensures r.result == Thrown || r.result == Done(total + |r.bytes|)
    ensures total + |r.bytes| <= count
    decreases |s.script|
  {
    var n := RecvResult(s, count - total);
    var got := Received(s, count - total);
    var t := AfterRecv(s, count - total);
    if n == EOF then
      Got(t, Thrown, got)
    else if n == 0 then
      Got(t, Done(total), got)
    else if total + n < count then
      var r := ReceiveUntilClose(t, count, total + n);
      Got(r.state, r.result, got + r.bytes)
    else
      Got(t, Done(total + n), got)
  }

  /**
   * The send loop hands the peer a prefix of `data[total..]`, all of it when
   * it returns normally, and leaves the incoming bytes alone.
   */
  lemma SendAllAppends(s: PeerState, data: seq<byte>, total: nat)
    requires total <= |data|
    ensures var r := SendAll(s, data, total);
      s.outgoing <= r.state.outgoing <= s.outgoing + data[total..] &&
      (r.result.Done? ==> r.state.outgoing == s.outgoing + data[total..]) &&
      r.state.incoming == s.incoming
  {
    SendAllPrefix(s, data, total);
    SendAllDelivers(s, data, total);
  }

  lemma {:induction false} SendAllPrefix(s: PeerState, data: seq<byte>, total: nat)
    requires total <= |data|
    ensures var r := SendAll(s, data, total);
      s.outgoing <= r.state.outgoing <= s.outgoing + data[total..] && r.state.incoming == s.incoming
    decreases |s.script|
  {
    var n := SendResult(s, |data| - total);
    var t := AfterSend(s, data[total..]);
    var m := if n > 0 then n else 0;
    assert t.outgoing == s.outgoing + data[total..total + m];
    assert data[total..] == data[total..total + m] + data[total + m..];
    AppendAssoc(s.outgoing, data[total..total + m], data[total + m..]);
    if n != EOF && total + n < |data| {
      SendAllPrefix(t, data, total + n);
    }
  }

  lemma {:induction false} SendAllDelivers(s: PeerState, data: seq<byte>, total: nat)
    requires total <= |data|
    ensures var r := SendAll(s, data, total);
      r.result.Done? ==> r.state.outgoing == s.outgoing + data[total..]
    decreases |s.script|
  {
    var n := SendResult(s, |data| - total);
    var t := AfterSend(s, data[total..]);
    if n != EOF && total + n < |data| {
      assert SendAll(s, data, total) == SendAll(t, data, total + n);
      SendAllDelivers(t, data, total + n);
      assert data[total..] == data[total..total + n] + data[total + n..];
      AppendAssoc(s.outgoing, data[total..total + n], data[total + n..]);
    } else if n != EOF {
      assert data[total..][..n] == data[total..];
    }
  }

  /** The receive loop stores the bytes it takes off the front of the incoming stream, in order. */
  lemma {:induction false} ReceiveAllTakes(s: PeerState, count: nat, total: nat)
    requires total <= count
    ensures var r := ReceiveAll(s, count, total);
      s.incoming == r.bytes + r.state.incoming && r.state.outgoing == s.outgoing
    decreases |s.script|
  {
    var n := RecvResult(s, count - total);
    var got := Received(s, count - total);
    var t := AfterRecv(s, count - total);
    assert s.incoming == got + t.incoming && t.outgoing == s.outgoing;
    if n == EOF || n == 0 {
      assert ReceiveAll(s, count, total) == Got(t, Thrown, got);
    } else if total + n < count {
      var r := ReceiveAll(t, count, total + n);
      assert ReceiveAll(s, count, total) == Got(r.state, r.result, got + r.bytes);
      ReceiveAllTakes(t, count, total + n);
      AppendAssoc(got, r.bytes, r.state.incoming);
    } else {
      assert ReceiveAll(s, count, total) == Got(t, Done(total + n), got);
    }
  }

  /** The same for the loop that stops at an orderly close. */
  lemma {:induction false} ReceiveUntilCloseTakes(s: PeerState, count: nat, total: nat)
    requires total <= count
    ensures var r := ReceiveUntilClose(s, count, total);
      s.incoming == r.bytes + r.state.incoming && r.state.outgoing == s.outgoing
    decreases |s.script|
  {
    var n := RecvResult(s, count - total);
    var got := Received(s, count - total);
    var t := AfterRecv(s, count - total);
    assert s.incoming == got + t.incoming && t.outgoing == s.outgoing;
    if n == EOF {
      assert ReceiveUntilClose(s, count, total) == Got(t, Thrown, got);
    } else if n == 0 {
      assert ReceiveUntilClose(s, count, total) == Got(t, Done(total), got);
    } else if total + n < count {
      var r := ReceiveUntilClose(t, count, total + n);
      assert ReceiveUntilClose(s, count, total) == Got(r.state, r.result, got + r.bytes);
      ReceiveUntilCloseTakes(t, count, total + n);
      AppendAssoc(got, r.bytes, r.state.incoming);
    } else {
      assert ReceiveUntilClose(s, count, total) == Got(t, Done(total + n), got);
    }
  }

  /** A send that hands over nothing keeps the loop going: it ends only when every byte went out. */
  lemma SendAllSkipsEmptySends(s: PeerState, data: seq<byte>, total: nat)
    requires total < |data| && s.script != [] && s.script[0] == 0
    ensures SendAll(s, data, total) == SendAll(AfterSend(s, data[total..]), data, total)
  {
  }

  /**
   * Against a peer whose every call moves at least one byte, sending `data`
   * succeeds, appends exactly `data` and uses at most `max(|data|, 1)` calls.
   */
  lemma SendAllPositive(s: PeerState, data: seq<byte>, total: nat)
    requires total <= |data|
    requires AllPositive(s.script) && |s.script| >= Max(|data| - total, 1)
    ensures var r := SendAll(s, data, total);
      r.result == Done(|data|) && r.state.outgoing == s.outgoing + data[total..] && r.state.incoming == s.incoming &&
      AllPositive(r.state.script) && |r.state.script| >= |s.script| - Max(|data| - total, 1)
  {
    SendAllRuns(s, data, total);
    SendAllAppends(s, data, total);
  }

  lemma {:induction false} SendAllRuns(s: PeerState, data: seq<byte>, total: nat)
    requires total <= |data|
    requires AllPositive(s.script) && |s.script| >= Max(|data| - total, 1)
    ensures var r := SendAll(s, data, total);
      r.result == Done(|data|) && AllPositive(r.state.script) && |r.state.script| >= |s.script| - Max(|data| - total, 1)
    decreases |s.script|
  {
    var t := AfterSend(s, data[total..]);
    var n := SendResult(s, |data| - total);
    if total < |data| {
      SendMovesSome(s, data[total..]);
      if total + n < |data| {
        assert SendAll(s, data, total) == SendAll(t, data, total + n);
        SendAllRuns(t, data, total + n);
      }
    } else {
      assert AllPositive(t.script);
    }
  }

  /**
   * Against a peer whose every call moves at least one byte and which holds
   * `count - total` bytes, receiving succeeds after at most `count - total`
   * calls ...
   */
  lemma {:induction false} ReceiveAllRuns(s: PeerState, count: nat, total: nat)
    requires total < count
    requires AllPositive(s.script) && |s.script| >= count - total
    requires |s.incoming| >= count - total
    ensures ReceiveAll(s, count, total).result == Done(count)
    decreases |s.script|
  {
    var t := AfterRecv(s, count - total);
    var n := RecvResult(s, count - total);
    RecvMovesSome(s, count - total);
    assert 1 <= n <= count - total && |t.script| == |s.script| - 1 && AllPositive(t.script);
    if total + n < count {
      ReceiveAllContinues(s, count, total);
      assert |t.incoming| == |s.incoming| - n;
      ReceiveAllRuns(t, count, total + n);
    }
  }

  lemma {:induction false} ReceiveAllKeepsPositive(s: PeerState, count: nat, total: nat)
    requires total < count && AllPositive(s.script)
    ensures var r := ReceiveAll(s, count, total);
      AllPositive(r.state.script) && |r.state.script| >= |s.script| - (count - total)
    decreases |s.script|
  {
    var t := AfterRecv(s, count - total);
    var n := RecvResult(s, count - total);
    var r := ReceiveAll(s, count, total);
    assert AllPositive(t.script) && |t.script| >= |s.script| - 1;
    if n > 0 && total + n < count {
      ReceiveAllContinues(s, count, total);
      ReceiveAllKeepsPositive(t, count, total + n);
      assert r.state == ReceiveAll(t, count, total + n).state;
    } else {
      assert r.state == t;
    }
  }

  /** ... and then it has stored exactly the first `count - total` incoming bytes. */
  lemma ReceiveAllPositive(s: PeerState, count: nat, total: nat)
    requires total < count
    requires AllPositive(s.script) && |s.script| >= count - total
    requires |s.incoming| >= count - total
    ensures var r := ReceiveAll(s, count, total);
      r.result == Done(count) && r.bytes == s.incoming[..count - total] &&
      r.state.incoming == s.incoming[count - total..] && r.state.outgoing == s.outgoing &&
      AllPositive(r.state.script) && |r.state.script| >= |s.script| - (count - total)
  {
    ReceiveAllRuns(s, count, total);
    ReceiveAllKeepsPositive(s, count, total);
    ReceiveAllTakes(s, count, total);
  }

  /** With enough bytes waiting and no failures, the early-return loop also receives everything. */
  lemma {:induction false} ReceiveUntilCloseRuns(s: PeerState, count: nat, total: nat)
    requires total < count
    requires AllPositive(s.script) && |s.script| >= count - total
    requires |s.incoming| >= count - total
    ensures ReceiveUntilClose(s, count, total).result == Done(count)
    decreases |s.script|
  {
    var t := AfterRecv(s, count - total);
    var n := RecvResult(s, count - total);
    RecvMovesSome(s, count - total);
    assert 1 <= n <= count - total && |t.script| == |s.script| - 1 && AllPositive(t.script);
    if total + n < count {
      ReceiveUntilCloseContinues(s, count, total);
      assert |t.incoming| == |s.incoming| - n;
      ReceiveUntilCloseRuns(t, count, total + n);
    }
  }

  lemma {:induction false} ReceiveUntilCloseKeepsPositive(s: PeerState, count: nat, total: nat)
    requires total < count && AllPositive(s.script)
    ensures var r := ReceiveUntilClose(s, count, total);
      AllPositive(r.state.script) && |r.state.script| >= |s.script| - (count - total)
    decreases |s.script|
  {
    var t := AfterRecv(s, count - total);
    var n := RecvResult(s, count - total);
    var r := ReceiveUntilClose(s, count, total);
    assert AllPositive(t.script) && |t.script| >= |s.script| - 1;
    if n > 0 && total + n < count {
      ReceiveUntilCloseContinues(s, count, total);
      ReceiveUntilCloseKeepsPositive(t, count, total + n);
      assert r.state == ReceiveUntilClose(t, count, total + n).state;
    } else {
      assert r.state == t;
    }
  }

  lemma ReceiveUntilClosePositive(s: PeerState, count: nat, total: nat)
    requires total < count
    requires AllPositive(s.script) && |s.script| >= count - total
    requires |s.incoming| >= count - total
    ensures var r := ReceiveUntilClose(s, count, total);
      r.result == Done(count) && r.bytes == s.incoming[..count - total] &&
      r.state.incoming == s.incoming[count - total..] && r.state.outgoing == s.outgoing &&
      AllPositive(r.state.script) && |r.state.script| >= |s.script| - (count - total)
  {
    ReceiveUntilCloseRuns(s, count, total);
    ReceiveUntilCloseKeepsPositive(s, count, total);
    ReceiveUntilCloseTakes(s, count, total);
  }

  /** A receive result with `bytes` stored in front of what it stored. */
  function Prepend(bytes: seq<byte>, r: Got): Got {
    Got(r.state, r.result, bytes + r.bytes)
  }

  lemma PrependTwice(a: seq<byte>, b: seq<byte>, r: Got)
    ensures Prepend(a, Prepend(b, r)) == Prepend(a + b, r)
  {
    AppendAssoc(a, b, r.bytes);
  }

  /** One turn of the loop of `ReceiveAll` that neither stops nor finishes. */
  lemma ReceiveAllContinues(s: PeerState, count: nat, total: nat)
    requires total <= count
    requires RecvResult(s, count - total) > 0 && total + RecvResult(s, count - total) < count
    ensures ReceiveAll(s, count, total)
         == Prepend(Received(s, count - total), ReceiveAll(AfterRecv(s, count - total), count, total + RecvResult(s, count - total)))
  {
  }

  /** One turn of the loop of `ReceiveUntilClose` that neither stops nor finishes. */
  lemma ReceiveUntilCloseContinues(s: PeerState, count: nat, total: nat)
    requires total <= count
    requires RecvResult(s, count - total) > 0 && total + RecvResult(s, count - total) < count
    ensures ReceiveUntilClose(s, count, total)
         == Prepend(Received(s, count - total), ReceiveUntilClose(AfterRecv(s, count - total), count, total + RecvResult(s, count - total)))
  {
  }
}
