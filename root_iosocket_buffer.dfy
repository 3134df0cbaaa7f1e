/**
 * IOSocketBuffer.h (at the repository root): the oldest stream buffer, over
 * the acknowledged network of Network.h.  No result is checked: `sync`
 * always returns 0, `overflow` returns its argument, `xsputn` returns the
 * count it was given, and input `sync` publishes `[0, lastPacketSize)` as
 * the get area even when the receive reported -1.  `xsputn` grows the
 * output container only while its put pointer is null, which the model
 * takes to mean an empty container (an empty `std::vector` has a null
 * `data()` with the supported compiler).
 */
module RootIOSocketBuffer {
  import opened Bytes
  import opened Socket
  import opened Cursors
  import SrcBaseNetwork
  import RootNetwork

  type ReceiveMode = SrcBaseNetwork.ReceiveMode

  /** Output `sync`: send the payload, record what the payload's `send` returned, reset the cursor. */
  function SyncOutSpec(b: Buf, ranged: bool): (r: Step)
    requires Fits(b)
    ensures r.result == Done(0)
    ensures r.buf == b.(state := r.buf.state, last := r.buf.last, pptr := 0)
    ensures r.buf.last == EOF || 0 <= r.buf.last <= |Outgoing(b, ranged)|
  {
    var p := RootNetwork.SendDataSpec(b.state, Outgoing(b, ranged));
    Step(b.(state := p.state, last := p.result, pptr := 0), Done(0))
  }

  /**
   * Input `sync`: receive into the input container and publish
   * `[0, lastPacketSize)` as the get area, whatever the count; only a
   * receive that goes wrong (a `Fault`) stops it.
   */
  function SyncInSpec(b: Buf, mode: ReceiveMode, resizable: bool): (r: Step)
    ensures r.result == Fault || r.result == Done(0)
    ensures r.buf.out == b.out && r.buf.pptr == b.pptr && r.buf.io == b.io
    ensures r.result == Done(0) ==>
      var n := r.buf.last;
      r.buf.get == Area(0, n) && (n == EOF || 0 <= n <= |r.buf.inb|) && |b.state.incoming| >= 4 &&
      b.state.incoming == b.state.incoming[..4] + r.buf.inb[..Max(n, 0)] + r.buf.state.incoming
  {
    var d := RootNetwork.ReceiveDataSpec(b.state, b.inb, mode, resizable);
    var received := b.(state := d.state, inb := d.data);
    if d.result == Fault then Step(received, Fault)
    else Step(received.(last := d.result.value, get := Area(0, d.result.value)), Done(0))
  }

  /** `sync` serves the direction the `type` field names. */
  function SyncSpec(b: Buf, mode: ReceiveMode, resizable: bool, ranged: bool): (r: Step)
    requires Fits(b)
    ensures Fits(r.buf) && r.buf.io == b.io
    ensures r.result == Fault || r.result == Done(0)
  {
    if b.io == Input then SyncInSpec(b, mode, resizable) else SyncOutSpec(b, ranged)
  }

  /**
   * `overflow(ch)`: store `ch` under the cursor, switch to output, flush
   * and return `ch`, whatever the flush did.  With the cursor at the
   * container's end there is no slot: undefined behaviour.
   */
  function OverflowSpec(b: Buf, ch: int, ranged: bool): (r: Step)
    requires Fits(b)
    ensures r.result == Fault <==> b.pptr == |b.out|
    ensures r.result != Fault ==>
      r.result == Done(ch) && r.buf.pptr == 0 && r.buf.io == Output &&
      r.buf.out == b.out[b.pptr := Truncate(ch)] && r.buf.inb == b.inb && r.buf.get == b.get
    ensures r.result != Fault ==>
      r.buf.state == RootNetwork.SendDataSpec(b.state, if ranged then DataPart(b) + [Truncate(ch)] else r.buf.out).state
  {
    if b.pptr == |b.out| then Step(b, Fault)
    else
      var stored := b.(out := b.out[b.pptr := Truncate(ch)], pptr := b.pptr + 1, io := Output);
      assert DataPart(stored) == DataPart(b) + [Truncate(ch)];
      var r := SyncOutSpec(stored, ranged);
      Step(r.buf, Done(ch))
  }

  /**
   * The loop of `xsputn` from byte `i` on: bytes go into the put area, the
   * byte that meets the reserved slot goes through `overflow`, and what is
   * left at the end goes out through `sync`.  The count is returned
   * whatever the network did.
   */
  function PutLoop(b: Buf, data: seq<byte>, i: nat, ranged: bool): (r: Step)
    requires Fits(b) && i <= |data|
    ensures Fits(r.buf) && |r.buf.out| == |b.out|
    ensures r.result == Fault || (r.result == Done(|data|) && r.buf.pptr == 0)
    ensures b.pptr < |b.out| ==> r.result == Done(|data|)
    decreases |data| - i
  {
    if i == |data| then
      if b.pptr != 0 then Step(SyncOutSpec(b, ranged).buf, Done(|data|))
      else Step(b, Done(|data|))
    else if b.pptr == |b.out| - 1 then
      var r := OverflowSpec(b, SignedChar(data[i]), ranged);
      PutLoop(r.buf, data, i + 1, ranged)
    else if b.pptr == |b.out| then Step(b, Fault)
    else PutLoop(b.(out := b.out[b.pptr := data[i]], pptr := b.pptr + 1), data, i + 1, ranged)
  }

  /**
   * Whether `xsputn` grows the output container to the write's length:
   * allow-resize mode, a null put pointer (an empty container), and a
   * container type with `resize`.
   */
  predicate GrowsEmpty(b: Buf, mode: ReceiveMode, resizable: bool) {
    mode == SrcBaseNetwork.AllowResize && |b.out| == 0 && resizable
  }

  /** The buffer as the loop of `xsputn` starts it. */
  function PutStartIfEmpty(b: Buf, data: seq<byte>, mode: ReceiveMode, resizable: bool): (s: Buf)
    requires Fits(b) && |data| < TWO_31
    ensures Fits(s) && s.io == Output && s.state == b.state && s.inb == b.inb && s.get == b.get
    ensures GrowsEmpty(b, mode, resizable) ==> |s.out| == |data| && s.pptr == 0
    ensures !GrowsEmpty(b, mode, resizable) ==> s.out == b.out && s.pptr == b.pptr
  {
    if GrowsEmpty(b, mode, resizable) then b.(io := Output, out := Resize(b.out, |data|), pptr := 0)
    else b.(io := Output)
  }

  /** `xsputn(s, count)`: switch to output, grow an empty container in allow-resize mode, then the loop. */
  function XsputnSpec(b: Buf, data: seq<byte>, mode: ReceiveMode, resizable: bool, ranged: bool): (r: Step)
    requires Fits(b) && |data| < TWO_31
    ensures r.result == Fault || (r.result == Done(|data|) && r.buf.pptr == 0)
    ensures b.pptr < |b.out| || GrowsEmpty(b, mode, resizable) ==> r.result == Done(|data|)
  {
    PutLoop(PutStartIfEmpty(b, data, mode, resizable), data, 0, ranged)
  }

  /**
   * A write that fills a put area of exactly its length goes out as one
   * `sendData` of the whole write, and nothing else reaches the peer.
   */
  lemma {:induction false} FilledAreaIsOneSend(b: Buf, data: seq<byte>, i: nat)
    requires Fits(b) && |b.out| == |data| && i < |data|
    requires b.pptr == i && DataPart(b) == data[..i]
    ensures var r := PutLoop(b, data, i, true);
      var p := RootNetwork.SendDataSpec(b.state, data);
      r.result == Done(|data|) && r.buf.state == p.state && r.buf.last == p.result
    decreases |data| - i
  {
    if i == |data| - 1 {
      TruncateSignedChar(data[i]);
      assert DataPart(b) + [data[i]] == data;
    } else {
      var stored := b.(out := b.out[b.pptr := data[i]], pptr := b.pptr + 1);
      assert DataPart(stored) == data[..i + 1];
      FilledAreaIsOneSend(stored, data, i + 1);
    }
  }

  /**
   * Into an empty, resizable container in allow-resize mode, when every
   * call moves what it asks for, a write goes out as exactly one frame,
   * after which the two status bytes of the acknowledgement have been read.
   */
  lemma OneWriteOneFrame(b: Buf, data: seq<byte>, resizable: bool)
    requires Fits(b) && |b.out| == 0 && resizable && 0 < |data| < TWO_31
    requires |b.state.incoming| >= 2 && RootNetwork.Allows(b.state.script, [4, 1, |data|, 1])
    ensures var r := XsputnSpec(b, data, SrcBaseNetwork.AllowResize, resizable, true);
      r.result == Done(|data|) && r.buf.last == |data| &&
      r.buf.state.outgoing == b.state.outgoing + SrcBaseNetwork.Frame(data) &&
      r.buf.state.incoming == b.state.incoming[2..]
  {
    var s := PutStartIfEmpty(b, data, SrcBaseNetwork.AllowResize, resizable);
    assert DataPart(s) == data[..0];
    FilledAreaIsOneSend(s, data, 0);
    RootNetwork.SendArrives(b.state, data);
  }

  /**
   * A write is reported whole even when the peer takes none of it: with
   * every call failing, `xsputn` returns the count, and `lastPacketSize`
   * is the only trace of the failure.
   */
  lemma DeadPeerWriteReportsCount(b: Buf, data: seq<byte>, resizable: bool)
    requires Fits(b) && |b.out| == 0 && resizable && 0 < |data| < TWO_31 && b.state.script == []
    ensures var r := XsputnSpec(b, data, SrcBaseNetwork.AllowResize, resizable, true);
      r.result == Done(|data|) && r.buf.last == EOF && r.buf.state.outgoing == b.state.outgoing
  {
    var s := PutStartIfEmpty(b, data, SrcBaseNetwork.AllowResize, resizable);
    assert DataPart(s) == data[..0];
    FilledAreaIsOneSend(s, data, 0);
  }

  /**
   * `underflow()`: switch to input; refill when there is no get area; then
   * the byte under the cursor, not consumed, or eof with the area dropped.
   */
  function UnderflowSpec(b: Buf, mode: ReceiveMode, resizable: bool): (r: Step)
    ensures r.result == Fault || (r.result.Done? && -128 <= r.result.value < 128)
    ensures b.get.Area? ==> r.buf.state == b.state
    ensures r.result.Done? && r.buf.get.Area? ==>
      r.buf.get.next < r.buf.get.end && r.buf.get.next < |r.buf.inb| &&
      r.result.value == SignedChar(r.buf.inb[r.buf.get.next])
    ensures r.buf.io == Input && r.buf.out == b.out && r.buf.pptr == b.pptr
  {
    var b0 := b.(io := Input);
    PeekRest(if b.get.NoArea? then SyncInSpec(b0, mode, resizable) else Step(b0, Done(0)))
  }

  /**
   * `xsgetn(s, count)`: switch to input; refill when there is no get area;
   * 0 for an area of length 0; then the copy loop.
   */
  function XsgetnSpec(b: Buf, count: nat, mode: ReceiveMode, resizable: bool): (r: Read)
    ensures r.result == Fault || r.result.Done?
    ensures |r.bytes| <= count
    ensures b.get.Area? ==> r.buf.state == b.state
    ensures r.result == Done(-1) ==> r.bytes == [] && count == 0
    ensures r.buf.io == Input && r.buf.out == b.out && r.buf.pptr == b.pptr
  {
    var b0 := b.(io := Input);
    CopyRest(if b.get.NoArea? then SyncInSpec(b0, mode, resizable) else Step(b0, Done(0)), count)
  }

  /**
   * Reading a fresh frame: when every call moves what it asks for, asking
   * for the frame's length returns that length and exactly the payload,
   * and the two status bytes have gone back to the sender.
   */
  lemma FreshFrameIsRead(b: Buf, payload: seq<byte>, rest: seq<byte>, mode: ReceiveMode, resizable: bool)
    requires b.get.NoArea? && 0 < |payload| < TWO_31
    requires b.state.incoming == SrcBaseNetwork.Frame(payload) + rest
    requires RootNetwork.Allows(b.state.script, [4, 1, |payload|, 1])
    requires !SrcBaseNetwork.Grows(mode, resizable) ==> |payload| <= |b.inb|
    ensures var r := XsgetnSpec(b, |payload|, mode, resizable);
      r.result == Done(|payload|) && r.bytes == payload && r.buf.state.incoming == rest &&
      r.buf.state.outgoing == b.state.outgoing + [RootNetwork.STATUS, RootNetwork.STATUS] &&
      r.buf.last == |payload| && r.buf.get == Area(|payload|, |payload|)
  {
    RootNetwork.ReceiveArrives(b.state, payload, rest, b.inb, mode, resizable);
  }

  /**
   * A payload `recv` that fails is not noticed: the get area `[0, -1)` is
   * published, and `xsgetn` hands out `count` bytes of whatever the input
   * container held before.
   */
  lemma FailedReceiveReadsStaleBytes(b: Buf, count: nat, mode: ReceiveMode, resizable: bool)
    requires b.get.NoArea? && count > 0
    requires RootNetwork.ReceiveDataSpec(b.state, b.inb, mode, resizable).result == Done(EOF)
    requires count <= |RootNetwork.ReceiveDataSpec(b.state, b.inb, mode, resizable).data|
    ensures var r := XsgetnSpec(b, count, mode, resizable);
      r.result == Done(count) && r.bytes == RootNetwork.ReceiveDataSpec(b.state, b.inb, mode, resizable).data[..count]
  {
  }

  class IOSocketBuffer {
    var outBuffer: seq<byte>
    var inBuffer: seq<byte>
    const network: RootNetwork.Network
    var lastPacketSize: int
    var io: IOType
    var pptr: nat
    var get: GetArea
    /** Whether the container type has `resize`. */
    const resizable: bool
    /** Whether the container type can be built from an iterator range (so `dataPart` is used). */
    const ranged: bool

    function Snapshot(): Buf
      reads this, network.socket
    {
      Buf(network.socket.State(), outBuffer, inBuffer, pptr, get, lastPacketSize, io)
    }

    predicate Valid()
      reads this, network.socket
    {
      Fits(Snapshot())
    }

    /** The constructors that take a socket or an address: a new network, empty containers. */
    constructor (socket: Peer, resizable: bool, ranged: bool)
      ensures network.socket == socket && network.mode == SrcBaseNetwork.AllowResize
      ensures outBuffer == [] && inBuffer == [] && pptr == 0 && get == NoArea && Valid()
      ensures this.resizable == resizable && this.ranged == ranged
    {
      network := new RootNetwork.Network.Server(socket, SrcBaseNetwork.AllowResize);
      outBuffer, inBuffer := [], [];
      this.resizable, this.ranged := resizable, ranged;
      pptr, get := 0, NoArea;
    }

    /**
     * With a buffer size: zeroed containers of that size and a new network
     * asked for prohibit-resize mode, which the socket constructor of
     * Network.h ignores: the mode is allow-resize.
     */
    constructor Sized(socket: Peer, bufferSize: nat, resizable: bool, ranged: bool)
      requires bufferSize < TWO_31
      ensures network.socket == socket && network.mode == SrcBaseNetwork.AllowResize
      ensures outBuffer == Zeros(bufferSize) && inBuffer == Zeros(bufferSize) && pptr == 0 && get == NoArea && Valid()
      ensures this.resizable == resizable && this.ranged == ranged
    {
      network := new RootNetwork.Network.Server(socket, SrcBaseNetwork.ProhibitResize);
      outBuffer, inBuffer := Zeros(bufferSize), Zeros(bufferSize);
      this.resizable, this.ranged := resizable, ranged;
      pptr, get := 0, NoArea;
    }

    /** Over a network subclass: that network, with whatever mode it has. */
    constructor Over(network: RootNetwork.Network, resizable: bool, ranged: bool)
      ensures this.network == network && outBuffer == [] && inBuffer == [] && pptr == 0 && get == NoArea
      ensures this.resizable == resizable && this.ranged == ranged
    {
      this.network := network;
      outBuffer, inBuffer := [], [];
      this.resizable, this.ranged := resizable, ranged;
      pptr, get := 0, NoArea;
    }

    constructor OverSized(network: RootNetwork.Network, bufferSize: nat, resizable: bool, ranged: bool)
      requires bufferSize < TWO_31
      ensures this.network == network && outBuffer == Zeros(bufferSize) && inBuffer == Zeros(bufferSize)
      ensures pptr == 0 && get == NoArea
      ensures this.resizable == resizable && this.ranged == ranged
    {
      this.network := network;
      outBuffer, inBuffer := Zeros(bufferSize), Zeros(bufferSize);
      this.resizable, this.ranged := resizable, ranged;
      pptr, get := 0, NoArea;
    }

    /** `setPointers`: the put area is `[0, |outBuffer| - 1)`, empty; the last slot is reserved. */
    method SetPointers()
      modifies this
      ensures pptr == 0 && io == old(io) && get == old(get) && lastPacketSize == old(lastPacketSize)
      ensures outBuffer == old(outBuffer) && inBuffer == old(inBuffer)
    {
      pptr := 0;
    }

    method Sync() returns (r: Outcome<int>)
      requires Valid()
      modifies this, network.socket
      ensures Step(Snapshot(), r) == SyncSpec(old(Snapshot()), network.mode, resizable, ranged)
    {
      if io == Input {
        r := SyncInput();
      } else {
        r := SyncOutput();
      }
    }

    /** Input `sync`: receive, then publish the get area whatever the count. */
    method SyncInput() returns (r: Outcome<int>)
      modifies this, network.socket
      ensures Step(Snapshot(), r) == SyncInSpec(old(Snapshot()), network.mode, resizable)
    {
      var got, filled := network.ReceiveData(inBuffer, resizable);
      inBuffer := filled;
      if got == Fault {
        return Fault;
      }
      lastPacketSize := got.value;
      get := Area(0, lastPacketSize);
      r := Done(0);
    }

    /** Output `sync`: send, record the count, reset the cursor. */
    method SyncOutput() returns (r: Outcome<int>)
      requires Valid()
      modifies this, network.socket
      ensures Step(Snapshot(), r) == SyncOutSpec(old(Snapshot()), ranged)
    {
      var payload := Outgoing(Snapshot(), ranged);
      var sent := network.SendData(payload);
      lastPacketSize, pptr := sent, 0;
      r := Done(0);
    }

    method Overflow(ch: int) returns (r: Outcome<int>)
      requires Valid()
      modifies this, network.socket
      ensures Step(Snapshot(), r) == OverflowSpec(old(Snapshot()), ch, ranged)
    {
      if pptr == |outBuffer| {
        return Fault;
      }
      outBuffer := outBuffer[pptr := Truncate(ch)];
      pptr := pptr + 1;
      io := Output;
      ghost var stored := Snapshot();
      assert DataPart(stored) == DataPart(old(Snapshot())) + [Truncate(ch)];
      var _ := SyncOutput();
      assert Snapshot() == SyncOutSpec(stored, ranged).buf;
      r := Done(ch);
    }

    method Underflow() returns (r: Outcome<int>)
      requires Valid()
      modifies this, network.socket
      ensures Step(Snapshot(), r) == UnderflowSpec(old(Snapshot()), network.mode, resizable)
    {
      io := Input;
      var s := Refill();
      if s == Fault {
        return Fault;
      }
      var c := PeekSpec(inBuffer, get.next, get.end);
      get := c.get;
      r := c.result;
    }

    /** The refill at the start of `underflow` and `xsgetn`: input `sync`, only when there is no get area. */
    method Refill() returns (s: Outcome<int>)
      requires Valid() && io == Input
      modifies this, network.socket
      ensures s == Fault || (s == Done(0) && get.Area? && Valid())
      ensures Step(Snapshot(), s) ==
        if old(get).NoArea? then SyncInSpec(old(Snapshot()), network.mode, resizable) else Step(old(Snapshot()), Done(0))
    {
      s := Done(0);
      if get.NoArea? {
        s := SyncInput();
      }
    }

    method Xsputn(data: seq<byte>) returns (r: Outcome<int>)
      requires Valid() && |data| < TWO_31
      modifies this, network.socket
      ensures Step(Snapshot(), r) == XsputnSpec(old(Snapshot()), data, network.mode, resizable, ranged)
    {
      io := Output;
      var mode := network.GetResizeMode();
      if mode == SrcBaseNetwork.AllowResize && |outBuffer| == 0 && resizable {
        outBuffer := Resize(outBuffer, |data|);
        SetPointers();
      }
      assert Snapshot() == PutStartIfEmpty(old(Snapshot()), data, network.mode, resizable);
      ghost var goal := PutLoop(Snapshot(), data, 0, ranged);
      for i := 0 to |data|
        invariant Valid() && io == Output
        invariant PutLoop(Snapshot(), data, i, ranged) == goal
      {
        var stop;
        stop, r := PutOne(data, i);
        if stop {
          return;
        }
      }
      r := PutEnd(data);
    }

    /** The end of `xsputn`: what is left in the put area goes out through `sync`, whose result is ignored. */
    method PutEnd(data: seq<byte>) returns (r: Outcome<int>)
      requires Valid() && io == Output
      modifies this, network.socket
      ensures Step(Snapshot(), r) == PutLoop(old(Snapshot()), data, |data|, ranged)
    {
      if pptr != 0 {
        var _ := SyncOutput();
      }
      r := Done(|data|);
    }

    /** One turn of the loop of `xsputn`: store byte `i`, or hand it to `overflow` and ignore the result. */
    method PutOne(data: seq<byte>, i: nat) returns (stop: bool, r: Outcome<int>)
      requires Valid() && io == Output && i < |data|
      modifies this, network.socket
      ensures !stop ==> Valid() && io == Output
      ensures !stop ==> PutLoop(Snapshot(), data, i + 1, ranged) == PutLoop(old(Snapshot()), data, i, ranged)
      ensures stop ==> Step(Snapshot(), r) == PutLoop(old(Snapshot()), data, i, ranged)
    {
      if pptr == |outBuffer| - 1 {
        ghost var before := Snapshot();
        var o := Overflow(SignedChar(data[i]));
        assert Step(Snapshot(), o) == OverflowSpec(before, SignedChar(data[i]), ranged);
        assert PutLoop(before, data, i, ranged) == PutLoop(Snapshot(), data, i + 1, ranged);
        return false, Done(0);
      } else if pptr == |outBuffer| {
        return true, Fault;
      }
      outBuffer := outBuffer[pptr := data[i]];
      pptr := pptr + 1;
      return false, Done(0);
    }

    method Xsgetn(count: nat) returns (r: Outcome<int>, bytes: seq<byte>)
      requires Valid()
      modifies this, network.socket
      ensures Read(Snapshot(), r, bytes) == XsgetnSpec(old(Snapshot()), count, network.mode, resizable)
    {
      io := Input;
      var s := Refill();
      if s == Fault {
        return Fault, [];
      }
      var size := get.end;
      if size == 0 {
        return Done(0), [];
      }
      var c := CopyOut(inBuffer, get.next, get.end, count);
      get := c.get;
      r, bytes := c.result, c.bytes;
    }

    method SetInputType()
      modifies this
      ensures io == Input && pptr == old(pptr) && get == old(get) && outBuffer == old(outBuffer)
      ensures inBuffer == old(inBuffer) && lastPacketSize == old(lastPacketSize)
    {
      io := Input;
    }

    method SetOutputType()
      modifies this
      ensures io == Output && pptr == old(pptr) && get == old(get) && outBuffer == old(outBuffer)
      ensures inBuffer == old(inBuffer) && lastPacketSize == old(lastPacketSize)
    {
      io := Output;
    }

    method GetLastPacketSize() returns (n: int)
      ensures n == lastPacketSize
    {
      n := lastPacketSize;
    }
  }
}
