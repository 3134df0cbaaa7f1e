/**
 * src/BaseIOSocketBuffer.h: the stream buffer of the newest generation,
 * over the framed connection of src/BaseNetwork.h.  Every flush of the put
 * area is one frame; every refill of the get area is one frame.  `sync`
 * returns -1 when the network reports failure, and `overflow` and `xsputn`
 * pass that on.  The default constructor (no network at all) is not
 * modelled.
 */
module SrcBaseIOSocketBuffer {
  import opened Bytes
  import opened Socket
  import opened Cursors
  import SrcBaseNetwork

  type ReceiveMode = SrcBaseNetwork.ReceiveMode

  /**
   * Output `sync`: send the payload as one frame and record the count; the
   * put cursor goes back to `pbase` whether or not the send failed.
   */
  function SyncOutSpec(b: Buf, ranged: bool): (r: Step)
    requires Fits(b)
    ensures r.buf == b.(state := r.buf.state, last := r.buf.last, pptr := 0)
    ensures r.result == Done(if r.buf.last == -1 then -1 else 0)
    ensures r.buf.last == -1 || r.buf.last == |Outgoing(b, ranged)|
    ensures r.buf.last != -1 ==> r.buf.state.outgoing == b.state.outgoing + SrcBaseNetwork.Frame(Outgoing(b, ranged))
  {
    var p := SrcBaseNetwork.SendDataSpec(b.state, Outgoing(b, ranged));
    Step(b.(state := p.state, last := p.result, pptr := 0), Done(if p.result == -1 then -1 else 0))
  }

  /**
   * Input `sync`: receive one frame into the input container and publish
   * `[0, lastPacketSize)` as the get area; on -1 the get area stays as it was.
   */
  function SyncInSpec(b: Buf, mode: ReceiveMode, resizable: bool): (r: Step)
    ensures r.result == Fault || r.result == Done(0) || r.result == Done(-1)
    ensures r.buf.out == b.out && r.buf.pptr == b.pptr && r.buf.io == b.io && r.buf.state.outgoing == b.state.outgoing
    ensures r.result == Done(-1) ==> r.buf.get == b.get && r.buf.last == -1
    ensures r.result == Done(0) ==>
      var n := r.buf.last;
      0 < n < TWO_31 && n <= |r.buf.inb| && r.buf.get == Area(0, n) &&
      b.state.incoming == EncodeInt32(n) + r.buf.inb[..n] + r.buf.state.incoming
  {
    var d := SrcBaseNetwork.ReceiveDataSpec(b.state, b.inb, mode, resizable);
    var received := b.(state := d.state, inb := d.data);
    if d.result == Fault then Step(received, Fault)
    else if d.result.value == -1 then Step(received.(last := -1), Done(-1))
    else Step(received.(last := d.result.value, get := Area(0, d.result.value)), Done(0))
  }

  /** `sync` serves the direction the `type` field names. */
  function SyncSpec(b: Buf, mode: ReceiveMode, resizable: bool, ranged: bool): (r: Step)
    requires Fits(b)
    ensures Fits(r.buf) && r.buf.io == b.io
  {
    if b.io == Input then SyncInSpec(b, mode, resizable) else SyncOutSpec(b, ranged)
  }

  /**
   * `overflow(ch)`: store `ch` in the slot under the cursor (the reserved
   * one when the area is full), switch to output and flush; 0 on success,
   * eof when the flush failed.  An empty output container has no slot: the
   * store is undefined behaviour.
   */
  function OverflowSpec(b: Buf, ch: int, ranged: bool): (r: Step)
    requires Fits(b)
    ensures r.result == Fault <==> b.pptr == |b.out|
    ensures r.result != Fault ==>
      (r.result == Done(0) || r.result == Done(EOF)) &&
      r.buf.pptr == 0 && r.buf.io == Output && r.buf.out == b.out[b.pptr := Truncate(ch)] &&
      r.buf.inb == b.inb && r.buf.get == b.get
    ensures r.result == Done(0) ==>
      r.buf.state.outgoing == b.state.outgoing +
        SrcBaseNetwork.Frame(if ranged then DataPart(b) + [Truncate(ch)] else r.buf.out)
    ensures r.result == Done(EOF) ==> r.buf.last == -1
  {
    if b.pptr == |b.out| then Step(b, Fault)
    else
      var stored := b.(out := b.out[b.pptr := Truncate(ch)], pptr := b.pptr + 1, io := Output);
      assert DataPart(stored) == DataPart(b) + [Truncate(ch)];
      var r := SyncOutSpec(stored, ranged);
      Step(r.buf, Done(if r.result == Done(-1) then EOF else 0))
  }

  /**
   * The loop of `xsputn` from byte `i` on: bytes go into the put area; the
   * byte that meets the reserved slot goes through `overflow`, which sends
   * the full area; a failed flush ends the write with -1.  What is left in
   * the area at the end goes out through `sync`.
   */
  function PutLoop(b: Buf, data: seq<byte>, i: nat, ranged: bool): (r: Step)
    requires Fits(b) && i <= |data|
    ensures r.result == Fault || r.result == Done(-1) || r.result == Done(|data|)
    ensures Fits(r.buf)
    ensures r.result != Fault ==> r.buf.pptr == 0 && |r.buf.out| == |b.out|
    ensures b.pptr < |b.out| ==> r.result != Fault
    decreases |data| - i
  {
    if i == |data| then
      if b.pptr != 0 then
        var r := SyncOutSpec(b, ranged);
        Step(r.buf, Done(if r.result == Done(-1) then -1 else |data|))
      else Step(b, Done(|data|))
    else if b.pptr == |b.out| - 1 then
      var r := OverflowSpec(b, SignedChar(data[i]), ranged);
      if r.result == Done(EOF) then Step(r.buf, Done(-1)) else PutLoop(r.buf, data, i + 1, ranged)
    else if b.pptr == |b.out| then Step(b, Fault)
    else PutLoop(b.(out := b.out[b.pptr := data[i]], pptr := b.pptr + 1), data, i + 1, ranged)
  }

  /**
   * `xsputn(s, count)`: switch to output; in allow-resize mode grow a
   * shorter, resizable output container to `count`; then the loop.  The
   * result is `count`, or -1 at the first failed flush.
   */
  function XsputnSpec(b: Buf, data: seq<byte>, mode: ReceiveMode, resizable: bool, ranged: bool): (r: Step)
    requires Fits(b) && |data| < TWO_31
    ensures r.result == Fault || r.result == Done(-1) || r.result == Done(|data|)
    ensures Fits(r.buf)
    ensures r.result != Fault ==> r.buf.pptr == 0
    ensures b.pptr < |b.out| ==> r.result != Fault
  {
    PutLoop(PutStart(b, data, mode, resizable), data, 0, ranged)
  }

  /**
   * What a write that succeeds puts on the wire: the area's old contents and
   * the new bytes, cut into frames of the output container's length.
   */
  lemma {:induction false} PutLoopSends(b: Buf, data: seq<byte>, i: nat)
    requires Fits(b) && i <= |data| && b.pptr < |b.out|
    requires PutLoop(b, data, i, true).result == Done(|data|)
    ensures PutLoop(b, data, i, true).buf.state.outgoing ==
      b.state.outgoing + Wire(Chunks(DataPart(b) + data[i..], |b.out|))
    decreases |data| - i
  {
    if i == |data| {
      PutEndSends(b, data);
    } else if b.pptr == |b.out| - 1 {
      var r := OverflowSpec(b, SignedChar(data[i]), true);
      TruncateSignedChar(data[i]);
      PutLoopSends(r.buf, data, i + 1);
      assert DataPart(r.buf) == [];
      FlushedFrame(b.state.outgoing, DataPart(b), data, i, |b.out|, PutLoop(b, data, i, true).buf.state.outgoing);
    } else {
      PutLoopSends(b.(out := b.out[b.pptr := data[i]], pptr := b.pptr + 1), data, i + 1);
      PutStoreSends(b, data, i);
    }
  }

  lemma PutEndSends(b: Buf, data: seq<byte>)
    requires Fits(b) && b.pptr < |b.out|
    requires PutLoop(b, data, |data|, true).result == Done(|data|)
    ensures PutLoop(b, data, |data|, true).buf.state.outgoing ==
      b.state.outgoing + Wire(Chunks(DataPart(b) + data[|data|..], |b.out|))
  {
    var pending := DataPart(b);
    assert pending + data[|data|..] == pending;
    if b.pptr != 0 {
      ShortWriteIsOneChunk(pending, |b.out|);
      WireCons(pending, []);
    }
  }

  /**
   * The wire after a full area went out as one frame and the rest of the
   * write was cut into chunks is the wire of the whole write cut into chunks.
   */
  lemma FlushedFrame(before: seq<byte>, pending: seq<byte>, data: seq<byte>, i: nat, n: nat, final: seq<byte>)
    requires i < |data| && 1 <= n < TWO_31 && |pending| == n - 1
    requires final == before + SrcBaseNetwork.Frame(pending + [data[i]]) + Wire(Chunks([] + data[i + 1..], n))
    ensures final == before + Wire(Chunks(pending + data[i..], n))
  {
    var frame := pending + [data[i]];
    assert [] + data[i + 1..] == data[i + 1..];
    Unshift(pending, data, i);
    FullChunkFirst(frame, data[i + 1..], n);
    WireCons(frame, Chunks(data[i + 1..], n));
    AppendAssoc(before, SrcBaseNetwork.Frame(frame), Wire(Chunks(data[i + 1..], n)));
  }

  lemma PutStoreSends(b: Buf, data: seq<byte>, i: nat)
    requires Fits(b) && i < |data| && b.pptr < |b.out| - 1
    requires var stored := b.(out := b.out[b.pptr := data[i]], pptr := b.pptr + 1);
      PutLoop(stored, data, i + 1, true).buf.state.outgoing ==
      stored.state.outgoing + Wire(Chunks(DataPart(stored) + data[i + 1..], |stored.out|))
    ensures PutLoop(b, data, i, true).buf.state.outgoing ==
      b.state.outgoing + Wire(Chunks(DataPart(b) + data[i..], |b.out|))
  {
    var stored := b.(out := b.out[b.pptr := data[i]], pptr := b.pptr + 1);
    assert DataPart(stored) == DataPart(b) + [data[i]];
    Unshift(DataPart(b), data, i);
  }

  /** Moving the next byte of the write into the filled part keeps their join. */
  lemma Unshift(p: seq<byte>, data: seq<byte>, i: nat)
    requires i < |data|
    ensures p + data[i..] == (p + [data[i]]) + data[i + 1..]
  {
    assert data[i..] == [data[i]] + data[i + 1..];
  }

  /**
   * With a fixed output container of `n` bytes (no resize), a write that
   * succeeds goes out as frames of `n` bytes and then the remainder, if any.
   */
  lemma FixedAreaSendsChunks(b: Buf, data: seq<byte>, mode: ReceiveMode, resizable: bool)
    requires Fits(b) && |data| < TWO_31 && b.pptr < |b.out|
    requires !GrowsFor(b, data, mode, resizable)
    requires XsputnSpec(b, data, mode, resizable, true).result == Done(|data|)
    ensures XsputnSpec(b, data, mode, resizable, true).buf.state.outgoing ==
      b.state.outgoing + Wire(Chunks(DataPart(b) + data, |b.out|))
  {
    PutLoopSends(PutStart(b, data, mode, resizable), data, 0);
    assert data[0..] == data;
  }

  /**
   * In allow-resize mode, with a resizable container and an empty put area,
   * a write of `count >= 1` bytes that succeeds is exactly one frame.
   */
  lemma OneWriteOneFrame(b: Buf, data: seq<byte>, resizable: bool)
    requires Fits(b) && 0 < |data| < TWO_31 && b.pptr == 0 && resizable
    requires XsputnSpec(b, data, SrcBaseNetwork.AllowResize, resizable, true).result == Done(|data|)
    ensures XsputnSpec(b, data, SrcBaseNetwork.AllowResize, resizable, true).buf.state.outgoing ==
      b.state.outgoing + SrcBaseNetwork.Frame(data)
  {
    var s := PutStart(b, data, SrcBaseNetwork.AllowResize, resizable);
    PutLoopSends(s, data, 0);
    assert DataPart(s) + data[0..] == data;
    ShortWriteIsOneChunk(data, |s.out|);
    WireCons(data, []);
  }

  /**
   * `underflow()`: switch to input; refill only when there is no get area
   * (eof when the refill fails); then the byte under the cursor, not
   * consumed, or eof with the area dropped at its end.
   */
  function UnderflowSpec(b: Buf, mode: ReceiveMode, resizable: bool): (r: Step)
    ensures r.result == Fault || (r.result.Done? && -128 <= r.result.value < 128)
    ensures b.get.Area? ==> r.buf.state == b.state
    ensures r.result.Done? && r.buf.get.Area? ==>
      r.buf.get.next < r.buf.get.end && r.buf.get.next < |r.buf.inb| &&
      r.result.value == SignedChar(r.buf.inb[r.buf.get.next])
    ensures r.buf.io == Input && r.buf.out == b.out && r.buf.pptr == b.pptr
  {
    var b0 := b.(io := Input);
    PeekRest(if b.get.NoArea? then SyncInSpec(b0, mode, resizable) else Step(b0, Done(0)))
  }

  /**
   * `xsgetn(s, count)`: switch to input; refill only when there is no get
   * area (-1 when the refill fails); 0 for an empty area; then the copy loop.
   */
  function XsgetnSpec(b: Buf, count: nat, mode: ReceiveMode, resizable: bool): (r: Read)
    ensures r.result == Fault || r.result.Done?
    ensures |r.bytes| <= count
    ensures b.get.Area? ==> r.buf.state == b.state
    ensures r.result == Done(-1) ==> r.bytes == [] && (count == 0 || (b.get.NoArea? && r.buf.get.NoArea?))
    ensures r.buf.io == Input && r.buf.out == b.out && r.buf.pptr == b.pptr
  {
    var b0 := b.(io := Input);
    CopyRest(if b.get.NoArea? then SyncInSpec(b0, mode, resizable) else Step(b0, Done(0)), count)
  }

  /**
   * Reading a fresh frame: with no get area and a whole frame waiting at a
   * peer that moves bytes on every call, asking for the frame's length
   * returns that length and exactly the payload.
   */
  lemma FreshFrameIsRead(b: Buf, payload: seq<byte>, rest: seq<byte>, mode: ReceiveMode, resizable: bool)
    requires b.get.NoArea? && 0 < |payload| < TWO_31
    requires b.state.incoming == SrcBaseNetwork.Frame(payload) + rest
    requires AllPositive(b.state.script) && |b.state.script| >= 4 + |payload|
    requires !SrcBaseNetwork.Grows(mode, resizable) ==> |payload| <= |b.inb|
    ensures var r := XsgetnSpec(b, |payload|, mode, resizable);
      r.result == Done(|payload|) && r.bytes == payload && r.buf.state.incoming == rest &&
      r.buf.last == |payload| && r.buf.get == Area(|payload|, |payload|)
  {
    SrcBaseNetwork.FrameArrives(b.state, payload, rest, b.inb, mode, resizable);
  }

  class BaseIOSocketBuffer {
    var outBuffer: seq<byte>
    var inBuffer: seq<byte>
    const network: SrcBaseNetwork.BaseNetwork
    var lastPacketSize: int
    var io: IOType
    var pptr: nat
    var get: GetArea
    /** Whether the container type has `resize`. */
    const resizable: bool
    /** Whether the container type can be built from an iterator range (so `dataPart` is used). */
    const ranged: bool

    function Snapshot(): Buf
      reads this, network.socket
    {
      Buf(network.socket.State(), outBuffer, inBuffer, pptr, get, lastPacketSize, io)
    }

    predicate Valid()
      reads this, network.socket
    {
      Fits(Snapshot())
    }

    /**
     * The constructors that take a socket or an address: a new network in
     * allow-resize mode, empty containers, a put area with no room.
     */
    constructor (socket: Peer, resizable: bool, ranged: bool)
      ensures network.socket == socket && network.mode == SrcBaseNetwork.AllowResize
      ensures outBuffer == [] && inBuffer == [] && pptr == 0 && get == NoArea && Valid()
      ensures this.resizable == resizable && this.ranged == ranged
    {
      network := new SrcBaseNetwork.BaseNetwork(socket, SrcBaseNetwork.AllowResize);
      outBuffer, inBuffer := [], [];
      this.resizable, this.ranged := resizable, ranged;
      pptr, get := 0, NoArea;
    }

    /** With a buffer size: a new network in prohibit-resize mode and zeroed containers of that size. */
    constructor Sized(socket: Peer, bufferSize: nat, resizable: bool, ranged: bool)
      requires bufferSize < TWO_31
      ensures network.socket == socket && network.mode == SrcBaseNetwork.ProhibitResize
      ensures outBuffer == Zeros(bufferSize) && inBuffer == Zeros(bufferSize) && pptr == 0 && get == NoArea && Valid()
      ensures this.resizable == resizable && this.ranged == ranged
    {
      network := new SrcBaseNetwork.BaseNetwork(socket, SrcBaseNetwork.ProhibitResize);
      outBuffer, inBuffer := Zeros(bufferSize), Zeros(bufferSize);
      this.resizable, this.ranged := resizable, ranged;
      pptr, get := 0, NoArea;
    }

    /** Over a network subclass: that network, with whatever mode it has. */
    constructor Over(network: SrcBaseNetwork.BaseNetwork, resizable: bool, ranged: bool)
      ensures this.network == network && outBuffer == [] && inBuffer == [] && pptr == 0 && get == NoArea
      ensures this.resizable == resizable && this.ranged == ranged
    {
      this.network := network;
      outBuffer, inBuffer := [], [];
      this.resizable, this.ranged := resizable, ranged;
      pptr, get := 0, NoArea;
    }

    constructor OverSized(network: SrcBaseNetwork.BaseNetwork, bufferSize: nat, resizable: bool, ranged: bool)
      requires bufferSize < TWO_31
      ensures this.network == network && outBuffer == Zeros(bufferSize) && inBuffer == Zeros(bufferSize)
      ensures pptr == 0 && get == NoArea
      ensures this.resizable == resizable && this.ranged == ranged
    {
      this.network := network;
      outBuffer, inBuffer := Zeros(bufferSize), Zeros(bufferSize);
      this.resizable, this.ranged := resizable, ranged;
      pptr, get := 0, NoArea;
    }

    /** `setPointers`: the put area is `[0, |outBuffer| - 1)`, empty; the last slot is reserved. */
    method SetPointers()
      modifies this
      ensures pptr == 0 && io == old(io) && get == old(get) && lastPacketSize == old(lastPacketSize)
      ensures outBuffer == old(outBuffer) && inBuffer == old(inBuffer)
    {
      pptr := 0;
    }

    method Sync() returns (r: Outcome<int>)
      requires Valid()
      modifies this, network.socket
      ensures Step(Snapshot(), r) == SyncSpec(old(Snapshot()), network.mode, resizable, ranged)
    {
      if io == Input {
        var got, filled := network.ReceiveData(inBuffer, resizable);
        inBuffer := filled;
        if got == Fault {
          return Fault;
        }
        lastPacketSize := got.value;
        if lastPacketSize == -1 {
          return Done(-1);
        }
        get := Area(0, lastPacketSize);
        return Done(0);
      }
      var payload := if ranged then DataPart(Snapshot()) else outBuffer;
      lastPacketSize := network.SendData(payload);
      pptr := 0;
      if lastPacketSize == -1 {
        return Done(-1);
      }
      r := Done(0);
    }

    method Overflow(ch: int) returns (r: Outcome<int>)
      requires Valid()
      modifies this, network.socket
      ensures Step(Snapshot(), r) == OverflowSpec(old(Snapshot()), ch, ranged)
    {
      if pptr == |outBuffer| {
        return Fault;
      }
      outBuffer := outBuffer[pptr := Truncate(ch)];
      pptr := pptr + 1;
      io := Output;
      var s := Sync();
      if s == Done(-1) {
        return Done(EOF);
      }
      r := Done(0);
    }

    method Underflow() returns (r: Outcome<int>)
      requires Valid()
      modifies this, network.socket
      ensures Step(Snapshot(), r) == UnderflowSpec(old(Snapshot()), network.mode, resizable)
    {
      io := Input;
      if get.NoArea? {
        var s := Sync();
        if s == Fault {
          return Fault;
        }
        if s == Done(-1) {
          return Done(EOF);
        }
      }
      var c := PeekSpec(inBuffer, get.next, get.end);
      get := c.get;
      r := c.result;
    }

    method Xsputn(data: seq<byte>) returns (r: Outcome<int>)
      requires Valid() && |data| < TWO_31
      modifies this, network.socket
      ensures Step(Snapshot(), r) == XsputnSpec(old(Snapshot()), data, network.mode, resizable, ranged)
    {
      io := Output;
      var mode := network.GetResizeMode();
      if mode == SrcBaseNetwork.AllowResize && |outBuffer| < |data| && resizable {
        outBuffer := Resize(outBuffer, |data|);
        SetPointers();
      }
      assert Snapshot() == PutStart(old(Snapshot()), data, network.mode, resizable);
      ghost var goal := PutLoop(Snapshot(), data, 0, ranged);
      for i := 0 to |data|
        invariant Valid() && io == Output
        invariant PutLoop(Snapshot(), data, i, ranged) == goal
      {
        var stop;
        stop, r := PutOne(data, i);
        if stop {
          return;
        }
      }
      r := PutEnd(data);
    }

    /** One turn of the loop of `xsputn`: store byte `i`, or hand it to `overflow`. */
    method PutOne(data: seq<byte>, i: nat) returns (stop: bool, r: Outcome<int>)
      requires Valid() && io == Output && i < |data|
      modifies this, network.socket
      ensures !stop ==> Valid() && io == Output
      ensures !stop ==> PutLoop(Snapshot(), data, i + 1, ranged) == PutLoop(old(Snapshot()), data, i, ranged)
      ensures stop ==> Step(Snapshot(), r) == PutLoop(old(Snapshot()), data, i, ranged)
    {
      if pptr == |outBuffer| - 1 {
        var o := Overflow(SignedChar(data[i]));
        if o == Done(EOF) {
          return true, Done(-1);
        }
        return false, o;
      } else if pptr == |outBuffer| {
        return true, Fault;
      }
      outBuffer := outBuffer[pptr := data[i]];
      pptr := pptr + 1;
      return false, Done(0);
    }

    /** The end of `xsputn`: what is left in the put area goes out through `sync`. */
    method PutEnd(data: seq<byte>) returns (r: Outcome<int>)
      requires Valid() && io == Output
      modifies this, network.socket
      ensures Step(Snapshot(), r) == PutLoop(old(Snapshot()), data, |data|, ranged)
    {
      if pptr != 0 {
        var s := Sync();
        if s == Done(-1) {
          return Done(-1);
        }
      }
      r := Done(|data|);
    }

    method Xsgetn(count: nat) returns (r: Outcome<int>, bytes: seq<byte>)
      requires Valid()
      modifies this, network.socket
      ensures Read(Snapshot(), r, bytes) == XsgetnSpec(old(Snapshot()), count, network.mode, resizable)
    {
      io := Input;
      if get.NoArea? {
        var s := Sync();
        if s == Fault {
          return Fault, [];
        }
        if s == Done(-1) {
          return Done(-1), [];
        }
      }
      var size := get.end;
      if size == 0 {
        return Done(0), [];
      }
      var c := CopyOut(inBuffer, get.next, get.end, count);
      get := c.get;
      r, bytes := c.result, c.bytes;
    }

    method SetInputType()
      modifies this
      ensures io == Input && pptr == old(pptr) && get == old(get) && outBuffer == old(outBuffer)
      ensures inBuffer == old(inBuffer) && lastPacketSize == old(lastPacketSize)
    {
      io := Input;
    }

    method SetOutputType()
      modifies this
      ensures io == Output && pptr == old(pptr) && get == old(get) && outBuffer == old(outBuffer)
      ensures inBuffer == old(inBuffer) && lastPacketSize == old(lastPacketSize)
    {
      io := Output;
    }

    method GetNetwork() returns (n: SrcBaseNetwork.BaseNetwork)
      ensures n == network
    {
      n := network;
    }

    method GetLastPacketSize() returns (n: int)
      ensures n == lastPacketSize
    {
      n := lastPacketSize;
    }
  }
}
