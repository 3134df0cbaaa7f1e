/**
 * src/IOSocketBuffer.h: the stream buffer over the `CharT`-templated network
 * of src/Network.h.  It differs from src/BaseIOSocketBuffer.h in three
 * places: a failed output `sync` leaves the put cursor where it was,
 * `overflow` returns the character it was given (not 0) after a successful
 * flush, and input `sync` publishes whatever count the receive loop
 * returned, which is short of the announced length when the peer closes.
 */
module SrcIOSocketBuffer {
  import opened Bytes
  import opened Socket
  import opened Cursors
  import SrcBaseNetwork
  import SrcNetwork
  import SrcBaseIOSocketBuffer

  type ReceiveMode = SrcBaseNetwork.ReceiveMode

  /**
   * Output `sync`: send the payload as one frame and record the count; only
   * a send that succeeded moves the put cursor back to `pbase`.
   */
  function SyncOutSpec(b: Buf, ranged: bool): (r: Step)
    requires Fits(b)
    ensures r.result == Done(0) || r.result == Done(-1)
    ensures r.result == Done(-1) ==> r.buf == b.(state := r.buf.state, last := -1)
    ensures r.result == Done(0) ==>
      r.buf == b.(state := r.buf.state, last := |Outgoing(b, ranged)|, pptr := 0) &&
      r.buf.state.outgoing == b.state.outgoing + SrcBaseNetwork.Frame(Outgoing(b, ranged))
  {
    var p := SrcBaseNetwork.SendDataSpec(b.state, Outgoing(b, ranged));
    if p.result == -1 then Step(b.(state := p.state, last := -1), Done(-1))
    else Step(b.(state := p.state, last := p.result, pptr := 0), Done(0))
  }

  /**
   * Input `sync`: receive into the input container and publish
   * `[0, lastPacketSize)` as the get area; on -1 the get area stays as it
   * was.  The count may be 0, or short of the announced length.
   */
  function SyncInSpec(b: Buf, mode: ReceiveMode, resizable: bool): (r: Step)
    ensures r.result == Fault || r.result == Done(0) || r.result == Done(-1)
    ensures r.buf.out == b.out && r.buf.pptr == b.pptr && r.buf.io == b.io && r.buf.state.outgoing == b.state.outgoing
    ensures r.result == Done(-1) ==> r.buf.get == b.get && r.buf.last == -1
    ensures r.result == Done(0) ==>
      var n := r.buf.last;
      0 <= n < TWO_31 && n <= |r.buf.inb| && r.buf.get == Area(0, n) && |b.state.incoming| >= 4 &&
      n <= DecodeInt32(b.state.incoming[..4]) && b.state.incoming[4..] == r.buf.inb[..n] + r.buf.state.incoming
  {
    var d := SrcNetwork.ReceiveDataSpec(b.state, b.inb, mode, resizable);
    var received := b.(state := d.state, inb := d.data);
    if d.result == Fault then Step(received, Fault)
    else if d.result.value == -1 then Step(received.(last := -1), Done(-1))
    else Step(received.(last := d.result.value, get := Area(0, d.result.value)), Done(0))
  }

  /** `sync` serves the direction the `type` field names. */
  function SyncSpec(b: Buf, mode: ReceiveMode, resizable: bool, ranged: bool): (r: Step)
    requires Fits(b)
    ensures Fits(r.buf) && r.buf.io == b.io
  {
    if b.io == Input then SyncInSpec(b, mode, resizable) else SyncOutSpec(b, ranged)
  }

  /**
   * `overflow(ch)`: store `ch` in the slot under the cursor, switch to
   * output and flush; `ch` itself on success, eof when the flush failed (the
   * cursor then stays one past the stored byte).  With the cursor at the
   * container's end there is no slot: undefined behaviour.
   */
  function OverflowSpec(b: Buf, ch: int, ranged: bool): (r: Step)
    requires Fits(b)
    ensures r.result == Fault <==> b.pptr == |b.out|
    ensures r.result != Fault ==>
      r.buf.io == Output && r.buf.out == b.out[b.pptr := Truncate(ch)] &&
      r.buf.inb == b.inb && r.buf.get == b.get
    ensures r.result != Fault && r.buf.pptr == 0 ==>
      r.result == Done(ch) &&
      r.buf.state.outgoing == b.state.outgoing +
        SrcBaseNetwork.Frame(if ranged then DataPart(b) + [Truncate(ch)] else r.buf.out)
    ensures r.result != Fault && r.buf.pptr != 0 ==>
      r.result == Done(EOF) && r.buf.pptr == b.pptr + 1 && r.buf.last == -1
  {
    if b.pptr == |b.out| then Step(b, Fault)
    else
      var stored := b.(out := b.out[b.pptr := Truncate(ch)], pptr := b.pptr + 1, io := Output);
      assert DataPart(stored) == DataPart(b) + [Truncate(ch)];
      var r := SyncOutSpec(stored, ranged);
      Step(r.buf, Done(if r.result == Done(-1) then EOF else ch))
  }

  /**
   * How `xsputn` widens the byte it hands to `overflow`: as written, as a
   * signed `char`, so that 0xFF becomes -1, the value of eof; or, as the
   * stream-buffer protocol intends, through `to_int_type`, unsigned.
   */
  datatype Widening = AsSignedChar | ToIntType

  function Widen(w: Widening, x: byte): (c: int)
    ensures Truncate(c) == x
    ensures w == ToIntType ==> c >= 0
    ensures c == EOF <==> w == AsSignedChar && x == 0xFF
  {
    TruncateSignedChar(x);
    if w == AsSignedChar then SignedChar(x) else x as int
  }

  /**
   * The loop of `xsputn` from byte `i` on: bytes go into the put area; the
   * byte that meets the reserved slot goes through `overflow`, and a result
   * of -1 from it ends the write with -1.  What is left in the area at the
   * end goes out through `sync`.
   */
  function PutLoop(b: Buf, data: seq<byte>, i: nat, ranged: bool, w: Widening): (r: Step)
    requires Fits(b) && i <= |data|
    ensures Fits(r.buf) && |r.buf.out| == |b.out|
    ensures r.result == Fault || r.result == Done(-1) || r.result == Done(|data|)
    ensures r.result == Done(|data|) ==> r.buf.pptr == 0
    decreases |data| - i
  {
    if i == |data| then
      if b.pptr != 0 then
        var r := SyncOutSpec(b, ranged);
        Step(r.buf, Done(if r.result == Done(-1) then -1 else |data|))
      else Step(b, Done(|data|))
    else if b.pptr == |b.out| - 1 then
      var r := OverflowSpec(b, Widen(w, data[i]), ranged);
      if r.result == Done(-1) then Step(r.buf, Done(-1)) else PutLoop(r.buf, data, i + 1, ranged, w)
    else if b.pptr == |b.out| then Step(b, Fault)
    else PutLoop(b.(out := b.out[b.pptr := data[i]], pptr := b.pptr + 1), data, i + 1, ranged, w)
  }

  /** `xsputn(s, count)` as written: switch to output, grow as src/BaseIOSocketBuffer.h does, then the loop. */
  function XsputnSpec(b: Buf, data: seq<byte>, mode: ReceiveMode, resizable: bool, ranged: bool): (r: Step)
    requires Fits(b) && |data| < TWO_31
    ensures r.result == Fault || r.result == Done(-1) || r.result == Done(|data|)
    ensures r.result == Done(|data|) ==> r.buf.pptr == 0
  {
    PutLoop(PutStart(b, data, mode, resizable), data, 0, ranged, AsSignedChar)
  }

  /** `xsputn` with the byte widened through `to_int_type`. */
  function XsputnCorrected(b: Buf, data: seq<byte>, mode: ReceiveMode, resizable: bool, ranged: bool): (r: Step)
    requires Fits(b) && |data| < TWO_31
    ensures r.result == Fault || r.result == Done(-1) || r.result == Done(|data|)
    ensures r.result == Done(-1) ==> r.buf.last == -1
  {
    var s := PutStart(b, data, mode, resizable);
    MinusOneMeansFailedFlush(s, data, 0, ranged);
    PutLoop(s, data, 0, ranged, ToIntType)
  }

  /**
   * As written, a 0xFF that lands in the reserved slot ends the write with
   * -1 although its flush succeeded: the frame is on the wire, the cursor is
   * back at `pbase`, and the bytes after it are never written.
   */
  lemma FFAtReservedSlotEndsWrite(b: Buf, data: seq<byte>, ranged: bool)
    requires Fits(b) && b.pptr == |b.out| - 1 && |data| >= 2 && data[0] == 0xFF
    requires SrcBaseNetwork.SendDataSpec(b.state, Outgoing(b.(out := b.out[b.pptr := 0xFF], pptr := b.pptr + 1), ranged)).result != -1
    ensures var r := PutLoop(b, data, 0, ranged, AsSignedChar);
      r.result == Done(-1) && r.buf.pptr == 0 && r.buf.last != -1 &&
      r.buf.state.outgoing == b.state.outgoing +
        SrcBaseNetwork.Frame(if ranged then DataPart(b) + [0xFF] else b.out[b.pptr := 0xFF])
  {
    assert Widen(AsSignedChar, 0xFF) == -1;
    var stored := b.(out := b.out[b.pptr := 0xFF], pptr := b.pptr + 1, io := Output);
    assert Outgoing(stored, ranged) == Outgoing(b.(out := b.out[b.pptr := 0xFF], pptr := b.pptr + 1), ranged);
  }

  /**
   * With the byte widened through `to_int_type`, a write ends with -1 only
   * when a flush failed: the last send reported -1.
   */
  lemma {:induction false} MinusOneMeansFailedFlush(b: Buf, data: seq<byte>, i: nat, ranged: bool)
    requires Fits(b) && i <= |data|
    ensures var r := PutLoop(b, data, i, ranged, ToIntType);
      r.result == Done(-1) ==> r.buf.last == -1
    decreases |data| - i
  {
    if i < |data| {
      if b.pptr == |b.out| - 1 {
        var r := OverflowSpec(b, Widen(ToIntType, data[i]), ranged);
        if r.result != Done(-1) {
          MinusOneMeansFailedFlush(r.buf, data, i + 1, ranged);
        }
      } else if b.pptr < |b.out| - 1 {
        MinusOneMeansFailedFlush(b.(out := b.out[b.pptr := data[i]], pptr := b.pptr + 1), data, i + 1, ranged);
      }
    }
  }

  /**
   * A write that succeeds does exactly what it does in src/BaseIOSocketBuffer.h:
   * the same frames go out and the buffer ends in the same state.
   */
  lemma {:induction false} SucceedsAsInBase(b: Buf, data: seq<byte>, i: nat, ranged: bool, w: Widening)
    requires Fits(b) && i <= |data|
    requires PutLoop(b, data, i, ranged, w).result == Done(|data|)
    ensures PutLoop(b, data, i, ranged, w) == SrcBaseIOSocketBuffer.PutLoop(b, data, i, ranged)
    decreases |data| - i
  {
    if i < |data| {
      if b.pptr == |b.out| - 1 {
        var r := OverflowSpec(b, Widen(w, data[i]), ranged);
        var q := SrcBaseIOSocketBuffer.OverflowSpec(b, SignedChar(data[i]), ranged);
        TruncateSignedChar(data[i]);
        assert r.buf == q.buf;
        SucceedsAsInBase(r.buf, data, i + 1, ranged, w);
      } else if b.pptr < |b.out| - 1 {
        SucceedsAsInBase(b.(out := b.out[b.pptr := data[i]], pptr := b.pptr + 1), data, i + 1, ranged, w);
      }
    }
  }

  /**
   * So with a fixed output container of `n` bytes, a write that succeeds
   * goes out as frames of `n` bytes and then the remainder, if any.
   */
  lemma FixedAreaSendsChunks(b: Buf, data: seq<byte>, mode: ReceiveMode, resizable: bool, w: Widening)
    requires Fits(b) && |data| < TWO_31 && b.pptr < |b.out|
    requires !GrowsFor(b, data, mode, resizable)
    requires PutLoop(PutStart(b, data, mode, resizable), data, 0, true, w).result == Done(|data|)
    ensures PutLoop(PutStart(b, data, mode, resizable), data, 0, true, w).buf.state.outgoing ==
      b.state.outgoing + Wire(Chunks(DataPart(b) + data, |b.out|))
  {
    var s := PutStart(b, data, mode, resizable);
    SucceedsAsInBase(s, data, 0, true, w);
    SrcBaseIOSocketBuffer.FixedAreaSendsChunks(b, data, mode, resizable);
  }

  /**
   * A flush inside `overflow` that fails leaves the cursor at the
   * container's end; the next write that does not grow the container then
   * stores past it: undefined behaviour.
   */
  lemma FailedFlushThenWriteFaults(b: Buf, data: seq<byte>, next: seq<byte>, mode: ReceiveMode,
                                   resizable: bool, ranged: bool, w: Widening)
    requires Fits(b) && b.pptr == |b.out| - 1 && |data| >= 1
    requires SrcBaseNetwork.SendDataSpec(b.state, Outgoing(b.(out := b.out[b.pptr := data[0]], pptr := b.pptr + 1), ranged)).result == -1
    requires 0 < |next| < TWO_31 && !GrowsFor(PutLoop(b, data, 0, ranged, w).buf, next, mode, resizable)
    ensures PutLoop(b, data, 0, ranged, w).result == Done(-1)
    ensures PutLoop(b, data, 0, ranged, w).buf.pptr == |b.out|
    ensures XsputnSpec(PutLoop(b, data, 0, ranged, w).buf, next, mode, resizable, ranged).result == Fault
  {
    var stored := b.(out := b.out[b.pptr := Truncate(Widen(w, data[0]))], pptr := b.pptr + 1, io := Output);
    assert Outgoing(stored, ranged) == Outgoing(b.(out := b.out[b.pptr := data[0]], pptr := b.pptr + 1), ranged);
  }

  /**
   * `underflow()`: switch to input; refill only when there is no get area
   * (eof when the refill fails); then the byte under the cursor, not
   * consumed, or eof with the area dropped at its end.
   */
  function UnderflowSpec(b: Buf, mode: ReceiveMode, resizable: bool): (r: Step)
    ensures r.result == Fault || (r.result.Done? && -128 <= r.result.value < 128)
    ensures b.get.Area? ==> r.buf.state == b.state
    ensures r.result.Done? && r.buf.get.Area? ==>
      r.buf.get.next < r.buf.get.end && r.buf.get.next < |r.buf.inb| &&
      r.result.value == SignedChar(r.buf.inb[r.buf.get.next])
    ensures r.buf.io == Input && r.buf.out == b.out && r.buf.pptr == b.pptr
  {
    var b0 := b.(io := Input);
    PeekRest(if b.get.NoArea? then SyncInSpec(b0, mode, resizable) else Step(b0, Done(0)))
  }

  /**
   * `xsgetn(s, count)`: switch to input; refill only when there is no get
   * area (-1 when the refill fails); 0 for an empty area; then the copy loop.
   */
  function XsgetnSpec(b: Buf, count: nat, mode: ReceiveMode, resizable: bool): (r: Read)
    ensures r.result == Fault || r.result.Done?
    ensures b.get.Area? ==> r.buf.state == b.state
    ensures r.result == Done(-1) ==> r.bytes == [] && (count == 0 || (b.get.NoArea? && r.buf.get.NoArea?))
    ensures r.buf.io == Input && r.buf.out == b.out && r.buf.pptr == b.pptr
  {
    var b0 := b.(io := Input);
    CopyRest(if b.get.NoArea? then SyncInSpec(b0, mode, resizable) else Step(b0, Done(0)), count)
  }

  /**
   * Reading a fresh frame: with no get area and a whole frame waiting at a
   * peer that moves bytes on every call, asking for the frame's length
   * returns that length and exactly the payload.
   */
  lemma FreshFrameIsRead(b: Buf, payload: seq<byte>, rest: seq<byte>, mode: ReceiveMode, resizable: bool)
    requires b.get.NoArea? && 0 < |payload| < TWO_31
    requires b.state.incoming == SrcBaseNetwork.Frame(payload) + rest
    requires AllPositive(b.state.script) && |b.state.script| >= 5 + |payload|
    requires !SrcBaseNetwork.Grows(mode, resizable) ==> |payload| <= |b.inb|
    ensures var r := XsgetnSpec(b, |payload|, mode, resizable);
      r.result == Done(|payload|) && r.bytes == payload && r.buf.state.incoming == rest &&
      r.buf.last == |payload| && r.buf.get == Area(|payload|, |payload|)
  {
    SrcNetwork.FrameRoundTrip(payload, b.state, rest, b.inb, mode, resizable);
  }

  class IOSocketBuffer {
    var outBuffer: seq<byte>
    var inBuffer: seq<byte>
    const network: SrcNetwork.Network
    var lastPacketSize: int
    var io: IOType
    var pptr: nat
    var get: GetArea
    /** Whether the container type has `resize`. */
    const resizable: bool
    /** Whether the container type can be built from an iterator range (so `dataPart` is used). */
    const ranged: bool

    function Snapshot(): Buf
      reads this, network.socket
    {
      Buf(network.socket.State(), outBuffer, inBuffer, pptr, get, lastPacketSize, io)
    }

    predicate Valid()
      reads this, network.socket
    {
      Fits(Snapshot())
    }

    /** The constructors that take a socket or an address: a new network, empty containers. */
    constructor (socket: Peer, resizable: bool, ranged: bool)
      ensures network.socket == socket && network.mode == SrcBaseNetwork.AllowResize
      ensures outBuffer == [] && inBuffer == [] && pptr == 0 && get == NoArea && Valid()
      ensures this.resizable == resizable && this.ranged == ranged
    {
      network := new SrcNetwork.Network.Server(socket, SrcBaseNetwork.AllowResize);
      outBuffer, inBuffer := [], [];
      this.resizable, this.ranged := resizable, ranged;
      pptr, get := 0, NoArea;
    }

    /**
     * With a buffer size: zeroed containers of that size and a new network
     * asked for prohibit-resize mode, which the socket constructor of
     * src/Network.h ignores: the mode is allow-resize.
     */
    constructor Sized(socket: Peer, bufferSize: nat, resizable: bool, ranged: bool)
      requires bufferSize < TWO_31
      ensures network.socket == socket && network.mode == SrcBaseNetwork.AllowResize
      ensures outBuffer == Zeros(bufferSize) && inBuffer == Zeros(bufferSize) && pptr == 0 && get == NoArea && Valid()
      ensures this.resizable == resizable && this.ranged == ranged
    {
      network := new SrcNetwork.Network.Server(socket, SrcBaseNetwork.ProhibitResize);
      outBuffer, inBuffer := Zeros(bufferSize), Zeros(bufferSize);
      this.resizable, this.ranged := resizable, ranged;
      pptr, get := 0, NoArea;
    }

    /** Over a network subclass: that network, with whatever mode it has. */
    constructor Over(network: SrcNetwork.Network, resizable: bool, ranged: bool)
      ensures this.network == network && outBuffer == [] && inBuffer == [] && pptr == 0 && get == NoArea
      ensures this.resizable == resizable && this.ranged == ranged
    {
      this.network := network;
      outBuffer, inBuffer := [], [];
      this.resizable, this.ranged := resizable, ranged;
      pptr, get := 0, NoArea;
    }

    constructor OverSized(network: SrcNetwork.Network, bufferSize: nat, resizable: bool, ranged: bool)
      requires bufferSize < TWO_31
      ensures this.network == network && outBuffer == Zeros(bufferSize) && inBuffer == Zeros(bufferSize)
      ensures pptr == 0 && get == NoArea
      ensures this.resizable == resizable && this.ranged == ranged
    {
      this.network := network;
      outBuffer, inBuffer := Zeros(bufferSize), Zeros(bufferSize);
      this.resizable, this.ranged := resizable, ranged;
      pptr, get := 0, NoArea;
    }

    /** `setPointers`: the put area is `[0, |outBuffer| - 1)`, empty; the last slot is reserved. */
    method SetPointers()
      modifies this
      ensures pptr == 0 && io == old(io) && get == old(get) && lastPacketSize == old(lastPacketSize)
      ensures outBuffer == old(outBuffer) && inBuffer == old(inBuffer)
    {
      pptr := 0;
    }

    method Sync() returns (r: Outcome<int>)
      requires Valid()
      modifies this, network.socket
      ensures Step(Snapshot(), r) == SyncSpec(old(Snapshot()), network.mode, resizable, ranged)
    {
      if io == Input {
        var got, filled := network.ReceiveData(inBuffer, resizable);
        inBuffer := filled;
        if got == Fault {
          return Fault;
        }
        lastPacketSize := got.value;
        if lastPacketSize == -1 {
          return Done(-1);
        }
        get := Area(0, lastPacketSize);
        return Done(0);
      }
      var payload := Outgoing(Snapshot(), ranged);
      lastPacketSize := network.SendData(payload);
      if lastPacketSize == -1 {
        return Done(-1);
      }
      pptr := 0;
      r := Done(0);
    }

    method Overflow(ch: int) returns (r: Outcome<int>)
      requires Valid()
      modifies this, network.socket
      ensures Step(Snapshot(), r) == OverflowSpec(old(Snapshot()), ch, ranged)
    {
      if pptr == |outBuffer| {
        return Fault;
      }
      outBuffer := outBuffer[pptr := Truncate(ch)];
      pptr := pptr + 1;
      io := Output;
      var s := Sync();
      if s == Done(-1) {
        return Done(EOF);
      }
      r := Done(ch);
    }

    method Underflow() returns (r: Outcome<int>)
      requires Valid()
      modifies this, network.socket
      ensures Step(Snapshot(), r) == UnderflowSpec(old(Snapshot()), network.mode, resizable)
    {
      io := Input;
      if get.NoArea? {
        var s := Sync();
        if s == Fault {
          return Fault;
        }
        if s == Done(-1) {
          return Done(EOF);
        }
      }
      var c := PeekSpec(inBuffer, get.next, get.end);
      get := c.get;
      r := c.result;
    }

    method Xsputn(data: seq<byte>) returns (r: Outcome<int>)
      requires Valid() && |data| < TWO_31
      modifies this, network.socket
      ensures Step(Snapshot(), r) == XsputnSpec(old(Snapshot()), data, network.mode, resizable, ranged)
    {
      io := Output;
      var mode := network.GetResizeMode();
      if mode == SrcBaseNetwork.AllowResize && |outBuffer| < |data| && resizable {
        outBuffer := Resize(outBuffer, |data|);
        SetPointers();
      }
      assert Snapshot() == PutStart(old(Snapshot()), data, network.mode, resizable);
      ghost var goal := PutLoop(Snapshot(), data, 0, ranged, AsSignedChar);
      for i := 0 to |data|
        invariant Valid() && io == Output
        invariant PutLoop(Snapshot(), data, i, ranged, AsSignedChar) == goal
      {
        var stop;
        stop, r := PutOne(data, i);
        if stop {
          return;
        }
      }
      r := PutEnd(data);
    }

    /** One turn of the loop of `xsputn`: store byte `i`, or hand it to `overflow` as a signed `char`. */
    method PutOne(data: seq<byte>, i: nat) returns (stop: bool, r: Outcome<int>)
      requires Valid() && io == Output && i < |data|
      modifies this, network.socket
      ensures !stop ==> Valid() && io == Output
      ensures !stop ==> PutLoop(Snapshot(), data, i + 1, ranged, AsSignedChar) == PutLoop(old(Snapshot()), data, i, ranged, AsSignedChar)
      ensures stop ==> Step(Snapshot(), r) == PutLoop(old(Snapshot()), data, i, ranged, AsSignedChar)
    {
      if pptr == |outBuffer| - 1 {
        var o := Overflow(SignedChar(data[i]));
        if o == Done(-1) {
          return true, Done(-1);
        }
        return false, o;
      } else if pptr == |outBuffer| {
        return true, Fault;
      }
      outBuffer := outBuffer[pptr := data[i]];
      pptr := pptr + 1;
      return false, Done(0);
    }

    /** The end of `xsputn`: what is left in the put area goes out through `sync`. */
    method PutEnd(data: seq<byte>) returns (r: Outcome<int>)
      requires Valid() && io == Output
      modifies this, network.socket
      ensures Step(Snapshot(), r) == PutLoop(old(Snapshot()), data, |data|, ranged, AsSignedChar)
    {
      if pptr != 0 {
        var s := Sync();
        if s == Done(-1) {
          return Done(-1);
        }
      }
      r := Done(|data|);
    }

    method Xsgetn(count: nat) returns (r: Outcome<int>, bytes: seq<byte>)
      requires Valid()
      modifies this, network.socket
      ensures Read(Snapshot(), r, bytes) == XsgetnSpec(old(Snapshot()), count, network.mode, resizable)
    {
      io := Input;
      if get.NoArea? {
        var s := Sync();
        if s == Fault {
          return Fault, [];
        }
        if s == Done(-1) {
          return Done(-1), [];
        }
      }
      var size := get.end;
      if size == 0 {
        return Done(0), [];
      }
      var c := CopyOut(inBuffer, get.next, get.end, count);
      get := c.get;
      r, bytes := c.result, c.bytes;
    }

    method SetInputType()
      modifies this
      ensures io == Input && pptr == old(pptr) && get == old(get) && outBuffer == old(outBuffer)
      ensures inBuffer == old(inBuffer) && lastPacketSize == old(lastPacketSize)
    {
      io := Input;
    }

    method SetOutputType()
      modifies this
      ensures io == Output && pptr == old(pptr) && get == old(get) && outBuffer == old(outBuffer)
      ensures inBuffer == old(inBuffer) && lastPacketSize == old(lastPacketSize)
    {
      io := Output;
    }

    method GetNetwork() returns (n: SrcNetwork.Network)
      ensures n == network
    {
      n := network;
    }

    method GetLastPacketSize() returns (n: int)
      ensures n == lastPacketSize
    {
      n := lastPacketSize;
    }
  }
}
