/**
 * src/BaseIOSocketStream.h: the stream of the newest generation.  It owns a
 * stream buffer of src/BaseIOSocketBuffer.h through a `unique_ptr` and binds
 * it as its `rdbuf`.  Containers and strings go out as one `sputn`, so as
 * frames; a string, and a container whose type has `resize`, comes in as one
 * fresh frame (`pubsync`, then `sgetn` of `getLastPacketSize()` bytes).  A
 * buffer result of -1 goes through `logAndThrowWebException`, which sets
 * failbit unless the stream already failed and throws.  Scalars bypass the
 * buffer (see `Fundamentals`).  A call through a stream without a buffer
 * (default-constructed or moved from) dereferences a null pointer: a `Fault`.
 */
module SrcBaseIOSocketStream {
  import opened Bytes
  import opened Socket
  import opened Cursors
  import opened Fundamentals
  import SrcBaseNetwork
  import SrcBaseIOSocketBuffer

  type ReceiveMode = SrcBaseNetwork.ReceiveMode

  /** What `<<` leaves: the buffer, the stream bits and the outcome. */
  datatype Written = Written(buf: Buf, bits: IOState, result: Outcome<()>)

  /** What `>>` leaves: the buffer, the stream bits, the outcome and the caller's container. */
  datatype Filled = Filled(buf: Buf, bits: IOState, result: Outcome<()>, data: seq<byte>)

  /**
   * `<<` for the container, `std::string` and `std::string_view`: `sputn`
   * of the whole content; -1 throws with failbit set.
   */
  function WriteSpec(b: Buf, st: IOState, data: seq<byte>, mode: ReceiveMode, resizable: bool, ranged: bool): (r: Written)
    requires Fits(b) && |data| < TWO_31
    ensures Fits(r.buf)
    ensures r.result == Fault || r.result == Thrown || r.result == Done(())
    ensures r.result != Fault ==> r.buf.pptr == 0
    ensures r.result == Done(()) ==> r.bits == st
    ensures r.result == Thrown ==> r.bits == Failed(st)
    ensures b.pptr < |b.out| ==> r.result != Fault
  {
    var x := SrcBaseIOSocketBuffer.XsputnSpec(b, data, mode, resizable, ranged);
    if x.result == Fault then Written(x.buf, st, Fault)
    else if x.result == Done(-1) then Written(x.buf, Failed(st), Thrown)
    else Written(x.buf, st, Done(()))
  }

  /**
   * The `sgetn` step of `>>`: `xsgetn` of `|data|` bytes into the start of
   * `data`; -1 throws with failbit set.
   */
  function GetSpec(b: Buf, st: IOState, data: seq<byte>, mode: ReceiveMode, resizable: bool): (r: Filled)
    requires Fits(b)
    ensures Fits(r.buf) && r.buf.io == Input && r.buf.out == b.out && r.buf.pptr == b.pptr
    ensures b.get.Area? ==> r.buf.state == b.state
    ensures |r.data| == |data|
    ensures r.result == Fault || r.result == Thrown || r.result == Done(())
    ensures r.result == Done(()) ==> r.bits == st
    ensures r.result == Thrown ==> r.bits == Failed(st) && r.data == data
  {
    var x := SrcBaseIOSocketBuffer.XsgetnSpec(b, |data|, mode, resizable);
    var filled := Overwrite(data, x.bytes);
    if x.result == Fault then Filled(x.buf, st, Fault, filled)
    else if x.result == Done(-1) then Filled(x.buf, Failed(st), Thrown, filled)
    else Filled(x.buf, st, Done(()), filled)
  }

  /**
   * `>>` for the container and for `std::string`.  When the destination
   * resizes (always for a string; for the container when its type has
   * `resize`) the buffer is switched to input, `pubsync` receives one
   * frame (-1 throws and leaves `data` alone), `data` is resized to the
   * frame's length and filled from the fresh get area.  Otherwise
   * `|data|` bytes are read from whatever get area there is.
   */
  function ReadSpec(b: Buf, st: IOState, data: seq<byte>, mode: ReceiveMode, resizable: bool, ranged: bool,
                    resizes: bool): (r: Filled)
    requires Fits(b)
    ensures Fits(r.buf) && r.buf.io == Input && r.buf.out == b.out && r.buf.pptr == b.pptr
    ensures r.result == Fault || r.result == Thrown || r.result == Done(())
    ensures r.result == Done(()) ==> r.bits == st
    ensures r.result == Thrown ==> r.bits == Failed(st)
    ensures !resizes ==> |r.data| == |data|
    ensures !resizes && b.get.Area? ==> r.buf.state == b.state
    ensures resizes && r.result == Done(()) ==>
      0 < r.buf.last <= |r.buf.inb| && r.data == r.buf.inb[..r.buf.last] && r.buf.get == Area(r.buf.last, r.buf.last)
  {
    if resizes then
      var s := SrcBaseIOSocketBuffer.SyncSpec(b.(io := Input), mode, resizable, ranged);
      if s.result == Fault then Filled(s.buf, st, Fault, data)
      else if s.result == Done(-1) then Filled(s.buf, Failed(st), Thrown, data)
      else
        var n := s.buf.last;
        var g := GetSpec(s.buf, st, Resize(data, n), mode, resizable);
        assert g.result == Done(()) ==> g.data == s.buf.inb[..n];
        g
    else GetSpec(b, st, data, mode, resizable)
  }

  /**
   * In allow-resize mode, with a resizable container and an empty put area,
   * `stream << data` that does not throw puts exactly one frame on the wire.
   */
  lemma WriteIsOneFrame(b: Buf, st: IOState, data: seq<byte>, resizable: bool)
    requires Fits(b) && 0 < |data| < TWO_31 && b.pptr == 0 && resizable
    requires WriteSpec(b, st, data, SrcBaseNetwork.AllowResize, resizable, true).result == Done(())
    ensures var w := WriteSpec(b, st, data, SrcBaseNetwork.AllowResize, resizable, true);
      w.buf.state.outgoing == b.state.outgoing + SrcBaseNetwork.Frame(data) && w.bits == st
  {
    SrcBaseIOSocketBuffer.OneWriteOneFrame(b, data, resizable);
  }

  /**
   * `stream >> s` for a string takes the next frame whatever the get area
   * held: with a whole frame waiting at a peer that moves bytes on every
   * call, `s` becomes exactly its payload.
   */
  lemma StringReadTakesFrame(b: Buf, st: IOState, data: seq<byte>, payload: seq<byte>, rest: seq<byte>,
                             mode: ReceiveMode, resizable: bool, ranged: bool)
    requires Fits(b) && 0 < |payload| < TWO_31
    requires b.state.incoming == SrcBaseNetwork.Frame(payload) + rest
    requires AllPositive(b.state.script) && |b.state.script| >= 4 + |payload|
    requires !SrcBaseNetwork.Grows(mode, resizable) ==> |payload| <= |b.inb|
    ensures var r := ReadSpec(b, st, data, mode, resizable, ranged, true);
      r.result == Done(()) && r.data == payload && r.bits == st && r.buf.state.incoming == rest
  {
    SrcBaseNetwork.FrameArrives(b.state, payload, rest, b.inb, mode, resizable);
  }

  /**
   * A failed `pubsync` in `>>` throws with failbit set and leaves the
   * caller's container as it was.
   */
  lemma FailedFrameKeepsData(b: Buf, st: IOState, data: seq<byte>, mode: ReceiveMode, resizable: bool, ranged: bool)
    requires Fits(b)
    requires SrcBaseIOSocketBuffer.SyncInSpec(b.(io := Input), mode, resizable).result == Done(-1)
    ensures var r := ReadSpec(b, st, data, mode, resizable, ranged, true);
      r.result == Thrown && r.data == data && Fail(r.bits)
  {
  }

  /**
   * The echo exchange on one connection: `stream << s` and then
   * `stream >> r` against a peer that answers each frame with the same
   * frame.  The write puts `Frame(s)` on the wire, the read gets `s` back,
   * and the buffer is left with an empty put area, ready for the next
   * exchange.
   */
  lemma EchoRoundTrip(b: Buf, st: IOState, s: seq<byte>, r0: seq<byte>, rest: seq<byte>, resizable: bool)
    requires Fits(b) && b.pptr == 0 && 0 < |s| < TWO_31 && resizable
    requires var w := WriteSpec(b, st, s, SrcBaseNetwork.AllowResize, resizable, true);
      w.result == Done(()) && w.buf.state.incoming == SrcBaseNetwork.Frame(s) + rest &&
      AllPositive(w.buf.state.script) && |w.buf.state.script| >= 4 + |s|
    ensures var w := WriteSpec(b, st, s, SrcBaseNetwork.AllowResize, resizable, true);
      var r := ReadSpec(w.buf, w.bits, r0, SrcBaseNetwork.AllowResize, resizable, true, true);
      w.buf.state.outgoing == b.state.outgoing + SrcBaseNetwork.Frame(s) &&
      r.result == Done(()) && r.data == s && r.bits == st && r.buf.pptr == 0 && Fits(r.buf)
  {
    var w := WriteSpec(b, st, s, SrcBaseNetwork.AllowResize, resizable, true);
    WriteIsOneFrame(b, st, s, resizable);
    StringReadTakesFrame(w.buf, w.bits, r0, s, rest, SrcBaseNetwork.AllowResize, resizable, true);
  }

  class BaseIOSocketStream {
    /** The owned buffer (`unique_ptr`); null after a move or default construction. */
    var buffer: SrcBaseIOSocketBuffer.BaseIOSocketBuffer?
    /** The buffer the `std::iostream` base points to (`rdbuf()`). */
    var rdbuf: SrcBaseIOSocketBuffer.BaseIOSocketBuffer?
    var bits: IOState

    ghost function Repr(): set<object>
      reads this
    {
      if buffer == null then {this} else {this, buffer, buffer.network.socket}
    }

    predicate Valid()
      reads Repr()
    {
      buffer != null ==> buffer.Valid()
    }

    /** The default constructor: no buffer, so badbit is set. */
    constructor ()
      ensures buffer == null && rdbuf == null && bits == Cleared(false) && Valid()
    {
      buffer, rdbuf := null, null;
      bits := Cleared(false);
    }

    /** Over a buffer moved in; a null one leaves the stream with badbit set. */
    constructor FromBuffer(b: SrcBaseIOSocketBuffer.BaseIOSocketBuffer?)
      requires b != null ==> b.Valid()
      ensures buffer == b && rdbuf == b && bits == Cleared(b != null) && Valid()
    {
      buffer, rdbuf := b, b;
      bits := Cleared(b != null);
    }

    /** Over a client socket: a new buffer in allow-resize mode. */
    constructor FromSocket(socket: Peer, resizable: bool, ranged: bool)
      ensures buffer != null && fresh(buffer) && rdbuf == buffer && bits == Cleared(true) && Valid()
      ensures buffer.network.socket == socket && buffer.network.mode == SrcBaseNetwork.AllowResize
      ensures buffer.outBuffer == [] && buffer.get == NoArea
    {
      var b := new SrcBaseIOSocketBuffer.BaseIOSocketBuffer(socket, resizable, ranged);
      buffer, rdbuf := b, b;
      bits := Cleared(true);
    }

    /** Over a client socket with a fixed buffer size: prohibit-resize mode. */
    constructor FromSocketSized(socket: Peer, bufferSize: nat, resizable: bool, ranged: bool)
      requires bufferSize < TWO_31
      ensures buffer != null && fresh(buffer) && rdbuf == buffer && bits == Cleared(true) && Valid()
      ensures buffer.network.socket == socket && buffer.network.mode == SrcBaseNetwork.ProhibitResize
      ensures buffer.outBuffer == Zeros(bufferSize) && buffer.get == NoArea
    {
      var b := new SrcBaseIOSocketBuffer.BaseIOSocketBuffer.Sized(socket, bufferSize, resizable, ranged);
      buffer, rdbuf := b, b;
      bits := Cleared(true);
    }

    /** Over a network moved in: a new buffer over it, optionally with a fixed size. */
    constructor FromNetwork(network: SrcBaseNetwork.BaseNetwork, resizable: bool, ranged: bool)
      ensures buffer != null && fresh(buffer) && rdbuf == buffer && bits == Cleared(true) && Valid()
      ensures buffer.network == network && buffer.outBuffer == [] && buffer.get == NoArea
    {
      var b := new SrcBaseIOSocketBuffer.BaseIOSocketBuffer.Over(network, resizable, ranged);
      buffer, rdbuf := b, b;
      bits := Cleared(true);
    }

    constructor FromNetworkSized(network: SrcBaseNetwork.BaseNetwork, bufferSize: nat, resizable: bool, ranged: bool)
      requires bufferSize < TWO_31
      ensures buffer != null && fresh(buffer) && rdbuf == buffer && bits == Cleared(true) && Valid()
      ensures buffer.network == network && buffer.outBuffer == Zeros(bufferSize) && buffer.get == NoArea
    {
      var b := new SrcBaseIOSocketBuffer.BaseIOSocketBuffer.OverSized(network, bufferSize, resizable, ranged);
      buffer, rdbuf := b, b;
      bits := Cleared(true);
    }

    /**
     * The move constructor: the buffer changes owner and becomes this
     * stream's `rdbuf`; the source is left without a buffer (its own
     * `rdbuf` still points at the moved buffer).
     */
    constructor Move(other: BaseIOSocketStream)
      requires other.Valid()
      modifies other
      ensures buffer == old(other.buffer) && rdbuf == buffer && bits == Cleared(buffer != null) && Valid()
      ensures other.buffer == null && other.rdbuf == old(other.rdbuf) && other.bits == old(other.bits)
    {
      buffer := other.buffer;
      rdbuf := other.buffer;
      bits := Cleared(other.buffer != null);
      new;
      other.buffer := null;
    }

    /**
     * Move assignment: as the move constructor; the buffer this stream
     * owned before is destroyed by the `unique_ptr`.  Moving a stream onto
     * itself keeps its buffer.
     */
    method MoveAssign(other: BaseIOSocketStream)
      requires other.Valid()
      modifies this, other
      ensures buffer == old(other.buffer) && rdbuf == buffer && bits == Cleared(buffer != null) && Valid()
      ensures other != this ==> other.buffer == null && other.rdbuf == old(other.rdbuf) && other.bits == old(other.bits)
    {
      var moved := other.buffer;
      other.buffer := null;
      buffer := moved;
      rdbuf := buffer;
      bits := Cleared(buffer != null);
    }

    /** `logAndThrowWebException`: log, set failbit unless the stream failed already; the caller throws. */
    method LogAndThrow()
      modifies this
      ensures bits == Failed(old(bits)) && buffer == old(buffer) && rdbuf == old(rdbuf)
    {
      bits := Failed(bits);
    }

    /** `sendFundamental`, and so every scalar `<<`: the scalar's bytes through `sendBytes`. */
    method SendFundamental(value: seq<byte>) returns (r: Outcome<int>)
      requires Valid()
      modifies Repr()
      ensures buffer == old(buffer) && rdbuf == old(rdbuf) && Valid()
      ensures buffer == null ==> r == Fault && bits == old(bits)
      ensures buffer != null ==> buffer.Snapshot() == old(buffer.Snapshot()).(state := buffer.network.socket.State())
      ensures buffer != null ==>
        Scalar(buffer.network.socket.State(), bits, r, value) ==
        SendFundamentalSpec(old(buffer.network.socket.State()), old(bits), value)
    {
      if buffer == null {
        return Fault;
      }
      var network := buffer.GetNetwork();
      r := SrcBaseNetwork.SendBytes(network.socket, value);
      if r == Thrown {
        bits := Failed(bits);
      }
    }

    /** `receiveFundamental`, and so every scalar `>>`: the scalar's bytes through `receiveBytes`. */
    method ReceiveFundamental(value: seq<byte>) returns (r: Outcome<int>, filled: seq<byte>)
      requires Valid()
      modifies Repr()
      ensures buffer == old(buffer) && rdbuf == old(rdbuf) && Valid()
      ensures buffer == null ==> r == Fault && filled == value && bits == old(bits)
      ensures buffer != null ==> buffer.Snapshot() == old(buffer.Snapshot()).(state := buffer.network.socket.State())
      ensures buffer != null ==>
        Scalar(buffer.network.socket.State(), bits, r, filled) ==
        ReceiveFundamentalSpec(old(buffer.network.socket.State()), old(bits), value)
    {
      if buffer == null {
        return Fault, value;
      }
      var network := buffer.GetNetwork();
      var got;
      r, got := SrcBaseNetwork.ReceiveBytes(network.socket, |value|);
      filled := Overwrite(value, got);
      if r == Thrown {
        bits := Failed(bits);
      }
    }

    /** `<<` for the container, `std::string` and `std::string_view`. */
    method Write(data: seq<byte>) returns (r: Outcome<()>)
      requires Valid() && |data| < TWO_31
      modifies Repr()
      ensures buffer == old(buffer) && rdbuf == old(rdbuf) && Valid()
      ensures buffer == null ==> r == Fault && bits == old(bits)
      ensures buffer != null ==>
        Written(buffer.Snapshot(), bits, r) ==
        WriteSpec(old(buffer.Snapshot()), old(bits), data, buffer.network.mode, buffer.resizable, buffer.ranged)
    {
      if buffer == null {
        return Fault;
      }
      var n := buffer.Xsputn(data);
      if n == Fault {
        return Fault;
      }
      if n == Done(-1) {
        LogAndThrow();
        return Thrown;
      }
      r := Done(());
    }

    /**
     * `>>` for the container (`resizes` when its type has `resize`) and for
     * `std::string` (`resizes` always).
     */
    method Read(data: seq<byte>, resizes: bool) returns (r: Outcome<()>, filled: seq<byte>)
      requires Valid()
      modifies Repr()
      ensures buffer == old(buffer) && rdbuf == old(rdbuf) && Valid()
      ensures buffer == null ==> r == Fault && filled == data && bits == old(bits)
      ensures buffer != null ==>
        Filled(buffer.Snapshot(), bits, r, filled) ==
        ReadSpec(old(buffer.Snapshot()), old(bits), data, buffer.network.mode, buffer.resizable, buffer.ranged, resizes)
    {
      if buffer == null {
        return Fault, data;
      }
      if resizes {
        r, filled := ReadFrame(data);
      } else {
        r, filled := Get(data);
      }
    }

    /** The `pubsync` and resize steps of a resizing `>>`, then its `sgetn`. */
    method ReadFrame(data: seq<byte>) returns (r: Outcome<()>, filled: seq<byte>)
      requires Valid() && buffer != null
      modifies this, buffer, buffer.network.socket
      ensures buffer == old(buffer) && rdbuf == old(rdbuf) && Valid()
      ensures Filled(buffer.Snapshot(), bits, r, filled) ==
        ReadSpec(old(buffer.Snapshot()), old(bits), data, buffer.network.mode, buffer.resizable, buffer.ranged, true)
    {
      ghost var b0, st0 := buffer.Snapshot(), bits;
      ghost var mode, resizable, ranged := buffer.network.mode, buffer.resizable, buffer.ranged;
      buffer.SetInputType();
      ghost var b := buffer.Snapshot();
      assert b == b0.(io := Input);
      var s := buffer.Sync();
      ghost var spec := SrcBaseIOSocketBuffer.SyncSpec(b, mode, resizable, ranged);
      assert buffer.Snapshot() == spec.buf && s == spec.result;
      if s == Fault {
        assert ReadSpec(b0, st0, data, mode, resizable, ranged, true) == Filled(spec.buf, st0, Fault, data);
        return Fault, data;
      }
      if s == Done(-1) {
        assert ReadSpec(b0, st0, data, mode, resizable, ranged, true) == Filled(spec.buf, Failed(st0), Thrown, data);
        LogAndThrow();
        assert buffer.Snapshot() == spec.buf && bits == Failed(st0);
        return Thrown, data;
      }
      var n := buffer.GetLastPacketSize();
      ghost var g := GetSpec(spec.buf, st0, Resize(data, n), mode, resizable);
      assert ReadSpec(b0, st0, data, mode, resizable, ranged, true) == g;
      r, filled := Get(Resize(data, n));
      assert Filled(buffer.Snapshot(), bits, r, filled) == g;
      assert mode == buffer.network.mode && resizable == buffer.resizable && ranged == buffer.ranged;
    }

    /** The `sgetn` step of `>>`: up to `|data|` bytes from the get area into the start of `data`. */
    method Get(data: seq<byte>) returns (r: Outcome<()>, filled: seq<byte>)
      requires Valid() && buffer != null
      modifies this, buffer, buffer.network.socket
      ensures buffer == old(buffer) && rdbuf == old(rdbuf) && Valid()
      ensures Filled(buffer.Snapshot(), bits, r, filled) ==
        GetSpec(old(buffer.Snapshot()), old(bits), data, buffer.network.mode, buffer.resizable)
    {
      var got, bytes := buffer.Xsgetn(|data|);
      filled := Overwrite(data, bytes);
      if got == Fault {
        return Fault, filled;
      }
      if got == Done(-1) {
        LogAndThrow();
        return Thrown, filled;
      }
      r := Done(());
    }
  }
}
