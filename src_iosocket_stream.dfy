/**
 * src/IOSocketStream.h and src/IOSocketStream.cpp: the stream of the middle
 * generation, over a buffer of `std::vector<char>` (the aliases
 * `buffers::IOSocketBuffer` and `web::Network` name the buffer of
 * src/BaseIOSocketBuffer.h and the network of src/BaseNetwork.h, so the
 * container type has both `resize` and a range constructor).
 *
 * Unlike src/BaseIOSocketStream.h, a buffer result of -1 does not throw: it
 * sets eofbit and the operator returns normally.  The catch blocks around
 * the buffer calls (failbit, rethrow) never run over the library's own
 * network and buffer, whose `sendData`/`receiveData` already swallow every
 * `WebException`; a network or buffer subclass that throws would reach them,
 * and such overrides are not modelled.  Only the scalar
 * transfers, which call the network directly, can throw.  The header's two
 * templates `sendFundamental` and `receiveFundamental` and the `.cpp` file's
 * operators are one class, so they are one module here.
 */
module SrcIOSocketStream {
  import opened Bytes
  import opened Socket
  import opened Cursors
  import opened Fundamentals
  import SrcBaseNetwork
  import SrcBaseIOSocketBuffer
  import SrcBaseIOSocketStream

  type ReceiveMode = SrcBaseNetwork.ReceiveMode
  type Written = SrcBaseIOSocketStream.Written
  type Filled = SrcBaseIOSocketStream.Filled

  /** `setstate(eofbit)`: eofbit is added, nothing else changes. */
  function AtEof(st: IOState): (t: IOState)
    ensures t.eof && t.bad == st.bad && t.fail == st.fail
  {
    st.(eof := true)
  }

  /**
   * `<<` for `std::vector<char>` and `std::string_view`: `sputn` of the whole
   * content; -1 sets eofbit.  It never throws.
   */
  function WriteSpec(b: Buf, st: IOState, data: seq<byte>, mode: ReceiveMode, resizable: bool, ranged: bool): (r: Written)
    requires Fits(b) && |data| < TWO_31
    ensures Fits(r.buf)
    ensures r.result == Fault || r.result == Done(())
    ensures r.result != Fault ==> r.buf.pptr == 0
    ensures r.result == Done(()) ==> r.bits == st || r.bits == AtEof(st)
    ensures b.pptr < |b.out| ==> r.result != Fault
  {
    var x := SrcBaseIOSocketBuffer.XsputnSpec(b, data, mode, resizable, ranged);
    if x.result == Fault then SrcBaseIOSocketStream.Written(x.buf, st, Fault)
    else if x.result == Done(-1) then SrcBaseIOSocketStream.Written(x.buf, AtEof(st), Done(()))
    else SrcBaseIOSocketStream.Written(x.buf, st, Done(()))
  }

  /**
   * `>>` for `std::vector<char>` and `std::string`: switch to input,
   * `pubsync` one frame (-1 sets eofbit and returns, `data` untouched),
   * resize `data` to the frame's length and `sgetn` that many bytes (-1
   * sets eofbit).  It never throws: either `data` becomes the frame's
   * payload, or eofbit is set and `data` is what it was.
   */
  function ReadSpec(b: Buf, st: IOState, data: seq<byte>, mode: ReceiveMode, resizable: bool, ranged: bool): (r: Filled)
    requires Fits(b)
    ensures Fits(r.buf) && r.buf.io == Input && r.buf.out == b.out && r.buf.pptr == b.pptr
    ensures r.result == Fault || r.result == Done(())
    ensures r.result == Done(()) ==>
      (r.bits == st && 0 < r.buf.last <= |r.buf.inb| && r.data == r.buf.inb[..r.buf.last] &&
       r.buf.get == Area(r.buf.last, r.buf.last)) ||
      (r.bits == AtEof(st) && r.data == data && r.buf.last == -1)
  {
    var s := SrcBaseIOSocketBuffer.SyncSpec(b.(io := Input), mode, resizable, ranged);
    if s.result == Fault then SrcBaseIOSocketStream.Filled(s.buf, st, Fault, data)
    else if s.result == Done(-1) then SrcBaseIOSocketStream.Filled(s.buf, AtEof(st), Done(()), data)
    else
      var n := s.buf.last;
      var x := SrcBaseIOSocketBuffer.XsgetnSpec(s.buf, n, mode, resizable);
      var filled := Overwrite(Resize(data, n), x.bytes);
      if x.result == Fault then SrcBaseIOSocketStream.Filled(x.buf, st, Fault, filled)
      else if x.result == Done(-1) then SrcBaseIOSocketStream.Filled(x.buf, AtEof(st), Done(()), filled)
      else
        assert filled == s.buf.inb[..n];
        SrcBaseIOSocketStream.Filled(x.buf, st, Done(()), filled)
  }

  /**
   * `stream >> data` with a whole frame waiting at a peer that moves bytes
   * on every call: `data` becomes exactly the payload and no bit is set.
   */
  lemma ReadTakesFrame(b: Buf, st: IOState, data: seq<byte>, payload: seq<byte>, rest: seq<byte>,
                       mode: ReceiveMode, resizable: bool, ranged: bool)
    requires Fits(b) && 0 < |payload| < TWO_31
    requires b.state.incoming == SrcBaseNetwork.Frame(payload) + rest
    requires AllPositive(b.state.script) && |b.state.script| >= 4 + |payload|
    requires !SrcBaseNetwork.Grows(mode, resizable) ==> |payload| <= |b.inb|
    ensures var r := ReadSpec(b, st, data, mode, resizable, ranged);
      r.result == Done(()) && r.data == payload && r.bits == st && r.buf.state.incoming == rest
  {
    SrcBaseNetwork.FrameArrives(b.state, payload, rest, b.inb, mode, resizable);
  }

  /**
   * The two generations report the same failed frame differently: where
   * the stream of src/BaseIOSocketStream.h throws with failbit, this one
   * returns normally with eofbit, and neither touches the caller's data.
   */
  lemma FailedFrameSetsEofNotFail(b: Buf, st: IOState, data: seq<byte>, mode: ReceiveMode, resizable: bool, ranged: bool)
    requires Fits(b)
    requires SrcBaseIOSocketBuffer.SyncInSpec(b.(io := Input), mode, resizable).result == Done(-1)
    ensures var r := ReadSpec(b, st, data, mode, resizable, ranged);
      r.result == Done(()) && r.bits == AtEof(st) && r.data == data
    ensures var r := SrcBaseIOSocketStream.ReadSpec(b, st, data, mode, resizable, ranged, true);
      r.result == Thrown && r.bits == Failed(st) && r.data == data
  {
    SrcBaseIOSocketStream.FailedFrameKeepsData(b, st, data, mode, resizable, ranged);
  }

  /**
   * The echo exchange over a `std::vector<char>` buffer: `stream << s` puts
   * one frame on the wire, and when the peer answers with the same frame,
   * `stream >> r` gets `s` back with no bit set and an empty put area.
   */
  lemma EchoRoundTrip(b: Buf, st: IOState, s: seq<byte>, r0: seq<byte>, rest: seq<byte>)
    requires Fits(b) && b.pptr == 0 && 0 < |s| < TWO_31 && !st.eof
    requires var w := WriteSpec(b, st, s, SrcBaseNetwork.AllowResize, true, true);
      w.result == Done(()) && !w.bits.eof && w.buf.state.incoming == SrcBaseNetwork.Frame(s) + rest &&
      AllPositive(w.buf.state.script) && |w.buf.state.script| >= 4 + |s|
    ensures var w := WriteSpec(b, st, s, SrcBaseNetwork.AllowResize, true, true);
      var r := ReadSpec(w.buf, w.bits, r0, SrcBaseNetwork.AllowResize, true, true);
      w.buf.state.outgoing == b.state.outgoing + SrcBaseNetwork.Frame(s) &&
      r.result == Done(()) && r.data == s && r.bits == st && r.buf.pptr == 0 && Fits(r.buf)
  {
    SrcBaseIOSocketBuffer.OneWriteOneFrame(b, s, true);
    var w := WriteSpec(b, st, s, SrcBaseNetwork.AllowResize, true, true);
    ReadTakesFrame(w.buf, w.bits, r0, s, rest, SrcBaseNetwork.AllowResize, true, true);
  }

  class IOSocketStream {
    /** The owned buffer (`unique_ptr`); null after a move or default construction. */
    var buffer: SrcBaseIOSocketBuffer.BaseIOSocketBuffer?
    /** The buffer the `std::iostream` base points to (`rdbuf()`). */
    var rdbuf: SrcBaseIOSocketBuffer.BaseIOSocketBuffer?
    var bits: IOState

    ghost function Repr(): set<object>
      reads this
    {
      if buffer == null then {this} else {this, buffer, buffer.network.socket}
    }

    /** A buffer, when there is one, is a consistent buffer of `std::vector<char>`. */
    predicate Valid()
      reads Repr()
    {
      buffer != null ==> buffer.Valid() && buffer.resizable && buffer.ranged
    }

    /** The default constructor: no buffer, so badbit is set. */
    constructor ()
      ensures buffer == null && rdbuf == null && bits == Cleared(false) && Valid()
    {
      buffer, rdbuf := null, null;
      bits := Cleared(false);
    }

    /** Over a client socket: a new buffer in allow-resize mode. */
    constructor FromSocket(socket: Peer)
      ensures buffer != null && fresh(buffer) && rdbuf == buffer && bits == Cleared(true) && Valid()
      ensures buffer.network.socket == socket && buffer.network.mode == SrcBaseNetwork.AllowResize
      ensures buffer.outBuffer == [] && buffer.get == NoArea
    {
      var b := new SrcBaseIOSocketBuffer.BaseIOSocketBuffer(socket, true, true);
      buffer, rdbuf := b, b;
      bits := Cleared(true);
    }

    /** Over a client socket with a fixed buffer size: prohibit-resize mode. */
    constructor FromSocketSized(socket: Peer, bufferSize: nat)
      requires bufferSize < TWO_31
      ensures buffer != null && fresh(buffer) && rdbuf == buffer && bits == Cleared(true) && Valid()
      ensures buffer.network.socket == socket && buffer.network.mode == SrcBaseNetwork.ProhibitResize
      ensures buffer.outBuffer == Zeros(bufferSize) && buffer.get == NoArea
    {
      var b := new SrcBaseIOSocketBuffer.BaseIOSocketBuffer.Sized(socket, bufferSize, true, true);
      buffer, rdbuf := b, b;
      bits := Cleared(true);
    }

    /** Over a buffer moved in; a null one leaves the stream with badbit set. */
    constructor FromBuffer(b: SrcBaseIOSocketBuffer.BaseIOSocketBuffer?)
      requires b != null ==> b.Valid() && b.resizable && b.ranged
      ensures buffer == b && rdbuf == b && bits == Cleared(b != null) && Valid()
    {
      buffer, rdbuf := b, b;
      bits := Cleared(b != null);
    }

    /** Over a network moved in: a new buffer over it. */
    constructor FromNetwork(network: SrcBaseNetwork.BaseNetwork)
      ensures buffer != null && fresh(buffer) && rdbuf == buffer && bits == Cleared(true) && Valid()
      ensures buffer.network == network && buffer.outBuffer == [] && buffer.get == NoArea
    {
      var b := new SrcBaseIOSocketBuffer.BaseIOSocketBuffer.Over(network, true, true);
      buffer, rdbuf := b, b;
      bits := Cleared(true);
    }

    /** Over a network moved in, with a fixed buffer size. */
    constructor FromNetworkSized(network: SrcBaseNetwork.BaseNetwork, bufferSize: nat)
      requires bufferSize < TWO_31
      ensures buffer != null && fresh(buffer) && rdbuf == buffer && bits == Cleared(true) && Valid()
      ensures buffer.network == network && buffer.outBuffer == Zeros(bufferSize) && buffer.get == NoArea
    {
      var b := new SrcBaseIOSocketBuffer.BaseIOSocketBuffer.OverSized(network, bufferSize, true, true);
      buffer, rdbuf := b, b;
      bits := Cleared(true);
    }

    /** The move constructor: the buffer changes owner; the source keeps none. */
    constructor Move(other: IOSocketStream)
      requires other.Valid()
      modifies other
      ensures buffer == old(other.buffer) && rdbuf == buffer && bits == Cleared(buffer != null) && Valid()
      ensures other.buffer == null && other.rdbuf == old(other.rdbuf) && other.bits == old(other.bits)
    {
      buffer := other.buffer;
      rdbuf := other.buffer;
      bits := Cleared(other.buffer != null);
      new;
      other.buffer := null;
    }

    /** Move assignment: as the move constructor; moving a stream onto itself keeps its buffer. */
    method MoveAssign(other: IOSocketStream)
      requires other.Valid()
      modifies this, other
      ensures buffer == old(other.buffer) && rdbuf == buffer && bits == Cleared(buffer != null) && Valid()
      ensures other != this ==> other.buffer == null && other.rdbuf == old(other.rdbuf) && other.bits == old(other.bits)
    {
      var moved := other.buffer;
      other.buffer := null;
      buffer := moved;
      rdbuf := buffer;
      bits := Cleared(buffer != null);
    }

    /** `sendFundamental`, and so every scalar `<<`. */
    method SendFundamental(value: seq<byte>) returns (r: Outcome<int>)
      requires Valid()
      modifies Repr()
      ensures buffer == old(buffer) && rdbuf == old(rdbuf) && Valid()
      ensures buffer == null ==> r == Fault && bits == old(bits)
      ensures buffer != null ==> buffer.Snapshot() == old(buffer.Snapshot()).(state := buffer.network.socket.State())
      ensures buffer != null ==>
        Scalar(buffer.network.socket.State(), bits, r, value) ==
        SendFundamentalSpec(old(buffer.network.socket.State()), old(bits), value)
    {
      if buffer == null {
        return Fault;
      }
      var network := buffer.GetNetwork();
      r := SrcBaseNetwork.SendBytes(network.socket, value);
      if r == Thrown {
        bits := Failed(bits);
      }
    }

    /** `receiveFundamental`, and so every scalar `>>`. */
    method ReceiveFundamental(value: seq<byte>) returns (r: Outcome<int>, filled: seq<byte>)
      requires Valid()
      modifies Repr()
      ensures buffer == old(buffer) && rdbuf == old(rdbuf) && Valid()
      ensures buffer == null ==> r == Fault && filled == value && bits == old(bits)
      ensures buffer != null ==> buffer.Snapshot() == old(buffer.Snapshot()).(state := buffer.network.socket.State())
      ensures buffer != null ==>
        Scalar(buffer.network.socket.State(), bits, r, filled) ==
        ReceiveFundamentalSpec(old(buffer.network.socket.State()), old(bits), value)
    {
      if buffer == null {
        return Fault, value;
      }
      var network := buffer.GetNetwork();
      var got;
      r, got := SrcBaseNetwork.ReceiveBytes(network.socket, |value|);
      filled := Overwrite(value, got);
      if r == Thrown {
        bits := Failed(bits);
      }
    }

    /** `<<` for `std::vector<char>` and `std::string_view`. */
    method Write(data: seq<byte>) returns (r: Outcome<()>)
      requires Valid() && |data| < TWO_31
      modifies Repr()
      ensures buffer == old(buffer) && rdbuf == old(rdbuf) && Valid()
      ensures buffer == null ==> r == Fault && bits == old(bits)
      ensures buffer != null ==>
        SrcBaseIOSocketStream.Written(buffer.Snapshot(), bits, r) ==
        WriteSpec(old(buffer.Snapshot()), old(bits), data, buffer.network.mode, buffer.resizable, buffer.ranged)
    {
      if buffer == null {
        return Fault;
      }
      var n := buffer.Xsputn(data);
      if n == Fault {
        return Fault;
      }
      if n == Done(-1) {
        bits := AtEof(bits);
      }
      r := Done(());
    }

    /** `>>` for `std::vector<char>` and `std::string`. */
    method Read(data: seq<byte>) returns (r: Outcome<()>, filled: seq<byte>)
      requires Valid()
      modifies Repr()
      ensures buffer == old(buffer) && rdbuf == old(rdbuf) && Valid()
      ensures buffer == null ==> r == Fault && filled == data && bits == old(bits)
      ensures buffer != null ==>
        SrcBaseIOSocketStream.Filled(buffer.Snapshot(), bits, r, filled) ==
        ReadSpec(old(buffer.Snapshot()), old(bits), data, buffer.network.mode, buffer.resizable, buffer.ranged)
    {
      if buffer == null {
        return Fault, data;
      }
      r, filled := ReadFrame(data);
    }

    method ReadFrame(data: seq<byte>) returns (r: Outcome<()>, filled: seq<byte>)
      requires Valid() && buffer != null
      modifies this, buffer, buffer.network.socket
      ensures buffer == old(buffer) && rdbuf == old(rdbuf) && Valid()
      ensures SrcBaseIOSocketStream.Filled(buffer.Snapshot(), bits, r, filled) ==
        ReadSpec(old(buffer.Snapshot()), old(bits), data, buffer.network.mode, buffer.resizable, buffer.ranged)
    {
      ghost var b0, st0 := buffer.Snapshot(), bits;
      ghost var mode, resizable, ranged := buffer.network.mode, buffer.resizable, buffer.ranged;
      buffer.SetInputType();
      ghost var b := buffer.Snapshot();
      assert b == b0.(io := Input);
      var s := buffer.Sync();
      ghost var spec := SrcBaseIOSocketBuffer.SyncSpec(b, mode, resizable, ranged);
      assert buffer.Snapshot() == spec.buf && s == spec.result;
      if s == Fault {
        assert ReadSpec(b0, st0, data, mode, resizable, ranged) == SrcBaseIOSocketStream.Filled(spec.buf, st0, Fault, data);
        return Fault, data;
      }
      if s == Done(-1) {
        assert ReadSpec(b0, st0, data, mode, resizable, ranged) == SrcBaseIOSocketStream.Filled(spec.buf, AtEof(st0), Done(()), data);
        bits := AtEof(bits);
        return Done(()), data;
      }
      var n := buffer.GetLastPacketSize();
      filled := Resize(data, n);
      var got, bytes := buffer.Xsgetn(|filled|);
      filled := Overwrite(filled, bytes);
      if got == Fault {
        return Fault, filled;
      }
      bits := if got == Done(-1) then AtEof(bits) else bits;
      r := Done(());
      assert mode == buffer.network.mode && resizable == buffer.resizable && ranged == buffer.ranged;
    }
  }
}
