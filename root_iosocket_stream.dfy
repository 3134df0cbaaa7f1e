/**
 * IOSocketStream.h (at the repository root): the oldest stream, a template
 * over the character and container types, holding a raw pointer to a
 * buffer of IOSocketBuffer.h.  Scalars are refused at compile time, so the
 * stream moves only whole containers, and it checks no result at all:
 * `<<` is one `sputn`; `>>` is, for a container type with `resize`, a
 * switch to input, a `pubsync` that receives one frame, a resize to
 * `getLastPacketSize()`, and then an `sgetn` of the container's length.
 *
 * Nothing is reported through the stream's state bits.  The one failure
 * that escapes is the resize: after a failed payload receive the buffer
 * records -1, and resizing a container to `size_t(-1)` elements throws
 * `std::length_error`, which the model counts as a `Fault`.
 */
module RootIOSocketStream {
  import opened Bytes
  import opened Socket
  import opened Cursors
  import SrcBaseNetwork
  import RootNetwork
  import RootIOSocketBuffer

  type ReceiveMode = SrcBaseNetwork.ReceiveMode

  /** What `<<` leaves: the buffer and the outcome. */
  datatype Written = Written(buf: Buf, result: Outcome<()>)

  /** What `>>` leaves: the buffer, the outcome and the caller's container. */
  datatype Filled = Filled(buf: Buf, result: Outcome<()>, data: seq<byte>)

  /** `<<`: `sputn` of the container, whose result is dropped. */
  function WriteSpec(b: Buf, data: seq<byte>, mode: ReceiveMode, resizable: bool, ranged: bool): (r: Written)
    requires Fits(b) && |data| < TWO_31
    ensures Fits(r.buf)
    ensures r.result == Fault || (r.result == Done(()) && r.buf.pptr == 0)
    ensures b.pptr < |b.out| || RootIOSocketBuffer.GrowsEmpty(b, mode, resizable) ==> r.result == Done(())
  {
    var x := RootIOSocketBuffer.XsputnSpec(b, data, mode, resizable, ranged);
    Written(x.buf, if x.result == Fault then Fault else Done(()))
  }

  /**
   * `>>`.  With a resizable container: switch to input, `pubsync`, resize
   * the container to the recorded length (-1 throws `std::length_error`),
   * then `sgetn` that many bytes.  Otherwise just the `sgetn` of the
   * container's length from whatever get area there is.
   */
  function ReadSpec(b: Buf, data: seq<byte>, mode: ReceiveMode, resizable: bool, ranged: bool): (r: Filled)
    requires Fits(b)
    ensures Fits(r.buf) && r.buf.io == Input && r.buf.out == b.out && r.buf.pptr == b.pptr
    ensures r.result == Fault || r.result == Done(())
    ensures !resizable ==> |r.data| == |data|
    ensures !resizable && b.get.Area? ==> r.buf.state == b.state
    ensures resizable && r.result == Done(()) ==>
      0 <= r.buf.last <= |r.buf.inb| && r.data == r.buf.inb[..r.buf.last]
  {
    if resizable then
      var s := RootIOSocketBuffer.SyncSpec(b.(io := Input), mode, resizable, ranged);
      if s.result == Fault || s.buf.last < 0 then Filled(s.buf, Fault, data)
      else
        var n := s.buf.last;
        var x := RootIOSocketBuffer.XsgetnSpec(s.buf, n, mode, resizable);
        var filled := Overwrite(Resize(data, n), x.bytes);
        if x.result == Fault then Filled(x.buf, Fault, filled)
        else
          assert filled == s.buf.inb[..n];
          Filled(x.buf, Done(()), filled)
    else
      var x := RootIOSocketBuffer.XsgetnSpec(b, |data|, mode, resizable);
      Filled(x.buf, if x.result == Fault then Fault else Done(()), Overwrite(data, x.bytes))
  }

  /**
   * The echo exchange of the oldest generation: into an empty resizable
   * container, `stream << s` puts one frame on the wire and reads the two
   * status bytes of its acknowledgement; when the peer answers with the
   * same frame, `stream >> r` makes `r` exactly `s` and acknowledges it
   * with two status bytes of its own.
   */
  lemma EchoRoundTrip(b: Buf, s: seq<byte>, r0: seq<byte>, rest: seq<byte>)
    requires Fits(b) && |b.out| == 0 && 0 < |s| < TWO_31
    requires |b.state.incoming| >= 2 && b.state.incoming[2..] == SrcBaseNetwork.Frame(s) + rest
    requires RootNetwork.Allows(b.state.script, [4, 1, |s|, 1])
    requires var w := WriteSpec(b, s, SrcBaseNetwork.AllowResize, true, true);
      RootNetwork.Allows(w.buf.state.script, [4, 1, |s|, 1])
    ensures var w := WriteSpec(b, s, SrcBaseNetwork.AllowResize, true, true);
      var r := ReadSpec(w.buf, r0, SrcBaseNetwork.AllowResize, true, true);
      w.result == Done(()) && w.buf.state.outgoing == b.state.outgoing + SrcBaseNetwork.Frame(s) &&
      r.result == Done(()) && r.data == s && r.buf.state.incoming == rest &&
      r.buf.state.outgoing == w.buf.state.outgoing + [RootNetwork.STATUS, RootNetwork.STATUS]
  {
    RootIOSocketBuffer.OneWriteOneFrame(b, s, true);
    var w := WriteSpec(b, s, SrcBaseNetwork.AllowResize, true, true);
    RootNetwork.ReceiveArrives(w.buf.state, s, rest, w.buf.inb, SrcBaseNetwork.AllowResize, true);
  }

  /**
   * A write to a peer that takes nothing is not noticed: `<<` completes,
   * nothing reaches the wire, and only the buffer's recorded length (-1)
   * shows the failure.
   */
  lemma DeadPeerWriteIsSilent(b: Buf, s: seq<byte>)
    requires Fits(b) && |b.out| == 0 && 0 < |s| < TWO_31 && b.state.script == []
    ensures var w := WriteSpec(b, s, SrcBaseNetwork.AllowResize, true, true);
      w.result == Done(()) && w.buf.state.outgoing == b.state.outgoing && w.buf.last == EOF
  {
    RootIOSocketBuffer.DeadPeerWriteReportsCount(b, s, true);
  }

  /**
   * A payload receive that fails makes `>>` into a resizable container
   * throw: the recorded length is -1, and the resize to `size_t(-1)`
   * elements fails; the caller's container is left as it was.
   */
  lemma FailedPayloadThrows(b: Buf, data: seq<byte>, mode: ReceiveMode, ranged: bool)
    requires Fits(b)
    requires RootNetwork.ReceiveDataSpec(b.state, b.inb, mode, true).result == Done(EOF)
    ensures var r := ReadSpec(b, data, mode, true, ranged);
      r.result == Fault && r.data == data
  {
  }

  class IOSocketStream {
    /** The buffer, owned through a raw pointer and deleted by the destructor. */
    const buffer: RootIOSocketBuffer.IOSocketBuffer

    predicate Valid()
      reads buffer, buffer.network.socket
    {
      buffer.Valid()
    }

    /** Over a client socket: a new buffer in allow-resize mode with empty containers. */
    constructor FromSocket(socket: Peer, resizable: bool, ranged: bool)
      ensures fresh(buffer) && Valid() && buffer.network.socket == socket
      ensures buffer.resizable == resizable && buffer.ranged == ranged
      ensures buffer.outBuffer == [] && buffer.get == NoArea
    {
      buffer := new RootIOSocketBuffer.IOSocketBuffer(socket, resizable, ranged);
    }

    /** Over a client socket with a buffer size: zeroed containers of that size. */
    constructor FromSocketSized(socket: Peer, bufferSize: nat, resizable: bool, ranged: bool)
      requires bufferSize < TWO_31
      ensures fresh(buffer) && Valid() && buffer.network.socket == socket
      ensures buffer.resizable == resizable && buffer.ranged == ranged
      ensures buffer.outBuffer == Zeros(bufferSize) && buffer.get == NoArea
    {
      buffer := new RootIOSocketBuffer.IOSocketBuffer.Sized(socket, bufferSize, resizable, ranged);
    }

    /** Over a buffer subclass. */
    constructor FromBuffer(b: RootIOSocketBuffer.IOSocketBuffer)
      requires b.Valid()
      ensures buffer == b && Valid()
    {
      buffer := b;
    }

    /** `<<` for the container. */
    method Write(data: seq<byte>) returns (r: Outcome<()>)
      requires Valid() && |data| < TWO_31
      modifies buffer, buffer.network.socket
      ensures Valid()
      ensures Written(buffer.Snapshot(), r) ==
        WriteSpec(old(buffer.Snapshot()), data, buffer.network.mode, buffer.resizable, buffer.ranged)
    {
      var n := buffer.Xsputn(data);
      r := if n == Fault then Fault else Done(());
    }

    /** `>>` for the container; `buffer.resizable` stands for the container type having `resize`. */
    method Read(data: seq<byte>) returns (r: Outcome<()>, filled: seq<byte>)
      requires Valid()
      modifies buffer, buffer.network.socket
      ensures Valid()
      ensures Filled(buffer.Snapshot(), r, filled) ==
        ReadSpec(old(buffer.Snapshot()), data, buffer.network.mode, buffer.resizable, buffer.ranged)
    {
      if buffer.resizable {
        r, filled := ReadFrame(data);
      } else {
        var got, bytes := buffer.Xsgetn(|data|);
        filled := Overwrite(data, bytes);
        r := if got == Fault then Fault else Done(());
      }
    }

    /** The resizing `>>`: `pubsync`, resize, `sgetn`. */
    method ReadFrame(data: seq<byte>) returns (r: Outcome<()>, filled: seq<byte>)
      requires Valid() && buffer.resizable
      modifies buffer, buffer.network.socket
      ensures Valid()
      ensures Filled(buffer.Snapshot(), r, filled) ==
        ReadSpec(old(buffer.Snapshot()), data, buffer.network.mode, buffer.resizable, buffer.ranged)
    {
      ghost var b0 := buffer.Snapshot();
      ghost var mode, ranged := buffer.network.mode, buffer.ranged;
      var s, n := Receive();
      if s == Fault || n < 0 {
        return Fault, data;
      }
      var got, bytes := buffer.Xsgetn(n);
      filled := Overwrite(Resize(data, n), bytes);
      r := if got == Fault then Fault else Done(());
      assert mode == buffer.network.mode && ranged == buffer.ranged;
    }

    /** `setInputType`, `pubsync` and `getLastPacketSize`: one frame into the input container. */
    method Receive() returns (s: Outcome<int>, n: int)
      requires Valid()
      modifies buffer, buffer.network.socket
      ensures Valid() && n == buffer.lastPacketSize
      ensures Step(buffer.Snapshot(), s) ==
        RootIOSocketBuffer.SyncSpec(old(buffer.Snapshot()).(io := Input), buffer.network.mode, buffer.resizable, buffer.ranged)
    {
      buffer.SetInputType();
      s := buffer.Sync();
      n := buffer.GetLastPacketSize();
    }
  }
}
