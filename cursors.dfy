/**
 * What the three generations of the framed stream buffer (src/BaseIOSocketBuffer.h,
 * src/IOSocketBuffer.h and IOSocketBuffer.h) have in common.
 *
 * Each keeps an output container with a put area `[pbase, epptr)` that ends
 * one slot before the container's end, and an input container with a get
 * area `[eback, egptr)`.  `pbase` and `eback` are always the containers'
 * starts, so the model keeps the cursors as offsets: `pptr` into the output
 * container, and `next` and `end` (`gptr` and `egptr`) into the input one.
 */
module Cursors {
  import opened Bytes
  import opened Socket
  import SrcBaseNetwork

  /** The buffer's `type` field: which direction `sync` serves. */
  datatype IOType = Input | Output

  /** The get area: none (`eback()` is null), or `[0, end)` read up to `next`. */
  datatype GetArea = NoArea | Area(next: nat, end: int)

  /**
   * A buffer's whole state: the peer behind its network, the output and
   * input containers, the put cursor, the get area, `lastPacketSize` and `type`.
   */
  datatype Buf = Buf(state: PeerState, out: seq<byte>, inb: seq<byte>, pptr: nat, get: GetArea, last: int, io: IOType)

  /** What one buffer operation leaves behind and returns. */
  datatype Step = Step(buf: Buf, result: Outcome<int>)

  /** What `xsgetn` leaves behind, returns and stores into the caller's array. */
  datatype Read = Read(buf: Buf, result: Outcome<int>, bytes: seq<byte>)

  /** The put cursor lies within the output container, whose length fits a frame's `int` length. */
  predicate Fits(b: Buf) {
    |b.out| < TWO_31 && b.pptr <= |b.out|
  }

  /** `dataPart`: the filled part `[pbase, pptr)` of the put area. */
  function DataPart(b: Buf): (p: seq<byte>)
    requires Fits(b)
    ensures |p| == b.pptr && b.out == p + b.out[b.pptr..]
  {
    b.out[..b.pptr]
  }

  /**
   * The payload of output `sync`: the filled part when the container type can
   * be built from a range (`ranged`), else the whole output container.
   */
  function Outgoing(b: Buf, ranged: bool): (p: seq<byte>)
    requires Fits(b)
    ensures |p| < TWO_31
    ensures ranged ==> p == DataPart(b)
  {
    if ranged then DataPart(b) else b.out
  }

  /**
   * Whether `xsputn` of the two later generations first grows the output
   * container to the write's length: allow-resize mode, a shorter container,
   * and a container type with `resize`.
   */
  predicate GrowsFor(b: Buf, data: seq<byte>, mode: SrcBaseNetwork.ReceiveMode, resizable: bool) {
    mode == SrcBaseNetwork.AllowResize && |b.out| < |data| && resizable
  }

  /** The buffer as the loop of `xsputn` of the two later generations starts it. */
  function PutStart(b: Buf, data: seq<byte>, mode: SrcBaseNetwork.ReceiveMode, resizable: bool): (s: Buf)
    requires Fits(b) && |data| < TWO_31
    ensures Fits(s) && s.io == Output && s.state == b.state && s.inb == b.inb && s.get == b.get
    ensures GrowsFor(b, data, mode, resizable) ==> |s.out| == |data| && s.pptr == 0
    ensures !GrowsFor(b, data, mode, resizable) ==> s.out == b.out && s.pptr == b.pptr
  {
    if GrowsFor(b, data, mode, resizable) then b.(io := Output, out := Resize(b.out, |data|), pptr := 0)
    else b.(io := Output)
  }

  /**
   * The payloads a put area of `n` bytes (the reserved slot included) cuts
   * `x` into: full areas of `n` bytes, then what is left, if anything.
   */
  function Chunks(x: seq<byte>, n: nat): (c: seq<seq<byte>>)
    requires n >= 1
    ensures Concat(c) == x
    ensures forall k :: 0 <= k < |c| ==> 0 < |c[k]| <= n
    ensures forall k :: 0 <= k < |c| - 1 ==> |c[k]| == n
    decreases |x|
  {
    if x == [] then []
    else if |x| <= n then [x]
    else
      var rest := Chunks(x[n..], n);
      assert x == x[..n] + x[n..];
      [x[..n]] + rest
  }

  /** A run of payloads, each sent as one frame. */
  function Wire(c: seq<seq<byte>>): (w: seq<byte>)
    requires forall k :: 0 <= k < |c| ==> |c[k]| < TWO_31
  {
    if c == [] then [] else SrcBaseNetwork.Frame(c[0]) + Wire(c[1..])
  }

  /** With a 4-byte buffer, a 10-byte write becomes frames of 4, 4 and 2 bytes. */
  lemma TenBytesInFours(x: seq<byte>)
    requires |x| == 10
    ensures var c := Chunks(x, 4);
      |c| == 3 && c[0] == x[..4] && c[1] == x[4..8] && c[2] == x[8..]
  {
    assert Chunks(x[8..], 4) == [x[8..]];
    assert x[4..][4..] == x[8..] && x[4..][..4] == x[4..8];
  }

  /** Chunks that fit go out whole: a write no longer than the area is one frame. */
  lemma ShortWriteIsOneChunk(x: seq<byte>, n: nat)
    requires n >= 1 && 0 < |x| <= n
    ensures Chunks(x, n) == [x]
  {
  }

  /** A full area goes out first, and the rest is cut as before. */
  lemma FullChunkFirst(x: seq<byte>, y: seq<byte>, n: nat)
    requires n >= 1 && |x| == n
    ensures Chunks(x + y, n) == [x] + Chunks(y, n)
  {
    if y != [] {
      assert (x + y)[..n] == x && (x + y)[n..] == y;
    } else {
      assert x + y == x;
    }
  }

  lemma WireCons(x: seq<byte>, c: seq<seq<byte>>)
    requires |x| < TWO_31 && forall k :: 0 <= k < |c| ==> |c[k]| < TWO_31
    ensures Wire([x] + c) == SrcBaseNetwork.Frame(x) + Wire(c)
  {
    assert ([x] + c)[1..] == c;
  }

  /** What the copy loop of `xsgetn` leaves: the get area, the bytes copied, the result. */
  datatype Copy = Copy(get: GetArea, bytes: seq<byte>, result: Outcome<int>)

  /**
   * The copy loop of `xsgetn` on the get area `[0, end)` read up to `next`:
   * `count` bytes when the area holds them.  When the cursor reaches `egptr`
   * first, the byte at `egptr` (one past the area) is copied too, the area is
   * dropped, and the result is the area's full length `end`.  Reading past
   * the input container is undefined behaviour: a `Fault`.  A request for
   * nothing returns eof.
   */
  function CopySpec(inb: seq<byte>, next: nat, end: int, count: nat): (c: Copy)
    ensures c.result == Fault || c.result.Done?
    ensures c.result.Done? ==> |c.bytes| <= count && (c.bytes == [] || (next + |c.bytes| <= |inb| && c.bytes == inb[next..next + |c.bytes|]))
    ensures c.result.Done? && c.get.Area? ==>
      c.get == Area(next + count, end) && |c.bytes| == count && c.result.value == (if count == 0 then EOF else count)
    ensures c.result.Done? && c.get.NoArea? ==>
      next <= end < next + count && |c.bytes| == end - next + 1 && c.result.value == end
  {
    if next <= end < next + count then
      if end < |inb| then Copy(NoArea, inb[next..end + 1], Done(end))
      else Copy(Area(next, end), [], Fault)
    else if count == 0 then Copy(Area(next, end), [], Done(EOF))
    else if next + count <= |inb| then Copy(Area(next + count, end), inb[next..next + count], Done(count))
    else Copy(Area(next, end), [], Fault)
  }

  /** The loop itself, one byte per turn, as all three generations write it. */
  method CopyOut(inb: seq<byte>, next: nat, end: int, count: nat) returns (c: Copy)
    ensures c == CopySpec(inb, next, end, count)
  {
    var gptr := next;
    var bytes: seq<byte> := [];
    for i := 0 to count
      invariant gptr == next + i && (i == 0 || (gptr <= |inb| && bytes == inb[next..gptr]))
      invariant i == 0 ==> bytes == []
      invariant !(next <= end < gptr)
    {
      if gptr == end {
        if gptr >= |inb| {
          return Copy(Area(next, end), [], Fault);
        }
        return Copy(NoArea, bytes + [inb[gptr]], Done(end));
      }
      if gptr >= |inb| {
        return Copy(Area(next, end), [], Fault);
      }
      bytes := bytes + [inb[gptr]];
      gptr := gptr + 1;
    }
    c := Copy(Area(gptr, end), bytes, Done(if count == 0 then EOF else count));
  }

  /**
   * `underflow` once a get area exists: the byte under the cursor, as a
   * signed `char` widened to `int` and not consumed; at the area's end the
   * area is dropped and the result is eof.
   */
  function PeekSpec(inb: seq<byte>, next: nat, end: int): (c: Copy)
    ensures c.result == Fault || c.result.Done?
    ensures c.result.Done? && next < end ==> next < |inb| && c.get == Area(next, end) && c.result.value == SignedChar(inb[next])
    ensures c.result.Done? && next >= end ==> c.get == NoArea && c.result.value == EOF
  {
    if next < end then
      if next < |inb| then Copy(Area(next, end), [], Done(SignedChar(inb[next])))
      else Copy(Area(next, end), [], Fault)
    else Copy(NoArea, [], Done(EOF))
  }

  /** A byte 0xFF under the cursor is returned as the value of eof. */
  lemma PeekFFIsEof(inb: seq<byte>, next: nat, end: int)
    requires next < end && next < |inb| && inb[next] == 0xFF
    ensures PeekSpec(inb, next, end).result == Done(EOF)
  {
  }

  /**
   * How the refill at the start of `underflow` and `xsgetn` can end: a
   * fault, a failed refill (-1) that left no get area, or a get area to
   * read from.
   */
  predicate Refilled(s: Step) {
    s.result == Fault || (s.result == Done(-1) && s.buf.get.NoArea?) || (s.result == Done(0) && s.buf.get.Area?)
  }

  /** The rest of `underflow` after the refill: eof when it failed, else a peek. */
  function PeekRest(s: Step): (r: Step)
    requires Refilled(s)
    ensures r.buf == s.buf.(get := r.buf.get)
    ensures r.result == Fault || (r.result.Done? && -128 <= r.result.value < 128)
    ensures s.result == Done(-1) ==> r == Step(s.buf, Done(EOF))
    ensures r.result.Done? && r.buf.get.Area? ==>
      r.buf.get.next < r.buf.get.end && r.buf.get.next < |r.buf.inb| &&
      r.result.value == SignedChar(r.buf.inb[r.buf.get.next])
  {
    if s.result == Fault then s
    else if s.result == Done(-1) then Step(s.buf, Done(EOF))
    else
      var c := PeekSpec(s.buf.inb, s.buf.get.next, s.buf.get.end);
      Step(s.buf.(get := c.get), c.result)
  }

  /**
   * The rest of `xsgetn` after the refill: -1 when it failed, 0 for an area
   * of length 0, else the copy loop.
   */
  function CopyRest(s: Step, count: nat): (r: Read)
    requires Refilled(s)
    ensures r.buf == s.buf.(get := r.buf.get)
    ensures r.result == Fault || r.result.Done?
    ensures |r.bytes| <= count
    ensures s.result == Done(-1) ==> r == Read(s.buf, Done(-1), [])
    ensures s.result == Done(0) && r.result == Done(-1) ==> count == 0 && r.bytes == []
    ensures s.result == Done(0) && r.result.Done? && r.bytes != [] ==>
      var next := s.buf.get.next;
      next + |r.bytes| <= |s.buf.inb| && r.bytes == s.buf.inb[next..next + |r.bytes|]
  {
    if s.result == Fault then Read(s.buf, Fault, [])
    else if s.result == Done(-1) then Read(s.buf, Done(-1), [])
    else if s.buf.get.end == 0 then Read(s.buf, Done(0), [])
    else
      var c := CopySpec(s.buf.inb, s.buf.get.next, s.buf.get.end, count);
      Read(s.buf.(get := c.get), c.result, c.bytes)
  }
}
