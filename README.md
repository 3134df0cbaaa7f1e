# SocketStreams in Dafny

SocketStreams (LazyPanda07/SocketStreams) lets a C++ program use a TCP
socket as a `std::iostream`. The repository keeps several generations of
the same three layers side by side, and each source file has its own Dafny
module here:

- **Network.** These classes move bytes over a socket. `sendBytes` and
  `receiveBytes` are loops over `send`/`recv`. `sendData` and `receiveData`
  put frames on the wire: a 4-byte `int` length followed by the payload.
  The receiving container may grow to fit the payload (allow-resize mode)
  or keep its size (prohibit-resize mode).
  - `SrcBaseNetwork` models src/BaseNetwork.h.
  - `SrcNetwork` models src/Network.h.
  - `SrcNetworkCpp` models src/Network.cpp.
  - `RootNetwork` models Network.h, the oldest generation. It sends a
    one-byte acknowledgement after every step and never retries.
  - `IncludeNetwork` models include/Network.h, the newest generation. Its
    `receiveBytes` first drains a queue of look-ahead bytes, and it switches
    a socket to non-blocking mode for a call.
- **Stream buffers.** These are `std::streambuf` subclasses. They have a
  put area with one reserved slot and a get area, and `overflow`,
  `underflow`, `xsputn`, `xsgetn` and `sync` decide how many frames one
  write produces and what one read returns.
  - `SrcBaseIOSocketBuffer` models src/BaseIOSocketBuffer.h.
  - `SrcIOSocketBuffer` models src/IOSocketBuffer.h.
  - `RootIOSocketBuffer` models IOSocketBuffer.h.
  - `SrcIOSocketBufferCpp` models src/IOSocketBuffer.cpp, an unframed
    byte-level buffer.
- **Streams.** These are `std::iostream` subclasses. They turn a buffer's
  results into failbit, eofbit or a thrown `WebException`.
  - `SrcBaseIOSocketStream` models src/BaseIOSocketStream.h.
  - `SrcIOSocketStream` models src/IOSocketStream.cpp and
    src/IOSocketStream.h.
  - `RootIOSocketStream` models IOSocketStream.h.
- **`SrcBufferArray`** models src/BufferArray.cpp: one page of memory mapped
  from the operating system, with a single owner that moves hand over.

Shared modules:
- `Bytes`: bytes, `Outcome` (`Done`, `Thrown` for a `WebException`, `Fault`
  for undefined behaviour or any other exception), the little-endian `int`
  codec, and `resize`.
- `Socket`: the operating system's socket, seen as a peer. A peer has the
  bytes it received (`outgoing`), the bytes waiting to be read
  (`incoming`), and a script of per-call results. An entry below 0 is
  `SOCKET_ERROR`. Any other entry caps how many bytes that call moves, and
  0 is an orderly close. An exhausted script fails like a timeout.
- `Transfers`: pure definitions of the send and receive loops.
- `Cursors`: the buffer value (`Buf`) and the copy loops that three buffer
  generations share.
- `Fundamentals`: the stream state bits and the scalar transfers.

Every method that changes state is proved against a pure specification
function of the old state. The properties the source promises are proved
as lemmas about those functions: round trips, frame counts, error mapping,
and ownership.

Where the code and the design description disagree, the model follows the
code:
- The design says non-blocking mode is reverted on every exit path, but
  include/Network.h does not revert it when the call throws.
- The design says streams mark themselves failed and rethrow so that
  callers never see stale data. Only src/BaseIOSocketStream.h does that.
  - src/IOSocketStream.cpp reports failures through eofbit. Over the
    library's own network and buffer its `catch` blocks never run, because
    the library's `sendData` and `receiveData` catch every `WebException`
    themselves. A network or buffer subclass that lets one through would
    reach them; such overrides are not modelled.
  - IOSocketStream.h checks nothing. A failed frame makes its `>>` resize
    the container to the -1 that `sync` just recorded, not to an older
    length, and that resize throws `std::length_error`.

## Model

| member | source | states |
|---|---|---|
| Bytes.EncodeInt32 | src/BaseNetwork.h:212-213 | the length prefix is exactly 4 bytes (host order fixed as little-endian) |
| Bytes.DecodeInt32 | src/BaseNetwork.h:251-253 | 4 received bytes give a 32-bit `int`, negative exactly when the top bit of the last byte is set |
| Bytes.DecodeEncode | src/BaseNetwork.h:212-213 | decoding the prefix of `n` gives back `n` for every 32-bit `n` |
| Bytes.EncodeDecode | src/BaseNetwork.h:251-253 | every 4-byte prefix is the encoding of the `int` it decodes to |
| Bytes.EncodeInjective | src/BaseNetwork.h:212-213 | two lengths with the same prefix are equal |
| Bytes.Resize | src/BaseNetwork.h:130-135 | `resize(n)` gives length `n`, keeps the old prefix and zero-fills the new tail |
| Bytes.Overwrite | src/BaseNetwork.h:263 | received bytes land at the container's start; the rest of the container is unchanged |
| Bytes.SignedChar | src/BaseIOSocketBuffer.h:121 | a `char` widened to `int` lies in [-128, 128), is negative exactly for bytes >= 128, and is congruent to the byte |
| Bytes.Truncate | src/BaseIOSocketBuffer.h:94 | storing an `int` in a `char` keeps its value modulo 256 |
| Bytes.TruncateSignedChar | src/IOSocketBuffer.cpp:7-14 | a byte widened to `int` and stored back is the same byte |
| Bytes.ConcatLength | include/Network.h:269-286 | the queued views hold as many bytes as their lengths add up to |
| Bytes.ConcatAppend | include/Network.h:269-286 | appending a view appends its bytes |
| Socket.SendResult | src/BaseNetwork.h:325 | `send` returns `SOCKET_ERROR` or a count between 0 and the bytes offered |
| Socket.AfterSend | src/BaseNetwork.h:325 | `send` appends exactly the first `r` bytes offered to the peer's stream, and nothing else changes |
| Socket.RecvResult | src/BaseNetwork.h:348 | `recv` returns `SOCKET_ERROR` or a count no larger than requested or available |
| Socket.AfterRecv | src/BaseNetwork.h:348 | `recv` removes from the incoming stream exactly the bytes it stores |
| Socket.SendMovesSome | src/BaseNetwork.h:325 | against a peer whose every call makes progress, a non-empty `send` moves at least one byte |
| Socket.RecvMovesSome | src/BaseNetwork.h:348 | the same for `recv` with bytes waiting |
| Socket.Peer.Send | src/BaseNetwork.h:325 | one `send` call changes the peer as `AfterSend` says and returns `SendResult` |
| Socket.Peer.Recv | src/BaseNetwork.h:348 | one `recv` call changes the peer as `AfterRecv` says and returns the stored bytes |
| Transfers.SendAll | src/BaseNetwork.h:316-337 | the send loop either throws or returns exactly the requested count |
| Transfers.ReceiveAll | src/BaseNetwork.h:339-360 | the receive loop either throws or returns exactly `count`, having stored exactly that many bytes |
| Transfers.ReceiveUntilClose | src/Network.h:96-121 | the receive loop that stops at a close throws or returns the number of bytes it stored |
| Transfers.SendAllAppends | src/BaseNetwork.h:323-336 | the send loop appends a prefix of the data to the peer, and all of it when it returns normally |
| Transfers.SendAllPrefix | src/BaseNetwork.h:323-336 | whatever the outcome, the peer got a prefix of the data and the incoming stream is untouched |
| Transfers.SendAllDelivers | src/BaseNetwork.h:323-336 | a normal return means every byte was delivered, in order |
| Transfers.SendAllSkipsEmptySends | src/BaseNetwork.h:323-336 | a `send` that moves zero bytes does not end the loop |
| Transfers.SendAllPositive | src/BaseNetwork.h:316-337 | against a peer that always makes progress, sending succeeds and appends exactly the data |
| Transfers.SendAllRuns | src/BaseNetwork.h:316-337 | such a send succeeds, using at most one call per byte (one call for an empty send) |
| Transfers.ReceiveAllTakes | src/BaseNetwork.h:346-359 | the receive loop stores exactly the bytes it takes off the front of the incoming stream, in order |
| Transfers.ReceiveUntilCloseTakes | src/Network.h:103-118 | the same for the loop that stops at a close |
| Transfers.ReceiveAllRuns | src/BaseNetwork.h:339-360 | with enough bytes waiting and a peer that always makes progress, receiving succeeds |
| Transfers.ReceiveAllKeepsPositive | src/BaseNetwork.h:339-360 | the receive loop uses at most one call per byte |
| Transfers.ReceiveAllPositive | src/BaseNetwork.h:339-360 | then it stores exactly the first `count` incoming bytes |
| Transfers.ReceiveUntilCloseRuns | src/Network.h:96-121 | the early-return loop also receives everything when nothing fails |
| Transfers.ReceiveUntilCloseKeepsPositive | src/Network.h:96-121 | it too uses at most one call per byte |
| Transfers.ReceiveUntilClosePositive | src/Network.h:96-121 | and stores exactly the first `count` incoming bytes |
| Transfers.ReceiveAllContinues | src/BaseNetwork.h:346-357 | one turn of the receive loop that neither fails nor finishes leaves the rest of the loop to do |
| Transfers.ReceiveUntilCloseContinues | src/Network.h:103-118 | the same for the early-return loop |
| Cursors.DataPart | src/BaseIOSocketBuffer.h:252-256 | `dataPart` is the filled part `[pbase, pptr)` of the put area |
| Cursors.Outgoing | src/BaseIOSocketBuffer.h:229-236 | output `sync` sends the filled part when the container has range construction, else the whole container |
| Cursors.PutStart | src/BaseIOSocketBuffer.h:132-141 | `xsputn` grows the output container to the write's length exactly in allow-resize mode for a shorter resizable container, with an empty put area |
| Cursors.Chunks | src/BaseIOSocketBuffer.h:143-165 | a write is cut into full areas of `n` bytes, then a non-empty remainder, and the pieces join back to the write |
| Cursors.TenBytesInFours | src/BaseIOSocketBuffer.h:143-165 | with a 4-byte area, 10 bytes go out as frames of 4, 4 and 2 bytes |
| Cursors.ShortWriteIsOneChunk | src/BaseIOSocketBuffer.h:143-165 | a write that fits the area goes out as one frame |
| Cursors.FullChunkFirst | src/BaseIOSocketBuffer.h:143-165 | a full area goes out first, and the rest is cut as before |
| Cursors.CopySpec | src/BaseIOSocketBuffer.h:183-205 | `xsgetn` copies `count` bytes from the get area when it holds them. When it runs out, it copies the byte at `egptr` too, drops the area and returns the area's full length. A request for nothing returns eof |
| Cursors.CopyOut | src/BaseIOSocketBuffer.h:190-205 | the byte-by-byte copy loop computes `CopySpec` |
| Cursors.PeekSpec | src/BaseIOSocketBuffer.h:119-126 | `underflow` returns the byte under the cursor as a signed `char` without consuming it; at the end it drops the area and returns eof |
| Cursors.PeekFFIsEof | src/BaseIOSocketBuffer.h:119-122 | a 0xFF byte under the cursor is returned as the value of eof |
| Cursors.PeekRest | src/BaseIOSocketBuffer.h:111-126 | after a failed refill `underflow` returns eof; otherwise it peeks |
| Cursors.CopyRest | src/BaseIOSocketBuffer.h:175-205 | after a failed refill `xsgetn` returns -1 with nothing copied; the bytes it copies are the get area's, from the cursor |
| Fundamentals.Failed | src/BaseIOSocketStream.h:139-142 | failbit is set only when the stream has not failed yet; no bit is ever cleared |
| Fundamentals.SendFundamentalSpec | src/BaseIOSocketStream.h:147-166 | a scalar goes out as exactly its `sizeof(T)` bytes with no prefix, or the call throws with failbit set and a prefix of the bytes sent |
| Fundamentals.ReceiveFundamentalSpec | src/BaseIOSocketStream.h:168-187 | a scalar is filled from exactly the next `sizeof(T)` incoming bytes, or the call throws with failbit set and the bytes that did arrive stored |
| Fundamentals.ScalarRoundTrip | src/BaseIOSocketStream.h:147-187 | a scalar sent by one stream is received whole by the other |
| Fundamentals.ClosedPeerFailsStream | src/BaseIOSocketStream.h:168-187 | a peer that closes in place of the scalar makes the stream fail and leaves the value as it was |
| SrcBaseNetwork.Frame | src/BaseNetwork.h:204-224 | a frame is the 4-byte length followed by the payload |
| SrcBaseNetwork.SendDataSpec | src/BaseNetwork.h:204-243 | `sendData` returns the payload count after appending exactly one frame, or -1 after appending only a prefix of that frame |
| SrcBaseNetwork.ReceiveDataSpec | src/BaseNetwork.h:245-296 | `receiveData` consumes exactly a length and that many payload bytes, stored at the container's start. The container becomes that long exactly when it grows; otherwise it keeps its size. Errors give -1, and a negative or oversized length is a fault |
| SrcBaseNetwork.FrameRoundTrip | src/BaseNetwork.h:212-215 | what `sendData` puts on the wire, `receiveData` at the other end returns as the count and the payload (the whole container when it grows) |
| SrcBaseNetwork.FrameArrives | src/BaseNetwork.h:251-263 | a non-empty frame waiting at a peer that always makes progress is received whole |
| SrcBaseNetwork.SentFrame | src/BaseNetwork.h:212-215 | a successful `sendData` appends exactly one frame |
| SrcBaseNetwork.EmptyFrameIsNeverReceived | src/BaseNetwork.h:346-357 | a frame of length 0 is reported as -1: the payload loop asks for 0 bytes and takes the 0 for a close |
| SrcBaseNetwork.ZeroLengthIsNeverReceived | src/BaseNetwork.h:346-357 | the same, stated for any received length of 0 |
| SrcBaseNetwork.ReceivingNothingThrows | src/BaseNetwork.h:346-353 | `receiveBytes` of 0 bytes always throws |
| SrcBaseNetwork.ReceiveAllCorrected | src/BaseNetwork.h:339-360 | the intended loop receives exactly `count` bytes, or throws |
| SrcBaseNetwork.ReceiveDataCorrected | src/BaseNetwork.h:245-296 | the intended `receiveData` consumes exactly a length and that many bytes, including length 0 |
| SrcBaseNetwork.CorrectedFrameRoundTrip | src/BaseNetwork.h:212-215 | with the correction, the round trip holds for every payload, including the empty one |
| SrcBaseNetwork.FrameHeadArrives | src/BaseNetwork.h:251-253 | a frame's prefix waiting at a peer that always makes progress is received whole and decodes to the payload length |
| SrcBaseNetwork.PayloadArrives | src/BaseNetwork.h:263 | the payload then arrives through the intended loop, whatever its length |
| SrcBaseNetwork.SendBytes | src/BaseNetwork.h:316-337 | the loop of `sendBytes` computes `SendAll` |
| SrcBaseNetwork.ReceiveBytes | src/BaseNetwork.h:339-360 | the loop of `receiveBytes` computes `ReceiveAll` |
| SrcBaseNetwork.BaseNetwork.constructor | src/BaseNetwork.h:196-202 | the constructor keeps the socket and the mode it is given |
| SrcBaseNetwork.BaseNetwork.SetReceiveMode | src/BaseNetwork.h:298-302 | `setReceiveMode` stores the mode |
| SrcBaseNetwork.BaseNetwork.GetResizeMode | src/BaseNetwork.h:310-314 | `getResizeMode` returns the mode last stored |
| SrcBaseNetwork.BaseNetwork.SendData | src/BaseNetwork.h:204-243 | both overloads compute `SendDataSpec`: same content, same bytes |
| SrcBaseNetwork.BaseNetwork.ReceiveData | src/BaseNetwork.h:245-296 | both overloads compute `ReceiveDataSpec` under the stored mode |
| SrcNetworkCpp.TimeoutSplit | src/Network.cpp:11-12 | `tv_sec * 10^6 + tv_usec` equals the timeout in microseconds, with `0 <= tv_usec < 10^6` |
| SrcNetworkCpp.ReceiveDataSpec | src/Network.cpp:104-148 | `receiveData` grows a shorter container to the length and never shrinks it. Bytes past the payload keep their old values. A negative length is a fault |
| SrcNetworkCpp.FrameRoundTrip | src/Network.cpp:68-125 | the frame `sendData` produces comes back as its count, with the payload at the container's start and the old bytes after it |
| SrcNetworkCpp.EmptyFrameIsNeverReceived | src/Network.cpp:104-125 | a frame of length 0 is reported as -1 |
| SrcNetworkCpp.Network.constructor | src/Network.cpp:62-66 | the constructor keeps the socket |
| SrcNetworkCpp.Network.SendData | src/Network.cpp:68-102 | both overloads send the frame of src/BaseNetwork.h, so identical content gives identical bytes, or return -1 |
| SrcNetworkCpp.Network.ReceiveData | src/Network.cpp:104-148 | both overloads compute `ReceiveDataSpec` |
| SrcNetwork.ReceiveDataSpec | src/Network.h:236-287 | `receiveData` reads a length, resizes only in allow-resize mode for a resizable container, and stores up to that many payload bytes at the container's start. On a close it returns the count so far; a cut-short length is a fault |
| SrcNetwork.FrameRoundTrip | src/Network.h:237-263 | a waiting frame comes back as its count and payload, including the empty payload |
| SrcNetwork.HeadArrives | src/Network.h:98-121 | the length prefix arrives whole through the early-return loop |
| SrcNetwork.PayloadArrives | src/Network.h:98-121 | the payload arrives whole through the early-return loop, whatever its length |
| SrcNetwork.CloseMidPayloadReturnsCount | src/Network.h:107-114 | a close after `k` of the announced payload bytes is not an error: `receiveData` returns `k`, with those bytes at the container's start |
| SrcNetwork.ReceiveFails | src/Network.h:107-110 | a turn that meets `SOCKET_ERROR` ends the loop with a throw |
| SrcNetwork.ReceiveCloses | src/Network.h:111-114 | a turn that meets a close ends the loop with the total so far |
| SrcNetwork.ReceiveFinishes | src/Network.h:116-118 | a turn that reaches `count` ends the loop |
| SrcNetwork.ReceiveGoesOn | src/Network.h:103-118 | any other turn leaves the rest of the loop to do |
| SrcNetwork.Network.Client | src/Network.h:130-187 | the client-side constructor keeps its mode |
| SrcNetwork.Network.Server | src/Network.h:189-193 | the server-side constructor ignores its mode and stores allow-resize |
| SrcNetwork.Network.SetReceiveMode | src/Network.h:289-293 | `setReceiveMode` stores the mode |
| SrcNetwork.Network.GetResizeMode | src/Network.h:295-299 | `getResizeMode` returns the mode last stored |
| SrcNetwork.Network.SendBytes | src/Network.h:73-94 | the loop of `sendBytes` computes `SendAll`: repeat until `count`, throw on `SOCKET_ERROR` |
| SrcNetwork.Network.ReceiveBytes | src/Network.h:96-121 | the loop of `receiveBytes` computes `ReceiveUntilClose` |
| SrcNetwork.Network.SendData | src/Network.h:195-234 | both overloads send the same frame as src/BaseNetwork.h, or return -1 |
| SrcNetwork.Network.ReceiveData | src/Network.h:236-287 | both overloads compute `ReceiveDataSpec` under the stored mode |
| RootNetwork.Acked | Network.h:104-105 | one acknowledged send is one `send` of the bytes followed by one `recv` of a status byte |
| RootNetwork.SendDataSpec | Network.h:95-126 | `sendData` makes exactly four calls (send length, recv status, send payload, recv status) and returns what the payload's single `send` returned |
| RootNetwork.ReceiveDataSpec | Network.h:128-171 | `receiveData` makes exactly four calls (recv length, send status, recv payload, send status), resizes only in allow-resize mode for a resizable container, and returns the single payload `recv`'s count |
| RootNetwork.Exchange | Network.h:95-171 | when every call moves what it asks for, the frame sent comes back as its count and payload, and each side sees exactly two status bytes |
| RootNetwork.SendArrives | Network.h:95-126 | such a `sendData` appends exactly one frame and reads two status bytes |
| RootNetwork.ReceiveArrives | Network.h:128-171 | such a `receiveData` gets the payload and sends two status bytes |
| RootNetwork.PartialSendIsNotRetried | Network.h:107-110 | a payload the socket takes only in part is not retried; the part is reported |
| RootNetwork.ShortLengthFaults | Network.h:133-136 | a length cut short leaves the length indeterminate: a fault |
| RootNetwork.Network.Client | Network.h:67-87 | the client-side constructor keeps its mode |
| RootNetwork.Network.Server | Network.h:89-93 | the server-side constructor ignores its mode and stores allow-resize |
| RootNetwork.Network.SetReceiveMode | Network.h:173-177 | `setReceiveMode` stores the mode |
| RootNetwork.Network.GetResizeMode | Network.h:179-183 | `getResizeMode` returns the mode last stored |
| RootNetwork.Network.SendData | Network.h:95-126 | both overloads compute `SendDataSpec` |
| RootNetwork.Network.ReceiveData | Network.h:128-171 | both overloads compute `ReceiveDataSpec` under the stored mode |
| IncludeNetwork.SendLoop | include/Network.h:234-261 | `sendBytes` clears `endOfStream`; it returns the full count, or on a zero-byte send sets `endOfStream` and returns the count so far, or throws on `SOCKET_ERROR` |
| IncludeNetwork.SendLoopAppends | include/Network.h:242-258 | the peer gets exactly the bytes `sendBytes` reports, in order |
| IncludeNetwork.SendLoopPrefix | include/Network.h:242-258 | whatever the outcome, the peer got a prefix of the data |
| IncludeNetwork.SendLoopDelivers | include/Network.h:242-258 | a normal return means the reported bytes were delivered |
| IncludeNetwork.EmptySendCallsOnce | include/Network.h:242-258 | a request for 0 bytes still makes exactly one `send` call |
| IncludeNetwork.SendLoopPositive | include/Network.h:242-258 | against a peer that always makes progress, every byte goes out and the stream stays open |
| IncludeNetwork.DrainTurn | include/Network.h:269-286 | one drain turn copies from the front view and keeps the queue's bytes in FIFO order |
| IncludeNetwork.DrainNeverEnds | include/Network.h:269-286 | with more bytes queued than requested, no drain turn ever empties the queue |
| IncludeNetwork.DrainStalls | include/Network.h:269-286 | once the request is met, a drain turn changes nothing |
| IncludeNetwork.ReceiveSpec | include/Network.h:263-301 | queued bytes come first and front to back, then at most one `recv` for what is missing. `endOfStream` is set exactly when the sum is 0, and the call throws exactly when the sum is -1 |
| IncludeNetwork.ErrorAfterDrainIsHidden | include/Network.h:288-298 | a failed `recv` after a partial drain is not reported; the count is one less than the bytes stored |
| IncludeNetwork.DrainCorrected | include/Network.h:269-286 | the intended drain stops once the request is met, leaving the rest queued |
| IncludeNetwork.ReceiveCorrected | include/Network.h:263-301 | the intended `receiveBytes` throws exactly when the `recv` fails and otherwise reports the bytes stored |
| IncludeNetwork.CorrectedAgrees | include/Network.h:263-301 | except for the error case, the intended call agrees with the written one |
| IncludeNetwork.DuringSetsNonBlocking | include/Network.h:182-187 | the function runs with `O_NONBLOCK` set and every other flag as it was |
| IncludeNetwork.NonBlockingCall | include/Network.h:169-208 | reading flags can throw. The functor runs with `O_NONBLOCK` set. A normal return restores the original flags, and a socket that was already non-blocking is left alone |
| IncludeNetwork.ThrowLeavesNonBlocking | include/Network.h:196-202 | a functor that throws on a blocking socket leaves it non-blocking |
| IncludeNetwork.NonBlockingCallCorrected | include/Network.h:169-208 | the intended call restores the original flags however the functor ends, with the same result |
| IncludeNetwork.Network.SendBytes | include/Network.h:234-261 | the do-while loop computes `SendLoop` |
| IncludeNetwork.Network.ReceiveBytes | include/Network.h:263-301 | the drain loop and the one `recv` compute `ReceiveSpec` and leave the queue empty |
| IncludeNetwork.Network.CallInNonBlockingMode | include/Network.h:169-208 | the flag changes on the descriptor follow `NonBlockingCall` |
| SrcBaseIOSocketBuffer.SyncOutSpec | src/BaseIOSocketBuffer.h:225-244 | output `sync` sends the payload as one frame and records its count or -1. The put cursor goes back to `pbase` even when the send failed |
| SrcBaseIOSocketBuffer.SyncInSpec | src/BaseIOSocketBuffer.h:213-223 | input `sync` receives one frame and publishes `[0, lastPacketSize)`; on -1 the get area is left as it was |
| SrcBaseIOSocketBuffer.OverflowSpec | src/BaseIOSocketBuffer.h:91-104 | `overflow` stores `ch` in the reserved slot and flushes the area as one frame. It returns 0 on success and eof on failure, and is a fault when the container has no slot |
| SrcBaseIOSocketBuffer.PutLoop | src/BaseIOSocketBuffer.h:143-165 | the `xsputn` loop returns `count` or -1 and ends with an empty put area; it can only fault when the put area is already full on entry |
| SrcBaseIOSocketBuffer.XsputnSpec | src/BaseIOSocketBuffer.h:129-168 | `xsputn` returns `count`, or -1 at the first failed flush, and leaves the put area empty |
| SrcBaseIOSocketBuffer.PutLoopSends | src/BaseIOSocketBuffer.h:143-165 | a write that succeeds puts on the wire the old area plus the new bytes, cut into frames of the container's length |
| SrcBaseIOSocketBuffer.FixedAreaSendsChunks | src/BaseIOSocketBuffer.h:143-167 | with a fixed container of `n` bytes, a successful write goes out as frames of `n` bytes and then the remainder |
| SrcBaseIOSocketBuffer.OneWriteOneFrame | src/BaseIOSocketBuffer.h:132-167 | in allow-resize mode with a resizable container, a successful write of at least one byte is exactly one frame |
| SrcBaseIOSocketBuffer.UnderflowSpec | src/BaseIOSocketBuffer.h:106-127 | `underflow` refills only when there is no get area and returns the byte under the cursor without consuming it |
| SrcBaseIOSocketBuffer.XsgetnSpec | src/BaseIOSocketBuffer.h:170-206 | `xsgetn` refills only when there is no get area, returns -1 when that fails, and copies at most `count` bytes |
| SrcBaseIOSocketBuffer.FreshFrameIsRead | src/BaseIOSocketBuffer.h:171-206 | asking for a fresh frame's length returns that length and exactly the payload |
| SrcBaseIOSocketBuffer.BaseIOSocketBuffer.constructor | src/BaseIOSocketBuffer.h:265-289 | the socket and address constructors make a network in allow-resize mode and empty containers |
| SrcBaseIOSocketBuffer.BaseIOSocketBuffer.Sized | src/BaseIOSocketBuffer.h:271-275 | with a buffer size, the containers are zeroed to that size and the mode is prohibit-resize |
| SrcBaseIOSocketBuffer.BaseIOSocketBuffer.Over | src/BaseIOSocketBuffer.h:291-295 | over a network subclass, that network is kept as it is |
| SrcBaseIOSocketBuffer.BaseIOSocketBuffer.OverSized | src/BaseIOSocketBuffer.h:297-301 | the same with zeroed containers of the given size |
| SrcBaseIOSocketBuffer.BaseIOSocketBuffer.SetPointers | src/BaseIOSocketBuffer.h:85-89 | the put area becomes everything but the last slot of `outBuffer`, empty, with the last slot reserved |
| SrcBaseIOSocketBuffer.BaseIOSocketBuffer.Sync | src/BaseIOSocketBuffer.h:208-250 | `sync` computes `SyncSpec` for the direction in `type` |
| SrcBaseIOSocketBuffer.BaseIOSocketBuffer.Overflow | src/BaseIOSocketBuffer.h:91-104 | computes `OverflowSpec` |
| SrcBaseIOSocketBuffer.BaseIOSocketBuffer.Underflow | src/BaseIOSocketBuffer.h:106-127 | computes `UnderflowSpec` |
| SrcBaseIOSocketBuffer.BaseIOSocketBuffer.Xsputn | src/BaseIOSocketBuffer.h:129-168 | the loop computes `XsputnSpec` |
| SrcBaseIOSocketBuffer.PutStoreSends | src/BaseIOSocketBuffer.h:153-156 | storing one byte in the put area keeps what the rest of the write sends: the filled part and the remaining bytes, cut into frames of the container's length |
| SrcBaseIOSocketBuffer.BaseIOSocketBuffer.PutOne | src/BaseIOSocketBuffer.h:143-157 | one turn of the `xsputn` loop leaves the rest of `PutLoop` to do, or ends the write as `PutLoop` does |
| SrcBaseIOSocketBuffer.BaseIOSocketBuffer.PutEnd | src/BaseIOSocketBuffer.h:159-167 | the end of `xsputn` flushes a non-empty put area and returns `count`, or -1 when that flush fails |
| SrcBaseIOSocketBuffer.BaseIOSocketBuffer.Xsgetn | src/BaseIOSocketBuffer.h:170-206 | the loop computes `XsgetnSpec` |
| SrcBaseIOSocketBuffer.BaseIOSocketBuffer.SetInputType | src/BaseIOSocketBuffer.h:303-307 | switches `type` to input and changes nothing else |
| SrcBaseIOSocketBuffer.BaseIOSocketBuffer.SetOutputType | src/BaseIOSocketBuffer.h:309-313 | switches `type` to output and changes nothing else |
| SrcBaseIOSocketBuffer.BaseIOSocketBuffer.GetNetwork | src/BaseIOSocketBuffer.h:315-319 | returns the network |
| SrcBaseIOSocketBuffer.BaseIOSocketBuffer.GetLastPacketSize | src/BaseIOSocketBuffer.h:321-325 | returns the count the last `sync` recorded |
| SrcIOSocketBuffer.SyncOutSpec | src/IOSocketBuffer.h:225-244 | output `sync` sends one frame. Only a successful send moves the put cursor back; a failed one returns -1 with the bytes still in the area |
| SrcIOSocketBuffer.SyncInSpec | src/IOSocketBuffer.h:213-223 | input `sync` publishes `[0, lastPacketSize)`, or returns -1 with the get area untouched |
| SrcIOSocketBuffer.OverflowSpec | src/IOSocketBuffer.h:91-104 | `overflow` returns `ch` itself on a successful flush and eof on failure |
| SrcIOSocketBuffer.XsputnSpec | src/IOSocketBuffer.h:129-168 | `xsputn` as written returns `count`, or -1 when `overflow` returned -1 |
| SrcIOSocketBuffer.XsputnCorrected | src/IOSocketBuffer.h:129-168 | `xsputn` with the byte widened through `to_int_type`: -1 is returned only after a flush that failed |
| SrcIOSocketBuffer.FFAtReservedSlotEndsWrite | src/IOSocketBuffer.h:145-150 | a 0xFF byte landing in the reserved slot ends the write with -1 even though its frame was sent |
| SrcIOSocketBuffer.MinusOneMeansFailedFlush | src/IOSocketBuffer.h:143-167 | in the corrected write, -1 comes only from a failed flush |
| SrcIOSocketBuffer.SucceedsAsInBase | src/IOSocketBuffer.h:129-168 | a write that succeeds sends the same frames and leaves the same state as in src/BaseIOSocketBuffer.h |
| SrcIOSocketBuffer.FixedAreaSendsChunks | src/IOSocketBuffer.h:143-167 | with a fixed container of `n` bytes, a successful write goes out as frames of `n` bytes and then the remainder |
| SrcIOSocketBuffer.FailedFlushThenWriteFaults | src/IOSocketBuffer.h:238-243 | a failed flush leaves the cursor at the container's end, so the next write that does not grow the container stores past it |
| SrcIOSocketBuffer.UnderflowSpec | src/IOSocketBuffer.h:106-127 | as in the base generation: refill only without a get area, then a peek |
| SrcIOSocketBuffer.XsgetnSpec | src/IOSocketBuffer.h:170-206 | as in the base generation, including the full area length returned when the area runs out |
| SrcIOSocketBuffer.FreshFrameIsRead | src/IOSocketBuffer.h:170-206 | asking for a fresh frame's length returns that length and exactly the payload |
| SrcIOSocketBuffer.IOSocketBuffer.constructor | src/IOSocketBuffer.h:258-282 | the socket and address constructors make a new network and empty containers |
| SrcIOSocketBuffer.IOSocketBuffer.Sized | src/IOSocketBuffer.h:264-268 | with a buffer size, the containers are zeroed. The mode asked for is ignored by the socket constructor of src/Network.h, so it is allow-resize |
| SrcIOSocketBuffer.IOSocketBuffer.Over | src/IOSocketBuffer.h:284-288 | over a network subclass, that network is kept |
| SrcIOSocketBuffer.IOSocketBuffer.OverSized | src/IOSocketBuffer.h:290-294 | the same with zeroed containers |
| SrcIOSocketBuffer.IOSocketBuffer.SetPointers | src/IOSocketBuffer.h:85-89 | the last slot of the put area is reserved |
| SrcIOSocketBuffer.IOSocketBuffer.Sync | src/IOSocketBuffer.h:208-250 | computes `SyncSpec` |
| SrcIOSocketBuffer.IOSocketBuffer.Overflow | src/IOSocketBuffer.h:91-104 | computes `OverflowSpec` |
| SrcIOSocketBuffer.IOSocketBuffer.Underflow | src/IOSocketBuffer.h:106-127 | computes `UnderflowSpec` |
| SrcIOSocketBuffer.IOSocketBuffer.Xsputn | src/IOSocketBuffer.h:129-168 | the loop computes `XsputnSpec` as written |
| SrcIOSocketBuffer.Widen | src/IOSocketBuffer.h:147 | signed-`char` widening maps exactly 0xFF to -1; `to_int_type` never gives a negative value; both narrow back to the byte |
| SrcIOSocketBuffer.IOSocketBuffer.PutOne | src/IOSocketBuffer.h:143-157 | one turn of the `xsputn` loop, with the byte passed as a signed `char`, leaves the rest of the as-written `PutLoop` to do or ends the write as it does |
| SrcIOSocketBuffer.IOSocketBuffer.PutEnd | src/IOSocketBuffer.h:159-167 | the end of `xsputn` flushes a non-empty put area and returns `count`, or -1 when that flush fails |
| SrcIOSocketBuffer.IOSocketBuffer.Xsgetn | src/IOSocketBuffer.h:170-206 | the loop computes `XsgetnSpec` |
| SrcIOSocketBuffer.IOSocketBuffer.SetInputType | src/IOSocketBuffer.h:296-300 | switches `type` to input |
| SrcIOSocketBuffer.IOSocketBuffer.SetOutputType | src/IOSocketBuffer.h:302-306 | switches `type` to output |
| SrcIOSocketBuffer.IOSocketBuffer.GetNetwork | src/IOSocketBuffer.h:308-312 | returns the network |
| SrcIOSocketBuffer.IOSocketBuffer.GetLastPacketSize | src/IOSocketBuffer.h:314-318 | returns the count the last `sync` recorded |
| RootIOSocketBuffer.SyncOutSpec | IOSocketBuffer.h:204-218 | output `sync` sends, records what the payload's `send` returned, and always resets the cursor |
| RootIOSocketBuffer.SyncInSpec | IOSocketBuffer.h:196-203 | input `sync` publishes `[0, lastPacketSize)` whatever the count |
| RootIOSocketBuffer.SyncSpec | IOSocketBuffer.h:191-224 | `sync` never returns -1 |
| RootIOSocketBuffer.OverflowSpec | IOSocketBuffer.h:89-99 | `overflow` stores `ch`, flushes and returns `ch` whatever the flush did |
| RootIOSocketBuffer.PutLoop | IOSocketBuffer.h:135-153 | the `xsputn` loop returns the count whatever the network did |
| RootIOSocketBuffer.XsputnSpec | IOSocketBuffer.h:121-154 | `xsputn` grows the container only on a first write (null put pointer) in allow-resize mode, then the loop |
| RootIOSocketBuffer.FilledAreaIsOneSend | IOSocketBuffer.h:135-153 | a write that exactly fills its put area goes out as one `sendData` |
| RootIOSocketBuffer.OneWriteOneFrame | IOSocketBuffer.h:121-154 | a first write into a resizable container is one frame followed by two status bytes read |
| RootIOSocketBuffer.DeadPeerWriteReportsCount | IOSocketBuffer.h:121-154 | a write is reported whole even when the peer takes none of it |
| RootIOSocketBuffer.UnderflowSpec | IOSocketBuffer.h:101-119 | `underflow` refills only without a get area, then peeks or returns eof |
| RootIOSocketBuffer.XsgetnSpec | IOSocketBuffer.h:156-189 | `xsgetn` refills without a get area, then the copy loop |
| RootIOSocketBuffer.FreshFrameIsRead | IOSocketBuffer.h:156-189 | reading a fresh frame returns its payload and sends the two status bytes back |
| RootIOSocketBuffer.FailedReceiveReadsStaleBytes | IOSocketBuffer.h:196-203 | a failed payload `recv` is not noticed, and `xsgetn` hands out the bytes the container held before |
| RootIOSocketBuffer.IOSocketBuffer.constructor | IOSocketBuffer.h:232-254 | the socket and address constructors make a new network and empty containers |
| RootIOSocketBuffer.IOSocketBuffer.Sized | IOSocketBuffer.h:238-242 | with a buffer size, the containers are zeroed; the socket constructor of Network.h leaves the mode at allow-resize |
| RootIOSocketBuffer.IOSocketBuffer.Over | IOSocketBuffer.h:256-260 | over a network subclass, that network is kept |
| RootIOSocketBuffer.IOSocketBuffer.OverSized | IOSocketBuffer.h:262-266 | the same with zeroed containers |
| RootIOSocketBuffer.IOSocketBuffer.SetPointers | IOSocketBuffer.h:83-87 | the last slot of the put area is reserved |
| RootIOSocketBuffer.IOSocketBuffer.Sync | IOSocketBuffer.h:191-224 | computes `SyncSpec` |
| RootIOSocketBuffer.IOSocketBuffer.SyncInput | IOSocketBuffer.h:198-203 | input `sync` computes `SyncInSpec`: it receives and publishes `[0, lastPacketSize)` whatever the count |
| RootIOSocketBuffer.IOSocketBuffer.SyncOutput | IOSocketBuffer.h:204-218 | output `sync` computes `SyncOutSpec`: it sends, records the count and resets the cursor |
| RootIOSocketBuffer.IOSocketBuffer.Overflow | IOSocketBuffer.h:89-99 | computes `OverflowSpec` |
| RootIOSocketBuffer.IOSocketBuffer.Underflow | IOSocketBuffer.h:101-119 | computes `UnderflowSpec` |
| RootIOSocketBuffer.IOSocketBuffer.Refill | IOSocketBuffer.h:161-164 | the refill at the start of `underflow` and `xsgetn` runs input `sync` only when there is no get area, and leaves a get area behind unless it faults |
| RootIOSocketBuffer.IOSocketBuffer.Xsputn | IOSocketBuffer.h:121-154 | the loop computes `XsputnSpec` |
| RootIOSocketBuffer.IOSocketBuffer.PutOne | IOSocketBuffer.h:135-145 | one turn of the `xsputn` loop stores the byte or overflows, ignores what `overflow` returned, and leaves the rest of `PutLoop` to do |
| RootIOSocketBuffer.IOSocketBuffer.PutEnd | IOSocketBuffer.h:147-152 | the end of `xsputn` flushes a non-empty put area, ignores the result and returns `count` |
| RootIOSocketBuffer.IOSocketBuffer.Xsgetn | IOSocketBuffer.h:156-189 | the loop computes `XsgetnSpec` |
| RootIOSocketBuffer.IOSocketBuffer.SetInputType | IOSocketBuffer.h:268-272 | switches `type` to input |
| RootIOSocketBuffer.IOSocketBuffer.SetOutputType | IOSocketBuffer.h:274-278 | switches `type` to output |
| RootIOSocketBuffer.IOSocketBuffer.GetLastPacketSize | IOSocketBuffer.h:280-284 | returns the count the last `sync` recorded |
| SrcIOSocketBufferCpp.OverflowSpec | src/IOSocketBuffer.cpp:7-14 | `overflow` sends the low byte of `ch` raw and returns eof on end of stream, else 0 |
| SrcIOSocketBufferCpp.XsputnSpec | src/IOSocketBuffer.cpp:25-30 | `xsputn` sends the bytes raw and returns eof on end of stream, else the count |
| SrcIOSocketBufferCpp.UnderflowSpec | src/IOSocketBuffer.cpp:16-23 | `underflow` consumes one byte and returns it as a signed `char`, or eof on end of stream |
| SrcIOSocketBufferCpp.XsgetnSpec | src/IOSocketBuffer.cpp:32-37 | `xsgetn` returns eof on end of stream, else the count it records |
| SrcIOSocketBufferCpp.XsgetnBytes | src/IOSocketBuffer.cpp:32-37 | the bytes stored are the queued ones first, then part of the incoming stream |
| SrcIOSocketBufferCpp.ByteFFReadsAsEof | src/IOSocketBuffer.cpp:16-23 | a 0xFF byte on a live connection reads as eof |
| SrcIOSocketBufferCpp.OverflowSendsOneRawByte | src/IOSocketBuffer.cpp:7-14 | a one-byte write puts exactly that byte on the wire |
| SrcIOSocketBufferCpp.EmptyWriteReportsEof | src/IOSocketBuffer.cpp:25-30 | a write of nothing reports eof on an open connection |
| SrcIOSocketBufferCpp.IOSocketBuffer.constructor | src/IOSocketBuffer.cpp:39-55 | every constructor keeps the network |
| SrcIOSocketBufferCpp.IOSocketBuffer.Overflow | src/IOSocketBuffer.cpp:7-14 | computes `OverflowSpec` and records count and flag |
| SrcIOSocketBufferCpp.IOSocketBuffer.Underflow | src/IOSocketBuffer.cpp:16-23 | computes `UnderflowSpec` |
| SrcIOSocketBufferCpp.IOSocketBuffer.Xsputn | src/IOSocketBuffer.cpp:25-30 | computes `XsputnSpec` |
| SrcIOSocketBufferCpp.IOSocketBuffer.Xsgetn | src/IOSocketBuffer.cpp:32-37 | computes `XsgetnSpec` and stores `XsgetnBytes` |
| SrcIOSocketBufferCpp.IOSocketBuffer.GetLastPacketSize | src/IOSocketBuffer.cpp:67-70 | returns the recorded count |
| SrcIOSocketBufferCpp.IOSocketBuffer.GetEndOfStream | src/IOSocketBuffer.cpp:72-75 | returns the recorded flag |
| SrcBaseIOSocketStream.WriteSpec | src/BaseIOSocketStream.h:464-473 | `<<` of a container, string or string_view passes the whole content to `sputn`; -1 throws with failbit set |
| SrcBaseIOSocketStream.GetSpec | src/BaseIOSocketStream.h:490-493 | the `sgetn` step fills the container's start; -1 throws with failbit set |
| SrcBaseIOSocketStream.ReadSpec | src/BaseIOSocketStream.h:475-527 | a resizing `>>` takes one fresh frame: the container becomes exactly the payload, or a failed `pubsync` throws and leaves it alone. Otherwise `data.size()` bytes come from the current get area |
| SrcBaseIOSocketStream.WriteIsOneFrame | src/BaseIOSocketStream.h:464-473 | in allow-resize mode `stream << data` puts exactly one frame on the wire |
| SrcBaseIOSocketStream.StringReadTakesFrame | src/BaseIOSocketStream.h:509-527 | `stream >> s` for a string becomes exactly the next frame's payload |
| SrcBaseIOSocketStream.FailedFrameKeepsData | src/BaseIOSocketStream.h:480-485 | a failed `pubsync` throws with failbit set and leaves the container as it was |
| SrcBaseIOSocketStream.EchoRoundTrip | src/BaseIOSocketStream.h:464-496 | `stream << s` then `stream >> r` against an echoing peer gives `r == s` and leaves the buffer ready for the next exchange |
| SrcBaseIOSocketStream.BaseIOSocketStream.constructor | src/BaseIOSocketStream.h:189-194 | the default constructor has no buffer, so badbit is set |
| SrcBaseIOSocketStream.BaseIOSocketStream.FromBuffer | src/BaseIOSocketStream.h:230-236 | over a buffer moved in; a null buffer leaves badbit set |
| SrcBaseIOSocketStream.BaseIOSocketStream.FromSocket | src/BaseIOSocketStream.h:196-202 | a new buffer in allow-resize mode, bound as `rdbuf` |
| SrcBaseIOSocketStream.BaseIOSocketStream.FromSocketSized | src/BaseIOSocketStream.h:204-210 | a new buffer of fixed size in prohibit-resize mode |
| SrcBaseIOSocketStream.BaseIOSocketStream.FromNetwork | src/BaseIOSocketStream.h:238-244 | a new buffer over the network moved in |
| SrcBaseIOSocketStream.BaseIOSocketStream.FromNetworkSized | src/BaseIOSocketStream.h:246-252 | the same with a fixed buffer size |
| SrcBaseIOSocketStream.BaseIOSocketStream.Move | src/BaseIOSocketStream.h:254-260 | the buffer changes owner and becomes `rdbuf`; the source is left without one |
| SrcBaseIOSocketStream.BaseIOSocketStream.MoveAssign | src/BaseIOSocketStream.h:262-270 | as the move constructor; moving onto itself keeps the buffer |
| SrcBaseIOSocketStream.BaseIOSocketStream.LogAndThrow | src/BaseIOSocketStream.h:132-145 | sets failbit unless the stream failed already |
| SrcBaseIOSocketStream.BaseIOSocketStream.SendFundamental | src/BaseIOSocketStream.h:147-166 | computes `SendFundamentalSpec`; every scalar `<<` at lines 272-366 forwards to it |
| SrcBaseIOSocketStream.BaseIOSocketStream.ReceiveFundamental | src/BaseIOSocketStream.h:168-187 | computes `ReceiveFundamentalSpec`; every scalar `>>` at lines 368-462 forwards to it |
| SrcBaseIOSocketStream.BaseIOSocketStream.Write | src/BaseIOSocketStream.h:464-538 | the `<<` overloads compute `WriteSpec` |
| SrcBaseIOSocketStream.BaseIOSocketStream.Read | src/BaseIOSocketStream.h:475-527 | the `>>` overloads compute `ReadSpec` |
| SrcBaseIOSocketStream.BaseIOSocketStream.ReadFrame | src/BaseIOSocketStream.h:478-493 | the resizing steps of `>>` compute `ReadSpec` |
| SrcBaseIOSocketStream.BaseIOSocketStream.Get | src/BaseIOSocketStream.h:490-493 | the `sgetn` step computes `GetSpec` |
| SrcIOSocketStream.AtEof | src/IOSocketStream.cpp:248-251 | `setstate(eofbit)` adds eofbit and changes nothing else |
| SrcIOSocketStream.WriteSpec | src/IOSocketStream.cpp:244-261 | `<<` of a vector or string_view never throws a `WebException`; a failed `sputn` sets eofbit and nothing else |
| SrcIOSocketStream.ReadSpec | src/IOSocketStream.cpp:263-321 | `>>` never throws a `WebException`. Either `data` becomes the fresh frame's payload with no bit set, or eofbit is set and `data` is what it was |
| SrcIOSocketStream.ReadTakesFrame | src/IOSocketStream.cpp:263-291 | a waiting frame becomes exactly `data`, with no bit set |
| SrcIOSocketStream.FailedFrameSetsEofNotFail | src/IOSocketStream.cpp:268-274 | a failed frame sets eofbit here, where src/BaseIOSocketStream.h throws with failbit; neither touches `data` |
| SrcIOSocketStream.EchoRoundTrip | src/IOSocketStream.cpp:244-291 | `stream << s` then `stream >> r` against an echoing peer gives `r == s` with no bit set |
| SrcIOSocketStream.IOSocketStream.constructor | src/IOSocketStream.cpp:5-9 | the default constructor has no buffer, so badbit is set |
| SrcIOSocketStream.IOSocketStream.FromSocket | src/IOSocketStream.cpp:11-16 | a new `std::vector<char>` buffer in allow-resize mode |
| SrcIOSocketStream.IOSocketStream.FromSocketSized | src/IOSocketStream.cpp:18-23 | a new buffer of fixed size in prohibit-resize mode |
| SrcIOSocketStream.IOSocketStream.FromBuffer | src/IOSocketStream.cpp:39-44 | over a buffer moved in; a null one leaves badbit set |
| SrcIOSocketStream.IOSocketStream.FromNetwork | src/IOSocketStream.cpp:46-51 | a new buffer over the network moved in |
| SrcIOSocketStream.IOSocketStream.FromNetworkSized | src/IOSocketStream.cpp:53-58 | the same with a fixed buffer size |
| SrcIOSocketStream.IOSocketStream.Move | src/IOSocketStream.cpp:60-65 | the buffer changes owner; the source keeps none |
| SrcIOSocketStream.IOSocketStream.MoveAssign | src/IOSocketStream.cpp:67-74 | as the move constructor; moving onto itself keeps the buffer |
| SrcIOSocketStream.IOSocketStream.SendFundamental | src/IOSocketStream.h:122-140 | computes `SendFundamentalSpec`; every scalar `<<` at src/IOSocketStream.cpp lines 76-158 forwards to it |
| SrcIOSocketStream.IOSocketStream.ReceiveFundamental | src/IOSocketStream.h:142-160 | computes `ReceiveFundamentalSpec`; every scalar `>>` at src/IOSocketStream.cpp lines 160-242 forwards to it |
| SrcIOSocketStream.IOSocketStream.Write | src/IOSocketStream.cpp:244-261 | the `<<` overloads compute `WriteSpec` |
| SrcIOSocketStream.IOSocketStream.Read | src/IOSocketStream.cpp:263-321 | the `>>` overloads compute `ReadSpec` |
| SrcIOSocketStream.IOSocketStream.ReadFrame | src/IOSocketStream.cpp:266-281 | the steps of `>>` compute `ReadSpec` |
| RootIOSocketStream.WriteSpec | IOSocketStream.h:97-103 | `<<` passes the whole container to `sputn` and ignores its result |
| RootIOSocketStream.ReadSpec | IOSocketStream.h:105-118 | a resizing `>>` makes `data` exactly the fresh frame's payload when it completes. Otherwise `data.size()` bytes come from the current get area |
| RootIOSocketStream.EchoRoundTrip | IOSocketStream.h:97-118 | `stream << s` then `stream >> r` against an echoing peer gives `r == s`, with two status bytes each way |
| RootIOSocketStream.DeadPeerWriteIsSilent | IOSocketStream.h:97-103 | a write to a peer that takes nothing completes silently |
| RootIOSocketStream.FailedPayloadThrows | IOSocketStream.h:110-112 | after a failed payload receive, the resize to `size_t(-1)` throws and `data` is left alone |
| RootIOSocketStream.IOSocketStream.FromSocket | IOSocketStream.h:67-71 | a new buffer over the socket with empty containers |
| RootIOSocketStream.IOSocketStream.FromSocketSized | IOSocketStream.h:73-77 | a new buffer with zeroed containers of the given size |
| RootIOSocketStream.IOSocketStream.FromBuffer | IOSocketStream.h:91-95 | over a buffer subclass |
| RootIOSocketStream.IOSocketStream.Write | IOSocketStream.h:97-103 | computes `WriteSpec` |
| RootIOSocketStream.IOSocketStream.Read | IOSocketStream.h:105-118 | computes `ReadSpec` |
| RootIOSocketStream.IOSocketStream.ReadFrame | IOSocketStream.h:108-115 | the resizing steps compute `ReadSpec` |
| RootIOSocketStream.IOSocketStream.Receive | IOSocketStream.h:110-112 | `setInputType`, `pubsync` and `getLastPacketSize` receive one frame |
| SrcBufferArray.BufferArray.constructor | src/BufferArray.cpp:12-27 | a new array owns a fresh page of the page size; the arrays stay accounted for |
| SrcBufferArray.BufferArray.Move | src/BufferArray.cpp:29-32 | the page and size change owner; the source keeps its size and loses the page |
| SrcBufferArray.BufferArray.MoveAssign | src/BufferArray.cpp:34-42 | copies pointer and size and nulls the source, so a self-move leaves the array without its page; every page keeps at most one owner and is released at most once |
| SrcBufferArray.BufferArray.MoveAssignCorrected | src/BufferArray.cpp:34-42 | releases the old page first and is a no-op on itself, so no page leaks |
| SrcBufferArray.BufferArray.Size | src/BufferArray.cpp:44-47 | returns `dataSize`, which a moved-from array keeps |
| SrcBufferArray.BufferArray.Get | src/BufferArray.cpp:49-52 | returns the base plus `offset` with no bounds check |
| SrcBufferArray.BufferArray.Destroy | src/BufferArray.cpp:54-64 | releases the page exactly when the pointer is not null, so each page is released once |
| SrcBufferArray.MoveAssignLeaks | src/BufferArray.cpp:34-42 | after `a = std::move(b)`, the page `a` owned has no owner and was never released |
| SrcBufferArray.MoveAssignCorrectedReleases | src/BufferArray.cpp:34-42 | with the correction, the same moves release that page exactly once and nothing leaks |

## Left out

- Socket setup is not modelled. This covers `WSAStartup`, `getaddrinfo`, `socket`, `connect` and `setsockopt` in the constructors, and closing sockets in destructors and deleters. The client-side constructors are modelled only for the mode they store. The state that the sized address constructor at src/IOSocketBuffer.h:279-282 evidently intends (it does not compile, see below) is reached as `SrcIOSocketBuffer.IOSocketBuffer.OverSized` over a `SrcNetwork.Network.Client` in prohibit-resize mode, which `OverSized` keeps. The only timeout that is modelled is the arithmetic at src/Network.cpp:11-12.
- `isDataAvailable`, `addReceiveBuffer` and `getClientSocket` are not modelled. The look-ahead queue of include/Network.h is a field that starts empty and that callers may seed.
- The Windows `ioctlsocket` branch of `callInNonBlockingMode` is left out; only the Linux branch is modelled.
- Logging (`std::clog`) and the text of `WebException` are left out. An exception is the `Thrown` outcome.
- The compile-time trait checks are boolean flags: `resizable` for `resize`, and `ranged` for range construction. Container wrappers are plain byte sequences.
- Scalars are opaque `sizeof(T)` byte strings. Their representation, including floating point, is not interpreted.
- The stream's exception mask and the standard library's own `sputn`/`sgetn`/`pubsync` wrappers are not modelled. The model calls the buffer's virtual functions directly.
- Destructors are modelled only for `BufferArray`. Deleting a buffer or a network is not modelled.
- The header of src/Network.cpp is not part of this model. Its `sendBytes`/`receiveBytes` are taken to be the two-argument loops of src/BaseNetwork.h. `logAndThrowWebException` in src/IOSocketStream.h is declared but never defined, so it has no model.
- SrcIOSocketBuffer.IOSocketBuffer.constructor: src/Network.h:28 declares `log` pure virtual, so the `new` of the network class at src/IOSocketBuffer.h:259, 272 and 279 does not compile as written. The model takes each to build a network of src/Network.h from that constructor's arguments. The socket constructor is modelled through `SrcNetwork.Network.Server`. The address constructors are reached as `Over`/`OverSized` over a `SrcNetwork.Network.Client`.
- SrcIOSocketBuffer.IOSocketBuffer.Sized: the same abstract `new` at src/IOSocketBuffer.h:265 does not compile. The model takes it to be `SrcNetwork.Network.Server`, the socket constructor of src/Network.h, which ignores its mode argument and stores allow-resize.
- SrcBaseIOSocketBuffer.XsputnSpec: src/BaseIOSocketBuffer.h:134 names `ReceiveMode`, but the enum at src/BaseNetwork.h:41 is `receiveMode`, so the test does not compile as written. The model reads it as the test for allow-resize mode. `xsputn` is virtual, so this affects every buffer of this generation.
- SrcBaseIOSocketBuffer.BaseIOSocketBuffer.Sized: src/BaseIOSocketBuffer.h:272 and 286 use the same misspelled `ReceiveMode::prohibitResize`. The model reads them as prohibit-resize mode.
- SrcBaseIOSocketStream.BaseIOSocketStream.FromNetwork: src/BaseIOSocketStream.h:238-244 passes a `std::unique_ptr` to the buffer. The only buffer constructor taking a network takes a raw pointer (src/BaseIOSocketBuffer.h:70), so it does not compile as written. The model takes it to hand the network over to a new buffer that keeps it, as `SrcBaseIOSocketBuffer.BaseIOSocketBuffer.Over` does.
- SrcBaseIOSocketStream.BaseIOSocketStream.FromNetworkSized: the same mismatch at src/BaseIOSocketStream.h:246-252 against src/BaseIOSocketBuffer.h:72, taken to mean `SrcBaseIOSocketBuffer.BaseIOSocketBuffer.OverSized`.
- SrcIOSocketStream.IOSocketStream.FromNetwork: the same mismatch at src/IOSocketStream.cpp:46-51, taken to mean `SrcBaseIOSocketBuffer.BaseIOSocketBuffer.Over`.
- SrcIOSocketStream.IOSocketStream.FromNetworkSized: the same mismatch at src/IOSocketStream.cpp:53-58, taken to mean `SrcBaseIOSocketBuffer.BaseIOSocketBuffer.OverSized`.
- SrcIOSocketStream.WriteSpec: overrides of `sendData`/`receiveData` by network subclasses, and of `xsputn`/`xsgetn`/`sync` by buffer subclasses, are not modelled. Every network here is the library's own. So the result that is never `Thrown`, and the eofbit-only reporting, hold only for the library's own network and buffer. A subclass that throws a `WebException` would reach the `catch` blocks at src/IOSocketStream.cpp:253-258, 283-288 and 313-318 (failbit, rethrow).
- SrcIOSocketStream.ReadSpec: the same limit applies. A throwing override would reach the `catch` block at src/IOSocketStream.cpp:332-337.
- RootIOSocketStream.IOSocketStream.FromSocket: the root stream's constructors are modelled only for their buffer. Line 68 passes `&buffer`, which does not compile. The `std::basic_iostream` base is also built before `buffer` is set, so its stream buffer is never the stream's buffer. State bits are therefore not modelled for this stream, and the buffer is taken to be non-null.
- SrcBufferArray.BufferArray.constructor: the page size is a parameter, and a failing `mmap`/`VirtualAlloc` is not modelled.
- IncludeNetwork.Network.ReceiveBytes: requires the request to cover the queued bytes. Otherwise the drain loop of the source never ends, which `IncludeNetwork.DrainNeverEnds` proves.
- SrcIOSocketBufferCpp.IOSocketBuffer.Underflow: requires at most one queued byte, for the same reason (it asks for one byte).
- Every container length stays below 2^31. The `static_cast<int>` of a longer size is not modelled.
- A null put pointer is modelled in one place only: the root buffer's first write (IOSocketBuffer.h:126, `!pptr()`) reads it as an empty output container (`RootIOSocketBuffer.GrowsEmpty`). Elsewhere the null pointer that `data()` returns for an empty `std::vector` is not distinguished from any other start address.
- Only `CharT = char` is modelled: characters are bytes throughout (src/IOSocketBuffer.h, src/Network.h, Network.h). Wider character types are not modelled.
- The mode argument that the socket constructors of src/Network.h and Network.h ignore is modelled as ignored; the address constructors' connection is not modelled.
- Concurrency is left out. Each connection is used by one thread, as the library requires.

## Findings

| source | as written | input that shows it | evidently intended | confidence | as-written member | corrected member |
|---|---|---|---|---|---|---|
| include/Network.h:196-202 | the original flags are restored only when the functor returns | a blocking socket and a functor that throws | non-blocking mode reverted on every exit path | not executed | IncludeNetwork.ThrowLeavesNonBlocking | IncludeNetwork.NonBlockingCallCorrected |
| include/Network.h:288-298 | the `recv` result is added to the drained count, so `SOCKET_ERROR` becomes count - 1 | 3 bytes queued, 5 requested, `recv` fails | the failed `recv` throws | not executed | IncludeNetwork.ErrorAfterDrainIsHidden | IncludeNetwork.ReceiveCorrected |
| include/Network.h:269-286 | the drain loop runs while the queue is non-empty | 3 bytes queued, 2 requested | stop once the request is met | not executed | IncludeNetwork.DrainNeverEnds | IncludeNetwork.DrainCorrected |
| src/BaseNetwork.h:346-357 | `receiveBytes` of 0 bytes calls `recv` for 0 bytes and takes the 0 for a close | `sendData` of an empty payload, then `receiveData` | an empty frame is received as 0 | not executed | SrcBaseNetwork.EmptyFrameIsNeverReceived | SrcBaseNetwork.CorrectedFrameRoundTrip |
| src/IOSocketBuffer.h:145-150 | the byte goes to `overflow` as a signed `char`, so 0xFF arrives as -1 and is returned as -1 after a successful flush | a 4-byte fixed area and a write whose fourth byte is 0xFF | -1 only for a failed flush | not executed | SrcIOSocketBuffer.FFAtReservedSlotEndsWrite | SrcIOSocketBuffer.MinusOneMeansFailedFlush |
| src/BufferArray.cpp:34-42 | move assignment overwrites the pointer without releasing the page it held | `a = std::move(b)` for two fresh arrays | release the old page; no-op on self-move | not executed | SrcBufferArray.MoveAssignLeaks | SrcBufferArray.BufferArray.MoveAssignCorrected |
