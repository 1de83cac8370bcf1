# Drift client core: verified model

Drift is an HTTP client that can run its connections over Wisp, a protocol that carries many byte streams over one
WebSocket. This project models the parts of `drift-core` whose correctness is hard to see from any one function, and
proves what they keep over every run and every input.

- **The Wisp multiplexer.** `MuxModel` is `Mux` as a state machine: every locked section and every send on the transport
  is one step, and between two steps any other may run. `Mux.dfy` holds the object itself: its methods take exactly those
  steps, and its `Valid()` says that some interleaving leads to its state, so what is proved of all runs holds of it.
  `StreamIds`, `Demux`, `Credit`, `Wakeups`, `WireOrder` and `WireContents` prove what holds over all interleavings.
- **The byte-stream adapter.** `StreamIoModel` gives the poll functions of `WispStreamIo` as functions of the adapter and
  the multiplexer, `StreamIo` the object with its history, and `StreamIoRuns` counts bytes from the caller to the wire
  and back, in every order of polls and of whatever the rest of the program does in between. `StreamIoProgress` says when
  a poll waits, and that reads hand out everything that arrived and flushes send everything that was written.
- **The codecs.** `Frame` has the Wisp packets, `Pem` the certificate splitter and its base64 decoder.
- **HTTP/1.1.** `Http1` reads heads and bodies from a stream that arrives in arbitrary pieces (`ByteStreams`), and encodes
  requests; `HttpExchange` puts them together into a request and its response. `ChunkGrammar` is the language the
  chunked decoder accepts, and `HttpServer` a reference server written from RFC 9112 that reads the requests back.
- **Proxies and redirects.** `Socks` has the SOCKS4, 4a and 5 clients and the chain over them, `SocksServers` the
  servers they talk to, written from RFC 1928, RFC 1929 and the SOCKS4 protocols, `Ipv4` the address literals, `Url`
  and `Redirects` the URL functions and the redirect loop.

`Bytes` and `Text` hold fixed-width integers and the few library operations the source relies on (UTF-8 validation,
trimming, number parsing, searching), `Unicode` what those operations mean in code points.

Where a natural claim is false of the code, the exact condition is proved instead, with the input that breaks the claim:

- A wake-up can be lost in two ways: another thread runs between the credit check and the registration, or a stream is
  closed from this side under a waiting sender. `Wakeups.WakeupsAreKeptIff` says that these are the only ones,
  `Wakeups.AReachableLoss` and `Wakeups.AReachableStranding` give the runs, and after the second nothing ever wakes the
  sender (`Wakeups.StrandedForGood`).
- A head is always found when it is at most 1 MiB - 32 KiB + 1 bytes long or the whole input fits 1 MiB, and never when
  the head itself is longer than 1 MiB; in between it depends on how the input arrives
  (`Http1.HeadSearchIgnoresFragmentation`, `Http1.HeadsThatCanBeFound`).
- A response whose head is always found is the same under every fragmentation unless its body has no framing, is over
  the limit and is shorter than 32 KiB; then it is returned whole when it all arrives with the end of the head, and refused otherwise
  (`HttpExchange.ResponseIgnoresFragmentation`, `HttpExchange.ArrivedWithHead`).
- `poll_write` appends the caller's bytes before it knows whether they can be sent. It appends without reporting exactly
  when it takes the bytes, they bring the buffer to 16384 bytes, and the send that starts lacks credit or a ready
  transport (`StreamIoRuns.UnsaidIsStuck`); what a run reports is what it appended if and only if none of its writes
  meets that guard (`StreamIoRuns.ReportsAreAppends`). A caller that keeps every write under the threshold is safe
  whatever the peer and the transport do, and only such a write is (`StreamIoRuns.SmallWritesAreReported`,
  `StreamIoRuns.ThresholdDecides`). A caller that offers the bytes again after such a Pending puts them on the wire twice
  (`StreamIoRuns.ARetryDoubles`, `StreamIoRuns.ARetryDoublesWithoutCredit`).
- A shutdown drops nothing, but sends nothing either: what is buffered or in flight stays off the wire until a flush
  (`StreamIoRuns.NothingLeftIff`, `StreamIoRuns.ClosedNeedsAFlush`).
- A relative redirect location stays on the server of its base if and only if the base has a path: `x` against
  `http://h` gives `http://hx`. It replaces the file name of the base unless the base is an `http` URL with a host of
  one character and a file in its root: `y` against `http://h/x` gives `http://h/xy` (`Url.RelativeLocations`,
  `Url.NoPathExample`, `Url.BareExample`).
- Metadata of 4 GiB or more does not survive the INFO codec (`Frame.InfoRoundTrip`).
- A NUL in a user id or host, or an address 0.0.0.x, makes a SOCKS4 server hear something else
  (`SocksServers.HopIsHeard`, and for whole chains `SocksServers.ChainIsHeard`).

Code and documentation disagree in a few places, and the model follows the code. A CONTINUE replaces the credit of a
stream, UDP streams included, although the comments call UDP credit-less. A sender on a stream the peer closed gets
`UnknownStream`; the error meant for that case is never returned. `poll_shutdown` neither flushes the write buffer nor
sends a CLOSE. A close-delimited body is held to the limit only as it is read: the bytes already buffered are not
checked. A chunked body whose stream ends inside the trailers is accepted, and so is one with other bytes than CRLF after
a chunk's data; `ChunkGrammar.BodyIff` has the exact language.

## Model

| member | source | states |
|---|---|---|
| Frame.EncodePacketToVec | drift-core/src/wisp/frame.rs:40-46 | a frame is the type byte, the stream id in little endian and the payload |
| Frame.PacketCodec | drift-core/src/wisp/frame.rs:230-245 | a frame decodes to a packet if and only if it is that packet's encoding |
| Frame.PacketRejections | drift-core/src/wisp/frame.rs:230-245 | a frame is refused for its length exactly when the header is cut, and for its type exactly when no packet type has that byte |
| Frame.PacketLayout | drift-core/src/wisp/frame.rs:230-245 | byte by byte: a type numbered 1 to 5, the stream id with its lowest byte first, the payload |
| Frame.ConnectLayout | drift-core/src/wisp/frame.rs:297-315 | byte by byte: 1 for TCP or 2 for UDP, the port with its low byte first, a host in UTF-8 |
| Frame.ConnectRefusals | drift-core/src/wisp/frame.rs:297-311 | a CONNECT payload is refused for its length, its stream type or its host, in that order, and for nothing else |
| Frame.ContinueLayout | drift-core/src/wisp/frame.rs:326-334 | byte by byte: four bytes of credit, lowest first |
| Frame.InfoLayout | drift-core/src/wisp/frame.rs:387-430 | byte by byte: two version bytes, then per extension its id, a four-byte length and that much metadata |
| Frame.ConnectCodec | drift-core/src/wisp/frame.rs:297-315 | a CONNECT payload decodes to a type, port and host if and only if it is their encoding and the host is UTF-8 |
| Frame.ContinueCodec | drift-core/src/wisp/frame.rs:326-334 | every credit value survives the CONTINUE payload, and bytes after the fourth are ignored |
| Frame.EncodeInfo | drift-core/src/wisp/frame.rs:151-170 | the encoding loop writes the version and the extension entries in order |
| Frame.DecodeInfo | drift-core/src/wisp/frame.rs:387-430 | the decoding loop returns what the recursive reading of the payload gives, errors included |
| Frame.InfoAcceptsTheGrammar | drift-core/src/wisp/frame.rs:387-430 | `decode_info` accepts exactly the payloads of a recursive grammar of length-prefixed entries |
| Frame.InfoRoundTrip | drift-core/src/wisp/frame.rs:151-170 | decoding an encoded INFO gives version 2.1 and the same extensions if and only if every metadata length fits 32 bits |
| Frame.InfoIsCanonical | drift-core/src/wisp/frame.rs:387-430 | an accepted version 2.1 payload re-encodes to itself byte for byte |
| Frame.CutInfoIsReported | drift-core/src/wisp/frame.rs:397-423 | an INFO cut inside any entry is refused, with the error naming the missing header or the overrun of that entry |
| Multiplexer.Mux.constructor | drift-core/src/wisp/mux.rs:102-111 | a new multiplexer is in the initial state of the state machine |
| Multiplexer.Mux.ReceiveServerGreeting | drift-core/src/wisp/mux.rs:136-159 | the first handshake frame takes the version 1 step, the version 2 step or fails, exactly as the step says |
| Multiplexer.Mux.SendClientInfo | drift-core/src/wisp/mux.rs:161-165 | the client INFO goes on the wire, or the handshake ends |
| Multiplexer.Mux.ReceiveServerContinue | drift-core/src/wisp/mux.rs:167-183 | the handshake is established, with its credit, exactly when the frame is a CONTINUE on stream 0 |
| Multiplexer.Mux.AllocateId | drift-core/src/wisp/mux.rs:200-218 | first locked section of `open`: a non-zero id no stream has or had, or the handshake or exhaustion error |
| Multiplexer.Mux.InsertStream | drift-core/src/wisp/mux.rs:220-237 | second locked section of `open`: the entry, its opening credit and an empty channel, where none was before |
| Multiplexer.Mux.SendFrame | drift-core/src/wisp/mux.rs:239-242 | the CONNECT, DATA or CLOSE frame goes on the wire, or the operation fails without it |
| Multiplexer.Mux.StartSendData | drift-core/src/wisp/mux.rs:260-261 | a `send_data` call starts at its gate |
| Multiplexer.Mux.PassGate | drift-core/src/wisp/mux.rs:262-282 | the gate takes one credit of a TCP stream, none of a UDP stream, stops at zero and fails on an unknown stream |
| Multiplexer.Mux.AwaitCredit | drift-core/src/wisp/mux.rs:283-287 | the sender becomes a waiter of its stream |
| Multiplexer.Mux.PollSendData | drift-core/src/wisp/mux.rs:260-291 | one poll of a `send_data` future: gate, registration and transport in the source's order |
| Multiplexer.Mux.DropOperation | drift-core/src/wisp/mux.rs:284-289 | a future dropped at an await point leaves everything else as it is, spent credit included |
| Multiplexer.Mux.RemoveStream | drift-core/src/wisp/mux.rs:298-304 | `close_stream` removes the entry and wakes nobody |
| Multiplexer.Mux.DispatchUnderLock | drift-core/src/wisp/mux.rs:318-364 | the locked part of `dispatch_inbound`, its decode errors, and what is left to do after the lock |
| Multiplexer.Mux.DeliverPayload | drift-core/src/wisp/mux.rs:326-328 | the payload joins the end of its stream's channel |
| Multiplexer.Mux.NotifyWaiters | drift-core/src/wisp/mux.rs:344-346 | every waiter of the stream, and nobody else, goes back to its gate |
| Multiplexer.Mux.DispatchInbound | drift-core/src/wisp/mux.rs:318-365 | a whole dispatch is its locked step followed by the delivery or the ring, and changes no stream but the one the frame names |
| Multiplexer.Mux.TakePayload | drift-core/src/wisp/stream_io.rs:160-169 | the receiver takes the oldest payload |
| MuxModel.DispatchRefusals | drift-core/src/wisp/mux.rs:318-334 | `dispatch_inbound` refuses exactly the frames without a header, of no known type, or a CONTINUE off stream 0 without four credit bytes; they change nothing |
| MuxModel.StepIsReachable | drift-core/src/wisp/mux.rs:97-365 | every step from a state some interleaving leads to ends in such a state |
| StreamIds.StepKeepsSound | drift-core/src/wisp/mux.rs:200-237 | every step keeps all known and pending ids below the allocator and pending ones distinct and unused |
| StreamIds.InsertNeverOverwrites | drift-core/src/wisp/mux.rs:220-237 | in every reachable state the stream about to be inserted has no entry, although its id was chosen under another lock |
| StreamIds.IdsAreFresh | drift-core/src/wisp/mux.rs:200-218 | over all interleavings the ids allocated are 1, 2, 3 and so on up to 2^32 - 2; `open` runs out exactly when all are used, and then for good |
| Demux.EveryStepSeen | drift-core/src/wisp/mux.rs:318-365 | each step of the whole moves a stream as its own machine would, or leaves it alone |
| Demux.EachStreamIsItsOwnMachine | drift-core/src/wisp/mux.rs:318-365 | after any run a stream's liveness, kind, credit and queue are what the log entries carrying its id alone produce |
| Demux.FrameTouchesOneStream | drift-core/src/wisp/mux.rs:318-365 | an inbound frame changes no stream but the one in its header |
| Credit.MachineBalance | drift-core/src/wisp/mux.rs:273-277 | credit plus passes since the last grant is that grant, and passes never exceed what was granted |
| Credit.CreditAccounting | drift-core/src/wisp/mux.rs:330-347 | in every interleaving a TCP stream's DATA packets on the wire never exceed its opening credit plus its CONTINUE values |
| Wakeups.WakeupsAreKeptIff | drift-core/src/wisp/mux.rs:260-307 | no wake-up is lost if and only if senders register while still out of credit and no stream is closed locally under a waiter |
| Wakeups.NoLostWakeup | drift-core/src/wisp/mux.rs:260-287 | on a single-threaded executor every parked sender waits on a live stream with credit zero |
| Wakeups.WokenSendersShare | drift-core/src/wisp/mux.rs:260-287 | n woken senders on credit c, in any order and interleaved with anything else: min(n, c) pass and the others park again |
| Wakeups.ContinueWakesExactly | drift-core/src/wisp/mux.rs:330-347 | CONTINUE(c) with k parked senders lets exactly min(k, c) pass and leaves c - min(k, c) credit |
| Wakeups.AWakeupCanBeLost | drift-core/src/wisp/mux.rs:279-284 | from every state with a stream out of credit, the run on several threads that leaves a sender asleep on c credits |
| Wakeups.AStreamOutOfCredit | drift-core/src/wisp/mux.rs:144-152 | a stream that such a run starts from is reachable |
| Wakeups.AReachableLoss | drift-core/src/wisp/mux.rs:260-287 | a whole run, for every c > 0, at whose end a sender sleeps on a live stream with c credits |
| Wakeups.ClosingStrands | drift-core/src/wisp/mux.rs:298-307 | a local close under a parked sender leaves it waiting on a stream that is gone |
| Wakeups.StrandedForGood | drift-core/src/wisp/mux.rs:284-307 | no continuation but dropping its future ever wakes such a sender |
| Wakeups.AReachableStranding | drift-core/src/wisp/mux.rs:260-307 | a whole run, with nothing between check and registration, that strands a sender for good |
| WireOrder.FramesGoOutInOrder | drift-core/src/wisp/mux.rs:126-307 | INFO first or never, no CONNECT before the handshake, DATA and CLOSE only after their CONNECT, DATA only through the gate |
| WireOrder.LateDataPassedEarly | drift-core/src/wisp/mux.rs:298-307 | a DATA frame after its stream's CLOSE passed its gate before the stream was removed |
| WireContents.HandshakeFrames | drift-core/src/wisp/mux.rs:136-183 | a CONTINUE on stream 0 ends the handshake well, an INFO in the grammar as first frame is answered, any other frame ends it |
| WireContents.StreamsOpenWithTheGrant | drift-core/src/wisp/mux.rs:217-237 | over all interleavings the handshake is established exactly when the server has sent its CONTINUE; every TCP stream opens with that frame's credit, every UDP stream with 2^32 - 1 |
| WireContents.PacketsAreAskedFor | drift-core/src/wisp/mux.rs:200-307 | over all interleavings and for any property of packets: those sent and those operations still owe are no more than those asked for, so none is made up, altered or repeated |
| WireContents.ConnectsAreAskedFor | drift-core/src/wisp/mux.rs:239-242 | every CONNECT carries the type, port and host of the one `open` that was given its id, and there is no second one for that id |
| WireContents.InfoIsAsConfigured | drift-core/src/wisp/mux.rs:161-165 | at most one INFO is sent, version 2.1 with exactly the extensions the handshake was given, and always before the last CONTINUE is awaited |
| StreamIo.WispStreamIo.constructor | drift-core/src/wisp/stream_io.rs:67-81 | a new adapter over a stream nobody has used holds nothing, and starts a history |
| StreamIo.WispStreamIo.StartSend | drift-core/src/wisp/stream_io.rs:116-136 | the whole write buffer becomes one send; never entered with a send in flight |
| StreamIo.WispStreamIo.PollFlushBuf | drift-core/src/wisp/stream_io.rs:86-113 | drives the send in flight, then starts one for what was buffered meanwhile |
| StreamIo.WispStreamIo.ReadOnce | drift-core/src/wisp/stream_io.rs:147-195 | leftover first, then the next payload, then the end of the stream; an empty payload is skipped |
| StreamIo.WispStreamIo.PollRead | drift-core/src/wisp/stream_io.rs:140-196 | the same, as the next act of the object's history; it waits only when it must, serves what is in front, and serves nothing only at the end |
| StreamIo.WispStreamIo.Accept | drift-core/src/wisp/stream_io.rs:206-232 | finishes the send in flight, appends the bytes, and sends at 16 KiB |
| StreamIo.WispStreamIo.PollWrite | drift-core/src/wisp/stream_io.rs:200-233 | the same, as the next act of the object's history |
| StreamIo.WispStreamIo.PollFlush | drift-core/src/wisp/stream_io.rs:235-237 | is `poll_flush_buf`, and once it is Ready(Ok) with no failed send all bytes ever appended are on the wire |
| StreamIo.WispStreamIo.PollShutdown | drift-core/src/wisp/stream_io.rs:239-249 | marks the adapter closed and flushes nothing: with no failed send, all appended bytes are on the wire if and only if none is buffered or in flight |
| StreamIoRuns.WritesAreConserved | drift-core/src/wisp/stream_io.rs:200-237 | on every poll sequence, wire plus in flight plus buffer is exactly what was appended if and only if no send failed; a send in flight means an empty buffer |
| StreamIoRuns.ReportsAreAppends | drift-core/src/wisp/stream_io.rs:222-232 | over every run, the bytes reported as accepted are those appended if and only if no write that is taken brings the buffer to 16384 bytes while the send it starts lacks credit or a ready transport |
| StreamIoRuns.UnsaidIsStuck | drift-core/src/wisp/stream_io.rs:213-232 | a poll appends bytes it does not report if and only if that guard holds before the call: no send in the way, the threshold reached, no credit or no ready transport |
| StreamIoRuns.ThresholdDecides | drift-core/src/wisp/stream_io.rs:227-229 | a write that is taken is reported for every answer of the transport if and only if it stays under the threshold |
| StreamIoRuns.SmallWritesAreReported | drift-core/src/wisp/stream_io.rs:223-232 | a caller that keeps every write under the threshold is told of every byte, whatever the peer and the transport do |
| StreamIoRuns.ARetryDoubles | drift-core/src/wisp/stream_io.rs:224-229 | a write of 16 KiB or more that is Pending and offered again goes out twice, reported once |
| StreamIoRuns.ARetryDoublesWithoutCredit | drift-core/src/wisp/stream_io.rs:224-229 | the same on a TCP stream without credit, the CONTINUE arriving between the two tries |
| StreamIoRuns.ClosedKeepsBytes | drift-core/src/wisp/stream_io.rs:206-211 | a closed adapter refuses every write with `BrokenPipe`, and nothing but a flush moves its bytes |
| StreamIoRuns.ClosedNeedsAFlush | drift-core/src/wisp/stream_io.rs:239-249 | after a shutdown, over every continuation without a flush, the wire, the send in flight and the buffer stay as they are |
| StreamIoRuns.NothingLeftIff | drift-core/src/wisp/stream_io.rs:239-249 | in every history without a failed send, all appended bytes are on the wire if and only if none is buffered or in flight |
| StreamIoRuns.ActLives | drift-core/src/wisp/stream_io.rs:139-250 | every poll, and every step of the rest of the program, continues a history |
| StreamIoRuns.FlushedIsOnTheWire | drift-core/src/wisp/stream_io.rs:86-113 | after a `poll_flush` that is Ready(Ok), every appended byte is on the wire |
| StreamIoRuns.SendsAreFew | drift-core/src/wisp/stream_io.rs:222-232 | the buffer stays under 16 KiB, no empty DATA is sent, B bytes and F flushes take at most B/16384 + F sends of one credit each |
| StreamIoRuns.ReadsAreConserved | drift-core/src/wisp/stream_io.rs:140-196 | bytes handed out, left over and queued are exactly the DATA payloads dispatched while the stream was live |
| StreamIoRuns.EofComesLast | drift-core/src/wisp/stream_io.rs:155-193 | without a local shutdown, a read sees the end only after a close and after every byte that arrived |
| StreamIoProgress.ReadsThatWait | drift-core/src/wisp/stream_io.rs:147-195 | a read is Pending exactly when nothing is left over and either no payload waits on a stream that may get more, or the payload in front is empty, which it takes |
| StreamIoProgress.ServedChunks | drift-core/src/wisp/stream_io.rs:147-193 | a served chunk is what is in front as far as it fits, the rest is left over; it is empty exactly at the end of the stream |
| StreamIoProgress.ReadsGetEverything | drift-core/src/wisp/stream_io.rs:140-196 | in any history without a local shutdown, one read per waiting byte and payload hands out all that arrived, but for what the pump still holds |
| StreamIoProgress.EofExactly | drift-core/src/wisp/stream_io.rs:155-193 | a read sees the end if and only if the stream is closed, nothing waits, and everything that arrived was handed out |
| StreamIoProgress.TheEndIsSeen | drift-core/src/wisp/stream_io.rs:155-193 | after those reads the next one sees the end if and only if the stream is gone and the pump holds nothing for it |
| StreamIoProgress.FlushOutcomes | drift-core/src/wisp/stream_io.rs:86-136 | a flush is done exactly when the send in flight goes out, or what is buffered has credit and a ready transport; it fails exactly when refused or without a stream |
| StreamIoProgress.FlushDelivers | drift-core/src/wisp/stream_io.rs:86-113 | with credit and a transport that takes what it is given, one flush puts every appended byte on the wire, unless a send waits to be woken |
| Http1.ReadUntilHeadersEnd | drift-core/src/http1.rs:136-155 | the head's end and the buffer the search leaves, nothing lost: buffer plus unread stream is the input |
| Http1.ScanFinds | drift-core/src/http1.rs:136-155 | what is found is the input's first blank line, within 1 MiB, and the buffer goes less than one read of 32768 bytes past it |
| Http1.SearchIsBounded | drift-core/src/http1.rs:136-155 | the search gives up only at the end of the stream or past 1 MiB, and buffers at most 32 KiB more |
| Http1.HeadSearchIgnoresFragmentation | drift-core/src/http1.rs:136-160 | a head is found at the same place under every fragmentation if and only if it is at most 1015809 bytes or the input fits 1 MiB |
| Http1.HeadsThatCanBeFound | drift-core/src/http1.rs:136-160 | some fragmentation lets a head be found if and only if it is at most 1 MiB; a longer one never is |
| Http1.ReadLine | drift-core/src/http1.rs:284-295 | the first CRLF of the whole input, whatever the reads |
| Http1.SkipTrailers | drift-core/src/http1.rs:312-328 | consumes trailer lines up to the first blank line or the end |
| Http1.FillChunk | drift-core/src/http1.rs:332-339 | reads until the chunk is complete, or reports that the stream is too short |
| Http1.ReadChunkedBody | drift-core/src/http1.rs:271-349 | the result is that of decoding prefix and stream as one input; on success the input is consumed to the end of the trailers |
| Http1.ChunksLeaveTheRest | drift-core/src/http1.rs:309-348 | a whole chunked body with its trailers and blank line is consumed, and exactly what follows is left |
| Http1.ChunkedRoundTrip | drift-core/src/http1.rs:271-349 | a chunked body as section 7.1 of RFC 9112 writes it decodes to its data if and only if size lines are UTF-8, no size overflows and the data fits the limit |
| Http1.CutBodiesFail | drift-core/src/http1.rs:284-339 | a chunked body cut anywhere before the end of its last size line is an error, never a shorter body |
| ChunkGrammar.SizeLineIff | drift-core/src/http1.rs:297-305 | a size line says n if and only if it is UTF-8 and, up to the first semicolon, a hexadecimal numeral of n below 2^64, with white space and a '+' allowed |
| ChunkGrammar.BodyIff | drift-core/src/http1.rs:271-349 | the decoder returns data exactly for the inputs that are pieces holding it and a last line of size zero, if the data fits the limit |
| Http1.ReadExactBody | drift-core/src/http1.rs:247-267 | exactly the declared bytes, and nothing past them is read |
| Http1.ReadClosedBody | drift-core/src/http1.rs:225-242 | everything up to the end of the stream, within the limit for what is read |
| Http1.FramingRule | drift-core/src/http1.rs:191-242 | chunked if the transfer encoding mentions it in any case, else the declared length, else to the end of the stream, with the error of each |
| Http1.ReadBody | drift-core/src/http1.rs:191-243 | the body the headers call for, whatever the reads |
| Http1.DechunkedFits | drift-core/src/http1.rs:340-344 | a decoded chunked body never exceeds the limit |
| Http1.BodiesStayInBounds | drift-core/src/http1.rs:191-243 | at most m bytes when chunked, exactly the declared n <= m, at most the larger of m and the prefix otherwise |
| Http1.BodyIgnoresTheSplit | drift-core/src/http1.rs:226-242 | how the body divides between prefix and stream matters exactly for an over-long close-delimited body |
| Http1.EncodeRequest | drift-core/src/http1.rs:101-131 | the wire form is the head lines, a blank line and the body |
| Http1.RequestsSplitBack | drift-core/src/http1.rs:101-131 | without CR or LF in its parts, a request's first blank line ends its head, the rest is its body, and an added Content-Length parses back |
| Http1.ReceiveRequest | drift-core/src/http1.rs:101-131 | a reader that takes the length from the head's last line and calls `read_exact_body` gets the body and leaves what follows, under every fragmentation |
| HttpServer.RequestIsHeard | drift-core/src/http1.rs:101-131 | a reference server reads back method, target, version 1.1, the fields in order with the added length, and the body, if and only if the caller gave no Content-Length or the right one |
| HttpExchange.ReadResponse | drift-core/src/http1.rs:77-84 | the head search, the head parser and the body reader compose: the result for the pieces in which the input arrives |
| HttpExchange.SendRequest | drift-core/src/http1.rs:64-98 | the whole request goes out; the result is the response in the input, save for a head that can be lost and an over-long unframed body under 32 KiB |
| HttpExchange.BufferedBodyMatters | drift-core/src/http1.rs:226-242 | how much of the body was buffered with the head matters only to an over-long unframed body: returned if all of it was, refused otherwise |
| HttpExchange.ResponsesArePrescribed | drift-core/src/http1.rs:77-84 | for every input and arrival: the parse error only when the head can be lost, and otherwise the response in the input |
| HttpExchange.ResponseIgnoresFragmentation | drift-core/src/http1.rs:77-84 | a response whose head is always found is the same under every fragmentation if and only if its body is not unframed, over the limit and under 32 KiB |
| HttpExchange.ArrivedWithHead | drift-core/src/http1.rs:226-242 | for such a body, an arrival that returns it whole and one that refuses it |
| HttpExchange.UnframedBodiesAreBounded | drift-core/src/http1.rs:226-242 | an unframed body that is returned has at most max(m, 32767) bytes under the limit m |
| HttpExchange.ChunkedReply | drift-core/src/http1.rs:271-349 | a chunked response comes back as its data if and only if its chunks are acceptable and within the limit |
| HttpExchange.SizedReply | drift-core/src/http1.rs:209-223 | a response with a Content-Length comes back as its body, or is refused when over the limit, whatever follows it |
| Pem.Base64Decode | drift-core/src/tls.rs:129-156 | the loop over a 32-bit accumulator agrees with decoding over unbounded integers |
| Pem.AccumulatorAgrees | drift-core/src/tls.rs:148-152 | shifting the never-masked word left loses no bit of any byte taken from it |
| Pem.DecodedIff | drift-core/src/tls.rs:129-156 | the decoder accepts exactly the texts over the alphabet of RFC 4648 with padding and white space anywhere, and gives the whole bytes of their sextets |
| Pem.Base64RoundTrip | drift-core/src/tls.rs:129-156 | decoding inverts the encoding of section 4 of RFC 4648, padded or not |
| Pem.LinesOfWritten | drift-core/src/tls.rs:112-113 | lines written with LF or CRLF, the last one ended or not, read back as those lines |
| Pem.EveryTextIsWritten | drift-core/src/tls.rs:112-113 | every text is lines with endings and a rest, so the lines of any text are known |
| Pem.SplitPemCerts | drift-core/src/tls.rs:108-127 | the line loop computes the certificates of the file, none when it is not UTF-8 |
| Pem.OpenedIff | drift-core/src/tls.rs:112-125 | the line that opened the current block is the latest BEGIN with no marker after it |
| Pem.CertsOfEveryFile | drift-core/src/tls.rs:108-127 | for every file, none if it is not UTF-8, and else each END yields the decoding of the lines since the latest BEGIN with no END between, and nothing else yields anything |
| Pem.PemRoundTrip | drift-core/src/tls.rs:108-127 | a file of certificate blocks of any line width, spoilt blocks and other text gives back exactly the certificates in order |
| Ipv4.Ipv4Codec | drift-core/src/proxy/socks4.rs:57-60 | an address literal is accepted if and only if it is the dotted quad of the octets it yields |
| Socks.NegotiateSocks4 | drift-core/src/proxy/socks4.rs:41-88 | result, bytes written and bytes left unread of a SOCKS4 or 4a negotiation, over every fragmentation |
| Socks.DoUserPass | drift-core/src/proxy/socks5.rs:134-171 | the same for the username/password exchange |
| Socks.RequestConnect | drift-core/src/proxy/socks5.rs:84-108 | the same for the CONNECT request and its reply |
| Socks.ReadBound | drift-core/src/proxy/socks5.rs:110-129 | consumes the bound address and port of every address type |
| Socks.NegotiateSocks5 | drift-core/src/proxy/socks5.rs:38-132 | the same for a whole SOCKS5 negotiation |
| Socks.NegotiateHop | drift-core/src/proxy/mod.rs:93-109 | the negotiation of one hop, by its kind |
| Socks.ApplyChain | drift-core/src/proxy/mod.rs:74-112 | the loop negotiates each hop towards the next one, on what the previous left unread |
| SocksServers.HopAccepts | drift-core/src/proxy/socks5.rs:101-131 | every granting reply, for every address type, makes a hop succeed and leaves exactly the bytes after it |
| SocksServers.GrantFound | drift-core/src/proxy/socks4.rs:76-88 | a hop succeeds on nothing but a granting reply |
| SocksServers.DenialsAreReported | drift-core/src/proxy/socks5.rs:68-109 | every way a server turns a client down gives the error documented for it, with only that reply consumed |
| SocksServers.BreachesAreReported | drift-core/src/proxy/socks5.rs:65-127 | every reply that breaks the protocol, by version, code, method or address type, gives its error, with only that reply consumed |
| SocksServers.UnfitHostsFail | drift-core/src/proxy/socks5.rs:90-95 | a host the request cannot name is a protocol error and no request goes out |
| SocksServers.UnfitLoginsFail | drift-core/src/proxy/socks5.rs:134-150 | a login too long for its length bytes is a protocol error and nothing of it goes out |
| SocksServers.MethodsOffered | drift-core/src/proxy/socks5.rs:47-60 | no authentication is offered always, a login exactly where there are credentials |
| SocksServers.TruncatedGrantsFail | drift-core/src/proxy/socks5.rs:63-64 | a server that stops inside a granting reply gives an I/O error |
| SocksServers.HopIsHeard | drift-core/src/proxy/socks4.rs:51-72 | a reference server reads back host, port and login if and only if they hold no NUL (SOCKS4 and 4a) and a SOCKS4 address does not announce a name |
| SocksServers.ChainAccepts | drift-core/src/proxy/mod.rs:83-111 | granting replies for all hops make the chain succeed, with exactly the hops' requests written |
| SocksServers.ChainSucceedsIff | drift-core/src/proxy/mod.rs:74-112 | a chain succeeds if and only if every hop grants and every host fits its request; the unread bytes are those after the last reply |
| SocksServers.RequestsByHop | drift-core/src/proxy/mod.rs:83-91 | the i-th request names the address of hop i + 1, the last one the final destination |
| SocksServers.ChainIsHeard | drift-core/src/proxy/mod.rs:83-91 | the servers read, in order, the next hop's address each, the last one the final destination, if and only if every hop can be told its target |
| Url.UrlIff | drift-core/src/handle.rs:690-724 | a URL parses to given parts if and only if it is "http://" or "https://", an authority naming that host and port (80 and 443 by default) and that path |
| Url.SchemeRejections | drift-core/src/handle.rs:691-698 | a URL is refused for its scheme exactly when it has no "://", or something else than "http" or "https" before the first one |
| Url.AuthorityRejections | drift-core/src/handle.rs:703-719 | with a known scheme, a URL is refused exactly for what follows its last colon or for an empty host |
| Url.UrlShape | drift-core/src/handle.rs:690-724 | a URL that parses is its scheme, "://", an authority without slashes and a path, and its parts come from there |
| Url.UrlParses | drift-core/src/handle.rs:690-724 | parsing a URL written from a scheme, an authority and a path finds those parts |
| Url.UrlRoundTrip | drift-core/src/handle.rs:690-724 | a URL written with its port in decimal parses back to its parts |
| Url.OriginSegments | drift-core/src/handle.rs:662-663 | the first three slash-separated segments of a URL are all of it but the path |
| Url.ResolvedPathKeepsOrigin | drift-core/src/handle.rs:658-671 | resolving a location that starts with '/' keeps scheme, host and port and makes it the path |
| Url.AbsoluteLocations | drift-core/src/handle.rs:658-660 | a location that is a URL of its own, or begins like one, is the target |
| Url.RelativeLocations | drift-core/src/handle.rs:664-670 | a relative location keeps scheme, host and port if and only if the base has a path, and replaces the file name if and only if the base does not look bare |
| Url.NoPathExample | drift-core/src/handle.rs:665-670 | against a base without a path, a relative location becomes part of the host |
| Url.BareExample | drift-core/src/handle.rs:665-670 | against "http://h/x" it is appended to the file name |
| Redirects.WispHandle.Redirected | drift-core/src/handle.rs:463-481 | an answer of 301, 302, 303, 307 or 308 with a Location goes there, by GET after 303 and by the same method otherwise; the loop and URL errors; any other answer goes nowhere |
| Redirects.WispHandle.Perform | drift-core/src/handle.rs:388-508 | the loop makes exactly the requests, ends with the result and leaves the method that following the answers prescribes; each request is followed exactly as its answer says |
| Redirects.JourneysAreProper | drift-core/src/handle.rs:403-507 | at most `max_redirects` + 1 requests, each the one its predecessor's answer led to, and the last answer explains the result |
| Redirects.FollowedExactly | drift-core/src/handle.rs:462-493 | in every journey a request has a successor if and only if redirects are left and its answer is one of the five numbers with a Location to another URL that parses; it goes there, and only a 303 changes the method |
| Redirects.HeaderValueIff | drift-core/src/handle.rs:464-468 | the header found is the first of that name, compared letter by letter in any case |
| Redirects.SeeOtherMeansGet | drift-core/src/handle.rs:474-477 | after a followed 303 every later request is a GET |
| Redirects.PathsKeepTheOrigin | drift-core/src/handle.rs:658-663 | as long as locations are paths, every request of the run goes to the first one's scheme, host and port |
| Text.UnsignedIff | drift-core/src/http1.rs:304 | parsing accepts exactly the numerals below the limit, in either case and with leading zeros, a '+' in front or not |
| Unicode.ValidUtf8Iff | drift-core/src/http1.rs:298-299 | validation accepts exactly the encodings of section 3 of RFC 3629 of lists of scalar values |
| Unicode.TrimIff | drift-core/src/tls.rs:113 | trimming takes the White_Space characters off both ends and nothing else |

## Left out

- Transports, TCP, TLS and WebSockets: an ordered list of inbound frames and a log of sent ones stand for the transport; a send succeeds, fails or stays pending.
- `http_connect.rs`: it may read past the reply it waits for, so it has no place in chains whose unread bytes are accounted for.
- `httparse` (a parameter of `SendRequest`), header maps, decompression, the connection pool, option setters, the JavaScript bindings and the command line.
- I/O errors of reads and writes on a byte stream: they end the operation unchanged in the source, and the model has only the end of the stream. `flush` follows every write and has no effect of its own.
- Polls: one call of a poll function is one step, since it does not await; what other threads do during a poll is not modelled. Steps of the multiplexer itself do interleave.
- `tokio`'s `Notify` and `flume`'s channels: `notify_waiters` wakes the waiters whose `notified` future exists and stores nothing; a channel is a queue that ends when its last sender is gone.
- The handshake runs once; a transport that fails while receiving simply offers no further frame. The `Closed` handshake state is never entered by the source.
- Close reasons are their byte, and error texts are not modelled; `usize` has 64 bits.
- Shifts and bitwise operations of the base64 decoder are written as arithmetic modulo 2^32.
- Credit.CreditAccounting: bounds what this side sends; since a CONTINUE replaces the credit while packets may be in flight, nothing is claimed about the peer's buffer. Streams that were opened as UDP are excluded, as their sends take no credit.
- Inbound frames are dispatched one at a time, by one pump. `dispatch_inbound` takes `&self`, so a program could call it from two tasks; those runs are not modelled.
- Wakeups.NoLostWakeup: assumes a single-threaded executor and no local close of a stream with a waiter; Wakeups.WakeupsAreKeptIff gives the exact condition without either.
- WireOrder.FramesGoOutInOrder: for callers that use only ids whose `open` has returned, which `WispStream` ensures by owning its id.
- StreamIoRuns.WritesAreConserved: one adapter is the only sender and receiver of its stream, as the source constructs it.
- HttpServer.RequestIsHeard: requests to which the caller gave a Transfer-Encoding are not read back; the server reads no chunked requests.
- Http1.ChunkedRoundTrip: a size that overflows `size + 2` is an error of its own here, where the source would stop or wrap.
- Redirects.WispHandle.Perform: a request and its response are one exchange with a list of answers; connection reuse is left out.
