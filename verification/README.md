# vpnbridge: a verified model

vpnbridge carries TCP and UDP flows from a client machine to a server that can reach their
destinations. This project models its logic in Dafny and proves what each part is for.

| file | part of the system |
|---|---|
| `Bytes.dfy`, `Utf8.dfy`, `Wrappers.dfy` | octets, chunked streams, text as section 4 of RFC 3629 defines it |
| `Wire.dfy` | the handshake layout and its decoders |
| `Datagrams.dfy` | length-prefixed datagrams and what a cut stream still yields |
| `Streams.dfy` | the reading, writing and relaying loops over streams of arbitrary chunking |
| `Lane.dfy` | one direction of a gRPC tunnel as a transition system over its tasks |
| `PumpTasks.dfy` | the same tasks as imperative loops over shared pipes and queues, under any fair schedule |
| `Session.dfy` | a whole flow over gRPC, compared with the same flow over QUIC |
| `IdleTimers.dfy` | the polled UDP timer, the TCP timer, the exact timer both are judged by, and the two loops |
| `Relay.dfy` | a TCP relay as a whole: both copies and the timer they keep from firing |
| `Transport.dfy`, `QuicSlot.dfy` | fallback between transports and the shared QUIC connection, for any interleaving |
| `Routing.dfy`, `HostRoutes.dfy`, `ClientRoutes.dfy` | longest-prefix forwarding and the two programs that edit the table |
| `Proxy.dfy` | what the server does with a request |

`dafny verify dfyconfig.toml` checks everything.

Strings are the bytes of their UTF-8 encoding, since that is what travels and what lengths count.
Tasks that run concurrently are transition systems: a step is one turn of one task, a run is any
sequence of enabled steps, and results hold after every run. Time is an integer clock. Outcomes the
programs cannot choose (resolution, dialling, refused routes, read sizes, instants) are parameters or
step arguments. HTTP/2 and QUIC are reliable ordered byte or frame streams that may fail.

Ten things the code does differ from what one might expect; the model follows the code and says
exactly when the expectation holds:

- a domain name longer than 255 bytes is cut, and then refused by the far end if the cut split a
  character (`Wire.AddressRoundTrip`, `Wire.LongDomain`);
- an error message longer than 255 bytes can still arrive unchanged, when the character the cut split
  was the replacement character itself (`Wire.MessageSurvives`);
- a gRPC server looks for the request in the first frame only, so a client that splits it is refused
  and one that sends data beside it loses that data, neither of which happens over QUIC; this client
  does neither (`Session.TransportsAgree`, `Session.SameAsQuic`);
- the gRPC client turns an error of the response stream into a clean end, so a truncated download can
  look complete, which over QUIC it never does (`Lane.TruncatedStreamEndsCleanly`); the gRPC server tells
  its handler nothing when the request stream breaks, until its response pump has ended as well, and then
  lets a truncated upload look complete (`Session.BreaksRunOut`, `Session.TruncatedUploadLooksComplete`).
  A run over gRPC is one over QUIC exactly when neither happens (`Session.GrpcRunIsQuicRunIff`);
- a polled UDP session can outlive the exact timer by more than one idle period, when activity comes
  after the exact timer would have closed (`IdleTimers.PollingAgainstExactTimer`);
- a gRPC attempt that fails during suppression, before the retry interval is over, brings the next QUIC
  probe forward, and nothing else does (`Transport.EarlyProbeIff`);
- a flow that fails late on a lost QUIC connection can throw the others' new one out of the slot
  (`QuicSlot.HealthyConnectionThrownOut`, `QuicSlot.InvalidationHitsOwnIff`);
- pinning an excluded network can change the hop of addresses in it, exactly when an older, narrower
  route held the network's first address and led elsewhere (`HostRoutes.PinnedForward`);
- the host installs tunnel routes with `replace` and deletes them on exit, so a route of the same
  prefix that existed before is lost (`HostRoutes.CleanupRestoresIff`). The promise in `README.md:74-75`
  of the repository, that existing routes to entries of `exclude` are neither changed nor deleted, so
  holds for those entries that are not in `routes` as well;
- an IPv6 target with flow info or a scope id arrives without them (`Wire.AddressRoundTrip`).

## Model

| member | source | states |
|---|---|---|
| Utf8.LossyOfCutText | crates/proto/src/lib.rs:278-312 | cutting valid text at any byte and decoding it lossily keeps every whole character before the cut and yields at most one replacement character |
| Utf8.LossyIsValid | crates/proto/src/lib.rs:311-311 | lossy decoding of any bytes is valid text |
| Utf8.ValidIffScalars | crates/proto/src/lib.rs:178-179 | the byte tables accept exactly the encodings, by the formula of section 3 of RFC 3629, of sequences of Unicode scalar values, and the replacement character is the encoding of U+FFFD |
| Wire.AddressRoundTrip | crates/proto/src/lib.rs:127-187 | an address followed by anything decodes to itself with the rest unread if and only if it is IPv4, IPv6 without flow info and scope, or a domain of at most 255 bytes |
| Wire.LongDomain | crates/proto/src/lib.rs:139-148 | a longer domain arrives shortened exactly when byte 255 is a character boundary, and is refused as bad UTF-8 otherwise |
| Wire.AddressLayout | crates/proto/src/lib.rs:38-40 | every byte of an encoded address: type 1, 3 or 4, octets or counted name, then the port, high byte first |
| Wire.RequestLayout | crates/proto/src/lib.rs:8-16 | every byte of a request: magic, version 1, command 1 or 2, token length, token, address |
| Wire.ResponseLayout | crates/proto/src/lib.rs:8-16 | every byte of a response: magic, version 1, status 0 to 6, length and bytes of the message's first 255 |
| Wire.RequestVerdict | crates/proto/src/lib.rs:232-254 | which bytes get a request refused and for which reason, the earliest fault deciding |
| Wire.ResponseVerdict | crates/proto/src/lib.rs:291-313 | the same for the head of a response |
| Wire.DomainVerdict | crates/proto/src/lib.rs:173-181 | a complete domain address is refused exactly if its name is not UTF-8 |
| Wire.RequestRoundTrip | crates/proto/src/lib.rs:213-254 | decoding inverts encoding, leaving later bytes unread, if and only if the target is representable |
| Wire.RequestInverse | crates/proto/src/lib.rs:232-254 | whatever decodes as a request is exactly the encoding of that request followed by the unread rest |
| Wire.RequestSettles | crates/proto/src/lib.rs:232-254 | once a request is decoded or refused, more input changes neither the verdict nor what was consumed |
| Wire.RequestPrefixFree | crates/proto/src/lib.rs:232-254 | every strict prefix of a request only makes the decoder ask for more |
| Wire.ResponseRoundTrip | crates/proto/src/lib.rs:278-312 | status and every byte after the response survive, whatever happens to the message |
| Wire.ResponseSettles | crates/proto/src/lib.rs:291-312 | a decided response stays decided whatever follows it |
| Wire.ResponsePrefixFree | crates/proto/src/lib.rs:291-312 | every strict prefix of a response only makes the decoder ask for more |
| Wire.ShownIsWholeCharacters | crates/proto/src/lib.rs:278-288 | a message arrives unchanged up to 255 bytes, and otherwise as its longest run of whole characters within them plus one replacement character if the cut split one |
| Wire.MessageSurvives | crates/proto/src/lib.rs:278-312 | the messages that arrive unchanged are those of at most 255 bytes and those of 256 or 257 that end in U+FFFD |
| Datagrams.CutStreamYieldsCompleteFrames | crates/proto/src/lib.rs:317-333 | a framed stream cut anywhere yields exactly its complete frames, none partial or merged |
| Datagrams.UnframeFrameAll | crates/proto/src/lib.rs:317-333 | a stream that ends cleanly gives back the datagrams that went in |
| Datagrams.UnframeAccountsForEveryByte | crates/proto/src/lib.rs:328-333 | on any bytes, what was read re-encodes to a prefix of them and the remainder is an incomplete frame |
| Datagrams.FrameLayout | crates/proto/src/lib.rs:317-325 | the two length bytes, high one first, and the payload, up to 65535 bytes |
| Datagrams.CompleteIs | crates/proto/src/lib.rs:328-333 | what counts as complete: the frames that fit into the bytes at hand, and the next one does not |
| Datagrams.UntilEmptyIs | crates/proxy-client/src/relay.rs:86-92 | what an upload forwards is all reads before the first empty one, and all of them if none is |
| Datagrams.NonEmptyIs | crates/proxy-client/src/relay.rs:98-100 | a local write leaves a trace, in order, exactly if it has bytes |
| Datagrams.UntilEmptyIsNonEmpty | crates/proxy-client/src/relay.rs:86-100 | ending at the first empty read is why no empty datagram is lost on the far side |
| Streams.Source.Read | crates/proto/src/lib.rs:232-254 | one read hands over the next bytes in order; none only at a clean end, an error only where the connection is lost |
| Streams.Source.ReadExact | crates/proto/src/lib.rs:328-333 | reads over any chunking take exactly the requested bytes, or report the end or the loss of the connection |
| Streams.Source.ReadAddress | crates/proto/src/lib.rs:152-187 | the step-by-step reader agrees with the decoder in value, error and bytes left, for any chunking |
| Streams.Source.ReadRequest | crates/proto/src/lib.rs:232-254 | a request is decoded from the bytes alone, however chunked, and no byte after it is consumed |
| Streams.Source.ReadResponse | crates/proto/src/lib.rs:291-313 | the same for a response, so the first upstream byte coalesced behind it is preserved |
| Streams.Source.ReadDatagram | crates/proto/src/lib.rs:328-333 | the buffer holds exactly the next payload, or the stream ended inside a frame |
| Streams.Buffer.AppendAddress | crates/proto/src/lib.rs:127-150 | the pushes spell out the address encoding |
| Streams.Sink.WriteRequest | crates/proto/src/lib.rs:213-230 | a token over 255 bytes is an error that writes nothing; otherwise the whole encoding is written once, as far as the peer takes it |
| Streams.Sink.WriteResponse | crates/proto/src/lib.rs:278-289 | the response encoding, message cut to 255 bytes, is written once, as far as the peer takes it |
| Streams.Sink.WriteDatagram | crates/proto/src/lib.rs:317-325 | a payload over 65535 bytes is an error that writes nothing; any other is framed |
| Streams.CopyWithActivity | crates/proxy-server/src/server.rs:249-267 | bytes are copied in order as far as the writer takes them, which is shut down exactly when the reader ended cleanly and all was taken; each activity mark stands for 1 to 16384 bytes |
| Streams.UploadDatagrams | crates/proxy-client/src/relay.rs:84-94 | the tunnel receives the frames of the local datagrams before the first empty read, as far as it takes them, and is shut down exactly if neither side failed |
| Streams.DownloadDatagrams | crates/proxy-client/src/relay.rs:95-103 | the local side receives every non-empty datagram of the tunnel stream, in order, until it fails or the tunnel ends, and that end is reported as an error |
| Streams.ServeUplink | crates/proxy-server/src/server.rs:297-306 | every complete datagram before the first one the socket refuses is sent, empty ones too, and the 64-bit counter advances once for each |
| Streams.UpToRefusedIs | crates/proxy-server/src/server.rs:299-301 | the datagrams sent are all those before the first that the socket refuses |
| Streams.Counted64Wraps | crates/proxy-server/src/server.rs:302-302 | the counter after n datagrams is the start plus n modulo 2^64 |
| Streams.SendThrough | crates/proxy-client/src/relay.rs:84-103 | the upload and download loops joined by a stream cut into chunks of any sizes deliver exactly the reads before the first empty one, all of them if none is empty |
| Lane.EveryRunKeepsTheLane | crates/proxy-client/src/grpc.rs:71-110 | in every reachable state, with breaks at any moment, bytes are conserved in order across all stages, pipes hold at most 64 KiB, the channel 32 frames, frames 1 to 16384 bytes, the reader has a prefix of what was written, and on an unbroken stream sees the end only after the last byte |
| Lane.PipeAndFrameFill | crates/proxy-client/src/grpc.rs:17-18 | the pipe does take 65536 bytes and a frame 16384 |
| Lane.ChannelTakes32 | crates/proxy-client/src/grpc.rs:52-52 | the channel does take 32 frames |
| Lane.StepInv | crates/proxy-server/src/grpc.rs:65-113 | every task step, break and dropped pipe keeps conservation, capacities, order of ends and the integrity of the opening frame |
| Lane.ReaderSeesPrefix | crates/proxy-server/src/grpc.rs:95-113 | what the reader has is a prefix of what was offered, and all of it once an end is seen on an unbroken stream |
| Lane.InternalStepsApproach | crates/proxy-client/src/grpc.rs:75-110 | every task step strictly lowers the stage-weighted distance to the goal and needs no input |
| Lane.NeverStuck | crates/proxy-client/src/grpc.rs:75-110 | short of the goal, some task can always move, whatever the size of the pending write |
| Lane.EveryInternalRunSettles | crates/proxy-client/src/grpc.rs:75-110 | every run without input or failure is bounded, and where it stops everything has been read |
| Lane.SettlingRun | crates/proxy-client/src/grpc.rs:17-18 | from every state a run exists that delivers everything, so a 65537-byte frame passes a 65536-byte pipe |
| Lane.EveryFailedRunComesToRest | crates/proxy-client/src/grpc.rs:96-110 | after a break every run of a lane's tasks is bounded, and at its end all that was not lost has been read; the client's reader has been told of an end, the server's handler exactly if its pipe was dropped at the other end |
| Lane.DamageHistory | crates/proxy-client/src/grpc.rs:71-110 | bytes become undeliverable exactly by a break that does not spare them or by being offered after one, and for good |
| Lane.LaneRefinesFifoIff | crates/proxy-server/src/grpc.rs:65-113 | each step of the lane is a step, or none, of a plain stream that ends cleanly only behind its last byte, except that an end told to the reader is one exactly when the writer closed and nothing was lost |
| Lane.TruncatedStreamEndsCleanly | crates/proxy-client/src/grpc.rs:104-107 | a run for any data up to a pipe's capacity in which the break takes all of it and the client still reads a clean end |
| Session.TransportsAgree | crates/proxy-server/src/grpc.rs:56-63 | for any client, decoding the first frame and decoding the byte stream give the same request and body if and only if the first frame is the request and nothing else, or no request can come of it |
| Session.SplitRequestIsRefused | crates/proxy-server/src/grpc.rs:56-63 | every request sent in two frames is served over QUIC and refused over gRPC |
| Session.DataBesideTheRequestIsLost | crates/proxy-server/src/grpc.rs:56-63 | bytes in the request's frame reach a QUIC handler and never a gRPC one |
| Session.QuicRunIff | crates/proxy-client/src/grpc.rs:42-131 | from any reachable state, a run over gRPC is a run over two plain QUIC streams, with the same bytes written, read, closed and ended on either side at every step, if and only if no side is told of an end after a loss on the way to it or before the other shut down |
| Session.GrpcRunIsQuicRunIff | crates/proxy-client/src/grpc.rs:42-131 | the same from the beginning of a flow |
| Session.HonestEndsAreComplete | crates/proxy-server/src/grpc.rs:95-113 | in such a run whoever is told of an end has everything, then and ever after |
| Session.BrokenStreamReadsAsEnded | crates/proxy-client/src/grpc.rs:104-107 | a run, for every request, in which the stream breaks behind the response headers and the client reads a clean end that no QUIC run has |
| Session.TruncatedUploadLooksComplete | crates/proxy-server/src/grpc.rs:65-113 | a run, for every request, favourable answer and data, in which the download is over, the upload breaks, and the handler reads a clean end without the data |
| Session.BreaksRunOut | crates/proxy-server/src/grpc.rs:65-113 | after any breaks every run is bounded, and at its end all that was not lost has been read; a connected client has been told of an end, a handler exactly if its response pump has ended, which on an unbroken response stream means it closed its own side |
| Session.StartIsQuicStart | crates/proxy-client/src/quic.rs:62-93 | and it starts where the QUIC flow does, with the request written and nothing read |
| Session.HandshakeCompletes | crates/proxy-client/src/grpc.rs:42-131 | the handshake cannot hang: left alone every run is bounded, and where it stops the handler has the request, everything written has been read, and an answered client has its verdict |
| Session.StepInv | crates/proxy-client/src/grpc.rs:42-131 | nothing comes down before the request was taken and the one response written, nothing goes up before a favourable response was read, and a broken upload's pipe is closed only once the response pump has ended |
| Session.ClientView | crates/proxy-client/src/grpc.rs:112-124 | at every moment the client either needs more bytes or has decoded the one response with everything after it intact |
| Session.SameAsQuic | crates/proxy-server/src/server.rs:52-63 | in every state the gRPC handler stands where a QUIC handler fed the same bytes would stand |
| Session.GrpcRefinesQuic | crates/proxy-client/src/grpc.rs:42-131 | for every request, response and schedule the handler gets this client's request and a prefix of its bytes, the client one response and a prefix of the handler's bytes, each complete at the end of an unbroken stream |
| Session.OrderOfThings | crates/proxy-client/src/grpc.rs:42-131 | in every run a response lane only once the request was taken, first the one response and more only behind a favourable one, nothing up before that was read, and no byte or end for a client without pipes |
| Session.QuicOrderOfThings | crates/proxy-server/src/server.rs:52-63 | the QUIC flow compared with keeps the same order, and ends a stream only behind its last byte |
| Session.DatagramsUp | crates/proxy-server/src/server.rs:297-306 | behind the request a datagram reader has, at every moment of every run, exactly the frames that arrived whole, and all of them at the end of an unbroken stream |
| Session.DatagramsDown | crates/proxy-client/src/relay.rs:95-103 | behind the response the same holds |
| PumpTasks.Tunnel.PumpTurn | crates/proxy-client/src/grpc.rs:75-94 | a turn of the read-and-send loop is one step of the lane, or nothing when the channel is full or the pipe empty; on a broken stream the held frame is lost and the loop ends |
| PumpTasks.Tunnel.AcceptTurn | crates/proxy-server/src/grpc.rs:56-66 | the server takes the opening frame once and first, or gives up when the stream ends without it |
| PumpTasks.Tunnel.DeliveryTurn | crates/proxy-server/src/grpc.rs:95-113 | a turn of the receive-and-write loop is one step of the lane, or nothing when blocked |
| PumpTasks.Tunnel.PipeTurn | crates/proxy-server/src/grpc.rs:65-67 | the delivery task's end of the pipe closes once that task and whoever shares it are gone |
| PumpTasks.Tunnel.Drain | crates/proxy-client/src/grpc.rs:75-110 | running the tasks under any fair schedule ends, with everything offered read and the end announced; on a broken stream, with everything that was not lost, and an end announced exactly if breaks are taken for ends or nobody else holds the pipe |
| PumpTasks.AllIdleIsSettled | crates/proxy-client/src/grpc.rs:75-110 | when every task is blocked nothing that can still arrive is left to move, and an end is known exactly where the pipe was closed |
| IdleTimers.ExactCloseBounds | crates/proxy-server/src/server.rs:269-281 | a timer restarted at each activity closes one idle period after the last one, exactly when no activity came later than its closing |
| IdleTimers.UdpWhatMayHappen | crates/vm/src/server.rs:211-235 | the session's events: sends, datagrams and the timeout up to the deadline while the receive waits, sends and the end of the write, however late, once a datagram has come |
| IdleTimers.SendsAreSeenOnlyAtTimeouts | crates/vm/src/server.rs:219-232 | a send followed by a datagram still saves the session at the next timeout, because only timeouts look at the counter |
| IdleTimers.UdpIdleWindow | crates/proxy-server/src/server.rs:297-327 | a session closed by idleness closes at least one (counter not come round) and at most two idle periods after its last activity |
| IdleTimers.UdpMustClose | crates/vm/src/server.rs:225-232 | two timeouts in a row with nothing sent between them close the session at the second |
| IdleTimers.UdpWindowIsTight | crates/proxy-server/src/server.rs:307-327 | both ends of the window are reached, for every idle period |
| IdleTimers.ExpireClosesIff | crates/vm/src/server.rs:225-232 | a receive timeout closes the session exactly when the datagrams sent since the last look are a multiple of 2^64 |
| IdleTimers.ACounterThatComesRoundClosesEarly | crates/vm/src/server.rs:202-206 | 2^64 datagrams in one period close a busy session early |
| IdleTimers.PollingAgainstExactTimer | crates/proxy-server/src/server.rs:269-327 | on the same activity polling never closes before the exact timer, and within one idle period of it if and only if no activity came after the exact closing |
| IdleTimers.PollingMayOutlastTheBound | crates/proxy-server/src/server.rs:307-327 | a concrete trace on which polling closes 15 after the exact timer with an idle period of 10 |
| IdleTimers.TcpIdleTimeout | crates/proxy-server/src/server.rs:249-281 | one coalesced permit loses nothing: the timer fires only after a full quiet period and never over a pending notification, and with prompt polling exactly when the exact timer closes |
| IdleTimers.TcpClosesAtDeadline | crates/proxy-server/src/server.rs:269-281 | an idle flow whose timer is served promptly is closed at the very deadline |
| IdleTimers.TcpWhatMayHappen | crates/proxy-server/src/server.rs:264-281 | a chunk stores the permit and leaves the timer alone; a look re-arms it from that moment with a permit, and without one closes exactly past the deadline |
| IdleTimers.TcpMustFire | crates/proxy-server/src/server.rs:269-281 | two looks at the timer an idle period apart, without a chunk between them, close the flow by the second |
| IdleTimers.Downlink | crates/vm/src/server.rs:211-235 | the loop closes for idleness exactly where the automaton does, one (fewer than 2^64 sends) to two idle periods after the last send or completed write; a failing receive ends it otherwise |
| IdleTimers.WaitForIdle | crates/proxy-server/src/server.rs:269-281 | the loop gives up only after a full idle period without a chunk, and, when it runs promptly, exactly when the exact timer closes |
| Relay.RelayTcp | crates/proxy-server/src/server.rs:224-281 | both copies and the timer under any order of turns: the relay is broken exactly if a reader or a writer failed, completed exactly if both directions saw their end, then with everything and both ends passed on, and idle exactly if the timer fired on these turns; a half-closed relay goes on, every chunk leaves one mark, and giving up means no chunk moved either way for the whole period |
| Relay.QuietRelayGivesUp | crates/proxy-server/src/server.rs:241-246 | of two timer turns an idle period apart with no chunk between them, the relay does not outlive the second |
| Transport.EveryRun | crates/proxy-client/src/transport.rs:52-105 | for any number of interleaved opens the stored deadline is at most one retry interval away and every finished open has one of the listed histories |
| Transport.CompleteHistories | crates/proxy-client/src/transport.rs:72-105 | the histories an open can have, listed with their results: at most one QUIC and two gRPC attempts, nothing after a rejection, and failure only after one or after both transports failed |
| Transport.OverlappingOpensMayBothProbe | crates/proxy-client/src/transport.rs:72-98 | overlapping opens may probe QUIC although a deadline has been stored meanwhile, so spacing is a property of opens one after another |
| Transport.EarlyProbeIff | crates/proxy-client/src/transport.rs:72-104 | whatever opens follow one that found QUIC unavailable at e, the next probe starts before e plus the retry interval if and only if a gRPC attempt made under suppression fails before that |
| Transport.ProbeSpacing | crates/proxy-client/src/transport.rs:72-104 | when the next probe is not forced that way, all later ones start at least one retry interval after e |
| Transport.ForcedProbeComesEarly | crates/proxy-client/src/transport.rs:78-90 | the exception is real: two opens whose second probe comes before the interval is over |
| Transport.ProbeRate | crates/proxy-client/src/transport.rs:72-104 | with QUIC always unavailable and gRPC healthy, k further probes take at least k retry intervals |
| Transport.WhatOneOpenDoes | crates/proxy-client/src/transport.rs:72-105 | gRPC comes first exactly before the deadline; a connection clears the deadline, a rejection sets none, an outage sets it one interval after it was found and is followed by gRPC |
| Transport.DeadlineCountsFromOutage | crates/proxy-client/src/transport.rs:98-98 | the interval counts from the outage, however long the lock is waited for |
| Transport.ConnectionLiftsSuppression | crates/proxy-client/src/transport.rs:89-91 | whoever connects over QUIC lifts the suppression for everyone |
| Transport.SingleTransport | crates/proxy-client/src/transport.rs:53-70 | with one transport enabled every open is one attempt on it |
| Transport.SerialOpenIsARun | crates/proxy-client/src/transport.rs:52-105 | an undisturbed open is one of the interleavings of the concurrent model |
| Transport.TransportClient.Open | crates/proxy-client/src/transport.rs:52-105 | the stored deadline, the attempts made and the result of one open |
| Transport.TransportClient.OpenAll | crates/proxy-client/src/transport.rs:52-105 | a client opening flows in turn makes exactly the probes, and has exactly the failures, the spacing results speak of |
| QuicSlot.StepInv | crates/proxy-client/src/quic.rs:108-132 | every lock step keeps: one connect in flight at most and only with nothing to reuse, the slot holds the newest connection until that is invalidated, all older ones are closed or invalidated |
| QuicSlot.EstablishedAreAccountedFor | crates/proxy-client/src/quic.rs:108-132 | connections established number at most one more than those closed or invalidated |
| QuicSlot.EveryRun | crates/proxy-client/src/quic.rs:44-132 | both bounds after every interleaving |
| QuicSlot.LostIsNeverGivenAgain | crates/proxy-client/src/quic.rs:108-128 | over any run, a connection that was closed or invalidated is never handed to a flow again |
| QuicSlot.InvalidationHitsOwnIff | crates/proxy-client/src/quic.rs:130-132 | over any run after a flow was given its connection, its invalidation adds that very connection to those thrown out if and only if no connect succeeded and nobody invalidated meanwhile; otherwise it adds a newer one or none |
| QuicSlot.HealthyConnectionThrownOut | crates/proxy-client/src/quic.rs:130-132 | a run in which a flow's late failure throws out the healthy connection of another |
| QuicSlot.QuicClient.Connection | crates/proxy-client/src/quic.rs:108-128 | an open connection is reused, otherwise exactly one is dialled and kept if it succeeds |
| QuicSlot.QuicClient.Invalidate | crates/proxy-client/src/quic.rs:130-132 | the slot is emptied, whichever flow's connection it holds, and that one counted as given up |
| Routing.MatchIsLongest | crates/host/src/route.rs:49-51 | forwarding looks up the one longest prefix containing the address, if any |
| Routing.HostRouteDecides | crates/host/src/route.rs:160-167 | a /32 or /128 route alone decides where its address goes |
| Routing.ContainsIs | crates/host/src/config.rs:143-150 | a prefix contains the addresses of its family that begin with its bits |
| Routing.NetworkIs | crates/host/src/main.rs:83-83 | a network's first address is inside it and zero beyond its prefix |
| HostRoutes.SteeredForward | crates/host/src/main.rs:106-110 | after the tunnel routes are in, every address goes into the tunnel if some tunnel route containing it is at least as long as all other matches, and otherwise where it went before |
| HostRoutes.PinnedExactly | crates/host/src/main.rs:91-105 | which prefixes are in the table after pinning, and whether pinning completes, from configuration, old table and refusals alone |
| HostRoutes.PinnedForward | crates/host/src/main.rs:81-105 | pinning changes an address's hop if and only if the longest prefix that will be present around it is a new pin, and an older, longer route inside that network held its first address and led elsewhere |
| HostRoutes.PinsKeepHops | crates/host/src/main.rs:81-105 | a corollary that is easier to check: the hop stays whenever no older route inside an excluded network around the address holds that network's first address |
| HostRoutes.NarrowerRouteMovesHop | crates/host/src/main.rs:82-89 | for every network and narrower route to its first address, excluding the network moves its other addresses to that route's hop, whatever shorter networks go into the tunnel |
| HostRoutes.PinningCanChangeAHop | crates/host/src/main.rs:82-89 | a concrete table and configuration, with a tunnel route around the exclusion, for which an excluded address changes its hop |
| HostRoutes.ExcludedStaysOut | crates/host/src/main.rs:81-110 | an address of an excluded network that is present after pinning, as told from the inputs, never enters the tunnel unless a tunnel route around it is at least as long, and changes its hop exactly under the condition above |
| HostRoutes.StartupSucceedsIff | crates/host/src/main.rs:73-110 | start-up succeeds exactly when an agent inside a tunnel route and no exclusion has a route to begin with, and neither its pin nor any tunnel route is refused |
| HostRoutes.StartupTable | crates/host/src/main.rs:91-110 | the table a completed start-up leaves: which prefixes it holds and where each leads |
| HostRoutes.HandsOff | crates/host/src/main.rs:73-113 | without automatic routes, or without a way to the agent, no route but the device's own is touched |
| HostRoutes.IntoTunnelIff | crates/host/src/main.rs:106-110 | what goes into the tunnel: exactly the addresses with a tunnel route at least as long as all else that will be around them |
| HostRoutes.NeedsServerPinIff | crates/host/src/main.rs:73-80 | the agent needs a route of its own exactly when some tunnel route contains it and no exclusion does |
| HostRoutes.AgentNotPinnedInVain | crates/host/src/main.rs:73-100 | an agent outside all tunnel routes, or inside an exclusion, gets none |
| HostRoutes.AgentNotCaptured | crates/host/src/main.rs:73-110 | an agent inside a tunnel route and no exclusion keeps its hop exactly when its host route is not itself a tunnel route, whether or not that host route existed |
| HostRoutes.OthersUnchanged | crates/host/src/main.rs:71-113 | addresses outside routes, exclusions and the agent keep their hop |
| HostRoutes.CleanupRestoresIff | crates/host/src/route.rs:110-151 | after a complete or failed start-up, cleanup restores the table exactly when no tunnel route that gets installed had been in it |
| HostRoutes.ReplacedRouteIsLost | crates/host/src/route.rs:110-151 | a tunnel route's prefix is never in the table after a complete start-up and cleanup, whatever was there before |
| HostRoutes.CleanupCanLoseARoute | crates/host/src/route.rs:110-117 | a table with a route that a complete start-up and cleanup lose |
| HostRoutes.RouteManager.AddToDev | crates/host/src/route.rs:111-117 | a route is replaced and remembered, or nothing changes |
| HostRoutes.RouteManager.PinDirect | crates/host/src/route.rs:121-138 | an exact route is left alone and not remembered, otherwise added and remembered |
| HostRoutes.RouteManager.Cleanup | crates/host/src/route.rs:141-151 | everything remembered is deleted, last first |
| HostRoutes.Start | crates/host/src/main.rs:71-113 | the loops of the start-up compute the table, the memory and the verdict all the results above are about |
| ClientRoutes.AddAllExtends | crates/proxy-client/src/route.rs:19-24 | at every point the table is the initial one plus the remembered prefixes, which are distinct and new |
| ClientRoutes.AddAllSucceeds | crates/proxy-client/src/main.rs:70-76 | installation succeeds if and only if the prefixes are distinct, new and not refused |
| ClientRoutes.WhatInstallingLeaves | crates/proxy-client/src/route.rs:19-24 | after any start-up the old routes are untouched and the new ones, a first part of the list, lead through the device, each once |
| ClientRoutes.CleanupRestores | crates/proxy-client/src/route.rs:26-40 | for every table and list, failure midway included, cleanup gives back the initial table |
| ClientRoutes.OutsideUnaffected | crates/proxy-client/src/route.rs:19-24 | addresses outside the routes keep their hop at every point |
| ClientRoutes.TunnelNotCaptured | crates/proxy-client/src/config.rs:92-106 | with a validated configuration every enabled server keeps its hop after any number of routes added and any number of them taken back |
| ClientRoutes.EnabledServersAre | crates/proxy-client/src/config.rs:116-129 | the servers in use: of each enabled transport its own, or the common one |
| ClientRoutes.ValidRoutesIff | crates/proxy-client/src/config.rs:76-106 | validation refuses exactly the configurations with nothing enabled or routed, an IPv6 route, or a server in use inside a route |
| ClientRoutes.RouteManager.Install | crates/proxy-client/src/main.rs:70-76 | the loop installs in order and stops at the first failure |
| ClientRoutes.RouteManager.Cleanup | crates/proxy-client/src/route.rs:26-33 | everything remembered is deleted, last first |
| ClientRoutes.RunClient | crates/proxy-client/src/main.rs:70-111 | a whole life of the client, failed or not, leaves the table as it was |
| Proxy.TokenMatches | crates/proxy-server/src/config.rs:149-157 | the accumulator loop accepts exactly the tokens that agree after zero padding and in length modulo 256 |
| Proxy.TokensOfAtMost255Bytes | crates/proxy-server/src/config.rs:62-67 | up to 255 bytes that is equality |
| Proxy.LongTokensMayMatch | crates/proxy-server/src/config.rs:149-157 | of the comparison function alone: without the cap of 255 bytes that wire and configuration enforce it would accept 256 zero bytes for the empty token |
| Proxy.PermitsIs | crates/proxy-server/src/config.rs:97-103 | an address is permitted exactly if it lies in no denied network, and in an allowed one unless none is listed |
| Proxy.PermittedInOrder | crates/proxy-server/src/server.rs:106-109 | exactly the permitted candidates are kept, each as often as resolved and in that order |
| Proxy.DialAll | crates/proxy-server/src/server.rs:133-158 | candidates are dialled in order up to the first that connects in time, within the timeout for each |
| Proxy.HandleRequest | crates/proxy-server/src/server.rs:65-222 | exactly one response is written, as far as the peer takes it, and relaying starts only behind a favourable one written in full; a connect request succeeds if and only if the token matches, resolution yields permitted candidates and one of them connects in time; otherwise the first obstacle decides the status. Nothing is dialled or relayed to that was not resolved, lies in a denied network, or outside every allowed one |
| Proxy.OnlyPermittedDestinations | crates/proxy-server/src/server.rs:106-117 | everything dialled was resolved for the request, is in no denied network, and in an allowed one unless none is listed |
| Proxy.OpenQuic | crates/proxy-server/src/server.rs:52-63 | over QUIC the handler gets the request decoded off the stream and the bytes after it |
| Proxy.OpenGrpc | crates/proxy-server/src/grpc.rs:56-63 | over gRPC the handler gets the request decoded from the first frame and the later frames |

## Left out

- PinsKeepHops: gives a sufficient condition on the table alone; the exact condition is `PinnedForward`.
- RelayTcp: stands for the relay of the proxy server; the client's own relay of TCP has no idle timer and consists of the same two copies.
- Drain: takes read sizes as large as they come, and breaks only between calls; smaller reads and breaks at any step are covered by the transition system of `Lane.dfy`.
- ReadDatagram: leaves open what the buffer holds when the stream ends inside a payload, as `read_exact` itself does; no caller looks at it.
- HandleRequest: takes how resolution, each dial and the UDP socket would go as inputs, and error texts as an arbitrary function of the cause.
- A shutdown that itself fails: it is taken to succeed once everything before it was written.
- A reader that goes away while data is under way, which makes writes towards it fail, and a writer that abandons a write: only the stream's own failure and the ends of tasks are modelled.
- When each side of a broken QUIC connection learns of it: the plain stream allows its error at any moment after the break.
- The agent in the VM differs from the proxy server in having no DNS deadline and in not shutting down after a refusal; its request handling is not modelled separately.
- `copy_bidirectional`, TLS and certificates, the internals of quinn, tonic and HTTP/2, TUN devices, the userspace IP stack.
- Running `ip`, `route` and `netsh` and parsing their output: the table operations stand for them, and no other process edits the table.
- TOML parsing and the other configuration checks, command lines, config search, logging, display strings.
- The DNS forwarder and the host's unbounded connect retry.
- Timers observed later than their deadline, except for the TCP timer, where late polling is modelled.
- Timeouts of the handshakes themselves, which only end an attempt that is already modelled as failing.
