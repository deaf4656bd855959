# A verified model of the naitron gateway's relay and its codecs

The gateway multiplexes many HTTP clients over one socket per controller process. A request takes one of 4096
in-flight slots and is named on the controller's socket by a 32-bit id, 12 bits of slot under 20 bits of the slot's
generation. Controllers answer with frames (RESPONSE, or BEGIN CHUNK* END, or WebSocket messages) which the gateway
resolves by id alone and turns into bytes for the client, through buffers that sockets drain as they please. This
project models that relay, the byte protocols under it and the self-contained algorithms beside it, and proves what
they promise for every input, every split of the input, and every run.

How it is laid out:

- **The relay.** `Relay` and `RelayRun` give the gateway's state as a value and one step per poll event, with whatever
  the sockets, the allocator and the poller do as an input of the step. `RelayTheorems` has what holds over every run:
  the slot table, the life of an id, isolation between requests, a controller's death. `RelayFates` says what every
  event does to the connection it is about and that complete responses finish, `RelayHealthy` that they go through when
  nothing fails. `RelayStreams` says what clients receive, `RelayHistory` and `RelaySockets` that what they receive is
  what their controller's frames said, for streams and for WebSockets, and `RelayQueue` and `RelayOutbox` that
  controllers are asked exactly what clients sent. `EndToEnd` joins this to the calls an SDK handler made and
  `ByteStack` to the bytes its SDK wrote. `Gateway` is the same relay as a class that updates its arrays and tables in
  place, method by method equal to the steps and event by event to the runs; `DrainBuffer` is the growing, compacting,
  capped array a stream drains from, shown to end up where the relay's steps say.
- **The protocols.** `Wire` and `WireIo` (payloads, as functions and as the bounded writer and reader), `Framing`
  (frames, the gateway's non-blocking reader and writer and the SDK's blocking reader), `Ws` (RFC 6455 frames,
  unmasked in place) and `WsPeer` (a client written from the RFC alone), `Chunked` (section 7.1 of RFC 9112, printed by
  the gateway and undone by the HTTPS client), `Http`, `HttpGrammar` and `HttpArrival` (the request parser, the grammar
  it accepts, and requests that arrive in pieces), `Multipart` and `MultipartRoundTrip`. `Incremental` is what all
  readers share: a reader whose verdicts are final gives the same items however its input is split.
- **The algorithms.** `Sha256` (incremental SHA-256 and HMAC), `Base64Url`, `Json`, `JsonGrammar`, `JsonRoundTrip` and
  `JsonIo`, `SdkStream` (the SDK's stream calls and serve loop), `Bucket`, `Arena`, `Router`, `RoundRobin`.

Where the source updates fields or arrays step by step the model does too, in a class or a method with loops, proved
against a function or a property; the lemmas are about those functions. `dafny verify dfyconfig.toml` checks
everything.

## Findings

Five promises turn out to hold only under a condition. Each has a concrete failing input and the exact condition.

- **The two route matchers disagree.** The router drops empty segments and strips a leading colon from segments of
  patterns *and* of paths (src/common/router.c:60-76); the schema matcher (src/core/server.c:1059-1073) does neither,
  and both are given the path as it arrived. `Router.TrailingSlashDiffers` and `Router.ColonPathDiffers`: `/a/` and
  `/:a` are routed like `/a`, but no schema registered for `/a` applies to them. `Router.BareColonDiffers`: the pattern
  segment `:` is a literal to one and a parameter to the other. `Router.SegmentsAgree` and `Router.MatchersOnText` say
  what each takes; `Router.AgreeWithoutColons` and `Router.AgreeOnCanonical` say which patterns are matched alike on
  all canonical paths (one slash before each segment, none after), `Router.NeverAgreesEverywhere` that none is on all
  paths, and `Router.SafePaths` which paths are safe for all patterns.
- **A request's verdict depends on how it arrives.** More than 32768 bytes without the end of the head are an error,
  but the end is looked for first, so a head that long is accepted when it arrives at once
  (src/common/http_request.c:56-60). `HttpArrival.LongDispatched` and `HttpArrival.LongCutRejected` show one request
  that is dispatched whole and gets a 400 when its last byte comes separately; `HttpArrival.SplitInvariant` gives the
  exact bound. (The comment at src/common/http_request.c:58 announces a 431; the caller answers 400, and so does the
  model.)
- **A multipart part can be lost without containing the separator.** Data that starts with `--boundary` completes a
  separator with the CRLF that ends the part's headers: `MultipartRoundTrip.BoundaryAtStart`.
  `MultipartRoundTrip.RoundTrip` has the condition, both ways.
- **A handler that ends before it begins breaks the frame grammar**: it sends END and then a RESPONSE, as
  `SdkStream.EndBeforeBegin` shows. `SdkStream.ReplyGrammar` says that nothing else does.
- **An event with a line feed is not one event to a browser** (src/common/controller_sdk.c:120-133 prints the data as
  it is): `SdkStream.TwoLinesAreLost`. `SdkStream.EventsAreRead` says that every other event is read back.

## Model

| member | source | states |
|---|---|---|
| `Relay.Init` | src/core/server.c:260-263 | the start state meets the slot invariant: the free stack is duplicate-free and exactly the empty slots, a slot holds c iff c is in flight under the slot's current id |
| `Relay.Release` | src/core/server.c:271-275 | freeing a slot keeps the invariant, empties exactly that slot, moves exactly its generation on, and touches no other connection or slot |
| `Relay.Close` | src/core/server.c:297-313 | closing keeps the invariant, files the connection's last record, and touches only that connection and the slot it holds |
| `Relay.WritableMoves` | src/core/server.c:385-412 | a flush sends a prefix of what waits and loses nothing: sent plus waiting is unchanged; a connection closed as finished had everything sent, and had ended if it was a stream |
| `Relay.PushMoves` | src/core/server.c:467-492 | a push adds exactly its bytes after those already sent or waiting; a connection it closes was sent a prefix of that, and all of it if it finished |
| `Relay.RespondMoves` | src/core/server.c:363-383 | an atomic answer is queued whole and flushed in order |
| `Relay.FromCtrl` | src/core/server.c:432-581 | a frame whose id resolves to nothing changes nothing; otherwise the invariant is kept and only that connection and its slot change |
| `RelayRun.Bind` | src/core/server.c:264-270 | allocating an id and queueing the frame keeps the invariant and never moves a generation back |
| `RelayRun.Forward` | src/core/server.c:770-793 | every refusal and the success of forwarding keep the invariant; a slot taken for a frame that could not be queued is given back with its generation moved on |
| `RelayRun.Upgrade` | src/core/server.c:633-678 | the same for the WebSocket upgrade, once the handshake key was accepted |
| `RelayRun.SweepEffect` | src/core/server.c:688-697 | the sweep over the first n slots frees exactly those that wait on the dead controller and settles exactly their connections |
| `RelayRun.Step` | src/core/server.c:728-762 | every poll event keeps the invariant, and a slot whose generation did not move is still held by its holder |
| `RelayTheorems.Census` | src/core/server.c:260-275 | free slots and requests in flight always make 4096 |
| `RelayTheorems.EveryRun` | src/core/server.c:260-275 | the invariant and the count hold after every run from the start |
| `RelayTheorems.IdOverRun` | src/core/server.c:264-275 | after any run an issued id resolves iff its slot is held and was freed a multiple of 2^20 times since: to nothing for 1 to 2^20 - 1 frees, to its own connection for none |
| `RelayTheorems.FrameIsolation` | src/core/server.c:432-462 | a frame reaches at most the connection in flight under exactly its id; all other connections, open or closed, and all other slots are as before |
| `RelayTheorems.LateFrameIsDropped` | src/core/server.c:432-438 | a frame for a request that is over changes nothing, whoever holds its slot by then |
| `RelayTheorems.ControllerDeath` | src/core/server.c:680-713 | no slot waits on the dead controller; who waited is cut off with nothing appended if its head was sent and otherwise gets one 502; every other slot and connection is untouched |
| `RelayStreams.StepKeeps` | src/core/server.c:440-581 | every event keeps each open connection's sent plus waiting bytes equal to what was relayed to it, and each closed one's bytes a prefix, complete if it finished |
| `RelayStreams.RunKeeps` | src/core/server.c:440-581 | the same over every run with controllers that follow the frame grammar |
| `RelayStreams.ClientsReceive` | src/core/server.c:480-547 | over every run from the start a client has a prefix of head and framed chunks, unsent streamed bytes stay within 4 MiB, and a finished connection has the complete encoding |
| `RelayStreams.RecordDecodes` | src/core/https_client.c:290-307 | de-chunking what was sent gives exactly the chunks whose data is wholly among the bytes sent, refused iff they do not fit; all of them when all was sent |
| `RelayStreams.ChunkedClientsDecode` | src/core/server.c:521-547 | over every run: a chunked client de-chunks exactly the chunks whose data it has been sent, and all of them when the connection finished |
| `RelayFates.WritableFate` | src/core/server.c:385-412 | every outcome of a flush: drained and complete it closes as finished with all bytes sent; drained otherwise it stays, or closes if the poller fails; it stays while the socket blocks; a broken socket closes it |
| `RelayFates.PushFate` | src/core/server.c:467-492 | every outcome of a push: over 4 MiB or without memory the client is dropped, if the socket cannot be armed it is lost, and otherwise what waits and the data are flushed |
| `RelayFates.AnswerFate` | src/core/server.c:332-383 | an answer puts exactly its text on the wire, with its status, and finishes when the socket has taken it; without a text the connection closes |
| `RelayFates.AnswerEvent` | src/core/server.c:373-383 | the same for a request the gateway answers itself |
| `RelayFates.ForwardFate` | src/core/server.c:770-793 | a request is refused with 503, 500 or 503 as its target, its encoding or a slot is missing, or its connection waits for the controller under an id that resolves to it |
| `RelayFates.RefusedSlot` | src/core/server.c:783-786 | a slot taken for a request that could not be queued is free again, under the next generation, and no other slot changes |
| `RelayFates.UpgradeFate` | src/core/server.c:633-678 | an upgrade is refused likewise, or the connection waits for the controller and its head goes out with status 101 |
| `RelayFates.ResponseFate` | src/core/server.c:440-462 | RESPONSE ends the request and the client is answered with the response's status, or a 502 |
| `RelayFates.BeginFate` | src/core/server.c:494-519 | BEGIN: a 502 if it does not decode, closed without a head, and otherwise the head goes out and the client streams in the mode and with the status it says |
| `RelayFates.EndFate` | src/core/server.c:538-547 | END closes a connection without BEGIN; otherwise the terminator of a chunked body goes out and the stream is complete |
| `RelayFates.IdleFrames` | src/core/server.c:521-559 | frames of an unknown kind, chunks without BEGIN, data or sense, and messages to a client that is no WebSocket change nothing |
| `RelayFates.HangupFate` | src/core/server.c:297-313 | a client that hangs up is closed with nothing more sent, and its slot is free under the next generation |
| `RelayFates.NewcomerFate` | src/core/server.c:285-295 | a new client is in its initial state and a new controller has an empty queue; nobody else is affected |
| `RelayFates.DeathFate` | src/core/server.c:688-697 | when a controller dies, who waited with nothing sent gets a 502 with exactly its text, who had a head is cut off where it stood, and the others do not notice |
| `RelayFates.FinishesOver` | src/core/server.c:385-412 | over every run: once a response is complete, a connection still open closes as finished, with every byte sent, as soon as its socket takes what is left |
| `RelayHealthy.HealthyAnswer` | src/core/server.c:440-462 | when socket, memory and poller do their part, a RESPONSE finishes at once and the client has the whole text |
| `RelayHealthy.HealthyStream` | src/core/server.c:494-547 | and a stream from BEGIN over any chunks to END finishes, and the client has the head, every chunk as its mode frames it, and the terminator |
| `RelayHealthy.RoomySocket` | src/core/server.c:385-401 | such as a socket with room for 4 MiB |
| `RelaySockets.StepSpeaks` | src/core/server.c:552-581 | one event changes a WebSocket's record by exactly the frame it has in store for that client |
| `RelaySockets.RunSpeaks` | src/core/server.c:552-625 | over every run a WebSocket client is sent exactly its controller's messages, a pong for each ping and the close, in order |
| `RelaySockets.SocketReaches` | src/core/server.c:552-678 | from the upgrade on, over every run: the client reads the first of those frames, each final, with its own opcode and data, and all of them when the connection finished, which is after its controller closed it |
| `WsPeer.FramesAreRead` | src/core/ws.c:74-93 | a client written from sections 5.2 and 5.3 of RFC 6455 alone reads back every frame the gateway prints, of any size |
| `WsPeer.ClientReads` | src/core/ws.c:74-93 | from the bytes of some frames, cut anywhere, it has read the first of them, and all once all are there |
| `WsPeer.ClientFrame` | src/core/server.c:598-625 | a masked frame under any key: text and binary messages go to the controller as such, a ping of at most 125 bytes is answered with its data, a pong is ignored, a close ends the connection |
| `RelayQueue.StepQueues` | src/core/server.c:415-423 | every event appends to a controller's queue exactly what it owes it: the REQUEST or WS_OPEN under the new id, the client's message, the notice that a WebSocket is gone |
| `RelayQueue.OwedUnder` | src/core/server.c:264-270 | each of those frames carries the id of a connection in flight on that controller |
| `RelayQueue.RunQueues` | src/core/server.c:415-423 | over every run a controller's queue is exactly that, in order |
| `RelayQueue.ControllerReads` | src/common/controller_sdk.c:249-260 | so the SDK reads exactly the requests, messages and notices it is owed, under any partial-send schedule |
| `RelayHistory.StepTells` | src/core/server.c:521-547 | one event changes a stream's record by exactly the chunk and the end it brings for that connection |
| `RelayHistory.RunTells` | src/core/server.c:480-547 | over every run a stream's chunks are exactly the non-empty CHUNK payloads that resolved to it, in order, and it ended iff an END did |
| `RelayHistory.StreamReaches` | src/core/server.c:480-547 | after a BEGIN, whatever follows, the client was sent a prefix of the head and its controller's framed chunks; if the connection finished, an END came and it was sent all |
| `RelayHistory.StreamDecodes` | src/core/https_client.c:290-307 | and then the de-chunk loop gives back exactly those chunks, concatenated |
| `EndToEnd.OwnId` | src/core/server.c:432-438 | while a request is open, its id and no other resolves to its connection |
| `EndToEnd.StoryRun` | src/core/server.c:494-547 | over every run, if the frames under a request's id are a reply in the grammar, the run conforms to what the relay expects of controllers |
| `EndToEnd.HandlerConforms` | src/common/controller_sdk.c:288-316 | the frames the SDK sends for an orderly handler make the run conform, and the stream's record holds a prefix of what the handler sent, all of it once ended |
| `EndToEnd.HandlerReaches` | src/core/server.c:480-547 | from handler to client, over every run: the decoded body is a prefix of the bytes the handler sent, and exactly those when the connection finished |
| `ByteStack.ServeAll` | src/common/controller_sdk.c:249-316 | the bytes of a session are those of its replies, one REQUEST after the other |
| `ByteStack.SessionIsRead` | src/core/server.c:728-762 | however much of a session's bytes has arrived, and however chopped, the frames dispatched are a prefix of its frames, and all of them once all has arrived |
| `ByteStack.FedIsServed` | src/core/server.c:728-762 | the frames under one id that the gateway reads off a session are the SDK's reply to that request, so far |
| `ByteStack.BytesReach` | src/core/server.c:480-547 | from the bytes the SDK writes to the body the client decodes, over every run, batching and partial send: a prefix of what the handler sent, exactly that when finished |
| `RelayOutbox.CloseOut` | src/core/server.c:297-313 | the notice that a WebSocket closed carries an id and a payload the SDK takes |
| `RelayOutbox.RunOut` | src/core/server.c:415-423 | over every run, all frames queued for controllers have 32-bit ids and payloads within the SDK's 256 KiB |
| `RelayOutbox.QueuedByRunArrives` | src/common/controller_sdk.c:249-260 | so what a run queued for a controller arrives in order under any partial-send schedule |
| `RelayOutbox.ReaderIsSized` | src/core/server.c:585-625 | a client's WebSocket message that is relayed is no larger than the buffer it was read into |
| `Gateway.Table.constructor` | src/core/server.c:260-263 | the arrays after initialisation stand for the start state |
| `Gateway.Table.Resolve` | src/core/server.c:432-438 | resolves an id as the state machine does, with generations kept modulo 2^32 |
| `Gateway.Table.FreeSlot` | src/core/server.c:271-275 | pushes the slot and bumps its 32-bit generation: the arrays stand for the released state |
| `Gateway.Table.ConnClose` | src/core/server.c:297-313 | equals closing in the state machine, the WebSocket notice to the controller included |
| `Gateway.Table.Flush` | src/core/server.c:385-412 | the send loop equals the state machine's flush, whatever the socket takes |
| `Gateway.Table.StreamPush` | src/core/server.c:480-492 | equals the state machine's push |
| `Gateway.Table.OnFrame` | src/core/server.c:749-757 | the dispatch on the frame kind and every handler equal the state machine's step |
| `Gateway.Table.Allocate` | src/core/server.c:264-270 | pops the free stack and enters the connection: equals allocation in the state machine |
| `Gateway.Table.AllocateAndFree` | src/core/server.c:783-786 | a slot popped and pushed back has only its generation moved |
| `Gateway.Table.ForwardRequest` | src/core/server.c:770-793 | equals forwarding in the state machine, on every refusal too |
| `Gateway.Table.UpgradeRequest` | src/core/server.c:633-678 | equals the upgrade in the state machine |
| `Gateway.Table.OnWsAction` | src/core/server.c:605-625 | equals the state machine on a decoded client frame |
| `Gateway.Table.ControllerDied` | src/core/server.c:680-713 | one pass over the slots equals the state machine's sweep |
| `Gateway.Table.NewClient` | src/core/server.c:285-295 | a new connection enters the table in its initial state |
| `Gateway.Table.NewController` | src/core/server.c:1661-1673 | a controller enters with nothing queued for it |
| `Gateway.Table.OnEvent` | src/core/server.c:2436-2466 | every poll event, dispatched by what it is on, equals the state machine's step |
| `Gateway.Operate` | src/core/server.c:2429-2467 | over any run of events the arrays and tables end up as the state machine's run, so all that is proved of runs holds of them |
| `DrainBuffer.Buffer.Reserve` | src/core/server.c:249-257 | doubles until the need fits and keeps the live bytes; fails iff it must grow and there is no memory |
| `DrainBuffer.Buffer.Push` | src/core/server.c:480-490 | compacts, grows and appends: the unsent bytes are the old ones and the data, or unchanged, refused iff they would exceed 4 MiB or the buffer must grow and cannot |
| `DrainBuffer.Buffer.Drained` | src/core/server.c:388-395 | the send loop moves a prefix of the unsent bytes to the wire and resets a drained buffer |
| `DrainBuffer.Writable` | src/core/server.c:385-401 | on the array buffer, what is left and whether the connection stays is what the relay's state machine says |
| `DrainBuffer.StreamPush` | src/core/server.c:467-492 | push, arm and drain on the array buffer end as the relay's state machine says |
| `Socket.SendLoop` | src/core/server.c:402-409 | over any sequence of partial sends, interruptions and failures: what went out and what is left make up the buffer, in order |
| `Socket.TakenIs` | src/core/server.c:402-409 | the loop goes on through positive and interrupted sends and ends, with their sum, where the socket has taken everything, would block, or fails |
| `Incremental.SplitInvariance` | src/core/server.c:743-761 | a reader whose verdicts are final yields the items and the verdict of the whole stream for every split of it |
| `Incremental.ReadBack` | src/common/wire.c:83-97 | items printed one after the other are read back in order, whatever follows |
| `Incremental.TakeAll` | src/core/server.c:743-761 | the dispatch loop takes exactly the items the stream starts with and keeps the rest |
| `Framing.ReadersAreFinal` | src/common/wire.c:83-97 | once either reader has a frame or an error, more bytes do not change it |
| `Framing.FramesAreRead` | src/common/wire.c:54-97 | a written header and payload read back as the frame, in both readers (the SDK's up to 256 KiB) |
| `Framing.HeaderBytes` | src/common/wire.c:54-66 | the sixteen bytes of a header: NTC1, version 2, the kind, two zeros, id and length big-endian |
| `Framing.VersionsRead` | src/common/wire.c:68-81 | a frame is read at versions 2 and 3 and at no other |
| `Framing.GatherIs` | src/core/server.c:729-742 | bytes in any pieces and then would-block are all buffered, exactly if the buffer stays within its limit; end of file or an error ends the connection |
| `Framing.ShortStreamsSurvive` | src/core/server.c:729-742 | a stream that fits the buffer keeps the connection alive however it is chopped |
| `Framing.DispatchIgnoresBatching` | src/core/server.c:728-762 | however a controller's bytes are chopped into recv batches within 4 MiB, the frames dispatched are those of the whole stream |
| `Framing.CtrlReader.OnReadable` | src/core/server.c:728-762 | one readable event refines the reader, teardown on end of file, overflow and error included |
| `Framing.CtrlWriter.Queue` | src/core/server.c:415-423 | the buffer holds the printed frames not yet sent, with the new one last; without room for it nothing is queued |
| `Framing.CtrlWriter.OnWritable` | src/core/server.c:715-727 | sends a prefix of the buffer and keeps the rest; the connection is dead iff the socket broke |
| `Framing.QueuedFramesArrive` | src/common/controller_sdk.c:249-260 | under any partial-send schedule the SDK has read a prefix of the queued frames, and exactly those once the buffer has drained |
| `Framing.Inbox.ReadFull` | src/common/controller_sdk.c:50-61 | reads exactly n bytes across segments, or fails exactly when fewer come |
| `Framing.Inbox.Next` | src/common/controller_sdk.c:249-260 | header then payload gives the frame the whole stream starts with, or stops where it has none |
| `Framing.Inbox.Serve` | src/common/controller_sdk.c:249-260 | the serve loop sees every frame of the stream, however it is segmented |
| `Wire.RequestRoundTrip` | src/common/wire.c:100-151 | decoding inverts encoding for every encodable request, whatever follows |
| `Wire.RequestReencode` | src/common/wire.c:124-151 | any accepted payload re-encodes to exactly the bytes consumed |
| `Wire.RequestLength` | src/common/wire.c:100-122 | the encoded length is the size formula |
| `Wire.RequestLayout` | src/common/wire.c:100-122 | the fields of a request payload in their order |
| `Wire.BigEndian32` | src/common/wire.c:6-15 | numbers are big-endian |
| `Wire.ResponseRoundTrip` | src/common/wire.c:155-172 | response payloads decode to what was encoded, whatever follows |
| `Wire.ResponseCompatibility` | src/common/wire.c:155-194 | plain and extended responses decode under each other's decoder |
| `Wire.StreamPayloadsRoundTrip` | src/common/wire.c:197-241 | BEGIN, CHUNK and WS_MSG payloads decode to what was encoded |
| `WireIo.EncodeRequest` | src/common/wire.c:100-122 | returns the size formula iff the fields are short and it fits, writes exactly the encoding, and nothing past cap |
| `WireIo.KeptIs` | src/common/wire.c:100-122 | of a request the first 64 headers and 8 parameters are carried, and everything else |
| `WireIo.DecodeRequest` | src/common/wire.c:124-151 | though it reads on after an error, agrees with the strict reader on every payload |
| `Ws.DecodePrefix` | src/core/ws.c:38-72 | a decoded frame or an error does not change with more bytes |
| `Ws.EncodeRoundTrip` | src/core/ws.c:74-93 | a server frame decodes to its payload in all three length forms |
| `Ws.MaskedRoundTrip` | src/core/ws.c:38-93 | encoded and masked under any key, a frame decodes to its payload |
| `Ws.UnmaskInPlace` | src/core/ws.c:66-67 | exactly the payload bytes are xored with the key, in place |
| `Ws.DecodeInPlace` | src/core/ws.c:38-72 | decodes as the frame format says; without a complete frame the buffer is unchanged, and nothing outside the frame ever changes |
| `Ws.EncodeInto` | src/core/ws.c:74-93 | fails iff the frame does not fit, writes exactly the frame otherwise |
| `Ws.RelayIgnoresBatching` | src/core/server.c:585-630 | for every recv split that does not fill the 64 KiB buffer the relay acts on the same messages and ends at the same frame |
| `Ws.WsReader.OnReadable` | src/core/server.c:585-630 | the loop that unmasks inside the receive buffer refines the reader: each byte is unmasked once |
| `Chunked.HexRoundTrip` | src/core/server.c:529-530 | the printed size line reads back as the size |
| `Chunked.AnyCase` | src/core/https_client.c:296 | sizes are read in either case |
| `Chunked.ChunkedRoundTrip` | src/core/https_client.c:290-307 | de-chunking the encoding of any non-empty chunks gives their concatenation, or refuses iff it does not fit |
| `Chunked.StrictlyChunked` | src/core/server.c:526-545 | a strict reader of section 7.1 of RFC 9112 takes what the gateway streams, and gives back the chunks and what follows |
| `Chunked.ExtensionsAreIgnored` | src/core/https_client.c:293-304 | a chunk of another server is taken whatever follows the size on its line, bare line feeds included |
| `Chunked.DechunkCut` | src/core/https_client.c:290-307 | cut anywhere, the encoding de-chunks to exactly the chunks whose data has arrived, never to part of one; refused iff they do not fit below cap |
| `Chunked.ArrivedIs` | src/core/https_client.c:290-307 | which chunks those are: the most whose framed bytes, less the last CRLF, are within the cut |
| `Chunked.Extract` | src/core/https_client.c:290-307 | the cursor-and-copy loop computes the de-chunked body, NUL-terminated and within cap |
| `SdkStream.ReplyGrammar` | src/common/controller_sdk.c:288-316 | a REQUEST gets one RESPONSE or one BEGIN CHUNK* END under its id, no chunk empty, iff the handler did not end a stream it had not begun |
| `SdkStream.EndBeforeBegin` | src/common/controller_sdk.c:135-139 | a handler that only calls end: an END and then a RESPONSE, outside the grammar |
| `SdkStream.StreamedData` | src/common/controller_sdk.c:102-133 | the chunks carry exactly the bytes the accepted calls sent, in order |
| `SdkStream.BeginSays` | src/common/controller_sdk.c:85-100 | a stream opens once, iff its type fits the buffer, and BEGIN then carries the status, the type and the mode that was asked for |
| `SdkStream.WriteSays` | src/common/controller_sdk.c:102-118 | a write goes out as one chunk with exactly its data iff the stream is open and the data is neither empty nor too long |
| `SdkStream.WritesAreSent` | src/common/controller_sdk.c:102-118 | a handler that opens a stream and writes has sent the concatenation of what it wrote |
| `SdkStream.EventsAreRead` | src/common/controller_sdk.c:120-133 | an event is read back from the stream, with its type and data, iff neither has a line feed |
| `SdkStream.TwoLinesAreLost` | src/common/controller_sdk.c:120-133 | an event whose data is two lines is not read back |
| `SdkStream.OneShotSays` | src/common/controller_sdk.c:300-312 | in place of a stream that was not begun: 400, 500 or an empty 204 |
| `SdkStream.AtomicGrammar` | src/common/controller_sdk.c:318-341 | an atomic handler yields one RESPONSE carrying the answer iff its content type fits 16 bits |
| `SdkStream.AnswerIs` | src/common/controller_sdk.c:318-330 | 400 for what does not decode, 500 for a handler that fails, and otherwise its response |
| `SdkStream.Stream.Perform` | src/common/controller_sdk.c:83-139 | each call changes the flags and emits the frame as the stream's rules say |
| `SdkStream.Serve` | src/common/controller_sdk.c:288-316 | the bytes on the socket are those of the reply's frames |
| `Http.Stable` | src/common/http_request.c:52-134 | once the end of the head is there, verdict, consumed and all fields depend only on the bytes up to it |
| `Http.LengthIsExact` | src/common/http_request.c:114-128 | the length is the exact decimal value shared by all Content-Length fields, and absent iff there is none |
| `Http.DecisionsStand` | src/core/server.c:1337-1361 | a decision taken once the head is complete is the decision on any longer buffer |
| `Http.DispatchIff` | src/core/server.c:1337-1361 | a request is dispatched iff it parses, its body is within the limit, and head and body are here |
| `Http.OtherwiseIff` | src/core/server.c:1337-1361 | and otherwise exactly when it waits, closes, or is a 400, 413 or 431 |
| `Http.TokenChars` | src/common/http_request.c:33-43 | the token characters are the visible ones that are not delimiters |
| `Http.LabelsIgnoreCase` | src/common/http_request.c:21-31 | field names are compared without regard to case |
| `Http.ReadLength` | src/common/http_request.c:115-123 | the digit loop computes the value, or fails on a non-digit or 64-bit overflow |
| `Http.ParseRequest` | src/common/http_request.c:52-134 | the scanning loops compute the parse that the grammar lemmas are about |
| `HttpGrammar.AcceptsExactly` | src/common/http_request.c:52-134 | the parser accepts exactly the printed forms of well-formed requests, and returns that request |
| `HttpGrammar.PathQueryJoins` | src/common/http_request.c:85-93 | path and query make up the target, cut at its first question mark |
| `HttpGrammar.TrimIs` | src/common/slice.c:29-38 | trimming removes exactly the blanks at both ends |
| `Http.Blanks` | src/common/slice.c:29-31 | the blanks that trimming removes |
| `HttpArrival.SplitInvariant` | src/core/server.c:1337-1361 | a request dispatched whole is decided alike for every split of it iff its head less a byte is within 32 KiB |
| `HttpArrival.EverySplit` | src/core/server.c:1337-1361 | within that limit every decision, rejections included, is that on the whole stream |
| `HttpArrival.DispatchedWithBody` | src/core/server.c:1337-1361 | however a well-formed request and its body are split: nothing is done before the last byte of the body is here, and then it is dispatched with its body in the buffer |
| `HttpArrival.LongHeadRejected` | src/common/http_request.c:56-60 | beyond it, the head cut before its last byte is a 400 |
| `HttpArrival.LongDispatched` | src/core/server.c:1337-1361 | a family of long requests, within the 64 KiB buffer, that are dispatched when they arrive at once |
| `HttpArrival.LongCutRejected` | src/core/server.c:1347-1348 | the same requests, cut before their last byte, get a 400 |
| `Multipart.ParseBody` | src/common/controller_sdk.c:191-232 | the cursor loop computes the parts between separators that the round trip is about |
| `MultipartRoundTrip.RoundTrip` | src/common/controller_sdk.c:182-232 | parsing the printed body gives the first max parts back iff the separator is not in their data with the CRLF before it |
| `MultipartRoundTrip.SepOnlyInData` | src/common/controller_sdk.c:194-199 | the separator cannot overlap itself: before the next boundary it occurs only inside the data |
| `MultipartRoundTrip.Preamble` | src/common/controller_sdk.c:199-201 | what comes before the first boundary is skipped |
| `MultipartRoundTrip.SpacesSkipped` | src/common/controller_sdk.c:218-223 | any spaces may stand before a type |
| `MultipartRoundTrip.BoundaryAtStart` | src/common/controller_sdk.c:191-232 | data that starts with the boundary is lost though it does not contain the separator |
| `Sha256.PadLeast` | src/common/crypto.c:65-73 | the padding loop adds the fewest zeros that leave room for the length (section 5.1.1 of FIPS 180-4) |
| `Sha256.PaddedIs` | src/common/crypto.c:65-73 | the padded message: message, 0x80, zeros, bit length big-endian, a whole number of blocks |
| `Sha256.DigestIs` | src/common/crypto.c:74-79 | the digest spells the words big-endian |
| `Sha256.InitialWords` | src/common/crypto.c:22-23 | the initial words are the fractional parts of the square roots of the first eight primes |
| `Sha256.HmacIs` | src/common/crypto.c:86-100 | the HMAC of a key is the outer hash over the inner one, with the pads of RFC 2104 |
| `Sha256.Ctx.Update` | src/common/crypto.c:54-63 | the context stands for the message so far plus the new bytes |
| `Sha256.Ctx.Final` | src/common/crypto.c:65-80 | the digest is the fold of the block function over the padded message |
| `Sha256.HashPieces` | src/common/crypto.c:54-84 | however a message is cut into updates, the digest is that of the whole |
| `Sha256.HmacSha256` | src/common/crypto.c:86-100 | section 2 of RFC 2104 for every key length |
| `Base64Url.EncodeBits` | src/common/crypto.c:105-121 | ceil(4n/3) letters whose bits are the message's and fewer than six zeros |
| `Base64Url.LettersAre` | src/common/crypto.c:103 | the 64 letters in their order |
| `Base64Url.RoundTrip` | src/common/crypto.c:105-147 | the encoded text decodes to the message and to nothing else |
| `Base64Url.Canonical` | src/common/crypto.c:132-147 | an accepted text is what its decoding encodes to iff it has no lone last letter and its dropped bits are zero |
| `Base64Url.EncodeInto` | src/common/crypto.c:105-121 | succeeds iff the text is shorter than cap; nothing past cap is written |
| `Base64Url.Decode` | src/common/crypto.c:123-147 | the 32-bit accumulator loop decodes every text, refused iff a letter is foreign or cap too small |
| `JsonRoundTrip.RoundTrip` | src/common/json.c:67-162 | parse(emit(v)) = v for byte strings, integers below 10^15, at most 64 members and depth 32 |
| `JsonRoundTrip.ParsedFits` | src/common/json.c:67-155 | every value the parser returns is within those limits, numbers apart |
| `JsonRoundTrip.Reparse` | src/common/json.c:157-162 | printing and parsing again what was parsed from any text changes nothing |
| `JsonGrammar.AcceptsExactly` | src/common/json.c:67-162 | the parser accepts exactly the texts of the grammar of RFC 8259 as it reads it (blanks, words, numbers, strings, at most 32 levels), and returns the value they spell, with the first 64 members of a container |
| `JsonGrammar.CharsIff` | src/common/json.c:25-65 | the strings it reads are exactly those made of characters, letters after a backslash and four-digit escapes in either case |
| `JsonGrammar.PieceIff` | src/common/json.c:30-62 | what each of those stands for |
| `JsonGrammar.Utf8IsRead` | src/common/json.c:55-57 | an escape gives the one encoding of its code point that a UTF-8 reader reads, the shortest |
| `Json.WholeNumbers` | src/common/json.c:207-256 | integers below 10^15 are printed as such |
| `Decimals.IntegerSpells` | src/common/json.c:207-256 | and the printed digits spell them |
| `JsonIo.Parser.ParseString` | src/common/json.c:25-65 | the loop over escapes reads the string, and never writes more bytes than it has consumed |
| `JsonIo.Parser.ParseValue` | src/common/json.c:67-155 | the recursive parser with its sticky error computes the value and restores the depth |
| `JsonIo.ParseText` | src/common/json.c:157-162 | the stateful parser computes the parse the round trip is about |
| `JsonIo.EscapeInto` | src/common/json.c:180-205 | writes the escaped text at an offset, or stops exactly when it does not fit |
| `JsonIo.Emit` | src/common/json.c:207-263 | succeeds iff the text is shorter than cap, writes exactly it and a NUL, and nothing past cap |
| `Bucket.TokensInRange` | src/core/middleware.c:112-122 | over every run the tokens stay in [0, burst] |
| `Bucket.WindowBound` | src/core/middleware.c:112-122 | in every window of every run at most burst + rate * window / 1000 calls are admitted |
| `Bucket.SpacedCallsPass` | src/core/middleware.c:112-122 | with burst at least 1, calls at least 1000/rate ms apart are all admitted |
| `Bucket.Limiter.Admit` | src/core/middleware.c:112-122 | the in-place update is the step those runs are made of |
| `Arena.Arena.Alloc` | src/common/arena.c:43-70 | each result is aligned, inside one block and disjoint from all earlier ones; NULL iff the size overflows or no block can be had |
| `Arena.Sizes` | src/common/arena.c:43-60 | every allocation has a byte of its own, and a new block holds the one it is made for wherever it lies |
| `Arena.RoomIff` | src/common/arena.c:48-53 | a new block is asked for iff no aligned address in the current one has room |
| `Arena.Arena.Grow` | src/common/arena.c:55-62 | the new block is the last of the list, so none is lost |
| `Arena.Arena.Bump` | src/common/arena.c:48-51 | the current block's next aligned bytes are handed out |
| `Arena.Arena.Reset` | src/common/arena.c:78-89 | frees every block after the first exactly once; nothing is used |
| `Arena.Arena.Used` | src/common/arena.c:104-109 | the sum of the offsets along the list |
| `Router.SplitSegments` | src/common/router.c:60-76 | the index loop computes the segments, or none when there are more than 16 |
| `Router.Table.Match` | src/common/router.c:112-147 | the least route whose segments and method fit, with its parameters; 405 iff some pattern fits but no such method; else 404 |
| `Router.OneOutcome` | src/common/router.c:112-147 | exactly one outcome meets that specification |
| `Router.ParamsArrive` | src/common/router.c:34-39 | a handler that asks for a parameter by name gets what the path has at the first place the pattern names it, within the first eight |
| `Router.SegPatternMatch` | src/core/server.c:1059-1073 | the two-cursor loop computes the schema matcher's answer |
| `Router.SegmentsAgree` | src/core/server.c:1068-1069 | the two segment tests agree on a pair iff it is not one of two named shapes |
| `Router.MatchersBySegment` | src/core/server.c:1059-1073 | on canonical texts both matchers are their segment tests at every place |
| `Router.CanonicalMatch` | src/core/server.c:1059-1073 | texts that the schema matcher matches are both canonical (one slash before each segment, none after) or both not |
| `Router.MatchersOnText` | src/core/server.c:1059-1073 | for a canonical pattern and any text of a path: the router tests its segments only, the schema matcher takes it only if it is canonical |
| `Router.MatchersAgree` | src/core/server.c:1059-1073 | where the segment tests agree, the schema matcher takes exactly the canonical ones of the paths that are routed |
| `Router.AgreeUpToSlashes` | src/core/server.c:1059-1073 | so it does for a pattern without a bare colon and any path without a colon-led segment |
| `Router.AgreeWithoutColons` | src/common/router.c:60-76 | any pattern text: the matchers agree on all canonical paths without a colon-led segment iff it is canonical and has no bare colon, or neither |
| `Router.AgreeOnCanonical` | src/common/router.c:60-76 | any pattern text: they agree on all canonical paths iff it is canonical and every segment is a named parameter |
| `Router.NeverAgreesEverywhere` | src/common/router.c:60-76 | no pattern is matched alike on all paths: some routed path has a slash too many for the schema matcher |
| `Router.SafePaths` | src/core/server.c:1090-1092 | any path text: all canonical patterns without a bare colon are matched alike on it iff it has over 16 segments, or is canonical and no segment of it loses a colon |
| `Router.BareColonDiffers` | src/core/server.c:1068-1069 | pattern "/:" and path "/x": one matches, the other does not |
| `Router.ColonPathDiffers` | src/common/router.c:60-76 | pattern "/a" and path "/:a": one matches, the other does not |
| `Router.TrailingSlashDiffers` | src/core/server.c:1059-1073 | pattern "/a" and path "/a/": one matches, the other does not |
| `RoundRobin.PicksIfLive` | src/core/server.c:1583-1590 | a replica is picked iff one of the first n is live |
| `RoundRobin.PickIsNext` | src/core/server.c:1583-1590 | the pick is the first live replica from the cursor on, going round |
| `RoundRobin.Fair` | src/core/server.c:1583-1590 | from any cursor, as many picks as there are live replicas choose each exactly once |
| `RoundRobin.Service.Choose` | src/core/server.c:1583-1590 | the scan picks as specified and moves the cursor past the pick |

## Left out

- TLS connections (the `tls` branches of on_writable, conn_flush and stream_kick), RSA, ECDSA, SHA-1, gzip and SQLite.
- Sockets, the poller, allocation and clocks are inputs: batches, partial-send counts, success flags and times. One
  poll event is one step; the event array of src/core/server.c:2436-2467 is not modelled.
- The text of atomic responses and the head of a stream are inputs of a step, so header merging and status texts are
  not modelled; a failed head is an input too, and the record then closed does not show the `streaming` flag that the
  source had already set.
- Connections are records in a table by number, not heap objects; freeing their memory is removal from the table.
- ctrl_queue cannot fail when it relays WebSocket messages or a close notice, nor can the frame buffers there; on
  REQUEST and WS_OPEN its failure is modelled.
- service-rm and service-scale-down (src/core/server.c:2029-2053), restart and backoff bookkeeping, and the log and
  metrics calls.
- Controllers that break RESPONSE | BEGIN CHUNK* END: `RelayStreams` and `RelayHistory` assume the grammar, which
  `EndToEnd` discharges for the SDK's own replies; `RelayTheorems` assumes nothing about controllers.
- The block function of SHA-256 is a parameter; lengths are below 2^61 bytes, or the bit count wraps as in the source.
- strtod and %g are parameters of the JSON model that agree on integers; other numbers are carried but nothing is
  promised of their text. Containers over 64 members are truncated by the parser, so round trips stop there.
- Text protocols are modelled on `string`, one character a byte, and slices are values: aliasing of the receive buffer
  by parsed slices is not modelled, nor is the arena that JSON and HTTP values live in.
- C return values are not truncated to `int`: buffers over 2 GiB are out of scope.
- WebSocket fragmentation is not reassembled, as in the source; the handshake's key check is an ordinary local answer.
- SDK sends and allocations all succeed in `SdkStream`; `ok` and `failed` stand for what decoding and the handler
  return.
- Token-bucket arithmetic is over reals and times are positive and do not decrease.
- Bucket.SpacedCallsPass: asks for burst at least 1, without which no call is ever admitted.
- MCP, OAuth, JWT, sessions, the dashboard, OpenAPI, the CLI and the other language SDKs.
