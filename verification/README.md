# Deproxy engine: a verified model

Deproxy is the HTTP/1 and HTTP/2 client and server of this test framework. It
has its own message parser and printer, its own read loops and send queues, a
poll thread with a shared socket registry, and comparators that decide whether
what came through the proxy is what was expected. A test is only as good as
these parts. This project models them in Dafny and proves what they promise.

Where a promise does not hold of the code as it is, the project keeps the code,
gives an input that breaks the promise, and proves the exact condition under
which it holds.

## How the model is built

| files | part of the engine |
|---|---|
| `Text`, `Octets`, `Sequences` | Python string operations: lines, `strip`, `split`, `int(x, base)`, `hex`; bytes; concatenation |
| `Message` | what the parser computes, as functions on the text that is left |
| `Parser` | the parser as it runs: a moving cursor, loops, objects filled in on the way |
| `Grammar` | well-formed messages as syntax trees, with the text and the meaning of each |
| `HeaderSections`, `ChunkedBodies`, `SelfDelimiting` | the parser on whole messages and on messages cut short |
| `PrintParse` | printing and parsing back |
| `ChunkedCodec` | the chunked encoder and decoder, and re-chunking |
| `ReadLoop`, `Server`, `ServerRuns`, `Client` | read loops, response batching and the write loop over whole runs |
| `H2Send`, `H2Drain`, `Pacing`, `Enqueue` | the client's send queue: conservation, draining, pacing, lock-free queueing |
| `PollLock`, `Services` | the poll thread, its lock and the socket registry; the objects behind them |
| `Headers`, `Translate`, `HeaderSearch`, `FinRecogniser` | comparison, HTTP/2 to HTTP/1 translation, header search, FIN recogniser |

`Grammar` is the independent reference for the parser: it says what a message
is and what it means without mentioning the parser. Code that updates objects
or loops is written that way (classes, methods with invariants) and each such
method is proved to compute a specification function; the theorems are about
those functions. Code that several threads share (`PollLock`, `Enqueue`) and the
client's clock (`Pacing`) are state machines whose atomic steps may be
interleaved in any way. `Services` has the objects behind `PollLock`: each of
their methods is proved to be a path of its steps, so that its theorems hold of
the objects.

Results of parsing are `Ok(value, rest)`, `Incomplete` (IncompleteMessage),
`ParseErr` (any other ParseError) and `Crash` (any other exception).

`dafny verify dfyconfig.toml` checks the whole project.

## What turned out to be false

- A request cut short is not always reported incomplete. A leading empty line,
  a folded trailer and `Expect: 100-continue` on a sized body each break it;
  `RequestCutIff` and `ResponseCutIff` prove that nothing else does. The last
  two make what is received depend on how it is segmented, and nothing else does
  (`ServerSegmentationIff`, `ClientPairingIff`).
- Printing and parsing back loses trailers and white space around values
  (`RequestRoundTripIff`), and a joined cookie loses its last space when the
  last cookie is empty (`TranslationRoundTripIff`).
- The chunk reader never completes on payloads with a line feed in them or a
  carriage return at their end, which are legal (`PayloadsReadableIff`,
  `ChunkedRequestReadIff`, `ChunkedResponseReadIff`); a request with one such
  payload stalls its connection for good (`ServerStalls`).
- The codec does not undo itself on chunks with CRLF in them
  (`CodecLosesCrlf`, `CodecRoundTripIff`).
- A negative window is not waited out: the data chosen for it does not fit and
  the connection raises (`PreparedIff`). An empty entry blocks the send queue
  forever (`DrainsIff`).
- Two enqueuing threads can mix up bodies and lose requests (`PairingIff`,
  `CountingIff`).
- Setting the RST socket option without an open socket loses the polling lock
  for good (`LockLostIff`, `LockCanBeLost`, `LostForever`).
- A received `Expect` header hides one missing header (`ScanAccepts`,
  `MissingHeaderAccepted`).
- A failed stop procedure does not show in a service's state if the last one
  succeeds (`ForceStop`).
- The header search can miss a header that is there, or raise before it gets
  there (`SearchMisses`, `SearchRaises`, `SearchIff`).

## Model

| member | source | states |
|---|---|---|
| `HeaderSections.SectionRead` | framework/deproxy/deproxy_message.py:132-161 | every well-formed header or trailer section, folded lines and HTTP/2 pseudo-headers included, is read to its headers and exactly its own text is consumed, whatever follows |
| `HeaderSections.FieldsCut` | framework/deproxy/deproxy_message.py:132-161 | for every text at all: if its header section ends beyond a cut, the part before the cut is incomplete, never accepted and never refused |
| `HeaderSections.TrailerCut` | framework/deproxy/deproxy_message.py:132-161 | the same for trailer sections, which may end with the text, if no line is a continuation line |
| `HeaderSections.CutAfterFoldAccepted` | framework/deproxy/deproxy_message.py:138-160 | a trailer section cut right after its first continuation line is accepted |
| `HeaderSections.CutAfterFoldIsPrefix` | framework/deproxy/deproxy_message.py:138-160 | that cut section is a proper prefix of the whole one |
| `ChunkedBodies.ChunksRead` | framework/deproxy/deproxy_message.py:380-404 | all chunks are read and kept as they are, and reading stops behind the last size line |
| `ChunkedBodies.ChunksCut` | framework/deproxy/deproxy_message.py:380-404 | chunks cut short are incomplete, or end in a last size line with nothing after it |
| `ChunkedBodies.PayloadsReadableIff` | framework/deproxy/deproxy_message.py:380-404 | for every list of chunks with right sizes: it is read if and only if no payload has a line feed in it or a carriage return at its end; a single other one makes the complete list look cut short |
| `ChunkedBodies.ChunkedBodyReadIff` | framework/deproxy/deproxy_message.py:380-419 | a legal chunked body, with any trailers and whatever follows, is read exactly if all payloads are readable and is otherwise incomplete for good |
| `ChunkedBodies.UnreadableCut` | framework/deproxy/deproxy_message.py:380-404 | no part of chunks with an unreadable payload gets past a size line with nothing after it |
| `ChunkedBodies.ChunkedBodyRead` | framework/deproxy/deproxy_message.py:380-419 | every well-formed chunked body, with or without trailers, is read exactly, whatever follows |
| `ChunkedBodies.ChunkedBodyCut` | framework/deproxy/deproxy_message.py:380-419 | a chunked body whose trailer is not folded is incomplete wherever it is cut |
| `ChunkedBodies.FoldedTrailerCut` | framework/deproxy/deproxy_message.py:405-419 | a body with a folded trailer is accepted when cut right after a continuation line |
| `SelfDelimiting.ContentRead` | framework/deproxy/deproxy_message.py:341-348 | header section and body together are read exactly, whatever follows |
| `SelfDelimiting.RequestRead` | framework/deproxy/deproxy_message.py:564-598 | every well-formed request, request lines without a version and empty lines before it included, is parsed to what it means and exactly its own text is consumed, whatever follows |
| `SelfDelimiting.RequestCutIff` | framework/deproxy/deproxy_message.py:564-598 | every non-empty proper prefix of a well-formed request is incomplete if and only if there is no empty line before it, no folded trailer, and no `Expect: 100-continue` on a sized body that is not empty |
| `SelfDelimiting.EmptyLineRefused` | framework/deproxy/deproxy_message.py:564-581 | an empty line alone, which may begin a request, is refused instead of incomplete |
| `SelfDelimiting.RequestPartRefused` | framework/deproxy/deproxy_message.py:564-598 | whatever empty lines there are before it, no part of a request is accepted or makes the parser fail if no part of its body is taken for the whole: it is incomplete or refused |
| `SelfDelimiting.ChunkedRequestReadIff` | framework/deproxy/deproxy_message.py:564-598 | a legal chunked request, whatever follows it, is parsed to what it means and exactly its own text is consumed if all its payloads are readable, and is otherwise incomplete for good |
| `SelfDelimiting.UnreadableExists` | framework/deproxy/deproxy_message.py:380-404 | a legal chunked request with one chunk, a line feed, is one that is never complete |
| `SelfDelimiting.UnreadableRefused` | framework/deproxy/deproxy_message.py:564-598 | no part of a legal chunked request with an unreadable payload, nor of it and any text behind it, is ever accepted or makes the parser fail |
| `SelfDelimiting.ChunkedResponseReadIff` | framework/deproxy/deproxy_message.py:695-736 | the same for responses: parsed to what they mean, or incomplete for good |
| `SelfDelimiting.UnsafeCut` | framework/deproxy/deproxy_message.py:434-444 | whenever the body is not safe to cut, some part of the message is accepted as the whole |
| `SelfDelimiting.ResponseRead` | framework/deproxy/deproxy_message.py:695-736 | every well-formed response is parsed, under the method it answers, to what it means; HEAD, 1xx, 204 and 304 carry no body; exactly its own text is consumed |
| `SelfDelimiting.ResponseCutIff` | framework/deproxy/deproxy_message.py:695-736 | the exact responses of which every non-empty proper prefix is incomplete |
| `Parser.StringIO.ReadLine` | framework/deproxy/deproxy_message.py:135-158 | the cursor moves past the next line, which is returned with its line end |
| `Parser.FromStream` | framework/deproxy/deproxy_message.py:132-161 | the header loop over a moving cursor computes `ParseFields` and stops where it does, exceptions included |
| `Parser.HttpMessage.ReadChunk` | framework/deproxy/deproxy_message.py:383-404 | one turn of the chunk loop reads a size line and a chunk or raises, and adds what it read to the body |
| `Parser.HttpMessage.ReadChunked` | framework/deproxy/deproxy_message.py:380-419 | the loop with its look-ahead and seek back computes `ReadChunkedBody`, fills in body and trailer and leaves the cursor at the end |
| `Parser.HttpMessage.ReadSized` | framework/deproxy/deproxy_message.py:434-444 | the sized body is what the cursor passes, and every error case is the function's |
| `Parser.HttpMessage.ParseHeadersAndBody` | framework/deproxy/deproxy_message.py:341-374 | headers are parsed first and choose how the body is framed |
| `Parser.HttpMessage.ParseRequestText` | framework/deproxy/deproxy_message.py:333-348 | the request object filled in is the one `ParseRequest` gives, and `original_length` is exactly the text consumed, never zero |
| `Parser.HttpMessage.ParseResponseText` | framework/deproxy/deproxy_message.py:695-736 | the same for responses, under the recorded method |
| `PrintParse.PrintedHeadersRead` | framework/deproxy/deproxy_client.py:939-941 | a printed header list, `:`-names included, is read back with its values stripped, whatever follows |
| `PrintParse.HeadersRoundTripIff` | framework/deproxy/deproxy_message.py:303-304 | header lists survive printing and parsing if and only if no value has white space around it |
| `PrintParse.RequestRoundTripIff` | framework/deproxy/deproxy_message.py:462-465 | a printed request parses back to itself with nothing left over if and only if it has no trailer and no padded value; what it parses to otherwise is given exactly |
| `PrintParse.PrintedRequestRead` | framework/deproxy/deproxy_message.py:583-584 | a printed request without trailers may be followed by anything |
| `ChunkedCodec.EncodeChunkedText` | framework/helpers/util.py:132-140 | the encoding loop gives each piece with its hexadecimal length, in order, and the last chunk |
| `ChunkedCodec.DecodeChunkedText` | framework/helpers/util.py:143-152 | the decoding loop, which reads every size before it uses any, computes `DecodeChunked`, the missing return value and ValueError included |
| `ChunkedCodec.ParseSizes` | framework/helpers/util.py:147 | all sizes are read first: it succeeds if and only if every one is a number |
| `ChunkedCodec.PiecesJoin` | framework/helpers/util.py:136-137 | the pieces put together are the data |
| `ChunkedCodec.CodecRoundTrip` | framework/helpers/util.py:132-152 | decoding undoes encoding, for every chunk size, whenever no piece contains CRLF |
| `ChunkedCodec.CodecRoundTripIff` | framework/helpers/util.py:132-152 | decoding undoes encoding if and only if no piece contains CRLF, for every text and every chunk size |
| `ChunkedCodec.AlignedWeight` | framework/helpers/util.py:143-152 | what the decoder takes for chunks weighs less than the data, counting a CRLF for more than any size line has digits, as soon as one piece contains CRLF |
| `ChunkedCodec.CodecRoundTripSingle` | framework/helpers/util.py:132-152 | with chunk size one it does so for every text |
| `ChunkedCodec.CodecLosesCrlf` | framework/helpers/util.py:143-152 | a chunk that is just CRLF makes the decoder raise |
| `ChunkedCodec.EncodedBodyRead` | framework/deproxy/deproxy_message.py:380-415 | the body reader accepts the encoding followed by anything, stops exactly at its end and keeps it unchanged, if every piece is readable |
| `ChunkedCodec.EncodedPlainData` | framework/deproxy/deproxy_message.py:380-415 | data without line ends goes through encoder, decoder and body reader for every chunk size |
| `ChunkedCodec.RechunkCanonical` | framework/deproxy/deproxy_message.py:421-432 | every chunking of the same CRLF-free data converts to the data itself for HTTP/2 and to one single-chunk text otherwise |
| `ChunkedCodec.SingleChunkIsEncoded` | framework/deproxy/deproxy_message.py:421-432 | that text and CRLF are `encode_chunked(d, max(1, len(d)))`, and decode to the data |
| `ChunkedCodec.SingleChunkStable` | framework/deproxy/deproxy_message.py:421-432 | converting again changes nothing |
| `ReadLoop.PeelFramed` | framework/deproxy/deproxy_server.py:159-191 | the messages taken out of a buffer are exactly those whole in it, and what is left is exactly the rest; what follows stays in the buffer if no part of it is ever taken for a message |
| `ReadLoop.SegmentationInvariance` | framework/deproxy/deproxy_server.py:149-191 | for any parser and any framed stream, what has been taken after any number of segments depends on the bytes received and not on how they were cut; behind it may follow anything of which no part is ever taken, and then nothing more is |
| `ReadLoop.SegmentationIff` | framework/deproxy/deproxy_server.py:149-191 | for messages that are read whatever follows them, every segmentation gives exactly those wholly received if and only if no part of any is taken for a message |
| `Server.ServerConnection.constructor` | framework/deproxy/deproxy_server.py:53-55 | a new connection, with the first response already queued if it is to be sent before any request |
| `Server.ServerConnection.AddResponseToSendingBuffer` | framework/deproxy/deproxy_server.py:59-64 | one more response is pending and counted |
| `Server.ServerConnection.FlushPending` | framework/deproxy/deproxy_server.py:101-104 | all pending responses become one batch at the end of the queue with their count |
| `Server.ServerConnection.CloseConnection` | framework/deproxy/deproxy_server.py:86-99 | the stop mark is queued once and the loops are told to end |
| `Server.ServerConnection.ReceiveRequest` | framework/deproxy/deproxy_server.py:387-404 | the request is recorded and the response in force returned, or a hang asked for |
| `Server.ServerConnection.HandleRequest` | framework/deproxy/deproxy_server.py:164-189 | what one parsed request leads to, under every drop, hang and pipelining option |
| `Server.ServerConnection.ServeOne` | framework/deproxy/deproxy_server.py:159-191 | one turn of the inner loop takes one request off the front of the buffer, or ends the loop in the state `Serve` gives; the buffer shrinks |
| `Server.ServerConnection.OnData` | framework/deproxy/deproxy_server.py:149-191 | a segment extends the buffer and the inner loop works it through until nothing more can be parsed |
| `Server.ServerConnection.SendSegmented` | framework/deproxy/deproxy_server.py:106-127 | the segments put together are the data, none is empty or too long, and all but the last are full |
| `Server.ServerConnection.WriteTurn` | framework/deproxy/deproxy_server.py:193-212 | one item leaves the queue, its bytes go out whole, its responses are counted and the connection closes at the keep-alive limit |
| `ServerRuns.ServePeels` | framework/deproxy/deproxy_server.py:159-191 | under every setting the inner loop records what can be taken out of the buffer, in order: all of it, or up to the first request after which the server stops |
| `ServerRuns.RequestPartIff` | framework/deproxy/deproxy_message.py:333-348 | no part of a well-formed request is taken for one if and only if its body is safe to cut |
| `ServerRuns.ServerSegmentation` | framework/deproxy/deproxy_server.py:149-191 | under every setting, however a stream of well-formed requests with bodies safe to cut is segmented and whatever is written meanwhile: while the connection reads, and so while it is open, the requests recorded are exactly those wholly received and the buffer is exactly the part of the next one; when it has stopped they are the first of those, and without a keep-alive limit exactly those up to the one dropped or left hanging |
| `ServerRuns.ServerStalls` | framework/deproxy/deproxy_server.py:149-191 | under every setting and in every run: a legal chunked request with an unreadable payload, after any well-formed requests, is never recorded, nor is anything that follows it; while the connection reads, all of that stays in the buffer |
| `ServerRuns.ServerSegmentationIff` | framework/deproxy/deproxy_server.py:149-191 | for a server that does not stop, exactly the well-formed requests wholly received are recorded in every run if and only if their bodies are safe to cut |
| `ServerRuns.StepKeeps` | framework/deproxy/deproxy_server.py:149-212 | every turn of the read and write loops keeps written, queued and pending responses equal to those produced, in order |
| `ServerRuns.ResponsePipeline` | framework/deproxy/deproxy_server.py:193-212 | over every run: the bytes written are the first responses in request order; queued and pending account for all others; batches hold at most max(1, pipelined); fewer than keep_alive + max(1, pipelined) responses are ever written |
| `Client.DeproxyClient.ParseNext` | framework/deproxy/deproxy_client.py:532-538 | the front of the buffer is parsed under the method recorded for the next response |
| `Client.DeproxyClient.HandleRead` | framework/deproxy/deproxy_client.py:528-546 | one read delivers exactly the responses that can be taken out of the buffer and raises exactly when the parser raises something else than incomplete |
| `Client.ClientPairing` | framework/deproxy/deproxy_client.py:528-546 | for every segmentation of pipelined responses that are safe to cut the i-th one delivered is the i-th one sent, parsed under the i-th method, as soon as it is whole, and no read raises |
| `Client.ClientPairingIff` | framework/deproxy/deproxy_client.py:528-546 | every segmentation delivers exactly the responses wholly received if and only if all are safe to cut |
| `H2Send.PreparedIff` | framework/deproxy/deproxy_client.py:967-991 | the connection raises if and only if the window is negative; no frame is made if and only if there is no room; a frame that is made is the next part of the body, as long as body, frame limit and window allow, and has END_STREAM if and only if it is the last part and that was asked for (sections 4.2 and 6.9.1 of RFC 9113) |
| `H2Send.SendDataFits` | framework/deproxy/deproxy_client.py:967-991 | one call makes at most one DATA frame, for the current entry, within the frame limit and the window at that call, and only adds to the wire |
| `H2Send.RaisedKeeps` | framework/deproxy/deproxy_client.py:901-933 | a call that raises has sent the entry's bytes and pulled the index back, and neither made a frame nor touched a body |
| `H2Send.SendDataKeeps` | framework/deproxy/deproxy_client.py:901-933 | one call of `_send_data`, with the index bumped and pulled back, keeps conservation and order |
| `H2Send.SendConservation` | framework/deproxy/deproxy_client.py:901-933 | over every run with any partial sends, segment sizes, windows (negative ones included) and entries queued on the way: the payloads of each entry followed by what is left are its body, each fits the frame limit and the window of the call that made it, END_STREAM is on the last frame alone when asked for, and no byte of an entry is on the wire before all of the one before it |
| `H2Send.DeproxyClientH2.constructor` | framework/deproxy/deproxy_client.py:1059-1071 | the queue starts empty |
| `H2Send.DeproxyClientH2.AddToRequestBuffers` | framework/deproxy/deproxy_client.py:993-1042 | each kind of request adds one entry to both lists |
| `H2Send.DeproxyClientH2.BaseSendData` | framework/deproxy/deproxy_client.py:175-192 | a prefix of the current buffer, within the segment size, goes out; the index moves on when nothing of it is left |
| `H2Send.DeproxyClientH2.SendDataFrames` | framework/deproxy/deproxy_client.py:901-933 | the in-place edits of both lists and the index are those of `SendData`, and it raises exactly when `Raises` says |
| `H2Drain.SendDataProgress` | framework/deproxy/deproxy_client.py:901-933 | each call that gets something through lowers (entries left, body left plus one, buffer left) lexicographically, and no other call raises it |
| `H2Drain.DrainsIff` | framework/deproxy/deproxy_client.py:901-933 | from every queue that any sends and requests lead to: as long as calls with an open socket and window keep coming, it empties if and only if no entry ever added is both empty and bodiless |
| `H2Drain.RunKeepsBlanks` | framework/deproxy/deproxy_client.py:901-933 | over every run, an entry added empty and bodiless still waits and is so, and no other that waits is |
| `H2Drain.DrainedWire` | framework/deproxy/deproxy_client.py:901-933 | once it is empty, every entry is on the wire whole and in order, its body wholly framed |
| `Pacing.StepKeeps` | framework/deproxy/deproxy_client.py:163-187 | every step of client and clock keeps the pacing invariant |
| `Pacing.PacingBound` | framework/deproxy/deproxy_client.py:271-274 | over every run with a clock that does not go back, at most rps * (t - start) + 1 entries are complete at time t, and consecutive sends are at least the segment gap apart |
| `Enqueue.IndexSafety` | framework/deproxy/deproxy_client.py:998-1042 | with any number of enqueuers and any interleaving, an index the poller has checked is within both lists and the counter never runs ahead of them |
| `Enqueue.PairingIff` | framework/deproxy/deproxy_client.py:998-1042 | bytes and body records belong to the same request at every index, over all runs, if and only if there is at most one enqueuer |
| `Enqueue.CountingIff` | framework/deproxy/deproxy_client.py:303-307 | every queued request comes to be counted, over all runs, if and only if there is at most one enqueuer |
| `Enqueue.TwoMix` | framework/deproxy/deproxy_client.py:613-624 | an interleaving of any two enqueuers that mixes up their bodies |
| `Enqueue.TwoLose` | framework/deproxy/deproxy_client.py:303-307 | an interleaving of any two enqueuers that leaves a request uncounted |
| `PollLock.ClientKeeps` | framework/deproxy/deproxy_base.py:89-121 | every step of a client thread, exceptions included, keeps the lock and registry invariants |
| `PollLock.PollKeeps` | framework/deproxy/deproxy_manager.py:70-92 | every step of the poll thread keeps them, handlers that close their object, raise or both included |
| `PollLock.RegistrySafety` | framework/deproxy/asyncore.py:47-59 | in every interleaving: one thread at a time is inside a locked section, every registered key is an open descriptor and its object's `_fileno`, no object is registered twice, and each event goes to the object snapshotted under its descriptor or to nobody |
| `PollLock.MapChangesUnderLock` | framework/deproxy/deproxy_manager.py:104-123 | in a reachable state only the owner of the lock changes the registry |
| `PollLock.LockLostIff` | framework/deproxy/deproxy_base.py:55-59 | the lock is held with no one inside if and only if the RST option was set without an open socket; every other way out releases it, the poller's death included |
| `PollLock.LockCanBeLost` | framework/deproxy/deproxy_base.py:55-59 | three steps of one client that was never started lose it |
| `PollLock.LostForever` | framework/deproxy/deproxy_base.py:55-59 | a lost lock is never released and the registry never changes again |
| `Services.Stateful.AppendException` | framework/services/stateful.py:60-62 | the exception is kept at the end of the list and the state is error |
| `Services.Stateful.ForceStop` | framework/services/stateful.py:86-100 | every procedure is carried out and every exception kept in order; a failure was noted and the service is still not in error if and only if some procedure failed and the last one did not |
| `Services.FailuresIff` | framework/services/stateful.py:86-100 | exceptions are noted if and only if some procedure failed |
| `Services.Harness.constructor` | framework/deproxy/deproxy_manager.py:20-37 | manager, clients and map start in the initial state of the protocol |
| `Services.Harness.AcquireLock` | framework/deproxy/deproxy_base.py:113-116 | taking the free lock is the Acquire step |
| `Services.Harness.ReleaseLock` | framework/deproxy/deproxy_base.py:118-121 | releasing it is the Release step |
| `Services.Harness.SetSocket` | framework/deproxy/asyncore.py:47-54 | noting the descriptor and adding the object to the map is the Register step |
| `Services.Harness.DelChannel` | framework/deproxy/asyncore.py:56-59 | the object's key and no other leaves the map, whether it was there or not: `UnregisterObj` |
| `Services.Harness.StartClient` | framework/services/stateful.py:75-84 | `start` with `run_start` is a path of the protocol, wherever an exception is raised in it: only a stopped client starts, the lock is released in any case, an exception leaves the client half started |
| `Services.Harness.StopClient` | framework/services/stateful.py:102-109 | `stop` and `force_stop` with `__stop` are a path of the protocol, wherever an exception is raised, the clearing of statistics included: the lock is released in any case, and state and exceptions are those of `ForceStop` |
| `Services.Harness.SetRstOption` | framework/deproxy/deproxy_base.py:55-59 | setting the option is a path of the protocol; without an open socket it raises with the lock held |
| `Services.Harness.ReadWrite` | framework/deproxy/asyncore.py:189-216 | what a handler does to its object, closing, raising or both, is `Handle` |
| `Services.Harness.Poll` | framework/deproxy/deproxy_manager.py:70-92 | the steps of `_poll` are exactly `PollPath`: the snapshot, then the events in the order polled, the i-th with what the i-th handler does; all of those registered are handed out, unless the last one handed out goes to a handler that raises |
| `Services.Harness.DispatchOne` | framework/deproxy/deproxy_manager.py:88-92 | one event goes to the object found under its descriptor now, or to nobody; it raises if and only if there is one and its handler raises |
| `Services.Harness.SetState` | framework/deproxy/deproxy_manager.py:47-61 | an error is passed on to every client and server, any other state to no one |
| `Services.Harness.PollTurn` | framework/deproxy/deproxy_manager.py:104-123 | one turn of the poll thread is exactly `TurnPath`: the lock is taken, the poll is made, and the lock is released in any case; if a handler raises, the death is reported, the thread is dead and manager, clients and servers are in error |
| `Services.ObjectsSafe` | framework/deproxy/asyncore.py:47-59 | so the objects themselves are safe whenever the methods above have been used: registered keys are open descriptors and their objects' `_fileno`, no object is registered twice, every event went to the object snapshotted |
| `Headers.HeaderCollection.Add` | framework/deproxy/deproxy_message.py:88-94 | a header is added at the end |
| `Headers.HeaderCollection.SetItem` | framework/deproxy/deproxy_message.py:74-80 | the loop changes the first header of the name or adds one |
| `Headers.SetFirstKeepsOthers` | framework/deproxy/deproxy_message.py:74-80 | setting a name gives it the value first, keeps its further values and touches no other name |
| `Headers.HeaderCollection.DeleteAll` | framework/deproxy/deproxy_message.py:102-104 | all headers of the name are taken out |
| `Headers.WithoutKeepsOthers` | framework/deproxy/deproxy_message.py:102-104 | deleting a name takes all its values and touches no other name |
| `Headers.GetIsFirst` | framework/deproxy/deproxy_message.py:68-72 | looking a name up gives the first of all its values |
| `Headers.HeaderCollection.AsDictLower` | framework/deproxy/deproxy_message.py:163-167 | the loop builds the dictionary of lower-cased names |
| `Headers.DictHolds` | framework/deproxy/deproxy_message.py:163-167 | under each lower-cased name the dictionary has exactly its values in order |
| `Headers.ScanAccepts` | framework/deproxy/deproxy_message.py:287-298 | for all dictionaries: scanning the larger side alone passes if and only if the sides agree on every name but Expect, or a received Expect masks one missing name |
| `Headers.CompareIff` | framework/deproxy/deproxy_message.py:178-298 | for all collections, whatever the case of names, the order across names and the side of the operands: the comparison passes if and only if the Date, Age, Connection and Warning checks pass, and every other name but Expect has the same values in order or a received Expect masks one missing name |
| `Headers.HeaderCollection.CheckFour` | framework/deproxy/deproxy_message.py:199-283 | the four checks, each taking its header out of both dictionaries, are `CheckApart`, and leave the dictionaries without the names in `Apart`; Date only if each side has one |
| `Headers.HeaderCollection.CheckOthers` | framework/deproxy/deproxy_message.py:287-298 | the loop over the larger side's names is `OtherHeadersMatch` |
| `Headers.MissingHeaderAccepted` | framework/deproxy/deproxy_message.py:287-298 | a missing header is accepted when Expect was received alone |
| `Headers.HeaderCollection.Equals` | framework/deproxy/deproxy_message.py:178-197 | the comparison is `Compare`, misuse and ValueErrors included |
| `Translate.CreateRequest` | framework/deproxy/deproxy_auto_parser.py:314-355 | the loop and the edits of the header collection print `Translated`, and fail without `:path` |
| `Translate.CollectGathers` | framework/deproxy/deproxy_auto_parser.py:327-340 | what the loop has gathered, by name and in order |
| `Translate.HeadersAreRight` | framework/deproxy/deproxy_auto_parser.py:342-353 | one Host, the first of `:authority` and `host`; one Cookie joined in order; the length of the body; all other headers in order (sections 8.2.3 and 8.3.1 of RFC 9113) |
| `Translate.JoinedIsOneLine` | framework/deproxy/deproxy_auto_parser.py:347-349 | cookies always join to a printable value, which has no space at its end if and only if the last of several is not empty |
| `Translate.TranslationRoundTripIff` | framework/deproxy/deproxy_auto_parser.py:314-355 | the produced text has the method, path, body and headers of the list, and parses back to all of it if and only if the last of several cookies is not empty; otherwise only the space after the last semicolon is lost |
| `HeaderSearch.CheckHeaderPresence` | framework/deproxy/deproxy_client.py:1073-1105 | the search over start positions computes `Search`, IndexError included |
| `HeaderSearch.ScanAt` | framework/deproxy/deproxy_client.py:1080-1103 | the loop over one start position, with `MatchPart` inside it, computes `Scan` |
| `HeaderSearch.MatchPart` | framework/deproxy/deproxy_client.py:1093-1097 | the inner loop compares the bytes behind a frame header and stops at the first that differs or is not there |
| `HeaderSearch.SearchSound` | framework/deproxy/deproxy_client.py:1073-1105 | if the search succeeds, the header's bytes lie in the buffer in order with nothing between them but 9-byte blocks of type CONTINUATION, each followed by as many of them as it declares or are left (sections 4.1 and 6.10 of RFC 9113) |
| `HeaderSearch.ScanIff` | framework/deproxy/deproxy_client.py:1080-1103 | from one start it succeeds if and only if they lie so with blocks only where the byte at hand differs |
| `HeaderSearch.SearchIff` | framework/deproxy/deproxy_client.py:1073-1105 | the search succeeds if and only if the header lies so from some start and no start before that one runs off the buffer; it raises if and only if some start runs off the buffer (at its end, less than four bytes after a differing one, or within a skipped block) and none before that one finds the header |
| `HeaderSearch.SearchRaises` | framework/deproxy/deproxy_client.py:1049-1057 | a header that is in the buffer in one piece and is not found, because an earlier start makes the search read past the end |
| `HeaderSearch.LaidIsKept` | framework/deproxy/deproxy_client.py:1049-1057 | leaving the skipped blocks out gives the header back, byte for byte |
| `HeaderSearch.SearchMisses` | framework/deproxy/deproxy_client.py:1073-1105 | a header that lies in the buffer and is not found |
| `FinRecogniser.CheckResults` | framework/helpers/analyzer.py:89-123 | the loop over the packets computes `Walk`, for every packet list |
| `FinRecogniser.RecognisedIff` | framework/helpers/analyzer.py:89-123 | it returns true if and only if there is no RST and the first closer FIN, the first peer ACK beyond it, the first peer FIN from that packet on and the first closer ACK beyond that follow each other, the last at the end |
| `FinRecogniser.RecognisedSound` | framework/helpers/analyzer.py:79-123 | then the four steps are there in order, the second and third perhaps in one packet, with no RST anywhere |

## Left out

- Text beyond ASCII: lengths are counted in characters and taken off bytes; the model has one length for both. Unicode lower-casing, digits and white space, and Python's limit on the digits of an integer, are not modelled.
- TLS, sockets, `select.poll` and asyncio: they are events that say how much was sent, received or reported ready.
- The h2 and hpack libraries: header bytes are opaque, and of the connection only the outbound window, the frame limit and the refusal of data that exceeds them are kept. Other output of h2 that `_send_data` also picks up is not modelled.
- HTTP/2 event handling in the client's `_handle_read`.
- Responses that end with the connection, responses to CONNECT and the printed reason phrase; `body_parsing=False`.
- Several connections of one server share its request list; the model has one connection. What a closing writer still delivers is not modelled.
- `finish_all_deproxy`, which changes the registry without the lock after the poll thread has ended.
- The parts of the auto-parser that prepare expected responses, other than re-chunking.
- The reading of dates: the comparison takes it as a function that gives a time or fails.
- The rest of the framework: remote nodes, other clients and servers, configuration, logging, test glue and load generators.
- HeaderSearch.SearchSound: does not say that a header that lies in the buffer is found, because that is false (`SearchMisses`, `SearchRaises`); `SearchIff` is exact.
- Translate.TranslationRoundTripIff: is stated for header lists without transfer-encoding, and with content-length only beside a body, as the framework sends them.
- Services.Harness.Poll: what a handler does with the data it reads is in the modules on reading and sending; here it leaves its object alone, closes it, raises, or both.
