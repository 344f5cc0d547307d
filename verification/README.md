# A model of the myrpc framework

This project models the parts of the myrpc framework that hold state or arithmetic, and proves what
they promise. Each module follows one component of the repository.

- `ColferSchema`, `ColferMessages`, `ColferStream`: the Colfer wire format, the generated message types
  with their byte loops, and the rpc codec whose sliding, growing read buffer parses a stream that
  arrives in arbitrary pieces. The central result is refinement: a run of `Codec.Decode` over any chunks
  does what one `Unmarshal` of the whole unread stream does, so that every sequence of frames that one
  codec writes is read back by another (`Converse`).
- `Session`: a client connection as a state machine of atomic steps. It holds the two mutexes, the
  pending map, the input goroutine, both directions of the wire, the server's concurrent calls, `Close`
  and termination. Invariants over every run give at-most-once and exactly-once completion, and that a
  reply belongs to its own call.
- `ServerContext`, `ServeLoop`: the server's staged request pipeline on pooled contexts, and the serving
  loops with the context pool and the wait group as a state machine whose turns interleave stage by
  stage on full contexts. In every run each request is answered as a reference (`React`) says that knows
  no context.
- `ClientModes`: Failover, Failtry, Failfast, Broadcast and Forking, with the direct selector; the fan-out
  modes run over the shared completion channel and over any runs of the session machine.
- `JsonRpcServer`, `JsonRpcBatch`: the JSON-RPC 2.0 server codec, and what its batch method asks for and
  gets from the inner server.
- `JsonRpcPipe`, `JsonRpcWaiting`: a batch from its entries to its replies, as a state machine: the producer,
  the inner server's read loop, the holder of its `sending` mutex and the collector, over a pipe without
  a buffer. Every run is finite; the exact condition under which it can end in a deadlock is proved from
  both sides.
- `Gracenet`: handing listeners over to a restarted process, over any number of restarts.
- `MemoryLog`, `Names`: the bounded log list and the two name converters.

Code that updates state in place is modelled by classes and methods with loops, each tied by its
contract to a function of its inputs or of the old state; the lemmas speak about those functions. The
server, the wire and everything concurrent appear as state machines whose runs are sequences of steps.

Modelling decisions that hold throughout:

- Go's `int` has 64 bits. Widths are explicit where values wrap: varint accumulators are cut to 32 or
  64 bits, and int32 fields are converted as Go converts them.
- Or-ing bits into a place that is still clear is written as addition.
- The size limit is its default, 16 MiB.
- Clocks, deadlines and the network are left out; what they can cause (a failed read, a failed write,
  a failed dial) is a step or an argument.

Some properties that one would expect do not hold of the code. The code is modelled as it is, and each
has members that show a failing input and say exactly when the property holds.

- The result of a call that was signalled can still change: `input` rewrites the text of its error object in
  place, and a call whose response body could not be read shares that object
  (`Session.FinishedCallCanChange`). `Session.FinishedCallChangesIff` says which step does this to which
  call, and `Session.OutcomeIsSettled` that success, failure and reply never change.
- A batch can wait for ever, in two ways. It can count on a message that never comes: an entry that calls
  the batch method by name, with an id and with nothing but notifications, is answered by silence
  (`JsonRpcWaiting.SilenceStarves`). And it can deadlock on the pipe: the read loop of the inner server
  answers a request by itself if there is no method for it, and cannot while a message that nobody has a
  token for is being written; the next entry is then never read
  (`JsonRpcWaiting.NotificationsCanBlock`). Because a JSON decoder returns a value before its newline has
  been read, this can even happen to entries that have nothing to do with batches, if a response ends at
  the edge of the decoder's buffer (`JsonRpcWaiting.OrdinaryCanBlock`). `JsonRpcWaiting.WaitsIff` is the
  exact condition, `JsonRpcWaiting.NeverWaits` a simple case in which it fails, and
  `JsonRpcWaiting.BatchReplies` says what a batch that returns has collected.
- A JSON-RPC notification is answered if and only if it calls the internal batch method by name with an
  array that holds something other than a valid notification (`JsonRpcBatch.NotificationAnsweredIff`,
  `JsonRpcBatch.NotificationCanBeAnswered`).
- An error returned by a service reaches the client if and only if its text is not empty; otherwise the
  client takes the reply as good (`ServerContext.ServiceErrorReachesClient`).
- The comments in client/client.go promise that Failfast returns an error immediately and that Failtry
  uses the current invoker again. `Call` has no branch for Failfast and reports success without making a
  call. Failtry calls an invoker that `HandleFailed` has just closed, so it succeeds if and only if it gets
  an invoker and the first call on it succeeds (`ClientModes.Call`, `ClientModes.DirectSelector.Failtry`).
  Similarly, Broadcast and Forking report success when there is no invoker at all
  (`ClientModes.BroadCast`, `ClientModes.Forking`).
- Unmarshalling into a Colfer value that already holds data yields the message if and only if the
  receiver holds nothing in the fields the message leaves out (`ColferSchema.OverlayIsMessage`). The
  codec clears its header before each read for this reason.

`dafny verify dfyconfig.toml` checks the whole project.

## Model

| member | source | states |
|---|---|---|
| ColferSchema.UnmarshalExtends | codec/colfer/colfer.go:152-249 | For every message schema and receiver: success, an unknown header or the size error on some bytes is the same verdict, with the same fields, on every extension of them; a length or error index lies inside the data |
| ColferSchema.UnmarshalEofPrefix | codec/colfer/colfer.go:153-163 | EOF is never reported above the size limit, and EOF on data means EOF on every prefix of it |
| ColferSchema.UnmarshalRetry | codec/colfer/colfer.go:152-249 | Parsing again into a receiver that an EOF attempt has partly filled equals parsing into the untouched receiver |
| ColferSchema.RoundTrip | codec/colfer/colfer.go:44-249 | Unmarshalling an encoding followed by any bytes consumes exactly the encoding and overlays its non-zero fields on whatever the receiver held |
| ColferSchema.OverlayIsMessage | codec/colfer/rpc.go:50-71 | The receiver equals the message if and only if it was empty in the fields the message leaves out; a cleared receiver always does |
| ColferSchema.ProperPrefixIsEof | codec/colfer/colfer.go:161-243 | Every proper prefix of an encoding gives EOF, never a verdict |
| ColferSchema.FixedExactlyWhenNotLonger | codec/colfer/colfer.go:47-62 | The fixed form is used exactly where the varint would take eight bytes or more, so a 64-bit field never exceeds nine bytes |
| ColferSchema.Fixed8Back | codec/colfer/colfer.go:49-50 | The eight-byte big-endian form determines the number |
| ColferSchema.ReadVarBack | codec/colfer/colfer.go:168-181 | The varint reader inverts the varint writer at any place in the data, within the nine-byte cap |
| ColferSchema.I32Back | codec/colfer/colfer_codec_test.go:195-237 | Sign and magnitude of every int32, the least one included, is read back as that number |
| ColferMessages.PutVarint | codec/colfer/colfer.go:55-61 | The loop writes exactly the varint and leaves every other byte of the buffer alone |
| ColferMessages.PutU64 | codec/colfer/colfer.go:47-62 | A 64-bit field: exactly its encoding is written in place, and nothing when it is zero |
| ColferMessages.PutText | codec/colfer/colfer.go:64-77 | A text field: tag, length and bytes in place, and nothing when it is empty |
| ColferMessages.PutI32 | codec/colfer/colfer_codec_test.go:90-106 | An int32 field in sign and magnitude, written in place |
| ColferMessages.Magnitude | codec/colfer/colfer_codec_test.go:91-96 | Complementing and adding one in 32 bits gives the absolute value, for the least int32 too |
| ColferMessages.SizeVarint | codec/colfer/colfer.go:108-111 | The sizing loop counts the bytes the writing loop writes |
| ColferMessages.GetVarint | codec/colfer/colfer.go:168-180 | The shift-and-or loop computes the unbounded varint cut to its variable's width, or reports that the data ended |
| ColferSchema.ReadVarBound | codec/colfer/colfer.go:175-178 | With a cap on the continuation bytes the value stays below 256 times 128 to that cap; with eight that is 64 bits, so nothing is cut |
| ColferSchema.UnmarshalWellTyped | codec/colfer/colfer.go:152-249 | Whatever bytes are parsed, and however that ends, the receiver's fields stay within their types |
| ColferSchema.VarintBytes | codec/colfer/colfer.go:55-60 | Byte i of a varint holds bits 7i to 7i+6 of the number, and its top bit is set exactly if another byte follows |
| ColferSchema.NumberOnWire | codec/colfer/colfer.go:47-62 | A 64-bit field byte for byte: nothing, tag and varint, or from 2^49 on tag plus 0x80 and eight bytes with the most significant first |
| ColferSchema.OthersOnWire | codec/colfer/colfer.go:64-77 | A text byte for byte, an int32 as tag (plus 0x80 if negative) and magnitude, and the size limit as a number |
| ColferSchema.MessageOnWire | codec/colfer/colfer.go:44-97 | The header is fields 0, 1 and 2 in order and then 0x7f; the arguments are fields 0 and 1 and then 0x7f |
| ColferSchema.UnknownFirstByte | codec/colfer/colfer.go:245-247 | Data that begins with any byte but 0, 0x80, 1, 2 and 0x7f is an unknown header at index 0 |
| ColferSchema.TooBigIff | codec/colfer/colfer.go:153-159 | The size error is the verdict exactly on data above 16 MiB whose first 16 MiB are incomplete |
| ColferMessages.GetU64 | codec/colfer/colfer.go:167-195 | Reading a 64-bit field, in either form, agrees with the schema reader at every input |
| ColferMessages.GetText | codec/colfer/colfer.go:197-219 | Reading a text field agrees with the schema reader at every input, with the 32-bit length |
| ColferMessages.GetI32 | codec/colfer/colfer_codec_test.go:195-237 | Reading an int32 field agrees with the schema reader at every input, wrapped lengths included |
| ColferMessages.Header.MarshalLen | codec/colfer/colfer.go:101-136 | The exact size of the encoding, and the limit error exactly above the limit |
| ColferMessages.Header.MarshalTo | codec/colfer/colfer.go:44-97 | Writes exactly the encoding at the offset, returns its size, touches nothing else and never indexes past it |
| ColferMessages.Header.Scan | codec/colfer/colfer.go:161-248 | The parsing code below the size check leaves the fields and the verdict of the schema parser |
| ColferMessages.Header.Unmarshal | codec/colfer/colfer.go:152-249 | Same for the whole of `Unmarshal`, with the size limit; the header it leaves can be marshalled again |
| ColferMessages.Header.MarshalBinary | codec/colfer/colfer.go:140-148 | Returns exactly the encoding, or an error exactly above the limit |
| ColferMessages.Header.UnmarshalBinary | codec/colfer/colfer.go:253-262 | An encoding is accepted if and only if nothing follows it; otherwise the tail is reported at the encoding's length |
| ColferMessages.ColfArgs.MarshalLen | codec/colfer/colfer_codec_test.go:133-164 | The exact size of the encoding; it is never above 13, so the limit error cannot occur |
| ColferMessages.ColfArgs.MarshalTo | codec/colfer/colfer_codec_test.go:87-129 | Writes exactly the encoding at the offset and touches nothing else |
| ColferMessages.ColfArgs.Scan | codec/colfer/colfer_codec_test.go:189-286 | The parsing code below the size check leaves the fields and the verdict of the schema parser |
| ColferMessages.ColfArgs.Unmarshal | codec/colfer/colfer_codec_test.go:180-287 | Same for the whole of `Unmarshal`, with the size limit; the fields stay int32 values |
| ColferStream.MessageLawful | codec/colfer/rpc.go:11-16 | Every generated type meets the contract the stream reader needs: exact length, prefix-stable parse, harmless retry, no EOF above the limit |
| ColferStream.Conn.Read | codec/colfer/rpc.go:170 | A read into a non-empty slice delivers the next bytes of the stream in order, however they are cut up |
| ColferStream.Codec.constructor | codec/colfer/rpc.go:35-48 | A new codec has an empty 32 KiB buffer: everything unread is still in the connection |
| ColferStream.Codec.MakeRoom | codec/colfer/rpc.go:156-168 | Sliding or growing keeps the buffered bytes and makes room for a non-empty read, with at most five growths in the codec's life |
| ColferStream.Codec.Fill | codec/colfer/rpc.go:156-174 | One read moves bytes from the connection to the buffer: the unread stream is unchanged |
| ColferStream.Codec.BufferBound | codec/colfer/rpc.go:38 | The buffer never exceeds 32 MiB |
| ColferStream.Codec.Decode | codec/colfer/rpc.go:139-176 | For every lawful type and all chunks: success gives what one parse of the whole unread stream gives and consumes exactly that message; any error leaves the unread stream as it was; on a stream without read errors an I/O error occurs exactly when the whole stream ends inside a message |
| ColferStream.Codec.ReadHeader | codec/colfer/rpc.go:50-71 | The header at the front of the stream is returned and consumed exactly |
| ColferStream.Codec.FrontMessage | codec/colfer/rpc.go:141-146 | A lawful encoding at the front of a stream is what is parsed from it, whatever follows |
| ColferStream.Codec.ReadBody | codec/colfer/rpc.go:73-87 | For any receiver, what one parse of the unread stream gives, consumed exactly; into a cleared one the body at the front is returned; a target that is no Colfer type, nil included, is refused and nothing is consumed |
| ColferStream.Codec.Write | codec/colfer/rpc.go:89-137 | Succeeds exactly when both halves are within the limit, the body is a Colfer type and the connection takes all bytes; a refused frame sends nothing, a failing connection a prefix of header and body |
| ColferStream.ReadFrame | codec/colfer/rpc.go:50-87 | A header read and a body read return one frame as it was written and leave exactly the rest |
| ColferStream.ReadBack | codec/colfer/rpc.go:139-176 | For every list of frames on the stream and every way the bytes are cut up, successive reads return exactly those frames in order and leave what follows |
| ColferStream.WriteFrames | codec/colfer/rpc.go:120-137 | Writing frames one after the other sends exactly their bytes back to back, if and only if the connection takes them all |
| ColferStream.Converse | codec/colfer/rpc.go:120-176 | What one codec writes, delivered in any pieces, another codec reads: exactly the frames, in order |
| Session.RunKeepsInv | client/client_invoker.go:105-201 | In every run: each unfinished call has exactly one party that will complete it, every finished one none, sequence numbers map to their calls, requests on the wire carry their call's arguments |
| Session.SignalledAtMostOnce | client/client_invoker.go:105-201 | In every interleaving no call is signalled twice |
| Session.SignalledExactlyOnce | client/client_invoker.go:181-201 | Once its `send` has returned and `input` has ended, a call has been signalled exactly once and carries a result, although termination leaves `pending` as it is |
| Session.OwnReply | client/client_invoker.go:149-179 | A call that ends without error holds a reply the service computes from that call's own arguments, sent by the server for that call's own sequence number; so does a server error |
| Session.PendingEndsWith | client/client_invoker.go:181-198 | In every run a call pending when `input` ends gets: "connection is shut down" (type -1) if the read failed with "EOF" after `Close`; the same type and "unexpected EOF" without; the failing read's own error otherwise |
| Session.RefusedEndsWith | client/client_invoker.go:111-115 | In every run a call that never got a number ends with "connection is shut down", type -1 |
| Session.RefusesIff | client/client_invoker.go:110-120 | A `send` refuses exactly if the run has seen `Close` or the end of `input`, and registers otherwise |
| Session.TakenBackEndsWith | client/client_invoker.go:126-134 | A call taken back after a failed write ends with the error of that very call's write step |
| Session.AnsweredEndsWith | client/client_invoker.go:164-178 | A call whose response has come ends with the server's error, even if the body cannot be read; else with the reply, or with the error of reading it |
| Session.LateResponseIsIgnored | client/client_invoker.go:155-162 | A response to a call that was already completed, or that the failing `send` has taken back, finds nothing pending and changes no call |
| Session.FinishedCallChangesIff | client/client_invoker.go:173-190 | No step signals a finished call again; a step changes its result if and only if it is termination without `Close` after the failed read, with EOF, of that call's own error-free response, and then only the error's text |
| Session.FinishedCallCanChange | client/client_invoker.go:173-190 | A run in which the stream ends between header and body: the call is signalled with "EOF", and termination turns that into "unexpected EOF" |
| Session.HolderIsFailedRead | client/client_invoker.go:173-178 | In every run the call that shares the error object is the one whose body read failed on an error-free response |
| Session.OutcomeIsSettled | client/client_invoker.go:105-201 | Over every continuation of a run a finished call stays a success with its reply, or stays a failure |
| Session.TerminateKeepsCall | client/client_invoker.go:181-200 | Completing all pending calls without deleting them keeps the one-owner invariant of each call |
| Session.MidWriteIsReachable | client/client_invoker.go:122-126 | A run leads to the state in which a sender is inside the write while the input goroutine is about to stop |
| Session.WithoutReqMutex | client/client_invoker.go:182-198 | In that state, terminating without `reqMutex` would signal the call twice |
| Session.Invoker.Register | client/client_invoker.go:109-120 | The first section of `send` is the machine's refuse step when the connection is closing or shut down, and its register step otherwise |
| Session.Invoker.Remove | client/client_invoker.go:127-153 | Is the machine's abandon step in `send` and its take step in `input`; the call it finds was registered under that number, has not been signalled, and can be found by nobody else |
| Session.Invoker.Close | client/client_invoker.go:94-103 | Is the machine's close step, after which no call can be registered; only the first one succeeds |
| Session.Invoker.Terminate | client/client_invoker.go:181-200 | The end of `input` is the machine's terminate step: the error chosen by EOF and `closing`, rewritten in place for the call that shares it |
| Session.Invoker.FinishPending | client/client_invoker.go:195-198 | The loop over `pending`, in any order, completes each pending call exactly once and no other |
| ServerContext.ErrorSurvives | client/client_invoker.go:164-179 | Every result survives the wire: a fault arrives with its type and text, a value as a value, and neither is taken for the other |
| ServerContext.ClientSeesLastFailure | server/server_context.go:154-245 | Whatever stages fail, an answered client ends with the type and text of the last failing stage, a positive type; with none, it gets the service's reply |
| ServerContext.ServiceErrorReachesClient | server/server.go:498-522 | A service's error reaches the client if and only if its text is not empty |
| ServerContext.HeaderStages | server/server_context.go:131-178 | In terms of the server and the traffic alone: when nothing is answered, and which text fails with type 3 (parse), 5 (hook) and 4 (no service) |
| ServerContext.BodyStages | server/server_context.go:181-210 | Hook by hook with the view each one gets: types 6, 7 and 8 with their texts, and otherwise the delivered body for the service |
| ServerContext.ReadyIsDelivered | server/server.go:457-488 | A request that reaches its service carries the delivered body and the header's number and method, and its service is the one registered under the path the hooks left |
| ServerContext.WriteStages | server/server_context.go:223-245 | The server's hook, then the service's, may replace the result by an error of type 11; a failed write leaves an error of type 12 or nothing |
| ServerContext.EndToEnd | server/server.go:490-530 | With hooks that accept: one answer with the header's number and method, which says what the service under the parsed path did with the header's view and the delivered body; panic is type 9, an error type 10 |
| ServerContext.WireForm | server/server_context.go:236-238 | A fault goes out as one byte for its type and then its text, a value with an empty error; the client reads both back |
| ServerContext.ResolveIsRoute | server/server_context.go:154-178 | On a context with any old path and error type, routing ends with the reference's view, service, error and error type |
| ServerContext.BodyIsReadBody | server/server_context.go:181-210 | So do the body stages, with both hook chains in their two orders |
| ServerContext.InvokeIsCalled | server/server.go:490-506 | The service's turn reports the reference's result, panics and empty error texts included |
| ServerContext.SendIsWritten | server/server_context.go:213-245 | At most one response reaches the wire, and it is the reference's result with the request's own number and method |
| ServerContext.NextKeepsInv | server/server.go:392-427 | Every stage of a turn, on a context with whatever earlier requests left in it, keeps step with the reference |
| ServerContext.Context.Put | server/server.go:541-556 | What is reset, and that `path` and the error type are not |
| ServerContext.Context.ReadRequestHeader | server/server_context.go:122-179 | On any recycled context the outcome, error type and view are those of the reference, even if the codec skips zero header fields |
| ServerContext.Context.FindService | server/server_context.go:154-178 | From service method to service, as the stage function says |
| ServerContext.Context.ReadRequestBody | server/server_context.go:181-210 | Body stages with both hook chains in their two orders: the reference's outcome |
| ServerContext.Context.SendResponse | server/server_context.go:213-245 | At most one response reaches the wire, and it is the reference's result with the request's own number and method |
| ServerContext.Context.Serve | server/server.go:392-427 | One request on a recycled context is answered as the reference says, panics included, and the context is recycled again |
| ServeLoop.RunKeepsInv | server/server.go:392-427 | In every interleaving of stages: one owner per context, every turn's context and variables agree with the reference, pooled contexts are recycled, the wait group counts the active turns |
| ServeLoop.AnsweredAsReference | server/server.go:392-556 | In every run, with pooled contexts shared by concurrent requests, each finished turn has sent exactly the reference's responses to its own request |
| ServeLoop.WaitGroupCounts | server/server.go:398-424 | The wait group equals the turns counted and not done, is never negative, and at zero none is active |
| ServeLoop.AnsweredOnceWithOwnSeq | server/server.go:402-424 | A turn whose header was read gets exactly one `sendResponse`, carrying the number in that header; a turn without a header none |
| ServeLoop.OneOwner | server/server.go:532-556 | Two turns in progress never hold the same context, and a held context is not in the pool |
| ClientModes.Failover | client/client.go:203-250 | For every sequence of outcomes: at most MaxTry turns, each but the last retryable, an early stop only for a final outcome, the report of the last turn, and `HandleFailed` on exactly the failed invokers in order |
| ClientModes.FailoverIsHonest | client/client.go:203-250 | Success is reported exactly when the last turn, and then some turn, succeeded; an error of type -1 or above 0 is always the last turn, any other error or a failed select is the last only if tries are used up; without an invoker the report is type -2 |
| ClientModes.ServerFaultIsLast | client/client.go:216-218 | Whatever fault a server answers with, as the client reads it from the wire it ends the run and is what is reported |
| ClientModes.HandledInOrder | client/client.go:215 | `HandleFailed` gets exactly the invokers whose calls failed, in order |
| ClientModes.ClientErrors | common/error_type.go:26-70 | The types and texts of the errors the client makes up itself |
| ClientModes.DirectSelector.Select | client/selector/direct.go:30-37 | The cached invoker if there is one, otherwise exactly one dial |
| ClientModes.DirectSelector.CallOn | client/client_invoker.go:87-90 | A closed invoker refuses with the shutdown error and nothing is sent; on an open one the world decides |
| ClientModes.DirectSelector.HandleFailed | client/selector/direct.go:48-51 | Closes the invoker and empties the cache |
| ClientModes.DirectSelector.Turn | client/client.go:205-215 | One turn: a failed invoker is closed and forgotten, a good one is kept, and nothing else is closed |
| ClientModes.DirectSelector.Failover | client/client.go:203-220 | With this selector every retry uses an invoker dialled during the run and never used before, the closed invokers are exactly the failed ones, and success rests on a call that succeeded |
| ClientModes.DirectSelector.Failtry | client/client.go:222-250 | Succeeds if and only if an invoker is cached or one of the next MaxTry dials succeeds, and the first call on it does; otherwise the connect error of the last dial, the first call's error, or shutdown; a second call is made only after an error that is neither -1 nor positive |
| ClientModes.Call | client/client.go:191-251 | Success stands for a call that succeeded in Failover and Failtry; Failfast reports success without any dial or call |
| ClientModes.DoneChannel.Push | client/client_invoker.go:203-212 | A completion is kept, in order, as long as there are fewer completions than slots |
| ClientModes.DoneChannel.Receive | client/client.go:267-268 | However completions land between looks, they come out in order, none dropped, and a receiver waits for ever exactly when it has had them all |
| ClientModes.BroadCast | client/client.go:253-280 | For every order and timing of completions: success exactly when all calls have completed and none failed, failure exactly when a completed call failed; it waits only while a call is missing |
| ClientModes.Forking | client/client.go:282-312 | For every order and timing: success exactly when a completed call succeeded or there is no invoker, failure exactly when all calls have completed and failed |
| ClientModes.SessionsCompleteOnce | client/client_invoker.go:105-212 | Over any runs of the connections, the completions on the channel are distinct, and complete once every call is over |
| ClientModes.BroadCastCalls | client/client.go:253-280 | Over any runs of the connections: success only if every call holds a reply; with all calls over, it returns, with success exactly then |
| ClientModes.ForkingCalls | client/client.go:282-312 | Over any runs of the connections: success only if some call holds a reply or there is none; with all calls over, it returns, with success exactly then |
| JsonRpcServer.AcceptsExactlyRequestObjects | codec/jsonrpc2/server.go:75-121 | The decoder accepts exactly the request objects of section 4 of the JSON-RPC 2.0 Specification without further members, and keeps their method, params and id as they are |
| JsonRpcServer.MemberCount | codec/jsonrpc2/server.go:89-93 | The test by number of members rejects exactly the objects with an unknown member |
| JsonRpcServer.ServerCodec.ReadRequestHeader | codec/jsonrpc2/server.go:130-169 | A request gets the next number and its id is kept under it; a refused message gets its error notice; both are the machine's read step |
| JsonRpcServer.ServerCodec.WriteResponse | codec/jsonrpc2/server.go:197-245 | Fails exactly for a number that is not pending, removes exactly that entry and sends what the machine's write step sends |
| JsonRpcServer.RunKeepsInv | codec/jsonrpc2/server.go:130-245 | In every run: pending ids are those of their requests, every message sent answers its request, no request has two |
| JsonRpcServer.ReadSays | codec/jsonrpc2/server.go:130-168 | In every run: text that is no JSON and an object that is no request get their error for the id null, an array becomes a call of the batch method, a request is taken with its own method, params and id |
| JsonRpcServer.WriteSays | codec/jsonrpc2/server.go:197-245 | In every run a response to a pending request sends one message: its id with the reply, or with the error and no reply, or all items of a batch in order; nothing for a notification or an empty list |
| JsonRpcServer.EveryMessageSays | codec/jsonrpc2/server.go:197-245 | In every run each message that answers a request says what the response to that very request said |
| JsonRpcServer.PendingIsUnanswered | codec/jsonrpc2/server.go:161-209 | The domain of `pending` is exactly the numbers handed out and not yet answered |
| JsonRpcServer.OwnId | codec/jsonrpc2/server.go:202-244 | With responses in any order, every response carries the id of its own request |
| JsonRpcServer.AnsweredAtMostOnce | codec/jsonrpc2/server.go:202-209 | No request is answered twice |
| JsonRpcServer.NotificationsStaySilent | codec/jsonrpc2/server.go:220-223 | In every run a notification is answered only if it names the batch method |
| JsonRpcServer.IdsAreAccountedFor | codec/jsonrpc2/server.go:130-245 | In every run, batches included, the ids sent, the ids of requests answered with a list and the ids owed together are the ids received, with multiplicity |
| JsonRpcServer.IdsAreConserved | codec/jsonrpc2/server.go:130-245 | The ids sent and owed are the ids received if and only if no request with an id was answered with a list |
| JsonRpcBatch.TokensMatchIds | codec/jsonrpc2/batch.go:45-57 | One token per wanted reply; the awaited ones are exactly the ids the inner server owes, the others are null |
| JsonRpcBatch.Produce | codec/jsonrpc2/batch.go:45-57 | The pushing loop, as long as its writes are read, yields the tokens, never more than the channel has room for |
| JsonRpcBatch.Consume | codec/jsonrpc2/batch.go:29-43 | Given all tokens, the collecting loop takes one message per awaited token, an error where the stream has ended, and waits exactly when it has not |
| JsonRpcBatch.SendsIff | codec/jsonrpc2/server.go:197-245 | Whether a response that is handed back becomes a message depends on the request alone |
| JsonRpcBatch.SentForEach | codec/jsonrpc2/server.go:130-245 | In every run an answered request has one message if it is one that sends, and none otherwise |
| JsonRpcBatch.NotificationAnsweredIff | codec/jsonrpc2/server.go:211-223 | A notification is answered if and only if it names the batch method with an array that holds something other than a valid notification |
| JsonRpcBatch.NotificationAnsweredInRun | codec/jsonrpc2/server.go:130-245 | The same in every run, for the number of messages sent |
| JsonRpcBatch.NotificationCanBeAnswered | codec/jsonrpc2/server.go:211-217 | A run in which a request without an id is answered |
| JsonRpcBatch.InnerSendsAwaitedIff | codec/jsonrpc2/batch.go:46-56 | Every entry gets the one message the batch waits for, or none, if and only if each entry naming the batch method has an id exactly when its own entries want replies |
| JsonRpcBatch.OrdinaryIff | codec/jsonrpc2/server.go:197-245 | Which requests are answered by a single response with their id, or not at all if they have none |
| JsonRpcBatch.MessageCount | codec/jsonrpc2/server.go:130-245 | In every run without refusals, the messages sent and the messages owed number those its requests make |
| JsonRpcBatch.BatchCanWaitForEver | codec/jsonrpc2/batch.go:36-37 | A batch of one entry for which the inner codec answers everything and sends nothing, while a message is awaited |
| JsonRpcPipe.PlayKeepsInv | codec/jsonrpc2/batch.go:21-62 | In every run of the four parties: the inner codec has read exactly the entries written, tokens and messages balance, what was collected is the messages taken plus ready-made errors, the read loop is busy exactly while its own answer is outstanding |
| JsonRpcPipe.RunsAreFinite | codec/jsonrpc2/batch.go:21-62 | No run has more than ten moves an entry, so a batch that does not return is stuck |
| JsonRpcPipe.FromLoopForms | codec/jsonrpc2/server.go:180-192 | Which calls of the batch method the read loop answers itself: those with an empty array or an object as params |
| JsonRpcWaiting.WaitsIff | codec/jsonrpc2/batch.go:22-60 | Some run gets stuck if and only if fewer entries are answered by a message than have an id, or a request answered from the read loop can be kept from its answer because the entries up to it make more messages than there are tokens up to the entry being written |
| JsonRpcWaiting.StuckWanting | codec/jsonrpc2/batch.go:36-37 | A collector stuck for want of a message: everything is written and answered, and more ids were asked with than messages made |
| JsonRpcWaiting.StuckWriting | codec/jsonrpc2/batch.go:53 | A producer stuck in a write: the read loop, the mutex and the tokens are as the condition says |
| JsonRpcWaiting.CanBlock | codec/jsonrpc2/batch.go:22-53 | Whenever that condition holds at an entry there is a run in which the producer gets stuck |
| JsonRpcWaiting.StarvingNeverFinishes | codec/jsonrpc2/batch.go:29-43 | With fewer messages than ids the batch returns in no run |
| JsonRpcWaiting.BatchReplies | codec/jsonrpc2/batch.go:21-62 | A batch that returns has one reply for each invalid entry and each valid one with an id: messages in the order they came, and ready-made errors; if all entries are ordinary the replies carry exactly the ids asked with |
| JsonRpcWaiting.NeverWaits | codec/jsonrpc2/batch.go:46-56 | If messages are taken with their newlines and every entry answered by a message has an id, the producer never gets stuck; if also every id is answered by a message, nothing does |
| JsonRpcWaiting.NotificationsCanBlock | codec/jsonrpc2/batch.go:46-53 | Three notifications that ask for nothing and of which the third is never read |
| JsonRpcWaiting.OrdinaryCanBlock | codec/jsonrpc2/batch.go:37-53 | A call with an id and two without, none of the batch method: stuck if a response's newline may stay in the pipe |
| JsonRpcWaiting.SilenceStarves | codec/jsonrpc2/batch.go:36-37 | A run in which the batch waits for an entry that is answered by silence |
| JsonRpcBatch.BatchSilentIff | codec/jsonrpc2/server.go:186-218 | Nothing is sent if and only if the batch is a non-empty list of valid notifications; an empty batch is an invalid request; otherwise all replies go out in one list |
| Gracenet.SameAddrIffSameKey | gracenet/net.go:212-231 | The address comparison is equality of a canonical form, hence an equivalence |
| Gracenet.WildcardForms | gracenet/net.go:222-230 | "[::]", "0.0.0.0" and no host before the same rest are one address; apart from that only equal texts in the same network are |
| Gracenet.OtherNetwork | gracenet/net.go:213-215 | Addresses of different networks are never the same |
| Gracenet.DecimalForm | gracenet/net.go:268 | The count is printed in decimal digits, the most significant first |
| Gracenet.AtoiOfItoa | gracenet/net.go:52-268 | The listener count survives being printed into the environment and parsed again |
| Gracenet.ChildEnv | gracenet/net.go:261-268 | The child's environment keeps every other entry in order and has exactly one count entry, with the new count |
| Gracenet.OthersKept | gracenet/net.go:263-267 | Every entry that does not set the count stays, in its place |
| Gracenet.OthersAsOften | gracenet/net.go:263-267 | And occurs as often as before |
| Gracenet.FirstCountCounts | gracenet/net.go:48-51 | The count is the text of the first entry that sets it, and empty without one |
| Gracenet.Net.Inherit | gracenet/net.go:43-82 | Exactly the counted descriptors from 3 on, in order, and only once; a count that is no number takes none, a bad descriptor stops after those before it |
| Gracenet.Net.Reuse | gracenet/net.go:118-128 | The first unused inherited listener for the address is used up; none exactly when there is none |
| Gracenet.Net.Listen | gracenet/net.go:110-137 | After `inherit`, whose failure ends it: if an inherited listener for the address is left, it is used and no socket is opened; otherwise what opening afresh gives, at whatever address, and nothing inherited is used |
| Gracenet.Net.Append | gracenet/net.go:172-201 | After `inherit`: refused exactly when that fails, or nothing inherited matches and an active listener has the address; otherwise the inherited listener or the new one joins |
| Gracenet.Net.ListenAll | gracenet/net.go:110-137 | Asking for the inherited addresses in any order and wildcard form reuses every inherited socket once, opens none and leaves none over |
| Gracenet.AskedInAnyOrder | gracenet/net.go:110-128 | Any permutation of the listeners' addresses, each up to its wildcard form, is what `ListenAll` and `Restart` ask for |
| Gracenet.HandedOver | gracenet/net.go:43-82 | With the files and the count the parent sets, the child inherits exactly the parent's listeners in order |
| Gracenet.Restart | gracenet/net.go:238-280 | After a restart the child listens on exactly the parent's sockets, with one count entry in its environment |
| Gracenet.Restarts | gracenet/net.go:238-280 | Over any number of restarts every process in the chain listens on the first one's sockets, and none after the first opened any |
| MemoryLog.LatestAppend | log/logging/memory.go:201-205 | How the latest records change when one is added |
| MemoryLog.LatestIsEnd | log/logging/memory.go:201-205 | What must be held is the end of the log: min(n, maxSize) records, all without a limit |
| MemoryLog.List.InsertRecord | log/logging/memory.go:192-206 | The linked list stays the latest min(n, maxSize) records in order, all if there is no limit, with `size` its length and `tail` its last node |
| MemoryLog.List.Log | log/logging/memory.go:61-109 | Sequentially, the other backend keeps the same list |
| MemoryLog.List.Walk | log/logging/memory.go:119-121 | Following the nodes from the head yields exactly the latest records, oldest first |
| MemoryLog.ChannelBackend.Process | log/logging/memory.go:176-177 | One record moves from the channel to the list; none is lost or reordered |
| MemoryLog.ChannelBackend.Flush | log/logging/memory.go:182-213 | After a flush every record logged before has been inserted |
| Names.SnakeString | common/utils.go:27-42 | The byte loop computes the recursive specification |
| Names.CamelString | common/utils.go:45-67 | The byte loop computes the recursive specification |
| Names.SnakeOfCapitalised | common/utils.go:26-42 | Capitalised words become the same words joined by underscores |
| Names.CamelOfJoined | common/utils.go:44-67 | Words joined by underscores become the same words capitalised |
| Names.MutualInverses | common/utils.go:26-67 | On such names the two converters undo each other |
| Names.SnakeIsIdempotent | common/utils.go:27-42 | Converting a second time changes nothing, whatever the ASCII name |
| Names.SnakeByByte | common/utils.go:27-42 | On every ASCII name, what becomes of each byte: small, and led by an underscore if it is a capital with something but underscores before it |
| Names.CamelByByte | common/utils.go:45-67 | On every ASCII name, what becomes of each byte: which underscores are dropped and which small letters are raised |

## Left out

- ColferStream.Codec.Write: the body's `MarshalTo` is its encode function here; `ColferMessages` proves that of the generated types.
- ColferStream.Conn.Read: an error is reported together with the last bytes of a piece; a reader that delivers bytes out of order is not a connection.
- ColferMessages.ColfArgs.MarshalLen: `ColfReply` is an instance of the schema and has no class of its own, since its code is one field of `ColfArgs`.
- Session.OwnReply: the codec is a channel of whole messages, sequence numbers do not wrap at 2^64, a failed response write emits nothing, and the hooks that run before a request's body is read accept it; a rejecting hook leaves the body unread on the wire.
- Session.SignalledExactlyOnce: with the Colfer codec an error response cannot be sent, because its placeholder body is no Colfer type, and a nil body cannot be read, so input ends there; both are failing steps of the machine.
- ServerContext.Context.Serve: hooks do not panic (a panic in one that runs around the response write would leave the sending mutex locked), and hooks before the header do not look at the path.
- ServeLoop.AnsweredAsReference: the same holds for its stages; `sendResponse` is one stage, as the sending mutex makes it.
- ServerContext.Context.SendResponse: the hooks after a response has been written cannot change it and are not modelled.
- ServeLoop.WaitGroupCounts: turns of one loop may overlap more freely than `ServeConn` lets them; a request that is being read can be counted after `close` starts waiting, so nothing is claimed about `close`.
- ClientModes.DirectSelector.Failtry: a selector that returns neither an invoker nor an error is outside the model, as is a panic on it in Failover.
- ClientModes.BroadCast: all calls share one reply pointer in the source; which reply ends up in it is not modelled, only the verdict. The same holds for Forking.
- ClientModes.BroadCastCalls: `err` holds the results the calls have in the end; that looking earlier makes no difference is `Session.OutcomeIsSettled`.
- JsonRpcServer.AcceptsExactlyRequestObjects: JSON text is a value here; parsing it, duplicate members and the shape of error texts are not modelled.
- JsonRpcWaiting.WaitsIff: no write fails, neither to the pipe nor in encoding a response (a result that JSON has no form for, or an error text in braces that is no JSON), and every call of the inner server returns; for a nested batch that is this condition again, on its entries. Which entries' newlines a decoder leaves in the pipe depends on lengths and is a parameter, as is which methods exist.
- JsonRpcBatch.SendsIff: a call of the batch method by name without params is excluded: the source serves it on a server that is nil, and the panic of that goroutine brings the whole process down.
- Gracenet.Net.Listen: `ListenTCP` and `ListenUnix` differ only in the socket they open and are one method; descriptors start at 3, and closing a descriptor's file does not fail.
- Gracenet.AtoiOfItoa: the range check of Go's number parser is not modelled.
- MemoryLog.List.Log: concurrent calls are not modelled, since head and next are written outside the compare-and-swap; the counter does not wrap at 2^31.
- MemoryLog.ChannelBackend.Log: a caller that finds the channel full waits; the model's caller only logs when there is room.
- Names.SnakeIsIdempotent: names are ASCII; Go's lower-casing of other letters is not modelled.
- Dialling, TLS, KCP, HTTP, deadlines, signals and starting processes: operating-system work.
- The gob, protobuf, gencode, jsonrpc and bson codecs and the compression plugin: wrappers over other libraries.
- Reflection on services, URI parsing, authentication, the IP whitelist and group prefixes: a service is a function here, a parser an argument.
- File logging, formatters, colours, levels and the other selectors: these would only add easy members.
