# Verification of the Krpc framework

A model in Dafny 4.11 of the parts of the Krpc repository where the difficulty lies, with proofs that
they do what they are for. `dafny verify dfyconfig.toml` checks all of it.

## What is modelled

**The wire codec** (`Varint`, `Wire`, `Message`, `Codec`, `Descriptors`, `MergeLaw`, `Growth`, `Generated`,
`Layout`). Varints, tags, the
four wire types and length-delimited reads are written out from the Protocol Buffers Encoding guide,
sections "Base 128 Varints", "Message Structure", "Signed Integers", "Length-Delimited Records" and "Last
One Wins", down to the arithmetic modulo 2^32 and 2^64. `Message` interprets a table of field kinds: parsing,
serializing and merging for any message type, nested ones included. `Generated` holds the generated code as
it is, classes whose methods update their fields: the tag-switch loop with its "unusual" branch, the size
pass that fills the cached sizes and the write pass that reads them. Each method is proved equal to the
table-driven function, about which `Codec` proves the laws; `MergeLaw` and `Growth` extend two of them to
arbitrary input, and `Layout` says byte for byte what the eight types and the frame look like.

**The RPC protocol** (`Rpc`, `Endpoints`). A call is framed as varint(header size), header, arguments; the
provider takes the frame apart and dispatches through its service map.

**The thread pool and the connection table** (`ThreadPool`, `ConnectionTable`). Transition systems whose
steps are the critical sections, notifications and system calls of the code, interleaved freely, and beside
them classes whose methods are shown to take exactly those steps.

**The UCX exchange** (`UcxExchange`, `ActiveMessage`). A server and any number of clients with the FIN
message and the close signal, as steps of all the processes and of the network; and the active-message
receiver, whose callback scatters into arrays. The server's own loops are methods that take those steps.

**The smaller cores**: the send and receive loops of `TcpChannel`, the configuration loader (`Config`), and
registration and lookup through ZooKeeper (`Registry`).

`Sequences` has the option type and the facts on sequences that the other modules share.

## What turned out

- A channel closes its socket after a call and never resets its descriptor, so it answers one call in its
  life: every later one fails at the send (`OneAnswerForLife`). Only after a call that failed to connect, to
  serialize or to receive can another one send, and then, unless the first failed to connect, it carries the
  first one's names (`SecondCallNamesTheFirst`, `NamesForLife`).
- A frame cut between two header fields is not refused but read as a call without arguments
  (`FrameCutInHeader`), and one cut within its size as a call with empty names (`FrameCutInSize`).
- The client reads a response once, so one of more than 1024 bytes never arrives (`ResponseArrivesWhole`);
  nor does one that serializes to no bytes, as nothing is sent for it. A peer that closes without an answer
  is taken for one that answered with the default message (`EndOfFileAnswersDefault`).
- Parsing into an object differs from merging when an explicit default meets a value; `MergeLawExactly` says
  for which inputs the two agree. Serializing what was parsed can be longer than the input, by a bound that
  `SerializedLength` gives and `GrowthReached` shows to be exact for two of the types.
- A provider's port is an int and the client's a uint16_t: a port outside 0..65535 is looked up modulo 65536
  (`RegisteredIsFound`, `LargePortWraps`).
- A pool without threads never runs a task (`AllTasksFinish`).
- The connection table relies on a descriptor not being reused while a task names it (`AcceptIsSafe`).
- A receive that passes the wait need not hold its own message when one progress call delivers two
  (`AmServer.Receive`).
- In a configuration file a last line without a newline loses a value that is all spaces, where a newline
  would keep it (`UnterminatedLine`).
- Registration leaves the address in a node that is already there (`StaleAddressStays`); it fails on a method
  missing below an ephemeral node (`RegistersExactly`); and a lookup that finds nothing may throw
  (`MissingThrows`).

## Model

| member | source | states |
|---|---|---|
| Varint.ReadEncode | src/Krpcheader.pb.cc:229-233 | Reading a written varint gives the number back and leaves exactly what followed it, whatever followed |
| Varint.ReadVarintExtends | src/Krpcheader.pb.cc:161-164 | A varint that was read is read the same whatever bytes follow it |
| Varint.OverlongStaysBad | src/Krpcheader.pb.cc:161-164 | A varint that could not be read within the bytes allowed to it cannot be read with more bytes either |
| Varint.GuideExamples | src/Krpcheader.pb.cc:229-233 | The Encoding guide's own examples of base 128 varints come out as it gives them |
| Varint.ToInt32 | example/user.pb.cc:334-350 | A 64-bit value cut to an int32 is the one that is congruent to it modulo 2^32 |
| Varint.EncodeIsShortest | src/Krpcheader.pb.cc:265-270 | No accepted spelling of a number is shorter than the one the serializer writes |
| Varint.EncodeLength | src/Krpcheader.pb.cc:265-270 | A number takes at most k bytes exactly when it is below 2^(7k) |
| Varint.EncodePrefixFree | src/Krpcchannel.cc:132-140 | No varint is a prefix of another, so a size in front of a header is unambiguous |
| Varint.SignExtendRoundTrip | example/user.pb.cc:334-350 | An int32 sign-extended to 64 bits for the wire is the same int32 once cut back to 32 bits |
| Varint.Int32Length | example/user.pb.cc:405-425 | A negative int32 takes ten bytes on the wire, any other at most five |
| Wire.ReadFieldBytes | src/Krpcheader.pb.cc:161-202 | A field written as tag and payload is read back whole, for wire types 0, 1, 2 and 5, whatever follows |
| Wire.FixedWidths | src/Krpcheader.pb.cc:189-200 | A tag of wire type 1 is followed by eight bytes, one of wire type 5 by four |
| Wire.FixedTooShort | src/Krpcheader.pb.cc:189-200 | With fewer bytes than that they are refused |
| Wire.Refused | src/Krpcheader.pb.cc:161-202 | Field number 0, groups, the unused wire types, tags of more than five bytes and values of more than ten are refused, whatever follows |
| Wire.LongLengthRefused | src/Krpcheader.pb.cc:161-202 | So is a length of 2 GiB or more |
| Wire.ReadFieldExtends | src/Krpcheader.pb.cc:161-202 | A field that has been read does not depend on the bytes after it |
| Wire.CutFieldUnreadable | src/Krpcheader.pb.cc:161-202 | A field cut anywhere before its end cannot be read |
| Wire.ReadField | src/Krpcheader.pb.cc:161-202 | Each turn of a parse loop takes at least one byte and gives a field the serializer can write |
| Wire.ReadFieldsBytes | src/Krpcheader.pb.cc:161-202 | A written list of fields is read back as that list, followed by whatever the rest reads as |
| Message.ParseWellFormed | src/Krpcheader.pb.cc:158-209 | Whatever bytes are accepted, the parsed message has every field in its range, recursively |
| Message.MergeWellFormed | example/user.pb.cc:929-942 | Merging keeps every field in its range, recursively |
| Codec.ParseSerialized | example/user.pb.cc:813-883 | Parsing what one message serializes to, on top of another message, is the merge of the two, recursively through the submessage |
| Codec.ParseUndoesSerialize | src/Krpcheader.pb.cc:158-241 | Parse undoes serialize for every message value of every type: nested and present but empty, negative numbers, defaults omitted, unknown fields kept |
| Codec.RoundTrip | src/Krpcheader.pb.cc:211-241 | Whatever SerializeToString produces parses back to the same message |
| Codec.ConcatenationIsMerge | example/user.pb.cc:813-942 | Parsing two serialized messages one after the other gives exactly the second merged into the first |
| Codec.MergeDefaultLeft | src/Krpcheader.pb.cc:296-312 | Merging a message into the default message gives that message |
| Codec.MergeDefaultRight | src/Krpcheader.pb.cc:296-312 | Merging the default message into a message changes nothing |
| Codec.MergeAssociative | example/user.pb.cc:929-942 | Merge is associative, recursively through submessages and unknown fields |
| Codec.NormalForm | src/Krpcheader.pb.cc:158-241 | For every byte string the parser accepts, serializing the result and parsing again gives the same message, and serializing again the same bytes |
| Growth.SerializedLength | src/Krpcheader.pb.cc:158-279 | What an accepted byte string parses to is serialized into at most its length and a bound of the type's, five bytes for each int32 and what that adds to the length prefixes around it |
| Growth.GrowthReached | example/user.pb.cc:334-434 | The bound is reached: five bytes for a result code, six for a message around one |
| Growth.InputHasNormalForm | src/Krpcheader.pb.cc:158-241 | So every accepted byte string of any type that leaves room for the bound has a normal form |
| Growth.EveryTypeHasNormalForm | example/user.pb.cc:1798-1868 | For the eight types eleven bytes of room are enough |
| Codec.UnknownFieldsRetained | src/Krpcheader.pb.cc:189-200 | Every field of an accepted input that the type does not know, wrong wire types included, is kept, in order, and nothing else is |
| Codec.LastOneWins | example/user.pb.cc:816-848 | The value of a field after parsing is given by the last of its occurrences alone, or, for a submessage, by all of them one after the other |
| Codec.Truncation | src/Krpcheader.pb.cc:158-241 | A serialized message cut at a position parses exactly when the position is a field boundary, and then to the message with the remaining fields at their defaults |
| Codec.IntactOnlyWhole | src/Krpcchannel.cc:152-168 | A cut of a serialized message parses to the same message exactly when nothing was cut off |
| MergeLaw.AcceptsAlike | example/user.pb.cc:813-855 | Whether a byte string is accepted does not depend on the object it is parsed into |
| MergeLaw.MergeLawExactly | example/user.pb.cc:813-942 | For any accepted byte string, parsing it into an object is merging in what it parses to on its own exactly when no field that has a value in the object, at any depth, is last given an explicit default |
| MergeLaw.SerializedKeepsAll | example/user.pb.cc:857-883 | Serializer output never gives an explicit default |
| Descriptors.EveryTypeRoundTrips | example/user.pb.cc:1798-1868 | The round trip and the concatenation law hold of all eight message types |
| Descriptors.ExplicitZeroOverwrites | example/user.pb.cc:334-350 | The merge law is about serializer output: an explicit zero on the wire overwrites, a merged zero does not |
| Layout.RpcHeaderLayout | src/Krpcheader.pb.cc:211-241 | The bytes of a header: service name under tag 10, method name under 18, size of the arguments under 24, each left out at its default |
| Layout.ResultCodeLayout | example/user.pb.cc:379-403 | The bytes of a result code: errcode under tag 8, ten bytes when negative, errmsg under 18 |
| Layout.LoginRequestLayout | example/user.pb.cc:616-640 | The bytes of a login request: name under tag 10, pwd under 18 |
| Layout.ResponseLayout | example/user.pb.cc:857-883 | The bytes of a login or a register response: result under tag 10, written even when empty, success under 16 |
| Layout.RegisterRequestLayout | example/user.pb.cc:1108-1138 | The bytes of a register request: id under tag 8, name under 18, pwd under 26 |
| Layout.AddRequestLayout | example/user.pb.cc:1597-1621 | The bytes of an add request: a under tag 8, b under 16 |
| Layout.AddResponseLayout | example/user.pb.cc:1842-1868 | The bytes of an add response: result under tag 10, sum under 16 |
| Layout.FrameLayout | src/Krpcchannel.cc:116-140 | The bytes of a frame: the size of the header, the header's three fields, the arguments; there is none only for a header of more than INT_MAX bytes |
| Layout.FrameExists | src/Krpcchannel.cc:116-140 | So there is a frame for all names that are not almost 2 GiB long |
| Generated.RpcHeader.Clear | src/Krpcheader.pb.cc:146-156 | Clear gives the default message and leaves the cached size alone |
| Generated.RpcHeader.InternalParse | src/Krpcheader.pb.cc:158-209 | The tag-switch loop accepts exactly the inputs of the table-driven parser, and ends in the same message |
| Generated.RpcHeader.ParseField | src/Krpcheader.pb.cc:162-200 | One turn of the loop, with its exact-tag tests and its unusual branch, is one step of the table-driven parser |
| Generated.RpcHeader.ByteSizeLong | src/Krpcheader.pb.cc:243-279 | The size is the length of the encoding, and is what is cached |
| Generated.RpcHeader.InternalSerialize | src/Krpcheader.pb.cc:211-241 | Exactly the encoding is written after what was there |
| Generated.RpcHeader.SerializeToString | src/Krpcheader.pb.cc:211-279 | The two passes together give the encoding, or fail for a message too large |
| Generated.RpcHeader.MergeFrom | src/Krpcheader.pb.cc:296-312 | In-place merge is the merge of the two values |
| Generated.RpcHeader.CopyFrom | src/Krpcheader.pb.cc:321-326 | Copying makes the value that of the source; copying from itself changes nothing |
| Generated.ResultCode.Clear | example/user.pb.cc:323-332 | Clear gives the default message |
| Generated.ResultCode.InternalParse | example/user.pb.cc:334-377 | The tag-switch loop accepts exactly the inputs of the table-driven parser, and ends in the same message |
| Generated.ResultCode.ParseField | example/user.pb.cc:337-368 | One turn of the loop is one step of the table-driven parser, ten-byte int32 included |
| Generated.ResultCode.ByteSizeLong | example/user.pb.cc:405-434 | The size is the length of the encoding, and is what is cached |
| Generated.ResultCode.InternalSerialize | example/user.pb.cc:379-403 | Exactly the encoding is written after what was there |
| Generated.ResultCode.MergeFrom | example/user.pb.cc:451-464 | In-place merge is the merge of the two values |
| Generated.LoginResponse.Clear | example/user.pb.cc:799-811 | Clear gives the default message and drops the submessage |
| Generated.LoginResponse.MutableResult | example/user.pb.h:1652-1659 | The submessage is allocated at its default when absent, and is the same object otherwise |
| Generated.LoginResponse.InternalParse | example/user.pb.cc:813-855 | The loop, which parses into the submessage in place, accepts exactly the inputs of the table-driven parser and ends in the same message |
| Generated.LoginResponse.ParseField | example/user.pb.cc:816-848 | One turn of the loop is one step of the table-driven parser; a repeated submessage is merged into the object that is there |
| Generated.LoginResponse.ByteSizeLong | example/user.pb.cc:885-912 | The size is the length of the encoding, and afterwards the submessage's cached size is the length of its own encoding |
| Generated.LoginResponse.InternalSerialize | example/user.pb.cc:857-883 | The bytes written, with whatever length the submessage has cached |
| Generated.LoginResponse.SerializeToString | example/user.pb.cc:857-912 | The size pass makes the write pass right: together they give exactly the encoding |
| Generated.LoginResponse.MergeFrom | example/user.pb.cc:929-942 | In-place merge is the merge of the two values, allocating the submessage when needed |
| Generated.LoginResponse.CopyFrom | example/user.pb.cc:951-956 | Copying makes the value that of the source |
| Generated.CachedSizeMatters | example/user.pb.cc:857-883 | The serializer writes the encoding exactly when the cached size it relies on is the submessage's real encoded length, or there is no submessage |
| Generated.CachedSizeRight | example/user.pb.cc:885-912 | The int that is cached is that length for every message that can be serialized |
| Rpc.ResolveIsFirst | src/Krpcprovider.cc:148-161 | A request resolves to the first registered service of its name and the first method of that name there; any other request to nothing |
| Rpc.HandledExactly | src/Krpcprovider.cc:131-168 | Which error a message ends in: a bad header, short arguments, an unregistered service, a method it does not have, arguments that do not parse; and otherwise what is dispatched |
| Rpc.UnframeHuge | src/Krpcprovider.cc:115-127 | A header size of 2 GiB or more is taken for a negative one, and the message for a request with empty names |
| Rpc.UnframeFrame | src/Krpcprovider.cc:111-146 | Taking apart a frame, with any bytes after it, gives the names and the arguments that were framed |
| Rpc.UnframeExactly | src/Krpcprovider.cc:111-146 | Taking apart a frame gives the names and the arguments that were framed |
| Rpc.FramesPrefixFree | src/Krpcchannel.cc:132-140 | No frame is a prefix of a different frame |
| Rpc.TrailingBytesIgnored | src/Krpcprovider.cc:109-146 | A frame followed by any bytes is handled as the frame alone |
| Rpc.EndToEnd | src/Krpcprovider.cc:105-180 | For any registrations, names and request, handling the frame of a call dispatches to the first registered service of that name, with that method and a request equal to the sent one, or to nothing when the pair is not registered |
| Rpc.EveryCut | src/Krpcprovider.cc:111-146 | Every proper prefix of a frame is a cut in its size, in its header or in its arguments |
| Rpc.FrameCutInSize | src/Krpcprovider.cc:115-134 | A frame cut within its size is read as a request with empty names and no arguments |
| Rpc.FrameCutInHeader | src/Krpcprovider.cc:126-138 | A frame cut within its header is refused, unless the cut is between two header fields: then it is read as a request with the later fields empty and no arguments |
| Rpc.FrameCutInArgs | src/Krpcprovider.cc:140-146 | A frame cut within its arguments is never dispatched |
| Endpoints.KrpcProvider.NotifyService | src/Krpcprovider.cc:10-44 | After any sequence of calls the service map is that of the services notified so far, the first of each name kept |
| Endpoints.KrpcProvider.OnMessage | src/Krpcprovider.cc:105-180 | A message is dispatched once, to the first registered method of its names with its parsed request, or not at all; which error it ends in has its exact condition |
| Endpoints.KrpcChannel.CallMethod | src/Krpcchannel.cc:74-171 | What a call sends and returns, and what it leaves in the channel: each outcome has its exact condition; the socket is closed after a failed send, an answer or an answer that does not parse, and the descriptor stays |
| Endpoints.AnsweredExactly | src/Krpcchannel.cc:109-168 | A call is answered exactly when both serializations succeed, the socket is open, the send and the receive succeed and what was received parses; every other outcome has its own exact condition, and a failed receive leaves the socket open |
| Endpoints.FrameNamesTheCall | src/Krpcchannel.cc:80-140 | A call's frame carries its names and arguments exactly when the channel had no descriptor yet, or had one from a call of the same names |
| Endpoints.OneAnswerForLife | src/Krpcchannel.cc:142-170 | In any sequence of calls on a channel, once a call was answered, its answer did not parse or its send failed, every later call fails before anything is sent |
| Endpoints.NamesForLife | src/Krpcchannel.cc:80-140 | In any sequence of calls, everything that is sent carries the names of the first call that connected, with the arguments of its own |
| Endpoints.SecondCallNamesTheFirst | src/Krpcchannel.cc:80-170 | A second call on a new channel can send exactly when the first failed to connect, to serialize or to receive; it carries the first one's names unless that failed to connect |
| Endpoints.EndOfFileAnswersDefault | src/Krpcchannel.cc:152-168 | A peer that closes without an answer makes the call return the default message, with no error |
| Endpoints.WholeCall | src/Krpcchannel.cc:74-171 | A call on a new channel makes the provider call the first registered service of that name with the request, and returns the service's response of 1 to 1024 bytes when it comes back in the one receive |
| Endpoints.ResponseArrivesWhole | src/Krpcchannel.cc:151-168 | A call returns the response of the service exactly when its one receive, of 1 to 1024 bytes, took all of it, so never when that is longer |
| ThreadPool.StepKeepsInv | src/include/EpollServer.h:24-62 | Every step keeps the invariant: no lost wakeup, the stop flag reaching all, first in first out, drained on exit |
| ThreadPool.RunKeepsInv | src/include/EpollServer.h:24-62 | So does every run, under any interleaving and any spurious wakeups |
| ThreadPool.NobodySleepsOnWork | src/include/EpollServer.h:24-39 | In every reachable state a worker waits only while the queued tasks are no more than the notifications pending or being acted on; after the destructor's notify_all none waits |
| ThreadPool.TasksAreFifo | src/include/EpollServer.h:32-62 | Over any run the tasks taken followed by the tasks queued are the tasks enqueued, and the finished and the running are exactly the taken |
| ThreadPool.AllTasksFinish | src/include/EpollServer.h:43-52 | When all workers have exited the queue is empty and every task enqueued has finished exactly once: exactly for pools with a thread, or without a task |
| ThreadPool.StoppedStepDescends | src/include/EpollServer.h:24-52 | Once the flag is cleared every step but an enqueue lowers a measure |
| ThreadPool.StoppedRunIsBounded | src/include/EpollServer.h:43-52 | A run after the flag is cleared is bounded by that measure and the number of enqueues in it |
| ThreadPool.StoppedPoolIsNotStuck | src/include/EpollServer.h:43-52 | Until every worker has exited some step other than an enqueue can be taken, so shutdown ends with all workers exited |
| ThreadPool.BusyStep | src/include/EpollServer.h:26-37 | With a task queued a check starts the front task, and every other step but an enqueue uses up a bounded patience |
| ThreadPool.FrontTaskStarts | src/include/EpollServer.h:24-62 | However the steps are scheduled, the front task is the next one started, and within a bounded number of steps and enqueues |
| ThreadPool.BusyPoolMoves | src/include/EpollServer.h:24-62 | With a thread and a queued task the pool itself can always take a step, without an enqueue, the destructor or a spurious wakeup |
| ThreadPool.QueuedTaskIsStarted | src/include/EpollServer.h:24-62 | From every reachable state of a pool with threads, steps of its own lead to the start of the front task |
| ThreadPool.PoolObject.constructor | src/include/EpollServer.h:18-41 | The pool starts with its workers checking, no tasks and the flag set |
| ThreadPool.PoolObject.CheckAndTake | src/include/EpollServer.h:26-37 | The worker's critical section is its step of the system: it takes the front task off the deque and runs it, or with none waits, or exits once stopped |
| ThreadPool.PoolObject.PushUnderLock | src/include/EpollServer.h:55-60 | The critical section of enqueue is its step of the system |
| ThreadPool.PoolObject.TaskReturns | src/include/EpollServer.h:38-39 | A returned task is finished once and its worker goes round the loop |
| ThreadPool.PoolObject.NotifyAfterPush | src/include/EpollServer.h:61-61 | One waiting worker wakes up, or there is none |
| ThreadPool.PoolObject.NotifyAfterStop | src/include/EpollServer.h:49-49 | Every waiting worker wakes up |
| ThreadPool.PoolObject.StopUnderLock | src/include/EpollServer.h:43-49 | The critical section of the destructor is its step of the system |
| ConnectionTable.StepKeepsInv | src/epollServer.cc:185-303 | Every step of the epoll thread or of a pool thread keeps the invariant that relates the table, epoll and the open descriptors |
| ConnectionTable.TableIsConsistent | src/epollServer.cc:185-303 | In every reachable state clientFds_ and epoll hold open descriptors only and no task names the listening one; with no connection half open or half closed, the open clients, the registered ones and clientFds_ are equal |
| ConnectionTable.ListenerNeverClosed | src/epollServer.cc:290-303 | No step of any run closes the listening descriptor |
| ConnectionTable.ReuseBreaksTable | src/epollServer.cc:204-303 | When accept returns a descriptor that a queued or running task still names, a run follows that leaves a closed descriptor in clientFds_ |
| ConnectionTable.AcceptIsSafe | src/epollServer.cc:204-303 | Accepting a descriptor leaves the table safe in every continuation exactly when no queued or running task names it |
| ConnectionTable.ReadClosesExactly | src/epollServer.cc:254-289 | A read sends its thread on to close the descriptor exactly at end of file and on an error other than EAGAIN |
| ConnectionTable.ClientConnects | src/epollServer.cc:172-252 | On an idle server an event of the listening descriptor brings a client into the open set, epoll and the table |
| ConnectionTable.ClientCloses | src/epollServer.cc:187-303 | An event of its own, read to end of file by a free thread, takes it out of all three |
| ConnectionTable.ConnectRun | src/epollServer.cc:204-238 | What the steps of handleNewConnection add up to, for every answer of the system calls |
| ConnectionTable.EpollServer.HandleNewConnection | src/epollServer.cc:204-252 | The method has the effect of its steps: table, epoll and open descriptors gain the client together, or not at all |
| ConnectionTable.EpollServer.HandleReadEvent | src/epollServer.cc:254-289 | End of file and errors other than EAGAIN take the descriptor out of epoll, the table and the open set, and nothing else does; the thread is free again |
| ConnectionTable.EpollServer.TakeTask | src/include/EpollServer.h:35-38 | A free thread takes the front read task |
| ConnectionTable.EpollServer.CloseConnection | src/epollServer.cc:291-303 | The descriptor leaves epoll, the table and the open set |
| ConnectionTable.EpollServer.HandleEvent | src/epollServer.cc:187-199 | One event queues one read task for a readable client, or accepts one connection, which the table and epoll then have, by the steps of the system |
| ConnectionTable.EpollServer.HandleEvents | src/epollServer.cc:185-200 | A batch of events queues one task for each readable client, in order, and the table and epoll gain exactly the connections that were opened |
| UcxExchange.StepKeepsInv | rdma_exp/ucp_example_server.c:703-832 | Every step of the server, the clients or the network keeps the phase invariant |
| UcxExchange.ClosesOnlyAfterDelivery | rdma_exp/ucp_example_server.c:703-741 | The server has always received a prefix of each client's messages in order, and all of them of a client that has the FIN or has closed |
| UcxExchange.OneClientAtATime | rdma_exp/ucp_example_server.c:774-805 | The server takes the next client only after this one closed with all its messages received; each close signal is that of the client being served |
| UcxExchange.ResetErasesNoSignal | rdma_exp/ucp_example_server.c:703-741 | When connection_closed is reset, no signal of the new client has arrived or is on its way, and each earlier one has been acted on |
| UcxExchange.NeverStuck | rdma_exp/ucp_example_server.c:703-832 | As long as a client is neither served nor refused some step can be taken |
| UcxExchange.DoneMeansServedOrRefused | rdma_exp/ucp_example_server.c:774-832 | At the end every client was served in full or refused, and at least one was served |
| UcxExchange.DeliverTakesFreeSlot | rdma_exp/ucp_example_server.c:617-630 | A connection request that finds the slot free is accepted, one that does not is refused |
| UcxExchange.RefusedOnlyWhenBusy | rdma_exp/ucp_example_server.c:617-630 | A client is refused only when another one had the slot at the delivery of its request |
| UcxExchange.SlotMeansService | rdma_exp/ucp_example_server.c:774-805 | The client that has the slot is served in full by every run that goes on to the end |
| UcxExchange.OneByOneAllServed | rdma_exp/ucp_example_server.c:774-805 | Clients that come one after the other are all served in full, none refused |
| UcxExchange.ExchangeEnds | rdma_exp/ucp_example_server.c:703-832 | A run has at most 2N+12 steps for each client |
| UcxExchange.Server.DoWork | rdma_exp/ucp_example_server.c:703-741 | Whatever the clients and the network do, the server's loops only take steps of the system, and when they return the client has closed with all its messages received |
| UcxExchange.Server.ReceiveOne | rdma_exp/ucp_example_server.c:709-717 | One receive takes the next message of the current client, once there is one |
| UcxExchange.Server.AwaitClose | rdma_exp/ucp_example_server.c:735-738 | The wait ends only with the close signal |
| UcxExchange.Server.ServeNext | rdma_exp/ucp_example_server.c:774-805 | One turn of the server's loop serves one client in full and leaves it listening with an empty slot |
| ActiveMessage.Scatter | rdma_exp/ucp_example_server.c:373-379 | The buffers one after the other hold exactly the message, for any number of buffers of any lengths |
| ActiveMessage.GatheredSlice | rdma_exp/ucp_example_server.c:373-379 | With buffers of one length the k-th holds the k-th slice of the message |
| ActiveMessage.AmServer.DataCallback | rdma_exp/ucp_example_server.c:344-381 | A message of the wrong length changes nothing; any other is counted and fills the buffers |
| ActiveMessage.AmServer.Progress | rdma_exp/ucp_example_server.c:401-402 | One progress call counts all its messages of the right length, and leaves the last in the buffers |
| ActiveMessage.AmServer.AwaitCallback | rdma_exp/ucp_example_server.c:399-402 | The wait ends with the first progress call that delivers a message of the right length |
| ActiveMessage.AmServer.Receive | rdma_exp/ucp_example_server.c:382-426 | The number of receives never passes the number of counted callbacks; a receive that starts level finds its own message, and leaves none behind, exactly when that progress call delivered one |
| ActiveMessage.AmServer.Serve | rdma_exp/ucp_example_server.c:709-717 | When no progress call has two messages, n receives find the first n messages, in order |
| TcpChannel.GoingWellSucceeds | Drpc/src/DrpcChannel.cpp:136-184 | With no cancel and no error, with room for the whole request and a parsable response before end of file, a call sends all of it and answers with exactly what was delivered |
| TcpChannel.SuccessMeansAllWell | Drpc/src/DrpcChannel.cpp:136-184 | And every call that succeeds went that way |
| TcpChannel.SendExactly | Drpc/src/DrpcChannel.cpp:68-88 | From the script alone: when the send loop has sent everything, when it is still waiting, and with which text it fails |
| TcpChannel.ReceiveExactly | Drpc/src/DrpcChannel.cpp:102-126 | The same for the receive loop |
| TcpChannel.EndsExactly | Drpc/src/DrpcChannel.cpp:136-184 | A call is still waiting exactly when its turns run out before everything is sent or before end of file, with no cancel and no error reached; it fails with a text exactly when the first thing to go wrong says so |
| TcpChannel.PeerMessageReturned | Drpc/src/DrpcChannel.cpp:167-183 | When the peer delivers a serialized message and closes, the call returns that message |
| TcpChannel.DrpcController.Reset | Drpc/src/DrpcController.cpp:34-40 | Reset forgets the failure, the cancellation and the callback |
| TcpChannel.Channel.SendRequest | Drpc/src/DrpcChannel.cpp:60-89 | The bytes the socket accepted are a prefix of the request, the whole of it on success; it fails, with the text of the first thing to go wrong, or waits, exactly as its script says |
| TcpChannel.Channel.ReceiveResponse | Drpc/src/DrpcChannel.cpp:91-127 | On success the response is what arrived before end of file; it fails, with the text of the first thing to go wrong, or waits, exactly as its script says |
| TcpChannel.Channel.CallMethod | Drpc/src/DrpcChannel.cpp:136-184 | done is called once, unless the call is still waiting for the network, which has its exact condition; with true exactly when the controller has not failed; the bytes sent are a prefix of the request |
| TcpChannel.Channel.CallMethodSync | Drpc/src/DrpcChannel.cpp:186-198 | True only for a call that sent the whole request and parsed exactly the bytes before end of file; false exactly when the controller has failed |
| Config.TrimmedMeaning | src/Krpcconfig.cc:54-66 | Trimming takes off spaces at the ends only and leaves none there, unless the string is all spaces |
| Config.TerminatedLine | src/Krpcconfig.cc:19-40 | A line with its newline gives the entry of the text around its first equals sign, or none for a comment |
| Config.UnterminatedLine | src/Krpcconfig.cc:34-37 | A last line without a newline gives the same entry, through the count that wraps round, exactly when its value is not blank |
| Config.LoaderReadsLines | src/Krpcconfig.cc:18-41 | On files whose lines fit in the buffer the loader's entries are those of its lines |
| Config.LongLineSplits | src/Krpcconfig.cc:16-18 | A longer line is read in pieces of 1023 characters, each of which counts as a line |
| Config.NulEndsBuffer | src/Krpcconfig.cc:19-19 | What follows a NUL in a buffer is not looked at |
| Config.RoundTrip | src/Krpcconfig.cc:18-41 | Writing any list of well-formed pairs and loading it gives the pairs back in order |
| Config.WrittenValue | src/Krpcconfig.cc:40-51 | Loading a written list gives each key the first value written for it |
| Config.Krpcconfig.LoadConfigFile | src/Krpcconfig.cc:5-42 | The loop inserts the entries of the file in order, keeping what is there |
| Config.Krpcconfig.Load | src/Krpcconfig.cc:45-51 | The stored value, or the empty string |
| Registry.AtoiPrinted | src/Krpcchannel.cc:90-93 | atoi undoes %d for every number |
| Registry.AtoiText | src/Krpcchannel.cc:90-93 | atoi passes over blanks, takes a sign and stops at the first character that is no digit |
| Registry.PathsDistinct | src/Krpcprovider.cc:76-79 | Different service and method pairs have different paths, and none is the path of a service |
| Registry.RegistersExactly | src/Krpcprovider.cc:74-85 | Registration gets through exactly when no method node is missing below an ephemeral service node; in particular no create lacks its parent |
| Registry.RegisterExtends | src/Krpcprovider.cc:74-85 | Registration keeps every node that was there and leaves every registered method with a node |
| Registry.RegisterKeepsClosed | src/Krpcprovider.cc:74-85 | Registration keeps the tree parent-closed |
| Registry.AddressSplits | src/Krpcchannel.cc:90-93 | The address split gives the ip and port back exactly when the ip has no colon in it and the port is in 0..65535; without a colon, the ip and the port modulo 65536 |
| Registry.RegisteredIsFound | src/Krpcchannel.cc:90-93 | Every registered method without a node before is found at the provider's ip and port, exactly when the ip has no colon in it and the port, an int, fits the client's uint16_t; without a colon it is found at the port modulo 65536 |
| Registry.LargePortWraps | src/Krpcchannel.cc:90-93 | A provider configured with port 70000 is found at port 4464 |
| Registry.StaleAddressStays | src/zookeeperutil.cc:72-83 | A method that had a node before keeps being found wherever that node says |
| Registry.MissingThrows | src/Krpcchannel.cc:90-93 | Looking up a method without a node or data throws exactly when the channel still holds a colon index of one or more, and otherwise gives port 0 |
| Registry.AddressWithoutColon | src/Krpcchannel.cc:219-223 | An address without a colon counts for one blank and port 0 |
| Registry.ZkClient.Create | src/zookeeperutil.cc:68-84 | An existing node stays as it is, a missing one is created below its parent or the call fails; the tree stays parent-closed |
| Registry.ZkClient.RegisterEach | src/Krpcprovider.cc:78-84 | The inner loop does the creates of one service's methods and keeps the tree parent-closed |
| Registry.ZkClient.RegisterAll | src/Krpcprovider.cc:74-85 | The loop does the creates of all services, stopping at a failure, and keeps the tree parent-closed at every turn |
| Registry.ChannelAddress.Find | src/Krpcchannel.cc:87-93 | The lookup leaves in the channel the located ip, the port cut to 16 bits, and the colon index |

## Left out

- Group wire types (3 and 4) in unknown fields: a start-group tag is refused here. An end-group or zero tag, at which the generated loop stops, is refused as the library refuses it after the loop.
- The protobuf library is modelled by its behaviour: tags of at most 5 bytes modulo 2^32, lengths of at most 5 bytes and below 2^31, values of at most 10 bytes modulo 2^64; its recursion limit and UTF-8 checks are not modelled.
- The other five message types as classes: their generated functions have the shape of the three classes here, and their values are covered by the tables of `Descriptors`.
- Arenas, reflection, descriptors, swap, release and the method-index switch of the generated services.
- `SendRpcResponse` as a method, the connection callbacks and shutdown of muduo: the response path is stated for the one receive of what was serialized.
- Endpoints.KrpcChannel.CallMethod: does not model a partial send, because the code ignores how many bytes were accepted; nor a closed descriptor number that the process has reused for something else, to which a later call would write; nor a receive that never returns.
- The channel constructor that connects at once, before it has an address or names: `FrameNamesTheCall` and `OneAnswerForLife` hold of any channel, but such a channel is not constructed here.
- The two threads of a `StartCancel`, flag first and callback after: a cancellation is one step of the other thread, and unsynchronised access to the flag is not modelled.
- Weak memory, mutex fairness and exceptions thrown by tasks in the thread pool; a caller that enqueues after the destructor has begun, other than a running task.
- `EpollServer::stop`, which closes descriptors while pool tasks may still run; descriptors of the process other than the listening one and the clients'; a read task that never returns.
- `client_server_do_work` and `run_client` on the client's side as methods: the client's loop appears as a program counter; endpoint creation and destruction take no step of their own.
- UCX failures, requests that fail to complete and error returns of the exchange; the listener's progress is one callback at a time.
- The rendezvous branch of the active messages, the client's late registration of its callback, a callback before the first receive or after its buffers were freed, and the overflow of the two counters.
- `TcpChannel::Connect` and address parsing; only an established or a missing connection enters a call.
- The configuration file that cannot be opened, which ends the process.
- `GetData` with 64 bytes or more, or with a buffer that is not terminated after the data; a stored number that does not fit an int, for which atoi promises nothing; ZooKeeper errors other than a missing node or parent; the watcher and the session; `GetChildren` and `GetChildrenData`, which nothing here calls.
- The order in which the provider walks its maps: registration is stated for any list of services, so for any order.
