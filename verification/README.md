# Verified models of gnunet-web

Dafny models of the parts of gnunet-web that run GNUnet services inside a browser, and proofs of what they
promise. `dafny verify dfyconfig.toml` checks the whole project. Each component has one or more modules that
say what the code does as functions on values, and, where the source updates things in place, a class whose
methods follow the source statement by statement and are proved against those functions.

- **Event loop** (`EventLoop`, `EventLoopRuns`, `EventLoopSafety`, `EventLoopAnswers`, `EventLoopTables`, `Streams`,
  `Endpoints`).
  `scheduler.js`, `network.js` and the `connect` case of `pre.js` share a task table, a socket table and the
  browser's timers. An event is one API call or one browser callback up to the moment it enters a handler;
  handlers call the API again as further events. Over all runs of callers that keep the discipline below: the
  tables agree at every event boundary, no wakeup is lost, every scheduled task is pending, ran once or was
  cancelled once, and a handler is entered free to register, read or close. `EventLoopAnswers` says when each call
  succeeds, what its number means, and what calls in a row achieve: the handle that registering returns is the one that
  cancels the task, and after create, bind and listen the announced connections are accepted. Two event loops joined by a pair of
  ports keep every octet in order, and a read returns 0 exactly at the end of the stream; the connecting side may
  send, and close, long before the other side accepts.
- **HELLO codec** (`Octets`, `Encoder`, `Parser`, `Message`, `DataStructures`, `Hello`, `HelloAlgebra`,
  `HelloWire`, `HelloCodec`, `HelloCanonical`). The parser combinators with their trampolined loop, length-framed messages, the encoder on
  JavaScript's signed 32-bit operators, nested grouping, and HELLO addresses. Printer and parser are inverse for
  HELLOs without one-octet addresses, and merging is a join. When no address received is a single non-zero octet,
  re-encoding what was parsed never outgrows its 16-bit size field and gives the same HELLO again.
- **Datastore** (`IndexedDb`, `Datastore`, `DatastoreRequests`, `DatastoreSweeps`, `DatastoreRuns`,
  `DatastorePlugin`). Keys and cursors of Indexed Database API 2.0 (sections 2.4, 2.9 and 2.10), the index
  schema, and the plugin's cursor loops, which are proved equal to filters over the record map.
- **HTTP client sessions** (`HttpSessions`, `HttpRuns`, `HttpPlugin`). Session structs, the connection count
  and the lazily moved idle timer.
- **Blob writer** (`FileStorage`). Splicing with zero fill, and reassembly of downloads.

## Caller discipline of the event loop

`EventLoopRuns.Enabled` states what the source asks of its callers: at most one read task per socket, on a
socket with a queue or on the listening socket; cancel a read task before closing its socket; descriptors come
from `socket_create`; the descriptor listened on has no connection; no recv on a bound socket. The invariant is kept by every
call within it. The methods of `EventLoopTables.Tables` say what calls outside it do as well, except for recv and isset on
a socket without a queue, where the source throws. `EventLoopSafety.SecondReaderBreaks` shows that the first rule is needed.
Non-empty sends and non-empty reads are asked for only where a theorem needs them;
`Endpoints.WhenZero` says what happens without them. In `Endpoints` the descriptors of the two joined sockets are not
given to other connections later, since a stream is that of one connection.

## Where the code differs from what one would expect

- Addresses are turned into arrays by `(.apply js/Array nil xs)`. With exactly one element, JavaScript's `Array`
  makes an unfilled array of that length, so an address of one octet is lost. A sender cannot send such an address
  (`HelloCanonical.OneOctetAddressIsLost`), and a message received with one, of value n, is parsed to an address of n unfilled
  elements and grows by n - 1 octets when it is encoded again (`HelloCanonical.OneOctetAddressGrows`). The round trips
  are therefore proved as equivalences: with no address of length one or with unfilled elements, for a HELLO to be
  encoded (`HelloCodec.Faithful`), and with no received address of a single non-zero octet, for one that was
  parsed (`HelloCanonical.Intact`). Both can be checked beforehand.
- Activity on an HTTP session moves its timeout but not its timeout task. Tasks stay due before the timeouts
  exactly when the session period, in whole milliseconds, is not longer than the idle period
  (`HttpRuns.PunctualIff`). The values of both constants are not part of this model.
- A download rebuilds its file even when unwritten parts of it are zero (`FileStorage.RebuildsIff`).

## Model

The rows of `EventLoopTables` tie the source's statements to the step relation that the other event-loop modules reason
about; the results are the rows of `EventLoopSafety`, `EventLoopAnswers`, `Streams` and `Endpoints`.

| member | source | states |
|---|---|---|
| EventLoopTables.Tables.constructor | gnunet-build/packages/gnunet/gnunet/files/network.js:18-19 | the initial tables satisfy the invariant |
| EventLoopTables.Tables.SocketCreate | gnunet-build/packages/gnunet/gnunet/files/network.js:21-33 | hands out a new descriptor or the errno of the first bad argument; keeps the invariant |
| EventLoopTables.Tables.SocketConnect | gnunet-build/packages/gnunet/gnunet/files/network.js:35-84 | opens a socket with an empty queue, also when connecting then fails, and leaves open sockets alone; keeps the invariant within the discipline |
| EventLoopTables.Tables.SocketSend | gnunet-build/packages/gnunet/gnunet/files/network.js:86-103 | posts exactly the given octets, or fails without posting; keeps the invariant |
| EventLoopTables.Tables.SocketClose | gnunet-build/packages/gnunet/gnunet/files/network.js:105-117 | posts "close" on a port and removes the socket; closing twice is harmless; keeps the invariant within the discipline |
| EventLoopTables.Tables.SocketBind | gnunet-build/packages/gnunet/gnunet/files/network.js:119-134 | makes a socket without port and queue; keeps the invariant within the discipline |
| EventLoopTables.Tables.SocketListen | gnunet-build/packages/gnunet/gnunet/files/network.js:136-144 | the first descriptor listened on, whatever it is, stays the only one; keeps the invariant within the discipline |
| EventLoopTables.Tables.SocketAccept | gnunet-build/packages/gnunet/gnunet/files/network.js:146-184 | takes the oldest incoming connection and opens a socket for it under a fresh descriptor; keeps the invariant |
| EventLoopTables.Tables.SocketRecv | gnunet-build/packages/gnunet/gnunet/files/network.js:186-213 | copies a prefix of the first chunk and keeps its remainder at the head; "close" stays; keeps the invariant |
| EventLoopTables.Tables.FdsetIsset | gnunet-build/packages/gnunet/gnunet/files/network.js:215-227 | a read set is reported exactly when the timer of a read task would find something |
| EventLoopTables.Tables.SchedulerAddDelayed | gnunet-build/packages/gnunet/gnunet/files/scheduler.js:20-30 | a fresh task with its timer armed; keeps the invariant |
| EventLoopTables.Tables.SchedulerAddReadNet | gnunet-build/packages/gnunet/gnunet/files/scheduler.js:51-85 | a fresh task that the socket remembers, with its timer armed, also in place of another; 0 without a socket; keeps the invariant within the discipline |
| EventLoopTables.Tables.SchedulerAddWriteNet | gnunet-build/packages/gnunet/gnunet/files/scheduler.js:94-110 | a fresh task with its timer armed; 0 without a socket; keeps the invariant |
| EventLoopTables.Tables.SchedulerCancel | gnunet-build/packages/gnunet/gnunet/files/scheduler.js:35-49 | disarms, forgets the task in both tables and returns its closure, or 0; keeps the invariant |
| EventLoopTables.Tables.FireTimer | gnunet-build/packages/gnunet/gnunet/files/scheduler.js:24-27 | enters the handler that was scheduled under the handle exactly if its task is pending and has something to do |
| EventLoopTables.Tables.WakeReader | gnunet-build/packages/gnunet/gnunet/files/network.js:65-70 | removes the reader of a socket from both tables and enters the handler the socket remembers |
| EventLoopTables.Tables.DeliverMessage | gnunet-build/packages/gnunet/gnunet/files/network.js:62-71 | queues the message last and wakes the socket's reader if there is one; keeps the invariant |
| EventLoopTables.Tables.DeliverConnect | gnunet-build/packages/gnunet/gnunet/files/pre.js:109-120 | queues the connection last and wakes the listening socket's reader if there is one; keeps the invariant |
| EventLoopRuns.NextKeepsInv | gnunet-build/packages/gnunet/gnunet/files/scheduler.js:20-110 | every API call within the discipline and every browser event keeps the whole invariant |
| EventLoopRuns.ReaderKeepsCoherent | gnunet-build/packages/gnunet/gnunet/files/scheduler.js:76-84 | registering a reader keeps task table and socket table in agreement |
| EventLoopRuns.ArmedAfterChange | gnunet-build/packages/gnunet/gnunet/files/network.js:62-71 | a change to one socket makes no sleeping reader ready, except the one about to be woken |
| EventLoopRuns.LeaveKeepsInv | gnunet-build/packages/gnunet/gnunet/files/scheduler.js:69-74 | a task that leaves, run or cancelled, leaves both tables and the record of tasks in order |
| EventLoopRuns.DisarmKeepsInv | gnunet-build/packages/gnunet/gnunet/files/scheduler.js:37-37 | disarming a timer can only cost its own task a wakeup |
| EventLoopSafety.RunKeepsInv | gnunet-build/packages/gnunet/gnunet/files/scheduler.js:20-110 | every reachable state satisfies the invariant |
| EventLoopSafety.NoLostWakeup | gnunet-build/packages/gnunet/gnunet/files/scheduler.js:61-82 | in every reachable state a socket with a reader and something to read has that reader's timer armed, and firing it enters the registered handler |
| EventLoopSafety.EveryTaskCanRun | gnunet-build/packages/gnunet/gnunet/files/scheduler.js:20-110 | in every reachable state a pending task that is delayed, writes, or has something to read has its timer armed, and firing it runs exactly this task |
| EventLoopSafety.CoherentRuns | gnunet-build/packages/gnunet/gnunet/files/scheduler.js:72-82 | in every reachable state a task records socket s exactly when s records the task |
| EventLoopSafety.TasksConserved | gnunet-build/packages/gnunet/gnunet/files/scheduler.js:24-29 | in every reachable state each scheduled task is in exactly one of pending, run once, cancelled once, with its own handler and closure |
| EventLoopSafety.RunExtends | gnunet-build/packages/gnunet/gnunet/files/scheduler.js:24-49 | nothing that ran or was cancelled is ever undone |
| EventLoopSafety.CancelledNeverRuns | gnunet-build/packages/gnunet/gnunet/files/scheduler.js:35-49 | cancel returns the closure of a pending task, and in no later state has its handler been entered |
| EventLoopSafety.StaleCancel | gnunet-build/packages/gnunet/gnunet/files/scheduler.js:35-49 | cancelling a finished task returns 0 and at most disarms a timer that would have done nothing |
| EventLoopSafety.WhoWakes | gnunet-build/packages/gnunet/gnunet/files/network.js:65-70 | a read task leaves the table only by its own timer, a message for its socket, a connection for its listening socket, or its own cancel |
| EventLoopSafety.HandlerIsFree | gnunet-build/packages/gnunet/gnunet/files/scheduler.js:72-74 | however a read task is woken, its own handler is entered with the tables in order, something to read, and free to read, register again or close |
| EventLoopSafety.SecondReaderBreaks | gnunet-build/packages/gnunet/gnunet/files/scheduler.js:58-60 | registering a reader keeps the tables in agreement if and only if the socket had none |
| EventLoopSafety.DescriptorsAreFresh | gnunet-build/packages/gnunet/gnunet/files/network.js:32-32 | the descriptor that a create or accept within its conditions hands out is new to every table and is never handed out again |
| EventLoopSafety.ConnectionsInOrder | gnunet-build/packages/gnunet/gnunet/files/network.js:153-164 | in every run connections are accepted once each, in the order of their announcement |
| EventLoopSafety.IsSetIffReady | gnunet-build/packages/gnunet/gnunet/files/network.js:215-227 | isset on a read set agrees with the test of the read timer |
| EventLoopAnswers.RunKeepsPositive | gnunet-build/packages/gnunet/gnunet/files/network.js:19-19 | in every run handles and descriptors stay positive, so 0 always means failure |
| EventLoopAnswers.RegisteringReturnsHandle | gnunet-build/packages/gnunet/gnunet/files/scheduler.js:20-110 | each of the three ways to register a task returns its handle: positive, new, pending, armed, remembered by the socket it reads, and standing for the handler and closure given; without a socket it returns 0 and registers nothing |
| EventLoopAnswers.CancelledHandleNeverRuns | gnunet-build/packages/gnunet/gnunet/files/scheduler.js:20-110 | cancelling at any later time by the handle that registering returned gives back the closure given then, and that handler is never entered, if the task was still pending; if not, it ran or was cancelled before |
| EventLoopAnswers.CancelTakesOne | gnunet-build/packages/gnunet/gnunet/files/scheduler.js:35-49 | cancel takes one task from both tables, disarms it and returns its closure, and touches no other task or reader |
| EventLoopAnswers.CreateAnswers | gnunet-build/packages/gnunet/gnunet/files/network.js:21-33 | create succeeds exactly for domain 1, type 1 and protocol 0, with a positive new descriptor; the errnos otherwise |
| EventLoopAnswers.ConnectAnswers | gnunet-build/packages/gnunet/gnunet/files/network.js:35-84 | connect returns 1 exactly on a free handle with a Unix address that a service takes; the errnos otherwise, and what is left behind |
| EventLoopAnswers.BindAnswers | gnunet-build/packages/gnunet/gnunet/files/network.js:119-134 | bind succeeds exactly on a free handle with an address of full length |
| EventLoopAnswers.SendAnswers | gnunet-build/packages/gnunet/gnunet/files/network.js:86-103 | send succeeds exactly on a port that takes the message: all octets are posted behind those before, and counted; else nothing is posted, with the errno |
| EventLoopAnswers.CloseAnswers | gnunet-build/packages/gnunet/gnunet/files/network.js:105-117 | close returns 1, tells the peer of a port once, removes the socket and touches no other |
| EventLoopAnswers.RecvReports | gnunet-build/packages/gnunet/gnunet/files/network.js:186-213 | recv copies and returns the lesser of the length asked for and the first chunk, the remainder stays in front; 0 at "close"; the errnos without socket or data |
| EventLoopAnswers.IsSetCounts | gnunet-build/packages/gnunet/gnunet/files/network.js:215-227 | isset counts waiting connections or queued packets, and 1 for a write set |
| EventLoopAnswers.ListenAnswers | gnunet-build/packages/gnunet/gnunet/files/network.js:136-144 | listen returns 1 and records the descriptor exactly if none is recorded, else -1 |
| EventLoopAnswers.FirstListenerStays | gnunet-build/packages/gnunet/gnunet/files/network.js:136-144 | in every run the first descriptor listened on stays the only one |
| EventLoopAnswers.AcceptAnswers | gnunet-build/packages/gnunet/gnunet/files/network.js:146-184 | accept succeeds exactly on the descriptor listened on, with a connection waiting and 110 octets of room; it opens a socket of the oldest connection under a positive new descriptor; the errnos otherwise |
| EventLoopAnswers.ListenThenAccept | gnunet-build/packages/gnunet/gnunet/files/network.js:136-184 | after listen succeeds, and any run, accept takes the oldest connection whenever one waits, and fails on every other descriptor |
| EventLoopAnswers.ServiceAccepts | gnunet-build/packages/gnunet/gnunet/files/network.js:21-184 | create, bind and listen succeed on one new descriptor in every reachable state where nothing is listened on, and after any run accept takes the oldest connection that waits |
| EventLoopAnswers.ClientConnects | gnunet-build/packages/gnunet/gnunet/files/network.js:21-103 | create, connect and send succeed on one new descriptor in every reachable state |
| Streams.NextSteps | gnunet-build/packages/gnunet/gnunet/files/network.js:86-117 | every event moves a socket's stream only by what it posted, brought or read at the ends; "close" is posted last and stays queued |
| Streams.TakeKeepsPayload | gnunet-build/packages/gnunet/gnunet/files/network.js:199-212 | what a read takes followed by what stays is what was queued |
| Endpoints.ConnectIsFresh | gnunet-build/packages/gnunet/gnunet/files/network.js:35-84 | a connect on a free handle leaves a socket whose stream starts empty, also if the service does not take it |
| Endpoints.AcceptIsFresh | gnunet-build/packages/gnunet/gnunet/files/network.js:146-184 | an accept on the descriptor listened on, with a connection waiting and room for its address, leaves such a socket under the descriptor it returns |
| Endpoints.ConnectThenAccept | gnunet-build/packages/gnunet/gnunet/files/network.js:57-83 | connect, any run of the connecting side alone, and a later accept lead to a joined pair with all that was sent, and a close, on the way |
| Endpoints.MoveKeeps | gnunet-build/packages/gnunet/gnunet/files/network.js:62-117 | every step of a joined pair keeps: posted on one side = arrived on the other followed by what is on the way |
| Endpoints.BytesConserved | gnunet-build/packages/gnunet/gnunet/files/network.js:186-213 | in every run of two joined endpoints, octets sent before and after accept = octets read, then queued, then in flight, in both directions, for any chunks and read sizes |
| Endpoints.WhenZero | gnunet-build/packages/gnunet/gnunet/files/network.js:199-212 | recv returns 0 exactly when "close" or an empty chunk is next or nothing was asked for |
| Endpoints.SentIsRead | gnunet-build/packages/gnunet/gnunet/files/network.js:62-213 | octets sent on one side of an idle pair are delivered, and the first read on the other side gets as many of them as it asks for |
| Endpoints.EndOfStream | gnunet-build/packages/gnunet/gnunet/files/network.js:199-203 | without empty sends, a non-empty read returns 0 if and only if the peer closed, before accept or later, nothing is in flight and every octet sent was read |
| Endpoints.EndForever | gnunet-build/packages/gnunet/gnunet/files/network.js:199-203 | after the end was met every later read on the socket returns 0 |
| Encoder.EncodeUint32Octets | src/cljs/gnunet_web/encoder.cljs:30-34 | the signed shifts give the four big-endian octets of every unsigned word |
| Encoder.EncodeUint16Value | src/cljs/gnunet_web/encoder.cljs:24-28 | a number is kept modulo 2^16 and nothing more, whatever its sign and size |
| Encoder.EncodeUint32Value | src/cljs/gnunet_web/encoder.cljs:30-34 | an unsigned word keeps its value |
| Parser.NoneOrMoreIsMany | src/cljs/gnunet_web/parser.cljs:34-66 | the trampolined loop equals the recursive "as many as possible", never fails and terminates |
| Parser.NoneOrMoreIsGreedy | src/cljs/gnunet_web/parser.cljs:55-66 | a repetition returns xs and leaves r if and only if reading item by item leads from the input to r through xs and fails there |
| Parser.RepetitionLeavesSuffix | src/cljs/gnunet_web/parser.cljs:55-66 | a repetition leaves a suffix of its input if its item parser does |
| Parser.OctetsLeaveSuffix | src/cljs/gnunet_web/parser.cljs:138-142 | so do the repeated octets of a name |
| Parser.SatisfyConsumes | src/cljs/gnunet_web/parser.cljs:94-101 | the item parser of names consumes input when it succeeds |
| Parser.ParseUint16Inverts | src/cljs/gnunet_web/parser.cljs:112-118 | parses x exactly off encodings of x |
| Parser.ParseUint32Inverts | src/cljs/gnunet_web/parser.cljs:120-126 | parses x exactly off encodings of x, on all of [0, 2^32) |
| Parser.ParseUint64Inverts | src/cljs/gnunet_web/parser.cljs:128-136 | parses [msw lsw] exactly off encodings of it |
| Parser.ParseUtf8Splits | src/cljs/gnunet_web/parser.cljs:138-142 | succeeds exactly if there is a NUL, and splits at the first one |
| Parser.ParseUtf8Inverts | src/cljs/gnunet_web/parser.cljs:138-142 | parses a name exactly off its encoding, for NUL-free names |
| Message.Framing | src/cljs/gnunet_web/message.cljs:30-44 | success if and only if size, body and type are there and the inner parser accepts the body alone; exactly the announced size is consumed |
| Message.Isolation | src/cljs/gnunet_web/message.cljs:30-44 | the result does not depend on any octet after the message |
| Message.MessagesConsume | src/cljs/gnunet_web/message.cljs:30-44 | a message takes at least four octets |
| Message.BadFrameIsKept | src/cljs/gnunet_web/message.cljs:35-44 | a bad size, a truncated body or an unknown type stops the repetition with its input untouched |
| Message.EncodedFrame | src/cljs/gnunet_web/message.cljs:46-51 | an encoded message announces its own size and type if it fits 16 bits |
| Message.ParseEncodedMessage | src/cljs/gnunet_web/message.cljs:30-51 | parsing an encoded message gives back what the inner parser makes of its body |
| DataStructures.GroupBy | src/cljs/amatus/datastructures.cljs:27-28 | every group holds exactly the items of its key, in order, and is not empty |
| DataStructures.GroupAt | src/cljs/amatus/datastructures.cljs:19-28 | at each path of keys stands the inner function of the items with these keys |
| DataStructures.GroupWellNested | src/cljs/amatus/datastructures.cljs:19-28 | a nested grouping is as deep as it has key functions and has no empty inner level |
| DataStructures.SameLookups | src/cljs/amatus/datastructures.cljs:19-40 | a nested map without empty inner levels is determined by what it holds at each path |
| DataStructures.FlattenAt | src/cljs/amatus/datastructures.cljs:30-40 | flattening lists at each path exactly what the map holds there |
| DataStructures.FlattenOfGroup | src/cljs/amatus/datastructures.cljs:19-40 | flattening a nested grouping is a permutation of the items, each labelled with its own keys, for any number of key functions |
| DataStructures.GroupOfFlatten | src/cljs/amatus/datastructures.cljs:19-40 | grouping a flattened map gives it back |
| Hello.ParseAddressSplits | src/cljs/gnunet_web/hello.cljs:30-38 | what parses as an address is the encoding of one with a NUL-free name |
| Hello.ParseWireAddress | src/cljs/gnunet_web/hello.cljs:30-48 | every such encoding parses, whatever follows it |
| Hello.AddressesConsume | src/cljs/gnunet_web/hello.cljs:30-38 | an address takes at least eleven octets |
| Hello.AddressesLeaveSuffix | src/cljs/gnunet_web/hello.cljs:66-70 | the repetition of addresses leaves a suffix of its input |
| Hello.HelloMessagesLeaveSuffix | src/cljs/gnunet_web/hostlist.cljs:26-28 | the repetition of HELLO messages leaves a suffix of its input |
| Hello.HelloMessagesConsume | src/cljs/gnunet_web/hostlist.cljs:26-28 | a HELLO message takes at least four octets |
| HelloAlgebra.VectorOrderIsNumeric | src/cljs/gnunet_web/hello.cljs:50-52 | the order of [msw lsw] vectors is the order of 64-bit numbers |
| HelloAlgebra.LatestIsLatest | src/cljs/gnunet_web/hello.cljs:50-52 | the expiration kept is one of the group's and none is later |
| HelloAlgebra.MapAt | src/cljs/gnunet_web/hello.cljs:54-58 | the address map holds the latest expiration of each address and nothing else |
| HelloAlgebra.MapOfFlattened | src/cljs/gnunet_web/hello.cljs:54-63 | flattening and grouping again gives a normal map back |
| HelloAlgebra.MergeAt | src/cljs/gnunet_web/hello.cljs:89-97 | a merge has every address of either side with the later expiration, the key of the first, and is friend-only if either is |
| HelloAlgebra.MergeIgnoresMapOrder | src/cljs/gnunet_web/hello.cljs:89-97 | a merge does not depend on the order in which maps are walked |
| HelloAlgebra.MergeCommutes | src/cljs/gnunet_web/hello.cljs:89-97 | merge is commutative on HELLOs of one peer |
| HelloAlgebra.MergeAssociates | src/cljs/gnunet_web/hello.cljs:89-97 | merge is associative |
| HelloAlgebra.MergeIdempotent | src/cljs/gnunet_web/hello.cljs:89-97 | merging a HELLO with itself changes nothing |
| HelloAlgebra.MergeIsJoin | src/cljs/gnunet_web/hello.cljs:89-97 | a merge is the least HELLO above both |
| HelloAlgebra.MapIgnoresOrderAndRepetition | src/cljs/gnunet_web/hello.cljs:54-58 | the address map depends only on which addresses are listed |
| HelloAlgebra.MapOfConcatIsMerge | src/cljs/gnunet_web/hello.cljs:54-97 | the map of xs ++ ys is the merge of the maps of xs and ys |
| HelloWire.TimeOnWire | src/cljs/gnunet_web/encoder.cljs:36-48 | an expiration travels as its 64-bit number of microseconds in network order |
| HelloWire.AddressOnWire | src/cljs/gnunet_web/hello.cljs:40-48 | octet by octet: name, NUL, size, expiration and address of an encoded address |
| HelloWire.ReadAddressOnWire | src/cljs/gnunet_web/hello.cljs:30-38 | the parser reads each of these fields from its own octets |
| HelloWire.HelloOnWire | src/cljs/gnunet_web/hello.cljs:76-87 | an encoded HELLO announces its own size and type 17, then holds 1 or 0 for friend-only, the 32 octets of the key, and the addresses |
| HelloWire.ReadHelloOnWire | src/cljs/gnunet_web/hello.cljs:65-74 | parsing a body succeeds exactly if flag and key are there; any flag but 0 means friend-only, and the map is that of as many addresses as follow |
| HelloCodec.RoundTrip | src/cljs/gnunet_web/hello.cljs:30-87 | a well-formed HELLO that fits 16 bits is parsed back from its encoding if and only if it has no one-octet address and no unfilled array |
| HelloCodec.HostlistRoundTrip | src/cljs/gnunet_web/hostlist.cljs:26-28 | parsing the concatenated encodings of HELLOs gives the same HELLOs in order and leaves nothing, under the same condition for each |
| HelloCanonical.Canonical | src/cljs/gnunet_web/hello.cljs:54-87 | whatever parses as a HELLO re-encodes to no more octets and parses to the same HELLO, if and only if none of the addresses received is a single non-zero octet |
| HelloCanonical.GroupedSize | src/cljs/gnunet_web/hello.cljs:54-63 | grouping and flattening addresses never makes their encoding longer |
| HelloCanonical.OneOctetAddressIsLost | src/cljs/gnunet_web/hello.cljs:38-38 | a small well-formed HELLO that does not survive encoding and parsing |
| HelloCanonical.OneOctetAddressGrows | src/cljs/gnunet_web/hello.cljs:30-87 | a received message with an address of one octet n, n at least 2: encoding what was parsed is n - 1 octets longer and holds another HELLO |
| IndexedDb.CompareIsEquality | gnunet-build/packages/gnunet/gnunet/files/datastore-pre.js:14-19 | two index keys compare as equal exactly when they are the same |
| IndexedDb.CompareIsTransitive | gnunet-build/packages/gnunet/gnunet/files/datastore-pre.js:14-19 | the order of index keys is transitive |
| IndexedDb.First | gnunet-build/packages/gnunet/gnunet/files/plugin_datastore_emscripten_int.js:56-60 | a cursor stands on the record before all others that are ahead |
| Datastore.KeyRangeSelects | gnunet-build/packages/gnunet/gnunet/files/plugin_datastore_emscripten_int.js:57-58 | the by_key range holds exactly the key's records from a uid on |
| Datastore.KeyCursor | gnunet-build/packages/gnunet/gnunet/files/plugin_datastore_emscripten_int.js:101-104 | a cursor over it visits them by least uid |
| Datastore.AnonTypeCursor | gnunet-build/packages/gnunet/gnunet/files/plugin_datastore_emscripten_int.js:231-234 | a cursor over the by_anon_type range finds the least uid of anonymity 0 and the type |
| DatastorePlugin.Plugin.DoPut | gnunet-build/packages/gnunet/gnunet/files/plugin_datastore_emscripten_int.js:26-52 | inserts under a fresh uid, or fails when the key generator is exhausted |
| DatastorePlugin.Plugin.Put | gnunet-build/packages/gnunet/gnunet/files/plugin_datastore_emscripten_int.js:18-91 | the cursor loop merges into the record of the same key and data, or else inserts |
| DatastorePlugin.Plugin.GetKey | gnunet-build/packages/gnunet/gnunet/files/plugin_datastore_emscripten_int.js:91-149 | returns a record of the key and type asked for, the first in cyclic order from the uid, or none exactly when no record has both |
| DatastorePlugin.Plugin.GetReplication | gnunet-build/packages/gnunet/gnunet/files/plugin_datastore_emscripten_int.js:149-191 | returns the last record by replication with its counter lowered by one but not below 0, none only from an empty store, and changes nothing else |
| DatastorePlugin.Plugin.GetExpiration | gnunet-build/packages/gnunet/gnunet/files/plugin_datastore_emscripten_int.js:191-229 | offers the first expired record and deletes it exactly if the processor answers 0 |
| DatastorePlugin.Plugin.GetZeroAnonymity | gnunet-build/packages/gnunet/gnunet/files/plugin_datastore_emscripten_int.js:229-270 | returns a record of anonymity 0 and exactly this type, the first in cyclic order from the uid, or none exactly when there is none |
| DatastorePlugin.Plugin.RemoveKey | gnunet-build/packages/gnunet/gnunet/files/plugin_datastore_emscripten_int.js:296-337 | deletes the record with the key and data, and says whether there was one |
| DatastoreRequests.PutInsertsOrMerges | gnunet-build/packages/gnunet/gnunet/files/plugin_datastore_emscripten_int.js:53-91 | put refines insert-or-merge for every key and data, and a new record gets a larger uid than any |
| DatastoreRequests.PutsAccumulate | gnunet-build/packages/gnunet/gnunet/files/plugin_datastore_emscripten_int.js:71-76 | any number of puts of one pair leave one record with summed priorities and replications, the latest expiry, and the first type and anonymity |
| DatastoreRequests.PutKeepsUniqueIff | gnunet-build/packages/gnunet/gnunet/files/plugin_datastore_emscripten_int.js:53-91 | one record per key and data is lost exactly by inserting as absent what is present |
| DatastoreRequests.RemoveTakesPair | gnunet-build/packages/gnunet/gnunet/files/plugin_datastore_emscripten_int.js:296-337 | remove_key takes exactly the pair away and answers 1 if and only if it was there |
| DatastoreRequests.LookupFinds | gnunet-build/packages/gnunet/gnunet/files/plugin_datastore_emscripten_int.js:91-149 | get_key finds a record exactly if one has the key, if given, and the type, unless 0: with a key the first from the uid asked for on, in cyclic order; without a key the first of all |
| DatastoreRequests.VisitsAscend | gnunet-build/packages/gnunet/gnunet/files/plugin_datastore_emscripten_int.js:91-149 | asking on with the last uid plus one visits every match from a uid on once, in increasing order |
| DatastoreRequests.CyclicEnumeration | gnunet-build/packages/gnunet/gnunet/files/plugin_datastore_emscripten_int.js:91-149 | asking from 0 visits every record of the key and type once in increasing order, then starts over, forever |
| DatastoreRequests.ZeroAnonymityEnumeration | gnunet-build/packages/gnunet/gnunet/files/plugin_datastore_emscripten_int.js:229-270 | the same for get_zero_anonymity, over the records of anonymity 0 and one type |
| DatastoreSweeps.TakesMostReplicated | gnunet-build/packages/gnunet/gnunet/files/plugin_datastore_emscripten_int.js:152-153 | no counter is greater than that of the record taken |
| DatastoreSweeps.SpendingPays | gnunet-build/packages/gnunet/gnunet/files/plugin_datastore_emscripten_int.js:149-191 | while counters are left, n calls lower them by exactly what was returned, largest first |
| DatastoreSweeps.ReplicationSpending | gnunet-build/packages/gnunet/gnunet/files/plugin_datastore_emscripten_int.js:149-191 | over as many calls as the counters sum to, each record is returned as often as its counter said, counters taken never rise, and all end and stay at zero |
| DatastoreSweeps.OffersEarliest | gnunet-build/packages/gnunet/gnunet/files/plugin_datastore_emscripten_int.js:193-195 | the record offered has the earliest expiry, before now; none is offered only if none has expired |
| DatastoreSweeps.SweepDeletesExpired | gnunet-build/packages/gnunet/gnunet/files/plugin_datastore_emscripten_int.js:191-229 | repeating with answer 0 deletes exactly the expired records, each once, in order of expiry |
| DatastoreRuns.UniqueRuns | gnunet-build/packages/gnunet/gnunet/files/plugin_datastore_emscripten_int.js:18-337 | every store reached without false absent flags has one record per key and data, the one clients see |
| HttpPlugin.AtsSession.constructor | gnunet-build/packages/gnunet/gnunet/files/plugin_transport_http_client_emscripten.c:837-841 | a new session without GET and task |
| HttpPlugin.Plugin.constructor | gnunet-build/packages/gnunet/gnunet/files/plugin_transport_http_client_emscripten.c:1110-1113 | the empty table satisfies the invariant |
| HttpPlugin.Plugin.ClientDeleteSession | gnunet-build/packages/gnunet/gnunet/files/plugin_transport_http_client_emscripten.c:275-318 | cancels the session's task, removes it and gives its connection back |
| HttpPlugin.Plugin.SessionDisconnect | gnunet-build/packages/gnunet/gnunet/files/plugin_transport_http_client_emscripten.c:390-405 | deletes exactly that session and keeps the invariant |
| HttpPlugin.Plugin.PeerDisconnect | gnunet-build/packages/gnunet/gnunet/files/plugin_transport_http_client_emscripten.c:430-465 | deletes exactly the sessions of a peer and keeps the invariant |
| HttpPlugin.Plugin.Done | gnunet-build/packages/gnunet/gnunet/files/plugin_transport_http_client_emscripten.c:909-930 | leaves no session, no connection and no pending task |
| HttpPlugin.Plugin.RescheduleSessionTimeout | gnunet-build/packages/gnunet/gnunet/files/plugin_transport_http_client_emscripten.c:325-330 | moves the timeout and not the task, and its assertion never fails |
| HttpPlugin.Plugin.SessionTimeout | gnunet-build/packages/gnunet/gnunet/files/plugin_transport_http_client_emscripten.c:739-768 | waits again or ends the session, and keeps the invariant |
| HttpPlugin.Plugin.LookupSession | gnunet-build/packages/gnunet/gnunet/files/plugin_transport_http_client_emscripten.c:492-529 | finds the one session at an address, or null exactly if there is none |
| HttpPlugin.Plugin.ClientConnect | gnunet-build/packages/gnunet/gnunet/files/plugin_transport_http_client_emscripten.c:658-697 | connects, or fails without counting a connection |
| HttpPlugin.Plugin.GetSession | gnunet-build/packages/gnunet/gnunet/files/plugin_transport_http_client_emscripten.c:779-878 | returns the session at the address, or opens one within the limit, or leaves no trace of a failed one; keeps the invariant |
| HttpSessions.DeleteKeeps | gnunet-build/packages/gnunet/gnunet/files/plugin_transport_http_client_emscripten.c:275-318 | deleting keeps the invariant, and the connection count is positive where it is asserted to be |
| HttpSessions.DeleteTakesOne | gnunet-build/packages/gnunet/gnunet/files/plugin_transport_http_client_emscripten.c:275-318 | deleting takes one session with its task and its connection, and touches no other session or task |
| HttpSessions.PeerGoes | gnunet-build/packages/gnunet/gnunet/files/plugin_transport_http_client_emscripten.c:430-465 | disconnecting a peer takes exactly the sessions of that peer with their tasks and connections, and touches no other |
| HttpSessions.RescheduleMoves | gnunet-build/packages/gnunet/gnunet/files/plugin_transport_http_client_emscripten.c:325-330 | activity sets the timeout of its session to an idle period from now and touches nothing else |
| HttpSessions.OpenAnswers | gnunet-build/packages/gnunet/gnunet/files/plugin_transport_http_client_emscripten.c:779-878 | opening succeeds exactly below the limit with a network type and a printable address; the new session has that address, a GET of its own, a full session period and one task, and no other is touched |
| HttpSessions.OpenFails | gnunet-build/packages/gnunet/gnunet/files/plugin_transport_http_client_emscripten.c:860-870 | a failed connect leaves sessions, count and tasks as they were |
| HttpSessions.EntryCounts | gnunet-build/packages/gnunet/gnunet/files/plugin_transport_http_client_emscripten.c:637-649 | a session that connects below the limit gets a GET number that no other session holds, and the count is again the number of sessions, within the limit |
| HttpSessions.TimeoutCases | gnunet-build/packages/gnunet/gnunet/files/plugin_transport_http_client_emscripten.c:739-768 | a timeout task ends its session exactly when the timeout has come, and else only replaces itself |
| HttpRuns.NextKeepsInv | gnunet-build/packages/gnunet/gnunet/files/plugin_transport_http_client_emscripten.c:275-878 | every call and every timeout keeps the invariant |
| HttpRuns.SessionTable | gnunet-build/packages/gnunet/gnunet/files/plugin_transport_http_client_emscripten.c:779-878 | in all runs: one session per address, the count is the number of sessions holding a GET and within the limit, exactly one pending task per session and none for others |
| HttpRuns.PunctualIff | gnunet-build/packages/gnunet/gnunet/files/plugin_transport_http_client_emscripten.c:325-330 | in all runs tasks are due no later than the timeouts, if and only if the session period in whole milliseconds is within the idle period |
| HttpRuns.IdlePeriodPasses | gnunet-build/packages/gnunet/gnunet/files/plugin_transport_http_client_emscripten.c:739-768 | the timeout path ends a session only after the full idle period since any activity |
| HttpRuns.IdleSessionEndsIff | gnunet-build/packages/gnunet/gnunet/files/plugin_transport_http_client_emscripten.c:739-768 | after its last activity a session is ended by its timeout task exactly when that runs a full idle period later or after; else it waits again |
| HttpRuns.NewSessionLives | gnunet-build/packages/gnunet/gnunet/files/plugin_transport_http_client_emscripten.c:837-845 | a new session is not timed out before the shorter of the two periods |
| HttpRuns.UntouchedSessionEndsIff | gnunet-build/packages/gnunet/gnunet/files/plugin_transport_http_client_emscripten.c:739-878 | a new session without activity is ended by its timeout task exactly when that runs a full session period after its opening or later |
| FileStorage.Storage.Create | src/cljs/amatus/filestorage.cljs:32-47 | an empty blob under a fresh handle |
| FileStorage.Storage.Delete | src/cljs/amatus/filestorage.cljs:49-55 | removes exactly that file |
| FileStorage.Storage.Write | src/cljs/amatus/filestorage.cljs:57-78 | overwrites one file from an offset on with zero fill and no loss, and touches no other |
| FileStorage.SpliceOverwrites | src/cljs/amatus/filestorage.cljs:68-74 | header, fill, data and trailer are the pointwise overwrite, of the greater length |
| FileStorage.ReassembledAt | src/cljs/amatus/filestorage.cljs:57-78 | block writes in any order and with repeats leave the file's bytes where they cover it |
| FileStorage.RebuildsIff | src/cljs/amatus/filestorage.cljs:57-78 | a download rebuilds the file if and only if its blocks reach its end and cover its non-zero bytes |
| FileStorage.CoveringBlocksRebuild | src/cljs/amatus/filestorage.cljs:57-78 | blocks that cover the file rebuild exactly that file |
| FileStorage.OrderDoesNotMatter | src/cljs/amatus/filestorage.cljs:57-78 | the result depends only on which blocks were written |

## Left out

- EventLoopTables.Tables: sockets are entries of a map, not objects; the closures in the source keep an entry alive after close, but find nothing to do with it because its task is gone.
- EventLoopTables.Tables.SocketConnect: whether a message channel can be made and the window takes it is a parameter; do_to_window and client_connect of pre.js are not modelled.
- EventLoopTables.Tables.SocketSend: whether postMessage throws is a parameter; the transfer of buffers is not modelled.
- EventLoopTables.Tables.SocketAccept: the name is kept with the socket; writing it to the caller's address buffer is not modelled.
- EventLoopTables.Tables.SchedulerAddDelayed: delays and priorities play no part, since a timer may fire at any later event; timer handles and descriptors are unbounded and not reused.
- EventLoopSafety.NoLostWakeup: safety only; that the browser fires armed timers at some time is not stated.
- The other service routines of pre.js: the init message, the random byte device and its read loop, file system set-up.
- Endpoints.BytesConserved: one joined pair is followed, and a run ends for it when a closed descriptor is given to another connection; other sockets of the two event loops appear only as events that leave it alone.
- Parser.ParseUtf8Inverts: names are kept as their octets; goog.crypt's conversion between UTF-8 and strings is not part of this model.
- HelloCodec.RoundTrip: Clojure leaves the order in which maps are walked open, so it is a parameter and the theorem holds for every order.
- DataStructures.FlattenOfGroup: labels are the sequence of keys from the outside in; distinct level names are assumed in place of a map with repeated names.
- Message.Framing: the set of parsers is given as a list, in the order in which it is enumerated.
- equals-hello: it compares vectors with >=, which is not the expiration order, and nothing uses it.
- HelloCodec.HostlistRoundTrip: the effects of parse-hostlist on the transport service are not modelled.
- DatastorePlugin.Plugin: requests succeed and each transaction is atomic; request errors, the opening of the database and its upgrade are not modelled. An exhausted key generator is.
- DatastorePlugin.Plugin.Put: numbers are unbounded naturals; the rounding of sums and times above 2^53 is not modelled.
- DatastorePlugin.Plugin.GetKey: random is not implemented by the source; without a key the uid asked for plays no part, contrary to the comment in plugin_datastore_emscripten.c.
- DatastorePlugin.Plugin.GetReplication: the source does not skip expired records, contrary to the comment in plugin_datastore_emscripten.c, and neither does the model.
- DatastorePlugin.Plugin.GetZeroAnonymity: type 0 is an exact type in the source, and here.
- get_keys: it passes the composite index key on and counts it, so it would only add an easy member.
- HttpPlugin.Plugin.SessionDisconnect: what the transport service does when it is told of the end of a session is not modelled, nor are monitors and statistics.
- HttpPlugin.Plugin.RescheduleSessionTimeout: activity is an event of its own; receive throttling and message parsing are not modelled.
- HttpPlugin.Plugin.GetSession: whether an address has a network type and can be printed are parameters; GNUNET_HELLO_address_cmp is not part of this model and stands for equality of an address's location; session handles are not reused.
- HttpRuns.SessionTable: counters are unbounded; the 32-bit width of next_xhr and last_tag is not modelled.
- FileStorage.Storage.Write: requests succeed; offsets are natural numbers, as block offsets are.
- The peerstore and WebRTC plugins, the file-sharing patch, configuration, user interface and service start-up.
