# Verified model of the request-response protocol

The repository is a small request-response protocol over TCP for servers on a PC and clients on
a ZX Spectrum. An object is a list of key-value properties. A message carries a flags byte, a
length, a request id and one or more objects. This project models the library in Dafny 4.11 and
proves what the library is for; `dafny verify dfyconfig.toml` checks all of it.

There are four parts.

* **Objects in memory and on the wire** (`Bytes`, `Objects`, `Messages`, `Memory`, `Builder`,
  `Reader`, `Copier`, `Lookup`, `Writers`, `Relay`). Memory is one array of bytes; pointers are
  offsets into it, stored little-endian in `ptr` bytes; address 0 is NULL. Assigning, reading,
  copying and sending are loops over that array, as in C, with the same 8-bit and 16-bit
  counters. Each is proved to leave exactly one memory behind, and those memories are related to
  object values: `Holds` for an object that points at its properties anywhere, `Owns` for one
  that carries them.
* **The incremental receiver** (`Parser`, `Streams`, `Receiver`, `Buffering`). `Receiver` is the
  processor with its buffer, its three states, 16-bit counters and in-place compaction. It
  refines `Parse`, a function over the whole stream, which in turn agrees with `Stream`, a plain
  recursive reader of messages. Callbacks and `send` are parameters.
* **Requests and responses** (`Requests`, `RequestProcessor`, `ResponseChain`,
  `RequestHandlers`, `Endpoints`, `Connection`, `Network`, `Traffic`, `EndToEnd`, `Echo`,
  `Limits`, `Spectrum`). The callbacks of the library are classes that are proved against
  functions on a `Peer`; `Connection` runs these objects side by side with a receiver and shows
  that they agree with the functions. `Network` puts two peers, either of which may ask and be
  asked, and two byte channels together as a transition system, whose runs are then reasoned
  about. A client and a server are the case where one side has no handlers.
* **The hash table behind the dispatch** (`HashBits`, `HashLinks`, `HashChains`, `HashExpand`,
  `HashTable`, `HashFsck`, `MergeSort`, `HashSort`). Items are heap objects on two linked lists;
  macros become methods that relink them.

Where C leaves open what happens, the model says so: a connection gets the status `Undefined`, a
peer loses `defined`. This concerns an object table that outgrows its stack buffer although its
8-bit property count says it fits (the reader is run, and has then written past the buffer), an
object that was not readable but is looked at, an error text that does not fit `error_str`, and
calling a callback that is NULL. The end-to-end theorems prove that none of these is ever reached.

## Where the code differs from its documentation

The model follows the code.

* The buffer has to hold one biggest object (Readme.md:25-27), and it also has to hold the five
  bytes of a header: `Buffering.BufferSize` has the exact bound.
* The layout comments in include/proto_objects.h:60 and src/proto_objects.c:272-276 speak of two
  reserved bytes; the code reserves the seven bytes of `ProtoObjectRequestHeader`.
* A response is a failure if its first object has an error property (Protocol.md:88-90). In the
  code it is one if and only if it has the error flag and any of its objects has an error
  property (`Limits.FailureExactly`): the last one decides (`Limits.LaterErrorWins`), and without
  the flag an error object is delivered and the response succeeds (`Limits.UnflaggedError`).
* An error text is a failure (include/proto.h:78), except for the empty one, whose property is
  dropped: `Limits.ErrorIsReported`.
* A response nobody waits for is answered with an error response (`Limits.AnsweredIff`). After a
  second request while the first is outstanding, such responses are exchanged for ever, however
  the bytes are delivered: `Echo.OverlapNeverEnds`.
* There are two readers, and the receiver here uses the one in C. They differ if and only if an
  object is empty (`Reader.ReadersAgree`): the one for the Z80 then takes a record from whatever
  is behind the object (`Reader.MisreadRecord`). So the theorems about receiving hold for a ZX
  Spectrum where no empty object is sent, that is, where every answer is an error text or
  non-empty objects: `Spectrum.NothingEmpty`, `Spectrum.ReadLikewise`.

## Model

| member | source | states |
|---|---|---|
| Objects.ParseWire | Protocol.md:36-57 | every object is read back from its wire form |
| Objects.WireParse | Protocol.md:36-57 | bytes that read as an object are exactly its wire form: the wire form is unique |
| Messages.MessageLayout | Protocol.md:12-30 | flags, length and id in that order, little-endian, then the objects |
| Messages.ObjectLayout | Protocol.md:32-46 | the size of an object, little-endian, then its properties |
| Messages.PropertyLayout | Protocol.md:48-57 | the size of a value, little-endian, then the key, then the value |
| Messages.LayoutExample | Protocol.md:12-57 | a response with one object of two properties, byte by byte |
| Messages.FlagBits | include/proto.h:38-39 | an error is bit 0x01 of the flags, a response bit 0x02 |
| Objects.ExactAcceptance | src/proto_objects.c:83-130 | an object is readable if and only if its bytes are a whole concatenation of records and the pointer table with NULL fits; it then has exactly those records |
| Objects.OverrunExactly | src/proto_objects.c:85-111 | the bound check lets an object through that does not fit if and only if its 8-bit count wraps to one that does |
| Objects.OverrunReached | src/proto_objects.c:85-111 | 256 empty properties, 768 bytes, are let through for the 128-byte buffer of the receiver, with pointers of any size up to 8 |
| Objects.NoOverrun | src/proto_objects.c:85-111 | with at most 767 bytes the count cannot wrap, so the bound check is sound |
| Reader.Read | src/proto_objects.c:83-130 | for all bytes: the return code is that of the specification; a rejected object changes no memory; an accepted one changes exactly the size and pointer table and then holds its properties; the table ends within the space available, or past it if and only if the count wrapped; no byte behind a well-formed object is read |
| Reader.ScanMemory | src/proto_objects.c:90-105 | one step of the counting loop either finds a record or shows that the bytes are no object |
| Reader.FillTable | src/proto_objects.c:115-128 | the second loop writes the table of all record starts, then NULL |
| Reader.PointedAtHolds | src/proto_objects.c:113-128 | an object pointed at records elsewhere holds exactly those records |
| Reader.ReadZ80 | src/proto_object_read.asm:9-56 | the assembler loop, with 16-bit addresses and the carry left by subtracting and adding back, leaves the memory of the C reader behind, or, for an empty object, a table with one record where there is none |
| Reader.MisreadRecord | src/proto_object_read.asm:30-52 | what a lookup then sees is the record made of the bytes behind the empty object |
| Reader.ReadersAgree | src/proto_object_read.asm:20-54 | on objects that the C reader accepts, without wrapping around the address space, both readers leave equal memories if and only if the object is not empty |
| Builder.Assign | src/proto_objects.c:33-78 | the memory after assigning is the layout of the non-empty properties, last to first, with nothing else changed; reading the layout gives exactly those properties |
| Builder.KeptIs | src/proto_objects.c:39-75 | the properties that reach the object are all of the chain with a value, in the order of the chain |
| Memory.LaidOutOwns | include/proto_objects.h:57-65 | the layout of any object, in one block, holds exactly its properties |
| Memory.LaidOutElsewhere | src/proto_heap.c:40-68 | laying an object out leaves every byte outside its block alone |
| Memory.OwnsFrame | include/proto_objects.h:63-65 | an object with its own data depends on no byte outside its block |
| Memory.ObjectData | src/proto_objects.c:257-267 | the address found by counting pointers is where the reserved bytes start |
| Copier.Copy | src/proto_heap.c:71-111 | the copy of any readable object, wherever its properties are, is the layout of the same properties; nothing else changes |
| Copier.CopyIsIndependent | src/proto_heap.c:71-111 | the source is still intact, and the copy survives every later change outside its block |
| Relay.KeepAndSend | src/proto_req_handlers.c:47-47 | an object is read and copied, the receive buffer is overwritten, the copy is sent: the property bytes sent are those received |
| Lookup.Search | src/proto_objects.c:134-147 | the lookup loop stops at the record of the first match, and at NULL if and only if there is none |
| Lookup.FirstMatch | src/proto_objects.c:134-184 | the property has the key asked for, and the size if one is; no earlier one has; without a result none has |
| Lookup.FindProperty | src/proto_objects.c:134-147 | the address of the record of the first property with this key, or NULL if and only if no property has it |
| Lookup.GetUint16 | src/proto_objects.c:169-184 | the little-endian number in the first property with this key and two bytes; the default if there is none |
| Lookup.CopyStr | src/proto_heap.c:113-120 | the copy is the value, whatever is in it, with a NUL behind |
| Lookup.Walk | src/proto_objects.c:136-144 | following the pointer table to its NULL yields the properties of the object, all of them, in order |
| Writers.UpdateSize | src/proto_objects.c:269-283 | the two bytes in front of the properties get the object size; the object is unharmed |
| Writers.SendOne | src/proto.c:625-643 | what is sent from the reserved bytes is the encoding of the one-object message; the object is unharmed |
| Writers.SerializeGetSize | src/proto.c:522-532 | the size is the length of the encoding modulo 2^16, so it is right if and only if that is below 2^16 |
| Writers.Serialize | src/proto.c:534-555 | the bytes written are the encoding of the message, and the end pointer is behind them |
| Writers.SendCombined | src/proto.c:568-597 | what is sent in one call is the encoding of the message |
| Writers.SendPiecewise | src/proto.c:600-618 | what is sent in many calls is, taken together, the encoding of the message |
| Parser.StepAppend | src/proto.c:207-327 | bytes that arrive later do not change a step already possible |
| Parser.ParseAppend | src/proto.c:351-385 | for all bytes: parsing, keeping the leftover and parsing on equals parsing everything at once |
| Parser.FragmentationIndependent | src/proto.c:340-386 | for all bytes and any two ways to cut them up: the same events, state and leftover |
| Parser.AnyFragmentation | src/proto.c:340-386 | the same from the state after `proto_init` |
| Parser.MachineReadsStream | src/proto.c:182-327 | the three-state machine sees exactly what a recursive reader of whole messages sees |
| Streams.MessageRoundTrip | src/proto.c:182-327 | an encoded message with readable objects, followed by anything, yields its header, its objects in order and its end, then whatever follows |
| Streams.StreamRoundTrip | src/proto.c:182-327 | any number of encoded messages back to back yield exactly their events, nothing left over |
| Streams.StreamInAnyFragmentation | src/proto.c:340-386 | the same however the stream is cut up |
| Streams.NeverEarly | src/proto.c:248-313 | a message that is not there as a whole has not been completed: only a proper prefix of its events has been seen |
| Streams.OneCompleted | src/proto.c:288-313 | a message is completed once, by its last event |
| Streams.ObjectSteps | src/proto.c:235-317 | an object completes its message as soon as the 16-bit count of bytes reaches the length in the header, and not before |
| Receiver.Receiver.constructor | src/proto.c:58-71 | a new processor is where an empty stream puts it |
| Receiver.Receiver.TakeHeader | src/proto.c:211-233 | the header case is a step of the parser, and calls the start callback |
| Receiver.Receiver.TakeObjectSize | src/proto.c:235-256 | the object size case is a step of the parser |
| Receiver.Receiver.DeliverObject | src/proto.c:262-280 | the reader is run; the object callback gets exactly what reading the received bytes yields, unless the reader wrote past the object buffer; the receive buffer is untouched |
| Receiver.Receiver.CompleteRequest | src/proto.c:290-310 | the completion callback is called; its error text, if any, is sent as an error response; the connection ends if and only if that fails |
| Receiver.Receiver.SendError | src/proto.c:298-306 | what is sent is an error response with the id of the request and the text |
| Receiver.Receiver.TakeObject | src/proto.c:257-319 | the object case is a step of the parser, with 16-bit counters |
| Receiver.Receiver.Process | src/proto.c:182-327 | the loop ends, at every switch entry and fall-through `data` and `available` describe the bytes not consumed yet, and its effect is that of the parser on the buffer |
| Receiver.Receiver.RecvProcess | src/proto.c:340-429 | after any arrival of 1 to `afford` bytes the callbacks have had exactly the events of all bytes ever received, and the buffer holds exactly what is left over |
| Receiver.ConnectionEnds | src/proto.c:301-309 | a connection goes up to the first error response that cannot be sent, or the first object written past its buffer; after that no callback is called and nothing is sent; without one it is alive to the end |
| Receiver.Receiver.NoFailedSend | src/proto.c:370-373 | while a receiver is alive, no error response has failed to be sent |
| Receiver.Receiver.Compact | src/proto.c:375-385 | compaction keeps exactly the bytes not consumed, in place |
| Receiver.Receiver.RoomLeft | src/proto.c:351-385 | with room for a header and for the object at hand there is room for another byte |
| Receiver.RunAppend | src/proto.c:340-386 | the callbacks' state is determined by the events in order, not by the calls they came in |
| Buffering.OnlyWhatFits | src/proto.c:213-259 | for any stream: what does not fit the buffer is never reported |
| Buffering.NoStall | Readme.md:23-27 | with a buffer for a header and for the largest object there is always room, however long the messages and however they are cut up |
| Buffering.BufferSize | Readme.md:23-27 | a stream can be received through a buffer if and only if the buffer holds a header and each single object |
| Requests.StaleIsolation | src/proto_req.c:41-43 | whatever arrives for another request, readable or not, makes no user callback and changes nothing about the current request; each completed response is answered |
| Requests.MatchedUnanswered | src/proto_req.c:78-121 | nothing that arrives for the current request is answered |
| Limits.AnsweredExactly | src/proto_req.c:87-92 | a whole response with another id leads to one error response and nothing else |
| Limits.AnsweredIff | src/proto_req.c:87-92 | a whole response is answered if and only if its id is not the current one |
| Limits.FailureExactly | Protocol.md:86-90 | a response is reported as a failure if and only if it has the error flag and some object with an error property |
| Limits.UnflaggedError | Protocol.md:86-90 | a response whose only object is an error object, without the flag, is delivered and succeeds |
| Limits.LaterErrorWins | src/proto_req.c:46-58 | with the flag, an error text in a second object is the one reported, whatever the first object says |
| Limits.EmptyMessage | src/proto.c:221-256 | a message without objects is not completed: the machine waits for an object |
| Limits.MessageNeedsObject | src/proto.c:221-256 | a message is reported as it was sent if and only if it has an object |
| Limits.ErrorIsReported | src/proto.c:296-305 | with the C reader, an error text reaches the user as one if and only if it is not empty; an empty one is reported as success |
| Limits.ResponsesAreSent | src/proto_req_handlers.c:105-105 | all responses of a handler are sent if and only if there are fewer than 256 |
| Limits.ReadableProperties | src/proto.c:262-273 | the receiver can read an object of up to 14, 30 or 62 properties, with 8-, 4- or 2-byte pointers, and none of more |
| RequestProcessor.Processor.NewRequest | src/proto_req.c:10-28 | a request from the other side, and no response, starts a request |
| RequestProcessor.Processor.NewObject | src/proto_req.c:30-76 | the new state is that of the specification: objects of the current response are handed on with consecutive numbers; in an error response each error text replaces the one before; stale objects are ignored |
| RequestProcessor.Processor.SetError | src/proto_req.c:53-55 | the text replaces the previous one if it fits |
| RequestProcessor.CopyTerminated | src/proto_req.c:53-54 | the buffer starts with the text and a NUL |
| RequestProcessor.Processor.ErrorString | src/proto_req.c:94-101 | the error callback sees the text up to its first NUL |
| RequestProcessor.Processor.Recv | src/proto_req.c:78-121 | the new state and the error text are those of the specification: one of success or error, or a request served |
| RequestProcessor.Processor.Send | src/proto_req.c:123-158 | a new id, counters reset, callbacks replaced, and the encoded request sent, with 0; or not, with 3, and all the rest the same |
| ResponseChain.Append | include/ut/utlist.h:343-354 | the list becomes the list with the node at its end |
| ResponseChain.Count | include/ut/utlist.h:409-413 | the number of nodes |
| ResponseChain.AsArray | src/proto_req_handlers.c:96-103 | the array has the objects of the chain, in order |
| ResponseChain.Delete | include/ut/utlist.h:390-404 | the list becomes the list without that node, wherever it is; without it in the list, nothing changes |
| ResponseChain.AddResponse | src/proto_req_handlers.c:132-137 | the object is the last of the chain, and the one new node is allocated |
| ResponseChain.Respond | src/proto_req_handlers.c:132-137 | a chain built by a handler has its objects in the order added, each in a block of its own |
| ResponseChain.TearDown | src/proto_req_handlers.c:107-117 | every node and every object of the chain is freed exactly once, nothing else is, and the chain ends empty |
| RequestHandlers.HandleRequest | src/proto_req_handlers.c:7-13 | the table maps the name to the handler, and everything else as before |
| RequestHandlers.ServerHandlers.RequestNew | src/proto_req_handlers.c:23-36 | exactly the copies held are freed, each once, and none is held any more |
| RequestHandlers.ServerHandlers.RequestObject | src/proto_req_handlers.c:38-48 | a copy is appended and owned, or nothing happens when 32 are held |
| RequestHandlers.ServerHandlers.FindHandler | src/proto_req_handlers.c:54-75 | the handler of the item whose key is the first ID of the first object, up to its first NUL; none if and only if no item has that key, or there is no ID, or no object, with the error text for each |
| RequestHandlers.FoundIs | src/proto_req_handlers.c:54-75 | that is what the specification of the dispatch says |
| Requests.AnswerIs | src/proto_req_handlers.c:54-83 | the answer, case by case: the handler registered under the ID is called with all objects of the request |
| RequestHandlers.ItemsAnswer | src/proto_req_handlers.c:68-79 | for an item of the table with that key, the answer is what its handler makes of the objects |
| RequestHandlers.ServerHandlers.CallHandler | src/proto_req_handlers.c:77-122 | the handler is called with the objects held; its error is returned, or its responses are sent and torn down; memory is left allocated if and only if it failed after adding responses |
| RequestHandlers.ServerHandlers.StateIs | src/proto_req_handlers.c:38-48 | the objects of the state are those in the slots, in order |
| RequestHandlers.SendResponses | src/proto_req_handlers.c:85-120 | the chain is sent as one message in the order added, the count cut to 8 bits, and nothing if it is empty; everything allocated for it is freed |
| RequestHandlers.ServerHandlers.Complete | src/proto_req_handlers.c:50-123 | with a handler found, its error, or the bytes of its responses, for the objects held; otherwise the error text for the reason; memory is left allocated if and only if the handler failed after adding responses |
| RequestHandlers.ServerHandlers.ServeCalls | src/proto_req_handlers.c:23-123 | over any sequence of calls: bytes, errors and state are those of the specification, and what is allocated is what was plus the copies held, if and only if no failing handler left responses behind |
| RequestHandlers.FirstObjects | src/proto_req_handlers.c:33-48 | at completion the server holds the first 32 objects of this request, in order, whatever came before |
| Endpoints.ReceiveTwice | src/proto.c:340-429 | for any state: two arrivals amount to one |
| Endpoints.ReceiveMessage | src/proto.c:340-429 | a whole message has the effect of its events on the peer |
| Endpoints.ServerPart | src/proto_req_handlers.c:33-48 | a server sends nothing while a request is incomplete |
| Endpoints.ServerObjects | src/proto_req_handlers.c:33-48 | part of the way through a request of any length, the server holds the first 32 objects so far, in order |
| Endpoints.ServerWhole | src/proto_req_handlers.c:50-123 | a complete request, with any number of objects, is answered with exactly one reply, which has its id |
| Endpoints.NamedRequest | src/proto_req_handlers.c:54-122 | a complete request naming a registered handler: what the handler returns for its objects is sent, as an error or a response, under the same id |
| Endpoints.ObjectsComeBack | src/proto_req_handlers.c:77-105 | with a handler that returns its objects, the first 32 objects of the request come back |
| Endpoints.RequestToNobody | src/proto_req.c:66-75 | without incoming callbacks, the objects of a request are ignored, and its end calls NULL |
| Endpoints.ClientObjects | src/proto_req.c:60-64 | the client's user gets the objects of the response, numbered from 0, in order |
| Endpoints.ErrorObjects | src/proto_req.c:46-58 | part of the way through an error response, the text kept is that of the last object so far that has one |
| Endpoints.ObjectsOf | src/proto_req.c:60-64 | in any state, for any callbacks: objects are handed on and counted in 8 bits, or neither |
| Endpoints.ResponseToAny | src/proto_req.c:30-121 | a whole response, in any state, for any callbacks, NULL or not: what is handed on and how it ends; error texts are not looked at once objects have been handed on; a failure without error callback is not told |
| Endpoints.UnreadableObject | src/proto.c:273-280 | an object whose reading failed matters if and only if somebody looks at it |
| Endpoints.ResponseWhole | src/proto_req.c:30-121 | any complete response to the current request leads to exactly one end: with the error flag, a failure with the text of the last object that has one, otherwise success; without it, all objects and success |
| Endpoints.ClientPart | src/proto_req.c:30-76 | while the response is incomplete, the user has seen a part of it, with no success or error, and nothing is sent |
| Endpoints.ClientWhole | src/proto_req.c:78-121 | a complete response leads to exactly its objects and success, or to exactly one error, and nothing is sent |
| Connection.HandleAll | src/proto.c:222-306 | the processor's callbacks, called for any events, take it where the specification goes |
| Connection.Arrive | src/proto.c:340-429 | one arrival takes a receiver to the next state of the endpoint in the network, and a processor object, run side by side with it on the same events, agrees |
| Network.HandlersSuffice | Protocol.md:86-98 | a party serves another well if each of its handlers returns a non-empty error that fits, or 1 to 255 objects that fit the other |
| Network.DeliverTwice | src/proto.c:340-429 | two deliveries in a row leave the network where one of all their bytes does |
| Network.RunWrote | src/proto_req_handlers.c:105-105 | what a peer does with what arrives does not depend on what it has written before |
| Traffic.FlowPart | src/proto.c:375-385 | messages under way stay so, in order, while part of the first arrives |
| Traffic.FlowWhole | src/proto.c:288-313 | when the rest of the first arrives, the others are under way to an endpoint at rest |
| Traffic.RequestArrived | src/proto_req_handlers.c:50-123 | a request that has arrived leads to one reply, and leaves the peer's own request alone |
| Traffic.AskWhileArriving | src/proto_req.c:123-158 | sending a request in the middle of receiving one is like sending it before |
| Traffic.ReplyArrived | src/proto_req.c:78-121 | a reply that has arrived leads to its callbacks, and leaves the requests being served alone |
| EndToEnd.IssueKeeps | src/proto_req.c:123-158 | a request issued on either side, whatever is arriving there, keeps the invariant |
| EndToEnd.DeliverKeeps | src/proto.c:340-429 | any number of bytes delivered, across message boundaries, keeps the invariant; just as many fewer are left to deliver, replies not yet written included |
| EndToEnd.StepKeeps | include/proto_req.h:47-56 | every action of either side keeps the invariant of both sides and both channels |
| EndToEnd.RunKeeps | include/proto_req.h:47-56 | every run keeps it |
| EndToEnd.Safety | Protocol.md:3-13 | in every run of two peers that may both ask and be asked, for any fragmentation: each user has been told exactly the outcome of the finished requests and a part of the outstanding one; both sides are alive and defined; each has written nothing but its requests and one reply to each request, in order |
| EndToEnd.OutstandingExactly | src/proto_req.c:94-109 | a request is outstanding if and only if it or its reply is under way, and then its user has seen only a part of the outcome |
| EndToEnd.NeverStuck | src/proto.c:351-385 | while a request is outstanding on either side, some byte can be delivered |
| EndToEnd.Finishes | Protocol.md:3-13 | from every reachable state, every way of delivering what is under way ends after a bounded number of deliveries, and not before all requests of both sides are finished |
| Echo.Answers | src/proto_req.c:87-92 | of the messages that can be under way after two requests at once, each stale one is answered by a message with its id |
| Echo.MatchedDefined | src/proto_req.c:30-121 | responses to the current request, expected or not, leave a peer defined, and nothing is sent |
| Echo.OneTooMany | examples/terminal/client/client.c:143-144 | a second request while the first is outstanding is what the rest of the model rules out |
| Echo.OverlapCirculates | src/proto_req.c:123-158 | after two requests at once, a message with the id of the first is under way |
| Echo.DeliveriesCirculate | src/proto_req.c:87-92 | and stays so however bytes are delivered |
| Echo.OverlapNeverEnds | src/proto_req.c:87-92 | from any reachable state with nothing outstanding: after two requests at once, for every sequence of deliveries in any pieces, something is under way, and, if the buffers hold an error object, can be delivered; unless the other side's own current id happens to be that of the first request |
| Echo.OverlapExample | src/proto_req.c:87-92 | the same without hypotheses for a server without handlers, two empty objects and 21-byte buffers |
| Spectrum.ReadLikewise | src/proto_object_read.asm:9-56 | wherever a receiver with 2-byte pointers hands on an object that is not empty, the Z80 reader leaves the same memory |
| Spectrum.NothingEmpty | src/proto_object_read.asm:9-56 | in every run in which no empty object is sent, in any pieces, no reader is given an empty object, nor one that it cannot read |
| HashBits.MaskIsRemainder | include/ut/uthash.h:433-436 | masking a hash value with a power of two minus one is the remainder, bit by bit |
| HashBits.ShiftIsDivision | include/ut/uthash.h:849-851 | shifting is division by a power of two, bit by bit |
| HashBits.IdealIsCeiling | include/ut/uthash.h:818-834 | the shift-and-mask form is the ceiling of items over buckets |
| HashLinks.AppendList | include/ut/uthash.h:281-287 | the doubly linked list gets the item at its end |
| HashLinks.Unlink | include/ut/uthash.h:463-474 | the doubly linked list loses exactly the item deleted |
| HashLinks.Unchain | include/ut/uthash.h:792-805 | the chain of the bucket loses exactly the item deleted |
| HashChains.Push | include/ut/uthash.h:770-779 | the item joins the chain of its hash value, which is counted; no other chain changes |
| HashChains.Remove | include/ut/uthash.h:792-805 | the item leaves the chain of its hash value, which is counted; no other chain changes |
| HashExpand.MoveOne | include/ut/uthash.h:857-871 | one item goes to its new bucket; the item count beyond ideal and the multipliers stay exact |
| HashExpand.MoveChain | include/ut/uthash.h:854-872 | the same for all items of one old chain |
| HashExpand.MoveAll | include/ut/uthash.h:853-873 | every item ends in the new chain of its hash value, once; the count of items beyond ideal is the sum over buckets; every chain is within its multiplier |
| HashTable.Table.MakeTable | include/ut/uthash.h:215-245 | a new table has 32 buckets, all of them empty, and expansion on |
| HashTable.Table.Expand | include/ut/uthash.h:836-886 | the buckets double; every item is where it belongs; the ideal length is quotient plus one if there is a remainder; `nonideal_items` is the number of places in chains beyond it; each multiplier is zero exactly for ideal chains, and otherwise bounds its chain from both sides; a second ineffective doubling in a row turns expansion off |
| HashExpand.ExcessIsNumber | include/ut/uthash.h:859-864 | the count kept while items move is the number of places beyond the ideal length |
| HashTable.Table.AddToTable | include/ut/uthash.h:340-348 | the item is in its bucket, and the buckets double if and only if the threshold is reached and expansion is on |
| HashTable.FindInBucket | include/ut/uthash.h:748-767 | the item of the chain with that key, or NULL if and only if there is none |
| HashTable.Table.Add | include/ut/uthash.h:399-425 | the list gets the item at its end, and the map gets its key; the whole table stays valid, doubling included |
| HashTable.Table.Find | include/ut/uthash.h:156-176 | the value of the map at that key, or NULL if and only if the key is not in the map, for every hash function |
| HashTable.Table.Delete | include/ut/uthash.h:450-480 | the list loses exactly the item, and the map its key; the whole table stays valid |
| HashTable.EntriesWithout | include/ut/uthash.h:450-480 | the map of a list without an item is the map without its key |
| HashFsck.TotalIsSize | include/ut/uthash.h:526-550 | the chains together have as many items as belong to their buckets |
| HashFsck.CheckBucket | include/ut/uthash.h:526-546 | on any chain that ends: complains if and only if a link back or the count is wrong |
| HashFsck.CheckList | include/ut/uthash.h:551-561 | on any list that ends: complains if and only if a link back is wrong |
| HashFsck.Fsck | include/ut/uthash.h:519-566 | on any table whose chains and list end: complains if and only if a link back, a bucket count or the item count is wrong |
| HashFsck.FsckValid | include/ut/uthash.h:519-566 | on a valid table, it has nothing to complain about |
| MergeSort.MergeStable | include/ut/uthash.h:920-960 | merging keeps equivalent elements in order, those of the first run first |
| MergeSort.PassRuns | include/ut/uthash.h:907-962 | a pass over sorted runs leaves sorted runs of twice the length |
| MergeSort.PassesElements | include/ut/uthash.h:902-972 | the sort is a permutation, whatever the comparison does |
| MergeSort.SortSorts | include/ut/uthash.h:893-975 | with a total preorder the result is ascending by the comparison given, and stable |
| HashSort.TakeOne | include/ut/uthash.h:921-948 | the branches take the first element of the merge of what is left of both runs |
| HashSort.MergeRuns | include/ut/uthash.h:919-961 | relinking appends exactly the merge of both runs to the list built so far |
| HashSort.OnePass | include/ut/uthash.h:903-965 | relinking leaves exactly the list of one pass, linked both ways, with its number of merges |
| HashSort.SortList | include/ut/uthash.h:898-972 | the loop ends, with the list in the order of the sort function |
| HashSort.SameEntries | include/ut/uthash.h:893-975 | the map of a list does not depend on its order |
| HashSort.SortedEntries | include/ut/uthash.h:893-975 | in terms of the comparison alone: no item is greater than a later one, and two items that may come in either order stay in theirs |
| HashSort.Sort | include/ut/uthash.h:893-975 | in place: the table is valid; with a total preorder its items ascend by the comparison given, stably; they are the same items, the map is the same, buckets and chains are untouched |

## Left out

- Sockets, `poll`, connecting, listening, disconnecting, `errno` and Winsock: a `recv` delivers
  between 1 and `afford` bytes; a `recv` that fails or returns nothing is not modelled.
- `send` takes all bytes or fails; partial writes are not modelled, as the code ignores them.
- The `STACKLESS_PROCESS` and `STATIC_PROCESSOR` variants, which repeat the same logic on globals.
- Running out of memory (`malloc` returning NULL, `HASH_NONFATAL_OOM`).
- Alignment and structure packing: fields are at the offsets that packing gives them.
- The memory behind objects that handlers hold: the request and server classes work on object
  values, one block each; `Copier` and `Relay` say what such a block is in memory.
- ResponseChain.Heap: tracks which blocks are allocated, as ghost state, not where they are.
- The copied name in src/proto_req_handlers.c:66-70 is a value, not a block of the heap.
- User state of handlers: a handler sees how many requests have been handled and the objects.
- Receiver.Receiver.SendError: error texts longer than 228 bytes, which overflow the 256-byte stack
  buffer of src/proto.c:299 and are outside the type `Text`.
- Builder.Assign: like the code, leaves it to the caller that the object has fewer than 256
  properties, fewer than 2^16 bytes, and fits its buffer.
- Copier.Copy: for fewer than 256 properties; with more, its 8-bit counter makes the block too
  small. The receiver never hands out such an object: its table would not fit 128 bytes.
- ResponseChain.Delete: the list is not empty; the code follows its head without looking.
- Reader.ReadZ80: an empty object in front of bytes whose supposed value wraps around the address
  space, where the loop goes on.
- EndToEnd.Safety: requests have one object, as `proto_req_send_request` sends them, and one is
  outstanding at a time on each side, as in examples/terminal/client/client.c:143-144.
- RequestHandlers.HandleRequest: a name that is not registered yet, as `HashTable.Table.Add` wants.
- HashTable.Table.Add: keys are unique, as uthash demands; with two equal keys, which one is
  found would depend on the last expansion.
- HashTable.Table.Expand: counters are unbounded, so a table of 2^31 buckets does not wrap.
- HashFsck.Fsck: a table with a chain or a list in a circle, on which the check does not end.
- The hash functions, Bloom filter, `HASH_SELECT`, `HASH_CLEAR`, in-order insertion and the
  replace macros of uthash.
- `LL_SORT`, the `DL_` and `CDL_` lists and the other macros of utlist, which nothing here calls.
- The assembler lookups in src/proto_objects.asm and the getters that add nothing to
  `find_property` and `get_uint16_property`.
- The example programs, the Wireshark script and the build files.
