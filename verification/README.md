# A verified model of rosy

rosy lets the nodes of a mesh send each other topic messages and call each other's services. This
project models the parts of it that are hard to get right and proves what they promise:

- the **wire format** (`Streams`, `IntCodecs`, `CompositeCodecs`, `MessageCodecs`, `WireFormat`, `ClientLoop`,
  `EndOfStream`): integers of fixed and variable length, strings, payloads, sequences, dicts, topic messages, requests and
  responses. Two laws are carried from the integers up to a whole connection: what a codec accepts
  comes back unchanged with the bytes behind it untouched, and a decoder decides by the bytes it has
  read, so a frame that is cut off anywhere runs short and never decodes to something else; `WireFormat` has the bytes of
  a node's messages written out;
- the **writer's lock** (`WriterLock`): any number of tasks writing to one connection piece by piece;
- **remote calls** (`RequestIds`, `Rpc`, `RpcTheorems`, `Straddling`, `IdLeaks`, `ServiceCallers`): the cyclic
  allocator of request IDs, the table of pending futures, the response handler, cancelled and failing calls,
  and server tasks that finish in any order;
- **remote calls over bytes** (`WireCalls`, `WireRefinement`, `WireTheorems`, `ForeignAnswer`): the same with
  every request and response as the bytes that are written and what is decoded from them;
- **load balancing** (`LoadBalancing`, `Grouping`, `RoundRobin`, `NameRounds`): the least recently used node,
  name groups, and what they amount to over runs without bound;
- the **outbox** (`Outbox`, `Senders`): a bounded queue that drops its oldest message, with deadlines and
  a task that consumes it;
- **connections and topology** (`Connections`, `Topology`, `Mesh`, `Senders`): one connection per node, the
  indexes of the topology, the notifier of topology changes and the clean-up after departed nodes;
- **topic order** (`TopicOrder`): outbox, lock, wire and read loop put together.

## How the model is made

An encoder is a function to the bytes it writes and whether it returned; a decoder is a function from the
bytes that arrive before end of stream to a value and a rest, to end of stream, or to any other exception.
What the source does to a writer, a reader, a queue or a dict step by step is a method of a class here,
proved to do what the function of the same name says.

What happens concurrently is a state machine: a `Step` datatype and a function `Next` that gives the next
state or says that the step is not possible. A step is the code between two awaits that can suspend.
`Runs.Run` follows a list of steps, and the theorems speak of every state that any list of steps leads to.
History that no step looks at is kept beside the state (what was sent, which call a packet belongs to).
The classes (`ServiceCaller`, `NodeOutbox`, `PeerConnectionManager`, `ZeroconfNodeDiscovery`) have one method
for each such stretch of code, proved to be that step of the machine.

`Rpc` passes requests and responses around as packets, each with its ID and, as history, the call it belongs
to. `WireCalls` is the machine without that abstraction: calls and tasks write bytes, other tasks write topic
messages between them, and the read loop and the response handler decode whatever is there, a response cut
off by an exception included. `WireRefinement.RefinesRpc` shows that its runs are runs of `Rpc`, packet for
packet, as long as the responses written can be encoded.

## What turned out not to hold

- A signed `VariableLengthIntCodec` rejects values that fit its maximum, such as 128, because `byte_length`
  leaves no room for the sign (`IntCodecs.VarSignedRejects128`; exactly which: `IntCodecs.VarSignedAccepts`).
- A call can get an answer that is not its own. A response that cannot be encoded leaves its ID and status on
  the connection, and the response handler takes the next response for the rest of it
  (`ForeignAnswer.CallGetsForeignAnswer`). The connection stays whole exactly if the response can be encoded:
  its result can be dumped and fits four length bytes, or its error is text that fits two
  (`WireTheorems.RespondKeepsWholeExactly`, `MessageCodecs.ResponseIsWholeExactly`); and while all responses can
  be, every call gets its own answer (`WireTheorems.AnswersAreOwn`, `WireTheorems.NodeAnswersAreOwn`).
- An exception whose `repr` is empty arrives as success (`MessageCodecs.AnswerArrives`).
- A call that ends by an exception inside the with-block keeps its request ID, and when all IDs are kept in
  this way no call is possible on that connection any more (`RpcTheorems.IdAccounting`, `IdLeaks.LeaksPoison`,
  `IdLeaks.PoisonedForGood`). That is not the only way: a call whose request the server has lost keeps its ID
  while it waits (`IdLeaks.LostRequestShuts`). Exactly when another call can still be registered:
  `IdLeaks.OpenExactly`.
- A call that has its response when the response handler ends, but runs only after another call has started
  a new handler, can take away the other call's entry, which then waits forever
  (`Straddling.StraddlingHappens`; exactly when: `RpcTheorems.WakeLosesWaiterExactly`; never within one
  lifetime of the handler: `RpcTheorems.NoStraddlingBeforeTheEnd`).
- README.md:18 of the repository promises round robin among the listeners of one name. It holds of sends to the same
  listeners while the balancer is not used for them otherwise (`NameRounds.ListenersOfANameTakeTurns`), but all topics and
  services share one balancer, and a service call in between can make two sends in a row go to the same node
  (`RoundRobin.ServiceCallBreaksRoundRobin`; exactly when: `RoundRobin.ChosenAgainExactly`).
- When stopping an outbox or closing a connection fails, the handler gives up on the nodes it has not come to, and
  their outboxes stay (`Mesh.FailureLeavesOrphan`; exactly which: `Mesh.FailureOrphansExactly`) until a topology with
  their IDs is set again (`Mesh.OrphansStay`). And closing a connection does not stop a build under way
  (`Connections.CloseSticksExactly`).
- README.md:194 of the repository promises that topic messages and requests are received in the order in
  which one node sent them. That holds of topic messages among themselves (`TopicOrder.TopicsArriveInOrder`)
  and of everything from when it comes for the lock (`WriterLock.ReceivedInTurn`), but a request can
  overtake a topic message, which first goes through the outbox (`TopicOrder.RequestOvertakesTopic`). It can
  exactly if, when the request is written, the outbox is not stopped and has a message whose deadline is
  ahead in its queue, or in hand and not bound for another connection (`TopicOrder.OvertakesExactly`). The
  model follows the code.
- The server's read loop takes every `EOFError` for a closed connection, and a library can raise one about a payload that
  has arrived whole, as pickle does about an empty one. Such a payload ends the loop whatever is sent behind it
  (`EndOfStream.PayloadEndsLoop`). That the loop ends at end of stream only where bytes are missing holds exactly if no
  payload below 2^32 bytes and no text of 1 to 255 bytes loads with `EOFError` (`EndOfStream.EofMeansShortExactly`).

## Model

| member | source | states |
|---|---|---|
| `Streams.ProperPrefixIsEof` | src/rosy/codec.py:50-186 | A frame cut short anywhere ends in end of stream: it is never decoded to something else and never taken for garbage |
| `Streams.FramesArePrefixFree` | src/rosy/codec.py:50-186 | No encoding by a lawful codec is a proper prefix of another one's, so frames need no separators |
| `Streams.BufferWriter.Write` | src/rosy/asyncio.py:124-126 | A write appends exactly its bytes |
| `Streams.BufferReader.ReadExactly` | src/rosy/asyncio.py:112-118 | Returns the next n bytes and moves past them, or raises having swallowed what there was |
| `Streams.LockableWriter.Acquire` | src/rosy/asyncio.py:77-79 | Takes a free lock and writes nothing |
| `Streams.LockableWriter.Release` | src/rosy/asyncio.py:81-82 | Frees the lock and writes nothing |
| `Streams.LockableWriter.Write` | src/rosy/asyncio.py:84-86 | Appends its bytes if somebody holds the lock; otherwise raises and writes nothing |
| `IntCodecs.ToBytesInverse` | src/rosy/codec.py:44-52 | `from_bytes` undoes `to_bytes` on every value that fits, in either byte order, signed or not |
| `IntCodecs.FromBytesInverse` | src/rosy/codec.py:50-52 | Every string of k bytes decodes to a value that fits and encodes back to it: the encoding is a bijection |
| `IntCodecs.BytesAreDigits` | src/rosy/codec.py:33-48 | The bytes are the digits to the base 256 of the value, or of its two's complement, lowest first or last as the byte order says |
| `IntCodecs.FixedUnsignedAccepts` | src/rosy/node/builder.py:170-213 | A k-byte request ID codec accepts exactly 0 <= id < 2^(8k), the range the caller allocates from |
| `IntCodecs.ByteLengthIsLeast` | src/rosy/codec.py:133-135 | `byte_length(v)` is the least k with the magnitude of v < 256^k |
| `IntCodecs.VarUnsignedAccepts` | src/rosy/codec.py:71-91 | The unsigned codec accepts exactly 0 <= v < 256^max and writes nothing when it rejects |
| `IntCodecs.VarSignedAccepts` | src/rosy/codec.py:71-91 | The signed codec accepts exactly zero and the values within the maximum that fit two's complement in `byte_length(v)` bytes, and writes nothing when it rejects |
| `IntCodecs.VarSignedRejects128` | src/rosy/codec.py:71-91 | 128 fits eight signed bytes and is rejected with a maximum of eight |
| `IntCodecs.FixedLawful` | src/rosy/codec.py:33-52 | Fixed-length integers round-trip in front of any bytes and decide by the bytes read |
| `IntCodecs.VarRoundTripsAt` | src/rosy/codec.py:71-106 | Every accepted value comes back, in both byte orders, and what follows is untouched |
| `IntCodecs.VarLawful` | src/rosy/codec.py:55-106 | Variable-length integers round-trip in front of any bytes and decide by the bytes read |
| `IntCodecs.EncodeFixedInt` | src/rosy/codec.py:44-48 | Succeeds exactly on the values that fit and appends their encoding |
| `IntCodecs.DecodeFixedInt` | src/rosy/codec.py:50-52 | Reads what the lawful decoder reads and leaves the reader at its rest |
| `IntCodecs.EncodeVarInt` | src/rosy/codec.py:71-91 | Appends header and data of the lawful encoding, or nothing at all if it raises |
| `IntCodecs.DecodeVarInt` | src/rosy/codec.py:93-106 | Reads what the lawful decoder reads, zero included, raises if the header exceeds the maximum, and leaves the reader at the rest |
| `CompositeCodecs.IndexOf` | src/rosy/codec.py:180-184 | Finds the one place of a key in a dict, or that it has none |
| `CompositeCodecs.PutStores` | src/rosy/codec.py:184-184 | After an assignment the key has the new value, every other key its own, and all keep their places, a new one coming last |
| `CompositeCodecs.GetFinds` | src/rosy/discovery/zeroconf.py:197-197 | A lookup gives the value stored under the key, and none iff there is none |
| `CompositeCodecs.BlobLawful` | src/rosy/codec.py:189-273 | Pickle, JSON and msgpack payloads behind a length are lawful if the length codec is |
| `CompositeCodecs.StringLawful` | src/rosy/codec.py:109-130 | Length-prefixed strings are lawful, the shortcut for the empty string included |
| `CompositeCodecs.SequenceLawful` | src/rosy/codec.py:138-156 | Sequences of lawful items are lawful, for every size the header takes |
| `CompositeCodecs.PairLawful` | src/rosy/codec.py:173-184 | A key and a value one after the other are lawful |
| `CompositeCodecs.EntriesRoundTripAt` | src/rosy/codec.py:177-186 | Decoding entry by entry into a growing dict rebuilds the dict, order of insertion included |
| `CompositeCodecs.DictionaryLawful` | src/rosy/codec.py:159-186 | Dicts of lawful keys and values are lawful |
| `CompositeCodecs.EntriesAreLastWins` | src/rosy/codec.py:181-184 | Reading entries into a dict succeeds where reading them as a sequence does and gives each key its last value and its first place |
| `CompositeCodecs.DecodedDictIsLastWins` | src/rosy/codec.py:177-186 | A decoded dict holds of every key the last value read, in the order in which the keys were first read |
| `CompositeCodecs.EncodeItemsStep` | src/rosy/codec.py:150-151 | One item further the loop has written that item behind the others, or the whole encoding ends there with what was written so far |
| `CompositeCodecs.SequenceEncodable` | src/rosy/codec.py:147-151 | A sequence can be encoded iff its size and each of its items can |
| `CompositeCodecs.DictionaryEncodable` | src/rosy/codec.py:170-175 | A dict can be encoded iff its size, each key and each value can |
| `CompositeCodecs.EncodeString` | src/rosy/codec.py:118-122 | Appends the lawful encoding, up to where it raises if it does |
| `CompositeCodecs.DecodeString` | src/rosy/codec.py:124-130 | Reads what the lawful decoder reads; a length of zero gives the empty string without decoding any bytes |
| `CompositeCodecs.EncodeBlob` | src/rosy/codec.py:205-210 | Appends length and payload, or what was written before it raised |
| `CompositeCodecs.DecodeBlob` | src/rosy/codec.py:212-215 | Reads what the lawful decoder reads |
| `CompositeCodecs.EncodeSequence` | src/rosy/codec.py:147-151 | The loop appends the lawful encoding, up to the item that raises |
| `CompositeCodecs.DecodeSequence` | src/rosy/codec.py:153-156 | The loop reads what the lawful decoder reads, or stops where it does |
| `CompositeCodecs.EncodeDict` | src/rosy/codec.py:170-175 | Appends the lawful encoding, up to the key or value that raises |
| `CompositeCodecs.DecodeEntry` | src/rosy/codec.py:182-183 | Reads a key and a value, or stops where one of them fails |
| `CompositeCodecs.DecodeDict` | src/rosy/codec.py:177-186 | The loop fills the dict that the lawful decoder gives: each key with the value of the last entry read for it, the keys in the order in which they first came |
| `MessageCodecs.TopicRoundTripsAt` | src/rosy/node/topic/codec.py:19-28 | An encodable topic message comes back unchanged, in front of any bytes |
| `MessageCodecs.TopicStreamsAt` | src/rosy/node/topic/codec.py:24-28 | Decoding a topic message depends only on the bytes read |
| `MessageCodecs.RequestRoundTripsAt` | src/rosy/node/service/codec.py:21-32 | An encodable request comes back unchanged, in front of any bytes |
| `MessageCodecs.RequestStreamsAt` | src/rosy/node/service/codec.py:27-32 | Decoding a request depends only on the bytes read |
| `MessageCodecs.MessageLawful` | src/rosy/node/codec.py:32-61 | With its prefix either kind of message is lawful, and every message takes at least a byte |
| `MessageCodecs.ResponseStreams` | src/rosy/node/service/codec.py:60-73 | Decoding a response depends only on the bytes read and takes at least one |
| `MessageCodecs.ResponseNormalises` | src/rosy/node/service/codec.py:50-73 | A response comes back in normal form: a non-empty error discards the result, an empty one becomes none, nothing else is lost |
| `MessageCodecs.AnswerArrives` | src/rosy/node/service/caller.py:57-62 | The caller gets the request's ID and exactly what the handler answered iff that is not an exception with empty repr; the call returns the service's result, or raises the text of its exception or that nobody provides the service |
| `MessageCodecs.BuiltPartsAreLawful` | src/rosy/node/builder.py:190-234 | Every codec a node is built with is lawful if the data codec and the text encoding are |
| `MessageCodecs.BuiltPartsEncode` | src/rosy/node/builder.py:190-234 | A message can be sent iff name and keys fit 255 bytes, there are at most 255 of either arguments, every value can be encoded and a request's ID is in range |
| `MessageCodecs.ResponseEncodable` | src/rosy/node/service/codec.py:50-58 | A response can be encoded iff its error fits the two-byte length, or its result the four-byte one; if not, ID and status have been written |
| `MessageCodecs.ResponseIsWholeExactly` | src/rosy/node/service/codec.py:50-58 | What encoding a response writes is a frame of some response iff the response can be encoded |
| `MessageCodecs.HeadAloneIsNoResponse` | src/rosy/node/service/codec.py:60-73 | An ID and a status with nothing behind them leave the reader waiting for more |
| `MessageCodecs.EncodeTopicMessage` | src/rosy/node/codec.py:32-36 | Gives the whole frame, or raises without a byte for the connection |
| `MessageCodecs.EncodeServiceRequest` | src/rosy/node/codec.py:38-42 | Gives the whole frame, or raises without a byte for the connection |
| `MessageCodecs.DecodeTopicMessage` | src/rosy/node/topic/codec.py:24-28 | Reads what the lawful decoder reads |
| `MessageCodecs.DecodeServiceRequest` | src/rosy/node/service/codec.py:27-32 | Reads what the lawful decoder reads |
| `MessageCodecs.DecodeMessage` | src/rosy/node/codec.py:51-61 | Dispatches on the prefix byte; a byte other than t and s raises |
| `MessageCodecs.EncodeServiceResponse` | src/rosy/node/service/codec.py:50-58 | Writes piece by piece what the response encodes to, up to the piece that raises |
| `MessageCodecs.DecodeServiceResponse` | src/rosy/node/service/codec.py:60-73 | Reads what the response decoder reads; a status other than 0x00 and 0xee raises |
| `MessageCodecs.HandleRequest` | src/rosy/node/service/requesthandler.py:20-52 | Exactly one response with the request's ID goes out under the lock, and the lock is free afterwards even if encoding raised; if the callback is cancelled or raises what is no `Exception`, nothing is written |
| `WireFormat.TopicIsItsBytes` | src/rosy/node/builder.py:190-234 | A topic message on the wire is the letter t, the topic behind one byte of length, and the arguments: a byte with their number and each behind four bytes of length, keywords in pairs |
| `WireFormat.RequestIsItsBytes` | src/rosy/node/builder.py:190-234 | A request is the letter s, the ID in k bytes, lowest first, the service and the arguments in the same way |
| `WireFormat.ResponseIsItsBytes` | src/rosy/node/service/codec.py:50-58 | A response is the ID and either 0x00 and the result behind four bytes of length, or 0xee and the error behind two |
| `ClientLoop.WholeIsLargest` | src/rosy/node/clienthandler.py:33-40 | The frames counted as arrived end by the cut and the next one does not |
| `ClientLoop.CutStream` | src/rosy/node/clienthandler.py:33-40 | Reading frames cut off anywhere gives exactly the values whose frames precede the cut, in order, then end of stream |
| `ClientLoop.FramesThenRest` | src/rosy/node/clienthandler.py:33-40 | Whatever follows whole frames is read as at the start of a stream |
| `ClientLoop.TruncationSafe` | src/rosy/node/clienthandler.py:33-50 | For any encodable messages and any cut, the loop dispatches exactly the messages whose frames precede the cut and leaves by the EOF branch |
| `ClientLoop.GarbageStops` | src/rosy/node/codec.py:51-61 | A byte that starts no message ends the loop with an exception after all messages before it |
| `ClientLoop.KindsArriveInOrder` | src/rosy/node/clienthandler.py:42-48 | Handled topic messages and started tasks are, each, a first part of those written |
| `ClientLoop.DispatchedExactly` | src/rosy/node/topic/messagehandler.py:26-31 | The loop dispatches all it can read, or up to and including the first message whose callback raises what is let through |
| `ClientLoop.HandleClient` | src/rosy/node/clienthandler.py:25-50 | The loop handles every topic message inline and starts one task per request, in order, until a callback raises a cancellation or exit, and ends by return at end of stream or by exception |
| `EndOfStream.PairSatisfiable` | src/rosy/codec.py:181-184 | If more bytes can always end an `EOFError` of the key and of the value decoder, they can of both in a row |
| `EndOfStream.BlobSatisfiable` | src/rosy/codec.py:212-215 | They can of a payload behind a length if nothing of a deliverable length loads with `EOFError` |
| `EndOfStream.SequenceSatisfiable` | src/rosy/codec.py:153-156 | They can of a sequence if they can of its items |
| `EndOfStream.DictionarySatisfiable` | src/rosy/codec.py:177-186 | They can of a dict if they can of its keys and values |
| `EndOfStream.MessageSatisfiable` | src/rosy/node/codec.py:51-61 | They can of either kind of message if they can of its parts |
| `EndOfStream.NeverForGoodExactly` | src/rosy/node/clienthandler.py:33-40 | A read loop never ends at end of stream for good, whatever may still come, iff more bytes can always end an `EOFError` of its decoder |
| `EndOfStream.PayloadEndsLoop` | src/rosy/codec.py:212-215 | A payload that loads with `EOFError` ends the loop whatever is sent behind it |
| `EndOfStream.EofMeansShortExactly` | src/rosy/node/clienthandler.py:38-40 | With a node's codecs the EOF branch always means that bytes are missing iff no payload below 2^32 bytes and no text of 1 to 255 bytes loads with `EOFError` |
| `WriterLock.StepKeepsFramesWhole` | src/rosy/asyncio.py:77-86 | Every step under the lock keeps whole frames in lock order plus a prefix of the holder's frame |
| `WriterLock.AbortKeepsFramesWhole` | src/rosy/node/service/requesthandler.py:48-52 | Leaving the lock by an exception keeps the frames whole iff nothing of the message had been written |
| `WriterLock.FrameAtomicity` | src/rosy/asyncio.py:68-105 | After every run the connection carries whole frames in lock-acquisition order and then a prefix of the holder's |
| `WriterLock.PeerDecodesEntered` | src/rosy/asyncio.py:68-105 | However much has arrived, the peer has decoded a first part of the messages in lock order, all of them if everything has arrived |
| `WriterLock.ServerDecodesEntered` | src/rosy/node/service/caller.py:53-55 | Topic messages and requests are decoded as their senders got the lock |
| `WriterLock.CallerDecodesEntered` | src/rosy/node/service/requesthandler.py:48-52 | Responses, written piece by piece, are decoded as their tasks got the lock |
| `WriterLock.WaiterGetsThrough` | src/rosy/asyncio.py:77-82 | From every reachable state the holder can finish and leave, and then any waiting task can get the lock and write its whole frame |
| `WriterLock.NobodyIsForgotten` | src/rosy/asyncio.py:77-82 | Every task that came for the lock has had it, still waits for it, or has given up |
| `WriterLock.ReceivedInTurn` | README.md:194 | What the peer decodes is, without repeats and in order, part of what came for the lock, whoever gives up and wherever the connection is cut |
| `RequestIds.After` | src/rosy/node/service/caller.py:96-97 | The cursor goes up by one and from the last ID to zero |
| `RequestIds.RoundTheRing` | src/rosy/node/service/caller.py:96-97 | A step of the cursor is one further round the ring, and the one after the last leads to where the count began |
| `RequestIds.FullTurn` | src/rosy/node/service/caller.py:84-97 | After i steps the cursor is i further round the ring, and after as many steps as there are IDs it is back where it started |
| `RequestIds.AllocatorIsExact` | src/rosy/node/service/caller.py:84-94 | The first free ID at or after the cursor is found, and none iff all are taken |
| `Rpc.StepKeepsInv` | src/rosy/node/service/caller.py:37-135 | Every step of callers, server tasks, response handler and environment keeps the invariant of the call machine |
| `RpcTheorems.ResponsesAreOwn` | src/rosy/node/service/caller.py:37-126 | In every run over whole responses the response a call gets answers that call's own request |
| `RpcTheorems.IdsUnderWayAreDistinct` | src/rosy/node/service/caller.py:114-126 | Until the reader's end of stream IDs on the request wire, in server tasks and on the response wire are pairwise distinct and keys of the table, leading to their own calls |
| `RpcTheorems.DeliveryFindsItsCall` | src/rosy/node/service/caller.py:114-126 | A whole response is never for an unknown request; it resolves its own call's future if that is still wanted and no other |
| `RpcTheorems.IdAccounting` | src/rosy/node/service/caller.py:46-77 | Until the reader's end of stream the IDs in use are those of calls in progress plus those of calls that raised inside the with-block, each held once |
| `RpcTheorems.IdAccountingInEveryLifetime` | src/rosy/node/service/caller.py:46-77 | In every lifetime of a handler on a reader the IDs in use are those of that lifetime's calls in progress or raised, each held once, in runs in which no wake-up straddles lifetimes |
| `RpcTheorems.ExhaustedExactly` | src/rosy/node/service/caller.py:84-94 | Until the reader's end of stream a call fails for want of an ID iff every ID is held by a call in progress or one that raised, and then changes nothing else |
| `RpcTheorems.RegisteredExactly` | src/rosy/node/service/caller.py:64-97 | Otherwise the call is registered under the first free ID at or after the cursor, with a new pending future, and the cursor goes to the place behind that ID |
| `RpcTheorems.OneCallHasTheLock` | src/rosy/node/service/caller.py:53-55 | At most one call is between its write and the end of its draining, and none writes while another is |
| `RpcTheorems.CompletionFreesItsId` | src/rosy/node/service/caller.py:64-77 | Until the reader's end of stream a call that completes with a result or an error response frees its own ID and no other |
| `RpcTheorems.OneHandlerIffInTable` | src/rosy/node/service/caller.py:99-112 | There is exactly one response handler iff the reader is in the table |
| `RpcTheorems.StepKeepsWaitersKnown` | src/rosy/node/service/caller.py:44-57 | Every step but a straddling wake-up keeps each waiting call known to the current handler |
| `RpcTheorems.WakeLosesWaiterExactly` | src/rosy/node/service/caller.py:75-77 | A completing call loses a waiter iff its ID is in a later table under another call that is still waiting |
| `RpcTheorems.EndResolvesEveryWaiter` | src/rosy/node/service/caller.py:106-135 | When a handler ends, in any run in which no wake-up straddles two lifetimes, the table entry and the handler are gone and every waiting call can leave at once, normally iff its response had been delivered and else by an exception; calls and futures outside the table are as they were |
| `RpcTheorems.AbortExactly` | src/rosy/node/service/caller.py:46-57 | A call can be cancelled or fail iff it is in progress; it is then over, keeps its ID, and its future is cancelled if it was being waited for; nothing else changes |
| `RpcTheorems.GivenUpForGood` | src/rosy/node/service/caller.py:125-126 | It stays over, and a response that comes late never resolves a cancelled future |
| `RpcTheorems.NoStraddlingBeforeTheEnd` | src/rosy/node/service/caller.py:75-77 | Until the reader's end of stream no wake-up straddles, so none does within one lifetime |
| `Straddling.StraddlingHappens` | src/rosy/node/service/caller.py:75-77 | For any number of IDs there is a run in which a straddling wake-up leaves another call waiting forever |
| `IdLeaks.PoisonedForGood` | src/rosy/node/service/caller.py:64-77 | Once every ID belongs to a call that raised, no call is registered again before the end of stream |
| `IdLeaks.LeaksPoison` | src/rosy/node/service/caller.py:64-77 | For any number of IDs that many calls that raise inside the with-block lead there |
| `IdLeaks.OpenExactly` | src/rosy/node/service/caller.py:84-94 | Before the end of stream another call can be registered in some continuation iff an ID is free or held by a call that can still complete: it has its response, or has yet to write its request, or its request or response is under way |
| `IdLeaks.LostRequestShuts` | src/rosy/node/service/caller.py:57-57 | A call whose request the server has lost keeps the last ID although it has not raised |
| `WireRefinement.NeverChokes` | src/rosy/node/service/caller.py:114-115 | In a state that shows one of the packet machine the handler meets nothing but whole responses |
| `WireRefinement.StepShows` | src/rosy/node/service/codec.py:50-73 | Every step over bytes, writing only responses that can be encoded, is a step over packets or none |
| `WireRefinement.RefinesRpc` | src/rosy/node/service/caller.py:37-135 | Every run over bytes in which only responses are written that can be encoded is, packet for packet, a run of the packet machine |
| `WireRefinement.StepIsPossible` | src/rosy/node/service/caller.py:37-135 | Conversely every step that a call, a server task or the handler could make over packets is possible over bytes, so that codecs and wires block nothing |
| `WireTheorems.AnswersAreOwn` | src/rosy/node/service/caller.py:37-126 | In those runs a future is resolved with exactly the normal form of the answer to the one request its call wrote, and the call ends as the service did: with its result or with the text of its failure |
| `WireTheorems.RequestsAreAsMade` | src/rosy/node/service/caller.py:50-50 | The request of every call is for the service it was made for, with the arguments it was made with |
| `WireTheorems.TasksServeTheirCalls` | src/rosy/node/clienthandler.py:44-48 | Each server task works on the very request that a call wrote, not yet answered |
| `WireTheorems.DeliveriesAreOwn` | src/rosy/node/service/caller.py:114-126 | What the handler decodes is always the answer to a call it knows under that ID, and never garbage |
| `WireTheorems.ChokeEndsHandler` | src/rosy/node/service/caller.py:106-112 | A handler that reads what is no response ends as at the end of stream: its entry is gone, the futures in it are failed unless done, and calls waiting for them can leave by an exception |
| `WireTheorems.NodeAnswersAreOwn` | src/rosy/node/builder.py:190-234 | The same for a node's own codecs, while every result fits four length bytes and every error two |
| `WireTheorems.RespondKeepsWholeExactly` | src/rosy/node/service/requesthandler.py:46-52 | Answering a request leaves the response wire whole iff the response can be encoded |
| `ForeignAnswer.CallGetsForeignAnswer` | src/rosy/node/service/codec.py:50-58 | An exception whose `repr` cannot be sent makes its call receive an error cut out of the response to the next call |
| `ServiceCallers.ServiceCaller.StartResponseHandler` | src/rosy/node/service/caller.py:99-104 | Starts a handler with an empty table iff the reader has none, and leaves other readers alone |
| `ServiceCallers.ServiceCaller.IncNextRequestId` | src/rosy/node/service/caller.py:96-97 | Moves the cursor one round the ring |
| `ServiceCallers.ServiceCaller.FindNextAvailableRequestId` | src/rosy/node/service/caller.py:84-94 | The loop finds the free ID nearest to the cursor going round and leaves the cursor on it, or raises, iff all are taken, with the cursor where it started |
| `ServiceCallers.ServiceCaller.GetRequestIdAndResponseFuture` | src/rosy/node/service/caller.py:64-73 | Registers a fresh pending future under a free ID and moves the cursor behind it, or changes nothing and raises |
| `ServiceCallers.ServiceCaller.ReleaseRequestId` | src/rosy/node/service/caller.py:75-77 | Takes the ID out of whichever table the reader has now |
| `ServiceCallers.ServiceCaller.HandleOneResponse` | src/rosy/node/service/caller.py:114-126 | Resolves with the response the future under its ID if it is known and not done, and no other |
| `ServiceCallers.ServiceCaller.FailPendingResponseFuturesFor` | src/rosy/node/service/caller.py:128-135 | Sets an exception on exactly the reader's unresolved futures, so that nothing is cancelled |
| `ServiceCallers.ServiceCaller.EndResponseHandler` | src/rosy/node/service/caller.py:110-112 | Sets an exception on the unresolved futures of the reader's table and removes its entry, in one step |
| `LoadBalancing.FirstMin` | src/rosy/node/loadbalancing.py:130-133 | The first of the smallest keys |
| `LoadBalancing.PickIsFirstLeastRecent` | src/rosy/node/loadbalancing.py:127-133 | The choice is the first of the candidates with the least time of last use |
| `LoadBalancing.TouchedKeepsLastUsed` | src/rosy/node/loadbalancing.py:113-128 | Drawing defaults for the candidates changes no node's last use |
| `LoadBalancing.DefaultsLieInThePast` | src/rosy/node/loadbalancing.py:109-115 | A random default is not after the balancer's start iff the clock does not start below zero |
| `LoadBalancing.ChoiceStores` | src/rosy/node/loadbalancing.py:109-136 | After a choice the node chosen has the new time, every other candidate without one keeps the default it was judged by, the product of start and draw, and nothing else changes |
| `LoadBalancing.LeastRecentLoadBalancer.GetLeastRecentNode` | src/rosy/node/loadbalancing.py:127-136 | Picks the first of the least recently used candidates, stores the defaults drawn and the new time |
| `LoadBalancing.LeastRecentLoadBalancer.ChooseNodes` | src/rosy/node/loadbalancing.py:117-125 | Chooses one node of a non-empty list and none of an empty one, which changes nothing |
| `LoadBalancing.UsedMapIsHistory` | src/rosy/node/loadbalancing.py:127-136 | After any calls the last-used map says of each node when it was last chosen |
| `LoadBalancing.BalancerIsLeastRecent` | src/rosy/node/loadbalancing.py:127-136 | Every choice goes to a candidate no other candidate has waited longer than |
| `LoadBalancing.RankFalls` | src/rosy/node/loadbalancing.py:101-136 | While a node is passed over each of its candidacies moves it up by a place and nothing moves it down |
| `LoadBalancing.NobodyStarves` | src/rosy/node/loadbalancing.py:101-136 | With m distinct candidates over a stretch of choices, a candidate of m of them is chosen in at least one, however the lists change |
| `LoadBalancing.BalancerStarvesNobody` | src/rosy/node/builder.py:304-320 | The same for the shared balancer from its clock alone, topic sends and service calls mixed |
| `Grouping.SortedIsStable` | src/rosy/node/loadbalancing.py:72-72 | The nodes come out in key order and those of one key in their given order |
| `Grouping.LessIsLexicographic` | src/rosy/node/loadbalancing.py:72-72 | Keys are compared as Python compares strings: by the first character in which they differ, a prefix before what it begins |
| `Grouping.GroupByPartitions` | src/rosy/node/loadbalancing.py:73-73 | On sorted nodes each group is all the nodes of its key, keys ascend and every node's key has a group |
| `Grouping.GroupsPartition` | src/rosy/node/loadbalancing.py:66-78 | The listeners are split into their name groups: whole, in order, none missing |
| `Grouping.GroupingTopicLoadBalancer.ChooseNodes` | src/rosy/node/loadbalancing.py:66-78 | One choice per group in key order, each by the shared balancer after the ones before it |
| `RoundRobin.PicksDiffer` | src/rosy/node/loadbalancing.py:127-136 | Two turns of a group less than a whole round apart pick different members |
| `RoundRobin.RoundRobinOfGroup` | src/rosy/node/loadbalancing.py:127-136 | Any k consecutive turns of a group of k pick every member once, and the next turn repeats the first, whatever other groups do in between |
| `RoundRobin.GroupsAreDisjoint` | src/rosy/node/loadbalancing.py:66-78 | Two name groups share no member |
| `RoundRobin.TopicSendsGoRound` | src/rosy/node/loadbalancing.py:66-78 | With fixed listeners and no other calls, k consecutive sends pick each member of a k-node group once with period k, from any state of the shared balancer |
| `NameRounds.SendsAreHistory` | src/rosy/node/loadbalancing.py:66-78 | What successive sends return, group by group, is what the history of all choices says |
| `NameRounds.GroupTakesTurns` | src/rosy/node/loadbalancing.py:66-78 | Of a group of k what successive sends return is every member once in any k of them, with period k |
| `NameRounds.ListenersOfANameTakeTurns` | README.md:18 | With names as groups, as a node is built, sends to fixed listeners go round the listeners whose ID has the name |
| `RoundRobin.OneOfEachName` | src/rosy/node/loadbalancing.py:66-78 | A send chooses one listener of every name, only listeners, and nobody twice |
| `RoundRobin.NewNodesComeFirst` | src/rosy/node/loadbalancing.py:109-115 | A candidate never chosen is preferred to all that were, and among those the random draw decides |
| `RoundRobin.ChosenAgainExactly` | src/rosy/node/loadbalancing.py:127-136 | A candidate not chosen since its last time is chosen again iff every other candidate has been chosen since, for whatever topic or service |
| `RoundRobin.ServiceCallBreaksRoundRobin` | README.md:18 | A service call between two sends to a group of two makes both sends choose the same node |
| `Outbox.StepKeepsInv` | src/rosy/node/topic/outbox.py:45-96 | Every step of senders, consumer, clock and stop keeps the outbox invariant |
| `Outbox.NothingIsLost` | src/rosy/node/topic/outbox.py:45-88 | Removed messages followed by the queue are the messages sent; at most one is in flight; written ones were written once and in send order; i is dropped only for i + maxsize; the unfinished counter is queue length plus the one in work |
| `Outbox.NothingIsLate` | src/rosy/node/topic/outbox.py:51-96 | No message is written ttl or more after its send, however long connecting and locking took, and queued deadlines do not decrease |
| `Outbox.NothingExpiresEarly` | src/rosy/node/topic/outbox.py:79-96 | No message expires before ttl is over, and the consumer is after a connection or a lock only for a message that was in time when taken |
| `Outbox.TakenExactly` | src/rosy/node/topic/outbox.py:67-81 | In every reachable state the message taken at `now` is expired and counted as done iff its send plus ttl is not after now, and otherwise in flight with the consumer connecting for it |
| `Outbox.StopIsFinal` | src/rosy/node/topic/outbox.py:62-63 | A running outbox can be stopped at any time; then what was in flight is abandoned, the queue stays, and no step is possible any more |
| `Outbox.FatesAreFinal` | src/rosy/node/topic/outbox.py:45-88 | A message meets one fate and keeps it in every later state |
| `Outbox.NodeOutbox.Send` | src/rosy/node/topic/outbox.py:45-60 | Refuses after its consumer has ended; otherwise appends the message, dropping the oldest if full |
| `Outbox.NodeOutbox.Get` | src/rosy/node/topic/outbox.py:67-81 | Takes the oldest message; if its deadline is reached it is expired and done with at once, and only if not does the consumer go on to connect |
| `Outbox.NodeOutbox.Connected` | src/rosy/node/topic/outbox.py:98-100 | Goes on with the connection to its writer's lock |
| `Outbox.NodeOutbox.WriteUnlessExpired` | src/rosy/node/topic/outbox.py:83-88 | Under the lock writes the message exactly if it is still in time |
| `Outbox.NodeOutbox.Fail` | src/rosy/node/topic/outbox.py:72-77 | An exception counts the message as done and the consumer goes on |
| `Outbox.NodeOutbox.Drained` | src/rosy/node/topic/outbox.py:76-77 | After draining the message counts as done |
| `Outbox.NodeOutbox.Stop` | src/rosy/node/topic/outbox.py:62-63 | Stopping abandons the message in flight and ends the consumer |
| `Connections.StepKeepsInv` | src/rosy/node/peer/connection.py:86-115 | Getters, builds, closing transports and outside closes keep locks, cache and connections consistent |
| `Connections.SingleFlight` | src/rosy/node/peer/connection.py:86-99 | Per node at most one task builds, and while it does the cache has no connection for the node, so storing overwrites nothing |
| `Connections.NoConnectionLeaks` | src/rosy/node/peer/connection.py:86-115 | Every connection the builder returned is either cached, under one node, or has been closed, and never both |
| `Connections.LeavingFreesTheLock` | src/rosy/node/peer/connection.py:86-99 | While a task is inside for a node no other gets in; after a failed build or a cancellation any other can get in and build, and after a build any other finds the new connection |
| `Connections.OnlyLiveConnectionsAreGiven` | src/rosy/node/peer/connection.py:101-110 | A cached connection is given iff it is alive; one that has died, whoever closed it, is taken out and closed, and the getter goes on to build another |
| `Connections.CloseSticksExactly` | src/rosy/node/peer/connection.py:112-115 | After a close the node has no connection, and in some continuation without another request for it one appears iff the node's lock is held |
| `Connections.PeerConnectionManager.GetConnection` | src/rosy/node/peer/connection.py:86-110 | Gives the cached connection iff it is alive; otherwise drops it and goes on to build under the lock |
| `Connections.PeerConnectionManager.ConnectionClosed` | src/rosy/node/peer/connection.py:106-108 | Once the old connection has closed the getter builds a new one |
| `Connections.PeerConnectionManager.StoreConnection` | src/rosy/node/peer/connection.py:93-99 | Caches the new connection and frees the lock |
| `Connections.PeerConnectionManager.GiveUp` | src/rosy/node/peer/connection.py:86-93 | A failing build or a cancelled getter frees the lock of its node, and nothing else changes |
| `Connections.PeerConnectionManager.CloseConnection` | src/rosy/node/peer/connection.py:112-115 | Takes the connection out and closes it, if there is one |
| `Topology.LabelledExactly` | src/rosy/node/topology.py:30-52 | A lookup has each node with the label as often as the topology has it and no other |
| `Topology.LabelledInOrder` | src/rosy/node/topology.py:30-52 | A lookup gives the nodes with the label at their places in the topology, in order and none twice |
| `Topology.RemovedExactly` | src/rosy/node/topology.py:54-64 | Removed are exactly the nodes whose IDs are not in the new topology |
| `Topology.CacheNode` | src/rosy/node/topology.py:34-35 | The inner loop appends the node to the lists of its own labels and to no other |
| `Topology.CacheNodes` | src/rosy/node/topology.py:30-46 | The index answers every label with the nodes that have it, in topology order |
| `Topology.MeshTopologyManager.SetTopology` | src/rosy/node/topology.py:24-28 | Afterwards both indexes answer for the new topology |
| `Topology.MeshTopologyManager.GetNodesListeningToTopic` | src/rosy/node/topology.py:48-49 | Gives the nodes that list the topic under their topics, in topology order, and asking for an unknown topic changes no answer |
| `Topology.MeshTopologyManager.GetNodesProvidingService` | src/rosy/node/topology.py:51-52 | Gives the nodes that list the service under their services, in topology order, and asking for an unknown service changes no answer |
| `Mesh.NoLostUpdate` | src/rosy/discovery/zeroconf.py:116-120 | With the event unset and the notifier past `set_topology`, the topology is the current discovery map, in order |
| `Mesh.LookupsAreCurrent` | src/rosy/node/topology.py:48-52 | Then lookups give exactly the discovered nodes that list the name under their topics, or under their services, in the order of the discovery map |
| `Mesh.DiscoveredIsLatest` | src/rosy/discovery/zeroconf.py:197-228 | After any run a name maps to a node iff that was its last discovery and it has not vanished since |
| `Mesh.MeshSettles` | src/rosy/discovery/zeroconf.py:116-120 | From every reachable state the notifier's own steps lead to rest, with the event unset and the topology equal to what has been discovered |
| `Mesh.OutboxesAreCleanedUp` | src/rosy/node/topology.py:78-96 | Unless a stop or close fails, every outbox is for a node of the topology or one the running handler has yet to process, sends interleaved |
| `Mesh.FailureOrphansExactly` | src/rosy/node/topology.py:92-96 | The first failing stop or close of any run leaves a node's outbox without anybody to stop it iff that node was still to be processed and has one |
| `Mesh.OrphansStay` | src/rosy/node/topology.py:54-64 | Such an outbox stays in every continuation until a topology with its ID is set |
| `Mesh.FailureLeavesOrphan` | src/rosy/discovery/base.py:39-51 | For any two nodes that are sent to and leave together there is a run in which the first stop fails and the second outbox stays |
| `Mesh.ZeroconfNodeDiscovery.CheckNode` | src/rosy/discovery/zeroconf.py:194-207 | Stores the node under its name, whatever was there, leaves other names alone, and sets the event iff the node differs from the one known |
| `Mesh.ZeroconfNodeDiscovery.RemoveNode` | src/rosy/discovery/zeroconf.py:222-228 | Removes the name and no other, and sets the event iff there was a node |
| `Senders.NodeOutboxManager.GetOutbox` | src/rosy/node/topic/outbox.py:18-22 | Gives the node's one running outbox, made if there was none |
| `Senders.NodeOutboxManager.StopOutbox` | src/rosy/node/topic/outbox.py:24-27 | The outbox is out of reach and stopped; all that can be got are running |
| `Senders.SendsExactly` | src/rosy/node/topic/sender.py:34-36 | A frame is enqueued once, at the end and with the time read there, for each selected node and for no other |
| `Senders.SendToOne` | src/rosy/node/topic/sender.py:35-36 | The frame goes to the end of that node's outbox and to nobody else's |
| `Senders.SendToAll` | src/rosy/node/topic/sender.py:34-36 | The loop leaves every outbox with what the sends one by one give, each outbox reading the clock |
| `Senders.GetNodesForTopic` | src/rosy/node/peer/selector.py:18-20 | The current listeners are grouped and one of each group chosen by the shared balancer |
| `Senders.ChosenServeListeners` | src/rosy/node/peer/selector.py:18-20 | Those chosen list the topic under their topics, one of every group of listeners |
| `Senders.GetNodeForService` | src/rosy/node/peer/selector.py:22-24 | Nobody iff no node lists the service under its services; otherwise one that does and that no other such node has waited longer than |
| `Senders.EncodeAndSend` | src/rosy/node/topic/sender.py:27-36 | Enqueues the message's frame for each node, or nothing at all if it cannot be encoded, which is not noticed when there are no nodes |
| `Senders.SendTopic` | src/rosy/node/topic/sender.py:24-36 | What every outbox holds after a send: the frame of the message behind what it held, for the nodes chosen among the listeners, and nothing new otherwise |
| `Senders.SendServesEachNameOnce` | src/rosy/node/topic/sender.py:24-36 | A send enqueues its frame once, for exactly one node of every name among the listeners |
| `Senders.HandleTopologyChange` | src/rosy/node/topology.py:78-96 | Sets the topology, then stops exactly the removed nodes' outboxes and closes exactly their connections |
| `TopicOrder.RunKeepsAgree` | src/rosy/node/topic/outbox.py:65-88 | The topic messages on a connection are those the outbox wrote to it, in order |
| `TopicOrder.TopicsArriveInOrder` | README.md:194 | Whatever is dropped, expires, fails or is cut off, and whichever callback ends the loop, the topic messages handled are, without repeats and in order, part of those sent |
| `TopicOrder.RequestOvertakesTopic` | src/rosy/node/topic/sender.py:34-36 | Any request can reach the connection before any topic message sent earlier to the same node |
| `TopicOrder.OvertakesExactly` | README.md:194 | A request can be followed, in some continuation, by a topic message sent before it iff at its write the running outbox has a message in time in its queue, or in hand for this connection or none yet |
| `TopicOrder.LateIsBehind` | src/rosy/node/topic/outbox.py:79-88 | The topic messages written between two moments are, in order, what the log of the outbox has gained for the connection |

## Left out

- Sockets, servers, socket options and the connection builder's loop over connection specs: a connection is a
  queue of bytes each way that can end anywhere, and a build succeeds or fails at will.
- pickle, orjson, msgpack, UTF-8 and gzip: `Form` is an opaque pair that gives back what it dumped; only the length
  prefix is modelled.
- Lengths below zero, which only a signed length codec could deliver: `Read` raises, as a stream reader does, where
  `BufferReader` would read everything.
- `int.to_bytes` with no bytes for a signed -1, where CPython's answer is particular; no codec of a node does that.
- The order in which the writer's lock and the node locks serve waiting tasks: any waiter may be next, which covers the
  real order. Only WriterLock.ReceivedInTurn depends on it and has it.
- Codecs that suspend while encoding: a call's registration and encoding, and a send's choosing, encoding and
  enqueuing, are one step each.
- Calls on other readers, except that they move the allocator's cursor and touch futures of their own: the machine
  follows one reader at a time.
- RpcTheorems.IdAccounting: speaks of the time until the reader's end of stream, the lifetime of the first handler; later
  lifetimes are in RpcTheorems.IdAccountingInEveryLifetime, for runs without straddling wake-ups.
- RpcTheorems.ResponsesAreOwn: is about whole responses; those cut off by an exception are in WireCalls.
- RpcTheorems.DeliveryFindsItsCall: is about whole responses; those cut off by an exception are in WireCalls.
- WireRefinement.StepIsPossible: is about the steps on the reader that the machine follows; what happens on other readers
  is free in both machines.
- Ways for the response handler to end other than the end of its stream or a response it cannot decode, weak references
  and the shutdown of the loop.
- The monitors of discovered nodes and the zeroconf library: nodes come and go at will.
- Random and no-op balancers, callback dictionaries, running callbacks, node lifecycle, the command line, bag files and
  launch files.
- Floating-point rounding in the random defaults of the balancer, and clocks that give the same time twice: times are
  reals and strictly increasing where LoadBalancing.BalancerStarvesNobody and NameRounds.GroupTakesTurns say so.
- Group keys other than strings: `groupby` and `sorted` work on any ordered key.
- Order across reconnects: TopicOrder.TopicsArriveInOrder is about one connection.
- Senders.HandleTopologyChange: runs without interference; the interleavings are in Mesh.
