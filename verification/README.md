# A verified model of the xkim message handler

The message handler is the front end of an instant-messaging service. It accepts
client connections on several IO threads, cuts their byte streams into frames,
authenticates each connection, serves its message packs, and routes messages from
any thread to the connection they are meant for. This project models that path in
Dafny and proves what it promises, over every input and every run.

| files | what they hold |
|---|---|
| `Common` | small shared types |
| `Frames`, `Buffers`, `Sockets`, `Connection`, `Session`, `Messages` | frame layout and the one-shot decoder, the loop over a full buffer on values, the incremental reader and partial writer over a non-blocking socket, and two connections joined by a byte channel |
| `Misreads` | streams the reader does not read as the decoder does, and a failure it reports twice |
| `LinkedList`, `CachePolicy`, `ConnectionCache` | the cache of connection objects: its rules on values, and the nodes on three circular lists that implement them |
| `Lifecycle`, `IoApp` | one IO thread: the register of online connections, and the loops that open, close and push |
| `AuthGate`, `AuthGateLimit`, `AuthPath` | the whole front end as one step machine, the exact reach of its authentication gate, and how far a connection gets |
| `MessageChains`, `Grouping`, `PushList`, `Pipeline` | messages linked through their own fields, the regrouping loops, the push list, and order from router queue to push list |
| `Sampling` | the rate sampler and the frame limits |
| `EditDistance`, `Lcss`, `Split`, `Decimal`, `SimpleQueue`, `PriorityQueue` | the self-contained algorithms |

A class stands for an object the program updates in place, and each of its methods
is proved against a function or invariant on values; the lemmas about those
functions carry the results over to whole runs.

A stream is steady when the decoder waits for more bytes, or stops at a frame the
reader is bound to refuse too: one with a length word from 4 to below 2^31 - 4, one
whose call the rate limits refuse, one too short for the magic word that already
contradicts it, or, as the very first frame, any other word below 2^32 - 4.

## Where the code falls short of its promise

Each of these is stated with the exact condition under which the code is right, and
with an input for which it is not.

- Delivery depends on how the stream is cut when a length word is below 4, because
  the frame handler tests the four bytes behind the word even where they are not
  part of the frame. The same bytes are delivered in one run and refused in another
  (`Misreads.ShortFrameDependsOnCut`). The reader reads a stream stopped at such a
  word as the decoder does, for all memory and all cuts, exactly when the stream is
  steady (`Session.ReadStream`, `Misreads.Misread`).
- Length words of 2^31 - 4 and more lead the loop to a size that is not positive
  (`Misreads.HugeWordStrays`); `Buffers.JudgeExactly` states the condition per call
  over all 32-bit words.
- A connection's owner is told twice that it was destroyed exactly when a receive
  error meets an already buffered length word (`Connection.IoConnection.ReadSocket`,
  `Misreads.DestroyedTwice`): the error branch shuts the connection but goes on to
  the length check.
- The authentication gate holds for runs of up to `limit` connection ids exactly
  when `limit` is at most 2^32, and, if a failure may be reported twice, exactly when
  it is at most 2 (`AuthGateLimit.GateExactly`). A re-routed message's connection id
  passes through an `int` (`AuthGateLimit.GateFailsBeyondLimit`), and an object
  recycled twice is handed to two connections (`AuthGateLimit.GateFailsWhenDoubled`).
- A connection in the message state stays in it until it is closed, in all runs of up
  to `limit` ids, exactly when no failure is reported twice or `limit` is at most 2
  (`AuthPath.StaysExactly`, `AuthPath.FallsBackWhenDoubled`).
- The channel a collected message is re-routed to is the user's own exactly for ids
  below 2^31 and the last 2^31 of 64 bits (`AuthGate.ThroughIntExactly`).
- The cache keeps every object in one place exactly when only live objects are
  recycled (`CachePolicy.PartitionExactly`), and keeps a recycled one back for its
  epoch exactly when no older entry of it is left (`CachePolicy.ReuseExactly`).
- A collector keeps all unsent messages of a closed connection exactly when there is
  at most one (`PushList.WhenClosed`): its put cuts the chain behind the first.
- A push list of one message reports itself empty (`PushList.PushList.Empty`).
- A frame within its true counts is refused exactly when the count sharing its cell
  takes it over the limit (`Sampling.AdmitsExactly`): the minute and second counters
  are a union. In the first second of an hour about half of what the limits allow is
  accepted (`Sampling.FirstSecondBurst`, `Sampling.RefusedWithinLimits`).
- Splitting at a delimiter string joins back for every input no shorter than the
  delimiter exactly when the delimiter does not overlap itself
  (`Split.JoinsBackIffNoBorder`), and for every input exactly when it is a single
  character (`Split.JoinsBackAlways`): the last test reads before a shorter input.

## Model

| member | source | states |
|---|---|---|
| `Frames.SizesExactBelowLimit` | msg_handler/framework/io/io_connection.cpp:255-350 | Over all 32-bit words, the framing state's and the loop's size are both word + 4 exactly below 2^31 - 4, and the framing state's limit is the decoder's exactly below 2^32 - 4 |
| `Frames.DecodeCuts` | msg_handler/framework/io/io_connection.cpp:191-371 | The one-shot decoder's frames followed by its undecoded tail are the stream, byte for byte, and each frame is as long as its own word says |
| `Frames.DecodeExactly` | msg_handler/framework/io/io_app_connection.cpp:42-79 | Every frame taken holds the magic word and was not refused, and the decoder stops only at an incomplete frame, at a length word over the limit, or at a frame without the magic word or refused, and says which |
| `Frames.FirstStepStable` | msg_handler/framework/io/io_connection.cpp:255-283 | A decision taken on a prefix of the stream (deliver, refuse, oversize) stands whatever bytes follow |
| `Frames.DecodeResumes` | msg_handler/framework/io/io_connection.cpp:191-371 | Decoding may stop after any prefix and resume from the undecoded tail: the result is that of decoding everything at once; after a refusal later bytes change nothing |
| `Frames.DecodeFramed` | msg_handler/framework/ms/ms_message.cpp:74-149 | Any prefix of a stream of framed messages decodes to leading frames with their data intact, never to an oversize one, and to all of them once the stream is complete and none was refused |
| `Buffers.JudgeExactly` | msg_handler/framework/io/io_app_connection.cpp:42-79 | Over all 32-bit length words: whatever lies behind the bytes received, the frame handler answers as the decoder does if and only if the word is at least 4 and below 2^31 - 4, the call is refused anyway, or a byte received already differs from the magic word |
| `Buffers.SteadyPrefix` | msg_handler/framework/io/io_connection.cpp:191-371 | Whether a stream can be misread is decided by the bytes that stop the decoder, so every prefix of a steady stream is steady |
| `Buffers.AccountsForMore` | msg_handler/framework/io/io_connection.cpp:197-253 | Received bytes appended to the buffer keep the account: delivered frames plus what the buffer decodes to is what the whole received stream decodes to |
| `Buffers.AccountsAfterDelivery` | msg_handler/framework/io/io_connection.cpp:316-361 | Delivering the first buffered frame keeps that account |
| `Buffers.AccountsWhenStopped` | msg_handler/framework/io/io_connection.cpp:316-361 | When nothing more can be taken from the buffer, the delivered frames, the buffer and the reason are exactly the one-shot decode of everything received |
| `Buffers.VerdictAgrees` | msg_handler/framework/io/io_app_connection.cpp:42-79 | On a steady stream one answer of the handler is the decoder's; memory behind the buffer is looked at only for a word out of range |
| `Buffers.BatchAgrees` | msg_handler/framework/io/io_connection.cpp:316-361 | On a steady stream the loop over a full buffer delivers the decoder's frames, closes exactly on its refusal and keeps its tail; it strays only on a stream that is not steady |
| `Sockets.Socket.Recv` | msg_handler/framework/io/io_connection.cpp:197-253 | What a receive answers, exactly, for each event: the bytes moved are the first of those waiting, at most what fits and what the kernel offers; a hang-up ends the stream, EINTR is consumed, EAGAIN and errors move nothing |
| `Sockets.Socket.Send` | msg_handler/framework/io/io_connection.cpp:415-450 | What a send answers, exactly, for each event: the kernel takes the offered prefix, or nothing |
| `Sockets.Socket.RecvSome` | msg_handler/framework/io/io_connection.cpp:197-253 | A receive called again on EINTR answers as the first event that is not EINTR says |
| `Sockets.Socket.SendSome` | msg_handler/framework/io/io_connection.cpp:415-450 | The same for a send |
| `Connection.IoConnection.Initialize` | msg_handler/framework/io/io_connection.cpp:499-532 | A destroyed object reused for a new connection starts with nothing delivered and nothing queued, and keeps its read buffer with the old contents |
| `Connection.IoConnection.Shut` | msg_handler/framework/io/io_connection.cpp:147-189 | Closing shuts the socket, reports one destroy and hands over the unsent messages in order, the partly written one first |
| `Connection.IoConnection.RecvFraming` | msg_handler/framework/io/io_connection.cpp:197-253 | The first receive appends exactly the bytes the first answer other than EINTR brings; it shuts the connection exactly when that answer is the end of the stream or an error, and ends the call exactly at the end of the stream |
| `Connection.IoConnection.RecvData` | msg_handler/framework/io/io_connection.cpp:285-314 | Receives exactly the bytes the answer brings of those the frame lacks, and shuts the connection exactly at the end of the stream or an error; on a connection already shut it shuts it again |
| `Connection.IoConnection.Grow` | msg_handler/framework/io/io_connection.cpp:263-280 | The new buffer holds 64 bytes more than the frame, at most 1024, and the old contents |
| `Connection.IoConnection.Deliver` | msg_handler/framework/io/io_app_connection.cpp:42-79 | The handler judges the four bytes behind the length word as they stand in memory, whether or not they belong to the frame, and records whether they lie behind the buffer |
| `Connection.IoConnection.SizeFrame` | msg_handler/framework/io/io_connection.cpp:255-283 | For every 32-bit word: accepts it exactly when its wrapped size is at most 1024, growing the buffer without losing its contents; otherwise closes, with the decoder's oversize verdict on a steady stream |
| `Connection.IoConnection.Drain` | msg_handler/framework/io/io_connection.cpp:330-356 | For every buffer and every 32-bit word, the loop delivers, closes, strays or stops exactly as the value-level loop says |
| `Connection.IoConnection.TakeFrames` | msg_handler/framework/io/io_connection.cpp:316-361 | One frame or several: the same outcome, with the tail moved to the front or the connection shut and its unsent messages handed over |
| `Connection.IoConnection.FinishFrame` | msg_handler/framework/io/io_connection.cpp:316-361 | On a steady stream, what is delivered is the one-shot decode of the bytes received and the connection closes only when the decoder has stopped |
| `Connection.IoConnection.ReadSocket` | msg_handler/framework/io/io_connection.cpp:191-371 | On every steady stream, however the kernel cuts it, with EAGAIN and EINTR anywhere, the frames delivered are exactly the one-shot decode of the bytes received and an open connection buffers exactly the undecoded tail. One event closes the connection if and only if its receive meets the end of the stream or an error, its length word is over the limit, or the loop over the completed frames refuses one; a hang-up gives one destroy; closing hands over exactly the unsent messages; two destroys are reported exactly when an error meets a buffered length word; and on any stream, bytes that complete a frame are judged in place exactly as the value-level loop says |
| `Connection.IoConnection.ReadNewFrame` | msg_handler/framework/io/io_connection.cpp:197-371 | The framing state with the receiving state behind it: the same, from an empty or partial length word |
| `Connection.IoConnection.ReadHandler` | msg_handler/framework/io/io_connection.cpp:469-482 | Any readable event, also after a destroy, keeps delivered frames equal to the one-shot decode of the bytes received on a steady stream; an event that brings bytes makes progress, one without hang-up or error closes a steady stream's connection only where the decoder has stopped, and a hang-up or error closes it; after a destroy nothing changes |
| `Connection.IoConnection.PushMessage` | msg_handler/framework/io/io_app.cpp:291-292 | Arms the write event and queues the message behind all earlier ones, keeping the writer's invariant |
| `Connection.IoConnection.NextPush` | msg_handler/framework/io/io_connection.cpp:373-467 | The next message becomes the current one, or the write event is disarmed exactly when none is queued |
| `Connection.IoConnection.SendCurrent` | msg_handler/framework/io/io_connection.cpp:415-467 | A partial send extends the bytes taken and the position by exactly what the kernel took; a failed send, and nothing else, shuts the connection and hands over everything unsent |
| `Connection.IoConnection.WriteSocket` | msg_handler/framework/io/io_connection.cpp:373-467 | One write event closes the connection if and only if the first unsent message asks for it or its send fails. Otherwise the bytes sent grow by exactly what the kernel took; the message is finished exactly when its last byte was taken, and then the next becomes current at its start; nothing pushed is lost, duplicated or reordered; the write event stays armed exactly while something is unsent; finished plus handed-over messages of a closed connection are exactly those pushed |
| `Session.SentIsPrefix` | msg_handler/framework/io/io_connection.cpp:373-467 | The bytes the kernel took are a prefix of the concatenated pushed frames |
| `Session.Link.Step` | msg_handler/framework/io/io_connection.cpp:191-467 | Every push, partial send, channel delay and partial receive keeps the writer's, the channel's and the reader's invariants together |
| `Session.Run` | msg_handler/framework/io/io_connection.cpp:191-467 | For every interleaving of pushes, partial sends, channel delays and partial receives, the frames delivered are a prefix of the frames pushed, data intact, and equal them once every byte has been received and none was refused |
| `Session.Flush` | msg_handler/framework/io/io_connection.cpp:373-467 | After as many moving write events as there are bytes unsent, every message is finished and the bytes sent are all pushed messages in push order |
| `Session.Complete` | msg_handler/framework/io/io_connection.cpp:191-467 | From any state of a link with both ends open and no call refused: after enough moving write events, the channel's delivery and enough moving read events, the frames delivered are exactly all the frames pushed, and both ends are still open |
| `Session.ReadStream` | msg_handler/framework/io/io_connection.cpp:191-371 | For every stream, memory and way of cutting it into receives: while the bytes received are steady, the frames delivered are their one-shot decode and the buffer holds exactly the undecoded tail; every prefix of a steady stream is steady; and the handler looks behind the buffer only for a word out of range |
| `Misreads.Misread` | msg_handler/framework/io/io_app_connection.cpp:42-79 | The converse: every stream whose decode stops at a word below 4 whose frame does not contradict the magic word, or at one of the last four words, with the call not refused, has memory and a way of cutting it for which the reader delivers one frame more than the decoder or strays |
| `Misreads.ShortFrameDependsOnCut` | msg_handler/framework/io/io_app_connection.cpp:42-79 | A concrete stream whose four-byte frame is refused when read in one piece and delivered when cut behind each frame |
| `Misreads.HugeWordStrays` | msg_handler/framework/io/io_connection.cpp:346-350 | A concrete stream on which the loop calls the handler with a negative size, while the decoder and the framing state take the word for oversize |
| `Misreads.DestroyedTwice` | msg_handler/framework/io/io_connection.cpp:218-221 | A new connection, a concrete stream and two events after which its owner was told twice to destroy it |
| `Messages.FrameBuffer.FromFrame` | msg_handler/framework/ms/ms_message.cpp:37-68 | Copies a received frame with 32 spare bytes; its wire bytes are that frame |
| `Messages.FrameBuffer.ForData` | msg_handler/framework/ms/ms_message.cpp:74-108 | A buffer of exactly eight bytes more than the data, with length word and magic in place |
| `Messages.FrameBuffer.Fix` | msg_handler/framework/ms/ms_message.cpp:114-149 | Reuses the buffer exactly when the new frame fits, else replaces it; either way the header announces the new length |
| `Messages.FrameBuffer.Fill` | msg_handler/framework/ms/ms_message.cpp:114-149 | With the data written behind the header, the wire bytes are the data's frame |
| `Messages.FrameOfItsData` | msg_handler/framework/ms/ms_message.cpp:37-68 | An accepted frame with a magic word is the frame of its own data: unwrapping and framing again gives the same bytes |
| `Messages.FrameInjective` | msg_handler/framework/ms/ms_message.cpp:74-108 | Two data have the same frame exactly when they are equal |
| `LinkedList.List.Add` | msg_handler/framework/lib/linked_list.h:37-43 | Puts a node first; the ring stays linked in both directions and duplicate-free |
| `LinkedList.List.AddLast` | msg_handler/framework/lib/linked_list.h:45-51 | Puts a node last; the ring stays linked in both directions and duplicate-free |
| `LinkedList.List.First` | msg_handler/framework/lib/linked_list.h:53-56 | The first node, or nothing exactly when the list is empty |
| `LinkedList.List.Remove` | msg_handler/framework/lib/linked_list.h:99-103 | Takes out exactly that node, wherever it stands; the ring closes over it |
| `CachePolicy.MigrationExact` | msg_handler/framework/io/connection_cache.inl:48-94 | Migration moves to the cache exactly the objects recycled before the current loop, in order, and leaves the others |
| `CachePolicy.GetExactly` | msg_handler/framework/io/connection_cache.inl:48-94 | The object recycled longest ago comes back first; a new one is created if and only if no cached one and none from an earlier epoch is left |
| `CachePolicy.GetKeeps` | msg_handler/framework/io/connection_cache.inl:48-94 | Getting an object keeps live, cached and recycling objects disjoint and complete, and never hands out a live one |
| `CachePolicy.RecycleKeeps` | msg_handler/framework/io/connection_cache.inl:23-45 | Recycling a live object keeps them disjoint and complete and the ages in order |
| `CachePolicy.InvAlways` | msg_handler/framework/io/connection_cache.inl:23-94 | Over every run of get, recycle of live objects and loop count, live, cached and recycling objects partition all objects ever created and recycle in epoch order |
| `CachePolicy.PartitionExactly` | msg_handler/framework/io/connection_cache.inl:23-94 | Over every run at all, live, cached and recycling objects are all objects ever created, each once, if and only if only live objects were recycled |
| `CachePolicy.WaitingStays` | msg_handler/framework/io/connection_cache.inl:48-94 | An object recycled in the current epoch stays waiting through any step but a loop count |
| `CachePolicy.NoReuseWithinEpoch` | msg_handler/framework/io/connection_cache.inl:23-94 | In every run, an object recycled and then asked for with no loop count in between is never the one handed out |
| `CachePolicy.ReuseExactly` | msg_handler/framework/io/connection_cache.inl:23-94 | From any aged cache, an object recycled now is not handed out by any number of gets in this epoch if and only if no entry of it is left from an earlier one, as a second recycle leaves |
| `ConnectionCache.Cache.Recycle` | msg_handler/framework/io/connection_cache.inl:23-45 | On the nodes: an idle or new node takes the object to the end of the recycling list; the three lists stay well formed, share no node and lose none |
| `ConnectionCache.Cache.MoveExpired` | msg_handler/framework/io/connection_cache.inl:56-75 | The migration loop stops having moved exactly the expired front, and reports whether it moved any |
| `ConnectionCache.Cache.Get` | msg_handler/framework/io/connection_cache.inl:48-94 | On the nodes: hands out what the rules say (cached, else expired, else new), frees the node, and keeps the three lists partitioning the same nodes |
| `ConnectionCache.Cache.Tick` | msg_handler/framework/io/io_app.cpp:225-271 | The loop count grows by one and nothing else changes |
| `Lifecycle.OpenedSound` | msg_handler/framework/io/io_app.cpp:225-271 | Opening any batch of new ids, whatever objects the cache hands back, keeps the register injective and counted; each new connection is on an object initialised with its id, in the initial state and with nothing to push, and every connection already online keeps its object as it was |
| `Lifecycle.ClosedSound` | msg_handler/framework/io/io_app.cpp:151-159 | Destroying a connection's object removes exactly its id, keeps the register injective, counted and in step with the cache, and leaves every other connection's object as it was |
| `Lifecycle.ClosedTwiceUnsound` | msg_handler/framework/io/io_app.cpp:151-159 | A second destroy of the same object always breaks that: the count is one short of the register and the object is cached twice |
| `Lifecycle.PushedSound` | msg_handler/framework/io/io_app.cpp:280-292 | A message goes to the end of the push list of the one object that serves its connection id, and that object takes the message's state if the message switches it and else keeps its own; every other object is untouched |
| `Lifecycle.WroteSound` | msg_handler/framework/io/io_connection.cpp:373-467 | Finishing a message takes exactly the first one off its connection's push list; states, ids and all other objects stay, and the register's invariant holds |
| `IoApp.Impl.NewConnection` | msg_handler/framework/io/io_app.cpp:225-271 | The loop over the accepted sockets has the effect of opening them one after the other, then counts the loop, from any state of the register; a sound register stays sound |
| `IoApp.Impl.Destroy` | msg_handler/framework/io/io_app.cpp:151-159 | Destroying an object, also a second time, has the specified effect and hands back exactly its push list; a registered object of a sound register leaves it sound |
| `IoApp.Impl.PushMessage` | msg_handler/framework/io/io_app.cpp:280-308 | An online connection's message is queued on its object, whose state becomes the message's if it switches it and else stays; another goes to the collector, if there is one, and changes nothing else |
| `IoApp.Impl.Push` | msg_handler/framework/io/io_app.cpp:310-334 | Draining the list has the effect of its messages one after the other; exactly those without a connection are collected, in order, if there is a collector |
| `IoApp.DrainKeepsOrder` | msg_handler/framework/io/io_app.cpp:310-324 | Draining appends to each online connection's push list exactly its own messages in list order |
| `AuthGate.PlacedAlways` | msg_handler/framework/io/io_app.cpp:151-308 | In every run of all threads' steps that reports no failure twice, each connection id is queued or online at one IO thread at most, no destroyed id is anywhere, and every register is sound |
| `AuthGate.IdsPlacedAlways` | msg_handler/framework/io/io_app.cpp:151-271 | In every run at all, each id is queued or online at one IO thread at most and no destroyed id is anywhere |
| `AuthGate.SoundOrClosed` | msg_handler/framework/io/io_app.cpp:151-308 | In every run at all, every register is sound until some connection closes |
| `AuthGate.PushReachesItsConnection` | msg_handler/framework/io/io_app.cpp:280-292 | In every run that reports no failure twice, a message pushed for an online id lands on the object initialised with that id and on no other, and changes its state exactly if it switches it; a message for an id that is gone goes to the collector; the register is injective and its size is the connection count |
| `AuthGate.NoSecondLife` | msg_handler/framework/io/io_app_accept_service.cpp:30-35 | In every run at all, a destroyed connection's id never comes online again, although its object is reused |
| `AuthGate.GuardedAuth` | msg_handler/message/im_message_auth_processor.cpp:81-114 | An auth worker's step keeps the gate's invariant: the only switch it routes is for the connection it accepted |
| `AuthGate.AuthExactly` | msg_handler/message/im_message_auth_processor.cpp:56-149 | An auth worker accepts a message if and only if its pack is a timely AUTH pack with a user and a token: then it routes back the switch to the message state and the user's channel is the connection; any other pack is answered by closing the connection and changes nothing else |
| `AuthGate.GuardedApp` | msg_handler/message/im_message_processor.cpp:70-153 | The app worker's acks, answers and refusals create no state switch for an unauthenticated connection |
| `AuthGate.AppExactly` | msg_handler/message/im_message_processor.cpp:60-197 | An app worker serves a message if and only if its connection was in the message state and its pack is timely, names a user and is TOUCH or MSG with a target; it answers an AUTH pack too; any other pack is answered by closing the connection. Only TOUCH moves the user's channel, and only a MSG pack the broker did not take is collected |
| `AuthGate.GuardedPush` | msg_handler/framework/io/io_app.cpp:280-292 | A pushed state switch puts into the message state only an authenticated connection, up to 2^32 ids, while registers are sound or too few ids are left to share an object |
| `AuthGate.GuardedClose` | msg_handler/framework/io/io_app_connection.cpp:81-106 | Closing, collecting and recycling keep the gate's invariant: a reused object starts in the initial state |
| `AuthGate.GuardedCloseTwice` | msg_handler/framework/io/io_connection.cpp:218-221 | So does the step that reports a failure twice |
| `AuthGate.GuardedRecollect` | msg_handler/message/im_user_message_router.cpp:73-93 | Re-routing collected messages to the user's newer channel keeps the gate's invariant up to 2^32 ids |
| `AuthGate.RecollectExactly` | msg_handler/message/im_user_message_router.cpp:73-93 | The user's messages leave the collector and the others stay in order; the user's channel is forgotten if and only if some failed message is as new as it, and otherwise every failed message follows it, in order |
| `AuthGate.FilterConcat` | msg_handler/framework/ms/ms_message_collector.cpp:74-105 | Picking a user's messages and the others goes through the list in order |
| `AuthGate.FilteredFrom` | msg_handler/framework/ms/ms_message_collector.cpp:74-105 | Each message is picked for its user or left to the others, and none is dropped or doubled |
| `AuthGate.ThroughIntExactly` | msg_handler/message/im_user_message_router.cpp:79-86 | A 64-bit connection id passes through the `int` unchanged if and only if it is below 2^31 or among the last 2^31 |
| `AuthGate.UniformAlways` | msg_handler/message/im_message_auth_processor.cpp:81-114 | In every run at all, every state switch in flight is to the message state, and no message waiting for a worker switches or closes |
| `AuthGate.SwitchesComeFromAuth` | msg_handler/message/im_message_auth_processor.cpp:81-114 | A step that routes a state switch accepted a timely AUTH pack with a user and a token for that connection, or re-routes a switch that was collected; no step but a push changes what is already routed |
| `AuthGate.AcceptedGrowsByAuth` | msg_handler/message/im_message_auth_processor.cpp:81-149 | A step makes a connection accepted if and only if it authenticates it: the pack's kind, time, user and token, the message's state and the routed reply |
| `AuthGate.AcceptedWasAuthenticated` | msg_handler/message/im_message_auth_processor.cpp:81-114 | A connection counted as accepted has an earlier step that took its timely AUTH pack with a user and a token and routed its switch to the message state |
| `AuthGate.GateHoldsBelowLimit` | msg_handler/message/im_message_processor.cpp:70-134 | In every run that hands out at most 2^32 ids and reports no failure twice, or that hands out at most two ids, a MSG or TOUCH pack is answered without closing only after a step that took a timely AUTH pack with a user and a token of the same connection id and routed its switch, despite state snapshots in flight and object reuse |
| `AuthGateLimit.GateFailsBeyondLimit` | msg_handler/message/im_user_message_router.cpp:79-86 | A concrete run with one id more in which a re-routed reply switches the state of a connection that never authenticated, and it is served |
| `AuthGateLimit.GateFailsWhenDoubled` | msg_handler/framework/io/io_connection.cpp:218-221 | A concrete run with three ids and one failure reported twice, in which two connections share an object and the one that never authenticated is served |
| `AuthGateLimit.GateExactly` | msg_handler/message/im_user_message_router.cpp:79-86 | The gate holds in all runs of at most `limit` ids if and only if `limit` is at most 2^32 when no failure is reported twice, and at most 2 when one may be |
| `AuthPath.StaysFrom` | msg_handler/framework/io/io_app.cpp:280-292 | In every run that reports no failure twice, or hands out at most two ids, a connection once in the message state is in it at the end if and only if it was not closed |
| `AuthPath.FallsBackWhenDoubled` | msg_handler/framework/io/io_connection.cpp:218-221 | A concrete run with three ids and one failure reported twice, in which an open connection in the message state falls back to the initial state |
| `AuthPath.StaysExactly` | msg_handler/framework/io/io_app.cpp:225-308 | Connections stay in the message state until closed in all runs of at most `limit` ids if and only if no failure is reported twice or `limit` is at most 2 |
| `AuthPath.NewIsOpen` | msg_handler/framework/io/io_app.cpp:225-271 | From any sound state, accepting a socket and opening the queue puts the new id online, in the initial state, with nothing to push |
| `AuthPath.FirstPack` | msg_handler/message/im_message_auth_processor.cpp:81-149 | A connection's first pack, its check and the reply's push leave the connection in the message state if the pack authenticates, and else in the initial state with a closing message last on its push list |
| `AuthPath.LaterPack` | msg_handler/message/im_message_processor.cpp:70-197 | A pack read on a connection is served by an app worker if and only if the connection is in the message state and the pack is in order |
| `AuthPath.NewConnectionServed` | msg_handler/message/im_message_dispatcher.cpp:53-70 | From every state of every run that reports no failure twice, a new connection's second pack is served if and only if its first pack authenticates and the second is in order |
| `AuthPath.CloseExactly` | msg_handler/framework/io/io_app_connection.cpp:81-106 | A close takes exactly its connection out of the register, hands exactly the first unwritten message to the collector, and leaves every other connection as it is |
| `MessageChains.BlockQueue.Put` | msg_handler/framework/ms/ms_message_block_queue.cpp:85-97 | Appends one message, cutting off what was linked behind it |
| `MessageChains.BlockQueue.PutList` | msg_handler/framework/ms/ms_message_block_queue.cpp:99-116 | Appends a whole list in order; tail and size stay right |
| `MessageChains.BlockQueue.GetAll` | msg_handler/framework/ms/ms_message_block_queue.cpp:45-56 | Takes the whole list in order and leaves the queue empty |
| `MessageChains.BlockQueue.Get` | msg_handler/framework/ms/ms_message_block_queue.cpp:58-83 | Takes the first `count` messages as a null-terminated list and keeps the others in order |
| `MessageChains.MessageQueue.Get` | msg_handler/framework/ms/ms_message_queue.cpp:27-34 | Takes everything in order |
| `MessageChains.MessageQueue.Put` | msg_handler/framework/ms/ms_message_queue.cpp:36-47 | Appends a whole list in order |
| `Grouping.GroupByIo` | msg_handler/framework/ms/ms_message_router_local.cpp:63-93 | Relinks the list in place so that each IO thread's slot is a null-terminated list of exactly its messages in their original order, with the right count |
| `Grouping.GroupByUid` | msg_handler/framework/ms/ms_message_collector.cpp:74-105 | The same by user, with a slot for exactly the users that occur |
| `Grouping.RouteList` | msg_handler/message/im_user_message_router.cpp:37-71 | Splits the list in place into registered users' messages, addressed to their channels, and the others, untouched, both in original order and null-terminated |
| `Grouping.StablePartition` | msg_handler/framework/ms/ms_message_router_local.cpp:65-92 | Every message is in the group of its key, at the rank it had among that key's messages |
| `Grouping.RankIncreases` | msg_handler/framework/ms/ms_message_router_local.cpp:65-92 | Ranks grow with position, so messages of one group keep their order |
| `Grouping.PartitionConserves` | msg_handler/framework/ms/ms_message_router_local.cpp:65-92 | A message is in a group once if it has that key and otherwise not at all |
| `Pipeline.InOrderAlways` | msg_handler/framework/ms/ms_message_router_local.cpp:63-93 | For every interleaving of routing threads, router batches and IO batches, what each IO thread has handled, holds and is owed is exactly the messages routed to it, in router-queue order |
| `Pipeline.EndToEndFifo` | msg_handler/framework/io/io_app.cpp:310-324 | For every such interleaving, a connection's push list holds exactly its own messages handled while it was online, in the order they entered the router queue, none twice |
| `Pipeline.PushListExactly` | msg_handler/framework/io/io_app.cpp:280-324 | A message is on the push list if and only if it was handled for that connection while it was online |
| `Pipeline.SortIsGroupByIo` | msg_handler/framework/ms/ms_message_router_local.cpp:65-92 | The list the in-place loop leaves in a slot is what the step machine's sorting step puts there |
| `PushList.PushList.Get` | msg_handler/framework/io/io_push_list.h:34-49 | Takes the first node and message out of both chains, which stay parallel |
| `PushList.PushList.Put` | msg_handler/framework/io/io_push_list.h:59-74 | Appends to both chains |
| `PushList.PushList.PutFirst` | msg_handler/framework/io/io_push_list.h:76-86 | Puts a node and its message in front of both chains |
| `PushList.PushList.StealMsg` | msg_handler/framework/io/io_push_list.h:118-121 | The head of the chain of all messages in list order |
| `PushList.PushList.ShallowClear` | msg_handler/framework/io/io_push_list.h:103-116 | Frees the nodes, also after the message chain was cut |
| `PushList.PushList.Empty` | msg_handler/framework/io/io_push_list.h:125 | True exactly for lists of at most one message |
| `PushList.WhenClosed` | msg_handler/framework/io/io_app_connection.cpp:81-106 | The chain handed over, with the links it had then, starts with the partly written message and is the unsent messages in order; the collector keeps all of them if and only if there is at most one |
| `Sampling.Sampler.FixSpace` | msg_handler/framework/io/io_sampling.cpp:23-32 | A new hour starts from zero, an old one keeps its counts |
| `Sampling.Sampler.Take` | msg_handler/framework/io/io_sampling.cpp:34-43 | Counts the frame in its hour, second and minute; each cell stays the sum of the second and minute counts that share it, and indices stay in range |
| `Sampling.Sampler.Report` | msg_handler/framework/io/io_sampling.cpp:45-59 | Returns the hour's count and the two shared cells of the current second and minute |
| `Sampling.ReportNeverUndercounts` | msg_handler/framework/io/io_sampling.h:49-57 | A report is never below the true count, and equals it exactly when the count sharing its cell is zero |
| `Sampling.AdmitsExactly` | msg_handler/framework/io/io_app_connection.cpp:47-62 | A frame whose true counts are within the limits is refused if and only if what shares its second's or its minute's cell takes that cell over the limit |
| `Sampling.FirstSecondBurst` | msg_handler/framework/io/io_app_connection.cpp:42-79 | Of any burst in the first second of an hour, exactly 1 + min(second / 2, minute / 2, hour) frames at most are accepted, because the shared cell counts each twice |
| `Sampling.RefusedWithinLimits` | msg_handler/framework/io/io_app_connection.cpp:47-62 | A concrete log on which a frame within all true counts is refused |
| `Sampling.AdmittedRespects` | msg_handler/framework/io/io_app_connection.cpp:47-73 | A frame admitted at one clock reading and recorded at a later one leaves at most limit + 1 frames in every second, minute and hour |
| `Sampling.Limiter.Receive` | msg_handler/framework/io/io_app_connection.cpp:42-79 | Accepts exactly when no report exceeds its limit, and records exactly the accepted frames |
| `Sampling.CountersFit` | msg_handler/framework/io/io_sampling.cpp:34-43 | With an hour limit below 2^30 no unsigned counter wraps |
| `Sampling.ReceiveAll` | msg_handler/framework/io/io_app_connection.cpp:42-79 | For every sequence of frames on a monotone clock, the accepted ones number at most limit + 1 in any second, minute and clock hour |
| `EditDistance.NoScriptCheaper` | msg_handler/framework/lib/string_algorithms.cpp:99-133 | No edit script of inserts, deletes, matches, substitutions and inner adjacent swaps costs less than the recurrence |
| `EditDistance.BestScript` | msg_handler/framework/lib/string_algorithms.cpp:99-133 | Some script costs exactly that |
| `EditDistance.DistanceIsMinimum` | msg_handler/framework/lib/string_algorithms.cpp:99-133 | The distance is the minimum cost over all edit scripts |
| `EditDistance.DistanceSymmetric` | msg_handler/framework/lib/string_algorithms.cpp:99-133 | The distance is symmetric |
| `EditDistance.DistanceZero` | msg_handler/framework/lib/string_algorithms.cpp:99-133 | The distance is zero exactly for equal strings |
| `EditDistance.Compute` | msg_handler/framework/lib/string_algorithms.cpp:99-133 | The table's last cell is the distance |
| `Lcss.LengthIsMaximum` | msg_handler/framework/lib/string_algorithms.cpp:165-197 | A common subsequence of the computed length exists and none is longer |
| `Lcss.DistanceAtLeast` | msg_handler/framework/lib/string_algorithms.cpp:99-197 | The longer length minus the LCSS is at most the edit distance |
| `Lcss.DistanceAtMost` | msg_handler/framework/lib/string_algorithms.cpp:99-197 | The edit distance is at most the sum of the lengths minus twice the LCSS |
| `Lcss.Compute` | msg_handler/framework/lib/string_algorithms.cpp:165-197 | The table's last cell is the LCSS length |
| `Split.SplitChar` | msg_handler/framework/lib/string_algorithms.cpp:229-249 | The pieces hold no delimiter, and joined they are the input up to one dropped trailing delimiter |
| `Split.PiecesUnique` | msg_handler/framework/lib/string_algorithms.cpp:229-249 | Delimiter-free pieces with a given join are unique, so the contract of the character split fixes its result |
| `Split.ScanCovers` | msg_handler/framework/lib/string_algorithms.cpp:256-288 | The scan's pieces put back together with delimiters are the rest of the input |
| `Split.ScanFree` | msg_handler/framework/lib/string_algorithms.cpp:256-288 | No piece of the scan holds a delimiter |
| `Split.JoinsBackExactly` | msg_handler/framework/lib/string_algorithms.cpp:256-288 | For each input, the pieces join back to it exactly unless it ends with a delimiter the scan did not stop at |
| `Split.JoinsBackIffNoBorder` | msg_handler/framework/lib/string_algorithms.cpp:256-288 | The string split joins back for every input no shorter than the delimiter if and only if the delimiter has no self-overlap |
| `Split.BorderBreaks` | msg_handler/framework/lib/string_algorithms.cpp:256-288 | A self-overlapping delimiter has an explicit input that does not join back |
| `Split.ShortJoinsBack` | msg_handler/framework/lib/string_algorithms.cpp:282-285 | A non-empty input shorter than the delimiter joins back, whatever memory lies before it, if and only if it is not a suffix of the delimiter |
| `Split.JoinsBackAlways` | msg_handler/framework/lib/string_algorithms.cpp:256-288 | Over all inputs and all memory before them, the string split joins back if and only if the delimiter is a single character |
| `Split.SplitString` | msg_handler/framework/lib/string_algorithms.cpp:256-288 | The loop returns the scan's pieces, and one empty piece more when the delimiter ends the input together with the memory before it |
| `Decimal.DigitsRoundTrip` | msg_handler/framework/lib/util.cpp:143-159 | Reading the printed digits back gives the number |
| `Decimal.NoLeadingZero` | msg_handler/framework/lib/util.cpp:143-159 | No printed number but zero itself starts with a zero |
| `Decimal.TwentyDigits` | msg_handler/framework/lib/util.cpp:143-159 | Every unsigned 64-bit number prints in at most 20 digits |
| `Decimal.Uint64ToString` | msg_handler/framework/lib/util.cpp:143-159 | Writing digits least first and reversing gives the decimal digits; the 32-byte buffer is never overrun, terminator included |
| `Decimal.LLToStr` | msg_handler/framework/lib/util.cpp:161-170 | Writing digits from the end of the buffer backwards gives the decimal digits and leaves the terminator alone |
| `Decimal.Int64ToString` | msg_handler/framework/lib/util.cpp:172-181 | Prints every int64 above -2^63 with its sign inside the buffer; the text reads back as the number |
| `Decimal.SignedRoundTrip` | msg_handler/framework/lib/util.cpp:172-181 | A reader of an optional minus and digits gives every printed number back, and the text starts with a minus if and only if the number is negative |
| `Decimal.SignedInjective` | msg_handler/framework/lib/util.cpp:172-181 | Different signed numbers print differently |
| `Decimal.RouteRoundTrip` | msg_handler/message/route_info_publisher.cpp:59-70 | A reader that splits the published text at its first colon gives user and handler back |
| `Decimal.RouteTextInjective` | msg_handler/message/route_info_publisher.cpp:59-70 | The published text of user and handler determines both numbers |
| `SimpleQueues.SimpleQueue.Open` | msg_handler/framework/lib/simple_queue.cpp:23-37 | Adds 1024 new nodes to the idle list and changes nothing else |
| `SimpleQueues.SimpleQueue.Get` | msg_handler/framework/lib/simple_queue.cpp:81-92 | Removes the first value and keeps its node for reuse; null on an empty queue |
| `SimpleQueues.SimpleQueue.GetM` | msg_handler/framework/lib/simple_queue.cpp:51-74 | Writes the first min(want, size) values to the array from the given place on and nowhere else, and keeps the rest in order |
| `SimpleQueues.SimpleQueue.Put` | msg_handler/framework/lib/simple_queue.cpp:94-121 | Appends a value, allocating only when no node is idle |
| `SimpleQueues.NoneLost` | msg_handler/framework/lib/simple_queue.cpp:51-121 | All nodes ever allocated are queued or idle, and none is both |
| `PriorityQueues.GetsInOrder` | msg_handler/framework/lib/priority_queue.cpp:82-122 | Successive removals take a prefix of all values in priority order, oldest first within a priority, and leave the rest in that order |
| `PriorityQueues.GetsCompose` | msg_handler/framework/lib/priority_queue.cpp:82-103 | Removing a + b values is removing a and then b |
| `PriorityQueues.PriorityQueue.TotalSize` | msg_handler/framework/lib/priority_queue.cpp:54-64 | The number of values in all queues |
| `PriorityQueues.PriorityQueue.Get` | msg_handler/framework/lib/priority_queue.cpp:113-122 | Removes the oldest value of the best non-empty priority, and returns null exactly when there is none |
| `PriorityQueues.PriorityQueue.GetM` | msg_handler/framework/lib/priority_queue.cpp:82-103 | Returns and leaves exactly what min(want, total) successive single removals would, and no queue gains or loses a node |
| `PriorityQueues.PriorityQueue.Put` | msg_handler/framework/lib/priority_queue.cpp:125-131 | Appends to its priority's queue; a priority out of range is dropped |

## Left out

- SOCKET_CONNECTING, connection timeouts and libevent registration: only the effect remains, bytes moved and whether the write event is armed; arming of the read event is not modelled.
- The kernel: each call answers from a script of events; which script arises is not restricted.
- Connection.IoConnection.ReadSocket: the condition for closing from the framing state is stated for the 1024-byte buffer a connection starts with; once the handler is called with a size that is not positive the reader has strayed and the model follows it no further; reading the four bytes behind the buffer returns some value; the tail of the buffer is taken to move correctly although the source and target of its memcpy can overlap.
- Misreads.Misread: leaves out words from 2^31 - 4 to 2^32 - 5 behind other frames, for which it depends on what earlier frames left in the buffer whether any way of cutting the stream strays; `Buffers.JudgeExactly` states the condition for each call and `Misreads.HugeWordStrays` gives a stream.
- Messages.FrameBuffer.ForData: assumes a little-endian host for the magic word and successful allocation.
- AuthGate.GateHoldsBelowLimit: processors, dispatcher and failure routing are modelled on values as atomic steps of one machine, not as objects updated in place; connection ids are unbounded, without 64-bit wrap-around; a second destroy may follow any close.
- AuthPath.NewConnectionServed: follows one connection's path with no other step in between; what other steps may not do to it is what the results over runs state.
- AuthGate.GuardedRecollect: re-routed messages are taken to stay usable, although the caller of the failure route releases them.
- Conservation of messages after a failed push: the collector's hand-over and the failure route do not support it as written.
- Pipeline.EndToEndFifo: whether a connection is online when its message is handled is left open, so the push list is a sub-list of what was routed.
- Mutexes, condition variables and threads: every locked region is one atomic step; waiting is a precondition.
- PriorityQueues.PriorityQueue.GetM: requires a non-empty queue, since the waiting loop never re-reads the size, and `want` of at least zero.
- PriorityQueues.PriorityQueue.Put: a negative priority indexes outside the array and is not modelled.
- Split.SplitString: an empty delimiter, on which the loop does not advance, is not modelled.
- Decimal.Int64ToString: -2^63 is excluded, because its negation overflows.
- Sampling.Sampler.Take: the local-time offset is a constant and the clock does not go back.
- Allocation failure, which aborts the program.
- Protobuf parsing, Redis, Thrift, ZooKeeper, the backend IO files and the remote router: a pack is a datatype with kind, timeliness, user, token and number of targets.
- The limited block queue, message-id generation and hashing, configuration, logging and signal handling.
- Trimming, list clearing and the priority wrapper around message queues.
