# fflib in Dafny

fflib is a small game-server framework in C++. This project models the parts of it whose
correctness depends on more than one function: the wire stack, the task queue and its pool, socket
teardown, the shared/weak pointer counts, timers and heartbeats, the log formatter and the SQL
escaper. `dafny verify dfyconfig.toml` checks everything.

| module | what it models |
|---|---|
| Bytes, Sequences | little-endian fixed-width integers; concatenation |
| Reassembly | `message_t` and `common_socket_controller_t::handle_read` |
| Framing | the frame built by `msg_sender_t::send` |
| SendBuffer | the sending half of `socket_impl_t`, against a kernel that answers from a script |
| EndToEnd | the three together, from `send` to `handle_msg` |
| SmartPtr, Ownership, PointerCalls | `shared_ptr_t` and `weak_ptr_t`, one atomic operation per step; what every run keeps; what each call does |
| Codec, Decoder | `bin_encoder_t` and `bin_decoder_t` over scalars, strings, vectors and maps of any depth |
| Gateway | the routing header and `gate_msg_tool_t` |
| TaskQueue, Pool | `task_queue_t` and `task_queue_pool_t` |
| Teardown | `close`, the error list of the epoll loop, `handle_error` and the deferred delete |
| Timer, Heartbeat | `timer_service_t` and `base_heartbeat_t` |
| LogFormat, Escape | `str_format_t` and `escape_string` |

How the model is built:

- Code that one thread runs to completion is a class or a method with the source's loops; its
  `ensures` ties the new state to a function of the old one, and the lemmas are about that function.
- Concurrent code is a state machine whose steps are the source's atomic operations or critical
  sections. A run is any list of steps of any number of threads; a step that is not possible where
  it is listed is skipped. Theorems about `Exec(acts)` are therefore about every interleaving.
- The kernel is a finite list of answers to `send`: a count taken, `EINTR`, `EWOULDBLOCK` or a fatal
  error. When the list is used up, the answer is `EWOULDBLOCK`.
- The clock is an input that does not go backwards. Timers advance it by arbitrary amounts between
  and during callbacks.
- A thrown exception is a `None` or `Fail` result.

Where the code does less than one would expect, the model does what the code does and the exact
condition is proved:

- The hand-over test at `fflib/net/common_socket_controller.cpp:55` does not ask whether the header
  is complete. A read that ends inside a header whose size bytes so far are zero delivers an empty
  message early. `ChunkingExact` shows that reads of any sizes equal the stream if and only if no
  read ends there, and `ZeroHeaderInStream` says which positions those are. In terms of what is
  sent, every cutting of the stream is harmless if and only if no body length is a multiple of 256
  (`DeliveryBySizes`).
- A fatal `send` error drops a message that was being sent directly, and leaves a buffered message
  whole although part of it went out. If the descriptor takes bytes again, they are out of place.
  `PrefixExact` gives the scripts on which no run goes wrong: those where no fatal reply that
  follows an accepting one, or starts the script, interruptions aside, is followed by one that takes
  bytes. `RetryDuplicates` is one failing run, and in `FailureMisdelivers` the receiver's handler is
  given a message that nobody sent.
- `bin_encoder_t::init` does not clear the buffer (`BinEncoder.Init`).
- Decoding a map sorts and merges entries, so re-encoding gives the same bytes if and only if the
  entries on the wire were in strictly increasing key order (`ReencodeExact`).
- `timer_check` stops at the first entry that is not due. It is a filter if and only if no due
  entry stands in front of one that is not (`CheckIsFilterExactly`). The stamp is read before the
  lock is taken, so two threads can insert out of order, and a run then misses a due key
  (`OutOfOrderStampIsMissed`). Throughout a run, checks at any time are exact if and only if every
  insertion was in order (`RunChecksExactly`).
- `timer_check` leaves the map entries of reported keys behind (`IndexExact`), with iterators that
  dangle. In every run the iterator of a key dangles if and only if the key was reported
  (`DanglesExactly`), so `update` and `del` are safe exactly until then. `ExpiredKeyDangles` is the
  run that the gateway makes when it closes a silent connection: expiry, then `del`.
- `reset()` on a pointer that is not the last leaves the handle non-null, so its destructor releases
  again. The counts equal the handles if and only if no such reset was made, and the object dies
  under as many handles as were reset (`CountsExact`, `DeletedUnderHandle`, `ResetDeletesUnder`).
- A task posted to a socket after its delete task runs on the deleted socket. No task starts after
  the deletion if and only if none is posted after it (`NothingRunsAfterDelete`, `TaskAfterDelete`).
- The escaper's backslashes mean something to MySQL only. On SQLite the text stays inside its
  literal, but it is stored unchanged if and only if nothing needed a backslash
  (`SqliteLiteralExact`).
- `gen_result` appends the rest of the format on every call without moving the position.

## Model

| member | source | states |
|---|---|---|
| Reassembly.ParseConsistent | fflib/net/common_socket_controller.cpp:34-64 | whatever bytes arrive, the received count is header bytes plus body bytes and the body is short of the declared size |
| Reassembly.ParseSplit | fflib/net/common_socket_controller.cpp:34-64 | the byte-at-a-time reference parser gives the same messages and state however the stream is split |
| Reassembly.ParseHeadBlock | fflib/net/message.h:40-46 | copying a block into the header is absorbing its bytes one by one |
| Reassembly.ParseBodyBlock | fflib/net/message.h:47-53 | appending a block to the body is absorbing its bytes one by one |
| Reassembly.RoundIsRead | fflib/net/common_socket_controller.cpp:39-61 | one round of the loop makes progress, never overfills the body, and equals the reference parser on the bytes it used, plus the early hand-over when it used the last one |
| Reassembly.RoundReaches | fflib/net/common_socket_controller.cpp:39-61 | rounds compose: from any point of a buffer, one more round reaches the outcome of a longer prefix |
| Reassembly.ReadsReady | fflib/net/common_socket_controller.cpp:34-64 | after any list of reads the controller is consistent and not inside a zero header |
| Reassembly.CleanReadsParse | fflib/net/common_socket_controller.cpp:34-64 | reads with clean cuts deliver exactly what the stream contains and end in its state |
| Reassembly.ParseWeight | fflib/net/common_socket_controller.cpp:34-64 | every byte is in a delivered message or counted as received |
| Reassembly.ReadsWeight | fflib/net/common_socket_controller.cpp:52-60 | reads never lose bytes, and deliver more than they received if and when a cut is not clean |
| Reassembly.ChunkingExact | fflib/net/common_socket_controller.cpp:34-64 | chunked reads equal the reference parser on the whole stream if and only if no read ends in a zero header |
| Reassembly.TwoReadsAreOne | fflib/net/common_socket_controller.cpp:34-64 | reading a then b is reading a + b when a does not end in a zero header, and only then if a + b does not |
| Reassembly.Message.constructor | fflib/net/message.h:11-16 | a new message has a zero header and no body |
| Reassembly.Message.AppendHead | fflib/net/message.h:40-46 | fills the header at the given offset with at most what is missing and reports how much |
| Reassembly.Message.AppendMsg | fflib/net/message.h:47-53 | appends at most what the declared size still lacks and reports how much |
| Reassembly.Message.Clear | fflib/net/message.h:54-58 | back to the empty message |
| Reassembly.SocketController.constructor | fflib/net/common_socket_controller.cpp:34-64 | a new controller is at rest and has delivered nothing |
| Reassembly.SocketController.Round | fflib/net/common_socket_controller.cpp:39-61 | the loop body in place: state, bytes used and deliveries of one round |
| Reassembly.SocketController.HandleRead | fflib/net/common_socket_controller.cpp:34-64 | the loop in place: state and deliveries are those of the read function, and the controller is ready for the next read |
| Framing.HeadRoundTrip | fflib/net/message.h:11-26 | size, cmd and flag come back out of the eight header bytes |
| Framing.FrameParsed | fflib/net/msg_sender.h:16-26 | one frame parses to exactly its message and leaves the parser at rest |
| Framing.FramesParsed | fflib/net/msg_sender.h:16-26 | a stream of frames parses to exactly the list of messages |
| Framing.ZeroHeaderInFrame | fflib/net/common_socket_controller.cpp:55-60 | a cut inside a frame is a zero header exactly at header positions where the size bytes received are all zero |
| Framing.ZeroHeaderInStream | fflib/net/common_socket_controller.cpp:55-60 | the same for a cut anywhere in a stream of frames: only the message being cut matters |
| Framing.SplitHeaderMisdelivers | fflib/net/common_socket_controller.cpp:55-60 | an empty message whose header is split in the middle is delivered with the wrong cmd |
| SendBuffer.TrySendTakesNothing | fflib/net/socket_impl.cpp:187-218 | on a descriptor that takes nothing more, an attempt takes nothing and leaves it so |
| SendBuffer.DrainConserves | fflib/net/socket_impl.cpp:123-146 | draining the buffer keeps wire plus buffer equal to what was accepted, unless it fails |
| SendBuffer.DirectKeeps | fflib/net/socket_impl.cpp:169-184 | so does a direct send, and even a failing one leaves the wire a prefix |
| SendBuffer.CachedKeeps | fflib/net/socket_impl.cpp:162-167 | so does a send that is cached |
| SendBuffer.SendConservation | fflib/net/socket_impl.cpp:113-218 | in every run until the first fatal error, bytes given to the kernel followed by the send buffer are all accepted sends in order |
| SendBuffer.TrySendSafe | fflib/net/socket_impl.cpp:187-218 | what an attempt leaves of a script without risk: still none, with a message waiting or not according to the result |
| SendBuffer.SafeExact | fflib/net/socket_impl.cpp:187-218 | the recursive reading of a script agrees with the condition on positions |
| SendBuffer.WireStaysPrefix | fflib/net/socket_impl.cpp:113-218 | on a script without risk, the bytes given to the kernel are a prefix of the accepted sends after every run, also after fatal errors |
| SendBuffer.BreakRun | fflib/net/socket_impl.cpp:113-218 | on every other script some run of one-byte messages puts a byte out of place |
| SendBuffer.PrefixExact | fflib/net/socket_impl.cpp:113-218 | on an open socket, all runs keep the wire a prefix of the accepted sends if and only if the script has no risk, which a descriptor dead after a fatal error has not |
| SendBuffer.CompletionMeansDrained | fflib/net/socket_impl.cpp:143-146 | `handle_write_completed` fires only with an empty buffer, and then, without failure, everything accepted is on the wire |
| SendBuffer.TrySendStops | fflib/net/socket_impl.cpp:187-218 | an attempt ends short of the last byte only on a blocking or fatal reply, or for want of replies |
| SendBuffer.StepStopsOnlyWhenItMust | fflib/net/socket_impl.cpp:113-185 | on an open socket a writable event, or a send on an empty buffer, goes on until nothing is left, the kernel blocks or a reply is fatal; it reports completion exactly when nothing is left without failure, and posts two closes exactly on a failure; any other send only joins the buffer |
| SendBuffer.ClosedIsSilent | fflib/net/socket_impl.cpp:41-49 | after the close nothing is accepted or sent, whatever is asked |
| SendBuffer.RetryDuplicates | fflib/net/socket_impl.cpp:123-132 | a concrete script on which a retry after a fatal error sends a byte twice |
| SendBuffer.SocketImpl.constructor | fflib/net/socket_impl.cpp:187-218 | an open socket with an empty buffer |
| SendBuffer.SocketImpl.KernelSend | fflib/net/socket_impl.cpp:195 | one call of the kernel: the next reply of the script, and the bytes it takes |
| SendBuffer.SocketImpl.SendRound | fflib/net/socket_impl.cpp:195-214 | one round of the write loop keeps the loop headed for the outcome of the attempt, or ends it there |
| SendBuffer.SocketImpl.DoSend | fflib/net/socket_impl.cpp:187-218 | the write loop: result code, bytes taken, what is left, and the close it posts on failure |
| SendBuffer.SocketImpl.SendImpl | fflib/net/socket_impl.cpp:154-185 | new socket state of a send |
| SendBuffer.SocketImpl.HandleEpollWriteImpl | fflib/net/socket_impl.cpp:113-147 | new socket state of a writable event |
| SendBuffer.SocketImpl.CloseImpl | fflib/net/socket_impl.cpp:41-49 | the descriptor is gone and nothing else changes |
| EndToEnd.NetRunKeeps | fflib/net/socket_impl.cpp:113-218 | in every run the accepted byte strings are the frames of the messages sent |
| EndToEnd.SentIsGiven | fflib/net/msg_sender.h:16-26 | on an open socket the messages sent are those given to `send` before the close, in order |
| EndToEnd.Delivery | fflib/net/common_socket_controller.cpp:34-64 | for every list of sends, every kernel script without risk or without failure, and every clean chunking, the handler sees a prefix of the messages sent, and all of them once everything is drained and read |
| EndToEnd.FailureMisdelivers | fflib/net/socket_impl.cpp:206-210 | a run of two sends on a risky script after which one clean read delivers a message that was not sent |
| EndToEnd.DeliveryExact | fflib/net/common_socket_controller.cpp:34-64 | on a drained stream the receiver ends at rest with exactly the messages sent if and only if the cuts are clean |
| EndToEnd.CleanCutsByPosition | fflib/net/common_socket_controller.cpp:55-60 | cuts are clean if and only if no prefix of the stream that a read ends on is a zero header |
| EndToEnd.DeliveryBySizes | fflib/net/msg_sender.h:16-26 | the messages arrive under every cutting of the stream if and only if no body length is a multiple of 256 |
| SmartPtr.BlockStep | fflib/base/smart_ptr.h:93-272 | one atomic step of any handle keeps the balance between counts, spin lock, deletes and frees of a block that has lost no count |
| SmartPtr.EvenStep | fflib/base/smart_ptr.h:93-272 | every step changes a count as much as the number of handles that should have it, except for a reset that keeps its pointer |
| SmartPtr.StepKeeps | fflib/base/smart_ptr.h:93-272 | every enabled step keeps the invariant of all blocks and handles |
| Ownership.RunKeeps | fflib/base/smart_ptr.h:93-272 | the invariant holds after every interleaving |
| Ownership.LostByRun | fflib/base/smart_ptr.h:111-127 | a block has lost a count if and only if the run reset a handle to it that was not the last |
| Ownership.CountsExact | fflib/base/smart_ptr.h:93-272 | in every interleaving the counts are the handles that point at the object, and that have a share, less those lost; they are exact if and only if no handle was reset before it was the last |
| Ownership.DeletedUnderHandle | fflib/base/smart_ptr.h:111-127 | the release that brings the count to zero leaves as many handles on the deleted object as shared handles were reset too early, none if and only if none was |
| Ownership.ResetDeletesUnder | fflib/base/smart_ptr.h:105-127 | a run of two handles in which reset and destruction of one delete the object of the other |
| Ownership.SharedMeansAlive | fflib/base/smart_ptr.h:93-127 | while any shared handle exists, the object is not deleted or about to be, and the count block is not freed, unless a handle was reset too early |
| Ownership.DeletedExactlyOnce | fflib/base/smart_ptr.h:111-127 | under the same condition, object and block are destroyed at most once, and exactly once when no handle refers to them |
| Ownership.FreedLast | fflib/base/smart_ptr.h:111-127 | under the same condition, a freed block has its object deleted and no handle left |
| Ownership.NoUseAfterFree | fflib/base/smart_ptr.h:93-272 | under the same condition, no step touches a freed block and no delete hits a deleted object |
| Ownership.LockVerdict | fflib/base/smart_ptr.h:214-232 | under the same condition and the spin lock, the test for a count of one is right: it succeeds exactly when the object is dead, that is deleted or being deleted |
| Ownership.DeadStaysDead | fflib/base/smart_ptr.h:214-232 | under the same condition, once the last shared handle is gone no later run of any kind, including `lock`, makes one |
| PointerCalls.CopyRuns | fflib/base/smart_ptr.h:93-103 | copying a shared pointer adds one handle and one to each count |
| PointerCalls.WeakCopyRuns | fflib/base/smart_ptr.h:187-205 | a weak pointer made from a shared one can be locked, and one made from a weak one if that one can |
| PointerCalls.DestroyRuns | fflib/base/smart_ptr.h:105-127 | destroying a shared pointer deletes the object if it was the last shared one, and the block if it was the last of all |
| PointerCalls.WeakDestroyRuns | fflib/base/smart_ptr.h:207-244 | destroying a weak pointer frees the block if it was the last of all |
| PointerCalls.WeakResetRuns | fflib/base/smart_ptr.h:233-244 | a weak pointer that is reset without being the last stays, to be released again, and cannot be locked |
| PointerCalls.LockRuns | fflib/base/smart_ptr.h:214-232 | in every run without an early reset, `lock` yields a shared handle and leaves the weak one lockable while the object lives, and otherwise yields nothing and nulls the weak one |
| PointerCalls.ExpiredExactly | fflib/base/smart_ptr.h:187-232 | in every run a weak pointer is past locking if and only if it, or the one it was copied from before that, failed a lock or was reset |
| Codec.LengthRoundTrip | fflib/net/codec.h:140-153 | a length below 2^32 is read back from its four bytes |
| Codec.WireOfEncode | fflib/net/codec.h:160-237 | reading an encoding followed by anything gives the value and leaves exactly what followed |
| Codec.LongVectorIsCut | fflib/net/codec.h:182-193 | a vector of 2^32 or more elements is encoded as its first length mod 2^32 elements |
| Codec.WireSound | fflib/net/codec.h:67-153 | whatever is read re-encodes to exactly the bytes consumed, entry for entry |
| Decoder.DecodeIsNorm | fflib/net/codec.h:67-107 | the decoder, which inserts map entries one by one, is the wire reader followed by normalisation of maps |
| Decoder.InsertLooksUp | fflib/net/codec.h:104 | assigning a key gives it the value and leaves every other key what it had |
| Decoder.InsertKeepsKeys | fflib/net/codec.h:104 | a known key stays as it is, a new one is added, none is lost |
| Decoder.LastEntryWins | fflib/net/codec.h:93-107 | a decoded map gives every key the value of its last entry on the wire, and has no other keys |
| Decoder.InsertSorted | fflib/net/codec.h:93-107 | assigning a key keeps a map in strictly increasing key order |
| Decoder.NormFixes | fflib/net/codec.h:93-107 | normalisation leaves values whose maps are ordered alone |
| Decoder.NormCanonical | fflib/net/codec.h:93-107 | what comes out of the decoder has ordered maps at every depth |
| Decoder.NormTyped | fflib/net/codec.h:93-107 | merging entries keeps the type and all lengths below 2^32 |
| Decoder.RoundTrip | fflib/net/codec.h:67-237 | decoding an encoding followed by anything returns the value and leaves exactly what followed |
| Decoder.DecodeSound | fflib/net/codec.h:67-153 | an accepted input is the encoding of some value followed by what is left; the result is that value normalised, of the right type |
| Decoder.PrefixFree | fflib/net/codec.h:160-237 | no encoding is a strict prefix of another of the same type, and encoding is injective |
| Decoder.StrictPrefixFails | fflib/net/codec.h:128-153 | every strict prefix of an encoding is rejected |
| Decoder.ReencodeExact | fflib/net/codec.h:93-107 | an accepted input re-encodes to the bytes consumed if and only if the maps on the wire were in strictly increasing key order |
| Decoder.ReencodeMapFree | fflib/net/codec.h:67-91 | for types without maps it always does |
| Decoder.BinEncoder.constructor | fflib/net/codec.h:160-163 | a new encoder has an empty buffer |
| Decoder.BinEncoder.Init | fflib/net/codec.h:164-167 | `init` does not clear the buffer |
| Decoder.BinEncoder.CopyBytes | fflib/net/codec.h:229-233 | appends the bytes |
| Decoder.BinEncoder.Write | fflib/net/codec.h:171-228 | appends exactly the encoding of the value, for every type |
| Decoder.BinDecoder.constructor | fflib/net/codec.h:51-65 | a decoder starts with all of its source to read |
| Decoder.BinDecoder.CopyValue | fflib/net/codec.h:128-138 | takes the next n bytes, or fails exactly when there are fewer |
| Decoder.BinDecoder.CopyLength | fflib/net/codec.h:140-143 | takes a four-byte length |
| Decoder.BinDecoder.Read | fflib/net/codec.h:67-107 | reads a value of any type in place: result, failure and rest are those of the decode function |
| Decoder.BinDecoder.ReadItems | fflib/net/codec.h:78-91 | the vector loop |
| Decoder.BinDecoder.ReadEntry | fflib/net/codec.h:101-103 | one key and one value, or nothing if either fails |
| Decoder.BinDecoder.ReadEntries | fflib/net/codec.h:93-107 | the map loop |
| Gateway.HeaderRoundTrip | fflib/net/codec.h:416-430 | the four routing fields and the payload come back out of the encoded header |
| Gateway.ReadHeaderExact | fflib/net/codec.h:427-430 | a header is read if and only if ten bytes are there, and it re-encodes to them |
| Gateway.NameIsInRange | fflib/net/codec.h:465-474 | after a successful `gate_decode` the `substr` offset is in range and is where the payload starts |
| Gateway.GateMsg.constructor | fflib/net/codec.h:460-464 | an empty gateway message |
| Gateway.GateMsg.GateDecode | fflib/net/codec.h:470-474 | keeps the packet and reads the name, or fails with the name unchanged |
| Gateway.GateMsg.Encode | fflib/net/codec.h:465-469 | appends the header to the encoder and returns it with the tail of the packet, or throws when the offset is out of range |
| Gateway.ForwardOnce | fflib/net/codec.h:460-480 | decoding and encoding on one fresh object is the forward function |
| Gateway.RewriteKeepsPayload | fflib/net/codec.h:460-480 | forwarding name plus payload gives the routing header plus the identical payload, and the target reads exactly both |
| Gateway.ForwardExact | fflib/net/codec.h:460-480 | a packet can be forwarded if and only if it is an encoded name followed by a payload |
| TaskQueue.Look | fflib/base/task_queue_impl.h:59-104 | a consumer takes exactly when there is a task, takes from the front, one task or all according to its mode, and gives up exactly when the queue is empty and closed |
| TaskQueue.TaskQueueImpl.constructor | fflib/base/task_queue_impl.h:122-125 | a new queue is open and empty |
| TaskQueue.TaskQueueImpl.Close | fflib/base/task_queue_impl.h:25-30 | only the flag changes |
| TaskQueue.TaskQueueImpl.MultiProduce | fflib/base/task_queue_impl.h:32-46 | the tasks go to the back in order; it signals exactly when the queue was empty |
| TaskQueue.TaskQueueImpl.Produce | fflib/base/task_queue_impl.h:47-57 | the same for one task |
| TaskQueue.TaskQueueImpl.TryConsume | fflib/base/task_queue_impl.h:59-104 | one pass of the critical section of a consumer |
| TaskQueue.RunKeeps | fflib/base/task_queue_impl.h:25-120 | the queue invariant holds after every interleaving of any number of producers and consumers |
| TaskQueue.NoLostWakeUp | fflib/base/task_queue_impl.h:32-75 | although only the empty to non-empty edge signals, whenever the queue is open, non-empty and has a consumer, some consumer is awake or notified |
| TaskQueue.OpenUntilClose | fflib/base/task_queue_impl.h:25-30 | in every run the queue is open until the first `close` and never after |
| TaskQueue.NobodyIsRefused | fflib/base/task_queue_impl.h:32-75 | a producer can always produce, a consumer always join or look, and a sleeper may always wake |
| TaskQueue.ConsumerDecides | fflib/base/task_queue_impl.h:59-75 | a consumer that looks ends up with tasks, asleep or gone according to the queue; a sleeper is woken by a signal, the close or by chance and nothing else |
| TaskQueue.NobodySleepsAfterClose | fflib/base/task_queue_impl.h:25-30 | after `close` no consumer sleeps |
| TaskQueue.HandedOutInOrder | fflib/base/task_queue_impl.h:32-104 | what the producers of the run put in is what was handed out followed by what is queued |
| TaskQueue.GivesUpOnlyAtTheEnd | fflib/base/task_queue_impl.h:59-104 | a consumer that has given up did so in a step of its own that found the queue closed and empty, with everything produced by then handed out |
| TaskQueue.DrainAlone | fflib/base/task_queue_impl.h:77-120 | an awake consumer can empty the queue by its own steps |
| TaskQueue.CloseEndsConsumers | fflib/base/task_queue_impl.h:25-75 | after a `close` every consumer still there can end by its own steps, with everything handed out |
| TaskQueue.SomeoneCanDrain | fflib/base/task_queue_impl.h:32-120 | so in every reachable state with work and a consumer, some consumer can hand out everything produced without a new signal |
| TaskQueue.RunsInOrder | fflib/base/task_queue_impl.h:77-120 | a sole consumer runs tasks one at a time, in order, and all of them by the time it leaves |
| TaskQueue.FinishAlone | fflib/base/task_queue_impl.h:77-120 | a sole consumer that has not left runs by its own steps everything that was produced |
| TaskQueue.BatchRunMatchesRun | fflib/base/task_queue_impl.h:77-120 | `run` and `batch_run` on the same tasks execute the same sequence, one a prefix of the other at any time and equal at the end |
| Pool.TaskQueuePool.constructor | fflib/base/task_queue_impl.h:143-151 | no queue is claimed |
| Pool.TaskQueuePool.ClaimQueue | fflib/base/task_queue_impl.h:153-163 | claims the next queue, or throws when all are claimed |
| Pool.Alloc | fflib/base/task_queue_impl.h:189-192 | always a queue of the pool, the remainder of the id for ids that are not negative |
| Pool.OneThreadPerQueue | fflib/base/task_queue_impl.h:153-166 | in every run at most one thread consumes a queue |
| Pool.QueuesAreManned | fflib/base/task_queue_impl.h:153-166 | threads that call `run` take the queues in order, one each, so in every run queue i has a thread if and only if more than i threads have called |
| Pool.OwnerRunsSerially | fflib/net/acceptor_impl.cpp:143 | in every run the tasks of one socket, as they were asked for, start in posting order, never overlap, and run on no other queue |
| Pool.PostedCanBeRun | fflib/base/task_queue_impl.h:106-166 | in every run the thread of a queue can run, by its own steps, every task posted for the owners of the queue, in posting order |
| Teardown.BrokenAtMostOnce | fflib/net/socket_impl.cpp:36-49 | for any number of `close` posts from any threads, a socket is unregistered at most once and `handle_error` runs at most once, after the descriptor is closed; it is deleted at most once and only after that |
| Teardown.ClosedIsReported | fflib/net/epoll_impl.cpp:108-146 | a closed socket is in the error list, or has its error task queued, or has had it run: exactly one of them, once |
| Teardown.ErrorListIsNoticed | fflib/net/epoll_impl.cpp:108-156 | a waiting loop with a non-empty error list and no pending interrupt has someone about to interrupt it |
| Teardown.ListedIsAlive | fflib/net/epoll_impl.cpp:137-146 | every socket in the error list is known and not deleted |
| Teardown.DeleteRunsAfterEarlierTasks | fflib/net/socket_impl.cpp:225-235 | when the delete task starts, every task queued before it was started and none is running |
| Teardown.TaskOccupies | fflib/base/task_queue_impl.h:106-118 | an I/O or error task keeps the next one waiting until it ends |
| Teardown.CloseRuns | fflib/net/socket_impl.cpp:41-49 | closing an open descriptor lists the socket, interrupts the loop and then closes, in this order, with the next task waiting; closing a closed one does nothing |
| Teardown.PostedByRun | fflib/net/socket_impl.cpp:149-152 | something is queued behind the delete task if and only if the run posts a close or an I/O task after it |
| Teardown.NothingRunsAfterDelete | fflib/base/task_queue_impl.h:106-118 | no task of a socket starts after its delete task, however the run goes on without new posts to it, if and only if nothing was posted after the deletion |
| Teardown.TaskAfterDelete | fflib/base/task_queue_impl.h:106-118 | a run from open to deleted in which one more task is run |
| Teardown.WorkerReports | fflib/net/socket_impl.cpp:101-105 | a queued error task can always be brought to run by the worker |
| Teardown.CallbackQueues | fflib/net/epoll_impl.cpp:137-146 | a callback in progress can always reach any listed socket and queue its error task |
| Teardown.LoopReachesCallback | fflib/net/epoll_impl.cpp:56-66 | a running loop with a non-empty error list can always be brought into the callback |
| Teardown.ReportCanBeMade | fflib/net/epoll_impl.cpp:38-87 | from every reachable state with the loop running, a closed socket can be reported by steps of the worker and the loop alone |
| Teardown.LoopEndsOnlyWhenTold | fflib/net/epoll_impl.cpp:56-61 | in every run the loop ends only after its flag was cleared or because waiting failed |
| Teardown.CloseEndsLoop | fflib/net/epoll_impl.cpp:89-96 | from every reachable state, clearing the flag and interrupting lets the loop end, after finishing a callback |
| Teardown.LoopTurns | fflib/net/epoll_impl.cpp:43-84 | the loop moves only from waiting to a callback or its end on an armed interrupt, into and out of the callback, the latter with an empty list, and to its end when waiting fails |
| Timer.ScanIsFilter | fflib/base/timer_service.h:152-175 | the early-stopping scan runs and removes exactly the entries at or before now, in deadline order, whatever the callbacks register |
| Timer.InsertSorted | fflib/base/timer_service.h:134-143 | inserting keeps the store sorted and adds exactly the new entry |
| Timer.InsertAllSorted | fflib/base/timer_service.h:134-143 | so does moving the whole registration list |
| Timer.RunKeeps | fflib/base/timer_service.h:85-175 | after every run each timer is accounted for exactly once and deadlines respect the periods |
| Timer.OnceFiresOnce | fflib/base/timer_service.h:94-102 | a one-shot timer is registered, stored or fired: exactly one of them, once |
| Timer.LoopStaysPending | fflib/base/timer_service.h:85-93 | between ticks a loop timer has exactly one pending entry |
| Timer.FiringTimes | fflib/base/timer_service.h:152-169 | nothing fires early, and successive firings of a loop timer are at least its period apart |
| Timer.TickDecides | fflib/base/timer_service.h:108-131 | a tick fires a pending entry exactly if it is due, and otherwise stores it |
| Timer.RunsAtFirstDueTick | fflib/base/timer_service.h:108-175 | in every run a pending entry fires at the first tick at or past its deadline, and stays pending if there is none |
| Timer.NextFiring | fflib/base/timer_service.h:108-175 | from any moment on the callback of a pending entry next runs at the first tick at or past its deadline, not before, and never without one |
| Timer.RequestAnswered | fflib/base/timer_service.h:85-102 | a timer asked for `ms` milliseconds from now first runs at the first tick that is at least that much later |
| Timer.LoopAnswered | fflib/base/timer_service.h:164-168 | a loop timer that ran next runs at the first tick at least its period after the moment it registered itself again |
| Timer.TickRegisters | fflib/base/timer_service.h:124-128 | every request made before the list is moved or by a callback that ran is registered, in order |
| Timer.TimerService.constructor | fflib/base/timer_service.h:85-131 | no timers |
| Timer.TimerService.AddTimer | fflib/base/timer_service.h:85-102 | the entry, stamped with now plus its period, joins the registration list |
| Timer.TimerService.AddTimers | fflib/base/timer_service.h:85-102 | a list of registrations made by one callback |
| Timer.TimerService.AddNewTimer | fflib/base/timer_service.h:134-143 | the registration list is moved into the sorted store |
| Timer.TimerService.ProcessTimerCallback | fflib/base/timer_service.h:152-175 | the scan with its deferred range erase is firing and removing entries one at a time |
| Timer.TimerService.TickOnce | fflib/base/timer_service.h:115-130 | one iteration of the service thread |
| Heartbeat.CheckIsFilterExactly | fflib/net/base_heartbeat.h:153-174 | the back-to-front scan removes and reports exactly the due entries if and only if no due entry stands in front of one that is not |
| Heartbeat.UpdateIsDelAdd | fflib/net/base_heartbeat.h:113-134 | touching a key is removing and adding it |
| Heartbeat.RunKeeps | fflib/net/base_heartbeat.h:91-174 | every sequence of operations, with times read at any moment before the lock, keeps one node per unexpired key with the map pointing at it |
| Heartbeat.AlwaysFilters | fflib/net/base_heartbeat.h:153-174 | a check is exact at every time if and only if the list is ordered by deadline |
| Heartbeat.OrderedExactly | fflib/net/base_heartbeat.h:91-134 | the list is ordered throughout a run if and only if every stamp pushed gives a deadline not before that of the front node |
| Heartbeat.GrowingStampsInOrder | fflib/net/base_heartbeat.h:96-100 | stamps pushed in the order they were read are enough |
| Heartbeat.FreshStampsGrow | fflib/net/base_heartbeat.h:96-100 | and stamps read under the lock are such stamps |
| Heartbeat.RunChecksExactly | fflib/net/base_heartbeat.h:91-174 | throughout a run, checks at any time are exact if and only if every push is in order |
| Heartbeat.CheckReportsExactlyTheDue | fflib/net/base_heartbeat.h:153-174 | after every run with pushes in order a check reports exactly the keys due at the time it read and keeps exactly the others |
| Heartbeat.ReportedOnce | fflib/net/base_heartbeat.h:153-174 | no key is reported twice |
| Heartbeat.IndexExact | fflib/net/base_heartbeat.h:91-174 | the keys of the map are the listed keys and the reported keys, which are disjoint, and the map finds the node of every listed key |
| Heartbeat.DanglesExactly | fflib/net/base_heartbeat.h:161-166 | in every run the iterator kept for a key dangles if and only if the key was reported |
| Heartbeat.AllowedExactly | fflib/net/base_heartbeat.h:113-151 | so `update` and `del` are well defined if and only if the key was not reported |
| Heartbeat.ExpiredKeyDangles | fflib/net/gateway_socket_controller.cpp:46-50 | a key expires and its owner then calls `del`: the iterator dangles |
| Heartbeat.ReportedIsFinal | fflib/net/base_heartbeat.h:99-108 | a reported key stays reported and never comes back to the list |
| Heartbeat.OutOfOrderStampIsMissed | fflib/net/base_heartbeat.h:91-100 | a run of two threads, the later stamp pushed first, after which a check misses a due key |
| Heartbeat.CheckDecides | fflib/net/base_heartbeat.h:153-174 | on an ordered list a check reports and removes a listed key if it is due and keeps it otherwise |
| Heartbeat.ReportedAtFirstDueCheck | fflib/net/base_heartbeat.h:153-174 | an untouched key is listed up to the first check at or past its deadline and reported right after it |
| Heartbeat.SilenceIsReported | fflib/net/base_heartbeat.h:91-174 | a key added or touched at some time is due one timeout later: untouched it is listed until the first check that reads that time, and reported by it |
| Heartbeat.RemovedIsForgotten | fflib/net/base_heartbeat.h:136-151 | a removed key is neither listed nor in the map, and not reported unless added again |
| Heartbeat.HeartbeatImpl.constructor | fflib/net/base_heartbeat.h:91-174 | nothing is watched |
| Heartbeat.HeartbeatImpl.AddKey | fflib/net/base_heartbeat.h:91-111 | a new key goes to the front with its deadline; a known one is refused and changes nothing |
| Heartbeat.HeartbeatImpl.UpdateKey | fflib/net/base_heartbeat.h:113-134 | a listed key moves to the front with a new deadline; an unknown one is refused; for an expired one the call is flagged as following a dangling iterator |
| Heartbeat.HeartbeatImpl.DelKey | fflib/net/base_heartbeat.h:136-151 | a listed key leaves the list and the map; an unknown one is refused; for an expired one the call is flagged as following a dangling iterator |
| Heartbeat.HeartbeatImpl.TimerCheck | fflib/net/base_heartbeat.h:153-174 | the pop loop in place |
| LogFormat.WidthIsSmall | fflib/base/log.cpp:66 | the width of a conversion is below 10000 in size, so `atoi` does not overflow |
| LogFormat.SeekExact | fflib/base/log.cpp:54-89 | the bounded look-ahead finds the conversion letter if and only if the text is a wildcard |
| LogFormat.ExpandByScan | fflib/base/log.cpp:30-131 | the declarative meaning of a format is one scan, its argument, and the meaning of the rest |
| LogFormat.LiteralPrefix | fflib/base/log.cpp:38-42 | text without a percent sign is copied |
| LogFormat.SubstituteString | fflib/base/log.cpp:62-73 | the first `%s` is replaced by the first argument |
| LogFormat.ConversionFills | fflib/base/log.cpp:54-122 | for up to four digits and each of the letters c, d, u, x, f, s, ld and lu, the argument stands at the end of a field as wide as the number or the argument, filled with zeros if the number starts with one, else with blanks |
| LogFormat.NegativeWidth | fflib/base/log.cpp:66-118 | a negative width pads nothing unless the argument is longer than 2^31 less the width, and then by what the unsigned difference says |
| LogFormat.PercentStands | fflib/base/log.cpp:54-90 | a percent sign without such a letter within five characters stands for itself |
| LogFormat.CollapsePercent | fflib/base/log.cpp:44-50 | while an argument is still to come, `%%` becomes one percent sign |
| LogFormat.SurplusAppended | fflib/base/log.cpp:110-122 | arguments without a wildcard are appended |
| LogFormat.StrFormat.constructor | fflib/base/log.cpp:30-131 | at the start of the format with an empty result |
| LogFormat.StrFormat.SeekLetters | fflib/base/log.cpp:54-89 | the inner loop, every index at most that of the terminating NUL |
| LogFormat.StrFormat.ScanStep | fflib/base/log.cpp:35-92 | one step of the outer loop moves forward and keeps the outcome of the scan |
| LogFormat.StrFormat.MoveToNextWildcard | fflib/base/log.cpp:30-94 | the scan in place: position, text copied, whether a wildcard was found, its width and fill |
| LogFormat.StrFormat.Pad | fflib/base/log.cpp:115-118 | appends the fill character the given number of times |
| LogFormat.StrFormat.Append | fflib/base/log.cpp:96-122 | the scanned text, then the argument padded for the wildcard found, or bare |
| LogFormat.StrFormat.GenResult | fflib/base/log.cpp:124-131 | appends the unscanned tail verbatim and does not move |
| LogFormat.Format | fflib/base/log.cpp:30-131 | for every format and list of arguments the calls together compute the declarative meaning |
| Escape.EscapedLength | fflib/db/ffdb.cpp:177-188 | the escaped text is between one and two times as long |
| Escape.LiteralIsContained | fflib/db/ffdb.cpp:118-175 | between quotes, escaped text is one MySQL literal that means the original, and what follows the closing quote is left alone |
| Escape.SqliteLiteralExact | fflib/db/ffdb.cpp:118-175 | it is one SQLite literal too, which means the original if and only if no byte was given a backslash |
| Escape.EscapeIsInjective | fflib/db/ffdb.cpp:118-175 | different texts escape differently |
| Escape.FitExact | fflib/db/ffdb.cpp:118-175 | what is written is the longest run of whole replacements that fits, everything if and only if everything fits |
| Escape.EscapeString | fflib/db/ffdb.cpp:118-175 | the buffer holds that text and a NUL, nothing past the capacity is written, and the result is the length or the overflow mark |
| Escape.EscapeText | fflib/db/ffdb.cpp:177-188 | with the buffer the wrapper allocates, the overflow branch is never taken and the result is the whole escaped text |

## Left out

- Concurrent protocols (SmartPtr, Ownership and PointerCalls, the waiting side of TaskQueue, Pool threads, Teardown) are steps on values, not updates of shared objects: the memory order of the atomics is taken as sequentially consistent.
- The read loop of `handle_epoll_read_impl`, its buffer size and `recv` errors: reads are any list of byte strings.
- `check_pre_send`: the hook is taken to let every message through.
- Codec.WireOfEncode: for values with all lengths below 2^32; longer vectors are cut as LongVectorIsCut says, longer strings and maps keep their content behind a cut length.
- Decoder.RoundTrip: the target of a decode starts empty, since vectors append and maps merge; the key comparison is any strict order.
- `option_t` and `codec_helper_i`: overload selection rather than logic; the decoder body for `option_t` does not fit a decoder.
- The name form of `init_encoder` for messages other than gateway forwarding, and the message name store.
- Gateway.GateMsg.Encode: a second `encode` on the same object repeats the header, as the contract says; the round trip is for one.
- EndToEnd.Delivery: after a fatal error it asks for a script without risk. That is sufficient and, for frames, not exact: PrefixExact is about all messages, while frames have fixed header bytes, so some risky scripts repeat a byte that happens to be right.
- PointerCalls.LockRuns: says what the steps of one `lock` do together; that they are taken together is not promised, and LockVerdict covers every interleaving.
- Ownership.CountsExact: a weak pointer made from a shared one after its `reset` is not modelled; nor is any use of a handle that has freed its block and still points at the object.
- Copying a null or moved-from pointer, and pointer conversions between types: no counts change.
- Pool.Alloc: an empty pool, on which the source divides by zero, is excluded; `rand_alloc` is not modelled.
- Teardown.BrokenAtMostOnce: assumes that the owner of a socket calls `safe_delete` once and after the break was reported; late epoll events in the same batch as the break are I/O posts.
- Teardown.ReportCanBeMade and TaskQueue.SomeoneCanDrain: that the steps exist, not that a scheduler takes them.
- Timer.RunKeeps: the clock does not go backwards and 64-bit deadlines do not wrap; stopping the service thread is not modelled.
- Heartbeat.HeartbeatImpl.UpdateKey: promises nothing when the iterator dangles, since the language does not; the same for DelKey, and a run leaves such calls out.
- Heartbeat.RunKeeps: the timeout is fixed after construction; the callback, run under the mutex, does not call back.
- LogFormat.Format: string arguments only; numbers go through a library stream. Formats and arguments are shorter than 2^31.
- Escape.EscapeString: single-byte character sets, as in the source.
- Broker, `ffrpc_t`, text protocol controller, acceptor, connector, event loop plumbing, log files, Lua, SQL execution, counters: system calls, foreign libraries, or easy members.
