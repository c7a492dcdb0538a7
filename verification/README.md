# grpc-rs core, modelled in Dafny

A Dafny model of the Rust layer that grpc-rs puts over the native,
completion-queue driven gRPC core. Each native call (starting a batch,
a queue event, an accept) becomes an input of the model: a `CallCode`, a
success flag, a status, a byte string or an abstract future
`Pending | Resolved(v) | Failed(e)`. What is left is a set of small
sequential state machines. The model states them as pure functions over
immutable datatypes and proves properties of them:

- `wrappers.dfy`, `grpc.dfy`: `Option`/`Result`, bytes, status codes, the
  error taxonomy, abstract futures (a completed future goes stale once
  polled) and the native batch operations. A future that is polled in the
  same call that submits it may already have completed. Its state at that
  first poll is an input of the call (`starts` of `PollStream`,
  `firstPoll` of the two `close` operations).
- `lock.dfy` (`SpinLock`): the re-entrant spin lock. It tracks an ownership
  record `None | Some(owner, holders)` and a multiset of live guards.
- `executor.dfy` (`Executor`): the embedded executor's task state word
  (IDLE, NOTIFIED, POLLING, COMPLETED). There are two views. The
  sequential poll loop runs over a script of poll outcomes. The
  interleaving view lets notifies, deferred runs and poller steps
  alternate, and proves that a task is never polled twice at once.
- `batch_context.dfy`, `promise.dfy`, `call.dfy`, `env.dfy`: batch
  contexts, promise resolution, `check_run`, and the poller loop over a
  finite sequence of completion events that resolves each pending tag at
  most once.
- `streaming.dfy` (`Streaming`): the client streaming read machine
  (`StreamingBase`) and write machine (`SinkBase`).
- `server_call.dfy` (`ServerCall`): request dispatch, the unary and
  streaming server sinks, `accept_call!` and the `execute_*` helpers.
- `channel.rs` and `server.rs` are modelled by `channel.dfy` (`Channel`)
  and `server.dfy` (`Server`): user-agent formatting, duration
  saturation, the channel option table and `build_args`, service and
  server builders, the shutdown guard and request slots.
- `bench.dfy` (`Bench`): the benchmark's identity byte codec and its generic
  method descriptor.

The source files come from different revisions of the crate. Each is
modelled as written. The receive batch is `ReadOne` in one file and
`Read` in another, and it is one kind here. The duplex method type is
spelled `Dulex` in one file and `Duplex` in another, and it is one
`MethodType.Duplex` here. `SinkBase::new` takes the write flags in one
file, while the server sinks set them per item; the model sets
`base.flags` to the item's flags.

`StreamingBase::poll` polls the message future first
(src/call/mod.rs:247-264) and looks at the close future only when no
receive is in flight or the receive is still pending. A resolved close
future then ends the stream at once (src/call/mod.rs:268-272), without
draining the receive that is still outstanding.
`Streaming.CloseBeforeMessageEndsStream` states this behaviour.

## Model

| member | source | states |
|---|---|---|
| Grpc.PollFut | src/call/mod.rs:243-258 | a completed future hands out its value or error once; any later poll sees `FutureStale`; a pending future stays pending and is not ready |
| SpinLock.New | src/async/lock.rs:39-44 | a new lock holds the given value and has no owner |
| SpinLock.TryLock | src/async/lock.rs:46-78 | a free lock goes to the caller with one holder; the owner re-enters with one more holder; any other thread fails and the record is unchanged; the value never changes |
| SpinLock.Unlock | src/async/lock.rs:102-116 | a release decrements holders; ownership is cleared exactly when the last holder leaves; an unlock with no holder panics |
| SpinLock.Deref | src/async/lock.rs:86-100 | a thread holding a guard reads exactly the protected value; a thread without one has no access |
| SpinLock.NewSatisfiesInv | src/async/lock.rs:39-44 | a fresh lock with no guards meets the invariant: owner present iff guards are live, and holders equals the owner's guard count |
| SpinLock.StepPreservesInv | src/async/lock.rs:56-72 | every acquire, release or write keeps that invariant |
| SpinLock.RunPreservesInv | src/async/lock.rs:46-116 | every sequence of steps keeps the invariant |
| SpinLock.ReentryNeverBlocks | src/async/lock.rs:67-72 | a thread that already holds a guard always acquires again and gains one more guard |
| SpinLock.OthersSpinWhileHeld | src/async/lock.rs:67-77 | another thread's attempt fails while the lock is held, and the whole system is unchanged |
| SpinLock.FreedOnlyOnOutermostRelease | src/async/lock.rs:106-113 | a release frees the lock iff it drops the holder's last guard; otherwise the same thread keeps it with one fewer holder |
| SpinLock.HolderKeepsLock | src/async/lock.rs:56-116 | while a thread has released fewer guards than it held, no other thread gets a guard and the lock stays with it |
| SpinLock.LockingKeepsValue | src/async/lock.rs:39-100 | acquires and releases never change the protected value |
| SpinLock.NestedGuardsScenario | src/async/lock.rs:127-147 | with two nested guards held by one thread, a second thread is refused after the first drop and succeeds after the second |
| Executor.Code | src/task/executor.rs:92-95 | NOTIFIED is stored as 1, IDLE as 2, POLLING as 3 and COMPLETED as 4 |
| Executor.CodesAreDistinct | src/task/executor.rs:92-95 | distinct states have distinct constants |
| Executor.NewTask | src/task/executor.rs:105-111 | a new task is IDLE and owns its future |
| Executor.CompareExchange | src/task/executor.rs:209-216 | the swap happens exactly when the current word equals the expected one; otherwise the word is unchanged and reported |
| Executor.MarkNotified | src/task/executor.rs:117-142 | returns true only on IDLE→NOTIFIED; POLLING also becomes NOTIFIED, but returns false; NOTIFIED and COMPLETED are unchanged |
| Executor.Notify | src/task/executor.rs:156-175 | work is scheduled exactly when the task was IDLE; the future handle is untouched |
| Executor.KickTolerated | src/task/executor.rs:166-171 | a failed kick is tolerated exactly when the queue is shutting down |
| Executor.NotifyWork | src/task/executor.rs:156-175 | a notify schedules nothing unless the task was IDLE; an IDLE task is queued on the current thread, or else the queue is kicked; a kick error other than `QueueShutdown` panics |
| Executor.PollTask | src/task/executor.rs:205-245 | a COMPLETED task is not polled; an unexpected start state panics; otherwise the future is polled until a poll completes it (state COMPLETED, handle dropped) or a poll finds no notify (state IDLE) |
| Executor.Spawn | src/task/executor.rs:266-273 | spawn polls once inline from IDLE, never panics, and ends IDLE or COMPLETED |
| Executor.Resolve | src/task/executor.rs:145-149 | a failed completion panics without polling; a successful one on a NOTIFIED task that owns its future runs the poll loop from NOTIFIED until a poll completes it or finds no notify; a completed task is left alone and any other state panics |
| Executor.AgentStep | src/task/executor.rs:205-245 | a poller polls the future exactly when it is inside the poll step and the task still owns the future |
| Executor.Spawned | src/task/executor.rs:266-273 | the interleaving starts with one poller after spawn's first exchange |
| Executor.SpawnedSatisfiesInv | src/task/executor.rs:266-273 | the spawned system meets the invariant: at most one live poller, consistent with the state word |
| Executor.NextPreservesInv | src/task/executor.rs:117-245 | every notify, deferred run or poller step keeps the invariant |
| Executor.RunPreservesInv | src/task/executor.rs:117-245 | every interleaving keeps the invariant |
| Executor.NeverOverlapping | src/task/executor.rs:126-137 | in every interleaving from spawn, at most one poller is inside the future's poll |
| Executor.NotifyDuringPollingRepolls | src/task/executor.rs:229-242 | a notify during a poll schedules nothing, and the running loop then polls again instead of going IDLE |
| Executor.NotifyIdleDefersOnce | src/task/executor.rs:157-166 | a notify on an IDLE task queues one deferred poll; a second notify queues nothing more |
| Executor.NotifyIgnoredWhenNotifiedOrCompleted | src/task/executor.rs:138-139 | a notify on a NOTIFIED or COMPLETED task changes nothing |
| Executor.QuietTaskIsNotPolled | src/task/executor.rs:156-175 | an IDLE task with no pending work stays untouched while no notify arrives |
| BatchContext.RpcStatusOk | src/call/mod.rs:64-66 | the ok status has code Ok and no details |
| BatchContext.RpcStatusOf | src/call/mod.rs:82-101 | the status carries the context's code, with details exactly when the code is not Ok |
| BatchContext.RecvMessage | src/call/mod.rs:104-118 | the `usize::MAX` length sentinel gives an empty buffer; otherwise exactly the received bytes of that length |
| BatchContext.NothingReceivedIsEmpty | src/call/mod.rs:104-118 | when nothing was received the buffer is empty on either pointer width |
| Promise.FinishResponse | src/async/promise.rs:59-72 | a failed batch is `RemoteStopped` without reading the status; otherwise non-Ok is `RpcFailure(status)` and Ok is success with no payload |
| Promise.HandleUnaryResponse | src/async/promise.rs:74-83 | the status is checked before the message: non-Ok is `RpcFailure`, Ok yields the message |
| Promise.ReadOneMsg | src/async/promise.rs:54-57 | a read yields the received message whatever the status |
| Promise.Resolve | src/async/promise.rs:85-119 | Read and CheckRead panic exactly when the batch failed; Finish never panics; shutdown yields `Ok(())` iff success, else `ShutdownFailed`; only Read and CheckRead can yield a payload |
| Promise.NonOkStatusFails | src/async/promise.rs:59-99 | a successful Finish or CheckRead batch with a non-Ok status always resolves to that status as an error |
| Call.CheckRun | src/call/mod.rs:127-142 | a refused submission returns `CallFailure(code)` and leaves the tag table as it was; an accepted one makes the tag pending with its batch kind |
| Call.BatchTypeOf | src/call/mod.rs:156-214 | every `start_*` method submits a batch and only an abort has no kind; only the receive is a Read batch, and no call operation uses CheckRead |
| Call.Flag | src/call/mod.rs:161 | the metadata flags reach the native layer as 1 for true and 0 for false |
| Env.PollQueue | src/env.rs:9-25 | the loop leaves only at the first shutdown event, on a panicking resolution, or when the events run out; no earlier consumed event is a shutdown |
| Env.OpCompleteResolvesPromise | src/env.rs:16-23 | an op-complete event for a pending tag resolves that promise with success = (flag != 0) and removes it |
| Env.SubmittedBatchIsResolved | src/call/mod.rs:127-142 | a batch the native layer accepts is registered under its tag, and the completion with that tag resolves it as a promise of the submitted kind with `success = (flag != 0)` and removes it from the table |
| Env.TableShrinks | src/env.rs:18-23 | the loop only removes tags, and every resolved tag was pending |
| Env.ResolvedAtMostOnce | src/env.rs:18-23 | no tag is resolved twice: a resolved tag leaves the table, so a later event with the same tag finds nothing to resolve |
| Env.StopsAtShutdown | src/env.rs:10-14 | the loop stops at the first shutdown event; events after it are never processed |
| Env.TimeoutIsSkipped | src/env.rs:15 | a timeout event has no effect on the outcome |
| Env.NewEnvironment | src/env.rs:33-52 | zero queues panic; otherwise exactly the requested number of distinct queues |
| Env.PickACq | src/env.rs:58-61 | the picked queue is the environment's first queue |
| Streaming.NewStream | src/call/mod.rs:234-240 | a new stream has the given close future, no receive in flight, and is not stale |
| Streaming.PollMsg | src/call/mod.rs:246-264 | an empty message ends the stream and makes it stale; a message is surfaced; an error propagates, but the stream is not marked stale, and the next poll finds the consumed future stale and starts a new receive; a pending receive waits |
| Streaming.PollClose | src/call/mod.rs:268-280 | a resolved close future ends the stream with `Ready(None)`; a failed one ends it with the error; the receive future is untouched |
| Streaming.PollStream | src/call/mod.rs:242-295 | once stale every poll is `FutureStale`; end of stream makes it stale; a receive is started only when none is in flight or the last one was stale |
| Streaming.CloseBeforeMessageEndsStream | src/call/mod.rs:268-272 | a resolved close future ends the stream even while a receive is still pending |
| Streaming.RunStream | src/call/mod.rs:242-295 | a stale stream stays stale whatever completes |
| Streaming.StaleIsForever | src/call/mod.rs:243-245 | after a stream goes stale every later poll is `FutureStale` |
| Streaming.NewSink | src/call/mod.rs:307-315 | a new sink has no write or close in flight, an empty buffer and the given flags and metadata flag |
| Streaming.PollComplete | src/call/mod.rs:339-346 | ready exactly when no write is in flight or it succeeded; not ready while pending; an error is reported once and leaves the write stale |
| Streaming.Fill | src/call/mod.rs:321-336 | a write is started iff the item serializes and submission succeeds; it carries the metadata flag once and clears it |
| Streaming.StartSend | src/call/mod.rs:317-337 | while a write is outstanding nothing starts and the answer is `Ok(false)`; a failed earlier write is reported instead |
| Streaming.Close | src/call/mod.rs:348-359 | send-close starts only when no write is pending and none started before; a failed write or a refused submission returns its error with no close started; the close future is polled in every call, including the one that submits it, so that call may already return Ready or the batch error; a pending future gives NotReady, a resolved one Ready, a failed one its error, and the future is stale afterwards |
| Streaming.CloseCanFinishAtSubmission | src/call/mod.rs:348-359 | a close whose future has already completed when first polled returns Ready in the call that submits it, leaving the future stale |
| Streaming.SinkNext | src/call/mod.rs:317-359 | a sink step issues at most one write or send-close; send-close only when none was started; metadata goes out with a write only |
| Streaming.SinkClosesAtMostOnce | src/call/mod.rs:348-359 | over any sequence of sink events send-close is issued at most once |
| Streaming.MetadataOnFirstWriteOnly | src/call/mod.rs:321-336 | only the first write started carries the metadata flag |
| ServerCall.HandleStreamReq | src/call/server.rs:71-90 | Unary and ServerStreaming handlers are handed back; the streaming-request kinds execute; an unknown method is unimplemented |
| ServerCall.HandleUnary | src/call/server.rs:209-217 | a missing payload aborts with Internal and "No payload" without calling the handler; otherwise the handler runs on the payload |
| ServerCall.EachHandlerRunsOnce | src/call/server.rs:71-90 | each handler kind is dispatched by exactly one of the two paths |
| ServerCall.PollRequestStream | src/call/server.rs:240-254 | a finished call reports its error first; otherwise the stream poll decides and each message is deserialized |
| ServerCall.UnaryComplete | src/call/server.rs:310-333 | the status is sent with the (empty) initial metadata and the payload, write flags 0; a refused submission is reported on the next poll |
| ServerCall.UnarySuccess | src/call/server.rs:302-304 | success sends status Ok with the serialized response |
| ServerCall.UnaryFail | src/call/server.rs:306-308 | fail sends the given status with no payload |
| ServerCall.PollUnaryResult | src/call/server.rs:273-284 | a submission error is reported first; then the status future; then the call's finish |
| ServerCall.UnaryResultFollowsSubmission | src/call/server.rs:273-333 | after an accepted status batch the result stays NotReady until the batch completes, then reports its error or the call's finish; after a refused one it reports the refusal once and then the call's finish |
| ServerCall.NewStreamSink | src/call/server.rs:358-367 | a new streaming sink has no write or flush in flight, sends metadata first and has status Ok |
| ServerCall.SetStatus | src/call/server.rs:369-372 | the status may be set only before flushing has started |
| ServerCall.Fail | src/call/server.rs:374-392 | fail sends the given status with no payload, carrying the initial metadata only if no write has sent it yet, or reports the refused submission |
| ServerCall.PollFailure | src/call/server.rs:451-470 | a submission error is reported first; then the call's finish error; then the status future: pending gives NotReady, failed returns its error and goes stale, resolved (or none) gives the call's readiness |
| ServerCall.StreamStartSend | src/call/server.rs:399-412 | a finished call fails with `RemoteStopped` or its error; a busy sink hands the item back; a failed earlier write returns its error; otherwise the base sink starts the write iff the item serialises and the write is accepted, and a failed serialisation or refused write returns that error |
| ServerCall.StreamClose | src/call/server.rs:418-438 | the status is sent only after the outstanding write completes and only once; the status batch is polled in every call, including the one that submits it, and the sink becomes flushed only when that batch resolves: pending gives NotReady with nothing changed, failed returns its error unflushed; close is ready only when the call has finished |
| ServerCall.StreamCloseCanFinishAtSubmission | src/call/server.rs:418-438 | a status batch already completed when first polled flushes the sink in the call that submits it, and close answers with the call's finish |
| ServerCall.StreamSinkNext | src/call/server.rs:399-438 | a sink step issues at most one write or status; a status only when none was sent |
| ServerCall.StatusSentAtMostOnce | src/call/server.rs:418-438 | over any sequence of events the status is sent at most once |
| ServerCall.AcceptCall | src/call/server.rs:538-546 | accepting succeeds with the close future; `QueueShutdown` returns quietly; any other error panics |
| ServerCall.ExecuteHandler | src/call/server.rs:549-638 | an accepted call runs the handler with its own sink kind; unary and server-streaming calls pass the deserialised payload, or abort with Internal and the decode reason and never run the handler; streaming-request calls pass a request stream; a refused accept returns quietly on shutdown and panics otherwise |
| ServerCall.ExecuteUnimplemented | src/call/server.rs:641-647 | the call is accepted and aborted with Unimplemented and no details; no handler runs |
| ServerCall.StreamingRequestIgnoresPayload | src/call/server.rs:576-638 | the method types that are executed from the stream path take a request stream, and their outcome depends on neither the payload nor the deserialiser |
| Channel.Trim | src/channel.rs:47 | the result has no white space at either end, keeps every other character, and is empty iff the input is all white space |
| Channel.TrimIdempotent | src/channel.rs:47 | trimming twice is trimming once |
| Channel.FormatUserAgent | src/channel.rs:45-54 | empty trimmed agent gives "grpc-rust/{version}", otherwise "{trimmed} grpc-rust/{version}"; a NUL panics |
| Channel.UserAgentIgnoresPadding | src/channel.rs:45-54 | padding around the agent does not change the string |
| Channel.UserAgentEndsWithMarker | src/channel.rs:45-54 | every user agent ends with "grpc-rust/{version}" |
| Channel.DurToMs | src/channel.rs:56-59 | the result is secs*1000 + nanos/1e6, capped at `usize::MAX` |
| Channel.DurToMsMonotone | src/channel.rs:56-59 | a longer duration never gives fewer milliseconds |
| Channel.KeyName | src/channel.rs:32-42 | every option key is its name followed by a NUL |
| Channel.KeyNamesDistinct | src/channel.rs:32-42 | distinct options have distinct keys |
| Channel.ValueOf | src/channel.rs:81-155 | each setter's stored value, including 1/0 for `reuse_port` and saturated durations; a string with a NUL panics |
| Channel.Apply | src/channel.rs:81-155 | a setter stores its value under its own key and leaves every other key unchanged |
| Channel.LastWriteWins | src/channel.rs:81-155 | setting the same key again overwrites the earlier value |
| Channel.SettersCommute | src/channel.rs:81-155 | setters of different keys commute |
| Channel.Configure | src/channel.rs:81-155 | a chain of setters succeeds iff no value panics |
| Channel.ConfigureKeepsLastValue | src/channel.rs:81-155 | after a chain of setters, each key holds the value of its last setter |
| Channel.ConfigureLeavesOthers | src/channel.rs:81-155 | keys that no setter touches keep their earlier presence and value |
| Channel.ConnectOptions | src/channel.rs:181-185 | the default user agent is added only when none was set; a NUL in the address panics |
| Channel.ToCInt | src/channel.rs:164 | the integer reaches the native layer as a 32-bit `c_int`, congruent modulo 2^32 and unchanged when it fits |
| Channel.BuildArgs | src/channel.rs:158-174 | one slot per option in iteration order, each filled once with that option's key and value, with no key repeated |
| Server.NewServiceBuilder | src/server.rs:107-109 | a new service builder has no handlers |
| Server.AddHandler | src/server.rs:55-105 | the method name maps to a handler of its type; every other name is unchanged |
| Server.AddUnaryHandler | src/server.rs:55-63 | registers the name as a Unary handler |
| Server.AddClientStreamingHandler | src/server.rs:65-77 | registers the name as a ClientStreaming handler |
| Server.AddServerStreamingHandler | src/server.rs:79-92 | registers the name as a ServerStreaming handler |
| Server.AddDuplexStreamingHandler | src/server.rs:94-105 | registers the name as a duplex handler |
| Server.ReAddReplaces | src/server.rs:61 | registering the same name again replaces the earlier handler |
| Server.BuildService | src/server.rs:107-109 | the service holds exactly the builder's handlers |
| Server.NewServerBuilder | src/server.rs:20 | a new server builder has no addresses, args or handlers, and 1024 request slots per queue |
| Server.Bind | src/server.rs:135-138 | bind appends the address after the earlier ones and changes nothing else |
| Server.WithChannelArgs | src/server.rs:140-143 | the args are set and nothing else changes |
| Server.RequestsSlotPerCq | src/server.rs:145-148 | the slot count is set and nothing else changes |
| Server.RegisterService | src/server.rs:150-153 | the service's handlers are merged in and win on clashes; other handlers stay |
| Server.PortAsU32 | src/server.rs:161-165 | the bound port is reinterpreted as an unsigned 32-bit number |
| Server.BuildServer | src/server.rs:155-187 | the server starts not shut down, with the environment's queues, the builder's slots and handlers, and one bound port per address |
| Server.GetMethod | src/server.rs:199-201 | returns the handler registered under exactly that name, or none |
| Server.MethodTypeOf | src/server.rs:199-201 | the method type of the handler under that name, or none |
| Server.RequestCall | src/server.rs:204-220 | nothing is requested once shut down; otherwise a request is issued iff submission succeeds |
| Server.Shutdown | src/server.rs:241-252 | shutdown sets the flag, after which every request is skipped |
| Server.SlotsPerQueue | src/server.rs:258-267 | the issued requests give each queue exactly `slots_per_cq` slots |
| Server.Start | src/server.rs:258-267 | start requests `slots_per_cq` calls on each queue in order; a shut-down server requests none; a refused request panics |
| Bench.BinSer | benchmark/src/bench.rs:74-76 | the item's bytes are appended after the buffer's unchanged prefix |
| Bench.BinDe | benchmark/src/bench.rs:79-81 | decoding never fails and returns an exact copy |
| Bench.BinRoundTrip | benchmark/src/bench.rs:74-81 | decoding an encoded item gives the item |
| Bench.BinRoundTripBack | benchmark/src/bench.rs:74-81 | encoding a decoded buffer gives the buffer |
| Bench.GenericCall | benchmark/src/bench.rs:83-94 | the generic method is duplex, named "/grpc.testing.BenchmarkService/StreamingCall", with the byte marshaller both ways |
| Bench.GenericCallIsTransparent | benchmark/src/bench.rs:83-94 | requests and responses cross the generic method unchanged |
| Bench.CreateGenericService | benchmark/src/bench.rs:96-103 | the generic service registers exactly the generic method as a duplex handler |

## Left out

- Foreign calls into the native gRPC core (batch submission, call creation and destruction, queue kicks, channel and server creation) are not executed. Their results are inputs: a `CallCode`, a success flag, a status, bytes or an abstract future.
- Raw-pointer tags (`Box::into_raw`/`from_raw`) are natural-number keys of a tag table. `Arc` reference counts and `UnsafeCell` access are not modelled.
- Threads and atomics are not modelled: the spin loop, the poller threads spawned by `Environment::new`, and memory orderings. The lock and the executor are interleavings of named steps instead. The `Kicker` wake-up is a queued-work counter, and its result is an input.
- `Deadline`, the clock, and the peer, host and metadata accessors are foreign reads and are not modelled.
- `ShareCall` and the client call module are not part of this model. `check_alive` and the call's finish poll are inputs of the server sinks and `RequestStream`.
- src/codec.rs, benchmark/src/client.rs, benchmark/src/main.rs, examples/client.rs and the networked integration test are left out. They are protobuf wrappers, floating-point timers, CLI setup and network demos.
- Detail text is modelled as a string, not raw bytes. Lossy UTF-8 decoding is not modelled.
- SpinLock.TryLock: the `holders` counter is unbounded; the `usize` overflow of `holders += 1` (src/async/lock.rs:69) after 2^w nested acquires, for a `usize` of w bits, is not modelled.
- Env.PollQueue: an event whose tag is not in the table is skipped, and the loop goes on. In the source a tag is a raw pointer handed to `BatchContext::from_raw` (src/env.rs:18-20), so an unknown or repeated tag is undefined behaviour. `ResolvedAtMostOnce` therefore relies on the table abstraction. In the source it relies on the native queue delivering each tag once. The only skip the source has on purpose is a context whose promise was already taken (src/env.rs:21).
- The width of `usize` is a parameter, 32 or 64 bits. `CARGO_PKG_VERSION` is a parameter of the user-agent functions.
- Channel.DurToMs: requires that secs*1000 + nanos/1e6 fits in a `u64`. The source's product can overflow there (a debug panic or a silent wrap), and the model does not choose between them.
- The iteration order of the option `HashMap` is an input of `BuildArgs` (`order`).
- Executor.PollTask and Streaming.PollStream take finite scripts of outcomes. When a script runs out, the loop ends (`ScriptEnded`, or `None` for a stream), rather than looping forever.
- Handler bodies, serializers of user types and the user's futures are abstract: a handler is recorded by its kind and an opaque user value, and a deserializer is a function parameter.
- The server's `execute` for the generic `BoxHandler` call path and `handle_unary_req`'s batch context are covered only through `HandleUnary` and the `execute_*` models.
