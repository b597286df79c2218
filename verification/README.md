# MoonLightBridge, modelled and proved in Dafny

MoonLightBridge is a multiplexed RPC protocol with a Java client and a Rust server. This
project models the parts of it that are hard to get right and proves what they are for, for
every input and every interleaving. `dafny verify dfyconfig.toml` checks all of it (Dafny 4.11).

| file | what it models |
|---|---|
| `Callbacks.dfy`, `ServerStream.dfy`, `StreamRuns.dfy`, `StreamOrder.dfy`, `StreamHistory.dfy` | one server stream: the client's stream object, the callback queue, the wire and the server's permits |
| `Connection.dfy`, `ConnectionRuns.dfy`, `ConnectionHistory.dfy`, `ConnectionDrain.dfy` | one connection: calls, pending table, server loop, active table, request tasks, draining |
| `ClientTables.dfy`, `DirectWrite.dfy` | request ids, and the client's direct write on an idle connection |
| `Idempotency.dfy`, `IdempotencyRuns.dfy`, `IdempotencyHistory.dfy` | the idempotency cache and every interleaving of its callers and workers |
| `Wire.dfy`, `MetadataFormat.dfy`, `RustMetadata.dfy`, `JavaMetadata.dfy`, `RequestPrefix.dfy` | the metadata block and its readers and writers in both languages |
| `Compression.dfy`, `Request.dfy`, `Response.dfy` | bounded compression and the round trips of request and response bodies |
| `Frames.dfy`, `Outbound.dfy`, `Writer.dfy` | frames, the outbound pipeline and the batching writer |
| `DecodedBudget.dfy`, `ResponseBudget.dfy` | the decoded-byte budget and the two-level response budget |
| `Schema.dfy`, `Numbering.dfy` | the schema lock's compatibility checker and code-first numbering |
| `Common.dfy` | sums and concatenations over sequences |

How the source is represented:

- Code under a lock that updates fields is a class whose methods are proved against a closed
  form of the section (`ServerStream`, `Idempotency`). Loops are methods with loops.
- Concurrency is a step system. A step is what runs without another thread in between; `Run`
  is any sequence of enabled steps from the initial state, and the theorems hold of every
  state of every run. The `History` files explain what a state holds by the steps that led to
  it. Where the source does two things under one lock the model may do them in
  two steps, which only adds behaviour.
- A `BTreeMap` or `TreeMap` of metadata is the sequence of its entries in key order; the JSON
  lock's maps are Dafny maps, so which errors the checker reports is modelled and their order
  is not.
- Zstandard (RFC 8878) is a parameter: a pair of functions of which only "decompressing a
  compressed input gives the input" is ever assumed, and only where a lemma says so.
- Time is a number that never goes back, timeouts and scheduling are free choices.

Where the code does not do what one might expect, the exact condition is proved:

- A frame the writer defers goes through the pipeline twice. The second pass is harmless if and
  only if the first result is within the decoded limit and its compressed bytes are not worth
  compressing again (`Outbound.PipelineIdempotentIff`, `Outbound.UnsettledIsLost`); otherwise the
  response turns into an error (`Outbound.TwoPassesCanLoseResponse`), and two queued frames are
  enough for the writer to do so (`Writer.DeferredResponseIsLost`).
- The Java client does not check the server's limits of 64 entries and 8 KiB per value, so a
  request it sends arrives if and only if its metadata happens to keep them
  (`Request.RequestArrivesIff`); `Request.LargeValueIsSentAndRefused` is a call that does not.
- Generated numbering passes the checker with two exceptions. An enum cannot drop the value
  2147483647, whose reservation does not survive the saturating end of the locked range
  (`Numbering.LargestEnumValueCannotBeDropped`). A message cannot drop, add or move an optional
  field in front of another one: protoc numbers the oneofs of optional fields in declaration order
  and the lock compares these numbers (`Numbering.DroppedOptionalMovesOneof`). Otherwise it
  passes (`Numbering.GeneratedPassesChecker`).
- The cover sweep can refuse an empty range (`Schema.EmptyRangeCanBeRefused`).
- Java and Rust accept the same metadata blocks but for user keys under `moonlight-`
  (`JavaMetadata.Decode`).

## Model

| member | source | states |
|---|---|---|
| `StreamOrder.CreditNeverExceeded` | java/moonlight-bridge-client/src/main/java/ru/moonlightproject/bridge/client/MoonLightServerStream.java:92-128 | In every state of every run of a live stream, credit on the wire, server permits, a permit taken but not sent and items on the way add up to at most `outstandingWireCredit`, and to exactly that until something loses credit (an item replaced by ERROR, the request dropped, the server part over). |
| `StreamOrder.NoItemWithoutCredit` | java/moonlight-bridge-client/src/main/java/ru/moonlightproject/bridge/client/MoonLightServerStream.java:92-99 | The branch "item without delivery credit" is never reached against this server. |
| `StreamOrder.DemandBoundedAndNeverStalls` | java/moonlight-bridge-client/src/main/java/ru/moonlightproject/bridge/client/MoonLightServerStream.java:69-128 | `pendingCallbacks` is outstanding credit plus undelivered items and at most 32; outstanding credit is between zero and demand; a live stream with ungranted demand has all 32 slots taken; what the server has produced is within the credit ever granted. Until the requested counts saturate, neither the items taken by `emit` nor the items the server has produced exceed what was requested, also after the end of the stream, and items taken plus demand is exactly what was requested. |
| `StreamOrder.SubscriberSeesPrefix` | java/moonlight-bridge-client/src/main/java/ru/moonlightproject/bridge/client/MoonLightServerStream.java:133-177 | Callbacks start in queue order, never two at once; the items among them are a prefix of what the server produced; nothing follows the terminal signal. |
| `StreamOrder.QuiescentStreamHasSignalled` | java/moonlight-bridge-client/src/main/java/ru/moonlightproject/bridge/client/MoonLightServerStream.java:147-177 | When all agents are done nothing is left in the queue, and a stream that ended uncancelled has signalled its subscriber, whether it ended before, during or after `subscribe`. |
| `StreamHistory.SignalMatchesEnding` | java/moonlight-bridge-client/src/main/java/ru/moonlightproject/bridge/client/MoonLightServerStream.java:131-157 | The terminal signal queued is the one of the step that ended the stream: completion for END or `complete`, an error for ERROR, `fail`, a non-positive request or an item without credit, and none for a cancel. |
| `StreamHistory.EndedIff` | java/moonlight-bridge-client/src/main/java/ru/moonlightproject/bridge/client/MoonLightServerStream.java:133-145 | The stream has ended if and only if one such step took place while it was live, and there is only one: the first wins. |
| `StreamHistory.NoSignalWhileSubscribing` | java/moonlight-bridge-client/src/main/java/ru/moonlightproject/bridge/client/MoonLightServerStream.java:64-89 | No terminal signal is queued before `onSubscribe` has returned. |
| `StreamHistory.CompletedStreamIsComplete` | crates/moonlight-bridge-server/src/lib.rs:1132-1174 | If the server closed the stream normally with no item in hand and its END is what ended the stream, the subscriber is given every item produced. |
| `StreamHistory.CompletedWasClosed` | java/moonlight-bridge-client/src/main/java/ru/moonlightproject/bridge/client/MoonLightServerStream.java:130-157 | A subscriber that is told of completion sees a stream that the server closed normally or the client completed itself. |
| `StreamHistory.LastFrameExplained` | crates/moonlight-bridge-server/src/lib.rs:1132-1174 | END is queued only by a normal close, and an ERROR in no item's place only by a failed close or a refused request. |
| `StreamOrder.StepKeepsTerminal` | java/moonlight-bridge-client/src/main/java/ru/moonlightproject/bridge/client/MoonLightServerStream.java:133-157 | Every step keeps: the terminal signal is queued at most once, after every item, and only after termination. |
| `StreamOrder.StepKeepsItems` | crates/moonlight-bridge-server/src/lib.rs:1132-1174 | Every step keeps: callbacks, the item under the lock, frames in order and the item held by the server are, in that order, what the server produced. |
| `StreamRuns.StepKeepsCredit` | crates/moonlight-bridge-server/src/lib.rs:2262-2289 | Every step of client, wire and server conserves credit: outstanding = in flight + lost. |
| `StreamRuns.StepKeepsProduced` | crates/moonlight-bridge-server/src/lib.rs:2262-2289 | Every step keeps: items produced, permits and credit on its way to the server are within the credit ever granted. |
| `StreamHistory.FaultedIff` | crates/moonlight-bridge-server/src/lib.rs:2262-2289 | Credit is lost only by a replaced item, a dropped or refused request, a cancel or the end of the server's part; permits never saturate. |
| `StreamHistory.CreditArrivesWhole` | crates/moonlight-bridge-server/src/lib.rs:2262-2289 | Until then all credit of a live stream is on the wire, in permits or in items, and every item produced is on its way or taken, in order. |
| `StreamHistory.CountersCount` | java/moonlight-bridge-client/src/main/java/ru/moonlightproject/bridge/client/MoonLightServerStream.java:69-116 | What counts as requested, taken and produced is the sum of the counts asked for, the items `emit` ended with and the items the server took a permit for. |
| `StreamHistory.SubscribedIff` | java/moonlight-bridge-client/src/main/java/ru/moonlightproject/bridge/client/MoonLightServerStream.java:54-66 | The stream has a subscriber from `subscribe` on. |
| `StreamHistory.CancelIsSent` | java/moonlight-bridge-client/src/main/java/ru/moonlightproject/bridge/client/MoonLightServerStream.java:133-145 | A cancelled stream whose end is through has sent a CANCEL. |
| `StreamHistory.BadRequestCancels` | java/moonlight-bridge-client/src/main/java/ru/moonlightproject/bridge/client/MoonLightServerStream.java:72-76 | A request for no items ends the stream and sends a CANCEL. |
| `StreamHistory.UncreditedItemCancels` | java/moonlight-bridge-client/src/main/java/ru/moonlightproject/bridge/client/MoonLightServerStream.java:95-99 | So does an item without credit. |
| `StreamHistory.CancelStopsServer` | crates/moonlight-bridge-server/src/lib.rs:2262-2289 | Once a CANCEL has reached the server it produces nothing more. |
| `StreamHistory.FinishIsTwoSteps` | java/moonlight-bridge-client/src/main/java/ru/moonlightproject/bridge/client/MoonLightServerStream.java:133-145 | `finish` of the class is termination and what follows it in the step system. |
| `StreamRuns.SectionKeepsCredit` | java/moonlight-bridge-client/src/main/java/ru/moonlightproject/bridge/client/MoonLightServerStream.java:92-128 | Any section of the stream object that balances its own books keeps the end-to-end conservation. |
| `Callbacks.ActKeepsInv` | java/moonlight-bridge-client/src/main/java/ru/moonlightproject/bridge/client/MoonLightServerStream.java:159-177 | Each atomic action on the queue and the flag keeps: one holder of the flag, a non-empty queue is attended, polled plus queued is what was added. |
| `Callbacks.DispatchKeepsInv` | java/moonlight-bridge-client/src/main/java/ru/moonlightproject/bridge/client/MoonLightServerStream.java:159-167 | So does queueing a callback. |
| `Callbacks.NothingStranded` | java/moonlight-bridge-client/src/main/java/ru/moonlightproject/bridge/client/MoonLightServerStream.java:159-177 | With all agents finished the queue is empty and everything added has been started. |
| `Callbacks.EveryScheduleDrains` | java/moonlight-bridge-client/src/main/java/ru/moonlightproject/bridge/client/MoonLightServerStream.java:159-177 | However the threads are scheduled they come to an end after boundedly many actions, and then every callback has been started. |
| `Callbacks.ActDescends` | java/moonlight-bridge-client/src/main/java/ru/moonlightproject/bridge/client/MoonLightServerStream.java:159-177 | Without new callbacks every action brings that end nearer. |
| `ServerStream.MoonLightServerStream.constructor` | java/moonlight-bridge-client/src/main/java/ru/moonlightproject/bridge/client/MoonLightServerStream.java:44-52 | A new stream has no demand, no credit and an empty queue. |
| `ServerStream.MoonLightServerStream.GrantAvailableCredit` | java/moonlight-bridge-client/src/main/java/ru/moonlightproject/bridge/client/MoonLightServerStream.java:118-128 | Fields and granted credit after the call, from the old fields. |
| `ServerStream.MoonLightServerStream.SignalTerminal` | java/moonlight-bridge-client/src/main/java/ru/moonlightproject/bridge/client/MoonLightServerStream.java:147-157 | Queues the terminal callback exactly when it is due and not yet delivered. |
| `ServerStream.MoonLightServerStream.Finish` | java/moonlight-bridge-client/src/main/java/ru/moonlightproject/bridge/client/MoonLightServerStream.java:133-145 | `complete`, `fail` and `cancelStream`: the first caller alone ends the stream and runs the cleanup, once, and then cancels the remote side or signals the subscriber. |
| `ServerStream.MoonLightServerStream.Fail` | java/moonlight-bridge-client/src/main/java/ru/moonlightproject/bridge/client/MoonLightServerStream.java:131-145 | The same for a failure with the lock held. |
| `ServerStream.MoonLightServerStream.Request` | java/moonlight-bridge-client/src/main/java/ru/moonlightproject/bridge/client/MoonLightServerStream.java:69-80 | Demand raised with saturation and credit granted, or failure, cleanup and remote cancel on a non-positive count; nothing once terminated. |
| `ServerStream.MoonLightServerStream.Emit` | java/moonlight-bridge-client/src/main/java/ru/moonlightproject/bridge/client/MoonLightServerStream.java:92-116 | Credit and demand go down by one and the item is queued, or failure, cleanup and remote cancel. |
| `ServerStream.MoonLightServerStream.FinishOnNext` | java/moonlight-bridge-client/src/main/java/ru/moonlightproject/bridge/client/MoonLightServerStream.java:108-113 | The end of an `onNext`: one slot free, then credit granted again. |
| `ServerStream.RaisedDemandSaturates` | java/moonlight-bridge-client/src/main/java/ru/moonlightproject/bridge/client/MoonLightServerStream.java:77 | The overflow test on a Java long is exactly saturation at Long.MAX_VALUE. |
| `ServerStream.GrantBalances` | java/moonlight-bridge-client/src/main/java/ru/moonlightproject/bridge/client/MoonLightServerStream.java:118-128 | After granting, no credit is left to grant: all demand is covered or all slots are taken. |
| `StreamRuns.GrantIsFair` | java/moonlight-bridge-client/src/main/java/ru/moonlightproject/bridge/client/MoonLightServerStream.java:118-128 | Granting moves into the queued frame exactly the credit it books, leaves nothing to grant and keeps the bounds on slots and demand. |
| `StreamRuns.RequestIsFair` | java/moonlight-bridge-client/src/main/java/ru/moonlightproject/bridge/client/MoonLightServerStream.java:69-80 | So does `request`, for every count a long can hold. |
| `StreamRuns.EmitIsFair` | java/moonlight-bridge-client/src/main/java/ru/moonlightproject/bridge/client/MoonLightServerStream.java:92-116 | So does `emit`, which uses up one credit. |
| `ConnectionRuns.OwnResponse` | java/moonlight-bridge-client/src/main/java/ru/moonlightproject/bridge/client/MoonLightClient.java:894-964 | In every state of every run, a success a call completed with is the output the handler gave for that call's own method and body. |
| `ConnectionHistory.SuccessCameFromHandler` | crates/moonlight-bridge-server/src/lib.rs:2120-2252 | A success was begun, delivered as it was begun, handled, answered undegraded with the handler's own output and read, by steps of the run in this order. |
| `ConnectionHistory.ResultExplained` | java/moonlight-bridge-client/src/main/java/ru/moonlightproject/bridge/client/MoonLightClient.java:894-964 | A call's result is a failure of its own, or the outcome of an answer to this call in the log that the client has read. |
| `ConnectionHistory.AnswerReachesCall` | java/moonlight-bridge-client/src/main/java/ru/moonlightproject/bridge/client/MoonLightClient.java:894-964 | An answer read for a call that waits for it is exactly what the call completes with, whatever happens meanwhile, unless the call fails first. |
| `ConnectionHistory.AnswerCanBeDelivered` | java/moonlight-bridge-client/src/main/java/ru/moonlightproject/bridge/client/MoonLightClient.java:916-935 | After such a read the steps that deliver the answer are open to the client. |
| `ConnectionHistory.CompleteIff` | java/moonlight-bridge-client/src/main/java/ru/moonlightproject/bridge/client/MoonLightClient.java:603-636 | A call is complete if and only if it has failed or its answer was completed. |
| `ConnectionHistory.PendingUntilRemoved` | java/moonlight-bridge-client/src/main/java/ru/moonlightproject/bridge/client/MoonLightClient.java:603-636 | A call is on the pending table from its beginning until the reader takes its answer or the completion callback removes it. |
| `ConnectionHistory.CallWasBegun` | java/moonlight-bridge-client/src/main/java/ru/moonlightproject/bridge/client/MoonLightClient.java:603-605 | The k-th call has the method and body of the k-th beginning. |
| `ConnectionHistory.OnTheWayIff` | java/moonlight-bridge-client/src/main/java/ru/moonlightproject/bridge/client/MoonLightClient.java:603-636 | A request or cancel is on its way if and only if the client sent it and it was since neither lost nor delivered. |
| `ConnectionHistory.ReadsInOrder` | java/moonlight-bridge-client/src/main/java/ru/moonlightproject/bridge/client/MoonLightClient.java:894-915 | The reader takes the frames of the log one by one. |
| `ConnectionRuns.CompletesOnce` | java/moonlight-bridge-client/src/main/java/ru/moonlightproject/bridge/client/MoonLightClient.java:603-636 | A completed call keeps its result for the rest of the run: late responses, timeouts and failures change nothing. |
| `ConnectionRuns.NoProtocolError` | crates/moonlight-bridge-server/src/lib.rs:2138-2202 | The server never meets a zero or duplicate active id, and the client's `validateResponse` never fails. |
| `ConnectionRuns.OneAnswerPerCall` | crates/moonlight-bridge-server/src/lib.rs:2120-2245 | No two frames in the response log answer the same request, whether by its task or by a refusal. |
| `ConnectionRuns.InFlightBounded` | crates/moonlight-bridge-server/src/lib.rs:2144-2159 | Active requests are among the permit holders, and these never exceed `max_in_flight`. |
| `ConnectionHistory.AdmittedIffRoom` | crates/moonlight-bridge-server/src/lib.rs:2120-2252 | A request is admitted with a running task if and only if the server is not draining and has a permit left; otherwise it is answered with a failure and nothing else changes. |
| `ConnectionHistory.OnTableIff` | crates/moonlight-bridge-server/src/lib.rs:2144-2261 | A request is on the active table from its admission until its task removes it, a cancel takes it off or the connection ends, and holds its permit until its task is over. |
| `ConnectionHistory.TaskGoesOn` | crates/moonlight-bridge-server/src/lib.rs:2203-2252 | A task that holds a permit always has a next step, and an aborted one can end at once. |
| `ConnectionHistory.AnswerWasQueued` | crates/moonlight-bridge-server/src/lib.rs:2203-2245 | Every answer was queued by its task with the task's own output, as a failure in its place, or as a refusal. |
| `ConnectionHistory.OutputWasHandled` | crates/moonlight-bridge-server/src/lib.rs:2203-2245 | A task's output is what its handler returned. |
| `ConnectionHistory.TaskWasDelivered` | crates/moonlight-bridge-server/src/lib.rs:2120-2202 | A task works on a request as it was delivered. |
| `ConnectionRuns.LeavesTableForGood` | crates/moonlight-bridge-server/src/lib.rs:2244-2261 | A cancelled request leaves the active table, and no request that left it ever returns. |
| `ConnectionRuns.ClientStepKeepsInv` | java/moonlight-bridge-client/src/main/java/ru/moonlightproject/bridge/client/MoonLightClient.java:603-636 | Every client step keeps the multiplexing invariant. |
| `ConnectionRuns.ServerStepKeepsInv` | crates/moonlight-bridge-server/src/lib.rs:2113-2261 | So does every step of the server's loop and of its tasks. |
| `ConnectionRuns.DeliverKeepsInv` | crates/moonlight-bridge-server/src/lib.rs:2120-2261 | The request and cancel arms in particular: an arriving request is the call's own and new to the server. |
| `ConnectionRuns.ReadKeepsClient` | java/moonlight-bridge-client/src/main/java/ru/moonlightproject/bridge/client/MoonLightClient.java:912-915 | Reading any frame the server queued leaves the client consistent and unbroken. |
| `ConnectionRuns.TakeKeepsClient` | java/moonlight-bridge-client/src/main/java/ru/moonlightproject/bridge/client/MoonLightClient.java:916-935 | Taking a call off the pending table keeps the client consistent: a success it is about to complete with is its own task's output. |
| `ConnectionDrain.GoAwayOnceAndFirst` | crates/moonlight-bridge-server/src/lib.rs:2047-2112 | GOAWAY is queued at most once and before any graceful GOODBYE. |
| `ConnectionDrain.NoAdmissionWhileDraining` | crates/moonlight-bridge-server/src/lib.rs:2120-2137 | Once draining, always draining, and the active table only shrinks. |
| `ConnectionDrain.GracefulGoodbyeLosesNoCall` | crates/moonlight-bridge-server/src/lib.rs:2086-2105 | When a graceful GOODBYE is queued the server is draining, GOAWAY is in the log, the active table is empty, and of every call ever admitted the answer is in the log before it or the call was already complete at the client. |
| `ConnectionDrain.GracefulGoodbyeWasQueued` | crates/moonlight-bridge-server/src/lib.rs:2086-2105 | Every graceful GOODBYE in a log came from such a step, and no request has been admitted since. |
| `ConnectionDrain.GoodbyeExplained` | crates/moonlight-bridge-server/src/lib.rs:2047-2112 | A GOODBYE is graceful exactly if it was decided by a check that found the table empty rather than by a drain cut short. |
| `ConnectionDrain.DrainRunsItsCourse` | crates/moonlight-bridge-server/src/lib.rs:2047-2112 | A drain can run its course: GOAWAY, a check, and GOODBYE if the table is empty, else serving until the next check. |
| `ConnectionDrain.DrainingIff` | crates/moonlight-bridge-server/src/lib.rs:2047-2062 | The server drains if and only if it did from the start or was told to. |
| `ConnectionDrain.StoppedIff` | crates/moonlight-bridge-server/src/lib.rs:2047-2112 | Its loop has ended if and only if it parted or was stopped. |
| `ConnectionDrain.DrainStays` | crates/moonlight-bridge-server/src/lib.rs:2047-2112 | Every step keeps the drain invariant these rest on. |
| `ClientTables.RequestTables.constructor` | java/moonlight-bridge-client/src/main/java/ru/moonlightproject/bridge/client/MoonLightClient.java:73 | Ids start at one. |
| `ClientTables.RequestTables.AllocateRequestId` | java/moonlight-bridge-client/src/main/java/ru/moonlightproject/bridge/client/MoonLightClient.java:1267-1273 | The least id from the counter on that is neither zero nor in use; with tables filled from the counter, the counter itself. |
| `ClientTables.RequestTables.Register` | java/moonlight-bridge-client/src/main/java/ru/moonlightproject/bridge/client/MoonLightClient.java:603-605 | A call enters the pending table under an id no call had before. |
| `ClientTables.RequestTables.Release` | java/moonlight-bridge-client/src/main/java/ru/moonlightproject/bridge/client/MoonLightClient.java:619-620 | Leaving the table does not free the id. |
| `DirectWrite.DirectBytesBounded` | java/moonlight-bridge-client/src/main/java/ru/moonlightproject/bridge/client/MoonLightClient.java:1103-1128 | In every state of every run at most one caller is past the idle test, and the bytes written directly since the last answer, added up over the steps of the run, stay within 64 KiB although they are checked before the lock. |
| `DirectWrite.CounterCounts` | java/moonlight-bridge-client/src/main/java/ru/moonlightproject/bridge/client/MoonLightClient.java:1109-1116 | The counter is the sum of the bytes written directly since the last answer. |
| `DirectWrite.DirectExactlyWhenAllowed` | java/moonlight-bridge-client/src/main/java/ru/moonlightproject/bridge/client/MoonLightClient.java:1103-1128 | A caller goes direct exactly when it is alone in the table and both limits allow it. |
| `DirectWrite.CallerEntered` | java/moonlight-bridge-client/src/main/java/ru/moonlightproject/bridge/client/MoonLightClient.java:1103-1108 | A caller's length is the one it entered with. |
| `DirectWrite.StepKeepsInv` | java/moonlight-bridge-client/src/main/java/ru/moonlightproject/bridge/client/MoonLightClient.java:1103-1128 | Every step keeps the invariant behind it. |
| `DirectWrite.PassesAlone` | java/moonlight-bridge-client/src/main/java/ru/moonlightproject/bridge/client/MoonLightClient.java:1104-1108 | Who passes the idle test was alone in the pending table and is the only one on the direct path. |
| `IdempotencyRuns.AtMostOneOpenRun` | crates/moonlight-bridge-server/src/idempotency.rs:96-141 | In every state of every run, of two runs of a key the earlier has ended determinately: no key has two open runs. |
| `IdempotencyRuns.StartsOnlyAfterEnd` | crates/moonlight-bridge-server/src/idempotency.rs:96-141 | A run starts only when all earlier runs of its key have ended determinately and the entry is absent or expired. |
| `IdempotencyRuns.PanickedNeverReruns` | crates/moonlight-bridge-server/src/idempotency.rs:99-158 | A panicked run stays the last of its key for ever and later callers join it. |
| `IdempotencyRuns.OneStarterPerRun` | crates/moonlight-bridge-server/src/idempotency.rs:96-141 | Exactly one caller of a run sees `replayed = false`. |
| `IdempotencyRuns.SameOutcome` | crates/moonlight-bridge-server/src/idempotency.rs:162-171 | All callers of a run return the same outcome, at whatever time. |
| `IdempotencyHistory.ResultIsSettled` | crates/moonlight-bridge-server/src/idempotency.rs:146-158 | A run ended with an outcome at a time if and only if its worker settled it with that outcome at that time. |
| `IdempotencyHistory.ReturnsSettledOutcome` | crates/moonlight-bridge-server/src/idempotency.rs:162-171 | What a caller returns is what the worker of its run settled it with. |
| `IdempotencyHistory.CallerServesItsKey` | crates/moonlight-bridge-server/src/idempotency.rs:96-141 | A caller waits for a run of the key it called with. |
| `IdempotencyHistory.CallGetsCaller` | crates/moonlight-bridge-server/src/idempotency.rs:96-141 | Every call that is not refused starts a run or replays one, and is told which. |
| `IdempotencyHistory.ReplayedUntilTtl` | crates/moonlight-bridge-server/src/idempotency.rs:100-113 | While it is the entry of its key, a run settled with a value or an error is joined before its settling time plus the ttl and replaced by a new run from then on. |
| `IdempotencyHistory.OpenRunIsJoined` | crates/moonlight-bridge-server/src/idempotency.rs:96-105 | A run that is pending or panicked is joined at any time. |
| `IdempotencyHistory.WokenIff` | crates/moonlight-bridge-server/src/idempotency.rs:153-171 | A waiting caller is woken if and only if its run was notified since it registered: no wake-up is lost or made up. |
| `IdempotencyHistory.NotifiedIff` | crates/moonlight-bridge-server/src/idempotency.rs:153-158 | A run is notified exactly by its worker. |
| `IdempotencyHistory.DroppedIff` | crates/moonlight-bridge-server/src/idempotency.rs:162-171 | A caller is dropped if and only if it was abandoned. |
| `IdempotencyHistory.ClockCountsTicks` | crates/moonlight-bridge-server/src/idempotency.rs:100-105 | Time is the number of ticks. |
| `IdempotencyRuns.NoCallerStaysParked` | crates/moonlight-bridge-server/src/idempotency.rs:153-171 | After the worker has notified, every parked caller can take its three next steps, and they return the run's outcome. |
| `IdempotencyRuns.LeavesOnlyExpiredOrOldest` | crates/moonlight-bridge-server/src/idempotency.rs:106-133 | An entry leaves the map only when it has expired, or when the cache is full and it is the completed entry that ended first. |
| `IdempotencyRuns.SweptKeysExpired` | crates/moonlight-bridge-server/src/idempotency.rs:107-113 | The expiry sweep pops only expired keys. |
| `IdempotencyRuns.OverloadedIff` | crates/moonlight-bridge-server/src/idempotency.rs:122-132 | A call is refused if and only if its key is absent and the cache is full of pending or indeterminate entries. |
| `IdempotencyRuns.StepKeepsInv` | crates/moonlight-bridge-server/src/idempotency.rs:87-172 | Every step of callers and workers keeps the cache and caller invariants. |
| `Idempotency.IdempotencyCache.constructor` | crates/moonlight-bridge-server/src/idempotency.rs:71-82 | An empty cache satisfies the invariant. |
| `Idempotency.IdempotencyCache.Insert` | crates/moonlight-bridge-server/src/idempotency.rs:114-119 | A fresh cell becomes the entry of its key. |
| `Idempotency.IdempotencyCache.SweepThrough` | crates/moonlight-bridge-server/src/idempotency.rs:107-113 | Pops the completion queue up to and including the expired key. |
| `Idempotency.IdempotencyCache.EvictOldest` | crates/moonlight-bridge-server/src/idempotency.rs:122-133 | Pops up to and including the first completed key still in the map, and says whether there was one. |
| `Idempotency.IdempotencyCache.Lookup` | crates/moonlight-bridge-server/src/idempotency.rs:96-141 | The admission section as a whole, against its closed form. |
| `Idempotency.IdempotencyCache.Finish` | crates/moonlight-bridge-server/src/idempotency.rs:153-158 | The worker's section: the cell holds the outcome and the time given, and the key is queued if determinate. |
| `Idempotency.AdmitMeans` | crates/moonlight-bridge-server/src/idempotency.rs:96-141 | On a consistent cache admission is: join a live entry, sweep through an expired one, evict exactly the oldest, or refuse. |
| `Idempotency.AdmitKeepsInv` | crates/moonlight-bridge-server/src/idempotency.rs:96-141 | Admission keeps: the queue holds exactly the determinate finished keys, once each, in completion order; size within capacity; open runs pinned. |
| `Idempotency.CompleteKeepsInv` | crates/moonlight-bridge-server/src/idempotency.rs:153-158 | So does completion. |
| `MetadataFormat.RoundTrip` | crates/moonlight-bridge-protocol/src/metadata.rs:155-331 | Reading back an encoded map followed by a payload succeeds if and only if the map is within the limits, and gives the same map and payload. |
| `MetadataFormat.ReencodesIff` | crates/moonlight-bridge-protocol/src/metadata.rs:155-190 | An accepted block is byte for byte what its map encodes to if and only if it has no unknown entry and every tag has the bit the encoder would give it. |
| `MetadataFormat.ParseSound` | crates/moonlight-bridge-protocol/src/metadata.rs:343-373 | What a block parses as encodes to that block. |
| `MetadataFormat.ParseComplete` | crates/moonlight-bridge-protocol/src/metadata.rs:343-373 | And every sequence of entries parses back from its encoding. |
| `MetadataFormat.ProjectCanonical` | crates/moonlight-bridge-protocol/src/metadata.rs:311-331 | The entries of an accepted block are a map: valid keys, strictly ascending. |
| `MetadataFormat.MeasureEntries` | crates/moonlight-bridge-protocol/src/metadata.rs:155-171 | The first pass of the encoders counts the bytes of the second. |
| `MetadataFormat.WriteEntries` | crates/moonlight-bridge-protocol/src/metadata.rs:174-190 | The second pass writes the encoding of the map. |
| `RustMetadata.EncodeMetadata` | crates/moonlight-bridge-protocol/src/metadata.rs:155-190 | `encode_prefix`: length and block, or the size error. |
| `RustMetadata.Validate` | crates/moonlight-bridge-protocol/src/metadata.rs:202-274 | Accepts exactly the inputs the rules accept, and every error is explained by the entries read. |
| `RustMetadata.ValidateBlock` | crates/moonlight-bridge-protocol/src/metadata.rs:223-271 | The cursor loop, against the reference reading. |
| `RustMetadata.CheckEntry` | crates/moonlight-bridge-protocol/src/metadata.rs:236-269 | The checks on one entry, both directions, and which error. |
| `RustMetadata.IntoMetadata` | crates/moonlight-bridge-protocol/src/metadata.rs:311-331 | Never fails on a validated block and gives its map. |
| `RustMetadata.ReservedEntries` | crates/moonlight-bridge-protocol/src/metadata.rs:279-291 | Never stops early on a validated block: all reserved entries of the map, in order. |
| `RustMetadata.GetReserved` | crates/moonlight-bridge-protocol/src/metadata.rs:294-308 | With its early exit, the same as lookup in the owned map. |
| `RustMetadata.InsertMeans` | crates/moonlight-bridge-protocol/src/metadata.rs:141-147 | Insertion adds the entry and nothing else, keeps the order, and fails exactly on a present key. |
| `Wire.CompareMeans` | crates/moonlight-bridge-protocol/src/metadata.rs:141-147 | Names are ordered by their first difference, a proper prefix first. |
| `RustMetadata.Decode` | crates/moonlight-bridge-protocol/src/metadata.rs:193-196 | Validation followed by the owned map. |
| `JavaMetadata.Decode` | java/moonlight-bridge-client/src/main/java/ru/moonlightproject/bridge/client/MoonLightMetadata.java:255-319 | Accepts exactly what the Rust decoder accepts less the blocks with a user key under `moonlight-`, with the same entries and payload. |
| `JavaMetadata.DecodeBoth` | java/moonlight-bridge-client/src/main/java/ru/moonlightproject/bridge/client/MoonLightMetadata.java:255-332 | Both decoders on the same input and limits: Java accepts if and only if Rust does and no user key of the result starts with `moonlight-`, and then they give the same entries and payload. |
| `JavaMetadata.DecodeBlock` | java/moonlight-bridge-client/src/main/java/ru/moonlightproject/bridge/client/MoonLightMetadata.java:265-316 | The Java loop, which checks in another order, against the same reading. |
| `JavaMetadata.CheckEntry` | java/moonlight-bridge-client/src/main/java/ru/moonlightproject/bridge/client/MoonLightMetadata.java:286-332 | The Java checks on one entry, both directions. |
| `JavaMetadata.PutIsInsert` | java/moonlight-bridge-client/src/main/java/ru/moonlightproject/bridge/client/MoonLightMetadata.java:315 | `TreeMap.put` of a new key is the Rust insertion. |
| `JavaMetadata.PutMeans` | java/moonlight-bridge-client/src/main/java/ru/moonlightproject/bridge/client/MoonLightMetadata.java:315 | And of a present key it replaces the value. |
| `RequestPrefix.RequestPrefixLength` | java/moonlight-bridge-client/src/main/java/ru/moonlightproject/bridge/client/MoonLightMetadata.java:61-93 | Refuses exactly a clash with a key the request carries; otherwise the length of the plain encoding of the union, or overflow. |
| `RequestPrefix.WriteRequestPrefix` | java/moonlight-bridge-client/src/main/java/ru/moonlightproject/bridge/client/MoonLightMetadata.java:95-154 | Writes exactly that many bytes, and they are the plain encoding of the union map, on both paths. |
| `RequestPrefix.MergeEntries` | java/moonlight-bridge-client/src/main/java/ru/moonlightproject/bridge/client/MoonLightMetadata.java:123-153 | The merge loop writes the block of the union. |
| `RequestPrefix.WriteRuntimeOnly` | java/moonlight-bridge-client/src/main/java/ru/moonlightproject/bridge/client/MoonLightMetadata.java:104-122 | The path without user metadata writes the block of the runtime's entries. |
| `RequestPrefix.AddRuntime` | java/moonlight-bridge-client/src/main/java/ru/moonlightproject/bridge/client/MoonLightMetadata.java:76-86 | The clash test and the runtime's share of the length. |
| `RequestPrefix.AddEntries` | java/moonlight-bridge-client/src/main/java/ru/moonlightproject/bridge/client/MoonLightMetadata.java:87-92 | The user's share, overflow if and only if the total does not fit an int. |
| `RequestPrefix.UnionIsUnion` | java/moonlight-bridge-client/src/main/java/ru/moonlightproject/bridge/client/MoonLightMetadata.java:95-154 | The union has the user's and the runtime's entries and no others, and no other map has. |
| `Compression.DecodeUndoesEncode` | crates/moonlight-bridge-protocol/src/compression.rs:57-160 | Decoding an encoded payload succeeds if and only if the receiver's limits admit it, and then gives the payload. |
| `Compression.EncodeMeans` | crates/moonlight-bridge-protocol/src/compression.rs:57-110 | When a payload is compressed, when it stays plain and when it is refused. |
| `Compression.DecodeMeans` | crates/moonlight-bridge-protocol/src/compression.rs:112-160 | Whatever bytes arrive, decoding gives exactly a payload of the announced length within policy, ratio and budget, or nothing. |
| `Compression.RatioTestImplied` | java/moonlight-bridge-client/src/main/java/ru/moonlightproject/bridge/client/MoonLightCompression.java:160-171 | The sender's ratio test implies the receiver's when the receiver is at least as generous. |
| `Request.WireReceivable` | java/moonlight-bridge-client/src/main/java/ru/moonlightproject/bridge/client/MoonLightCompression.java:160-171 | What the client compresses is within the limits of every server at least as generous. |
| `Request.BuildBody` | java/moonlight-bridge-client/src/main/java/ru/moonlightproject/bridge/client/MoonLightClient.java:1031-1070 | The request body is the encoded union of user and runtime metadata followed by the body, or the error of the first limit it breaks. |
| `Request.SentIff` | java/moonlight-bridge-client/src/main/java/ru/moonlightproject/bridge/client/MoonLightClient.java:1031-1070 | Exactly when the client sends a request: keys free, metadata and body within its limits. |
| `Request.CompressedIff` | java/moonlight-bridge-client/src/main/java/ru/moonlightproject/bridge/client/MoonLightClient.java:1031-1047 | Exactly when the body goes out compressed, and when that fails. |
| `Request.RequestPayload` | crates/moonlight-bridge-server/src/lib.rs:2375-2508 | `request_payload`, against the reference reading of the block. |
| `Request.PickValues` | crates/moonlight-bridge-server/src/lib.rs:2391-2404 | The loop over the reserved entries finds the last value of each of the four keys. |
| `Request.LastIsLookup` | crates/moonlight-bridge-server/src/lib.rs:2391-2404 | In an accepted block that is the value in the owned map. |
| `Request.RequestRoundTrip` | crates/moonlight-bridge-server/src/lib.rs:2375-2508 | For every call the client can send, compressed or not, and for all metadata its writer accepts, the server takes back the same body, deadline, trace context and metadata if and only if it admits the metadata and the decoded size and no request key that the user set, and this request does not carry, misleads it. Without such keys whatever is accepted is read back exactly. |
| `Request.RequestArrivesIff` | java/moonlight-bridge-client/src/main/java/ru/moonlightproject/bridge/client/MoonLightClient.java:1031-1070 | With both sides' negotiated limits and a free budget that is: at most 64 entries and 8 KiB per value, neither of which the client checks, and no misleading key. |
| `Request.LargeValueIsSentAndRefused` | crates/moonlight-bridge-server/src/lib.rs:2375-2388 | A call with one value of 9000 bytes, which a client with its defaults sends and a server with its defaults refuses. |
| `Request.TraceReadBack` | crates/moonlight-bridge-protocol/src/lib.rs:70-94 | A trace context survives its 25 bytes. |
| `Request.TraceReadsIff` | crates/moonlight-bridge-protocol/src/lib.rs:70-94 | Bytes read as a trace context if and only if they are one written. |
| `Request.DeadlineReadsIff` | crates/moonlight-bridge-server/src/lib.rs:2402-2418 | Bytes read as a deadline if and only if they are a positive number in four bytes. |
| `Request.CompressionReadsIff` | crates/moonlight-bridge-server/src/lib.rs:2434-2460 | Codec and original length are taken together or not at all. |
| `Response.DecodeApplicationFrame` | java/moonlight-bridge-client/src/main/java/ru/moonlightproject/bridge/client/MoonLightClient.java:966-993 | The client's reading of a response body, against the reference reading. |
| `Response.DecompressedIff` | java/moonlight-bridge-client/src/main/java/ru/moonlightproject/bridge/client/MoonLightClient.java:970-993 | Exactly which codec entries and payloads give the client a body. |
| `Response.ResponseRoundTrip` | java/moonlight-bridge-client/src/main/java/ru/moonlightproject/bridge/client/MoonLightClient.java:966-993 | For every body a handler gives: the frame leaves as an error if and only if body and limits say so; otherwise the client reads the handler's own body, or nothing exactly when its decoding limits refuse the compressed form. |
| `Frames.HeaderReadsBack` | crates/moonlight-bridge-protocol/src/lib.rs:201-246 | A written header reads back, or is refused for its body length alone. |
| `Frames.HeaderWasWritten` | crates/moonlight-bridge-protocol/src/lib.rs:219-246 | Every header that decodes is a written one. |
| `Wire.SignificantFirst` | crates/moonlight-bridge-protocol/src/lib.rs:201-216 | Numbers are written most significant byte first. |
| `Frames.StreamReadsIff` | crates/moonlight-bridge-protocol/src/lib.rs:201-246 | A byte stream reads as a list of frames if and only if it is the concatenation of their encodings. |
| `Outbound.PipelineReadable` | crates/moonlight-bridge-server/src/lib.rs:2519-2612 | Whatever comes out of fit/compress/fit is readable at the negotiated limit and keeps method and request id. |
| `Outbound.PipelineCases` | crates/moonlight-bridge-server/src/lib.rs:2519-2612 | Exactly which queued frames become an error, which are compressed and to which bytes, and which stay as they are, from the body size, the limits and the codec. |
| `Outbound.UnfitSaysWhy` | crates/moonlight-bridge-server/src/lib.rs:2519-2612 | The error body of a frame that does not fit, as far as it fits itself. |
| `Outbound.CompressKeepsMetadata` | crates/moonlight-bridge-server/src/lib.rs:2540-2612 | A frame with metadata is left alone if they cannot be read, and otherwise becomes an error or keeps them, with the codec added if it is compressed. |
| `Outbound.PipelineIdempotentIff` | crates/moonlight-bridge-server/src/lib.rs:2519-2612 | A second pass changes nothing if and only if the result is within the decoded limit and, where compressed, not worth compressing again. |
| `Outbound.CompressAgain` | crates/moonlight-bridge-server/src/lib.rs:2540-2612 | What the second pass makes of a compressed frame: itself, or an error. |
| `Outbound.SettledUnderSavings` | crates/moonlight-bridge-server/src/lib.rs:2519-2612 | When the savings asked for cover the codec metadata only the re-compression clause remains. |
| `Outbound.UnsettledIsLost` | crates/moonlight-bridge-server/src/lib.rs:2519-2612 | A compressed frame becomes an error in the second pass if and only if it is not settled. |
| `Outbound.TwoPassesCanLoseResponse` | crates/moonlight-bridge-server/src/lib.rs:2540-2612 | A lossless codec and a response for which that happens. |
| `Outbound.WithinReservation` | crates/moonlight-bridge-server/src/lib.rs:250-266 | Under the default policy the bytes finally written for a frame, deferred or not, never exceed what was reserved for it. |
| `Writer.RunWriter` | crates/moonlight-bridge-server/src/lib.rs:1983-2045 | For every queue and arrival pattern the bytes written read back as the queued frames after the pipeline, in order, none lost or repeated. A frame passes the pipeline twice only if it starts a round and did not fit the batch before it; batches hold at most 64 frames and at most 512 KiB unless single, and when frames are always ready none ends early. |
| `Writer.WriteAll` | crates/moonlight-bridge-server/src/lib.rs:1987-2045 | The rounds of the loop, for any pipeline that keeps frames readable: where each starts, what it holds, and why the one before it ended. |
| `Writer.RoundsWrite` | crates/moonlight-bridge-server/src/lib.rs:1987-2045 | Such rounds have written every frame up to their end once, in order; the bytes are the encodings of these frames. |
| `Writer.WriteBatch` | crates/moonlight-bridge-server/src/lib.rs:1987-2033 | One round of the loop: it ends only when the batch is full, nothing is ready, or the next frame does not fit, and that frame alone is put aside; frames beyond the first are taken only as polls find them ready. |
| `Writer.PreparedEncodes` | crates/moonlight-bridge-protocol/src/lib.rs:201-216 | `encode_into` never fails on a frame the pipeline let through. |
| `Writer.PipelinePrepares` | crates/moonlight-bridge-server/src/lib.rs:2519-2612 | The server's pipeline keeps every sound frame readable. |
| `Writer.DeferralInvisible` | crates/moonlight-bridge-server/src/lib.rs:2013-2027 | What is written is each frame passed once through the pipeline if and only if every deferred frame is settled. |
| `Writer.WriteBehindFull` | crates/moonlight-bridge-server/src/lib.rs:2013-2027 | Of two frames queued together the second goes through the pipeline twice if the first leaves no room. |
| `Writer.DeferredResponseIsLost` | crates/moonlight-bridge-server/src/lib.rs:2013-2027 | A queue of two frames on which the writer defers a response and writes an error in its place. |
| `DecodedBudget.UsedIsSumOfPermits` | crates/moonlight-bridge-protocol/src/compression.rs:208-253 | In every state of every run of the compare-and-exchange loop, the counter is the sum of live permits, within capacity, and zero when there are none. |
| `DecodedBudget.RefusedOnlyWhenFull` | crates/moonlight-bridge-protocol/src/compression.rs:208-239 | A reservation is refused only if at some moment between its own first load and the refusal the live permits left less than was asked for. |
| `DecodedBudget.HoldsWhatWasAsked` | crates/moonlight-bridge-protocol/src/compression.rs:208-239 | A permit is for the bytes its holder asked for at the start of the attempt that got it. |
| `DecodedBudget.GrantedIffRoom` | crates/moonlight-bridge-protocol/src/compression.rs:208-253 | A round grants its permit if and only if the counter has not moved and the live permits leave room, and raises their sum by what was asked for; a release lowers it by what was held; a refusal names what was left. |
| `DecodedBudget.StepKeepsInv` | crates/moonlight-bridge-protocol/src/compression.rs:208-253 | Every round and every release keeps the invariant. |
| `ResponseBudget.BytesConserved` | crates/moonlight-bridge-server/src/lib.rs:198-291 | What the process has given out is the sum over connections of what queued responses hold; each connection has given out at least its share; neither is overdrawn. |
| `ResponseBudget.FailedReservationReturnsBytes` | crates/moonlight-bridge-server/src/lib.rs:250-291 | From before the first acquisition to after it is given back, by a failed second one or an abandoned wait, and whatever happens between, what is left on the connection changes only by what other responses hold. |
| `ResponseBudget.ReservesWhatWasOffered` | crates/moonlight-bridge-server/src/lib.rs:250-266 | A response reserves the size and the connection it was offered with. |
| `ResponseBudget.PhaseFollowsSteps` | crates/moonlight-bridge-server/src/lib.rs:250-291 | A response holds what the last step on it left it with. |
| `ResponseBudget.AcquiresIffRoom` | crates/moonlight-bridge-server/src/lib.rs:250-266 | A permit can be had exactly when what is held leaves room for it, on the connection and in the process. |
| `ResponseBudget.NothingLeaks` | crates/moonlight-bridge-server/src/lib.rs:198-291 | With no response under way all bytes are back. |
| `ResponseBudget.StepKeepsInv` | crates/moonlight-bridge-server/src/lib.rs:250-291 | Every acquisition and release keeps the books. |
| `Schema.RangeIsCovered` | crates/moonlight-bridge-codegen/src/schema.rs:366-383 | For unsorted, overlapping input: true if and only if every number of a non-empty required range lies in some available range; exact also for empty ranges. |
| `Schema.CheckPreservedReservations` | crates/moonlight-bridge-codegen/src/schema.rs:340-364 | Reports a range or a name exactly when it is no longer reserved. |
| `Schema.BlockFaults` | crates/moonlight-bridge-codegen/src/schema.rs:262-312 | The member checks of one message or enum. |
| `Schema.RpcFaults` | crates/moonlight-bridge-codegen/src/schema.rs:313-335 | The checks of one service. |
| `Schema.CompatibilityErrors` | crates/moonlight-bridge-codegen/src/schema.rs:260-338 | The errors are exactly the faults; none if and only if the locks are compatible. |
| `Schema.NoErrorsIffCompatible` | crates/moonlight-bridge-codegen/src/schema.rs:260-338 | No fault anywhere is the compatibility relation. |
| `Schema.CompatibleTransitive` | crates/moonlight-bridge-codegen/src/schema.rs:260-338 | Compatibility is transitive over well-formed locks. |
| `Schema.HistorySafe` | crates/moonlight-bridge-codegen/src/schema.rs:260-390 | Over any chain of releases a number used in a message or enum never returns with another meaning and a removed name never returns. |
| `Schema.HistoryCompatible` | crates/moonlight-bridge-codegen/src/schema.rs:260-338 | Any two releases of a chain are compatible, not only neighbours. |
| `Schema.SelfCompatibleIff` | crates/moonlight-bridge-codegen/src/schema.rs:366-383 | When a lock is compatible with itself. |
| `Schema.EmptyRangeCanBeRefused` | crates/moonlight-bridge-codegen/src/schema.rs:366-383 | An empty required range the sweep refuses. |
| `Schema.SnapshotEnumRange` | crates/moonlight-bridge-codegen/src/schema.rs:240-248 | The saturating end of an enum's reserved range, and what it loses. |
| `Numbering.LoadBlock` | crates/moonlight-bridge-codegen/src/source.rs:437-500 | The generator's reading of a locked block: refused exactly if a member number is out of 32 bits, ends of reserved ranges cut down to 32 bits, exact when nothing is cut. |
| `Numbering.NextNumber` | crates/moonlight-bridge-codegen/src/source.rs:502-516 | The least number from the first on that is neither used nor in 19000-19999; it fits 32 bits if and only if a free number of 32 bits exists. |
| `Numbering.FindNumber` | crates/moonlight-bridge-codegen/src/source.rs:173-180 | The locked number of a name, if there is one. |
| `Numbering.AssignNumbers` | crates/moonlight-bridge-codegen/src/source.rs:171-188 | Every name keeps its locked number or gets the least free one. |
| `Numbering.AllNumbersDistinct` | crates/moonlight-bridge-codegen/src/source.rs:171-188 | Generated numbers are distinct. |
| `Numbering.FreshNumbersAvoid` | crates/moonlight-bridge-codegen/src/source.rs:502-516 | A fresh number avoids all locked and reserved numbers and 19000-19999, and no smaller number was free. |
| `Numbering.ReservationLines` | crates/moonlight-bridge-codegen/src/source.rs:157-170 | Reserved are exactly the removed members and everything reserved before. |
| `Numbering.GenerateMessage` | crates/moonlight-bridge-codegen/src/source.rs:132-191 | A message declaration from the lock. |
| `Numbering.GenerateEnum` | crates/moonlight-bridge-codegen/src/source.rs:193-258 | An enum declaration from the lock: the numbered names and no others, sorted by number; refused exactly when a number is negative or none is zero. |
| `Numbering.EnumOrderIrrelevant` | crates/moonlight-bridge-codegen/src/source.rs:193-258 | The sorted declaration has distinct numbers and gives the same lock as the unsorted one. |
| `Numbering.GeneratedPassesChecker` | crates/moonlight-bridge-codegen/src/source.rs:132-258 | With member types unchanged, the new lock passes the checker against the old one if and only if no enum drops the value 2147483647 and every retained optional field has as many optional fields declared before it as its locked oneof index says. |
| `Numbering.GeneratedWellFormed` | crates/moonlight-bridge-codegen/src/source.rs:132-258 | The new lock, of a message or an enum, is well formed if and only if no declared name was reserved and no enum drops the value 2147483647. |
| `Numbering.GeneratedEnumPasses` | crates/moonlight-bridge-codegen/src/source.rs:193-258 | What the enum generator declares, sorted, passes the checker if and only if it does not drop the value 2147483647, and its lock is well formed if and only if moreover no declared name was reserved. |
| `Numbering.RegenerationStable` | crates/moonlight-bridge-codegen/src/source.rs:132-258 | Generating again from the new lock, in any declaration order, gives every name its number. |
| `Numbering.AppendingKeepsOneofs` | crates/moonlight-bridge-codegen/src/source.rs:405-414 | Adding fields at the end moves no oneof index. |
| `Numbering.OneofsCountUp` | crates/moonlight-bridge-codegen/src/schema.rs:173-196 | The optional fields of a message get the oneof indices 0, 1, 2 and so on in declaration order. |
| `Numbering.LargestEnumValueCannotBeDropped` | crates/moonlight-bridge-codegen/src/schema.rs:240-248 | The lock and declaration where the checker refuses the generator's own output. |
| `Numbering.DroppedOptionalMovesOneof` | crates/moonlight-bridge-codegen/src/schema.rs:173-196 | Dropping the first of two optional fields: every other condition holds and the checker refuses the generator's own output. |

## Left out

- Sockets, TLS, accept loops, thread and task scheduling, wall-clock timers: timeouts and scheduling are free choices of the step systems.
- Zstandard internals, protoc, prost, serde, syn and the regex lock parser: foreign code.
- Telemetry, interceptors, Sentry, OpenTelemetry, Prometheus, Micrometer, the Paper and Folia adapters, the Gradle plugin, generated source text: plumbing.
- Middleware, `Revisioned`, settings negotiation, `RpcPolicy` validation, name-case helpers, FNV ids, PING, HEALTH and events: true but much easier.
- `MoonLightStreams.map`: only the base stream's ordering is proved.
- Streams inside a connection: `Connection` has unary calls only; one stream on its own connection is `StreamRuns`.
- `Connection`, `StreamRuns`, `IdempotencyRuns`, `DirectWrite`, `DecodedBudget` and `ResponseBudget` are step systems on values: aliasing and memory reclamation are not modelled.
- Panicking handlers: without middleware a panic leaves the `active` entry behind, so handlers are taken to return.
- Drain liveness: the counter check and the wait registration are separate steps in `drain.rs`, so no claim that a drain ends.
- Wrap-around of the 64-bit request id counter: ids are taken not to run out.
- Order among requests and cancels of one client: a direct write may overtake queued frames, so the model delivers them in any order.
- One terminal frame per stream from the server: not so, an item can be replaced by ERROR while the stream loop goes on.
- The reader's request-byte budget (`read_frame_buffered`) and the client's outgoing byte semaphore and buffer pool: the same accounting as `ResponseBudget`, easier.
- Numbering.NextNumber: numbers are unbounded; the contract says exactly when the 32-bit counter of the source overflows, what the overflow does (a panic or a wrap, by build) is not modelled.
- Numbering.GeneratedPassesChecker: takes an unchanged member's type and label as given, by name; that protoc numbers the oneofs of optional fields in declaration order is part of the model, explicit `oneof` groups are not, since the generator writes none.
- Schema.CompatibilityErrors: errors are values, not the message text, and their order across maps is not modelled.
- JavaMetadata.Decode: says accepted or refused, not with which exception.
- Writer.RunWriter: a failing socket write and the observation of write times are not modelled.
- ServerStream.MoonLightServerStream.Finish: how often the cleanup callback runs is modelled, what it does is not; other threads between termination and signal are the gap between two steps of the step system.
- DirectWrite.DirectBytesBounded: `pending.size()` is one step; `ConcurrentHashMap.size()` adds up counters that other threads move meanwhile, and a sum that never was the size is not modelled.
