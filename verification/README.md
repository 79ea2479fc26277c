# A verified model of a C++ parameter server

The repository is a parameter server for distributed learning. Worker threads send `Get`, `Add` and
`Clock` messages to sharded server threads; a consistency controller on each server decides from a
progress tracker when a read may be answered. Around that core stand the client table, reply
collection, the id allocator, an all-to-all barrier, the block assigner and line reader that load the
data, and the binary serializer.

This project models those components in Dafny and proves what they are for, over every input, every
run or every interleaving.

| module (file) | what is modelled | main results |
|---|---|---|
| `ProgressTracking` | worker clocks and a cached minimum | the cache is exact after any non-empty `Init`s and advances; the exact condition under which `Init` breaks it |
| `PendingMessages`, `KeyValueStorage` | deferred messages, accumulating storage | nothing lost or doubled by push and pop; a read never changes what is read |
| `SspModel`, `SspGuarantees` | the stale-synchronous controller | read guarantee, Get conservation with the exact set of stranded Gets, replay outcome, over whole runs and across resets |
| `AspModel` | the asynchronous controller | equal to SSP, reply by reply, on all runs of n Clocks if and only if n does not exceed the staleness |
| `BspModel`, `BspGuarantees`, `BspConfluence` | the bulk-synchronous controller | Add conservation, a Get answered iff its sender is at the minimum, reads that contain exactly the earlier rounds, confluence of interleavings |
| `ClosedLoop`, `ClosedLoopReads` | workers, FIFO channels and several SSP servers | deadlock freedom, agreement of trackers, bounded drift; storage is what was delivered, and reads contain every earlier call |
| `Partitioning`, `ClientTable` | slicing, scatter and gather | which server owns a key; the sharded table is one key-to-sum map |
| `AppBlocker`, `IdMapping`, `ReplyRouting` | reply collection, thread ids, and replies routed to helpers | no early return, and a complete wait returns at its next test; no lost wake-up if and only if one reply of a thread is handled at a time; the id allocator's table guarantees that |
| `Barrier` | the counter barrier of `Mailbox` | safety, counter bound, no lost wake-up, and everybody returns, for every number of nodes |
| `BlockAssigner`, `LineReading`, `LineDelivery` | data loading | blocks issued exactly once, with the exact condition under which a url is remembered; every line of every file delivered exactly once, with the exact condition per block |
| `Serialization`, `BinStreams` | the byte format and `BinStream` | round trip for every nested type and every order of map iteration, prefix freedom, and the exact types for which reading is the inverse of writing |
| `Sequences` | | facts about sequences that several modules share |

Each object that the program updates in place is a class whose methods are proved against functions
on values; whole-run results are proved about those functions. Threads are interleaved atomic steps;
a critical section, a send or a receive is one step.

Where the code and its documentation or evident intent differ, the code is followed:

- `staleness_` is unsigned, so the test at server/consistency/ssp_model.cpp:41 is an unsigned
  comparison. It agrees with the integer one for registered senders (`DefersIffTooFarAhead`); a Get from
  an unregistered sender is held under a negative clock for the rest of the run
  (`UnknownSendersGetIsHeldForever`); a negative configured staleness switches deferral off
  (`NegativeStalenessNeverDefers`).
- `ProgressTracker::Init` with nobody to register resets the cached minimum under workers that have
  moved on, and no later advance moves it again (`InitExactIff`, `EmptyInitFreezesMinimum`).
- `BSPModel::Clock` reads the storage for deferred Gets and sends nothing
  (`OnlyDirectGetsAreAnswered`); an Add from a worker that is ahead is dropped (`AddDroppedIffAhead`).
- `AllocateHelperForWorker` has no return statement after its loop. The model calls that result
  `Undefined`, leaves the ids as they are, and makes no claim about what the program does next. The
  documented `-1` is never returned on a known node (`AllocationSucceedsIffRoom`).
- `AddResponse` notifies only if its first step saw itself as the last reply; with two helpers for one
  thread the wake-up is lost (`TwoHelpersLoseWakeUp`, `OneHelperIsExact`).
- The assigner forgets a url when the refusals equal the threads named so far. Processes that name no
  thread make that happen too early, and blocks are issued again (`NeverForgottenIff`,
  `BlockIssuedTwice`).
- `BlkDesc::operator==` compares the location with itself, so replicas are one block.
- Reading a bool vector takes any nonzero byte for true, and reading a map drops repeated keys, so bytes
  read are not always bytes that writing produces (`RecoversIffLossless`).
- A one-byte first block of a file and a later block without a newline are read wrongly
  (`DeliveredIffBlockOk`).

## Model

| member | source | states |
|---|---|---|
| `ProgressTracking.AdvanceIsExact` | server/util/progress_tracker.cpp:16-27 | on an exact tracker an advance keeps the cached minimum exact, raises it by 0 or 1, returns the new value exactly when it rose, and it rises iff the worker was alone at the minimum |
| `ProgressTracking.AdvanceKeepsLowerBound` | server/util/progress_tracker.cpp:16-27 | no worker ever falls behind the cached minimum, exact or not, and the minimum moves up by at most one |
| `ProgressTracking.UniqueMinIsOnly` | server/util/progress_tracker.cpp:44-52 | a unique minimum means every other worker is strictly ahead |
| `ProgressTracking.InitExactIff` | server/util/progress_tracker.cpp:7-14 | `Init` leaves the cached minimum exact if and only if it registers someone, nobody is tracked, or the minimum was 0 |
| `ProgressTracking.StaleMinimumIsFrozen` | server/util/progress_tracker.cpp:16-27 | a cached minimum below every progress is never moved again by any sequence of advances |
| `ProgressTracking.EmptyInitFreezesMinimum` | server/util/progress_tracker.cpp:7-14 | the failing case, for every exact tracker with a positive minimum: after an empty `Init` the minimum stays 0, and wrong, however the workers advance |
| `ProgressTracking.CachedMinimumIsExact` | server/util/progress_tracker.cpp:7-56 | after any sequence of non-empty `Init`s and advances on a new tracker the cached minimum is the true minimum, whatever it held before |
| `ProgressTracking.ProgressTracker.Init` | server/util/progress_tracker.cpp:7-14 | named workers go to 0, all others keep their clock, the minimum becomes 0 |
| `ProgressTracking.ProgressTracker.GetProgress` | server/util/progress_tracker.cpp:33-38 | the clock of a registered worker, otherwise -1 |
| `ProgressTracking.ProgressTracker.IsUniqueMin` | server/util/progress_tracker.cpp:44-52 | the counting loop decides whether the worker is at or below the minimum and exactly one worker is at it |
| `ProgressTracking.ProgressTracker.AdvanceAndGetChangedMinClock` | server/util/progress_tracker.cpp:16-27 | new state and returned value are those of the specification, unknown workers included |
| `PendingMessages.TallySplit` | server/util/pending_buffer.cpp:5-13 | taking out one clock's messages takes out exactly those, for every class of messages counted |
| `PendingMessages.TallyPush` | server/util/pending_buffer.cpp:15-20 | a push adds exactly one message under any count |
| `PendingMessages.PendingBuffer.Push` | server/util/pending_buffer.cpp:15-20 | appends in arrival order under its clock, leaves every other clock alone |
| `PendingMessages.PendingBuffer.Pop` | server/util/pending_buffer.cpp:5-13 | returns what the clock held, in order, removes it, and conserves every count |
| `PendingMessages.PendingBuffer.Size` | server/util/pending_buffer.cpp:22-26 | the number of messages held under a clock |
| `KeyValueStorage.AddPairsAdds` | server/map_storage.hpp:17-28 | an Add raises every key by exactly the sum of its occurrences, repeated keys included |
| `KeyValueStorage.TouchKeepsLookup` | server/map_storage.hpp:30-40 | the zeros a read inserts change no value that any read can see |
| `KeyValueStorage.MapStorage.SubAdd` | server/map_storage.hpp:17-28 | the loop adds each pair; every key gains its total |
| `KeyValueStorage.MapStorage.SubGet` | server/map_storage.hpp:30-40 | one value per requested key in order, missing keys read as 0, no value changes |
| `SspModel.DefersIffTooFarAhead` | server/consistency/ssp_model.cpp:39-44 | for a registered worker the unsigned test is the integer test, the barrier clock is the integer difference, and a deferred Get waits above the minimum |
| `SspModel.UnregisteredIsDeferred` | server/consistency/ssp_model.cpp:39-44 | an unregistered sender is deferred under the negative clock -1 - staleness |
| `SspModel.NegativeStalenessNeverDefers` | server/consistency/ssp_model.hpp:37 | a negative configured staleness wraps and no registered worker is ever deferred |
| `SspModel.SSPModel.Add` | server/consistency/ssp_model.cpp:32-35 | storage only, and only for this model |
| `SspModel.SSPModel.Get` | server/consistency/ssp_model.cpp:37-50 | answers at once or defers, by the unsigned test |
| `SspModel.SSPModel.Clock` | server/consistency/ssp_model.cpp:14-30 | the loop replays exactly what was held at the new minimum, in order |
| `SspModel.SSPModel.ResetWorker` | server/consistency/ssp_model.cpp:60-70 | registers the workers and replies, whatever the model id |
| `SspGuarantees.StepKeeps` | server/consistency/ssp_model.cpp:14-70 | every message keeps the state invariant and only appends replies, each with the stored values and within the staleness bound |
| `SspGuarantees.StepAccounted` | server/consistency/ssp_model.cpp:14-50 | a message accounts for exactly the Get it is, if any, under every count |
| `SspGuarantees.RunInvHolds` | server/consistency/ssp_model.cpp:14-70 | in every run storage is the sum of all Adds, every progress is a count of Clocks since registration, every Get is accounted for |
| `SspGuarantees.ReadGuarantee` | server/consistency/ssp_model.cpp:14-50 | every value in every Get reply is the sum of all Adds processed so far, and every registered worker has clocked at least as often as the recipient less the staleness |
| `SspGuarantees.ReadContainsEarlierAdds` | server/consistency/ssp_model.cpp:37-50 | with FIFO delivery a read at clock c already contains every message any registered worker sent before its (c - staleness)-th Clock since its registration |
| `SspGuarantees.GetConservation` | server/consistency/ssp_model.cpp:14-50 | at every point of every run, across resets, the Gets received are those answered plus those held; under the one negative clock sit exactly the deferred Gets of senders unregistered on receipt; all other Gets, in particular those of registered workers, are answered once or held once under a clock strictly above the minimum |
| `SspGuarantees.StrandedExactly` | server/consistency/ssp_model.cpp:37-45 | over every run what is held under -1 - staleness is, in order, the deferred Gets whose sender was unregistered on receipt |
| `SspGuarantees.KeptIsRegistered` | server/util/progress_tracker.cpp:33-42 | once anybody has been registered, the Gets that are not stranded are exactly those of registered senders |
| `SspGuarantees.ReplayOutcome` | server/consistency/ssp_model.cpp:20-29 | a Clock that raises the minimum to c answers in order exactly the due Gets whose sender is at most c + staleness; the others go back under a strictly larger clock |
| `SspGuarantees.QuietGetIsAnsweredWhenDue` | server/consistency/ssp_model.cpp:14-50 | a deferred Get whose sender then neither clocks nor is reset has been answered by the time the minimum reaches its clock |
| `SspGuarantees.UnknownSendersGetIsHeldForever` | server/consistency/ssp_model.cpp:37-45 | a deferred Get of an unknown sender stays held for the rest of every run |
| `SspGuarantees.ResetsAreAnswered` | server/consistency/ssp_model.cpp:60-70 | over every run the registration replies are, in order, one per registration, addressed to its sender, whatever its model id |
| `AspModel.ASPModel.Clock` | server/consistency/asp_model.cpp:13-16 | advances the tracker and nothing else |
| `AspModel.ASPModel.Add` | server/consistency/asp_model.cpp:18-21 | storage only, and only for this model |
| `AspModel.ASPModel.Get` | server/consistency/asp_model.cpp:23-27 | always answers at once |
| `AspModel.ASPModel.ResetWorker` | server/consistency/asp_model.cpp:33-43 | registers the workers and replies |
| `AspModel.AspAnswersAtOnce` | server/consistency/asp_model.cpp:13-43 | over every run storage is the sum of all Adds, and each Get for the model and each registration gets exactly one reply on arrival, whoever sends it; nothing else is answered |
| `AspModel.AspReadsAllAdds` | server/consistency/asp_model.cpp:23-27 | every value sent is the sum of all Adds processed so far |
| `AspModel.SameStep` | server/consistency/asp_model.cpp:13-43 | one message keeps ASP and SSP equal if and only if it is not a Get that SSP defers |
| `AspModel.AspEqualsSspWithSlack` | server/consistency/asp_model.cpp:13-27 | on every run whose Gets come from registered workers and whose Clocks do not exceed the staleness, replies, their order and storage are equal at every point |
| `AspModel.OneClockMoreSeparates` | server/consistency/ssp_model.cpp:37-45 | for every staleness below INT_MAX a run with Gets from registered workers and staleness + 1 Clocks at whose end ASP has sent a reply that SSP holds back |
| `AspModel.SlackIsExact` | server/consistency/asp_model.cpp:13-27 | SSP and ASP agree on all runs of at most n Clocks if and only if n does not exceed the staleness |
| `BspModel.BSPModel.Clock` | server/consistency/bsp_model.cpp:13-29 | at the end of a round the loops flush all buffered Adds, then read for the buffered Gets without replying |
| `BspModel.BSPModel.Add` | server/consistency/bsp_model.cpp:31-38 | buffers an Add of the current round, drops any other |
| `BspModel.BSPModel.Get` | server/consistency/bsp_model.cpp:40-50 | answers at once unless the sender is ahead, and holds the Get otherwise; what that means over runs is `GetAnsweredIffAtMinimum` and `HeldExactly` |
| `BspModel.BSPModel.ResetWorker` | server/consistency/bsp_model.cpp:64-74 | registers the workers and replies; buffers stay |
| `BspGuarantees.StepMoves` | server/consistency/bsp_model.cpp:13-50 | per key: storage moves only at the end of a round and by the whole buffer; the buffer takes accepted Adds |
| `BspGuarantees.AddConservation` | server/consistency/bsp_model.cpp:13-38 | in every run, resets included, storage plus buffer is the sum of all accepted Adds |
| `BspGuarantees.AddDroppedIffAhead` | server/consistency/bsp_model.cpp:31-38 | a registered worker's Add leaves no trace if and only if the worker is ahead of the minimum |
| `BspGuarantees.AddKeptIff` | server/consistency/bsp_model.cpp:31-38 | whoever sends it, an Add is buffered exactly if it is for this model and its sender's clock is the minimum; otherwise nothing changes |
| `BspGuarantees.OnlyDirectGetsAreAnswered` | server/consistency/bsp_model.cpp:24-28 | over every run exactly the Gets whose sender's clock was at most the minimum on arrival are answered; deferred ones never are |
| `BspGuarantees.GetAnsweredIffAtMinimum` | server/consistency/bsp_model.cpp:40-50 | over every run a registered worker's Get gets exactly one reply, with its keys, on arrival if the worker is at the minimum, and none if it is ahead |
| `BspGuarantees.ReadsAreRoundExact` | server/consistency/bsp_model.cpp:13-50 | an answered registered worker is at the minimum, and within an epoch reads the starting storage and left-over buffer plus exactly the Adds accepted in rounds below its own clock |
| `BspGuarantees.HeldExactly` | server/consistency/bsp_model.cpp:44-45 | over every run the held Gets are, in order, those since the last end of a round whose sender was ahead |
| `BspGuarantees.ResetsAreAnswered` | server/consistency/bsp_model.cpp:64-74 | one registration reply per registration, to its sender, in order |
| `BspGuarantees.RoundSnapshot` | server/consistency/bsp_model.cpp:13-50 | within one registration epoch the storage in round r holds exactly the Adds accepted in rounds before r, on top of what the epoch started with |
| `BspGuarantees.SameRoundReadsAgree` | server/consistency/bsp_model.cpp:40-50 | in every run two Get replies emitted in the same round of an epoch carry the same value for every key they share, whatever was added between |
| `BspConfluence.RegistrationReachesStart` | driver/engine.cpp:125-137 | any batches of registrations, in any order, reach the same tracker |
| `BspConfluence.StorageIsStreams` | server/consistency/bsp_model.cpp:13-38 | with no Add dropped, storage at minimum r is the sum of what each worker sent before its r-th Clock, a function of the streams alone |
| `BspConfluence.Confluence` | server/consistency/bsp_model.cpp:13-38 | two interleavings of the same streams agree on every key whenever their minimum clocks are equal |
| `ClosedLoop.StepInv` | worker/kv_client_table.hpp:46-112 | every call, delivery and receipt keeps the system invariant: no Clock is lost, and a Get waited for is in exactly one of channel, server and reply path |
| `ClosedLoop.RunInvariant` | worker/kv_client_table.hpp:46-112 | the invariant in every reachable state |
| `ClosedLoop.TrackersAgree` | worker/kv_client_table.hpp:46-56 | with nothing in flight every server's progress of a worker is the number of its Clock calls |
| `ClosedLoop.SlowestWorkerIsNotBlocked` | server/consistency/ssp_model.cpp:37-50 | with nothing in flight a worker with the smallest clock waits on no server, and can call Clock and any Get |
| `ClosedLoop.SomethingIsEnabled` | server/consistency/ssp_model.cpp:37-50 | no reachable state is stuck while clocks fit an int |
| `ClosedLoop.DueAreAllAnswered` | server/consistency/ssp_model.cpp:20-29 | in the closed loop a Clock that raises the minimum puts nothing back |
| `ClosedLoop.DriftIsBounded` | app/simple_example.cpp:52-63 | if every worker reads from a server between its Clocks, progresses there never differ by more than staleness + 1 |
| `ClosedLoopReads.ChannelsAreFifo` | worker/kv_client_table.hpp:46-107 | in every run what a worker has called on a server is what was delivered of it, in order, followed by what is in the channel |
| `ClosedLoopReads.StorageIsDelivered` | server/consistency/ssp_model.cpp:32-35 | in every run from empty storage a server holds for every key the sum of the Adds delivered to it, and its progress of a worker is the number of that worker's delivered Clocks |
| `ClosedLoopReads.ReadsContainEarlierCalls` | server/consistency/ssp_model.cpp:37-50 | a reply to a worker at progress c carries the sums of the delivered Adds, among them every Add that any worker ever calls on that server before its (c - staleness)-th Clock |
| `ClosedLoopReads.ReplyFindsOwnClock` | worker/kv_client_table.hpp:83-112 | that c is the number of Clocks the recipient has called itself |
| `Partitioning.FirstRange` | base/range_partition_manager.hpp:21-30 | the first range that contains the key, or the number of ranges if none does |
| `Partitioning.GetServerIdForKey` | base/range_partition_manager.hpp:21-30 | the search loop finds the server of the first containing range |
| `Partitioning.ServerFor` | base/hash_partition_manager.hpp:26 | for hashing the server at position key modulo their number, for ranges that of the first range containing the key |
| `Partitioning.SameServerIffCongruent` | base/hash_partition_manager.hpp:22-59 | with distinct server ids two keys share a server iff they are congruent modulo the number of servers, and every server owns keys |
| `Partitioning.RouterOwns` | base/range_partition_manager.hpp:21-30 | the routing that the slices follow sends every covered key to the server that owns it |
| `Partitioning.SliceKeys` | base/hash_partition_manager.hpp:22-37 | every owner once, with exactly its keys, in request order, duplicates included, and every key at the server that owns it; both managers |
| `Partitioning.SliceKVs` | base/range_partition_manager.hpp:47-63 | every owner once, with exactly its keys and their values, and every key at the server that owns it; both managers |
| `ClientTable.KVClientTable.Clock` | worker/kv_client_table.hpp:46-56 | one Clock to every server, in order, nothing else |
| `ClientTable.KVClientTable.Add` | worker/kv_client_table.hpp:68-82 | one Add message per slice, addressed to the slice's server |
| `ClientTable.KVClientTable.SendGet` | worker/kv_client_table.hpp:83-107 | one Get message per slice, and the number of replies to wait for is the number of slices |
| `ClientTable.CollectReplies` | worker/kv_client_table.hpp:86-111 | the cache filled in arrival order, read once per requested key |
| `ClientTable.LastReplyWins` | worker/kv_client_table.hpp:87-93 | the cache holds for a key what the last reply that lists it says |
| `ClientTable.SlicesAddUp` | worker/kv_client_table.hpp:68-82 | the slices of one Add together add to each key, at its server, what the whole Add would |
| `ClientTable.ShardsHoldOneMap` | worker/kv_client_table.hpp:68-82 | after any Adds, slices delivered in any order, each covered key has at its server the value of one unsharded map |
| `ClientTable.GetReadsOneMap` | worker/kv_client_table.hpp:83-112 | a Get returns one value per key in request order, duplicates included, whatever the order of the replies |
| `ClientTable.ShardedTableRefinesOneMap` | worker/kv_client_table.hpp:68-112 | any Adds followed by a Get read as from one key-to-sum map, for hash slicing and for ranges that cover the keys |
| `AppBlocker.ReturnsOnlyWhenAllHandled` | worker/app_blocker.hpp:29-56 | in every interleaving, when a wait has returned the handler has run once per expected response and no call is pending or in progress |
| `AppBlocker.SleeperIsIncomplete` | worker/app_blocker.hpp:33-56 | with one helper per application thread no thread sleeps with a complete count |
| `AppBlocker.TestDecides` | worker/app_blocker.hpp:33-38 | in every run a thread that tests with a complete count returns, all its replies handled; with an incomplete one it sleeps |
| `AppBlocker.ReturnsAtNextTest` | worker/app_blocker.hpp:33-38 | in every one-helper run, once a thread's count is complete its next test, however much later, ends the wait |
| `AppBlocker.WaitIsNeverStuck` | worker/app_blocker.hpp:29-56 | a thread inside a request always has an enabled step that lowers the work its helper has left, or its own test |
| `AppBlocker.LastReplyWakesAll` | worker/app_blocker.hpp:49-55 | a reply that took itself for the last leaves nobody asleep |
| `AppBlocker.TwoHelpersLoseWakeUp` | worker/app_blocker.hpp:39-56 | a run with at most two replies in progress at any time that ends with a sleeper whose count is complete and whom nobody will wake |
| `AppBlocker.OneHelperIsExact` | worker/app_blocker.hpp:33-56 | no run with at most H replies of a thread in progress at once loses a wake-up if and only if H is at most 1 |
| `ReplyRouting.RoutingGivesOneHelper` | worker/worker_helper_thread.cpp:9-20 | when replies go to the helper that a worker-to-helper table names and a helper runs one AddResponse at a time, every thread is served by one helper |
| `ReplyRouting.BusyIffInProgress` | worker/worker_helper_thread.cpp:9-20 | in every routed run a helper is busy iff one of its threads has a reply in progress, so it becomes free again |
| `ReplyRouting.RoutedWaitReturns` | worker/app_blocker.hpp:33-38 | in every routed run a complete wait ends at the thread's next test |
| `ReplyRouting.AllocatedWorkersCanReturn` | driver/engine.cpp:105-120 | with the allocator's table a waiting live worker always has a step, open to its own helper or to itself, that brings it nearer to returning |
| `ReplyRouting.AllocatedWorkersAreWoken` | driver/engine.cpp:105-120 | with the table the id allocator has built after any allocations and deallocations, no waiting worker sleeps through the completion of its count, and a live worker's helper serves nobody else |
| `IdMapping.WorkersHaveTheirOwnHelper` | driver/simple_id_mapper.cpp:44-90 | after Init and any allocations and deallocations no two workers share a helper, exactly the live workers have one, on their own node |
| `IdMapping.KindsAreDisjoint` | driver/simple_id_mapper.cpp:15-42 | server, helper and worker ids never meet, and each leads back to its node by division |
| `IdMapping.IdsInNumbers` | driver/simple_id_mapper.hpp:90-97 | servers from 1000 n, 50 helpers from 1000 n + 50, workers from 1000 n + 100 to 1000 n + 999, and the node of an id is the id divided by 1000 |
| `IdMapping.InitAnyState` | driver/simple_id_mapper.cpp:23-41 | on any state Init lays out the named nodes and empties their workers, and leaves other nodes and the table of helpers alone |
| `IdMapping.AllocationSucceedsIffRoom` | driver/simple_id_mapper.cpp:44-75 | over every run allocation on a known node succeeds if and only if it has fewer than 50 live workers, by pigeonhole; otherwise the result is undefined, never -1 |
| `IdMapping.UnknownNodeIsUndefined` | driver/simple_id_mapper.cpp:44-75 | allocation on a node unknown to Init is always undefined |
| `IdMapping.FreeHelperIffRoom` | driver/simple_id_mapper.cpp:63-75 | a known node has at most 50 live workers, and a free helper exactly when fewer |
| `IdMapping.DeallocateUndoesAllocate` | driver/simple_id_mapper.cpp:84-90 | deallocating what was just allocated restores who is alive and who serves whom |
| `IdMapping.SimpleIdMapper.GetNodeIdForThread` | driver/simple_id_mapper.cpp:15-17 | the node whose id block contains the thread |
| `IdMapping.SimpleIdMapper.Init` | driver/simple_id_mapper.cpp:19-42 | fails and changes nothing unless the count is in 1..50; otherwise lays out every node |
| `IdMapping.SimpleIdMapper.AllocateHelperForWorker` | driver/simple_id_mapper.cpp:63-75 | records the first helper of the node that serves nobody, or the result is undefined |
| `IdMapping.SimpleIdMapper.AllocateWorkerThread` | driver/simple_id_mapper.cpp:44-61 | the loop's outcome and new state, all three outcomes |
| `IdMapping.SimpleIdMapper.DeallocateWorkerThread` | driver/simple_id_mapper.cpp:84-90 | removes a live worker and its helper entry, otherwise changes nobody |
| `Barrier.CountBound` | comm/mailbox.cpp:132-139 | the counter is at most 2N - 1, and below N outside the barrier |
| `Barrier.LeavingIsSafe` | comm/mailbox.cpp:262-274 | a node whose predicate holds in its k-th barrier knows that all have entered theirs, by counting |
| `Barrier.StepInv` | comm/mailbox.cpp:132-139 | entering, arriving, testing and waking keep the invariant, in any order |
| `Barrier.NobodyLeavesEarly` | comm/mailbox.cpp:262-274 | for every N and every delivery order nobody leaves its k-th barrier before all have entered theirs |
| `Barrier.NoLostWakeUp` | comm/mailbox.cpp:132-139 | the exact test for N fires once per barrier, and no node sleeps with its predicate true |
| `Barrier.SleepersWaitForLaggards` | comm/mailbox.cpp:262-274 | with nothing in flight a sleeper waits for a node that has entered fewer barriers |
| `Barrier.CheckDecides` | comm/mailbox.cpp:270-273 | in every run a node that tests with count >= N leaves and takes N off the counter, with fewer it sleeps |
| `Barrier.EverybodyReturns` | comm/mailbox.cpp:262-274 | from any reachable state with nothing in flight and k entries each, any continuation in which the nodes inside test once ends with everybody outside and k barriers left |
| `Barrier.BarrierIsNeverStuck` | comm/mailbox.cpp:262-274 | as long as all have entered equally often and one is inside, a message can arrive or it can test |
| `BlockAssigner.HDFSBlockAssigner.HandleBlockRequest` | io/hdfs_assigner.cpp:68-88 | one request is one step of the specification, local blocks preferred |
| `BlockAssigner.HDFSBlockAssigner.GiveAnswer` | io/hdfs_assigner.cpp:151-213 | the same with the worker count already raised; browsing, choice, erasure and refusal |
| `BlockAssigner.FindUnfinishedHost` | io/hdfs_assigner.cpp:176-184 | finds a host with a block if and only if there is one |
| `BlockAssigner.EraseReplicas` | io/hdfs_assigner.cpp:202-210 | removes the block from every host and nothing else |
| `BlockAssigner.NoBlockIsIssuedTwice` | io/hdfs_assigner.cpp:151-213 | over every run no block is issued twice to a task despite replicas, and only blocks of the url |
| `BlockAssigner.EmptyAnswerMeansAllIssued` | io/hdfs_assigner.cpp:176-195 | an empty answer implies that every block of the url has been issued |
| `BlockAssigner.BrowsedOnce` | io/hdfs_assigner.cpp:155-161 | if the url has a block and every request names a thread, the refusal counter stays below the worker count and a url is never browsed again |
| `BlockAssigner.LocalBlocksFirst` | io/hdfs_assigner.cpp:173-175 | if the asking host stores a block not yet issued, the request is served with a block that the host stores |
| `BlockAssigner.NeverForgottenIff` | io/hdfs_assigner.cpp:155-194 | in every run, whatever thread counts the requests name, a url once browsed stays known if and only if no refusal makes the refusals equal to the threads named so far |
| `BlockAssigner.ThreadsPreventMeeting` | io/hdfs_assigner.cpp:78-81 | if every request names a thread and the url has a block, that never happens |
| `BlockAssigner.ReissueIffMeets` | io/hdfs_assigner.cpp:186-194 | after a refusal every block has been issued, and a next request can receive it again if and only if the refusals then equal the threads |
| `BlockAssigner.BlockIssuedTwice` | io/hdfs_assigner.cpp:151-213 | the run with thread counts 1, 0, 1 and one block, which is issued twice |
| `LineReading.FindNext` | io/line_input_format.hpp:95-102 | the first newline from a position, or npos |
| `LineReading.NextTakes` | io/line_input_format.hpp:43-91 | each step takes exactly the first of the lines still to come, and ends exactly when there are none |
| `LineReading.LineInputFormat.FetchNewBlock` | io/line_input_format.hpp:123-131 | opens the next block from its start, or fails when there is none |
| `LineReading.LineInputFormat.HandleNextBlock` | io/line_input_format.hpp:104-121 | completes the line across any number of fetches and drops the buffer |
| `LineReading.LineInputFormat.LocateLine` | io/line_input_format.hpp:66-77 | the two ends of the next line in the buffer |
| `LineReading.LineInputFormat.FinishLine` | io/line_input_format.hpp:78-90 | the whole line, however far it extends past the block |
| `LineReading.LineInputFormat.CrossBlockEnd` | io/line_input_format.hpp:49-65 | at the end of a block: the line right after it, or a new block at end of file |
| `LineReading.LineInputFormat.Next` | io/line_input_format.hpp:43-91 | the line delivered and the new position are those of the specification |
| `LineDelivery.DeliveredIffBlockOk` | io/line_input_format.hpp:43-91 | a block yields exactly the lines that start in it, complete and in order, however it is fetched, if and only if it is well placed: a newline that is not the last byte of the file in a later block, two bytes or a newline in the first |
| `LineDelivery.ReaderDeliversItsBlocks` | io/line_input_format.hpp:43-131 | one reader delivers the lines of all its blocks, each once |
| `LineDelivery.CutCoversFile` | io/line_input_format.hpp:66-77 | the blocks of a cut file own every line of the file exactly once |
| `LineDelivery.EveryLineExactlyOnce` | io/line_input_format.hpp:43-131 | any files, any cuts, any number of readers, any order: if every block is well placed, together they deliver every line of every file once and complete, and nothing else |
| `LineDelivery.ReadUntilEnd` | lib/svm_loader.hpp:68-80 | calling next until it fails yields exactly the lines still to come, in order |
| `LineDelivery.LoadBlocks` | lib/svm_loader.hpp:68-80 | a new reader yields exactly the lines of the blocks it is assigned |
| `Serialization.RoundTrip` | base/serialization.hpp:114-259 | decoding any encoding of any nested value, in whatever order its maps were written, followed by any bytes, yields the value and leaves exactly those bytes |
| `Serialization.EncodableIffHasType` | base/serialization.hpp:114-259 | the values that can be written as a type are exactly the values of the type |
| `Serialization.LimitsInNumbers` | base/serialization.hpp:131-147 | a list is written and read back iff it has fewer than 2^31 elements, each of its type; a string iff it has fewer than 2^64 bytes |
| `Serialization.SizeInBytes` | base/serialization.hpp:114-129 | a size is 8 bytes, lowest first |
| `Serialization.TableRoundTrip` | base/serialization.hpp:150-193 | the same for ordered and hashed maps, compared as maps: any order of iteration on writing reads back as the same map |
| `Serialization.BitsRoundTrip` | base/serialization.cpp:115-134 | the same for bool vectors |
| `Serialization.EncodingsArePrefixFree` | base/serialization.hpp:114-259 | a stream determines its values: no encoding is the beginning of another of its type |
| `Serialization.RecoversIffLossless` | base/serialization.hpp:120-193 | whatever bytes are read as a type are an encoding of the value read if and only if no bool vector and no map occurs in the type |
| `Serialization.LossyIsMisread` | base/serialization.hpp:160-193 | every other type, however deep the bool vector or map, has a stream that reads as a value it is no encoding of, whatever follows it |
| `Serialization.MisreadBits` | base/serialization.cpp:123-134 | the byte 2 reads as true, which is written as 1 |
| `Serialization.MisreadTable` | base/serialization.hpp:160-171 | a stream with one entry twice reads as a map with one entry |
| `Serialization.FirstEntryWins` | base/serialization.hpp:160-171 | of entries with the same key the first one read counts |
| `BinStreams.BinStream.PushBackBytes` | base/serialization.cpp:73-75 | appends to the unread bytes |
| `BinStreams.BinStream.PopFrontBytes` | base/serialization.cpp:77-82 | takes the first unread bytes if there are enough |
| `BinStreams.BinStream.Write` | base/serialization.hpp:114-259 | by type and with loops, maps in any order, appends an encoding of the value and nothing else |
| `BinStreams.BinStream.Read` | base/serialization.hpp:122-264 | by type and with loops, yields exactly what decoding yields and leaves the rest |
| `BinStreams.BinStream.ReadEntries` | base/serialization.hpp:160-171 | map entries inserted one by one, an existing key left alone |

## Left out

- ZeroMQ sockets, connection and shutdown: channels are reliable FIFO queues or message counts.
- HDFS and `HDFSFileSplitter`: a file is a character sequence, a block a piece of it, and a further fetch some non-empty following piece.
- Thread creation and joining, memory-level races and the start and stop order of `Engine`.
- `SArray` byte reinterpretation: messages carry typed sequences, and the fatal size check of `SubAdd` is a precondition.
- Floating-point addition: values are integers, since the laws about sums need associativity.
- Key and id widths, and thread ids beyond 32 bits; only the signed and unsigned conversions of the SSP test are modelled. Runs in which an int clock would overflow are excluded.
- The learning applications compute gradients from what `Get` returns; they do not take part in the protocol.
- `MLTask`, `Info` and `WorkerSpec` carry configuration, `ServerThread` passes each message to the handler of its flag, `ThreadsafeQueue` is a locked FIFO queue, and the getters of the id mapper return its tables: none of them takes a decision that a result here depends on.
- `AppBlocker` keeps one tracker entry per thread, so requests of one thread to two models at once are not modelled; a thread waits for one `Get` at a time, as `KVClientTable` makes it.
- `ClosedLoop` starts when all workers are registered everywhere; resets during a run are covered for a single server by `SspGuarantees`.
- Iteration order of unordered containers is left open, and so is the choice among eligible blocks.
- `ReplyRouting` does not fix the order of a helper's work queue: a helper takes any reply that has arrived.
- A pointer is written and read as its target; a null pointer, which the code dereferences, is not modelled.
