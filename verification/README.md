# Verified model of the ampd daemon's core protocols

`ampd` is the off-chain daemon of the Axelar amplifier. It follows the blocks of a Cosmos chain, hands
their events to handlers that verify what happened on other chains, and broadcasts the handlers' votes
in batches. This project models the parts of it whose promises range over unbounded runs, and proves
those promises for every run.

Run-time surroundings appear as data. A polled stream is a script of answers, a clock is a number that
never decreases, a chain or a node is a set of replies chosen by the environment, and a concurrent
schedule is a sequence of steps. Every theorem quantifies over all such scripts, replies and schedules;
where a promise needs an assumption about the surroundings, the assumption is a named predicate.

| file | what it models |
|---|---|
| `BlockHeights.dfy` | the block height stream: increasing filter, delay buffer, gap filler (`ampd/src/event_sub/stream.rs`) |
| `EventStream.dfy` | the concurrent, retried fetching of block events and its flattening (same file) |
| `EventProcessor.dfy` | the loop feeding events to a handler, and its cancellation (`ampd/src/event_processor.rs`) |
| `Retry.dfy` | retries and transaction confirmation (`ampd/src/asyncutil/future.rs`, `ampd/src/broadcast/confirmer.rs`) |
| `MsgQueue.dfy` | the gas-capped batching queue (`ampd/src/broadcast/msg_queue.rs`) |
| `BroadcasterTask.dfy` | the life of an enqueued message up to its callback (`ampd/src/broadcast/mod.rs`) |
| `Broadcaster.dfy` | the account sequence shared by all broadcaster clones (`ampd/src/broadcast/broadcaster.rs`) |
| `EvmVoting.dfy` | fetching, verifying and voting for EVM polls (`ampd/src/handlers/evm_verify_event.rs`, `ampd/src/evm/`) |
| `ProtobufDump.dfy` | the wire-format dump of a message (`ampd/src/broadcast/mod.rs`) |
| `TaskGroup.dfy` | tasks that shut down together (`ampd/src/asyncutil/task.rs`) |
| `Common.dfy` | options, results, 64-bit arithmetic |

How the pieces are put together:

- Objects whose methods update fields are classes (`StrictlyIncreasing`, `Delayed`, `FillGaps`, `Queue`,
  `MsgQueue`, `AccountSequence`). Their methods are tied to specification functions
  (`GapFilled`, `Push`, `Replay`, `Estimated`, `Sent`), and the promises are proved about those. `RunBlocks`,
  `Subscribe`, `RunQueue`, `RunBroadcaster`, `BroadcastAll` and `RunGroup` drive the code through any script
  or schedule; they promise what it leads to, including that it gets everywhere it should.
- Interleavings (`EventStream`, `Broadcaster`, `BroadcasterTask`, `TaskGroup`) are state machines: `Run` applies any
  sequence of steps and skips the ones that are not enabled, so a statement about `Run(steps, ...)` for
  all `steps` is a statement about every reachable state.

Where promise and code differ:

- `update_latest` treats a first height that was never handed out as handed out. `UpdateLatestKeepsOwed`
  says exactly when a height is lost that way, and `FillGaps.TakeResult` shows that the gap filler only
  ever calls it with nothing left to hand out.
- The queue's batch count is not always the least possible. What decides is the gas-free tail of the accepted
  messages and the queue it meets: an empty queue (the batch before was released exactly full) leaves the
  tail without a batch to join, and a queue that holds exactly the cap takes in one message of it.
  `BatchCountMinimal` gives the exact condition; `ZeroGasCostsABatch` and `FullQueueTakesOne` are inputs on
  the wrong side of it.
- The broadcaster's documentation promises that the next transaction always carries the correct sequence.
  The code increments on any acknowledged broadcast, whether or not the transaction was accepted, and keeps
  the old value when the account query fails. `SelfStabilises` proves that every transaction carries the
  expected sequence nevertheless, as long as broadcasts do not overlap. For overlapping broadcasts
  `LostBroadcastMisleads` is a run in which one misses, `OverlappingBroadcasts` says for every run exactly
  when that happens, and `SettledHasNoLead` when it cannot.
- The finality filter takes the largest representable block number for a receipt without a block, so such a
  receipt passes if a node reports that number as finalized (`FinalMeansMined`).
- After an overflow flush the queue keeps the old deadline. That shortens waits only (`PushKeepsTimes`).

## Model

| member | source | states |
|---|---|---|
| BlockHeights.MaxHeightIsMaximum | ampd/src/event_sub/stream.rs:200-209 | the filter's remembered height is the maximum of all successful results, and exists exactly if one succeeded |
| BlockHeights.FilterIsStrict | ampd/src/event_sub/stream.rs:172-179 | what passes the filter ascends strictly, no failure is dropped, and the range of heights it spans is unchanged |
| BlockHeights.FillingAbsorbsFiltering | ampd/src/event_sub/stream.rs:44-50 | filling gaps after filtering outputs the same as filling gaps alone |
| BlockHeights.GapFilledIsContiguous | ampd/src/event_sub/stream.rs:27-34 | the heights delivered are first, first + 1, ..., maximum: none omitted, none twice, in order |
| BlockHeights.GapFilledKeepsFailures | ampd/src/event_sub/stream.rs:516-519 | the failures delivered are exactly the failed queries, in order |
| BlockHeights.FailureInPlace | ampd/src/event_sub/stream.rs:516-519 | a failed query is delivered right after the output of everything before it |
| BlockHeights.GapFilledReachesMax | ampd/src/event_sub/stream.rs:32-34 | the highest height delivered is the highest height seen |
| BlockHeights.GapFilledAscends | ampd/src/event_sub/stream.rs:27-34 | no height is delivered twice or after a higher one |
| BlockHeights.StreamPaysOwed | ampd/src/event_sub/stream.rs:457-482 | `stream` hands out the owed heights one per call, in order, and returns nothing exactly when none is owed |
| BlockHeights.UpdateLatestKeepsOwed | ampd/src/event_sub/stream.rs:385-407 | `update_latest` adds exactly the newly revealed heights to what is owed, if and only if it is not called with a larger height while the first one is still to be handed out; `BlocksAvailable` always has streamed below latest |
| BlockHeights.StrictlyIncreasing.PollNext | ampd/src/event_sub/stream.rs:189-215 | what has left the filter is the increasing part of everything polled; no polled result is lost; the loop ends |
| BlockHeights.Delayed.PollNext | ampd/src/event_sub/stream.rs:47-48 | the one-element buffer passes results on in order and holds at most one; each height released uses up one ended delay, a failure none; it ends exactly when it is empty and the query has ended |
| BlockHeights.FillGaps.StreamNext | ampd/src/event_sub/stream.rs:457-482 | in place, hands out the next owed height or leaves nothing owed; `increment` cannot overflow |
| BlockHeights.FillGaps.TakeResult | ampd/src/event_sub/stream.rs:516-520 | `update_latest` is reached only with nothing owed, in every reachable state |
| BlockHeights.FillGaps.PollNext | ampd/src/event_sub/stream.rs:505-522 | what was emitted is always a prefix of the gap-free output; whenever the stream is pending or closed, everything queried has been delivered except what the delayed height reveals; a poll without a result uses up an answer of the query or the timer unless none is left to wait for, and ends the stream exactly if the query has ended and nothing is held back |
| BlockHeights.RunBlocks | ampd/src/event_sub/stream.rs:36-50 | any number of polls of a fresh pipeline on any script outputs a prefix of the script's gap-free output, and only what the heights whose delay has ended account for; if the timer wakes up for every height, each poll brings the output forward or uses up an answer, so after as many polls as there are answers and heights the output is complete |
| EventStream.Decode | ampd/src/event_sub/stream.rs:144-152 | one item per reported event, at its place: the decoded event or a decoding error naming the block |
| EventStream.EventsInPlace | ampd/src/event_sub/stream.rs:135-158 | position by position: the begin marker, the events of the block's beginning, those of each transaction after the transactions before it, those of the block's end, the end marker, and nothing else |
| EventStream.ConcurrentIsSequential | ampd/src/event_sub/stream.rs:75-89 | under every schedule and window size, output plus the block being flattened equals fetching one block after the other; inputs are delivered in the order read; at most the window size is in flight; each fetch is one retried request |
| EventStream.SchedulesAgree | ampd/src/event_sub/stream.rs:69-74 | the inputs and the node's replies determine the stream: any two runs, with any window sizes and at any moments, put out the same items as far as both have come |
| EventStream.WindowFills | ampd/src/event_sub/stream.rs:75-89 | as many fetches are in flight at once as were read, up to the window size |
| EventStream.DrainedSchedulesAgree | ampd/src/event_sub/stream.rs:69-74 | two runs that have worked off the same inputs have put out the same stream |
| EventStream.OutcomeIsRetried | ampd/src/event_sub/stream.rs:104-118 | a delivered fetch has the outcome `with_retry` has on its attempts |
| EventStream.DeliveredBlocksAreWhole | ampd/src/event_sub/stream.rs:69-74 | at any moment of any run every block fetched and delivered is put out, or about to be, in one piece with all its events at their places |
| EventStream.BlockIsBracketed | ampd/src/event_sub/stream.rs:154-157 | the events of a block are enclosed by its begin and end markers |
| EventStream.OutputIsBracketed | ampd/src/event_sub/stream.rs:64-74 | at no moment of any run is a block boundary out of place: blocks are never interleaved |
| EventStream.BlockBeginsOnce | ampd/src/event_sub/stream.rs:135-158 | the events of a block begin that block and no other, and contain no failed input |
| EventStream.EveryBlockOnceInOrder | ampd/src/event_sub/stream.rs:27-34 | heights and events together, at any moment of any run and whatever fails: the blocks begun and the errors put out correspond one to one, in order, to the first gap-free heights; each height begins its own block or leaves one error in its place |
| EventStream.BlocksBeginInOrder | ampd/src/event_sub/stream.rs:69-74 | no block begins twice or out of order; while every requested block is eventually answered, the blocks begun are first, first + 1, ... without a gap, up to the maximum once everything is worked off |
| EventStream.WorkedOffIsComplete | ampd/src/event_sub/stream.rs:69-74 | once every height was read and everything fetched was put out, every height has left its mark, every fetched block is there whole, and if none was missed the blocks begun are the full range |
| EventStream.NeverStuck | ampd/src/event_sub/stream.rs:86-89 | with a window of at least one fetch, some step is possible until everything is worked off |
| EventStream.StepIsProgress | ampd/src/event_sub/stream.rs:86-89 | every possible step leaves less to do in a well-founded order of heights, attempts, fetches and events |
| EventStream.WorkOff | ampd/src/event_sub/stream.rs:75-89 | whatever the scheduler prefers and the node answers, the subscription terminates on given heights and is then complete |
| EventStream.Subscribe | ampd/src/event_sub/stream.rs:36-89 | `events` over `blocks`, on any script of height answers: the heights are all of the script's once there were enough polls, the state is the one the schedule leads to on them, the stream is bracketed, its blocks and errors stand for the gap-free heights in order, delivered blocks are whole, and it is complete once everything is worked off |
| EventProcessor.ConsumeEvents | ampd/src/event_processor.rs:100-137 | the events before the first stopping item are handled, all and in order, whatever the handler returns; each is retried on its own; the run ends at a stream failure, at a cancelled token seen at a block's beginning or a timeout, and otherwise exactly at the end of the stream |
| EventProcessor.CancelledBetweenBlocks | ampd/src/event_processor.rs:232-239 | a run cancelled at the beginning of a block has handled whole blocks only |
| EventProcessor.CancellationFinishesOpenBlock | ampd/src/event_processor.rs:73-75 | after cancellation at most the open block is finished: every further event is inside it and nothing follows its end |
| EventProcessor.SubscriptionIsBracketed | ampd/src/event_sub/stream.rs:135-158 | whatever `events` puts out under any schedule satisfies the bracketing the two cancellation results rely on |
| Retry.WithRetry | ampd/src/asyncutil/future.rs:6-25 | exactly as many calls as it takes to the first success or the end of the budget (at least one), one sleep fewer, the last outcome returned; ends even for the largest attempt count |
| Retry.RetriedIsUnique | ampd/src/asyncutil/future.rs:6-41 | outcome and number of calls are determined by the attempts |
| Retry.ConfirmTx | ampd/src/broadcast/confirmer.rs:128-154 | succeeds exactly if the first response found within the budget has code 0, and never asks again once a response was found |
| MsgQueue.PushConserves | ampd/src/broadcast/msg_queue.rs:358-404 | one push loses nothing, keeps order and cap, releases no empty batch, and rejects exactly the messages above the cap |
| MsgQueue.Queue.PopAll | ampd/src/broadcast/msg_queue.rs:406-409 | empties the queue and hands over all of it, or nothing if it was empty |
| MsgQueue.Queue.PushOr | ampd/src/broadcast/msg_queue.rs:358-404 | the gas counter is the queued gas and at most the cap; checked 64-bit addition decides as unbounded addition does |
| MsgQueue.GreedyHasShape | ampd/src/broadcast/msg_queue.rs:374-403 | every released batch is non-empty, within the cap, and full or unable to take the message that opened the next one |
| MsgQueue.GreedyPartitions | ampd/src/broadcast/msg_queue.rs:374-403 | the batches, with the final drain, are the accepted messages cut but not reordered |
| MsgQueue.NeighboursExceedCap | ampd/src/broadcast/msg_queue.rs:374-403 | two neighbouring batches together exceed the cap, if and only if the second carries gas |
| MsgQueue.TightStaysAhead | ampd/src/broadcast/msg_queue.rs:374-403 | such batches are never more than those of any other partition within the cap |
| MsgQueue.MinimalIffLastPaid | ampd/src/broadcast/msg_queue.rs:374-403 | the number of batches is minimal among all order-preserving partitions if and only if there is at most one batch or the last one carries gas |
| MsgQueue.BatchCountMinimal | ampd/src/broadcast/msg_queue.rs:200-208 | the same, decided by the messages and the queue before the last of them arrive: minimal if and only if the accepted messages have no gas-free tail, or nothing before it, or the queue the tail meets takes all of it in (an empty queue takes none, one holding exactly the cap takes one message); with cap 0, if and only if at most one message is accepted |
| MsgQueue.LastPaidIsMinimal | ampd/src/broadcast/msg_queue.rs:200-208 | minimal whenever the last accepted message costs gas |
| MsgQueue.PositiveGasIsMinimal | ampd/src/broadcast/msg_queue.rs:200-208 | it is minimal whenever every message costs gas |
| MsgQueue.ZeroGasCostsABatch | ampd/src/broadcast/msg_queue.rs:389-395 | a message of exactly the cap followed by a gas-free one is not batched minimally |
| MsgQueue.FullQueueTakesOne | ampd/src/broadcast/msg_queue.rs:374-403 | after an overflow by a message of exactly the cap, gas-free messages are batched minimally if and only if there is at most one |
| MsgQueue.PushKeepsTimes | ampd/src/broadcast/msg_queue.rs:288-306 | the deadline stays at most the oldest queued message's insertion time plus the duration, also after an overflow flush that keeps the old deadline |
| MsgQueue.DeadlineIsExact | ampd/src/broadcast/msg_queue.rs:288-291 | after any history the deadline is the time of the last arrival at an empty queue plus the duration, told from the history alone |
| MsgQueue.OldestOpened | ampd/src/broadcast/msg_queue.rs:288-306 | unless a message has overflowed the queue since, that arrival is the oldest queued message |
| MsgQueue.ReplayIsSound | ampd/src/broadcast/msg_queue.rs:282-324 | after any history of messages, waits, deadlines and closing: released batches followed by the queue are the accepted messages in order, rejected ones are exactly those above the cap, every batch is non-empty and within the cap, and without deadlines the batches are the greedy ones |
| MsgQueue.ClosedRunIsMinimal | ampd/src/broadcast/msg_queue.rs:308-311 | the same condition on the accepted messages decides minimality for every run that was closed without a deadline firing |
| MsgQueue.WaitIsBounded | ampd/src/broadcast/msg_queue.rs:280-281 | before the deadline every queued message has waited less than the duration, after any history |
| MsgQueue.MsgQueue.Enqueue | ampd/src/broadcast/msg_queue.rs:287-306 | receiving a message performs exactly the corresponding step of the history, restarts the deadline exactly if the queue was empty, refuses exactly what exceeds the cap and releases what that step releases |
| MsgQueue.MsgQueue.Drain | ampd/src/broadcast/msg_queue.rs:308-311 | a closed channel releases all that is queued and leaves the queue empty |
| MsgQueue.MsgQueue.CheckDeadline | ampd/src/broadcast/msg_queue.rs:312-321 | with nothing to receive, the whole queue is released exactly if it is not empty and the duration has passed since a message last arrived at an empty queue; otherwise every wait is below the duration |
| MsgQueue.MsgQueue.PollNext | ampd/src/broadcast/msg_queue.rs:282-324 | every poll reads the channel as long as it is open, follows the history it records and loses no message; no deadline ever fires early, and pending means none is due and all waits are below the duration; after closing, at most one batch comes before a permanent end |
| MsgQueue.RunQueue | ampd/src/broadcast/msg_queue.rs:282-324 | any number of polls of a fresh queue on any script of its channel: batches and queue are the accepted messages in order, refusals the others, and no deadline fired early; with enough polls every message was received, and if the channel closes the batches are all the accepted messages |
| BroadcasterTask.HandleTxRes | ampd/src/broadcast/mod.rs:251-280 | each message of a batch is told the hash and its own index, or the batch's error; a broadcast batch that cannot reach the confirmer fires nothing and ends the task |
| BroadcasterTask.RunTask | ampd/src/broadcast/mod.rs:129-176 | all batches are reported in order up to the first one whose transaction cannot reach the confirmer; failed broadcasts do not stop the task |
| BroadcasterTask.ExactlyOnePlace | ampd/src/broadcast/mod.rs:112-127 | in every run a submitted message is in exactly one of channel, queue, in-flight batch, answered or dropped, so no callback fires twice |
| BroadcasterTask.CallbacksAreExplained | ampd/src/broadcast/mod.rs:265-277 | in every run each callback is the over-cap rejection (exactly for messages above the cap) or the result of a batch holding that message at the reported index |
| BroadcasterTask.CallbacksTellTheTruth | ampd/src/broadcast/mod.rs:265-277 | in every run a callback with a hash and an index comes from a batch included under that hash with the message at that index, one with an error from a batch that failed with it, and a rejection goes to a message above the cap |
| BroadcasterTask.BroadcastInOrder | ampd/src/broadcast/mod.rs:112-127 | in every run finished batches, the batch being broadcast, the queue and the channel are the accepted messages in the order they were handed in |
| BroadcasterTask.EveryoneIsAnswered | ampd/src/broadcast/msg_queue.rs:98-116 | once everything is worked off and the task did not end early, each message was answered exactly once and truthfully |
| BroadcasterTask.RunBroadcaster | ampd/src/broadcast/mod.rs:129-176 | the task on top of the polled queue: the messages told a batch result followed by those not answered are the accepted messages received, the refused ones are the others, and every callback tells its own batch's result and index; a task that did not stop has answered them all once the channel has closed |
| Broadcaster.BroadcastAll | ampd/src/broadcast/broadcaster.rs:198-331 | the code behind the locks, under any schedule of any number of clones: the transactions it hands over are those of the run, so they carry the expected sequence under the assumptions of `SelfStabilises` and of `ClonesAgree` |
| Broadcaster.ClonesAgree | ampd/src/broadcast/broadcaster.rs:34-43 | with a faithful chain, in every interleaving of any number of clones: the cached sequence is the expected one, every transaction carries it, and accepted sequences are consecutive from the initial one |
| Broadcaster.SelfStabilises | ampd/src/broadcast/broadcaster.rs:211-231 | from any cached value, with exact simulations and one broadcast at a time, every transaction carries the expected sequence in every interleaving with other estimations, whatever was acknowledged, refused, reset to or accepted |
| Broadcaster.MismatchIsRepaired | ampd/src/broadcast/broadcaster.rs:211-231 | from any cached value, after any run with exact simulations, an estimation whose second simulation passes leaves the expected sequence cached and its client ready to broadcast |
| Broadcaster.BroadcastSucceeds | ampd/src/broadcast/broadcaster.rs:264-290 | with one broadcast at a time, such a client hands over one transaction, carrying the expected sequence |
| Broadcaster.UsesAreContinuous | ampd/src/broadcast/broadcaster.rs:283-298 | with no assumption at all, every acknowledged broadcast continues the previous one or the last resynchronisation |
| Broadcaster.UsesAreDistinct | ampd/src/broadcast/broadcaster.rs:260-263 | without a resynchronisation in between, acknowledged broadcasts use consecutive sequences, distinct unless the last 64-bit sequence is reached |
| Broadcaster.OffByTheLead | ampd/src/broadcast/broadcaster.rs:271-299 | with exact simulations, any number of clients between their locks, arbitrary replies and a moving chain: the cached sequence is off by exactly the broadcasts acknowledged but not accepted, less those accepted but not acknowledged, less the chain's own moves, since the last resynchronisation |
| Broadcaster.OverlappingBroadcasts | ampd/src/broadcast/broadcaster.rs:39-43 | in all those runs the next transaction carries the expected sequence if and only if that lead is zero |
| Broadcaster.SettledHasNoLead | ampd/src/broadcast/broadcaster.rs:39-43 | the lead is zero if since the last resynchronisation every reply was truthful and the chain did not move by itself |
| Broadcaster.LostBroadcastMisleads | ampd/src/broadcast/broadcaster.rs:283-290 | a run from a fresh broadcaster in which an acknowledged but lost broadcast makes an overlapping one miss, and the same run put right by one estimation in between |
| EvmVoting.PairsEqualIsEqual | ampd/src/evm/verifier.rs:199-204 | equal length plus pairwise equality of the zipped topics is equality |
| EvmVoting.VerifyEventsCertifies | ampd/src/evm/verifier.rs:135-206 | the vote is positive exactly if the receipt's status is not 0, it has the event's hash, holds every expected event in full at its index, and expected details match; failed exactly if the status is 0; a transaction is irrelevant when no details are expected |
| EvmVoting.FinalMeansMined | ampd/src/handlers/evm_verify_event.rs:89-102 | a receipt passes the finality filter if and only if it is in a finalized block, or the finalized block number is the largest representable one |
| EvmVoting.ConfirmationDepth | ampd/src/evm/finalizer.rs:102-114 | over all 64-bit values: which receipts pass the finality filter, that the bound is monotone, never above subtract-then-add-one, and exactly when below it |
| EvmVoting.CollectHashes | ampd/src/handlers/evm_verify_event.rs:49-60 | each transaction of the poll is asked for once, its details exactly if some event needs them |
| EvmVoting.CollectTransactions | ampd/src/handlers/evm_verify_event.rs:70-87 | transactions are stored under their own hash and were returned by the node; with honest replies exactly the found ones |
| EvmVoting.CollectReceipts | ampd/src/handlers/evm_verify_event.rs:89-102 | only final receipts are kept, under their own hash, with the transaction of that hash; with honest replies all of them |
| EvmVoting.FetchFinalizedTxReceipts | ampd/src/handlers/evm_verify_event.rs:37-103 | without trust, everything kept is traceable to a reply for this poll; with honest replies it is exactly the final receipts and needed transactions; fails exactly if the finalizer does |
| EvmVoting.VerifyAndVoteOnEvents | ampd/src/handlers/evm_verify_event.rs:186-215 | one vote per event, at its position |
| EvmVoting.BatchEqualsNaive | ampd/src/handlers/evm_verify_event.rs:186-215 | deduplicated batch voting gives each event the vote of checking it alone with its own lookups |
| EvmVoting.NaiveVoteReflects | ampd/src/evm/verifier.rs:135-206 | with honest replies the vote is failed exactly for a final receipt with status 0, and succeeded exactly for a final receipt with another status that shows the events and details as expected |
| EvmVoting.PositiveVoteIsBacked | ampd/src/handlers/evm_verify_event.rs:186-215 | without trusting the node: a positive vote means it returned a final, matching receipt and, if details were expected, a matching transaction with the event's hash |
| EvmVoting.PositiveVoteIsDeep | ampd/src/evm/finalizer.rs:102-114 | with a confirmation height, a positive vote means the node returned a certifying receipt in a block with that many confirmations, or in the genesis block |
| EvmVoting.Handle | ampd/src/handlers/evm_verify_event.rs:301-376 | a vote is cast exactly on polls started by the handler's contract for its chain and verifier that have not expired, when its finalizer answers; an unreadable event of the contract is an error, every other event is ignored; the message names verifier, contract and poll; positive votes are backed by receipts that are deep enough or finalized, and with honest replies failed and positive votes are exactly those the receipts call for |
| ProtobufDump.LimitIs64Bits | ampd/src/broadcast/mod.rs:294 | the ten-byte varint decoder admits exactly 64-bit values |
| ProtobufDump.VarintRoundTrip | ampd/src/broadcast/mod.rs:294-302 | decoding undoes encoding for every 64-bit value, whatever follows |
| ProtobufDump.FieldRoundTrip | ampd/src/broadcast/mod.rs:291-342 | reading an encoded field reports it and leaves exactly the bytes behind it |
| ProtobufDump.KeyIsExact | ampd/src/broadcast/mod.rs:291 | an encoded key is accepted exactly if it has 32 bits, a field number of at least 1 and one of the six wire types |
| ProtobufDump.MalformedField | ampd/src/broadcast/mod.rs:294-340 | which error ends the dump for each way a field can be malformed |
| ProtobufDump.DumpIsBounded | ampd/src/broadcast/mod.rs:290-351 | on arbitrary bytes at most twenty entries, and an error only as the last one |
| ProtobufDump.DeserializeProtobuf | ampd/src/broadcast/mod.rs:283-354 | the loop computes the dump and terminates on any bytes |
| ProtobufDump.DumpShowsFields | ampd/src/broadcast/mod.rs:283-354 | dumping any encoded list of fields shows them in order, up to the first twenty |
| ProtobufDump.DumpEndsAtBadKey | ampd/src/broadcast/mod.rs:343-349 | fewer than twenty encoded fields followed by bytes that are no key: the fields are shown, then an error naming its position |
| TaskGroup.EveryTaskSeesShutdown | ampd/src/asyncutil/task.rs:72-93 | in every schedule, whenever a task runs, it sees its token cancelled if and only if it cancelled it itself, the group was cancelled from outside, or some task has been joined |
| TaskGroup.NoTaskIsLost | ampd/src/asyncutil/task.rs:72-93 | in every schedule each started task is running, ended or joined, as often as it was started |
| TaskGroup.ReportsTheStarted | ampd/src/asyncutil/task.rs:64-70 | when the group returns, every started task was joined once and the errors reported are those of the started tasks that fail or panic, whatever the schedule |
| TaskGroup.ShutdownAdvances | ampd/src/asyncutil/task.rs:95-105 | ends and joins bring the group closer to its return, nothing takes it further away, and until it returns one of them is possible |
| TaskGroup.RunGroup | ampd/src/asyncutil/task.rs:64-143 | under any schedule `run` returns exactly when every started task has ended and been joined, with an error exactly if one of them fails or panics and one entry for each of those |
| TaskGroup.FailuresCount | ampd/src/asyncutil/task.rs:120-138 | each failed or panicked task is reported exactly as often as it ended, no other task is |
| TaskGroup.OrderIsIrrelevant | ampd/src/asyncutil/task.rs:64-70 | completion order changes neither whether there is an error nor which errors are reported |

## Left out

- Floating-point fee arithmetic and the coin type: an estimation either yields a fee or fails.
- Signing, transaction encoding and the gRPC, JSON-RPC and Tendermint clients: their replies are inputs.
- The text of a sequence mismatch: a simulation error either names an expected sequence or does not.
- Wakers, pinning and timer granularity: a poll is one atomic step and a timer is ready exactly when its time has come.
- The subscriber filter and broadcast channel between publisher and processors: the processor's stream is any well-bracketed one.
- The confirmer's loop over many hashes and all logging and metrics: they do not feed back into the results.
- JSON decoding of poll events: an event either decodes or is absent.
- Which order concurrently enqueued messages of one handler result reach the channel: any order is covered by the message life cycle.
- The verifiers of other chains, message and verifier-set polls, configuration, commands and the gRPC server: plumbing or simpler siblings of what is modelled.
- EvmVoting.BatchEqualsNaive: needs a node that answers about the hash it was asked about; for other nodes only PositiveVoteIsBacked holds, because answers under foreign hashes can displace each other.
