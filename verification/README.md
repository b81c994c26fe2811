# Verified model of the Octus bridge relay

The relay keeps state that must agree with something simpler: indexes of account code, caches, queues,
schedulers and small protocols between tasks that share a lock. This project states the simpler thing in Dafny
and proves that the relay's step by step code agrees with it, for every input, every run and every interleaving.

| file | models |
|---|---|
| `Words.dfy`, `Wrappers.dfy`, `Oneshot.dfy` | 64-bit words and their bits, byte strings and their order; optional values; oneshot channels |
| `Shards.dfy`, `VirtualShards.dfy` | shard identifiers as tagged words, three encodings of membership, splitting |
| `CodeHashIndex.dfy`, `Storage.dfy` | the primary and secondary code hash index, incremental updates, wiping, rebuilding, the startup scan |
| `ShardCache.dfy` | the cache of the latest shard states across splits and merges |
| `MessagesQueue.dfy`, `QueueInterleavings.dfy` | the queue of pending external messages, call by call and step by step |
| `Transactions.dfy`, `TonSubscriber.dfy`, `Delivery.dfy` | the handling of shard blocks, and delivery tasks against an arbitrary chain |
| `EthSubscriber.dfy` | EVM block windows and the confirmation of events |
| `SolSubscriber.dfy` | the polling of Solana proposals |
| `Elections.dfy` | the elections loop and the balance loop, and their notifications |
| `PendingEvents.dfy`, `Configurations.dfy` | pending bridge events and event configurations |
| `MemoryCache.dfy`, `Retry.dfy` | the expiring cache, and the number of retries of a back-off |

`dafny verify dfyconfig.toml` checks everything.

## How to read it

Objects whose methods change them are classes; each method is proved against a function on values (`Apply`, `Next`,
`Scanned`, `Resolved`, `UpdatedIndex`, ...), and the properties of whole runs are lemmas about these functions.
Collections that the relay iterates in hash order are iterated in an arbitrary order. A oneshot channel is a position
in a sequence of channels. Waiting for the network is an argument that holds the answer.

Where tasks overlap, the model is a state machine whose steps are the atomic accesses (`QueueInterleavings`,
`PendingEvents`) or the sections under a lock (`Delivery`, `Elections`). `Delivery` uses whole queue operations, which
`QueueInterleavings.RunRefines` justifies.

### What the code does where its promises fall short

- The confirmation windows of EVM blocks are planned with a 64-bit sum that can wrap around; the last processed block
  never decreases exactly when it does not (`EthSubscriber.PlanForwardExactly`, with a witness in `PlanCanRunBackward`).
- The next poll of a Solana proposal is a 64-bit sum with a configured interval; it lies in the future exactly when it
  does not wrap around (`SolSubscriber.PollForwardExactly`, with a witness in `PollCanRepeat`).
- The task that joins elections takes its cancelling future outside the lock and can miss the end of its own elections
  (`Elections.OwnEndCanBeMissed`, with the exact condition in `OwnEndMissedExactly`).
- The staking contract is read before its events are subscribed to. An event in between leaves a loop waiting for
  something past exactly when it changes the phase, the timings of a phase that is not finished, or lowers the deposit
  (`Elections.NothingLostExactly`).
- The number of retries is off by more than promised for caps close to the start delay, and zero for caps not above it
  (`Retry.FillsTheTimeExactly`); the configurations in use are far from there.
- A comment wants the startup scan to include its upper bound; the code excludes one key per code hash, that of an
  account and workchain of all 0xff (`Storage.PersistentStorage.IterateEvents`).
- A cached item whose creation time and duration sum past 64 bits expires at once (`MemoryCache.ValidExactly`, with a
  witness in `LongestNeverValid`).

### Assumptions

- Account keys are distinct within a block and an account's transactions come in order; the code of an account that
  stays active changes only with special actions (`CodeHashIndex.IsBlock`, `Step`). What a full state says of a shard
  are accounts of that shard (`IsComplete`).
- Both halves of a split are observed, each first by a block after the split, before either splits or merges
  (`ShardCache.Legal`).
- Block times do not decrease along a shard and its parts, blocks are handled in that order, a message is accepted at
  most once and not in a block later than its expiry, only after it was broadcast, and every signing yields a new
  message unless the same one is still pending (`Delivery.Legal`, `Delivery.Enabled`).
- Events of the staking contract are handled in order, and a state that comes with an event is at least as new as the
  event (`Elections.IsHistory`, `Elections.Enabled`). The balance is the one read or last announced; a deposit before
  the subscription is not part of the model.
- Solana polling times and the configured interval stay below the greatest 64-bit number (`SolSubscriber.Sane`).
- Clocks of the expiring cache do not run backward. A notifier wakes every future created before the call.
- Cells decode, as do the states and blocks taken from them. There is one workchain besides the masterchain wherever
  membership is asked without one.

## Model

| member | source | states |
|---|---|---|
| `Shards.AccountPrefix` | src/utils/shard_utils.rs:85-104 | the byte loop and the shifted remainder compute the leading `len` bits of the account's first 64, zeros below |
| `Shards.LeadingPartBits` | src/utils/shard_utils.rs:85-104 | bit for bit: the prefix word is the first `len` bits of the account followed by zeros, for every length up to 64 |
| `Shards.ContainsAccount` | src/utils/shard_utils.rs:73-83 | the shifted compare, with the full shard apart, decides exactly whether the shard's path is a prefix of the account's bits |
| `Shards.ExtendAccountPrefix` | src/storage/mod.rs:642-651 | filling the buffer in place gives the bound of the shard's accounts |
| `Shards.AccountBoundBits` | src/storage/mod.rs:642-651 | the two bounds are the path followed by zeros, or by ones, to 256 bits |
| `Shards.KeyRangeIsMembership` | src/storage/mod.rs:533-557 | for every shard and account: lying between the bounds in byte order is the same as being in the shard |
| `Shards.MaskTestIsMembership` | src/storage/mod.rs:574-593 | for every shard and account: the xor and mask test of the leading big-endian word is the same as being in the shard |
| `Shards.HalvesPartition` | src/storage/mod.rs:664-682 | splitting moves the tag down: every account of a shard is in exactly one half, and no other account in either |
| `Shards.DisjointAccounts` | src/utils/shard_utils.rs:73-83 | shards whose paths do not extend each other share no account |
| `VirtualShards.SplitShard` | src/storage/mod.rs:664-682 | the recursion gives each leaf exactly its accounts, and fails exactly when a shard on the way cannot be split |
| `VirtualShards.LeavesExactly` | src/storage/mod.rs:664-682 | the leaves are exactly the shards that many bits below the parent |
| `VirtualShards.LeavesCount` | src/storage/mod.rs:664-682 | a split to depth d has 2^d leaves |
| `VirtualShards.LeavesDisjoint` | src/storage/mod.rs:664-682 | the leaves are pairwise apart |
| `VirtualShards.LeavesPartition` | src/storage/mod.rs:664-682 | the leaves cover the parent and nothing else, each account in one leaf |
| `VirtualShards.SplitUnion` | src/storage/mod.rs:664-682 | the accounts of all leaves together are the input, each with its own state |
| `VirtualShards.FindAccount` | src/utils/shard_utils.rs:43-57 | finds the account in a shard that contains it, whatever the order of the shards; fails exactly if none does |
| `VirtualShards.SplitFinds` | src/utils/shard_utils.rs:43-57 | a lookup in a split shard finds what the whole shard holds |
| `CodeHashIndex.DecideIsSound` | src/storage/mod.rs:413-434 | if an account that stays active changes its code only with a number of special actions above zero, the decision to store, remove or keep the code hash is right |
| `CodeHashIndex.MarksExactly` | src/storage/mod.rs:388-408 | the marks in terms of the first and last status and of each transaction's special actions and original status |
| `CodeHashIndex.WorkchainsApart` | src/storage/mod.rs:231-274 | workchains from -128 to 127, and no others, have a byte of their own |
| `CodeHashIndex.UpdateKeepsExact` | src/storage/mod.rs:352-447 | a block leaves both indexes exact wherever the states before it were known, whatever else of its shard is not |
| `CodeHashIndex.ResetIsExact` | src/storage/mod.rs:229-350 | a rebuilt shard is exact, and what was exact elsewhere stays so |
| `CodeHashIndex.WipeIsExact` | src/storage/mod.rs:229-350 | when the rebuilding fails after the wipe, everything outside the shard is still exact |
| `CodeHashIndex.ExactIsUnique` | src/storage/mod.rs:229-528 | incremental equals rebuilt: two exact indexes agree on every known address and key |
| `CodeHashIndex.RunIsExact` | src/storage/mod.rs:229-528 | over every run of full states and blocks, also on shards that are only partly known, the indexes hold exactly the current code of every current account |
| `CodeHashIndex.RunKeepsInverse` | src/storage/mod.rs:229-602 | over every run, with no condition on the blocks, the primary key set is exactly the inverse of the secondary index |
| `CodeHashIndex.WithoutShardEntries` | src/storage/mod.rs:530-602 | wiping removes exactly the shard's well-formed entries from both indexes and keeps them inverse to each other |
| `CodeHashIndex.KeyRangeExact` | src/storage/mod.rs:533-557 | the 33-byte key range, with its workchain byte, holds exactly the addresses of the shard |
| `Storage.PersistentStorage.ReadTransactions` | src/storage/mod.rs:378-411 | the loop over the transactions computes the marks `was active`, `is active`, `has special actions` |
| `Storage.PersistentStorage.UpdateCodeHash` | src/storage/mod.rs:449-528 | the batch grows by operations that, written after any operations on other accounts, replace the account's old code by its new one |
| `Storage.PersistentStorage.Update` | src/storage/mod.rs:352-447 | one batch, read from the database before it is written, has the effect of all account updates |
| `Storage.PersistentStorage.RemoveCodeHashes` | src/storage/mod.rs:530-602 | range delete, end point and snapshot scan together wipe exactly the shard |
| `Storage.PersistentStorage.ResetAccounts` | src/storage/mod.rs:229-350 | wipes and rebuilds through virtual shards; on a shard that cannot be split only the wipe is left |
| `Storage.PersistentStorage.IterateEvents` | src/engine/bridge/mod.rs:2178-2214 | visits the keys with the hash in order, each once, but for the one of all 0xff; ends with an error exactly at the first whose account is not cached |
| `Storage.ScanFindsHolders` | src/engine/bridge/mod.rs:2178-2214 | on an exact index a scan that does not fail lists precisely the current accounts that hold the code |
| `ShardCache.RuntimeStorage.UpdateContractStates` | src/storage/mod.rs:26-81 | the cache after a block, with the obsolete parent or halves removed; fails exactly on a shard too deep to split |
| `ShardCache.RuntimeStorage.GetContractState` | src/storage/mod.rs:83-96 | the state in some cached shard that contains the account; none exactly if no shard does |
| `ShardCache.StepKeepsCoverage` | src/storage/mod.rs:26-81 | no block of the chain uncovers an account |
| `ShardCache.RunDisjoint` | src/storage/mod.rs:26-96 | over every run, while no split is half observed the cached shards are pairwise apart, so the search order does not matter |
| `ShardCache.RunCurrent` | src/storage/mod.rs:26-96 | over every run, also while splits are half observed, only a stale parent can hide an account's latest state |
| `ShardCache.LookupIsLatest` | src/storage/mod.rs:83-96 | with no split half observed any cached shard with the account holds its latest state |
| `MessagesQueue.PendingMessagesQueue.AddMessage` | src/utils/pending_messages_queue.rs:35-61 | adds a message with a fresh channel unless it is pending; minimum and count stay exact |
| `MessagesQueue.PendingMessagesQueue.DeliverMessage` | src/utils/pending_messages_queue.rs:63-92 | removes a pending message and answers its channel; the minimum is recomputed when it may have gone |
| `MessagesQueue.PendingMessagesQueue.Update` | src/utils/pending_messages_queue.rs:94-119 | with its early return, has the effect of a full scan: exactly the shard's expired messages are dropped and notified |
| `MessagesQueue.ApplyExactly` | src/utils/pending_messages_queue.rs:35-119 | what each operation does to each message: the expiry it is added with, delivered exactly if found, expired exactly if of the shard and past its expiry; and to its channel |
| `MessagesQueue.Retain` | src/utils/pending_messages_queue.rs:102-115 | the scan, in any order, drops and notifies exactly the expired entries and finds the least expiry of the rest |
| `MessagesQueue.Minimum` | src/utils/pending_messages_queue.rs:83-91 | the least expiry of the entries, `u32::MAX` if there are none |
| `MessagesQueue.QuietUpdate` | src/utils/pending_messages_queue.rs:95-98 | an update at or before the least expiry changes nothing |
| `QueueInterleavings.StepRefines` | src/utils/pending_messages_queue.rs:35-119 | each small step of a call, a scan being one step for each entry, changes nothing visible or is one whole operation; the early return of an update is a full scan at its unlocked load |
| `QueueInterleavings.RunRefines` | src/utils/pending_messages_queue.rs:35-119 | every interleaving of calls leaves what some order of whole operations leaves |
| `QueueInterleavings.RestIsExact` | src/utils/pending_messages_queue.rs:35-119 | whenever the lock is free the cached minimum is the true one and the count is the size of the map |
| `QueueInterleavings.RunAnswersOnce` | src/utils/pending_messages_queue.rs:63-119 | in every interleaving, also between two notices of one scan, a sender fires at most once |
| `QueueInterleavings.NoticesAreDue` | src/utils/pending_messages_queue.rs:102-115 | a notice seen in the middle of a scan is one that the whole update gives |
| `TonSubscriber.HandleBlock` | src/engine/ton_subscriber/mod.rs:493-574 | the transactions of an account deliver exactly the external messages of ordinary, not aborted ones |
| `Transactions.ExecutedExactly` | src/engine/ton_subscriber/mod.rs:532-549 | a message counts as executed exactly if an ordinary transaction of its account that was not aborted had it as external input |
| `TonSubscriber.HandleShardBlock` | src/engine/ton_subscriber/mod.rs:285-376 | prunes subscriptions and delivers all messages seen in the block before the block's time expires the rest |
| `TonSubscriber.SeenExactly` | src/engine/ton_subscriber/mod.rs:300-365 | a message of a block is seen exactly if its account is in the shard, somebody alive observes it, and such a transaction of it is in the block |
| `TonSubscriber.KeptExactly` | src/engine/ton_subscriber/mod.rs:301-306 | a subscription stays exactly if somebody listens to the state or observes, with exactly the observers that are alive |
| `TonSubscriber.DeliveriesSettle` | src/engine/ton_subscriber/mod.rs:300-370 | deliveries one by one, in any order and with repetitions, have one result |
| `TonSubscriber.StepsAreHandling` | src/engine/ton_subscriber/mod.rs:285-376 | the steps that the delivery protocol takes for a block, seeing the messages of observed accounts, leave the queue that the handling of the block's transactions leaves |
| `Delivery.StepKeeps` | src/engine/mod.rs:328-369 | every step of tasks, chain and block handling keeps: expired means dead, delivered means accepted, handled means no longer pending |
| `Delivery.ExpiredIsDead` | src/engine/ton_subscriber/mod.rs:372-373 | a message that a block expires has not been accepted by any block |
| `Delivery.DeadForever` | src/engine/mod.rs:328-369 | however the run goes on, a dead message is never accepted |
| `Delivery.AtMostOnce` | src/engine/mod.rs:328-369 | over every interleaving, any two acceptances of attempts of one task are the same one, and of its latest attempt |
| `Delivery.DeliveredIsAccepted` | src/engine/mod.rs:349-362 | a task that ends as delivered had its latest attempt accepted |
| `Delivery.RetryIsSafe` | src/engine/mod.rs:336-348 | when a task may retry or has given up, no attempt so far is accepted, then or ever after |
| `Delivery.RetriesHappen` | src/engine/mod.rs:328-369 | the assumptions leave room for what they are about: a first attempt that expires and a second that is accepted |
| `EthSubscriber.Check` | src/engine/eth_subscriber/mod.rs:801-862 | `Exists` exactly if emitter, topic, index, transaction, block number, block hash and mapped data all agree; otherwise a reason that is so |
| `EthSubscriber.FindLastFinds` | src/engine/eth_subscriber/mod.rs:650-685 | the reverse search finds the last log of the event, or there is none |
| `EthSubscriber.PlanForwardExactly` | src/engine/eth_subscriber/mod.rs:449-469 | the planned window runs forward if and only if the range is not zero and the sum does not wrap around |
| `EthSubscriber.PlanInRange` | src/engine/eth_subscriber/mod.rs:449-469 | without wrap-around the window is never longer than the range and only cut when it would be |
| `EthSubscriber.PlanCanRunBackward` | src/engine/eth_subscriber/mod.rs:458-460 | a head, height and range for which the wrapping sum sends the window backward |
| `EthSubscriber.EthSubscriber.Verify` | src/engine/eth_subscriber/mod.rs:336-384 | registers a request with its target height, replacing one for the same event; failed preliminary checks answer at once |
| `EthSubscriber.EthSubscriber.Update` | src/engine/eth_subscriber/mod.rs:403-617 | one round: nothing without head, logs or news; otherwise marks, answers and advances exactly as specified |
| `EthSubscriber.Mark` | src/engine/eth_subscriber/mod.rs:507-530 | the status of a confirmation is set by the last event of the window with its id |
| `EthSubscriber.StatusIsOfTheLast` | src/engine/eth_subscriber/mod.rs:506-530 | the status after a scan is the verdict on the last log of the event, the old status if there is none |
| `EthSubscriber.StatusComposes` | src/engine/eth_subscriber/mod.rs:506-530 | scanning two windows is scanning their concatenation |
| `EthSubscriber.Retain` | src/engine/eth_subscriber/mod.rs:533-565 | answers every due confirmation that scanning refuted, and collects the others that are due |
| `EthSubscriber.Recheck` | src/engine/eth_subscriber/mod.rs:569-602 | in any order of the results, answers each collected confirmation whose lookup did not fail |
| `EthSubscriber.NextAnswers` | src/engine/eth_subscriber/mod.rs:533-602 | in a step a channel gains an answer only from a round that scanned to its target, and `Exists` only from a confirming receipt |
| `EthSubscriber.RunAnswers` | src/engine/eth_subscriber/mod.rs:403-617 | over every run each answer was given by one round entitled to it |
| `EthSubscriber.AnswerExplained` | src/engine/eth_subscriber/mod.rs:336-617 | over every run from the start: each answer is given by a round since the registration that reached the target; it is what the receipt says, unless a log fetched since the registration refutes the request, and `Exists` only if the receipt confirms it |
| `EthSubscriber.RoundExactly` | src/engine/eth_subscriber/mod.rs:505-602 | what a round does to each confirmation: kept with the verdict on its last log, answered with that refutation, or with what the receipt says and why |
| `EthSubscriber.AnswerStays` | src/engine/eth_subscriber/mod.rs:533-602 | an answered channel is never answered again |
| `EthSubscriber.RunAccounts` | src/engine/eth_subscriber/mod.rs:356-617 | over every run a request is pending exactly while it is the latest for its event and has no answer |
| `EthSubscriber.RunCovers` | src/engine/eth_subscriber/mod.rs:449-614 | over every run with a sane range the windows lead without gap from the first height to the last processed, which never decreases |
| `EthSubscriber.CoversEveryBlock` | src/engine/eth_subscriber/mod.rs:472-478 | every block from the first height to the last lies in a window |
| `EthSubscriber.AnsweredInTime` | src/engine/eth_subscriber/mod.rs:449-614 | however a run mixes registrations of other events, idle and failed rounds, ceil((target - last) / range) effective rounds among them, and at least one, answer a pending confirmation |
| `SolSubscriber.PollKeepsBackoff` | src/engine/sol_subscriber/mod.rs:297-336 | a poll doubles the delay at most once and within the hour, keeps `time + 1 >= created + 300*2^k + k + 1`, and never makes a fifth doubling |
| `SolSubscriber.PollGap` | src/engine/sol_subscriber/mod.rs:317-328 | the next poll is due exactly after no gap in the first 300 seconds, the doubled delay in the first hour, and the configured interval later |
| `SolSubscriber.PollForwardExactly` | src/engine/sol_subscriber/mod.rs:317-328 | a poll puts the next one off exactly if the sum it forms does not wrap around |
| `SolSubscriber.PollCanRepeat` | src/engine/sol_subscriber/mod.rs:326-327 | a configured interval with which an entry is polled twice at one time |
| `SolSubscriber.PollsBackOff` | src/engine/sol_subscriber/mod.rs:297-336 | for any times, in any order, polls of an entry happen at strictly increasing times with at most four doublings |
| `SolSubscriber.DoubledDelays` | src/engine/sol_subscriber/mod.rs:297-336 | the delay after k doublings is 300, 600, 1200, 2400 or 4800 seconds |
| `SolSubscriber.FourDoublings` | src/engine/sol_subscriber/mod.rs:297-336 | four doublings are reached |
| `SolSubscriber.SolSubscriber.VerifyTonSolEvent` | src/engine/sol_subscriber/mod.rs:110-144 | registers a fresh entry, replacing one for the same account |
| `SolSubscriber.SolSubscriber.Update` | src/engine/sol_subscriber/mod.rs:277-422 | expires, polls and resolves exactly the due accounts, in some order, up to the first that aborts; succeeds exactly if none does, and only then refreshes the count |
| `SolSubscriber.Retain` | src/engine/sol_subscriber/mod.rs:297-340 | in any order: expired entries are answered and dropped, due ones moved on and collected |
| `SolSubscriber.NextAnswers` | src/engine/sol_subscriber/mod.rs:297-413 | channels gain at most one answer: an expiry past 14 days, or the comparison with an initialized proposal of an existing round |
| `SolSubscriber.ResolvedExactly` | src/engine/sol_subscriber/mod.rs:343-413 | each due event: answered exactly if reached with an initialized proposal of an existing round, `Exists` exactly if the data agree; dropped if its proposal is malformed or of no round; kept otherwise |
| `SolSubscriber.ReachedExactly` | src/engine/sol_subscriber/mod.rs:343-381 | the update reaches the accounts before the first whose proposal is malformed or of no round |
| `SolSubscriber.RetainedExactly` | src/engine/sol_subscriber/mod.rs:297-340 | after 1209600 seconds an event is answered as expired, before that it is polled and kept |
| `SolSubscriber.ResolvedTakesOut` | src/engine/sol_subscriber/mod.rs:348-413 | an entry leaves the resolution only answered or by aborting the update |
| `SolSubscriber.RunPolls` | src/engine/sol_subscriber/mod.rs:277-422 | through any run, whatever other events it registers, a pending entry goes through exactly the polls of the back-off, at the times when updates look it up |
| `SolSubscriber.EntryBacksOff` | src/engine/sol_subscriber/mod.rs:110-336 | every pending entry of every run has been polled at strictly increasing times since its registration, and its delay is one of the five |
| `Elections.Staking.ProcessStakingEvent` | src/engine/staking/mod.rs:292-374 | state, flags and the one notifier of the event change together; says which tasks are started |
| `Elections.Staking.ProcessDeposit` | src/engine/staking/mod.rs:403-407 | the new balance is stored and announced |
| `Elections.Staking.PrepareElections` | src/engine/staking/mod.rs:425-455 | the futures taken under the lock match the state seen under it |
| `Elections.Staking.CheckBalance` | src/engine/staking/mod.rs:552-585 | no wait exactly when the balance suffices |
| `Elections.ElectionsReadyExactly` | src/engine/staking/mod.rs:425-548 | the loop's wait ends exactly by an awaited event, or a timing change where it listens for one, handled since it was taken |
| `Elections.NothingLost` | src/engine/staking/mod.rs:425-594 | once all that happened is handled, a loop that is not woken waits in the current phase with the current timings, or for a balance that is still too low |
| `Elections.SendsOnlyWithBalance` | src/engine/staking/mod.rs:552-609 | the loop goes on to send only from a check under the lock that the balance suffices |
| `Elections.NothingLostExactly` | src/engine/staking/mod.rs:52-594 | no run loses a wake-up of either loop, if and only if the phase, timings and deposit that were read are still good when the subscription begins |
| `Elections.OwnEndMissedExactly` | src/engine/staking/mod.rs:323-335 | a joining task is stopped by the end of its own elections if and only if that is handled after the task took its future |
| `Elections.OwnEndCanBeMissed` | src/engine/staking/mod.rs:323-335 | a run in which the end is handled before, and is missed |
| `PendingEvents.ReactExactly` | src/engine/bridge/mod.rs:407-645 | which event transactions end the wait for an event and which start the voting, in each of the two kinds of direction, both exactly |
| `PendingEvents.EventsState.Add` | src/engine/bridge/mod.rs:2548-2575 | registers an unknown account once and counts it |
| `PendingEvents.EventsState.Handle` | src/engine/bridge/mod.rs:407-461 | reacts to known events only; removal and counting agree |
| `PendingEvents.EventsState.StartProcessing` | src/engine/bridge/mod.rs:2620-2625 | true exactly for the first caller since the registration |
| `PendingEvents.EventsState.Remove` | src/engine/bridge/mod.rs:2627-2631 | removes and counts down only what was there |
| `PendingEvents.StepKeeps` | src/engine/bridge/mod.rs:2548-2631 | count plus due increments less due decrements is the number of entries, modulo 2^64, after every step |
| `PendingEvents.CountAtRest` | src/engine/bridge/mod.rs:2548-2631 | in every interleaving, with no update of the counter due, it is the number of pending events |
| `PendingEvents.StartedOnce` | src/engine/bridge/mod.rs:2619-2625 | in every interleaving, no registration is started twice |
| `Configurations.Bridge.AddConfiguration` | src/engine/bridge/mod.rs:1819-2146 | each outcome, in the order of the checks, and the state it leaves; counters are the sizes of their maps |
| `Configurations.AddExactly` | src/engine/bridge/mod.rs:1819-2146 | the condition of each outcome in terms of the fields |
| `Configurations.NextExactly` | src/engine/bridge/mod.rs:1819-2542 | what a call does to each configuration and to the registered code, in terms of the fields |
| `Configurations.Bridge.SetEnd` | src/engine/bridge/mod.rs:292-402 | edits a known configuration only |
| `Configurations.Bridge.CollectGarbage` | src/engine/bridge/mod.rs:2485-2542 | drops exactly the expired configurations of three types and lowers each counter by as many |
| `Configurations.Retain` | src/engine/bridge/mod.rs:2485-2505 | in any order, drops exactly the expired and counts them |
| `Configurations.NextRegisters` | src/engine/bridge/mod.rs:2735-2753 | every call keeps each active configuration's code registered with its own type, and no code changes type |
| `Configurations.TypesShareNoCode` | src/engine/bridge/mod.rs:2735-2753 | active configurations of different types never share event code |
| `Configurations.CodeKeepsItsType` | src/engine/bridge/mod.rs:1819-2542 | over every run, code once used by one type is never used by another, even after the first is collected |
| `MemoryCache.MemoryCache.Add` | src/utils/memory_cache.rs:92-102 | appends to the log, whatever is dropped on the way |
| `MemoryCache.MemoryCache.Get` | src/utils/memory_cache.rs:104-112 | finds the latest value added under the key exactly if it is valid at a reading of the clock |
| `MemoryCache.MemoryCache.DropExpired` | src/utils/memory_cache.rs:114-120 | dropping, item by item and reading by reading, cannot be seen by lookups, and leaves nothing that had expired before |
| `MemoryCache.LatestExactly` | src/utils/memory_cache.rs:92-112 | the latest value is the last that was added under the key |
| `MemoryCache.ValidExactly` | src/utils/memory_cache.rs:122-131 | an item is valid for exactly its duration if the sum fits 64 bits, and never if it does not |
| `MemoryCache.LongestNeverValid` | src/utils/memory_cache.rs:122-131 | an item with the longest duration, created at time 1, is never valid |
| `MemoryCache.LookupOnlyExpires` | src/utils/memory_cache.rs:104-131 | until the key is added again a lookup finds the same or nothing |
| `MemoryCache.InterleavedLookup` | src/utils/memory_cache.rs:104-112 | with any accesses of others between its two, a lookup finds the latest value, valid at its drop or added since; nothing only if that has expired |
| `Retry.DelaysFillTheTime` | src/utils/retry.rs:116-135 | with a cap of at least twice the start, any total past saturation is missed by less than (cap + start)/2 + start below and a cap above |
| `Retry.FillsTheTimeExactly` | src/utils/retry.rs:116-135 | for every start and cap: all totals are filled within these bounds if and only if the cap is at least 3/2 of the start, or at least 5/4 and below 13/10 |
| `Retry.DefaultDelaysFillTheTime` | src/utils/retry.rs:44-57 | for the shared configuration and every total, the delays sum to at least total - 88 and less than total + 512 seconds |
| `Retry.Saturation` | src/utils/retry.rs:124-131 | from a cap of twice the start, the logarithm counts the doublings that stay a start below the cap, and the series sums their delays |
| `Retry.LowCap` | src/utils/retry.rs:124-131 | below that the logarithm and the time to saturate are negative |

## Left out

- Shard identifiers: `ton_block` is not part of the repository; its `ShardIdent` (tagged word, split, depth limit of 60) is modelled from its use and the tests in `src/utils/shard_utils.rs:120-190`.
- Values of the primary index: only its key set is read, so it is a set. Write batches are atomic; crashes in between are not modelled.
- The yielding between keys and the time limits of the scans in `src/storage/mod.rs:530-602`, and snapshots across blocks.
- Account states sent to watchers, `wait_shards`, `wait_contract_state` and the masterchain awaiters: waiting without shared invariants. Blocks that arrive before the subscriber is ready are skipped by the code and are not part of the model.
- Cancellation of a delivery task from outside, and the second broadcast under the `double-broadcast` feature.
- `entry_count` and the other counters of sizes are unbounded where their wrap-around is not the point; `PendingEvents` models it.
- `TopicsMap`: two sets derived from a third after every change; it would only add easy members.
- The idle wait at the start of both `update` loops, request retries, timeouts and the connection pool.
- Retry.CalculateTimes: models the factor two that all callers pass, over real numbers; rounding of `f64` is not modelled. Where the floating point formula has no finite logarithm the model states its result, zero.
- Retry.TotalDelay: `tryhard` is not part of the repository; its back-off is taken to double from the start delay and to be capped.
- Configurations.Bridge.AddConfiguration: models the four functions of `src/engine/bridge/mod.rs:1819-2146` as one method that branches on the type, with four maps and counters in one record.
- The participation in elections chosen at startup, and what the started tasks do besides waiting.
- Rewards, participation status and the messages sent by the staking loops, beyond the decision to send.
- Voting on events: contract calls, mapping of data between chains, token root checks. A start flag stays set after an early return, so that an event is eventually voted on is not claimed.
- `verify_relay_staker_address`, key storage, configuration files, metrics and logging: input and output.
