# A verified model of the XRPL confluence fuzzer's protocols

The repository is a differential fuzzer for XRPL nodes and the control plane around it. This
project models, in Dafny, the state machines its guarantees rest on, and proves those guarantees
for every input, schedule and reachable state.

- `SequenceManager`, `SoakPipeline`, `SoakSubmission`: client-side sequence numbers under per-account
  locks, the worker pipeline over two bounded channels, and the two together, with theorems over all
  interleavings.
- `NodePoller`, `DivergenceOracle`, `StateDiff`: the bounded history of validated hashes and its
  two readers, the deduplicating oracle and the state-diff endpoint, proved to agree.
- `StallOracle`, `Liveness`: the timed stall detectors, over whole traces of samples.
- `ChaosScheduler`, `Recurring`: the fate of each chaos event over any sequence of ticks, and the
  expansion of recurring entries.
- `FindingStore`, `RunLifecycle`: the ring buffer with its index, and runs fed by a lossy bus and
  late sweeps.
- `LedgerDiff`, `Readiness`, `KurtosisRun` with `Boot`, `AddressMap` with `Rewriter` and
  `RewriterLaws`, `Tiers`: the ledger diff, the readiness wait, launching and booting, address
  rewriting, and the tier partition.
- `Text`, `Sets`, `Wrappers`: string order, sorting and joining, choosing from sets and counting
  them, and optional values.

RPC replies, command results, clock readings and random draws are arbitrary inputs. A map that Go
ranges over in no order is ranged over by choosing any key, so the proofs hold for every order.

Where the code and what is written about it disagree, the model follows the code and states by how
much:

- `scheduler.go` says an event is recovered recover_after steps later, and `docs/chaos.md` speaks of
  seconds. The soak calls the scheduler only at steps 9, 19, 29, ..., and recovery needs an exact
  step, so it happens only for non-negative multiples of ten: not for the first entry of
  `.chaos-schedule.example.json`, step 50 with recover_after 25 (`ChaosScheduler.SoakRecovery`,
  `ChaosScheduler.ExampleNeverRecovers`).
- `liveness.go` documents that progress ends a cooldown early. The code has no such rule; the two
  agree exactly when the stall threshold is at least the cooldown (`Liveness.DocumentedDebounce`).
- The type comment in `consensus_progress_oracle.go` ends an episode when any node recovers; the
  code ends it when no node is stalled (`StallOracle.EpisodeEmitsOnce`). The two add the same findings
  on every trace exactly for networks of at most one node (`StallOracle.DocumentedEpisodes`,
  `StallOracle.SecondFindingDocumented`).
- `nodes.go` says that entries older than 512 below the newest ledger are pruned, so that memory is
  bounded. They are, exactly when no ledger is reported 512 or more below one reported earlier
  (`NodePoller.HistoryWindow`); then the bound holds (`NodePoller.BoundedHistory`), and without it the
  bound can fail too (`NodePoller.UnorderedHistoryOverflows`).
- The state-diff endpoint and the oracle part ways exactly when no node has a numbered tip, two report
  different hashes without a number, and the history has no conflict (`StateDiff.ReadersAgree`,
  `StateDiff.UnnumberedHashesDiverge`).
- The watcher of a run checks neither the run a finding is tagged with nor whether it is already
  listed (`RunLifecycle.ForeignFindingStopsRun`, `RunLifecycle.ReadThenDeliveryListsTwice`). Exactly
  when an id is listed twice, when one of another run is listed, and when a run is stopped by one are
  `RunLifecycle.ListedAtMostTwice`, `RunLifecycle.ListedOrigin`, `RunLifecycle.ListsOnlyItsOwn` and
  `RunLifecycle.StoppedByForeign`.
- `List` cuts at its limit before it sorts. It answers the newest matches at every limit exactly when
  the matches were added in the order they opened (`FindingStore.ListIsNewest`,
  `FindingStore.ListMissesNewest`).

## Model

| member | source | states |
|---|---|---|
| SequenceManager.CachedSequenceNeverAhead | sidecar/internal/fuzz/runners/seqsubmit.go:143-238 | in every reachable state of any number of workers a cached sequence is at most the ledger's, and at most one worker holds an account |
| SequenceManager.SubmissionsLeaveNoGap | sidecar/internal/fuzz/runners/seqsubmit.go:188-238 | no submission is ahead of the ledger: terPRE_SEQ is never answered, and a consuming answer is for exactly the ledger's current sequence |
| SequenceManager.ConsumedInOrder | sidecar/internal/fuzz/runners/seqsubmit.go:191-238 | sequences consumed through the manager strictly increase per account over any stretch, and are contiguous, and are all the ledger's steps, while nothing else moves the ledger |
| SequenceManager.StaleSequenceCostsOneReply | sidecar/internal/fuzz/runners/seqsubmit.go:228-236 | tefPAST_SEQ replies never outnumber the jumps made by other traffic, up to one for a jump before the stretch |
| SequenceManager.OneJumpOneReply | sidecar/internal/fuzz/runners/seqsubmit.go:228-236 | that bound is reached: a run with one jump of other traffic and one such reply |
| SequenceManager.BooksTally | sidecar/internal/fuzz/runners/seqsubmit.go:191-238 | the per-account tallies those claims use are the sums over the events of the run |
| SequenceManager.LocksNeverDeadlock | sidecar/internal/fuzz/runners/seqsubmit.go:108-117 | a worker inside submitTx, or the holder of the mutex it waits for, can always take its next step |
| SequenceManager.MutualExclusion | sidecar/internal/fuzz/runners/seqsubmit.go:197-199 | two workers never hold one account |
| SequenceManager.RunInv | sidecar/internal/fuzz/runners/seqsubmit.go:44-62 | the invariant that relates cache, locks, worker phases and ledger holds after every event of every run |
| SequenceManager.StepInv | sidecar/internal/fuzz/runners/seqsubmit.go:143-238 | each atomic step keeps it, with any number of drift replies still allowed per account |
| SequenceManager.Manager.LockFor | sidecar/internal/fuzz/runners/seqsubmit.go:108-117 | one mutex per account for ever, fresh the first time, never shared between accounts |
| SequenceManager.Manager.Peek | sidecar/internal/fuzz/runners/seqsubmit.go:143-164 | a known sequence is returned unchanged; otherwise account_info is read, truncated to 32 bits and cached; an error leaves the cache alone |
| SequenceManager.Manager.SetNext | sidecar/internal/fuzz/runners/seqsubmit.go:166-171 | stores a sequence as known, for this account only |
| SequenceManager.Manager.Invalidate | sidecar/internal/fuzz/runners/seqsubmit.go:173-177 | forgets this account only |
| SequenceManager.Manager.SubmitTx | sidecar/internal/fuzz/runners/seqsubmit.go:191-238 | the sequence sent, and the whole new cache: advance on a consuming result, forget on an error, a signing failure or drift, hold otherwise |
| SequenceManager.Cache.Settle | sidecar/internal/fuzz/runners/seqsubmit.go:222-236 | a consuming result stores the next sequence, an error or drift forgets it, anything else holds; other accounts are untouched |
| SequenceManager.SubmissionByCode | sidecar/internal/fuzz/runners/seqsubmit.go:176-236 | by literal code: after a signed submission the next sequence is known exactly for tesSUCCESS, terQUEUED and tec codes, forgotten exactly for an RPC error, tefPAST_SEQ or terPRE_SEQ, and held for the rest; other accounts untouched |
| SoakPipeline.EverySentHandledOnce | sidecar/internal/fuzz/runners/seqsubmit.go:287-391 | at return everything put on submitCh was submitted once, in order, and handled once; TxsSucceeded is the number of handled replies tesSUCCESS or terQUEUED, and TxsFailed that of the others and of the failed picks |
| SoakPipeline.PicksTallied | sidecar/internal/fuzz/runners/seqsubmit.go:305-334 | in every reachable state the pick failures are the failed picks of the run, and TxsFailed those and the handled replies that were not applied |
| SoakPipeline.OutcomesAreAnswers | sidecar/internal/fuzz/runners/seqsubmit.go:287-303 | every outcome waiting or handled is the reply some worker was given for that very transaction |
| SoakPipeline.RoomForTwoEach | sidecar/internal/fuzz/runners/seqsubmit.go:287-288 | a send on either channel goes through at once exactly while fewer than two transactions a worker wait there |
| SoakPipeline.NeverDeadlocks | sidecar/internal/fuzz/runners/seqsubmit.go:345-390 | until it returns some goroutine can move, or the coordinator waits for the pacing tick alone; once cancelled not even that |
| SoakPipeline.CancelledRunDrains | sidecar/internal/fuzz/runners/seqsubmit.go:351-390 | after cancellation at most 14 steps a worker and 10 more remain under any schedule, and a stuck run has returned |
| SoakPipeline.StepWorks | sidecar/internal/fuzz/runners/seqsubmit.go:385-390 | once cancelled, every step decreases the work left |
| SoakPipeline.RunConserved | sidecar/internal/fuzz/runners/seqsubmit.go:287-336 | in every reachable state each transaction sent is in exactly one place: channel, worker, outcome channel or handled |
| SoakPipeline.StepConserved | sidecar/internal/fuzz/runners/seqsubmit.go:290-336 | each step keeps it |
| SoakSubmission.NeverDeadlocks | sidecar/internal/fuzz/runners/seqsubmit.go:191-390 | pipeline and locks together: until the run returns something can move, even if every worker waits for an account another holds |
| SoakSubmission.CancelledRunDrains | sidecar/internal/fuzz/runners/seqsubmit.go:191-390 | after cancellation at most 134 own steps a worker and 90 more remain, through channels and locks, whatever the other traffic; and a program that cannot move has returned |
| SoakSubmission.RunInv | sidecar/internal/fuzz/runners/seqsubmit.go:295-302 | a worker is inside submitTx exactly while the pipeline waits for its reply, and both invariants hold |
| SoakSubmission.SubmissionReady | sidecar/internal/fuzz/runners/seqsubmit.go:197-238 | the submission in a worker's hand can take a step, or that of the worker whose mutex it waits for |
| DivergenceOracle.Oracle.Tick | sidecar/internal/finding/divergence_oracle.go:86-163 | the memory after a tick: every conflict present has its key seen and new keys, only those, add one finding each |
| DivergenceOracle.Oracle.Report | sidecar/internal/finding/divergence_oracle.go:97-161 | one conflict: its key joins seen, and a finding is added just when it was not there |
| DivergenceOracle.GroupByLedger | sidecar/internal/finding/divergence_oracle.go:89-93 | groups hold exactly the hashes seen at their ledger |
| DivergenceOracle.HashSet | sidecar/internal/finding/divergence_oracle.go:96-100 | the distinct hashes of a group |
| DivergenceOracle.KeyInjective | sidecar/internal/finding/divergence_oracle.go:105-111 | the dedup string determines the sequence and the set of hashes when no hash contains the separator |
| DivergenceOracle.SeparatorCollides | sidecar/internal/finding/divergence_oracle.go:111 | without that condition two different conflicts share a key |
| DivergenceOracle.FindingsAreConflictsEverPresent | sidecar/internal/finding/divergence_oracle.go:86-163 | over any run of ticks the findings are exactly the conflicts ever present, each once, so they are equal in number |
| DivergenceOracle.FindingsAreGenuine | sidecar/internal/finding/divergence_oracle.go:95-103 | every finding has two different hashes that one earlier snapshot gave at its ledger |
| DivergenceOracle.FindingsByInputs | sidecar/internal/finding/divergence_oracle.go:86-163 | the same said on the inputs: a finding is there exactly when some earlier snapshot gave two different hashes at its ledger and its hashes are those given there |
| DivergenceOracle.ForkIsReported | sidecar/internal/finding/divergence_oracle.go:86-163 | a conflict present at a tick has its finding when the tick ends |
| NodePoller.Poller.RecordValidated | sidecar/internal/server/nodes.go:138-155 | the history of this node only becomes the old one with the observation added and everything 512 or more below it dropped |
| NodePoller.Poller.Poll | sidecar/internal/server/nodes.go:246-302 | the node record and the log entry for every reply; the history indexes the log and holds every numbered tip with its hash (the class invariant) |
| NodePoller.Poller.DivergenceSnapshot | sidecar/internal/server/nodes.go:163-173 | lists exactly the observations in the history |
| NodePoller.Poller.ValidatedHashesBySeq | sidecar/internal/server/nodes.go:178-193 | lists the same observations by ledger |
| NodePoller.Poller.ConsensusProgressSnapshot | sidecar/internal/server/nodes.go:203-228 | one entry for each node that answered with some ledger, no other |
| NodePoller.RetainedIsLatest | sidecar/internal/server/nodes.go:138-155 | in any order of observation a ledger is kept, with its latest hash, until one 512 or more above it is seen |
| NodePoller.HistoryWindow | sidecar/internal/server/nodes.go:134-155 | nothing 512 or more below the newest ledger is ever kept, exactly when no ledger is reported 512 or more below an earlier one |
| NodePoller.BoundedHistory | sidecar/internal/server/nodes.go:134-155 | under that condition the history is the latest hash of each ledger in (newest-512, newest], so at most 512 entries |
| NodePoller.OrderedHistory | sidecar/internal/server/nodes.go:134-155 | in particular when ledgers never go backwards |
| NodePoller.UnorderedHistoryOverflows | sidecar/internal/server/nodes.go:134-137 | a report far enough below breaks the bound too: 513 entries |
| NodePoller.Prune | sidecar/internal/server/nodes.go:150-154 | pruning keeps exactly what is above the cutoff |
| NodePoller.LogGrows | sidecar/internal/server/nodes.go:138-155 | one more observation keeps the history the index of the full log |
| StateDiff.Handle | sidecar/internal/server/state.go:19-93 | with no `at` and some numbered tip the ledger shown is the positive number most nodes hold, ties to the higher, with the hash each node validated there; a fork elsewhere is shown at the least forked ledger; and the answers for every `at`, for no numbered tip and for no poller, all said on the configured names, the node records and the history |
| StateDiff.PickSeq | sidecar/internal/server/state.go:116-134 | the modal tip, ties to the higher, whatever the map order |
| StateDiff.ModalUnique | sidecar/internal/server/state.go:116-134 | there is one such sequence |
| StateDiff.TwoDistinctHashes | sidecar/internal/server/state.go:136-142 | tells whether two nodes give different hashes |
| StateDiff.EarliestForkedSeq | sidecar/internal/server/state.go:95-114 | the least ledger with two hashes and its column, if any |
| StateDiff.SeedIsColumn | sidecar/internal/server/state.go:55-69 | the live tips add nothing to the history at a numbered ledger |
| StateDiff.ConflictsAreForks | sidecar/internal/finding/divergence_oracle.go:86-103 | the oracle's snapshot has a conflict at exactly the ledgers that are forked in the history |
| StateDiff.ReadersAgree | sidecar/internal/server/state.go:46-92 | without `at`, diverged exactly when the oracle sees a conflict, except that nodes with no numbered tip may disagree on unnumbered hashes; the ledger named is in conflict, and is the lowest one when the modal tip is clean |
| StateDiff.ReadersAgreeAtPoller | sidecar/internal/server/state.go:46-92 | the same of an answer of Handle and the inputs the oracle is given: diverged exactly when two inputs disagree at a ledger or, with no numbered tip, on unnumbered hashes; the ledger named is the modal tip if inputs disagree there, else the lowest at which they do |
| StateDiff.UnnumberedHashesDiverge | sidecar/internal/server/state.go:46-92 | that exception is reached: two polls, a divergence shown, no conflict in the snapshot |
| StallOracle.Oracle.Tick | sidecar/internal/finding/consensus_progress_oracle.go:94-161 | the new onsets, the open marker and the finding added, from the old ones and the snapshot |
| StallOracle.Oracle.constructor | sidecar/internal/finding/consensus_progress_oracle.go:57-72 | thresholds that are not positive become 10 and two minutes |
| StallOracle.Track | sidecar/internal/finding/consensus_progress_oracle.go:108-136 | the loops keep the onset of each node still stalled, start the newly stalled, drop the rest, and find the longest |
| StallOracle.StartsAreOnsets | sidecar/internal/finding/consensus_progress_oracle.go:108-136 | stallStarts holds exactly the nodes stalled at the last tick, each with the first tick of its unbroken run |
| StallOracle.FindingHasWitness | sidecar/internal/finding/consensus_progress_oracle.go:145-160 | a finding needs one node stalled at every tick of a stretch of at least sustainFor |
| StallOracle.EpisodeEmitsOnce | sidecar/internal/finding/consensus_progress_oracle.go:138-160 | a maximal run of ticks with some node stalled adds one finding if some node's stall is sustained, at the first such tick, and none otherwise |
| StallOracle.DocumentedEpisodes | sidecar/internal/finding/consensus_progress_oracle.go:39-42 | the type comment and the code add the same findings on every trace of a network exactly when it has at most one node |
| StallOracle.SecondFindingDocumented | sidecar/internal/finding/consensus_progress_oracle.go:39-42 | a trace of two nodes on which the comment has a second finding and the code does not |
| StallOracle.NoStallNoFinding | sidecar/internal/finding/consensus_progress_oracle.go:100-106 | no finding outside episodes, and the memory is empty after |
| Liveness.Defaults | sidecar/internal/oracle/liveness.go:76-83 | thresholds that are not positive become 60 and 30 seconds |
| Liveness.Monitor.Tick | sidecar/internal/oracle/liveness.go:97-163 | one tick of the loop: the new memory and at most one event |
| Liveness.HighestIsHighest | sidecar/internal/oracle/liveness.go:106-112 | the highest ledger of one sample, 0 if none is positive |
| Liveness.HighWaterIsHighest | sidecar/internal/oracle/liveness.go:117-124 | the mark is the highest ledger ever sampled and never falls |
| Liveness.HighWaterTime | sidecar/internal/oracle/liveness.go:117-124 | its time is that of the last tick that raised it |
| Liveness.RaiseIsNewHighest | sidecar/internal/oracle/liveness.go:117-124 | a tick raises it exactly when a node reports a positive ledger above every one sampled before |
| Liveness.StallMeansNoProgress | sidecar/internal/oracle/liveness.go:129-140 | a consensus_stall means no sample raised the mark for StallThreshold |
| Liveness.EventsKeepApart | sidecar/internal/oracle/liveness.go:130-160 | two events of one kind are at least the cooldown apart |
| Liveness.DueEventsFire | sidecar/internal/oracle/liveness.go:129-161 | an event fires exactly when it is due; a due stall comes before lost peers |
| Liveness.DocumentedDebounce | sidecar/internal/oracle/liveness.go:47-51 | the documented rule (cooldown over, or progress since) holds on every trace exactly when StallThreshold is at least the cooldown |
| Liveness.EarlyRepeat | sidecar/internal/oracle/liveness.go:47-51 | otherwise a trace of one healthy node on which the documented event is suppressed |
| ChaosScheduler.Scheduler.Step | sidecar/internal/fuzz/chaos/scheduler.go:66-110 | the whole new memory after one call: applications in schedule order, then the queue of this step |
| ChaosScheduler.StepInv | sidecar/internal/fuzz/chaos/scheduler.go:66-110 | each queue holds every entry once, applied exactly recoverAfter before, and an entry is marked applied just when it has a history |
| ChaosScheduler.StepHistory | sidecar/internal/fuzz/chaos/scheduler.go:72-109 | what one call adds to the history of each entry |
| ChaosScheduler.EntryFate | sidecar/internal/fuzz/chaos/scheduler.go:68-110 | over any calls an entry is applied once, at the first call at or past its trigger, and recovered at most once, only after success, at the first call whose step is exactly recoverAfter later |
| ChaosScheduler.FateByCalls | sidecar/internal/fuzz/chaos/scheduler.go:68-110 | the same said on the calls: no history before the trigger; applied at the first call at or past it; recovered, if that succeeded, at the first call of exactly recoverAfter steps later, and never without one |
| ChaosScheduler.AppliedInOrder | sidecar/internal/fuzz/chaos/scheduler.go:72-90 | one call applies in schedule order, each entry with the step of the call and the answer it was given |
| ChaosScheduler.RecoveredInOrder | sidecar/internal/fuzz/chaos/scheduler.go:93-109 | and recovers in the order of its queue |
| ChaosScheduler.EventsBalance | sidecar/internal/fuzz/chaos/scheduler.go:26-31 | applied = recovered + failed recoveries + still pending, and errored = failed applications + failed recoveries |
| ChaosScheduler.AfterStats | sidecar/internal/fuzz/chaos/scheduler.go:81-105 | the totals count the audit trail |
| ChaosScheduler.SoakTicks | sidecar/internal/fuzz/runners/soak.go:312-368 | the periodic hook is called at 9, 19, 29, ... successes and at no other |
| ChaosScheduler.SoakRecovery | sidecar/internal/fuzz/runners/soak.go:347-367 | on that grid an applied event is recovered exactly when recoverAfter is a non-negative multiple of ten and the run gets that far, and then exactly recoverAfter steps later |
| ChaosScheduler.ExampleNeverRecovers | sidecar/internal/fuzz/chaos/scheduler.go:92-96 | an entry for step 50 with recover_after 25, the first of the example schedule, is applied at step 59 and never recovered |
| Recurring.MatchNodes | sidecar/internal/fuzz/chaos/recurring.go:97-109 | the listed nodes that fit the pattern, in order |
| Recurring.MatchesAreNodes | sidecar/internal/fuzz/chaos/recurring.go:97-109 | they are exactly the listed nodes with the prefix of a pattern that ends in a star |
| Recurring.ResolveWildcards | sidecar/internal/fuzz/chaos/recurring.go:79-91 | fails exactly when some wildcard matches nothing; otherwise each is a matching node chosen by its own draw |
| Recurring.ExpandRecurring | sidecar/internal/fuzz/chaos/recurring.go:34-77 | terminates; fails exactly on a rejected spec or when an entry would have a place that matches no node; otherwise one entry for each index within the bounds set, each allowed: its step within the jitter, its places resolved, its latency drawn |
| Recurring.Expansion | sidecar/internal/fuzz/chaos/recurring.go:34-63 | the spec is refused and the number of entries bounded exactly as the bounds written in it say |
| Recurring.StopsAt | sidecar/internal/fuzz/chaos/recurring.go:46-53 | the two loop tests stop at min(count, floor((until-start)/every)+1) of the bounds set, and at nothing less |
| Recurring.EntryIsAllowed | sidecar/internal/fuzz/chaos/recurring.go:54-74 | each entry is within the jitter of start+i*every, not negative if the series is not, every wildcard a listed node with its prefix, latency in range, nothing else changed |
| Recurring.EverySeriesPossible | sidecar/internal/fuzz/chaos/recurring.go:54-74 | conversely, any entries that are all allowed are what the spec expands to for some draws: no two entries or fields share a draw, and no value within the bounds is out of reach |
| Recurring.Rng.Intn | sidecar/internal/fuzz/chaos/recurring.go:56 | a number below the bound, from the next draw |
| FindingStore.Store.Add | sidecar/internal/finding/store.go:47-69 | the new contents: the oldest evicted when full, the index shifted, the finding last |
| FindingStore.Store.Reindex | sidecar/internal/finding/store.go:54-57 | every index goes down by one, whatever the order of the map |
| FindingStore.Store.GetById | sidecar/internal/finding/store.go:72-81 | the finding the index points at, or none |
| FindingStore.Store.UpdateReproducer | sidecar/internal/finding/store.go:92-101 | changes that one finding's reproducer, or answers false |
| FindingStore.Store.List | sidecar/internal/finding/store.go:104-148 | the last wanted findings up to the limit, stably sorted latest first |
| FindingStore.AddIndexed | sidecar/internal/finding/store.go:50-61 | Add keeps the index exact just when the new id is not one still held after the eviction |
| FindingStore.StoreIsRecentLog | sidecar/internal/finding/store.go:10-101 | with distinct ids, after any Adds and UpdateReproducers the store is the last 1000 added, in order, with their last reproducers, and the index is its exact inverse |
| FindingStore.LookupIsRecent | sidecar/internal/finding/store.go:72-81 | an id is found exactly when it is among the last 1000 |
| FindingStore.NewestFirstSorts | sidecar/internal/finding/store.go:142-145 | the sort is by time descending and keeps the order of equal times |
| FindingStore.StableSortUnique | sidecar/internal/finding/store.go:142-145 | so any stable sort gives this result |
| FindingStore.ListByFields | sidecar/internal/finding/store.go:104-148 | every finding listed has the kind asked for and opened after the marker, if that is held; the limit is 100 unless given and at most 1000; a held finding that passes both filters and is not listed means the list is full and all listed were added later; latest first, ties latest added first |
| FindingStore.ListIsNewest | sidecar/internal/finding/store.go:129-147 | at every limit the list is the newest matches, exactly when the matches were added in the order they opened |
| FindingStore.ListMissesNewest | sidecar/internal/finding/store.go:129-140 | two Adds after which a list of one leaves out the newest finding |
| FindingStore.FullListComplete | sidecar/internal/finding/store.go:108-114 | a limit equal to the capacity leaves nothing out |
| RunLifecycle.EventBus.Publish | sidecar/internal/server/events.go:36-45 | every subscriber with room gets the event, one with a full buffer drops it, nobody else is touched |
| RunLifecycle.EventBus.Subscribe | sidecar/internal/server/events.go:49-57 | a new id with an empty buffer |
| RunLifecycle.EventBus.Unsubscribe | sidecar/internal/server/events.go:60-67 | removes that subscriber only |
| RunLifecycle.RunRecord.MatchesStopOn | sidecar/internal/server/runs.go:241-254 | state_divergence with first_divergence, node_crash with first_crash, nothing else |
| RunLifecycle.RunRecord.Receive | sidecar/internal/server/runs.go:215-222 | the watcher appends the id, without looking whether it is listed or of this run, and decides |
| RunLifecycle.RunRecord.SyncFindings | sidecar/internal/server/runs.go:301-318 | appends this run's findings that were not listed when it began |
| RunLifecycle.RunRecord.Close | sidecar/internal/server/runs.go:284-289 | sets status and trigger |
| RunLifecycle.BudgetEndsRun | sidecar/internal/server/runs.go:183-236 | a run is decided completed_budget exactly when some tick came after its budget while it was still being watched |
| RunLifecycle.PublishedUnlessFull | sidecar/internal/server/events.go:36-45 | a finding published while the run listens arrives unless 64 are waiting, and none arrives otherwise |
| RunLifecycle.RunBuffer | sidecar/internal/server/runs.go:183-190 | a run listens, with a buffer of 64, exactly while it is under way and there is a bus |
| RunLifecycle.SyncedIs | sidecar/internal/server/runs.go:301-318 | after a sweep the list is what it was and every finding of the run that was seen |
| RunLifecycle.SecondSweepIdle | sidecar/internal/server/runs.go:296-318 | sweeping again adds nothing |
| RunLifecycle.StatusSettles | sidecar/internal/server/runs.go:274-294 | status and trigger never change once the run has left running, whatever adds, deliveries, reads and ticks interleave |
| RunLifecycle.TriggerIsFirstMatch | sidecar/internal/server/runs.go:183-272 | a trigger is set exactly for completed_stop_on; it is listed, of a kind stop_on asks for, and the first such that was delivered |
| RunLifecycle.IdsOnlyGrow | sidecar/internal/server/runs.go:215-318 | FindingIDs is only ever appended to |
| RunLifecycle.ListedIsStore | sidecar/internal/server/runs.go:305 | a sweep sees exactly the findings the store holds |
| RunLifecycle.FinalSweepComplete | sidecar/internal/server/runs.go:274-289 | a finished run lists every finding of its own that the store held when the closing sweep read it |
| RunLifecycle.ReadAttributesLate | sidecar/internal/server/runs.go:165-167 | a read lists every such finding the store held when it read it, for good |
| RunLifecycle.ListedAtMostTwice | sidecar/internal/server/runs.go:215-217 | an id is listed at most twice, and twice exactly when the bus delivered it after a sweep had listed it |
| RunLifecycle.ListedOrigin | sidecar/internal/server/runs.go:204-217 | every id listed was added to the store, and one that is not of this run is listed exactly when the bus delivered it |
| RunLifecycle.ListsOnlyItsOwn | sidecar/internal/server/runs.go:204-217 | a run lists only its own findings exactly when only its own were delivered to it |
| RunLifecycle.StoppedByForeign | sidecar/internal/server/runs.go:211-222 | an ended run was stopped by a finding of another run exactly when the first delivered finding of a kind it stops on was of another run |
| RunLifecycle.ReadThenDeliveryListsTwice | sidecar/internal/server/runs.go:215-217 | a run on which that happens |
| RunLifecycle.ForeignFindingStopsRun | sidecar/internal/server/runs.go:211-222 | a run stopped by a finding of another run |
| LedgerDiff.ComputeLedgerDiff | sidecar/internal/finding/ledger_diff.go:57-135 | said on the snapshots as handed in: a root conflict exactly when two fetched ones differ in the ledger, account or transaction root; and, for distinct node names, those fetched in node order, the sorted hashes on all of them, each node's other hashes with multiplicity, and the types the first node in order gives for those; with fewer than two fetched nothing but the snapshots |
| LedgerDiff.ConflictIsOnInputs | sidecar/internal/finding/ledger_diff.go:124-133 | RootConflict holds exactly when two fetched inputs differ in one of the three roots |
| LedgerDiff.DiffOnInputs | sidecar/internal/finding/ledger_diff.go:57-135 | the other fields of the diff, said on the inputs alone |
| LedgerDiff.CountHashes | sidecar/internal/finding/ledger_diff.go:70-85 | the count of each hash is the number of nodes that have it, the representative its first transaction in node order |
| LedgerDiff.CommonHashes | sidecar/internal/finding/ledger_diff.go:87-94 | the sorted common hashes |
| LedgerDiff.OwnHashes | sidecar/internal/finding/ledger_diff.go:99-108 | one node's hashes outside the common ones, and the types they make suspect |
| LedgerDiff.RootConflict | sidecar/internal/finding/ledger_diff.go:124-133 | true exactly when some two nodes differ in a root |
| LedgerDiff.CommonIsIntersection | sidecar/internal/finding/ledger_diff.go:87-94 | CommonHashes is the sorted intersection without repetitions |
| LedgerDiff.OnlyOnNodesIs | sidecar/internal/finding/ledger_diff.go:96-116 | OnlyOnNodes has each node with hashes some other node lacks: those, sorted, with multiplicity |
| LedgerDiff.SuspectsAre | sidecar/internal/finding/ledger_diff.go:98-122 | SuspectTxTypes is the sorted set of non-empty types of non-common hashes |
| LedgerDiff.DiffOfAnyOrder | sidecar/internal/finding/ledger_diff.go:57-64 | with distinct node names the result does not depend on the order of the snapshots |
| Readiness.ValidatedSeq | src/network/readiness.py:87-108 | a sequence is extracted exactly from a validated ledger with a sequence int() takes, at least 1, and a non-empty hash |
| Readiness.Wait | src/network/readiness.py:146-263 | the outcome of any trace of replies: ready in the first round that succeeds before the deadline, with what each node answered in that round, timed out in the first late round, or still waiting |
| Readiness.PollInfos | src/network/readiness.py:196-207 | baselines are set once, sequences and errors renewed |
| Readiness.Select | src/network/readiness.py:209-217 | a target only when every node is past its own baseline, and then the least sequence |
| Readiness.QueryLedgers | src/network/readiness.py:219-233 | asks exactly the nodes without error that have reached the target |
| Readiness.Agreement | src/network/readiness.py:235-238 | a hash exactly when all nodes gave one and the same |
| Readiness.AgreementIsUpToCase | src/network/readiness.py:111-121 | the nodes agree exactly when each names a ledger not below the target and spells its hash, preferring ledger_hash, and no two spellings differ but in the case of letters |
| Readiness.PastBaselineIs | src/network/readiness.py:196-214 | a node is past its baseline exactly when the ledger it named last is above the one it named first |
| Readiness.LeastSeqIs | src/network/readiness.py:209-218 | the target is the least of the ledgers the nodes named last |
| Readiness.TargetFixed | src/network/readiness.py:175-217 | once a target is selected it is the only one there ever is |
| Readiness.SuccessIsUnique | src/network/readiness.py:235-251 | a round succeeds with one target and one hash |
| Readiness.WaitIsBounded | src/network/readiness.py:187-194 | with a positive poll interval and a clock that runs, at most timeout/poll + 1 rounds go by undecided |
| KurtosisRun.Run | sidecar/internal/kurtosis/run.go:130-202 | the commands issued and the result, for any answers |
| KurtosisRun.LaunchesBounded | sidecar/internal/kurtosis/run.go:131-150 | never more launches than MaxAttempts, at least one allowed |
| KurtosisRun.CommandsInPlace | sidecar/internal/kurtosis/run.go:150-163 | removals and launches of this enclave alternate: a retry comes right after a removal that succeeded, and that right after a launch that failed transiently |
| KurtosisRun.Shape | sidecar/internal/kurtosis/run.go:150-199 | an attempt ends at a failed removal or at its launch, or is followed by a retry |
| KurtosisRun.ResultOfLast | sidecar/internal/kurtosis/run.go:160-189 | success exactly of a last launch with neither an error nor a Starlark failure in its output; a failure carries its error and whether the armed watchdog tripped |
| KurtosisRun.GivesUpForCause | sidecar/internal/kurtosis/run.go:183-198 | a failure is returned only after MaxAttempts launches, at least one, or one not worth a retry |
| KurtosisRun.RetriableIs | sidecar/internal/kurtosis/run.go:97-117 | a failed launch is retried, if an attempt is left, exactly when the armed watchdog tripped or, not cancelled, its output or error mentions one of the six transient causes; and not if cancelled while waiting |
| KurtosisRun.StarlarkFailedIs | sidecar/internal/kurtosis/run.go:316-326 | a Starlark failure is reported exactly when a line of the output begins, after white space, with one of the three marks |
| KurtosisRun.RemovedIs | sidecar/internal/kurtosis/enclave.go:112-126 | a removal is done exactly when it ends well or its errors say, in any case, one of four things that mean there is no such enclave |
| KurtosisRun.RunBegins | sidecar/internal/kurtosis/run.go:150-157 | a run begins with a removal exactly when asked to |
| Boot.CompatibleNetwork | sidecar/cmd/confluence/network.go:58-72 | compares exactly the five fields |
| Boot.CheckNetworkLifecycle | sidecar/cmd/confluence/network.go:19-56 | one listing, then the decision for every combination of flags |
| Boot.GoesAhead | sidecar/cmd/confluence/up.go:178-194 | a boot passes its checks exactly when the scenario is sound, the enclave has a name and the flags suit; a network if it is new, is to be reset, or is resumed with no goxrpl node and the same five fields as saved |
| Boot.BuildsAre | sidecar/cmd/confluence/up.go:195-219 | the images built, in order, each under the name in the scenario or its latest tag |
| Boot.ArgsAre | sidecar/cmd/confluence/network.go:74-87 | a network is launched with its readiness timeout, 180 seconds unless given, and both resume switches; everything else as compiled |
| Boot.WritesAre | sidecar/cmd/confluence/up.go:223-250 | only a reset removes the enclave, and forgets it, before the network is written down |
| Boot.LaunchBegins | sidecar/cmd/confluence/up.go:227-258 | a boot that is to tear down first removes before it launches; no other does |
| Boot.NetworkWatchdog | sidecar/cmd/confluence/up.go:225-231 | an armed watchdog leaves a network its waiting time and a minute more |
| Boot.InspectedIs | sidecar/cmd/confluence/up.go:274-292 | the services inspected, by name and number |
| Boot.Boot | sidecar/cmd/confluence/up.go:153-297 | the commands of a boot, what it saves for a later resume, and that it succeeds exactly when its launch did, the control service was healthy, every other service was found and the result written down |
| Boot.BootIsPermitted | sidecar/cmd/confluence/up.go:184-272 | no enclave but its own is touched; it is removed only by a reset, a tear-down of a scenario with a workload, or after a transient failure of its own launch |
| Boot.ResumeKeepsEnclave | sidecar/cmd/confluence/up.go:184-249 | --resume never issues enclave rm and launches at most once |
| Boot.ExistingNetworkIsLeft | sidecar/cmd/confluence/network.go:52-54 | an existing network enclave with neither flag sees only enclave ls |
| Boot.BootLaunches | sidecar/cmd/confluence/up.go:225-272 | at most three launches, one for a network, and success only after a clean one |
| Boot.RefusedIssuesNothing | sidecar/cmd/confluence/up.go:178-187 | refused flags issue no command |
| Boot.SavedNetworkResumes | sidecar/cmd/confluence/network.go:34-51 | a saved network can be resumed exactly when it exists, has no goxrpl node and compiles to the same five fields |
| Boot.RunArgsCompatible | sidecar/cmd/confluence/network.go:74-87 | the arguments a boot adds do not bear on that |
| AddressMap.MeetAllDeals | sidecar/internal/fuzz/mainnet/rewriter.go:87-95 | slots are dealt round-robin to distinct addresses in the order first met |
| AddressMap.MeetAllKeeps | sidecar/internal/fuzz/mainnet/rewriter.go:82-84 | an address keeps its slot |
| AddressMap.EarlyAddressesApart | sidecar/internal/fuzz/mainnet/rewriter.go:84-86 | the first as many addresses as wallets have different slots |
| AddressMap.LoadsBalanced | sidecar/internal/fuzz/mainnet/rewriter.go:84-86 | slot loads never differ by more than one |
| Rewriter.CloneMap | sidecar/internal/fuzz/mainnet/rewriter.go:107-122 | a deep copy: same tree, every part in new memory, no two fields sharing any |
| Rewriter.CloneValue | sidecar/internal/fuzz/mainnet/rewriter.go:124-137 | the same for lists and nested values |
| Rewriter.Rewriter.MapAddress | sidecar/internal/fuzz/mainnet/rewriter.go:87-95 | the slot of a known address, or the next one |
| Rewriter.Rewriter.SecretFor | sidecar/internal/fuzz/mainnet/rewriter.go:98-105 | a seed of the wallet with that address, if there is one |
| Rewriter.Rewriter.Rewrite | sidecar/internal/fuzz/mainnet/rewriter.go:43-80 | in-place rewriting of the copy equals rewriting the tree, and nothing of the input changes, though its maps are shared |
| RewriterLaws.RewriteDoes | sidecar/internal/fuzz/mainnet/rewriter.go:43-65 | by field name: the eight server fields dropped; each of the nine address fields, if not empty, becomes the address of the pool wallet its own is mapped to; so does the issuer in each of the seven token fields; nothing else changed; the memo is that of having met those addresses in that order |
| RewriterLaws.MemoIsMeetings | sidecar/internal/fuzz/mainnet/rewriter.go:82-95 | after any rewrites, rejected ones too, the memo is that of the addresses mentioned in order |
| RewriterLaws.AcceptedIsSignable | sidecar/internal/fuzz/mainnet/rewriter.go:67-80 | an accepted transaction with an Account has a wallet in the pool and no issuer equal to it |
| RewriterLaws.RejectsOnlySelfIssued | sidecar/internal/fuzz/mainnet/rewriter.go:67-77 | while addresses do not outnumber wallets, exactly the transactions already self-issued are rejected |
| RewriterLaws.SmallPoolRejects | sidecar/internal/fuzz/mainnet/rewriter.go:67-77 | with one wallet every transaction with an account and an issuer is rejected |
| Tiers.AssignTiers | sidecar/internal/fuzz/accounts/tiers.go:66-99 | every wallet is stamped once, in order; each tier but Rich gets exactly its weight times the pool over the sum of weights, rounded down, Rich its own and at most four more; no weights means all Rich |
| Tiers.SharesFit | sidecar/internal/fuzz/accounts/tiers.go:77-87 | the floored targets sum to at most the pool, and to at least four less |
| Tiers.Stamp | sidecar/internal/fuzz/accounts/tiers.go:89-97 | the nested loops give each tier its block of wallets |

## Left out

- One ledger view: account_info, submission and the tallies of `SequenceManager` refer to one ledger per account, and a terQUEUED answer counts as advancing the open sequence, as the source's header comment assumes; several nodes that lag behind one another are not modelled.
- A transaction that takes two sequences at once (TicketCreate) is its own step followed by other traffic moving the sequence; ledger sequences stay below 2^32.
- Resolving the account from the secret, fees and LastLedgerSequence stamping, and the periodic refresh of the ledger index: they do not touch the sequence cache.
- Picking, mutating and building transactions: a pick is a step that succeeds with some new transaction or fails.
- SoakPipeline.NeverDeadlocks: does not model scheduling fairness or the account locks; SoakSubmission.NeverDeadlocks adds the locks, and both CancelledRunDrains bound every schedule.
- The non-concurrent soak loop beyond its step counter and periodic hook; the concurrent one never calls the hook.
- StateDiff.Handle: reads tips and history at one point, while the source takes the lock twice.
- DivergenceOracle.FindingsAreConflictsEverPresent: needs hashes without the separator, which hexadecimal hashes are; SeparatorCollides shows the need.
- StallOracle.Oracle.Tick: takes snapshots that name each node at most once, which NodePoller.Poller.ConsensusProgressSnapshot is proved to give.
- Text, severity, evidence and summaries of findings, and attaching the ledger diff to them.
- Times are integers, or reals in `Readiness`; rounding of floating-point clocks is not modelled.
- Strings are sequences of characters: `Readiness` and `KurtosisRun` fold the case of ASCII letters only; comparing strings byte by byte is modelled as comparing characters.
- Integers are unbounded apart from the 32-bit sequences: 64-bit overflow of step numbers, weights and counters is not modelled.
- NodePoller.Poller.Poll: leaves out the fields of a node record that nothing modelled reads, and publishing the snapshot.
- ChaosScheduler.Scheduler.Step: the context and what events do are two answers for each entry and call.
- Recurring.Rng.Intn: takes one draw for each number; how the generator makes them is foreign code.
- Recurring.ExpandRecurring: interface and feature travel with the event unread; parsing a whole schedule around it only repeats the wildcard step.
- FindingStore.StoreIsRecentLog: assumes distinct ids, which the id generator gives; AddIndexed says exactly what one repeated id breaks.
- RunLifecycle: reproducer emission, timestamps, copies handed to clients, and servers without a finding store; the lookup of runs by id and the current run are trivial bookkeeping.
- LedgerDiff.DiffOfAnyOrder: assumes distinct node names; snapshots that fail are absent, and their errors pass through unread.
- Readiness.Wait: sending and decoding the RPC itself, and the diagnostic text of a timeout; a failed call is one answer with a non-empty message. The target may be chosen with the last known sequence of a node that fails in that round, as in the source.
- KurtosisRun.Run: the watchdog goroutine is an answer of the launch (it tripped or not); its timing is not modelled. Splitting the output of the listing into names is an input.
- Boot.Boot: loading, validating and compiling scenarios, reading and writing the discovery files and the health probe are inputs; the number of polls of the control service is one too.
- Rewriter.Rewriter.SecretFor: wallet derivation is foreign code; `RewriterLaws.GoodPool` states what it gives.
- Rewriter.CloneMap: cyclic values, which decoded JSON never has, are not modelled.
- Tiers.AssignTiers: the random generator is unused in the source and absent here; funding and setting up wallets is not modelled.
- HTTP handlers, JSON and YAML encoding, the dashboard, metrics, alerts, logs, Docker and signing: input and output only.
- The per-type transaction builders and scenario validation: long, single-branch code that would add only easy members.
