# Verified model of the agentic-sandbox activity pipeline and its state machines

A Dafny model of the parts of agentic-sandbox whose correctness spans several operations, and proofs
about every run of them. `dafny verify dfyconfig.toml` checks the whole project.

## What is modelled

| file | component |
|---|---|
| `Events.dfy` | the `activity.event/v1` record as the agent and the server see it |
| `Spool.dfy` | the agent's durable spool: record file, watermark file, acknowledgement |
| `Collector.dfy` | the bounded queue of the Linux and macOS collectors, coupled to the spool |
| `Store.dfy` | the server's transactional, gap-recording ingest |
| `Delivery.dfy`, `Drain.dfy`, `Order.dfy` | spool, network and store composed into one protocol, its progress, and what it means for the server's loss ledger |
| `QueryCache.dfy`, `Paging.dfy`, `Coverage.dfy` | the timeline query: decoded-event cache, cursor pages, gap coverage and the verdict |
| `Merkle.dfy`, `Manifest.dfy` | signed batch manifests |
| `Tokens.dfy` | single-use bootstrap tokens |
| `CrashLoop.dfy` | crash-loop detection and bounded rebuilds |
| `OutputChannel.dfy`, `Reconcile.dfy` | the agent's output channel across reconnects, and session reconciliation |

Objects the program updates in place are classes; each method is proved equal to a function of the
old state, and the theorems about whole runs are about those functions. Crashes, failed saves,
clocks, fresh identifiers, tmux results and message delivery are parameters or steps of the
environment.

## Main results

- Delivery: whatever the network loses, repeats or reorders and wherever a side restarts, every
  record the spool ever wrote is still there or is stored unchanged at the server
  (`DeliveryIsSafe`); it arrives strictly in order, so the server never records a loss for it
  (`DeliveryIsInOrder`); and after any run a restart and
  undisturbed rounds empty the spool (`AnyRunCanBeDrained`).
- Store: the acknowledged sequence is exactly the largest stored prefix, a batch is accepted exactly
  when its events pass every check and it rebinds nothing, and the loss ledger partitions 1..highest (`IngestKeepsInv`,
  `BatchIsAcceptedIff`, `LedgerPartition`, `MissingIsRecordedOnce`).
- Verdict: which rows make it `complete` (`CompleteOverRowsIff`), and that it means in-order, hole-free,
  fully durable delivery (`CompleteMeansFullyDelivered`).
- Signing: what the Merkle root is (`RootIsTree`), and that `verify` accepts a signed manifest exactly
  with its own checkpoint, a key that gives its signature and a permutation of its events
  (`FreshManifestIsAcceptedIff`).
- Tokens: an attempt is accepted only on what was issued, in time and once, and on a live token exactly
  then (`AcceptedOnlyIfEntitled`, `LiveTokenReplies`, `ConsumeSucceedsAtMostOnce`).

## Where a promised property does not hold

Each has a lemma at a concrete input, or for a whole family of them, and the exact condition under
which the property does hold.

- A failed watermark write followed by an acknowledgement, without reopening the spool, lets a
  sequence be bound twice and an event be lost (`TornAcknowledgeRebinds`,
  `TornAcknowledgeLosesAnEvent`; exact: `AcknowledgeKeepsNextFreshIff`, `ReceiveIsSafeIff`).
- At the 64-bit limit the saturating watermark hands out one sequence repeatedly
  (`SaturatedWatermarkRebinds`; exact: `AppendRebindsIffSaturated`).
- A query validates every row of the agent against its own collector, so an agent with two
  collectors cannot be queried without the cache, and the cache can hide that
  (`FailedQueryUnlocksAnother`; exact: `CacheMasksFailureIff`, `PlainReadSucceedsIff`).
- A page limit of zero announces more without a cursor to continue from (`ZeroLimitNeverAdvances`;
  exact: `PageAdvancesIff`).
- Fields of the signed text are separated by NUL but not checked for it, and an absent previous root
  is signed like an empty one (`NulFieldsCollide`; exact: `SignedTextIdentifiesIff`,
  `SignedTextIsUniqueIff`).
- `verify` panics on a manifest that counts no event, shown with none (exact: `VerifyPanicsIff`).
- With `kill_unrecognized`, a tmux alias that shares the name of a tracked session is killed when the
  alias is itself a tracked command outside the keep list (`TrackedAliasIsKilled`; exact:
  `TrackedAliasIsKilledIff`).
- The kept list of a reconcile reply can name a tmux alias nobody asked to keep, once the command
  that shadowed it is gone (`KeptListNamesAnAlias`; exact: `AliasIsReportedKeptIff`).
- A consume whose save fails is undone by a restart (`FailedSaveIsUndoneByReload`); single use still
  holds, because that consume returned an error.

## What a caller must observe

- The crash-loop service handles one event at a time (`management/src/crash_loop.rs:528-530`), and then
  the configured maximum of rebuilds holds (`SerialRunIsBounded`). `process_event` is public and reads
  the rebuild count under the lock but raises it after the lock is released: a caller that processes
  events concurrently exceeds the maximum by up to the overlap (`OverlappingRunIsBounded`,
  `OverlapBoundIsReached`), so not overlapping is exactly what it must observe (`MaximumHoldsIff`).

## Assumptions

- The exporter, which is not part of this model, sends batches taken from `pending` and passes
  received acknowledgements to `acknowledge_through`; one spool reports under one ingest scope.
- Stored events decode to themselves. The content checks of `validate_event` and the envelope limit
  are arbitrary predicates, so results hold for any of them.
- Hashes and signatures are collision-free, the leaf order is total, generated identifiers and tokens
  are fresh, and the crash-loop clock does not run backwards.
- Coupling of collector and spool is stated below the 64-bit sequence limit.

## Model

| member | source | states |
|---|---|---|
| ActivityEvents.Decode | management/src/activity.rs:798-799 | the typing step of reading an event: a JSON value decodes to an event exactly when it is that event's encoding with a 64-bit sequence, so decoding loses and invents nothing |
| ActivitySpools.SortedFileIsItsOwnRecordList | agent-rs/src/activity_spool.rs:148-162 | the stable sort by sequence leaves a file that is already in sequence order unchanged |
| ActivitySpools.FirstClash | agent-rs/src/activity_spool.rs:77-91 | a clash is found exactly when some record shares the sequence or the identifier, and the one returned is such a record |
| ActivitySpools.RecordsAreLines | agent-rs/src/activity_spool.rs:148-162 | under the file invariant reading the spool returns the file itself |
| ActivitySpools.WriteFacts | agent-rs/src/activity_spool.rs:70-110 | an accepted append carries exactly watermark+1, shares nothing with a stored record, fits the quota, and the spool was not torn |
| ActivitySpools.WriteKeepsInv | agent-rs/src/activity_spool.rs:70-114 | an append, complete or stopped between its two writes, keeps the spool invariant |
| ActivitySpools.AcknowledgeDropsPrefix | agent-rs/src/activity_spool.rs:120-146 | an acknowledgement removes a prefix of the file, exactly the records at or below it, and leaves the watermark |
| ActivitySpools.AcknowledgeKeepsFiles | agent-rs/src/activity_spool.rs:120-146 | the remaining records are exactly those above the acknowledged sequence, still contiguous and within quota |
| ActivitySpools.ReopenKeepsInv | agent-rs/src/activity_spool.rs:34-56 | open keeps the invariant, repairs a watermark that is behind the last record and moves nothing else |
| ActivitySpools.RunKeepsInv | agent-rs/src/activity_spool.rs:34-146 | every run of appends, torn appends, acknowledgements and reopens keeps the invariant |
| ActivitySpools.ReopenedSpoolIsSound | agent-rs/src/activity_spool.rs:34-146 | after any such run from an empty spool followed by open: the sequences ever written are exactly 1..watermark, pending records are one contiguous run ending at the watermark, no sequence below the 64-bit limit was bound to two events, no two pending records share an identifier, the file is within quota, and the next sequence is watermark+1 |
| ActivitySpools.AcknowledgeKeepsNextFreshIff | agent-rs/src/activity_spool.rs:58-68 | the next sequence stays unused after an acknowledgement if and only if no torn record is removed by it |
| ActivitySpools.AppendRebindsIffSaturated | agent-rs/src/activity_spool.rs:92-98 | an accepted append reuses a written sequence if and only if the watermark has reached the 64-bit limit, where the saturating add stops counting |
| ActivitySpools.SaturatedWatermarkRebinds | agent-rs/src/activity_spool.rs:92-98 | concrete failure, by a run without any fault: appends and acknowledgements up to the 64-bit limit, then one more event bound to the last sequence |
| ActivitySpools.TornAcknowledgeRebinds | agent-rs/src/activity_spool.rs:110-146 | concrete failure: torn append of one event, acknowledgement, append of another, and one sequence is bound to both |
| ActivitySpools.ValidRecordIff | agent-rs/src/activity_spool.rs:209-223 | a record is taken exactly when it has the schema, a positive 64-bit sequence and an identifier |
| ActivitySpools.AppendReplies | agent-rs/src/activity_spool.rs:70-114 | over the file alone: Success if and only if the event is already pending, or is well formed, shares no sequence or identifier with another record, is the next one and fits; Full, with the sizes, if and only if only room is missing; Invalid otherwise |
| ActivitySpools.AppendEffect | agent-rs/src/activity_spool.rs:70-114 | after Success the event is in the file and, if new, the last line and the watermark; any refusal leaves both files alone, and sharing a sequence or identifier with a different record is always Invalid |
| ActivitySpools.SortIsStable | agent-rs/src/activity_spool.rs:148-162 | reading any file sorts it by sequence, keeps every record and keeps the file order of equal sequences |
| ActivitySpools.OpenRepairs | agent-rs/src/activity_spool.rs:34-56 | opening any two files works if and only if the quota is positive and every record is well formed, keeps the records, and raises the watermark to the largest sequence |
| ActivitySpools.ActivitySpool.Open | agent-rs/src/activity_spool.rs:34-56 | opening succeeds exactly when the quota is positive and every record is valid, and leaves the files as the specification of open says |
| ActivitySpools.ActivitySpool.Records | agent-rs/src/activity_spool.rs:148-162 | the reading loop fails on the first invalid record and otherwise returns the sorted file |
| ActivitySpools.ActivitySpool.NextSequenceNumber | agent-rs/src/activity_spool.rs:58-68 | the larger of last record and watermark, plus one, saturating |
| ActivitySpools.ActivitySpool.AppendRecord | agent-rs/src/activity_spool.rs:70-114 | the clash scan, sequence check, quota check and two writes leave the files and the reply the specification gives, with the watermark write failing or not |
| ActivitySpools.ActivitySpool.Pending | agent-rs/src/activity_spool.rs:116-118 | the first min(limit, 1000) records in sequence order |
| ActivitySpools.ActivitySpool.AcknowledgeThrough | agent-rs/src/activity_spool.rs:120-146 | the rewrite loop leaves exactly the records above the acknowledged sequence |
| ActivityCollectors.PendingLossIsQueued | agent-rs/src/linux_activity.rs:599-611 | with room in the queue a pending loss becomes one telemetry.loss event that carries the whole count, the next sequence, and is queued last |
| ActivityCollectors.PendingLossKeepsInv | agent-rs/src/linux_activity.rs:599-611 | reporting a pending loss keeps the conservation invariant and drops nothing |
| ActivityCollectors.QueueRunKeepsInv | agent-rs/src/linux_activity.rs:549-611 | in every run of observations, drains and flushes: dropped equals pending loss plus everything reported in accepted loss events, accepted equals removed plus queued, depth stays within capacity, accepted sequences are consecutive across drops |
| ActivityCollectors.NewQueueInv | agent-rs/src/linux_activity.rs:177-193 | a new collector starts in that invariant |
| ActivityCollectors.ObservationIsQueuedIff | agent-rs/src/linux_activity.rs:587-597 | an observation joins the end of the queue with the next sequence exactly when there is room; otherwise it is counted as dropped and pending, and uses no sequence |
| ActivityCollectors.DrainTakes | agent-rs/src/linux_activity.rs:549-559 | a drain takes a prefix of the length asked for, unless the queue is shorter; the rest stays in order, followed by at most one event reporting the pending loss |
| ActivityCollectors.ReportedDepthIsPeak | agent-rs/src/linux_activity.rs:587-597 | the depth reported is the deepest the queue has been in the run |
| ActivityCollectors.FlushIsQueueStep | agent-rs/src/linux_activity.rs:561-577 | a flush into any spool, ended by the limit or by an error, acts on the queue as one step of those runs |
| ActivityCollectors.FrontIsNextRecord | agent-rs/src/linux_activity.rs:561-577 | the front event of a coupled collector is either written or refused for lack of space; no other refusal is possible |
| ActivityCollectors.FlushLoopStaysCoupled | agent-rs/src/linux_activity.rs:561-577 | flushing keeps queue and spool in step, fails only with Full, and only moves events: written history followed by queue is unchanged |
| ActivityCollectors.FlushPopsPrefix | agent-rs/src/linux_activity.rs:561-577 | a flush takes a prefix of the queue, of length min(limit, depth) on success and shorter on an error, whose event stays in front |
| ActivityCollectors.RestartIsCoupled | agent-rs/src/linux_activity.rs:195-201 | a collector built from a reopened spool is in step with it |
| ActivityCollectors.AgentRunStaysCoupled | agent-rs/src/linux_activity.rs:195-201 | over every run of observations, flushes, acknowledgements and crashes (also inside an append) the queue front carries watermark+1, an empty queue is about to hand out watermark+1, and the next flush can only fail with Full |
| ActivityCollectors.AgentRunFromEmptySpool | agent-rs/src/linux_activity.rs:195-201 | the same from the first start on an empty spool, and the sequences ever written are exactly 1..watermark, each bound once, across drops, full spools and restarts |
| ActivityCollectors.ActivityCollector.Push | agent-rs/src/linux_activity.rs:587-597 | enqueue as a state change: drop and count, or number, queue and count |
| ActivityCollectors.ActivityCollector.EnqueueEvent | agent-rs/src/macos_activity.rs:328-338 | enqueue keeps the conservation invariant of the whole history |
| ActivityCollectors.ActivityCollector.ReportPendingLoss | agent-rs/src/linux_activity.rs:599-611 | the pending count is taken and reported as specified, keeping the invariant |
| ActivityCollectors.ActivityCollector.DrainEvents | agent-rs/src/linux_activity.rs:549-559 | the popping loop returns the first min(limit, depth) events, then reports pending loss, keeping the invariant |
| ActivityCollectors.ActivityCollector.FlushToSpool | agent-rs/src/linux_activity.rs:561-577 | the append-then-pop loop has exactly the specified effect on queue, files and reply, keeping the invariant |
| ActivityStores.ValidateBatch | management/src/activity.rs:459-461 | a batch is valid exactly when every event is |
| ActivityStores.Advance | management/src/activity.rs:588-611 | the advanced mark has every successor up to it stored and the next one missing; the loop ends |
| ActivityStores.LedgerBounds | management/src/activity.rs:539-562 | recorded loss ranges are non-empty, start at 1 or later and end below the highest sequence |
| ActivityStores.LedgerDisjoint | management/src/activity.rs:539-562 | ranges of one scope never overlap, each later one lies after every earlier one |
| ActivityStores.LedgerPartition | management/src/activity.rs:539-562 | 1..highest splits exactly into the sequences that arrived as a new maximum and the recorded ranges |
| ActivityStores.LossInsertNeverIgnored | management/src/activity.rs:545-560 | the range of a new gap is never already in the table, so INSERT OR IGNORE always inserts |
| ActivityStores.MissingIsRecordedOnce | management/src/activity.rs:484-562 | every sequence missing below the highest lies in exactly one recorded range |
| ActivityStores.InsertKeepsTxInv | management/src/activity.rs:539-611 | storing a new event keeps rows unambiguous and valid, the ledger equal to the one rebuilt from the row history, and the mark at the largest stored prefix |
| ActivityStores.ApplyBatchKeepsTxInv | management/src/activity.rs:498-612 | the event loop keeps that, appends only events of the batch, stores all of them, and counts each once |
| ActivityStores.IngestKeepsInv | management/src/activity.rs:449-637 | in every reachable store the acknowledged sequence is exactly the largest n with 1..n stored, never falls, leaves other scopes alone, rows only grow by the batch, and accepted plus duplicates is the batch size |
| ActivityStores.DurableIsUnique | management/src/activity.rs:585-611 | no larger prefix is stored than the durable mark says |
| ActivityStores.AckReportsNewLosses | management/src/activity.rs:539-562 | the gaps in an acknowledgement are exactly the loss records the batch added, under the collector's name |
| ActivityStores.ResendIsNoOp | management/src/activity.rs:499-514 | re-sending stored events changes no table, reports only duplicates and no gap, and returns the current mark |
| ActivityStores.AcceptedBatchCanBeResent | management/src/activity.rs:499-514 | in any store reached from the empty one, a batch once accepted can be sent again after any later calls: the store is unchanged, the whole batch is reported as duplicates, and the mark is the largest stored prefix |
| ActivityStores.IngestSucceedsIff | management/src/activity.rs:454-538 | a batch is accepted if and only if it has 1..1000 valid events, fits the envelope limit, and rebinds no identifier and no sequence, stored or within the batch |
| ActivityStores.EventIsRefusedIff | management/src/activity.rs:864-923 | an event passes exactly when schema, sequence range, content checks and scope all hold; a foreign scope is named exactly when the checks before it pass; Invalid otherwise |
| ActivityStores.BatchIsAcceptedIff | management/src/activity.rs:454-583 | a batch is accepted if and only if it has 1..1000 events, each passes every check under the scope, and none rebinds an identifier or sequence or exceeds the envelope limit |
| ActivityStores.StoredRowsAreAdmissible | management/src/activity.rs:459-461 | no reachable store holds a row that one of the checks refuses |
| ActivityStores.ScopeIsNamedIff | management/src/activity.rs:459-461 | a batch is refused for its scope exactly when its first refused event passes the earlier checks under another scope |
| ActivityStores.EventIsRebindingIff | management/src/activity.rs:499-538 | inside the transaction an event is refused exactly when its identifier or sequence belongs to a different row or it does not fit, and as Corrupt exactly when the identifier belongs to another scope |
| ActivityStores.FirstRefusalDecides | management/src/activity.rs:498-583 | the transaction fails with the error of its first event that cannot be applied |
| ActivityStores.HighestIsStored | management/src/activity.rs:484-496 | the highest sequence of a scope is a stored one |
| ActivityStores.ReachableStoreInv | management/src/activity.rs:449-637 | every store reached by accepted and rejected calls satisfies the invariant; rows and marks only grow |
| ActivityStores.ActivityStore.AdvanceDurable | management/src/activity.rs:588-611 | the look-up loop computes the specified advance |
| ActivityStores.ActivityStore.InsertEvent | management/src/activity.rs:539-611 | gap record, row and advanced mark of one new event as specified |
| ActivityStores.ActivityStore.RunTransaction | management/src/activity.rs:498-612 | the event loop with its early returns equals the recursive specification |
| ActivityStores.ActivityStore.Ingest | management/src/activity.rs:449-637 | the tables change only at commit: a failed batch leaves all of them as they were, a successful one leaves the specified state and keeps the invariant |
| ActivityDelivery.StoreGrowthKeeps | management/src/activity.rs:585-636 | a store that grew by sent events keeps every acknowledgement on the wire truthful |
| ActivityDelivery.DeliverKeeps | management/src/activity.rs:449-637 | delivering any batch ever sent, late or again, keeps the protocol invariant |
| ActivityDelivery.StoredSequenceIsThisValue | agent-rs/src/activity_spool.rs:92-98 | a spooled record whose sequence the server holds is the very record the server holds |
| ActivityDelivery.ReceiveKeeps | agent-rs/src/activity_spool.rs:120-146 | applying any acknowledgement ever sent, late or again, keeps the protocol invariant |
| ActivityDelivery.RunKeepsInv | agent-rs/src/activity_spool.rs:70-146 | every step of every run keeps the protocol invariant |
| ActivityDelivery.DeliveryIsSafe | agent-rs/src/activity_spool.rs:70-146 | in every run with lost, repeated and reordered batches and acknowledgements and restarts anywhere, each record ever written is still in the spool or stored unchanged under its sequence, and the server holds nothing for the scope that was not written |
| ActivityDelivery.ReceiveKeepsInvIff | agent-rs/src/activity_spool.rs:84-98 | an acknowledgement keeps the protocol invariant if and only if it leaves a torn record in place until the spool is reopened |
| ActivityDelivery.TornAcknowledgeLosesAnEvent | agent-rs/src/activity_spool.rs:110-146 | concrete failure: without the reopen an event is written, acknowledged under another event's sequence, and lost |
| ActivityDelivery.TornAcknowledgeLosesIff | agent-rs/src/activity_spool.rs:84-146 | from any protocol state: acknowledge a torn record without a reopen, append another event under the sequence handed out again, repeat the acknowledgement; something is lost if and only if that event is not the torn record |
| ActivityDelivery.ReceiveIsSafeIff | agent-rs/src/activity_spool.rs:84-146 | every continuation after an acknowledgement keeps every record if and only if the acknowledgement does not remove a torn record before a reopen |
| ActivityDelivery.PrunedIsStored | management/src/activity.rs:585-587 | every sequence below the first pending record is already at the server |
| ActivityDelivery.PrefixIsAccepted | management/src/activity.rs:585-636 | a deliverable prefix of the spool is accepted and acknowledged to its end |
| ActivityDelivery.RoundDrainsPending | agent-rs/src/activity_spool.rs:116-146 | from any reachable untorn state one undisturbed send, delivery and acknowledgement stores the pending batch and empties it from the spool |
| SpoolDrain.AnyRunCanBeDrained | agent-rs/src/activity_spool.rs:34-146 | after any run from the start, a restart and enough undisturbed rounds empty the spool, and every record ever written is then stored unchanged, provided the records still pending are deliverable |
| SpoolDrain.RoundsEmptySpool | agent-rs/src/activity_spool.rs:116-146 | enough undisturbed rounds of any positive limit empty the spool, after which every record ever written is stored unchanged |
| DeliveryOrder.BatchLeavesNoGap | management/src/activity.rs:539-562 | a consecutive batch that starts at or below highest+1 adds no loss record and reports no gap |
| DeliveryOrder.PendingIsGrounded | agent-rs/src/activity_spool.rs:116-118 | what an exporter sends is one contiguous run, and everything below it is already at the server |
| DeliveryOrder.GroundedBatchLeavesNoGap | management/src/activity.rs:539-562 | accepting such a batch, however late, leaves the loss table as it was |
| DeliveryOrder.DeliveryIsInOrder | management/src/activity.rs:539-636 | in every run of the protocol the scope's events arrive strictly as 1, 2, 3, ...: no loss range is ever recorded for it, no acknowledgement of a sent batch reports a gap, and the durable mark is the highest stored sequence |
| QueryCaches.CachedReadAgrees | management/src/activity.rs:658-686 | a query keeps the cache bounded with every entry the decoding of its bytes, and returns what the cache-free query returns whenever that succeeds |
| QueryCaches.CachedReadAgreesAfterAnyHistory | management/src/activity.rs:658-686 | the same after any history of queries by any scopes over any table contents |
| QueryCaches.CachedReadSucceedsIff | management/src/activity.rs:661-686 | the cached query answers if and only if each row is cached with its current bytes or decodes in scope |
| QueryCaches.PlainReadSucceedsIff | management/src/activity.rs:780-804 | the cache-free query answers if and only if every row of the agent decodes in the queried scope |
| QueryCaches.PlainReadReturnsDecodings | management/src/activity.rs:780-804 | a cache-free query answers if and only if each row decodes to an event that passes every check under the scope, and then returns those events in row order; its only error is Corrupt |
| QueryCaches.DecodedRowIsCachedIff | management/src/activity.rs:667-682 | a decoded row is cached exactly when it replaces its own entry or fewer than 5000 are held; other entries stay |
| QueryCaches.PlainReadIsOwnScope | management/src/activity.rs:799-801 | what it then returns all belongs to the queried collector |
| QueryCaches.CacheMasksFailureIff | management/src/activity.rs:661-686 | the cache answers where a cache-free query fails exactly when each row is cached or in scope and some cached one is out of scope |
| QueryCaches.FailedQueryUnlocksAnother | management/src/activity.rs:661-686 | concrete case: a query fails, another collector's failing query fills the cache, the first query repeated succeeds |
| QueryCaches.TimelineReader.Read | management/src/activity.rs:658-686 | the row loop returns and caches what the specification says, and keeps the cache invariant |
| TimelinePaging.Select | management/src/activity.rs:258-285 | the filtered timeline holds exactly the rows every given filter accepts |
| TimelinePaging.EachFilterNarrows | management/src/activity.rs:258-285 | each filter set keeps, of the events matched so far, exactly those whose own field has the wanted value or time |
| TimelinePaging.FiltersOnlyNarrow | management/src/activity.rs:258-285 | an event some filter refuses stays refused whatever filters are added |
| TimelinePaging.PageLength | management/src/activity.rs:688-708 | a page holds 200 events by default, at most 5000, and as many as wanted whenever more follow |
| TimelinePaging.SelectConcat | management/src/activity.rs:689-692 | filtering works part by part and keeps timeline order |
| TimelinePaging.SelectKeepsDistinct | management/src/activity.rs:688-693 | filtering keeps identifiers distinct, so a cursor is unambiguous |
| TimelinePaging.PageContinues | management/src/activity.rs:694-715 | the page after the first k events is the next slice, and its cursor marks the end of that slice |
| TimelinePaging.ReadAllPages | management/src/activity.rs:688-715 | following next_cursor until has_more is false ends after exactly the needed number of pages and yields the filtered timeline, nothing repeated or left out |
| TimelinePaging.ReadTimeline | management/src/activity.rs:688-715 | all pages of a query are exactly the rows its filter accepts, in timeline order, in exactly the needed number of pages |
| TimelinePaging.PageAdvancesIff | management/src/activity.rs:688-708 | a page that announces more can be continued if and only if the limit is not zero |
| TimelinePaging.ZeroLimitNeverAdvances | management/src/activity.rs:688-708 | concrete failure: with limit zero any non-empty timeline gives an empty page that announces more and has no cursor |
| TimelinePaging.UnknownCursorRestarts | management/src/activity.rs:694-699 | an unknown cursor returns the first page again, with only the flag telling |
| TimelineCoverage.SequencesFacts | management/src/activity.rs:997-1001 | the ordered set holds each observed sequence once, ascending |
| TimelineCoverage.GapsAreMaximal | management/src/activity.rs:1004-1017 | each reported gap is a maximal run of missing sequences |
| TimelineCoverage.FindGaps | management/src/activity.rs:1004-1017 | the pass over the sequences reports exactly the maximal missing intervals of 1..last, in order |
| TimelineCoverage.CoverageGapsAreExact | management/src/activity.rs:994-1017 | the gaps of a collector's coverage are exactly the ordered maximal intervals of 1..last that no row read for it carries |
| TimelineCoverage.CoverageListsEachOnce | management/src/activity.rs:988-1083 | each collector of the rows is listed once, in name order, with the number of its rows, the smallest sequence, its counters and its recorded losses |
| TimelineCoverage.CountersAdd | management/src/activity.rs:1056-1065 | the counters add one per restart event and what each row reports as dropped |
| TimelineCoverage.LossesAre | management/src/activity.rs:1018-1042 | the losses listed are exactly the ranges recorded for the scope |
| TimelineCoverage.CompleteOverRowsIff | management/src/activity.rs:983-1112 | over the rows read: complete if and only if rows were read, none reports a restart, dropped events or an unsupported class, no collector is stale, none leaves a hole below its highest sequence, and no loss is recorded for one of them |
| TimelineCoverage.LossRecordsAreAscending | management/src/activity.rs:1018-1042 | the loss records of a collector, in the order they were recorded, are already the ascending order the query asks for |
| TimelineCoverage.CompleteIff | management/src/activity.rs:1094-1112 | the verdict is complete exactly when some collector is listed and every listed one is clean |
| TimelineCoverage.NoLossIffInOrder | management/src/activity.rs:539-562 | a scope has no loss record if and only if its events arrived as 1, 2, 3, ... |
| TimelineCoverage.CompleteMeansFullyDelivered | management/src/activity.rs:1088-1112 | a complete verdict over a store written by ingest means for each listed collector: strictly in-order arrival, stored sequences exactly 1..highest, durable mark equal to highest |
| TimelineCoverage.GapLiesInOneLossRange | management/src/activity.rs:1002-1042 | when the read covers every row of the agent each reported gap lies inside a single recorded loss range |
| MerkleRoots.ComputeRoot | management/src/activity_governance.rs:554-565 | the rewriting loop computes the recursive root |
| MerkleRoots.HashPairs | management/src/activity_governance.rs:559-562 | the next level, pair after pair |
| MerkleRoots.RootIsTree | management/src/activity_governance.rs:554-565 | the root of any leaf list is the binary tree of least height over its leaves, left half first, an empty right half replaced by the left subtree |
| MerkleRoots.RootSplits | management/src/activity_governance.rs:554-565 | one leaf is its own root, two are hashed left then right, and p < n <= 2p leaves, p a power of two, hash the root of the first p with the tree of the same height over the others |
| MerkleRoots.BatchRootIsRootOfSorted | management/src/activity_governance.rs:397-406 | the root of a batch is the root of its leaves in any sorted arrangement |
| MerkleRoots.LevelInjective | management/src/activity_governance.rs:559-562 | a level of pair hashes determines the nodes below it |
| MerkleRoots.RootInjective | management/src/activity_governance.rs:554-565 | leaf lists of one length with the same root are the same list |
| MerkleRoots.OddListSharesRoot | management/src/activity_governance.rs:556-558 | every odd list longer than one shares its root with the list that repeats its last leaf, so the length check is needed |
| MerkleRoots.SortedIsCanonical | management/src/activity_governance.rs:405 | two sorted leaf lists with the same elements are the same list |
| MerkleRoots.LeavesAgreeIff | management/src/activity_governance.rs:397-404 | leaves agree as multisets exactly when the events do |
| MerkleRoots.SameRootIffPermutation | management/src/activity_governance.rs:397-406 | event lists of one length have the same root exactly when one is a permutation of the other |
| BatchManifests.DecimalRoundTrip | management/src/activity_governance.rs:517-534 | the rendered event count uses digits only and reads back |
| BatchManifests.DecimalHasNoLeadingZero | management/src/activity_governance.rs:517-534 | and has no leading zero |
| BatchManifests.SignedTextIs | management/src/activity_governance.rs:517-534 | the signed text, field by field in order, separated by NUL |
| BatchManifests.JoinNuls | management/src/activity_governance.rs:517-534 | the joined text holds only separator NULs exactly when no field holds one |
| BatchManifests.SignedTextDeterminesManifest | management/src/activity_governance.rs:517-534 | the text signed for a NUL-free manifest equals another manifest's text exactly when every signed field agrees, up to an absent or empty previous root |
| BatchManifests.NulFieldsCollide | management/src/activity_governance.rs:517-534 | any manifest with a NUL in a field shares its signed text with a different manifest |
| BatchManifests.SignedTextIdentifiesIff | management/src/activity_governance.rs:517-534 | the signed text identifies a manifest, up to an absent or empty previous root, if and only if no field holds a NUL |
| BatchManifests.SignedTextIsUniqueIff | management/src/activity_governance.rs:517-534 | it identifies every signed field if and only if, besides, the manifest names a non-empty previous root |
| BatchManifests.VerifyPanicsIff | management/src/activity_governance.rs:420-441 | verify panics if and only if the manifest counts no event and is shown with no event and its own anchor; a manifest made by sign never is |
| BatchManifests.SignedManifestCarries | management/src/activity_governance.rs:384-419 | signing works exactly for a non-empty batch and a key of at least 32 bytes; each argument is in its own field, with the count, the root of the sorted leaves, and the signature of the text |
| BatchManifests.FreshManifestIsAcceptedIff | management/src/activity_governance.rs:420-441 | a freshly signed manifest, with any events, key and anchor, is accepted exactly when the anchor is its checkpoint, the events are a permutation of the signed ones and the key gives its signature |
| BatchManifests.VerifyAcceptsExactlyPermutations | management/src/activity_governance.rs:384-441 | a freshly signed manifest, against its own checkpoint and key, accepts exactly the permutations of the signed events |
| BatchManifests.BorrowedSignatureIsRejected | management/src/activity_governance.rs:420-441 | a manifest carrying the signature of a NUL-free one is accepted, with any events and anchor, only if all signed fields are the same, up to an absent or empty previous root |
| BootstrapTokens.RunKeepsTokenInv | management/src/bootstrap_enrollment.rs:115-160 | every record, in memory or in the file, belongs to a generated token |
| BootstrapTokens.ConsumeSucceedsAtMostOnce | management/src/bootstrap_enrollment.rs:162-207 | after an accepted consume, in any further run with failed saves and reloads, every attempt on the token is AlreadyConsumed |
| BootstrapTokens.RevokedNeverAccepted | management/src/bootstrap_enrollment.rs:247-264 | after a revoke that reported success no attempt is ever accepted again |
| BootstrapTokens.AcceptedOnlyIfEntitled | management/src/bootstrap_enrollment.rs:162-243 | after any run an attempt is accepted only if the token was issued for exactly the identity presented, within its lifetime, with no accepted consume or successful revoke since, and returns the identity issued |
| BootstrapTokens.LiveTokenReplies | management/src/bootstrap_enrollment.rs:162-264 | on a token not used up, revoked or pruned, with working saves: late is Expired, another identity in time is SpiffeMismatch, its own is accepted with the identity issued (Persistence if the save fails), and a revoke succeeds |
| BootstrapTokens.IssueIsRefusedIff | management/src/bootstrap_enrollment.rs:115-160 | an issue is refused exactly when the SPIFFE id does not name the instance, and otherwise expires at now plus ttl |
| BootstrapTokens.OnlyItsOwnRecordIsMarked | management/src/bootstrap_enrollment.rs:194-207 | an accepted consume or a successful revoke marks its own record with its own time and saves it; no other record changes |
| BootstrapTokens.RefusalChangesNothing | management/src/bootstrap_enrollment.rs:162-243 | a refused attempt changes neither memory nor file, unless the refusal is that the save failed |
| BootstrapTokens.FailedSaveIsUndoneByReload | management/src/bootstrap_enrollment.rs:198-207 | a consume whose save failed returns an error, blocks the token in memory, and a reload undoes it |
| BootstrapTokens.CountStats | management/src/bootstrap_enrollment.rs:266-287 | one pass puts each record in exactly one of four classes |
| BootstrapTokens.StatsAgreeWithAttempts | management/src/bootstrap_enrollment.rs:266-287 | the class a token is counted in is the reply an attempt with its own identity would get |
| BootstrapTokens.PrunedIff | management/src/bootstrap_enrollment.rs:289-304 | a record is pruned exactly when it expired and was never consumed |
| BootstrapTokens.PruneReplies | management/src/bootstrap_enrollment.rs:289-304 | the reply is the number of records that had expired unconsumed |
| BootstrapTokens.PruneKeepsActiveAndConsumed | management/src/bootstrap_enrollment.rs:289-304 | pruning removes every expired record and no active or consumed one |
| BootstrapTokens.BootstrapTokenStore.LoadOrCreate | management/src/bootstrap_enrollment.rs:86-113 | memory starts as the file |
| BootstrapTokens.BootstrapTokenStore.IssueToken | management/src/bootstrap_enrollment.rs:115-160 | the specified state and reply |
| BootstrapTokens.BootstrapTokenStore.ConsumeToken | management/src/bootstrap_enrollment.rs:162-207 | the checks in order, the consumed mark and the save give the specified state and reply |
| BootstrapTokens.BootstrapTokenStore.ValidateToken | management/src/bootstrap_enrollment.rs:213-243 | the same checks in order, changing nothing |
| BootstrapTokens.BootstrapTokenStore.RevokeToken | management/src/bootstrap_enrollment.rs:247-264 | the specified state and reply |
| BootstrapTokens.BootstrapTokenStore.PruneExpiredUnconsumed | management/src/bootstrap_enrollment.rs:289-304 | the specified state and reply, saving only when something was removed |
| CrashLoops.KeptCount | management/src/crash_loop.rs:145-148 | dropping crashes older than a floor changes no count above it |
| CrashLoops.StepKeepsCounts | management/src/crash_loop.rs:126-148 | with a non-decreasing clock the pruned list answers every later window query as the full history since the last reset does |
| CrashLoops.RestartsAreThoseInWindow | management/src/crash_loop.rs:126-132 | what is counted is exactly the recorded crashes later than now minus the window |
| CrashLoops.CrashListAfter | management/src/crash_loop.rs:145-148 | a crash leaves the old list and itself, less what is older than two windows |
| CrashLoops.CrashState | management/src/crash_loop.rs:243-291 | the state a crash leaves: Recovering unless it is a loop, then Failed without and CrashLoop with attempts left |
| CrashLoops.StateFollowsLastEvent | management/src/crash_loop.rs:212-362 | in every run the state follows the last event |
| CrashLoops.RebuildOrderedIff | management/src/crash_loop.rs:225-315 | a crash orders a rebuild if and only if remediation is on, the boot was short or of unknown length, attempts remain, and the full history holds enough crashes in the window |
| CrashLoops.StepKeepsBound | management/src/crash_loop.rs:351-362 | rebuilds counted and rebuilds decided stay within the maximum plus the overlap |
| CrashLoops.EveryResetIsJustified | management/src/crash_loop.rs:332-348 | in every run counters are cleared only by mark_healthy after a healthy stretch longer than the reset time with no start, crash or rebuild in it |
| CrashLoops.MarkHealthyResetsIff | management/src/crash_loop.rs:135-142 | mark_healthy resets exactly when the VM has been quiet since it entered Healthy more than the reset time ago; it then clears crashes and rebuilds, and otherwise neither |
| CrashLoops.SerialRunIsBounded | management/src/crash_loop.rs:509-531 | crash events handled one at a time, as the background task does, mark_healthy anywhere in between: never more rebuilds between resets than the maximum |
| CrashLoops.OverlappingRunIsBounded | management/src/crash_loop.rs:187-362 | for concurrent callers of process_event: with h overlapping handlers at most maximum + h - 1 |
| CrashLoops.OverlapBoundIsReached | management/src/crash_loop.rs:187-362 | for concurrent callers: some run reaches maximum + h - 1 |
| CrashLoops.MaximumHoldsIff | management/src/crash_loop.rs:187-362 | what process_event requires of its callers: the configured maximum holds in every run if and only if crash handlers do not overlap (or no crash can order a rebuild at all) |
| CrashLoops.OverlapExceedsMaximum | management/src/crash_loop.rs:326-362 | the smallest concurrent case: maximum 1, two crashes handled before either triggers, two rebuilds |
| CrashLoops.CrashLoopDetector.HandleStarted | management/src/crash_loop.rs:212-222 | the VM's history, new or old, becomes Starting; other VMs are untouched |
| CrashLoops.CrashLoopDetector.HandleCrash | management/src/crash_loop.rs:225-315 | the locked part of crash handling leaves the specified history and decision; other VMs are untouched |
| CrashLoops.CrashLoopDetector.MarkVmHealthy | management/src/crash_loop.rs:332-348 | the specified history of a known VM; an unknown one is ignored |
| CrashLoops.CrashLoopDetector.BeginRebuild | management/src/crash_loop.rs:351-362 | Rebuilding and one more attempt for a known VM |
| OutputChannels.StepKeepsCustody | agent-rs/src/main.rs:4338-4453 | who holds the receiver in each phase |
| OutputChannels.StepKeepsLedger | agent-rs/src/main.rs:4432-4453 | what was sent is what connections took, in order, then what is in hand, then what is buffered; a lost message is its connection's last |
| OutputChannels.OneLossPerConnection | agent-rs/src/main.rs:4441-4445 | each connection loses at most one message |
| OutputChannels.SenderReplacedOnlyByLastResort | agent-rs/src/main.rs:4205-4231 | the sender changes exactly as often as the last resort is taken |
| OutputChannels.ReturningForwardersKeepTheReceiver | agent-rs/src/main.rs:4187-4208 | while every forwarder returns, the receiver is never orphaned and the last resort never taken |
| OutputChannels.OutputSurvivesReconnects | agent-rs/src/main.rs:4287-4345 | over every run in which forwarders return: one owner at all times, stream_loop finds the receiver, the sender is never replaced, nothing sent is dropped, messages reach connections in order less at most one per connection |
| OutputChannels.ReplacedSenderDropsOutput | agent-rs/src/main.rs:4210-4230 | after the last resort everything an earlier session sends is dropped |
| OutputChannels.ClosedStreamCanRecover | agent-rs/src/main.rs:4537-4540 | once a stream has ended the receiver can always come back within two steps, at the cost of at most the message in hand |
| SessionReconciliation.AliasRoundTrip | agent-rs/src/main.rs:644-652 | an id names a tmux session exactly when it is that non-empty session's alias |
| SessionReconciliation.NewSessions | agent-rs/src/main.rs:3860-3878 | a discovered session is added exactly when neither its id nor its name is already tracked |
| SessionReconciliation.KillFromAccounts | agent-rs/src/main.rs:4084-4162 | killed and failed together are the requested ids as a multiset, and only tmux kills fail |
| SessionReconciliation.KillFromLeaves | agent-rs/src/main.rs:4114-4158 | a command is left, unchanged, exactly when it was there, was not asked for (tmux ids aside) and did not exit by itself |
| SessionReconciliation.ReconcileAccountsForEveryRequest | agent-rs/src/main.rs:4687-4703 | the same for a reconcile message; with kill_unrecognized no kept id is touched |
| SessionReconciliation.ReportedIff | agent-rs/src/main.rs:4052-4081 | reported are the tracked commands and each discovered session whose id and name none of them has |
| SessionReconciliation.AskedToKillIff | agent-rs/src/main.rs:4687-4699 | without kill_unrecognized exactly the list in the message is killed, with it exactly what is reported and not kept |
| SessionReconciliation.KilledIff | agent-rs/src/main.rs:4114-4158 | a tmux id is killed or failed by what its own kill returned, any other id is always killed |
| SessionReconciliation.MergeReportsEachOnce | agent-rs/src/main.rs:3860-3878 | a discovered session that is added repeats no id and no name reported before it |
| SessionReconciliation.TrackedAliasIsKilledIff | agent-rs/src/main.rs:4687-4699 | with kill_unrecognized the tmux alias of a tracked, named session is asked to be killed if and only if the alias is itself a tracked command and is not in the keep list |
| SessionReconciliation.TrackedAliasIsKilled | agent-rs/src/main.rs:4687-4699 | concrete failure: a kept command and a tracked tmux alias share a name, and the alias is killed |
| SessionReconciliation.SurvivorsAreExactlyTheKept | agent-rs/src/main.rs:4687-4699 | with kill_unrecognized the tracked non-tmux commands left are exactly the kept ones that did not exit by themselves |
| SessionReconciliation.AliasIsReportedKeptIff | agent-rs/src/main.rs:4706-4713 | a tmux alias appears in the kept list exactly when it is tracked or no surviving command carries its name |
| SessionReconciliation.KeptListNamesAnAlias | agent-rs/src/main.rs:4679-4713 | concrete failure: a whole reconcile whose reply lists as kept an alias nobody asked to keep |
| SessionReconciliation.AgentSessions.KillSessions | agent-rs/src/main.rs:4114-4162 | the second pass has the specified effect and accounts for every requested id |

## Left out

- SQLite, fsync, rename and file-system mechanics: a transaction, a record write, a rename and a save
  are atomic steps; a half-written spool line, which makes `open` fail, is outside the model.
- ActivityStores.Advance: the durable mark is a natural number; the storage error when it is already
  i64::MAX and the next look-up is out of SQLite's range is not modelled.
- QueryCaches.ReadCached: rows are given in the order the SELECT returns them; ordering by RFC 3339 text
  and the 5000-row limit are the caller's choice of rows.
- TimelineCoverage.CompleteMeansFullyDelivered: staleness is an arbitrary predicate of the rows; clock
  error and last-observed values are left out because no verdict depends on them.
- CompleteMeansFullyDelivered: says nothing about losses a collector reports in its own events, because
  the collector writes `lost_observations` and the verdict reads `dropped_events`.
- ActivityCollectors.Enqueue: counters are unbounded; 64-bit overflow of health counters and of the next
  sequence is not modelled.
- BatchManifests.Verify: signatures are compared as text; the hex decoding that ignores letter case is
  not modelled.
- BootstrapTokens.Exec: each change is atomic with its own save; interleaved saves of two changes are not
  modelled.
- SessionReconciliation.KillAll: the signals of the first pass and the grace period show only as commands
  that exit by themselves; a command started while sessions are killed is not modelled.
- OutputChannels.Next: registration, heartbeat and metrics traffic on the same connection is left out;
  `handed` means passed to the connection's message queue.
- ActivityEvents.Decode: envelope compression, the size limit and the storage-type check before it are
  treated as lossless or as arbitrary predicates.
- CrashLoops.Run: starts from a new history; loading and saving histories is left out.
- Legal holds, role checks, exports and the manifest chain check: each is a comparison of fields or one
  filter over a list.
- macOS events end to end: only their queue is modelled, since the server has no `filesystem` plane.
- DNS, flow, journal and audit normalisation, gRPC, TLS, PTY, tmux and virsh calls, health,
  certificates, configuration, metrics and the user interfaces: calls to the outside, field mapping
  and display.
