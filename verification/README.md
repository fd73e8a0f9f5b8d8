# Verified models of the monitoring back-end

This Dafny project models the parts of the back-end whose correctness rests on more
than one function: the scalable polling pipeline, the event store that two engines
write to, and the smaller stateful cores around them. It proves what they keep over
whole runs. `dafny verify dfyconfig.toml` checks everything.

## What is modelled

The **polling pipeline**. `Envelopes` and `EventRows` say which metric samples and which
event rows one polling result yields; `LatestState` and `IdempotentRows` are the two
de-duplications that every batch of rows goes through. `ResultPipeline` is the result
writer pool as a step protocol: any number of writers claim results under leases, look
up receipts, store samples and receipts in one transaction and then publish events, and
they may fail, crash, lose an acknowledgement or outlive their lease between any two
steps. A claim becomes visible with the first row that its writer completes or puts back;
until then its rows are locked. `EventDelivery` and `EventLoss` say when events are and
are not lost, `Storability` which results can still be stored, and `StoredValues` what the
table holds. `WriterPool` is one iteration of a writer as a program, proved to perform
steps of that protocol; `PlanSizes` counts what it stores. `TaskLeases` is the leased task queue,
`RetryPolicy` what repeated failures do to it, `SafetyLimits` and `LeasedWorker` the
worker that executes tasks, and `Scheduler` the expansion of metric definitions into
tasks.

The **event store**. `LockOrder` is the acquisition of advisory locks by concurrent
batches, and `CrossLocks` combines them with the row locks of claims. `EventStore` splits
the "existing or create" statement into its lookup and its write, lets other writers,
recoveries and operators act in between, and treats the pipeline and the legacy engine
alike. Operators may close and acknowledge any event. `EventBatches` says which batches
keep its events unique, and `EventLookup` which event a row finds, what it makes of it, and
why PROPAGATED events stay unique. `Correlation` is one legacy poll cycle with its ROOT and PROPAGATED passes.

The **smaller cores**. `RateLimiter` (sliding window), `Lockout` (login attempts),
`MappingRepo` and `ProposalRepo` (lifecycles with concurrent approvers),
`Interpolation` (time grid) and `Simulator` (apportionment).

Code that works step by step is modelled as classes and methods with loops, each proved
against a function or a transition of its state; what several writers do together is
modelled as a transition system whose steps are single statements or commits, and the
theorems quantify over all sequences of steps. Identifiers stand for strings (numbered
in string order where the order matters), times and measurements are exact numbers.

## What the proofs show about the code

Where comments or design notes say otherwise, the model follows the code.

- Samples are stored exactly once under every race and failure, but events are not:
  a crash, or a commit whose acknowledgement is lost, between the two stores turns a
  result into a duplicate that the next writer completes, and nothing repairs that.
- The derived latency, jitter and packet-loss envelopes keep the idempotency key of
  their result, so only the last of a result's rows reaches the event store. A host
  that is down with packet loss measured opens no AVAILABILITY event.
- The leased worker queues its results with their polling status, which no claim
  accepts: such rows are never processed (`EventDelivery.PolledRowIsStranded`). Apart
  from them, what cannot be stored any more is exactly what the primary key turns away.
- Two results that fix a common sample key never both get a receipt, so one of them is
  never written. A latency or loss result that carries the sidecar of its own metric fixes
  one key twice and can never be stored.
- A claim is committed only by the first row that is completed or put back. An iteration
  that outlives its lease is therefore harmless until it has completed a duplicate; from
  then on another writer can complete its results before their events are published.
- Sorted acquisition is documented to rule out deadlocks. With hashed lock keys it does
  so exactly when triplets that share a key lie together in the sort order. Together
  with the row locks of uncommitted claims, even separate keys can deadlock, exactly
  when iterations outlive leases that they have committed.
- The locks do not make active events unique by themselves. Two ROOT breaches of one
  batch that concern one place and name different origins both create their event; so
  does an operator who acknowledges a closed or recovered event beside a live one, and a
  second engine whose statement reopens recovered events. For each of these the exact
  condition is proved. A PROPAGATED row takes only an event of the origin that it names,
  so these events are unique for each state key unless an operator brings an ended one
  back beside a live one.
- A recovered latency, jitter or packet-loss event of the legacy engine is refreshed but
  not reopened, and its presence keeps that engine from creating a new one. As long as
  only this engine writes and nobody closes the event, only an acknowledgement brings
  such a place back; the pipeline would open a new event beside it.
- In a legacy cycle a candidate whose helper fails in pass 2 is not written at all. The
  comment in `backend/engines/correlation.py:241-244` expects later passes to fall back
  to ROOT, but pass 3 filters candidates out.
- Task transitions do not check who holds the lease, so a stale worker can revive a task
  that another one has completed. With the check no task would ever be revived.
- A worker that is not given a shared limiter starts each iteration with an empty one
  and never defers a task.
- The proposal limiter never checks a first call and reads the clock before its lock.
- Mapping versions can go down, and an update that began on a draft can rewrite the
  target after the approval; nothing else can.

## Model

| member | source | states |
|---|---|---|
| `Envelopes.SampleSetsShareFixedKeys` | backend/polling/writer_pool.py:81-154 | two attempts at one envelope may disagree about the jitter sample only; every other primary key is fixed by the envelope, and an attempt stores something exactly when there is a fixed key |
| `Envelopes.SamplesExact` | backend/polling/writer_pool.py:73-154 | a sample is stored for an envelope if and only if it is one of four measurements, with its value: the numeric of the envelope unless that is an internal availability poll, the latency of its metadata, the distance between that and the earlier latency, and a loss of 0 or 100 percent |
| `Envelopes.SamplesCounted` | backend/polling/writer_pool.py:81-154 | each of the four is stored once |
| `Envelopes.DistinctKeysIff` | backend/polling/writer_pool.py:73-154 | an envelope fixes one key twice exactly when it is a latency or loss result that carries the sidecar of its own metric |
| `Envelopes.DerivedExact` | backend/polling/writer_pool.py:157-261 | the derived event envelopes are exactly the reports of the latency and of a jitter and a loss that reach a limit, with value, status and limits, under the key, the CI and the time of the result |
| `Envelopes.DerivedInOrder` | backend/polling/writer_pool.py:424-436 | latency comes before jitter and jitter before loss, which decides which of them survives |
| `Envelopes.EventPayloadsDecidedByEnvelope` | backend/polling/writer_pool.py:424-436 | whether an attempt contributes event payloads does not depend on the latency that it reads: it does unless it is an internal availability poll without a latency and without a loss that reaches a limit |
| `LatestState.KeptExact` | backend/polling/event_writer.py:107-127 | the latest-state de-duplication keeps one row per key: all other rows of the key are undated while it is dated, or dated earlier, or come before it with the same date |
| `LatestState.NoKeyKeptTwice` | backend/polling/event_writer.py:107-127 | no two survivors have the same key |
| `LatestState.KeptInOrder` | backend/polling/event_writer.py:107-127 | the survivors are in the order in which their keys first appear |
| `LatestState.KeptIdempotent` | backend/polling/event_writer.py:130-137 | a second pass, which the writer does perform, changes nothing |
| `LatestState.SurvivorsIndependentOfOrder` | backend/polling/event_writer.py:107-127 | when the times of a key are distinct, the survivors do not depend on the order of the rows |
| `LatestState.Dedupe` | backend/polling/event_writer.py:107-127 | the loop over a dictionary computes the specified survivors in their order |
| `LatestState.CurrentIffLatest` | backend/polling/event_writer.py:204-211 | a metric row with a key is kept exactly when it is the latest of its key |
| `LatestState.KeepCurrent` | backend/polling/event_writer.py:204-211 | the filter over the surviving identities computes the specified rows in their order |
| `IdempotentRows.DedupedExact` | backend/polling/event_writer.py:318-351 | rows without a key all survive in order and each key survives once, at its first position, with exactly the row that the replacement rule selects |
| `IdempotentRows.DatedItemsKeepLastMaximum` | backend/polling/event_writer.py:318-351 | when all times are present the kept row of a key is the last one of maximal time |
| `IdempotentRows.KeptIndexExact` | backend/polling/event_writer.py:318-351 | which row of a key is kept, as a condition on all other rows of the key |
| `IdempotentRows.DedupeIdempotent` | backend/polling/event_writer.py:318-351 | the loop with its index map computes that result; the map always points at the row of its key |
| `IdempotentRows.GroupsCollapse` | backend/polling/event_writer.py:318-351 | groups of rows that share a key and a time collapse to their last rows |
| `EventRows.PrepareBatch` | backend/polling/event_writer.py:380-386 | the statements of a batch get the collapsed rows, the metric rows, the latest states and the breaches among them, with the double de-duplication |
| `EventRows.CollapsedExact` | backend/polling/event_writer.py:318-351 | of the envelopes with one idempotency key the one observed last, and of those the last in the batch, has its row left; envelopes without a key all have |
| `EventRows.LatestRowsExact` | backend/polling/event_writer.py:96-127 | the de-duplication leaves exactly the rows that target an event and are the latest of those with the same CI, metric, kind, correlation and origin |
| `EventRows.MetricRowsExact` | backend/polling/event_writer.py:204-211 | a metric row is left out exactly when the batch holds a later row for the same CI, metric, kind, correlation and origin |
| `EventRows.LatestRowsIdempotent` | backend/polling/event_writer.py:385-386 | the two consecutive de-duplications of event rows are one |
| `EventRows.SurvivorsHaveOwnKeys` | backend/polling/event_writer.py:96-127 | every surviving row targets an event and no state key is both breached and recovered in one batch |
| `EventRows.OpeningHasOwnKeys` | backend/polling/event_writer.py:130-137 | the breach rows are exactly the breaches among the states, each once |
| `EventRows.OneRowPerResult` | backend/polling/writer_pool.py:157-180 | derived envelopes keep the idempotency key of their result, so of all the rows of a result exactly the last one survives |
| `EventRows.AvailabilityReachesStoreIffNothingDerived` | backend/polling/writer_pool.py:424-436 | a result opens an AVAILABILITY event if and only if its check measured zero and nothing was derived from it, and recovers one if and only if it measured anything else and nothing was derived |
| `EventRows.MeasuredHostLosesAvailability` | backend/polling/writer_pool.py:225-261 | a host that is down with packet loss measured, or up with a latency, has no AVAILABILITY row left in any batch |
| `EventRows.CollectionFailureIff` | backend/polling/event_writer.py:236-248 | a row reports a collection failure if and only if the status of its result is none of OK, WARNING and CRITICAL |
| `EventRows.AvailabilityBreachIff` | backend/polling/event_writer.py:249-258 | a row opens an AVAILABILITY event if and only if a collected ICMP check with an availability source measured exactly zero |
| `EventRows.ThresholdBreachIff` | backend/polling/event_writer.py:259-276 | a row opens a THRESHOLD_BREACH event if and only if a collected value that is no availability check reaches its critical or its warning limit, under the operator of the metric |
| `EventRows.RecoveryIff` | backend/polling/event_writer.py:229-278 | a row recovers if and only if it has a value and is no breach |
| `EventRows.OriginOf` | backend/polling/event_writer.py:280-304 | the correlation and the origin of a row are those of its metadata, by default a root cause at its own CI |
| `EventRows.TargetIff` | backend/polling/event_writer.py:96-104 | a collected value targets the AVAILABILITY event if it is an availability check and the THRESHOLD_BREACH event otherwise; nothing else targets an event |
| `EventRows.KeysAgreeIff` | backend/polling/event_writer.py:107-127 | two rows have one state key if and only if they agree on CI, metric, targeted kind, correlation and all three origin fields |
| `EventRows.ReportOpensIff` | backend/polling/event_writer.py:259-276 | a derived envelope opens its event if and only if its measurement reaches a limit, and recovers it otherwise |
| `EventRows.HostCheckAlone` | backend/polling/writer_pool.py:424-436 | from a single check with nothing derived the batch opens the event of a host that is down, and only recovers it when the host is up |
| `ResultPipeline.ExactlyOnceSamples` | backend/polling/writer_pool.py:385-417 | in every run of any number of writers (races, rollbacks, retries, lease expiry, crashes, lost acknowledgements) a receipt is stored iff some transaction stored the result, no sample of a result is inserted twice, and the table is exactly what was committed, under its primary key |
| `ResultPipeline.CommonKeyExcludes` | backend/polling/writer_pool.py:312-332 | two results that fix a common sample key never both get a receipt, so at most one of them is ever written |
| `ResultPipeline.WrittenOrPendingHasReceipt` | backend/polling/writer_pool.py:396-464 | in every run a row is `written` or marked `neo4j_pending` only when its receipt is stored |
| `ResultPipeline.StepKeepsSafe` | backend/polling/pg_queue.py:164-193 | every single statement or commit keeps the safety invariants; an uncommitted claim locks its rows against other claims and is undone when its session ends |
| `ResultPipeline.RunsAreSafe` | backend/polling/writer_pool.py:352-464 | the invariants hold after every run |
| `ResultPipeline.CommittedExact` | backend/polling/writer_pool.py:312-332 | a result counts as stored iff it is in some committed plan |
| `ResultPipeline.InsertKeepsInsertedOnce` | backend/models/timescale_models.py:7-9 | the primary key keeps the keys of all committed plans disjoint |
| `ResultPipeline.InsertableIff` | backend/models/timescale_models.py:7-9 | the table refuses a plan only for a key that it already has or that the plan holds twice |
| `ResultPipeline.ExpiryExact` | backend/polling/pg_queue.py:308-314 | the expiry of leases puts back exactly the unlocked rows whose lease is over, and no row becomes claimable by it that was not so before |
| `StoredValues.TableHoldsMeasurements` | backend/polling/writer_pool.py:312-332 | in every run each sample in the table is a measurement of a stored result, with its value, and each measurement of a stored result that depends on no earlier one is in the table |
| `StoredValues.OwnValueIsStored` | backend/polling/writer_pool.py:81-92 | in every run the table has the numeric of a stored result, and nothing else, under its time, CI and metric |
| `EventDelivery.NoLostEvent` | backend/polling/writer_pool.py:419-464 | without crashes, lost acknowledgements and iterations that outlive a committed lease, a result with events is `written` only after its events are in the event store; a stored one whose events are missing is marked for a replay or in flight |
| `EventDelivery.ReplayStoresNothing` | backend/polling/writer_pool.py:386-396 | in such runs a Neo4j failure is replayed without a second insert: no result is in two commits |
| `EventDelivery.DisciplinedRunsDeliver` | backend/polling/writer_pool.py:352-464 | the delivery invariants hold after every disciplined run |
| `EventDelivery.StepKeepsAccounted` | backend/polling/writer_pool.py:446-463 | no step loses track of a stored result whose events are unpublished |
| `EventDelivery.DuplicatesAreSilent` | backend/polling/writer_pool.py:387-396 | a duplicate without the marker has nothing left to publish |
| `EventDelivery.PolledRowIsStranded` | backend/polling/snmp_executor.py:238-255 | a row queued with a polling status, as the leased worker queues it, is never leased, stored or published by any run |
| `Storability.StorableIff` | backend/polling/writer_pool.py:352-417 | in every state that a run leads to, a result without a receipt can still be stored if and only if its row has no polling status and the sample table has none of the keys that its envelope fixes, nor does the envelope fix one twice |
| `EventLoss.CrashLosesEvents` | backend/polling/writer_pool.py:393-396 | after a crash between the two stores the next writer can complete the result as a duplicate, without its events |
| `EventLoss.LostAcknowledgementLosesEvents` | backend/polling/writer_pool.py:406-417 | a commit whose acknowledgement is lost leads to the same loss |
| `EventLoss.OverrunWritesTooEarlyIff` | backend/polling/writer_pool.py:393-396 | when an iteration outlives its lease before it publishes, another writer can complete one of its results without the events if and only if the iteration has completed a duplicate, which commits the claim |
| `EventLoss.TooEarlyIsReachable` | backend/polling/writer_pool.py:387-417 | such an early write is reachable from an empty queue for every result that has events and can be stored: its batch holds a duplicate |
| `EventLoss.WrittenTooEarlyIffCommitted` | backend/polling/pg_queue.py:164-193 | a result that is about to be published can be written meanwhile exactly when the claim is committed: until then `FOR UPDATE` keeps its row from every other claim |
| `EventLoss.ClosedIsDuplicate` | backend/polling/writer_pool.py:387-396 | what an iteration completes as a duplicate is an unmarked result of its batch with a receipt |
| `EventLoss.DuplicateIsClosed` | backend/polling/writer_pool.py:387-396 | before it publishes, an iteration completes every unmarked result of its batch that had its receipt when it was claimed |
| `EventLoss.LostForGood` | backend/polling/writer_pool.py:352-464 | no continuation of any kind repairs a lost event |
| `EventLoss.EventsCanBeLostIff` | backend/polling/writer_pool.py:419-464 | a result can lose its events in some run from an empty queue if and only if it has event payloads and one transaction can store its samples |
| `WriterPool.Pool.RunOnce` | backend/polling/writer_pool.py:352-464 | one iteration is a run of protocol steps of its writer, after which the writer is gone; the rows, the table and the statistics are as its two halves leave them |
| `WriterPool.Pool.StoreNew` | backend/polling/writer_pool.py:398-405 | building and storing the samples is one transaction; the plan holds exactly the measurements of the new results, and it is stored if the table is reached and admits it |
| `WriterPool.IterationDescribed` | backend/polling/writer_pool.py:352-464 | what an iteration makes of everything, in terms of what was there before: the measurements of the new results are stored together or not at all, `inserted` is the growth of the table, every row of the batch ends written, put back, marked or left alone according to the answers of the two stores, no row stays locked, and the statistics are the numbers of those rows |
| `WriterPool.NumberIs` | backend/polling/writer_pool.py:363-381 | the numbers in the statistics are the sizes of the sets of results that they count |
| `WriterPool.PerformsIsRun` | backend/polling/writer_pool.py:352-464 | what an iteration performs is a sequence of steps of the protocol, all by its own writer |
| `WriterPool.Pool.Settle` | backend/polling/writer_pool.py:406-463 | what follows the transaction: requeue the new results, complete everything, or mark exactly the results with events |
| `WriterPool.Pool.Examine` | backend/polling/writer_pool.py:385-396 | the receipts divide a batch into completed duplicates, new results and results that wait for a replay |
| `WriterPool.IterationsKeepSafe` | backend/polling/writer_pool.py:352-464 | whole iterations keep what single steps keep |
| `WriterPool.StoreGrows` | backend/polling/writer_pool.py:400-405 | under the primary key the table grows by the number of samples built |
| `PlanSizes.NothingCollapses` | backend/polling/writer_pool.py:400-405 | pairwise different samples lose none to the set they form |
| `LockOrder.SortedLocksDeadlockFreeIffConvex` | backend/polling/event_writer.py:176-201 | writers that take both phases in sorted order never deadlock, in any run of any number of them, if and only if triplets that share a lock lie together in the order |
| `LockOrder.DeadlockFreeIffAllCanEnd` | backend/polling/event_writer.py:176-202 | writers never deadlock if and only if from every reachable state all of them can still take their locks and end |
| `LockOrder.OwnLocksNeverDeadlock` | backend/polling/event_writer.py:430-484 | with one lock per triplet no reachable state with a writer is stuck |
| `LockOrder.UnsortedLocksDeadlock` | backend/polling/event_writer.py:140-173 | taking locks in the order of the rows is free of deadlock only if there is a single lock |
| `LockOrder.AcquisitionOrder` | backend/polling/event_writer.py:430-484 | both phases of a batch together ask for exactly its triplets, in one increasing order |
| `LockOrder.SortedTriplets` | backend/polling/event_writer.py:189-196 | one phase asks for the distinct complete triplets of its rows, sorted |
| `LockOrder.SomeoneCanMove` | backend/services/event_lock.py:186-217 | the writer that waits for the last triplet, or the one that holds its lock, can go on |
| `CrossLocks.DeadlockIffOverruns` | backend/polling/writer_pool.py:393-464 | over row locks and advisory locks together, some run of result writers reaches a deadlock if and only if iterations can outlive leases that they have committed |
| `CrossLocks.CommittedIff` | backend/polling/pg_queue.py:239-245 | a claim is committed exactly when its iteration has completed or put back one of its rows |
| `CrossLocks.DeadlockNeedsOverrun` | backend/polling/writer_pool.py:438-464 | in every deadlock one iteration waits, with its advisory locks, for a row that another one has claimed since and not committed, and that other one waits for an advisory lock |
| `CrossLocks.DeadlockLasts` | backend/services/event_lock.py:186-217 | no step but a crash of one of its writers ends a deadlock |
| `EventStore.LockedWritersKeepEventsUnique` | backend/polling/event_writer.py:482-551 | in every run of locking writers of one engine, with any batches, recoveries and closures in between, at most one live ROOT event exists per (CI, metric, event type), as long as writes and acknowledgements are harmless |
| `EventStore.WriteHarmlessIff` | backend/polling/event_writer.py:488-551 | a write keeps the events unique if and only if its batch does not bring two events of one place to life |
| `EventStore.StepKeepsConsistent` | backend/polling/event_writer.py:482-626 | lookup, recovery, closure, and harmless write and acknowledgement all keep that uniqueness |
| `EventStore.AcknowledgementHarmlessIff` | backend/services/event_service.py:1188-1212 | an operator may acknowledge an event of any status; the events stay unique in every continuation by harmless steps if and only if no other event lives at its place and no writer is about to bring one to life there with a harmless write |
| `EventStore.AcknowledgedUniqueIff` | backend/services/event_service.py:1197 | in the store alone: acknowledging keeps uniqueness if and only if no other live ROOT event is at the place |
| `EventStore.LiveIsHarmless` | backend/services/event_service.py:1188-1212 | acknowledging an event that still counts as existing is always harmless |
| `EventStore.AcknowledgedDuplicate` | backend/services/event_service.py:1188-1250 | with every lock taken, a run that opens, closes, opens again and acknowledges the closed event leaves two live ROOT events |
| `EventStore.WriteKeepsUniqueIff` | backend/polling/event_writer.py:504-551 | one write of any engine, however old its lookup, keeps unique what any engine takes for existing if and only if each row that brings an event to life has its place to itself |
| `EventStore.BatchKeepsUniqueIff` | backend/polling/event_writer.py:488-551 | one statement keeps ROOT events unique if and only if no two of its rows create one for the same place: all rows see the store as it was |
| `EventBatches.BatchRootsApartIff` | backend/polling/event_writer.py:107-137 | the rows that a batch leaves for the statement concern different places if and only if no two ROOT breaches of the batch, each the latest of its state key, concern one place and name different origins |
| `EventBatches.AgreeingRootsAreApart` | backend/polling/event_writer.py:107-137 | it is enough that the ROOT breaches of the batch that concern one place agree on their correlation fields |
| `EventStore.ApartNeverSplits` | backend/polling/event_writer.py:488-551 | a batch whose ROOT rows concern different places brings no two events of one place to life, whatever it finds |
| `EventBatches.FirstBatchUniqueIff` | backend/polling/event_writer.py:488-551 | over an empty store a batch leaves unique events if and only if its ROOT breaches do not disagree in that way |
| `EventBatches.DisagreeingBatchDuplicates` | backend/polling/event_writer.py:430-551 | with every lock taken, a run of one writer with such a batch makes two live ROOT events out of an empty store |
| `EventBatches.DisagreeingResults` | backend/polling/event_writer.py:218-330 | for every breaching ROOT envelope, two results that differ in their idempotency key and in the root cause of their metadata are such a batch |
| `EventStore.WrittenExact` | backend/polling/event_writer.py:504-551 | the written store holds the old events in their places and exactly the created ones |
| `EventStore.CreatedStays` | backend/polling/event_writer.py:504-524 | every row that found nothing creates its event, open and about its state key |
| `EventStore.OriginsStay` | backend/polling/event_writer.py:529-532 | a write fills in what an event does not know of its origin and overwrites nothing of it |
| `EventStore.UnlockedWritersDuplicate` | backend/polling/event_writer.py:482-484 | without the locks two writers create the same event |
| `EventStore.MixedEnginesDuplicate` | backend/engines/snmp_worker.py:849-880 | a run of the pipeline followed by a run of the legacy engine, both with locks, leaves two open ROOT events at one place |
| `EventStore.MixedBatchKeepsUniqueIff` | backend/engines/snmp_worker.py:844-880 | a batch of any engine keeps the pipeline events unique if and only if it reopens no recovered event beside an open one and no two rows bring different events of a place to life |
| `EventStore.ReopeningKeepsUniqueIff` | backend/engines/snmp_worker.py:849-880 | the legacy statement for one row keeps them unique if and only if it does not pick a recovered event where another one is open |
| `EventStore.LegacyThresholdReopensIff` | backend/engines/snmp_worker.py:1039-1070 | once a latency, jitter or packet-loss event has recovered and is not closed, an event of its place becomes active in a run of the legacy engine if and only if an operator acknowledges one that is there |
| `EventStore.LegacyThresholdNeverReopens` | backend/engines/snmp_worker.py:1039-1070 | the same for every harmless run of locking writers from an empty store up to the recovery, if no pending batch splits a place |
| `EventLookup.LookupExact` | backend/polling/event_writer.py:491-503 | the lookup finds an event if and only if there is a live one with the CI, metric, kind and correlation of the row and, if PROPAGATED, with every origin field that the row names; and what it finds is one |
| `EventLookup.LookupExists` | backend/polling/event_writer.py:491-504 | every batch can be looked up in every store |
| `EventLookup.RefreshExact` | backend/polling/event_writer.py:525-551 | what the rows of a batch make of an existing event, for each engine: known origin fields stay, an unknown one is filled in from the first row that offers one, and only the legacy statement changes the status |
| `EventLookup.SecondWriteCreatesNothing` | backend/polling/event_writer.py:488-551 | a batch that is written a second time finds an event for every row, creates none and changes no status |
| `EventLookup.OneEventForTheKey` | backend/polling/event_writer.py:491-533 | a PROPAGATED row that created an event has exactly that live event of its state key, also after a second write |
| `EventLookup.PropagatedUniqueIff` | backend/polling/event_writer.py:488-551 | one statement keeps the live PROPAGATED events of a state key unique if and only if no two equal rows of it create one |
| `EventLookup.PreparedRowsDiffer` | backend/polling/event_writer.py:107-137 | the de-duplication leaves no two equal rows for the statement |
| `EventLookup.PropagatedEventsStayUnique` | backend/polling/event_writer.py:482-551 | in every run of locking pipeline writers with de-duplicated batches, with recoveries, closures and orderly acknowledgements in between, at most one live PROPAGATED event has a state key |
| `EventLookup.AcknowledgementOrderlyIff` | backend/services/event_service.py:1188-1212 | the PROPAGATED events stay unique in every orderly continuation if and only if the acknowledged one is the only live one of its key and no writer is about to create another |
| `EventLookup.LiveIsAlone` | backend/services/event_service.py:1188-1212 | acknowledging a live event is always in order |
| `TaskLeases.TaskQueue.ClaimTasks` | backend/polling/pg_queue.py:127-161 | a claim leases exactly the first `batch_size` due, unlocked rows of its protocol and partitions, in order of priority, due time and id |
| `TaskLeases.TaskQueue.Select` | backend/polling/pg_queue.py:141-142 | the selection loop returns the first rows in claim order, as many as there are up to the batch size |
| `TaskLeases.FirstOfIsUnique` | backend/polling/pg_queue.py:141-142 | order and number determine the claimed rows |
| `TaskLeases.RunsKeepLeaseFields` | backend/polling/pg_queue.py:196-265 | a row is leased iff it has an owner and iff it has an expiry, in every run |
| `TaskLeases.LeaseHolds` | backend/polling/pg_queue.py:127-161 | while a lease runs and nothing names its row, the row stays as it is |
| `TaskLeases.TwoClaims` | backend/polling/pg_queue.py:127-161 | two claims of one row imply that the first lease had expired or that a transition or renewal named the row in between |
| `TaskLeases.TerminalRevivedIff` | backend/polling/pg_queue.py:196-236 | in a run a completed or dead row is ever neither if and only if some step defers or retries it, whoever takes that step |
| `TaskLeases.TerminalUnlessNamed` | backend/polling/pg_queue.py:196-236 | completed and dead rows stay as they are as long as no transition or renewal names them |
| `TaskLeases.HoldersReviveNothing` | backend/polling/pg_queue.py:196-236 | if transitions were made by the holder of the lease only, which no statement checks, completed and dead rows would never change |
| `TaskLeases.StaleWorkerRevivesTask` | backend/polling/pg_queue.py:214-232 | a run from the empty queue: a worker outlives its lease, another one claims and completes the task, the first one retries it, and it can be claimed and executed again |
| `TaskLeases.AttemptsAreCounted` | backend/polling/pg_queue.py:145-220 | the attempt counters equal the numbers of claims and of retries of the row |
| `TaskLeases.TaskQueue.RetryTask` | backend/polling/pg_queue.py:214-232 | the row waits until the given time with one more attempt and without owner and expiry, whoever asks; no other row changes |
| `TaskLeases.TaskQueue.ExpireLeases` | backend/polling/pg_queue.py:259-265 | rows whose lease is over, and only those, go back to waiting without owner and expiry |
| `TaskLeases.TaskQueue.RenewLease` | backend/polling/pg_queue.py:248-256 | a lease is prolonged only for its owner, and nothing else changes |
| `RetryPolicy.RetriedThenBuried` | backend/polling/backpressure.py:143-206 | a row that keeps failing is sent back exactly max(0, max attempts - attempts) times, each time for its back-off or, from the circuit threshold on, for the cool-down, and then buried |
| `RetryPolicy.BackoffDoubles` | backend/polling/backpressure.py:172-178 | back-off starts with the base delay and doubles with every attempt up to its maximum |
| `RetryPolicy.BackoffIsBounded` | backend/polling/backpressure.py:172-178 | back-off stays within its maximum |
| `RetryPolicy.BackoffMonotoneIff` | backend/polling/backpressure.py:172-178 | back-off is non-decreasing if and only if the base delay is not negative |
| `RetryPolicy.WaitsGrowThenStay` | backend/polling/backpressure.py:157-178 | the waits grow until the circuit opens and are constant from then on |
| `RetryPolicy.PressureReasons` | backend/polling/backpressure.py:96-110 | the reasons are exactly the signals above their thresholds, each once and in the order of the checks |
| `RetryPolicy.EvaluateBackpressure` | backend/polling/backpressure.py:113-140 | work is put off iff some signal is above its threshold and, for ICMP, the failure rate is one of them; it is never dropped |
| `RetryPolicy.ApplyDecision` | backend/polling/backpressure.py:181-206 | a decision is applied as the matching queue transition |
| `SafetyLimits.HistoriesKeepCounters` | backend/polling/safety_limits.py:76-105 | in every history that releases only what was acquired each counter is the number of its tasks in flight, absent at zero, and no limit is exceeded |
| `SafetyLimits.FreshCounters` | backend/polling/safety_limits.py:76-96 | starting fresh, no limited dimension ever has more tasks in flight than its limit |
| `SafetyLimits.ActiveSafetyLimiter.Acquire` | backend/polling/safety_limits.py:76-96 | refuses iff in some dimension as many tasks of that name are in flight as its positive limit allows, at the first such dimension and changing nothing; otherwise counts the task once in every dimension that it names |
| `SafetyLimits.ActiveSafetyLimiter.Release` | backend/polling/safety_limits.py:98-105 | takes the counts back and drops those that reach zero |
| `SafetyLimits.ReleaseUndoesAcquire` | backend/polling/safety_limits.py:76-105 | a release after an acquire restores the counters |
| `LeasedWorker.RunOnce` | backend/polling/snmp_worker.py:37-112 | an iteration claims the first due rows of both protocols, works on them in order up to the first that raises and leaves the other claimed rows leased; the statistics are the numbers of rows of each kind, the safety counters are restored even when a task raises, and an empty limiter never defers anything |
| `LeasedWorker.RunTasks` | backend/polling/snmp_worker.py:69-111 | the loop concludes each row up to the first that raises, and changes no other |
| `LeasedWorker.RunTask` | backend/polling/snmp_worker.py:70-111 | one claimed task ends as its admission and its outcome say, and counts as that |
| `LeasedWorker.ConcludedIff` | backend/polling/snmp_worker.py:72-109 | a row is completed iff the task was admitted and succeeded, waits 60 seconds with one more attempt iff it was admitted and failed, and is deferred for 30 seconds iff it was not admitted |
| `Scheduler.BuildTasks` | backend/polling/scheduler.py:92-166 | fails iff some record has no protocol, CI or metric, or lacks the address or the payload fields that it needs, and otherwise returns the schedule |
| `Scheduler.ScheduleExact` | backend/polling/scheduler.py:138-166 | how often each task is in the schedule: once for each record that is not ICMP telemetry and asks for it, with priority class and source, and once more if it is the internal check of a key that needs one |
| `Scheduler.ScheduleIsOrdered` | backend/polling/scheduler.py:166 | tasks are in the order of priority, then of protocol, then of metric |
| `Scheduler.OneCheckPerKey` | backend/polling/scheduler.py:154-164 | a key with an addressed telemetry record and no availability record gets exactly one internal availability task, any other key none |
| `Scheduler.SyntheticKeepsSource` | backend/polling/scheduler.py:63-72 | the synthesized record can be built and its recomputed source is the one it was filed under |
| `Scheduler.IcmpFirst` | backend/polling/scheduler.py:84-89 | ICMP tasks are in the first priority class and precede every task of another class |
| `Scheduler.SortIsStable` | backend/polling/scheduler.py:166 | tasks that compare equal keep their order |
| `Scheduler.SortIsSound` | backend/polling/scheduler.py:166 | sorting orders and permutes |
| `Correlation.RunCycle` | backend/engines/snmp_worker.py:2127-2341 | a whole cycle puts every event-producing row on the write path of its own helper exactly once, with the right cache, and nothing else |
| `Correlation.CycleConserves` | backend/engines/snmp_worker.py:2135-2341 | the conservation law for all parent indexes, cyclic ones included; the rows left out are exactly the candidates whose helper fails in pass 2 |
| `Correlation.Pass2Count` | backend/engines/snmp_worker.py:2148-2230 | pass 2 writes the candidates that are due, each once |
| `Correlation.Pass3Count` | backend/engines/snmp_worker.py:2302-2341 | pass 3 writes everything else that is due, each once |
| `Correlation.CycleRootCandidates` | backend/engines/correlation.py:42-108 | a triple is a candidate iff some row has it and its CI and metric have neither an open nor an observed parent |
| `Correlation.Materialize` | backend/engines/correlation.py:189-253 | each family goes to its helper once with an empty cache; a failing helper is skipped and the number forwarded excludes its rows |
| `Correlation.InjectSynthetic` | backend/engines/snmp_worker.py:1530-1604 | exactly one synthetic row for each CI that is down, has the metric configured and no sample of it |
| `Correlation.SyntheticIsNew` | backend/engines/snmp_worker.py:1568-1604 | a synthetic row is never a candidate of the same cycle |
| `RateLimiter.Limiter.Allow` | backend/mcp/cmdb_proposal_server.py:56-92 | the queues change and the call is answered as specified, token before user |
| `RateLimiter.RefusedIffExhausted` | backend/mcp/cmdb_proposal_server.py:79-88 | if the calls of each token and of each user come in the order of their times, a call is refused iff some earlier call of its token or user passed and, of its calls in the last minute, as many as the limit passed |
| `RateLimiter.EveryMinuteIsLimited` | backend/mcp/cmdb_proposal_server.py:79-92 | in every closed minute at most max(1, limit) calls of one token, and of one user, pass |
| `RateLimiter.LimitRespectedIffPositive` | backend/mcp/cmdb_proposal_server.py:80-84 | the limit itself is respected in all histories iff it is at least one |
| `RateLimiter.LateCallOverfillsMinute` | backend/mcp/cmdb_proposal_server.py:64-79 | the clock is read before the lock is taken: if the calls of one token come out of order, more calls than the limit get into one window |
| `Lockout.Store.IncrementAttempts` | backend/middleware/rate_limit.py:139-186 | a failure counts, locks after more than three, and does not extend a running lock |
| `Lockout.Store.IsLocked` | backend/middleware/rate_limit.py:206-233 | locked iff a lock ends later, with the whole seconds that remain |
| `Lockout.RunsAreSound` | backend/middleware/rate_limit.py:139-186 | in every run the count stays in 1..4 for a stored row, a lock is set iff it is four, and ends 15 minutes after the failure that set it |
| `Lockout.StreakIsCounted` | backend/middleware/rate_limit.py:139-176 | without a login and with no more than a day between them, failures count 1, 2, 3, 4, and from the fourth on the identity is locked until 15 minutes after it, whatever others do |
| `Lockout.LockLastsExactly` | backend/middleware/rate_limit.py:148-176 | a lock lasts exactly 15 minutes whatever else happens but a login, and then counting starts afresh |
| `Lockout.LockIsNeverExtended` | backend/middleware/rate_limit.py:149-155 | failures during a lock change nothing |
| `Lockout.PruningIsInvisible` | backend/middleware/rate_limit.py:54-63 | what an identity is told depends on its own calls alone, not on when rows are pruned or on what others do |
| `Lockout.PruningMatchesInlineReset` | backend/middleware/rate_limit.py:157-161 | pruning gives the answer of the in-line reset except exactly for stale unlocked counters |
| `MappingRepo.SingleApproval` | backend/repositories/mqtt_mapping_repo.py:386-487 | over every interleaving of the statements of all operations at most one mapping per source is APPROVED |
| `MappingRepo.StepKeepsConsistent` | backend/repositories/mqtt_mapping_repo.py:410-470 | every statement keeps approvals, committed or not, apart |
| `MappingRepo.MappingsMoveForward` | backend/repositories/mqtt_mapping_repo.py:681-717 | sources never change, APPROVED only becomes REVOKED, and REVOKED is never left |
| `MappingRepo.RevocationRaisesVersionIff` | backend/repositories/mqtt_mapping_repo.py:681-717 | whatever other sessions do between the two statements of a revocation, short of revoking the mapping, it raises the version if and only if the mapping is still what it was when it was read |
| `MappingRepo.VersionCanDrop` | backend/repositories/mqtt_mapping_repo.py:681-717 | from any unlocked unrevoked mapping a run leads to a lower version |
| `MappingRepo.SettledTargetChangesIff` | backend/repositories/mqtt_mapping_repo.py:565-639 | the target of an approved or revoked mapping can change if and only if a session still holds an update that it began when the mapping was a draft |
| `MappingRepo.StaleUpdateChangesApproved` | backend/repositories/mqtt_mapping_repo.py:587-599 | a run from the empty graph in which a stale update rewrites an approved mapping |
| `MappingRepo.Repo.Approve` | backend/repositories/mqtt_mapping_repo.py:386-487 | all outcomes of an uninterrupted approval and its effect, which is a run of statements |
| `MappingRepo.Repo.Revoke` | backend/repositories/mqtt_mapping_repo.py:681-717 | all outcomes of an uninterrupted revocation, which does nothing twice |
| `MappingRepo.Repo.CreateDraft` | backend/repositories/mqtt_mapping_repo.py:172-270 | creation fails on a known id or a missing endpoint and otherwise adds a draft of version 1 |
| `MappingRepo.Repo.UpdateDraft` | backend/repositories/mqtt_mapping_repo.py:565-639 | only drafts are updated, and the version goes up by one |
| `MappingRepo.Repo.UpdateThresholds` | backend/repositories/mqtt_mapping_repo.py:641-679 | thresholds change in every status, and the version goes up by one |
| `ProposalRepo.RunsAreSound` | backend/repositories/cmdb_proposal_repo.py:305-459 | over all runs: DRAFT iff version 1, APPROVED only at version 2, REVOKED at version 2 or 3, and a result CI exactly for what was approved |
| `ProposalRepo.ResultIffApproved` | backend/repositories/cmdb_proposal_repo.py:314-324 | a proposal has a result CI iff an approval of it succeeded, and then the one that approval named |
| `ProposalRepo.OneWriterPerVersion` | backend/repositories/cmdb_proposal_repo.py:372-381 | of all writers that expect one version of a proposal at most one succeeds |
| `ProposalRepo.RevokedIsFinal` | backend/repositories/cmdb_proposal_repo.py:364-418 | a revoked proposal never changes again |
| `ProposalRepo.Repo.CreateDraft` | backend/migrations/005_ci_proposal_schema.cypher:15-16 | identifiers are unique: a draft is created if and only if its identifier is new, and otherwise nothing changes |
| `ProposalRepo.Repo.ApproveProposal` | backend/repositories/cmdb_proposal_repo.py:305-362 | succeeds iff the proposal is a draft of the expected version |
| `ProposalRepo.Repo.RevokeProposal` | backend/repositories/cmdb_proposal_repo.py:364-418 | succeeds iff the proposal is not revoked and has the expected version |
| `ProposalRepo.Repo.TtlSweep` | backend/repositories/cmdb_proposal_repo.py:423-459 | revokes exactly the drafts created before the cutoff and raises their version, changes nothing else, counts them, and finds none the second time |
| `Interpolation.InterpolateToGrid` | backend/repositories/metric_repo.py:187-247 | nothing without data, otherwise one point per grid time with the specified value |
| `Interpolation.ValueBetweenNeighbours` | backend/repositories/metric_repo.py:219-245 | each value lies between those of the samples around it; outside the range the end value is held |
| `Interpolation.SampleTimesAreExact` | backend/repositories/metric_repo.py:226-228 | the time of a sample gets the value of the last sample with that time |
| `Interpolation.LineIsReproduced` | backend/repositories/metric_repo.py:229-245 | points on a straight line stay on it |
| `Interpolation.InterpolationIsMonotone` | backend/repositories/metric_repo.py:205-245 | non-decreasing data gives non-decreasing values |
| `Interpolation.SortedGridGivesSortedValues` | backend/repositories/metric_repo.py:187-247 | on a sorted grid the whole result is sorted in time and value |
| `Simulator.ParseMix` | backend/polling/simulator.py:26-49 | rejects iff an item is unsupported or negative or the total weight is not positive; otherwise the shares are the proportional ones and add up to one |
| `Simulator.ProtocolCounts` | backend/polling/simulator.py:125-132 | the counts add up to the total, and the heaviest shares get one more than their floor |
| `Simulator.CountsAreRoundedShares` | backend/polling/simulator.py:128-131 | each count is within one of its exact share |
| `Simulator.HeavierGetsNoLess` | backend/polling/simulator.py:130-131 | a heavier share, or the earlier of two equal ones, never gets less |
| `Simulator.NothingForNothing` | backend/polling/simulator.py:128-131 | an empty share gets nothing |
| `Simulator.RemainderIsSmall` | backend/polling/simulator.py:129 | the floors miss fewer tasks than there are protocols with a positive share |

## Left out

- SQL and Cypher text, drivers, sessions, logging and the hand-written fallback queries: each statement is an atomic update of maps, except where a lookup and its write are split on purpose.
- Row locks of the task queue: a claim of tasks is one step and is not undone by a crash before the first transition commits it. For results the locks of uncommitted claims are modelled.
- Waiting for a row lock: a step on a row that another uncommitted claim has locked is not enabled, and the expiry of leases passes locked rows over.
- CrossLocks.DeadlockIffOverruns: every triplet has its own lock there; what shared lock keys add is in `LockOrder` alone.
- The third writer of events, `store_metric_result` in `backend/services/snmp_service.py`, which reopens recovered events of every type and ignores their correlation.
- The order and the partitions in which results are claimed, and the collapse of collection-failure rows by failure family.
- An exception while the derived event envelopes are built is a crash of the iteration.
- Uniqueness of collection-failure events: their lookup also depends on failure family, source protocol and untyped legacy rows.
- The earlier latency that a jitter measurement needs comes from a query of the table; here it is a parameter.
- The separate PROPAGATED child events that the legacy engine creates across degraded links.
- The legacy filters on availability source and source protocol in the lookup of an existing availability event.
- Deadlocks that involve the legacy poll cycle: its passes take lock families in another order than the pipeline writer.
- Progress of the writer pool: that a batch is stored eventually, or that one whose keys violate the primary key is retried again and again.
- Correlation.RunCycle: collection failures with one key within a cycle are collapsed by their helper before they are written; the log counts the rows handed to it.
- Correlation.RunCycle: an exception in the jitter or packet-loss helper ends the cycle; only the helpers that pass 2 guards can fail here.
- Which CI is whose parent: the open-parent index and the in-cycle parent index are arbitrary inputs.
- IdempotentRows.DedupedExact: observation times are compared as numbers, while the source compares the strings that carry them.
- ProposalRepo.Repo.CreateDraft: the violated uniqueness constraint is an exception of the database driver; here it is a missing result.
- ProposalRepo.OneWriterPerVersion: a guarded update is one atomic step; the isolation of the graph database inside the statement is not modelled.
- MappingRepo.SingleApproval: the approval statement decides atomically once it has the lock of its source; its write stays invisible until the commit.
- Floating-point rounding: samples, weights and interpolated values are exact reals.
- Severities, messages, tickets, business context and the other descriptive fields of events and proposals.
- Partition keys, task and result identifiers, cursors and other codecs; payload contents beyond the fields that decide whether a payload can be built.
- `run_simulation`, latency percentiles and the generated records of the simulator.
- Network fetching, routers, authentication cookies, seeding, configuration parsing and the front end.
