# Aequora: verified model

Aequora is a local-first synchronisation engine. This project models its self-contained protocol and
scheduling logic in Dafny and proves what that logic guarantees over all inputs and all runs.

A step function on values says what one operation does; where the original updates an object or runs
a loop, a class or a method does the same in place and is proved equal to the step function. The
theorems are then about runs: arbitrary sequences of operations, arbitrary interleavings, arbitrary
clock readings.

| component | files | what is proved |
|---|---|---|
| hybrid logical clock | `Clock.dfy` | causality over a network of clocks, and what both parts of a stamp mean |
| token bucket | `Limiter.dfy` | rate bound in every window, exact retry hint, full burst served |
| fair queue | `Work.dfy`, `Fairness.dfy`, `FairQueue.dfy`, `FairnessRuns.dfy`, `FairnessTheorems.dfy`, `Starvation.dfy`, `TenantRotation.dfy` | exact bookkeeping, bounded wait, per-tenant order, weighted shares, no starvation across classes, tenant rotation |
| admission control | `Admission.dfy`, `AdmissionController.dfy`, `AdmissionTheorems.dfy`, `AdmissionCeilings.dfy`, `AdmissionEdges.dfy` | conservation of all counters, reservations, ceilings kept, nothing refused without need |
| authority failover | `Authority.dfy`, `AuthorityTheorems.dfy` | single writer per fence, stale contexts, writes only after verified recovery |
| snapshots | `Snapshot.dfy`, `Chunker.dfy`, `ChunkerTheorems.dfy`, `ChunkerSuccess.dfy` | round trip of the streaming chunker, global order of any accepted snapshot, when a build succeeds |
| bootstrap job | `BootstrapJob.dfy`, `BootstrapTheorems.dfy` | resumability, accounting of downloads, activation safety |
| blobs | `Blob.dfy`, `BlobStore.dfy`, `BlobTheorems.dfy`, `BlobSuccess.dfy` | streamed upload agrees with the whole-content definition amid other writers, commit before visibility, when an upload succeeds and when it can be downloaded |
| publishing order | `Layering.dfy`, `Publish.dfy` | layered topological sort, and failure exactly on cycles |
| client reconciliation | `Client.dfy`, `ClientTheorems.dfy`, `ClientStale.dfy` | sequences applied once and in order, the replica is a replay, overlapping exchanges converge, each operation settled once |
| audit chain | `Audit.dfy` | verification accepts exactly appended chains, a checkpoint pins one history |
| frames and body reader | `Codec.dfy` | canonical framing, value round trip, independence of fragmentation and where it ends |

`Base.dfy` holds the machine-integer ranges, saturating arithmetic and sequence helpers.

Modelling choices:

- Machine integers are unbounded numbers with explicit ranges; saturating and checked operations are
  written out. `usize` is 64 bits wide, and unchecked sums wrap around as in a release build.
- BLAKE3, Postcard and zstd are function values. Decoding is assumed to undo encoding where a lemma
  says `Lossless`. Absence of hash collisions is assumed only for the finitely many strings a lemma
  talks about. A hasher fed piece by piece hashes the concatenation.
- Wall clocks, monotonic clocks, random identifiers, upload sources, download sinks and body pieces
  are parameters and may be anything.
- Each section under a lock is one atomic step.
- Where a claim fails at the edge of an integer range, of a clock or of an early return, the model
  keeps the behaviour, one lemma states the exact condition and another exhibits a failing case:

  | claim | holds exactly when | fails in |
  |---|---|---|
  | stamps respect causality | `CausalIffNeverStalls` | `BoundIsTight` |
  | the retry hint is the least wait | `RetryHintIsExact` | `HintMisleadsBehindTheClock` |
  | the queue's byte counter is exact | `AcceptKeepsBytes` | `ByteCounterSaturates` |
  | admission counters are exact | `AdmitConservesIff` | `ByteCounterLosesARequest` |
  | reservations are held | `ReservationsHeldIff` | `ReservationsNotHeld` |
  | reserved capacity is available | `ReservedCapacityIsAvailable` | `ReservedCapacityOutOfReach` |
  | uploaded pieces can be downloaded | `DownloadAmidOthers`, `DownloadIffFetchable` | `ReuploadCannotBeFetched` |
  | a body's error does not depend on its cut | `ErrorDependsOnCutIff` | `ErrorDependsOnCut` |

- The documentation of `demote` speaks of an error on fence exhaustion; the code has already
  overwritten role and mode by then. The model follows the code, and `StaleContextNeverVerifies`
  covers that case.

`dafny verify dfyconfig.toml` checks the whole project.

## Model

| member | source | states |
|---|---|---|
| Clock.SystemClock.constructor | crates/aequora-clock/src/lib.rs:26-31 | a clock starts at (0, 0) for its node |
| Clock.SystemClock.Now | crates/aequora-clock/src/lib.rs:48-61 | the locked pair and the stamp after a local event |
| Clock.SystemClock.Observe | crates/aequora-clock/src/lib.rs:63-82 | the locked pair and the stamp after receiving a remote stamp |
| Clock.StampBounds | crates/aequora-clock/src/lib.rs:47-83 | in any execution of a network of clocks no logical counter outruns the number of events, and no physical part is ahead of every wall reading so far |
| Clock.OrderedUnlessSaturated | crates/aequora-clock/src/lib.rs:47-83 | in every execution of any length, an event that happens before another has a smaller stamp unless, and only unless, its counter is saturated on the same physical part |
| Clock.CausalIffNeverStalls | crates/aequora-clock/src/lib.rs:48-82 | an execution of any length respects causality if and only if no event has to count on from a saturated counter |
| Clock.CausalityHolds | crates/aequora-clock/src/lib.rs:47-83 | for any number of nodes, any interleaving and any wall readings, happens-before implies a strictly smaller stamp in every execution of fewer than 2^32 events |
| Clock.StampsAreUnique | crates/aequora-clock/src/lib.rs:47-83 | in any execution two events share a stamp if and only if they are on one node with the same physical part and the earlier counter is saturated; never below 2^32 events |
| Clock.PhysicalIsLargestWall | crates/aequora-clock/src/lib.rs:47-83 | the physical part is exactly the largest wall reading in the causal past of the event, or 0 |
| Clock.LogicalIsLongestChain | crates/aequora-clock/src/lib.rs:47-83 | in any execution the logical part is exactly the length of the longest causal chain ending at the event over which the physical part stands still, as far as the counter goes |
| Clock.BoundIsTight | crates/aequora-clock/src/lib.rs:48-61 | an execution of 2^32 events in which that happens: two causally ordered events share a stamp |
| Limiter.TokenBucket.Create | crates/aequora-admission/src/limiter.rs:52-59 | refuses exactly a zero rate or burst; otherwise the bucket is full |
| Limiter.TokenBucket.Refill | crates/aequora-admission/src/limiter.rs:82-92 | the new balance and clock are those of the refill function |
| Limiter.TokenBucket.TryTake | crates/aequora-admission/src/limiter.rs:67-80 | the new state and the outcome of one request |
| Limiter.RefillIsExact | crates/aequora-admission/src/limiter.rs:82-92 | no 128-bit operation saturates: a refill adds exactly rate times elapsed, capped at the burst |
| Limiter.WindowAccounting | crates/aequora-admission/src/limiter.rs:67-92 | from any state and for any window of calls, tokens granted plus balance never exceed the balance before plus what time added |
| Limiter.GrantsAreRateBounded | crates/aequora-admission/src/limiter.rs:52-92 | in every window of every run, with time free to step back, tokens granted never exceed burst plus rate times (latest time minus start) |
| Limiter.AvailableIsServed | crates/aequora-admission/src/limiter.rs:67-80 | calls whose total is within the balance are all granted, whatever the clock does |
| Limiter.BurstIsServed | crates/aequora-admission/src/limiter.rs:52-80 | a new bucket serves a whole burst |
| Limiter.RefusalHint | crates/aequora-admission/src/limiter.rs:67-80 | after a refusal the request is granted at time t exactly when t reaches the bucket clock plus the hint |
| Limiter.RetryHintIsExact | crates/aequora-admission/src/limiter.rs:67-80 | the hint is the least wait counted from the caller's time if and only if that time is not behind the bucket clock, or what the bucket lacks would not come within representable time |
| Limiter.HintMisleadsBehindTheClock | crates/aequora-admission/src/limiter.rs:67-80 | a bucket emptied at time 10 that tells a caller at time 0 a wait after which it is still refused |
| Limiter.BeyondBurstNeverGranted | crates/aequora-admission/src/limiter.rs:67-80 | a request beyond the burst is refused in every state at every time |
| Fairness.AgedClassIsBest | crates/aequora-admission/src/fairness.rs:249-262 | aging picks a class whenever some head is starving, and none is older, or as old with a lower rank |
| Fairness.FollowingIsModulo | crates/aequora-admission/src/fairness.rs:264-277 | the cursor step is the successor modulo the schedule length |
| Fairness.FirstOtherIsFirst | crates/aequora-admission/src/fairness.rs:279-294 | the search finds the first item of another tenant |
| Fairness.SkipsOneTenant | crates/aequora-admission/src/fairness.rs:279-294 | items are skipped only past the tenant that used up its run, to the first item of another tenant |
| FairQueueObject.FairQueue.Create | crates/aequora-admission/src/fairness.rs:151-172 | refuses exactly an invalid configuration; otherwise the queue is empty with its weighted schedule |
| FairQueueObject.FairQueue.Enqueue | crates/aequora-admission/src/fairness.rs:200-238 | a refusal changes nothing; an accepted item leads to the accepting state |
| FairQueueObject.FairQueue.ScheduledClass | crates/aequora-admission/src/fairness.rs:264-277 | the loop over the schedule finds what a scan from the cursor finds and leaves the cursor behind it |
| FairQueueObject.FairQueue.RecordDequeue | crates/aequora-admission/src/fairness.rs:296-313 | run, depths, length and bytes after a removal |
| FairQueueObject.FairQueue.Dequeue | crates/aequora-admission/src/fairness.rs:241-247 | the whole new state and the returned item |
| FairnessRuns.AcceptKeepsConsistent | crates/aequora-admission/src/fairness.rs:200-238 | an enqueue keeps every counter exact and every bound |
| FairnessRuns.AcceptKeepsBytes | crates/aequora-admission/src/fairness.rs:200-238 | an enqueue keeps the byte counter exact if and only if the sum does not overflow |
| FairnessRuns.RefusedOnlyWhenFull | crates/aequora-admission/src/fairness.rs:200-238 | an item is refused if and only if admitting it would break a configured bound |
| FairnessRuns.DequeueKeepsConsistent | crates/aequora-admission/src/fairness.rs:241-313 | a dequeue keeps every counter exact and every bound |
| FairnessTheorems.ReachableStatesAreConsistent | crates/aequora-admission/src/fairness.rs:151-313 | in every state reachable from the empty queue length, tenant depths and bytes are exact and all ceilings hold |
| FairnessTheorems.ByteCounterSaturates | crates/aequora-admission/src/fairness.rs:200-238 | under a byte ceiling of 2^64 - 1 two large items make the counter wrong, so the ceiling must be below the maximum |
| FairnessTheorems.DequeueServesWhenNonEmpty | crates/aequora-admission/src/fairness.rs:241-277 | a dequeue returns an item if and only if something is queued |
| FairnessTheorems.TrackFollowsItem | crates/aequora-admission/src/fairness.rs:241-313 | an item is either still queued where it is tracked or was returned |
| FairnessTheorems.PassedOverSpendsBudget | crates/aequora-admission/src/fairness.rs:279-313 | each dequeue of a class that passes over an item uses up its waiting budget |
| FairnessTheorems.BoundedWait | crates/aequora-admission/src/fairness.rs:241-313 | in any interleaving an item at position p of its class leaves within 2(p + 1) dequeues that select the class |
| FairnessTheorems.FifoPerTenantAndClass | crates/aequora-admission/src/fairness.rs:200-313 | over every run, what a tenant's class returned followed by what is queued is what was queued followed by what was admitted, in order |
| FairnessTheorems.ScheduleWeights | crates/aequora-admission/src/fairness.rs:151-172 | each class owns exactly its weight in schedule slots |
| FairnessTheorems.ServedIsWindow | crates/aequora-admission/src/fairness.rs:264-277 | while all classes keep work and none ages out, the classes served are the next schedule slots in order |
| FairnessTheorems.ExactWeightedShares | crates/aequora-admission/src/fairness.rs:151-277 | then as many dequeues as there are slots serve each class exactly its weight, from any cursor |
| FairnessTheorems.AgedClassPersists | crates/aequora-admission/src/fairness.rs:249-262 | a class chosen for its age stays the choice while its head stays and time moves on |
| FairnessTheorems.AgedHeadLeavesWithinTwo | crates/aequora-admission/src/fairness.rs:241-294 | with a clock that does not run backwards, the head of the aged class leaves within two dequeues whatever is enqueued in between |
| Starvation.RunInTime | crates/aequora-admission/src/fairness.rs:200-294 | with a clock that does not run backwards, each class queue stays in the order of its enqueue times, over every run |
| Starvation.AgedHeadIsElder | crates/aequora-admission/src/fairness.rs:249-262 | while an overdue item waits, aging picks a class whose head is no younger than the item |
| Starvation.DequeueSpendsPatience | crates/aequora-admission/src/fairness.rs:241-294 | a dequeue of whatever class uses up the patience of every overdue item it leaves behind |
| Starvation.OverdueItemLeaves | crates/aequora-admission/src/fairness.rs:241-294 | no starvation: in any interleaving with such a clock, an item that has waited the starvation age is returned within 2m dequeues of whatever classes, m being the number of queued items enqueued no later than it |
| Starvation.NoStarvation | crates/aequora-admission/src/fairness.rs:151-294 | the same in every state that a run from the empty queue reaches |
| TenantRotation.RunsAreRecorded | crates/aequora-admission/src/fairness.rs:296-313 | the remembered run is, over every run, the number of trailing items of that tenant among those returned from the class |
| TenantRotation.RotationFollowsWeights | crates/aequora-admission/src/fairness.rs:279-313 | after any run the front item of the chosen class is returned if and only if its tenant has had fewer turns in a row than the item's weight or nobody else waits; otherwise the first item of another tenant is |
| Admission.PermitDomains | crates/aequora-admission/src/controller.rs:361-367 | a permit names each requested resource domain exactly once |
| Admission.NoFaultMeansValid | crates/aequora-admission/src/controller.rs:174-208 | a policy has no fault if and only if it meets every requirement on budgets, weights, thresholds, reservations and domains |
| AdmissionObject.Validate | crates/aequora-admission/src/controller.rs:174-208 | the two passes over classes and domains report the first fault |
| AdmissionObject.HierarchicalAdmission.Create | crates/aequora-admission/src/controller.rs:324-332 | refuses exactly an invalid policy, with its first fault; otherwise all counters are zero |
| AdmissionObject.HierarchicalAdmission.SetLoadState | crates/aequora-admission/src/controller.rs:340-342 | only the load state changes |
| AdmissionObject.HierarchicalAdmission.UnusedReservations | crates/aequora-admission/src/controller.rs:383-391 | the loop adds up, in a usize that wraps around, what other classes reserved and do not use |
| AdmissionTheorems.UnusedDoesNotWrap | crates/aequora-admission/src/controller.rs:383-391 | that sum is exact whenever the reservations of the policy sum to a usize |
| AdmissionObject.HierarchicalAdmission.ResourcesFit | crates/aequora-admission/src/controller.rs:445-457 | the loop over domains decides that every one fits |
| AdmissionObject.HierarchicalAdmission.TryAdmit | crates/aequora-admission/src/controller.rs:351-479 | a refusal returns the first failing check and changes only the rejection metrics; an admission charges all scopes and returns its permit |
| AdmissionObject.HierarchicalAdmission.Charge | crates/aequora-admission/src/controller.rs:459-470 | the counters after an admission |
| AdmissionObject.HierarchicalAdmission.Release | crates/aequora-admission/src/controller.rs:267-291 | the counters after a permit is dropped |
| AdmissionTheorems.CountsAreConserved | crates/aequora-admission/src/controller.rs:267-479 | in every reachable state the in-flight counts of every scope equal the number of outstanding permits charged to it |
| AdmissionTheorems.AdmitConservesIff | crates/aequora-admission/src/controller.rs:294-304 | an admission keeps all counters exact if and only if the global byte and cost sums do not overflow |
| AdmissionTheorems.ReleaseConserves | crates/aequora-admission/src/controller.rs:267-291 | dropping any permit keeps all counters exact |
| AdmissionTheorems.CountersAreConserved | crates/aequora-admission/src/controller.rs:267-479 | with byte and cost ceilings below 2^64 - 1, in every reachable state every global, tenant, class and resource counter is the sum over outstanding permits |
| AdmissionTheorems.AllDroppedIsZero | crates/aequora-admission/src/permit.rs:50-60 | once every permit is dropped all counters are zero and no tenant is tracked |
| AdmissionTheorems.RejectionChangesNoCounter | crates/aequora-admission/src/controller.rs:351-479 | a refused request changes no usage counter and hands out no permit |
| AdmissionTheorems.TrackedTenantsNeverFull | crates/aequora-admission/src/controller.rs:421-427 | under a validated policy the tracked-tenant rejection can never fire once the global check passed |
| AdmissionTheorems.ValidatedReservations | crates/aequora-admission/src/controller.rs:188-199 | a validated policy reserves no more than the ceiling if and only if its sum of reservations did not saturate |
| AdmissionTheorems.ScaledIsLeast | crates/aequora-admission/src/controller.rs:544-547 | below saturation the scaled limit is the least positive count that covers the percentage |
| AdmissionTheorems.FullCapacityLimit | crates/aequora-admission/src/controller.rs:544-547 | at 100 percent the scaled limit is the limit itself, cut where scaling saturates |
| AdmissionTheorems.ReservationsAreHeld | crates/aequora-admission/src/controller.rs:267-479 | across every run and load-state change, in-flight work plus unused reservations never exceeds the global ceiling |
| AdmissionTheorems.ReservationsHeldIff | crates/aequora-admission/src/controller.rs:174-208 | that holds in every reachable state if and only if the policy's reservations really sum to a representable number |
| AdmissionTheorems.ReservedCapacityIsAvailable | crates/aequora-admission/src/controller.rs:381-440 | at full capacity a class below its reservation is never refused on its class in-flight count, nor on the global one unless and only unless saturation cuts the ceiling |
| AdmissionTheorems.OversizedCeilingIsCut | crates/aequora-admission/src/controller.rs:544-547 | beyond the largest limit that scaling can produce every request is refused |
| AdmissionEdges.ReservedCapacityOutOfReach | crates/aequora-admission/src/controller.rs:544-547 | a validated policy under which a request below its reservation is refused by an idle server |
| AdmissionEdges.ReservationsNotHeld | crates/aequora-admission/src/controller.rs:174-208 | a validated policy that reserves more than exists and does not hold it in the first state |
| AdmissionEdges.ByteCounterLosesARequest | crates/aequora-admission/src/controller.rs:294-304 | a run under a byte ceiling of 2^64 - 1 in which two requests are admitted and one is not counted |
| AdmissionCeilings.AdmittedIffCeilingsKept | crates/aequora-admission/src/controller.rs:351-479 | in every reachable state an allowed request is admitted if and only if there is room besides what others reserved and every counter it charges stays within its ceiling |
| AdmissionCeilings.CeilingsHold | crates/aequora-admission/src/controller.rs:351-553 | in every reachable state every scope is within its budget, tenants within theirs scaled by the largest allowed weight |
| AdmissionCeilings.OutstandingWithinCeilings | crates/aequora-admission/src/controller.rs:351-553 | so the permits callers hold are within budget in every scope |
| AuthorityObject.AuthorityController.constructor | crates/aequora-authority/src/lib.rs:437-443 | a controller around a loaded state, without an anchor |
| AuthorityObject.AuthorityController.SetExternalHighestEpoch | crates/aequora-authority/src/lib.rs:463-483 | the anchor after an accepted or refused update |
| AuthorityObject.AuthorityController.Promote | crates/aequora-authority/src/lib.rs:543-610 | new state and outcome of a promotion, and every refusal |
| AuthorityObject.AuthorityController.Demote | crates/aequora-authority/src/lib.rs:617-628 | new state of a demotion; on an exhausted fence the role and mode are already overwritten |
| AuthorityObject.AuthorityController.BeginRecovery | crates/aequora-authority/src/lib.rs:635-643 | writes are blocked |
| AuthorityObject.AuthorityController.CompleteRecovery | crates/aequora-authority/src/lib.rs:650-669 | serving is enabled only after the checks, the anchor and the role |
| AuthorityObject.AuthorityController.ObserveCheckpoint | crates/aequora-authority/src/lib.rs:676-692 | a detected fork quarantines, anything else changes nothing |
| AuthorityTheorems.FenceNeverDecreases | crates/aequora-authority/src/lib.rs:543-692 | over every run fence and epoch never decrease, and an unchanged fence means an unchanged writer |
| AuthorityTheorems.SingleWriterPerFence | crates/aequora-authority/src/lib.rs:504-536 | any two accepted commits with the same fence carry the same instance and epoch |
| AuthorityTheorems.CommitsAreOrdered | crates/aequora-authority/src/lib.rs:504-536 | a later accepted commit never carries an older fence or epoch |
| AuthorityTheorems.FencedOffForever | crates/aequora-authority/src/lib.rs:543-628 | once fenced off, a fence value stays fenced off in every continuation |
| AuthorityTheorems.StaleContextNeverVerifies | crates/aequora-authority/src/lib.rs:526-628 | a context obtained before a successful promotion or any demotion never verifies again |
| AuthorityTheorems.ContextLivesUntilFenced | crates/aequora-authority/src/lib.rs:504-628 | a context handed out is accepted later if and only if writes are authorised then and no promotion or demotion came in between |
| AuthorityTheorems.WritesOnlyAfterVerifiedRecovery | crates/aequora-authority/src/lib.rs:504-692 | from a new state, a write is authorised if and only if the anchor allows it and a recovery with all nine checks true was accepted with no promotion, demotion, recovery start or fork since |
| AuthorityTheorems.EpochAndFenceCount | crates/aequora-authority/src/lib.rs:543-628 | over every run the epoch counts exactly the promotions that went through without proven continuity, and the fence exactly the promotions and demotions that went through |
| AuthorityTheorems.NewEpochWasApproved | crates/aequora-authority/src/lib.rs:543-610 | a promotion that opened an epoch had accepted the loss, by hand where the policy requires it |
| AuthorityTheorems.PromotionIsSound | crates/aequora-authority/src/lib.rs:543-610 | every promotion's manifest passes its own verification, its fence is new, and it keeps the epoch only with lossless evidence |
| AuthorityTheorems.AnchorNeverDecreases | crates/aequora-authority/src/lib.rs:463-483 | the rollback anchor never decreases |
| AuthorityTheorems.NoWriteBelowAnchor | crates/aequora-authority/src/lib.rs:694-707 | no write is authorised in an epoch below an anchor accepted earlier |
| Snapshot.CheckedDecides | crates/aequora-bootstrap/src/lib.rs:326-350 | checking the first n entries succeeds if and only if each is in place and in order and the totals are representable |
| Snapshot.CheckEntries | crates/aequora-bootstrap/src/lib.rs:326-350 | the loop returns the totals or the fault of the first bad entry |
| Snapshot.NoFaultMeansOk | crates/aequora-bootstrap/src/lib.rs:322-376 | a manifest passes if and only if its version, entries, totals and root are all right |
| Snapshot.VerifyManifest | crates/aequora-bootstrap/src/lib.rs:322-376 | decides exactly that, reporting the first fault |
| Snapshot.AdjacentIsEnough | crates/aequora-bootstrap/src/lib.rs:411-416 | the pass over adjacent pairs orders every pair |
| Snapshot.PartsAreOrdered | crates/aequora-bootstrap/src/lib.rs:330-416 | parts that match an ordered entry list concatenate to a strictly increasing list of the summed length |
| Snapshot.AcceptedSnapshotIsOrdered | crates/aequora-bootstrap/src/lib.rs:322-419 | for any manifest that verifies and chunks that decode against it, the concatenated records are strictly increasing by entity and number exactly the record count |
| Chunker.FeedRecord | crates/aequora-bootstrap/src/lib.rs:242-290 | one pass of the streaming loop, with its split and close branches |
| Chunker.BuildStreamingLoop | crates/aequora-bootstrap/src/lib.rs:223-315 | the streaming loop computes the fold over the records, faults included |
| ChunkerTheorems.EmitExtends | crates/aequora-bootstrap/src/lib.rs:422-480 | an emitted chunk extends the manifest entries in order and adds up |
| ChunkerTheorems.FeedKeeps | crates/aequora-bootstrap/src/lib.rs:242-290 | feeding a record keeps the loop invariant in all three branches |
| ChunkerTheorems.StreamingRoundTrip | crates/aequora-bootstrap/src/lib.rs:223-315 | whenever streaming succeeds the manifest verifies, every chunk has 1 to target records within the byte limit and decodes, the decoded chunks concatenate to the input, chunks are closed only for a reason, and the whole-snapshot limits hold |
| ChunkerTheorems.AscendingIsUnique | crates/aequora-bootstrap/src/lib.rs:187-213 | two ascending lists of the same distinct records are equal |
| ChunkerTheorems.BuildIgnoresInputOrder | crates/aequora-bootstrap/src/lib.rs:187-213 | for distinct entities every order of the same records builds the same snapshot |
| ChunkerTheorems.BuildRoundTrip | crates/aequora-bootstrap/src/lib.rs:187-213 | a built snapshot decodes to exactly the given records, which then have distinct entities |
| ChunkerSuccess.BuildsIffBuildable | crates/aequora-bootstrap/src/lib.rs:223-315 | streaming succeeds if and only if the limits are valid, the input is in strict entity order and within the record limit, everything that has to be encoded can be, and the chunks that the closing rule prescribes are within the limits and taken by the sink; it then returns exactly the prescribed snapshot |
| ChunkerSuccess.BuildsIffDistinct | crates/aequora-bootstrap/src/lib.rs:187-213 | a record set builds if and only if no entity repeats and its sorted form meets the same limits and encodes |
| BootstrapJobObject.JobRecord.Create | crates/aequora-bootstrap/src/lib.rs:648-684 | a job exists exactly for a manifest that verifies, starts with every chunk untouched, and otherwise reports the manifest fault |
| BootstrapJobObject.JobRecord.Transition | crates/aequora-bootstrap/src/lib.rs:691-700 | only declared edges change the state |
| BootstrapJobObject.JobRecord.RecordChunkRead | crates/aequora-bootstrap/src/lib.rs:733-779 | new progress of the chunk, or the first fault and no change |
| BootstrapJobObject.JobRecord.AdvanceChunk | crates/aequora-bootstrap/src/lib.rs:805-820 | a chunk moves on only from the expected state |
| BootstrapJobObject.JobRecord.MarkChunkVerified | crates/aequora-bootstrap/src/lib.rs:786-791 | a chunk is verified only once downloaded |
| BootstrapJobObject.JobRecord.MarkChunkInstalled | crates/aequora-bootstrap/src/lib.rs:798-803 | a chunk is installed only once verified |
| BootstrapJob.ResumeDecides | crates/aequora-bootstrap/src/lib.rs:707-723 | resuming passes if and only if the manifest verifies and the job belongs to it |
| BootstrapTheorems.ResumeStaysValid | crates/aequora-bootstrap/src/lib.rs:707-723 | throughout every run from a new job with the manifest's descriptors, resuming stays valid |
| BootstrapTheorems.ChunkStatesOnlyAdvance | crates/aequora-bootstrap/src/lib.rs:733-820 | a chunk's state never goes back |
| BootstrapTheorems.DownloadedIsAccepted | crates/aequora-bootstrap/src/lib.rs:733-779 | recorded bytes are the total length of the accepted pieces, all of one object, and attempts count them |
| BootstrapTheorems.PhaseIsPassed | crates/aequora-bootstrap/src/lib.rs:530-558 | within an attempt no phase is skipped |
| BootstrapTheorems.ReadyWasVerified | crates/aequora-bootstrap/src/lib.rs:530-558 | a ready job went through Downloading, Installing and Verifying in this attempt |
| BootstrapTheorems.StatusNeverOverflows | crates/aequora-bootstrap/src/lib.rs:824-841 | the reported byte sum never overflows and never exceeds the manifest total |
| BootstrapTheorems.ActivationGuards | crates/aequora-bootstrap/src/lib.rs:1001-1054 | activation is verified if and only if resume, state, installed chunks, lease and current evidence all hold, and then carries the manifest boundary |
| BootstrapTheorems.InstalledMeansDownloaded | crates/aequora-bootstrap/src/lib.rs:733-820 | installed chunks were read to their declared size, so the total is the manifest's |
| BootstrapTheorems.ActivationIsSafe | crates/aequora-bootstrap/src/lib.rs:904-1054 | activation after any run implies the phases were passed, everything was downloaded from one object per chunk, evidence is current, and the cursor is the boundary with the journal retained from the next sequence |
| BlobObject.InMemoryBlobStore.Create | crates/aequora-blob/src/lib.rs:319-331 | which limits are refused and how |
| BlobObject.InMemoryBlobStore.PutChunkBytes | crates/aequora-blob/src/lib.rs:355-363 | the store after staging one chunk |
| BlobObject.InMemoryBlobStore.Commit | crates/aequora-blob/src/lib.rs:365-414 | publishes the assembled blob at once or changes nothing |
| BlobObject.UploadOneChunk | crates/aequora-blob/src/lib.rs:213-228 | accumulators and store after one uploaded piece |
| BlobObject.RunUpload | crates/aequora-blob/src/lib.rs:159-211 | the upload loop computes the upload function, store included, with other writers acting on the store between its steps |
| BlobObject.RunDownload | crates/aequora-blob/src/lib.rs:236-291 | the download loop writes and returns what the download function says, store included, with other writers acting on the store before each read |
| BlobTheorems.SplitUndoesFlatten | crates/aequora-blob/src/lib.rs:75-85 | splitting the concatenation of full pieces gives the pieces back |
| BlobTheorems.OperationsKeep | crates/aequora-blob/src/lib.rs:355-414 | every sequence of store operations keeps strings under their digests and never replaces or removes anything |
| BlobTheorems.UploadRefinesForBytes | crates/aequora-blob/src/lib.rs:159-211 | whenever a streamed upload succeeds, whatever other writers do in between, its manifest is the one defined on the complete content |
| BlobTheorems.CommitOutcome | crates/aequora-blob/src/lib.rs:365-414 | what is stored and published after a successful upload |
| BlobTheorems.UploadedContentIsReadable | crates/aequora-blob/src/lib.rs:416-423 | and reading the blob returns the concatenation of the source, then and after any later operations |
| BlobTheorems.DownloadAmidOthers | crates/aequora-blob/src/lib.rs:236-291 | with other writers during upload and download, the download writes back exactly the source pieces if and only if each chunk is published by the time it is read |
| BlobTheorems.DownloadIffFetchable | crates/aequora-blob/src/lib.rs:236-291 | it does so whatever others write if, in the store as the commit found it, the content was new or its chunks were already published; with nobody writing during the download only then |
| BlobTheorems.DownloadReturnsPieces | crates/aequora-blob/src/lib.rs:236-291 | with nobody else writing at all, if and only if the same holds of the store before the upload |
| BlobSuccess.ReuploadCannotBeFetched | crates/aequora-blob/src/lib.rs:387-390 | content uploaded in one piece and again in two: both uploads succeed and the second cannot be downloaded |
| BlobTheorems.StagingIsInvisible | crates/aequora-blob/src/lib.rs:355-363 | staging a chunk makes nothing readable |
| BlobTheorems.CommitKeepsStoreOk | crates/aequora-blob/src/lib.rs:365-414 | a commit keeps every string filed under its digest, and a failed one changes nothing |
| BlobTheorems.ReachableStoresAreOk | crates/aequora-blob/src/lib.rs:355-414 | in every reachable store strings are filed under their digests and only stored chunks are published |
| BlobTheorems.ReadableWasCommitted | crates/aequora-blob/src/lib.rs:365-434 | whatever can be read was published by one successful commit of the run, and was not published before it |
| BlobSuccess.UploadSucceedsIff | crates/aequora-blob/src/lib.rs:159-228 | whatever other writers do, an upload succeeds if and only if every piece arrives, all but the last are full, none is empty, and the caller's and the store's limits hold |
| Layering.AddNode | scripts/publish-workspace.py:80-84 | one node's edges are reversed and counted |
| Layering.ReverseEdges | scripts/publish-workspace.py:79-84 | degrees count dependencies and the adjacency lists hold exactly the dependents |
| Layering.StartQueue | scripts/publish-workspace.py:86-86 | the queue starts with the nodes that have no dependency |
| Layering.Sort | scripts/publish-workspace.py:91-91 | a layer is the queue in name order |
| Layering.PublishOne | scripts/publish-workspace.py:94-99 | publishing one node decrements its dependents and queues those released |
| Layering.PublishLayer | scripts/publish-workspace.py:94-99 | publishing a layer queues exactly what it releases |
| Layering.LayerGraph | scripts/publish-workspace.py:90-100 | the loop terminates and each layer is exactly what the layers before it make ready |
| Publish.PlacedMeansAcyclic | scripts/publish-workspace.py:102-106 | if every node is placed the graph has no cycle |
| Publish.StuckMeansCycle | scripts/publish-workspace.py:102-104 | nodes that wait for each other contain a cycle |
| Publish.LayersMean | scripts/publish-workspace.py:72-106 | every node is in exactly one layer, one after the largest layer of its dependencies |
| Publish.ComputeTopologicalLayers | scripts/publish-workspace.py:72-106 | fails if and only if publishable crates form a cycle, reporting crates that wait for each other; otherwise every publishable crate is in exactly one non-empty sorted layer, one past its latest dependency |
| Client.ValidateOperationResults | crates/aequora-client/src/lib.rs:2538-2562 | accepts if and only if submitted operations are distinct and each is reported exactly once and nothing else is |
| Client.ValidateChanges | crates/aequora-client/src/lib.rs:2118-2131 | accepts if and only if every change is in bounds and sequences strictly increase up to the next cursor; tells which fault came first |
| Client.LocalStore.ApplyChanges | crates/aequora-testkit/src/lib.rs:1505-1521 | changes are applied in order, each sequence once |
| Client.LocalStore.Reconcile | crates/aequora-testkit/src/lib.rs:1473-1528 | refuses to move the cursor back; otherwise outbox, queue, journals, entities and cursor after a response |
| Client.LocalStore.ReconcileExchange | crates/aequora-client/src/lib.rs:2070-2163 | given the cursor loaded earlier, the response is applied if and only if every check passes; otherwise nothing changes and the first failing check is reported, down to the fault of the first bad change |
| ClientTheorems.SequencesIncrease | crates/aequora-client/src/lib.rs:2118-2131 | over every run of exchanges one after another, applied sequences strictly increase and the cursor is the last one applied or the starting one |
| ClientTheorems.NothingAppliedTwice | crates/aequora-client/src/lib.rs:2070-2163 | no sequence is applied twice and none at or below the starting cursor |
| ClientTheorems.TimelineIsFixed | crates/aequora-client/src/lib.rs:2097-2115 | between bootstraps the epoch and a bound authority never change, however stale the loaded cursors |
| ClientTheorems.ReplicaIsReplay | crates/aequora-testkit/src/lib.rs:1505-1528 | after every such run the entities are exactly the replay of all applied changes in order |
| ClientStale.CursorNeverGoesBack | crates/aequora-testkit/src/lib.rs:1473-1479 | whatever cursors exchanges start from, the stored cursor never goes back |
| ClientStale.OverlappingExchangesConverge | crates/aequora-client/src/lib.rs:2070-2163 | however exchanges overlap, if the server answers from one journal the replica is always exactly the journal up to the stored cursor |
| ClientTheorems.EachOperationSettledOnce | crates/aequora-client/src/lib.rs:2538-2562 | each submitted operation is in exactly one of acknowledged, rejected or conflicted |
| ClientTheorems.OutcomeIsRecorded | crates/aequora-testkit/src/lib.rs:1480-1525 | the store records that outcome, keeps it in its journals, drops the operation from the queue and touches no other |
| Audit.VerifyChain | crates/aequora-audit/src/lib.rs:630-661 | accepts exactly the intact chains and returns the last hash; otherwise reports the first fault |
| Audit.GrownChainVerifies | crates/aequora-audit/src/lib.rs:594-661 | any list grown by appending verifies |
| Audit.VerifiesIffGrown | crates/aequora-audit/src/lib.rs:594-661 | verification accepts exactly the lists that appending can grow |
| Audit.SharedHashSharesHistory | crates/aequora-audit/src/lib.rs:663-679 | two intact chains that share a record hash agree up to that record |
| Audit.VerifyAgainst | crates/aequora-audit/src/lib.rs:693-703 | decides that the checkpoint names the end of an intact chain; reports the fault of a broken chain and otherwise a mismatch |
| Audit.CheckpointPinsHistory | crates/aequora-audit/src/lib.rs:693-703 | any two lists that verify against one checkpoint are equal record for record |
| Audit.LaterChainExtends | crates/aequora-audit/src/lib.rs:630-703 | a chain that contains a checkpoint's hash extends the checkpointed history |
| Codec.WriteFrame | crates/aequora-codec/src/lib.rs:211-231 | the bytes appended to the buffer are the encoding of the frame |
| Codec.DecodeUndoesEncode | crates/aequora-codec/src/lib.rs:211-290 | an encoded frame decodes to the same fields if and only if its flags are known and its payload fits |
| Codec.EncodeUndoesDecode | crates/aequora-codec/src/lib.rs:240-290 | every accepted frame re-encodes to identical bytes |
| Codec.FramesArePrefixFree | crates/aequora-codec/src/lib.rs:274-290 | no accepted frame is a proper prefix of another |
| Codec.ValueRoundTrip | crates/aequora-codec/src/lib.rs:342-387 | a value survives the wire, compressed or not, if and only if payload and serialized form are within the receiver's two limits |
| Codec.OversizedIsRefused | crates/aequora-codec/src/lib.rs:240-266 | a payload beyond the limit is refused |
| BodyReader.ReadBoundedBody | crates/aequora-axum/src/lib.rs:851-886 | the loop over body pieces computes the reading function |
| BodyReader.ReadDependsOnWholeOnly | crates/aequora-axum/src/lib.rs:851-886 | however the body is cut, reading succeeds if and only if nothing broke and the whole body is within the limit with a valid header and exact length |
| BodyReader.OnlyIntegrityCanFail | crates/aequora-axum/src/lib.rs:851-886 | after a successful read, decoding can fail only on integrity |
| BodyReader.EncodedFrameIsRead | crates/aequora-axum/src/lib.rs:851-886 | an encoded frame is read back and decodes however it is cut, if and only if it fits |
| BodyReader.ErrorDependsOnCutIff | crates/aequora-axum/src/lib.rs:851-886 | the result, error included, is the same for every cut of a body if and only if the body is within the limit or its header declares too much or exactly the limit |
| BodyReader.ErrorDependsOnCut | crates/aequora-axum/src/lib.rs:851-886 | a body for which two cuts give two errors |

## Left out

- OverlappingExchangesConverge: takes the server's answers to come from one journal, which no client check can establish.
- ComputeTopologicalLayers: dictionary order and list order inside the queue are not modelled, since every layer is sorted; reading Cargo metadata is not part of this model.
- ValueRoundTrip: zstd expands the whole payload at once, so the reader that stops one byte past the limit is not modelled; nor is a build without zstd.
- UnusedReservations: a build with overflow checks stops where the sum wraps around.
- AuthorizeWrite: reads state and anchor as one step although they sit behind two locks.
- Reconcile: the journals keep operation identities, not the reasons and payloads that come with them.
- Load hysteresis and brownout: the load state is an input of the admission controller.
- `ClientAuthorityState`, `validate_cursor`, `classify_epoch_operation` and artifact bindings: comparisons settled by reading one branch.
- `PendingIntentPlan`, `BootstrapPreflight`, `RangeResumeGuard`: single checks that would only add easy members.
- The client's batch-shrinking loop, bootstrap page loop, adaptive batcher, retry delays, coordinator, heartbeats and metrics.
- `TestClock`: a test double that may run backwards.
- Audit event validation: any predicate on events; `authority` and `created_at` of a checkpoint do not enter its verification.
- The HTTP layer other than the body reader, the adapters, the command line, the agent, the admin API and the templates.
- Lock poisoning, memory capacity hints and copying.
