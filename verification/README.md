# Attack Surface Monitor: a verified model

Attack Surface Monitor scans the domains a user owns, keeps one record per finding, tells the user when a finding
opens or is resolved, and refuses to probe a domain until its owner has proved control of it. This project models the
parts of it whose behaviour spans many calls, and proves what those parts promise over whole runs.

| file | what it models |
|---|---|
| `Basics.dfy` | small facts about numbers, sets and multisets |
| `Text.dfy` | string order, searching and trimming, as Go's `strings` package does them |
| `Finding.dfy` | findings, validation, the evidence cap, fingerprints |
| `Ulid.dfy` | ULIDs: 128-bit shift-and-carry arithmetic on two 64-bit words against base-32 notation |
| `Store.dfy` | the two stores and `Reconcile`, proved against a step function for one key |
| `Lifecycle.dfy` | runs of scans, status changes and retention deletes |
| `Effects.dfy` | what one scan, status change or delete does to one record and to the lists that announce it |
| `Windows.dfy`, `Conservation.dfy`, `LockStep.dfy`, `Identity.dfy`, `Retention.dfy`, `IdOrder.dfy` | what those runs guarantee |
| `Severity.dfy`, `Notify.dfy`, `Dispatcher.dfy` | the notification dispatcher: a step machine over its lock regions, and the object |
| `Segments.dfy` | what each digest holds, against the order of acceptance |
| `Delivery.dfy` | engine and dispatcher together: whether the user hears of every change |
| `Backoff.dfy`, `Scheduler.dfy` | int64 retry backoff and its gate; worker slots, wait group and shutdown |
| `Sanitizer.dfy` | the evidence sanitiser of the AI client |
| `Ownership.dfy`, `Gate.dfy` | domain names, ownership challenges, and the gate over whole runs |
| `Targets.dfy` | saved and scheduled targets across add, remove and restart |

Code that changes state step by step is modelled by classes and loops, each proved equal to a specification function;
the theorems are lemmas about those functions. Concurrency (dispatcher, scheduler) is a step machine whose steps are
the lock regions, and the theorems hold for every sequence of steps.

## How to read the main results

- `Windows.SlidingWindow`, `Effects.StatusIsLastSet`: what a record says is a function of which of the last scans
  reported the fingerprint, and of the status the user last gave it.
- `Conservation.Alternation` and `Conservation.Balance`: the last event tells a record's state; when opened and
  resolved events alternate, and how they add up.
- `LockStep.StoresAgree`: the in-memory reference and the SQL upsert hold the same records up to ID, and when
  they agree on the ID too.
- `Identity.IdentityIsStable`, `Identity.SuppressedIsSilent`: what scans never change about a record.
- `Retention.PruningIsInvisible`: deleting resolved records changes no notification.
- `IdOrder.IdsFollowCreation`, `IdOrder.IdsAreUnique`: record IDs sort by the millisecond of first sight, and no two
  records share one.
- `Notify.ExactlyOnce`, `Notify.CloseWaits`: no accepted event is lost or announced twice, under any interleaving;
  `Notify.FloorHolds`, `Notify.UrgentIsAccepted`: which events are accepted.
- `Segments.DigestsKeepOrder`: what is inside each digest, and in which order.
- `Delivery.UserIsTold`: when what the user is told about a finding keeps up with its record.
- `Ulid.EncodingsCharacterised`, `Ulid.EncodingPreservesOrder`: the encoding is a bijection onto the strings it should
  be onto, and keeps order (ULID specification, sections "Encoding", "Sorting" and "Binary Layout and Byte Order").
- `Backoff.BackoffClosedForm`: exactly which configurations back off exponentially in int64.
- `Scheduler.WorkerBound`, `Scheduler.StopIsFinal`, `Scheduler.StopCanReturn`: slots are never oversubscribed; when a
  stop is final, and that it can always come about.
- `Sanitizer.OutputBounded`, `Sanitizer.UnchangedExactly`, `Sanitizer.Idempotent`, `Sanitizer.NoMarkerIsSent`,
  `Sanitizer.SecretsLeaveNoTrace`, `Sanitizer.EvidenceSize`: what is sent is bounded, keeps everything within the
  limits, and says nothing of secrets.
- `Gate.DiscoveryNeedsProof`, `Gate.VerifiedExactly`, `Gate.TokenIsStable`: no probe without proof, and proofs stay.
- `Targets.ScheduledExactly`, `Targets.TargetsStayInStep`, `Targets.SavedInInsertionOrder`: a target is scanned from the
  moment it is added until it is removed, and a restart changes nothing.

## Where the code and its documentation disagree

The model follows the code; each point has a member that states the exact condition.

- A backoff that "doubles, capped" overflows int64 for some configurations (`Backoff.BackoffClosedForm`): the
  doubling is safe if and only if the base is below 2^62 and the cap does not exceed the base's largest doubling
  that still fits in 63 bits.
- Values deeper than three levels are said to be replaced by a marker, but a `[]string` has no depth check, so a
  second pass changes the result exactly when such a list was kept at the cut-off depth (`Sanitizer.Idempotent`).
- A pending challenge is said to be issued only on first sight. A name that normalises differently the second time
  replaces the challenge of another name (`Gate.RevokesExactlyWhenUnsettled`, `Gate.StepChallenge`, with
  `Gate.TwoDotsRevoke` for an input).
- Verification is said to revert to pending when the token disappears (verify/verify.go:10-11). No code does that:
  a verified challenge stays verified (`Gate.VerifiedExactly`, `Gate.ProvedForGood`).
- `Stop` before `Start` returns at once and a later `Start` still launches the loops (`Scheduler.StopIsFinal`).
- A fingerprint repeated within one scan is announced once per report: the events of a key alternate if and only if
  no scan opened it more than once or resolved it after a silent revival (`Conservation.Alternation`, with
  `Conservation.TwiceReportedIsDisorderly` for an input), and the repeats add to the totals (`Conservation.Balance`).
  The product repeats fingerprints: the TLS findings leave the port out (asm/collector.go:188-191) and are collected for
  ports 443 and 8443.
- The SQL store is meant to behave as the in-memory one, but keeps the first ID where memory keeps the last: a key has
  one ID in both if and only if its latest insertion was not split (`LockStep.StoresAgree`, with
  `LockStep.TwiceReportedSplits` for an input).
- A finding that opens, is resolved and opens again within one window is announced as opened and resolved only
  (`Delivery.FlickerIsLost`); the exact condition is in `Delivery.KeepsUpExactly`.
- A fingerprint is meant to be an identity, but says which parts it was built from if and only if none of them holds
  the separator (`Findings.FingerprintIsUnmistakable`).
- The dashboard offers status changes on unresolved records only, but the server does not look: one that finds its
  record resolved makes it unresolved without an event (`Conservation.LateChangeIsSilent`) and leaves its counter and
  resolution time behind. How long the events and the counters stay wrong, exactly, is in `Conservation.Alternation` and
  `Conservation.CountersMeanStatus`; what it does to the totals is in `Conservation.Balance`. If the record was deleted
  in the meantime the change is refused, and then a deletion can be seen (`Retention.ActStandsFor`).

## Model

| member | source | states |
|---|---|---|
| Findings.ValidateForIngest | core/finding.go:102-118 | the answer is the first malformed field in the source's order, and none exactly when no field is |
| Findings.CapEvidence | store/reconcile.go:116-132 | storable evidence stays as it is, any other is replaced by the marker for its fault, and no other field changes |
| Findings.ResolveAfterOrDefault | core/collector.go:51-56 | the larger of one and what the module sets |
| Findings.FingerprintIdentifies | core/finding.go:135-138 | with a collision-free hash and no separator in the first three parts, a fingerprint determines all four parts |
| Findings.FingerprintIsUnmistakable | core/finding.go:135-138 | a fingerprint says which four parts it was built from iff none of them holds the separator |
| Findings.BarBreaksFingerprints | core/finding.go:136 | for instance a target that passes for a domain and holds a separator shares its fingerprint with another |
| Ulid.AndMask | store/ulid.go:43 | masking with n ones is the remainder modulo 2^n |
| Ulid.CarryBits | store/ulid.go:45 | the shift-and-or adds the low five bits of the high word on top of the low word, without overflow |
| Ulid.CarryDivides | store/ulid.go:44-46 | one carry step divides the 128-bit value by 32 and the emitted digit is the remainder |
| Ulid.EmitSymbol | store/ulid.go:43-46 | one turn of the loop moves one digit from the words to the text |
| Ulid.EncodeCrockford | store/ulid.go:35-49 | the loop yields the 26 base-32 digits of the 128-bit value |
| Ulid.RoundTrip | store/ulid.go:34-49 | reading the symbols back as base-32 digits gives the value of the bytes |
| Ulid.EncodingsCharacterised | store/ulid.go:34-49 | a 26-symbol string encodes some bytes iff its first symbol is at most '7', and then only one byte string |
| Ulid.EncodingPreservesOrder | store/ulid.go:36-37 | the strings are ordered exactly as the bytes are |
| Ulid.PutTimestamp | store/ulid.go:20-27 | the first six bytes hold the milliseconds modulo 2^48, most significant first |
| Ulid.NewUlid | store/ulid.go:18-32 | the identifier is the encoding of the 48-bit timestamp followed by the random bits |
| Ulid.UlidsSortByTime | store/ulid.go:9-13 | an earlier millisecond gives a smaller identifier, whatever the random bits are |
| Ulid.UlidsDiffer | store/ulid.go:18-32 | two identifiers are equal iff their random bytes and their milliseconds modulo 2^48 are |
| Ulid.SymbolsAre | store/ulid.go:14-16 | the symbols are the digits and the capitals without I, L, O and U |
| Store.FindingStore.ListByTarget | store/memory.go:20-30 | the records of the module and target, each once, in some order |
| Store.FindingStore.Upsert | store/sqlite.go:112-142 | insert, else overwrite everything (memory) or exactly the nine columns (SQL); all other keys stay |
| Store.FindingStore.PruneResolvedBefore | store/sqlite.go:214-222 | exactly the resolved records older than the cutoff go, and their number is returned |
| Store.Engine.Reconcile | store/reconcile.go:23-111 | every key moves by the one-key step, newly-open is in report order, resolved lists each resolving key once, rejected the invalid reports, for every listing order |
| Store.Engine.Ingest | store/reconcile.go:38-86 | the loop over the fresh findings, against the snapshot taken before it |
| Store.Engine.IngestOne | store/reconcile.go:39-85 | one report is rejected, inserted, refreshed or reopened |
| Store.Engine.Sweep | store/reconcile.go:89-108 | the loop over the snapshot counts absences of exactly the unseen, unsettled rows |
| Store.Engine.SweepOne | store/reconcile.go:90-107 | one row is skipped, counted or resolved |
| Store.ScannedAt | store/reconcile.go:23-111 | a scan acts on each key alone; other modules and targets are untouched |
| Store.WalkedAt | store/reconcile.go:38-86 | after the first loop every reported key holds the merge of its last report, any other key what it held |
| Lifecycle.HandleFindingStatus | web/server.go:239-266 | an existing record gets the status asked for and nothing else of it or of any other changes; resolved and unknown statuses are refused |
| Lifecycle.PruneForgets | store/sqlite.go:214-222 | a retention delete is one case of forgetting resolved records |
| Lifecycle.RunSnoc | store/reconcile.go:23-111 | the run of the store is, at every key, the run of that key |
| Lifecycle.GenuineIsAttributed | core/finding.go:135-138 | fingerprints built by the core determine target and check |
| Effects.AbsenceCounts | store/reconcile.go:90-107 | a scan of its target that omits an open or acknowledged finding adds one to its streak and, exactly from the threshold on, resolves it now; nothing else changes |
| Effects.AbsenceSkips | store/reconcile.go:91-97 | resolved and suppressed findings, and those of other modules and targets, are left alone |
| Effects.ReportRefreshes | store/reconcile.go:67-85 | a report sets title, severity, remediation, evidence and last sight and clears the streak, whatever the status; only resolved becomes open |
| Effects.ReportInserts | store/reconcile.go:46-64 | a new finding is open, seen now, with no absence and as last reported |
| Effects.OpenedInOrder | store/reconcile.go:38-86 | the newly-open list announces exactly the reports that open their key, each once, as reported, in report order |
| Effects.RejectedInOrder | store/reconcile.go:38-42 | the rejected list names exactly the malformed reports, each with its first malformed field, in report order |
| Effects.AnnouncedAsStored | store/reconcile.go:53-85 | what is announced for the last report of a key is the finding that is stored, up to the ID that SQL keeps |
| Effects.ResolvedAsStored | store/reconcile.go:99-107 | what is announced as resolved is the finding that is stored |
| Effects.StatusChangesOnly | web/server.go:255-261 | a status change sets that status of that record only |
| Effects.StatusIsLastSet | store/reconcile.go:13-19 | over every run an unresolved record has the status the user last gave it since it was opened |
| Effects.DeletesOnlyOld | store/sqlite.go:214-222 | a retention delete takes a record iff it was resolved before the cutoff |
| Windows.OnlyOwnScans | store/reconcile.go:23-111 | without status changes or deletes of a key, a run equals there the run of the scans of its own module and target |
| Windows.SlidingWindow | store/reconcile.go:36-108 | in any run whose status changes set the unresolved key to open or acknowledged: record iff some scan of its target reported it; streak is min(k, those scans since the last report); resolved iff the last k of them omitted it, acknowledged or not; otherwise its status is what the user last set; descriptive fields are those of the last report |
| Conservation.OpenedCount | store/reconcile.go:46-64 | a key not unresolved in the snapshot is announced once per valid report, any other never |
| Conservation.ScanEvents | store/reconcile.go:68-107 | a scan announces one opening per report of a key that was not unresolved, at most one resolution of one that was, and which of them is told |
| Conservation.Alternation | store/reconcile.go:68-107 | over every run the last event of a key tells its state iff no status change has silently revived it since its last resolution, and the events alternate, starting with opened, iff no scan opened the key more than once or resolved it after a silent revival |
| Conservation.LateChangeIsSilent | web/server.go:239-266 | a status change on a resolved record makes it unresolved without an event |
| Conservation.TwiceReportedIsDisorderly | store/reconcile.go:46-64 | a new finding reported twice in one scan is opened twice |
| Conservation.ResolvedLength | store/reconcile.go:99-104 | the resolved list has one entry per resolving key |
| Conservation.ScanBalance | store/reconcile.go:68-107 | keys opened minus keys resolved by one scan is the change in the number of unresolved records |
| Conservation.OpenedLength | store/reconcile.go:46-64 | the newly-open list exceeds its keys exactly by the repeated reports |
| Conservation.Balance | store/reconcile.go:68-107 | over every run keys opened minus keys resolved plus status changes that revived a record is the number of unresolved records; listed openings exceed keys opened by the repeats, and balance by themselves iff repeats equal revivals |
| Conservation.CountersMeanStatus | store/reconcile.go:98-103 | over every run unresolved records are below the threshold without a resolution time and resolved ones at it with one, iff the key is not left miscounted by a revival |
| Conservation.StatusOnResolvedBreaksCounters | web/server.go:255-261 | a status change keeps that exactly when the record is not resolved |
| LockStep.StoresAgree | store/sqlite.go:125-140 | after every run both stores hold equal records up to ID, and the same record iff its latest insertion did not split its ID |
| LockStep.StepLockStep | store/sqlite.go:125-140 | one scan that inserts a key leaves equal records iff its first and last report carry one ID; any other scan keeps equality and difference |
| LockStep.SameAnnouncements | store/memory.go:32-37 | and their next scan announces the same, up to ID |
| LockStep.InsertedIds | store/reconcile.go:46-64 | an inserting scan leaves the ID of the last report in memory and that of the first in SQL |
| LockStep.TwiceReportedSplits | store/reconcile.go:46-64 | a new finding reported twice in one scan has one ID in memory and another in SQL |
| Identity.IdentityIsStable | store/reconcile.go:67-84 | until it is deleted a record keeps ID, first sight, group, target and check, through every run |
| Identity.StatusSurvives | store/reconcile.go:13-19 | a scan changes the status of an unresolved record only by resolving it, and never resolves a suppressed one |
| Identity.SuppressedIsSilent | store/reconcile.go:93-97 | until the user changes it a suppressed record stays suppressed and causes no event, reported or not |
| Retention.PruningIsInvisible | store/sqlite.go:214-222 | with any resolved records deleted at any times, and no status change asking for a deleted one, every scan announces the same newly-open list and resolved multiset, up to ID, FirstSeen and GroupID |
| Retention.PrunedRunStandsFor | store/reconcile.go:46-108 | at every key for which no status change comes after its deletion the pruned store stands for the unpruned one |
| Retention.ActStandsFor | web/server.go:255-261 | one action keeps the two stores alike iff it is not a status change of a record deleted in one of them |
| IdOrder.RunStamped | store/reconcile.go:49-57 | every stored ID is the ULID of its record's first sight |
| IdOrder.IdsFollowCreation | store/reconcile.go:49-57 | a record first seen in an earlier millisecond has a smaller ID |
| IdOrder.RunGives | store/reconcile.go:49-54 | a stored ID was given to a report of the same key |
| IdOrder.IdsAreUnique | store/sqlite.go:41 | if no two reports drew the same bytes in one millisecond, no two records of any reachable store share an ID |
| SeveritySort.SeverityRank | notify/notify.go:228-241 | the core's own rank for a known severity, zero for any other |
| Findings.SeverityOrder | core/finding.go:28-42 | critical, high, medium, low and info rank in this order, anything else below |
| SeveritySort.SwapBack | notify/notify.go:247 | swapping neighbours of different rank moves nothing within a rank |
| SeveritySort.SortBySeverity | notify/notify.go:243-250 | the in-place insertion sort yields the rank buckets of the input |
| SeveritySort.DigestOrder | notify/notify.go:178-190 | that order is descending in severity, a permutation, and stable within each rank |
| Notify.WithDefaults | notify/notify.go:66-80 | each limit is the one given if that is positive, else 30 s, 100, 3 or 5 s; the floor is kept |
| Notify.FlushEvents | notify/notify.go:168-192 | a flush announces exactly the pending events, each once |
| Notify.FlushWindow | notify/notify.go:177-190 | one non-empty digest per module, most severe first, no event key twice |
| Notify.AlwaysInv | notify/notify.go:113-206 | in every reachable state seen is the key set of pending, pending is below the batch size and has a timer or a waiting flush, and closed means nothing pending |
| Notify.ExactlyOnce | notify/notify.go:113-206 | accepted events are the emitted plus the pending ones; senders in flight or finished are one per digest and channel |
| Segments.DigestsKeepOrder | notify/notify.go:176-190 | under every interleaving the accepted events fall into one segment per flush, and each digest is its module's part of its segment, in the order accepted within a severity |
| Notify.FloorHolds | notify/notify.go:113-164 | no accepted opened event ranks below the severity floor, in the core's ranks |
| Notify.FloorIsRank | notify/notify.go:159-164 | an event passes the floor iff its rank is at least the floor's, unknown counting as info |
| Notify.UrgentIsAccepted | notify/notify.go:113-127 | while the dispatcher is open, a resolved event, or an opened one at or above the floor, is accepted unless its key is pending |
| Notify.BatchOrWait | notify/notify.go:129-139 | an accepted event waits with a timer while the batch has room, and fills the batch into one flush otherwise |
| Notify.FindingsInOrder | notify/notify.go:180-187 | a digest lists the findings of exactly the events of the kind, in the order accepted |
| Notify.EverySendOnce | notify/notify.go:194-205 | each non-empty digest is sent to each channel exactly once |
| Notify.PendingGetsOut | notify/notify.go:137-148 | pending events can always get out by the timer alone |
| Notify.CloseCanReturn | notify/notify.go:151-157 | once closed, the sends in flight can finish and let Close return |
| Notify.ClosedIsFinal | notify/notify.go:119-121 | once closed nothing is pending, accepted, emitted or launched again |
| Notify.CloseWaits | notify/notify.go:151-157 | once Close returns every send of every accepted event has finished, delivered or given up, and none is outstanding, forever |
| Notify.DedupIsExact | notify/notify.go:122-126 | exactly the repeats of a pending kind, module and fingerprint are dropped |
| Dispatchers.Dispatcher.Enqueue | notify/notify.go:113-140 | one call is one step of the machine |
| Dispatchers.Dispatcher.Add | notify/notify.go:126-139 | the event is appended, and the batch flushed when full, or else the timer armed |
| Dispatchers.Dispatcher.Expire | notify/notify.go:137-139 | the window timer starts a flush that does not have the lock yet |
| Dispatchers.Dispatcher.Flush | notify/notify.go:144-148 | one call is one step of the machine, by timer or direct |
| Dispatchers.Dispatcher.Close | notify/notify.go:151-157 | the lock region flushes, then closes |
| Dispatchers.Dispatcher.FlushLocked | notify/notify.go:168-206 | pending becomes digests, a new window starts, and the wait group grows by one per send |
| Dispatchers.BuildAll | notify/notify.go:176-190 | one digest per pending module, in some order of the map |
| Dispatchers.BuildDigest | notify/notify.go:179-188 | opened findings sorted by severity, resolved ones in order |
| Dispatchers.LaunchAll | notify/notify.go:194-205 | one send per non-empty digest and channel |
| Dispatchers.CountPending | notify/notify.go:129-132 | the sum of the list lengths is the number of distinct pending events |
| Dispatchers.SendWithRetry | notify/notify.go:208-224 | attempts stop at the first success, and an error is reported iff all allowed attempts failed |
| Dispatchers.OnResult | notify/bridge.go:12-25 | newly-open findings, then resolved ones, are enqueued in order |
| Delivery.BridgeCarriesEvents | notify/bridge.go:18-23 | about each key the bridge enqueues exactly the events of the scan |
| Delivery.WindowIsPending | notify/notify.go:122-127 | what is pending about a key is what the window has heard about it |
| Delivery.NothingForgotten | notify/bridge.go:14-24 | over every joint run, what was enqueued about a key and what the bridge still owes are the events of the engine |
| Delivery.KeepsUpExactly | notify/notify.go:113-140 | under every interleaving the last accepted event of a key is of the kind of the last enqueued one at every moment, iff no change of it is below the floor, after Close, or of a kind its window has had |
| Delivery.UserIsTold | notify/bridge.go:12-25 | over every interleaving of engine, bridge and dispatcher: the word accepted about a key is the latest at every moment iff no change was lost; once the bridge has caught up it tells whether the record is unresolved, iff no silent revival; and in an orderly run without loss every event was accepted |
| Delivery.FlickerIsLost | notify/notify.go:122-126 | a finding opened, resolved and opened again in one window is told as opened and resolved |
| Backoff.BackoffFor | sched/scheduler.go:339-351 | the loop computes the wrapped doublings with their early return: in a safe configuration min(base * 2^(n-1), cap) for n failures |
| Backoff.BackoffClosedForm | sched/scheduler.go:338-351 | it is min(base * 2^(n-1), cap) for every number n of failures, and min(base, cap) for none, iff the configuration is safe |
| Backoff.SmallIsSafe | sched/scheduler.go:338-351 | a base below 2^62 with a cap of at most 2^62 is safe |
| Backoff.OverflowCount | sched/scheduler.go:341-346 | every unsafe configuration reaches a negative delay |
| Backoff.TrailCounts | sched/scheduler.go:274-287 | the counter is the length of the run of failures at the end of the target's outcomes |
| Backoff.WaitsFromLast | sched/scheduler.go:274-287 | the wait starts at the target's last completion, iff that was a failure |
| Backoff.ModuleLoop.TryLaunch | sched/scheduler.go:261-269 | a target is launched iff its gate has passed, which in a safe configuration is its last failure plus the doubled, capped base |
| Backoff.ModuleLoop.Complete | sched/scheduler.go:270-288 | failures other than cancellation back off, anything else resets |
| Backoff.ModuleLoop.Fail | sched/scheduler.go:274-284 | the counter is the length of the trailing run of failures, and the gate is that failure plus its delay |
| Backoff.ModuleLoop.NoEarlyRetry | sched/scheduler.go:255-290 | so no launch in the loop's whole history happened earlier than that |
| Scheduler.NextKeeps | sched/scheduler.go:236-336 | every step keeps the counters equal to what they count |
| Scheduler.WorkerBound | sched/scheduler.go:308-314 | occupied slots are the scans between acquire and release, never more than the workers |
| Scheduler.StopIsFinal | sched/scheduler.go:197-205 | after Stop's wait none ever starts again, iff the scheduler had been started |
| Scheduler.LateStart | sched/scheduler.go:117-135 | a Register and a Start after an early Stop still bring a loop up |
| Scheduler.StopCanReturn | sched/scheduler.go:197-205 | after every run of a started scheduler its loops and scans can all leave once it is cancelled, and the wait group gets to zero |
| Scheduler.FreeSlotIsUsable | sched/scheduler.go:309-311 | a waiting scan can take a slot whenever fewer scans run than there are workers |
| Scheduler.LoopCanScan | sched/scheduler.go:268-311 | and a live loop can then launch a scan that runs |
| Scheduler.Pool.Enrol | sched/scheduler.go:117-135 | an empty or repeated ID is refused |
| Scheduler.Pool.Begin | sched/scheduler.go:180-194 | a second Start is refused; the first counts one loop per module |
| Scheduler.Pool.CancelAll | sched/scheduler.go:197-203 | cancels only what was started |
| Scheduler.Pool.Launch | sched/scheduler.go:268-271 | a scan is counted before it starts |
| Scheduler.Pool.Release | sched/scheduler.go:311-336 | every return after the acquire gives the slot back |
| Sanitizer.HasMarker | internal/aiclient/evidence.go:128-136 | the loop finds a marker iff the lower-cased key contains one |
| Sanitizer.SecretIsSpelled | internal/aiclient/evidence.go:128-136 | a key is secret iff the lower case of some stretch of it spells a marker |
| Sanitizer.CollectKeys | internal/aiclient/evidence.go:54-60 | exactly the keys without a marker, each once, in some order |
| Sanitizer.SortStrings | internal/aiclient/evidence.go:61 | sorted, with the same keys |
| Sanitizer.SortedPrefix | internal/aiclient/evidence.go:61-64 | the first n sorted keys are those with fewer than n smaller public keys |
| Sanitizer.SanitizeMap | internal/aiclient/evidence.go:50-73 | the result does not depend on the order the map is ranged in |
| Sanitizer.SanitizeValue | internal/aiclient/evidence.go:75-126 | each kind of value is copied, cut, omitted or converted |
| Sanitizer.OutputBounded | internal/aiclient/evidence.go:33-48 | no secret key at any level, at most 24 keys, 12 items and 401 characters, nesting cut off |
| Sanitizer.NoMarkerIsSent | internal/aiclient/evidence.go:36-37 | no key at any level of the output has a stretch whose lower case is a marker |
| Sanitizer.KeptExactly | internal/aiclient/evidence.go:54-64 | a map keeps exactly the keys that spell no marker and have fewer than 24 smaller ones among those |
| Sanitizer.FewKeysSurvive | internal/aiclient/evidence.go:54-64 | so all of them survive when they are at most 24 |
| Sanitizer.PasswordIsDropped | internal/aiclient/evidence.go:27-31 | for instance DB_Password goes and host stays |
| Sanitizer.FirstItemsMatter | internal/aiclient/evidence.go:87-99 | a list keeps its first 12 items, in order, each sanitised one level deeper |
| Sanitizer.StringListAsList | internal/aiclient/evidence.go:100-109 | a list of strings comes out like the same plain list, but never cut off for depth |
| Sanitizer.StringsAreCut | internal/aiclient/evidence.go:38 | a string beyond 400 characters keeps those and gains the mark |
| Sanitizer.UnchangedExactly | internal/aiclient/evidence.go:33-48 | a value is left alone iff it respects the limits |
| Sanitizer.Idempotent | internal/aiclient/evidence.go:75-109 | sanitising again changes nothing iff no string list was kept at the cut-off depth |
| Sanitizer.TwicePassesDiffer | internal/aiclient/evidence.go:100-109 | three nested maps over a string list come out differently the second time, with the source's own markers |
| Sanitizer.SizeBound | internal/aiclient/evidence.go:50-126 | the number of scalars is bounded at every depth, whatever the input size |
| Sanitizer.EvidenceSize | internal/aiclient/evidence.go:46-48 | at most 24^3 * 12 scalars, and 24^3 when no string list sits at the cut-off depth |
| Sanitizer.SecretsLeaveNoTrace | internal/aiclient/evidence.go:36-37 | the result is the same with the secret entries and without them |
| Ownership.NormalizeDomain | asm/collector.go:230-242 | the reassignments compute the normal form |
| Ownership.FixedPoints | verify/verify.go:177-189 | a name is its own normal form iff it is canonical |
| Ownership.NormalizedChars | verify/verify.go:178-184 | a normal form is lower case without path, query or fragment |
| Ownership.NormalizeTwice | asm/collector.go:90 | a second normalisation changes nothing iff there is no edge space, no trailing dot, and no colon unless a bracket |
| Ownership.UrlNormalizesToHost | verify/verify.go:175-176 | a URL with scheme, port and path, in any case and with spaces around it, normalises to its canonical host |
| Ownership.SourceExample | verify/verify.go:176 | the example in the source's comment |
| Ownership.Verifier.Satisfied | verify/verify.go:130-161 | true iff some current or former DNS record or file holds the current or former value; DNS is tried first |
| Ownership.PublishingSuffices | verify/verify.go:91-161 | publishing the value as told, or its former form, under either DNS name or at either URL, with any spaces around it, satisfies the challenge |
| Ownership.ProofBindsToken | verify/verify.go:133-134 | one text proves challenges of one token only |
| Ownership.NamesBindDomain | verify/verify.go:69-84 | a DNS name is looked up for one domain only |
| Ownership.UrlsBindDomain | verify/verify.go:75-86 | so is a URL |
| Ownership.Collector.ValidateTarget | asm/collector.go:76-99 | which inputs are accepted or refused and why, and which challenge is issued where |
| Ownership.Collector.Collect | asm/collector.go:105-125 | discovery starts iff the stored challenge is verified or satisfied in this call |
| Gate.AsmIssues | asm/collector.go:76-99 | a step of a run is ValidateTarget's effect on the store |
| Gate.IssuedWhereCollectReads | asm/collector.go:89-97 | an accepted name's challenge is found by Collect iff it was on record or the name is canonical |
| Gate.RevokesExactlyWhenUnsettled | asm/collector.go:88-98 | adding a name can replace an existing challenge iff it is accepted and not canonical |
| Gate.TwoDotsRevoke | asm/collector.go:88-98 | for instance a host with two dots behind it resets the host's challenge to pending |
| Gate.VerifiedWasProved | asm/collector.go:115-125 | every stored challenge sits under its own domain, and a verified one was satisfied in some earlier Collect of it |
| Gate.DiscoveryNeedsProof | asm/collector.go:105-130 | discovery runs only when the challenge on record was satisfied in this Collect or an earlier one |
| Gate.ProofIsStored | asm/collector.go:115-125 | a satisfied pending challenge is stored as verified now, with its token, and no other challenge changes |
| Gate.VerifiedExactly | asm/collector.go:105-130 | after every run a challenge is verified iff some Collect of its domain went on to discovery and no step replaced it since |
| Gate.ProvedForGood | asm/collector.go:111-125 | and then every later Collect discovers, whatever the lookups say by then |
| Gate.CanonicalReplacesNone | verify/verify.go:102-117 | adding a canonical name replaces no challenge |
| Gate.StepChallenge | asm/collector.go:88-125 | one step leaves the challenge of a domain as it was or verifies it, iff it is not a name that is accepted, not on record and normalises to the domain only the second time; that one replaces it by a pending one |
| Gate.TokenIsStable | asm/collector.go:88-125 | over every run an issued challenge is never gone; while no step replaces it its token stays and verified stays verified; and, new tokens being other tokens, its token is the same iff no step has |
| Targets.SavedTargets.SaveTarget | store/memory.go:74-87 | appends, unless the canonical name is there |
| Targets.SavedTargets.DeleteTarget | store/memory.go:89-101 | filters the list in its own array, in order |
| Targets.SavedTargets.ListSavedTargets | store/memory.go:103-111 | the raw inputs in order |
| Targets.Server.AddTarget | sched/scheduler.go:140-155 | a valid input is scheduled under its canonical name |
| Targets.Server.HandleAddTarget | web/server.go:278-306 | limit check, schedule, then save |
| Targets.Server.HandleRemoveTarget | web/server.go:308-319 | unschedules and forgets; an empty name is refused |
| Targets.Server.Boot | cmd/asm/main.go:82-88 | replays the saved inputs into an empty scheduler |
| Targets.ReplayFills | cmd/asm/main.go:82-88 | no saved input is skipped, and the table is that of the saved list |
| Targets.RestartChangesNothing | cmd/asm/main.go:81-88 | a restart keeps the saved list and the scheduled names, each under its first input |
| Targets.AddTakesEffect | web/server.go:286-304 | an input is scheduled under its name and, if that is new, saved last, iff it is accepted and there is room; otherwise nothing is, and no other name changes |
| Targets.RemoveTakesEffect | web/server.go:308-319 | removing a name unschedules and forgets it; every other scheduled name, every other saved entry with its order, and the challenges stay |
| Targets.ScheduledExactly | web/server.go:278-319 | over every run, restarts included, a name is scheduled, and saved, iff an accepted add with room put it there and no later step removed it |
| Targets.TargetsStayInStep | web/server.go:278-319 | over every run scheduled and saved names agree, without duplicates, within the limit |
| Targets.SavedInInsertionOrder | store/memory.go:74-111 | the list is in the order the names were last newly added, each with the input that added it |

## Left out

- Interleavings of two `Reconcile` calls, or of one with a status change, on the same target: no lock guards them, so each call is one step.
- Reconcile: `Upsert` and `newID` are taken to succeed; an error return leaves a partial scan behind. IDs are given with each report, so a report that needs none carries one that is not used.
- SlidingWindow: runs in which no delete lists the key, no status change suppresses it or finds it resolved, and its module has one setting; in any other run what holds of the counters is `Conservation.CountersMeanStatus`, and of a suppressed record `Identity.SuppressedIsSilent`.
- IdsAreUnique: that the random bytes differ is a premise; 80 bits make a repeat unlikely, not impossible.
- StopCanReturn, CloseCanReturn, PendingGetsOut, LoopCanScan: that a continuation exists, not that every schedule takes it.
- IdsFollowCreation: clock readings fit the 48 bits of a ULID's timestamp.
- The SQL engine, JSON, SHA-256, randomness and clocks are parameters: opaque evidence, a collision-free digest, given identifiers and times. SQL rows that were written read back unchanged.
- The store keys `module + NUL + fingerprint` and `module + NUL + domain` are pairs, so names that contain NUL are not confused.
- `ListOpen`, `ListAll`, the schema migration and `Vacuum`: reads and administration without a property of their own.
- HandleFindingStatus: JSON decoding and HTTP replies other than which kind of answer is given.
- Dispatcher.Expire: how long the window lasts; a timer that was stopped does not fire, one that fired may still flush later.
- SendWithRetry: which of the finished sends were delivered is not part of the dispatcher's state. The send timeout and the delay between attempts are left out; channels are numbered, their delivery is I/O.
- OnResult: the enqueues of one result are proved for a goroutine that nobody interrupts; `Delivery.UserIsTold` allows any lock regions and any other results in between, as long as the events about one key are enqueued in the order they were announced; overlapping scans of one target, which could break that order, are left out as above.
- BindScheduler's chaining to an earlier callback: it runs first and is not seen.
- TryLaunch: the gate check and the launch are one step; the code releases the gate's lock in between. Time plus delay does not overflow.
- StopIsFinal: scans started by `AddTarget` and `ScanNow` are not in the guarantee, since `ScanNow` is outside the wait group and `AddTarget` checks the context before it counts itself. Both are in the worker bound.
- The scheduler's loops, interval and jitter, and the scan itself: a scan is a step between acquire and release.
- SanitizeValue: what `encoding/json` makes of a product type is part of the input; numbers are opaque scalars. Lower-casing and the marker list are parameters of the general results.
- SortStrings: the library sort is an insertion sort here; only its result matters. String order is by character, which for UTF-8 is Go's byte order.
- NewFindingPacket, the HTTP client and `internal/aiclient/guard.go`: formatting, I/O and regular expressions.
- NormalizeDomain: the case mapping is a parameter, applied to each character; what needs it to keep lower case as it is says so. The two copies of the function are one here, and `net.ParseIP` is a parameter.
- Satisfied: each lookup gives one answer for the whole call, and a failing lookup is one that gives nothing; contexts and timeouts are not modelled. Errors of the challenge store do not occur.
- Collect: what discovery and probing find, and the findings built from it.
- Targets of several modules, and failures to persist: the product registers one module, and saving succeeds. A tier change that moves the limit during a run is not modelled.
- Licences, tiers, the export formats, TLS probing, discovery sources, the HTML page and the installer: library work or short branches.
