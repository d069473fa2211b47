# Durability, admission and coverage of the audit workbench

This project models the parts of the repository that must not lose or repeat anything, and proves what they promise over
all inputs and all runs.

| file | what it models |
|---|---|
| `TraceLog.dfy`, `TraceIndex.dfy`, `TraceQuery.dfy` | the append-only trace log, its derived index, and queries against the full scan |
| `ConcurrentIndexers.dfy`, `InterleavedQuery.dfy` | several processes extending one index by compare-and-swap, and a query between their steps |
| `ArtifactPublication.dfy`, `ArtifactIdentity.dfy` | publication of content-addressed artifacts under crashes, and what an address and a `get` mean |
| `CanonicalJson.dfy`, `JsonText.dfy`, `KeyOrder.dfy` | the canonical printer: normal values, their text, its parse, and the object `JSON.parse` builds |
| `Journal.dfy`, `JournalText.dfy`, `Activity.dfy` | the activity journal on disk, its lines, and the runtime that writes and restores from it |
| `CompletedArtifacts.dfy` | activities and the artifact store together |
| `Advisor.dfy` | the advisor's durable use ledger |
| `RateLimiter.dfy` | the sliding-window scheduler |
| `TokenUsage.dfy`, `TokenLedger.dfy` | the durable token budget |
| `Invocation.dfy` | the retry loop around one provider call |
| `ScopePacking.dfy`, `TestPlacement.dfy`, `ModuleGroups.dfy`, `LineWindows.dfy`, `DiscoveryUnits.dfy`, `Discovery.dfy` | discovery coverage |
| `ReviewBatches.dfy`, `PairPacking.dfy` | review batches and the packing of pair checks |
| `ImportClosure.dfy`, `IncrementalReuse.dfy`, `AuditStages.dfy` | incremental reuse |
| `LineDiff.dfy` | the minimal line diff |
| `Options.dfy`, `Hashing.dfy`, `Sequences.dfy`, `Text.dfy` | absent values, digests, shared sequence functions and JavaScript's string order |

Classes hold what the source updates in place; each method is proved against a function of the old state, and the promises
are lemmas about those functions over whole runs. The code between two `await`s is one atomic step. SHA-256 is a datatype
constructor, hence injective. Strings whose order or encoding matters are sequences of UTF-16 code units. Unicode
normalisation, UTF-8, JSON parsing of trace lines, import heuristics, `fits` checks, transports and clocks are parameters,
with the property a proof needs stated where it is used.

These promises of the repository turn out to need a condition, which is stated exactly:

- `committed_bytes` of the trace index can decrease. A process that took the log's size before another process indexed past
  it takes the index for one of a longer log and discards it (`ConcurrentIndexers.CheckResetsIffBehind`,
  `ConcurrentIndexers.TheIndexCanShrink`). The index stays correct: it is rebuilt from the log.
- The comment at `packages/persistence/src/trace-index.ts:13-16` says a replaced log is detected. Only the length and the
  first and last indexed lines are compared (`TraceIndex.StaleIffEndsChanged`), so a filtered page of a log replaced in
  between can lack a trace without any sign of corruption (`TraceQuery.ReplacedMiddleServesAWrongPage`).
- The journal prints IDs in NFC, and a runtime looks up the caller's own ID. That a journal starts the attempts of an ID in
  strictly increasing order, that it ends an attempt at most once, and that a restart knows every completed activity: each
  holds over all runs exactly when every ID called is in NFC or empty (`Activity.JournalSurvives`). An ID that is not in NFC
  starts and ends attempt 1 again after a restart (`Activity.FailedTwiceRepeats`). That an attempt ends only after its
  start, and an `end` follows its `put`, holds for all IDs.
- The comment at `packages/runtime/src/incremental-audit.ts:257-258` says a base audited by a build whose stages checked
  differently is not reused. Both sides of the comparison are computed with the running build's own number, so such a base
  is reused exactly when nothing else changed (`AuditStages.OtherLogicIsReusedIff`).
- A page is served without a transaction around its statements. Every query of a process is answered as the full scan answers
  it exactly when its statements find indexed the lines it had caught up to; after another process commits or discards it can
  be empty beside a total that is not zero, or fail as out of range (`InterleavedQuery.ServedIs`, `InterleavedQuery.QueriesAreScansIff`).
- The comment at `packages/runtime/src/model-advisors.ts:107-108` says that asking a question again consumes no further use.
  The ledger is read back with every string redacted and in NFC, and the caller's own ID is looked up in it. No ID is sent
  twice exactly when storage keeps every ID asked under (`Advisor.QuestionsAreSentOnceIff`). The limits on uses and tokens
  hold for all IDs (`Advisor.AllowanceHolds`).
- A returned put whose class the policy syncs survives a loss of power, unless the same bytes are also put with a class it
  does not sync: the put that syncs then finds them and returns without an `fsync` (`ArtifactPublication.SyncedPutMayBeLost`).
  Per address the condition is that no class is unsynced (`ArtifactPublication.SurvivesPowerLossIffSynced`).
- The comment at `packages/providers/src/token-budget.ts:61` says a release is idempotent for the same rule. After a restart
  the budget compares with what storage kept: activity IDs and rules redacted and in NFC, and the fields of a usage by name,
  while JSON texts are compared (`TokenLedger.RecordingAgainStandsIff`, `TokenLedger.ReleasingAgainStandsIff`,
  `TokenLedger.ReservationStaysKnownIff`). What is admitted keeps within the limit for all texts.
- A discovery unit on which nothing changed is reused exactly when storage keeps the paths its identity names
  (`IncrementalReuse.UnchangedIsReusedIffNamesKept`): one with a path that is not in NFC is audited again.

## Model

| member | source | states |
|---|---|---|
| LineDiff.LcsBound | packages/protocols/src/registry.ts:211-218 | no matrix entry exceeds either remaining length, so an entry cannot overflow 32 bits |
| LineDiff.LcsIsUpperBound | packages/protocols/src/registry.ts:215-217 | no common subsequence of the two remainders is longer than the entry |
| LineDiff.EveryScriptKeepsAtMostLcs | packages/protocols/src/registry.ts:208-237 | no edit script at all between two texts keeps more lines than the entry at the origin |
| LineDiff.KeptIsCommon | packages/protocols/src/registry.ts:224-227 | the context lines of any script are a common subsequence of both texts |
| LineDiff.WalkSpellsBoth | packages/protocols/src/registry.ts:221-235 | the walk's context and removed lines spell `before`, its context and added lines spell `after`, and it keeps as many lines as the matrix says |
| LineDiff.WalkIsMinimal | packages/protocols/src/registry.ts:208-237 | no script between the texts has fewer added and removed lines than the walk's; its context is a longest common subsequence |
| LineDiff.FillMatrix | packages/protocols/src/registry.ts:211-219 | filling 32-bit rows bottom-up, right to left, leaves the longest-common-subsequence length in every entry |
| LineDiff.WalkMatrix | packages/protocols/src/registry.ts:220-236 | the index walk over the filled matrix emits the specified script |
| LineDiff.DiffLines | packages/protocols/src/registry.ts:208-237 | the emitted diff turns `before` into `after`, joins back to both texts, and no diff is shorter |
| LineWindows.LongestFrom | packages/runtime/src/model-discovery.ts:736-737 | the binary search ends on a window that fits and, for a `fits` monotonic in its end, on the last line that does |
| LineWindows.AllocateLineWindows | packages/runtime/src/model-discovery.ts:731-743 | for any `fits`: each line is in a window that fits or reported, starts increase; if monotonic, each window is maximal; if closed under narrowing, windows chain without gaps sharing min(overlap, half) lines, ends never decrease, and exactly the lines that do not fit alone are reported |
| LineWindows.NarrowingReportsExactly | packages/runtime/src/model-discovery.ts:729-742 | with a `fits` closed under narrowing, reported, uncovered and not fitting alone are the same lines |
| ScopePacking.AllocationConserves | packages/runtime/src/discovery-scope.ts:12-36 | packing puts each file in exactly one scope or leaves it out, every scope is non-empty and fits, and a file is left out only if it does not fit alone |
| ScopePacking.AllocationKeepsOrder | packages/runtime/src/discovery-scope.ts:17-34 | when files that fit together fit alone, the scopes hold exactly the files that fit alone, in module order |
| ScopePacking.SplitModulesAreListed | packages/runtime/src/discovery-scope.ts:16-33 | every scope that holds some but not all files of a module lists that module as split |
| ScopePacking.FittingModulesStayWhole | packages/runtime/src/discovery-scope.ts:18-23 | a module that fits one scope is never split: its files stand in one scope, one after another |
| ScopePacking.FittingBundlesStayWhole | packages/runtime/src/discovery-scope.ts:24-27 | a bundle that fits one scope is never split, so a file keeps its tests though its module is split |
| ScopePacking.OnlyOversizedAreListed | packages/runtime/src/discovery-scope.ts:24-33 | a module is listed as split only if it does not fit one scope |
| ScopePacking.NeighboursShareAScope | packages/runtime/src/discovery-scope.ts:18-23 | two modules one after the other that fit share a scope, unless the scope that ends with the first has no room for the second |
| ScopePacking.BundlesShareAScope | packages/runtime/src/discovery-scope.ts:25-27 | the same of two bundles of a module |
| ScopePacking.FilesShareAScope | packages/runtime/src/discovery-scope.ts:28-32 | the same of two files of a bundle |
| ScopePacking.AllocateDiscoveryScopes | packages/runtime/src/discovery-scope.ts:12-36 | the nested packing loops compute the specified allocation, with the left-out paths sorted |
| TestPlacement.LastTarget | packages/runtime/src/discovery-scope.ts:78 | the fallback anchor is the imported target placed last |
| TestPlacement.Named | packages/runtime/src/discovery-scope.ts:80 | the preferred anchor is the first target whose name the test carries, and none only if there is no such target |
| TestPlacement.AnchorIff | packages/runtime/src/discovery-scope.ts:74-81 | a test is moved if and only if it imports a file of the snapshot that is no test: after one whose name it carries if there is one, else after the one placed last |
| TestPlacement.PositionIsFirst | packages/runtime/src/discovery-scope.ts:73 | a file's position is where it stands among the grouped files |
| TestPlacement.AnchorStays | packages/runtime/src/discovery-scope.ts:75-80 | an anchor is a grouped file that is not itself moved, so tests never follow tests |
| TestPlacement.MovingTestsIsAPermutation | packages/runtime/src/discovery-scope.ts:70-89 | moving tests beside their anchors loses and repeats no file |
| TestPlacement.TestsStandBesideTheirSource | packages/runtime/src/discovery-scope.ts:87 | every bundle is one file that stays, followed only by tests anchored at it |
| TestPlacement.ModulesAreNotEmpty | packages/runtime/src/discovery-scope.ts:87-88 | no module without a file is left |
| TestPlacement.PackingConservesTheSnapshot | packages/runtime/src/discovery-scope.ts:12-89 | placement and packing together: each file of the modules is in exactly one scope or left out |
| TestPlacement.FindAnchors | packages/runtime/src/discovery-scope.ts:74-81 | the loop over the snapshot finds the anchor of each test that has one, and no other |
| TestPlacement.FindFollowing | packages/runtime/src/discovery-scope.ts:82-86 | the map built in module order holds, for every path, exactly the tests that follow it |
| TestPlacement.PlaceTests | packages/runtime/src/discovery-scope.ts:70-89 | the loops with their two maps compute the specified placement |
| ModuleGroups.ModulesAreApart | packages/core/src/preflight/modules.ts:33-49 | whatever the imports connect, no path of a snapshot is in two approximated modules, or twice in one |
| ModuleGroups.UnplacedCount | packages/runtime/src/discovery-scope.ts:46-51 | the modules, the files in none of them and the map by path together hold each file of distinct paths once, and no other, in whatever order they are sorted |
| ModuleGroups.SortedInOrder | packages/core/src/preflight/modules.ts:16-18 | the paths sets are built from are in the order given, for any total and transitive one |
| ModuleGroups.ModuleGroupingPartitions | packages/runtime/src/discovery-scope.ts:46-89 | the grouping the program packs and splits with, tests moved beside their source, holds each file of any list of distinct paths once: what conservation needs of a grouping |
| ModuleGroups.SnapshotModulesAreListed | packages/runtime/src/discovery-scope.ts:12-52 | the modules of a snapshot share no file, and a scope that holds only part of one lists it as split |
| ModuleGroups.DiscoverSnapshot | packages/runtime/src/model-discovery.ts:387-553 | primary discovery over those modules: unless it throws, every line of every file is in an entry or among the unexamined lines, which fit no window alone |
| DiscoveryUnits.HalfPackingConserves | packages/runtime/src/model-discovery.ts:369-375 | packing by half the bytes places every file of a unit, in scopes of distinct paths, and in fewer files a scope once there are two scopes |
| DiscoveryUnits.SplitCovers | packages/runtime/src/model-discovery.ts:367-385 | the parts of a split unit read exactly its lines, list no path twice, and each is smaller in (file count, line count) |
| DiscoveryUnits.ReadsItsSpan | packages/runtime/src/model-discovery.ts:376-381 | a unit of one file reads as many of its lines as it spans, one after another |
| DiscoveryUnits.PartsAreHalves | packages/runtime/src/model-discovery.ts:367-385 | parts keep the unit's mark and its split modules; several files are packed into scopes of one file or at most half the bytes, or cut in the middle; one file's lines are halved, the second half starting at most 20 lines and at most half of the first half before its end |
| DiscoveryUnits.UnsplittableIsOneLine | packages/runtime/src/model-discovery.ts:377-381 | a unit is not split only when it has no file, or one file of which it reads fewer than two lines |
| Discovery.Finder.NoteFailed | packages/runtime/src/model-discovery.ts:103-106 | the third failure in a row throws, and the counters say what the calls so far say |
| Discovery.Finder.Record | packages/runtime/src/model-discovery.ts:448-460 | a recorded unit accounts for exactly its own lines |
| Discovery.Finder.Audit | packages/runtime/src/model-discovery.ts:483-520 | one unit's audit, for every reply: its own call comes first, and what is left is decided by that reply: examined, failed, deferred to its caller, or smaller units in its place; it throws exactly when a call of it was fatal, was the third to fail in a row, or passed a limit on a unit of one line or none, and makes no call after that one |
| Discovery.Finder.Settle | packages/runtime/src/model-discovery.ts:471-474 | a declined window, or a unit of one line, is recorded as unanswered without another call; of any other declined unit smaller parts are called and none of the entries gives the unit up; it throws only over one of those calls |
| Discovery.Finder.Replaced | packages/runtime/src/model-discovery.ts:461-468 | the parts' outcomes account for the lines of the unit they replace, with nothing deferred, at least one call made and no entry for the unit itself; after a limit every part is audited as a unit of its own, so no part of which something can be taken away is given up, after a decline as `Retried` says; all entries keep the mark of a unit that ran past its time |
| Discovery.Finder.Retried | packages/runtime/src/model-discovery.ts:478-482 | parts of a declined unit: if none of them was answered or replaced itself, there is one call a part and each is recorded; else no part of which something can be taken away is given up whole |
| Discovery.Finder.DiscoverWhole | packages/runtime/src/model-discovery.ts:404-420 | by the reply to the call for the snapshot: examined or recorded as it is, failed without another call, or smaller units that account for every line, marked if that call ran past its time, else only once another does, and retried as parts of a declined unit if and only if it was declined; these fail only over a call, or if none of all calls was answered though some failed |
| Discovery.PlanUnits | packages/runtime/src/model-discovery.ts:422-434 | scopes and line windows plan every line of every file, except lines that do not fit a window alone, which are listed |
| Discovery.AllocationReachesEveryFile | packages/runtime/src/model-discovery.ts:422-433 | every snapshot file is in a scope or among the unallocated paths, and no scope lists a path twice |
| Discovery.UnallocatedAreListed | packages/runtime/src/model-discovery.ts:422-426 | packing leaves out only paths of the snapshot, so planning never fails for want of a file |
| Discovery.Finder.DiscoverUnits | packages/runtime/src/model-discovery.ts:521-526 | auditing all planned units calls each, accounts for every planned line, and fails exactly when a call failed the finder or no call was answered though some failed |
| Discovery.Finder.DiscoverPrimary | packages/runtime/src/model-discovery.ts:387-553 | for every pattern of call outcomes: every line of every file is in an audited unit, a recorded gap or the unexamined lines, each entry rests on a call and every answer has its entry; or it throws, which it does exactly for the calls and counts named above |
| RateLimiter.AdmissionKeepsRate | packages/providers/src/scheduler.ts:36-41 | admitting when the pruned window has room keeps every 60 second window within the limits, not only the current one |
| RateLimiter.RunKeepsInvariant | packages/providers/src/scheduler.ts:28-69 | every run of acquires, releases and retry-after calls keeps the window, the lease count and the history in step |
| RateLimiter.RateSafety | packages/providers/src/scheduler.ts:28-62 | over whole histories under a non-decreasing clock: in every (T-60000, T] at most `rpm` admissions and `tpm` tokens, and live leases never exceed `maxConcurrent` |
| RateLimiter.NothingAdmittedWhileBlocked | packages/providers/src/scheduler.ts:38-67 | nothing is admitted before any block ever set has expired |
| RateLimiter.ReleaseIsIdempotent | packages/providers/src/scheduler.ts:43-46 | releasing a lease again changes nothing |
| RateLimiter.LiveLeasesAreTheHeld | packages/providers/src/scheduler.ts:38-46 | over all runs the live leases are exactly those given and not released since |
| RateLimiter.EachLeaseIsGivenOnce | packages/providers/src/scheduler.ts:38-46 | no lease is given twice in a run |
| RateLimiter.ReleaseFreesItsSlot | packages/providers/src/scheduler.ts:43-46 | releasing a held lease lowers the active count by one, takes that lease and no other from the live ones and wakes every waiter |
| RateLimiter.BlockedAsLongAsAsked | packages/providers/src/scheduler.ts:64-69 | a time is past the block exactly when it is past each block asked for |
| RateLimiter.AdmittedIffRoom | packages/providers/src/scheduler.ts:31-47 | over all runs an attempt is admitted if and only if every block asked for has passed, a slot is free and the last 60 seconds have room for one more admission and its tokens; only one larger than the limit is turned away |
| RateLimiter.TimerIsTheFirst | packages/providers/src/scheduler.ts:48-52 | a refused attempt sets a timer exactly when it is blocked or the window is full, to whichever ends first |
| RateLimiter.NeverOversleeps | packages/providers/src/scheduler.ts:48-60 | until that timer fires, no attempt alike would be admitted |
| RateLimiter.NeverWaitsForNothing | packages/providers/src/scheduler.ts:48-60 | a refused attempt waits on a positive timer, or on a live lease any release of which wakes it |
| RateLimiter.EachWakeMakesProgress | packages/providers/src/scheduler.ts:33-60 | with a free slot, each wake of a refused attempt lowers the bound on the wakes left |
| RateLimiter.AdmittedWithinWakes | packages/providers/src/scheduler.ts:33-61 | with a free slot and no rival, a waiter is admitted after at most one wake per admission in the window plus those of the block |
| RateLimiter.Scheduler.TryAcquire | packages/providers/src/scheduler.ts:31-55 | one turn of the acquire loop makes the specified decision and state |
| RateLimiter.Scheduler.ReleaseLease | packages/providers/src/scheduler.ts:43-46 | a release takes a live lease out, frees its slot once and wakes every waiter, and does nothing for any other |
| RateLimiter.Scheduler.RespectRetryAfter | packages/providers/src/scheduler.ts:64-69 | a block only ever moves later, and wakes every waiter |
| TokenLedger.WritesStayWithinLimit | packages/providers/src/token-budget.ts:33-75 | whatever an operation writes keeps every earlier reservation and settlement and stays within the limit |
| TokenLedger.RunKeepsInvariant | packages/providers/src/token-budget.ts:25-99 | every run, with saves that fail before or after committing, restarts with other limits, and a backend that changes texts as it stores them, keeps both ledgers valid |
| TokenLedger.ChargesKeepWithinTheLimit | packages/providers/src/token-budget.ts:33-92 | the sum of min(charge, estimate) never exceeds the limit, so charges exceed it by at most the measured overruns |
| TokenLedger.AdmissionHadRoom | packages/providers/src/token-budget.ts:38-42 | every admission had room for its whole estimate beside all charges so far, and took the next dense ID |
| TokenLedger.LoadsIffWellFormed | packages/providers/src/token-budget.ts:115-130 | a stored ledger of any content is taken up exactly when it is well formed and its limit is no higher than this process's |
| TokenLedger.LoadsUnlessLowered | packages/providers/src/token-budget.ts:79-87 | over all runs a ledger is refused exactly when a process with a lower limit than the stored one first needs it |
| TokenLedger.AdmittedIffRoom | packages/providers/src/token-budget.ts:33-44 | over all runs a request in order is admitted if and only if its estimate fits in the limit beside all charges so far and the save succeeds, and denied if and only if it does not fit |
| TokenLedger.SettledIffOpenOrSame | packages/providers/src/token-budget.ts:46-75 | over all runs a settlement is acknowledged if and only if the activity's reservation is open and the save succeeds, or it was settled the same way; else the reply says why not |
| TokenLedger.RefusalsChangeNothing | packages/providers/src/token-budget.ts:33-75 | whatever is refused or denied leaves the backend and the ledger that counts as they were |
| TokenLedger.SettlingSettles | packages/providers/src/token-budget.ts:46-75 | a settlement the caller was told of is on the ledger as given, and every other reservation is as it was |
| TokenLedger.SettlementIsFinal | packages/providers/src/token-budget.ts:52-73 | no later event, failed save or restart changes a settlement the caller was told of, except to what storing makes of its texts and field order, nor what it is charged |
| TokenLedger.RecordingAgainStandsIff | packages/providers/src/token-budget.ts:46-57 | recording the same usage again is acknowledged in all runs if and only if storing keeps the activity's ID and the usage lists its fields by name, or the ID is blank |
| TokenLedger.ReleasingAgainStandsIff | packages/providers/src/token-budget.ts:61-73 | releasing under the same rule again is acknowledged in all runs if and only if storing keeps the activity's ID and the rule, or one of them is blank |
| TokenLedger.ReservationStaysKnownIff | packages/providers/src/token-budget.ts:46-68 | an admitted reservation can be settled in all runs, never refused as unknown, if and only if storing keeps its activity's ID, or it is blank |
| TokenLedger.RestartForgets | packages/providers/src/token-budget.ts:49-56 | a reservation, its settlement, a restart, and the same settlement is refused when storing changed it: a concrete run |
| TokenLedger.AdmittedIdsAreUnique | packages/providers/src/token-budget.ts:40-41 | two admissions of one history never share an ID |
| TokenLedger.UnknownUsageKeepsItsEstimate | packages/providers/src/token-budget.ts:101-109 | unknown or partial usage is charged the larger of the estimate and what was measured; only a released reservation is charged nothing |
| TokenLedger.LoweredLimitAdmitsNothing | packages/providers/src/token-budget.ts:119-123 | a limit below the stored one is refused and admits nothing |
| TokenLedger.DurableTokenBudget.ReserveTokens | packages/providers/src/token-budget.ts:33-44 | reserving moves the backend and the memory as the ledger's step says, for each way a save can end |
| TokenLedger.DurableTokenBudget.RecordActual | packages/providers/src/token-budget.ts:46-59 | recording usage does the ledger's step and nothing else, comparing usage as reported, field order included, with what is in memory or was read back |
| TokenLedger.DurableTokenBudget.ReleaseReservation | packages/providers/src/token-budget.ts:62-75 | releasing does the ledger's step and nothing else |
| Invocation.TurnsAreLegal | packages/providers/src/runtime.ts:136-192 | whatever the environment answers, a turn sends at most once, breaks no rule, holds no lease at its end and goes on only if nothing ended the sends |
| Invocation.TurnSendsAtMostOnce | packages/providers/src/runtime.ts:147-187 | one turn sends and reserves at most once |
| Invocation.SendsAreBacked | packages/providers/src/runtime.ts:141-153 | each send comes right after its lease, and the lease right after an allowed reservation |
| Invocation.LeasesBalance | packages/providers/src/runtime.ts:148-187 | every lease taken is released on each path the invocation ends on |
| Invocation.NothingAfterAFinalFailure | packages/providers/src/runtime.ts:169-182 | nothing is sent or reserved after a failure that no sleep explains and that is no retryable transport error, nor after a timeout with `retryTimeouts` false |
| Invocation.SleepsCutOnlySends | packages/providers/src/runtime.ts:165-167 | a sleep is named only for an attempt that was sent, with a failure that a broken connection or a stopped computer explains |
| Invocation.FreedOnlyWhenProven | packages/providers/src/runtime.ts:171-175 | a reservation is freed only for an attempt never sent, or one whose own error proves it consumed nothing |
| Invocation.TurnDoes | packages/providers/src/runtime.ts:136-187 | each action of a turn happens if and only if what it is for came to be: the reservation freed exactly when the attempt provably consumed nothing, the block set exactly for a rate limit that is retried |
| Invocation.TurnEnds | packages/providers/src/runtime.ts:136-187 | a failure is sent again uncounted if and only if a sleep cut it with resends left, retried if and only if attempts are left and it was cut or is not final, and given up otherwise |
| Invocation.BackoffDoubles | packages/providers/src/runtime.ts:183-185 | the wait is the provider's hint, else one second doubled for each attempt before and cut at the maximum, and never more than a timer takes |
| Invocation.SpanIsTight | packages/providers/src/runtime.ts:223-227 | the span of some suspends starts with the first and ends with the last |
| Invocation.FollowedIffGoesOn | packages/providers/src/runtime.ts:136-192 | a turn is followed by another if and only if its failure may be repeated: cut by a sleep with resends left; or attempts left, cut or not final, a wait a timer takes, and a wait that ends |
| Invocation.InvokingTakesItsTurns | packages/providers/src/runtime.ts:136-202 | an invocation takes exactly those turns, does what each does in order and ends as the last one says: it returns if and only if the last turn's send, record and saving all succeeded |
| Invocation.SendsAreTheDispatched | packages/providers/src/runtime.ts:147-153 | the call is sent once for each turn that came to dispatch it |
| Invocation.SleptFromFirstToLast | packages/providers/src/runtime.ts:167-168 | the sleep named reaches from the first suspend that cut an attempt to the last |
| Invocation.InvokingIsSafe | packages/providers/src/runtime.ts:120-192 | at most `maximumRetries` + 1 + 3 sends over any turns, with leases balanced and no rule broken |
| Invocation.EndsAsItsLastFailureSays | packages/providers/src/runtime.ts:193-202 | how the invocation ends is what its last failure says: a sleep only if it cut the last attempt, a time limit only if no sleep explains it |
| Invocation.InvokeLoop | packages/providers/src/runtime.ts:136-192 | the loop with its counters terminates and does what the specification of turns does |
| Invocation.Invoke | packages/providers/src/runtime.ts:120-203 | every invocation is bounded, leaves no lease held and breaks no rule; its result and its log are those of the turns taken, and it returns if and only if the last of them succeeded |
| ArtifactPublication.AdvanceKeepsIntact | packages/persistence/src/artifact-store.ts:92-106 | no call of any writer changes the content of an intact artifact |
| ArtifactPublication.AdvanceTouchesOnlyItsFile | packages/persistence/src/artifact-store.ts:82-111 | a writer's call touches no staging file but its own |
| ArtifactPublication.AdvanceStages | packages/persistence/src/artifact-store.ts:76-111 | at every stage a live writer's staging file holds what the stage says, and a writer that succeeds left its bytes at the address |
| ArtifactPublication.RunKeepsInvariant | packages/persistence/src/artifact-store.ts:66-112 | all of this over every interleaving of writers, failing calls and crashes, from files that may be torn |
| ArtifactPublication.RunKeepsAt | packages/persistence/src/artifact-store.ts:66-112 | the same for one address alone, whatever is put elsewhere, and durability where every put for that address syncs |
| ArtifactPublication.PublishedArtifactsStay | packages/persistence/src/artifact-store.ts:66-127 | a `put` that returned is readable whole ever after, and no later step changes an intact artifact |
| ArtifactPublication.CallDooms | packages/persistence/src/artifact-store.ts:74-112 | one call of a writer dooms its put if it fails or finds the staging name taken, and in no other case; and brings its end one call nearer |
| ArtifactPublication.PutsEnd | packages/persistence/src/artifact-store.ts:66-112 | from any store and among any others: a put whose process goes on ends after at most eight calls; it throws if and only if one of its own calls failed or its staging name was taken when it opened it, and returns otherwise |
| ArtifactPublication.CallsAdd | packages/persistence/src/artifact-store.ts:66-112 | the calls counted there are those of the writer, each once, wherever they stand in a run |
| ArtifactPublication.UnhinderedPutsPublish | packages/persistence/src/artifact-store.ts:66-112 | such a put that is not hindered leaves its address intact, torn file or not, whatever other writers do |
| ArtifactPublication.FoundIsKept | packages/persistence/src/artifact-store.ts:76-77 | a writer that finds the right bytes, at the start or under a name another took, returns without touching a published file |
| ArtifactPublication.OnlyRenamesReplace | packages/persistence/src/artifact-store.ts:92-106 | no call but the rename replaces a published file, and a name taken by another is read first |
| ArtifactPublication.GetsAgree | packages/persistence/src/artifact-store.ts:114-128 | whatever is in two stores, `get` of an address gives only the bytes it names, and nothing for a torn file |
| ArtifactPublication.PowerLossTears | packages/persistence/src/artifact-store.ts:81-83 | the loss of power the promises are proved against: it may leave any prefix of a file not synced, and leaves a synced one whole |
| ArtifactPublication.CrashLeavesEverythingElse | packages/persistence/src/artifact-store.ts:81-83 | the crash they are proved against: it ends one writer, leaves what that writer staged, and touches nothing else |
| ArtifactPublication.DoneLeavesNoStaging | packages/persistence/src/artifact-store.ts:107-111 | the last call of a put removes its staging file and touches no published one |
| ArtifactPublication.UnsyncedPutMayBeLost | packages/persistence/src/fsync.ts:14-20 | a put that does not sync can return and be emptied by a loss of power: a concrete run |
| ArtifactPublication.SyncedPutMayBeLost | packages/persistence/src/artifact-store.ts:76-77 | a put that does not sync, then a put of the same bytes that does and returns without an `fsync` because it found them: a loss of power empties the file of both, a concrete run |
| ArtifactPublication.SurvivesPowerLossIffSynced | packages/persistence/src/artifact-store.ts:66-112 | per address of bytes that are not empty and over all runs: every returned put for it can be read back after any loss of power if and only if every durability class its bytes are put with is one the policy syncs |
| ArtifactPublication.SurvivesPowerLossUnder | packages/persistence/src/fsync.ts:10-20 | that is, always under `always`, and under `expensive-only` if and only if none of the puts for the address is `cheap` |
| ArtifactPublication.SyncedSurviveIffNotMixed | packages/persistence/src/artifact-store.ts:66-112 | likewise the returned puts that sync survive if and only if its classes are not mixed, some synced and some not |
| CanonicalJson.StrictOrderIsUnique | packages/persistence/src/canonical-json.ts:61 | a set of entries has one strictly sorted arrangement, so the order of insertion cannot show |
| CanonicalJson.NormIffEqual | packages/persistence/src/canonical-json.ts:8-75 | two printable values have one normal form exactly when they are equal up to key order, NFC and number text, where equality is defined without sorting |
| CanonicalJson.ObjectThrowsIffKeysCollide | packages/persistence/src/canonical-json.ts:49-66 | an object of printable values is refused exactly when two of its keys are one after NFC, though only neighbours are compared |
| CanonicalJson.CollideIffRepeats | packages/persistence/src/canonical-json.ts:61-66 | sorting brings any repeated key beside itself |
| CanonicalJson.NormIsStable | packages/persistence/src/canonical-json.ts:8-75 | normalising a normal value changes nothing |
| JsonText.StringRoundTrip | packages/persistence/src/canonical-json.ts:17-18 | reading an escaped string gives every code unit back, lone surrogates and control characters included, and stops right after its closing quote |
| JsonText.EscapeIsShortest | packages/persistence/src/canonical-json.ts:17-18 | a unit is escaped as shortly as a text without control characters and lone surrogates can be that reads back as it |
| JsonText.SurrogatesAre | packages/persistence/src/canonical-json.ts:17-18 | halves of surrogate pairs are told apart by their upper six bits |
| JsonText.ReaderAcceptsMore | packages/persistence/src/artifact-store.ts:128 | the reader also takes what the printer does not write: upper-case hexadecimal digits and an escaped solidus |
| JsonText.RoundTrip | packages/persistence/src/canonical-json.ts:8-75 | parsing the printed text of a normal value gives the value back and stops right after it, whatever follows that does not continue a number |
| JsonText.PrintIsClean | packages/persistence/src/canonical-json.ts:14-18 | the text holds no control character, so no raw newline (section 7 of RFC 8259), and no lone surrogate |
| JsonText.ParsesBack | packages/persistence/src/canonical-json.ts:4-6 | parsing the canonical text gives the normal value back |
| JsonText.PrintAlikeIffEqual | packages/persistence/src/canonical-json.ts:4-75 | two values print alike exactly when they are equal up to key order, NFC and number text |
| JsonText.CanonicalIsStable | packages/persistence/src/canonical-json.ts:4-6 | the canonical text of what was parsed is the text it was parsed from |
| KeyOrder.ListedSame | packages/persistence/src/artifact-store.ts:128 | an object whose keys differ lists each entry of its text once, whichever come first |
| KeyOrder.IndexIff | packages/persistence/src/artifact-store.ts:128 | the keys an object lists first are the decimals of the numbers below 2^32 - 1 |
| KeyOrder.IndicesAreSorted | packages/persistence/src/artifact-store.ts:128 | those keys are listed in numeric order, and the keys after them are none of them |
| KeyOrder.AssignSets | packages/persistence/src/artifact-store.ts:128 | a key assigned again has its last value in its first place, and is there once |
| KeyOrder.BuiltNorm | packages/persistence/src/artifact-store.ts:128 | the value `JSON.parse` builds, with array-index keys first in numeric order, has the normal form of the text it was built from |
| ArtifactIdentity.SameAddressIffEqual | packages/persistence/src/artifact-store.ts:155-165 | two values share a content address exactly when they are equal up to key order, NFC and number text |
| ArtifactIdentity.GetAfterPut | packages/persistence/src/artifact-store.ts:114-129 | after any run of concurrent puts and crashes, `get` of a returned put gives the normalised value with its keys as `JSON.parse` orders them: equal to what was put, and published again under the same address |
| ArtifactIdentity.BuiltIsSame | packages/persistence/src/artifact-store.ts:114-128 | parsing the canonical text of a value gives an equal value with the same canonical text |
| TraceLog.LinesStand | packages/persistence/src/trace-index.ts:255-263 | each line of a committed prefix starts on a boundary, ends with its newline and holds no other |
| TraceLog.LinesMatchTheScan | packages/persistence/src/trace.ts:56-57 | the lines found newline by newline are the non-empty parts of the split of the committed text, on every log |
| TraceLog.AppendAndRecoveryKeepCommitted | packages/persistence/src/trace.ts:17-21 | appending any bytes and cutting a torn tail both keep what is committed |
| TraceLog.CommittedLinesAreStable | packages/persistence/src/trace.ts:17-50 | a committed line keeps its place and its ID whatever is appended or recovered later |
| TraceIndex.WindowAddsLines | packages/persistence/src/trace-index.ts:253-264 | the lines of a window are exactly those the log adds from where the window starts |
| TraceIndex.IndexWindow | packages/persistence/src/trace-index.ts:253-264 | the window loop numbers and parses each line in order, and fails exactly if a line does not parse |
| TraceIndex.AdvancedIsIndex | packages/persistence/src/trace-index.ts:265-285 | inserting a window's rows, facets and metadata gives the index of the longer prefix |
| TraceIndex.CommitIsConsistent | packages/persistence/src/trace-index.ts:275-285 | committing a window read at the index's end keeps the index that of a prefix of the log |
| TraceIndex.ConsistentLater | packages/persistence/src/trace-index.ts:224-240 | an index of an earlier log is an index of the log after any appends and recoveries |
| TraceIndex.MetaIsStaleIffLonger | packages/persistence/src/trace-index.ts:226-229 | an index of a prefix of the log is discarded exactly when it is longer than the size read |
| TraceIndex.StaleIffEndsChanged | packages/persistence/src/trace-index.ts:226-229 | an index of another log is discarded exactly when that log is shorter or reads differently at the first or last indexed line |
| TraceIndex.ReplacedMiddleGoesUnnoticed | packages/persistence/src/trace-index.ts:13-16 | a log replaced in a middle line only is not discarded though the comment says a replaced log is: a concrete pair of logs |
| TraceIndex.ReadWindow | packages/persistence/src/trace-index.ts:244-250 | the doubling loop terminates with a whole line, or with everything the process can read |
| TraceIndex.BadWindowFails | packages/persistence/src/trace-index.ts:253-264 | a window that does not parse fails every scan that reaches past it |
| TraceIndex.Session.Synchronise | packages/persistence/src/trace-index.ts:224-289 | catch-up terminates from any earlier index or a stale one, ends with the index of every committed line it can read, fails exactly if one of them does not parse, and keeps every row indexed before unless the index was stale |
| TraceQuery.LinesAreTheScan | packages/persistence/src/trace.ts:52-58 | a synchronised index covers exactly the lines of the full scan, in order |
| TraceQuery.Page | packages/persistence/src/trace-index.ts:63-73 | a page holds the items from its offset on, in order, as many as there are up to the limit |
| TraceQuery.ContainsIff | packages/persistence/src/trace-index.ts:62 | an activity filter holds exactly when the text occurs whole in the activity's ID |
| TraceQuery.MatchesIff | packages/persistence/src/trace-index.ts:298-304 | a filter keeps a trace, and the WHERE clause a row, exactly when each column named has the value named |
| TraceQuery.SelectionMatches | packages/persistence/src/trace-index.ts:57-73 | the rows the WHERE clause selects stand for the traces of the full scan that match |
| TraceQuery.SeekIsSlice | packages/persistence/src/trace-index.ts:65-68 | IDs are dense, so seeking to an ID is skipping that many rows |
| TraceQuery.ReadIff | packages/persistence/src/trace-index.ts:170-180 | a row is read exactly when its range is a whole line that was caught up to and the line's trace has its columns |
| TraceQuery.ReadsBack | packages/persistence/src/trace-index.ts:170-180 | a row of the index passes every range and column check and reads back as its trace |
| TraceQuery.SortedValues | packages/persistence/src/trace-index.ts:291-296 | the facet list is the set of values, each once, in code-unit order, whatever order the table returns |
| TraceQuery.FacetsAreScanned | packages/persistence/src/trace-index.ts:278-281 | the facet table holds exactly the values of the full scan's traces |
| TraceQuery.ReadRows | packages/persistence/src/trace-index.ts:75-80 | reading the selected rows gives exactly the wanted entries; no corruption is ever reported |
| TraceQuery.Query | packages/persistence/src/trace-index.ts:52-83 | with the index as catching up left it, every filtered page, total and facet list is that of filtering and slicing the full scan, and it fails exactly when the scan does |
| TraceQuery.ReadById | packages/persistence/src/trace-index.ts:86-95 | with the index as catching up left it, a read by ID gives the trace the full scan has at that position, and none past its end |
| TraceQuery.ReplacedMiddleServesAWrongPage | packages/persistence/src/trace-index.ts:52-83 | with the log replaced in the middle only, a filtered page passes every range and column check and yet lacks a matching trace, in its entries and in its total |
| InterleavedQuery.ServedIs | packages/persistence/src/trace-index.ts:52-83 | whatever other processes commit, discard, append or recover between a query's statements: the entries are the page of the matching lines the selecting statement found indexed, the total is that of the counting one, and the answer is a range error exactly when an entry lies past what the query caught up to |
| InterleavedQuery.AnsweredIff | packages/persistence/src/trace-index.ts:75-80 | whatever rows are selected: a page is answered if and only if each of them reads back as a trace that matches, and its entries are those traces |
| InterleavedQuery.ServedByIdIs | packages/persistence/src/trace-index.ts:86-95 | likewise a read by ID gives the scan's trace, or none past its end, or a missing row exactly when the index was cut below that ID |
| InterleavedQuery.QueriesAreScansIff | packages/persistence/src/trace-index.ts:52-83 | every filter and page is answered as the full scan answers it if and only if the counting and the selecting statements found indexed just what the query had caught up to |
| InterleavedQuery.ServedOverRuns | packages/persistence/src/trace-index.ts:224-289 | in every run, over all events between a query's statements, what they find meets the conditions of these results |
| InterleavedQuery.DiscardedBetween | packages/persistence/src/trace-index.ts:230-238 | a discard between catching up and selecting gives an empty page beside a total that is not zero |
| InterleavedQuery.ExtendedBetween | packages/persistence/src/trace-index.ts:170-180 | a commit between catching up and selecting makes an unfiltered page that reaches past what was caught up fail as out of range |
| ConcurrentIndexers.PlanKeeps | packages/persistence/src/trace-index.ts:243-264 | a planned window stays the next lines of the log whatever others do meanwhile |
| ConcurrentIndexers.SameBoundarySameMeta | packages/persistence/src/trace-index.ts:276-277 | two processes at one boundary hold the same metadata, so comparing `committed_bytes` alone is enough |
| ConcurrentIndexers.CommitKeeps | packages/persistence/src/trace-index.ts:275-286 | the compare-and-swap keeps the index that of a prefix of the log, also after resets by others |
| ConcurrentIndexers.CommitAdvancesIffUntouched | packages/persistence/src/trace-index.ts:275-286 | a commit advances the index by its window if no other process did since, and in no other case; either way the process goes on from what the index then is |
| ConcurrentIndexers.PlansWhileItCan | packages/persistence/src/trace-index.ts:243-264 | a process stops exactly when it can read no further line or the next window does not parse; else it plans at least one line more |
| ConcurrentIndexers.CatchesUpAlone | packages/persistence/src/trace-index.ts:243-288 | a process that is let alone finishes, and leaves the index of every line it could read |
| ConcurrentIndexers.RunKeeps | packages/persistence/src/trace-index.ts:224-289 | for every interleaving of processes, appends, recoveries and closings, the index and all metadata stay those of prefixes of the log |
| ConcurrentIndexers.EachLineIsIndexedOnce | packages/persistence/src/trace-index.ts:253-285 | over every run: IDs are dense, each committed non-empty line is indexed once and in order, `committed_bytes` is a line boundary |
| ConcurrentIndexers.AnchorsFitTheRows | packages/persistence/src/trace-index.ts:266-274 | over every run the first and last line on record are those of the first and last row |
| ConcurrentIndexers.CheckResetsIffBehind | packages/persistence/src/trace-index.ts:226-230 | a process discards the index exactly when others indexed past the size it saw when it opened the log |
| ConcurrentIndexers.ShrinksIffReset | packages/persistence/src/trace-index.ts:230-238 | `committed_bytes` decreases in a discarding step and in no other; every other step keeps all rows |
| ConcurrentIndexers.NeverShrinks | packages/persistence/src/trace-index.ts:224-289 | `committed_bytes` never decreases in a run in which no process checks an index past the size it saw |
| ConcurrentIndexers.BehindCheckEmptiesTheIndex | packages/persistence/src/trace-index.ts:230-238 | such a check empties the index |
| ConcurrentIndexers.TheIndexCanShrink | packages/persistence/src/trace-index.ts:152-169 | a concrete run of two processes takes `committed_bytes` from 4 to 0 |
| ConcurrentIndexers.LateStartIsReached | packages/persistence/src/trace-index.ts:152-169 | the start of that run is reached by opening, appending and opening again |
| Journal.LoadsCompleteRecords | packages/persistence/src/journal-load.ts:35-44 | whatever torn line follows them, loading yields exactly the complete records, in order |
| Journal.CrashKeepsWholeRecords | packages/persistence/src/journal-load.ts:35-44 | a crash that keeps any byte prefix loses only the last records |
| Journal.WholeAtLeast | packages/persistence/src/journal-load.ts:35-44 | a record whose bytes a crash keeps is loaded |
| Journal.JournalFile.Append | packages/persistence/src/journal.ts:70-89 | an append adds exactly its line or, when the write or the sync fails after any number of bytes, nothing; a file that encodes some records then encodes them and the new one, or them alone |
| Journal.JournalFile.Load | packages/persistence/src/journal-load.ts:23-45 | loading cuts the torn tail off the file and parses the lines before it |
| Activity.ProjectJournal | packages/persistence/src/journal-load.ts:47-58 | the loop over the records computes the last artifact and the highest attempt of each ID |
| Activity.ProjectionCovers | packages/persistence/src/journal-load.ts:51-52 | no attempt on record is above the projected one |
| Activity.ProjectionIsOnRecord | packages/persistence/src/journal-load.ts:47-58 | the projected attempt of an ID is one on record, and its artifact that of its last `end` |
| Activity.EndedIsCompleted | packages/persistence/src/journal-load.ts:53-54 | an ID with an `end` on record is projected as completed |
| Activity.StepKeeps | packages/core/src/activity.ts:48-87 | one step, for calls by any IDs: an attempt ends only after its start and an `end` after its `put`; and while the IDs are in NFC or empty, no attempt starts or ends twice and what is completed is on record |
| Activity.JournalSurvives | packages/core/src/activity.ts:48-87 | over all runs by any IDs an attempt ends only after its start and every `end` follows a finished `put`; that started attempts strictly increase, that an attempt ends at most once, and that a restart knows what was completed each hold over all runs of a set of IDs if and only if all of them are in NFC or empty |
| Activity.RestartLoadsWhatIsLeft | packages/persistence/src/journal-load.ts:35-44 | in every run, by any IDs, the bytes a crash leaves load as exactly the records the next process starts from |
| Activity.EndingSettles | packages/core/src/activity.ts:72-76 | an activity that ends is known as completed from then on if and only if its ID is in NFC |
| Activity.StepStaysSettled | packages/core/src/activity.ts:49-57 | while its artifact can be found and its record is kept, no step runs a completed activity again |
| Activity.NeverRunsAgain | packages/core/src/activity.ts:49-57 | over any crashes and restarts, `fn` of a completed ID with a readable artifact never runs again |
| Activity.FailedTwiceRepeats | packages/persistence/src/journal.ts:77 | an ID that is not in NFC: two failed attempts around a crash that loses nothing are both recorded as attempt 1, started and ended, of the stored ID |
| Activity.NotNormalBreaks | packages/core/src/activity.ts:48-87 | such an ID breaks the increase of attempts, the single end of an attempt, and the record of what is completed, each in a run that calls it alone |
| Activity.ActivityRuntime.constructor | packages/core/src/activity.ts:41-46 | a runtime starts from the projection of the loaded journal |
| Activity.CallIs | packages/core/src/activity.ts:48-87 | an uninterrupted call runs `fn` exactly once if its ID is not completed with an artifact that is there and its start can be recorded, under the next attempt number; it is completed exactly when the result, its artifact and its end came to be, and records an error otherwise |
| Activity.ActivityRuntime.StartAttempt | packages/core/src/activity.ts:55-66 | the part of a call up to `fn` does the specified steps |
| Activity.ActivityRuntime.FinishAttempt | packages/core/src/activity.ts:68-86 | the part of a call after `fn` does the specified steps; a returned result is published and on record |
| Activity.ActivityRuntime.Activity | packages/core/src/activity.ts:48-87 | the call is exactly its steps: it restores if and only if the ID is completed and readable, gives a result if and only if `fn`, the put and the end all succeeded, and runs `fn` at most once |
| JournalText.FieldsComeBack | packages/persistence/src/canonical-json.ts:49-75 | an object of differently named fields that can be printed is read back with each of its fields |
| JournalText.RecordComesBack | packages/persistence/src/journal-load.ts:60-81 | the line of a record the journal accepts has no newline and is read back as the record with its ID in NFC |
| JournalText.RecordIsChecked | packages/persistence/src/journal-load.ts:71-96 | whatever a line holds, a record read from it has a text as ID, an attempt from 1 up to the largest safe integer, and the other fields of its kind |
| JournalText.LineCodecIsSound | packages/persistence/src/journal.ts:77 | the canonical printer and the record parser meet all that loading after a crash needs of them |
| JournalText.RestartReadsItsOwnLines | packages/persistence/src/journal-load.ts:23-69 | with that printer and parser: in every run the bytes a crash leaves load as the records the next process starts from |
| CompletedArtifacts.StepPublishes | packages/core/src/activity.ts:68-77 | a step publishes at most the artifact of the `put` that succeeded, and completes an activity only with a published artifact |
| CompletedArtifacts.RunKeeps | packages/core/src/activity.ts:48-87 | over every interleaving of activities, writers of the store and crashes, what the journal and the runtime call done is whole in the store |
| CompletedArtifacts.GetOfIs | packages/persistence/src/artifact-store.ts:114-128 | an artifact is missing exactly when no file is there, and readable exactly when the file holds what its address names |
| CompletedArtifacts.ActivityCompletes | packages/core/src/activity.ts:48-87 | with its artifact published every step of an activity happens: its start and its end go on record, and a later call restores it |
| CompletedArtifacts.CompletedCanBeRead | packages/core/src/activity.ts:49-52 | in every such run, loss of power included where every put syncs: each `end` names an artifact that `get` reads, and so does each completed activity, before or after a restart |
| CompletedArtifacts.CompletedIsRestored | packages/core/src/activity.ts:49-52 | over joint runs, calling a completed activity finds its artifact readable and changes nothing |
| CompletedArtifacts.CompletedNeverRunsAgain | packages/core/src/activity.ts:49-57 | once its end is on record, `fn` of an activity never runs again over every later interleaving with other writers, restarts and, where every put syncs, losses of power, while no crash takes that record's bytes; no readability is assumed |
| Advisor.Limits | packages/runtime/src/model-advisors.ts:96-105 | a task may only lower the operator's cap on uses; the allowance is the lower of the two, and there is none exactly when the advisor is not requested or configured or a cap is zero |
| Advisor.StepKeeps | packages/runtime/src/model-advisors.ts:109-207 | every consult, save, answer, settlement and crash keeps the ledger good and every send on it, under the ID storage gives it |
| Advisor.AllowanceHolds | packages/runtime/src/model-advisors.ts:109-145 | over all runs by any request IDs, kept by storage or not: requests sent never exceed `maximumUses`, and charges within the estimates stay within `maximumTokens` |
| Advisor.SentOnlyOnceJournaled | packages/runtime/src/model-advisors.ts:129-143 | a request goes out only once its use is on the durable ledger, with the charges so far plus its estimate within `maximumTokens` |
| Advisor.SentIffAllowed | packages/runtime/src/model-advisors.ts:109-145 | a question is sent if and only if it is in order, not on the ledger, within the limits on uses and tokens, and its use was stored; its use is then the ledger's last and is settled as the answer says: completed by advice, cancelled or failed by a failure, charged as measured |
| Advisor.OpenUseIsSettled | packages/runtime/src/model-advisors.ts:172-207 | an open use that is asked about again is settled the same way, without a send, and no other use changes |
| Advisor.StepEvolves | packages/runtime/src/model-advisors.ts:182-207 | a step moves a use at most from dispatched to a final state and changes nothing else of it |
| Advisor.UsesMoveForward | packages/runtime/src/model-advisors.ts:182-207 | whatever follows, a use keeps its identity and estimate and moves at most once; the configuration never changes |
| Advisor.ChangedConfigurationIsRefused | packages/runtime/src/model-advisors.ts:220-228 | a changed task, policy or limit is refused and changes nothing, and so is any ledger of a task whose ID storage changes |
| Advisor.RecordedSendsNothing | packages/runtime/src/model-advisors.ts:172-180 | asking a question that is on the ledger under its ID sends nothing and adds no use, and changes nothing once it is settled |
| Advisor.AskedTwiceSendsTwice | packages/runtime/src/model-advisors.ts:117-142 | a question whose ID storage changes is journaled and sent again when it is asked again, of the same advisor and without a crash: a concrete run |
| Advisor.QuestionsAreSentOnceIff | packages/runtime/src/model-advisors.ts:107-145 | for the questions asked under any set of IDs: no request ID is ever sent twice in any run if and only if each ID of the set is blank or comes back from storage as it was |
| Advisor.AskingAgainSendsNothing | packages/runtime/src/model-advisors.ts:107-119 | asking again what was sent sends nothing, whatever happened since, in all runs under a set of IDs if and only if the same condition holds |
| Advisor.TaskAdvisor.Dispatch | packages/runtime/src/model-advisors.ts:182-207 | dispatching does the specified steps; the caller learns of advice or a failure only once it is settled, or was before |
| Advisor.TaskAdvisor.Resume | packages/runtime/src/model-advisors.ts:172-180 | a failed or cancelled use is reported as it is, any other dispatched again without a second send |
| Advisor.TaskAdvisor.JournalAndSend | packages/runtime/src/model-advisors.ts:136-143 | the request goes out exactly when the use is known to be stored |
| Advisor.TaskAdvisor.Consult | packages/runtime/src/model-advisors.ts:109-145 | an uninterrupted consult, of a ledger read back from storage, is exactly its steps; a blank ID throws; each way of not asking is reported exactly when it stands in the way |
| ReviewBatches.PartitionIsExact | packages/runtime/src/peer-review-batches.ts:85-104 | the batches hold every record once and in order; each is non-empty, within the limit, and fits or is one required record |
| ReviewBatches.BatchesAreFull | packages/runtime/src/peer-review-batches.ts:85-104 | the partition is greedy: a batch that fits is closed only when the next record has no room in it |
| ReviewBatches.RefusedIffTooLarge | packages/runtime/src/peer-review-batches.ts:94-96 | the partition throws only over a record that neither fits alone nor is required, and over every such one when a fitting batch's last record fits alone |
| ReviewBatches.ReviewPartition | packages/runtime/src/peer-review-batches.ts:85-104 | the loop computes that partition |
| ReviewBatches.SegmentsRestoreTheText | packages/runtime/src/peer-review-batches.ts:10-15 | the segments of a text, one after another, are the whole text |
| ReviewBatches.SegmentsAreEven | packages/runtime/src/peer-review-batches.ts:10-15 | no segment is longer than its share of the text, rounded up |
| PairPacking.SegmentedPair | packages/runtime/src/peer-review-batches.ts:107-117 | the loop returns the first count and side whose segments all fit |
| PairPacking.SegmentedFits | packages/runtime/src/peer-review-batches.ts:107-117 | a segmented pair is one of its records cut into 2 to 16 parts, each of which fits |
| PairPacking.SegmentedIsFewest | packages/runtime/src/peer-review-batches.ts:107-117 | the fewest segments that fit are made, and none exactly where no number of them from 2 to 16 fits |
| PairPacking.GainCounts | packages/runtime/src/critic-context.ts:119 | a record's gain is the number of members it still has to be checked with |
| PairPacking.BestIsNew | packages/runtime/src/critic-context.ts:117-123 | the record chosen is new, gains, and none gains more |
| PairPacking.GrowMembers | packages/runtime/src/critic-context.ts:115-126 | the greedy loop terminates and grows the specified members |
| PairPacking.GrowIsMaximal | packages/runtime/src/critic-context.ts:115-126 | a call grows until it is full: every record left out would add no pair, or did not fit when it was tried |
| PairPacking.GrowFits | packages/runtime/src/critic-context.ts:116-126 | the grown call fits and keeps within the limit |
| PairPacking.FirstIsAlone | packages/runtime/src/critic-context.ts:102-113 | the call a turn starts with is the plain pair it was checked as |
| PairPacking.EachPairOnce | packages/runtime/src/critic-context.ts:106-129 | every pair to check is settled by exactly one turn, and no other pair by any |
| PairPacking.EveryTurnCarries | packages/runtime/src/critic-context.ts:106-128 | each turn's part carries all its pairs whole, fits and holds at most max(2, `maximumRecords`) records; or its parts are one pair with a record in exact segments that fit |
| PairPacking.ThrowsIffTooLarge | packages/runtime/src/critic-context.ts:106-112 | packing throws only over a pair that fits neither as it is nor with a record cut up; and over every such one when pairs that fit together fit alone |
| PairPacking.PackPairs | packages/runtime/src/critic-context.ts:106-129 | the packing loop terminates and emits exactly the parts of those turns, or throws when one does |
| PairPacking.CrossPairs | packages/runtime/src/critic-context.ts:99-100 | the pairs to check are exactly those of two batches, each once |
| PairPacking.CrossingMeets | packages/runtime/src/critic-context.ts:95-129 | two records of different batches are both in some emitted part |
| PairPacking.ContextParts | packages/runtime/src/critic-context.ts:43-130 | unless it throws: every record is reviewed whole, every two records are read together where pairs are checked, every part is readable, and records that fit whole are one part; it throws only for a record named twice, no record, no room, or a record or a pair that cannot be read |
| ImportClosure.EmptyWorklistIsClosure | packages/runtime/src/incremental-audit.ts:141-145 | when the worklist is empty, the closure is exactly what is reachable and not the unit's own |
| ImportClosure.ReachableIffChain | packages/runtime/src/incremental-audit.ts:141-145 | a file is reachable exactly when a chain of imports leads to it from a file of the unit |
| ImportClosure.Closure | packages/runtime/src/incremental-audit.ts:141-145 | the worklist terminates with exactly the files reachable from the unit outside it |
| ImportClosure.AncestorsAreAbove | packages/runtime/src/incremental-audit.ts:147-148 | the directories met going up from a path are exactly those it lies in |
| ImportClosure.AncestorDirectories | packages/runtime/src/incremental-audit.ts:147-148 | the loop collects the directories above any of the unit's files |
| IncrementalReuse.DiscoveryUnitIdentity | packages/runtime/src/incremental-audit.ts:137-162 | the identity covers the unit's files, its import closure, the manifests above it and its settings |
| IncrementalReuse.IdentityIsUnique | packages/runtime/src/incremental-audit.ts:137-162 | a unit has one identity in an environment, however its imports are walked |
| IncrementalReuse.SameHashIffSameLines | packages/runtime/src/incremental-audit.ts:209-212 | a range has a hash exactly where the file reaches that far, and one hash in two files exactly if it reads the same in both |
| IncrementalReuse.SameFileIff | packages/runtime/src/incremental-audit.ts:140-146 | two snapshots give a path one hash exactly when both lack it or both hold it with one content |
| IncrementalReuse.NothingChangedIffEqual | packages/runtime/src/incremental-audit.ts:676-678 | no key changed exactly when the two records are equal |
| IncrementalReuse.FileReasons | packages/runtime/src/incremental-audit.ts:204-213 | a changed unit file or import is a reason, and only those are |
| IncrementalReuse.CitedReasons | packages/runtime/src/incremental-audit.ts:209-212 | a cited range that reads differently is a reason, and only those are |
| IncrementalReuse.FootprintReasons | packages/runtime/src/incremental-audit.ts:199-203 | a read beyond the unit is a reason exactly when it changed, is gone or cannot be compared |
| IncrementalReuse.DecideUnit | packages/runtime/src/incremental-audit.ts:194-219 | the reasons given are exactly those the change they name justifies |
| IncrementalReuse.ReusedIffUnchanged | packages/runtime/src/incremental-audit.ts:194-219 | against the record as it was read back, a unit is reused exactly when its whole identity and all it read and cited beyond it are as recorded and every manifest could be read |
| IncrementalReuse.CitedAsBefore | packages/runtime/src/incremental-audit.ts:209-212 | a decision to reuse implies that the places the replayed answer cites hash in the next run to the digests the base recorded, so both records' cited ranges are equal |
| IncrementalReuse.UnchangedIsReusedIffNamesKept | packages/runtime/src/incremental-audit.ts:194-219 | the base's record is read back with its paths as storage made them: a unit on which everything is as it was is reused if and only if storing keeps every path its identity names |
| IncrementalReuse.ReuseIsSound | packages/runtime/src/incremental-audit.ts:137-219 | reuse implies every unit file, reachable import, ancestor manifest, out-of-unit read and cited range is unchanged, and the reachable set itself is; the cited digests are derived from the decision |
| IncrementalReuse.ReuseIsSoundAlongChains | packages/runtime/src/incremental-audit.ts:137-219 | the same, cited ranges included, from the first to the last run of any chain of reuses, each link assuming only that the replayed answer names the same places |
| IncrementalReuse.CitedLinesStay | packages/runtime/src/incremental-audit.ts:566-572 | along any chain of reuses, every range the first run cited is there whole in the last run and hashes to what the first recorded |
| IncrementalReuse.CitedLinesReadTheSame | packages/runtime/src/incremental-audit.ts:566-572 | so along any chain of reuses a cited range of the first run reads the same, line by line, in the last |
| AuditStages.AuditStageIdentities | packages/runtime/src/incremental-audit.ts:240-267 | the loop threads each stage's identity into the next one's components |
| AuditStages.FallbackReasons | packages/runtime/src/incremental-audit.ts:345-366 | the reasons for a full audit are exactly those that hold: a live base, another repository, a graph gone or changed, a snapshot identity gone or inconsistent, Git identity gone, history rewritten |
| AuditStages.DecideStages | packages/runtime/src/incremental-audit.ts:345-389 | each stage's reasons are the fallback, the unfinished base, or what differs in its own components, both sides computed by the running build |
| AuditStages.StageReusedIff | packages/runtime/src/incremental-audit.ts:240-389 | a stage is reused exactly when the base completed on the same content, repository, graph and line of history, nothing it or an earlier stage depends on changed, and its identities are computed with the running build's stage logic |
| AuditStages.ReuseIsPrefixClosed | packages/runtime/src/incremental-audit.ts:240-267 | a stage is reused only if every earlier one is |
| AuditStages.OtherLogicIsReusedIff | packages/runtime/src/incremental-audit.ts:226-259 | the base's own stage logic is not compared: a stage is reused though the stage logic it was audited under says otherwise exactly when that logic differs, the base is comparable and the inputs of its first stage are unchanged |
| AuditStages.OlderBuildIsReused | packages/runtime/src/incremental-audit.ts:383-389 | a base of an older build on the same repository and configuration is reused in all its stages |

## Left out

- Discovery.Finder.DiscoverPrimary: units are audited one after another, as with `concurrency` 1; with more, another order only changes which failures count as in a row. The published split lists, limitation texts and findings are not modelled, nor is a resume.
- Discovery.Finder.Audit: whether a call stopped at the output ceiling, ran past its time limit, was declined or failed alone is the reply's kind, not derived from error classes; so a marked part may run past its time again here, where the source sends it again whole.
- TestPlacement.PlaceTests: path heuristics and import resolution are parameters.
- ModuleGroups.ModulesAreApart: which files imports connect, and so the root of a path, is a parameter; paths are already in the normal form modules are named by, and the sort by ID is done once, after the lone files are added.
- ModuleGroups.DiscoverSnapshot: a snapshot lists each path once; the map by path would drop a second file of one path.
- RateLimiter.Scheduler.TryAcquire: one provider; times are integer milliseconds and the clock never goes back; promises and abort listeners are the set of waiters a release clears.
- RateLimiter.AdmittedWithinWakes: for one waiter without rivals; fairness among waiters is not promised by the source.
- Invocation.Invoke: trace records, the attempt count in messages and continuation storage are not modelled; a send is any outcome.
- TokenLedger.DurableTokenBudget.ReserveTokens: operations are serial, as the class chains them; file locking by the backend is not modelled; what storing makes of a text is a function of that text and the name it is filed under.
- ArtifactPublication.PublishedArtifactsStay: a loss of power is covered where every put syncs; `SurvivesPowerLossIffSynced` and `SyncedSurviveIffNotMixed` say, for each address, what else can happen. Directory entries are durable at once.
- ArtifactIdentity.GetAfterPut: UTF-8 is a pair of functions that restores text without lone surrogates.
- CanonicalJson.NormIffEqual: values are finite trees, so a value that contains itself is not modelled; the refusals of holes, accessors, symbol keys and numbers that are not finite are one constructor.
- JsonText.RoundTrip: the parser reads text without insignificant white space, and a number is its text; JavaScript's own number parsing is not modelled.
- TraceIndex.Session.Synchronise: SQLite transactions are atomic steps; the format row, the count check of corrupt tables and the removal of a corrupt index file, which ends in the empty index this starts from, are not modelled.
- ConcurrentIndexers.RunKeeps: reading a window, reading the metadata and each transaction are one step each.
- TraceQuery.Query: no other process commits between synchronising and reading; `InterleavedQuery.ServedIs` says what is served when one does.
- InterleavedQuery.ServedIs: each statement of a query finds the index as one transaction left it, and the rows are read from the log as it is at the end; a corrupt answer makes the caller rebuild the index and ask once more, which is not modelled.
- Journal.JournalFile.Append: appends come one at a time and the cut-back succeeds; directory creation is not modelled.
- Activity.JournalSurvives: one activity at a time in a process; error texts and provider request IDs are not recorded.
- JournalText.RecordComesBack: NFC, UTF-8 and the JSON of an artifact reference are parameters that do what they are for; the usage of an `end` is always null, as the runtime writes it.
- CompletedArtifacts.CompletedCanBeRead: files are removed by no one else.
- Advisor.TaskAdvisor.Consult: one advisor object per task at a time, as its calls are serial; context allocation is an estimate or a skip; advice content and conflict reports are not modelled; what storing makes of an ID is a function of the ID alone, though redaction also sweeps the encoded ledger as a whole.
- IncrementalReuse.DecideUnit: reasons are a set, so their order is not modelled; paths are relative and the digests of settings are given.
- IncrementalReuse.ReuseIsSound: the base's record is taken as it was written; `UnchangedIsReusedIffNamesKept` says what storing its paths does to the decision.
- IncrementalReuse.ReuseIsSoundAlongChains: assumes that a reused unit's replayed answer reads the same files and cites the same places as the base's did.
- AuditStages.DecideStages: Git's answer about ancestry is a parameter; hotspots, affected surfaces and lineage are not modelled.
- PairPacking.ContextParts: what a part contains beside its record IDs is not modelled; `fits` and `admits` are pure.
- HTTP routes, the web application, command lines, prompts, schemas, processes and signals, metrics and reports.
