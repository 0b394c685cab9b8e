# Verified models of the sandbox hand

The repository runs tool sandboxes on a metered provider and promises three things through crashes, retries and races:
capacity is never double-spent, an effect never runs twice, and buffers never overrun. This project models the code that
keeps those promises and proves them, for every input, every interleaving and every history of calls.

- **Target materialization** (`TargetRecords`, `MemoryRegistry`, `MemoryContracts`, `RegistryHistories`, `TargetMaterializer`,
  `DynamoRegistry`, `DynamoContracts`, `TargetLauncher`, `LauncherContracts`, `MaterializationProtocol`,
  `ProtocolSafety`, `ProtocolSteps`, `ProtocolWrites`, `ProtocolTheorems`, `ProtocolRows`, `ProtocolStuckRows`,
  `ProtocolLatePurge`): the atomic registry as a class over a row map and a counter; the DynamoDB acquire loop as a method whose every database call
  meets an arbitrary table; and the whole protocol as a step system of workers, rows, counter, provider and clock.
- **Crash-safe logs** (`RecordCodec`, `CrashLog`, `FileEffects`, `FileEffectSafety`, `FileEffectRuns`, `FileEffectDurability`,
  `LogContents`, `EffectAnswers`, `FileEffectStore`, `Acknowledgements`, `AckSafety`, `AckDurability`, `AckAnswers`,
  `AckStore`): the disk is what a read returns plus what is known durable; runs mix calls,
  failed writes, failed cleanups, failed syncs, process restarts and machine crashes.
- **Caches and fetch admission** (`Lru`, `BundleCache`, `PreparationStore`, `PreparationCache`, `FetchAdmission`, `FetchGate`).
- **Operation registry** (`OperationRegistry`, `OperationAnswers`), **token bucket** (`TokenBucket`), **ClientHello reader**
  (`ClientHello`, `HelloReader`, `HelloRefusals`, `TlsCursor`), **paging** (`Paging`, `LiveFilePaging`).

Each operation is stated twice: once as the transition that its method computes, and once by what it meets, in the modules
named contracts, answers, contents and refusals, whose lemmas say what is answered, what changes and what stays for every case
without naming the transition's own branches.

`MapTotals`, `Arithmetic` and `Wrappers` are shared helpers. `dafny verify dfyconfig.toml` checks everything.

## Environment assumptions

- A client token creates at most one VM, ever. An answer that names no target means that this call created nothing. A VM
  appears at most 60 000 ms after its call was admitted and lives at most the maximum duration. A report of absence is true.
- Minted reservation and attempt ids are fresh, except that a purge reuses a reservation id. The spec digest is injective.
  A VM is identified with its client token.
- A worker's clock is never ahead of the world's, and dispatch reads the clock when it admits.
- A failed write leaves a strict prefix of its record. A failed sync changes nothing that is known durable, and a later sync
  that succeeds makes the whole file durable. A crash keeps the new bytes up to some point and the durable ones after it.
- Results and acknowledgements compare equal exactly when their canonical bytes do. A bundle that is held by anybody has more
  than one owner. Cache operations run one at a time under the cache lock.
- Callers of the memory registry release and close only leases and targets that an earlier answer or listing showed them
  (`HandedOut`); attempt ids are minted once, a reservation id names one spec, and a VM belongs to one reservation (`FreshIds`).

## Where the code decides differently than a reader may expect

- The memory registry's bound saturates: an idle plane admits a target larger than the plane
  (`OversizedTargetOverrunsThePlane`, `AcquireKeepsBoundIff`). The DynamoDB registry refuses such a target. A target that charges
  nothing, refused because the counter is past its bound, is reported there as a storage failure and not as capacity (`Sound`).
- The memory registry refunds what the caller's lease or target names, not what the row was charged. `StepAccountsIff` and
  `RunAccountsIff` say exactly which calls keep the counter, `ReusedIdsBreakTheCounter` shows a run that does not, and
  `HandedOutIsHonest` that callers under fresh ids always do.
- A memory re-install compares the lease generation; the DynamoDB one does not. Closing a closed row always succeeds in memory;
  the DynamoDB one requires the same generation and disposition. An installed DynamoDB row keeps the row's own deadline.
- A purge installs a recovered launch at the current clock, so it may write a row that fails row validation when it is late.
  `InstallIsOnTimeIff` and `RunRowsAreValidIff` say exactly when. Since every read, get and list validates the row, nobody who
  does not already hold it can close it: `StuckForever` proves that it stands, charged, in every later state,
  `InvalidRowLeavesIff` which events could change it, and `LatePurgeIsReached` reaches it from an empty plane.
- Both logs document that a success never rests on an uncertain write. Opening a log without a torn tail does not sync it, so
  after a process restart a record whose sync had failed is answered as retained, and a later machine crash can still lose it.
  `CompletedIsDurableIff` and `RetainedIsDurableIff` say exactly which histories leave an answer undurable: the last open
  adopted the record beyond the durable log, no torn tail made it sync, and no call has synced since. `UndurableIsLost`, for
  both stores, shows that every such answer can be lost; `RetryIsNotDurable`, `AboutToCompleteIsReached` and
  `AdoptedAcknowledgementIsLost` that they occur. That an effect starts at most once holds regardless.
- `find` and `grep` sort component by component and resume by string order, so `a.txt` is skipped behind `a/b`
  (`DotIsSkipped`); a name with a backslash shares the logical path of a nested one and is skipped too
  (`BackslashIsSkipped`), also by `list` (`BackslashNameIsSkipped`). `SearchIsExactIff` and `ListIsExactIff` say exactly when
  paging is complete, and `SearchIsAlwaysExactIff` and `ListIsAlwaysExactIff` say it in terms of the names.

## Model

| member | source | states |
|---|---|---|
| `TargetRecords.PollAfter` | crates/hand-core/src/materialization/record.rs:308-312 | the poll delay is at least one millisecond, bounded, and never past the expiry it waits for |
| `TargetRecords.RequestIsAcceptedIff` | crates/hand-core/src/materialization/record.rs:199-215 | exactly which requests are accepted: valid names and launch, attempt and target shorter than the lease, replacement only of the default target |
| `TargetRecords.RecordIsValidIff` | crates/hand-core/src/materialization/record.rs:102-145 | exactly which rows pass validation, by state |
| `TargetRecords.FirstRowIsValid` | crates/hand-core/src/materialization/record.rs:199-244 | an accepted request yields a row that passes validation, with both deadlines ahead |
| `TargetRecords.TakeoverIsValidIff` | crates/hand-core/src/materialization/memory.rs:313-337 | a takeover of a valid row stays valid exactly when its clock has not passed the target deadline |
| `TargetRecords.InstallIsValidIff` | crates/hand-core/src/materialization/record.rs:102-145 | an installed row is valid exactly when it is installed by its deadline |
| `MemoryRegistry.MemoryTargetRegistry.Reserve` | crates/hand-core/src/materialization/memory.rs:45-56 | charges the counter within the saturating bound, or refuses and changes nothing |
| `MemoryRegistry.MemoryTargetRegistry.Refund` | crates/hand-core/src/materialization/memory.rs:58-66 | refunds exactly, or reports corruption and changes nothing |
| `MemoryRegistry.MemoryTargetRegistry.AcquireTarget` | crates/hand-core/src/materialization/memory.rs:75-154 | the whole new state and answer of acquire, for every row state and error path |
| `MemoryRegistry.MemoryTargetRegistry.InstallTarget` | crates/hand-core/src/materialization/memory.rs:156-201 | the whole new state and answer of install, including exact re-installs and lost reservations |
| `MemoryRegistry.MemoryTargetRegistry.ExpireTargetLease` | crates/hand-core/src/materialization/memory.rs:203-229 | removes the row and refunds it only for the attempt that owns it |
| `MemoryRegistry.MemoryTargetRegistry.CloseTarget` | crates/hand-core/src/materialization/memory.rs:247-272 | closes an installed row, refunding once |
| `MemoryContracts.LeaseOfRequest` | crates/hand-core/src/materialization/record.rs:217-244 | an accepted request yields the lease with its names and the three deadlines from its clock, unless one of them overflows |
| `MemoryContracts.AcquireFreeKey` | crates/hand-core/src/materialization/memory.rs:79-88 | a free key is reserved with a fresh row and charged exactly when the plane admits it; otherwise nothing changes |
| `MemoryContracts.AcquireUnservedRow` | crates/hand-core/src/materialization/memory.rs:89-105 | a row that is invalid, of another spec or fenced out is reported and left alone |
| `MemoryContracts.AcquireInstalled` | crates/hand-core/src/materialization/memory.rs:106-109 | an installed row answers its own fields and stays |
| `MemoryContracts.AcquireLiveAttempt` | crates/hand-core/src/materialization/memory.rs:127-133 | while an attempt is live before the target deadline the row stays and the caller waits, at most until the attempt ends |
| `MemoryContracts.AcquireUncertain` | crates/hand-core/src/materialization/memory.rs:119-126 | between target and lease deadline the row stays and the caller waits, at most until the lease ends |
| `MemoryContracts.AcquireExpiredLease` | crates/hand-core/src/materialization/memory.rs:110-118 | after the lease the charged slot is reserved anew and the counter does not move |
| `MemoryContracts.AcquireExpiredAttempt` | crates/hand-core/src/materialization/memory.rs:313-337 | an expired attempt is taken over: only attempt, its deadline capped by the lease, and update time change; the lease is the row's, as a recovery |
| `MemoryContracts.AcquireClosed` | crates/hand-core/src/materialization/memory.rs:137-153 | Terminated answers IsTerminated; Lost answers IsGone, or is replaced and charged exactly when asked for and admitted |
| `MemoryContracts.AttemptKeptUntilExpiry` | crates/hand-core/src/materialization/memory.rs:110-136 | no call whatever changes the attempt of a valid row before that attempt has expired |
| `MemoryContracts.InstallExactly` | crates/hand-core/src/materialization/memory.rs:156-201 | an install lands on exactly the reservation it names, re-answers exactly the install that is there, and is lost otherwise |
| `MemoryContracts.ReleaseExactly` | crates/hand-core/src/materialization/memory.rs:203-229 | a release removes and refunds the row of exactly the owning attempt, and changes nothing for anybody else |
| `MemoryContracts.CloseExactly` | crates/hand-core/src/materialization/memory.rs:247-272 | the closed row has exactly the given disposition, reason and time and keeps key, spec and generation; no other row changes |
| `MemoryContracts.TerminatedForever` | crates/hand-core/src/materialization/memory.rs:149-152 | after any run of any calls a terminated row stands unchanged |
| `MemoryContracts.TerminatedStays` | crates/hand-core/src/materialization/memory.rs:149-152 | no acquire ever hands out the key of a terminated row |
| `MemoryRegistry.StepAccountsIff` | crates/hand-core/src/materialization/memory.rs:203-272 | exactly which calls keep the counter equal to the sum over the rows: the refund names the memory the row was charged |
| `RegistryHistories.RunAccountsIff` | crates/hand-core/src/materialization/memory.rs:75-272 | for any calls whatever, the counter is exact in every state exactly when every call keeps it |
| `RegistryHistories.HandedOutIsHonest` | crates/hand-core/src/materialization/memory.rs:75-272 | callers that release and close only what they were shown, under fresh ids, always refund what was charged |
| `RegistryHistories.CounterIsExact` | crates/hand-core/src/materialization/port.rs:5-9 | in every such history the counter is the sum over Materializing and Installed rows, and each charge is refunded exactly once or its row stands |
| `RegistryHistories.ReusedIdsBreakTheCounter` | crates/hand-core/src/materialization/memory.rs:203-229 | a run with an attempt id minted twice that leaves memory charged to no row |
| `MemoryRegistry.AcquireKeepsBoundIff` | crates/hand-core/src/materialization/memory.rs:45-56 | acquire leaves the plane bound exactly when an idle plane would be charged for a target larger than itself |
| `MemoryRegistry.OversizedTargetOverrunsThePlane` | crates/hand-core/src/materialization/memory.rs:47-47 | a concrete request that takes the counter past the bound |
| `MemoryRegistry.RunStaysWithinPlane` | crates/hand-core/src/materialization/memory.rs:75-154 | when every target fits the plane, no run of any calls passes the bound |
| `TargetMaterializer.Ensure` | crates/hand-core/src/materialization/materializer.rs:28-89 | the state and answer of ensure for every launch reply: which refund and which keep the fence |
| `TargetMaterializer.RejectedFirstLaunchLeavesNoTrace` | crates/hand-core/src/materialization/materializer.rs:42-76 | a rejected first launch leaves the registry exactly as it was |
| `TargetMaterializer.RecoveryNeverRefunds` | crates/hand-core/src/materialization/materializer.rs:42-76 | no failure of a recovered attempt gives back its reservation |
| `TargetMaterializer.EnsuredIsInstalled` | crates/hand-core/src/materialization/materializer.rs:77-88 | a successful ensure answers exactly the durably installed row, with the requested spec |
| `TargetMaterializer.EnsureKeepsRowsValid` | crates/hand-core/src/materialization/materializer.rs:78-83 | ensure keeps every row valid, because it installs at the acquire-time clock |
| `TargetMaterializer.NoLeaseNoLaunch` | crates/hand-core/src/materialization/materializer.rs:28-40 | without a lease the launch reply does not matter: each acquire answer maps to its own result, and the registry is as acquire left it |
| `TargetMaterializer.UnknownOutcomeKeepsTheReservation` | crates/hand-core/src/materialization/materializer.rs:73-75 | an unknown outcome answers LaunchOutcomeUnknown and leaves row, attempt, deadlines and charge as acquire left them, first attempt or not |
| `TargetMaterializer.RefusedFirstAttempt` | crates/hand-core/src/materialization/materializer.rs:42-72 | a first attempt told that there is no target frees its key, refunds its charge and answers Capacity, LaunchRejected or LaunchRetryable by the reply |
| `TargetMaterializer.RefusedRecovery` | crates/hand-core/src/materialization/materializer.rs:42-72 | a recovered attempt told the same keeps everything and answers Capacity, LaunchOutcomeUnknown or LaunchRetryable |
| `TargetMaterializer.FirstAttemptIsRefundedIff` | crates/hand-core/src/materialization/materializer.rs:42-88 | over a free key, an expired reservation or a lost target alike, a first attempt is refunded exactly on the three no-target replies |
| `TargetMaterializer.LaunchedIsInstalledOrStale` | crates/hand-core/src/materialization/materializer.rs:78-88 | a launched target is installed on the lease; the caller is told to destroy it exactly when the install was lost |
| `DynamoRegistry.ReserveIsAtomic` | crates/hand-brain-aws/src/registry.rs:323-350 | the reserving transaction is one atomic acquire |
| `DynamoRegistry.ReplaceExpiredIsAtomic` | crates/hand-brain-aws/src/registry.rs:102-148 | replacing an expired reservation is one atomic acquire, though the row was read earlier |
| `DynamoRegistry.TakeAttemptIsAtomic` | crates/hand-brain-aws/src/registry.rs:150-221 | taking over an attempt is one atomic acquire, and the lease built from the read is the row's |
| `DynamoRegistry.ReplaceGoneIsAtomic` | crates/hand-brain-aws/src/registry.rs:223-284 | replacing a lost default is one atomic acquire |
| `DynamoRegistry.Round` | crates/hand-brain-aws/src/registry.rs:351-484 | one round linearizes under any interference; the row it read decides: an installed, closed, live or uncertain row is answered on the spot without a write, a row that does not serve is its error; undisturbed, the answer is the atomic one; capacity is named only on a counter read as full |
| `DynamoRegistry.Acquire` | crates/hand-brain-aws/src/registry.rs:319-484 | under arbitrary interference every success is the atomic acquire at one instant; a failure wrote nothing unless the database lost the answer; capacity is named only on proof; undisturbed, answers and errors are exactly those of the atomic registry; at most 17 calls |
| `DynamoContracts.ReserveExactly` | crates/hand-brain-aws/src/registry.rs:323-350 | the reserving transaction lands exactly on a free key with room, and leaves a fresh row and its charge |
| `DynamoContracts.ReplaceExpiredExactly` | crates/hand-brain-aws/src/registry.rs:102-148 | an expired reservation is replaced exactly while the row still names the reservation read, after its lease, uncharged |
| `DynamoContracts.TakeAttemptExactly` | crates/hand-brain-aws/src/registry.rs:150-221 | an attempt is taken over exactly while the row still names the attempt read, once it has expired and before either deadline; nothing else about the row changes |
| `DynamoContracts.ReplaceGoneExactly` | crates/hand-brain-aws/src/registry.rs:223-284 | a lost default is replaced exactly while it is still that generation and there is room, and charged |
| `DynamoContracts.InstallLandsExactly` | crates/hand-brain-aws/src/registry.rs:486-539 | an install lands exactly on the reservation of its lease, under the deadline the row already had |
| `DynamoContracts.InstallIsAtomicIff` | crates/hand-brain-aws/src/registry.rs:486-539 | it is the in-memory install exactly when row and lease have the same deadline |
| `DynamoContracts.ReleaseLandsExactly` | crates/hand-brain-aws/src/registry.rs:556-617 | a release lands exactly for the owning attempt with a counter that covers it, and is the in-memory release |
| `DynamoContracts.CloseLandsExactly` | crates/hand-brain-aws/src/registry.rs:687-749 | a close lands exactly on the installed target it names, with exactly this disposition, reason and time, and is the in-memory close |
| `DynamoContracts.ClosedThenAcquired` | crates/hand-brain-aws/src/registry.rs:351-484 | after a close as Terminated no acquire answers a lease; after one as Lost a lease is answered exactly when replacement is asked for and there is room |
| `DynamoContracts.PurgeLandsExactly` | crates/hand-brain-aws/src/registry.rs:289-316 | a purge removes exactly a closed row of the generation read, and no charge |
| `TargetLauncher.SealBindsTheReservation` | crates/hand-brain-aws/src/launcher.rs:121-165 | a lease decodes its own seal, and whatever lease decodes a seal has the sealed reservation and deadlines |
| `LauncherContracts.DispatchWindow` | crates/hand-brain-aws/src/launcher.rs:252-268 | the dispatch window exists exactly when it ends a full target lifetime before the lease |
| `LauncherContracts.SealMatchesIff` | crates/hand-brain-aws/src/launcher.rs:121-165 | a lease accepts a seal exactly when it agrees with the sealing lease on every field the provider sees and the window fits it |
| `LauncherContracts.AcceptedSealsAgree` | crates/hand-brain-aws/src/launcher.rs:121-165 | any two leases that accept one sealed request agree on every such field and on the dispatch deadline |
| `LauncherContracts.LateDispatch` | crates/hand-brain-aws/src/launcher.rs:270-287 | a launch is sent exactly within its window; past it a first attempt gives its reservation back and a recovery keeps it |
| `LauncherContracts.PurgeKeepsTheGeneration` | crates/hand-brain-aws/src/launcher.rs:167-184 | a purge never conflicts with the row it read, never replaces a closed target, and writes only the same reservation, generation and launch |
| `ProtocolSafety.ExpiredIsSettled` | crates/hand-brain-aws/src/launcher.rs:252-268 | once the uncertainty lease is over no VM of the token is alive or can appear |
| `ProtocolSafety.AbandonedIsSettled` | crates/hand-brain-aws/src/registry.rs:556-617 | a row still on the first attempt of a worker that gave up has no VM and will have none |
| `ProtocolWrites.ReserveInv` | crates/hand-brain-aws/src/registry.rs:323-350 | reserving keeps the protocol invariant, also when a purge reuses an id |
| `ProtocolWrites.WriteStepInv` | crates/hand-brain-aws/src/registry.rs:102-284 | every conditional write of the acquire loop keeps the invariant against a row read earlier |
| `ProtocolWrites.InstallInv` | crates/hand-brain-aws/src/registry.rs:486-539 | the conditional install keeps the invariant, whether it lands or is refused |
| `ProtocolSteps.RecheckInv` | crates/hand-brain-aws/src/registry.rs:540-552 | the read after a refused install, which takes an exact earlier install for its own, keeps the invariant |
| `ProtocolWrites.ReleaseInv` | crates/hand-brain-aws/src/registry.rs:556-617 | releasing a reservation keeps the invariant: only settled tokens lose their row |
| `ProtocolWrites.CloseInv` | crates/hand-brain-aws/src/registry.rs:687-749 | closing after a confirmed termination keeps the invariant |
| `ProtocolWrites.PurgeInv` | crates/hand-brain-aws/src/registry.rs:289-316 | removing a terminal row keeps the invariant |
| `ProtocolSteps.RecoverInv` | crates/hand-brain-aws/src/ports/preparation.rs:353-426 | a purge that reconciles a materializing row keeps the invariant |
| `ProtocolSteps.LaunchInv` | crates/hand-brain-aws/src/launcher.rs:209-241 | dispatching, or refusing to, keeps the invariant |
| `ProtocolSteps.ConfirmInv` | crates/hand-brain-aws/src/hand.rs:636-687 | confirming a termination keeps the invariant |
| `ProtocolTheorems.StepInv` | crates/hand-brain-aws/src/registry.rs:319-749 | every enabled event of any worker, the provider or the clock keeps the invariant |
| `ProtocolTheorems.CapacityIsNeverDoubleSpent` | crates/hand-brain-aws/src/hand.rs:618-701 | in every reachable state the memory of live VMs is at most the counter, which is the sum of charged rows and at most the plane limit |
| `ProtocolTheorems.UnfencedTokensAreDead` | crates/hand-brain-aws/src/registry.rs:102-284 | in every reachable state a token whose row is gone, replaced or closed has no live VM, and none can appear |
| `ProtocolTheorems.OneRequestPerToken` | crates/hand-brain-aws/src/launcher.rs:121-184 | over any run all dispatches under one client token carry the same sealed request, inside its window |
| `ProtocolTheorems.LaunchIsReachable` | crates/hand-brain-aws/src/launcher.rs:209-241 | from an empty plane a request is reserved, dispatched under its own seal and its VM lives |
| `ProtocolTheorems.RunsAreCoherent` | crates/hand-brain-aws/src/registry.rs:150-221 | the tables of every run satisfy what the acquire loop assumes of its interference |
| `ProtocolRows.InstallIsOnTimeIff` | crates/hand-core/src/materialization/record.rs:102-145 | a protocol install writes a valid row exactly when it happens by the row's deadline; ensure always does |
| `ProtocolRows.RunRowsAreValidIff` | crates/hand-core/src/materialization/record.rs:102-145 | all rows of all states of a run pass validation if and only if every purge in it installs by the row's deadline |
| `ProtocolStuckRows.InvalidRowLeavesIff` | crates/hand-brain-aws/src/registry.rs:687-749 | the only event that changes an installed row that fails validation is a close by a worker that already holds a view of it |
| `ProtocolStuckRows.StuckForever` | crates/hand-brain-aws/src/registry.rs:793-877 | such a row that nobody holds a view of stands unchanged and charged in every later state, because every read of it is refused |
| `ProtocolStuckRows.LateInstallSticks` | crates/hand-brain-aws/src/registry.rs:526-539 | a late purge install ends in error and leaves its row so, unless some worker already holds a view of that VM |
| `ProtocolLatePurge.LatePurgeIsReached` | crates/hand-brain-aws/src/ports/preparation.rs:353-454 | from an empty plane a purge takes over, launches and installs late, leaving a row that fails validation and that nobody can ever close |
| `CrashLog.FindValidLen` | crates/hand-guest/src/file_effects.rs:108-115 | finds the end of the last complete record: nothing behind it has a newline |
| `CrashLog.RecoveryKeepsTheRecords` | crates/hand-guest/src/file_effects.rs:108-126 | recovery keeps exactly the complete records and cuts exactly the tail |
| `CrashLog.AppendHolds` | crates/hand-guest/src/file_effects.rs:347-371 | an append over any stale tail leaves the records, the new one and a newline-free tail |
| `CrashLog.FailedWriteHolds` | crates/hand-guest/src/file_effects.rs:363-367 | a failed write leaves the records and a newline-free tail, with or without its cleanup |
| `CrashLog.CrashHolds` | crates/hand-guest/src/file_effects.rs:106-121 | after any crash the file holds the durable records, some that followed, and a newline-free tail |
| `FileEffects.EventRoundTrip` | crates/hand-guest/src/file_effects.rs:340-345 | every event decodes from its line, which is not empty and has no newline |
| `FileEffectStoreClass.OpenLog` | crates/hand-guest/src/file_effects.rs:82-192 | the outcome of open on any file, and what it leaves on disk |
| `CrashLog.ReplayFile` | crates/hand-guest/src/file_effects.rs:123-161 | replays any file line by line to what it folds to or its first refusal |
| `FileEffectStoreClass.CountIncomplete` | crates/hand-guest/src/file_effects.rs:165-168 | counts the records without a result |
| `FileEffectStoreClass.FileEffectStore.Reserve` | crates/hand-guest/src/file_effects.rs:194-241 | the whole new state and answer of reserve for every outcome of its system calls |
| `FileEffectStoreClass.FileEffectStore.Claim` | crates/hand-guest/src/file_effects.rs:245-268 | the whole new state and answer of claim |
| `FileEffectStoreClass.FileEffectStore.CompleteEffect` | crates/hand-guest/src/file_effects.rs:270-317 | the whole new state and answer of complete |
| `FileEffectStoreClass.FileEffectStore.AppendRecord` | crates/hand-guest/src/file_effects.rs:347-371 | append with its bound, its failed write and its cleanup |
| `FileEffectStoreClass.FileEffectStore.TakeWriter` | crates/hand-guest/src/file_effects.rs:319-328 | an uncertain write is forced durable before anything else |
| `FileEffectRuns.OpenMoves` | crates/hand-guest/src/file_effects.rs:82-192 | open never finds Corrupt or Capacity, adopts exactly the records, and is durable exactly when nothing unsynced is adopted |
| `FileEffectRuns.ClaimedOnce` | crates/hand-guest/src/file_effects.rs:243-268 | over every run claim answers New at most once per operation id |
| `EffectAnswers.ForeignIdentityConflicts` | crates/hand-guest/src/file_effects.rs:194-317 | a reserve, claim or complete of a known operation under another identity answers Conflict and records nothing, whether or not a result is stored |
| `EffectAnswers.CompletedAnswers` | crates/hand-guest/src/file_effects.rs:194-317 | a completed effect replays its result to its own identity and takes no other result |
| `EffectAnswers.ReservedAnswers` | crates/hand-guest/src/file_effects.rs:194-317 | a reserved effect answers New, a claim takes its admission, and a completion before that is invalid |
| `EffectAnswers.ClaimedAnswers` | crates/hand-guest/src/file_effects.rs:194-268 | a claimed effect without a result is Ambiguous to reserve and claim |
| `EffectAnswers.UnknownAnswers` | crates/hand-guest/src/file_effects.rs:245-317 | an operation never reserved is Ambiguous to claim and complete |
| `EffectAnswers.InvalidIsRefused` | crates/hand-guest/src/file_effects.rs:194-329 | an invalid identity or result, or a writer that cannot be settled, is refused and changes nothing |
| `EffectAnswers.FreshReserveAnswers` | crates/hand-guest/src/file_effects.rs:211-241 | a new effect is refused for capacity exactly when its intent and its future result do not fit, and answers New exactly when the intent is durable |
| `EffectAnswers.FreshCompleteAnswers` | crates/hand-guest/src/file_effects.rs:290-317 | a result is refused for capacity exactly when its record does not fit, and answered exactly when it is durable; what was set aside is returned |
| `EffectAnswers.FailedWriteIsUndone` | crates/hand-guest/src/file_effects.rs:347-371 | a write that fails half-way leaves none of its bytes behind when its cleanup succeeds |
| `EffectAnswers.ClaimedWasReserved` | crates/hand-guest/src/file_effects.rs:194-268 | over every run, a claim that answers New follows a reservation of exactly its identity since the last open, and the intent of that identity is durable |
| `EffectAnswers.NoResultIsInvented` | crates/hand-guest/src/file_effects.rs:82-317 | over every run, through restarts and crashes, each result in the log was given by an earlier completion of exactly that identity |
| `EffectAnswers.ReplayedWasCompleted` | crates/hand-guest/src/file_effects.rs:194-268 | over every run, a replayed result is one that an earlier completion of the same identity gave |
| `LogContents.ReplaysIff` | crates/hand-guest/src/file_effects.rs:123-161 | a log is accepted exactly when every line is a first intent or the one completion of an earlier intent, and replays to exactly those |
| `LogContents.OpensIff` | crates/hand-guest/src/file_effects.rs:82-192 | whatever is on the disk, it opens exactly when the needed system calls succeed and the log is well formed and within both limits, to exactly its contents |
| `FileEffectDurability.CompletedIsReplayed` | crates/hand-guest/src/file_effects.rs:194-317 | after complete succeeded every later exact reserve or claim that answers replays that result, and no other is accepted, in every run where the answer was durable by the next row |
| `FileEffectDurability.CompletedIsDurableIff` | crates/hand-guest/src/file_effects.rs:98-328 | over every run an answered completion is durable if and only if it is not one that the last open adopted undurable, untorn, with no sync since |
| `FileEffectDurability.UndurableIsLost` | crates/hand-guest/src/file_effects.rs:105-191 | every answered completion that is not durable is lost by some crash, after which any other fitting result is accepted and replayed |
| `FileEffectDurability.RetryIsNotDurable` | crates/hand-guest/src/file_effects.rs:105-317 | a failed sync, a restart and a retry give such an answer, from every state about to complete |
| `FileEffectDurability.AboutToCompleteIsReached` | crates/hand-guest/src/file_effects.rs:194-268 | that situation arises from an empty disk by an open, a reservation and a claim |
| `FileEffectRuns.ReopensExactly` | crates/hand-guest/src/file_effects.rs:98-191 | after any run the log reopens with exactly the surviving records; the file is records and a newline-free tail |
| `FileEffectRuns.ResultsAlwaysFit` | crates/hand-guest/src/file_effects.rs:165-177 | log bytes plus 32 KiB per incomplete record stay within the limit; a completion is refused for capacity only when its own record exceeds 32 KiB |
| `FileEffectRuns.OnlyTheCountRefuses` | crates/hand-guest/src/file_effects.rs:16-19 | at the ordinary limits, with the log no more than half full, a new effect is refused for capacity exactly when 1024 are retained |
| `Acknowledgements.AckRoundTrip` | crates/hand-guest/src/acks.rs:249-251 | every acknowledgement decodes from its line |
| `AckStoreClass.OpenAcks` | crates/hand-guest/src/acks.rs:96-163 | the outcome of open on any file, and what it leaves on disk |
| `AckStoreClass.AcknowledgementStore.FenceSubmission` | crates/hand-guest/src/acks.rs:166-182 | Clear, Acknowledged or Conflict, from memory alone |
| `AckStoreClass.AcknowledgementStore.AcknowledgementExists` | crates/hand-guest/src/acks.rs:186-211 | forces an uncertain write durable, then answers exactly |
| `AckStoreClass.AcknowledgementStore.Retain` | crates/hand-guest/src/acks.rs:216-280 | the whole new state and answer of retain |
| `AckDurability.RetainedForever` | crates/hand-guest/src/acks.rs:96-280 | once retained, the operation is never Clear again and no different acknowledgement is accepted, through any crashes, in every run where the answer was durable by the next row |
| `AckDurability.RetainedIsDurableIff` | crates/hand-guest/src/acks.rs:96-280 | over every run an answered acknowledgement is durable if and only if it is not one that the last open adopted undurable, untorn, with no sync since |
| `AckDurability.UndurableIsLost` | crates/hand-guest/src/acks.rs:111-280 | every answered acknowledgement that is not durable is lost by a crash, and the reopened store answers Clear |
| `AckDurability.AdoptedAcknowledgementIsLost` | crates/hand-guest/src/acks.rs:111-163 | from an empty disk: a failed sync, a restart, an acknowledged retry, a crash, and the operation is let through again |
| `AckSafety.ReopensExactly` | crates/hand-guest/src/acks.rs:96-163 | after any run the log reopens with exactly the surviving acknowledgements |
| `AckAnswers.FenceAnswers` | crates/hand-guest/src/acks.rs:166-182 | Clear exactly for unknown operations, Acknowledged exactly for the acknowledged request, Conflict otherwise |
| `AckAnswers.ExistsAnswers` | crates/hand-guest/src/acks.rs:186-211 | false exactly for unknown operations, true exactly for the retained acknowledgement, Conflict otherwise; the records stay |
| `AckAnswers.RetainKnown` | crates/hand-guest/src/acks.rs:228-247 | a known operation replays exactly its own acknowledgement and refuses any other |
| `AckAnswers.RetainFresh` | crates/hand-guest/src/acks.rs:249-280 | a new acknowledgement is refused for capacity exactly when it does not fit, and answers New exactly when it is durable |
| `AckAnswers.NothingIsInvented` | crates/hand-guest/src/acks.rs:96-280 | over every run, through restarts and crashes, each acknowledgement in the log was retained by an earlier call, exactly so |
| `AckAnswers.AcknowledgedWasRetained` | crates/hand-guest/src/acks.rs:166-280 | over every run, whatever is answered as acknowledged or retained was retained by an earlier call |
| `AckAnswers.ReplaysIff` | crates/hand-guest/src/acks.rs:132-151 | a log is accepted exactly when its lines are valid acknowledgements that agree, and replays to exactly those |
| `AckAnswers.OpensIff` | crates/hand-guest/src/acks.rs:96-163 | whatever is on the disk, it opens exactly when the needed system calls succeed, it is within the bound and its lines agree |
| `Lru.CutsAreNested` | crates/hand-brain-aws/src/cache.rs:194-201 | which entries an eviction takes is determined by how many |
| `BundleCaches.BundleCache.Get` | crates/hand-brain-aws/src/cache.rs:161-170 | answers the resident bytes; a hit alone is stamped, above every other entry, and no other entry changes |
| `BundleCaches.BundleCache.Insert` | crates/hand-brain-aws/src/cache.rs:214-228 | the counter stays the sum over the contents, and the new entry is the most recent |
| `BundleCaches.MostRecentGoesLast` | crates/hand-brain-aws/src/cache.rs:194-211 | an eviction takes the entry used last only when nothing else that is not spared stays |
| `BundleCaches.BundleCache.EvictIdleToFit` | crates/hand-brain-aws/src/cache.rs:175-212 | evicts exactly the least recently used unprotected unborrowed entries, no more than needed, and fails only when all of them were not enough |
| `BundleCaches.NoNeedlessEviction` | crates/hand-brain-aws/src/cache.rs:181-193 | what already fits evicts nothing and is never refused |
| `PreparationStores.PreparationStore.Get` | crates/hand-brain-aws/src/cache.rs:100-111 | answers the preparation; a hit alone is stamped, above every other session, and no other session changes |
| `PreparationStores.LastUsedGoesLast` | crates/hand-brain-aws/src/cache.rs:145-155 | an eviction takes the session used last only when nothing else that is not spared stays |
| `PreparationStores.PreparationStore.RemoveSession` | crates/hand-brain-aws/src/cache.rs:113-126 | removes one session from contents, counter and root index, leaving no empty set |
| `PreparationStores.PreparationStore.EvictPreparationsToFit` | crates/hand-brain-aws/src/cache.rs:128-157 | evicts exactly the least recently used unprotected sessions, no more than needed |
| `PreparationStores.PreparationStore.PurgeRootPage` | crates/hand-brain-aws/src/cache.rs:357-376 | drops at most the limit of the root's sessions, complete exactly when none is left |
| `PreparationCaches.PreparationCache.MakeMetadataRoom` | crates/hand-brain-aws/src/cache.rs:279-295 | metadata eviction inside install always makes room, by exactly the least recently used other sessions it needs |
| `PreparationCaches.PreparationCache.Install` | crates/hand-brain-aws/src/cache.rs:231-354 | every refusal in order, exactly which sessions and bundles are evicted, and the installed bundles and session, which are then the most recent; nothing else changes |
| `PreparationCaches.ObjectionIff` | crates/hand-brain-aws/src/cache.rs:237-288 | exactly which request is refused and for what: a moved root, a changed seal, an unreferenced fetch, an unavailable bundle, too much metadata |
| `PreparationCaches.PreparationCache.LoadBundles` | crates/hand-brain-aws/src/cache.rs:309-315 | after loading, every required bundle is resident with its bytes and used since; every other entry is unchanged |
| `BundleCaches.FreshenedOutranks` | crates/hand-brain-aws/src/cache.rs:309-315 | so every required bundle is more recent than every other one |
| `PreparationCaches.PreparedIsLastUsed` | crates/hand-brain-aws/src/cache.rs:316-342 | an installed preparation is the session used last |
| `FetchGates.FetchGate.Survey` | crates/hand-brain-aws/src/ports/preparation.rs:223-254 | which bundles are missing and how many bytes their fetches may bring, why one cannot be fetched, and that the resident ones are used now |
| `FetchGates.FetchGate.Admit` | crates/hand-brain-aws/src/ports/preparation.rs:223-279 | admission is one step of the protocol and keeps its invariant; which refusal is answered and when |
| `FetchGates.FetchGate.Drop` | crates/hand-brain-aws/src/cache.rs:544-553 | a dropped reservation gives back exactly what it took |
| `FetchAdmission.AdmissionOnlyBoundsFetches` | crates/hand-brain-aws/src/cache.rs:500-541 | after its own eviction, admission fails only for the bound on concurrent fetches |
| `FetchAdmission.InstallNeedsNoEviction` | crates/hand-brain-aws/src/cache.rs:259-316 | the install of an admitted fetch evicts nothing and is refused neither for room nor for a missing bundle |
| `FetchAdmission.AdmittedFetchesInstall` | crates/hand-brain-aws/src/ports/preparation.rs:223-311 | so in every run, however preparations and readers interleave, with cached bytes exact and within bounds |
| `OperationRegistries.OperationRegistry.ReserveOperation` | crates/hand-core/src/operation.rs:62-103 | the whole new state and answer of reserve |
| `OperationRegistries.OperationRegistry.MarkOperationRunning` | crates/hand-core/src/operation.rs:105-118 | the whole new state and answer of mark_running |
| `OperationRegistries.OperationRegistry.CompleteOperation` | crates/hand-core/src/operation.rs:121-157 | the whole new state and answer of complete |
| `OperationRegistries.OperationRegistry.RequestOperationCancel` | crates/hand-core/src/operation.rs:160-171 | the whole new state and answer of request_cancel |
| `OperationRegistries.OperationRegistry.AcknowledgeTerminal` | crates/hand-core/src/operation.rs:179-214 | the whole new state and answer of an acknowledgement, with its checks |
| `OperationRegistries.RunAccounts` | crates/hand-core/src/operation.rs:62-214 | in every call history both counters are the sums over the records and together within the limit |
| `OperationRegistries.CompleteAccounts` | crates/hand-core/src/operation.rs:138-155 | a payload that fits its reservation is accepted, and no saturating or checked operation clips |
| `OperationRegistries.FittingPayloadIsRetained` | crates/hand-core/src/operation.rs:121-157 | in every history such a payload is then what is retained |
| `OperationRegistries.TerminalUntilAcknowledged` | crates/hand-core/src/operation.rs:179-214 | a terminal record is unchanged until an acknowledgement that names its exact digest |
| `OperationRegistries.NewOnceBetweenAcknowledgements` | crates/hand-core/src/operation.rs:62-103 | New is answered at most once per id between acknowledgements |
| `OperationAnswers.ReserveKnown` | crates/hand-core/src/operation.rs:68-76 | a known operation answers Existing to its own request and IdempotencyConflict to any other, and stays |
| `OperationAnswers.ReserveFresh` | crates/hand-core/src/operation.rs:77-103 | a new operation is recorded exactly when it asks for bytes, a record is free and its bytes fit beside all retained and reserved ones |
| `OperationAnswers.MarkRunningAnswers` | crates/hand-core/src/operation.rs:105-118 | only the state of a pending record changes |
| `OperationAnswers.CancelAnswers` | crates/hand-core/src/operation.rs:160-171 | a pending record is flagged and told whether this is the first request; a terminal one stays |
| `OperationAnswers.CompleteTerminal` | crates/hand-core/src/operation.rs:127-137 | a terminal operation answers Done to its very result and TerminalConflict to any other, and stays |
| `OperationAnswers.CompletePending` | crates/hand-core/src/operation.rs:138-157 | a pending operation takes a result that fits its reservation, which is returned, and refuses any other unchanged |
| `OperationAnswers.AcknowledgeAnswers` | crates/hand-core/src/operation.rs:179-214 | an operation is forgotten exactly on an acknowledgement of its own terminal digest; each other one is its own refusal |
| `OperationAnswers.OneRequestPerOperation` | crates/hand-core/src/operation.rs:62-103 | over every history, until it is acknowledged, an operation answers Existing to the request that created it and a conflict to every other |
| `OperationAnswers.CancelledFirstOnce` | crates/hand-core/src/operation.rs:160-171 | over every history, at most one cancellation until the acknowledgement is told that it is first |
| `TokenBuckets.TokenBucket.ReserveSlot` | crates/hand-lambda/src/control.rs:235-244 | the delay and the next theoretical arrival |
| `TokenBuckets.AdmissionsAreSpaced` | crates/hand-lambda/src/control.rs:235-244 | for any arrivals, any two admissions are spaced by the calls between them less the burst |
| `TokenBuckets.WindowBound` | crates/hand-lambda/src/control.rs:219-251 | in any window, for any arrivals, n admissions span at least n minus burst intervals |
| `TokenBuckets.DelayIsTight` | crates/hand-lambda/src/control.rs:235-244 | a delayed call waits exactly until the spacing to some earlier admission is right |
| `TokenBuckets.AdmissionsInOrder` | crates/hand-lambda/src/control.rs:235-244 | ordered arrivals are admitted in order |
| `TokenBuckets.SimultaneousWait` | crates/hand-lambda/src/control.rs:235-251 | of simultaneous calls the first burst wait nothing, each further one an interval more |
| `ClientHello.HelloParses` | crates/hand-egress-gateway/src/tls.rs:63-127 | every well-formed hello with one host name and no encrypted hello parses to its normalized host |
| `ClientHello.AcceptedIsHello` | crates/hand-egress-gateway/src/tls.rs:63-127 | every accepted byte string is exactly the serialization of such a hello |
| `HelloRefusals.HelloIsRefused` | crates/hand-egress-gateway/src/tls.rs:87-127 | the first extension that gives a reason decides: an encrypted hello, a second or bad server_name, or that there was none |
| `HelloRefusals.HelloIsJudged` | crates/hand-egress-gateway/src/tls.rs:63-127 | every serialized hello has such an extension or is accepted with the host it names |
| `HelloRefusals.NameListVerdict` | crates/hand-egress-gateway/src/tls.rs:106-127 | a name list is refused for its second host, for one that does not normalize, or for naming none |
| `HelloRefusals.NextRecordIsRefused` | crates/hand-egress-gateway/src/tls.rs:15-62 | in the middle of a message another content type, an empty or oversized record and an end of input are each their own refusal |
| `HelloRefusals.FirstBytesDecide` | crates/hand-egress-gateway/src/tls.rs:29-41 | another handshake type and an announced size past the bound are refused as soon as four bytes are there |
| `HelloReader.CutDoesNotMatter` | crates/hand-egress-gateway/src/tls.rs:15-46 | however a message is cut into nonempty records within the bound, the loop reads exactly those records and that message |
| `HelloReader.HostIsIndependentOfRecords` | crates/hand-egress-gateway/src/tls.rs:10-49 | the verdict depends on the message alone |
| `HelloReader.ReadIsFraming` | crates/hand-egress-gateway/src/tls.rs:15-46 | only such framings are read, and the forwarded bytes are exactly the consumed prefix |
| `HelloReader.AcceptedIsFramedHello` | crates/hand-egress-gateway/src/tls.rs:10-49 | what is accepted is a bounded framing of one hello whose only host name normalizes to the answer |
| `TlsCursors.Cursor.Take` | crates/hand-egress-gateway/src/tls.rs:143-151 | takes exactly the next bytes, or nothing when they are missing |
| `TlsCursors.ParseSniData` | crates/hand-egress-gateway/src/tls.rs:106-127 | the server_name loop computes the specified parse |
| `TlsCursors.ParseExtensionList` | crates/hand-egress-gateway/src/tls.rs:87-104 | the extension loop computes the specified parse |
| `TlsCursors.ParseClientHello` | crates/hand-egress-gateway/src/tls.rs:63-104 | the hello parser computes the specified parse |
| `TlsCursors.ReadMessage` | crates/hand-egress-gateway/src/tls.rs:15-46 | the record loop ends by its bound alone and has consumed exactly what it forwards |
| `TlsCursors.ReadClientHello` | crates/hand-egress-gateway/src/tls.rs:10-49 | reading and parsing together |
| `Paging.CutPage` | crates/hand-core/src/page.rs:17-24 | keeps the limit and puts the cursor on the last kept item |
| `Paging.FetchPage` | crates/hand-core/src/files.rs:118-135 | one scan past the cursor, cut to a page |
| `Paging.FollowsAreOne` | crates/hand-core/src/page.rs:17-24 | following next_cursor over an unchanged store ends, and each page continues what the previous one left |
| `Paging.FollowIsExactIff` | crates/hand-core/src/page.rs:17-24 | over a scan of distinct items it yields every item exactly once in order exactly when every page boundary separates the scan |
| `Paging.SinglePagesIff` | crates/hand-core/src/page.rs:17-24 | for pages of one, exactly when the identities strictly increase |
| `LiveFilePaging.ListRootIsExact` | crates/hand-core/src/materialization/memory.rs:274-293 | list_root yields exactly the rows of the root, each once, in key order |
| `LiveFilePaging.ListIsExactIff` | crates/hand-core/src/files.rs:119-135 | for any sorted names, exactly when list pages completely |
| `LiveFilePaging.ListIsAlwaysExactIff` | crates/hand-core/src/files.rs:119-135 | it does for every page size exactly when the names stay in order with backslashes rewritten, as plain names do |
| `LiveFilePaging.BackslashNameIsSkipped` | crates/hand-core/src/files.rs:119-135 | with pages of one, `a\b` is never listed beside `aA` |
| `LiveFilePaging.SearchIsExactIff` | crates/hand-core/src/files.rs:392-407 | for any sorted paths, exactly when find and grep page completely |
| `LiveFilePaging.SearchIsAlwaysExactIff` | crates/hand-core/src/files.rs:392-407 | they page completely for every page size exactly when the sorted matches stay in order as strings; with plain names, exactly when no match below a directory precedes one whose name continues the directory's with a byte before the slash |
| `LiveFilePaging.BackslashIsSkipped` | crates/hand-core/src/files.rs:499-509 | with pages of one, a file named `a\b` is never returned beside `a/b` |
| `LiveFilePaging.SearchIsExactAboveSlash` | crates/hand-core/src/files.rs:392-407 | they do wherever name bytes stay above the slash, for every page size |
| `LiveFilePaging.DotIsSkipped` | crates/hand-core/src/files.rs:392-407 | with pages of two, `a`, `a/b`, `a.txt` never yields `a.txt` |

## Left out

- AWS wire formats, KMS, HTTP and WebSocket transport: only the atomic conditional write or provider reply they produce is modelled.
- The DynamoDB attribute names in `parse_record`: rows are values, but the validation that ends it is modelled. A listing is modelled row by row, so one invalid row does not hide its neighbours.
- Hashing, canonical JSON, IDNA, UTF-8 and base64: injective values or function parameters; capability canonicalization with them.
- Mutex poisoning, integer overflow of access clocks and of `Instant`, and the drop order inside one call.
- Concurrent readers racing on access stamps: cache operations are sequential.
- The directory walk and the byte bounds of `search`, the glob and regex matchers, and the growing byte total of `grep`: the scan is the sorted sequence of matching paths.
- `terminate_target`, `confirm_provider_termination` and `record_gone` as methods: they are events of the protocol, in the order confirm, then refund.
- Guest submit, stdin and arming flows, process spawning, seccomp, images and canaries.
- `BindingIdentityRegistry`, `RootQuotas`, `ByteBudget`, status projection and error tables: one registers binding identities, two count roots and bytes against a limit, the rest map values to messages; none takes part in a protocol above.
- FileEffectDurability.CompletedIsReplayed: holds for durable answers only, which `CompletedIsDurableIff` characterizes; for the others `UndurableIsLost` refutes it.
- AckDurability.RetainedForever: holds for durable answers only, which `RetainedIsDurableIff` characterizes; for the others `UndurableIsLost` refutes it.
