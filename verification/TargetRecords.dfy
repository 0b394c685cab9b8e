/** Durable target rows, leases and the requests that create them
    (crates/hand-core/src/materialization/record.rs, spec.rs and port.rs). */
module TargetRecords {
  import opened Wrappers

  const U64_MAX: nat := 0xFFFF_FFFF_FFFF_FFFF
  const MAX_IDENTIFIER_BYTES: nat := 128
  const MAX_REASON_BYTES: nat := 512
  const MAX_LAUNCH_REQUEST_BYTES: nat := 65536
  const MAX_MATERIALIZATION_POLL_MS: nat := 1000
  const DEFAULT_TARGET_KEY: string := "target:default"
  const ADDITIONAL_PREFIX: string := "target:additional:"

  /** Provider lifetime, uncertainty lease, attempt and dispatch-window durations. */
  const TARGET_LIFETIME_MS: nat := 28_800 * 1000
  const TARGET_LEASE_MS: nat := 28_800 * 1000 + 5 * 60 * 1000
  const TARGET_ATTEMPT_MS: nat := 30_000
  const TARGET_DISPATCH_WINDOW_MS: nat := 4 * 60 * 1000

  datatype Failure =
    | InvalidIdentity | InvalidLease | InvalidLaunchRequest | InvalidReplacement
    | SpecConflict | Pending(retryAfterMs: nat) | Gone | Terminated | Capacity
    | LaunchRejected | LaunchRetryable | LaunchOutcomeUnknown
    | ReservationLost | Storage | Corrupt

  type Outcome<+T> = Result<T, Failure>

  datatype TargetKey = TargetKey(rootId: string, targetKey: string)

  datatype ConnectorClass = NoConnector | Public | Allowlist

  datatype TargetSpec = TargetSpec(
    connector: ConnectorClass,
    imageIdentity: string,
    resourceClass: string,
    materializedMib: nat,
    resourcePolicyDigest: string,
    networkPolicyDigest: string)

  /** The canonical digest of a spec. The only property of the hash in use is injectivity. */
  datatype SpecDigest = SpecDigest(of: TargetSpec)

  /** The decoded part of a durable provider request that the launcher compares with a lease.
      `insideBoundary` stands for the checks that do not involve the lease: contract digest, no
      canary hook, a non-empty image identifier and the exact RunMicrovm bounds. */
  datatype SealedLaunch = SealedLaunch(
    imageIdentity: string,
    dispatchDeadlineMs: nat,
    clientToken: string,
    generation: string,
    expiresAtMs: nat,
    rootId: string,
    connector: ConnectorClass,
    resourceClass: string,
    resourceDigest: string,
    networkDigest: string,
    controlToken: string,
    insideBoundary: bool)

  /** Durable launch text: `bytes` long, decodable or not. */
  datatype LaunchRequest =
    | Sealed(launch: SealedLaunch, bytes: nat)
    | Undecodable(bytes: nat)

  datatype Disposition = Lost | Terminated

  /** A provider VM identity. A client token creates at most one VM, so the VM carries its token. */
  datatype TargetRef = TargetRef(token: string)

  datatype TargetState =
    | Materializing(
        reservationId: string,
        launchRequest: LaunchRequest,
        attemptId: string,
        attemptExpiresAtMs: nat,
        targetExpiresAtMs: nat,
        leaseExpiresAtMs: nat)
    | Installed(targetRef: TargetRef, controlToken: string, installedAtMs: nat, expiresAtMs: nat)
    | Closed(disposition: Disposition, reason: string, atMs: nat)

  datatype TargetRecord = TargetRecord(
    key: TargetKey,
    spec: TargetSpec,
    specDigest: SpecDigest,
    generation: string,
    state: TargetState,
    updatedAtMs: nat)

  datatype Lease = Lease(
    key: TargetKey,
    spec: TargetSpec,
    specDigest: SpecDigest,
    reservationId: string,
    generation: string,
    launchRequest: LaunchRequest,
    attemptId: string,
    attemptExpiresAtMs: nat,
    targetExpiresAtMs: nat,
    leaseExpiresAtMs: nat,
    recoveryAttempt: bool)

  datatype InstalledTarget = InstalledTarget(
    key: TargetKey,
    spec: TargetSpec,
    specDigest: SpecDigest,
    targetRef: TargetRef,
    generation: string,
    controlToken: string,
    installedAtMs: nat,
    expiresAtMs: nat)

  datatype PhysicalTarget = PhysicalTarget(targetRef: TargetRef, generation: string, controlToken: string)

  datatype AcquireTarget = AcquireTarget(
    key: TargetKey,
    spec: TargetSpec,
    reservationId: string,
    generation: string,
    launchRequest: LaunchRequest,
    attemptId: string,
    attemptDurationMs: nat,
    generationIsFenced: bool,
    nowMs: nat,
    leaseDurationMs: nat,
    targetLifetimeMs: nat,
    replaceAfterLoss: bool)

  datatype AcquireOutcome =
    | Acquired(lease: Lease)
    | StillPending(generation: string, retryAfterMs: nat)
    | AlreadyInstalled(target: InstalledTarget)
    | IsGone
    | IsTerminated

  datatype InstallOutcome = InstallDone(target: InstalledTarget) | InstallLost

  datatype LaunchReply =
    | Launched(target: PhysicalTarget)
    | NoCapacity
    | KnownNoTarget
    | RetryableKnownNoTarget
    | OutcomeUnknown

  // ---- Identifier grammar (crates/hand-policy/src/identity.rs) ----

  predicate Alphanumeric(c: char) {
    '0' <= c <= '9' || 'a' <= c <= 'z' || 'A' <= c <= 'Z'
  }

  predicate Identifier(s: string) {
    && 0 < |s| <= MAX_IDENTIFIER_BYTES
    && Alphanumeric(s[0])
    && forall i :: 0 < i < |s| ==> Alphanumeric(s[i]) || s[i] in ['.', '_', ':', '-']
  }

  predicate ValidKey(key: TargetKey) {
    && Identifier(key.rootId)
    && (key.targetKey == DEFAULT_TARGET_KEY
        || (ADDITIONAL_PREFIX <= key.targetKey && Identifier(key.targetKey[|ADDITIONAL_PREFIX|..])))
  }

  predicate IsDefault(key: TargetKey) {
    key.targetKey == DEFAULT_TARGET_KEY
  }

  predicate ValidLaunchRequest(q: LaunchRequest) {
    0 < q.bytes <= MAX_LAUNCH_REQUEST_BYTES
  }

  predicate ValidReason(reason: string) {
    0 < |reason| <= MAX_REASON_BYTES
  }

  // ---- Row validation ----

  /** What `validate` answers for a row; None is success. */
  function RecordError(r: TargetRecord): Option<Failure> {
    if !ValidKey(r.key) then Some(InvalidIdentity)
    else if SpecDigest(r.spec) != r.specDigest then Some(SpecConflict)
    else if !Identifier(r.generation) then Some(InvalidIdentity)
    else
      match r.state
      case Materializing(reservation, launch, attempt, attemptExpires, targetExpires, leaseExpires) =>
        if !Identifier(reservation) then Some(InvalidIdentity)
        else if !ValidLaunchRequest(launch) then Some(InvalidLaunchRequest)
        else if !Identifier(attempt) then Some(InvalidIdentity)
        else if targetExpires == 0 || targetExpires >= leaseExpires || targetExpires < r.updatedAtMs
                || attemptExpires <= r.updatedAtMs || attemptExpires > leaseExpires then Some(InvalidLease)
        else None
      case Installed(ref, _, installedAt, expiresAt) =>
        if !Identifier(ref.token) then Some(InvalidIdentity)
        else if expiresAt == 0 || expiresAt < installedAt then Some(InvalidLease)
        else None
      case Closed(_, reason, _) =>
        if !ValidReason(reason) then Some(InvalidIdentity) else None
  }

  predicate ValidRecord(r: TargetRecord) {
    RecordError(r) == None
  }

  // ---- Requests and leases ----

  function RequestError(q: AcquireTarget): Option<Failure> {
    if !ValidKey(q.key) || !Identifier(q.reservationId) || !Identifier(q.generation) then Some(InvalidIdentity)
    else if !ValidLaunchRequest(q.launchRequest) then Some(InvalidLaunchRequest)
    else if !Identifier(q.attemptId) then Some(InvalidIdentity)
    else if q.targetLifetimeMs == 0 || q.leaseDurationMs <= q.targetLifetimeMs then Some(InvalidLease)
    else if q.attemptDurationMs == 0 || q.attemptDurationMs >= q.leaseDurationMs then Some(InvalidLease)
    else if q.replaceAfterLoss && !IsDefault(q.key) then Some(InvalidReplacement)
    else None
  }

  /** The lease a first attempt would hold. Every sum is a checked 64-bit addition. */
  function FirstLease(q: AcquireTarget): Outcome<Lease> {
    if RequestError(q).Some? then Err(RequestError(q).value)
    else if q.nowMs + q.leaseDurationMs > U64_MAX then Err(InvalidLease)
    else if q.nowMs + q.targetLifetimeMs > U64_MAX then Err(InvalidLease)
    else if q.nowMs + q.attemptDurationMs > U64_MAX then Err(InvalidLease)
    else Ok(Lease(
              q.key, q.spec, SpecDigest(q.spec), q.reservationId, q.generation, q.launchRequest, q.attemptId,
              q.nowMs + q.attemptDurationMs, q.nowMs + q.targetLifetimeMs, q.nowMs + q.leaseDurationMs, false))
  }

  function RecordFromLease(lease: Lease, nowMs: nat): TargetRecord {
    TargetRecord(
      lease.key, lease.spec, lease.specDigest, lease.generation,
      Materializing(
        lease.reservationId, lease.launchRequest, lease.attemptId,
        lease.attemptExpiresAtMs, lease.targetExpiresAtMs, lease.leaseExpiresAtMs),
      nowMs)
  }

  /** The lease rebuilt from a row: always a recovery attempt. */
  function RecoveryLease(r: TargetRecord): (lease: Lease)
    requires r.state.Materializing?
  {
    Lease(
      r.key, r.spec, r.specDigest, r.state.reservationId, r.generation, r.state.launchRequest, r.state.attemptId,
      r.state.attemptExpiresAtMs, r.state.targetExpiresAtMs, r.state.leaseExpiresAtMs, true)
  }

  function InstalledView(r: TargetRecord): InstalledTarget
    requires r.state.Installed?
  {
    InstalledTarget(
      r.key, r.spec, r.specDigest, r.state.targetRef, r.generation,
      r.state.controlToken, r.state.installedAtMs, r.state.expiresAtMs)
  }

  function Min(a: nat, b: nat): nat { if a <= b then a else b }

  /** How long a caller waits before it polls a materialization that another worker owns. */
  function PollAfter(expiresAtMs: nat, nowMs: nat): (ms: nat)
    ensures 1 <= ms <= MAX_MATERIALIZATION_POLL_MS
    ensures nowMs < expiresAtMs ==> nowMs + ms <= expiresAtMs
  {
    var left := if expiresAtMs <= nowMs then 0 else expiresAtMs - nowMs;
    if left < 1 then 1 else Min(left, MAX_MATERIALIZATION_POLL_MS)
  }

  /** The row after a takeover of an expired attempt: only the attempt and the update time change. */
  function TakenOver(r: TargetRecord, attemptId: string, attemptExpiresAtMs: nat, nowMs: nat): TargetRecord
    requires r.state.Materializing?
  {
    r.(state := r.state.(attemptId := attemptId, attemptExpiresAtMs := attemptExpiresAtMs), updatedAtMs := nowMs)
  }

  // ---- Row validity across the transitions that write rows ----

  // Exactly which requests are accepted: named, with a launch, and with an attempt and a target that end before the
  // lease; only a default target may be replaced after a loss.
  lemma RequestIsAcceptedIff(q: AcquireTarget)
    ensures RequestError(q).None? <==>
              && ValidKey(q.key) && Identifier(q.reservationId) && Identifier(q.generation) && Identifier(q.attemptId)
              && 0 < q.launchRequest.bytes <= MAX_LAUNCH_REQUEST_BYTES
              && 0 < q.targetLifetimeMs < q.leaseDurationMs && 0 < q.attemptDurationMs < q.leaseDurationMs
              && (q.replaceAfterLoss ==> q.key.targetKey == DEFAULT_TARGET_KEY)
    ensures RequestError(q).Some? ==> RequestError(q).value in {InvalidIdentity, InvalidLaunchRequest, InvalidLease, InvalidReplacement}
    ensures RequestError(q) == Some(InvalidReplacement) ==> q.replaceAfterLoss && q.key.targetKey != DEFAULT_TARGET_KEY
  {
    hide ValidKey, Identifier;
  }

  // Exactly which rows pass validation, by state.
  lemma RecordIsValidIff(r: TargetRecord)
    ensures ValidRecord(r) <==>
              && ValidKey(r.key) && Identifier(r.generation) && r.specDigest.of == r.spec
              && (r.state.Materializing? ==>
                    && Identifier(r.state.reservationId) && Identifier(r.state.attemptId)
                    && 0 < r.state.launchRequest.bytes <= MAX_LAUNCH_REQUEST_BYTES
                    && 0 < r.state.targetExpiresAtMs && r.updatedAtMs <= r.state.targetExpiresAtMs < r.state.leaseExpiresAtMs
                    && r.updatedAtMs < r.state.attemptExpiresAtMs <= r.state.leaseExpiresAtMs)
              && (r.state.Installed? ==>
                    && Identifier(r.state.targetRef.token) && 0 < r.state.expiresAtMs && r.state.installedAtMs <= r.state.expiresAtMs)
              && (r.state.Closed? ==> 0 < |r.state.reason| <= MAX_REASON_BYTES)
    ensures RecordError(r).Some? ==> RecordError(r).value in {InvalidIdentity, SpecConflict, InvalidLaunchRequest, InvalidLease}
  {
    hide ValidKey, Identifier;
  }

  // A request that is accepted builds a row that passes validation, with both deadlines in the future.
  lemma FirstRowIsValid(q: AcquireTarget)
    requires FirstLease(q).Ok?
    ensures ValidRecord(RecordFromLease(FirstLease(q).value, q.nowMs))
    ensures q.nowMs < FirstLease(q).value.targetExpiresAtMs < FirstLease(q).value.leaseExpiresAtMs
  {
  }

  // A takeover of a valid row stays valid, however close the deadlines are, exactly when the taker's
  // clock has not passed the target deadline; the lease deadline then caps the attempt.
  lemma TakeoverIsValidIff(r: TargetRecord, attemptId: string, durationMs: nat, nowMs: nat)
    requires ValidRecord(r) && r.state.Materializing? && Identifier(attemptId) && durationMs > 0
    ensures ValidRecord(TakenOver(r, attemptId, Min(nowMs + durationMs, r.state.leaseExpiresAtMs), nowMs))
            <==> nowMs <= r.state.targetExpiresAtMs
  {
  }

  // An install keeps a valid row valid exactly when it happens by the target deadline. `ensure` installs
  // at its acquire-time clock, which is before that deadline; purge reads the clock again and may be late.
  lemma InstallIsValidIff(r: TargetRecord, target: PhysicalTarget, expiresAtMs: nat, nowMs: nat)
    requires ValidRecord(r) && Identifier(target.targetRef.token) && Identifier(target.generation) && expiresAtMs > 0
    ensures ValidRecord(r.(state := Installed(target.targetRef, target.controlToken, nowMs, expiresAtMs),
                           generation := target.generation, updatedAtMs := nowMs))
            <==> nowMs <= expiresAtMs
  {
  }
}
