/** What the sealed launch, the dispatch window and the purge request promise, field by field
    (crates/hand-brain-aws/src/launcher.rs:121-184, 252-287). */
module LauncherContracts {
  import opened Wrappers
  import opened TargetRecords
  import opened MemoryRegistry
  import opened MemoryContracts
  import opened TargetMaterializer
  import opened TargetLauncher

  // The dispatch window opens at the reservation and closes a full target lifetime before the lease does.
  lemma DispatchWindow(lease: Lease)
    ensures DispatchDeadline(lease).Ok? <==>
              && TARGET_LIFETIME_MS <= lease.targetExpiresAtMs
              && lease.targetExpiresAtMs - TARGET_LIFETIME_MS + TARGET_DISPATCH_WINDOW_MS <= U64_MAX
              && lease.targetExpiresAtMs + TARGET_DISPATCH_WINDOW_MS <= lease.leaseExpiresAtMs
    ensures DispatchDeadline(lease).Ok? ==>
              DispatchDeadline(lease).value + TARGET_LIFETIME_MS == lease.targetExpiresAtMs + TARGET_DISPATCH_WINDOW_MS
    ensures DispatchDeadline(lease).Err? ==> DispatchDeadline(lease).error == InvalidLease
  {
  }

  /** Both leases ask the provider for the same thing. */
  predicate SameLaunch(a: Lease, b: Lease) {
    && a.reservationId == b.reservationId && a.generation == b.generation && a.targetExpiresAtMs == b.targetExpiresAtMs
    && a.key.rootId == b.key.rootId && a.spec.connector == b.spec.connector && a.spec.resourceClass == b.spec.resourceClass
    && a.spec.imageIdentity == b.spec.imageIdentity && a.spec.resourcePolicyDigest == b.spec.resourcePolicyDigest
    && a.spec.networkPolicyDigest == b.spec.networkPolicyDigest
  }

  // A lease accepts the seal of another exactly when both ask for the same launch and the window still lies within it.
  lemma SealMatchesIff(lease: Lease, other: Lease, controlToken: string)
    requires Seal(lease, controlToken).Ok?
    ensures SealMatches(Seal(lease, controlToken).value, other) <==>
              SameLaunch(lease, other) && lease.targetExpiresAtMs + TARGET_DISPATCH_WINDOW_MS <= other.leaseExpiresAtMs
  {
    DispatchWindow(lease);
    DispatchWindow(other);
    hide DispatchDeadline;
  }

  // Two leases that accept one sealed request agree on everything the provider sees, and on the instant it may be sent.
  lemma AcceptedSealsAgree(launch: SealedLaunch, a: Lease, b: Lease)
    requires SealMatches(launch, a) && SealMatches(launch, b)
    ensures SameLaunch(a, b) && DispatchDeadline(a) == DispatchDeadline(b) && launch.insideBoundary
  {
    hide DispatchDeadline;
  }

  // A launch is sent exactly within its window; past it a first attempt knows that there is no target and a recovery
  // does not, so that only the first attempt gives its reservation back.
  lemma LateDispatch(s: Registry, q: AcquireTarget, deadlineMs: nat, nowMs: nat)
    requires Accounted(s) && HandsOut(s, q)
    ensures var lease := MemoryRegistry.Acquire(s, q).0.value.lease;
            var refused := Admit(lease, deadlineMs, nowMs);
            && (refused.None? <==> nowMs <= deadlineMs)
            && (refused.Some? && lease.recoveryAttempt ==>
                  EnsureStep(s, q, refused.value) == (Ensured(Err(LaunchOutcomeUnknown), None), MemoryRegistry.Acquire(s, q).1))
            && (refused.Some? && !lease.recoveryAttempt ==>
                  && EnsureStep(s, q, refused.value).0 == Ensured(Err(LaunchRejected), None)
                  && q.key !in EnsureStep(s, q, refused.value).1.rows)
  {
    hide MemoryRegistry.Acquire, EnsureStep, Accounted;
    var lease := MemoryRegistry.Acquire(s, q).0.value.lease;
    if lease.recoveryAttempt {
      UnknownOutcomeKeepsTheReservation(s, q);
    } else {
      FirstChargeIsCounted(s, q);
      RefusedFirstAttempt(s, q, KnownNoTarget);
      FirstAttemptIsRefundedIff(s, q, KnownNoTarget);
    }
  }

  /** The row is the reservation, of the same generation and launch, that `seen` is. */
  predicate SameReservation(r: TargetRecord, seen: TargetRecord)
    requires seen.state.Materializing?
  {
    && r.state.Materializing? && r.state.reservationId == seen.state.reservationId && r.generation == seen.generation
    && r.state.launchRequest == seen.state.launchRequest && r.key == seen.key && r.spec == seen.spec
  }

  // A purge reconciles the row it read. It never meets a conflict on that row, never replaces a closed target, and
  // whatever it writes is the same reservation of the same generation and launch.
  lemma PurgeKeepsTheGeneration(s: Registry, seen: TargetRecord, attemptId: string, nowMs: nat)
    requires ValidRecord(seen) && seen.state.Materializing? && Identifier(attemptId) && nowMs + TARGET_LEASE_MS <= U64_MAX
    ensures var q := RecoveryRequest(RecoveryLease(seen), attemptId, nowMs);
            var (answer, t) := MemoryRegistry.Acquire(s, q);
            && q.key == seen.key && FirstLease(q).Ok? && OnlyRow(s, t, seen.key)
            && (seen.key in s.rows && s.rows[seen.key] == seen ==> answer.Ok?)
            && (seen.key in s.rows && s.rows[seen.key].state.Closed? ==> t == s && answer != Ok(Acquired(FirstLease(q).value)))
            && (t.rows != s.rows && (seen.key in s.rows && s.rows[seen.key].state.Materializing? ==> SameReservation(s.rows[seen.key], seen)) ==>
                  seen.key in t.rows && SameReservation(t.rows[seen.key], seen))
  {
    var q := RecoveryRequest(RecoveryLease(seen), attemptId, nowMs);
    assert FirstLease(q).Ok? by { hide ValidKey, Identifier; }
    LeaseOfRequest(q);
    assert OnlyRow(s, MemoryRegistry.Acquire(s, q).1, q.key) by { ChangesOneRow(s, q); }
    hide FirstLease, ValidKey, Identifier, OnlyRow;
    if seen.key in s.rows && s.rows[seen.key].state.Materializing? && RecordError(s.rows[seen.key]).None? {
      TakeoverIsValidIff(s.rows[seen.key], attemptId, TARGET_ATTEMPT_MS, nowMs);
    }
  }

  lemma ChangesOneRow(s: Registry, q: AcquireTarget)
    ensures OnlyRow(s, MemoryRegistry.Acquire(s, q).1, q.key)
  {
    hide FirstLease, RecordError;
    var t := MemoryRegistry.Acquire(s, q).1;
    assert t.rows == s.rows || (q.key in t.rows && t.rows == s.rows[q.key := t.rows[q.key]]);
  }
}
