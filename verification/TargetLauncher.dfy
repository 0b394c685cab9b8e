/** Sealed provider launches: what is sealed, when a lease may still dispatch it, and the request a purge
    uses to reconcile a row (crates/hand-brain-aws/src/launcher.rs). */
module TargetLauncher {
  import opened Wrappers
  import opened TargetRecords

  /** The last instant at which a lease may dispatch, measured from the reservation. */
  function DispatchDeadline(lease: Lease): Outcome<nat> {
    if lease.targetExpiresAtMs < TARGET_LIFETIME_MS then Err(InvalidLease)
    else
      var deadline := lease.targetExpiresAtMs - TARGET_LIFETIME_MS + TARGET_DISPATCH_WINDOW_MS;
      if deadline > U64_MAX then Err(InvalidLease)
      else if deadline >= lease.leaseExpiresAtMs || lease.leaseExpiresAtMs - deadline < TARGET_LIFETIME_MS then Err(InvalidLease)
      else Ok(deadline)
  }

  /** The request sealed for a lease before it is reserved. Policy digests are those of the spec. */
  function Seal(lease: Lease, controlToken: string): Outcome<SealedLaunch> {
    var deadline :- DispatchDeadline(lease);
    Ok(SealedLaunch(
         lease.spec.imageIdentity, deadline, lease.reservationId, lease.generation, lease.targetExpiresAtMs,
         lease.key.rootId, lease.spec.connector, lease.spec.resourceClass,
         lease.spec.resourcePolicyDigest, lease.spec.networkPolicyDigest, controlToken, true))
  }

  /** The seal is the one this lease would make: the comparison every dispatch starts with. */
  predicate SealMatches(launch: SealedLaunch, lease: Lease) {
    && launch.insideBoundary
    && launch.generation == lease.generation
    && launch.expiresAtMs == lease.targetExpiresAtMs
    && launch.rootId == lease.key.rootId
    && launch.connector == lease.spec.connector
    && launch.resourceClass == lease.spec.resourceClass
    && launch.imageIdentity == lease.spec.imageIdentity
    && DispatchDeadline(lease) == Ok(launch.dispatchDeadlineMs)
    && launch.resourceDigest == lease.spec.resourcePolicyDigest
    && launch.networkDigest == lease.spec.networkPolicyDigest
    && launch.clientToken == lease.reservationId
  }

  // A lease decodes its own seal, and any lease that decodes a seal was reserved at the sealed instant.
  lemma SealBindsTheReservation(lease: Lease, other: Lease, controlToken: string)
    requires Seal(lease, controlToken).Ok?
    ensures SealMatches(Seal(lease, controlToken).value, lease)
    ensures SealMatches(Seal(lease, controlToken).value, other) ==>
              other.targetExpiresAtMs == lease.targetExpiresAtMs && other.reservationId == lease.reservationId
              && other.generation == lease.generation && DispatchDeadline(other) == DispatchDeadline(lease)
  {
  }

  /** Whether a decoded launch may be sent now; a refusal is proof of no target only on a first attempt. */
  function Admit(lease: Lease, dispatchDeadlineMs: nat, nowMs: nat): Option<LaunchReply> {
    if nowMs <= dispatchDeadlineMs then None
    else if lease.recoveryAttempt then Some(OutcomeUnknown)
    else Some(KnownNoTarget)
  }

  /** The request with which a purge reconciles one existing row. It reuses the reservation id. */
  function RecoveryRequest(lease: Lease, attemptId: string, nowMs: nat): AcquireTarget {
    AcquireTarget(
      lease.key, lease.spec, lease.reservationId, lease.generation, lease.launchRequest, attemptId,
      TARGET_ATTEMPT_MS, true, nowMs, TARGET_LEASE_MS, TARGET_LIFETIME_MS, false)
  }
}
