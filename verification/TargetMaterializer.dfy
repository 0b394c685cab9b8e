/** The reservation, launch, install orchestration over the registry
    (crates/hand-core/src/materialization/materializer.rs). The launcher's reply is an input. */
module TargetMaterializer {
  import opened Wrappers
  import opened TargetRecords
  import opened MemoryRegistry
  import opened MemoryContracts

  /** What the caller gets, and the VM it asked the provider to destroy because the install was lost. */
  datatype Ensured = Ensured(result: Outcome<InstalledTarget>, stale: Option<TargetRef>)

  function Refused(reply: LaunchReply, recovery: bool): Failure
    requires !reply.Launched?
  {
    match reply
    case NoCapacity => Capacity
    case KnownNoTarget => if recovery then LaunchOutcomeUnknown else LaunchRejected
    case RetryableKnownNoTarget => LaunchRetryable
    case OutcomeUnknown => LaunchOutcomeUnknown
  }

  function EnsureStep(s: Registry, q: AcquireTarget, reply: LaunchReply): (Ensured, Registry) {
    var (got, held) := Acquire(s, q);
    if got.Err? then (Ensured(Err(got.error), None), held)
    else
      match got.value
      case AlreadyInstalled(target) => (Ensured(Ok(target), None), held)
      case StillPending(_, retry) => (Ensured(Err(Failure.Pending(retry)), None), held)
      case IsGone => (Ensured(Err(Failure.Gone), None), held)
      case IsTerminated => (Ensured(Err(Failure.Terminated), None), held)
      case Acquired(lease) =>
        if reply.Launched? then
          var (installed, after) := Install(held, lease, reply.target, q.nowMs);
          if installed.Err? then (Ensured(Err(installed.error), None), after)
          else
            match installed.value
            case InstallDone(target) => (Ensured(Ok(target), None), after)
            case InstallLost => (Ensured(Err(ReservationLost), Some(reply.target.targetRef)), after)
        else if reply.OutcomeUnknown? || lease.recoveryAttempt then
          (Ensured(Err(Refused(reply, lease.recoveryAttempt)), None), held)
        else
          var (released, after) := ExpireLease(held, lease);
          (Ensured(if released.Err? then Err(released.error) else Err(Refused(reply, false)), None), after)
  }

  method Ensure(registry: MemoryTargetRegistry, q: AcquireTarget, reply: LaunchReply)
    returns (out: Ensured)
    modifies registry
    ensures (out, registry.State()) == EnsureStep(old(registry.State()), q, reply)
  {
    var got := registry.AcquireTarget(q);
    if got.Err? { return Ensured(Err(got.error), None); }
    var lease: Lease;
    match got.value {
      case AlreadyInstalled(target) => return Ensured(Ok(target), None);
      case StillPending(_, retry) => return Ensured(Err(Failure.Pending(retry)), None);
      case IsGone => return Ensured(Err(Failure.Gone), None);
      case IsTerminated => return Ensured(Err(Failure.Terminated), None);
      case Acquired(held) => lease := held;
    }
    match reply {
      case Launched(target) =>
        var installed := registry.InstallTarget(lease, target, q.nowMs);
        if installed.Err? { return Ensured(Err(installed.error), None); }
        match installed.value {
          case InstallDone(done) => return Ensured(Ok(done), None);
          case InstallLost => return Ensured(Err(ReservationLost), Some(target.targetRef));
        }
      case OutcomeUnknown =>
        return Ensured(Err(LaunchOutcomeUnknown), None);
      case NoCapacity =>
        if !lease.recoveryAttempt {
          var released := registry.ExpireTargetLease(lease);
          if released.Err? { return Ensured(Err(released.error), None); }
        }
        return Ensured(Err(Capacity), None);
      case KnownNoTarget =>
        if lease.recoveryAttempt { return Ensured(Err(LaunchOutcomeUnknown), None); }
        var released := registry.ExpireTargetLease(lease);
        if released.Err? { return Ensured(Err(released.error), None); }
        return Ensured(Err(LaunchRejected), None);
      case RetryableKnownNoTarget =>
        if !lease.recoveryAttempt {
          var released := registry.ExpireTargetLease(lease);
          if released.Err? { return Ensured(Err(released.error), None); }
        }
        return Ensured(Err(LaunchRetryable), None);
    }
  }

  predicate NoTargetReply(reply: LaunchReply) {
    reply.NoCapacity? || reply.KnownNoTarget? || reply.RetryableKnownNoTarget?
  }

  // A first launch that the provider rejected leaves no trace: acquire and expire cancel out.
  lemma RejectedFirstLaunchLeavesNoTrace(s: Registry, q: AcquireTarget, reply: LaunchReply)
    requires q.key !in s.rows && NoTargetReply(reply)
    ensures EnsureStep(s, q, reply).1 == s
    ensures EnsureStep(s, q, reply).0.result.Err?
  {
    var (got, held) := Acquire(s, q);
    if got.Ok? {
      assert held.rows - {q.key} == s.rows;
    }
  }

  // No reply refunds a recovered attempt: an earlier worker may have launched under the same token, so every
  // failure keeps the reservation, its deadlines and its charge.
  lemma RecoveryNeverRefunds(s: Registry, q: AcquireTarget, reply: LaunchReply)
    requires Acquire(s, q).0.Ok? && Acquire(s, q).0.value.Acquired? && Acquire(s, q).0.value.lease.recoveryAttempt
    requires !reply.Launched?
    ensures EnsureStep(s, q, reply).0.result.Err?
    ensures EnsureStep(s, q, reply).1.reserved == s.reserved
    ensures q.key in s.rows && q.key in EnsureStep(s, q, reply).1.rows
    ensures var before, after := s.rows[q.key], EnsureStep(s, q, reply).1.rows[q.key];
            && before.state.Materializing? && after.state.Materializing?
            && after == TakenOver(before, q.attemptId, after.state.attemptExpiresAtMs, q.nowMs)
  {
  }

  // A caller that may dispatch effects holds exactly the row that is durably installed.
  lemma EnsuredIsInstalled(s: Registry, q: AcquireTarget, reply: LaunchReply)
    requires WellKeyed(s)
    requires EnsureStep(s, q, reply).0.result.Ok?
    ensures var t := EnsureStep(s, q, reply);
            && q.key in t.1.rows && t.1.rows[q.key].state.Installed?
            && InstalledView(t.1.rows[q.key]) == t.0.result.value
            && t.0.result.value.specDigest == SpecDigest(q.spec)
            && (q.generationIsFenced && reply.Launched? && reply.target.generation == q.generation
                ==> t.0.result.value.generation == q.generation)
  {
    AcquireMovesOneCharge(s, q);
  }

  predicate AllValid(s: Registry) {
    forall k :: k in s.rows ==> ValidRecord(s.rows[k])
  }

  // Acquire keeps every row valid, including a takeover that the lease deadline cuts short; on valid rows
  // the failures inside a takeover do not occur, and a lease is handed out before the target deadline.
  lemma AcquireKeepsRowsValid(s: Registry, q: AcquireTarget)
    requires AllValid(s)
    ensures AllValid(Acquire(s, q).1)
    ensures Acquire(s, q).0.Ok? && Acquire(s, q).0.value.Acquired? ==>
              && q.nowMs < Acquire(s, q).0.value.lease.targetExpiresAtMs
              && q.key in Acquire(s, q).1.rows
              && Acquire(s, q).1.rows[q.key].state.Materializing?
              && RecoveryLease(Acquire(s, q).1.rows[q.key]) == Acquire(s, q).0.value.lease.(recoveryAttempt := true)
  {
    hide ValidKey, Identifier;
    var t := Acquire(s, q).1;
    assert t.rows == s.rows || (q.key in t.rows && t.rows == s.rows[q.key := t.rows[q.key]]);
    if FirstLease(q).Ok? {
      FirstRowIsValid(q);
      if q.key in s.rows && s.rows[q.key].state.Materializing? && s.rows[q.key].state.targetExpiresAtMs > q.nowMs {
        TakeoverIsValidIff(s.rows[q.key], q.attemptId, q.attemptDurationMs, q.nowMs);
      }
    }
  }

  lemma InstallKeepsRowsValid(s: Registry, lease: Lease, target: PhysicalTarget, nowMs: nat)
    requires AllValid(s) && 0 < lease.targetExpiresAtMs && nowMs <= lease.targetExpiresAtMs
    ensures AllValid(Install(s, lease, target, nowMs).1)
  {
    var t := Install(s, lease, target, nowMs).1;
    if t.rows != s.rows {
      InstallIsValidIff(s.rows[lease.key], target, lease.targetExpiresAtMs, nowMs);
      assert t.rows == s.rows[lease.key := t.rows[lease.key]];
    }
  }

  // Where `ensure` can leave the registry: as acquire left it, or after one install or one release.
  lemma EnsureEndsIn(s: Registry, q: AcquireTarget, reply: LaunchReply)
    ensures var t, held := EnsureStep(s, q, reply).1, Acquire(s, q).1;
            || t == held
            || (Acquire(s, q).0.Ok? && Acquire(s, q).0.value.Acquired?
                && (t == ExpireLease(held, Acquire(s, q).0.value.lease).1
                    || (reply.Launched?
                        && t == Install(held, Acquire(s, q).0.value.lease, reply.target, q.nowMs).1)))
  {
  }

  // Every row that `ensure` leaves behind passes validation, because it installs at the acquire-time clock.
  lemma EnsureKeepsRowsValid(s: Registry, q: AcquireTarget, reply: LaunchReply)
    requires AllValid(s)
    ensures AllValid(EnsureStep(s, q, reply).1)
  {
    AcquireKeepsRowsValid(s, q);
    EnsureEndsIn(s, q, reply);
    var (got, held) := Acquire(s, q);
    if got.Ok? && got.value.Acquired? {
      if reply.Launched? { InstallKeepsRowsValid(held, got.value.lease, reply.target, q.nowMs); }
      ReleaseKeepsRowsValid(held, got.value.lease);
    }
  }

  lemma ReleaseKeepsRowsValid(s: Registry, lease: Lease)
    requires AllValid(s)
    ensures AllValid(ExpireLease(s, lease).1)
  {
  }

  // ---- The answer and the registry after `ensure`, reply by reply ----

  /** Acquire hands this request a lease. */
  predicate HandsOut(s: Registry, q: AcquireTarget) {
    Acquire(s, q).0.Ok? && Acquire(s, q).0.value.Acquired?
  }

  // Without a lease nothing is launched: the reply does not matter, and the registry is as acquire left it.
  lemma NoLeaseNoLaunch(s: Registry, q: AcquireTarget, reply: LaunchReply)
    requires !HandsOut(s, q)
    ensures EnsureStep(s, q, reply).1 == Acquire(s, q).1 && EnsureStep(s, q, reply).0.stale == None
    ensures match Acquire(s, q).0
            case Err(error) => EnsureStep(s, q, reply).0.result == Err(error)
            case Ok(AlreadyInstalled(target)) => EnsureStep(s, q, reply).0.result == Ok(target)
            case Ok(StillPending(_, retry)) => EnsureStep(s, q, reply).0.result == Err(Failure.Pending(retry))
            case Ok(IsGone) => EnsureStep(s, q, reply).0.result == Err(Failure.Gone)
            case Ok(IsTerminated) => EnsureStep(s, q, reply).0.result == Err(Failure.Terminated)
            case Ok(Acquired(_)) => true
  {
    hide MemoryRegistry.Acquire;
  }

  // An unknown outcome may be a live VM: the reservation stays as acquire left it, first attempt or not.
  lemma UnknownOutcomeKeepsTheReservation(s: Registry, q: AcquireTarget)
    requires HandsOut(s, q)
    ensures EnsureStep(s, q, OutcomeUnknown) == (Ensured(Err(LaunchOutcomeUnknown), None), Acquire(s, q).1)
    ensures q.key in Acquire(s, q).1.rows && Acquire(s, q).1.rows[q.key].state.Materializing?
    ensures Acquire(s, q).1.rows[q.key].state.attemptId == q.attemptId
  {
    HandedOutRow(s, q);
    hide MemoryRegistry.Acquire;
  }

  // What acquire hands out is the lease of the row it leaves behind.
  lemma HandedOutRow(s: Registry, q: AcquireTarget)
    requires HandsOut(s, q)
    ensures var (lease, held) := (Acquire(s, q).0.value.lease, Acquire(s, q).1);
            && q.key in held.rows && OnlyRow(s, held, q.key) && held.rows[q.key].state.Materializing?
            && RecoveryLease(held.rows[q.key]) == lease.(recoveryAttempt := true) && lease.attemptId == q.attemptId
            && (!lease.recoveryAttempt ==> FreshRow(held.rows[q.key], q) && lease.key == q.key && lease.spec == q.spec)
            && (lease.recoveryAttempt ==> q.key in s.rows && s.rows[q.key].state.Materializing?)
  {
    hide ValidKey, Identifier;
  }

  // A recovered attempt answers the refusal and keeps everything.
  lemma RefusedRecovery(s: Registry, q: AcquireTarget, reply: LaunchReply)
    requires HandsOut(s, q) && Acquire(s, q).0.value.lease.recoveryAttempt && NoTargetReply(reply)
    ensures EnsureStep(s, q, reply).1 == Acquire(s, q).1
    ensures EnsureStep(s, q, reply).0 == Ensured(
              Err(if reply == NoCapacity then Capacity else if reply == RetryableKnownNoTarget then LaunchRetryable
                  else LaunchOutcomeUnknown), None)
  {
    hide MemoryRegistry.Acquire;
  }

  // A first attempt that found no target gives its row and its charge back, over a free key, an expired
  // reservation or a lost target alike; the caller learns which refusal it was. Only a counter that is below the charge
  // is reported instead.
  lemma RefusedFirstAttempt(s: Registry, q: AcquireTarget, reply: LaunchReply)
    requires HandsOut(s, q) && !Acquire(s, q).0.value.lease.recoveryAttempt && NoTargetReply(reply)
    ensures var (out, t) := EnsureStep(s, q, reply);
            var (held, mib) := (Acquire(s, q).1, q.spec.materializedMib);
            && t == Registry(s.rows - {q.key}, if mib <= held.reserved then held.reserved - mib else held.reserved, s.max)
            && out == Ensured(Err(if mib > held.reserved then Corrupt
                                  else if reply == NoCapacity then Capacity
                                  else if reply == RetryableKnownNoTarget then LaunchRetryable
                                  else LaunchRejected), None)
  {
    HandedOutRow(s, q);
    ReleaseExactly(Acquire(s, q).1, Acquire(s, q).0.value.lease);
    hide MemoryRegistry.Acquire;
  }

  // A launched target is installed on the lease; the caller is told to destroy it exactly when the install was lost.
  lemma LaunchedIsInstalledOrStale(s: Registry, q: AcquireTarget, target: PhysicalTarget)
    requires HandsOut(s, q)
    ensures var (out, after) := EnsureStep(s, q, Launched(target));
            var (installed, t) := Install(Acquire(s, q).1, Acquire(s, q).0.value.lease, target, q.nowMs);
            && after == t
            && (installed.Err? ==> out == Ensured(Err(installed.error), None))
            && (installed.Ok? && installed.value.InstallDone? ==> out == Ensured(Ok(installed.value.target), None))
            && (installed.Ok? && installed.value.InstallLost? ==> out == Ensured(Err(ReservationLost), Some(target.targetRef)))
  {
    hide MemoryRegistry.Acquire, MemoryRegistry.Install;
  }

  lemma FirstChargeIsCounted(s: Registry, q: AcquireTarget)
    requires Accounted(s) && HandsOut(s, q) && !Acquire(s, q).0.value.lease.recoveryAttempt
    ensures q.spec.materializedMib <= Acquire(s, q).1.reserved
  {
    HandedOutRow(s, q);
    AcquireMovesOneCharge(s, q);
    hide MemoryRegistry.Acquire, WellKeyed;
    AccountsCover(s, q.key);
    MovingKeepsAccounts(s, Acquire(s, q).1, q.key);
    AccountsCover(Acquire(s, q).1, q.key);
  }

  lemma InstallKeepsKey(s: Registry, lease: Lease, target: PhysicalTarget, nowMs: nat)
    ensures OnlyRow(s, Install(s, lease, target, nowMs).1, lease.key)
    ensures Install(s, lease, target, nowMs).1.reserved == s.reserved
    ensures lease.key in s.rows ==> lease.key in Install(s, lease, target, nowMs).1.rows
  {
    hide Identifier;
  }

  // In an accounted registry a first attempt gives its reservation up exactly when the provider says that there is
  // no target; then the key is free and everything its row was charged for is refunded.
  lemma FirstAttemptIsRefundedIff(s: Registry, q: AcquireTarget, reply: LaunchReply)
    requires Accounted(s) && HandsOut(s, q) && !Acquire(s, q).0.value.lease.recoveryAttempt
    ensures q.key !in EnsureStep(s, q, reply).1.rows <==> NoTargetReply(reply)
    ensures EnsureStep(s, q, reply).1.reserved
            == Acquire(s, q).1.reserved - (if NoTargetReply(reply) then q.spec.materializedMib else 0)
    ensures OnlyRow(s, EnsureStep(s, q, reply).1, q.key)
  {
    var (got, held) := Acquire(s, q);
    HandedOutRow(s, q);
    FirstChargeIsCounted(s, q);
    hide MemoryRegistry.Acquire, MemoryRegistry.Install, MemoryContracts.FreshRow, Accounted;
    match reply
    case OutcomeUnknown => UnknownOutcomeKeepsTheReservation(s, q);
    case Launched(target) =>
      LaunchedIsInstalledOrStale(s, q, target);
      InstallKeepsKey(held, got.value.lease, target, q.nowMs);
    case _ => RefusedFirstAttempt(s, q, reply);
  }
}
