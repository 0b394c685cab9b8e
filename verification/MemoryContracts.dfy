/** What each registry transition promises, by the state of the row it meets: the answer, the row and the counter after it
    (crates/hand-core/src/materialization/memory.rs:75-272, 313-360). */
module MemoryContracts {
  import opened Wrappers
  import opened TargetRecords
  import opened MemoryRegistry

  // ---- Requests ----

  // The lease of an accepted request carries the request's names and three deadlines measured from its clock.
  lemma LeaseOfRequest(q: AcquireTarget)
    ensures FirstLease(q).Ok? <==>
              && RequestError(q).None? && q.nowMs + q.leaseDurationMs <= U64_MAX
              && q.nowMs + q.targetLifetimeMs <= U64_MAX && q.nowMs + q.attemptDurationMs <= U64_MAX
    ensures FirstLease(q).Ok? ==>
              var lease := FirstLease(q).value;
              && lease.key == q.key && lease.spec == q.spec && lease.specDigest == SpecDigest(q.spec)
              && lease.reservationId == q.reservationId && lease.generation == q.generation
              && lease.launchRequest == q.launchRequest && lease.attemptId == q.attemptId && !lease.recoveryAttempt
              && lease.attemptExpiresAtMs == q.nowMs + q.attemptDurationMs
              && lease.targetExpiresAtMs == q.nowMs + q.targetLifetimeMs
              && lease.leaseExpiresAtMs == q.nowMs + q.leaseDurationMs
  {
    hide RequestError;
  }

  /** The row is valid, describes what is requested, and is of the requested generation where that is fenced; a lost
      default may have another when its replacement is asked for. */
  predicate Serves(r: TargetRecord, q: AcquireTarget) {
    && RecordError(r).None? && r.spec == q.spec
    && (q.generationIsFenced && r.generation != q.generation ==>
          q.replaceAfterLoss && r.state.Closed? && r.state.disposition.Lost?)
  }

  /** The row stands for a fresh reservation by this request: its names, its deadlines, its clock. */
  predicate FreshRow(r: TargetRecord, q: AcquireTarget) {
    && r.key == q.key && r.spec == q.spec && r.specDigest == SpecDigest(q.spec) && r.generation == q.generation
    && r.updatedAtMs == q.nowMs
    && r.state == Materializing(q.reservationId, q.launchRequest, q.attemptId, q.nowMs + q.attemptDurationMs,
                                q.nowMs + q.targetLifetimeMs, q.nowMs + q.leaseDurationMs)
  }

  /** Nothing but the row of `key` differs. */
  predicate OnlyRow(s: Registry, t: Registry, key: TargetKey) {
    t.max == s.max && t.rows - {key} == s.rows - {key}
  }

  /** The plane has room, or is idle and asked for more than all of it. */
  predicate Admits(s: Registry, mib: nat) {
    s.reserved + mib <= s.max || (s.reserved == 0 && mib > s.max)
  }

  // ---- Acquire, by the row it meets ----

  lemma AcquireRefusesRequest(s: Registry, q: AcquireTarget)
    requires FirstLease(q).Err?
    ensures Acquire(s, q) == (Err(FirstLease(q).error), s)
  {
    hide FirstLease;
  }

  // A free key is reserved and charged when the plane admits it, and otherwise left free.
  lemma AcquireFreeKey(s: Registry, q: AcquireTarget)
    requires FirstLease(q).Ok? && q.key !in s.rows
    ensures var (answer, t) := Acquire(s, q);
            if Admits(s, q.spec.materializedMib) then
              && answer == Ok(Acquired(FirstLease(q).value)) && OnlyRow(s, t, q.key)
              && t.reserved == s.reserved + q.spec.materializedMib && q.key in t.rows && FreshRow(t.rows[q.key], q)
            else answer == Err(Capacity) && t == s
  {
    LeaseOfRequest(q);
    hide FirstLease;
  }

  // A row that does not serve the request is reported and left alone.
  lemma AcquireUnservedRow(s: Registry, q: AcquireTarget)
    requires FirstLease(q).Ok? && q.key in s.rows && !Serves(s.rows[q.key], q)
    ensures var r := s.rows[q.key];
            Acquire(s, q) == (Err(if RecordError(r).Some? then RecordError(r).value else SpecConflict), s)
  {
    LeaseOfRequest(q);
    hide FirstLease, ValidKey, Identifier;
  }

  lemma AcquireInstalled(s: Registry, q: AcquireTarget)
    requires FirstLease(q).Ok? && q.key in s.rows && Serves(s.rows[q.key], q) && s.rows[q.key].state.Installed?
    ensures var r := s.rows[q.key];
            Acquire(s, q) == (Ok(AlreadyInstalled(InstalledTarget(
              r.key, r.spec, r.specDigest, r.state.targetRef, r.generation, r.state.controlToken, r.state.installedAtMs,
              r.state.expiresAtMs))), s)
  {
    LeaseOfRequest(q);
    hide FirstLease, ValidKey, Identifier;
  }

  /** The answer makes the caller wait, never past `until` unless that has passed, and at most a poll interval. */
  predicate Waits(answer: Outcome<AcquireOutcome>, r: TargetRecord, until: nat, nowMs: nat) {
    && answer.Ok? && answer.value.StillPending? && answer.value.generation == r.generation
    && 1 <= answer.value.retryAfterMs <= MAX_MATERIALIZATION_POLL_MS
    && (nowMs < until ==> nowMs + answer.value.retryAfterMs <= until)
    && (answer.value.retryAfterMs == MAX_MATERIALIZATION_POLL_MS || nowMs + answer.value.retryAfterMs >= until)
  }

  // While an attempt is live, and before the target's deadline, the row is left alone and the caller waits for it.
  lemma AcquireLiveAttempt(s: Registry, q: AcquireTarget)
    requires FirstLease(q).Ok? && q.key in s.rows && Serves(s.rows[q.key], q) && s.rows[q.key].state.Materializing?
    requires q.nowMs < s.rows[q.key].state.attemptExpiresAtMs && q.nowMs < s.rows[q.key].state.targetExpiresAtMs
    ensures Acquire(s, q).1 == s && Waits(Acquire(s, q).0, s.rows[q.key], s.rows[q.key].state.attemptExpiresAtMs, q.nowMs)
  {
    LeaseOfRequest(q);
    hide FirstLease, ValidKey, Identifier;
  }

  // Between the target's deadline and the lease's the row is left alone and the caller waits for the lease to end.
  lemma AcquireUncertain(s: Registry, q: AcquireTarget)
    requires FirstLease(q).Ok? && q.key in s.rows && Serves(s.rows[q.key], q) && s.rows[q.key].state.Materializing?
    requires s.rows[q.key].state.targetExpiresAtMs <= q.nowMs < s.rows[q.key].state.leaseExpiresAtMs
    ensures Acquire(s, q).1 == s && Waits(Acquire(s, q).0, s.rows[q.key], s.rows[q.key].state.leaseExpiresAtMs, q.nowMs)
  {
    LeaseOfRequest(q);
    hide FirstLease, ValidKey, Identifier;
  }

  // After the lease the charged slot is reused for the new request; the counter does not move.
  lemma AcquireExpiredLease(s: Registry, q: AcquireTarget)
    requires FirstLease(q).Ok? && q.key in s.rows && Serves(s.rows[q.key], q) && s.rows[q.key].state.Materializing?
    requires s.rows[q.key].state.leaseExpiresAtMs <= q.nowMs
    ensures var (answer, t) := Acquire(s, q);
            && answer == Ok(Acquired(FirstLease(q).value)) && OnlyRow(s, t, q.key) && t.reserved == s.reserved
            && q.key in t.rows && FreshRow(t.rows[q.key], q)
  {
    LeaseOfRequest(q);
    hide FirstLease, ValidKey, Identifier;
  }

  // An expired attempt before the target's deadline is taken over: only the attempt, its deadline and the update time
  // change, the deadline is capped by the lease, and the lease handed out is the row's, marked as a recovery.
  lemma AcquireExpiredAttempt(s: Registry, q: AcquireTarget)
    requires FirstLease(q).Ok? && q.key in s.rows && Serves(s.rows[q.key], q) && s.rows[q.key].state.Materializing?
    requires s.rows[q.key].state.attemptExpiresAtMs <= q.nowMs < s.rows[q.key].state.targetExpiresAtMs
    ensures var (answer, t) := Acquire(s, q);
            var r := s.rows[q.key];
            var deadline := if q.nowMs + q.attemptDurationMs <= r.state.leaseExpiresAtMs then q.nowMs + q.attemptDurationMs
                            else r.state.leaseExpiresAtMs;
            && OnlyRow(s, t, q.key) && t.reserved == s.reserved && q.key in t.rows
            && t.rows[q.key] == r.(state := r.state.(attemptId := q.attemptId, attemptExpiresAtMs := deadline), updatedAtMs := q.nowMs)
            && answer == Ok(Acquired(Lease(r.key, r.spec, r.specDigest, r.state.reservationId, r.generation, r.state.launchRequest,
                                           q.attemptId, deadline, r.state.targetExpiresAtMs, r.state.leaseExpiresAtMs, true)))
  {
    LeaseOfRequest(q);
    hide FirstLease, ValidKey, Identifier;
    var r := s.rows[q.key];
    assert RequestError(q).None?;
    TakeoverIsValidIff(r, q.attemptId, q.attemptDurationMs, q.nowMs);
  }

  // A terminated row ends every request for its key; a lost one is replaced exactly when that is asked for and the
  // plane admits it.
  lemma AcquireClosed(s: Registry, q: AcquireTarget)
    requires FirstLease(q).Ok? && q.key in s.rows && Serves(s.rows[q.key], q) && s.rows[q.key].state.Closed?
    ensures var (answer, t) := Acquire(s, q);
            if s.rows[q.key].state.disposition.Terminated? then answer == Ok(IsTerminated) && t == s
            else if !q.replaceAfterLoss then answer == Ok(IsGone) && t == s
            else if Admits(s, q.spec.materializedMib) then
              && answer == Ok(Acquired(FirstLease(q).value)) && OnlyRow(s, t, q.key)
              && t.reserved == s.reserved + q.spec.materializedMib && q.key in t.rows && FreshRow(t.rows[q.key], q)
            else answer == Err(Capacity) && t == s
  {
    LeaseOfRequest(q);
    hide FirstLease, ValidKey, Identifier;
  }

  // ---- Install, release, close ----

  // An install lands on the reservation it names, re-answers the very install that is there, and is lost otherwise.
  lemma InstallExactly(s: Registry, lease: Lease, target: PhysicalTarget, nowMs: nat)
    requires Identifier(target.targetRef.token) && Identifier(target.generation)
    ensures var (answer, t) := Install(s, lease, target, nowMs);
            var named := lease.key in s.rows && s.rows[lease.key].specDigest == lease.specDigest
                         && s.rows[lease.key].generation == lease.generation;
            if named && s.rows[lease.key].state.Materializing? && s.rows[lease.key].state.reservationId == lease.reservationId then
              && OnlyRow(s, t, lease.key) && t.reserved == s.reserved && lease.key in t.rows
              && t.rows[lease.key] == TargetRecord(
                   s.rows[lease.key].key, s.rows[lease.key].spec, s.rows[lease.key].specDigest, target.generation,
                   Installed(target.targetRef, target.controlToken, nowMs, lease.targetExpiresAtMs), nowMs)
              && answer == Ok(InstallDone(InstalledTarget(
                   s.rows[lease.key].key, s.rows[lease.key].spec, s.rows[lease.key].specDigest, target.targetRef, target.generation,
                   target.controlToken, nowMs, lease.targetExpiresAtMs)))
            else if named && s.rows[lease.key].state.Installed? && s.rows[lease.key].state.targetRef == target.targetRef
                    && s.rows[lease.key].state.controlToken == target.controlToken && s.rows[lease.key].generation == target.generation then
              answer == Ok(InstallDone(InstalledView(s.rows[lease.key]))) && t == s
            else answer == Ok(InstallLost) && t == s
  {
    hide Identifier;
  }

  lemma InstallRefusesNames(s: Registry, lease: Lease, target: PhysicalTarget, nowMs: nat)
    requires !Identifier(target.targetRef.token) || !Identifier(target.generation)
    ensures Install(s, lease, target, nowMs) == (Err(InvalidIdentity), s)
  {
    hide Identifier;
  }

  // A release removes the row of exactly the attempt that owns it and refunds its lease; anybody else's changes nothing.
  lemma ReleaseExactly(s: Registry, lease: Lease)
    ensures var (answer, t) := ExpireLease(s, lease);
            if lease.key in s.rows && s.rows[lease.key].state.Materializing? && s.rows[lease.key].generation == lease.generation
               && s.rows[lease.key].state.reservationId == lease.reservationId && s.rows[lease.key].state.attemptId == lease.attemptId then
              && t.rows == s.rows - {lease.key} && t.max == s.max
              && (if lease.spec.materializedMib <= s.reserved then answer.Ok? && t.reserved == s.reserved - lease.spec.materializedMib
                  else answer == Err(Corrupt) && t.reserved == s.reserved)
            else answer.Ok? && t == s
  {
  }

  // A close gives the installed row it names exactly this disposition, reason and time, keeps its key, spec and
  // generation, and refunds; no other row changes. A row that is closed already stays as it is.
  lemma CloseExactly(s: Registry, target: InstalledTarget, disposition: Disposition, reason: string, nowMs: nat)
    requires ValidReason(reason)
    ensures var (answer, t) := MarkClosed(s, target, disposition, reason, nowMs);
            if target.key !in s.rows then answer == Err(ReservationLost) && t == s
            else
              var r := s.rows[target.key];
              if r.state.Installed? && r.state.targetRef == target.targetRef && r.generation == target.generation then
                && OnlyRow(s, t, target.key) && target.key in t.rows
                && t.rows[target.key] == TargetRecord(r.key, r.spec, r.specDigest, r.generation, Closed(disposition, reason, nowMs), nowMs)
                && (if target.spec.materializedMib <= s.reserved then answer.Ok? && t.reserved == s.reserved - target.spec.materializedMib
                    else answer == Err(Corrupt) && t.reserved == s.reserved)
              else t == s && (if r.state.Closed? then answer.Ok? else answer == Err(ReservationLost))
  {
  }

  // ---- Over any calls ----

  // An attempt keeps its row until it has expired: no call by anybody else names another attempt before that.
  lemma AttemptKeptUntilExpiry(s: Registry, op: Op, k: TargetKey)
    requires k in s.rows && s.rows[k].state.Materializing?
    requires k in Step(s, op).rows && Step(s, op).rows[k].state.Materializing?
    requires Step(s, op).rows[k].state.attemptId != s.rows[k].state.attemptId
    ensures op.DoAcquire? && op.q.key == k
    ensures s.rows[k].state.attemptExpiresAtMs <= op.q.nowMs || s.rows[k].state.leaseExpiresAtMs <= op.q.nowMs
    ensures ValidRecord(s.rows[k]) ==> s.rows[k].state.attemptExpiresAtMs <= op.q.nowMs
  {
    hide ValidKey, Identifier;
  }

  // A terminated row is final: no run of any calls hands out its key again or changes it.
  lemma {:induction false} TerminatedForever(s: Registry, ops: seq<Op>, k: TargetKey)
    requires k in s.rows && s.rows[k].state.Closed? && s.rows[k].state.disposition.Terminated?
    ensures k in Run(s, ops).rows && Run(s, ops).rows[k] == s.rows[k]
    decreases |ops|
  {
    if ops != [] {
      TerminatedForever(s, ops[..|ops| - 1], k);
      hide Run;
      TerminatedStays(Run(s, ops[..|ops| - 1]), ops[|ops| - 1], k);
    }
  }

  lemma TerminatedStays(s: Registry, op: Op, k: TargetKey)
    requires k in s.rows && s.rows[k].state.Closed? && s.rows[k].state.disposition.Terminated?
    ensures k in Step(s, op).rows && Step(s, op).rows[k] == s.rows[k]
    ensures op.DoAcquire? && op.q.key == k ==> !(Acquire(s, op.q).0.Ok? && Acquire(s, op.q).0.value.Acquired?)
  {
    hide ValidKey, Identifier;
  }
}
