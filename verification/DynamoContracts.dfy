/** When each conditional write lands and exactly what it leaves behind, and the in-memory transition that it is
    (crates/hand-brain-aws/src/registry.rs:289-316, 351-617, 687-749). */
module DynamoContracts {
  import opened Wrappers
  import opened TargetRecords
  import opened MemoryRegistry
  import opened MemoryContracts
  import opened DynamoRegistry

  /** Nothing but the row of `key` differs, and that row is `r`. */
  predicate Rewrites(t: Table, after: Table, key: TargetKey, r: TargetRecord) {
    key in after.rows && after.rows[key] == r && after.rows - {key} == t.rows - {key}
  }

  /** The counter has room for `mib`; a counter that does not exist yet always has. */
  predicate HasRoom(t: Table, mib: nat, max: nat) {
    t.counter.Some? ==> t.counter.value + mib <= max
  }

  /** The counter covers a refund of `mib`. */
  predicate Refunds(t: Table, mib: nat) {
    t.counter.Some? && mib <= t.counter.value
  }

  /** The row is the reservation that the lease names. */
  predicate Reserves(t: Table, lease: Lease) {
    && lease.key in t.rows && t.rows[lease.key].state.Materializing?
    && t.rows[lease.key].state.reservationId == lease.reservationId && t.rows[lease.key].generation == lease.generation
  }

  /** The row is the installed target that the caller names. */
  predicate Holds(t: Table, target: InstalledTarget) {
    && target.key in t.rows && t.rows[target.key].state.Installed?
    && t.rows[target.key].state.targetRef == target.targetRef
    && t.rows[target.key].generation == target.generation && t.rows[target.key].specDigest == target.specDigest
  }

  // ---- Reservations ----

  // The transaction lands exactly on a free key with room, and charges the counter for a fresh row.
  lemma ReserveExactly(t: Table, q: AcquireTarget, max: nat)
    requires FirstLease(q).Ok? && q.spec.materializedMib <= max
    ensures var after := TryReserve(t, FirstLease(q).value, q.nowMs, max);
            && (after.Some? <==> q.key !in t.rows && HasRoom(t, q.spec.materializedMib, max))
            && (after.Some? ==>
                  && q.key in after.value.rows && FreshRow(after.value.rows[q.key], q)
                  && after.value.rows - {q.key} == t.rows
                  && after.value.counter == Some(Reserved(t) + q.spec.materializedMib))
  {
    hide RequestError;
  }

  // An expired reservation is replaced only while the row still names the reservation that was read, after its lease.
  lemma ReplaceExpiredExactly(t: Table, old': string, q: AcquireTarget)
    requires FirstLease(q).Ok? && (q.key in t.rows ==> RowIsCoherent(t.rows[q.key], q.key))
    ensures var after := TryReplaceExpired(t, old', q, FirstLease(q).value);
            && (after.Some? <==>
                  && q.key in t.rows && t.rows[q.key].state.Materializing? && t.rows[q.key].state.reservationId == old'
                  && t.rows[q.key].state.leaseExpiresAtMs <= q.nowMs && t.rows[q.key].spec == q.spec)
            && (after.Some? ==>
                  && after.value.counter == t.counter && q.key in after.value.rows && FreshRow(after.value.rows[q.key], q)
                  && after.value.rows - {q.key} == t.rows - {q.key})
  {
    hide RequestError, ValidKey, Identifier;
  }

  // An attempt is taken over only while the row still names the attempt that was read, once that attempt has expired
  // and before either deadline; the reservation, its request and both deadlines stay.
  lemma TakeAttemptExactly(t: Table, seen: TargetRecord, q: AcquireTarget, deadline: nat)
    requires seen.state.Materializing?
    ensures var after := TryTakeAttempt(t, seen, q, deadline);
            && (after.Some? <==>
                  && q.key in t.rows && t.rows[q.key].state.Materializing?
                  && t.rows[q.key].state.attemptId == seen.state.attemptId
                  && t.rows[q.key].state.reservationId == seen.state.reservationId
                  && t.rows[q.key].generation == seen.generation && t.rows[q.key].specDigest == seen.specDigest
                  && t.rows[q.key].state.attemptExpiresAtMs <= q.nowMs
                  && q.nowMs < t.rows[q.key].state.targetExpiresAtMs && q.nowMs < t.rows[q.key].state.leaseExpiresAtMs)
            && (after.Some? ==>
                  var r := t.rows[q.key];
                  && after.value.counter == t.counter
                  && Rewrites(t, after.value, q.key, TargetRecord(
                       r.key, r.spec, r.specDigest, r.generation,
                       Materializing(r.state.reservationId, r.state.launchRequest, q.attemptId, deadline,
                                     r.state.targetExpiresAtMs, r.state.leaseExpiresAtMs), q.nowMs)))
  {
  }

  lemma ReplaceGoneExactly(t: Table, seen: TargetRecord, q: AcquireTarget, max: nat)
    requires FirstLease(q).Ok? && q.spec.materializedMib <= max && (q.key in t.rows ==> RowIsCoherent(t.rows[q.key], q.key))
    ensures var after := TryReplaceGone(t, seen, q, FirstLease(q).value, max);
            && (after.Some? <==>
                  && q.key in t.rows && t.rows[q.key].state.Closed? && t.rows[q.key].state.disposition.Lost?
                  && t.rows[q.key].generation == seen.generation && t.rows[q.key].spec == q.spec
                  && HasRoom(t, q.spec.materializedMib, max))
            && (after.Some? ==>
                  && q.key in after.value.rows && FreshRow(after.value.rows[q.key], q)
                  && after.value.rows - {q.key} == t.rows - {q.key}
                  && after.value.counter == Some(Reserved(t) + q.spec.materializedMib))
  {
    hide RequestError, ValidKey, Identifier;
  }

  // ---- Install, release, close, purge ----

  // An install lands exactly on the reservation of the lease, under the deadline the row already had.
  lemma InstallLandsExactly(t: Table, lease: Lease, target: PhysicalTarget, nowMs: nat)
    ensures var after := TryInstall(t, lease, target, nowMs);
            && (after.Some? <==> Reserves(t, lease) && t.rows[lease.key].specDigest == lease.specDigest)
            && (after.Some? ==>
                  var r := t.rows[lease.key];
                  && after.value.counter == t.counter
                  && Rewrites(t, after.value, lease.key, TargetRecord(
                       r.key, r.spec, r.specDigest, target.generation,
                       Installed(target.targetRef, target.controlToken, nowMs, r.state.targetExpiresAtMs), nowMs)))
  {
  }

  // It is the in-memory install of the same lease exactly when the row still has the deadline of the lease.
  lemma InstallIsAtomicIff(t: Table, lease: Lease, target: PhysicalTarget, nowMs: nat, max: nat)
    requires TryInstall(t, lease, target, nowMs).Some? && Identifier(target.targetRef.token) && Identifier(target.generation)
    ensures Install(View(t, max), lease, target, nowMs).1 == View(TryInstall(t, lease, target, nowMs).value, max)
            <==> t.rows[lease.key].state.targetExpiresAtMs == lease.targetExpiresAtMs
  {
    var memory, table := Install(View(t, max), lease, target, nowMs).1, TryInstall(t, lease, target, nowMs).value;
    InstallExactly(View(t, max), lease, target, nowMs);
    hide Identifier, Install;
    if t.rows[lease.key].state.targetExpiresAtMs == lease.targetExpiresAtMs {
      SameRows(memory.rows, table.rows, lease.key);
    }
  }

  lemma SameRows(a: Rows, b: Rows, key: TargetKey)
    requires key in a && key in b && a[key] == b[key] && a - {key} == b - {key}
    ensures a == b
  {
    forall k ensures (k in a <==> k in b) && (k in a ==> a[k] == b[k]) {
      if k != key { assert k in a <==> k in a - {key}; assert k in b <==> k in b - {key}; }
    }
  }

  // A release lands exactly for the attempt that owns the row, with a counter that covers it, and frees the key.
  lemma ReleaseLandsExactly(t: Table, lease: Lease, max: nat)
    ensures var after := TryExpire(t, lease);
            && (after.Some? <==> Reserves(t, lease) && t.rows[lease.key].state.attemptId == lease.attemptId
                                 && Refunds(t, lease.spec.materializedMib))
            && (after.Some? ==>
                  && after.value == Table(t.rows - {lease.key}, Some(Reserved(t) - lease.spec.materializedMib))
                  && ExpireLease(View(t, max), lease) == (Ok(()), View(after.value, max)))
  {
  }

  // A close lands exactly on the installed target it names, gives it this disposition, reason and time, keeps its
  // names, and refunds; it is the in-memory close.
  lemma CloseLandsExactly(t: Table, target: InstalledTarget, disposition: Disposition, reason: string, nowMs: nat, max: nat)
    ensures var after := TryClose(t, target, disposition, reason, nowMs);
            && (after.Some? <==> Holds(t, target) && Refunds(t, target.spec.materializedMib))
            && (after.Some? ==>
                  var r := t.rows[target.key];
                  && after.value.counter == Some(Reserved(t) - target.spec.materializedMib)
                  && Rewrites(t, after.value, target.key,
                              TargetRecord(r.key, r.spec, r.specDigest, r.generation, Closed(disposition, reason, nowMs), nowMs))
                  && (ValidReason(reason) ==>
                        MarkClosed(View(t, max), target, disposition, reason, nowMs) == (Ok(()), View(after.value, max))))
  {
  }

  // After a close as Terminated no acquire hands the key out; after one as Lost an acquire that does not ask for a
  // replacement answers IsGone, and one that does is handed a fresh lease exactly when there is room.
  lemma ClosedThenAcquired(t: Table, target: InstalledTarget, disposition: Disposition, reason: string, nowMs: nat,
                           q: AcquireTarget, max: nat)
    requires TryClose(t, target, disposition, reason, nowMs).Some? && FirstLease(q).Ok? && q.key == target.key
    requires Serves(TryClose(t, target, disposition, reason, nowMs).value.rows[q.key], q)
    ensures var closed := View(TryClose(t, target, disposition, reason, nowMs).value, max);
            var answer := MemoryRegistry.Acquire(closed, q).0;
            if disposition.Terminated? then answer == Ok(IsTerminated)
            else if !q.replaceAfterLoss then answer == Ok(IsGone)
            else if Admits(closed, q.spec.materializedMib) then answer == Ok(Acquired(FirstLease(q).value))
            else answer == Err(Capacity)
  {
    CloseLandsExactly(t, target, disposition, reason, nowMs, max);
    var closed := View(TryClose(t, target, disposition, reason, nowMs).value, max);
    hide TryClose, MemoryRegistry.Acquire, FirstLease, Serves;
    AcquireClosed(closed, q);
  }

  // A purge removes exactly a closed row of the generation that was read, and no charge.
  lemma PurgeLandsExactly(t: Table, key: TargetKey, generation: string)
    ensures var after := TryPurgeTerminal(t, key, generation);
            && (after.Some? <==> key in t.rows && t.rows[key].state.Closed? && t.rows[key].generation == generation)
            && (after.Some? ==> after.value.rows == t.rows - {key} && after.value.counter == t.counter)
  {
  }
}
