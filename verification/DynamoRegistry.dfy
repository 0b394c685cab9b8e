/** The concurrent target registry (crates/hand-brain-aws/src/registry.rs): every transition is one
    conditional write or transaction over a table that other processes change between any two calls. */
module DynamoRegistry {
  import opened Wrappers
  import opened TargetRecords
  import opened Arithmetic
  import opened MemoryRegistry
  import opened MemoryContracts

  /** Target rows and the plane capacity row, which does not exist before the first charge. */
  datatype Table = Table(rows: Rows, counter: Option<nat>)

  function Reserved(t: Table): nat {
    if t.counter.Some? then t.counter.value else 0
  }

  // ---- Capacity updates ----

  function AddCapacity(counter: Option<nat>, mib: nat, max: nat): Option<Option<nat>>
    requires mib <= max
  {
    if counter.None? || counter.value <= max - mib
    then Some(Some((if counter.Some? then counter.value else 0) + mib))
    else None
  }

  function SubtractCapacity(counter: Option<nat>, mib: nat): Option<Option<nat>> {
    if counter.Some? && counter.value >= mib then Some(Some(counter.value - mib)) else None
  }

  // ---- Conditional writes: None when the condition fails and nothing is written ----

  function TryReserve(t: Table, lease: Lease, nowMs: nat, max: nat): Option<Table>
    requires lease.spec.materializedMib <= max
  {
    var counter := AddCapacity(t.counter, lease.spec.materializedMib, max);
    if lease.key in t.rows || counter.None? then None
    else Some(Table(t.rows[lease.key := RecordFromLease(lease, nowMs)], counter.value))
  }

  /** The attributes a fresh reservation sets on an existing row. The spec attributes stay. */
  function Reseal(r: TargetRecord, lease: Lease, nowMs: nat): TargetRecord {
    r.(generation := lease.generation, state := RecordFromLease(lease, nowMs).state, updatedAtMs := nowMs)
  }

  function TryReplaceExpired(t: Table, oldReservation: string, q: AcquireTarget, lease: Lease): Option<Table> {
    if q.key !in t.rows then None
    else
      var r := t.rows[q.key];
      if r.state.Materializing? && r.state.reservationId == oldReservation
         && r.state.leaseExpiresAtMs <= q.nowMs && r.specDigest == lease.specDigest
      then Some(t.(rows := t.rows[q.key := Reseal(r, lease, q.nowMs)]))
      else None
  }

  /** The attempt deadline a takeover of `seen` would write. */
  function TakeoverDeadline(seen: TargetRecord, q: AcquireTarget): Outcome<nat>
    requires seen.state.Materializing?
  {
    if q.nowMs + q.attemptDurationMs > U64_MAX then Err(InvalidLease)
    else
      var deadline := Min(q.nowMs + q.attemptDurationMs, seen.state.leaseExpiresAtMs);
      if deadline <= q.nowMs then Err(InvalidLease) else Ok(deadline)
  }

  function TryTakeAttempt(t: Table, seen: TargetRecord, q: AcquireTarget, deadline: nat): Option<Table>
    requires seen.state.Materializing?
  {
    if q.key !in t.rows then None
    else
      var r := t.rows[q.key];
      if r.state.Materializing? && r.state.reservationId == seen.state.reservationId
         && r.generation == seen.generation && r.state.attemptId == seen.state.attemptId
         && r.state.attemptExpiresAtMs <= q.nowMs && r.state.leaseExpiresAtMs > q.nowMs
         && r.state.targetExpiresAtMs > q.nowMs && r.specDigest == seen.specDigest
      then Some(t.(rows := t.rows[q.key := TakenOver(r, q.attemptId, deadline, q.nowMs)]))
      else None
  }

  /** The lease handed to the taker: rebuilt from what was read, not from what was written. */
  function TakenLease(seen: TargetRecord, q: AcquireTarget, deadline: nat): Lease
    requires seen.state.Materializing?
  {
    RecoveryLease(seen).(attemptId := q.attemptId, attemptExpiresAtMs := deadline)
  }

  function TryReplaceGone(t: Table, seen: TargetRecord, q: AcquireTarget, lease: Lease, max: nat): Option<Table>
    requires lease.spec.materializedMib <= max
  {
    var counter := AddCapacity(t.counter, lease.spec.materializedMib, max);
    if q.key !in t.rows || counter.None? then None
    else
      var r := t.rows[q.key];
      if r.state.Closed? && r.state.disposition == Lost && r.generation == seen.generation && r.specDigest == lease.specDigest
      then Some(Table(t.rows[q.key := Reseal(r, lease, q.nowMs)], counter.value))
      else None
  }

  /** Unlike the memory registry, the installed row keeps the deadline that the row already had. */
  function TryInstall(t: Table, lease: Lease, target: PhysicalTarget, nowMs: nat): Option<Table> {
    if lease.key !in t.rows then None
    else
      var r := t.rows[lease.key];
      if r.state.Materializing? && r.state.reservationId == lease.reservationId
         && r.generation == lease.generation && r.specDigest == lease.specDigest
      then Some(t.(rows := t.rows[lease.key :=
        r.(state := Installed(target.targetRef, target.controlToken, nowMs, r.state.targetExpiresAtMs),
           generation := target.generation, updatedAtMs := nowMs)]))
      else None
  }

  function TryExpire(t: Table, lease: Lease): Option<Table> {
    var counter := SubtractCapacity(t.counter, lease.spec.materializedMib);
    if lease.key !in t.rows || counter.None? then None
    else
      var r := t.rows[lease.key];
      if r.state.Materializing? && r.state.reservationId == lease.reservationId
         && r.generation == lease.generation && r.state.attemptId == lease.attemptId
      then Some(Table(t.rows - {lease.key}, counter.value))
      else None
  }

  function TryClose(t: Table, target: InstalledTarget, disposition: Disposition, reason: string, nowMs: nat): Option<Table> {
    var counter := SubtractCapacity(t.counter, target.spec.materializedMib);
    if target.key !in t.rows || counter.None? then None
    else
      var r := t.rows[target.key];
      if r.state.Installed? && r.state.targetRef == target.targetRef
         && r.generation == target.generation && r.specDigest == target.specDigest
      then Some(Table(t.rows[target.key := r.(state := Closed(disposition, reason, nowMs), updatedAtMs := nowMs)], counter.value))
      else None
  }

  function TryPurgeTerminal(t: Table, key: TargetKey, generation: string): Option<Table> {
    if key in t.rows && t.rows[key].generation == generation && t.rows[key].state.Closed?
    then Some(t.(rows := t.rows - {key}))
    else None
  }

  // ---- The acquire loop ----

  /** What acquire does next with the row it just read. */
  datatype Choice = Fail(error: Failure) | Answer(outcome: AcquireOutcome) | ReplaceExpired | TakeAttempt | ReplaceGone

  function Choose(q: AcquireTarget, r: TargetRecord): Choice {
    if RecordError(r).Some? then Fail(RecordError(r).value)
    else if r.specDigest != SpecDigest(q.spec) || FencedOut(q, r) then Fail(SpecConflict)
    else
      match r.state
      case Installed(_, _, _, _) => Answer(AlreadyInstalled(InstalledView(r)))
      case Materializing(_, _, _, attemptExpires, targetExpires, leaseExpires) =>
        if leaseExpires <= q.nowMs then ReplaceExpired
        else if targetExpires <= q.nowMs then Answer(StillPending(r.generation, PollAfter(leaseExpires, q.nowMs)))
        else if attemptExpires > q.nowMs then Answer(StillPending(r.generation, PollAfter(attemptExpires, q.nowMs)))
        else TakeAttempt
      case Closed(disposition, _, _) =>
        if disposition.Lost? && q.replaceAfterLoss then ReplaceGone
        else if disposition.Lost? then Answer(IsGone)
        else Answer(IsTerminated)
  }

  /** How the database answers one call. An unavailable call may still have been applied. */
  datatype DbReply = Served | Cancelled | Unavailable(applied: bool)

  /** The table that the n-th database call meets: anything may have happened since the call before. */
  datatype Access = Access(table: Table, reply: DbReply)

  datatype Write = Write(at: nat, after: Table)

  function View(t: Table, max: nat): Registry {
    Registry(t.rows, Reserved(t), max)
  }

  /** What the other processes guarantee about one key, at any two instants: rows are well keyed; rows that
      are not installed are valid; a reservation id keeps its generation; an attempt id keeps its row. */
  ghost predicate Coherent(env: nat -> Access, key: TargetKey) {
    && (forall i :: key in env(i).table.rows ==> RowIsCoherent(env(i).table.rows[key], key))
    && (forall i, j :: key in env(i).table.rows && key in env(j).table.rows ==>
          SameNames(env(i).table.rows[key], env(j).table.rows[key]))
  }

  predicate RowIsCoherent(r: TargetRecord, key: TargetKey) {
    && r.key == key
    && (r.state.Installed? || ValidRecord(r))
  }

  predicate SameNames(a: TargetRecord, b: TargetRecord) {
    a.state.Materializing? && b.state.Materializing? ==>
      && (a.state.reservationId == b.state.reservationId ==> a.generation == b.generation)
      && (a.state.attemptId == b.state.attemptId ==> a == b)
  }

  /** One write is one atomic acquire that handed out `outcome`. */
  predicate IsAtomicAcquire(q: AcquireTarget, max: nat, before: Table, after: Table, outcome: AcquireOutcome) {
    MemoryRegistry.Acquire(View(before, max), q) == (Ok(outcome), View(after, max))
  }

  // The reserving transaction is an atomic acquire.
  lemma ReserveIsAtomic(t: Table, q: AcquireTarget, max: nat)
    requires FirstLease(q).Ok? && q.spec.materializedMib <= max
    requires TryReserve(t, FirstLease(q).value, q.nowMs, max).Some?
    ensures IsAtomicAcquire(q, max, t, TryReserve(t, FirstLease(q).value, q.nowMs, max).value, Acquired(FirstLease(q).value))
  {
  }

  // A row-only answer is what the atomic registry answers at the instant of the read.
  lemma AnswerIsAtomic(t: Table, q: AcquireTarget, max: nat)
    requires FirstLease(q).Ok? && q.key in t.rows && Choose(q, t.rows[q.key]).Answer?
    ensures IsAtomicAcquire(q, max, t, t, Choose(q, t.rows[q.key]).outcome)
  {
  }

  // Replacing an expired reservation: the reservation id read earlier still names the generation checked then.
  lemma ReplaceExpiredIsAtomic(t: Table, seen: TargetRecord, q: AcquireTarget, max: nat)
    requires FirstLease(q).Ok? && Choose(q, seen).ReplaceExpired?
    requires TryReplaceExpired(t, seen.state.reservationId, q, FirstLease(q).value).Some?
    requires RowIsCoherent(t.rows[q.key], q.key) && SameNames(seen, t.rows[q.key])
    ensures IsAtomicAcquire(q, max, t, TryReplaceExpired(t, seen.state.reservationId, q, FirstLease(q).value).value,
                            Acquired(FirstLease(q).value))
  {
    var lease, r := FirstLease(q).value, t.rows[q.key];
    assert r.spec == q.spec;
    assert Reseal(r, lease, q.nowMs) == RecordFromLease(lease, q.nowMs);
  }

  // Taking over an attempt: the attempt id read earlier names the whole row, so the lease built from the read
  // is the lease of the row that was written.
  lemma TakeAttemptIsAtomic(t: Table, seen: TargetRecord, q: AcquireTarget, max: nat, deadline: nat)
    requires FirstLease(q).Ok? && Choose(q, seen).TakeAttempt? && TakeoverDeadline(seen, q) == Ok(deadline)
    requires TryTakeAttempt(t, seen, q, deadline).Some?
    requires RowIsCoherent(t.rows[q.key], q.key) && SameNames(seen, t.rows[q.key])
    ensures IsAtomicAcquire(q, max, t, TryTakeAttempt(t, seen, q, deadline).value, Acquired(TakenLease(seen, q, deadline)))
  {
    assert t.rows[q.key] == seen;
    TakeoverIsValidIff(seen, q.attemptId, q.attemptDurationMs, q.nowMs);
  }

  lemma ReplaceGoneIsAtomic(t: Table, seen: TargetRecord, q: AcquireTarget, max: nat)
    requires FirstLease(q).Ok? && q.spec.materializedMib <= max && Choose(q, seen).ReplaceGone?
    requires TryReplaceGone(t, seen, q, FirstLease(q).value, max).Some?
    requires RowIsCoherent(t.rows[q.key], q.key)
    ensures IsAtomicAcquire(q, max, t, TryReplaceGone(t, seen, q, FirstLease(q).value, max).value,
                            Acquired(FirstLease(q).value))
  {
    var lease, r := FirstLease(q).value, t.rows[q.key];
    assert r.spec == q.spec;
    assert Reseal(r, lease, q.nowMs) == RecordFromLease(lease, q.nowMs);
  }

  /** The counter is within its bound, or the target is charged for. */
  predicate Sound(q: AcquireTarget, t: Table, max: nat) {
    q.spec.materializedMib > 0 || Reserved(t) <= max
  }

  // A full plane is why an undisturbed reservation or replacement is refused.
  lemma ReserveIsRefused(t: Table, q: AcquireTarget, max: nat)
    requires FirstLease(q).Ok? && q.spec.materializedMib <= max && q.key !in t.rows
    requires TryReserve(t, FirstLease(q).value, q.nowMs, max).None?
    ensures q.spec.materializedMib > SaturatingSub(max, Reserved(t)) <==> Sound(q, t, max)
    ensures MemoryRegistry.Acquire(View(t, max), q).0 == Err(Capacity)
  {
  }

  lemma ReplaceGoneIsRefused(t: Table, q: AcquireTarget, max: nat)
    requires FirstLease(q).Ok? && q.spec.materializedMib <= max && q.key in t.rows
    requires Choose(q, t.rows[q.key]).ReplaceGone?
    requires TryReplaceGone(t, t.rows[q.key], q, FirstLease(q).value, max).None?
    ensures q.spec.materializedMib > SaturatingSub(max, Reserved(t)) <==> Sound(q, t, max)
    ensures MemoryRegistry.Acquire(View(t, max), q).0 == Err(Capacity)
  {
  }

  // A row that fails the request fails it in the atomic registry as well.
  lemma FailIsAtomic(t: Table, q: AcquireTarget, max: nat)
    requires FirstLease(q).Ok? && q.key in t.rows && Choose(q, t.rows[q.key]).Fail?
    ensures MemoryRegistry.Acquire(View(t, max), q).0 == Err(Choose(q, t.rows[q.key]).error)
  {
  }

  /** A conditional write takes effect when it is served, or when it is applied and its answer is lost. */
  predicate WriteLands(access: Access, result: Option<Table>) {
    result.Some? && (access.reply.Served? || access.reply == Unavailable(true))
  }

  /** How far one acquire call got: its answer once it is decided, the instant of the deciding call, the
      number of database calls and the writes that took effect. */
  datatype Progress = Progress(answer: Option<Outcome<AcquireOutcome>>, at: nat, calls: nat, writes: seq<Write>)

  /** The linearization of a call. A successful answer and its row-and-counter change are those of the atomic
      acquire at the single instant `at`. A failure wrote nothing, unless the database lost the answer to a
      write, and that write was itself an atomic acquire. */
  ghost predicate Linearized(q: AcquireTarget, max: nat, env: nat -> Access, p: Progress) {
    match p.answer
    case None => p.writes == []
    case Some(Ok(outcome)) =>
      && p.at < p.calls && env(p.at).reply.Served?
      && ((p.writes == [] && IsAtomicAcquire(q, max, env(p.at).table, env(p.at).table, outcome))
          || (exists after :: p.writes == [Write(p.at, after)] && IsAtomicAcquire(q, max, env(p.at).table, after, outcome)))
    case Some(Err(error)) =>
      || p.writes == []
      || (exists at: nat, after, outcome ::
            && p.writes == [Write(at, after)] && at < p.calls
            && error == Storage && env(at).reply == Unavailable(true)
            && IsAtomicAcquire(q, max, env(at).table, after, outcome))
  }

  /** Sends one conditional write whose effect, if it lands, is an atomic acquire handing out `lease`. */
  method Send(q: AcquireTarget, max: nat, env: nat -> Access, calls: nat, result: Option<Table>, lease: Lease)
    returns (p: Progress)
    requires result.Some? ==> IsAtomicAcquire(q, max, env(calls).table, result.value, Acquired(lease))
    ensures Linearized(q, max, env, p) && p.calls == calls + 1
    ensures p.answer == if env(calls).reply.Unavailable? then Some(Err(Storage))
                        else if env(calls).reply.Served? && result.Some? then Some(Ok(Acquired(lease)))
                        else None
  {
    var access := env(calls);
    var writes := if WriteLands(access, result) then [Write(calls, result.value)] else [];
    var answer :=
      if access.reply.Unavailable? then Some(Err(Storage))
      else if writes != [] then Some(Ok(Acquired(lease)))
      else None;
    p := Progress(answer, calls, calls + 1, writes);
    if writes != [] {
      assert p.writes == [Write(calls, result.value)];
    }
  }

  /** Reads the plane counter after a failed reservation and names the failure. */
  method CapacityVerdict(q: AcquireTarget, max: nat, env: nat -> Access, calls: nat) returns (failure: Option<Failure>)
    ensures failure == (if env(calls).reply != Served then Some(Storage)
                        else if q.spec.materializedMib > SaturatingSub(max, Reserved(env(calls).table)) then Some(Capacity)
                        else None)
  {
    var access := env(calls);
    if access.reply != Served { return Some(Storage); }
    if q.spec.materializedMib > SaturatingSub(max, Reserved(access.table)) { return Some(Capacity); }
    return None;
  }

  /** Nobody else writes, and the database serves every call, from the n-th call up to the m-th. */
  ghost predicate Quiet(env: nat -> Access, n: nat, m: nat) {
    forall i :: n <= i < m ==> env(i).reply.Served? && env(i).table == env(n).table
  }

  /** The n-th call read a counter without room, right after a read that found the key free or its target lost. */
  predicate FullAt(q: AcquireTarget, max: nat, env: nat -> Access, n: nat) {
    && 0 < n && env(n).reply.Served? && env(n - 1).reply.Served?
    && q.spec.materializedMib > SaturatingSub(max, Reserved(env(n).table))
    && (q.key in env(n - 1).table.rows ==>
          env(n - 1).table.rows[q.key].state.Closed? && env(n - 1).table.rows[q.key].state.disposition.Lost?)
  }

  lemma FullHere(q: AcquireTarget, max: nat, env: nat -> Access, n: nat)
    requires 0 < n && env(n).reply.Served? && env(n - 1).reply.Served? && q.key !in env(n - 1).table.rows
    requires q.spec.materializedMib > SaturatingSub(max, Reserved(env(n).table))
    ensures FullAt(q, max, env, n)
  {
  }

  /** Capacity is named as the cause only on such evidence, within the calls made. */
  ghost predicate CapacityIsProven(q: AcquireTarget, max: nat, env: nat -> Access, p: Progress) {
    p.answer == Some(Err(Capacity)) ==> exists n: nat :: n < p.calls && FullAt(q, max, env, n)
  }

  ghost predicate Undisturbed(env: nat -> Access) {
    forall i :: env(i).reply.Served? && env(i).table == env(0).table
  }

  /** What one round owes to the row it read. A row that does not serve the request, an installed or closed one, and
      an attempt that is live or past its target's deadline are answered on the spot, without a write. */
  predicate AnswersRow(q: AcquireTarget, r: TargetRecord, p: Progress) {
    if !Serves(r, q) then
      p.writes == [] && p.answer == Some(Err(if RecordError(r).Some? then RecordError(r).value else SpecConflict))
    else
      match r.state
      case Installed(ref, token, installedAt, expiresAt) =>
        && p.writes == []
        && p.answer == Some(Ok(AlreadyInstalled(InstalledTarget(
                         r.key, r.spec, r.specDigest, ref, r.generation, token, installedAt, expiresAt))))
      case Materializing(_, _, _, attemptExpires, targetExpires, leaseExpires) =>
        && (q.nowMs < targetExpires && q.nowMs < attemptExpires ==>
              p.writes == [] && p.answer.Some? && Waits(p.answer.value, r, attemptExpires, q.nowMs))
        && (targetExpires <= q.nowMs < leaseExpires ==>
              p.writes == [] && p.answer.Some? && Waits(p.answer.value, r, leaseExpires, q.nowMs))
      case Closed(disposition, _, _) =>
        && (disposition.Terminated? ==> p.writes == [] && p.answer == Some(Ok(IsTerminated)))
        && (disposition.Lost? && !q.replaceAfterLoss ==> p.writes == [] && p.answer == Some(Ok(IsGone)))
  }

  method SendReplaceExpired(q: AcquireTarget, max: nat, env: nat -> Access, calls: nat, seen: TargetRecord)
    returns (p: Progress)
    requires FirstLease(q).Ok? && Choose(q, seen).ReplaceExpired?
    requires q.key in env(calls).table.rows ==>
               RowIsCoherent(env(calls).table.rows[q.key], q.key) && SameNames(seen, env(calls).table.rows[q.key])
    ensures Linearized(q, max, env, p) && p.calls == calls + 1
    ensures CapacityIsProven(q, max, env, p)
    ensures env(calls).reply.Served? && q.key in env(calls).table.rows && env(calls).table.rows[q.key] == seen ==>
              p.answer == Some(MemoryRegistry.Acquire(View(env(calls).table, max), q).0)
  {
    var lease := FirstLease(q).value;
    var result := TryReplaceExpired(env(calls).table, seen.state.reservationId, q, lease);
    if result.Some? { ReplaceExpiredIsAtomic(env(calls).table, seen, q, max); }
    p := Send(q, max, env, calls, result, lease);
  }

  method SendTakeAttempt(q: AcquireTarget, max: nat, env: nat -> Access, calls: nat, seen: TargetRecord)
    returns (p: Progress)
    requires FirstLease(q).Ok? && Choose(q, seen).TakeAttempt?
    requires q.key in env(calls).table.rows ==>
               RowIsCoherent(env(calls).table.rows[q.key], q.key) && SameNames(seen, env(calls).table.rows[q.key])
    ensures Linearized(q, max, env, p) && p.calls <= calls + 1
    ensures CapacityIsProven(q, max, env, p)
    ensures env(calls).reply.Served? && q.key in env(calls).table.rows && env(calls).table.rows[q.key] == seen ==>
              p.answer == Some(MemoryRegistry.Acquire(View(env(calls).table, max), q).0)
  {
    var deadline := TakeoverDeadline(seen, q);
    if deadline.Err? { return Progress(Some(Err(deadline.error)), 0, calls, []); }
    var result := TryTakeAttempt(env(calls).table, seen, q, deadline.value);
    if result.Some? { TakeAttemptIsAtomic(env(calls).table, seen, q, max, deadline.value); }
    p := Send(q, max, env, calls, result, TakenLease(seen, q, deadline.value));
  }

  method SendReplaceGone(q: AcquireTarget, max: nat, env: nat -> Access, calls: nat, seen: TargetRecord)
    returns (p: Progress)
    requires FirstLease(q).Ok? && q.spec.materializedMib <= max && Choose(q, seen).ReplaceGone?
    requires q.key in env(calls).table.rows ==> RowIsCoherent(env(calls).table.rows[q.key], q.key)
    ensures Linearized(q, max, env, p) && p.calls <= calls + 3
    ensures CapacityIsProven(q, max, env, p)
    ensures Quiet(env, calls, calls + 3) && Sound(q, env(calls).table, max) && q.key in env(calls).table.rows && env(calls).table.rows[q.key] == seen ==>
              p.answer == Some(MemoryRegistry.Acquire(View(env(calls).table, max), q).0)
  {
    var lease := FirstLease(q).value;
    var result := TryReplaceGone(env(calls).table, seen, q, lease, max);
    if result.Some? { ReplaceGoneIsAtomic(env(calls).table, seen, q, max); }
    p := Send(q, max, env, calls, result, lease);
    if result.None? && q.key in env(calls).table.rows && env(calls).table.rows[q.key] == seen {
      ReplaceGoneIsRefused(env(calls).table, q, max);
    }
    hide MemoryRegistry.Acquire, FirstLease, TryReplaceGone;
    if p.answer.Some? { return; }
    // Confirm both the exact lost row and the counter before naming capacity as the cause.
    var access := env(p.calls);
    if access.reply != Served { return Progress(Some(Err(Storage)), 0, p.calls + 1, []); }
    if q.key in access.table.rows {
      var latest := access.table.rows[q.key];
      if latest.generation == seen.generation && latest.specDigest == seen.specDigest
         && latest.state.Closed? && latest.state.disposition == Lost {
        var failure := CapacityVerdict(q, max, env, p.calls + 1);
        assert failure == Some(Capacity) ==> FullAt(q, max, env, p.calls + 1);
        if failure.Some? { return Progress(Some(Err(failure.value)), 0, p.calls + 2, []); }
        return Progress(None, 0, p.calls + 2, []);
      }
    }
    p := Progress(None, 0, p.calls + 1, []);
  }

  /** One round: a strong read, then the answer or the one conditional write that the row calls for. */
  method Round(q: AcquireTarget, max: nat, env: nat -> Access, calls: nat) returns (p: Progress)
    requires Coherent(env, q.key) && FirstLease(q).Ok? && q.spec.materializedMib <= max
    ensures Linearized(q, max, env, p) && p.calls <= calls + 4
    ensures CapacityIsProven(q, max, env, p)
    ensures env(calls).reply != Served ==> p.answer == Some(Err(Storage)) && p.writes == []
    ensures env(calls).reply.Served? && q.key in env(calls).table.rows ==> AnswersRow(q, env(calls).table.rows[q.key], p)
    ensures Quiet(env, calls, calls + 4) && Sound(q, env(calls).table, max) && q.key in env(calls).table.rows ==>
              p.answer == Some(MemoryRegistry.Acquire(View(env(calls).table, max), q).0)
    ensures Quiet(env, calls, calls + 4) && Sound(q, env(calls).table, max) && q.key !in env(calls).table.rows
            && TryReserve(env(calls).table, FirstLease(q).value, q.nowMs, max).None? ==>
              p.answer == Some(Err(Capacity))
  {
    hide MemoryRegistry.Acquire, ValidKey, Identifier, IsAtomicAcquire, RecordError, FullAt;
    var access := env(calls);
    if access.reply != Served { return Progress(Some(Err(Storage)), 0, calls + 1, []); }
    if q.key !in access.table.rows {
      if TryReserve(access.table, FirstLease(q).value, q.nowMs, max).None? { ReserveIsRefused(access.table, q, max); }
      // A cancelled transaction also covers conflicts: never report those as quota exhaustion.
      var failure := CapacityVerdict(q, max, env, calls + 1);
      if failure == Some(Capacity) { FullHere(q, max, env, calls + 1); }
      return Progress(Some(Err(if failure.Some? then failure.value else Storage)), 0, calls + 2, []);
    }
    var seen := access.table.rows[q.key];
    RecordIsValidIff(seen);
    match Choose(q, seen) {
      case Fail(error) =>
        FailIsAtomic(access.table, q, max);
        p := Progress(Some(Err(error)), calls, calls + 1, []);
      case Answer(outcome) =>
        AnswerIsAtomic(access.table, q, max);
        p := Progress(Some(Ok(outcome)), calls, calls + 1, []);
      case ReplaceExpired => p := SendReplaceExpired(q, max, env, calls + 1, seen);
      case TakeAttempt => p := SendTakeAttempt(q, max, env, calls + 1, seen);
      case ReplaceGone => p := SendReplaceGone(q, max, env, calls + 1, seen);
    }
  }

  /** The bounded acquire loop under arbitrary interference: it linearizes, within seventeen database calls. */
  method Acquire(q: AcquireTarget, max: nat, env: nat -> Access) returns (p: Progress)
    requires Coherent(env, q.key)
    ensures p.answer.Some? && Linearized(q, max, env, p)
    ensures p.calls <= 17
    ensures q.spec.materializedMib <= max ==> CapacityIsProven(q, max, env, p)
    ensures FirstLease(q).Ok? && q.spec.materializedMib > max ==> p.answer == Some(Err(Capacity)) && p.calls == 0
    ensures Undisturbed(env) && Sound(q, env(0).table, max) && q.spec.materializedMib <= max ==>
              p.answer == Some(MemoryRegistry.Acquire(View(env(0).table, max), q).0)
  {
    var first := FirstLease(q);
    if first.Err? {
      AcquireRefusesRequest(View(env(0).table, max), q);
      return Progress(Some(Err(first.error)), 0, 0, []);
    }
    var lease := first.value;
    hide MemoryRegistry.Acquire, ValidKey, Identifier, AnswersRow, TryReserve;
    if lease.spec.materializedMib > max { return Progress(Some(Err(Capacity)), 0, 0, []); }
    var reserved := TryReserve(env(0).table, lease, q.nowMs, max);
    if reserved.Some? { ReserveIsAtomic(env(0).table, q, max); }
    else if q.key !in env(0).table.rows { ReserveIsRefused(env(0).table, q, max); }
    p := Send(q, max, env, 0, reserved, lease);
    for round := 0 to 4
      invariant Linearized(q, max, env, p) && p.calls <= 1 + 4 * round
      invariant CapacityIsProven(q, max, env, p)
      invariant Undisturbed(env) && round == 0 && reserved.None? ==> p.answer.None?
      invariant Undisturbed(env) && Sound(q, env(0).table, max) && (round > 0 || reserved.Some?) ==>
                  p.answer == Some(MemoryRegistry.Acquire(View(env(0).table, max), q).0)
    {
      if p.answer.Some? { break; }
      p := Round(q, max, env, p.calls);
    }
    if p.answer.None? {
      p := Progress(Some(Err(Storage)), 0, p.calls, []);
    }
  }
}
