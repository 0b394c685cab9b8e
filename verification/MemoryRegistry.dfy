/** The in-memory target registry: the atomic meaning of every registry transition
    (crates/hand-core/src/materialization/memory.rs), the orchestration over it (materializer.rs),
    and the conservation of the plane memory counter. */
module MemoryRegistry {
  import opened Wrappers
  import opened TargetRecords
  import opened MapTotals
  import opened Arithmetic

  type Rows = map<TargetKey, TargetRecord>

  /** The registry as a value: rows, the plane counter and its bound. */
  datatype Registry = Registry(rows: Rows, reserved: nat, max: nat)

  // ---- Capacity ----

  function ReserveCapacity(s: Registry, mib: nat): Outcome<Registry> {
    if s.reserved > SaturatingSub(s.max, mib) then Err(Capacity)
    else Ok(s.(reserved := s.reserved + mib))
  }

  function RefundCapacity(s: Registry, mib: nat): (Outcome<()>, Registry) {
    if s.reserved < mib then (Err(Corrupt), s)
    else (Ok(()), s.(reserved := s.reserved - mib))
  }

  // ---- Transitions ----

  /** A request that fences its generation meets a row of another generation. A default target may
      replace a lost one under a new generation. */
  predicate FencedOut(q: AcquireTarget, r: TargetRecord) {
    && q.generationIsFenced
    && r.generation != q.generation
    && !(q.replaceAfterLoss && r.state.Closed? && r.state.disposition == Lost)
  }

  /** Takes over an expired attempt in place. The row is changed before the two failures are found. */
  function TakeAttempt(r: TargetRecord, q: AcquireTarget): (Outcome<Lease>, TargetRecord)
    requires r.state.Materializing?
  {
    var named := r.(state := r.state.(attemptId := q.attemptId));
    if q.nowMs + q.attemptDurationMs > U64_MAX then (Err(InvalidLease), named)
    else
      var taken := TakenOver(r, q.attemptId, Min(q.nowMs + q.attemptDurationMs, r.state.leaseExpiresAtMs), q.nowMs);
      if RecordError(taken).Some? then (Err(RecordError(taken).value), taken)
      else (Ok(RecoveryLease(taken)), taken)
  }

  function Acquire(s: Registry, q: AcquireTarget): (Outcome<AcquireOutcome>, Registry) {
    if FirstLease(q).Err? then (Err(FirstLease(q).error), s)
    else
      var lease := FirstLease(q).value;
      if q.key !in s.rows then
        var charged := ReserveCapacity(s, lease.spec.materializedMib);
        if charged.Err? then (Err(charged.error), s)
        else (Ok(Acquired(lease)),
              charged.value.(rows := s.rows[q.key := RecordFromLease(lease, q.nowMs)]))
      else
        var r := s.rows[q.key];
        if RecordError(r).Some? then (Err(RecordError(r).value), s)
        else if r.specDigest != lease.specDigest || FencedOut(q, r) then (Err(SpecConflict), s)
        else
          match r.state
          case Installed(_, _, _, _) => (Ok(AlreadyInstalled(InstalledView(r))), s)
          case Materializing(_, _, _, attemptExpires, targetExpires, leaseExpires) =>
            if leaseExpires <= q.nowMs then
              (Ok(Acquired(lease)), s.(rows := s.rows[q.key := RecordFromLease(lease, q.nowMs)]))
            else if targetExpires <= q.nowMs then
              (Ok(StillPending(r.generation, PollAfter(leaseExpires, q.nowMs))), s)
            else if attemptExpires > q.nowMs then
              (Ok(StillPending(r.generation, PollAfter(attemptExpires, q.nowMs))), s)
            else
              var (taken, row) := TakeAttempt(r, q);
              (if taken.Ok? then Ok(Acquired(taken.value)) else Err(taken.error), s.(rows := s.rows[q.key := row]))
          case Closed(disposition, _, _) =>
            if disposition.Lost? && q.replaceAfterLoss then
              var charged := ReserveCapacity(s, lease.spec.materializedMib);
              if charged.Err? then (Err(charged.error), s)
              else (Ok(Acquired(lease)),
                    charged.value.(rows := s.rows[q.key := RecordFromLease(lease, q.nowMs)]))
            else if disposition.Lost? then (Ok(IsGone), s)
            else (Ok(IsTerminated), s)
  }

  function Install(s: Registry, lease: Lease, target: PhysicalTarget, nowMs: nat): (Outcome<InstallOutcome>, Registry) {
    if !Identifier(target.targetRef.token) || !Identifier(target.generation) then (Err(InvalidIdentity), s)
    else if lease.key !in s.rows then (Ok(InstallLost), s)
    else
      var r := s.rows[lease.key];
      if r.specDigest != lease.specDigest || r.generation != lease.generation then (Ok(InstallLost), s)
      else if r.state.Materializing? && r.state.reservationId == lease.reservationId then
        var row := r.(state := Installed(target.targetRef, target.controlToken, nowMs, lease.targetExpiresAtMs),
                      generation := target.generation, updatedAtMs := nowMs);
        (Ok(InstallDone(InstalledView(row))), s.(rows := s.rows[lease.key := row]))
      else if r.state.Installed? && r.state.targetRef == target.targetRef
              && r.state.controlToken == target.controlToken && r.generation == target.generation then
        (Ok(InstallDone(InstalledView(r))), s)
      else (Ok(InstallLost), s)
  }

  /** The row is the one that exactly this attempt owns. */
  predicate OwnsAttempt(s: Registry, lease: Lease) {
    && lease.key in s.rows
    && s.rows[lease.key].generation == lease.generation
    && s.rows[lease.key].state.Materializing?
    && s.rows[lease.key].state.reservationId == lease.reservationId
    && s.rows[lease.key].state.attemptId == lease.attemptId
  }

  function ExpireLease(s: Registry, lease: Lease): (Outcome<()>, Registry) {
    if OwnsAttempt(s, lease) then
      RefundCapacity(s.(rows := s.rows - {lease.key}), lease.spec.materializedMib)
    else (Ok(()), s)
  }

  function MarkClosed(s: Registry, target: InstalledTarget, disposition: Disposition, reason: string, nowMs: nat)
    : (Outcome<()>, Registry)
  {
    if !ValidReason(reason) then (Err(InvalidIdentity), s)
    else if target.key !in s.rows then (Err(ReservationLost), s)
    else
      var r := s.rows[target.key];
      if r.state.Installed? && r.state.targetRef == target.targetRef && r.generation == target.generation then
        RefundCapacity(
          s.(rows := s.rows[target.key := r.(state := Closed(disposition, reason, nowMs), updatedAtMs := nowMs)]),
          target.spec.materializedMib)
      else if r.state.Closed? then (Ok(()), s)
      else (Err(ReservationLost), s)
  }

  // ---- The registry object ----

  class MemoryTargetRegistry {
    var records: Rows
    var reservedMib: nat
    const maxMib: nat

    ghost function State(): Registry
      reads this
    {
      Registry(records, reservedMib, maxMib)
    }

    constructor (max: nat)
      ensures State() == Registry(map[], 0, max)
    {
      records, reservedMib, maxMib := map[], 0, max;
    }

    method Reserve(mib: nat) returns (r: Outcome<()>)
      modifies this`reservedMib
      ensures match ReserveCapacity(old(State()), mib)
              case Ok(s) => r == Ok(()) && State() == s
              case Err(e) => r == Err(e) && State() == old(State())
    {
      if reservedMib > SaturatingSub(maxMib, mib) { return Err(Capacity); }
      reservedMib := reservedMib + mib;
      return Ok(());
    }

    method Refund(mib: nat) returns (r: Outcome<()>)
      modifies this`reservedMib
      ensures (r, State()) == RefundCapacity(old(State()), mib)
    {
      if reservedMib < mib { return Err(Corrupt); }
      reservedMib := reservedMib - mib;
      return Ok(());
    }

    method AcquireTarget(q: AcquireTarget) returns (r: Outcome<AcquireOutcome>)
      modifies this
      ensures (r, State()) == Acquire(old(State()), q)
    {
      var first := FirstLease(q);
      if first.Err? { return Err(first.error); }
      var lease := first.value;
      if q.key !in records {
        var charged := Reserve(lease.spec.materializedMib);
        if charged.Err? { return Err(charged.error); }
        records := records[q.key := RecordFromLease(lease, q.nowMs)];
        return Ok(Acquired(lease));
      }
      var record := records[q.key];
      if RecordError(record).Some? { return Err(RecordError(record).value); }
      if record.specDigest != lease.specDigest || FencedOut(q, record) { return Err(SpecConflict); }
      match record.state {
        case Installed(_, _, _, _) =>
          return Ok(AlreadyInstalled(InstalledView(record)));
        case Materializing(_, _, _, attemptExpires, targetExpires, leaseExpires) =>
          if leaseExpires <= q.nowMs {
            records := records[q.key := RecordFromLease(lease, q.nowMs)];
            return Ok(Acquired(lease));
          } else if targetExpires <= q.nowMs {
            return Ok(StillPending(record.generation, PollAfter(leaseExpires, q.nowMs)));
          } else if attemptExpires > q.nowMs {
            return Ok(StillPending(record.generation, PollAfter(attemptExpires, q.nowMs)));
          }
          var (taken, row) := TakeAttempt(record, q);
          records := records[q.key := row];
          return if taken.Ok? then Ok(Acquired(taken.value)) else Err(taken.error);
        case Closed(disposition, _, _) =>
          if disposition.Lost? && q.replaceAfterLoss {
            var charged := Reserve(lease.spec.materializedMib);
            if charged.Err? { return Err(charged.error); }
            records := records[q.key := RecordFromLease(lease, q.nowMs)];
            return Ok(Acquired(lease));
          }
          return Ok(if disposition.Lost? then IsGone else IsTerminated);
      }
    }

    method InstallTarget(lease: Lease, target: PhysicalTarget, nowMs: nat) returns (r: Outcome<InstallOutcome>)
      modifies this`records
      ensures (r, State()) == Install(old(State()), lease, target, nowMs)
    {
      if !Identifier(target.targetRef.token) || !Identifier(target.generation) { return Err(InvalidIdentity); }
      if lease.key !in records { return Ok(InstallLost); }
      var record := records[lease.key];
      if record.specDigest != lease.specDigest || record.generation != lease.generation { return Ok(InstallLost); }
      if record.state.Materializing? && record.state.reservationId == lease.reservationId {
        record := record.(state := Installed(target.targetRef, target.controlToken, nowMs, lease.targetExpiresAtMs),
                          generation := target.generation, updatedAtMs := nowMs);
        records := records[lease.key := record];
        return Ok(InstallDone(InstalledView(record)));
      }
      if record.state.Installed? && record.state.targetRef == target.targetRef
         && record.state.controlToken == target.controlToken && record.generation == target.generation {
        return Ok(InstallDone(InstalledView(record)));
      }
      return Ok(InstallLost);
    }

    method ExpireTargetLease(lease: Lease) returns (r: Outcome<()>)
      modifies this
      ensures (r, State()) == ExpireLease(old(State()), lease)
    {
      var release := false;
      if lease.key in records {
        var record := records[lease.key];
        release := record.generation == lease.generation && record.state.Materializing?
                   && record.state.reservationId == lease.reservationId && record.state.attemptId == lease.attemptId;
      }
      if release {
        records := records - {lease.key};
        r := Refund(lease.spec.materializedMib);
        return;
      }
      return Ok(());
    }

    method CloseTarget(target: InstalledTarget, disposition: Disposition, reason: string, nowMs: nat)
      returns (r: Outcome<()>)
      modifies this
      ensures (r, State()) == MarkClosed(old(State()), target, disposition, reason, nowMs)
    {
      if !ValidReason(reason) { return Err(InvalidIdentity); }
      if target.key !in records { return Err(ReservationLost); }
      var record := records[target.key];
      if record.state.Installed? && record.state.targetRef == target.targetRef && record.generation == target.generation {
        records := records[target.key := record.(state := Closed(disposition, reason, nowMs), updatedAtMs := nowMs)];
        r := Refund(target.spec.materializedMib);
        return;
      }
      return if record.state.Closed? then Ok(()) else Err(ReservationLost);
    }
  }

  // ---- Counter conservation ----

  function Charge(r: TargetRecord): nat {
    if r.state.Closed? then 0 else r.spec.materializedMib
  }

  function Charges(rows: Rows): map<TargetKey, nat> {
    map k | k in rows :: Charge(rows[k])
  }

  /** Rows sit under their own key, carry the digest of their own spec, and are what the counter counts. */
  ghost predicate Accounted(s: Registry) {
    && WellKeyed(s)
    && s.reserved == Total(Charges(s.rows))
  }

  /** A call of the registry. Leases and installed targets are those a caller was once handed: they name
      the memory of their spec. */
  datatype Op =
    | DoAcquire(q: AcquireTarget)
    | DoInstall(lease: Lease, target: PhysicalTarget, nowMs: nat)
    | DoExpire(lease: Lease)
    | DoClose(closing: InstalledTarget, disposition: Disposition, reason: string, nowMs: nat)

  function Step(s: Registry, op: Op): Registry {
    match op
    case DoAcquire(q) => Acquire(s, q).1
    case DoInstall(lease, target, now) => Install(s, lease, target, now).1
    case DoExpire(lease) => ExpireLease(s, lease).1
    case DoClose(target, disposition, reason, now) => MarkClosed(s, target, disposition, reason, now).1
  }

  /** The call closes the installed row it names. */
  predicate ClosesRow(s: Registry, target: InstalledTarget, reason: string) {
    && ValidReason(reason) && target.key in s.rows && s.rows[target.key].state.Installed?
    && s.rows[target.key].state.targetRef == target.targetRef && s.rows[target.key].generation == target.generation
  }

  /** A lease or target that still names the row names as much memory as the row. */
  predicate HonestOp(s: Registry, op: Op) {
    match op
    case DoAcquire(_) => true
    case DoInstall(_, _, _) => true
    case DoExpire(lease) =>
      OwnsAttempt(s, lease) ==> s.rows[lease.key].spec.materializedMib == lease.spec.materializedMib
    case DoClose(target, _, reason, _) =>
      ClosesRow(s, target, reason) ==> s.rows[target.key].spec.materializedMib == target.spec.materializedMib
  }

  function Run(s: Registry, ops: seq<Op>): Registry
    decreases |ops|
  {
    if ops == [] then s else Step(Run(s, ops[..|ops| - 1]), ops[|ops| - 1])
  }

  predicate HonestRun(s: Registry, ops: seq<Op>) {
    forall i :: 0 <= i < |ops| ==> HonestOp(Run(s, ops[..i]), ops[i])
  }

  function KeyOf(op: Op): TargetKey {
    match op
    case DoAcquire(q) => q.key
    case DoInstall(lease, _, _) => lease.key
    case DoExpire(lease) => lease.key
    case DoClose(target, _, _, _) => target.key
  }

  function ChargeAt(s: Registry, key: TargetKey): nat {
    if key in s.rows then Charge(s.rows[key]) else 0
  }

  predicate WellKeyed(s: Registry) {
    forall k :: k in s.rows ==> s.rows[k].key == k && s.rows[k].specDigest == SpecDigest(s.rows[k].spec)
  }

  /** One row at most changes, and the counter moves by exactly that row's charge, which goes from or to
      zero whenever it moves. */
  predicate MovesOneCharge(s: Registry, t: Registry, key: TargetKey) {
    && t.max == s.max
    && WellKeyed(t)
    && t.rows - {key} == s.rows - {key}
    && t.reserved + ChargeAt(s, key) == s.reserved + ChargeAt(t, key)
    && (ChargeAt(s, key) == ChargeAt(t, key) || ChargeAt(s, key) == 0 || ChargeAt(t, key) == 0)
  }

  /** Refunds are covered by the counter. */
  predicate Covered(s: Registry, key: TargetKey) {
    ChargeAt(s, key) <= s.reserved
  }

  lemma AcquireMovesOneCharge(s: Registry, q: AcquireTarget)
    requires WellKeyed(s)
    ensures MovesOneCharge(s, Acquire(s, q).1, q.key)
  {
    var t := Acquire(s, q).1;
    assert t.rows == s.rows || (q.key in t.rows && t.rows == s.rows[q.key := t.rows[q.key]]);
    assert q.key in t.rows ==> t.rows[q.key].key == q.key && t.rows[q.key].specDigest == SpecDigest(t.rows[q.key].spec);
  }

  lemma InstallMovesOneCharge(s: Registry, lease: Lease, target: PhysicalTarget, nowMs: nat)
    requires WellKeyed(s)
    ensures MovesOneCharge(s, Install(s, lease, target, nowMs).1, lease.key)
  {
    var t := Install(s, lease, target, nowMs).1;
    assert t.rows == s.rows || (lease.key in t.rows && t.rows == s.rows[lease.key := t.rows[lease.key]]);
  }

  lemma StepMovesOneCharge(s: Registry, op: Op)
    requires WellKeyed(s) && HonestOp(s, op) && Covered(s, KeyOf(op))
    ensures MovesOneCharge(s, Step(s, op), KeyOf(op))
    ensures op.DoExpire? ==> ExpireLease(s, op.lease).0.Ok?
    ensures op.DoClose? ==> MarkClosed(s, op.closing, op.disposition, op.reason, op.nowMs).0 != Err(Corrupt)
  {
    match op
    case DoAcquire(q) => AcquireMovesOneCharge(s, q);
    case DoInstall(lease, target, now) => InstallMovesOneCharge(s, lease, target, now);
    case DoExpire(lease) =>
    case DoClose(target, disposition, reason, now) =>
  }

  // A call that moves one charge keeps the counter equal to the sum.
  lemma MovingKeepsAccounts(s: Registry, t: Registry, key: TargetKey)
    requires Accounted(s) && MovesOneCharge(s, t, key)
    ensures Accounted(t)
  {
    TotalRemoved(Charges(s.rows), key);
    TotalRemoved(Charges(t.rows), key);
    ChargesWithout(s.rows, key);
    ChargesWithout(t.rows, key);
    hide WellKeyed;
  }

  lemma ChargesWithout(rows: map<TargetKey, TargetRecord>, key: TargetKey)
    ensures Charges(rows) - {key} == Charges(rows - {key})
  {
  }

  lemma AccountsCover(s: Registry, key: TargetKey)
    requires Accounted(s)
    ensures WellKeyed(s) && Covered(s, key)
  {
    if key in s.rows { TotalAtLeast(Charges(s.rows), key); }
  }

  // Every call keeps the counter equal to the sum, and no refund ever underflows.
  lemma StepAccounts(s: Registry, op: Op)
    requires Accounted(s) && HonestOp(s, op)
    ensures Accounted(Step(s, op)) && MovesOneCharge(s, Step(s, op), KeyOf(op))
    ensures op.DoExpire? ==> ExpireLease(s, op.lease).0.Ok?
    ensures op.DoClose? ==> MarkClosed(s, op.closing, op.disposition, op.reason, op.nowMs).0 != Err(Corrupt)
  {
    AccountsCover(s, KeyOf(op));
    StepMovesOneCharge(s, op);
    MovingKeepsAccounts(s, Step(s, op), KeyOf(op));
  }

  /** What a release or close would refund is what the row was charged; or the row was charged nothing and the refund
      is refused. */
  predicate KeepsAccounts(s: Registry, op: Op) {
    || HonestOp(s, op)
    || (ChargeAt(s, KeyOf(op)) == 0
        && ((op.DoExpire? && op.lease.spec.materializedMib > s.reserved)
            || (op.DoClose? && op.closing.spec.materializedMib > s.reserved)))
  }

  // Exactly which calls keep the counter equal to the sum.
  lemma StepAccountsIff(s: Registry, op: Op)
    requires Accounted(s)
    ensures Accounted(Step(s, op)) <==> KeepsAccounts(s, op)
  {
    if HonestOp(s, op) {
      StepAccounts(s, op);
    } else {
      var key, t := KeyOf(op), Step(s, op);
      assert t.rows - {key} == s.rows - {key} && ChargeAt(t, key) == 0;
      hide Step, Accounted, WellKeyed;
      SumsDiffer(s, t, key);
      AccountsCover(s, key);
      DishonestRefund(s, op);
      AccountedIsSum(s);
    }
  }

  lemma AccountedIsSum(s: Registry)
    ensures Accounted(s) <==> WellKeyed(s) && s.reserved == Total(Charges(s.rows))
  {
  }

  // What a call that is not honest does to the counter and to the keys of the rows.
  lemma DishonestRefund(s: Registry, op: Op)
    requires Accounted(s) && !HonestOp(s, op)
    ensures op.DoExpire? || op.DoClose?
    ensures var mib := if op.DoExpire? then op.lease.spec.materializedMib else op.closing.spec.materializedMib;
            && mib != ChargeAt(s, KeyOf(op))
            && Step(s, op).reserved == if mib <= s.reserved then s.reserved - mib else s.reserved
    ensures WellKeyed(Step(s, op))
    ensures Accounted(Step(s, op)) <==> Step(s, op).reserved == Total(Charges(Step(s, op).rows))
  {
  }

  lemma SumsDiffer(s: Registry, t: Registry, key: TargetKey)
    requires t.rows - {key} == s.rows - {key}
    ensures Total(Charges(t.rows)) + ChargeAt(s, key) == Total(Charges(s.rows)) + ChargeAt(t, key)
  {
    TotalRemoved(Charges(s.rows), key);
    TotalRemoved(Charges(t.rows), key);
    ChargesWithout(s.rows, key);
    ChargesWithout(t.rows, key);
  }

  // In every run the counter is the sum over the materializing and installed rows.
  lemma {:induction false} RunAccounts(max: nat, ops: seq<Op>)
    requires HonestRun(Registry(map[], 0, max), ops)
    ensures Accounted(Run(Registry(map[], 0, max), ops))
    ensures Run(Registry(map[], 0, max), ops).max == max
    decreases |ops|
  {
    var s := Registry(map[], 0, max);
    if ops == [] {
      assert Charges(s.rows) == map[];
    } else {
      var before := ops[..|ops| - 1];
      forall i | 0 <= i < |before| ensures HonestOp(Run(s, before[..i]), before[i]) {
        assert before[..i] == ops[..i];
      }
      RunAccounts(max, before);
      assert HonestOp(Run(s, ops[..|before|]), ops[|before|]);
      StepAccounts(Run(s, before), ops[|ops| - 1]);
    }
  }

  // ---- Each charge is refunded exactly once ----

  datatype Entry = Charged(key: TargetKey, mib: nat) | Refunded(key: TargetKey, mib: nat)

  /** The ledger entry a call makes: what it added to or took from the counter, and for which key. */
  function Posting(s: Registry, op: Op): seq<Entry> {
    var t := Step(s, op);
    if t.reserved > s.reserved then [Charged(KeyOf(op), t.reserved - s.reserved)]
    else if t.reserved < s.reserved then [Refunded(KeyOf(op), s.reserved - t.reserved)]
    else []
  }

  function Ledger(s: Registry, ops: seq<Op>): seq<Entry>
    decreases |ops|
  {
    if ops == [] then []
    else
      var before := ops[..|ops| - 1];
      Ledger(s, before) + Posting(Run(s, before), ops[|ops| - 1])
  }

  /** Reads a ledger for one key: Some(open charge) while every charge is followed by exactly one refund of
      the same amount before the next charge; None once that fails. */
  function OpenCharge(entries: seq<Entry>, key: TargetKey): Option<nat>
    decreases |entries|
  {
    if entries == [] then Some(0)
    else
      var open := OpenCharge(entries[..|entries| - 1], key);
      var last := entries[|entries| - 1];
      if open.None? || last.key != key then open
      else
        match last
        case Charged(_, mib) => if open.value == 0 && mib > 0 then Some(mib) else None
        case Refunded(_, mib) => if open.value == mib && mib > 0 then Some(0) else None
  }

  // For every key the charges and refunds of any run alternate and match, and the one that is still open is
  // the charge of the row: each charge is refunded exactly once, or its row still stands.
  lemma {:induction false} EachChargeIsRefundedOnce(max: nat, ops: seq<Op>, key: TargetKey)
    requires HonestRun(Registry(map[], 0, max), ops)
    ensures OpenCharge(Ledger(Registry(map[], 0, max), ops), key)
            == Some(ChargeAt(Run(Registry(map[], 0, max), ops), key))
    decreases |ops|
  {
    var s := Registry(map[], 0, max);
    if ops != [] {
      var before := ops[..|ops| - 1];
      forall i | 0 <= i < |before| ensures HonestOp(Run(s, before[..i]), before[i]) {
        assert before[..i] == ops[..i];
      }
      EachChargeIsRefundedOnce(max, before, key);
      RunAccounts(max, before);
      assert HonestOp(Run(s, ops[..|before|]), ops[|before|]);
      var here, op := Run(s, before), ops[|ops| - 1];
      StepAccounts(here, op);
      hide Step, Accounted, HonestOp, MovesOneCharge, Posting, OpenCharge, ChargeAt, HonestRun;
      PostingMatches(here, op, Ledger(s, before), key);
    }
  }

  // One call's entry opens or settles the charge of its own key, and says nothing about others.
  lemma PostingMatches(s: Registry, op: Op, entries: seq<Entry>, key: TargetKey)
    requires MovesOneCharge(s, Step(s, op), KeyOf(op)) && OpenCharge(entries, key) == Some(ChargeAt(s, key))
    ensures OpenCharge(entries + Posting(s, op), key) == Some(ChargeAt(Step(s, op), key))
  {
    var t := Step(s, op);
    hide Step, WellKeyed;
    if key != KeyOf(op) { OtherChargeKept(s, t, KeyOf(op), key); }
    var all := entries + Posting(s, op);
    if Posting(s, op) == [] {
      assert all == entries;
    } else {
      assert all[..|all| - 1] == entries;
    }
  }

  lemma OtherChargeKept(s: Registry, t: Registry, changed: TargetKey, key: TargetKey)
    requires t.rows - {changed} == s.rows - {changed} && key != changed
    ensures ChargeAt(s, key) == ChargeAt(t, key)
  {
    assert key in s.rows <==> key in s.rows - {changed};
    assert key in t.rows <==> key in t.rows - {changed};
  }

  // ---- The plane bound ----

  /** Acquire charges the plane for this request: its key is free, or its lost default may be replaced. */
  predicate WouldCharge(s: Registry, q: AcquireTarget) {
    && FirstLease(q).Ok?
    && (q.key !in s.rows
        || (var r := s.rows[q.key];
            && RecordError(r).None? && r.specDigest == FirstLease(q).value.specDigest && !FencedOut(q, r)
            && r.state.Closed? && r.state.disposition.Lost? && q.replaceAfterLoss))
  }

  // The counter leaves the bound in one case only: an idle plane is charged for a target larger than the plane,
  // because the subtraction saturates.
  lemma AcquireKeepsBoundIff(s: Registry, q: AcquireTarget)
    requires s.reserved <= s.max
    ensures Acquire(s, q).1.reserved <= s.max
            <==> !(WouldCharge(s, q) && s.reserved == 0 && q.spec.materializedMib > s.max)
  {
  }

  // The saturating check really lets the counter pass the bound.
  lemma OversizedTargetOverrunsThePlane() returns (q: AcquireTarget)
    ensures Acquire(Registry(map[], 0, 512), q).0.Ok?
    ensures Acquire(Registry(map[], 0, 512), q).1.reserved == 1024 > 512
  {
    var spec := TargetSpec(NoConnector, "image-1", "microvm-1gb", 1024, "", "");
    q := AcquireTarget(TargetKey("r", DEFAULT_TARGET_KEY), spec, "a", "g", Undecodable(1), "t", 1, false, 1, 3, 2, false);
    assert Identifier("r") && Identifier("a") && Identifier("g") && Identifier("t");
  }

  lemma OnlyAcquireRaises(s: Registry, op: Op)
    ensures Step(s, op).reserved <= s.reserved || (op.DoAcquire? && Step(s, op).reserved == s.reserved + op.q.spec.materializedMib)
    ensures Step(s, op).max == s.max
    ensures op.DoAcquire? && Fits(op, s.max) && s.reserved <= s.max ==> Step(s, op).reserved <= s.max
  {
    if op.DoAcquire? && s.reserved <= s.max { AcquireKeepsBoundIff(s, op.q); }
  }

  predicate Fits(op: Op, max: nat) {
    op.DoAcquire? ==> op.q.spec.materializedMib <= max
  }

  // When every requested target fits the plane, no run of any calls takes the counter past the bound.
  lemma {:induction false} RunStaysWithinPlane(max: nat, ops: seq<Op>)
    requires forall i :: 0 <= i < |ops| ==> Fits(ops[i], max)
    ensures Run(Registry(map[], 0, max), ops).reserved <= max && Run(Registry(map[], 0, max), ops).max == max
    decreases |ops|
  {
    if ops != [] {
      var before := Run(Registry(map[], 0, max), ops[..|ops| - 1]);
      RunStaysWithinPlane(max, ops[..|ops| - 1]);
      OnlyAcquireRaises(before, ops[|ops| - 1]);
    }
  }
}
