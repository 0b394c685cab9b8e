/** The conditional writes of the materialization protocol keep the invariant: a row leaves or changes hands
    only when no VM of its token is alive or can still appear. */
module ProtocolWrites {
  import opened Wrappers
  import opened TargetRecords
  import opened TargetLauncher
  import opened DynamoRegistry
  import opened MaterializationProtocol
  import opened ProtocolSafety
  import opened ProtocolSteps
  import Memory = MemoryRegistry

  // ---- Counter ----

  lemma AccountsMoved(s: World, t: World, k: TargetKey)
    requires AccountsOk(s) && t.max == s.max
    requires Memory.MovesOneCharge(View(s.table, s.max), View(t.table, s.max), k)
    requires DynamoRegistry.Reserved(t.table) <= t.max
    ensures AccountsOk(t)
  {
    Memory.MovingKeepsAccounts(View(s.table, s.max), View(t.table, s.max), k);
  }

  // ---- One row changed ----

  lemma RowsOkExcept(s: World, t: World, k: TargetKey)
    requires RowsOk(s) && Grows(s, t) && s.table.rows - {k} == t.table.rows - {k}
    requires k in t.table.rows ==> RowOk(t, k, t.table.rows[k])
    ensures RowsOk(t)
  {
    forall j | j in t.table.rows ensures RowOk(t, j, t.table.rows[j]) {
      if j != k {
        assert j in t.table.rows - {k};
        RowStaysOk(s, t, j, s.table.rows[j]);
      }
    }
  }

  lemma WriteInv(s: World, t: World, w: Worker, k: TargetKey, x: Token, a: AttemptId)
    requires Inv(s) && StepOf(s, t, w) && OnlyWorker(s, t, w)
    requires NamesOk(t) && ProviderOk(t)
    requires Memory.MovesOneCharge(View(s.table, s.max), View(t.table, s.max), k) && DynamoRegistry.Reserved(t.table) <= t.max
    requires k in t.table.rows ==> RowOk(t, k, t.table.rows[k])
    requires RowsKeptBut(s, t, k) && CreatorsBounded(s, t, x, a) && (Fenced(t, x) || CreatorsBoundedStrictly(s, t))
    requires x in t.births && t.births[x].key == k
    requires k in t.table.rows && OnFirstAttempt(t, t.table.rows[k]) ==>
               SoleCreator(t, t.table.rows[k].state.reservationId, t.table.rows[k].state.attemptId)
    ensures Inv(t)
  {
    hide NamesOk, RowsOk, AccountsOk, ProviderOk, WorkersOk, FenceOk, FirstOk, CreatorsBounded, CreatorsBoundedStrictly,
         SoleCreator, Memory.MovesOneCharge, RowOk, OnFirstAttempt, Fenced;
    AccountsMoved(s, t, k);
    OthersStayOk(s, t, w);
    FencesKept(s, t, k, x, a);
    FirstsKept(s, t, k, x, a);
    RowsOkExcept(s, t, k);
  }

  // A row that nobody comes to hold: every token it held is settled.
  lemma DropRows(s: World, t: World, w: Worker, k: TargetKey, held: TargetRecord)
    requires k in s.table.rows && s.table.rows[k] == held
    requires s.table.rows - {k} == t.table.rows - {k}
    requires forall y :: y in s.births && Holds(held, y) ==> Settled(s, y)
    ensures RowsKeptBut(s, t, k)
  {
    hide Settled, Holds;
  }

  lemma NewRow(s: World, t: World, k: TargetKey)
    requires k !in s.table.rows && s.table.rows - {k} == t.table.rows - {k}
    ensures RowsKeptBut(s, t, k)
  {
    hide Settled, Holds;
  }

  // ---- Fresh reservations ----

  lemma RequestNames(s: World, w: Worker, q: AcquireTarget, purge: bool)
    requires RequestOk(s, w, q, purge)
    ensures q.reservationId in s.births && s.births[q.reservationId].key == q.key
    ensures FirstLease(q).Ok? && q.spec.materializedMib <= s.max
    ensures FirstLease(q).value.key == q.key && FirstLease(q).value.spec == q.spec
    ensures FirstLease(q).value.reservationId == q.reservationId && FirstLease(q).value.attemptId == q.attemptId
  {
    hide ValidKey, Identifier;
  }

  /** A fresh reservation may be seated at its key: nothing is or can be alive under its token, nor under any
      token that the key's row still holds. */
  predicate Seatable(s: World, q: AcquireTarget) {
    && Settled(s, q.reservationId)
    && (q.key in s.table.rows ==> forall y :: y in s.births && Holds(s.table.rows[q.key], y) ==> Settled(s, y))
  }

  /** The table after a fresh reservation was written. */
  predicate SeatedTable(s: World, t: Table, q: AcquireTarget)
    requires FirstLease(q).Ok?
  {
    && t.rows == s.table.rows[q.key := RecordFromLease(FirstLease(q).value, q.nowMs)]
    && Memory.MovesOneCharge(View(s.table, s.max), View(t, s.max), q.key)
    && DynamoRegistry.Reserved(t) <= s.max
  }

  lemma RequestIsFresh(s: World, w: Worker, q: AcquireTarget, purge: bool)
    requires RequestOk(s, w, q, purge)
    ensures q.attemptId in s.minted && s.minted[q.attemptId] == w && q.attemptId !in s.attempts
    ensures q.reservationId in s.births && s.births[q.reservationId].bornAtMs <= q.nowMs <= s.clockMs
    ensures FirstLease(q).Ok?
  {
    hide ValidKey, Identifier, FirstLease;
  }

  // Recording an attempt of a known token keeps the names.
  lemma AttemptNames(s: World, t: World, w: Worker, attempt: AttemptId, info: Attempt)
    requires NamesOk(s) && attempt in s.minted && s.minted[attempt] == w && attempt !in s.attempts
    requires info.token in s.births && s.births[info.token].bornAtMs <= info.reservedAtMs <= s.clockMs
    requires t.attempts == s.attempts[attempt := info] && t.births == s.births && t.minted == s.minted
    requires t.vms == s.vms && t.calls == s.calls && t.clockMs == s.clockMs && t.max == s.max
    ensures NamesOk(t)
    ensures StepOf(s, t, w)
  {
    hide ValidKey, Identifier;
    assert StepOf(s, t, w) by { hide NamesOk; }
    hide StepOf;
    assert MintedOk(t) by { hide BirthsOk, AttemptsOk; }
    assert BirthsOk(t) by { hide MintedOk, AttemptsOk; }
    assert AttemptsOk(t) by { hide MintedOk, BirthsOk; }
  }

  lemma SeatNames(s: World, w: Worker, table: Table, q: AcquireTarget, purge: bool)
    requires NamesOk(s) && RequestOk(s, w, q, purge)
    ensures NamesOk(Seat(s, w, table, q, purge)) && StepOf(s, Seat(s, w, table, q, purge), w)
  {
    hide NamesOk, RequestOk, FirstLease, StepOf;
    RequestIsFresh(s, w, q, purge);
    var t := Seat(s, w, table, q, purge);
    AttemptNames(s, t, w, q.attemptId, t.attempts[q.attemptId]);
  }

  lemma SeatProvider(s: World, w: Worker, table: Table, q: AcquireTarget, purge: bool)
    requires ProviderOk(s) && RequestOk(s, w, q, purge)
    ensures ProviderOk(Seat(s, w, table, q, purge))
    ensures q.attemptId !in s.calls && !CreatedBy(s, q.reservationId, q.attemptId)
  {
    hide ValidKey, Identifier, FirstLease;
  }

  lemma SeatPhase(s: World, w: Worker, table: Table, q: AcquireTarget, purge: bool)
    requires RequestOk(s, w, q, purge) && q.attemptId !in s.calls && !CreatedBy(s, q.reservationId, q.attemptId)
    ensures OnlyWorker(s, Seat(s, w, table, q, purge), w)
  {
    hide ValidKey, Identifier;
  }

  lemma SeatRow(s: World, w: Worker, table: Table, q: AcquireTarget, purge: bool)
    requires RequestOk(s, w, q, purge)
    ensures RowOk(Seat(s, w, table, q, purge), q.key, RecordFromLease(FirstLease(q).value, q.nowMs))
  {
    hide ValidKey, Identifier;
  }

  lemma SeatCreators(s: World, w: Worker, table: Table, q: AcquireTarget, purge: bool)
    requires FirstLease(q).Ok? && Settled(s, q.reservationId)
    ensures CreatorsBounded(s, Seat(s, w, table, q, purge), q.reservationId, q.attemptId)
    ensures SoleCreator(Seat(s, w, table, q, purge), q.reservationId, q.attemptId)
  {
    hide ValidKey, Identifier;
    var t := Seat(s, w, table, q, purge);
    forall u | u in t.workers && WorkerMayCreate(t, u)
      ensures (WorkerMayCreate(s, u) && s.workers[u] == t.workers[u] && u != w)
              || (t.workers[u].lease.reservationId == q.reservationId && t.workers[u].lease.attemptId == q.attemptId)
    {
    }
  }

  lemma SeatInv(s: World, w: Worker, table: Table, q: AcquireTarget, purge: bool)
    requires Inv(s) && RequestOk(s, w, q, purge) && SeatedTable(s, table, q) && Seatable(s, q)
    ensures Inv(Seat(s, w, table, q, purge))
  {
    hide NamesOk, RowsOk, AccountsOk, ProviderOk, WorkersOk, FenceOk, FirstOk, CreatorsBounded, CreatorsBoundedStrictly,
         SoleCreator, Memory.MovesOneCharge, RowOk, RequestOk, Settled, OnlyWorker, StepOf, RowsKeptBut, FirstLease;
    RequestNames(s, w, q, purge);
    var t := Seat(s, w, table, q, purge);
    var k := q.key;
    SeatNames(s, w, table, q, purge);
    SeatProvider(s, w, table, q, purge);
    SeatPhase(s, w, table, q, purge);
    SeatRow(s, w, table, q, purge);
    SeatCreators(s, w, table, q, purge);
    assert t.table.rows[k] == RecordFromLease(FirstLease(q).value, q.nowMs);
    assert Fenced(t, q.reservationId);
    if k in s.table.rows { DropRows(s, t, w, k, s.table.rows[k]); } else { NewRow(s, t, k); }
    WriteInv(s, t, w, k, q.reservationId, q.attemptId);
  }

  // ---- When each fresh reservation is seatable ----

  lemma ReserveInv(s: World, w: Worker, q: AcquireTarget, purge: bool)
    requires Inv(s) && w in s.workers && s.workers[w] == Reserving(q, purge)
    ensures FirstLease(q).Ok? && q.spec.materializedMib <= s.max && Inv(ApplyReserve(s, w, q, purge))
  {
    hide Inv, RequestOk, SeatedTable, Seatable, Seat, FirstLease, TryReserve;
    PhaseAt(s, w);
    RequestNames(s, w, q, purge);
    var t := TryReserve(s.table, FirstLease(q).value, q.nowMs, s.max);
    if t.None? {
      MoveToInv(s, w, Reading(q, purge));
    } else {
      ReserveTable(s, q);
      AbsentIsSeatable(s, w, q, purge);
      SeatInv(s, w, t.value, q, purge);
    }
  }

  // The key has no row, so by the fence nothing is alive under any token of that key.
  lemma AbsentIsSeatable(s: World, w: Worker, q: AcquireTarget, purge: bool)
    requires Inv(s) && RequestOk(s, w, q, purge) && q.key !in s.table.rows
    ensures Seatable(s, q)
  {
    hide NamesOk, RowsOk, AccountsOk, ProviderOk, WorkersOk, FenceOk, FirstOk, RequestOk, Settled;
    RequestNames(s, w, q, purge);
    UnfencedIsSettled(s, q.reservationId);
  }

  lemma WellKeyedTable(s: World)
    requires RowsOk(s)
    ensures Memory.WellKeyed(View(s.table, s.max))
  {
    forall k | k in s.table.rows ensures s.table.rows[k].key == k && s.table.rows[k].specDigest == SpecDigest(s.table.rows[k].spec) {
      assert RowOk(s, k, s.table.rows[k]);
    }
  }

  lemma ReserveTable(s: World, q: AcquireTarget)
    requires Inv(s) && FirstLease(q).Ok? && q.spec.materializedMib <= s.max
    requires TryReserve(s.table, FirstLease(q).value, q.nowMs, s.max).Some?
    ensures SeatedTable(s, TryReserve(s.table, FirstLease(q).value, q.nowMs, s.max).value, q) && q.key !in s.table.rows
  {
    hide NamesOk, RowsOk, AccountsOk, ProviderOk, WorkersOk, FenceOk, FirstOk, ValidKey, Identifier;
    WellKeyedTable(s);
  }

  lemma ReplaceExpiredTable(s: World, oldReservation: string, q: AcquireTarget)
    requires Inv(s) && FirstLease(q).Ok?
    requires TryReplaceExpired(s.table, oldReservation, q, FirstLease(q).value).Some?
    ensures SeatedTable(s, TryReplaceExpired(s.table, oldReservation, q, FirstLease(q).value).value, q)
    ensures q.key in s.table.rows && s.table.rows[q.key].state.Materializing?
    ensures s.table.rows[q.key].state.leaseExpiresAtMs <= q.nowMs
  {
    hide NamesOk, AccountsOk, ProviderOk, WorkersOk, FenceOk, FirstOk, ValidKey, Identifier, MaterializingOk;
    var r, lease := s.table.rows[q.key], FirstLease(q).value;
    assert DynamoRegistry.Reserved(s.table) <= s.max by { CounterBound(s); }
    RowAt(s, q.key);
    WellKeyedTable(s);
    assert Reseal(r, lease, q.nowMs) == RecordFromLease(lease, q.nowMs);
    hide RowsOk;
    assert s.table.rows[q.key := RecordFromLease(lease, q.nowMs)] - {q.key} == s.table.rows - {q.key};
  }

  lemma CounterBound(s: World)
    requires Inv(s)
    ensures DynamoRegistry.Reserved(s.table) <= s.max
  {
    hide NamesOk, ProviderOk, RowsOk, WorkersOk, FenceOk, FirstOk, Memory.Accounted;
  }

  // The lease of the row's token has run out, so the token is settled, and so is any other token of the key.
  lemma ExpiredIsSeatable(s: World, w: Worker, q: AcquireTarget, purge: bool)
    requires Inv(s) && RequestOk(s, w, q, purge) && q.key in s.table.rows && s.table.rows[q.key].state.Materializing?
    requires s.table.rows[q.key].state.leaseExpiresAtMs <= s.clockMs
    ensures Seatable(s, q)
  {
    hide RowsOk, AccountsOk, WorkersOk, FenceOk, FirstOk, RequestOk, Settled, ValidKey, Identifier;
    RequestNames(s, w, q, purge);
    RowAt(s, q.key);
    var r := s.table.rows[q.key];
    ExpiredIsSettled(s, r.state.reservationId);
    if q.reservationId != r.state.reservationId { UnfencedIsSettled(s, q.reservationId); }
  }

  lemma ReplaceGoneTable(s: World, seen: TargetRecord, q: AcquireTarget)
    requires Inv(s) && FirstLease(q).Ok? && q.spec.materializedMib <= s.max
    requires TryReplaceGone(s.table, seen, q, FirstLease(q).value, s.max).Some?
    ensures SeatedTable(s, TryReplaceGone(s.table, seen, q, FirstLease(q).value, s.max).value, q)
    ensures q.key in s.table.rows && s.table.rows[q.key].state.Closed?
  {
    hide NamesOk, AccountsOk, ProviderOk, WorkersOk, FenceOk, FirstOk, ValidKey, Identifier, MaterializingOk;
    var r, lease := s.table.rows[q.key], FirstLease(q).value;
    RowAt(s, q.key);
    WellKeyedTable(s);
    assert Reseal(r, lease, q.nowMs) == RecordFromLease(lease, q.nowMs);
    hide RowsOk;
    assert s.table.rows[q.key := RecordFromLease(lease, q.nowMs)] - {q.key} == s.table.rows - {q.key};
  }

  lemma ClosedIsSeatable(s: World, w: Worker, q: AcquireTarget, purge: bool)
    requires Inv(s) && RequestOk(s, w, q, purge) && q.key in s.table.rows && s.table.rows[q.key].state.Closed?
    ensures Seatable(s, q)
  {
    hide NamesOk, RowsOk, AccountsOk, ProviderOk, WorkersOk, FenceOk, FirstOk, RequestOk, Settled;
    RequestNames(s, w, q, purge);
    UnfencedIsSettled(s, q.reservationId);
  }

  // ---- Takeover ----

  /** The world after a takeover, with the attempt recorded under the row's own reservation. */
  predicate IsTakeover(s: World, t: World, w: Worker, q: AcquireTarget, purge: bool, r: TargetRecord, deadline: nat)
  {
    && r.state.Materializing? && q.key in s.table.rows && s.table.rows[q.key] == r && q.attemptId in t.attempts
    && t.table == s.table.(rows := s.table.rows[q.key := TakenOver(r, q.attemptId, deadline, q.nowMs)])
    && t.workers == s.workers[w := Holding(TakenLease(r, q, deadline), purge, q.nowMs)]
    && t.attempts == s.attempts[q.attemptId := t.attempts[q.attemptId]]
    && t == s.(table := t.table, workers := t.workers, attempts := t.attempts)
    && r.state.attemptExpiresAtMs <= q.nowMs < deadline <= r.state.leaseExpiresAtMs
    && q.nowMs < r.state.targetExpiresAtMs
    && r.state.attemptId in s.attempts
    && t.attempts[q.attemptId] == s.attempts[r.state.attemptId].(first := false, takenAtMs := q.nowMs, expiresAtMs := deadline)
  }

  // An attempt id names its whole reservation, so what was read is what is written.
  lemma TakeoverShape(s: World, w: Worker, q: AcquireTarget, purge: bool, seen: TargetRecord, deadline: nat)
    requires RowsOk(s) && FirstLease(q).Ok? && q.spec.materializedMib <= s.max
    requires Choose(q, seen).TakeAttempt? && MaterializingOk(s, q.key, seen) && TakeoverDeadline(seen, q) == Ok(deadline)
    requires TryTakeAttempt(s.table, seen, q, deadline).Some?
    ensures q.key in s.table.rows
    ensures IsTakeover(s, ApplyWrite(s, w, q, purge, seen), w, q, purge, s.table.rows[q.key], deadline)
  {
    hide ValidKey, Identifier, FirstLease;
    var r := s.table.rows[q.key];
    assert RowOk(s, q.key, r);
    hide RowsOk;
    assert TakenLease(seen, q, deadline) == TakenLease(r, q, deadline);
  }

  lemma TakeoverNames(s: World, t: World, w: Worker, q: AcquireTarget, purge: bool, r: TargetRecord, deadline: nat)
    requires NamesOk(s) && RequestOk(s, w, q, purge) && MaterializingOk(s, q.key, r) && IsTakeover(s, t, w, q, purge, r, deadline)
    ensures NamesOk(t) && StepOf(s, t, w)
  {
    assert var info := s.attempts[r.state.attemptId];
           info.token in s.births && s.births[info.token].bornAtMs <= info.reservedAtMs <= s.clockMs by {
      hide RequestOk, MaterializingOk, ValidKey, Identifier;
    }
    hide NamesOk, RequestOk, FirstLease, StepOf, MaterializingOk;
    RequestIsFresh(s, w, q, purge);
    AttemptNames(s, t, w, q.attemptId, t.attempts[q.attemptId]);
  }

  lemma TakeoverProvider(s: World, t: World, w: Worker, q: AcquireTarget, purge: bool, r: TargetRecord, deadline: nat)
    requires ProviderOk(s) && RequestOk(s, w, q, purge) && IsTakeover(s, t, w, q, purge, r, deadline)
    ensures ProviderOk(t)
    ensures q.attemptId !in s.calls && !CreatedBy(s, r.state.reservationId, q.attemptId)
  {
    hide ValidKey, Identifier, FirstLease;
  }

  lemma TakeoverRow(s: World, t: World, w: Worker, q: AcquireTarget, purge: bool, r: TargetRecord, deadline: nat)
    requires RequestOk(s, w, q, purge) && RowOk(s, q.key, r) && IsTakeover(s, t, w, q, purge, r, deadline)
    requires q.attemptId !in s.calls && !CreatedBy(s, r.state.reservationId, q.attemptId)
    ensures RowOk(t, q.key, t.table.rows[q.key]) && OnlyWorker(s, t, w)
    ensures !OnFirstAttempt(t, t.table.rows[q.key])
  {
    hide ValidKey, Identifier, FirstLease;
  }

  lemma TakeoverCreators(s: World, t: World, w: Worker, q: AcquireTarget, purge: bool, r: TargetRecord, deadline: nat)
    requires IsTakeover(s, t, w, q, purge, r, deadline)
    ensures CreatorsBounded(s, t, r.state.reservationId, q.attemptId)
    ensures RowsKeptBut(s, t, q.key)
  {
    forall u | u in t.workers && WorkerMayCreate(t, u)
      ensures (WorkerMayCreate(s, u) && s.workers[u] == t.workers[u])
              || (t.workers[u].lease.reservationId == r.state.reservationId && t.workers[u].lease.attemptId == q.attemptId)
    {
    }
    assert t.table.rows - {q.key} == s.table.rows - {q.key};
  }

  lemma TakeoverInv(s: World, t: World, w: Worker, q: AcquireTarget, purge: bool, r: TargetRecord, deadline: nat)
    requires Inv(s) && RequestOk(s, w, q, purge) && IsTakeover(s, t, w, q, purge, r, deadline)
    ensures Inv(t)
  {
    hide NamesOk, RowsOk, AccountsOk, ProviderOk, WorkersOk, FenceOk, FirstOk, CreatorsBounded, CreatorsBoundedStrictly,
         SoleCreator, RequestOk, OnlyWorker, StepOf, RowsKeptBut, FirstLease, MaterializingOk, ValidKey, Identifier;
    RowAt(s, q.key);
    TakeoverNames(s, t, w, q, purge, r, deadline);
    TakeoverProvider(s, t, w, q, purge, r, deadline);
    TakeoverRow(s, t, w, q, purge, r, deadline);
    TakeoverCreators(s, t, w, q, purge, r, deadline);
    TakeoverFence(s, t, w, q, purge, r, deadline);
    hide IsTakeover, RowOk, Fenced, OnFirstAttempt, Memory.MovesOneCharge;
    WriteInv(s, t, w, q.key, r.state.reservationId, q.attemptId);
  }

  lemma TakeoverFence(s: World, t: World, w: Worker, q: AcquireTarget, purge: bool, r: TargetRecord, deadline: nat)
    requires Inv(s) && RowOk(s, q.key, r) && IsTakeover(s, t, w, q, purge, r, deadline)
    ensures r.state.reservationId in t.births && t.births[r.state.reservationId].key == q.key
    ensures Fenced(t, r.state.reservationId)
    ensures Memory.MovesOneCharge(View(s.table, s.max), View(t.table, s.max), q.key) && DynamoRegistry.Reserved(t.table) <= t.max
  {
    hide NamesOk, AccountsOk, ProviderOk, WorkersOk, FenceOk, FirstOk, ValidKey, Identifier;
    CounterBound(s);
    WellKeyedTable(s);
    hide RowsOk;
    assert t.table.rows - {q.key} == s.table.rows - {q.key};
  }

  lemma WriteStepInv(s: World, w: Worker, q: AcquireTarget, purge: bool, seen: TargetRecord)
    requires Inv(s) && w in s.workers && s.workers[w] == Writing(q, purge, seen)
    ensures FirstLease(q).Ok? && q.spec.materializedMib <= s.max && Inv(ApplyWrite(s, w, q, purge, seen))
  {
    hide Inv, RequestOk, SeatedTable, Seatable, Seat, FirstLease, MaterializingOk, IsTakeover,
         TryReplaceExpired, TryReplaceGone, TryTakeAttempt, TakeoverDeadline, Choose, TakenLease;
    PhaseAt(s, w);
    RequestNames(s, w, q, purge);
    match Choose(q, seen) {
      case Fail(_) => FinishInv(s, w);
      case Answer(_) => FinishInv(s, w);
      case ReplaceExpired => ReplaceExpiredInv(s, w, q, purge, seen);
      case ReplaceGone => ReplaceGoneInv(s, w, q, purge, seen);
      case TakeAttempt =>
        TakenWasMaterializing(q, seen);
        TakeAttemptInv(s, w, q, purge, seen);
    }
  }

  lemma TakenWasMaterializing(q: AcquireTarget, seen: TargetRecord)
    requires Choose(q, seen).TakeAttempt?
    ensures seen.state.Materializing?
  {
    hide ValidKey, Identifier;
  }

  lemma ReplaceExpiredInv(s: World, w: Worker, q: AcquireTarget, purge: bool, seen: TargetRecord)
    requires Inv(s) && RequestOk(s, w, q, purge) && Choose(q, seen).ReplaceExpired?
    ensures FirstLease(q).Ok? && q.spec.materializedMib <= s.max && Inv(ApplyWrite(s, w, q, purge, seen))
  {
    hide Inv, SeatedTable, Seatable, Seat, FirstLease, TryReplaceExpired, ValidKey, Identifier;
    RequestNames(s, w, q, purge);
    var t := TryReplaceExpired(s.table, seen.state.reservationId, q, FirstLease(q).value);
    if t.None? {
      MoveToInv(s, w, Reading(q, purge));
    } else {
      ReplaceExpiredTable(s, seen.state.reservationId, q);
      ExpiredIsSeatable(s, w, q, purge);
      SeatInv(s, w, t.value, q, purge);
    }
  }

  lemma ReplaceGoneInv(s: World, w: Worker, q: AcquireTarget, purge: bool, seen: TargetRecord)
    requires Inv(s) && RequestOk(s, w, q, purge) && Choose(q, seen).ReplaceGone?
    ensures FirstLease(q).Ok? && q.spec.materializedMib <= s.max && Inv(ApplyWrite(s, w, q, purge, seen))
  {
    hide Inv, SeatedTable, Seatable, Seat, FirstLease, TryReplaceGone, ValidKey, Identifier, RequestOk;
    RequestNames(s, w, q, purge);
    var t := TryReplaceGone(s.table, seen, q, FirstLease(q).value, s.max);
    if t.None? {
      MoveToInv(s, w, Reading(q, purge));
    } else {
      ReplaceGoneTable(s, seen, q);
      ClosedIsSeatable(s, w, q, purge);
      SeatInv(s, w, t.value, q, purge);
    }
  }

  lemma TakeAttemptInv(s: World, w: Worker, q: AcquireTarget, purge: bool, seen: TargetRecord)
    requires Inv(s) && RequestOk(s, w, q, purge) && Choose(q, seen).TakeAttempt? && MaterializingOk(s, q.key, seen)
    ensures FirstLease(q).Ok? && q.spec.materializedMib <= s.max && Inv(ApplyWrite(s, w, q, purge, seen))
  {
    hide RowsOk, NamesOk, AccountsOk, ProviderOk, WorkersOk, FenceOk, FirstOk, FirstLease, TryTakeAttempt, ValidKey, Identifier,
         RequestOk, MaterializingOk, TakenLease, TakeoverDeadline, IsTakeover;
    RequestNames(s, w, q, purge);
    var deadline := TakeoverDeadline(seen, q);
    if deadline.Err? {
      FinishInv(s, w);
    } else if TryTakeAttempt(s.table, seen, q, deadline.value).None? {
      MoveToInv(s, w, Reading(q, purge));
    } else {
      TakeoverShape(s, w, q, purge, seen, deadline.value);
      TakeoverInv(s, ApplyWrite(s, w, q, purge, seen), w, q, purge, s.table.rows[q.key], deadline.value);
    }
  }

  // ---- Install, release, close, purge ----

  /** One row changed in place, or left; worker and table are all that moved. */
  predicate RowStep(s: World, t: World, w: Worker, k: TargetKey) {
    && t == s.(table := t.table, workers := t.workers)
    && s.table.rows - {k} == t.table.rows - {k}
    && (w in t.workers ==> !t.workers[w].Holding?)
    && t.workers - {w} == s.workers - {w}
  }

  lemma RowStepFrame(s: World, t: World, w: Worker, k: TargetKey)
    requires NamesOk(s) && ProviderOk(s) && RowStep(s, t, w, k)
    ensures NamesOk(t) && ProviderOk(t) && StepOf(s, t, w) && CreatorsBoundedStrictly(s, t)
  {
    hide NamesOk, ProviderOk;
    NamesKept(s, t);
    assert StepOf(s, t, w);
    ProviderKept(s, t);
    NoNewHolders(s, t, w);
  }

  lemma StrictlyBounded(s: World, t: World, x: Token, a: AttemptId)
    requires CreatorsBoundedStrictly(s, t)
    ensures CreatorsBounded(s, t, x, a)
  {
  }

  // A row step that drops only settled tokens keeps the invariant.
  lemma RowStepInv(s: World, t: World, w: Worker, k: TargetKey, x: Token)
    requires Inv(s) && RowStep(s, t, w, k) && OnlyWorker(s, t, w)
    requires Memory.MovesOneCharge(View(s.table, s.max), View(t.table, s.max), k) && DynamoRegistry.Reserved(t.table) <= t.max
    requires k in t.table.rows ==> RowOk(t, k, t.table.rows[k]) && !t.table.rows[k].state.Materializing?
    requires RowsKeptBut(s, t, k)
    requires x in s.births && s.births[x].key == k
    ensures Inv(t)
  {
    hide NamesOk, RowsOk, AccountsOk, ProviderOk, WorkersOk, FenceOk, FirstOk, CreatorsBounded, CreatorsBoundedStrictly,
         SoleCreator, OnlyWorker, StepOf, RowsKeptBut, RowOk, Memory.MovesOneCharge, Fenced;
    RowStepFrame(s, t, w, k);
    StrictlyBounded(s, t, x, "");
    WriteInv(s, t, w, k, x, "");
  }

  lemma InstallableRow(s: World, w: Worker, lease: Lease, purge: bool, begun: nat, nowMs: nat)
    requires Inv(s) && w in s.workers && s.workers[w] == Booted(lease, purge, begun)
    requires TryInstall(s.table, lease, PhysicalOf(lease), nowMs).Some?
    ensures lease.key in s.table.rows && RowOk(s, lease.key, s.table.rows[lease.key])
    ensures lease.reservationId in s.vms && lease.reservationId in s.births && s.births[lease.reservationId].key == lease.key
  {
    hide Inv, ValidKey, Identifier, RowOk, Original;
    PhaseAt(s, w);
    RowAt(s, lease.key);
  }

  lemma InstallShape(s: World, w: Worker, lease: Lease, purge: bool, nowMs: nat)
    requires TryInstall(s.table, lease, PhysicalOf(lease), nowMs).Some?
    requires lease.key in s.table.rows && RowOk(s, lease.key, s.table.rows[lease.key]) && lease.reservationId in s.vms
    requires Memory.WellKeyed(View(s.table, s.max)) && DynamoRegistry.Reserved(s.table) <= s.max
    ensures var t := ApplyInstall(s, w, lease, purge, nowMs);
            && RowStep(s, t, w, lease.key) && OnlyWorker(s, t, w)
            && Memory.MovesOneCharge(View(s.table, s.max), View(t.table, s.max), lease.key)
            && DynamoRegistry.Reserved(t.table) <= t.max
            && lease.key in t.table.rows && t.table.rows[lease.key].state.Installed? && RowOk(t, lease.key, t.table.rows[lease.key])
            && RowsKeptBut(s, t, lease.key)
  {
    hide ValidKey, Identifier, Settled;
    var t := ApplyInstall(s, w, lease, purge, nowMs);
    assert t.table.rows - {lease.key} == s.table.rows - {lease.key};
  }

  lemma InstallInv(s: World, w: Worker, lease: Lease, purge: bool, begun: nat, nowMs: nat)
    requires Inv(s) && w in s.workers && s.workers[w] == Booted(lease, purge, begun)
    ensures Inv(ApplyInstall(s, w, lease, purge, nowMs))
  {
    hide RowsOk, NamesOk, AccountsOk, ProviderOk, WorkersOk, FenceOk, FirstOk, RowOk, RowStep, OnlyWorker, RowsKeptBut,
         Memory.MovesOneCharge, Memory.WellKeyed, TryInstall;
    if TryInstall(s.table, lease, PhysicalOf(lease), nowMs).None? {
      MoveToInv(s, w, Rechecking(lease, purge));
    } else {
      InstallableRow(s, w, lease, purge, begun, nowMs);
      CounterBound(s);
      WellKeyedTable(s);
      InstallShape(s, w, lease, purge, nowMs);
      RowStepInv(s, ApplyInstall(s, w, lease, purge, nowMs), w, lease.key, lease.reservationId);
    }
  }

  // A row is released only by the attempt that owns it, once that attempt gave up or its lease ran out.
  lemma ReleasedIsSettled(s: World, w: Worker, lease: Lease, r: TargetRecord)
    requires Inv(s) && w in s.workers && s.workers[w] == Releasing(lease) && lease.key in s.table.rows && s.table.rows[lease.key] == r
    requires r.state.Materializing? && r.state.reservationId == lease.reservationId && r.state.attemptId == lease.attemptId
    ensures Settled(s, lease.reservationId)
    ensures r.spec == lease.spec
    ensures lease.reservationId in s.births && s.births[lease.reservationId].key == lease.key
  {
    hide RowsOk, AccountsOk, WorkersOk, FenceOk, FirstOk, Settled, ValidKey, Identifier;
    PhaseAt(s, w);
    RowAt(s, lease.key);
    if Abandoned(s, w, lease) {
      AbandonedIsSettled(s, w, lease, lease.key);
    } else {
      ExpiredIsSettled(s, lease.reservationId);
    }
  }

  lemma ReleaseShape(s: World, w: Worker, lease: Lease)
    requires TryExpire(s.table, lease).Some? && s.table.rows[lease.key].spec == lease.spec && Settled(s, lease.reservationId)
    requires Memory.WellKeyed(View(s.table, s.max)) && DynamoRegistry.Reserved(s.table) <= s.max
    ensures var t := ApplyRelease(s, w, lease);
            && RowStep(s, t, w, lease.key) && OnlyWorker(s, t, w)
            && Memory.MovesOneCharge(View(s.table, s.max), View(t.table, s.max), lease.key)
            && DynamoRegistry.Reserved(t.table) <= t.max
            && lease.key !in t.table.rows
            && RowsKeptBut(s, t, lease.key)
  {
    hide Settled;
    var t := ApplyRelease(s, w, lease);
    assert t.table.rows - {lease.key} == s.table.rows - {lease.key};
    DropRows(s, t, w, lease.key, s.table.rows[lease.key]);
  }

  lemma ReleaseInv(s: World, w: Worker, lease: Lease)
    requires Inv(s) && w in s.workers && s.workers[w] == Releasing(lease)
    ensures Inv(ApplyRelease(s, w, lease))
  {
    hide RowsOk, NamesOk, AccountsOk, ProviderOk, WorkersOk, FenceOk, FirstOk, RowOk, RowStep, OnlyWorker, RowsKeptBut,
         Memory.MovesOneCharge, Memory.WellKeyed, Settled;
    if TryExpire(s.table, lease).None? {
      FinishInv(s, w);
    } else {
      ReleasedIsSettled(s, w, lease, s.table.rows[lease.key]);
      CounterBound(s);
      WellKeyedTable(s);
      ReleaseShape(s, w, lease);
      RowStepInv(s, ApplyRelease(s, w, lease), w, lease.key, lease.reservationId);
    }
  }

  lemma ClosedRow(s: World, w: Worker, target: InstalledTarget, disposition: Disposition, purge: bool)
    requires Inv(s) && w in s.workers && s.workers[w] == Confirmed(target, disposition, purge)
    requires target.key in s.table.rows && s.table.rows[target.key].state.Installed?
    requires s.table.rows[target.key].state.targetRef == target.targetRef && s.table.rows[target.key].specDigest == target.specDigest
    ensures RowOk(s, target.key, s.table.rows[target.key]) && s.table.rows[target.key].spec == target.spec
    ensures Settled(s, target.targetRef.token)
    ensures target.targetRef.token in s.births && s.births[target.targetRef.token].key == target.key
  {
    hide Inv, ValidKey, Identifier, Settled;
    PhaseAt(s, w);
    RowAt(s, target.key);
    DeadIsSettled(s, target.targetRef.token);
  }

  lemma CloseShape(s: World, w: Worker, target: InstalledTarget, disposition: Disposition, purge: bool, reason: string, nowMs: nat)
    requires TryClose(s.table, target, disposition, reason, nowMs).Some? && ValidReason(reason)
    requires RowOk(s, target.key, s.table.rows[target.key]) && s.table.rows[target.key].spec == target.spec
    requires Settled(s, target.targetRef.token)
    requires Memory.WellKeyed(View(s.table, s.max)) && DynamoRegistry.Reserved(s.table) <= s.max
    ensures var t, k := ApplyClose(s, w, target, disposition, purge, reason, nowMs), target.key;
            && RowStep(s, t, w, k) && OnlyWorker(s, t, w)
            && Memory.MovesOneCharge(View(s.table, s.max), View(t.table, s.max), k)
            && DynamoRegistry.Reserved(t.table) <= t.max
            && k in t.table.rows && t.table.rows[k].state.Closed? && RowOk(t, k, t.table.rows[k])
            && RowsKeptBut(s, t, k)
  {
    hide ValidKey, Identifier, Settled;
    var t, k := ApplyClose(s, w, target, disposition, purge, reason, nowMs), target.key;
    assert t.table.rows - {k} == s.table.rows - {k};
    DropRows(s, t, w, k, s.table.rows[k]);
    hide RowsKeptBut;
  }

  lemma CloseInv(s: World, w: Worker, target: InstalledTarget, disposition: Disposition, purge: bool, reason: string, nowMs: nat)
    requires Inv(s) && w in s.workers && s.workers[w] == Confirmed(target, disposition, purge) && ValidReason(reason)
    ensures Inv(ApplyClose(s, w, target, disposition, purge, reason, nowMs))
  {
    hide RowsOk, NamesOk, AccountsOk, ProviderOk, WorkersOk, FenceOk, FirstOk, RowOk, RowStep, OnlyWorker, RowsKeptBut,
         Memory.MovesOneCharge, Memory.WellKeyed, Settled, ValidReason;
    if TryClose(s.table, target, disposition, reason, nowMs).None? {
      FinishInv(s, w);
    } else {
      ClosedRow(s, w, target, disposition, purge);
      CounterBound(s);
      WellKeyedTable(s);
      CloseShape(s, w, target, disposition, purge, reason, nowMs);
      RowStepInv(s, ApplyClose(s, w, target, disposition, purge, reason, nowMs), w, target.key, target.targetRef.token);
    }
  }

  // A closed row holds no token, so its removal is a step about nobody.
  lemma PurgeInv(s: World, w: Worker, k: TargetKey, generation: string)
    requires Inv(s) && w in s.workers && s.workers[w] == Purging(k, generation)
    ensures Inv(ApplyPurge(s, w, k, generation))
  {
    hide NamesOk, RowsOk, AccountsOk, ProviderOk, WorkersOk, FenceOk, FirstOk, Settled, Memory.WellKeyed;
    if TryPurgeTerminal(s.table, k, generation).None? {
      FinishInv(s, w);
    } else {
      CounterBound(s);
      WellKeyedTable(s);
      PurgeShape(s, w, k, generation);
      var t := ApplyPurge(s, w, k, generation);
      hide RowStep, RowsKeptBut, OnlyWorker, Memory.MovesOneCharge, TryPurgeTerminal, StepOf, CreatorsBoundedStrictly;
      RowStepFrame(s, t, w, k);
      UnnamedWriteInv(s, t, w, k);
    }
  }

  lemma PurgeShape(s: World, w: Worker, k: TargetKey, generation: string)
    requires TryPurgeTerminal(s.table, k, generation).Some?
    requires Memory.WellKeyed(View(s.table, s.max)) && DynamoRegistry.Reserved(s.table) <= s.max
    ensures var t := ApplyPurge(s, w, k, generation);
            && RowStep(s, t, w, k) && OnlyWorker(s, t, w)
            && Memory.MovesOneCharge(View(s.table, s.max), View(t.table, s.max), k)
            && DynamoRegistry.Reserved(t.table) <= t.max
            && k !in t.table.rows && RowsKeptBut(s, t, k)
  {
    hide Settled;
    var t := ApplyPurge(s, w, k, generation);
    assert t.table.rows - {k} == s.table.rows - {k};
    DropRows(s, t, w, k, s.table.rows[k]);
  }

  lemma UnnamedWriteInv(s: World, t: World, w: Worker, k: TargetKey)
    requires Inv(s) && StepOf(s, t, w) && OnlyWorker(s, t, w) && NamesOk(t) && ProviderOk(t)
    requires Memory.MovesOneCharge(View(s.table, s.max), View(t.table, s.max), k) && DynamoRegistry.Reserved(t.table) <= t.max
    requires k !in t.table.rows && RowsKeptBut(s, t, k) && CreatorsBoundedStrictly(s, t)
    ensures Inv(t)
  {
    hide NamesOk, RowsOk, AccountsOk, ProviderOk, WorkersOk, FenceOk, FirstOk, CreatorsBounded, CreatorsBoundedStrictly,
         SoleCreator, Memory.MovesOneCharge, OnlyWorker;
    AccountsMoved(s, t, k);
    WorkersFrom(s, t, w);
    StrictlyBounded(s, t, "", "");
    FencesKept(s, t, k, "", "");
    RowsOkExcept(s, t, k);
    FirstsShrink(s, t, k);
  }

  lemma FirstsShrink(s: World, t: World, k: TargetKey)
    requires RowsOk(s) && FirstOk(s) && Grows(s, t) && s.table.rows - {k} == t.table.rows - {k} && k !in t.table.rows
    requires CreatorsBoundedStrictly(s, t)
    ensures FirstOk(t)
  {
    forall j | j in t.table.rows && OnFirstAttempt(t, t.table.rows[j])
      ensures SoleCreator(t, t.table.rows[j].state.reservationId, t.table.rows[j].state.attemptId)
    {
      assert j in t.table.rows - {k};
      assert RowOk(s, j, s.table.rows[j]);
      assert OnFirstAttempt(s, s.table.rows[j]);
    }
  }
}
