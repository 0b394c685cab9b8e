/** Every event of the materialization protocol keeps the invariant, event by event. */
module ProtocolSteps {
  import opened Wrappers
  import opened TargetRecords
  import opened TargetLauncher
  import opened MapTotals
  import opened DynamoRegistry
  import opened MaterializationProtocol
  import opened ProtocolSafety
  import Memory = MemoryRegistry

  /** Only worker `w` changed phase, and its new phase is good. */
  predicate OnlyWorker(s: World, t: World, w: Worker) {
    && t.workers - {w} == s.workers - {w}
    && (w in t.workers ==> PhaseOk(t, w, t.workers[w]))
  }

  lemma NamesKept(s: World, t: World)
    requires NamesOk(s) && t.births == s.births && t.attempts == s.attempts && t.minted == s.minted
    requires t.max == s.max && s.clockMs <= t.clockMs
    ensures NamesOk(t)
  {
  }

  lemma ProviderKept(s: World, t: World)
    requires ProviderOk(s) && Grows(s, t) && t.vms.Keys == s.vms.Keys && t.dispatches == s.dispatches
    requires Submap(t.calls, s.calls)
    ensures ProviderOk(t)
  {
  }

  lemma RowsStayOk(s: World, t: World)
    requires RowsOk(s) && Grows(s, t) && t.table.rows == s.table.rows
    ensures RowsOk(t)
  {
    forall k | k in t.table.rows ensures RowOk(t, k, t.table.rows[k]) { RowStaysOk(s, t, k, s.table.rows[k]); }
  }

  lemma AccountsKept(s: World, t: World)
    requires AccountsOk(s) && t.table == s.table && t.max == s.max
    ensures AccountsOk(t)
  {
  }

  // Steps that leave the table alone and admit nothing new.
  lemma CalmInv(s: World, t: World, w: Worker)
    requires Inv(s) && StepOf(s, t, w) && OnlyWorker(s, t, w)
    requires t.table == s.table && CreatorsBoundedStrictly(s, t)
    requires NamesOk(t) && ProviderOk(t)
    ensures Inv(t)
  {
    hide NamesOk, RowsOk, AccountsOk, ProviderOk, WorkersOk, FenceOk, FirstOk, CreatorsBoundedStrictly;
    assert Grows(s, t);
    hide Grows;
    CalmStep(s, t);
    OthersStayOk(s, t, w);
    RowsStayOk(s, t);
    AccountsKept(s, t);
  }

  // No worker comes to hold a lease, so none may newly create.
  lemma NoNewHolders(s: World, t: World, w: Worker)
    requires t.births == s.births && t.vms.Keys == s.vms.Keys && s.clockMs == t.clockMs
    requires t.workers - {w} == s.workers - {w} && (w in t.workers ==> !t.workers[w].Holding?)
    ensures forall u :: u in t.workers && WorkerMayCreate(t, u) ==> WorkerMayCreate(s, u) && s.workers[u] == t.workers[u]
  {
    forall u | u in t.workers && WorkerMayCreate(t, u) ensures WorkerMayCreate(s, u) && s.workers[u] == t.workers[u] {
      assert u in t.workers - {w};
    }
  }

  // A worker changes phase and nothing else, and does not come to hold a lease.
  lemma MoveInv(s: World, t: World, w: Worker)
    requires Inv(s) && t == s.(workers := t.workers) && OnlyWorker(s, t, w)
    requires w in t.workers ==> !t.workers[w].Holding?
    ensures Inv(t)
  {
    hide RowsOk, AccountsOk, WorkersOk, FenceOk, FirstOk, PhaseOk, OnlyWorker, NamesOk, ProviderOk;
    assert t.workers - {w} == s.workers - {w} by { OnlyWorkerKeeps(s, t, w); }
    NoNewHolders(s, t, w);
    NamesKept(s, t);
    assert StepOf(s, t, w);
    ProviderKept(s, t);
    CalmInv(s, t, w);
  }

  lemma OnlyWorkerKeeps(s: World, t: World, w: Worker)
    requires OnlyWorker(s, t, w)
    ensures t.workers - {w} == s.workers - {w}
  {
  }

  lemma FinishInv(s: World, w: Worker)
    requires Inv(s)
    ensures Inv(Finish(s, w))
  {
    hide Inv;
    MoveInv(s, Finish(s, w), w);
  }

  // A step that no worker takes.
  lemma WorldInv(s: World, t: World)
    requires Inv(s) && Grows(s, t) && t.workers == s.workers && t.table == s.table && t.calls == s.calls
    requires t.births == s.births && t.attempts == s.attempts && t.minted == s.minted && t.dispatches == s.dispatches
    requires t.vms.Keys == s.vms.Keys
    ensures Inv(t)
  {
    hide RowsOk, AccountsOk, FenceOk, FirstOk, PhaseOk, NamesOk, ProviderOk;
    NamesKept(s, t);
    ProviderKept(s, t);
    forall w | w in t.workers ensures PhaseOk(t, w, t.workers[w]) { OtherPhaseStaysOk(s, t, w + 1, w, s.workers[w]); }
    CalmStep(s, t);
    RowsStayOk(s, t);
    AccountsKept(s, t);
  }

  lemma TickInv(s: World, ms: nat)
    requires Inv(s)
    ensures Inv(s.(clockMs := s.clockMs + ms))
  {
    hide Inv;
    WorldInv(s, s.(clockMs := s.clockMs + ms));
  }

  lemma TerminateInv(s: World, token: Token)
    requires Inv(s) && token in s.vms
    ensures Inv(s.(vms := s.vms[token := s.vms[token].(terminated := true)]))
  {
    hide Inv;
    WorldInv(s, s.(vms := s.vms[token := s.vms[token].(terminated := true)]));
  }

  lemma PhaseAt(s: World, w: Worker)
    requires Inv(s) && w in s.workers
    ensures PhaseOk(s, w, s.workers[w])
  {
    hide NamesOk, RowsOk, AccountsOk, ProviderOk, FenceOk, FirstOk, PhaseOk;
  }

  lemma RowAt(s: World, k: TargetKey)
    requires Inv(s) && k in s.table.rows
    ensures RowOk(s, k, s.table.rows[k])
  {
    hide NamesOk, WorkersOk, AccountsOk, ProviderOk, FenceOk, FirstOk, RowOk;
  }

  lemma PhaseIgnoresWorkers(s: World, t: World, w: Worker, p: Phase)
    requires PhaseOk(s, w, p) && t == s.(workers := t.workers)
    ensures PhaseOk(t, w, p)
  {
  }

  lemma MoveToInv(s: World, w: Worker, p: Phase)
    requires Inv(s) && PhaseOk(s, w, p) && !p.Holding?
    ensures Inv(Move(s, w, p))
  {
    hide Inv, PhaseOk;
    PhaseIgnoresWorkers(s, Move(s, w, p), w, p);
    MoveInv(s, Move(s, w, p), w);
  }

  // ---- Steps that mint ids ----

  // A sealed request names its token, its deadlines and nothing that could be refused later.
  lemma SealedBirth(q: AcquireTarget, controlToken: string)
    requires MaterializeRequest(q, controlToken)
    ensures var launch := q.launchRequest.launch;
            && launch.clientToken == q.reservationId
            && launch.expiresAtMs == q.nowMs + TARGET_LIFETIME_MS
            && launch.dispatchDeadlineMs == q.nowMs + TARGET_DISPATCH_WINDOW_MS
    ensures ValidKey(q.key) && Identifier(q.reservationId) && Identifier(q.generation) && Identifier(q.attemptId)
    ensures 0 < q.launchRequest.bytes <= MAX_LAUNCH_REQUEST_BYTES
  {
    hide ValidKey, Identifier;
  }

  predicate Beginnable(s: World, w: Worker, q: AcquireTarget, controlToken: string) {
    && w !in s.workers && MaterializeRequest(q, controlToken) && q.nowMs <= s.clockMs && q.spec.materializedMib <= s.max
    && q.reservationId !in s.births && q.attemptId !in s.minted
  }

  lemma BeginStep(s: World, w: Worker, q: AcquireTarget)
    requires q.launchRequest.Sealed? && q.reservationId !in s.births && q.attemptId !in s.minted
    ensures StepOf(s, ApplyBegin(s, w, q), w)
  {
  }

  lemma BeginRequest(s: World, w: Worker, q: AcquireTarget, controlToken: string)
    requires AttemptsOk(s) && Beginnable(s, w, q, controlToken)
    ensures q.launchRequest.Sealed? && RequestOk(ApplyBegin(s, w, q), w, q, false)
  {
    hide ValidKey, Identifier, Seal, FirstLease;
  }

  lemma BeginNames(s: World, w: Worker, q: AcquireTarget, controlToken: string)
    requires NamesOk(s) && Beginnable(s, w, q, controlToken)
    ensures NamesOk(ApplyBegin(s, w, q)) && StepOf(s, ApplyBegin(s, w, q), w)
    ensures RequestOk(ApplyBegin(s, w, q), w, q, false)
  {
    SealedBirth(q, controlToken);
    hide ValidKey, Identifier, Seal, SealMatches, FirstLease, StepOf, RequestOk;
    var t := ApplyBegin(s, w, q);
    BeginRequest(s, w, q, controlToken);
    BeginStep(s, w, q);
    hide MaterializeRequest;
    assert MintedOk(t) by { hide BirthsOk, AttemptsOk; }
    assert BirthsOk(t) by { hide MintedOk, AttemptsOk; }
    assert AttemptsOk(t) by { hide BirthsOk, MintedOk; }
  }

  lemma MoreNamesSameProvider(s: World, t: World)
    requires ProviderOk(s) && Grows(s, t) && t.vms == s.vms && t.calls == s.calls && t.dispatches == s.dispatches
    ensures ProviderOk(t)
  {
  }

  // Minting ids creates nothing.
  lemma MintingIsCalm(s: World, t: World, w: Worker)
    requires WorkersOk(s) && Grows(s, t) && t.vms == s.vms && t.calls == s.calls && s.clockMs == t.clockMs
    requires t.workers - {w} == s.workers - {w} && (w in t.workers ==> !t.workers[w].Holding?)
    ensures CreatorsBoundedStrictly(s, t)
  {
    forall u | u in t.workers && WorkerMayCreate(t, u) ensures WorkerMayCreate(s, u) && s.workers[u] == t.workers[u] {
      assert u in t.workers - {w};
      assert PhaseOk(s, u, s.workers[u]);
    }
  }

  lemma BeginInv(s: World, w: Worker, q: AcquireTarget, controlToken: string)
    requires Inv(s) && Beginnable(s, w, q, controlToken)
    ensures Inv(ApplyBegin(s, w, q))
  {
    hide NamesOk, RowsOk, AccountsOk, ProviderOk, WorkersOk, FenceOk, FirstOk, RequestOk, CreatorsBoundedStrictly, FirstLease, Seal;
    BeginNames(s, w, q, controlToken);
    var t := ApplyBegin(s, w, q);
    MoreNamesSameProvider(s, t);
    MintingIsCalm(s, t, w);
    CalmInv(s, t, w);
  }

  // The recovery request of a row is acceptable: it carries the row's own names, later than their birth.
  lemma RecoveryRequestOk(s: World, w: Worker, row: TargetRecord, attempt: AttemptId, nowMs: nat)
    requires BirthsOk(s) && AttemptsOk(s) && MaterializingOk(s, row.key, row) && nowMs <= s.clockMs
    requires attempt in s.minted && s.minted[attempt] == w && attempt !in s.attempts && Identifier(attempt)
    requires row.state.attemptExpiresAtMs <= nowMs && nowMs + TARGET_LEASE_MS <= U64_MAX
    ensures RequestOk(s, w, RecoveryRequest(RecoveryLease(row), attempt, nowMs), true)
  {
    hide ValidKey, Identifier;
  }

  lemma MintStep(s: World, t: World, w: Worker, attempt: AttemptId)
    requires attempt !in s.minted && t == s.(workers := t.workers, minted := s.minted[attempt := w])
    ensures StepOf(s, t, w)
  {
  }

  lemma MintNames(s: World, t: World, w: Worker, attempt: AttemptId)
    requires NamesOk(s) && attempt !in s.minted && Identifier(attempt)
    requires t == s.(workers := t.workers, minted := s.minted[attempt := w])
    ensures NamesOk(t)
  {
    hide ValidKey, Identifier;
    assert MintedOk(t) by { hide BirthsOk, AttemptsOk; }
    assert BirthsOk(t) by { hide MintedOk, AttemptsOk; }
    assert AttemptsOk(t) by { hide BirthsOk, MintedOk; }
  }

  /** The step of a purge that starts to reconcile a row. */
  function Reconciling(s: World, w: Worker, row: TargetRecord, attempt: AttemptId, nowMs: nat): World
    requires row.state.Materializing?
  {
    Move(s, w, Reserving(RecoveryRequest(RecoveryLease(row), attempt, nowMs), true)).(minted := s.minted[attempt := w])
  }

  lemma RecoverNames(s: World, w: Worker, row: TargetRecord, attempt: AttemptId, nowMs: nat)
    requires NamesOk(s) && MaterializingOk(s, row.key, row) && row.state.attemptExpiresAtMs <= nowMs
    requires nowMs <= s.clockMs && attempt !in s.minted && Identifier(attempt) && nowMs + TARGET_LEASE_MS <= U64_MAX
    ensures var t := Reconciling(s, w, row, attempt, nowMs);
            NamesOk(t) && RequestOk(t, w, RecoveryRequest(RecoveryLease(row), attempt, nowMs), true) && StepOf(s, t, w)
  {
    assert row.state.Materializing?;
    assert attempt !in s.attempts;
    hide ValidKey, Identifier, RequestOk, NamesOk, MaterializingOk, StepOf, RecoveryRequest, RecoveryLease;
    var t := Reconciling(s, w, row, attempt, nowMs);
    MintNames(s, t, w, attempt);
    MintStep(s, t, w, attempt);
    StepGrows(s, t, w);
    MaterializingStays(s, t, row.key, row);
    NamesGive(t);
    RecoveryRequestOk(t, w, row, attempt, nowMs);
  }

  lemma StepGrows(s: World, t: World, w: Worker)
    requires StepOf(s, t, w)
    ensures Grows(s, t)
  {
  }

  lemma NamesGive(s: World)
    requires NamesOk(s)
    ensures BirthsOk(s) && AttemptsOk(s) && MintedOk(s)
  {
    hide BirthsOk, AttemptsOk, MintedOk;
  }

  lemma MaterializingStays(s: World, t: World, k: TargetKey, r: TargetRecord)
    requires MaterializingOk(s, k, r) && Grows(s, t)
    ensures MaterializingOk(t, k, r)
  {
  }

  lemma ReconcileInv(s: World, w: Worker, row: TargetRecord, attempt: AttemptId, nowMs: nat)
    requires Inv(s) && MaterializingOk(s, row.key, row) && row.state.attemptExpiresAtMs <= nowMs
    requires nowMs <= s.clockMs && attempt !in s.minted && Identifier(attempt) && nowMs + TARGET_LEASE_MS <= U64_MAX
    ensures Inv(Reconciling(s, w, row, attempt, nowMs))
  {
    assert row.state.Materializing?;
    hide NamesOk, RowsOk, AccountsOk, ProviderOk, WorkersOk, FenceOk, FirstOk, RequestOk, CreatorsBoundedStrictly, StepOf, Grows,
         ValidKey, Identifier, MaterializingOk, RecoveryRequest, RecoveryLease;
    var t := Reconciling(s, w, row, attempt, nowMs);
    RecoverNames(s, w, row, attempt, nowMs);
    MintInv(s, t, w, RecoveryRequest(RecoveryLease(row), attempt, nowMs), s.minted[attempt := w]);
  }

  // A worker that minted ids and now holds a good request.
  lemma MintInv(s: World, t: World, w: Worker, q: AcquireTarget, minted: map<AttemptId, Worker>)
    requires Inv(s) && t == Move(s, w, Reserving(q, true)).(minted := minted)
    requires NamesOk(t) && StepOf(s, t, w) && RequestOk(t, w, q, true)
    ensures Inv(t)
  {
    hide NamesOk, RowsOk, AccountsOk, ProviderOk, WorkersOk, FenceOk, FirstOk, RequestOk, CreatorsBoundedStrictly, StepOf, Grows;
    StepGrows(s, t, w);
    assert ProviderOk(t) by { MoreNamesSameProvider(s, t); }
    assert t.workers - {w} == s.workers - {w};
    assert CreatorsBoundedStrictly(s, t) by { MintingIsCalm(s, t, w); }
    CalmInv(s, t, w);
  }

  lemma RecoverInv(s: World, w: Worker, row: TargetRecord, attempt: AttemptId, nowMs: nat)
    requires Inv(s) && w in s.workers && s.workers[w] == Listed(row)
    requires nowMs <= s.clockMs && attempt !in s.minted && Identifier(attempt) && nowMs + TARGET_LEASE_MS <= U64_MAX
    ensures Inv(ApplyRecover(s, w, row, attempt, nowMs))
  {
    hide Inv, Identifier, ValidKey, Move, Finish, RecoveryRequest;
    PhaseAt(s, w);
    FinishInv(s, w);
    var lease := RecoveryLease(row);
    if lease.leaseExpiresAtMs <= nowMs {
      MoveToInv(s, w, Releasing(lease));
    } else if lease.attemptExpiresAtMs <= nowMs {
      ReconcileInv(s, w, row, attempt, nowMs);
    }
  }

  // ---- Steps that only change a phase ----

  lemma ConflictInv(s: World, w: Worker)
    requires Inv(s) && w in s.workers && (s.workers[w].Reserving? || s.workers[w].Writing?)
    ensures Inv(Move(s, w, Reading(s.workers[w].q, s.workers[w].purge)))
  {
    hide Inv, RequestOk, MaterializingOk;
    PhaseAt(s, w);
    MoveToInv(s, w, Reading(s.workers[w].q, s.workers[w].purge));
  }

  lemma ReadInv(s: World, w: Worker, q: AcquireTarget, purge: bool)
    requires Inv(s) && w in s.workers && s.workers[w] == Reading(q, purge)
    ensures Inv(ApplyRead(s, w, q, purge))
  {
    hide Inv, RequestOk, MaterializingOk, ValidKey, Identifier;
    PhaseAt(s, w);
    if q.key !in s.table.rows {
      FinishInv(s, w);
    } else {
      RowAt(s, q.key);
      ChosenRow(q, s.table.rows[q.key]);
      hide Choose;
      var t := ApplyRead(s, w, q, purge);
      if w in t.workers { MoveToInv(s, w, t.workers[w]); } else { FinishInv(s, w); }
    }
  }

  lemma ChosenRow(q: AcquireTarget, r: TargetRecord)
    ensures var c := Choose(q, r);
            c.Answer? && c.outcome.AlreadyInstalled? ==> r.state.Installed? && c.outcome.target == InstalledView(r)
  {
    hide ValidKey, Identifier;
  }

  lemma ListInv(s: World, w: Worker, key: TargetKey)
    requires Inv(s) && w !in s.workers && key in s.table.rows
    ensures Inv(Move(s, w, ListPhase(s.table.rows[key])))
  {
    hide Inv, MaterializingOk, ValidKey, Identifier, InstalledView;
    RowAt(s, key);
    ListedPhase(s, w, key, s.table.rows[key]);
    hide PhaseOk, RowOk;
    MoveToInv(s, w, ListPhase(s.table.rows[key]));
  }

  lemma ListedPhase(s: World, w: Worker, key: TargetKey, r: TargetRecord)
    requires RowOk(s, key, r)
    ensures PhaseOk(s, w, ListPhase(r)) && !ListPhase(r).Holding?
  {
    hide MaterializingOk, ValidKey, Identifier;
  }

  lemma ResolveInv(s: World, w: Worker, key: TargetKey, disposition: Disposition)
    requires Inv(s) && w !in s.workers && key in s.table.rows && s.table.rows[key].state.Installed?
    ensures Inv(Move(s, w, Closing(InstalledView(s.table.rows[key]), disposition, false)))
  {
    hide Inv, MaterializingOk, ValidKey, Identifier;
    RowAt(s, key);
    MoveToInv(s, w, Closing(InstalledView(s.table.rows[key]), disposition, false));
  }

  lemma RecheckInv(s: World, w: Worker, lease: Lease, purge: bool)
    requires Inv(s) && w in s.workers && s.workers[w] == Rechecking(lease, purge)
    ensures Inv(ApplyRecheck(s, w, lease, purge))
  {
    hide Inv, MaterializingOk, ValidKey, Identifier;
    FinishInv(s, w);
    if lease.key in s.table.rows && ExactInstall(s.table.rows[lease.key], lease) {
      RowAt(s, lease.key);
      MoveToInv(s, w, Closing(InstalledView(s.table.rows[lease.key]), Disposition.Terminated, true));
    }
  }

  lemma ConfirmInv(s: World, w: Worker, target: InstalledTarget, disposition: Disposition, purge: bool)
    requires Inv(s) && w in s.workers && s.workers[w] == Closing(target, disposition, purge) && !Alive(s, target.targetRef.token)
    ensures Inv(Move(s, w, Confirmed(target, disposition, purge)))
  {
    hide Inv;
    PhaseAt(s, w);
    MoveToInv(s, w, Confirmed(target, disposition, purge));
  }

  // ---- Answers ----

  // The call is gone, and the worker holds the VM, gave its attempt up, or stopped.
  lemma AnsweredInv(s: World, t: World, w: Worker, attempt: AttemptId)
    requires Inv(s) && t == s.(calls := s.calls - {attempt}, workers := t.workers) && OnlyWorker(s, t, w)
    requires w in t.workers ==> !t.workers[w].Holding?
    ensures Inv(t)
  {
    hide NamesOk, RowsOk, AccountsOk, ProviderOk, WorkersOk, FenceOk, FirstOk, PhaseOk;
    NamesKept(s, t);
    assert StepOf(s, t, w);
    ProviderKept(s, t);
    NoNewHolders(s, t, w);
    hide OnlyWorker, StepOf;
    CalmInv(s, t, w);
  }

  lemma AnswerTargetInv(s: World, w: Worker, lease: Lease, purge: bool, nowMs: nat)
    requires Inv(s) && w in s.workers && s.workers[w] == Calling(lease, purge, nowMs) && lease.reservationId in s.vms
    ensures Inv(ApplyAnswerTarget(s, w, lease, purge, nowMs))
  {
    hide Inv, Original, LeaseNamed;
    PhaseAt(s, w);
    var t := ApplyAnswerTarget(s, w, lease, purge, nowMs);
    LeaseKept(s, t, w, lease);
    AnsweredInv(s, t, w, lease.attemptId);
  }

  lemma LeaseKept(s: World, t: World, w: Worker, lease: Lease)
    requires t.births == s.births && t.attempts == s.attempts && t.minted == s.minted
    ensures LeaseOwned(s, w, lease) ==> LeaseOwned(t, w, lease)
    ensures LeaseNamed(s, lease) ==> LeaseNamed(t, lease)
    ensures Original(s, lease) ==> Original(t, lease)
  {
  }

  lemma AnswerNoneInv(s: World, w: Worker, lease: Lease, purge: bool, nowMs: nat)
    requires Inv(s) && w in s.workers && s.workers[w] == Calling(lease, purge, nowMs)
    requires !CreatedBy(s, lease.reservationId, lease.attemptId)
    ensures Inv(ApplyAnswerNone(s, w, lease))
  {
    hide Inv, Original, LeaseNamed;
    PhaseAt(s, w);
    var t := ApplyAnswerNone(s, w, lease);
    LeaseKept(s, t, w, lease);
    AnsweredInv(s, t, w, lease.attemptId);
  }

  // ---- Dispatch and creation ----

  /** The worker dispatches: its lease decodes its seal inside the window. */
  predicate Dispatches(s: World, w: Worker, lease: Lease, purge: bool, nowMs: nat) {
    && w in s.workers && s.workers[w] == Holding(lease, purge, nowMs)
    && lease.launchRequest.Sealed? && SealMatches(lease.launchRequest.launch, lease)
    && s.clockMs <= lease.launchRequest.launch.dispatchDeadlineMs
  }

  function Dispatched(s: World, w: Worker, lease: Lease, purge: bool, nowMs: nat): World
    requires lease.launchRequest.Sealed?
  {
    Move(s, w, Calling(lease, purge, nowMs))
      .(calls := s.calls[lease.attemptId := Call(lease.reservationId, s.clockMs)],
        dispatches := s.dispatches + [Dispatch(lease.reservationId, lease.launchRequest.launch, s.clockMs)])
  }

  lemma LaunchInv(s: World, w: Worker, lease: Lease, purge: bool, nowMs: nat)
    requires Inv(s) && w in s.workers && s.workers[w] == Holding(lease, purge, nowMs)
    ensures Inv(ApplyLaunch(s, w, lease, purge, nowMs))
  {
    hide Inv, LeaseNamed, Idle, SealMatches, Alive;
    PhaseAt(s, w);
    var t := ApplyLaunch(s, w, lease, purge, nowMs);
    if Dispatches(s, w, lease, purge, nowMs) {
      DispatchInv(s, w, lease, purge, nowMs);
    } else if w in t.workers {
      MoveToInv(s, w, t.workers[w]);
    } else {
      FinishInv(s, w);
    }
  }

  // A lease that decodes the seal of its token was reserved when the token was sealed.
  lemma DispatchIsOriginal(s: World, w: Worker, lease: Lease, purge: bool, nowMs: nat)
    requires NamesOk(s) && Dispatches(s, w, lease, purge, nowMs) && LeaseOwned(s, w, lease)
    ensures Original(s, lease) && lease.reservationId in s.births
    ensures s.clockMs <= s.births[lease.reservationId].bornAtMs + TARGET_DISPATCH_WINDOW_MS
    ensures lease.launchRequest.launch == s.births[lease.reservationId].launch
    ensures s.births[lease.reservationId].key == lease.key
  {
    hide ValidKey, Identifier, AttemptsOk, MintedOk;
  }

  lemma DispatchProvider(s: World, w: Worker, lease: Lease, purge: bool, nowMs: nat)
    requires NamesOk(s) && ProviderOk(s) && Dispatches(s, w, lease, purge, nowMs) && LeaseOwned(s, w, lease)
    ensures ProviderOk(Dispatched(s, w, lease, purge, nowMs))
  {
    DispatchIsOriginal(s, w, lease, purge, nowMs);
    hide NamesOk, SealMatches, Original;
    var t := Dispatched(s, w, lease, purge, nowMs);
    assert VmsOk(t) by { hide CallsOk, DispatchesOk; }
    assert CallsOk(t) by { hide VmsOk, DispatchesOk; }
    assert DispatchesOk(t) by { hide VmsOk, CallsOk; }
  }

  lemma DispatchPhase(s: World, w: Worker, lease: Lease, purge: bool, nowMs: nat)
    requires LeaseOwned(s, w, lease) && Original(s, lease) && nowMs < lease.targetExpiresAtMs && lease.launchRequest.Sealed?
    ensures OnlyWorker(s, Dispatched(s, w, lease, purge, nowMs), w)
    ensures StepOf(s, Dispatched(s, w, lease, purge, nowMs), w)
  {
    var t := Dispatched(s, w, lease, purge, nowMs);
    LeaseKept(s, t, w, lease);
    hide LeaseNamed, Original;
  }

  lemma DispatchCreators(s: World, w: Worker, lease: Lease, purge: bool, nowMs: nat)
    requires lease.launchRequest.Sealed?
    ensures CreatorsBounded(s, Dispatched(s, w, lease, purge, nowMs), lease.reservationId, lease.attemptId)
    ensures lease.reservationId in s.vms ==> CreatorsBoundedStrictly(s, Dispatched(s, w, lease, purge, nowMs))
  {
    NoNewHolders(s, Dispatched(s, w, lease, purge, nowMs), w);
  }

  // A dispatched lease was fenced while it waited, and is fenced now.
  lemma DispatchFences(s: World, w: Worker, lease: Lease, purge: bool, nowMs: nat)
    requires RowsOk(s) && FenceOk(s) && FirstOk(s) && Dispatches(s, w, lease, purge, nowMs) && LeaseOwned(s, w, lease)
    requires Original(s, lease) && lease.reservationId in s.births && s.births[lease.reservationId].key == lease.key
    requires s.clockMs <= s.births[lease.reservationId].bornAtMs + TARGET_DISPATCH_WINDOW_MS
    ensures FenceOk(Dispatched(s, w, lease, purge, nowMs)) && FirstOk(Dispatched(s, w, lease, purge, nowMs))
  {
    hide CreatorsBounded, CreatorsBoundedStrictly, SealMatches, RowsOk, FenceOk, FirstOk, SoleCreator;
    var t := Dispatched(s, w, lease, purge, nowMs);
    var token, a := lease.reservationId, lease.attemptId;
    DispatchCreators(s, w, lease, purge, nowMs);
    assert Grows(s, t);
    if token in s.vms {
      hide Grows;
      CalmStep(s, t);
    } else {
      WaitingIsFenced(s, w);
      assert Fenced(t, token);
      hide Grows;
      FencesKept(s, t, lease.key, token, a);
      if OnFirstAttempt(t, t.table.rows[lease.key]) {
        SoleCreatorStays(s, t, token, a, token, a);
      }
      FirstsKept(s, t, lease.key, token, a);
    }
  }

  // A worker that may still dispatch is fenced; if the row is on its first attempt, that attempt is the worker's.
  lemma WaitingIsFenced(s: World, w: Worker)
    requires RowsOk(s) && FenceOk(s) && FirstOk(s) && w in s.workers && WorkerMayCreate(s, w)
    requires FromBirth(s, s.workers[w].lease.reservationId, s.workers[w].lease.key, s.workers[w].lease.spec,
                       s.workers[w].lease.generation, s.workers[w].lease.launchRequest)
    ensures var lease := s.workers[w].lease;
            && lease.key in s.table.rows && Fenced(s, lease.reservationId)
            && (OnFirstAttempt(s, s.table.rows[lease.key]) ==>
                  && s.table.rows[lease.key].state.reservationId == lease.reservationId
                  && s.table.rows[lease.key].state.attemptId == lease.attemptId
                  && SoleCreator(s, lease.reservationId, lease.attemptId))
  {
    var lease := s.workers[w].lease;
    assert Fenced(s, lease.reservationId);
    hide FenceOk;
    var r := s.table.rows[lease.key];
    if OnFirstAttempt(s, r) {
      assert RowOk(s, lease.key, r);
      assert SoleCreator(s, r.state.reservationId, r.state.attemptId);
    }
  }

  lemma DispatchInv(s: World, w: Worker, lease: Lease, purge: bool, nowMs: nat)
    requires Inv(s) && Dispatches(s, w, lease, purge, nowMs)
    ensures Inv(ApplyLaunch(s, w, lease, purge, nowMs))
  {
    hide NamesOk, RowsOk, AccountsOk, ProviderOk, WorkersOk, FenceOk, FirstOk, LeaseOwned, Idle, OnlyWorker, StepOf, Grows, Original;
    var t := Dispatched(s, w, lease, purge, nowMs);
    assert t == ApplyLaunch(s, w, lease, purge, nowMs);
    hide SealMatches, ApplyLaunch;
    PhaseAt(s, w);
    DispatchIsOriginal(s, w, lease, purge, nowMs);
    DispatchProvider(s, w, lease, purge, nowMs);
    DispatchPhase(s, w, lease, purge, nowMs);
    DispatchFences(s, w, lease, purge, nowMs);
    NamesKept(s, t);
    StepGrows(s, t, w);
    RowsStayOk(s, t);
    AccountsKept(s, t);
    WorkersFrom(s, t, w);
  }

  lemma WorkersFrom(s: World, t: World, w: Worker)
    requires WorkersOk(s) && StepOf(s, t, w) && OnlyWorker(s, t, w)
    ensures WorkersOk(t)
  {
    hide PhaseOk, WorkersOk, StepOf;
    OthersStayOk(s, t, w);
  }

  /** The provider creates the VM of a call that may still do so. */
  lemma CreateProvider(s: World, a: AttemptId)
    requires ProviderOk(s) && CallMayCreate(s, a)
    ensures ProviderOk(ApplyCreate(s, a))
  {
    var t := ApplyCreate(s, a);
    assert VmsOk(t) by { hide DispatchesOk; }
    assert CallsOk(t) by { hide VmsOk, DispatchesOk; }
    assert DispatchesOk(t) by { hide VmsOk, CallsOk; }
  }

  lemma CreateStep(s: World, a: AttemptId, w: Worker)
    requires CallMayCreate(s, a)
    ensures StepOf(s, ApplyCreate(s, a), w)
  {
  }

  lemma CreateCreators(s: World, a: AttemptId)
    requires CallMayCreate(s, a)
    ensures CreatorsBounded(s, ApplyCreate(s, a), s.calls[a].token, a)
  {
  }

  // A VM appears only under a fenced token; on a first attempt it appears in that attempt's call.
  lemma CreateFences(s: World, a: AttemptId)
    requires RowsOk(s) && FenceOk(s) && FirstOk(s) && CallMayCreate(s, a)
    ensures FenceOk(ApplyCreate(s, a)) && FirstOk(ApplyCreate(s, a))
  {
    hide RowsOk, FenceOk, FirstOk, SoleCreator, StepOf, Grows, CreatorsBounded;
    var t, token := ApplyCreate(s, a), s.calls[a].token;
    CreateStep(s, a, 0);
    StepGrows(s, t, 0);
    CreateCreators(s, a);
    PendingIsFenced(s, a);
    var k := s.births[token].key;
    FencesKept(s, t, k, token, a);
    if OnFirstAttempt(t, t.table.rows[k]) {
      SoleCreatorStays(s, t, token, a, token, a);
    }
    FirstsKept(s, t, k, token, a);
  }

  lemma PendingIsFenced(s: World, a: AttemptId)
    requires RowsOk(s) && FenceOk(s) && FirstOk(s) && a in s.calls && CallMayCreate(s, a)
    ensures var token := s.calls[a].token;
            && Fenced(s, token)
            && (OnFirstAttempt(s, s.table.rows[s.births[token].key]) ==>
                  && s.table.rows[s.births[token].key].state.reservationId == token
                  && s.table.rows[s.births[token].key].state.attemptId == a
                  && SoleCreator(s, token, a))
  {
    var token := s.calls[a].token;
    assert Fenced(s, token);
    hide FenceOk;
    var k := s.births[token].key;
    if OnFirstAttempt(s, s.table.rows[k]) {
      assert RowOk(s, k, s.table.rows[k]);
      assert SoleCreator(s, token, s.table.rows[k].state.attemptId);
    }
  }

  lemma CreateInv(s: World, a: AttemptId)
    requires Inv(s) && CallMayCreate(s, a)
    ensures Inv(ApplyCreate(s, a))
  {
    hide NamesOk, RowsOk, AccountsOk, ProviderOk, FenceOk, FirstOk, PhaseOk, StepOf, Grows;
    var t := ApplyCreate(s, a);
    CreateProvider(s, a);
    CreateFences(s, a);
    forall w | w in t.workers ensures PhaseOk(t, w, t.workers[w]) {
      CreateStep(s, a, w + 1);
      OtherPhaseStaysOk(s, t, w + 1, w, s.workers[w]);
    }
    CreateStep(s, a, 0);
    StepGrows(s, t, 0);
    NamesKept(s, t);
    RowsStayOk(s, t);
    AccountsKept(s, t);
  }
}
