/** What becomes of an installed row that fails validation: every read, get and list of it is refused, so nobody who does
    not already hold it can close it (crates/hand-brain-aws/src/registry.rs:66-81, 526-539, 640-677, 875-876). */
module ProtocolStuckRows {
  import opened Wrappers
  import opened TargetRecords
  import opened TargetLauncher
  import opened MapTotals
  import opened DynamoRegistry
  import opened MaterializationProtocol
  import opened ProtocolSafety
  import opened ProtocolSteps
  import opened ProtocolWrites
  import opened ProtocolTheorems
  import opened ProtocolRows
  import Memory = MemoryRegistry

  /** The target is a view of this row: closing it would close the row. */
  predicate ViewOf(target: InstalledTarget, k: TargetKey, r: TargetRecord) {
    && target.key == k && r.state.Installed? && r.state.targetRef == target.targetRef
    && r.generation == target.generation && r.specDigest == target.specDigest
  }

  predicate HoldsView(p: Phase, k: TargetKey, r: TargetRecord) {
    (p.Closing? || p.Confirmed?) && ViewOf(p.target, k, r)
  }

  predicate InvalidRow(s: World, k: TargetKey) {
    k in s.table.rows && s.table.rows[k].state.Installed? && !ValidRecord(s.table.rows[k])
  }

  /** An invalid installed row that no worker holds a view of. */
  predicate Stuck(s: World, k: TargetKey) {
    && InvalidRow(s, k)
    && forall w :: w in s.workers ==> !HoldsView(s.workers[w], k, s.table.rows[k])
  }

  predicate SameRow(before: Table, after: Table, k: TargetKey) {
    k in before.rows && k in after.rows && after.rows[k] == before.rows[k]
  }

  // ---- Only a close changes an installed row ----

  lemma ReserveLeavesInstalled(t: Table, lease: Lease, nowMs: nat, max: nat, k: TargetKey)
    requires k in t.rows && t.rows[k].state.Installed? && lease.spec.materializedMib <= max
    ensures TryReserve(t, lease, nowMs, max).Some? ==> SameRow(t, TryReserve(t, lease, nowMs, max).value, k)
  {
  }

  lemma ReplaceExpiredLeavesInstalled(t: Table, reservation: string, q: AcquireTarget, lease: Lease, k: TargetKey)
    requires k in t.rows && t.rows[k].state.Installed?
    ensures TryReplaceExpired(t, reservation, q, lease).Some? ==> SameRow(t, TryReplaceExpired(t, reservation, q, lease).value, k)
  {
  }

  lemma ReplaceGoneLeavesInstalled(t: Table, seen: TargetRecord, q: AcquireTarget, lease: Lease, max: nat, k: TargetKey)
    requires k in t.rows && t.rows[k].state.Installed? && lease.spec.materializedMib <= max
    ensures TryReplaceGone(t, seen, q, lease, max).Some? ==> SameRow(t, TryReplaceGone(t, seen, q, lease, max).value, k)
  {
  }

  lemma TakeAttemptLeavesInstalled(t: Table, seen: TargetRecord, q: AcquireTarget, deadline: nat, k: TargetKey)
    requires k in t.rows && t.rows[k].state.Installed? && seen.state.Materializing?
    ensures TryTakeAttempt(t, seen, q, deadline).Some? ==> SameRow(t, TryTakeAttempt(t, seen, q, deadline).value, k)
  {
  }

  lemma InstallLeavesInstalled(t: Table, lease: Lease, target: PhysicalTarget, nowMs: nat, k: TargetKey)
    requires k in t.rows && t.rows[k].state.Installed? && TryInstall(t, lease, target, nowMs).Some?
    ensures SameRow(t, TryInstall(t, lease, target, nowMs).value, k) && lease.key != k
  {
  }

  lemma ExpireLeavesInstalled(t: Table, lease: Lease, k: TargetKey)
    requires k in t.rows && t.rows[k].state.Installed?
    ensures TryExpire(t, lease).Some? ==> SameRow(t, TryExpire(t, lease).value, k)
  {
  }

  lemma PurgeLeavesInstalled(t: Table, key: TargetKey, generation: string, k: TargetKey)
    requires k in t.rows && t.rows[k].state.Installed?
    ensures TryPurgeTerminal(t, key, generation).Some? ==> SameRow(t, TryPurgeTerminal(t, key, generation).value, k)
  {
  }

  lemma CloseLeavesOthers(t: Table, target: InstalledTarget, disposition: Disposition, reason: string, nowMs: nat, k: TargetKey)
    requires k in t.rows && t.rows[k].state.Installed? && TryClose(t, target, disposition, reason, nowMs).Some?
    ensures var after := TryClose(t, target, disposition, reason, nowMs).value;
            if ViewOf(target, k, t.rows[k]) then k in after.rows && after.rows[k].state.Closed? else SameRow(t, after, k)
  {
  }

  // ---- Worker steps that leave the row, and give no view of it ----

  /** The row stands, and worker `w` is in this phase or gone. */
  predicate Leaves(s: World, t: World, w: Worker, k: TargetKey) {
    && SameRow(s.table, t.table, k)
    && t.workers - {w} == s.workers - {w}
    && (w in t.workers ==> !HoldsView(t.workers[w], k, s.table.rows[k]))
  }

  lemma StuckThroughLeave(s: World, t: World, w: Worker, k: TargetKey)
    requires Stuck(s, k) && Leaves(s, t, w, k)
    ensures Stuck(t, k)
  {
    hide ValidRecord;
    forall u | u in t.workers ensures !HoldsView(t.workers[u], k, t.table.rows[k]) {
      if u != w { assert u in t.workers - {w}; }
    }
  }

  lemma FinishLeaves(s: World, w: Worker, k: TargetKey)
    requires k in s.table.rows
    ensures Leaves(s, Finish(s, w), w, k)
  {
  }

  lemma MoveLeaves(s: World, w: Worker, p: Phase, k: TargetKey)
    requires k in s.table.rows && !HoldsView(p, k, s.table.rows[k])
    ensures Leaves(s, Move(s, w, p), w, k)
  {
  }

  lemma TableLeaves(s: World, t: World, w: Worker, k: TargetKey)
    requires SameRow(s.table, t.table, k)
    requires t.workers - {w} == s.workers - {w} && (w in t.workers ==> !t.workers[w].Closing? && !t.workers[w].Confirmed?)
    ensures Leaves(s, t, w, k)
  {
  }

  lemma SeatLeaves(s: World, w: Worker, table: Table, q: AcquireTarget, purge: bool, k: TargetKey)
    requires FirstLease(q).Ok? && SameRow(s.table, table, k)
    ensures Leaves(s, Seat(s, w, table, q, purge), w, k)
  {
    hide FirstLease, SameRow, Leaves;
    TableLeaves(s, Seat(s, w, table, q, purge), w, k);
  }

  lemma ReserveLeaves(s: World, w: Worker, q: AcquireTarget, purge: bool, k: TargetKey)
    requires k in s.table.rows && s.table.rows[k].state.Installed? && FirstLease(q).Ok? && q.spec.materializedMib <= s.max
    ensures Leaves(s, ApplyReserve(s, w, q, purge), w, k)
  {
    var lease := FirstLease(q).value;
    assert lease.spec == q.spec;
    hide TryReserve, Seat, Leaves, Move, FirstLease;
    ReserveLeavesInstalled(s.table, lease, q.nowMs, s.max, k);
    MoveLeaves(s, w, Reading(q, purge), k);
    var t := TryReserve(s.table, lease, q.nowMs, s.max);
    if t.Some? { SeatLeaves(s, w, t.value, q, purge, k); }
  }

  lemma ReadLeaves(s: World, w: Worker, q: AcquireTarget, purge: bool, k: TargetKey)
    requires RowsOk(s) && InvalidRow(s, k)
    ensures Leaves(s, ApplyRead(s, w, q, purge), w, k)
  {
    hide Leaves, Move, Finish, RowsOk;
    FinishLeaves(s, w, k);
    if q.key in s.table.rows {
      var r := s.table.rows[q.key];
      MoveLeaves(s, w, Writing(q, purge, r), k);
      if Choose(q, r).Answer? && Choose(q, r).outcome.AlreadyInstalled? {
        OtherRowsKey(s, q.key);
        assert r.key != k;
        MoveLeaves(s, w, Closing(Choose(q, r).outcome.target, Disposition.Terminated, true), k);
      }
    }
  }

  lemma OtherRowsKey(s: World, key: TargetKey)
    requires RowsOk(s) && key in s.table.rows
    ensures s.table.rows[key].key == key
  {
    assert RowOk(s, key, s.table.rows[key]);
  }

  lemma WriteLeaves(s: World, w: Worker, q: AcquireTarget, purge: bool, seen: TargetRecord, k: TargetKey)
    requires k in s.table.rows && s.table.rows[k].state.Installed? && FirstLease(q).Ok? && q.spec.materializedMib <= s.max
    ensures Leaves(s, ApplyWrite(s, w, q, purge, seen), w, k)
  {
    var lease := FirstLease(q).value;
    assert lease.spec == q.spec;
    hide TryReplaceExpired, TryReplaceGone, TryTakeAttempt, TakeoverDeadline, TakenLease, Seat, Leaves, Finish, FirstLease, Identifier, ValidKey;
    FinishLeaves(s, w, k);
    MoveLeaves(s, w, Reading(q, purge), k);
    if Choose(q, seen).TakeAttempt? {
      TakeLeaves(s, w, q, purge, seen, k);
    } else {
      hide Move;
      if Choose(q, seen).ReplaceExpired? {
        ReplaceExpiredLeavesInstalled(s.table, seen.state.reservationId, q, lease, k);
        var t := TryReplaceExpired(s.table, seen.state.reservationId, q, lease);
        if t.Some? { SeatLeaves(s, w, t.value, q, purge, k); }
      } else if Choose(q, seen).ReplaceGone? {
        ReplaceGoneLeavesInstalled(s.table, seen, q, lease, s.max, k);
        var t := TryReplaceGone(s.table, seen, q, lease, s.max);
        if t.Some? { SeatLeaves(s, w, t.value, q, purge, k); }
      }
    }
  }

  lemma HoldingLeaves(s: World, w: Worker, lease: Lease, purge: bool, nowMs: nat, table: Table, attempts: map<AttemptId, Attempt>, k: TargetKey)
    requires SameRow(s.table, table, k)
    ensures Leaves(s, Move(s, w, Holding(lease, purge, nowMs)).(table := table, attempts := attempts), w, k)
  {
  }

  lemma TakeLeaves(s: World, w: Worker, q: AcquireTarget, purge: bool, seen: TargetRecord, k: TargetKey)
    requires k in s.table.rows && s.table.rows[k].state.Installed? && FirstLease(q).Ok? && q.spec.materializedMib <= s.max
    requires Choose(q, seen).TakeAttempt?
    ensures Leaves(s, ApplyWrite(s, w, q, purge, seen), w, k)
  {
    assert seen.state.Materializing?;
    hide TryTakeAttempt, TakeoverDeadline, TakenLease, Leaves, FirstLease, Choose, Finish, SameRow;
    FinishLeaves(s, w, k);
    var deadline := TakeoverDeadline(seen, q);
    if deadline.Ok? {
      TakeAttemptLeavesInstalled(s.table, seen, q, deadline.value, k);
      var table := TryTakeAttempt(s.table, seen, q, deadline.value);
      if table.Some? {
        var t := ApplyWrite(s, w, q, purge, seen);
        var lease := TakenLease(seen, q, deadline.value);
        assert t == Move(s, w, Holding(lease, purge, q.nowMs)).(table := table.value, attempts := t.attempts);
        HoldingLeaves(s, w, lease, purge, q.nowMs, table.value, t.attempts, k);
      } else {
        MoveLeaves(s, w, Reading(q, purge), k);
      }
    }
  }

  lemma LaunchLeaves(s: World, w: Worker, lease: Lease, purge: bool, nowMs: nat, k: TargetKey)
    requires k in s.table.rows
    ensures Leaves(s, ApplyLaunch(s, w, lease, purge, nowMs), w, k)
  {
    hide SealMatches, Admit, Leaves, Finish;
    FinishLeaves(s, w, k);
    MoveLeaves(s, w, Releasing(lease), k);
    if lease.launchRequest.Sealed? && SealMatches(lease.launchRequest.launch, lease)
       && Admit(lease, lease.launchRequest.launch.dispatchDeadlineMs, s.clockMs).None? {
      TableLeaves(s, ApplyLaunch(s, w, lease, purge, nowMs), w, k);
    }
  }

  lemma InstallLeaves(s: World, w: Worker, lease: Lease, purge: bool, nowMs: nat, k: TargetKey)
    requires RowsOk(s) && InvalidRow(s, k)
    ensures Leaves(s, ApplyInstall(s, w, lease, purge, nowMs), w, k)
  {
    MoveLeaves(s, w, Rechecking(lease, purge), k);
    if TryInstall(s.table, lease, PhysicalOf(lease), nowMs).Some? {
      OtherRowsKey(s, lease.key);
      assert TryInstall(s.table, lease, PhysicalOf(lease), nowMs).value.rows[lease.key].key == lease.key;
      hide RowsOk, ValidRecord;
      InstallLeavesInstalled(s.table, lease, PhysicalOf(lease), nowMs, k);
      hide TryInstall;
    }
  }

  lemma RecheckLeaves(s: World, w: Worker, lease: Lease, purge: bool, k: TargetKey)
    requires RowsOk(s) && InvalidRow(s, k)
    ensures Leaves(s, ApplyRecheck(s, w, lease, purge), w, k)
  {
    FinishLeaves(s, w, k);
    if lease.key in s.table.rows && ExactInstall(s.table.rows[lease.key], lease) && ValidRecord(s.table.rows[lease.key]) {
      OtherRowsKey(s, lease.key);
      hide RowsOk, ValidRecord, Leaves;
      MoveLeaves(s, w, Closing(InstalledView(s.table.rows[lease.key]), Disposition.Terminated, true), k);
    }
  }

  lemma ReleaseLeaves(s: World, w: Worker, lease: Lease, k: TargetKey)
    requires k in s.table.rows && s.table.rows[k].state.Installed?
    ensures Leaves(s, ApplyRelease(s, w, lease), w, k)
  {
    hide TryExpire, Leaves, SameRow;
    FinishLeaves(s, w, k);
    ExpireLeavesInstalled(s.table, lease, k);
    if TryExpire(s.table, lease).Some? { TableLeaves(s, ApplyRelease(s, w, lease), w, k); }
  }

  lemma PurgeLeaves(s: World, w: Worker, key: TargetKey, generation: string, k: TargetKey)
    requires k in s.table.rows && s.table.rows[k].state.Installed?
    ensures Leaves(s, ApplyPurge(s, w, key, generation), w, k)
  {
    hide TryPurgeTerminal, Leaves, SameRow;
    FinishLeaves(s, w, k);
    PurgeLeavesInstalled(s.table, key, generation, k);
    if TryPurgeTerminal(s.table, key, generation).Some? { TableLeaves(s, ApplyPurge(s, w, key, generation), w, k); }
  }

  lemma CloseLeaves(s: World, w: Worker, target: InstalledTarget, disposition: Disposition, purge: bool, reason: string, nowMs: nat, k: TargetKey)
    requires k in s.table.rows && s.table.rows[k].state.Installed? && !ViewOf(target, k, s.table.rows[k])
    ensures Leaves(s, ApplyClose(s, w, target, disposition, purge, reason, nowMs), w, k)
  {
    hide TryClose, Leaves, SameRow, ViewOf;
    FinishLeaves(s, w, k);
    if TryClose(s.table, target, disposition, reason, nowMs).Some? {
      CloseLeavesOthers(s.table, target, disposition, reason, nowMs, k);
      TableLeaves(s, ApplyClose(s, w, target, disposition, purge, reason, nowMs), w, k);
    }
  }

  lemma NoCounterNoClose(s: World, w: Worker, target: InstalledTarget, disposition: Disposition, purge: bool, reason: string, nowMs: nat)
    requires s.table.counter.None?
    ensures ApplyClose(s, w, target, disposition, purge, reason, nowMs) == Finish(s, w)
  {
  }

  lemma RecoverLeaves(s: World, w: Worker, row: TargetRecord, attempt: AttemptId, nowMs: nat, k: TargetKey)
    requires k in s.table.rows
    ensures Leaves(s, ApplyRecover(s, w, row, attempt, nowMs), w, k)
  {
    hide Leaves, Finish, RecoveryRequest, RecoveryLease;
    FinishLeaves(s, w, k);
    if row.state.Materializing? {
      MoveLeaves(s, w, Releasing(RecoveryLease(row)), k);
      TableLeaves(s, Move(s, w, Reserving(RecoveryRequest(RecoveryLease(row), attempt, nowMs), true)).(minted := s.minted[attempt := w]), w, k);
    }
  }

  // ---- Every step ----

  /** This event closes the row, through a view that its worker held. The counter exists since the first reservation. */
  predicate ClosesRow(s: World, e: Event, k: TargetKey)
    requires k in s.table.rows
  {
    Enabled(s, e) && e.Close? && ViewOf(s.workers[e.w].target, k, s.table.rows[k]) && s.table.counter.Some?
  }

  lemma BeginLeaves(s: World, w: Worker, q: AcquireTarget, k: TargetKey)
    requires k in s.table.rows && q.launchRequest.Sealed?
    ensures Leaves(s, ApplyBegin(s, w, q), w, k)
  {
  }

  lemma AnswerTargetLeaves(s: World, w: Worker, lease: Lease, purge: bool, nowMs: nat, k: TargetKey)
    requires k in s.table.rows
    ensures Leaves(s, ApplyAnswerTarget(s, w, lease, purge, nowMs), w, k)
  {
  }

  lemma AnswerNoneLeaves(s: World, w: Worker, lease: Lease, k: TargetKey)
    requires k in s.table.rows
    ensures Leaves(s, ApplyAnswerNone(s, w, lease), w, k)
  {
  }

  // The clock and the provider touch no row and no worker.
  lemma WorldStepLeaves(s: World, e: Event, k: TargetKey)
    requires k in s.table.rows && Enabled(s, e) && (e.Tick? || e.Create? || e.Terminate?)
    ensures Apply(s, e).table == s.table && Apply(s, e).workers == s.workers
  {
  }

  lemma ViewStepLeaves(s: World, e: Event, k: TargetKey) returns (w: Worker)
    requires RowsOk(s) && InvalidRow(s, k) && Enabled(s, e) && (e.Resolve? || e.ListRow?)
    ensures Leaves(s, Apply(s, e), w, k)
  {
    OtherRowsKey(s, e.key);
    hide RowsOk, Leaves, ValidRecord;
    w := e.w;
    if e.Resolve? {
      MoveLeaves(s, w, Closing(InstalledView(s.table.rows[e.key]), e.disposition, false), k);
    } else {
      MoveLeaves(s, w, ListPhase(s.table.rows[e.key]), k);
    }
  }

  // Every event leaves an invalid installed row alone but the close through a view of it; and none gives such a view.
  lemma StepLeaves(s: World, e: Event, k: TargetKey) returns (w: Worker)
    requires RowsOk(s) && InvalidRow(s, k) && Enabled(s, e) && !ClosesRow(s, e, k)
    ensures SameRow(s.table, Apply(s, e).table, k)
    ensures Stuck(s, k) ==> Leaves(s, Apply(s, e), w, k)
  {
    hide RowsOk, ValidRecord, ApplyBegin, ApplyReserve, ApplyRead, ApplyWrite, ApplyLaunch, ApplyCreate, ApplyAnswerTarget,
         ApplyAnswerNone, ApplyInstall, ApplyRecheck, ApplyRelease, ApplyClose, ApplyRecover, ApplyPurge, ListPhase, InstalledView, Alive,
         CreatedBy, Identifier, ValidReason, FirstLease, Seal, Finish, ViewOf;
    w := 0;
    match e
    case Reserve(u) =>
      w := u;
      FinishLeaves(s, w, k);
      if FirstLease(s.workers[w].q).Ok? && s.workers[w].q.spec.materializedMib <= s.max {
        ReserveLeaves(s, w, s.workers[w].q, s.workers[w].purge, k);
      }
    case Write(u) =>
      w := u;
      FinishLeaves(s, w, k);
      if FirstLease(s.workers[w].q).Ok? && s.workers[w].q.spec.materializedMib <= s.max {
        WriteLeaves(s, w, s.workers[w].q, s.workers[w].purge, s.workers[w].seen, k);
      }
    case Read(u) => w := u; ReadLeaves(s, w, s.workers[w].q, s.workers[w].purge, k);
    case Launch(u) => w := u; LaunchLeaves(s, w, s.workers[w].lease, s.workers[w].purge, s.workers[w].nowMs, k);
    case Install(u, now) =>
      w := u;
      InstallLeaves(s, w, s.workers[w].lease, s.workers[w].purge, InstallClock(s.workers[w], now), k);
    case Recheck(u) => w := u; RecheckLeaves(s, w, s.workers[w].lease, s.workers[w].purge, k);
    case Release(u) => w := u; ReleaseLeaves(s, w, s.workers[w].lease, k);
    case Purge(u) => w := u; PurgeLeaves(s, w, s.workers[w].key, s.workers[w].generation, k);
    case Recover(u, attempt, now) => w := u; RecoverLeaves(s, w, s.workers[w].row, attempt, now, k);
    case Close(u, reason, now) =>
      w := u;
      if s.table.counter.None? {
        NoCounterNoClose(s, w, s.workers[w].target, s.workers[w].disposition, s.workers[w].purge, reason, now);
        FinishLeaves(s, w, k);
      } else {
        CloseLeaves(s, w, s.workers[w].target, s.workers[w].disposition, s.workers[w].purge, reason, now, k);
      }
    case Confirm(u) =>
      w := u;
      if Stuck(s, k) {
        assert !HoldsView(s.workers[w], k, s.table.rows[k]);
        MoveLeaves(s, w, Confirmed(s.workers[w].target, s.workers[w].disposition, s.workers[w].purge), k);
      }
    case Resolve(_, _, _) => w := ViewStepLeaves(s, e, k);
    case ListRow(_, _) => w := ViewStepLeaves(s, e, k);
    case Tick(_) => WorldStepLeaves(s, e, k);
    case Create(_) => WorldStepLeaves(s, e, k);
    case Terminate(_) => WorldStepLeaves(s, e, k);
    case Begin(u, q, _) => w := u; BeginLeaves(s, w, q, k);
    case Conflict(u) => w := u; MoveLeaves(s, w, Reading(s.workers[w].q, s.workers[w].purge), k);
    case AnswerTarget(u) => w := u; AnswerTargetLeaves(s, w, s.workers[w].lease, s.workers[w].purge, s.workers[w].nowMs, k);
    case AnswerNone(u) => w := u; AnswerNoneLeaves(s, w, s.workers[w].lease, k);
    case Crash(u) => w := u; FinishLeaves(s, w, k);
  }

  // A close through a view of the row does close it: the counter covers the refund.
  lemma CloseThroughView(s: World, e: Event, k: TargetKey)
    requires Inv(s) && InvalidRow(s, k) && Enabled(s, e) && ClosesRow(s, e, k)
    ensures !SameRow(s.table, Apply(s, e).table, k)
  {
    var p := s.workers[e.w];
    hide Inv, ValidRecord, ApplyClose;
    ViewHasSpec(s, e.w, k);
    ChargeStands(s, k);
    CloseLands(s, e.w, p.target, p.disposition, p.purge, e.reason, e.nowMs, k);
  }

  lemma ViewHasSpec(s: World, w: Worker, k: TargetKey)
    requires Inv(s) && w in s.workers && s.workers[w].Confirmed? && k in s.table.rows && ViewOf(s.workers[w].target, k, s.table.rows[k])
    ensures s.workers[w].target.spec == s.table.rows[k].spec
  {
    hide Inv, MaterializingOk, Identifier, ValidKey, Alive;
    PhaseAt(s, w);
    RowAt(s, k);
  }

  lemma CloseLands(s: World, w: Worker, target: InstalledTarget, disposition: Disposition, purge: bool, reason: string, nowMs: nat, k: TargetKey)
    requires k in s.table.rows && ViewOf(target, k, s.table.rows[k]) && target.spec.materializedMib <= DynamoRegistry.Reserved(s.table)
    requires s.table.counter.Some?
    ensures !SameRow(s.table, ApplyClose(s, w, target, disposition, purge, reason, nowMs).table, k)
  {
    CloseLeavesOthers(s.table, target, disposition, reason, nowMs, k);
    hide TryClose;
  }

  // Exactly which events change an invalid installed row.
  lemma InvalidRowLeavesIff(s: World, e: Event, k: TargetKey)
    requires Inv(s) && InvalidRow(s, k) && Enabled(s, e)
    ensures !SameRow(s.table, Apply(s, e).table, k) <==> ClosesRow(s, e, k)
  {
    if ClosesRow(s, e, k) {
      CloseThroughView(s, e, k);
    } else {
      assert RowsOk(s);
      hide Inv, RowsOk, Apply, Enabled;
      var w := StepLeaves(s, e, k);
    }
  }

  lemma StuckStays(s: World, e: Event, k: TargetKey)
    requires RowsOk(s) && Stuck(s, k) && Enabled(s, e)
    ensures Stuck(Apply(s, e), k) && SameRow(s.table, Apply(s, e).table, k)
  {
    assert !ClosesRow(s, e, k);
    hide RowsOk, Apply, Enabled, HoldsView, ValidRecord;
    var w := StepLeaves(s, e, k);
    StuckThroughLeave(s, Apply(s, e), w, k);
  }

  // An invalid installed row that nobody holds a view of stands, unchanged, in every later state, and stays charged.
  lemma {:induction false} StuckForever(run: seq<World>, events: seq<Event>, k: TargetKey, i: nat, j: nat)
    requires IsRun(run, events) && i <= j < |run| && Stuck(run[i], k)
    ensures Stuck(run[j], k) && SameRow(run[i].table, run[j].table, k)
    ensures run[i].table.rows[k].spec.materializedMib <= DynamoRegistry.Reserved(run[j].table)
    decreases j
  {
    hide Apply, Enabled, Inv;
    RunIsValid(run, events, j);
    if i < j {
      StuckForever(run, events, k, i, j - 1);
      RunIsValid(run, events, j - 1);
      hide RowsOk, Stuck;
      assert Enabled(run[j - 1], events[j - 1]) && run[j] == Apply(run[j - 1], events[j - 1]);
      StuckStays(run[j - 1], events[j - 1], k);
    }
    ChargeStands(run[j], k);
  }

  lemma ChargeStands(s: World, k: TargetKey)
    requires Inv(s) && k in s.table.rows && s.table.rows[k].state.Installed?
    ensures s.table.rows[k].spec.materializedMib <= DynamoRegistry.Reserved(s.table)
  {
    hide NamesOk, RowsOk, ProviderOk, WorkersOk, FenceOk, FirstOk;
    TotalAtLeast(Memory.Charges(s.table.rows), k);
  }

  // A late purge install leaves its row stuck, unless some worker already holds a view of the very VM it installs.
  lemma LateInstallSticks(s: World, e: Event)
    requires Inv(s) && Enabled(s, e) && !PurgeOnTime(s, e)
    ensures var lease := s.workers[e.w].lease;
            && InvalidRow(Apply(s, e), lease.key)
            && ((forall w :: w in s.workers ==> !HoldsView(s.workers[w], lease.key, Apply(s, e).table.rows[lease.key]))
                ==> Stuck(Apply(s, e), lease.key))
  {
    var p := s.workers[e.w];
    hide Inv, OnTime, TryInstall, InstalledView, HoldsView, ValidRecord;
    InstallIsOnTimeIff(s, e.w, p.lease, p.purge, p.nowMs, e.nowMs);
    var t := Apply(s, e);
    assert t == Finish(s, e.w).(table := TryInstall(s.table, p.lease, PhysicalOf(p.lease), e.nowMs).value);
    forall w | w in t.workers ensures w in s.workers && t.workers[w] == s.workers[w] {}
  }
}
