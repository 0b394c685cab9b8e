/** Row validation over runs of the materialization protocol (crates/hand-core/src/materialization/record.rs:102-145). */
module ProtocolRows {
  import opened Wrappers
  import opened TargetRecords
  import opened TargetLauncher
  import opened DynamoRegistry
  import opened MaterializationProtocol
  import opened ProtocolSafety
  import opened ProtocolSteps
  import opened ProtocolTheorems

  predicate OnTime(r: TargetRecord) {
    r.state.Installed? ==> 0 < r.state.expiresAtMs && r.state.installedAtMs <= r.state.expiresAtMs && Identifier(r.state.targetRef.token)
  }

  predicate RowsOnTime(t: Table) {
    forall k :: k in t.rows ==> OnTime(t.rows[k])
  }

  /** The purge that installs a recovered launch with this event does so by the deadline of the row. `ensure` is not
      constrained, nor a purge whose install is refused. */
  predicate PurgeOnTime(s: World, e: Event) {
    Enabled(s, e) && e.Install? && s.workers[e.w].purge
    && TryInstall(s.table, s.workers[e.w].lease, PhysicalOf(s.workers[e.w].lease), e.nowMs).Some?
    ==> e.nowMs <= s.table.rows[s.workers[e.w].lease.key].state.targetExpiresAtMs
  }

  /** Every installed row was there before. */
  predicate InstallsNothing(before: Table, after: Table) {
    forall k :: k in after.rows && after.rows[k].state.Installed? ==> k in before.rows && before.rows[k] == after.rows[k]
  }

  // What the conditional writes other than install put in a row is never an installed state.
  lemma WritesInstallNothing(t: Table, q: AcquireTarget, seen: TargetRecord, lease: Lease, reservation: string, deadline: nat, max: nat)
    ensures lease.spec.materializedMib <= max && TryReserve(t, lease, q.nowMs, max).Some? ==>
              InstallsNothing(t, TryReserve(t, lease, q.nowMs, max).value)
    ensures TryReplaceExpired(t, reservation, q, lease).Some? ==> InstallsNothing(t, TryReplaceExpired(t, reservation, q, lease).value)
    ensures lease.spec.materializedMib <= max && TryReplaceGone(t, seen, q, lease, max).Some? ==>
              InstallsNothing(t, TryReplaceGone(t, seen, q, lease, max).value)
    ensures seen.state.Materializing? && TryTakeAttempt(t, seen, q, deadline).Some? ==>
              InstallsNothing(t, TryTakeAttempt(t, seen, q, deadline).value)
  {
  }

  lemma ReleaseWriteInstallsNothing(t: Table, lease: Lease)
    ensures TryExpire(t, lease).Some? ==> InstallsNothing(t, TryExpire(t, lease).value)
  {
  }

  lemma CloseWriteInstallsNothing(t: Table, target: InstalledTarget, disposition: Disposition, reason: string, nowMs: nat)
    ensures TryClose(t, target, disposition, reason, nowMs).Some? ==>
              InstallsNothing(t, TryClose(t, target, disposition, reason, nowMs).value)
  {
  }

  lemma PurgeWriteInstallsNothing(t: Table, key: TargetKey, generation: string)
    ensures TryPurgeTerminal(t, key, generation).Some? ==> InstallsNothing(t, TryPurgeTerminal(t, key, generation).value)
  {
  }

  lemma SeatTable(s: World, w: Worker, t: Table, q: AcquireTarget, purge: bool)
    requires FirstLease(q).Ok?
    ensures Seat(s, w, t, q, purge).table == t
  {
    hide FirstLease;
  }

  lemma ReserveInstallsNothing(s: World, w: Worker, q: AcquireTarget, purge: bool)
    requires FirstLease(q).Ok? && q.spec.materializedMib <= s.max
    ensures InstallsNothing(s.table, ApplyReserve(s, w, q, purge).table)
  {
    hide TryReserve, Seat, InstallsNothing, Identifier, ValidKey;
    Same(s.table);
    var lease := FirstLease(q).value;
    var t := TryReserve(s.table, lease, q.nowMs, s.max);
    if t.Some? {
      WritesInstallNothing(s.table, q, RecordFromLease(lease, 0), lease, "", 0, s.max);
      SeatTable(s, w, t.value, q, purge);
    }
  }

  lemma Same(t: Table)
    ensures InstallsNothing(t, t)
  {
  }

  lemma WriteInstallsNothing(s: World, w: Worker, q: AcquireTarget, purge: bool, seen: TargetRecord)
    requires FirstLease(q).Ok? && q.spec.materializedMib <= s.max
    ensures InstallsNothing(s.table, ApplyWrite(s, w, q, purge, seen).table)
  {
    hide TryReplaceExpired, TryReplaceGone, TryTakeAttempt, TakeoverDeadline, TakenLease, Seat, InstallsNothing, Identifier, ValidKey;
    Same(s.table);
    var lease := FirstLease(q).value;
    forall t: Table ensures Seat(s, w, t, q, purge).table == t { SeatTable(s, w, t, q, purge); }
    if seen.state.Materializing? {
      WritesInstallNothing(s.table, q, seen, lease, seen.state.reservationId,
                           if TakeoverDeadline(seen, q).Ok? then TakeoverDeadline(seen, q).value else 0, s.max);
    } else {
      WritesInstallNothing(s.table, q, seen, lease, "", 0, s.max);
    }
  }

  lemma StillOnTime(before: Table, after: Table)
    requires RowsOnTime(before) && InstallsNothing(before, after)
    ensures RowsOnTime(after)
  {
  }

  // The row an install writes passes validation exactly when the install happens by the row's target deadline.
  lemma InstallIsOnTimeIff(s: World, w: Worker, lease: Lease, purge: bool, begun: nat, nowMs: nat)
    requires Inv(s) && w in s.workers && s.workers[w] == Booted(lease, purge, begun)
    requires TryInstall(s.table, lease, PhysicalOf(lease), nowMs).Some?
    ensures lease.key in s.table.rows && s.table.rows[lease.key].state.Materializing?
    ensures begun < lease.targetExpiresAtMs <= s.table.rows[lease.key].state.targetExpiresAtMs
    ensures var t := TryInstall(s.table, lease, PhysicalOf(lease), nowMs).value;
            && lease.key in t.rows && t.rows[lease.key].state.Installed?
            && (OnTime(t.rows[lease.key]) <==> nowMs <= s.table.rows[lease.key].state.targetExpiresAtMs)
            && (ValidRecord(t.rows[lease.key]) <==> nowMs <= s.table.rows[lease.key].state.targetExpiresAtMs)
            && t.rows - {lease.key} == s.table.rows - {lease.key}
  {
    hide RowsOk, AccountsOk, ProviderOk, WorkersOk, FenceOk, FirstOk, ValidKey, Identifier;
    PhaseAt(s, w);
    RowAt(s, lease.key);
  }

  lemma InstallStaysOnTime(s: World, w: Worker, lease: Lease, purge: bool, begun: nat, nowMs: nat)
    requires Inv(s) && w in s.workers && s.workers[w] == Booted(lease, purge, begun) && RowsOnTime(s.table)
    requires TryInstall(s.table, lease, PhysicalOf(lease), nowMs).Some? ==> nowMs <= s.table.rows[lease.key].state.targetExpiresAtMs
    ensures RowsOnTime(ApplyInstall(s, w, lease, purge, nowMs).table)
  {
    hide Inv, OnTime, ValidRecord, TryInstall, InstalledView;
    var t := ApplyInstall(s, w, lease, purge, nowMs).table;
    if TryInstall(s.table, lease, PhysicalOf(lease), nowMs).Some? {
      InstallIsOnTimeIff(s, w, lease, purge, begun, nowMs);
      forall k | k in t.rows ensures OnTime(t.rows[k]) {
        if k != lease.key { assert k in t.rows - {lease.key}; }
      }
    }
  }

  lemma StepStaysOnTime(s: World, e: Event)
    requires Inv(s) && Enabled(s, e) && RowsOnTime(s.table) && PurgeOnTime(s, e)
    ensures RowsOnTime(Apply(s, e).table)
  {
    hide Inv, RowsOnTime, InstallsNothing, FirstLease, ApplyReserve, ApplyWrite, ApplyInstall, ApplyRelease, ApplyClose, ApplyPurge,
         ApplyRead, ApplyRecheck, ApplyLaunch, ApplyRecover, ListPhase, InstalledView, Alive, CreatedBy, Identifier, ValidReason, Seal;
    match e
    case Reserve(w) =>
      var q := s.workers[w].q;
      if FirstLease(q).Ok? && q.spec.materializedMib <= s.max {
        ReserveInstallsNothing(s, w, q, s.workers[w].purge);
        StillOnTime(s.table, Apply(s, e).table);
      }
    case Write(w) =>
      var q := s.workers[w].q;
      if FirstLease(q).Ok? && q.spec.materializedMib <= s.max {
        WriteInstallsNothing(s, w, q, s.workers[w].purge, s.workers[w].seen);
        StillOnTime(s.table, Apply(s, e).table);
      }
    case Install(w, now) =>
      var p := s.workers[w];
      if TryInstall(s.table, p.lease, PhysicalOf(p.lease), InstallClock(p, now)).Some? { BootedInTime(s, w, InstallClock(p, now)); }
      InstallStaysOnTime(s, w, p.lease, p.purge, p.nowMs, InstallClock(p, now));
    case Release(w) => ReleaseInstallsNothing(s, w, s.workers[w].lease); StillOnTime(s.table, Apply(s, e).table);
    case Close(w, reason, now) =>
      CloseInstallsNothing(s, w, s.workers[w].target, s.workers[w].disposition, s.workers[w].purge, reason, now);
      StillOnTime(s.table, Apply(s, e).table);
    case Purge(w) =>
      PurgeInstallsNothing(s, w, s.workers[w].key, s.workers[w].generation);
      StillOnTime(s.table, Apply(s, e).table);
    case Read(w) => ReadKeepsTable(s, w, s.workers[w].q, s.workers[w].purge);
    case Recheck(w) => RecheckKeepsTable(s, w, s.workers[w].lease, s.workers[w].purge);
    case Launch(w) => LaunchKeepsTable(s, w, s.workers[w].lease, s.workers[w].purge, s.workers[w].nowMs);
    case Recover(w, attempt, now) => RecoverKeepsTable(s, w, s.workers[w].row, attempt, now);
    case _ =>
  }

  lemma ReadKeepsTable(s: World, w: Worker, q: AcquireTarget, purge: bool)
    ensures ApplyRead(s, w, q, purge).table == s.table
  {
    hide Choose;
  }

  lemma RecheckKeepsTable(s: World, w: Worker, lease: Lease, purge: bool)
    ensures ApplyRecheck(s, w, lease, purge).table == s.table
  {
    hide ExactInstall, InstalledView;
  }

  lemma LaunchKeepsTable(s: World, w: Worker, lease: Lease, purge: bool, nowMs: nat)
    ensures ApplyLaunch(s, w, lease, purge, nowMs).table == s.table
  {
    hide SealMatches, Admit;
  }

  lemma RecoverKeepsTable(s: World, w: Worker, row: TargetRecord, attempt: AttemptId, nowMs: nat)
    ensures ApplyRecover(s, w, row, attempt, nowMs).table == s.table
  {
    hide RecoveryRequest;
  }

  lemma ReleaseInstallsNothing(s: World, w: Worker, lease: Lease)
    ensures InstallsNothing(s.table, ApplyRelease(s, w, lease).table)
  {
    hide TryExpire, InstallsNothing;
    Same(s.table);
    ReleaseWriteInstallsNothing(s.table, lease);
  }

  lemma CloseInstallsNothing(s: World, w: Worker, target: InstalledTarget, disposition: Disposition, purge: bool, reason: string, nowMs: nat)
    ensures InstallsNothing(s.table, ApplyClose(s, w, target, disposition, purge, reason, nowMs).table)
  {
    hide TryClose, InstallsNothing;
    Same(s.table);
    CloseWriteInstallsNothing(s.table, target, disposition, reason, nowMs);
  }

  lemma PurgeInstallsNothing(s: World, w: Worker, key: TargetKey, generation: string)
    ensures InstallsNothing(s.table, ApplyPurge(s, w, key, generation).table)
  {
    hide TryPurgeTerminal, InstallsNothing;
    Same(s.table);
    PurgeWriteInstallsNothing(s.table, key, generation);
  }

  // `ensure` installs at its acquire-time clock, which is before the target deadline.
  lemma BootedInTime(s: World, w: Worker, nowMs: nat)
    requires Inv(s) && w in s.workers && s.workers[w].Booted?
    requires TryInstall(s.table, s.workers[w].lease, PhysicalOf(s.workers[w].lease), nowMs).Some?
    ensures s.workers[w].nowMs < s.table.rows[s.workers[w].lease.key].state.targetExpiresAtMs
  {
    hide Inv;
    var p := s.workers[w];
    InstallIsOnTimeIff(s, w, p.lease, p.purge, p.nowMs, nowMs);
  }

  lemma {:induction false} RunStaysOnTime(run: seq<World>, events: seq<Event>, i: nat)
    requires IsRun(run, events) && i < |run|
    requires forall j :: 0 <= j < |events| ==> PurgeOnTime(run[j], events[j])
    ensures RowsOnTime(run[i].table)
  {
    hide Inv, Apply, Enabled, PurgeOnTime;
    if i > 0 {
      RunStaysOnTime(run, events, i - 1);
      RunInv(run, events, i - 1);
      StepStaysOnTime(run[i - 1], events[i - 1]);
    }
  }

  // Every row of every state of a run passes row validation, whatever takes over near a deadline, if no purge
  // installs after the deadline of the row.
  lemma RunRowsAreValid(run: seq<World>, events: seq<Event>, i: nat, k: TargetKey)
    requires IsRun(run, events) && i < |run| && k in run[i].table.rows
    requires forall j :: 0 <= j < |events| ==> PurgeOnTime(run[j], events[j])
    ensures ValidRecord(run[i].table.rows[k])
  {
    hide Apply, Enabled, PurgeOnTime, IsRun;
    RunInv(run, events, i);
    RunStaysOnTime(run, events, i);
    assert OnTime(run[i].table.rows[k]);
    RowIsValidUnlessInstalled(run[i], k);
    hide NamesOk, RowsOk, AccountsOk, ProviderOk, WorkersOk, FenceOk, FirstOk, ValidKey, Identifier;
    RowAt(run[i], k);
  }

  // A late purge install writes a row that fails validation.
  lemma LateInstallIsInvalid(s: World, e: Event)
    requires Inv(s) && Enabled(s, e) && !PurgeOnTime(s, e)
    ensures exists k :: k in Apply(s, e).table.rows && !ValidRecord(Apply(s, e).table.rows[k])
  {
    hide Inv, ValidRecord, TryInstall, InstalledView, OnTime;
    var p := s.workers[e.w];
    InstallIsOnTimeIff(s, e.w, p.lease, p.purge, p.nowMs, e.nowMs);
    assert p.lease.key in Apply(s, e).table.rows && !ValidRecord(Apply(s, e).table.rows[p.lease.key]);
  }

  predicate RowsValid(s: World) {
    forall k :: k in s.table.rows ==> ValidRecord(s.table.rows[k])
  }

  // Exactly: all rows of all states of a run are valid if and only if every purge in it installs by the row's deadline.
  lemma RunRowsAreValidIff(run: seq<World>, events: seq<Event>)
    requires IsRun(run, events)
    ensures (forall i :: 0 <= i < |run| ==> RowsValid(run[i])) <==> (forall j :: 0 <= j < |events| ==> PurgeOnTime(run[j], events[j]))
  {
    hide Apply, Enabled, PurgeOnTime, ValidRecord, Init, Inv;
    if forall j :: 0 <= j < |events| ==> PurgeOnTime(run[j], events[j]) {
      forall i, k | 0 <= i < |run| && k in run[i].table.rows ensures ValidRecord(run[i].table.rows[k]) {
        RunRowsAreValid(run, events, i, k);
      }
    } else {
      var j :| 0 <= j < |events| && !PurgeOnTime(run[j], events[j]);
      RunInv(run, events, j);
      assert Enabled(run[j], events[j]) && run[j + 1] == Apply(run[j], events[j]);
      LateInstallIsInvalid(run[j], events[j]);
      assert !RowsValid(run[j + 1]);
    }
  }
}
