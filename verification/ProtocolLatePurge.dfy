/** A purge that is late: a run that ends with a row that fails validation
    (crates/hand-brain-aws/src/ports/preparation.rs:353-454). */
module ProtocolLatePurge {
  import opened Wrappers
  import opened TargetRecords
  import opened TargetLauncher
  import opened DynamoRegistry
  import opened MaterializationProtocol
  import opened ProtocolSafety
  import opened ProtocolSteps
  import opened ProtocolTheorems
  import opened ProtocolRows
  import opened ProtocolStuckRows

  ghost predicate Reachable(s: World) {
    exists run, events :: IsRun(run, events) && run[|run| - 1] == s
  }

  lemma ReachesInit(s: World)
    requires Init(s)
    ensures Reachable(s)
  {
    hide Init;
    assert IsRun([s], []);
    assert [s][|[s]| - 1] == s;
  }

  lemma ReachesNext(s: World, e: Event)
    requires Reachable(s) && Enabled(s, e)
    ensures Reachable(Apply(s, e))
  {
    hide Enabled, Apply, Init;
    var run, events :| IsRun(run, events) && run[|run| - 1] == s;
    var run', events' := run + [Apply(s, e)], events + [e];
    forall i | 0 <= i < |events'| ensures Enabled(run'[i], events'[i]) && run'[i + 1] == Apply(run'[i], events'[i]) {
      if i < |events| { assert Enabled(run[i], events[i]) && run[i + 1] == Apply(run[i], events[i]); }
    }
    assert IsRun(run', events') && run'[|run'| - 1] == Apply(s, e);
  }

  /** One row, on its first attempt, that its worker left behind. */
  predicate Orphaned(s: World, q: AcquireTarget, controlToken: string) {
    && MaterializeRequest(q, controlToken)
    && s.table.rows == map[q.key := RecordFromLease(FirstLease(q).value, q.nowMs)]
    && s.clockMs == q.nowMs + TARGET_ATTEMPT_MS && s.clockMs + TARGET_LEASE_MS <= U64_MAX
    && q.spec.materializedMib <= s.max
    && s.vms == map[] && s.calls == map[] && s.workers == map[] && s.minted.Keys == {q.attemptId}
  }

  lemma OrphanIsReached(s: World, w: Worker, q: AcquireTarget, controlToken: string) returns (t: World)
    requires Init(s) && Enabled(s, Begin(w, q, controlToken)) && s.clockMs == q.nowMs
    requires q.nowMs + TARGET_ATTEMPT_MS + TARGET_LEASE_MS <= U64_MAX
    ensures Reachable(t) && Orphaned(t, q, controlToken)
  {
    hide Identifier, ValidKey, Seal;
    ReachesInit(s);
    ReachesNext(s, Begin(w, q, controlToken));
    var s1 := ApplyBegin(s, w, q);
    ReachesNext(s1, Reserve(w));
    var s2 := ApplyReserve(s1, w, q, false);
    assert s2.table.rows == map[q.key := RecordFromLease(FirstLease(q).value, q.nowMs)] && w in s2.workers;
    hide FirstLease, TryReserve, Reachable;
    ReachesNext(s2, Crash(w));
    var s3 := Finish(s2, w);
    ReachesNext(s3, Tick(TARGET_ATTEMPT_MS));
    t := s3.(clockMs := s3.clockMs + TARGET_ATTEMPT_MS);
  }

  function OrphanRow(q: AcquireTarget): TargetRecord
    requires FirstLease(q).Ok?
  {
    RecordFromLease(FirstLease(q).value, q.nowMs)
  }

  function PurgeRequest(q: AcquireTarget, attempt: AttemptId, nowMs: nat): AcquireTarget
    requires FirstLease(q).Ok?
  {
    RecoveryRequest(RecoveryLease(OrphanRow(q)), attempt, nowMs)
  }

  lemma PurgeRequestIsAccepted(q: AcquireTarget, controlToken: string, attempt: AttemptId)
    requires MaterializeRequest(q, controlToken) && Identifier(attempt) && q.nowMs + TARGET_ATTEMPT_MS + TARGET_LEASE_MS <= U64_MAX
    ensures FirstLease(PurgeRequest(q, attempt, q.nowMs + TARGET_ATTEMPT_MS)).Ok?
    ensures Choose(PurgeRequest(q, attempt, q.nowMs + TARGET_ATTEMPT_MS), OrphanRow(q)).TakeAttempt?
  {
    FirstRowIsValid(q);
    hide Identifier, ValidKey, Seal;
  }

  /** A purge has listed the orphan and minted an attempt for it. */
  predicate Recovering(s: World, v: Worker, q: AcquireTarget, controlToken: string, attempt: AttemptId, phase: Phase) {
    && MaterializeRequest(q, controlToken) && Identifier(attempt)
    && s.table.rows == map[q.key := OrphanRow(q)]
    && s.clockMs == q.nowMs + TARGET_ATTEMPT_MS && s.clockMs + TARGET_LEASE_MS <= U64_MAX
    && q.spec.materializedMib <= s.max
    && s.vms == map[] && s.calls == map[] && s.workers == map[v := phase]
  }

  lemma RecoveryBegins(s: World, v: Worker, q: AcquireTarget, controlToken: string, attempt: AttemptId) returns (t: World)
    requires Reachable(s) && Orphaned(s, q, controlToken) && Identifier(attempt) && attempt != q.attemptId
    ensures Reachable(t) && Recovering(t, v, q, controlToken, attempt, Reserving(PurgeRequest(q, attempt, s.clockMs), true))
  {
    hide Identifier, ValidKey, Seal, Reachable;
    ReachesNext(s, ListRow(v, q.key));
    var row := OrphanRow(q);
    var s1 := Move(s, v, Listed(row));
    assert s1 == Apply(s, ListRow(v, q.key));
    ReachesNext(s1, Recover(v, attempt, s.clockMs));
    t := Apply(s1, Recover(v, attempt, s.clockMs));
    assert t == Move(s1, v, Reserving(PurgeRequest(q, attempt, s.clockMs), true)).(minted := s1.minted[attempt := v]);
  }

  lemma RecoveryReads(s: World, v: Worker, q: AcquireTarget, controlToken: string, attempt: AttemptId) returns (t: World)
    requires Reachable(s) && MaterializeRequest(q, controlToken)
    requires Recovering(s, v, q, controlToken, attempt, Reserving(PurgeRequest(q, attempt, s.clockMs), true))
    ensures Reachable(t) && t.clockMs == s.clockMs
    ensures Recovering(t, v, q, controlToken, attempt, Writing(PurgeRequest(q, attempt, s.clockMs), true, OrphanRow(q)))
  {
    var p := PurgeRequest(q, attempt, s.clockMs);
    PurgeRequestIsAccepted(q, controlToken, attempt);
    assert FirstLease(p).value.key == q.key && p.spec == q.spec && p.key == q.key && OrphanRow(q).key == q.key by { hide Identifier, ValidKey; }
    hide Identifier, ValidKey, Seal, Reachable, Choose, OrphanRow, PurgeRequest, FirstLease;
    ReachesNext(s, Reserve(v));
    var s1 := Move(s, v, Reading(p, true));
    assert s1 == Apply(s, Reserve(v)) by { assert q.key in s.table.rows; }
    hide TryReserve;
    ReachesNext(s1, Read(v));
    t := Move(s1, v, Writing(p, true, OrphanRow(q)));
    assert t == Apply(s1, Read(v));
  }

  /** The attempt deadline and the lease of the purge's takeover. */
  function TakenDeadline(q: AcquireTarget): nat {
    q.nowMs + TARGET_ATTEMPT_MS + TARGET_ATTEMPT_MS
  }

  function PurgeLease(q: AcquireTarget, attempt: AttemptId): Lease
    requires FirstLease(q).Ok?
  {
    TakenLease(OrphanRow(q), PurgeRequest(q, attempt, q.nowMs + TARGET_ATTEMPT_MS), TakenDeadline(q))
  }

  /** The row after the takeover: still under its first reservation and both its deadlines. */
  predicate Taken(s: World, q: AcquireTarget, controlToken: string, attempt: AttemptId) {
    && MaterializeRequest(q, controlToken) && q.key in s.table.rows
    && s.table.rows[q.key] == TakenOver(OrphanRow(q), attempt, TakenDeadline(q), q.nowMs + TARGET_ATTEMPT_MS)
  }

  lemma RecoveryTakesOver(s: World, v: Worker, q: AcquireTarget, controlToken: string, attempt: AttemptId) returns (t: World)
    requires Reachable(s) && MaterializeRequest(q, controlToken)
    requires Recovering(s, v, q, controlToken, attempt, Writing(PurgeRequest(q, attempt, s.clockMs), true, OrphanRow(q)))
    ensures Reachable(t) && Taken(t, q, controlToken, attempt) && t.clockMs == s.clockMs && t.vms == map[] && t.calls == map[]
    ensures t.workers == map[v := Holding(PurgeLease(q, attempt), true, s.clockMs)]
  {
    var p, row := PurgeRequest(q, attempt, s.clockMs), OrphanRow(q);
    PurgeRequestIsAccepted(q, controlToken, attempt);
    hide Seal;
    assert TakeoverDeadline(row, p) == Ok(TakenDeadline(q)) && p.spec == q.spec && p.nowMs == s.clockMs && p.attemptId == attempt
           && TryTakeAttempt(s.table, row, p, TakenDeadline(q))
              == Some(s.table.(rows := s.table.rows[q.key := TakenOver(row, attempt, TakenDeadline(q), s.clockMs)])) by {
      hide Identifier, ValidKey;
    }
    hide Identifier, ValidKey, Reachable, Choose, OrphanRow, PurgeRequest, FirstLease, TryTakeAttempt, TakeoverDeadline, TakenLease, TakenOver;
    ReachesNext(s, Event.Write(v));
    t := Apply(s, Event.Write(v));
    assert t == ApplyWrite(s, v, p, true, row);
  }

  lemma PurgeLeaseMatchesSeal(q: AcquireTarget, controlToken: string, attempt: AttemptId)
    requires MaterializeRequest(q, controlToken)
    ensures var lease := PurgeLease(q, attempt);
            && lease.launchRequest.Sealed? && SealMatches(lease.launchRequest.launch, lease)
            && lease.launchRequest.launch.dispatchDeadlineMs == q.nowMs + TARGET_DISPATCH_WINDOW_MS
            && lease.attemptId == attempt && lease.reservationId == q.reservationId && lease.key == q.key
  {
    SealedBirth(q, controlToken);
    SealBindsTheReservation(FirstLease(q).value, FirstLease(q).value, controlToken);
    hide Identifier, ValidKey;
  }

  lemma RecoveryLaunches(s: World, v: Worker, q: AcquireTarget, controlToken: string, attempt: AttemptId) returns (t: World)
    requires Reachable(s) && Taken(s, q, controlToken, attempt) && s.clockMs == q.nowMs + TARGET_ATTEMPT_MS && s.vms == map[] && s.calls == map[]
    requires s.workers == map[v := Holding(PurgeLease(q, attempt), true, s.clockMs)]
    ensures Reachable(t) && Taken(t, q, controlToken, attempt) && t.clockMs == s.clockMs
    ensures t.workers == map[v := Booted(PurgeLease(q, attempt), true, s.clockMs)]
  {
    var lease := PurgeLease(q, attempt);
    PurgeLeaseMatchesSeal(q, controlToken, attempt);
    hide PurgeLease, MaterializeRequest, SealMatches, OrphanRow, TakenOver, Reachable;
    ReachesNext(s, Launch(v));
    var s1 := ApplyLaunch(s, v, lease, true, s.clockMs);
    assert s1 == Move(s, v, Calling(lease, true, s.clockMs))
                   .(calls := s.calls[attempt := Call(q.reservationId, s.clockMs)],
                     dispatches := s.dispatches + [Dispatch(q.reservationId, lease.launchRequest.launch, s.clockMs)]);
    hide ApplyLaunch;
    ReachesNext(s1, Create(attempt));
    var s2 := ApplyCreate(s1, attempt);
    ReachesNext(s2, AnswerTarget(v));
    t := ApplyAnswerTarget(s2, v, lease, true, s.clockMs);
  }

  lemma TakenInstalls(s: World, q: AcquireTarget, controlToken: string, attempt: AttemptId, nowMs: nat)
    requires Taken(s, q, controlToken, attempt)
    ensures var lease := PurgeLease(q, attempt);
            && lease.key == q.key && TryInstall(s.table, lease, PhysicalOf(lease), nowMs).Some?
            && s.table.rows[q.key].state.Materializing?
            && s.table.rows[q.key].state.targetExpiresAtMs == q.nowMs + TARGET_LIFETIME_MS
  {
    hide Identifier, ValidKey, Seal;
  }

  // From an empty plane: a worker reserves and stops, a purge takes over and launches within the window, and installs
  // after the target's deadline. The row it leaves fails validation, and nobody can ever read, close or remove it.
  lemma LatePurgeIsReached(s: World, w: Worker, v: Worker, q: AcquireTarget, controlToken: string, attempt: AttemptId) returns (t: World)
    requires Init(s) && Enabled(s, Begin(w, q, controlToken)) && s.clockMs == q.nowMs
    requires q.nowMs + TARGET_ATTEMPT_MS + TARGET_LEASE_MS <= U64_MAX && Identifier(attempt) && attempt != q.attemptId
    ensures Reachable(t) && Stuck(t, q.key)
  {
    var s1 := OrphanIsReached(s, w, q, controlToken);
    var s2 := RecoveryBegins(s1, v, q, controlToken, attempt);
    var s3 := RecoveryReads(s2, v, q, controlToken, attempt);
    var s4 := RecoveryTakesOver(s3, v, q, controlToken, attempt);
    var s5 := RecoveryLaunches(s4, v, q, controlToken, attempt);
    t := InstallsLate(s5, v, q, controlToken, attempt);
  }

  lemma InstallsLate(s: World, v: Worker, q: AcquireTarget, controlToken: string, attempt: AttemptId) returns (t: World)
    requires Reachable(s) && Taken(s, q, controlToken, attempt) && s.clockMs == q.nowMs + TARGET_ATTEMPT_MS
    requires s.workers == map[v := Booted(PurgeLease(q, attempt), true, s.clockMs)]
    ensures Reachable(t) && Stuck(t, q.key)
  {
    hide Reachable, PurgeLease, OrphanRow, MaterializeRequest;
    ReachesNext(s, Tick(TARGET_LIFETIME_MS));
    var s1 := s.(clockMs := s.clockMs + TARGET_LIFETIME_MS);
    t := InstallsNow(s1, v, q, controlToken, attempt, s.clockMs);
  }

  lemma InstallsNow(s: World, v: Worker, q: AcquireTarget, controlToken: string, attempt: AttemptId, begun: nat) returns (t: World)
    requires Reachable(s) && Taken(s, q, controlToken, attempt) && s.clockMs > q.nowMs + TARGET_LIFETIME_MS
    requires s.workers == map[v := Booted(PurgeLease(q, attempt), true, begun)]
    ensures Reachable(t) && Stuck(t, q.key)
  {
    var e := Install(v, s.clockMs);
    InstallIsLate(s, v, q, controlToken, attempt, begun);
    ReachableInv(s);
    hide Inv, Reachable, PurgeLease, Taken, PurgeOnTime, Stuck, InvalidRow, Apply;
    ReachesNext(s, e);
    LateInstallSticks(s, e);
    t := Apply(s, e);
  }

  lemma InstallIsLate(s: World, v: Worker, q: AcquireTarget, controlToken: string, attempt: AttemptId, begun: nat)
    requires Taken(s, q, controlToken, attempt) && s.clockMs > q.nowMs + TARGET_LIFETIME_MS
    requires s.workers == map[v := Booted(PurgeLease(q, attempt), true, begun)]
    ensures Enabled(s, Install(v, s.clockMs)) && !PurgeOnTime(s, Install(v, s.clockMs)) && s.workers[v].lease.key == q.key
  {
    TakenInstalls(s, q, controlToken, attempt, s.clockMs);
    hide PurgeLease, Taken, TryInstall;
  }

  lemma ReachableInv(s: World)
    requires Reachable(s)
    ensures Inv(s)
  {
    hide Inv, Apply, Enabled, Init;
    var run, events :| IsRun(run, events) && run[|run| - 1] == s;
    RunInv(run, events, |run| - 1);
  }
}
