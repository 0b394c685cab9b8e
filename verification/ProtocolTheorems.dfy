/** What holds in every run of the materialization protocol. */
module ProtocolTheorems {
  import opened Wrappers
  import opened TargetRecords
  import opened TargetLauncher
  import opened MapTotals
  import opened DynamoRegistry
  import opened MaterializationProtocol
  import opened ProtocolSafety
  import opened ProtocolSteps
  import opened ProtocolWrites
  import Memory = MemoryRegistry

  // Every enabled event, by any worker, the provider or the clock, keeps the invariant.
  lemma StepInv(s: World, e: Event)
    requires Inv(s) && Enabled(s, e)
    ensures Inv(Apply(s, e))
  {
    hide Inv, FirstLease, ApplyBegin, ApplyReserve, ApplyRead, ApplyWrite, ApplyLaunch, ApplyCreate, ApplyAnswerTarget, ApplyAnswerNone,
         ApplyInstall, ApplyRecheck, ApplyRelease, ApplyClose, ApplyRecover, ApplyPurge, ListPhase, MaterializeRequest, Alive, CreatedBy, Identifier,
         ValidReason;
    match e
    case Tick(ms) => TickInv(s, ms);
    case Begin(w, q, controlToken) => BeginInv(s, w, q, controlToken);
    case Reserve(w) => ReserveInv(s, w, s.workers[w].q, s.workers[w].purge);
    case Conflict(w) => ConflictInv(s, w);
    case Read(w) => ReadInv(s, w, s.workers[w].q, s.workers[w].purge);
    case Write(w) => WriteStepInv(s, w, s.workers[w].q, s.workers[w].purge, s.workers[w].seen);
    case Launch(w) => LaunchInv(s, w, s.workers[w].lease, s.workers[w].purge, s.workers[w].nowMs);
    case Create(a) => CreateInv(s, a);
    case AnswerTarget(w) => AnswerTargetInv(s, w, s.workers[w].lease, s.workers[w].purge, s.workers[w].nowMs);
    case AnswerNone(w) => AnswerNoneInv(s, w, s.workers[w].lease, s.workers[w].purge, s.workers[w].nowMs);
    case Crash(w) => FinishInv(s, w);
    case Install(w, now) =>
      var p := s.workers[w];
      InstallInv(s, w, p.lease, p.purge, p.nowMs, InstallClock(p, now));
    case Recheck(w) => RecheckInv(s, w, s.workers[w].lease, s.workers[w].purge);
    case Release(w) => ReleaseInv(s, w, s.workers[w].lease);
    case Terminate(token) => TerminateInv(s, token);
    case Resolve(w, key, disposition) => ResolveInv(s, w, key, disposition);
    case Confirm(w) => ConfirmInv(s, w, s.workers[w].target, s.workers[w].disposition, s.workers[w].purge);
    case Close(w, reason, now) =>
      CloseInv(s, w, s.workers[w].target, s.workers[w].disposition, s.workers[w].purge, reason, now);
    case ListRow(w, key) => ListInv(s, w, key);
    case Recover(w, attempt, now) => RecoverInv(s, w, s.workers[w].row, attempt, now);
    case Purge(w) => PurgeInv(s, w, s.workers[w].key, s.workers[w].generation);
  }

  lemma {:induction false} RunInv(run: seq<World>, events: seq<Event>, i: nat)
    requires IsRun(run, events) && i < |run|
    ensures Inv(run[i])
  {
    hide Inv, Apply, Enabled;
    if i == 0 {
      InitInv(run[0]);
    } else {
      RunInv(run, events, i - 1);
      StepInv(run[i - 1], events[i - 1]);
    }
  }

  // ---- Capacity ----

  /** Memory of the VMs that are alive now, by client token. */
  function LiveMemory(s: World): map<Token, nat> {
    map t | t in s.vms && Alive(s, t) :: s.vms[t].mib
  }

  function HomeKeys(s: World): map<Token, TargetKey> {
    map t | t in s.births :: s.births[t].key
  }

  // Live VMs inject into charged rows.
  lemma LiveIsCharged(s: World)
    requires Inv(s)
    ensures Total(LiveMemory(s)) <= DynamoRegistry.Reserved(s.table)
  {
    hide NamesOk, WorkersOk, FirstOk, Memory.WellKeyed;
    var live, charges, homes := LiveMemory(s), Memory.Charges(s.table.rows), HomeKeys(s);
    forall t | t in live ensures t in homes && homes[t] in charges && live[t] <= charges[homes[t]] {
      assert Fenced(s, t);
      assert RowOk(s, homes[t], s.table.rows[homes[t]]);
    }
    forall t, u | t in live && u in live && homes[t] == homes[u] ensures t == u {
      assert Fenced(s, t) && Fenced(s, u);
    }
    TotalInjects(live, charges, homes);
  }

  // In every reachable state, the memory of all live VMs is at most the charged counter, which is the sum over
  // the charged rows and at most the plane bound.
  lemma CapacityIsNeverDoubleSpent(run: seq<World>, events: seq<Event>, i: nat)
    requires IsRun(run, events) && i < |run|
    ensures Total(LiveMemory(run[i])) <= DynamoRegistry.Reserved(run[i].table) <= run[i].max
    ensures DynamoRegistry.Reserved(run[i].table) == Total(Memory.Charges(run[i].table.rows))
  {
    RunInv(run, events, i);
    LiveIsCharged(run[i]);
  }

  // A reservation leaves its row, or is reused, only when this holds: in every reachable state a token that no row
  // stands for has no live VM, and no admitted call or waiting worker can still create one.
  lemma UnfencedTokensAreDead(run: seq<World>, events: seq<Event>, i: nat, token: Token)
    requires IsRun(run, events) && i < |run| && !Fenced(run[i], token)
    ensures Settled(run[i], token)
  {
    hide Apply, Enabled;
    RunInv(run, events, i);
    hide NamesOk, RowsOk, AccountsOk, ProviderOk, WorkersOk, FirstOk;
    UnfencedIsSettled(run[i], token);
  }

  // ---- One request per client token ----

  // All dispatches of a run under one client token carry the same sealed request, and all fall inside the
  // window of the instant at which the token was sealed, whatever rows reused the reservation id.
  lemma OneRequestPerToken(run: seq<World>, events: seq<Event>, n: nat, i: nat, j: nat)
    requires IsRun(run, events) && n < |run| && i < |run[n].dispatches| && j < |run[n].dispatches|
    ensures var d, e := run[n].dispatches[i], run[n].dispatches[j];
            && d.launch.clientToken == d.token
            && (d.token == e.token ==> d.launch == e.launch)
            && d.atMs <= d.launch.dispatchDeadlineMs
            && d.launch.expiresAtMs == d.launch.dispatchDeadlineMs - TARGET_DISPATCH_WINDOW_MS + TARGET_LIFETIME_MS
  {
    RunInv(run, events, n);
    hide RowsOk, AccountsOk, WorkersOk, FenceOk, FirstOk;
  }

  // ---- Ids keep their meaning ----

  lemma EventGrows(s: World, e: Event)
    requires Inv(s) && Enabled(s, e)
    ensures Grows(s, Apply(s, e))
  {
    hide Inv, FirstLease, Seal, ApplyBegin, ApplyReserve, ApplyRead, ApplyWrite, ApplyLaunch, ApplyCreate, ApplyAnswerTarget, ApplyAnswerNone,
         ApplyInstall, ApplyRecheck, ApplyRelease, ApplyClose, ApplyRecover, ApplyPurge, ListPhase, InstalledView, Alive, CreatedBy, Identifier, ValidReason,
         Grows;
    match e
    case Begin(w, q, _) => BeginGrows(s, w, q);
    case Reserve(w) =>
      FreshReserve(s, w);
      var q := s.workers[w].q;
      if FirstLease(q).Ok? && q.spec.materializedMib <= s.max {
        ReserveGrows(s, w, q, s.workers[w].purge);
      } else {
        NothingNew(s, Finish(s, w));
      }
    case Write(w) =>
      FreshReserve(s, w);
      var q := s.workers[w].q;
      if FirstLease(q).Ok? && q.spec.materializedMib <= s.max {
        WriteGrows(s, w, q, s.workers[w].purge, s.workers[w].seen);
      } else {
        NothingNew(s, Finish(s, w));
      }
    case Tick(ms) => TickGrows(s, ms);
    case Create(a) => CreateStep(s, a, 0); StepGrows(s, ApplyCreate(s, a), 0);
    case Terminate(token) => TerminateGrows(s, token);
    case Recover(w, attempt, now) => RecoverGrows(s, w, s.workers[w].row, attempt, now);
    case Read(w) => ReadGrows(s, w, s.workers[w].q, s.workers[w].purge);
    case Launch(w) => LaunchGrows(s, w, s.workers[w].lease, s.workers[w].purge, s.workers[w].nowMs);
    case AnswerTarget(w) => AnswerTargetGrows(s, w, s.workers[w].lease, s.workers[w].purge, s.workers[w].nowMs);
    case AnswerNone(w) => AnswerNoneGrows(s, w, s.workers[w].lease);
    case Install(w, now) => InstallGrows(s, w, s.workers[w].lease, s.workers[w].purge, InstallClock(s.workers[w], now));
    case Recheck(w) => RecheckGrows(s, w, s.workers[w].lease, s.workers[w].purge);
    case Release(w) => ReleaseGrows(s, w, s.workers[w].lease);
    case Close(w, reason, now) =>
      CloseGrows(s, w, s.workers[w].target, s.workers[w].disposition, s.workers[w].purge, reason, now);
    case Purge(w) => PurgeGrows(s, w, s.workers[w].key, s.workers[w].generation);
    case _ => NothingNew(s, Apply(s, e));
  }

  lemma NothingNew(s: World, t: World)
    requires t == s.(table := t.table, workers := t.workers, calls := t.calls, dispatches := t.dispatches)
    ensures Grows(s, t)
  {
  }

  lemma TickGrows(s: World, ms: nat)
    ensures Grows(s, s.(clockMs := s.clockMs + ms))
  {
  }

  lemma TerminateGrows(s: World, token: Token)
    requires token in s.vms
    ensures Grows(s, s.(vms := s.vms[token := s.vms[token].(terminated := true)]))
  {
  }

  lemma MoveGrows(s: World, w: Worker, p: Phase)
    ensures Grows(s, Move(s, w, p))
  {
  }

  lemma FinishGrows(s: World, w: Worker)
    ensures Grows(s, Finish(s, w))
  {
  }

  lemma MintGrows(s: World, w: Worker, p: Phase, a: AttemptId)
    requires a !in s.minted
    ensures Grows(s, Move(s, w, p).(minted := s.minted[a := w]))
  {
  }

  lemma RecoverGrows(s: World, w: Worker, row: TargetRecord, attempt: AttemptId, nowMs: nat)
    requires attempt !in s.minted
    ensures Grows(s, ApplyRecover(s, w, row, attempt, nowMs))
  {
    hide Grows, Move, Finish, RecoveryRequest;
    FinishGrows(s, w);
    if row.state.Materializing? {
      var lease := RecoveryLease(row);
      MoveGrows(s, w, Releasing(lease));
      MintGrows(s, w, Reserving(RecoveryRequest(lease, attempt, nowMs), true), attempt);
    }
  }

  lemma ReserveGrows(s: World, w: Worker, q: AcquireTarget, purge: bool)
    requires FirstLease(q).Ok? && q.spec.materializedMib <= s.max && q.attemptId !in s.attempts
    ensures Grows(s, ApplyReserve(s, w, q, purge))
  {
    hide TryReserve, Grows, Seat, Identifier, ValidKey;
    var table := TryReserve(s.table, FirstLease(q).value, q.nowMs, s.max);
    if table.Some? { SeatGrows(s, w, table.value, q, purge); } else { NothingNew(s, ApplyReserve(s, w, q, purge)); }
  }

  lemma AttemptOrNothing(s: World, t: World, a: AttemptId)
    requires a !in s.attempts
    requires t == s.(workers := t.workers)
          || (a in t.attempts && t == s.(table := t.table, workers := t.workers, attempts := s.attempts[a := t.attempts[a]]))
    ensures Grows(s, t)
  {
  }

  lemma WriteGrows(s: World, w: Worker, q: AcquireTarget, purge: bool, seen: TargetRecord)
    requires FirstLease(q).Ok? && q.spec.materializedMib <= s.max && q.attemptId !in s.attempts
    ensures Grows(s, ApplyWrite(s, w, q, purge, seen))
  {
    hide TryReplaceExpired, TryReplaceGone, TryTakeAttempt, TakeoverDeadline, TakenLease, Grows, Seat, Finish, Identifier, ValidKey;
    FinishGrows(s, w);
    assert Grows(s, Move(s, w, Reading(q, purge))) by { MoveGrows(s, w, Reading(q, purge)); }
    if Choose(q, seen).TakeAttempt? {
      TakeGrows(s, w, q, purge, seen);
    } else {
      hide Move;
      forall table: Table ensures Grows(s, Seat(s, w, table, q, purge)) { SeatGrows(s, w, table, q, purge); }
    }
  }

  lemma TakeGrows(s: World, w: Worker, q: AcquireTarget, purge: bool, seen: TargetRecord)
    requires FirstLease(q).Ok? && q.spec.materializedMib <= s.max && q.attemptId !in s.attempts && Choose(q, seen).TakeAttempt?
    ensures Grows(s, ApplyWrite(s, w, q, purge, seen))
  {
    hide TryTakeAttempt, TakeoverDeadline, TakenLease, Grows, FirstLease;
    assert seen.state.Materializing?;
    hide Choose;
    AttemptOrNothing(s, ApplyWrite(s, w, q, purge, seen), q.attemptId);
  }

  lemma SeatGrows(s: World, w: Worker, table: Table, q: AcquireTarget, purge: bool)
    requires FirstLease(q).Ok? && q.attemptId !in s.attempts
    ensures Grows(s, Seat(s, w, table, q, purge))
  {
    hide FirstLease, Grows;
    AttemptOrNothing(s, Seat(s, w, table, q, purge), q.attemptId);
  }

  lemma ReadGrows(s: World, w: Worker, q: AcquireTarget, purge: bool)
    ensures Grows(s, ApplyRead(s, w, q, purge))
  {
    hide Choose, Grows, Move, Finish;
    FinishGrows(s, w);
    forall p: Phase ensures Grows(s, Move(s, w, p)) { MoveGrows(s, w, p); }
  }

  lemma LaunchGrows(s: World, w: Worker, lease: Lease, purge: bool, nowMs: nat)
    ensures Grows(s, ApplyLaunch(s, w, lease, purge, nowMs))
  {
    hide SealMatches, Admit, Grows, Finish;
    FinishGrows(s, w);
    MoveGrows(s, w, Releasing(lease));
    if lease.launchRequest.Sealed? && SealMatches(lease.launchRequest.launch, lease)
       && Admit(lease, lease.launchRequest.launch.dispatchDeadlineMs, s.clockMs).None? {
      NothingNew(s, ApplyLaunch(s, w, lease, purge, nowMs));
    }
  }

  lemma AnswerTargetGrows(s: World, w: Worker, lease: Lease, purge: bool, nowMs: nat)
    ensures Grows(s, ApplyAnswerTarget(s, w, lease, purge, nowMs))
  {
    hide Grows;
    NothingNew(s, ApplyAnswerTarget(s, w, lease, purge, nowMs));
  }

  lemma AnswerNoneGrows(s: World, w: Worker, lease: Lease)
    ensures Grows(s, ApplyAnswerNone(s, w, lease))
  {
    hide Grows;
    NothingNew(s, ApplyAnswerNone(s, w, lease));
  }

  lemma InstallGrows(s: World, w: Worker, lease: Lease, purge: bool, nowMs: nat)
    ensures Grows(s, ApplyInstall(s, w, lease, purge, nowMs))
  {
    hide TryInstall, InstalledView, Grows;
    NothingNew(s, ApplyInstall(s, w, lease, purge, nowMs));
  }

  lemma RecheckGrows(s: World, w: Worker, lease: Lease, purge: bool)
    ensures Grows(s, ApplyRecheck(s, w, lease, purge))
  {
    hide Grows, Move, Finish, ExactInstall, InstalledView;
    FinishGrows(s, w);
    forall p: Phase ensures Grows(s, Move(s, w, p)) { MoveGrows(s, w, p); }
  }

  lemma ReleaseGrows(s: World, w: Worker, lease: Lease)
    ensures Grows(s, ApplyRelease(s, w, lease))
  {
    hide TryExpire, Grows;
    NothingNew(s, ApplyRelease(s, w, lease));
  }

  lemma CloseGrows(s: World, w: Worker, target: InstalledTarget, disposition: Disposition, purge: bool, reason: string, nowMs: nat)
    ensures Grows(s, ApplyClose(s, w, target, disposition, purge, reason, nowMs))
  {
    hide TryClose, Grows;
    NothingNew(s, ApplyClose(s, w, target, disposition, purge, reason, nowMs));
  }

  lemma PurgeGrows(s: World, w: Worker, key: TargetKey, generation: string)
    ensures Grows(s, ApplyPurge(s, w, key, generation))
  {
    hide TryPurgeTerminal, Grows;
    NothingNew(s, ApplyPurge(s, w, key, generation));
  }

  lemma BeginGrows(s: World, w: Worker, q: AcquireTarget)
    requires q.launchRequest.Sealed? && q.reservationId !in s.births && q.attemptId !in s.minted
    ensures Grows(s, ApplyBegin(s, w, q))
  {
  }

  lemma FreshReserve(s: World, w: Worker)
    requires Inv(s) && w in s.workers && (s.workers[w].Reserving? || s.workers[w].Writing?)
    ensures s.workers[w].q.attemptId !in s.attempts
  {
    hide Inv, RequestOk, MaterializingOk;
    PhaseAt(s, w);
    ProtocolWrites.RequestIsFresh(s, w, s.workers[w].q, s.workers[w].purge);
  }

  lemma GrowsTransitive(s: World, t: World, u: World)
    requires Grows(s, t) && Grows(t, u)
    ensures Grows(s, u)
  {
  }

  lemma {:induction false} RunGrows(run: seq<World>, events: seq<Event>, i: nat, j: nat)
    requires IsRun(run, events) && i <= j < |run|
    ensures Grows(run[i], run[j])
    decreases j
  {
    if i < j {
      hide Inv, Apply, Enabled, Grows;
      RunGrows(run, events, i, j - 1);
      RunInv(run, events, j - 1);
      EventGrows(run[j - 1], events[j - 1]);
      GrowsTransitive(run[i], run[j - 1], run[j]);
    } else {
      hide Apply, Enabled;
    }
  }

  lemma RowsNameTheSame(s: World, t: World, key: TargetKey)
    requires RowsOk(s) && RowsOk(t) && Grows(s, t) && key in s.table.rows && key in t.table.rows
    ensures SameNames(s.table.rows[key], t.table.rows[key])
  {
    hide ValidKey, Identifier;
    assert RowOk(s, key, s.table.rows[key]) && RowOk(t, key, t.table.rows[key]);
  }

  lemma RowIsValidUnlessInstalled(s: World, key: TargetKey)
    requires Inv(s) && key in s.table.rows
    ensures RowIsCoherent(s.table.rows[key], key)
  {
    hide RowsOk, AccountsOk, ProviderOk, WorkersOk, FenceOk, FirstOk, ValidKey, Identifier;
    RowAt(s, key);
  }

  lemma RunIsValid(run: seq<World>, events: seq<Event>, n: nat)
    requires IsRun(run, events) && n < |run|
    ensures Inv(run[n]) && RowsOk(run[n])
  {
    RunInv(run, events, n);
    hide RowsOk, NamesOk, AccountsOk, ProviderOk, WorkersOk, FenceOk, FirstOk;
  }

  // The interference that the acquire loop assumes is what every run provides: its calls may meet the table at
  // any instants of any run.
  lemma RunsAreCoherent(run: seq<World>, events: seq<Event>, env: nat -> Access, at: nat -> nat, key: TargetKey)
    requires IsRun(run, events)
    requires forall n :: at(n) < |run| && env(n).table == run[at(n)].table
    ensures Coherent(env, key)
  {
    hide Inv, Apply, Enabled, RowIsCoherent, SameNames, RowsOk, Grows;
    forall n: nat | key in env(n).table.rows ensures RowIsCoherent(env(n).table.rows[key], key) {
      RunIsValid(run, events, at(n));
      RowIsValidUnlessInstalled(run[at(n)], key);
    }
    forall m: nat, n: nat | key in env(m).table.rows && key in env(n).table.rows
      ensures SameNames(env(m).table.rows[key], env(n).table.rows[key])
    {
      RunIsValid(run, events, at(m));
      RunIsValid(run, events, at(n));
      if at(m) <= at(n) {
        RunGrows(run, events, at(m), at(n));
        RowsNameTheSame(run[at(m)], run[at(n)], key);
      } else {
        RunGrows(run, events, at(n), at(m));
        RowsNameTheSame(run[at(n)], run[at(m)], key);
        SymmetricNames(env(n).table.rows[key], env(m).table.rows[key]);
      }
    }
  }

  lemma SymmetricNames(a: TargetRecord, b: TargetRecord)
    requires SameNames(a, b)
    ensures SameNames(b, a)
  {
  }

  // ---- The protocol does launch ----

  // From an empty plane, one request is begun, reserved, dispatched and created: the theorems above speak of runs
  // in which VMs live.
  lemma LaunchIsReachable(s: World, w: Worker, q: AcquireTarget, controlToken: string)
    requires Init(s) && Enabled(s, Begin(w, q, controlToken)) && s.clockMs == q.nowMs
    ensures var s1 := Apply(s, Begin(w, q, controlToken));
            Enabled(s1, Reserve(w)) &&
            var s2 := Apply(s1, Reserve(w));
            Enabled(s2, Launch(w)) &&
            var s3 := Apply(s2, Launch(w));
            Enabled(s3, Create(q.attemptId)) &&
            var s4 := Apply(s3, Create(q.attemptId));
            Alive(s4, q.reservationId) && s4.vms[q.reservationId].mib == q.spec.materializedMib
  {
    hide Identifier, ValidKey;
    var s1 := ApplyBegin(s, w, q);
    var s2 := ApplyReserve(s1, w, q, false);
    var lease := FirstLease(q).value;
    assert s2.workers[w] == Holding(lease, false, q.nowMs);
    SealBindsTheReservation(lease, lease, controlToken);
    hide FirstLease, TryReserve, Seal, SealMatches;
    var s3 := ApplyLaunch(s2, w, lease, false, q.nowMs);
    assert s3.calls == map[q.attemptId := Call(q.reservationId, s.clockMs)];
  }
}
