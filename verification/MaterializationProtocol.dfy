/** Target materialization as a step system: any number of workers, each in a phase and each able to stop at
    any step, one table changed only by conditional writes, one provider, one clock.

    Assumptions about the environment, each visible in `Enabled` or `Apply`:
    - a client token creates at most one VM, ever (`Create`);
    - an answer that names no target means that this call created nothing (`AnswerNone`);
    - a VM appears at most 60 seconds after its call was admitted and lives at most the maximum duration;
    - an absent report is true (`Confirm`), and a dead VM stays dead;
    - minted reservation and attempt ids are fresh, except that a purge reuses a reservation id;
    - a worker's clock is never ahead of the world's, and dispatch reads the clock when it admits.
    Every row that a worker reads, lists or gets back from an install is validated first: an invalid one ends its step.
    A request for more memory than the whole plane is refused before any database call, so no worker begins with one. */
module MaterializationProtocol {
  import opened Wrappers
  import opened TargetRecords
  import opened TargetLauncher
  import opened DynamoRegistry

  const VM_APPEARS_MS: nat := 60_000

  type Token = string
  type AttemptId = string
  type Worker = nat

  /** A VM the provider created for a token, during the call of one attempt. */
  datatype Vm = Vm(mib: nat, creator: AttemptId, createdAtMs: nat, terminated: bool)

  /** A provider call that was admitted and has not answered. It outlives the worker that sent it. */
  datatype Call = Call(token: Token, admittedAtMs: nat)

  /** What was sealed when a reservation id was minted. */
  datatype Birth = Birth(key: TargetKey, spec: TargetSpec, generation: string, launch: SealedLaunch, bytes: nat, bornAtMs: nat)

  /** The reservation an attempt took hold of, when and until when; `first` when it made the reservation. */
  datatype Attempt = Attempt(token: Token, reservedAtMs: nat, first: bool, takenAtMs: nat, expiresAtMs: nat)

  datatype Dispatch = Dispatch(token: Token, launch: SealedLaunch, atMs: nat)

  datatype Phase =
    | Reserving(q: AcquireTarget, purge: bool)
    | Reading(q: AcquireTarget, purge: bool)
    | Writing(q: AcquireTarget, purge: bool, seen: TargetRecord)
    | Holding(lease: Lease, purge: bool, nowMs: nat)
    | Calling(lease: Lease, purge: bool, nowMs: nat)
    | Booted(lease: Lease, purge: bool, nowMs: nat)
    | Rechecking(lease: Lease, purge: bool)
    | Releasing(lease: Lease)
    | Closing(target: InstalledTarget, disposition: Disposition, purge: bool)
    | Confirmed(target: InstalledTarget, disposition: Disposition, purge: bool)
    | Purging(key: TargetKey, generation: string)
    | Listed(row: TargetRecord)

  /** The world. The last four fields are history: ids that were minted and requests that were dispatched. */
  datatype World = World(
    clockMs: nat,
    table: Table,
    max: nat,
    vms: map<Token, Vm>,
    calls: map<AttemptId, Call>,
    workers: map<Worker, Phase>,
    births: map<Token, Birth>,
    attempts: map<AttemptId, Attempt>,
    minted: map<AttemptId, Worker>,
    dispatches: seq<Dispatch>)

  predicate Init(s: World) {
    s == World(s.clockMs, Table(map[], None), s.max, map[], map[], map[], map[], map[], map[], [])
  }

  predicate Alive(s: World, token: Token) {
    token in s.vms && !s.vms[token].terminated && s.clockMs < s.vms[token].createdAtMs + TARGET_LIFETIME_MS
  }

  datatype Event =
    | Tick(ms: nat)
    | Begin(w: Worker, q: AcquireTarget, controlToken: string)
    | Reserve(w: Worker)
    | Conflict(w: Worker)
    | Read(w: Worker)
    | Write(w: Worker)
    | Launch(w: Worker)
    | Create(attempt: AttemptId)
    | AnswerTarget(w: Worker)
    | AnswerNone(w: Worker)
    | Crash(w: Worker)
    | Install(w: Worker, nowMs: nat)
    | Recheck(w: Worker)
    | Release(w: Worker)
    | Terminate(token: Token)
    | Resolve(w: Worker, key: TargetKey, disposition: Disposition)
    | Confirm(w: Worker)
    | Close(w: Worker, reason: string, nowMs: nat)
    | ListRow(w: Worker, key: TargetKey)
    | Recover(w: Worker, attempt: AttemptId, nowMs: nat)
    | Purge(w: Worker)

  /** A request as `materialize` builds it: the fixed durations and the seal of its own preview lease. */
  predicate MaterializeRequest(q: AcquireTarget, controlToken: string) {
    && q.attemptDurationMs == TARGET_ATTEMPT_MS
    && q.leaseDurationMs == TARGET_LEASE_MS
    && q.targetLifetimeMs == TARGET_LIFETIME_MS
    && FirstLease(q).Ok?
    && q.launchRequest.Sealed?
    && Seal(FirstLease(q).value, controlToken) == Ok(q.launchRequest.launch)
  }

  predicate Enabled(s: World, e: Event) {
    match e
    case Tick(_) => true
    case Begin(w, q, controlToken) =>
      && w !in s.workers
      && MaterializeRequest(q, controlToken)
      && q.nowMs <= s.clockMs
      && q.spec.materializedMib <= s.max
      && q.reservationId !in s.births
      && q.attemptId !in s.minted
    case Reserve(w) => w in s.workers && s.workers[w].Reserving?
    case Conflict(w) => w in s.workers && (s.workers[w].Reserving? || s.workers[w].Writing?)
    case Read(w) => w in s.workers && s.workers[w].Reading?
    case Write(w) => w in s.workers && s.workers[w].Writing?
    case Launch(w) => w in s.workers && s.workers[w].Holding?
    case Create(a) =>
      && a in s.calls
      && s.calls[a].token !in s.vms
      && s.clockMs <= s.calls[a].admittedAtMs + VM_APPEARS_MS
    case AnswerTarget(w) => w in s.workers && s.workers[w].Calling? && s.workers[w].lease.reservationId in s.vms
    case AnswerNone(w) =>
      && w in s.workers && s.workers[w].Calling?
      && !CreatedBy(s, s.workers[w].lease.reservationId, s.workers[w].lease.attemptId)
    case Crash(w) => w in s.workers
    case Install(w, now) => w in s.workers && s.workers[w].Booted? && now <= s.clockMs
    case Recheck(w) => w in s.workers && s.workers[w].Rechecking?
    case Release(w) => w in s.workers && s.workers[w].Releasing?
    case Terminate(token) => token in s.vms
    case Resolve(w, key, _) =>
      w !in s.workers && key in s.table.rows && s.table.rows[key].state.Installed? && ValidRecord(s.table.rows[key])
    case Confirm(w) => w in s.workers && s.workers[w].Closing? && !Alive(s, s.workers[w].target.targetRef.token)
    case Close(w, reason, now) => w in s.workers && s.workers[w].Confirmed? && ValidReason(reason) && now <= s.clockMs
    case ListRow(w, key) => w !in s.workers && key in s.table.rows && ValidRecord(s.table.rows[key])
    case Recover(w, attempt, now) =>
      && w in s.workers && s.workers[w].Listed?
      && now <= s.clockMs
      && attempt !in s.minted && Identifier(attempt)
      && now + TARGET_LEASE_MS <= U64_MAX
    case Purge(w) => w in s.workers && s.workers[w].Purging?
  }

  predicate CreatedBy(s: World, token: Token, attempt: AttemptId) {
    token in s.vms && s.vms[token].creator == attempt
  }

  function Move(s: World, w: Worker, phase: Phase): World {
    s.(workers := s.workers[w := phase])
  }

  function Finish(s: World, w: Worker): World {
    s.(workers := s.workers - {w})
  }

  /** A fresh reservation was written. A purge gives it back at once; any other worker goes on to launch. */
  function Seat(s: World, w: Worker, t: Table, q: AcquireTarget, purge: bool): World
    requires FirstLease(q).Ok?
  {
    var lease := FirstLease(q).value;
    Move(s, w, if purge then Releasing(lease) else Holding(lease, false, q.nowMs))
      .(table := t, attempts := s.attempts[q.attemptId := Attempt(q.reservationId, q.nowMs, true, q.nowMs, lease.attemptExpiresAtMs)])
  }

  function ApplyWrite(s: World, w: Worker, q: AcquireTarget, purge: bool, seen: TargetRecord): World
    requires FirstLease(q).Ok? && q.spec.materializedMib <= s.max
  {
    match Choose(q, seen)
    case ReplaceExpired =>
      var t := TryReplaceExpired(s.table, seen.state.reservationId, q, FirstLease(q).value);
      if t.None? then Move(s, w, Reading(q, purge)) else Seat(s, w, t.value, q, purge)
    case ReplaceGone =>
      var t := TryReplaceGone(s.table, seen, q, FirstLease(q).value, s.max);
      if t.None? then Move(s, w, Reading(q, purge)) else Seat(s, w, t.value, q, purge)
    case TakeAttempt =>
      var deadline := TakeoverDeadline(seen, q);
      if deadline.Err? then Finish(s, w)
      else
        var t := TryTakeAttempt(s.table, seen, q, deadline.value);
        if t.None? then Move(s, w, Reading(q, purge))
        else
          var reservedAt := if seen.state.targetExpiresAtMs < TARGET_LIFETIME_MS then 0
                            else seen.state.targetExpiresAtMs - TARGET_LIFETIME_MS;
          Move(s, w, Holding(TakenLease(seen, q, deadline.value), purge, q.nowMs))
            .(table := t.value,
              attempts := s.attempts[q.attemptId :=
                Attempt(seen.state.reservationId, reservedAt, false, q.nowMs, deadline.value)])
    case Fail(_) => Finish(s, w)
    case Answer(_) => Finish(s, w)
  }

  function ApplyRead(s: World, w: Worker, q: AcquireTarget, purge: bool): World {
    if q.key !in s.table.rows then Finish(s, w)
    else
      match Choose(q, s.table.rows[q.key])
      case Fail(_) => Finish(s, w)
      case Answer(outcome) =>
        if purge && outcome.AlreadyInstalled? then Move(s, w, Closing(outcome.target, Disposition.Terminated, true))
        else Finish(s, w)
      case _ => Move(s, w, Writing(q, purge, s.table.rows[q.key]))
  }

  function ApplyLaunch(s: World, w: Worker, lease: Lease, purge: bool, nowMs: nat): World {
    if !lease.launchRequest.Sealed? || !SealMatches(lease.launchRequest.launch, lease) then Finish(s, w)
    else
      match Admit(lease, lease.launchRequest.launch.dispatchDeadlineMs, s.clockMs)
      case None =>
        Move(s, w, Calling(lease, purge, nowMs))
          .(calls := s.calls[lease.attemptId := Call(lease.reservationId, s.clockMs)],
            dispatches := s.dispatches + [Dispatch(lease.reservationId, lease.launchRequest.launch, s.clockMs)])
      case Some(reply) => if reply.KnownNoTarget? then Move(s, w, Releasing(lease)) else Finish(s, w)
  }

  function PhysicalOf(lease: Lease): PhysicalTarget {
    PhysicalTarget(
      TargetRef(lease.reservationId), lease.generation,
      if lease.launchRequest.Sealed? then lease.launchRequest.launch.controlToken else "")
  }

  /** `ensure` installs at its acquire-time clock, a purge at the current one. */
  function InstallClock(phase: Phase, nowMs: nat): nat
    requires phase.Booted?
  {
    if phase.purge then nowMs else phase.nowMs
  }

  /** An install answers with the row it wrote, which is validated like any other that is read. */
  function ApplyInstall(s: World, w: Worker, lease: Lease, purge: bool, nowMs: nat): World {
    var t := TryInstall(s.table, lease, PhysicalOf(lease), nowMs);
    if t.None? then Move(s, w, Rechecking(lease, purge))
    else if purge && lease.key in t.value.rows && t.value.rows[lease.key].state.Installed? && ValidRecord(t.value.rows[lease.key]) then
      Move(s, w, Closing(InstalledView(t.value.rows[lease.key]), Disposition.Terminated, true)).(table := t.value)
    else Finish(s, w).(table := t.value)
  }

  /** The row already holds exactly this launch. */
  predicate ExactInstall(r: TargetRecord, lease: Lease) {
    && r.state.Installed? && r.state.targetRef == PhysicalOf(lease).targetRef && r.generation == PhysicalOf(lease).generation
    && r.state.controlToken == PhysicalOf(lease).controlToken && r.specDigest == lease.specDigest
  }

  /** After a refused install the row is read again: an exact earlier install counts as this one. */
  function ApplyRecheck(s: World, w: Worker, lease: Lease, purge: bool): World {
    if purge && lease.key in s.table.rows && ValidRecord(s.table.rows[lease.key]) && ExactInstall(s.table.rows[lease.key], lease) then
      Move(s, w, Closing(InstalledView(s.table.rows[lease.key]), Disposition.Terminated, true))
    else Finish(s, w)
  }

  function ApplyRecover(s: World, w: Worker, row: TargetRecord, attempt: AttemptId, nowMs: nat): World {
    if !row.state.Materializing? then Finish(s, w)
    else
      var lease := RecoveryLease(row);
      if lease.leaseExpiresAtMs <= nowMs then Move(s, w, Releasing(lease))
      else if lease.targetExpiresAtMs <= nowMs || lease.attemptExpiresAtMs > nowMs then Finish(s, w)
      else
        Move(s, w, Reserving(RecoveryRequest(lease, attempt, nowMs), true)).(minted := s.minted[attempt := w])
  }

  function ApplyBegin(s: World, w: Worker, q: AcquireTarget): World
    requires q.launchRequest.Sealed?
  {
    Move(s, w, Reserving(q, false))
      .(births := s.births[q.reservationId :=
          Birth(q.key, q.spec, q.generation, q.launchRequest.launch, q.launchRequest.bytes, q.nowMs)],
        minted := s.minted[q.attemptId := w])
  }

  function ApplyReserve(s: World, w: Worker, q: AcquireTarget, purge: bool): World
    requires FirstLease(q).Ok? && q.spec.materializedMib <= s.max
  {
    var t := TryReserve(s.table, FirstLease(q).value, q.nowMs, s.max);
    if t.None? then Move(s, w, Reading(q, purge)) else Seat(s, w, t.value, q, purge)
  }

  function ApplyCreate(s: World, a: AttemptId): World
    requires a in s.calls
  {
    var token := s.calls[a].token;
    s.(vms := s.vms[token := Vm(if token in s.births then s.births[token].spec.materializedMib else 0, a, s.clockMs, false)])
  }

  function ApplyAnswerTarget(s: World, w: Worker, lease: Lease, purge: bool, nowMs: nat): World {
    Move(s, w, Booted(lease, purge, nowMs)).(calls := s.calls - {lease.attemptId})
  }

  function ApplyAnswerNone(s: World, w: Worker, lease: Lease): World {
    (if lease.recoveryAttempt then Finish(s, w) else Move(s, w, Releasing(lease)))
      .(calls := s.calls - {lease.attemptId})
  }

  function ApplyRelease(s: World, w: Worker, lease: Lease): World {
    var t := TryExpire(s.table, lease);
    if t.None? then Finish(s, w) else Finish(s, w).(table := t.value)
  }

  function ApplyClose(s: World, w: Worker, target: InstalledTarget, disposition: Disposition, purge: bool,
                      reason: string, nowMs: nat): World
  {
    var t := TryClose(s.table, target, disposition, reason, nowMs);
    if t.None? then Finish(s, w)
    else if purge then Move(s, w, Purging(target.key, target.generation)).(table := t.value)
    else Finish(s, w).(table := t.value)
  }

  function ListPhase(r: TargetRecord): Phase {
    match r.state
    case Installed(_, _, _, _) => Closing(InstalledView(r), Disposition.Terminated, true)
    case Closed(_, _, _) => Purging(r.key, r.generation)
    case Materializing(_, _, _, _, _, _) => Listed(r)
  }

  function ApplyPurge(s: World, w: Worker, key: TargetKey, generation: string): World {
    var t := TryPurgeTerminal(s.table, key, generation);
    if t.None? then Finish(s, w) else Finish(s, w).(table := t.value)
  }

  function Apply(s: World, e: Event): World
    requires Enabled(s, e)
  {
    match e
    case Tick(ms) => s.(clockMs := s.clockMs + ms)
    case Begin(w, q, _) => ApplyBegin(s, w, q)
    case Reserve(w) =>
      var q, purge := s.workers[w].q, s.workers[w].purge;
      if FirstLease(q).Err? || q.spec.materializedMib > s.max then Finish(s, w) else ApplyReserve(s, w, q, purge)
    case Conflict(w) => Move(s, w, Reading(s.workers[w].q, s.workers[w].purge))
    case Read(w) => ApplyRead(s, w, s.workers[w].q, s.workers[w].purge)
    case Write(w) =>
      var q := s.workers[w].q;
      if FirstLease(q).Err? || q.spec.materializedMib > s.max then Finish(s, w)
      else ApplyWrite(s, w, q, s.workers[w].purge, s.workers[w].seen)
    case Launch(w) => ApplyLaunch(s, w, s.workers[w].lease, s.workers[w].purge, s.workers[w].nowMs)
    case Create(a) => ApplyCreate(s, a)
    case AnswerTarget(w) => ApplyAnswerTarget(s, w, s.workers[w].lease, s.workers[w].purge, s.workers[w].nowMs)
    case AnswerNone(w) => ApplyAnswerNone(s, w, s.workers[w].lease)
    case Crash(w) => Finish(s, w)
    case Install(w, now) =>
      ApplyInstall(s, w, s.workers[w].lease, s.workers[w].purge, InstallClock(s.workers[w], now))
    case Recheck(w) => ApplyRecheck(s, w, s.workers[w].lease, s.workers[w].purge)
    case Release(w) => ApplyRelease(s, w, s.workers[w].lease)
    case Terminate(token) => s.(vms := s.vms[token := s.vms[token].(terminated := true)])
    case Resolve(w, key, disposition) => Move(s, w, Closing(InstalledView(s.table.rows[key]), disposition, false))
    case Confirm(w) => Move(s, w, Confirmed(s.workers[w].target, s.workers[w].disposition, s.workers[w].purge))
    case Close(w, reason, now) =>
      ApplyClose(s, w, s.workers[w].target, s.workers[w].disposition, s.workers[w].purge, reason, now)
    case ListRow(w, key) => Move(s, w, ListPhase(s.table.rows[key]))
    case Recover(w, attempt, now) => ApplyRecover(s, w, s.workers[w].row, attempt, now)
    case Purge(w) => ApplyPurge(s, w, s.workers[w].key, s.workers[w].generation)
  }

  /** A run: worlds joined by enabled events. */
  predicate IsRun(run: seq<World>, events: seq<Event>) {
    && |run| == |events| + 1
    && Init(run[0])
    && forall i :: 0 <= i < |events| ==> Enabled(run[i], events[i]) && run[i + 1] == Apply(run[i], events[i])
  }
}
