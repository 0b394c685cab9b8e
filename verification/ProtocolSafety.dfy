/** Safety of the materialization protocol over every run: capacity is never double-spent, and one client
    token never carries two provider requests. */
module ProtocolSafety {
  import opened Wrappers
  import opened TargetRecords
  import opened TargetLauncher
  import opened MapTotals
  import opened DynamoRegistry
  import opened MaterializationProtocol
  import Memory = MemoryRegistry

  // ---- What ids name ----

  /** A value carries what was sealed under its reservation id. */
  predicate FromBirth(s: World, token: Token, key: TargetKey, spec: TargetSpec, generation: string, launch: LaunchRequest) {
    && token in s.births
    && var b := s.births[token];
       b.key == key && b.spec == spec && b.generation == generation && launch == Sealed(b.launch, b.bytes)
  }

  /** An attempt id names one reservation instant of one token, and with it both deadlines. */
  predicate FromAttempt(s: World, attempt: AttemptId, token: Token, targetExpires: nat, leaseExpires: nat) {
    && attempt in s.attempts
    && s.attempts[attempt].token == token
    && targetExpires == s.attempts[attempt].reservedAtMs + TARGET_LIFETIME_MS
    && leaseExpires == s.attempts[attempt].reservedAtMs + TARGET_LEASE_MS
  }

  predicate BirthsOk(s: World) {
    forall t :: t in s.births ==>
      var b := s.births[t];
      && b.bornAtMs <= s.clockMs
      && b.launch.clientToken == t
      && b.launch.expiresAtMs == b.bornAtMs + TARGET_LIFETIME_MS
      && b.launch.dispatchDeadlineMs == b.bornAtMs + TARGET_DISPATCH_WINDOW_MS
      && b.spec.materializedMib <= s.max
      && ValidKey(b.key) && Identifier(t) && Identifier(b.generation) && 0 < b.bytes <= MAX_LAUNCH_REQUEST_BYTES
  }

  predicate AttemptsOk(s: World) {
    forall a :: a in s.attempts ==>
      && a in s.minted
      && s.attempts[a].token in s.births
      && s.births[s.attempts[a].token].bornAtMs <= s.attempts[a].reservedAtMs <= s.clockMs
  }

  predicate MintedOk(s: World) {
    forall a :: a in s.minted ==> Identifier(a)
  }

  // ---- Rows ----

  predicate MaterializingOk(s: World, k: TargetKey, r: TargetRecord) {
    && r.state.Materializing?
    && r.key == k && r.specDigest == SpecDigest(r.spec)
    && FromBirth(s, r.state.reservationId, k, r.spec, r.generation, r.state.launchRequest)
    && FromAttempt(s, r.state.attemptId, r.state.reservationId, r.state.targetExpiresAtMs, r.state.leaseExpiresAtMs)
    && r.updatedAtMs == s.attempts[r.state.attemptId].takenAtMs
    && r.state.attemptExpiresAtMs == s.attempts[r.state.attemptId].expiresAtMs
    && s.attempts[r.state.attemptId].reservedAtMs <= r.updatedAtMs < r.state.attemptExpiresAtMs <= r.state.leaseExpiresAtMs
    && r.updatedAtMs <= r.state.targetExpiresAtMs
  }

  predicate RowOk(s: World, k: TargetKey, r: TargetRecord) {
    && r.key == k && r.specDigest == SpecDigest(r.spec)
    && ValidKey(k) && Identifier(r.generation)
    && match r.state
       case Materializing(_, _, _, _, _, _) => MaterializingOk(s, k, r)
       case Installed(ref, _, _, _) =>
         ref.token in s.vms && ref.token in s.births && s.births[ref.token].key == k && s.births[ref.token].spec == r.spec
       case Closed(_, reason, _) => ValidReason(reason)
  }

  predicate RowsOk(s: World) {
    forall k :: k in s.table.rows ==> RowOk(s, k, s.table.rows[k])
  }

  ghost predicate AccountsOk(s: World) {
    && Memory.Accounted(View(s.table, s.max))
    && DynamoRegistry.Reserved(s.table) <= s.max
  }

  // ---- The provider ----

  predicate VmsOk(s: World) {
    forall t :: t in s.vms ==>
      && t in s.births
      && s.vms[t].mib == s.births[t].spec.materializedMib
      && s.vms[t].createdAtMs <= s.births[t].bornAtMs + TARGET_DISPATCH_WINDOW_MS + VM_APPEARS_MS
      && s.vms[t].creator in s.attempts && s.attempts[s.vms[t].creator].token == t
  }

  predicate CallsOk(s: World) {
    forall a :: a in s.calls ==>
      && a in s.attempts && s.attempts[a].token == s.calls[a].token && s.calls[a].token in s.births
      && s.calls[a].admittedAtMs <= s.births[s.calls[a].token].bornAtMs + TARGET_DISPATCH_WINDOW_MS
  }

  predicate DispatchesOk(s: World) {
    forall i :: 0 <= i < |s.dispatches| ==>
      var d := s.dispatches[i];
      d.token in s.births && d.launch == s.births[d.token].launch && d.atMs <= d.launch.dispatchDeadlineMs
  }

  // ---- Workers ----

  predicate RequestOk(s: World, w: Worker, q: AcquireTarget, purge: bool) {
    && q.attemptId in s.minted && s.minted[q.attemptId] == w && q.attemptId !in s.attempts
    && FirstLease(q).Ok? && q.nowMs <= s.clockMs && q.spec.materializedMib <= s.max
    && q.attemptDurationMs == TARGET_ATTEMPT_MS && q.leaseDurationMs == TARGET_LEASE_MS && q.targetLifetimeMs == TARGET_LIFETIME_MS
    && FromBirth(s, q.reservationId, q.key, q.spec, q.generation, q.launchRequest)
    && (if purge then q.nowMs > s.births[q.reservationId].bornAtMs && !q.replaceAfterLoss
        else q.nowMs == s.births[q.reservationId].bornAtMs)
  }

  predicate LeaseNamed(s: World, lease: Lease) {
    && FromBirth(s, lease.reservationId, lease.key, lease.spec, lease.generation, lease.launchRequest)
    && FromAttempt(s, lease.attemptId, lease.reservationId, lease.targetExpiresAtMs, lease.leaseExpiresAtMs)
    && lease.specDigest == SpecDigest(lease.spec)
  }

  predicate LeaseOwned(s: World, w: Worker, lease: Lease) {
    && LeaseNamed(s, lease)
    && lease.attemptId in s.minted && s.minted[lease.attemptId] == w
    && lease.recoveryAttempt == !s.attempts[lease.attemptId].first
  }

  /** Nothing was or will be created under this attempt. */
  predicate Idle(s: World, lease: Lease) {
    lease.attemptId !in s.calls && !CreatedBy(s, lease.reservationId, lease.attemptId)
  }

  /** The lease was reserved when its token was sealed: only such a lease decodes the seal. */
  predicate Original(s: World, lease: Lease) {
    && lease.reservationId in s.births
    && lease.targetExpiresAtMs == s.births[lease.reservationId].bornAtMs + TARGET_LIFETIME_MS
  }

  predicate PhaseOk(s: World, w: Worker, p: Phase) {
    match p
    case Reserving(q, purge) => RequestOk(s, w, q, purge)
    case Reading(q, purge) => RequestOk(s, w, q, purge)
    case Writing(q, purge, seen) =>
      RequestOk(s, w, q, purge) && seen.key == q.key && (seen.state.Materializing? ==> MaterializingOk(s, q.key, seen))
    case Holding(lease, purge, now) =>
      LeaseOwned(s, w, lease) && Idle(s, lease) && now < lease.targetExpiresAtMs
    case Calling(lease, purge, now) =>
      LeaseOwned(s, w, lease) && Original(s, lease) && now < lease.targetExpiresAtMs
    case Booted(lease, purge, now) =>
      LeaseOwned(s, w, lease) && Original(s, lease) && lease.reservationId in s.vms && now < lease.targetExpiresAtMs
    case Releasing(lease) =>
      LeaseNamed(s, lease) && (Abandoned(s, w, lease) || lease.leaseExpiresAtMs <= s.clockMs)
    case Closing(target, _, _) => TargetOk(s, target)
    case Confirmed(target, _, _) => TargetOk(s, target) && !Alive(s, target.targetRef.token)
    case Rechecking(_, _) => true
    case Purging(_, _) => true
    case Listed(row) => MaterializingOk(s, row.key, row)
  }

  /** A first attempt that its worker gave up: it created nothing and never will. */
  predicate Abandoned(s: World, w: Worker, lease: Lease) {
    LeaseOwned(s, w, lease) && !lease.recoveryAttempt && Idle(s, lease)
  }

  predicate TargetOk(s: World, target: InstalledTarget) {
    target.targetRef.token in s.vms && target.specDigest == SpecDigest(target.spec)
  }

  predicate WorkersOk(s: World) {
    forall w :: w in s.workers ==> PhaseOk(s, w, s.workers[w])
  }

  // ---- The fence ----

  /** The row of the token's key stands for this token: reserved under it, or installed with its VM. */
  predicate Fenced(s: World, token: Token) {
    && token in s.births && s.births[token].key in s.table.rows
    && Holds(s.table.rows[s.births[token].key], token)
  }

  predicate Holds(r: TargetRecord, token: Token) {
    (r.state.Materializing? && r.state.reservationId == token) || (r.state.Installed? && r.state.targetRef.token == token)
  }

  /** An admitted call may still create the VM of its token. */
  predicate CallMayCreate(s: World, a: AttemptId) {
    a in s.calls && s.calls[a].token !in s.vms && s.clockMs <= s.calls[a].admittedAtMs + VM_APPEARS_MS
  }

  /** A worker that has not dispatched yet may still do so, and so create the VM of its token. */
  predicate WorkerMayCreate(s: World, w: Worker) {
    && w in s.workers && s.workers[w].Holding?
    && var lease := s.workers[w].lease;
       && lease.reservationId in s.births && lease.reservationId !in s.vms
       && Original(s, lease)
       && s.clockMs <= s.births[lease.reservationId].bornAtMs + TARGET_DISPATCH_WINDOW_MS
  }

  /** A token with a live VM, or under which a VM may still appear, is fenced by a charged row. */
  predicate FenceOk(s: World) {
    && (forall t :: t in s.vms && Alive(s, t) ==> Fenced(s, t))
    && (forall a :: a in s.calls && CallMayCreate(s, a) ==> Fenced(s, s.calls[a].token))
    && (forall w :: w in s.workers && WorkerMayCreate(s, w) ==> Fenced(s, s.workers[w].lease.reservationId))
  }

  /** While a row is still on its first attempt, only that attempt has or can have a VM for its token. */
  predicate SoleCreator(s: World, token: Token, attempt: AttemptId) {
    && (Alive(s, token) ==> s.vms[token].creator == attempt)
    && (forall a :: a in s.calls && CallMayCreate(s, a) && s.calls[a].token == token ==> a == attempt)
    && (forall w :: w in s.workers && WorkerMayCreate(s, w) && s.workers[w].lease.reservationId == token ==>
          s.workers[w].lease.attemptId == attempt)
  }

  predicate FirstOk(s: World) {
    forall k :: k in s.table.rows && OnFirstAttempt(s, s.table.rows[k]) ==>
      SoleCreator(s, s.table.rows[k].state.reservationId, s.table.rows[k].state.attemptId)
  }

  predicate OnFirstAttempt(s: World, r: TargetRecord) {
    r.state.Materializing? && r.state.attemptId in s.attempts && s.attempts[r.state.attemptId].first
  }

  predicate NamesOk(s: World) {
    BirthsOk(s) && AttemptsOk(s) && MintedOk(s)
  }

  predicate ProviderOk(s: World) {
    VmsOk(s) && CallsOk(s) && DispatchesOk(s)
  }

  ghost predicate Inv(s: World) {
    && NamesOk(s) && RowsOk(s) && AccountsOk(s) && ProviderOk(s)
    && WorkersOk(s) && FenceOk(s) && FirstOk(s)
  }

  lemma InitInv(s: World)
    requires Init(s)
    ensures Inv(s)
  {
    assert Memory.Charges(s.table.rows) == map[];
  }

  // ---- What every step keeps ----

  predicate Submap<K, V(==)>(a: map<K, V>, b: map<K, V>) {
    forall k :: k in a ==> k in b && b[k] == a[k]
  }

  /** Time and history only grow; VMs keep their origin and never come back to life. */
  predicate Grows(s: World, t: World) {
    && s.max == t.max && s.clockMs <= t.clockMs
    && Submap(s.births, t.births) && Submap(s.attempts, t.attempts) && Submap(s.minted, t.minted)
    && (forall x :: x in s.vms ==>
          x in t.vms && t.vms[x].(terminated := false) == s.vms[x].(terminated := false)
          && (s.vms[x].terminated ==> t.vms[x].terminated))
  }

  lemma RowStaysOk(s: World, t: World, k: TargetKey, r: TargetRecord)
    requires RowOk(s, k, r) && Grows(s, t)
    ensures RowOk(t, k, r)
  {
  }

  lemma DeadStaysDead(s: World, t: World, x: Token)
    requires Grows(s, t) && x in s.vms && !Alive(s, x)
    ensures !Alive(t, x)
  {
  }

  /** A step of worker `w`: the new attempts and calls are its own, and a new VM comes from a pending call. */
  predicate StepOf(s: World, t: World, w: Worker) {
    && Grows(s, t)
    && (forall a :: a in t.attempts && a !in s.attempts ==> a in t.minted && t.minted[a] == w)
    && (forall a :: a in t.calls && a !in s.calls ==> a in t.minted && t.minted[a] == w)
    && (forall x :: x in t.vms ==> CreatedBy(s, x, t.vms[x].creator) || t.vms[x].creator in s.calls)
  }

  lemma IdleStays(s: World, t: World, w: Worker, u: Worker, lease: Lease)
    requires StepOf(s, t, w) && u != w && LeaseOwned(s, u, lease) && Idle(s, lease)
    ensures Idle(t, lease)
  {
  }

  lemma OtherPhaseStaysOk(s: World, t: World, w: Worker, u: Worker, p: Phase)
    requires StepOf(s, t, w) && u != w && PhaseOk(s, u, p)
    ensures PhaseOk(t, u, p)
  {
    match p
    case Holding(lease, _, _) => IdleStays(s, t, w, u, lease);
    case Releasing(lease) => if Abandoned(s, u, lease) { IdleStays(s, t, w, u, lease); }
    case Confirmed(target, _, _) => DeadStaysDead(s, t, target.targetRef.token);
    case _ =>
  }

  lemma OthersStayOk(s: World, t: World, w: Worker)
    requires WorkersOk(s) && StepOf(s, t, w)
    requires t.workers - {w} == s.workers - {w}
    requires w in t.workers ==> PhaseOk(t, w, t.workers[w])
    ensures WorkersOk(t)
  {
    forall u | u in t.workers ensures PhaseOk(t, u, t.workers[u]) {
      if u != w {
        assert u in t.workers - {w};
        OtherPhaseStaysOk(s, t, w, u, s.workers[u]);
      }
    }
  }

  // ---- When a token may lose its row ----

  /** No VM of this token is alive, and none can appear any more. */
  predicate Settled(s: World, token: Token) {
    && !Alive(s, token)
    && (forall a :: a in s.calls && CallMayCreate(s, a) ==> s.calls[a].token != token)
    && (forall w :: w in s.workers && WorkerMayCreate(s, w) ==> s.workers[w].lease.reservationId != token)
  }

  lemma UnfencedIsSettled(s: World, token: Token)
    requires FenceOk(s) && !Fenced(s, token)
    ensures Settled(s, token)
  {
  }

  // The provider lifetime, the window and the appearance bound add up to the uncertainty lease.
  lemma ExpiredIsSettled(s: World, token: Token)
    requires VmsOk(s) && CallsOk(s) && token in s.births
    requires s.births[token].bornAtMs + TARGET_LEASE_MS <= s.clockMs
    ensures Settled(s, token)
  {
  }

  lemma DeadIsSettled(s: World, token: Token)
    requires token in s.vms && !Alive(s, token)
    ensures Settled(s, token)
  {
  }

  // The attempt fence: a row still on the first attempt of a worker that gave up has no VM.
  lemma AbandonedIsSettled(s: World, w: Worker, lease: Lease, k: TargetKey)
    requires WorkersOk(s) && FirstOk(s) && w in s.workers && s.workers[w] == Releasing(lease) && Abandoned(s, w, lease)
    requires k in s.table.rows && s.table.rows[k].state.Materializing?
    requires s.table.rows[k].state.reservationId == lease.reservationId && s.table.rows[k].state.attemptId == lease.attemptId
    ensures Settled(s, lease.reservationId)
  {
    assert SoleCreator(s, lease.reservationId, lease.attemptId);
    forall u | u in s.workers && WorkerMayCreate(s, u) ensures s.workers[u].lease.reservationId != lease.reservationId {
      assert PhaseOk(s, u, s.workers[u]);
    }
  }

  // ---- Fences across a step ----

  /** Whoever may create after the step could before it, except an attempt `a` of token `x`. */
  predicate CreatorsBounded(s: World, t: World, x: Token, a: AttemptId) {
    && (forall y :: y in t.vms && Alive(t, y) ==> Alive(s, y) || (y == x && t.vms[y].creator == a))
    && (forall c :: c in t.calls && CallMayCreate(t, c) ==>
          (CallMayCreate(s, c) && s.calls[c] == t.calls[c]) || (c == a && t.calls[c].token == x))
    && (forall w :: w in t.workers && WorkerMayCreate(t, w) ==>
          (WorkerMayCreate(s, w) && s.workers[w] == t.workers[w])
          || (t.workers[w].lease.reservationId == x && t.workers[w].lease.attemptId == a))
  }

  /** Outside `k` no row changes; at `k` a token keeps its row unless it is settled. */
  predicate RowsKeptBut(s: World, t: World, k: TargetKey) {
    && s.table.rows - {k} == t.table.rows - {k}
    && (forall y :: y in s.births && s.births[y].key == k && Fenced(s, y) ==> Settled(s, y) || Fenced(t, y))
  }

  lemma FencedStays(s: World, t: World, k: TargetKey, y: Token)
    requires Submap(s.births, t.births) && RowsKeptBut(s, t, k) && Fenced(s, y) && !Settled(s, y)
    ensures Fenced(t, y)
  {
    var j := s.births[y].key;
    if j != k {
      assert j in s.table.rows - {k};
      assert j in t.table.rows - {k} && t.table.rows[j] == s.table.rows[j];
    }
  }

  lemma FencesKept(s: World, t: World, k: TargetKey, x: Token, a: AttemptId)
    requires FenceOk(s) && Grows(s, t) && RowsKeptBut(s, t, k) && CreatorsBounded(s, t, x, a)
    requires Fenced(t, x) || CreatorsBoundedStrictly(s, t)
    ensures FenceOk(t)
  {
    forall y | y in t.vms && Alive(t, y) ensures Fenced(t, y) {
      if Alive(s, y) { FencedStays(s, t, k, y); }
    }
    forall c | c in t.calls && CallMayCreate(t, c) ensures Fenced(t, t.calls[c].token) {
      if CallMayCreate(s, c) && s.calls[c] == t.calls[c] { FencedStays(s, t, k, t.calls[c].token); }
    }
    forall w | w in t.workers && WorkerMayCreate(t, w) ensures Fenced(t, t.workers[w].lease.reservationId) {
      if WorkerMayCreate(s, w) && s.workers[w] == t.workers[w] { FencedStays(s, t, k, t.workers[w].lease.reservationId); }
    }
  }

  /** No new creator at all. */
  predicate CreatorsBoundedStrictly(s: World, t: World) {
    && (forall y :: y in t.vms && Alive(t, y) ==> Alive(s, y))
    && (forall c :: c in t.calls && CallMayCreate(t, c) ==> CallMayCreate(s, c) && s.calls[c] == t.calls[c])
    && (forall w :: w in t.workers && WorkerMayCreate(t, w) ==> WorkerMayCreate(s, w) && s.workers[w] == t.workers[w])
  }

  lemma SoleCreatorStays(s: World, t: World, token: Token, attempt: AttemptId, x: Token, a: AttemptId)
    requires SoleCreator(s, token, attempt) && Grows(s, t) && CreatorsBounded(s, t, x, a)
    requires token == x ==> attempt == a
    ensures SoleCreator(t, token, attempt)
  {
  }

  // Rows outside `k` stay on their first attempt alone; the row at `k` is left to the caller.
  lemma FirstsKept(s: World, t: World, k: TargetKey, x: Token, a: AttemptId)
    requires RowsOk(s) && FirstOk(s) && Grows(s, t) && s.table.rows - {k} == t.table.rows - {k}
    requires CreatorsBounded(s, t, x, a) && x in t.births && t.births[x].key == k
    requires k in t.table.rows && OnFirstAttempt(t, t.table.rows[k]) ==>
               SoleCreator(t, t.table.rows[k].state.reservationId, t.table.rows[k].state.attemptId)
    ensures FirstOk(t)
  {
    forall j | j in t.table.rows && OnFirstAttempt(t, t.table.rows[j])
      ensures SoleCreator(t, t.table.rows[j].state.reservationId, t.table.rows[j].state.attemptId)
    {
      if j != k {
        assert j in t.table.rows - {k};
        var r := s.table.rows[j];
        assert RowOk(s, j, r);
        SoleCreatorStays(s, t, r.state.reservationId, r.state.attemptId, x, a);
      }
    }
  }

  // A step that creates nothing and leaves the table alone keeps both.
  lemma CalmStep(s: World, t: World)
    requires RowsOk(s) && FenceOk(s) && FirstOk(s) && Grows(s, t) && s.table == t.table && CreatorsBoundedStrictly(s, t)
    ensures FenceOk(t) && FirstOk(t)
  {
    forall y | y in t.vms && Alive(t, y) ensures Fenced(t, y) { assert Fenced(s, y); }
    forall c | c in t.calls && CallMayCreate(t, c) ensures Fenced(t, t.calls[c].token) { assert Fenced(s, t.calls[c].token); }
    forall w | w in t.workers && WorkerMayCreate(t, w) ensures Fenced(t, t.workers[w].lease.reservationId) {
      assert Fenced(s, t.workers[w].lease.reservationId);
    }
    forall j | j in t.table.rows && OnFirstAttempt(t, t.table.rows[j])
      ensures SoleCreator(t, t.table.rows[j].state.reservationId, t.table.rows[j].state.attemptId)
    {
      assert RowOk(s, j, s.table.rows[j]);
      assert OnFirstAttempt(s, s.table.rows[j]);
    }
  }
}
