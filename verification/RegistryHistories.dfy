/** Histories of the memory registry: callers release and close only what the registry showed them, ids are fresh, and
    then the counter is exact in every state (crates/hand-core/src/materialization/memory.rs:75-293, port.rs:5-9). */
module RegistryHistories {
  import opened Wrappers
  import opened TargetRecords
  import opened MapTotals
  import opened MemoryRegistry

  /** The registry after the first `n` calls. */
  function At(max: nat, ops: seq<Op>, n: nat): Registry
    requires n <= |ops|
  {
    Run(Registry(map[], 0, max), ops[..n])
  }

  lemma NextState(max: nat, ops: seq<Op>, n: nat)
    requires n < |ops|
    ensures At(max, ops, n + 1) == Step(At(max, ops, n), ops[n])
  {
    assert ops[..n + 1][..n] == ops[..n];
  }

  // ---- What callers hold ----

  predicate Lists(s: Registry, lease: Lease) {
    lease.key in s.rows && s.rows[lease.key].state.Materializing? && RecoveryLease(s.rows[lease.key]) == lease
  }

  predicate Shows(s: Registry, target: InstalledTarget) {
    target.key in s.rows && s.rows[target.key].state.Installed? && InstalledView(s.rows[target.key]) == target
  }

  /** An earlier acquire answered this lease, or a listing showed its row. */
  predicate LeaseSeen(max: nat, ops: seq<Op>, n: nat, lease: Lease)
    requires n <= |ops|
  {
    || (exists j :: 0 <= j < n && ops[j].DoAcquire? && Acquire(At(max, ops, j), ops[j].q).0 == Ok(Acquired(lease)))
    || (exists j :: 0 <= j <= n && Lists(At(max, ops, j), lease))
  }

  predicate AnswersTarget(s: Registry, op: Op, target: InstalledTarget) {
    || (op.DoAcquire? && Acquire(s, op.q).0 == Ok(AlreadyInstalled(target)))
    || (op.DoInstall? && Install(s, op.lease, op.target, op.nowMs).0 == Ok(InstallDone(target)))
  }

  /** An earlier acquire or install answered this target, or a listing showed its row. */
  predicate TargetSeen(max: nat, ops: seq<Op>, n: nat, target: InstalledTarget)
    requires n <= |ops|
  {
    || (exists j :: 0 <= j < n && AnswersTarget(At(max, ops, j), ops[j], target))
    || (exists j :: 0 <= j <= n && Shows(At(max, ops, j), target))
  }

  predicate HandedOut(max: nat, ops: seq<Op>) {
    forall i :: 0 <= i < |ops| ==>
      && (ops[i].DoExpire? ==> LeaseSeen(max, ops, i, ops[i].lease))
      && (ops[i].DoClose? ==> TargetSeen(max, ops, i, ops[i].closing))
  }

  predicate BothAcquire(ops: seq<Op>, i: int, j: int) {
    0 <= i < |ops| && 0 <= j < |ops| && ops[i].DoAcquire? && ops[j].DoAcquire?
  }

  predicate BothInstall(ops: seq<Op>, i: int, j: int) {
    0 <= i < |ops| && 0 <= j < |ops| && ops[i].DoInstall? && ops[j].DoInstall?
  }

  /** Attempt ids are minted once, a reservation id names one spec, and a VM belongs to one reservation. */
  ghost predicate FreshIds(ops: seq<Op>) {
    && (forall i, j :: BothAcquire(ops, i, j) && ops[i].q.attemptId == ops[j].q.attemptId ==> i == j)
    && (forall i, j :: BothAcquire(ops, i, j) && ops[i].q.reservationId == ops[j].q.reservationId ==> ops[i].q.spec == ops[j].q.spec)
    && (forall i, j :: BothInstall(ops, i, j) && ops[i].target.targetRef == ops[j].target.targetRef ==>
          ops[i].lease.reservationId == ops[j].lease.reservationId)
  }

  // ---- What ids name ----

  predicate AttemptNames(ops: seq<Op>, n: nat, attempt: string, spec: TargetSpec)
    requires n <= |ops|
  {
    exists j :: 0 <= j < n && ops[j].DoAcquire? && ops[j].q.attemptId == attempt && ops[j].q.spec == spec
  }

  predicate ReservationNames(ops: seq<Op>, n: nat, reservation: string, spec: TargetSpec)
    requires n <= |ops|
  {
    exists j :: 0 <= j < n && ops[j].DoAcquire? && ops[j].q.reservationId == reservation && ops[j].q.spec == spec
  }

  predicate RefNames(ops: seq<Op>, n: nat, ref: TargetRef, spec: TargetSpec)
    requires n <= |ops|
  {
    exists j :: 0 <= j < n && ops[j].DoInstall? && ops[j].target.targetRef == ref
                && ReservationNames(ops, n, ops[j].lease.reservationId, spec)
  }

  predicate RowNamed(ops: seq<Op>, n: nat, r: TargetRecord)
    requires n <= |ops|
  {
    match r.state
    case Materializing(reservation, _, attempt, _, _, _) =>
      AttemptNames(ops, n, attempt, r.spec) && ReservationNames(ops, n, reservation, r.spec)
    case Installed(ref, _, _, _) => RefNames(ops, n, ref, r.spec)
    case Closed(_, _, _) => true
  }

  predicate RowsNamed(max: nat, ops: seq<Op>, n: nat)
    requires n <= |ops|
  {
    && WellKeyed(At(max, ops, n))
    && forall k :: k in At(max, ops, n).rows ==> RowNamed(ops, n, At(max, ops, n).rows[k])
  }

  lemma NamesLast(ops: seq<Op>, m: nat, n: nat)
    requires m <= n <= |ops|
    ensures forall a, spec :: AttemptNames(ops, m, a, spec) ==> AttemptNames(ops, n, a, spec)
    ensures forall r, spec :: ReservationNames(ops, m, r, spec) ==> ReservationNames(ops, n, r, spec)
  {
  }

  lemma RefLasts(ops: seq<Op>, m: nat, n: nat, ref: TargetRef, spec: TargetSpec)
    requires m <= n <= |ops| && RefNames(ops, m, ref, spec)
    ensures RefNames(ops, n, ref, spec)
  {
    hide ReservationNames;
    NamesLast(ops, m, n);
    var j :| 0 <= j < m && ops[j].DoInstall? && ops[j].target.targetRef == ref && ReservationNames(ops, m, ops[j].lease.reservationId, spec);
  }

  lemma RowStaysNamed(ops: seq<Op>, m: nat, n: nat, r: TargetRecord)
    requires m <= n <= |ops| && RowNamed(ops, m, r)
    ensures RowNamed(ops, n, r)
  {
    hide AttemptNames, ReservationNames, RefNames;
    NamesLast(ops, m, n);
    if r.state.Installed? { RefLasts(ops, m, n, r.state.targetRef, r.spec); }
  }

  // ---- Every row carries what its ids name ----

  // The row an acquire leaves carries the request's attempt and spec, and its own or the request's reservation.
  lemma AcquiredRow(s: Registry, q: AcquireTarget)
    requires WellKeyed(s)
    ensures var t := Acquire(s, q).1;
            && t.rows - {q.key} == s.rows - {q.key}
            && (q.key in t.rows && !(q.key in s.rows && t.rows[q.key] == s.rows[q.key]) ==>
                  var r := t.rows[q.key];
                  && r.state.Materializing? && r.state.attemptId == q.attemptId && r.spec == q.spec
                  && (r.state.reservationId == q.reservationId
                      || (q.key in s.rows && s.rows[q.key].state.Materializing?
                          && r.state.reservationId == s.rows[q.key].state.reservationId && r.spec == s.rows[q.key].spec)))
  {
    hide Identifier, ValidKey;
    var t := Acquire(s, q).1;
    assert t.rows == s.rows || (q.key in t.rows && t.rows == s.rows[q.key := t.rows[q.key]]);
  }

  lemma AcquireKeepsNames(max: nat, ops: seq<Op>, n: nat)
    requires n < |ops| && ops[n].DoAcquire? && RowsNamed(max, ops, n)
    ensures RowsNamed(max, ops, n + 1)
  {
    var s, t, q := At(max, ops, n), At(max, ops, n + 1), ops[n].q;
    NextState(max, ops, n);
    AcquiredRow(s, q);
    AcquireMovesOneCharge(s, q);
    hide Acquire, At, WellKeyed;
    forall k | k in t.rows ensures RowNamed(ops, n + 1, t.rows[k]) {
      if k != q.key { OtherRow(s.rows, t.rows, q.key, k); }
      if k in s.rows && t.rows[k] == s.rows[k] {
        RowStaysNamed(ops, n, n + 1, s.rows[k]);
      } else {
        AcquiredIsNamed(ops, n, t.rows[k]);
      }
    }
  }

  lemma OtherRow(before: Rows, after: Rows, changed: TargetKey, k: TargetKey)
    requires after - {changed} == before - {changed} && k != changed && k in after
    ensures k in before && after[k] == before[k]
  {
    assert k in after - {changed};
  }

  lemma AcquiredIsNamed(ops: seq<Op>, n: nat, r: TargetRecord)
    requires n < |ops| && ops[n].DoAcquire? && r.state.Materializing? && r.state.attemptId == ops[n].q.attemptId && r.spec == ops[n].q.spec
    requires r.state.reservationId == ops[n].q.reservationId || ReservationNames(ops, n, r.state.reservationId, r.spec)
    ensures RowNamed(ops, n + 1, r)
  {
    NamesLast(ops, n, n + 1);
  }

  // An install keeps the spec and gives the row the VM it names.
  lemma InstalledRow(s: Registry, lease: Lease, target: PhysicalTarget, nowMs: nat)
    ensures var t := Install(s, lease, target, nowMs).1;
            && (t.rows == s.rows
                || (&& lease.key in s.rows && s.rows[lease.key].state.Materializing?
                    && s.rows[lease.key].state.reservationId == lease.reservationId
                    && lease.key in t.rows && t.rows == s.rows[lease.key := t.rows[lease.key]]
                    && t.rows[lease.key].state.Installed? && t.rows[lease.key].state.targetRef == target.targetRef
                    && t.rows[lease.key].spec == s.rows[lease.key].spec))
  {
    hide Identifier;
  }

  lemma InstallKeepsNames(max: nat, ops: seq<Op>, n: nat)
    requires n < |ops| && ops[n].DoInstall? && RowsNamed(max, ops, n)
    ensures RowsNamed(max, ops, n + 1)
  {
    var s, t, key := At(max, ops, n), At(max, ops, n + 1), ops[n].lease.key;
    NextState(max, ops, n);
    InstalledRow(s, ops[n].lease, ops[n].target, ops[n].nowMs);
    InstallMovesOneCharge(s, ops[n].lease, ops[n].target, ops[n].nowMs);
    hide Install, At, WellKeyed;
    forall k | k in t.rows ensures RowNamed(ops, n + 1, t.rows[k]) {
      if k in s.rows && t.rows[k] == s.rows[k] {
        RowStaysNamed(ops, n, n + 1, s.rows[k]);
      } else {
        assert k == key;
        hide ReservationNames;
        NamesLast(ops, n, n + 1);
        assert ReservationNames(ops, n + 1, ops[n].lease.reservationId, t.rows[k].spec);
      }
    }
  }

  lemma RefundedRows(s: Registry, op: Op)
    requires WellKeyed(s) && (op.DoExpire? || op.DoClose?)
    ensures WellKeyed(Step(s, op))
    ensures forall k :: k in Step(s, op).rows ==>
              Step(s, op).rows[k].state.Closed? || (k in s.rows && Step(s, op).rows[k] == s.rows[k])
  {
  }

  lemma RefundKeepsNames(max: nat, ops: seq<Op>, n: nat)
    requires n < |ops| && (ops[n].DoExpire? || ops[n].DoClose?) && RowsNamed(max, ops, n)
    ensures RowsNamed(max, ops, n + 1)
  {
    var s, t := At(max, ops, n), At(max, ops, n + 1);
    NextState(max, ops, n);
    hide At, Step, WellKeyed;
    RefundedRows(s, ops[n]);
    forall k | k in t.rows ensures RowNamed(ops, n + 1, t.rows[k]) {
      if k in s.rows && t.rows[k] == s.rows[k] { RowStaysNamed(ops, n, n + 1, s.rows[k]); }
    }
  }

  lemma {:induction false} RunNames(max: nat, ops: seq<Op>, n: nat)
    requires n <= |ops|
    ensures RowsNamed(max, ops, n)
  {
    if n > 0 {
      RunNames(max, ops, n - 1);
      hide RowsNamed;
      match ops[n - 1]
      case DoAcquire(_) => AcquireKeepsNames(max, ops, n - 1);
      case DoInstall(_, _, _) => InstallKeepsNames(max, ops, n - 1);
      case DoExpire(_) => RefundKeepsNames(max, ops, n - 1);
      case DoClose(_, _, _, _) => RefundKeepsNames(max, ops, n - 1);
    }
  }

  // ---- Fresh ids name one spec ----

  lemma OneSpecPerAttempt(ops: seq<Op>, n: nat, attempt: string, a: TargetSpec, b: TargetSpec)
    requires n <= |ops| && FreshIds(ops) && AttemptNames(ops, n, attempt, a) && AttemptNames(ops, n, attempt, b)
    ensures a == b
  {
  }

  lemma OneSpecPerReservation(ops: seq<Op>, n: nat, reservation: string, a: TargetSpec, b: TargetSpec)
    requires n <= |ops| && FreshIds(ops) && ReservationNames(ops, n, reservation, a) && ReservationNames(ops, n, reservation, b)
    ensures a == b
  {
  }

  lemma OneSpecPerRef(ops: seq<Op>, n: nat, ref: TargetRef, a: TargetSpec, b: TargetSpec)
    requires n <= |ops| && FreshIds(ops) && RefNames(ops, n, ref, a) && RefNames(ops, n, ref, b)
    ensures a == b
  {
    hide ReservationNames;
    var i :| 0 <= i < n && ops[i].DoInstall? && ops[i].target.targetRef == ref && ReservationNames(ops, n, ops[i].lease.reservationId, a);
    var j :| 0 <= j < n && ops[j].DoInstall? && ops[j].target.targetRef == ref && ReservationNames(ops, n, ops[j].lease.reservationId, b);
    assert ops[i].lease.reservationId == ops[j].lease.reservationId;
    OneSpecPerReservation(ops, n, ops[i].lease.reservationId, a, b);
  }

  // ---- What was seen carries what its ids name ----

  lemma AnsweredLease(s: Registry, q: AcquireTarget, lease: Lease)
    requires WellKeyed(s) && Acquire(s, q).0 == Ok(Acquired(lease))
    ensures lease.attemptId == q.attemptId && lease.spec == q.spec
  {
    hide Identifier, ValidKey;
  }

  lemma SeenLeaseIsNamed(max: nat, ops: seq<Op>, n: nat, lease: Lease)
    requires n <= |ops| && LeaseSeen(max, ops, n, lease)
    ensures AttemptNames(ops, n, lease.attemptId, lease.spec)
  {
    hide Acquire, At;
    if j :| 0 <= j < n && ops[j].DoAcquire? && Acquire(At(max, ops, j), ops[j].q).0 == Ok(Acquired(lease)) {
      RunNames(max, ops, j);
      AnsweredLease(At(max, ops, j), ops[j].q, lease);
    } else {
      var j :| 0 <= j <= n && Lists(At(max, ops, j), lease);
      RunNames(max, ops, j);
      assert RowNamed(ops, j, At(max, ops, j).rows[lease.key]);
      NamesLast(ops, j, n);
    }
  }

  lemma AnsweredTarget(s: Registry, op: Op, target: InstalledTarget)
    requires WellKeyed(s) && AnswersTarget(s, op, target)
    ensures Shows(Step(s, op), target)
  {
    hide Identifier, ValidKey;
  }

  lemma ShownIsNamed(max: nat, ops: seq<Op>, j: nat, n: nat, target: InstalledTarget)
    requires j <= n <= |ops| && Shows(At(max, ops, j), target)
    ensures RefNames(ops, n, target.targetRef, target.spec)
  {
    hide At, RefNames;
    RunNames(max, ops, j);
    assert RowNamed(ops, j, At(max, ops, j).rows[target.key]);
    RefLasts(ops, j, n, target.targetRef, target.spec);
  }

  lemma SeenTargetIsNamed(max: nat, ops: seq<Op>, n: nat, target: InstalledTarget)
    requires n <= |ops| && TargetSeen(max, ops, n, target)
    ensures RefNames(ops, n, target.targetRef, target.spec)
  {
    hide Acquire, Install, At, RefNames, Shows;
    if j :| 0 <= j < n && AnswersTarget(At(max, ops, j), ops[j], target) {
      RunNames(max, ops, j);
      AnsweredTarget(At(max, ops, j), ops[j], target);
      NextState(max, ops, j);
      ShownIsNamed(max, ops, j + 1, n, target);
    } else {
      var j :| 0 <= j <= n && Shows(At(max, ops, j), target);
      ShownIsNamed(max, ops, j, n, target);
    }
  }

  // Callers that release and close only what they were shown, under fresh ids, always refund what was charged.
  lemma HandedOutIsHonest(max: nat, ops: seq<Op>)
    requires HandedOut(max, ops) && FreshIds(ops)
    ensures HonestRun(Registry(map[], 0, max), ops)
  {
    forall i | 0 <= i < |ops| ensures HonestOp(At(max, ops, i), ops[i]) {
      hide FreshIds, LeaseSeen, TargetSeen, AttemptNames, RefNames, At;
      RunNames(max, ops, i);
      var s := At(max, ops, i);
      match ops[i]
      case DoExpire(lease) =>
        SeenLeaseIsNamed(max, ops, i, lease);
        if OwnsAttempt(s, lease) {
          assert RowNamed(ops, i, s.rows[lease.key]);
          OneSpecPerAttempt(ops, i, lease.attemptId, s.rows[lease.key].spec, lease.spec);
        }
      case DoClose(target, _, reason, _) =>
        SeenTargetIsNamed(max, ops, i, target);
        if ClosesRow(s, target, reason) {
          assert RowNamed(ops, i, s.rows[target.key]);
          OneSpecPerRef(ops, i, target.targetRef, s.rows[target.key].spec, target.spec);
        }
      case _ =>
    }
  }

  // In every such history the counter is the sum over the materializing and installed rows, and per key every charge
  // is refunded exactly once or its row still stands.
  lemma CounterIsExact(max: nat, ops: seq<Op>, key: TargetKey)
    requires HandedOut(max, ops) && FreshIds(ops)
    ensures Accounted(Run(Registry(map[], 0, max), ops))
    ensures OpenCharge(Ledger(Registry(map[], 0, max), ops), key) == Some(ChargeAt(Run(Registry(map[], 0, max), ops), key))
  {
    hide HandedOut, FreshIds, HonestRun, Accounted, OpenCharge, Ledger;
    HandedOutIsHonest(max, ops);
    RunAccounts(max, ops);
    EachChargeIsRefundedOnce(max, ops, key);
  }

  // ---- Exactly which runs keep the accounts ----

  ghost predicate AccountedUpTo(max: nat, ops: seq<Op>, n: nat)
    requires n <= |ops|
  {
    forall i :: 0 <= i <= n ==> Accounted(At(max, ops, i))
  }

  predicate KeptUpTo(max: nat, ops: seq<Op>, n: nat)
    requires n <= |ops|
  {
    forall i :: 0 <= i < n ==> KeepsAccounts(At(max, ops, i), ops[i])
  }

  lemma EmptyIsAccounted(max: nat, ops: seq<Op>)
    ensures AccountedUpTo(max, ops, 0)
  {
    assert ops[..0] == [];
    assert Charges(map[]) == map[];
  }

  // For any calls whatever: the counter is the sum in every state of a run exactly when every call keeps the accounts.
  lemma {:induction false} RunAccountsIff(max: nat, ops: seq<Op>, n: nat)
    requires n <= |ops|
    ensures AccountedUpTo(max, ops, n) <==> KeptUpTo(max, ops, n)
  {
    hide Accounted, KeepsAccounts, At, Step;
    if n == 0 {
      EmptyIsAccounted(max, ops);
    } else {
      var m := n - 1;
      RunAccountsIff(max, ops, m);
      NextState(max, ops, m);
      if Accounted(At(max, ops, m)) { StepAccountsIff(At(max, ops, m), ops[m]); }
      assert AccountedUpTo(max, ops, n) <==> AccountedUpTo(max, ops, m) && Accounted(At(max, ops, n));
      assert KeptUpTo(max, ops, n) <==> KeptUpTo(max, ops, m) && KeepsAccounts(At(max, ops, m), ops[m]);
    }
  }

  // ---- Ids that are not fresh ----

  const SMALL_KEY: TargetKey := TargetKey("r", DEFAULT_TARGET_KEY)

  function SmallRequest(mib: nat): AcquireTarget {
    AcquireTarget(SMALL_KEY, TargetSpec(NoConnector, "image-1", "microvm-1gb", mib, "", ""), "a", "g", Undecodable(1), "t",
                  1, false, 1, 3, 2, false)
  }

  /** What the leases of two such requests share, and the memory in which they differ. */
  predicate SmallLease(mib: nat, lease: Lease) {
    && lease.key == SMALL_KEY && lease.reservationId == "a" && lease.attemptId == "t" && lease.generation == "g"
    && lease.spec.materializedMib == mib
  }

  lemma SmallRequestIsValid(mib: nat)
    ensures RequestError(SmallRequest(mib)).None?
  {
    assert Identifier("r") && Identifier("a") && Identifier("g") && Identifier("t");
  }

  lemma FirstRow(mib: nat) returns (lease: Lease)
    ensures FirstLease(SmallRequest(mib)) == Ok(lease) && SmallLease(mib, lease)
    ensures SmallRequest(mib).key == SMALL_KEY && SmallRequest(mib).nowMs == 1
  {
    SmallRequestIsValid(mib);
    hide RequestError;
    lease := FirstLease(SmallRequest(mib)).value;
  }

  /** The row of a lease alone, charged. */
  function OneRow(mib: nat, lease: Lease): Registry {
    Registry(map[SMALL_KEY := RecordFromLease(lease, 1)], mib, 1024)
  }

  lemma AcquireFirst(mib: nat, lease: Lease)
    requires mib <= 1024 && FirstLease(SmallRequest(mib)) == Ok(lease) && SmallLease(mib, lease)
    requires SmallRequest(mib).key == SMALL_KEY && SmallRequest(mib).nowMs == 1
    ensures Acquire(Registry(map[], 0, 1024), SmallRequest(mib)) == (Ok(Acquired(lease)), OneRow(mib, lease))
  {
    hide FirstLease, RecordFromLease, RecordError, FencedOut, SmallRequest, TakeAttempt;
  }

  // The lease of 512 MiB owns the row of the other request: the row goes, and the refund goes as far as it can.
  lemma ExpireReused(mib: nat, lease: Lease, held: Lease)
    requires SmallLease(mib, lease) && SmallLease(512, held)
    ensures ExpireLease(OneRow(mib, lease), held).1 == Registry(map[], if mib < 512 then mib else mib - 512, 1024)
  {
    var s := OneRow(mib, lease);
    assert OwnsAttempt(s, held);
    assert s.rows - {SMALL_KEY} == map[];
    hide OwnsAttempt, RecordFromLease;
  }

  // Four calls, one after the other.
  lemma RunOfFour(ops: seq<Op>, s1: Registry, s3: Registry, end: Registry)
    requires |ops| == 4 && Step(Registry(map[], 0, 1024), ops[0]) == s1 && Step(s1, ops[1]) == Registry(map[], 0, 1024)
    requires Step(Registry(map[], 0, 1024), ops[2]) == s3 && Step(s3, ops[3]) == end
    ensures At(1024, ops, 0) == Registry(map[], 0, 1024) && Run(Registry(map[], 0, 1024), ops) == end
  {
    assert ops[..0] == [] && ops[..4] == ops;
    assert At(1024, ops, 0) == Registry(map[], 0, 1024);
    hide Step, Run;
    NextState(1024, ops, 0);
    NextState(1024, ops, 1);
    NextState(1024, ops, 2);
    NextState(1024, ops, 3);
  }

  // Both releases use the lease that the first call answered.
  lemma ShownFirst(ops: seq<Op>, lease: Lease)
    requires |ops| == 4 && ops[0].DoAcquire? && ops[1] == DoExpire(lease) && ops[2].DoAcquire? && ops[3] == DoExpire(lease)
    requires Acquire(At(1024, ops, 0), ops[0].q).0 == Ok(Acquired(lease))
    ensures HandedOut(1024, ops)
  {
    hide Acquire, At, Lists, TargetSeen;
    assert LeaseSeen(1024, ops, 1, lease) && LeaseSeen(1024, ops, 3, lease);
  }

  lemma ChargedToNoRow()
    ensures !Accounted(Registry(map[], 256, 1024))
  {
    assert Charges(map[]) == map[];
  }

  lemma MintedTwice(ops: seq<Op>)
    requires |ops| == 4 && ops[0] == DoAcquire(SmallRequest(512)) && ops[2] == DoAcquire(SmallRequest(256))
    ensures !FreshIds(ops)
  {
    assert BothAcquire(ops, 0, 2);
  }

  // Every call is handed out, but the attempt id is minted twice for two sizes: the lease of the first releases the
  // row of the second, the refund is refused, and the counter keeps memory that no row stands for.
  lemma ReusedIdsBreakTheCounter() returns (ops: seq<Op>)
    ensures HandedOut(1024, ops) && !FreshIds(ops)
    ensures Run(Registry(map[], 0, 1024), ops) == Registry(map[], 256, 1024)
    ensures !Accounted(Run(Registry(map[], 0, 1024), ops))
  {
    hide Acquire, ExpireLease, Run, At, HandedOut, FreshIds, Accounted, FirstLease, SmallLease, SmallRequest, OneRow;
    var big := FirstRow(512);
    var small := FirstRow(256);
    AcquireFirst(512, big);
    AcquireFirst(256, small);
    ExpireReused(512, big, big);
    ExpireReused(256, small, big);
    ops := [DoAcquire(SmallRequest(512)), DoExpire(big), DoAcquire(SmallRequest(256)), DoExpire(big)];
    RunOfFour(ops, OneRow(512, big), OneRow(256, small), Registry(map[], 256, 1024));
    ShownFirst(ops, big);
    MintedTwice(ops);
    ChargedToNoRow();
  }
}
