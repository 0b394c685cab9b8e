/** Reservation, deduplication and terminal-result retention of operations, with byte-exact accounts
    (crates/hand-core/src/operation.rs). */
module OperationRegistries {
  import opened Wrappers
  import opened RecordCodec
  import opened MapTotals
  import opened Arithmetic

  const USIZE_MAX: nat := 0xFFFF_FFFF_FFFF_FFFF

  datatype OperationId = OperationId(text: Text)

  datatype State = Accepted | Running | Terminal(digest: Text, payload: Text)

  datatype Record = Record(requestDigest: Text, reservation: nat, state: State, cancelRequested: bool)

  datatype Error =
    | InvalidIdentity | IdempotencyConflict | Capacity | Unknown | AlreadyTerminal
    | TerminalConflict | TerminalCapacity | NotTerminal | TerminalDigestMismatch

  datatype Registry = Registry(records: map<OperationId, Record>, maxRecords: nat, maxBytes: nat, terminalBytes: nat, pendingBytes: nat)

  datatype Call =
    | Reserve(id: OperationId, requestDigest: Text, bytes: nat)
    | MarkRunning(id: OperationId)
    | Complete(id: OperationId, digest: Text, payload: Text)
    | RequestCancel(id: OperationId)
    | Acknowledge(id: OperationId, digest: Text)

  datatype Answer = New | Existing | Done | Cancelling(first: bool) | Refused(error: Error)

  /** A checked addition of machine words. */
  function CheckedAdd(a: nat, b: nat): Option<nat> {
    if a + b <= USIZE_MAX then Some(a + b) else None
  }

  function WithRecord(s: Registry, id: OperationId, r: Record): Registry {
    s.(records := s.records[id := r])
  }

  function ApplyReserve(s: Registry, id: OperationId, requestDigest: Text, bytes: nat): (Answer, Registry) {
    if !ValidIdentifier(id.text) || !ValidDigest(requestDigest) then (Refused(InvalidIdentity), s)
    else if id in s.records then
      (if s.records[id].requestDigest == requestDigest then Existing else Refused(IdempotencyConflict), s)
    else
      var held := CheckedAdd(s.terminalBytes, s.pendingBytes);
      var retained := if held.None? then None else CheckedAdd(held.value, bytes);
      var pending := CheckedAdd(s.pendingBytes, bytes);
      if retained.None? || bytes == 0 || |s.records| >= s.maxRecords || retained.value > s.maxBytes || pending.None? then
        (Refused(Capacity), s)
      else
        (New, WithRecord(s.(pendingBytes := pending.value), id, Record(requestDigest, bytes, Accepted, false)))
  }

  function ApplyMarkRunning(s: Registry, id: OperationId): (Answer, Registry) {
    if id !in s.records then (Refused(Unknown), s)
    else if s.records[id].state.Terminal? then (Refused(AlreadyTerminal), s)
    else (Done, WithRecord(s, id, s.records[id].(state := Running)))
  }

  function ApplyComplete(s: Registry, id: OperationId, digest: Text, payload: Text): (Answer, Registry) {
    if !ValidDigest(digest) then (Refused(InvalidIdentity), s)
    else if id !in s.records then (Refused(Unknown), s)
    else
      var r := s.records[id];
      if r.state.Terminal? then (if r.state == Terminal(digest, payload) then Done else Refused(TerminalConflict), s)
      else if |payload| > r.reservation then (Refused(TerminalCapacity), s)
      else
        var released := s.(pendingBytes := SaturatingSub(s.pendingBytes, r.reservation));
        var terminal := CheckedAdd(s.terminalBytes, |payload|);
        if terminal.None? then (Refused(TerminalCapacity), released)
        else (Done, WithRecord(released.(terminalBytes := terminal.value), id,
                               r.(reservation := |payload|, state := Terminal(digest, payload))))
  }

  function ApplyRequestCancel(s: Registry, id: OperationId): (Answer, Registry) {
    if id !in s.records then (Refused(Unknown), s)
    else if s.records[id].state.Terminal? then (Cancelling(false), s)
    else (Cancelling(!s.records[id].cancelRequested), WithRecord(s, id, s.records[id].(cancelRequested := true)))
  }

  /** What an acknowledgement must match before anything is forgotten. */
  function AckError(s: Registry, id: OperationId, digest: Text): Option<Error> {
    if !ValidIdentifier(id.text) || !ValidDigest(digest) then Some(InvalidIdentity)
    else if id !in s.records then Some(Unknown)
    else if !s.records[id].state.Terminal? then Some(NotTerminal)
    else if s.records[id].state.digest != digest then Some(TerminalDigestMismatch)
    else None
  }

  function ApplyAcknowledge(s: Registry, id: OperationId, digest: Text): (Answer, Registry) {
    var error := AckError(s, id, digest);
    if error.Some? then (Refused(error.value), s)
    else (Done, s.(records := s.records - {id}, terminalBytes := SaturatingSub(s.terminalBytes, |s.records[id].state.payload|)))
  }

  function Apply(s: Registry, call: Call): (Answer, Registry) {
    match call
    case Reserve(id, digest, bytes) => ApplyReserve(s, id, digest, bytes)
    case MarkRunning(id) => ApplyMarkRunning(s, id)
    case Complete(id, digest, payload) => ApplyComplete(s, id, digest, payload)
    case RequestCancel(id) => ApplyRequestCancel(s, id)
    case Acknowledge(id, digest) => ApplyAcknowledge(s, id, digest)
  }

  // ---- Accounts ----

  function TerminalSize(r: Record): nat { if r.state.Terminal? then |r.state.payload| else 0 }

  function PendingSize(r: Record): nat { if r.state.Terminal? then 0 else r.reservation }

  function TerminalSizes(records: map<OperationId, Record>): map<OperationId, nat> {
    map id | id in records :: TerminalSize(records[id])
  }

  function PendingSizes(records: map<OperationId, Record>): map<OperationId, nat> {
    map id | id in records :: PendingSize(records[id])
  }

  /** Both counters are the sums over the records, together within the limit. */
  ghost predicate Accounted(s: Registry) {
    && s.terminalBytes == Total(TerminalSizes(s.records))
    && s.pendingBytes == Total(PendingSizes(s.records))
    && s.terminalBytes + s.pendingBytes <= s.maxBytes <= USIZE_MAX
    && |s.records| <= s.maxRecords
    && forall id :: id in s.records && s.records[id].state.Terminal? ==> s.records[id].reservation == |s.records[id].state.payload|
  }

  lemma SizesWith(records: map<OperationId, Record>, id: OperationId, r: Record)
    ensures TerminalSizes(records[id := r]) == TerminalSizes(records)[id := TerminalSize(r)]
    ensures PendingSizes(records[id := r]) == PendingSizes(records)[id := PendingSize(r)]
  {
  }

  // One record changes: each sum changes by the difference of its size.
  lemma RecordChanged(records: map<OperationId, Record>, id: OperationId, r: Record)
    ensures var before := if id in records then TerminalSize(records[id]) else 0;
            Total(TerminalSizes(records[id := r])) == Total(TerminalSizes(records)) - before + TerminalSize(r)
    ensures var before := if id in records then PendingSize(records[id]) else 0;
            Total(PendingSizes(records[id := r])) == Total(PendingSizes(records)) - before + PendingSize(r)
    ensures |records[id := r]| == if id in records then |records| else |records| + 1
  {
    SizesWith(records, id, r);
    TotalUpdated(TerminalSizes(records), id, TerminalSize(r));
    TotalUpdated(PendingSizes(records), id, PendingSize(r));
    RecordsCount(records, id, r);
  }

  lemma RecordsCount(records: map<OperationId, Record>, id: OperationId, r: Record)
    ensures |records[id := r]| == if id in records then |records| else |records| + 1
  {
    if id in records {
      assert records[id := r].Keys == records.Keys;
      assert |records[id := r].Keys| == |records[id := r]| && |records.Keys| == |records|;
    } else {
      OneMoreKey(records, id, r);
    }
  }

  lemma RecordForgotten(records: map<OperationId, Record>, id: OperationId)
    requires id in records
    ensures Total(TerminalSizes(records - {id})) == Total(TerminalSizes(records)) - TerminalSize(records[id])
    ensures Total(PendingSizes(records - {id})) == Total(PendingSizes(records)) - PendingSize(records[id])
    ensures |records - {id}| == |records| - 1
  {
    assert TerminalSizes(records - {id}) == TerminalSizes(records) - {id};
    assert PendingSizes(records - {id}) == PendingSizes(records) - {id};
    TotalRemoved(TerminalSizes(records), id);
    TotalRemoved(PendingSizes(records), id);
    OneLessKey(records, id);
  }

  lemma SizesBound(s: Registry, id: OperationId)
    requires Accounted(s) && id in s.records
    ensures PendingSize(s.records[id]) <= s.pendingBytes && TerminalSize(s.records[id]) <= s.terminalBytes
  {
    TotalAtLeast(PendingSizes(s.records), id);
    TotalAtLeast(TerminalSizes(s.records), id);
  }

  lemma ReserveAccounts(s: Registry, id: OperationId, digest: Text, bytes: nat)
    requires Accounted(s)
    ensures Accounted(ApplyReserve(s, id, digest, bytes).1)
  {
    hide ValidIdentifier, ValidDigest, TerminalSizes, PendingSizes;
    RecordChanged(s.records, id, Record(digest, bytes, Accepted, false));
  }

  lemma MarkRunningAccounts(s: Registry, id: OperationId)
    requires Accounted(s)
    ensures Accounted(ApplyMarkRunning(s, id).1)
  {
    hide TerminalSizes, PendingSizes;
    if id in s.records { RecordChanged(s.records, id, s.records[id].(state := Running)); }
  }

  // A payload that fits its reservation is accepted: no saturation clips and no checked addition fails.
  lemma CompleteAccounts(s: Registry, id: OperationId, digest: Text, payload: Text)
    requires Accounted(s)
    ensures Accounted(ApplyComplete(s, id, digest, payload).1)
    ensures ValidDigest(digest) && id in s.records && !s.records[id].state.Terminal? && |payload| <= s.records[id].reservation ==>
              && ApplyComplete(s, id, digest, payload).0 == Done
              && s.records[id].reservation <= s.pendingBytes && s.terminalBytes + |payload| <= USIZE_MAX
  {
    hide ValidDigest, TerminalSizes, PendingSizes;
    if id in s.records {
      SizesBound(s, id);
      RecordChanged(s.records, id, s.records[id].(reservation := |payload|, state := Terminal(digest, payload)));
    }
  }

  lemma RequestCancelAccounts(s: Registry, id: OperationId)
    requires Accounted(s)
    ensures Accounted(ApplyRequestCancel(s, id).1)
  {
    hide TerminalSizes, PendingSizes;
    if id in s.records { RecordChanged(s.records, id, s.records[id].(cancelRequested := true)); }
  }

  lemma AcknowledgeAccounts(s: Registry, id: OperationId, digest: Text)
    requires Accounted(s)
    ensures Accounted(ApplyAcknowledge(s, id, digest).1)
    ensures AckError(s, id, digest).None? ==> |s.records[id].state.payload| <= s.terminalBytes
  {
    hide ValidIdentifier, ValidDigest, TerminalSizes, PendingSizes;
    if id in s.records {
      SizesBound(s, id);
      RecordForgotten(s.records, id);
    }
  }

  lemma ApplyAccounts(s: Registry, call: Call)
    requires Accounted(s)
    ensures Accounted(Apply(s, call).1)
  {
    hide Accounted, ApplyReserve, ApplyMarkRunning, ApplyComplete, ApplyRequestCancel, ApplyAcknowledge;
    match call
    case Reserve(id, digest, bytes) => ReserveAccounts(s, id, digest, bytes);
    case MarkRunning(id) => MarkRunningAccounts(s, id);
    case Complete(id, digest, payload) => CompleteAccounts(s, id, digest, payload);
    case RequestCancel(id) => RequestCancelAccounts(s, id);
    case Acknowledge(id, digest) => AcknowledgeAccounts(s, id, digest);
  }

  // ---- Call histories ----

  predicate IsRun(run: seq<Registry>, calls: seq<Call>, answers: seq<Answer>) {
    && |run| == |calls| + 1 == |answers| + 1
    && run[0] == Registry(map[], run[0].maxRecords, run[0].maxBytes, 0, 0) && run[0].maxBytes <= USIZE_MAX
    && forall i :: 0 <= i < |calls| ==> (answers[i], run[i + 1]) == Apply(run[i], calls[i])
  }

  // For every call history: retained plus reserved bytes are the sums over the records and within the limit.
  lemma {:induction false} RunAccounts(run: seq<Registry>, calls: seq<Call>, answers: seq<Answer>, i: nat)
    requires IsRun(run, calls, answers) && i < |run|
    ensures Accounted(run[i])
  {
    if i == 0 {
      assert TerminalSizes(map[]) == map[] && PendingSizes(map[]) == map[];
    } else {
      hide Apply, Accounted;
      RunAccounts(run, calls, answers, i - 1);
      ApplyAccounts(run[i - 1], calls[i - 1]);
      assert (answers[i - 1], run[i]) == Apply(run[i - 1], calls[i - 1]);
    }
  }

  // In every history, completing a pending operation with a payload that fits its reservation is accepted, and
  // that payload is then what is retained.
  lemma FittingPayloadIsRetained(run: seq<Registry>, calls: seq<Call>, answers: seq<Answer>, i: nat)
    requires IsRun(run, calls, answers) && i < |calls| && calls[i].Complete? && ValidDigest(calls[i].digest)
    requires calls[i].id in run[i].records && !run[i].records[calls[i].id].state.Terminal?
    requires |calls[i].payload| <= run[i].records[calls[i].id].reservation
    ensures answers[i] == Done && calls[i].id in run[i + 1].records
    ensures run[i + 1].records[calls[i].id].state == Terminal(calls[i].digest, calls[i].payload)
  {
    hide ValidDigest, ValidIdentifier;
    RunAccounts(run, calls, answers, i);
    CompleteAccounts(run[i], calls[i].id, calls[i].digest, calls[i].payload);
    hide Accounted;
    assert (answers[i], run[i + 1]) == Apply(run[i], calls[i]);
  }

  /** This call forgot the operation. */
  predicate Forgets(call: Call, answer: Answer, id: OperationId) {
    call.Acknowledge? && call.id == id && answer == Done
  }

  lemma TerminalStays(s: Registry, call: Call, id: OperationId)
    requires id in s.records && s.records[id].state.Terminal?
    ensures var (answer, t) := Apply(s, call);
            if Forgets(call, answer, id) then call.digest == s.records[id].state.digest
            else id in t.records && t.records[id] == s.records[id]
  {
    hide ValidIdentifier, ValidDigest;
  }

  lemma KnownStays(s: Registry, call: Call, id: OperationId)
    requires id in s.records && !Forgets(call, Apply(s, call).0, id)
    ensures id in Apply(s, call).1.records && (Apply(s, call).0 == New ==> call.Reserve? && call.id != id)
  {
    hide ValidIdentifier, ValidDigest;
  }

  predicate NotForgotten(calls: seq<Call>, answers: seq<Answer>, id: OperationId, i: nat, j: nat)
    requires |calls| == |answers| && j <= |calls|
  {
    forall k :: i <= k < j ==> !Forgets(calls[k], answers[k], id)
  }

  // A terminal record is unchanged until its acknowledgement, and the acknowledgement names its exact digest.
  lemma {:induction false} TerminalUntilAcknowledged(run: seq<Registry>, calls: seq<Call>, answers: seq<Answer>, id: OperationId, i: nat, j: nat)
    requires IsRun(run, calls, answers) && i <= j < |run| && id in run[i].records && run[i].records[id].state.Terminal?
    requires NotForgotten(calls, answers, id, i, j)
    ensures id in run[j].records && run[j].records[id] == run[i].records[id]
    ensures j < |calls| && Forgets(calls[j], answers[j], id) ==> calls[j].digest == run[i].records[id].state.digest
    decreases j
  {
    hide Apply;
    if i < j {
      assert NotForgotten(calls, answers, id, i, j - 1) && !Forgets(calls[j - 1], answers[j - 1], id);
      TerminalUntilAcknowledged(run, calls, answers, id, i, j - 1);
      TerminalStays(run[j - 1], calls[j - 1], id);
      assert (answers[j - 1], run[j]) == Apply(run[j - 1], calls[j - 1]);
    }
    if j < |calls| {
      TerminalStays(run[j], calls[j], id);
      assert (answers[j], run[j + 1]) == Apply(run[j], calls[j]);
    }
  }

  lemma {:induction false} KnownUntilForgotten(run: seq<Registry>, calls: seq<Call>, answers: seq<Answer>, id: OperationId, i: nat, j: nat)
    requires IsRun(run, calls, answers) && i <= j < |run| && id in run[i].records && NotForgotten(calls, answers, id, i, j)
    ensures id in run[j].records
    decreases j
  {
    hide Apply;
    if i < j {
      assert NotForgotten(calls, answers, id, i, j - 1) && !Forgets(calls[j - 1], answers[j - 1], id);
      KnownUntilForgotten(run, calls, answers, id, i, j - 1);
      assert (answers[j - 1], run[j]) == Apply(run[j - 1], calls[j - 1]);
      KnownStays(run[j - 1], calls[j - 1], id);
    }
  }

  // New is answered at most once per id between acknowledgements.
  lemma NewOnceBetweenAcknowledgements(run: seq<Registry>, calls: seq<Call>, answers: seq<Answer>, i: nat, j: nat)
    requires IsRun(run, calls, answers) && i < j < |calls|
    requires calls[i].Reserve? && calls[j].Reserve? && calls[i].id == calls[j].id && answers[i] == New && answers[j] == New
    ensures !NotForgotten(calls, answers, calls[i].id, i + 1, j)
  {
    var id := calls[i].id;
    assert (answers[i], run[i + 1]) == Apply(run[i], calls[i]);
    assert (answers[j], run[j + 1]) == Apply(run[j], calls[j]);
    assert id in run[i + 1].records by { hide ValidIdentifier, ValidDigest; }
    hide Apply;
    if NotForgotten(calls, answers, id, i + 1, j) {
      KnownUntilForgotten(run, calls, answers, id, i + 1, j);
      KnownStays(run[j], calls[j], id);
    }
  }

  // ---- The registry ----

  class OperationRegistry {
    var records: map<OperationId, Record>
    var terminalBytes: nat
    var pendingReservedBytes: nat
    const maxRecords: nat
    const maxTerminalBytes: nat

    constructor (maxRecords: nat, maxTerminalBytes: nat)
      requires maxTerminalBytes <= USIZE_MAX
      ensures Valid() && View() == Registry(map[], maxRecords, maxTerminalBytes, 0, 0)
    {
      records := map[];
      terminalBytes := 0;
      pendingReservedBytes := 0;
      this.maxRecords := maxRecords;
      this.maxTerminalBytes := maxTerminalBytes;
      new;
      assert TerminalSizes(map[]) == map[] && PendingSizes(map[]) == map[];
    }

    ghost function View(): Registry
      reads this
    {
      Registry(records, maxRecords, maxTerminalBytes, terminalBytes, pendingReservedBytes)
    }

    ghost predicate Valid()
      reads this
    {
      Accounted(View())
    }

    method ReserveOperation(id: OperationId, requestDigest: Text, bytes: nat) returns (answer: Answer)
      requires Valid()
      modifies this
      ensures Valid() && (answer, View()) == ApplyReserve(old(View()), id, requestDigest, bytes)
    {
      hide Accounted, ValidIdentifier, ValidDigest;
      ReserveAccounts(View(), id, requestDigest, bytes);
      if !ValidIdentifier(id.text) || !ValidDigest(requestDigest) { return Refused(InvalidIdentity); }
      if id in records {
        return if records[id].requestDigest == requestDigest then Existing else Refused(IdempotencyConflict);
      }
      var held := CheckedAdd(terminalBytes, pendingReservedBytes);
      if held.None? { return Refused(Capacity); }
      var retained := CheckedAdd(held.value, bytes);
      if retained.None? { return Refused(Capacity); }
      if bytes == 0 || |records| >= maxRecords || retained.value > maxTerminalBytes { return Refused(Capacity); }
      var pending := CheckedAdd(pendingReservedBytes, bytes);
      if pending.None? { return Refused(Capacity); }
      pendingReservedBytes := pending.value;
      records := records[id := Record(requestDigest, bytes, Accepted, false)];
      return New;
    }

    method MarkOperationRunning(id: OperationId) returns (answer: Answer)
      requires Valid()
      modifies this
      ensures Valid() && (answer, View()) == ApplyMarkRunning(old(View()), id)
    {
      hide Accounted;
      MarkRunningAccounts(View(), id);
      if id !in records { return Refused(Unknown); }
      match records[id].state {
        case Terminal(_, _) => return Refused(AlreadyTerminal);
        case Running =>
          assert records == records[id := records[id].(state := Running)];
          return Done;
        case Accepted =>
          records := records[id := records[id].(state := Running)];
          return Done;
      }
    }

    method CompleteOperation(id: OperationId, digest: Text, payload: Text) returns (answer: Answer)
      requires Valid()
      modifies this
      ensures Valid() && (answer, View()) == ApplyComplete(old(View()), id, digest, payload)
    {
      hide Accounted, ValidDigest;
      CompleteAccounts(View(), id, digest, payload);
      if !ValidDigest(digest) { return Refused(InvalidIdentity); }
      if id !in records { return Refused(Unknown); }
      var r := records[id];
      if r.state.Terminal? {
        return if r.state == Terminal(digest, payload) then Done else Refused(TerminalConflict);
      }
      if |payload| > r.reservation { return Refused(TerminalCapacity); }
      pendingReservedBytes := SaturatingSub(pendingReservedBytes, r.reservation);
      var terminal := CheckedAdd(terminalBytes, |payload|);
      if terminal.None? { return Refused(TerminalCapacity); }
      terminalBytes := terminal.value;
      records := records[id := r.(reservation := |payload|, state := Terminal(digest, payload))];
      return Done;
    }

    method RequestOperationCancel(id: OperationId) returns (answer: Answer)
      requires Valid()
      modifies this
      ensures Valid() && (answer, View()) == ApplyRequestCancel(old(View()), id)
    {
      hide Accounted;
      RequestCancelAccounts(View(), id);
      if id !in records { return Refused(Unknown); }
      if records[id].state.Terminal? { return Cancelling(false); }
      var first := !records[id].cancelRequested;
      records := records[id := records[id].(cancelRequested := true)];
      return Cancelling(first);
    }

    method AcknowledgeTerminal(id: OperationId, digest: Text) returns (answer: Answer)
      requires Valid()
      modifies this
      ensures Valid() && (answer, View()) == ApplyAcknowledge(old(View()), id, digest)
    {
      hide Accounted, ValidIdentifier, ValidDigest;
      AcknowledgeAccounts(View(), id, digest);
      if !ValidIdentifier(id.text) || !ValidDigest(digest) { return Refused(InvalidIdentity); }
      if id !in records { return Refused(Unknown); }
      if !records[id].state.Terminal? { return Refused(NotTerminal); }
      if records[id].state.digest != digest { return Refused(TerminalDigestMismatch); }
      var bytes := |records[id].state.payload|;
      records := records - {id};
      terminalBytes := SaturatingSub(terminalBytes, bytes);
      return Done;
    }
  }
}
