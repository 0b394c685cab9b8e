/** What every call of the operation registry answers and records, by the record it meets, and what follows over
    call histories (crates/hand-core/src/operation.rs:62-214). */
module OperationAnswers {
  import opened Wrappers
  import opened RecordCodec
  import opened OperationRegistries

  // ---- Reserve ----

  // A known operation is answered Existing to its own request and a conflict to any other; nothing changes.
  lemma ReserveKnown(s: Registry, id: OperationId, digest: Text, bytes: nat)
    requires id in s.records && ValidIdentifier(id.text) && ValidDigest(digest)
    ensures ApplyReserve(s, id, digest, bytes)
            == (if digest == s.records[id].requestDigest then Existing else Refused(IdempotencyConflict), s)
  {
  }

  // A new operation is recorded exactly when it asks for something, there is a free record and its bytes fit beside
  // everything retained and reserved; otherwise it is refused for capacity and nothing changes.
  lemma ReserveFresh(s: Registry, id: OperationId, digest: Text, bytes: nat)
    requires Accounted(s) && id !in s.records && ValidIdentifier(id.text) && ValidDigest(digest)
    ensures var (answer, t) := ApplyReserve(s, id, digest, bytes);
            if 0 < bytes && |s.records| < s.maxRecords && s.terminalBytes + s.pendingBytes + bytes <= s.maxBytes then
              && answer == New
              && t == Registry(s.records[id := Record(digest, bytes, Accepted, false)], s.maxRecords, s.maxBytes, s.terminalBytes,
                               s.pendingBytes + bytes)
            else answer == Refused(Capacity) && t == s
  {
    hide ValidIdentifier, ValidDigest, TerminalSizes, PendingSizes;
  }

  lemma ReserveInvalid(s: Registry, id: OperationId, digest: Text, bytes: nat)
    requires !ValidIdentifier(id.text) || !ValidDigest(digest)
    ensures ApplyReserve(s, id, digest, bytes) == (Refused(InvalidIdentity), s)
  {
    hide ValidIdentifier, ValidDigest;
  }

  // ---- Running, cancelling ----

  /** Nothing but this record differs. */
  predicate OnlyRecord(s: Registry, t: Registry, id: OperationId, r: Record) {
    t == Registry(s.records[id := r], s.maxRecords, s.maxBytes, s.terminalBytes, s.pendingBytes)
  }

  lemma MarkRunningAnswers(s: Registry, id: OperationId)
    ensures var (answer, t) := ApplyMarkRunning(s, id);
            if id !in s.records then answer == Refused(Unknown) && t == s
            else if s.records[id].state.Terminal? then answer == Refused(AlreadyTerminal) && t == s
            else
              && answer == Done
              && OnlyRecord(s, t, id, Record(s.records[id].requestDigest, s.records[id].reservation, Running, s.records[id].cancelRequested))
  {
  }

  lemma CancelAnswers(s: Registry, id: OperationId)
    ensures var (answer, t) := ApplyRequestCancel(s, id);
            if id !in s.records then answer == Refused(Unknown) && t == s
            else if s.records[id].state.Terminal? then answer == Cancelling(false) && t == s
            else
              && answer == Cancelling(!s.records[id].cancelRequested)
              && OnlyRecord(s, t, id, Record(s.records[id].requestDigest, s.records[id].reservation, s.records[id].state, true))
  {
  }

  // ---- Complete, acknowledge ----

  // A terminal operation answers Done to its very result and a conflict to any other; nothing changes.
  lemma CompleteTerminal(s: Registry, id: OperationId, digest: Text, payload: Text)
    requires id in s.records && s.records[id].state.Terminal? && ValidDigest(digest)
    ensures ApplyComplete(s, id, digest, payload)
            == (if digest == s.records[id].state.digest && payload == s.records[id].state.payload then Done
                else Refused(TerminalConflict), s)
  {
  }

  // A pending operation takes a result that fits its reservation: its reservation is returned and the payload counted.
  lemma CompletePending(s: Registry, id: OperationId, digest: Text, payload: Text)
    requires Accounted(s) && id in s.records && !s.records[id].state.Terminal? && ValidDigest(digest)
    ensures var (answer, t) := ApplyComplete(s, id, digest, payload);
            var r := s.records[id];
            if |payload| > r.reservation then answer == Refused(TerminalCapacity) && t == s
            else
              && answer == Done && r.reservation <= s.pendingBytes
              && t == Registry(s.records[id := Record(r.requestDigest, |payload|, Terminal(digest, payload), r.cancelRequested)],
                               s.maxRecords, s.maxBytes, s.terminalBytes + |payload|, s.pendingBytes - r.reservation)
  {
    CompleteAccounts(s, id, digest, payload);
    hide Accounted, ValidDigest;
  }

  lemma CompleteRefused(s: Registry, id: OperationId, digest: Text, payload: Text)
    requires !ValidDigest(digest) || id !in s.records
    ensures ApplyComplete(s, id, digest, payload) == (Refused(if ValidDigest(digest) then Unknown else InvalidIdentity), s)
  {
    hide ValidDigest;
  }

  // An operation is forgotten, and its payload returned, exactly on an acknowledgement of its own terminal digest.
  lemma AcknowledgeAnswers(s: Registry, id: OperationId, digest: Text)
    requires Accounted(s)
    ensures var (answer, t) := ApplyAcknowledge(s, id, digest);
            if !ValidIdentifier(id.text) || !ValidDigest(digest) then answer == Refused(InvalidIdentity) && t == s
            else if id !in s.records then answer == Refused(Unknown) && t == s
            else if !s.records[id].state.Terminal? then answer == Refused(NotTerminal) && t == s
            else if s.records[id].state.digest != digest then answer == Refused(TerminalDigestMismatch) && t == s
            else
              && answer == Done && |s.records[id].state.payload| <= s.terminalBytes
              && t == Registry(s.records - {id}, s.maxRecords, s.maxBytes, s.terminalBytes - |s.records[id].state.payload|, s.pendingBytes)
  {
    AcknowledgeAccounts(s, id, digest);
    hide Accounted, ValidIdentifier, ValidDigest;
  }

  // ---- Over histories ----

  // A record keeps its request for as long as it is known, and a cancellation stays requested.
  lemma RequestStays(s: Registry, call: Call, id: OperationId)
    requires id in s.records && !Forgets(call, Apply(s, call).0, id)
    ensures id in Apply(s, call).1.records
    ensures Apply(s, call).1.records[id].requestDigest == s.records[id].requestDigest
    ensures s.records[id].cancelRequested ==> Apply(s, call).1.records[id].cancelRequested
  {
    hide ValidIdentifier, ValidDigest;
  }

  lemma {:induction false} RequestKept(run: seq<Registry>, calls: seq<Call>, answers: seq<Answer>, id: OperationId, i: nat, j: nat)
    requires IsRun(run, calls, answers) && i <= j < |run| && id in run[i].records && NotForgotten(calls, answers, id, i, j)
    ensures id in run[j].records && run[j].records[id].requestDigest == run[i].records[id].requestDigest
    ensures run[i].records[id].cancelRequested ==> run[j].records[id].cancelRequested
    decreases j
  {
    hide Apply;
    if i < j {
      assert NotForgotten(calls, answers, id, i, j - 1) && !Forgets(calls[j - 1], answers[j - 1], id);
      RequestKept(run, calls, answers, id, i, j - 1);
      assert (answers[j - 1], run[j]) == Apply(run[j - 1], calls[j - 1]);
      RequestStays(run[j - 1], calls[j - 1], id);
    }
  }

  // Over every history: until it is acknowledged, an operation belongs to the request that created it. The same request
  // is answered Existing, every other one is an idempotency conflict.
  lemma OneRequestPerOperation(run: seq<Registry>, calls: seq<Call>, answers: seq<Answer>, i: nat, j: nat)
    requires IsRun(run, calls, answers) && i < j < |calls| && calls[i].Reserve? && answers[i] == New
    requires calls[j].Reserve? && calls[j].id == calls[i].id && NotForgotten(calls, answers, calls[i].id, i + 1, j)
    requires ValidDigest(calls[j].requestDigest)
    ensures answers[j] == if calls[j].requestDigest == calls[i].requestDigest then Existing else Refused(IdempotencyConflict)
  {
    var id := calls[i].id;
    assert (answers[i], run[i + 1]) == Apply(run[i], calls[i]);
    assert (answers[j], run[j + 1]) == Apply(run[j], calls[j]);
    hide ValidDigest, ValidIdentifier;
    RequestKept(run, calls, answers, id, i + 1, j);
    ReserveKnown(run[j], id, calls[j].requestDigest, calls[j].bytes);
  }

  // Over every history: of all cancellations of an operation until it is acknowledged, at most one is told it is first.
  lemma CancelledFirstOnce(run: seq<Registry>, calls: seq<Call>, answers: seq<Answer>, i: nat, j: nat)
    requires IsRun(run, calls, answers) && i < j < |calls| && calls[i].RequestCancel? && answers[i] == Cancelling(true)
    requires calls[j].RequestCancel? && calls[j].id == calls[i].id && NotForgotten(calls, answers, calls[i].id, i + 1, j)
    ensures answers[j] == Cancelling(false)
  {
    var id := calls[i].id;
    assert (answers[i], run[i + 1]) == Apply(run[i], calls[i]);
    assert (answers[j], run[j + 1]) == Apply(run[j], calls[j]);
    RequestKept(run, calls, answers, id, i + 1, j);
  }
}
