/** What every call of the file-effect store answers and records, by the record it meets, and where over whole runs
    the permission to start an effect comes from (crates/hand-guest/src/file_effects.rs:194-317). */
module EffectAnswers {
  import opened Wrappers
  import opened RecordCodec
  import opened CrashLog
  import opened FileEffects
  import opened FileEffectSafety
  import opened FileEffectRuns
  import opened FileEffectDurability

  /** The writer can be taken: no write is uncertain, or it can be forced durable now. */
  predicate Ready(s: State, io: CallIo) {
    !s.store.dirty || io.flush
  }

  /** The call recorded nothing: records, counters and readable bytes are as before, and no write is uncertain any more. */
  predicate RecordsNothing(s: State, t: State) {
    && t.store == Store(s.store.index, s.store.bytes, s.store.reservedBytes, false) && t.disk.current == s.disk.current
    && t.disk.synced == (if s.store.dirty then s.disk.current else s.disk.synced)
  }

  /** The operation is known, under this identity or another. */
  predicate Known(s: State, op: Text) {
    op in s.store.index
  }

  // ---- Refusals before the record is looked at ----

  lemma InvalidIsRefused(s: State, limits: Limits, id: Identity, result: Stored, io: CallIo)
    ensures !ValidIdentity(id) ==> Reserve(s, limits, id, io) == (Err(Invalid), s) && Claim(s, id, io) == (Err(Invalid), s)
    ensures !ValidIdentity(id) || !ValidResult(id, result) ==> CompleteEffect(s, limits, id, result, io) == (Err(Invalid), s)
    ensures ValidIdentity(id) && !Ready(s, io) ==> Reserve(s, limits, id, io) == (Err(Io), s) && Claim(s, id, io) == (Err(Io), s)
    ensures ValidIdentity(id) && ValidResult(id, result) && !Ready(s, io) ==>
              CompleteEffect(s, limits, id, result, io) == (Err(Io), s)
  {
    hide ValidIdentity, ValidResult, EncodeEvent, Append, Finish;
  }

  // ---- By the record ----

  // A known operation belongs to one identity: every other one is a conflict, completed or not, and changes nothing.
  lemma ForeignIdentityConflicts(s: State, limits: Limits, id: Identity, result: Stored, io: CallIo)
    requires ValidIdentity(id) && Ready(s, io) && Known(s, id.operationId) && s.store.index[id.operationId].identity != id
    ensures Reserve(s, limits, id, io).0 == Err(Conflict) && RecordsNothing(s, Reserve(s, limits, id, io).1)
    ensures Claim(s, id, io).0 == Err(Conflict) && RecordsNothing(s, Claim(s, id, io).1)
    ensures ValidResult(id, result) ==>
              && CompleteEffect(s, limits, id, result, io).0 == Err(Conflict)
              && RecordsNothing(s, CompleteEffect(s, limits, id, result, io).1)
  {
    hide ValidIdentity, ValidResult, EncodeEvent, Append, Finish;
  }

  // A completed effect answers its result, marked as replayed, to its own identity, and takes no other result.
  lemma CompletedAnswers(s: State, limits: Limits, id: Identity, result: Stored, io: CallIo)
    requires ValidIdentity(id) && Ready(s, io) && Known(s, id.operationId)
    requires s.store.index[id.operationId].identity == id && s.store.index[id.operationId].result.Some?
    ensures var stored := s.store.index[id.operationId].result.value;
            var replayed := Stored(stored.copy, stored.operationId, stored.requestDigest, stored.body, true);
            && Reserve(s, limits, id, io).0 == Ok(Replay(replayed)) && RecordsNothing(s, Reserve(s, limits, id, io).1)
            && Claim(s, id, io).0 == Ok(Replay(replayed)) && RecordsNothing(s, Claim(s, id, io).1)
            && (ValidResult(id, result) ==>
                  && CompleteEffect(s, limits, id, result, io).0 == (if stored == result then Ok(replayed) else Err(Conflict))
                  && RecordsNothing(s, CompleteEffect(s, limits, id, result, io).1))
  {
    hide ValidIdentity, ValidResult, EncodeEvent, Append, Finish;
  }

  // A reserved effect may be claimed, once; until then a completion has no claim to rest on.
  lemma ReservedAnswers(s: State, limits: Limits, id: Identity, result: Stored, io: CallIo)
    requires ValidIdentity(id) && Ready(s, io) && Known(s, id.operationId) && s.store.index[id.operationId] == Record(id, None, true)
    ensures Reserve(s, limits, id, io).0 == Ok(New) && RecordsNothing(s, Reserve(s, limits, id, io).1)
    ensures Claim(s, id, io).0 == Ok(New)
    ensures Claim(s, id, io).1.store.index == s.store.index[id.operationId := Record(id, None, false)]
    ensures Claim(s, id, io).1.disk.current == s.disk.current
    ensures ValidResult(id, result) ==>
              && CompleteEffect(s, limits, id, result, io).0 == Err(Invalid)
              && RecordsNothing(s, CompleteEffect(s, limits, id, result, io).1)
  {
    hide ValidIdentity, ValidResult, EncodeEvent, Append, Finish;
  }

  // A claimed effect without a result is ambiguous to everybody but its completion.
  lemma ClaimedAnswers(s: State, limits: Limits, id: Identity, io: CallIo)
    requires ValidIdentity(id) && Ready(s, io) && Known(s, id.operationId) && s.store.index[id.operationId] == Record(id, None, false)
    ensures Reserve(s, limits, id, io).0 == Err(Ambiguous) && RecordsNothing(s, Reserve(s, limits, id, io).1)
    ensures Claim(s, id, io).0 == Err(Ambiguous) && RecordsNothing(s, Claim(s, id, io).1)
  {
    hide ValidIdentity, EncodeEvent, Append, Finish;
  }

  // An operation that was never reserved can be neither claimed nor completed.
  lemma UnknownAnswers(s: State, limits: Limits, id: Identity, result: Stored, io: CallIo)
    requires ValidIdentity(id) && Ready(s, io) && !Known(s, id.operationId)
    ensures Claim(s, id, io).0 == Err(Ambiguous) && RecordsNothing(s, Claim(s, id, io).1)
    ensures ValidResult(id, result) ==>
              && CompleteEffect(s, limits, id, result, io).0 == Err(Ambiguous)
              && RecordsNothing(s, CompleteEffect(s, limits, id, result, io).1)
  {
    hide ValidIdentity, ValidResult, EncodeEvent, Append, Finish;
  }

  // ---- The two calls that write ----

  /** The system calls of one append and its sync all succeed. */
  predicate Smooth(io: CallIo) {
    io.seek && io.failedWrite.None? && io.sync
  }

  /** The store after a record reached the file and was forced durable. */
  predicate Recorded(s: State, t: State, op: Text, r: Record, line: Text) {
    && t.store.index == s.store.index[op := r] && t.store.bytes == s.store.bytes + |line| + 1 && !t.store.dirty
    && t.disk.current == Write(s.disk, s.store.bytes, line + [NEWLINE]).current && t.disk.synced == t.disk.current
  }

  /** The room a new intent needs: one more record, its line, and the result it will owe. */
  predicate IntentFitsIn(s: State, limits: Limits, id: Identity) {
    && |s.store.index| < limits.effects
    && s.store.bytes + s.store.reservedBytes + |EncodeEvent(Intent(id))| + 1 + RESULT_RESERVATION_BYTES <= limits.bytes
  }

  // A fresh operation is refused for capacity exactly when its intent does not fit, answers New exactly when the
  // intent is durable, and is claimable from then on.
  lemma FreshReserveAnswers(s: State, limits: Limits, id: Identity, io: CallIo)
    requires ValidIdentity(id) && Ready(s, io) && !Known(s, id.operationId)
    ensures var (answer, t) := Reserve(s, limits, id, io);
            if !IntentFitsIn(s, limits, id) then answer == Err(Capacity) && RecordsNothing(s, t)
            else if !Smooth(io) then
              && answer == Err(Io)
              && t.store.index == (if io.seek && io.failedWrite.None? then s.store.index[id.operationId := Record(id, None, true)]
                                   else s.store.index)
            else
              && answer == Ok(New) && t.store.reservedBytes == s.store.reservedBytes + RESULT_RESERVATION_BYTES
              && Recorded(s, t, id.operationId, Record(id, None, true), EncodeEvent(Intent(id)))
  {
    hide ValidIdentity, EncodeEvent, Torn, SetLen;
  }

  // A claimed effect takes one result: it is refused for capacity exactly when its record is larger than what was set
  // aside for it, and answered exactly when the record is durable.
  lemma FreshCompleteAnswers(s: State, limits: Limits, id: Identity, result: Stored, io: CallIo)
    requires ValidIdentity(id) && ValidResult(id, result) && Ready(s, io)
    requires Known(s, id.operationId) && s.store.index[id.operationId] == Record(id, None, false)
    ensures var (answer, t) := CompleteEffect(s, limits, id, result, io);
            var size := |EncodeEvent(Complete(id, result))| + 1;
            if size > RESULT_RESERVATION_BYTES then answer == Err(Capacity) && RecordsNothing(s, t)
            else if s.store.reservedBytes < RESULT_RESERVATION_BYTES then answer == Err(Corrupt) && RecordsNothing(s, t)
            else if s.store.bytes + size + s.store.reservedBytes - RESULT_RESERVATION_BYTES > limits.bytes then
              answer == Err(Capacity) && RecordsNothing(s, t)
            else if !Smooth(io) then
              && answer == Err(Io)
              && t.store.index == (if io.seek && io.failedWrite.None? then s.store.index[id.operationId := Record(id, Some(result), false)]
                                   else s.store.index)
            else
              && answer == Ok(result) && t.store.reservedBytes == s.store.reservedBytes - RESULT_RESERVATION_BYTES
              && Recorded(s, t, id.operationId, Record(id, Some(result), false), EncodeEvent(Complete(id, result)))
  {
    hide ValidIdentity, ValidResult, EncodeEvent, Torn, SetLen;
  }

  // A write that failed half-way leaves none of its bytes behind when its cleanup succeeds, and the store as it was.
  lemma FailedWriteIsUndone(s: State, data: Text, limits: Limits, io: CallIo)
    requires io.seek && io.failedWrite.Some? && s.store.bytes <= |s.disk.current|
    ensures var (refusal, t) := Append(s, data, limits, io);
            if s.store.bytes + |data| + s.store.reservedBytes > limits.bytes then refusal == Some(Capacity) && t == s
            else
              && refusal == Some(Io) && t.store == s.store && t.disk.synced == s.disk.synced
              && (io.cleanup ==> t.disk.current == s.disk.current[..s.store.bytes])
              && t.disk.current[..s.store.bytes] == s.disk.current[..s.store.bytes]
  {
  }

  // ---- Over runs ----

  predicate Claimable(w: World, op: Text) {
    w.store.Some? && op in w.store.value.index && w.store.value.index[op].claimAvailable
  }

  /** The call reserves exactly this identity; a sync that failed at its end is made up for by the next call. */
  predicate Reserves(act: Act, answer: Answer, id: Identity) {
    act.CallReserve? && act.id == id && answer in {Reserved(Ok(New)), Reserved(Err(Io))}
  }

  // A claim appears only in a reservation of the same identity by the running process.
  lemma ClaimableComesFrom(w: World, act: Act, limits: Limits, op: Text)
    requires Inv(w, limits) && Claimable(Step(w, act, limits).1, op)
    ensures !act.OpenLog? && w.store.Some?
    ensures var id := Step(w, act, limits).1.store.value.index[op].identity;
            || Reserves(act, Step(w, act, limits).0, id)
            || (Claimable(w, op) && w.store.value.index[op].identity == id)
  {
    hide Inv, Open, AfterCrash, Reserve, Claim, CompleteEffect;
    match act
    case OpenLog(io) => FreshStoreHasNoClaims(w, limits, io);
    case Crash(_) =>
    case CallReserve(id, io) => if w.store.Some? { ReserveEnters(State(w.disk, w.store.value), limits, id, io); }
    case CallClaim(id, io) => if w.store.Some? { ClaimEnters(State(w.disk, w.store.value), id, io); }
    case CallComplete(id, result, io) =>
      if w.store.Some? { CompleteEnters(State(w.disk, w.store.value), limits, id, result, io); }
  }

  // What each call may do to the records.
  lemma ReserveEnters(s: State, limits: Limits, id: Identity, io: CallIo)
    ensures var (answer, t) := Reserve(s, limits, id, io);
            || t.store.index == s.store.index
            || (t.store.index == s.store.index[id.operationId := Record(id, None, true)] && answer in {Ok(New), Err(Io)})
  {
    hide ValidIdentity, EncodeEvent, Torn, SetLen, Write, Sync;
  }

  lemma ClaimEnters(s: State, id: Identity, io: CallIo)
    ensures var index := Claim(s, id, io).1.store.index;
            index == s.store.index || index == s.store.index[id.operationId := Record(id, None, false)]
  {
    hide ValidIdentity, Sync;
  }

  lemma CompleteEnters(s: State, limits: Limits, id: Identity, result: Stored, io: CallIo)
    ensures var (answer, t) := CompleteEffect(s, limits, id, result, io);
            || t.store.index == s.store.index
            || (t.store.index == s.store.index[id.operationId := Record(id, Some(result), false)] && answer in {Ok(result), Err(Io)})
  {
    hide ValidIdentity, ValidResult, EncodeEvent, Torn, SetLen, Write, Sync;
  }

  lemma {:induction false} ClaimableWasReserved(run: seq<World>, acts: seq<Act>, answers: seq<Answer>, limits: Limits, op: Text, i: nat)
    returns (m: nat, k: nat)
    requires IsRun(run, acts, answers, limits) && i < |run| && Claimable(run[i], op)
    ensures k < m < i && LastOpen(acts, k, i) && Reserves(acts[m], answers[m], run[i].store.value.index[op].identity)
    decreases i
  {
    hide Inv, Step, Claimable, Reserves;
    RunInv(run, acts, answers, limits, i);
    if i == 0 {
      NothingClaimable(op);
      assert false;
    }
    RunInv(run, acts, answers, limits, i - 1);
    assert (answers[i - 1], run[i]) == Step(run[i - 1], acts[i - 1], limits);
    ClaimableComesFrom(run[i - 1], acts[i - 1], limits, op);
    ClaimableIsOpen(run[i], op);
    if Reserves(acts[i - 1], answers[i - 1], run[i].store.value.index[op].identity) {
      m := i - 1;
      k := OpenStoreWasOpened(run, acts, answers, limits, i - 1);
    } else {
      m, k := ClaimableWasReserved(run, acts, answers, limits, op, i - 1);
    }
  }

  lemma NothingClaimable(op: Text)
    ensures !Claimable(World(Disk([], []), None), op)
  {
  }

  lemma ClaimableIsOpen(w: World, op: Text)
    requires Claimable(w, op)
    ensures w.store.Some? && op in w.store.value.index
  {
  }

  // Over every run: an effect that may start was reserved, under exactly its identity, by the process that starts it,
  // and its intent is durable under that identity before it starts.
  lemma ClaimedWasReserved(run: seq<World>, acts: seq<Act>, answers: seq<Answer>, limits: Limits, i: nat)
    returns (m: nat, k: nat)
    requires IsRun(run, acts, answers, limits) && i < |acts| && acts[i].CallClaim? && answers[i] == Claimed(Ok(New))
    ensures k < m < i && LastOpen(acts, k, i) && Reserves(acts[m], answers[m], acts[i].id)
    ensures var durable := ReplayLog(Logged(run[i + 1].disk.synced));
            && durable.Ok? && acts[i].id.operationId in durable.value && durable.value[acts[i].id.operationId].identity == acts[i].id
  {
    hide Inv, Step, LastOpen, Reserves, ReplayLog;
    var id, io := acts[i].id, acts[i].io;
    assert acts[i] == CallClaim(id, io);
    RunInv(run, acts, answers, limits, i);
    RunInv(run, acts, answers, limits, i + 1);
    assert (answers[i], run[i + 1]) == Step(run[i], acts[i], limits);
    NewWasClaimable(run[i], limits, id, io);
    m, k := ClaimableWasReserved(run, acts, answers, limits, id.operationId, i);
    ClaimFires(run[i], limits, id, io);
    LogsReplay(run[i + 1], limits);
  }

  lemma NewWasClaimable(w: World, limits: Limits, id: Identity, io: CallIo)
    requires Step(w, CallClaim(id, io), limits).0 == Claimed(Ok(New))
    ensures Claimable(w, id.operationId) && w.store.value.index[id.operationId].identity == id
    ensures var w' := Step(w, CallClaim(id, io), limits).1;
            w'.store.Some? && id.operationId in w'.store.value.index && w'.store.value.index[id.operationId].identity == id
  {
    hide ValidIdentity;
  }

  // ---- Where results come from ----

  /** The call completes exactly this effect with this result; after a failed sync its record may still survive. */
  predicate Finishes(act: Act, answer: Answer, id: Identity, result: Stored) {
    act.CallComplete? && act.id == id && act.result == result && answer in {Completed(Ok(result)), Completed(Err(Io))}
  }

  /** The file holds the completion of this effect. */
  predicate HoldsResult(w: World, id: Identity, result: Stored) {
    CompletedIn(Logged(w.disk.current), id, result)
  }

  lemma HeldIsIndexed(w: World, limits: Limits, id: Identity, result: Stored)
    requires Inv(w, limits) && w.store.Some?
    ensures HoldsResult(w, id, result) <==>
              && id.operationId in w.store.value.index && w.store.value.index[id.operationId].identity == id
              && w.store.value.index[id.operationId].result == Some(result)
  {
    hide Inv, ReplayLog;
    LogsReplay(w, limits);
  }

  // A result appears only in a call that completes with it.
  lemma ResultComesFrom(w: World, act: Act, limits: Limits, id: Identity, result: Stored)
    requires Inv(w, limits) && HoldsResult(Step(w, act, limits).1, id, result)
    ensures HoldsResult(w, id, result) || Finishes(act, Step(w, act, limits).0, id, result)
  {
    var w' := Step(w, act, limits).1;
    hide Inv, Open, AfterCrash, Reserve, Claim, CompleteEffect, ReplayLog, Moves, CleanWorld;
    assert Inv(w', limits) by { StepKeepsInv(w, act, limits); }
    if IsCall(act) && w.store.Some? {
      HeldIsIndexed(w, limits, id, result);
      HeldIsIndexed(w', limits, id, result);
      var s := State(w.disk, w.store.value);
      match act
      case CallReserve(other, io) => ReserveEnters(s, limits, other, io);
      case CallClaim(other, io) => ClaimEnters(s, other, io);
      case CallComplete(other, given, io) => CompleteEnters(s, limits, other, given, io);
    } else if act.OpenLog? {
      OpenMoves(w, limits, act.openIo);
    } else if act.Crash? {
      CrashMoves(w, limits, if act.kept <= |w.disk.current| then act.kept else |w.disk.current|);
      LogsReplay(w, limits);
      LogGrows(Logged(w'.disk.current), Logged(w.disk.current));
    }
  }

  lemma StepKeepsInv(w: World, act: Act, limits: Limits)
    requires Inv(w, limits)
    ensures Inv(Step(w, act, limits).1, limits)
  {
    hide Inv, Step;
    StepMoves(w, act, limits);
  }

  // Over every run, through restarts and crashes: whatever result the log holds, some call completed with it.
  lemma {:induction false} NoResultIsInvented(run: seq<World>, acts: seq<Act>, answers: seq<Answer>, limits: Limits,
                                              id: Identity, result: Stored, i: nat) returns (m: nat)
    requires IsRun(run, acts, answers, limits) && i < |run| && HoldsResult(run[i], id, result)
    ensures m < i && Finishes(acts[m], answers[m], id, result)
    decreases i
  {
    hide Inv, Step, HoldsResult, Finishes;
    if i == 0 {
      NothingHeld(id, result);
      assert false;
    }
    RunInv(run, acts, answers, limits, i - 1);
    assert (answers[i - 1], run[i]) == Step(run[i - 1], acts[i - 1], limits);
    ResultComesFrom(run[i - 1], acts[i - 1], limits, id, result);
    if Finishes(acts[i - 1], answers[i - 1], id, result) {
      m := i - 1;
    } else {
      m := NoResultIsInvented(run, acts, answers, limits, id, result, i - 1);
    }
  }

  lemma NothingHeld(id: Identity, result: Stored)
    ensures !HoldsResult(World(Disk([], []), None), id, result)
  {
    assert Logged([]) == [];
  }

  // Over every run: a replayed result is one that an earlier completion of the same identity gave.
  lemma ReplayedWasCompleted(run: seq<World>, acts: seq<Act>, answers: seq<Answer>, limits: Limits, i: nat, replayed: Stored)
    returns (m: nat)
    requires IsRun(run, acts, answers, limits) && i < |acts| && (acts[i].CallReserve? || acts[i].CallClaim?)
    requires answers[i] in {Reserved(Ok(Replay(replayed))), Claimed(Ok(Replay(replayed)))}
    ensures m < i && acts[m].CallComplete? && acts[m].id == acts[i].id && acts[m].result.(replayed := true) == replayed
  {
    var w, id := run[i], acts[i].id;
    assert (answers[i], run[i + 1]) == Step(w, acts[i], limits);
    RunInv(run, acts, answers, limits, i);
    ReplayIsStored(w, acts[i], limits, replayed);
    var result := w.store.value.index[id.operationId].result.value;
    hide Inv, Step, HoldsResult;
    HeldIsIndexed(w, limits, id, result);
    m := NoResultIsInvented(run, acts, answers, limits, id, result, i);
  }

  lemma ReplayIsStored(w: World, act: Act, limits: Limits, replayed: Stored)
    requires act.CallReserve? || act.CallClaim?
    requires Step(w, act, limits).0 in {Reserved(Ok(Replay(replayed))), Claimed(Ok(Replay(replayed)))}
    ensures w.store.Some? && act.id.operationId in w.store.value.index
    ensures var r := w.store.value.index[act.id.operationId];
            r.identity == act.id && r.result.Some? && r.result.value.(replayed := true) == replayed
  {
    hide ValidIdentity, EncodeEvent, Torn, SetLen, Write, Open, AfterCrash;
  }
}
