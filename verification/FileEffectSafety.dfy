/** What the file-effect store keeps through every sequence of calls, failed system calls, restarts and crashes. */
module FileEffectSafety {
  import opened Wrappers
  import opened RecordCodec
  import opened CrashLog
  import opened FileEffects

  // ---- Logs that always fit ----

  /** The log replays, within both limits, with room for every result it still owes. */
  predicate Fits(lines: seq<Text>, limits: Limits) {
    && ReplayLog(lines).Ok?
    && |ReplayLog(lines).value| <= limits.effects
    && |Join(lines)| + ReservedFor(ReplayLog(lines).value) <= limits.bytes
  }

  /** So does every log a crash may leave of it. */
  predicate AlwaysFits(lines: seq<Text>, limits: Limits) {
    forall m :: 0 <= m <= |lines| ==> Fits(lines[..m], limits)
  }

  lemma StillFits(lines: seq<Text>, line: Text, limits: Limits)
    requires AlwaysFits(lines, limits) && Fits(lines + [line], limits)
    ensures AlwaysFits(lines + [line], limits)
  {
    hide Fits;
    forall m | 0 <= m <= |lines + [line]| ensures Fits((lines + [line])[..m], limits) {
      if m <= |lines| { assert (lines + [line])[..m] == lines[..m]; } else { assert (lines + [line])[..m] == lines + [line]; }
    }
  }

  lemma PrefixAlwaysFits(lines: seq<Text>, k: nat, limits: Limits)
    requires AlwaysFits(lines, limits) && k <= |lines|
    ensures AlwaysFits(lines[..k], limits)
  {
    hide Fits;
    forall m | 0 <= m <= k ensures Fits(lines[..k][..m], limits) { assert lines[..k][..m] == lines[..m]; }
  }

  lemma ReplayExtends(lines: seq<Text>, e: Event)
    requires ReplayLog(lines).Ok?
    ensures ReplayLog(lines + [EncodeEvent(e)]) == ApplyEvent(ReplayLog(lines).value, e)
  {
    hide EncodeEvent, ApplyEvent;
    EventRoundTrip(e);
    assert (lines + [EncodeEvent(e)])[..|lines|] == lines;
  }

  // ---- The store against its log ----

  /** Same operations, identities and results; claims are not in the log. */
  predicate SameRecords(a: Index, b: Index) {
    && a.Keys == b.Keys
    && forall op :: op in a ==> op in b && a[op].identity == b[op].identity && a[op].result == b[op].result
  }

  lemma SameRecordsOwe(a: Index, b: Index)
    requires SameRecords(a, b)
    ensures Incomplete(a) == Incomplete(b) && |a| == |b|
  {
    assert |a.Keys| == |a| && |b.Keys| == |b|;
  }

  /** Whatever may still be claimed has a durable intent, unless a write is pending. */
  predicate ClaimsAreDurable(store: Store, durable: seq<Text>) {
    store.dirty || (ReplayLog(durable).Ok? &&
                    forall op :: op in store.index && store.index[op].claimAvailable ==> op in ReplayLog(durable).value)
  }

  predicate IndexMatches(index: Index, lines: seq<Text>) {
    && ReplayLog(lines).Ok? && SameRecords(index, ReplayLog(lines).value)
    && forall op :: op in index && index[op].claimAvailable ==> index[op].result.None?
  }

  predicate StoreOk(store: Store, lines: seq<Text>, durable: nat)
    requires durable <= |lines|
  {
    && IndexMatches(store.index, lines)
    && store.bytes == |Join(lines)|
    && store.reservedBytes == ReservedFor(store.index)
    && ClaimsAreDurable(store, lines[..durable])
  }

  predicate StateOk(s: State, lines: seq<Text>, durable: nat, limits: Limits) {
    && DiskHolds(s.disk, lines, durable, limits.bytes)
    && AlwaysFits(lines, limits)
    && StoreOk(s.store, lines, durable)
  }

  lemma SyncedOk(s: State, lines: seq<Text>, durable: nat, limits: Limits)
    requires StateOk(s, lines, durable, limits)
    ensures StateOk(State(Sync(s.disk), s.store.(dirty := false)), lines, |lines|, limits)
  {
    hide AlwaysFits, Holds, Fits;
    FullIsAll(lines);
  }

  // ---- What a call does to the log ----

  /** Known operations keep identity and result, and a claim that is gone stays gone. */
  predicate Keeps(a: Index, b: Index) {
    forall op :: op in a ==>
      && op in b && b[op].identity == a[op].identity
      && (a[op].result.Some? ==> b[op].result == a[op].result)
      && (b[op].claimAvailable ==> a[op].claimAvailable)
  }

  /** With no write pending, every record of the log is durable. */
  predicate Clean(store: Store, lines: seq<Text>, durable: nat) {
    store.dirty || durable == |lines|
  }

  predicate Advances(s: State, lines: seq<Text>, durable: nat, t: State, lines': seq<Text>, durable': nat, limits: Limits) {
    && StateOk(t, lines', durable', limits)
    && durable <= durable' <= |lines'| && lines <= lines'
    && Keeps(s.store.index, t.store.index)
    && (Clean(s.store, lines, durable) ==> Clean(t.store, lines', durable'))
  }

  lemma AdvancesTwice(s: State, l: seq<Text>, d: nat, t: State, l': seq<Text>, d': nat, u: State, l'': seq<Text>, d'': nat, limits: Limits)
    requires Advances(s, l, d, t, l', d', limits) && Advances(t, l', d', u, l'', d'', limits)
    ensures Advances(s, l, d, u, l'', d'', limits)
  {
    hide StateOk, Clean;
  }

  lemma StaysPut(s: State, lines: seq<Text>, durable: nat, limits: Limits)
    requires StateOk(s, lines, durable, limits)
    ensures Advances(s, lines, durable, s, lines, durable, limits)
  {
    hide AlwaysFits, StoreOk;
  }

  lemma SyncAdvances(s: State, lines: seq<Text>, durable: nat, limits: Limits)
    requires StateOk(s, lines, durable, limits)
    ensures Advances(s, lines, durable, State(Sync(s.disk), s.store.(dirty := false)), lines, |lines|, limits)
  {
    SyncedOk(s, lines, durable, limits);
    hide AlwaysFits, StoreOk;
  }

  function SettledAt(s: State, lines: seq<Text>, durable: nat): nat {
    if s.store.dirty then |lines| else durable
  }

  lemma SettleAdvances(s: State, lines: seq<Text>, durable: nat, limits: Limits, io: CallIo)
    requires StateOk(s, lines, durable, limits) && Settle(s, io).Ok?
    ensures Advances(s, lines, durable, Settle(s, io).value, lines, SettledAt(s, lines, durable), limits)
    ensures !Settle(s, io).value.store.dirty && Settle(s, io).value.store.index == s.store.index
  {
    hide StateOk, Advances;
    if s.store.dirty { SyncAdvances(s, lines, durable, limits); } else { StaysPut(s, lines, durable, limits); }
  }

  /** A refused append leaves the log, the store and the durable part alone. */
  lemma RefusedAppendAdvances(s: State, lines: seq<Text>, durable: nat, limits: Limits, line: Text, reserved: nat, io: CallIo)
    requires StateOk(s, lines, durable, limits) && GoodLine(line)
    requires Append(s.(store := s.store.(reservedBytes := reserved)), line + [NEWLINE], limits, io).0.Some?
    ensures var t := Append(s.(store := s.store.(reservedBytes := reserved)), line + [NEWLINE], limits, io).1;
            Advances(s, lines, durable, t.(store := s.store), lines, durable, limits)
  {
    hide AlwaysFits, StoreOk, DiskHolds, Write, SetLen, Torn;
    StaysPut(s, lines, durable, limits);
    var fake := s.(store := s.store.(reservedBytes := reserved));
    if s.store.bytes + |line| + 1 + reserved <= limits.bytes && io.seek {
      BytesOf(s, lines, durable, limits);
      TornHolds(s.disk, lines, durable, limits.bytes, line, io.failedWrite.value, io.cleanup);
    }
  }

  lemma BytesOf(s: State, lines: seq<Text>, durable: nat, limits: Limits)
    requires StateOk(s, lines, durable, limits)
    ensures s.store.bytes == |Join(lines)| && s.store.reservedBytes == ReservedFor(s.store.index)
    ensures IndexMatches(s.store.index, lines) && Fits(lines, limits)
    ensures s.store.bytes + s.store.reservedBytes <= limits.bytes
  {
    FullIsAll(lines);
    assert Fits(lines[..|lines|], limits);
    SameRecordsOwe(s.store.index, ReplayLog(lines).value);
  }

  // ---- Reserve ----

  lemma OwesAlso(index: Index, op: Text, r: Record)
    requires op !in index && r.result.None?
    ensures |Incomplete(index[op := r])| == |Incomplete(index)| + 1
  {
    assert op !in Incomplete(index);
    assert Incomplete(index[op := r]) == Incomplete(index) + {op};
  }

  lemma OneMore(index: Index, op: Text, r: Record)
    requires op !in index
    ensures |index[op := r]| == |index| + 1
  {
  }

  lemma OweOneMore(index: Index, op: Text, r: Record)
    requires op !in index && r.result.None?
    ensures |index[op := r]| == |index| + 1
    ensures ReservedFor(index[op := r]) == ReservedFor(index) + RESULT_RESERVATION_BYTES
  {
    OneMore(index, op, r);
    OwesAlso(index, op, r);
    hide Incomplete;
  }

  lemma SameRecordsUpdated(a: Index, b: Index, op: Text, ra: Record, rb: Record)
    requires SameRecords(a, b) && ra.identity == rb.identity && ra.result == rb.result
    ensures SameRecords(a[op := ra], b[op := rb])
  {
  }

  lemma IntentFits(lines: seq<Text>, limits: Limits, index: Index, id: Identity)
    requires Fits(lines, limits) && SameRecords(index, ReplayLog(lines).value) && ValidIdentity(id) && id.operationId !in index
    requires |index| < limits.effects
    requires |Join(lines)| + ReservedFor(index) + |EncodeEvent(Intent(id))| + 1 + RESULT_RESERVATION_BYTES <= limits.bytes
    ensures Fits(lines + [EncodeEvent(Intent(id))], limits) && ReplayLog(lines + [EncodeEvent(Intent(id))]).Ok?
    ensures SameRecords(index[id.operationId := Record(id, None, true)], ReplayLog(lines + [EncodeEvent(Intent(id))]).value)
  {
    hide EncodeEvent, ValidIdentity, ReplayLog, Join, ReservedFor, SameRecords;
    ReplayExtends(lines, Intent(id));
    JoinExtends(lines, EncodeEvent(Intent(id)));
    var logged := ReplayLog(lines).value;
    assert id.operationId !in logged && |logged| == |index| && ReservedFor(logged) == ReservedFor(index) by {
      SameOperations(index, logged);
    }
    OweOneMore(logged, id.operationId, Record(id, None, false));
    SameRecordsUpdated(index, logged, id.operationId, Record(id, None, true), Record(id, None, false));
  }

  lemma SameOperations(a: Index, b: Index)
    requires SameRecords(a, b)
    ensures a.Keys == b.Keys && |a| == |b| && ReservedFor(a) == ReservedFor(b)
  {
    SameRecordsOwe(a, b);
  }

  /** After a record was written and its operation entered in the index. */
  lemma WrittenAdvances(s: State, lines: seq<Text>, durable: nat, limits: Limits, line: Text, t: State)
    requires StateOk(s, lines, durable, limits) && GoodLine(line)
    requires t.disk == Write(s.disk, |Join(lines)|, line + [NEWLINE])
    requires Fits(lines + [line], limits) && IndexMatches(t.store.index, lines + [line])
    requires Keeps(s.store.index, t.store.index)
    requires t.store.bytes == |Join(lines)| + |line| + 1 && t.store.reservedBytes == ReservedFor(t.store.index) && t.store.dirty
    ensures Advances(s, lines, durable, t, lines + [line], durable, limits)
  {
    hide Keeps, IndexMatches, ReservedFor, Write;
    JoinExtends(lines, line);
    WrittenHolds(s.disk, lines, durable, limits.bytes, line);
    StillFits(lines, line, limits);
    hide AlwaysFits, Fits, DiskHolds;
  }

  lemma FinishAdvances<T>(s: State, lines: seq<Text>, durable: nat, limits: Limits, answer: T, io: CallIo)
    requires StateOk(s, lines, durable, limits)
    ensures Advances(s, lines, durable, Finish(s, answer, io).1, lines, if io.sync then |lines| else durable, limits)
    ensures Finish(s, answer, io).0 == (if io.sync then Ok(answer) else Err(Io))
    ensures Finish(s, answer, io).1.store.index == s.store.index
  {
    hide StateOk, Advances;
    if io.sync { SyncAdvances(s, lines, durable, limits); } else { StaysPut(s, lines, durable, limits); }
  }

  lemma ReserveAdvances(before: State, lines: seq<Text>, durable: nat, limits: Limits, id: Identity, io: CallIo)
    returns (lines': seq<Text>, durable': nat)
    requires StateOk(before, lines, durable, limits)
    ensures Advances(before, lines, durable, Reserve(before, limits, id, io).1, lines', durable', limits)
    ensures Reserve(before, limits, id, io).0 != Err(Corrupt)
  {
    hide StateOk, Advances, ValidIdentity, EncodeEvent, Append, Finish, Settle;
    StaysPut(before, lines, durable, limits);
    lines', durable' := lines, durable;
    if ValidIdentity(id) && Settle(before, io).Ok? {
      SettleAdvances(before, lines, durable, limits, io);
      var s := Settle(before, io).value;
      durable' := SettledAt(before, lines, durable);
      if id.operationId !in s.store.index && |s.store.index| < limits.effects {
        var line := EncodeEvent(Intent(id));
        if s.store.bytes + s.store.reservedBytes + |line| + 1 + RESULT_RESERVATION_BYTES <= limits.bytes {
          AdvancedOk(before, lines, durable, s, lines, durable', limits);
          lines', durable' := IntentAdvances(s, lines, durable', limits, id, io);
          AdvancesTwice(before, lines, durable, s, lines, SettledAt(before, lines, durable),
                        Reserve(before, limits, id, io).1, lines', durable', limits);
        }
      }
    }
  }

  lemma AdvancedOk(s: State, lines: seq<Text>, durable: nat, t: State, lines': seq<Text>, durable': nat, limits: Limits)
    requires Advances(s, lines, durable, t, lines', durable', limits)
    ensures StateOk(t, lines', durable', limits)
  {
  }

  function IntentStep(s: State, limits: Limits, id: Identity, io: CallIo): (Result<Reservation, Refusal>, State) {
    var (refused, t) := Append(s, EncodeEvent(Intent(id)) + [NEWLINE], limits, io);
    if refused.Some? then (Err(refused.value), t)
    else
      Finish(t.(store := t.store.(reservedBytes := t.store.reservedBytes + RESULT_RESERVATION_BYTES,
                                  index := s.store.index[id.operationId := Record(id, None, true)])),
             New, io)
  }

  lemma IntentAdvances(s: State, lines: seq<Text>, durable: nat, limits: Limits, id: Identity, io: CallIo)
    returns (lines': seq<Text>, durable': nat)
    requires StateOk(s, lines, durable, limits) && ValidIdentity(id) && id.operationId !in s.store.index && |s.store.index| < limits.effects
    requires s.store.bytes + s.store.reservedBytes + |EncodeEvent(Intent(id))| + 1 + RESULT_RESERVATION_BYTES <= limits.bytes
    ensures Advances(s, lines, durable, IntentStep(s, limits, id, io).1, lines', durable', limits)
    ensures IntentStep(s, limits, id, io).0 != Err(Corrupt)
  {
    hide StateOk, Advances, ValidIdentity, EncodeEvent, IndexMatches, Fits, ReservedFor;
    var line := EncodeEvent(Intent(id));
    EventRoundTrip(Intent(id));
    BytesOf(s, lines, durable, limits);
    var (refused, t) := Append(s, line + [NEWLINE], limits, io);
    if refused.Some? {
      assert s.store == s.store.(reservedBytes := s.store.reservedBytes);
      RefusedAppendAdvances(s, lines, durable, limits, line, s.store.reservedBytes, io);
      lines', durable' := lines, durable;
    } else {
      var u := t.(store := t.store.(reservedBytes := t.store.reservedBytes + RESULT_RESERVATION_BYTES,
                                    index := s.store.index[id.operationId := Record(id, None, true)]));
      IntentMatches(s, lines, limits, id);
      WrittenAdvances(s, lines, durable, limits, line, u);
      AdvancedOk(s, lines, durable, u, lines + [line], durable, limits);
      FinishAdvances(u, lines + [line], durable, limits, New, io);
      lines', durable' := lines + [line], if io.sync then |lines + [line]| else durable;
      AdvancesTwice(s, lines, durable, u, lines + [line], durable, Finish(u, New, io).1, lines', durable', limits);
    }
  }

  lemma IntentMatches(s: State, lines: seq<Text>, limits: Limits, id: Identity)
    requires IndexMatches(s.store.index, lines) && Fits(lines, limits) && ValidIdentity(id) && id.operationId !in s.store.index
    requires |s.store.index| < limits.effects
    requires |Join(lines)| + ReservedFor(s.store.index) + |EncodeEvent(Intent(id))| + 1 + RESULT_RESERVATION_BYTES <= limits.bytes
    ensures var after := s.store.index[id.operationId := Record(id, None, true)];
            && Fits(lines + [EncodeEvent(Intent(id))], limits) && IndexMatches(after, lines + [EncodeEvent(Intent(id))])
            && Keeps(s.store.index, after) && ReservedFor(after) == ReservedFor(s.store.index) + RESULT_RESERVATION_BYTES
  {
    hide ReservedFor, ReplayLog, EncodeEvent, Fits, SameRecords, ValidIdentity;
    IntentFits(lines, limits, s.store.index, id);
    OweOneMore(s.store.index, id.operationId, Record(id, None, true));
  }

  // ---- Claim ----

  lemma ClaimedMatches(index: Index, lines: seq<Text>, op: Text)
    requires IndexMatches(index, lines) && op in index
    ensures var after := index[op := index[op].(claimAvailable := false)];
            IndexMatches(after, lines) && Keeps(index, after) && ReservedFor(after) == ReservedFor(index)
  {
    hide ReplayLog;
    var after := index[op := index[op].(claimAvailable := false)];
    assert SameRecords(after, ReplayLog(lines).value);
    assert Incomplete(after) == Incomplete(index);
  }

  lemma ClaimAdvances(before: State, lines: seq<Text>, durable: nat, limits: Limits, id: Identity, io: CallIo)
    returns (durable': nat)
    requires StateOk(before, lines, durable, limits)
    ensures Advances(before, lines, durable, Claim(before, id, io).1, lines, durable', limits)
    ensures Claim(before, id, io).0 != Err(Corrupt) && Claim(before, id, io).0 != Err(Capacity)
    ensures Claim(before, id, io).0 == Ok(New) ==>
              && id.operationId in before.store.index && before.store.index[id.operationId].claimAvailable
              && id.operationId in Claim(before, id, io).1.store.index
              && !Claim(before, id, io).1.store.index[id.operationId].claimAvailable
              && ReplayLog(lines[..durable']).Ok? && id.operationId in ReplayLog(lines[..durable']).value
  {
    hide StateOk, Advances, ValidIdentity, Settle, ReplayLog;
    StaysPut(before, lines, durable, limits);
    durable' := durable;
    if ValidIdentity(id) && Settle(before, io).Ok? {
      SettleAdvances(before, lines, durable, limits, io);
      var s := Settle(before, io).value;
      durable' := SettledAt(before, lines, durable);
      if Claim(before, id, io).0 == Ok(New) {
        AdvancedOk(before, lines, durable, s, lines, durable', limits);
        TakenAdvances(s, lines, durable', limits, id.operationId);
        var t := Claim(before, id, io).1;
        AdvancesTwice(before, lines, durable, s, lines, durable', t, lines, durable', limits);
      }
    }
  }

  lemma TakenAdvances(s: State, lines: seq<Text>, durable: nat, limits: Limits, op: Text)
    requires StateOk(s, lines, durable, limits) && !s.store.dirty && op in s.store.index && s.store.index[op].claimAvailable
    ensures Advances(s, lines, durable,
                     s.(store := s.store.(index := s.store.index[op := s.store.index[op].(claimAvailable := false)])),
                     lines, durable, limits)
    ensures durable <= |lines| && ReplayLog(lines[..durable]).Ok? && op in ReplayLog(lines[..durable]).value
  {
    hide AlwaysFits, Holds, IndexMatches, Keeps, ReservedFor, ReplayLog;
    assert IndexMatches(s.store.index, lines);
    ClaimedMatches(s.store.index, lines, op);
  }

  // ---- Complete ----

  lemma OweOneLess(index: Index, op: Text, r: Record)
    requires op in index && index[op].result.None? && r.result.Some?
    ensures |index[op := r]| == |index| && ReservedFor(index[op := r]) == ReservedFor(index) - RESULT_RESERVATION_BYTES
    ensures ReservedFor(index) >= RESULT_RESERVATION_BYTES
  {
    assert Incomplete(index[op := r]) == Incomplete(index) - {op};
    assert op in Incomplete(index);
    assert index[op := r].Keys == index.Keys;
    assert |index[op := r].Keys| == |index[op := r]| && |index.Keys| == |index|;
  }

  lemma CompletionFits(lines: seq<Text>, limits: Limits, index: Index, id: Identity, result: Stored)
    requires Fits(lines, limits) && SameRecords(index, ReplayLog(lines).value) && ValidIdentity(id) && ValidResult(id, result)
    requires id.operationId in index && index[id.operationId].identity == id && index[id.operationId].result.None?
    requires |EncodeEvent(Complete(id, result))| + 1 <= RESULT_RESERVATION_BYTES
    ensures Fits(lines + [EncodeEvent(Complete(id, result))], limits) && ReplayLog(lines + [EncodeEvent(Complete(id, result))]).Ok?
    ensures SameRecords(index[id.operationId := index[id.operationId].(result := Some(result))],
                        ReplayLog(lines + [EncodeEvent(Complete(id, result))]).value)
  {
    hide EncodeEvent, ValidIdentity, ValidResult, ReplayLog, Join, ReservedFor;
    ReplayExtends(lines, Complete(id, result));
    JoinExtends(lines, EncodeEvent(Complete(id, result)));
    var logged, op := ReplayLog(lines).value, id.operationId;
    SameOperations(index, logged);
    assert logged[op].identity == id && logged[op].result.None?;
    hide SameRecords;
    OweOneLess(logged, op, logged[op].(result := Some(result)));
    SameRecordsUpdated(index, logged, op, index[op].(result := Some(result)), logged[op].(result := Some(result)));
  }

  lemma CompletionMatches(s: State, lines: seq<Text>, limits: Limits, id: Identity, result: Stored)
    requires IndexMatches(s.store.index, lines) && Fits(lines, limits) && ValidIdentity(id) && ValidResult(id, result)
    requires id.operationId in s.store.index && s.store.index[id.operationId] == Record(id, None, false)
    requires |EncodeEvent(Complete(id, result))| + 1 <= RESULT_RESERVATION_BYTES
    ensures var after := s.store.index[id.operationId := Record(id, Some(result), false)];
            && Fits(lines + [EncodeEvent(Complete(id, result))], limits) && IndexMatches(after, lines + [EncodeEvent(Complete(id, result))])
            && Keeps(s.store.index, after) && ReservedFor(after) == ReservedFor(s.store.index) - RESULT_RESERVATION_BYTES
            && ReservedFor(s.store.index) >= RESULT_RESERVATION_BYTES
  {
    hide ReservedFor, ReplayLog, EncodeEvent, Fits, SameRecords, ValidIdentity, ValidResult;
    CompletionFits(lines, limits, s.store.index, id, result);
    OweOneLess(s.store.index, id.operationId, Record(id, Some(result), false));
  }

  /** The part of a completion that writes, for a claimed operation without a result. */
  function CompletionStep(s: State, limits: Limits, id: Identity, result: Stored, io: CallIo): (Result<Stored, Refusal>, State)
    requires s.store.reservedBytes >= RESULT_RESERVATION_BYTES
  {
    var lent := s.store.(reservedBytes := s.store.reservedBytes - RESULT_RESERVATION_BYTES);
    var (refused, t) := Append(s.(store := lent), EncodeEvent(Complete(id, result)) + [NEWLINE], limits, io);
    if refused.Some? then (Err(refused.value), t.(store := s.store))
    else Finish(t.(store := t.store.(index := s.store.index[id.operationId := Record(id, Some(result), false)])), result, io)
  }

  lemma CompletionAdvances(s: State, lines: seq<Text>, durable: nat, limits: Limits, id: Identity, result: Stored, io: CallIo)
    returns (lines': seq<Text>, durable': nat)
    requires StateOk(s, lines, durable, limits) && ValidIdentity(id) && ValidResult(id, result)
    requires id.operationId in s.store.index && s.store.index[id.operationId] == Record(id, None, false)
    requires |EncodeEvent(Complete(id, result))| + 1 <= RESULT_RESERVATION_BYTES
    ensures s.store.reservedBytes >= RESULT_RESERVATION_BYTES
    ensures Advances(s, lines, durable, CompletionStep(s, limits, id, result, io).1, lines', durable', limits)
    ensures CompletionStep(s, limits, id, result, io).0 in {Ok(result), Err(Io)}
    ensures CompletionStep(s, limits, id, result, io).0.Ok? ==>
              && durable' == |lines'| && id.operationId in CompletionStep(s, limits, id, result, io).1.store.index
              && CompletionStep(s, limits, id, result, io).1.store.index[id.operationId] == Record(id, Some(result), false)
  {
    hide StateOk, Advances, ValidIdentity, ValidResult, EncodeEvent, IndexMatches, Fits, ReservedFor;
    var line := EncodeEvent(Complete(id, result));
    EventRoundTrip(Complete(id, result));
    BytesOf(s, lines, durable, limits);
    CompletionMatches(s, lines, limits, id, result);
    var reserved := s.store.reservedBytes - RESULT_RESERVATION_BYTES;
    var (refused, t) := Append(s.(store := s.store.(reservedBytes := reserved)), line + [NEWLINE], limits, io);
    if refused.Some? {
      RefusedAppendAdvances(s, lines, durable, limits, line, reserved, io);
      lines', durable' := lines, durable;
    } else {
      var u := t.(store := t.store.(index := s.store.index[id.operationId := Record(id, Some(result), false)]));
      WrittenAdvances(s, lines, durable, limits, line, u);
      AdvancedOk(s, lines, durable, u, lines + [line], durable, limits);
      FinishAdvances(u, lines + [line], durable, limits, result, io);
      lines', durable' := lines + [line], if io.sync then |lines + [line]| else durable;
      AdvancesTwice(s, lines, durable, u, lines + [line], durable, Finish(u, result, io).1, lines', durable', limits);
    }
  }

  /** The record a completion would write, if the call gets that far. */
  predicate Completes(s: State, id: Identity, result: Stored) {
    && ValidIdentity(id) && ValidResult(id, result)
    && id.operationId in s.store.index && s.store.index[id.operationId] == Record(id, None, false)
  }

  lemma CompleteAdvances(before: State, lines: seq<Text>, durable: nat, limits: Limits, id: Identity, result: Stored, io: CallIo)
    returns (lines': seq<Text>, durable': nat)
    requires StateOk(before, lines, durable, limits)
    ensures Advances(before, lines, durable, CompleteEffect(before, limits, id, result, io).1, lines', durable', limits)
    ensures CompleteEffect(before, limits, id, result, io).0 != Err(Corrupt)
    ensures CompleteEffect(before, limits, id, result, io).0 == Err(Capacity) <==>
              Completes(before, id, result) && Settle(before, io).Ok?
              && |EncodeEvent(Complete(id, result))| + 1 > RESULT_RESERVATION_BYTES
    ensures CompleteEffect(before, limits, id, result, io).0.Ok? ==>
              var index := CompleteEffect(before, limits, id, result, io).1.store.index;
              && (Completes(before, id, result) ==> durable' == |lines'|)
              && id.operationId in index && index[id.operationId].identity == id && index[id.operationId].result == Some(result)
  {
    hide StateOk, Advances, ValidIdentity, ValidResult, EncodeEvent, Append, Finish, Settle;
    StaysPut(before, lines, durable, limits);
    lines', durable' := lines, durable;
    if ValidIdentity(id) && ValidResult(id, result) && Settle(before, io).Ok? {
      SettleAdvances(before, lines, durable, limits, io);
      var s := Settle(before, io).value;
      durable' := SettledAt(before, lines, durable);
      if Completes(s, id, result) && |EncodeEvent(Complete(id, result))| + 1 <= RESULT_RESERVATION_BYTES {
        AdvancedOk(before, lines, durable, s, lines, durable', limits);
        lines', durable' := CompletionAdvances(s, lines, durable', limits, id, result, io);
        var t := CompletionStep(s, limits, id, result, io).1;
        CompletionIsComplete(before, s, limits, id, result, io);
        AdvancesTwice(before, lines, durable, s, lines, SettledAt(before, lines, durable), t, lines', durable', limits);
      }
    }
  }

  lemma CompletionIsComplete(before: State, s: State, limits: Limits, id: Identity, result: Stored, io: CallIo)
    requires Settle(before, io) == Ok(s) && Completes(s, id, result)
    requires |EncodeEvent(Complete(id, result))| + 1 <= RESULT_RESERVATION_BYTES <= s.store.reservedBytes
    ensures CompleteEffect(before, limits, id, result, io) == CompletionStep(s, limits, id, result, io)
  {
    hide ValidIdentity, ValidResult, EncodeEvent, Append, Finish, Settle;
    assert s.store.index[id.operationId].(result := Some(result)) == Record(id, Some(result), false);
  }
}
