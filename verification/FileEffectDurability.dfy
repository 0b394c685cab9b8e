/** When an answered completion is durable: exactly which histories make it so, and what happens to the others
    (crates/hand-guest/src/file_effects.rs:98-192, 270-328). */
module FileEffectDurability {
  import opened Wrappers
  import opened RecordCodec
  import opened CrashLog
  import opened FileEffects
  import opened FileEffectSafety
  import opened FileEffectRuns

  // ---- Syncs in a history ----

  /** The call gets as far as taking the writer. */
  predicate TakesWriter(act: Act) {
    IsCall(act) && ValidIdentity(act.id) && (act.CallComplete? ==> ValidResult(act.id, act.result))
  }

  /** The call wrote a record. */
  predicate Wrote(w: World, act: Act, limits: Limits) {
    && w.store.Some? && IsCall(act)
    && Step(w, act, limits).1.store.Some? && Step(w, act, limits).1.store.value.bytes > w.store.value.bytes
  }

  /** One of the call's syncs succeeded: that of a pending write at its start, or that of its own record. */
  predicate Syncs(w: World, act: Act, limits: Limits) {
    && w.store.Some? && TakesWriter(act)
    && ((w.store.value.dirty && act.io.flush) || (Wrote(w, act, limits) && act.io.sync))
  }

  // ---- What a call without a sync leaves ----

  /** The durable image is untouched, and a write is pending or none was made. */
  predicate Unsynced(s: State, t: State) {
    && t.disk.synced == s.disk.synced
    && (t.store.dirty || (!s.store.dirty && t.store.bytes == s.store.bytes))
  }

  lemma AppendUnsynced(s: State, data: Text, limits: Limits, io: CallIo)
    ensures Append(s, data, limits, io).1.disk.synced == s.disk.synced
    ensures Append(s, data, limits, io).0.None? ==>
              Append(s, data, limits, io).1.store == s.store.(dirty := true, bytes := s.store.bytes + |data|)
    ensures Append(s, data, limits, io).0.Some? ==> Append(s, data, limits, io).1.store == s.store
  {
  }

  lemma ReserveUnsynced(s: State, limits: Limits, id: Identity, io: CallIo)
    requires !(ValidIdentity(id) && ((s.store.dirty && io.flush) || (Reserve(s, limits, id, io).1.store.bytes > s.store.bytes && io.sync)))
    ensures Unsynced(s, Reserve(s, limits, id, io).1)
  {
    hide ValidIdentity, EncodeEvent, Append;
    AppendUnsynced(s, EncodeEvent(Intent(id)) + [NEWLINE], limits, io);
  }

  lemma ClaimUnsynced(s: State, id: Identity, io: CallIo)
    requires !(ValidIdentity(id) && s.store.dirty && io.flush)
    ensures Unsynced(s, Claim(s, id, io).1)
  {
    hide ValidIdentity;
  }

  lemma CompleteUnsynced(s: State, limits: Limits, id: Identity, result: Stored, io: CallIo)
    requires !(ValidIdentity(id) && ValidResult(id, result)
               && ((s.store.dirty && io.flush) || (CompleteEffect(s, limits, id, result, io).1.store.bytes > s.store.bytes && io.sync)))
    ensures Unsynced(s, CompleteEffect(s, limits, id, result, io).1)
  {
    hide ValidIdentity, ValidResult, EncodeEvent, Append;
    if s.store.reservedBytes >= RESULT_RESERVATION_BYTES {
      AppendUnsynced(s.(store := s.store.(reservedBytes := s.store.reservedBytes - RESULT_RESERVATION_BYTES)),
                     EncodeEvent(Complete(id, result)) + [NEWLINE], limits, io);
    }
  }

  lemma BytesAreLogged(w: World, limits: Limits)
    requires Inv(w, limits) && w.store.Some?
    ensures w.store.value.bytes == |Join(Logged(w.disk.current))|
  {
    hide AlwaysFits, DiskHolds, IndexMatches, ClaimsAreDurable;
  }

  // A call without a successful sync leaves the durable image alone, and ends with a write pending or with the log
  // as it was.
  lemma UnsyncedCall(w: World, act: Act, limits: Limits)
    requires Inv(w, limits) && w.store.Some? && IsCall(act) && !Syncs(w, act, limits)
    ensures var w' := Step(w, act, limits).1;
            && w'.store.Some? && w'.disk.synced == w.disk.synced
            && (w'.store.value.dirty || (!w.store.value.dirty && Logged(w'.disk.current) == Logged(w.disk.current)))
  {
    var s, w' := State(w.disk, w.store.value), Step(w, act, limits).1;
    assert w'.store.Some? && Unsynced(s, State(w'.disk, w'.store.value)) by {
      hide Inv, ValidIdentity, ValidResult, Reserve, Claim, CompleteEffect, Unsynced, Open, AfterCrash;
      match act
      case CallReserve(id, io) => ReserveUnsynced(s, limits, id, io);
      case CallClaim(id, io) => ClaimUnsynced(s, id, io);
      case CallComplete(id, result, io) => CompleteUnsynced(s, limits, id, result, io);
    }
    hide Inv, Step;
    StepMoves(w, act, limits);
    BytesAreLogged(w, limits);
    BytesAreLogged(w', limits);
    if !w'.store.value.dirty { SameLengthSameLog(Logged(w.disk.current), Logged(w'.disk.current)); }
  }

  // ---- What a sync makes durable ----

  // A call that takes the writer starts from the settled store.
  lemma FromSettled(w: World, act: Act, limits: Limits)
    requires w.store.Some? && TakesWriter(act) && w.store.value.dirty && act.io.flush
    ensures Step(w, act, limits) == Step(World(Sync(w.disk), Some(w.store.value.(dirty := false))), act, limits)
  {
    hide ValidIdentity, ValidResult, EncodeEvent, Append;
  }

  lemma SettledInv(w: World, limits: Limits)
    requires Inv(w, limits) && w.store.Some?
    ensures var v := World(Sync(w.disk), Some(w.store.value.(dirty := false)));
            Inv(v, limits) && CleanWorld(v)
  {
    var lines, durable := Logged(w.disk.current), |Logged(w.disk.synced)|;
    var v := World(Sync(w.disk), Some(w.store.value.(dirty := false)));
    hide AlwaysFits, Holds, IndexMatches;
    StateOfWorld(w, limits);
    SyncedOk(State(w.disk, w.store.value), lines, durable, limits);
    LogIs(v, lines, |lines|, limits);
  }

  // A record that was written and synced leaves nothing undurable.
  lemma WrittenAndSynced(w: World, act: Act, limits: Limits)
    requires w.store.Some? && TakesWriter(act) && Wrote(w, act, limits) && act.io.sync
    ensures Step(w, act, limits).1.disk.synced == Step(w, act, limits).1.disk.current
  {
    hide ValidIdentity, ValidResult, EncodeEvent;
  }

  lemma SyncedCall(w: World, act: Act, limits: Limits)
    requires Inv(w, limits) && Syncs(w, act, limits)
    ensures CleanWorld(Step(w, act, limits).1)
  {
    hide Inv, Step, ValidIdentity, ValidResult;
    if w.store.value.dirty && act.io.flush {
      var v := World(Sync(w.disk), Some(w.store.value.(dirty := false)));
      SettledInv(w, limits);
      FromSettled(w, act, limits);
      hide CleanWorld;
      StepMoves(v, act, limits);
    } else {
      WrittenAndSynced(w, act, limits);
    }
  }

  // ---- Since the last open ----

  /** The last open before act `i`. */
  predicate LastOpen(acts: seq<Act>, k: nat, i: nat) {
    && k < i <= |acts| && acts[k].OpenLog?
    && forall m :: k < m < i ==> !acts[m].OpenLog?
  }

  predicate SyncedSince(run: seq<World>, acts: seq<Act>, limits: Limits, k: nat, i: nat)
    requires |run| == |acts| + 1 && i <= |acts|
  {
    exists m :: k < m < i && Syncs(run[m], acts[m], limits)
  }

  // A store that is open was opened, and by the last open.
  lemma {:induction false} OpenStoreWasOpened(run: seq<World>, acts: seq<Act>, answers: seq<Answer>, limits: Limits, i: nat) returns (k: nat)
    requires IsRun(run, acts, answers, limits) && i < |run| && run[i].store.Some?
    ensures LastOpen(acts, k, i)
  {
    hide Step;
    assert (answers[i - 1], run[i]) == Step(run[i - 1], acts[i - 1], limits);
    if acts[i - 1].OpenLog? {
      k := i - 1;
    } else {
      CallSinceOpen(run[i - 1], acts[i - 1], limits);
      k := OpenStoreWasOpened(run, acts, answers, limits, i - 1);
    }
  }

  lemma {:induction false} SinceOpen(run: seq<World>, acts: seq<Act>, answers: seq<Answer>, limits: Limits, k: nat, j: nat)
    requires IsRun(run, acts, answers, limits) && LastOpen(acts, k, j) && run[j].store.Some?
    ensures run[k + 1].store.Some?
    ensures if SyncedSince(run, acts, limits, k, j) then CleanWorld(run[j])
            else
              && run[j].disk.synced == run[k + 1].disk.synced
              && (run[j].store.value.dirty || Logged(run[j].disk.current) == Logged(run[k].disk.current))
    decreases j
  {
    hide Inv, Syncs, CleanWorld, Step;
    RunInv(run, acts, answers, limits, j - 1);
    assert (answers[j - 1], run[j]) == Step(run[j - 1], acts[j - 1], limits);
    if j == k + 1 {
      JustOpened(run[k], acts[k], limits);
    } else {
      CallSinceOpen(run[j - 1], acts[j - 1], limits);
      SinceOpen(run, acts, answers, limits, k, j - 1);
      if Syncs(run[j - 1], acts[j - 1], limits) {
        SyncedCall(run[j - 1], acts[j - 1], limits);
      } else {
        UnsyncedCall(run[j - 1], acts[j - 1], limits);
        assert SyncedSince(run, acts, limits, k, j) <==> SyncedSince(run, acts, limits, k, j - 1);
        StepMoves(run[j - 1], acts[j - 1], limits);
      }
    }
  }

  lemma JustOpened(w: World, act: Act, limits: Limits)
    requires Inv(w, limits) && act.OpenLog? && Step(w, act, limits).1.store.Some?
    ensures Logged(Step(w, act, limits).1.disk.current) == Logged(w.disk.current)
  {
    hide Inv, Open, Moves, ReplayLog, CleanWorld;
    OpenMoves(w, limits, act.openIo);
  }

  // A store that survives an act other than an open was there, and the act was a call.
  lemma CallSinceOpen(w: World, act: Act, limits: Limits)
    requires !act.OpenLog? && Step(w, act, limits).1.store.Some?
    ensures IsCall(act) && w.store.Some?
  {
    hide Reserve, Claim, CompleteEffect, AfterCrash;
  }

  // ---- Exactly when an answered completion is durable ----

  /** The open at `k` took the completion over from the file though it was not durable, no torn tail made that open
      sync, and no call up to and including `i` has synced since. */
  predicate Adopted(run: seq<World>, acts: seq<Act>, limits: Limits, k: nat, i: nat, id: Identity, result: Stored)
    requires |run| == |acts| + 1 && k < i < |acts|
  {
    && ValidLen(run[k].disk.current) == |run[k].disk.current|
    && CompletedIn(Logged(run[k].disk.current), id, result)
    && !CompletedIn(Logged(run[k].disk.synced), id, result)
    && !SyncedSince(run, acts, limits, k, i + 1)
  }

  lemma AnsweredIsIndexed(s: State, limits: Limits, id: Identity, result: Stored, io: CallIo)
    requires CompleteEffect(s, limits, id, result, io).0.Ok?
    ensures var t := CompleteEffect(s, limits, id, result, io).1;
            && !t.store.dirty && id.operationId in t.store.index
            && t.store.index[id.operationId].identity == id && t.store.index[id.operationId].result == Some(result)
  {
    hide ValidIdentity, ValidResult, EncodeEvent;
  }

  lemma IndexedIsLogged(w: World, limits: Limits, id: Identity, result: Stored)
    requires Inv(w, limits) && w.store.Some? && id.operationId in w.store.value.index
    requires w.store.value.index[id.operationId].identity == id && w.store.value.index[id.operationId].result == Some(result)
    ensures CompletedIn(Logged(w.disk.current), id, result)
  {
    hide Inv, ReplayLog;
    LogsReplay(w, limits);
  }

  lemma CleanIsDurable(w: World, limits: Limits)
    requires Inv(w, limits) && CleanWorld(w) && w.store.Some? && !w.store.value.dirty
    ensures Logged(w.disk.synced) == Logged(w.disk.current)
  {
    hide AlwaysFits, StoreOk, Holds;
    LogIs(w, Logged(w.disk.current), |Logged(w.disk.synced)|, limits);
  }

  // What an open leaves durable: what was, or everything when a torn tail made it sync.
  lemma OpenedDurable(w: World, limits: Limits, io: OpenIo)
    requires Inv(w, limits) && Open(w.disk, limits, io).0.Ok?
    ensures var after := Open(w.disk, limits, io).1;
            if ValidLen(w.disk.current) == |w.disk.current| then after.synced == w.disk.synced
            else Logged(after.synced) == Logged(w.disk.current)
  {
    OpenMoves(w, limits, io);
    hide Inv, ReplayLog;
  }

  // Over every run, an answered completion is durable unless the last open adopted it undurable and nothing has
  // synced since.
  lemma CompletedIsDurableIff(run: seq<World>, acts: seq<Act>, answers: seq<Answer>, limits: Limits, k: nat, i: nat)
    requires IsRun(run, acts, answers, limits) && i < |acts| && LastOpen(acts, k, i)
    requires acts[i].CallComplete? && answers[i].Completed? && answers[i].completion.Ok?
    ensures Done(run[i + 1], acts[i].id, acts[i].result) <==> !Adopted(run, acts, limits, k, i, acts[i].id, acts[i].result)
  {
    var w, w', id, result := run[i], run[i + 1], acts[i].id, acts[i].result;
    assert (answers[i], w') == Step(w, acts[i], limits);
    assert (answers[k], run[k + 1]) == Step(run[k], acts[k], limits);
    hide Inv, CompleteEffect, CompletedIn, Open, CleanWorld, Syncs;
    AnsweredIsIndexed(State(w.disk, w.store.value), limits, id, result, acts[i].io);
    RunInv(run, acts, answers, limits, i + 1);
    RunInv(run, acts, answers, limits, k);
    IndexedIsLogged(w', limits, id, result);
    assert LastOpen(acts, k, i + 1);
    SinceOpen(run, acts, answers, limits, k, i + 1);
    if SyncedSince(run, acts, limits, k, i + 1) {
      CleanIsDurable(w', limits);
    } else {
      OpenedDurable(run[k], limits, acts[k].openIo);
    }
  }

  // Once `complete` has succeeded, every later exact reserve or claim that answers a reservation replays that
  // result, through any crashes, unless the completion was adopted undurable and not synced since.
  lemma CompletedIsReplayed(run: seq<World>, acts: seq<Act>, answers: seq<Answer>, limits: Limits, k: nat, i: nat, j: nat)
    requires IsRun(run, acts, answers, limits) && i < j < |acts| && LastOpen(acts, k, i)
    requires acts[i].CallComplete? && answers[i].Completed? && answers[i].completion.Ok?
    requires !Adopted(run, acts, limits, k, i, acts[i].id, acts[i].result)
    ensures Replays(acts[j], answers[j], acts[i].id, acts[i].result)
  {
    var id, result := acts[i].id, acts[i].result;
    hide Inv, Done, Replays, Step, Adopted, LastOpen;
    CompletedIsDurableIff(run, acts, answers, limits, k, i);
    DoneForever(run, acts, answers, limits, id, result, i + 1, j);
    RunInv(run, acts, answers, limits, j);
    assert (answers[j], run[j + 1]) == Step(run[j], acts[j], limits);
    DoneReplays(run[j], acts[j], limits, id, result);
  }

  // ---- What happens to the others ----

  // Where the log first holds a completion that its durable part lacks.
  lemma {:induction false} CompletionPosition(lines: seq<Text>, durable: nat, id: Identity, result: Stored) returns (t: nat)
    requires CompletedIn(lines, id, result) && durable <= |lines| && !CompletedIn(lines[..durable], id, result)
    ensures durable <= t < |lines|
    ensures ReplayLog(lines[..t]).Ok? && id.operationId in ReplayLog(lines[..t]).value
    ensures ReplayLog(lines[..t]).value[id.operationId] == Record(id, None, false)
    decreases |lines|
  {
    assert lines[..|lines|] == lines;
    var init := lines[..|lines| - 1];
    assert init[..durable] == lines[..durable];
    if CompletedIn(init, id, result) {
      t := CompletionPosition(init, durable, id, result);
      assert init[..t] == lines[..t];
    } else {
      t := |lines| - 1;
      BeforeCompletion(lines, id, result);
    }
  }

  // The record that completes an effect is the last of the log: before it the effect is claimed and has no result.
  lemma BeforeCompletion(lines: seq<Text>, id: Identity, result: Stored)
    requires lines != [] && CompletedIn(lines, id, result) && !CompletedIn(lines[..|lines| - 1], id, result)
    ensures ReplayLog(lines[..|lines| - 1]).Ok? && id.operationId in ReplayLog(lines[..|lines| - 1]).value
    ensures ReplayLog(lines[..|lines| - 1]).value[id.operationId] == Record(id, None, false)
  {
    var init := lines[..|lines| - 1];
    hide DecodeEvent, ValidIdentity, ValidResult;
    assert ReplayLog(init).Ok?;
    ReplayedHasNoClaims(init);
  }

  lemma OpensOn(w: World, limits: Limits)
    requires Inv(w, limits)
    ensures var w' := Step(w, OpenLog(OPENS_GOOD), limits).1;
            && Inv(w', limits) && w'.store.Some? && !w'.store.value.dirty
            && ReplayLog(Logged(w.disk.current)) == Ok(w'.store.value.index)
            && (ValidLen(w.disk.current) == |w.disk.current| ==> w'.disk == w.disk)
  {
    OpenMoves(w, limits, OPENS_GOOD);
    hide Inv, ReplayLog;
  }

  /** A claimed effect without a result, no write pending, nothing behind the log. */
  predicate AboutToComplete(w: World, id: Identity, result: Stored) {
    && w.store.Some? && !w.store.value.dirty && Completes(State(w.disk, w.store.value), id, result)
    && |EncodeEvent(Complete(id, result))| + 1 <= RESULT_RESERVATION_BYTES
    && ValidLen(w.disk.current) == |w.disk.current| && CleanWorld(w)
  }

  // The log has the completion, the durable part does not, and no tail makes the next open sync.
  lemma UnsyncedCompletion(w: World, limits: Limits, id: Identity, result: Stored, io: CallIo)
    requires Inv(w, limits) && AboutToComplete(w, id, result) && io == ALL_GOOD.(sync := false)
    ensures var (answer, w') := Step(w, CallComplete(id, result, io), limits);
            && answer == Completed(Err(Io)) && Inv(w', limits)
            && w'.disk.synced == w.disk.synced && ValidLen(w'.disk.current) == |w'.disk.current|
            && ReplayLog(Logged(w'.disk.current)).Ok? && id.operationId in ReplayLog(Logged(w'.disk.current)).value
            && ReplayLog(Logged(w'.disk.current)).value[id.operationId] == Record(id, Some(result), false)
  {
    var s, lines, durable := State(w.disk, w.store.value), Logged(w.disk.current), |Logged(w.disk.synced)|;
    var w' := Step(w, CallComplete(id, result, io), limits).1;
    assert w.store.value.bytes == |w.disk.current| && Inv(w', limits)
           && w.store.value.reservedBytes >= RESULT_RESERVATION_BYTES
           && w.store.value.bytes + w.store.value.reservedBytes <= limits.bytes by {
      hide Step, CompleteEffect, Append, EncodeEvent, AlwaysFits, ReplayLog;
      StateOfWorld(w, limits);
      BytesOf(s, lines, durable, limits);
      RecoveryKeepsTheRecords(w.disk.current, lines);
      StepMoves(w, CallComplete(id, result, io), limits);
      OweOneLess(w.store.value.index, id.operationId, Record(id, Some(result), false));
    }
    hide Inv, EncodeEvent, ReplayLog, ValidIdentity, ValidResult;
    assert Settle(s, io) == Ok(s);
    CompletionIsComplete(s, s, limits, id, result, io);
    hide CompleteEffect;
    LogsReplay(w', limits);
    ReplayedHasNoClaims(Logged(w'.disk.current));
  }

  lemma AnsweredFromIndex(w: World, limits: Limits, id: Identity, result: Stored)
    requires w.store.Some? && !w.store.value.dirty && ValidIdentity(id) && ValidResult(id, result)
    requires id.operationId in w.store.value.index && w.store.value.index[id.operationId] == Record(id, Some(result), false)
    ensures Step(w, CallComplete(id, result, ALL_GOOD), limits) == (Completed(Ok(MarkReplayed(result))), w)
    ensures Step(w, CallReserve(id, ALL_GOOD), limits).0 == Reserved(Ok(Replay(MarkReplayed(result))))
  {
    hide ValidIdentity, ValidResult, EncodeEvent;
  }

  // A completion is accepted when every system call succeeds.
  lemma CompletionAccepted(w: World, limits: Limits, id: Identity, result: Stored)
    requires Inv(w, limits) && w.store.Some? && !w.store.value.dirty && Completes(State(w.disk, w.store.value), id, result)
    requires |EncodeEvent(Complete(id, result))| + 1 <= RESULT_RESERVATION_BYTES
    ensures var (answer, w') := Step(w, CallComplete(id, result, ALL_GOOD), limits);
            && answer == Completed(Ok(result)) && w'.store.Some? && !w'.store.value.dirty
            && id.operationId in w'.store.value.index && w'.store.value.index[id.operationId] == Record(id, Some(result), false)
  {
    var s := State(w.disk, w.store.value);
    assert w.store.value.reservedBytes >= RESULT_RESERVATION_BYTES
           && w.store.value.bytes + w.store.value.reservedBytes <= limits.bytes by {
      hide Step, CompleteEffect, Append, EncodeEvent, AlwaysFits, ReplayLog;
      StateOfWorld(w, limits);
      BytesOf(s, Logged(w.disk.current), |Logged(w.disk.synced)|, limits);
      OweOneLess(w.store.value.index, id.operationId, Record(id, Some(result), false));
    }
    hide Inv, EncodeEvent, ReplayLog, ValidIdentity, ValidResult;
    assert Settle(s, ALL_GOOD) == Ok(s);
    CompletionIsComplete(s, s, limits, id, result, ALL_GOOD);
    hide CompleteEffect;
  }

  // What the durable part of a clean store replays to.
  lemma CleanDurablePart(w: World, limits: Limits, id: Identity, result: Stored)
    requires Inv(w, limits) && AboutToComplete(w, id, result)
    ensures ReplayLog(Logged(w.disk.synced)).Ok? && id.operationId in ReplayLog(Logged(w.disk.synced)).value
    ensures ReplayLog(Logged(w.disk.synced)).value[id.operationId] == Record(id, None, false)
  {
    hide ReplayLog, EncodeEvent, AlwaysFits, Holds;
    LogIs(w, Logged(w.disk.current), |Logged(w.disk.synced)|, limits);
    assert Logged(w.disk.synced) == Logged(w.disk.current);
    LogsReplay(w, limits);
    ReplayedHasNoClaims(Logged(w.disk.synced));
  }

  // Such a state is reached from an empty disk by an open, a reservation and a claim that all succeed.
  lemma AboutToCompleteIsReached(limits: Limits, id: Identity, result: Stored)
    requires ValidIdentity(id) && ValidResult(id, result) && limits.effects > 0
    requires |EncodeEvent(Intent(id))| + 1 + RESULT_RESERVATION_BYTES <= limits.bytes
    requires |EncodeEvent(Complete(id, result))| + 1 <= RESULT_RESERVATION_BYTES
    ensures var w1 := Step(World(Disk([], []), None), OpenLog(OPENS_GOOD), limits).1;
            var (reserved, w2) := Step(w1, CallReserve(id, ALL_GOOD), limits);
            var (claimed, w3) := Step(w2, CallClaim(id, ALL_GOOD), limits);
            && reserved == Reserved(Ok(New)) && claimed == Claimed(Ok(New))
            && Inv(w3, limits) && AboutToComplete(w3, id, result)
  {
    hide EncodeEvent, ValidIdentity, ValidResult, Inv;
    var w0 := World(Disk([], []), None);
    InitInv(limits);
    OpensOn(w0, limits);
    var w1 := Step(w0, OpenLog(OPENS_GOOD), limits).1;
    assert Incomplete(map[]) == {};
    assert w1 == World(Disk([], []), Some(Store(map[], 0, 0, false)));
    var w2 := Step(w1, CallReserve(id, ALL_GOOD), limits).1;
    StepMoves(w1, CallReserve(id, ALL_GOOD), limits);
    StepMoves(w2, CallClaim(id, ALL_GOOD), limits);
  }

  // A retry after a restart is answered from the record that the restart adopted, and is not durable.
  lemma RetryIsNotDurable(w: World, limits: Limits, id: Identity, result: Stored)
    requires Inv(w, limits) && AboutToComplete(w, id, result)
    ensures var w1 := Step(w, CallComplete(id, result, ALL_GOOD.(sync := false)), limits).1;
            var w2 := Step(w1, OpenLog(OPENS_GOOD), limits).1;
            var (retried, w3) := Step(w2, CallComplete(id, result, ALL_GOOD), limits);
            && Inv(w2, limits) && retried == Completed(Ok(MarkReplayed(result))) && !Done(w3, id, result)
  {
    var w1 := Step(w, CallComplete(id, result, ALL_GOOD.(sync := false)), limits).1;
    var w2 := Step(w1, OpenLog(OPENS_GOOD), limits).1;
    hide Inv, Step, EncodeEvent, ReplayLog, ValidIdentity, ValidResult, CleanWorld;
    UnsyncedCompletion(w, limits, id, result, ALL_GOOD.(sync := false));
    OpensOn(w1, limits);
    AnsweredFromIndex(w2, limits, id, result);
    CleanDurablePart(w, limits, id, result);
  }

  // Every answered completion that is not durable can be lost: some crash leaves the log just before it, and then
  // any other fitting result is accepted and replayed in its place.
  lemma UndurableIsLost(w: World, limits: Limits, id: Identity, first: Stored, io: CallIo, second: Stored) returns (kept: nat)
    requires Inv(w, limits) && w.store.Some? && CompleteEffect(State(w.disk, w.store.value), limits, id, first, io).0.Ok?
    requires !Done(Step(w, CallComplete(id, first, io), limits).1, id, first)
    requires ValidResult(id, second) && |EncodeEvent(Complete(id, second))| + 1 <= RESULT_RESERVATION_BYTES
    ensures var w' := Step(w, CallComplete(id, first, io), limits).1;
            && kept <= |w'.disk.current|
            && var w2 := Step(Step(w', Crash(kept), limits).1, OpenLog(OPENS_GOOD), limits).1;
               var (other, w3) := Step(w2, CallComplete(id, second, ALL_GOOD), limits);
               && other == Completed(Ok(second))
               && Step(w3, CallReserve(id, ALL_GOOD), limits).0 == Reserved(Ok(Replay(MarkReplayed(second))))
  {
    var act := CallComplete(id, first, io);
    var w' := Step(w, act, limits).1;
    assert ValidIdentity(id) && w'.store.Some? && Step(w, act, limits).0 == Completed(CompleteEffect(State(w.disk, w.store.value), limits, id, first, io).0) by {
      hide Inv, Done, EncodeEvent;
    }
    AnsweredIsIndexed(State(w.disk, w.store.value), limits, id, first, io);
    StepMoves(w, act, limits);
    hide Inv, Step, CompleteEffect, EncodeEvent, ReplayLog, ValidIdentity, ValidResult;
    IndexedIsLogged(w', limits, id, first);
    var t := CutBeforeCompletion(w', limits, id, first);
    kept := |Join(Logged(w'.disk.current)[..t])|;
    var w1 := Step(w', Crash(kept), limits).1;
    var w2 := Step(w1, OpenLog(OPENS_GOOD), limits).1;
    CrashedAt(w', limits, t);
    OpensOn(w1, limits);
    CompletionAccepted(w2, limits, id, second);
    AnsweredFromIndex(Step(w2, CallComplete(id, second, ALL_GOOD), limits).1, limits, id, second);
  }

  lemma CutBeforeCompletion(w: World, limits: Limits, id: Identity, result: Stored) returns (t: nat)
    requires Inv(w, limits) && CompletedIn(Logged(w.disk.current), id, result) && !Done(w, id, result)
    ensures |Logged(w.disk.synced)| <= t <= |Logged(w.disk.current)|
    ensures var survivors := ReplayLog(Logged(w.disk.current)[..t]);
            survivors.Ok? && id.operationId in survivors.value && survivors.value[id.operationId] == Record(id, None, false)
  {
    hide AlwaysFits, StoreOk, Holds, ReplayLog, CompletedIn;
    LogIs(w, Logged(w.disk.current), |Logged(w.disk.synced)|, limits);
    t := CompletionPosition(Logged(w.disk.current), |Logged(w.disk.synced)|, id, result);
  }

  lemma CrashedAt(w: World, limits: Limits, t: nat)
    requires Inv(w, limits) && |Logged(w.disk.synced)| <= t <= |Logged(w.disk.current)|
    ensures var kept := |Join(Logged(w.disk.current)[..t])|;
            && kept <= |w.disk.current|
            && Inv(Step(w, Crash(kept), limits).1, limits)
            && Logged(Step(w, Crash(kept), limits).1.disk.current) == Logged(w.disk.current)[..t]
  {
    hide AlwaysFits, StoreOk, AfterCrash;
    var lines, durable := Logged(w.disk.current), |Logged(w.disk.synced)|;
    LogIs(w, lines, durable, limits);
    CrashCutsAt(w.disk, lines, durable, limits.bytes, t);
    PrefixAlwaysFits(lines, t, limits);
    hide DiskHolds;
    LogIs(World(AfterCrash(w.disk, |Join(lines[..t])|), None), lines[..t], t, limits);
  }
}
