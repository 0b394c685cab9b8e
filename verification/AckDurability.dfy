/** When an answered acknowledgement is durable: exactly which histories make it so, and what happens to the others
    (crates/hand-guest/src/acks.rs:96-163, 186-280). */
module AckDurability {
  import opened Wrappers
  import opened RecordCodec
  import opened CrashLog
  import opened Acknowledgements
  import opened AckSafety

  // ---- Syncs in a history ----

  /** The call gets as far as taking the writer; a submission fence never does. */
  predicate TakesWriter(act: Act) {
    act.CallExists? || (act.CallRetain? && ValidAck(act.ack))
  }

  /** The call wrote a record. */
  predicate Wrote(w: World, act: Act, max: nat) {
    && w.store.Some? && IsCall(act)
    && Step(w, act, max).1.store.Some? && Step(w, act, max).1.store.value.bytes > w.store.value.bytes
  }

  /** One of the call's syncs succeeded: that of a pending write at its start, or that of its own record. */
  predicate Syncs(w: World, act: Act, max: nat) {
    && w.store.Some? && TakesWriter(act)
    && ((w.store.value.dirty && act.io.flush) || (Wrote(w, act, max) && act.io.sync))
  }

  lemma BytesAreLogged(w: World, max: nat)
    requires Inv(w, max) && w.store.Some?
    ensures w.store.value.bytes == |Join(Logged(w.disk.current))|
  {
    hide DiskHolds, ReplayLog;
  }

  // A call without a successful sync leaves the durable image alone, and ends with a write pending or with the log
  // as it was.
  lemma UnsyncedCall(w: World, act: Act, max: nat)
    requires Inv(w, max) && w.store.Some? && IsCall(act) && !Syncs(w, act, max)
    ensures var w' := Step(w, act, max).1;
            && w'.store.Some? && w'.disk.synced == w.disk.synced
            && (w'.store.value.dirty || (!w.store.value.dirty && Logged(w'.disk.current) == Logged(w.disk.current)))
  {
    var w' := Step(w, act, max).1;
    assert w'.store.Some? && w'.disk.synced == w.disk.synced
           && (w'.store.value.dirty || (!w.store.value.dirty && w'.store.value.bytes == w.store.value.bytes)) by {
      hide Inv, ValidAck, EncodeAck, Torn;
    }
    hide Inv, Step;
    StepMoves(w, act, max);
    BytesAreLogged(w, max);
    BytesAreLogged(w', max);
    if !w'.store.value.dirty { SameLengthSameLog(Logged(w.disk.current), Logged(w'.disk.current)); }
  }

  // A call that takes the writer starts from the settled store.
  lemma FromSettled(w: World, act: Act, max: nat)
    requires w.store.Some? && TakesWriter(act) && w.store.value.dirty && act.io.flush
    ensures Step(w, act, max) == Step(World(Sync(w.disk), Some(w.store.value.(dirty := false))), act, max)
  {
    hide ValidAck, EncodeAck;
  }

  lemma SettledInv(w: World, max: nat)
    requires Inv(w, max) && w.store.Some?
    ensures var v := World(Sync(w.disk), Some(w.store.value.(dirty := false)));
            Inv(v, max) && CleanWorld(v)
  {
    hide Holds, ReplayLog;
    var lines := Logged(w.disk.current);
    LogIs(w, lines, |Logged(w.disk.synced)|, max);
    FullIsAll(lines);
    LogIs(World(Sync(w.disk), Some(w.store.value.(dirty := false))), lines, |lines|, max);
  }

  lemma WrittenAndSynced(w: World, act: Act, max: nat)
    requires w.store.Some? && TakesWriter(act) && Wrote(w, act, max) && act.io.sync
    ensures Step(w, act, max).1.disk.synced == Step(w, act, max).1.disk.current
  {
    hide ValidAck, EncodeAck;
  }

  lemma SyncedCall(w: World, act: Act, max: nat)
    requires Inv(w, max) && Syncs(w, act, max)
    ensures CleanWorld(Step(w, act, max).1)
  {
    hide Inv, Step, ValidAck;
    if w.store.value.dirty && act.io.flush {
      SettledInv(w, max);
      FromSettled(w, act, max);
      hide CleanWorld;
      StepMoves(World(Sync(w.disk), Some(w.store.value.(dirty := false))), act, max);
    } else {
      WrittenAndSynced(w, act, max);
    }
  }

  // ---- Since the last open ----

  /** The last open before act `i`. */
  predicate LastOpen(acts: seq<Act>, k: nat, i: nat) {
    && k < i <= |acts| && acts[k].OpenLog?
    && forall m :: k < m < i ==> !acts[m].OpenLog?
  }

  predicate SyncedSince(run: seq<World>, acts: seq<Act>, max: nat, k: nat, i: nat)
    requires |run| == |acts| + 1 && i <= |acts|
  {
    exists m :: k < m < i && Syncs(run[m], acts[m], max)
  }

  // A store that survives an act other than an open was there, and the act was a call.
  lemma CallSinceOpen(w: World, act: Act, max: nat)
    requires !act.OpenLog? && Step(w, act, max).1.store.Some?
    ensures IsCall(act) && w.store.Some?
  {
    hide Retain, AcknowledgementExists, AfterCrash;
  }

  // A store that is open was opened, and by the last open.
  lemma {:induction false} OpenStoreWasOpened(run: seq<World>, acts: seq<Act>, answers: seq<Answer>, max: nat, i: nat) returns (k: nat)
    requires IsRun(run, acts, answers, max) && i < |run| && run[i].store.Some?
    ensures LastOpen(acts, k, i)
  {
    hide Step;
    assert (answers[i - 1], run[i]) == Step(run[i - 1], acts[i - 1], max);
    if acts[i - 1].OpenLog? {
      k := i - 1;
    } else {
      CallSinceOpen(run[i - 1], acts[i - 1], max);
      k := OpenStoreWasOpened(run, acts, answers, max, i - 1);
    }
  }

  lemma JustOpened(w: World, act: Act, max: nat)
    requires Inv(w, max) && act.OpenLog? && Step(w, act, max).1.store.Some?
    ensures Logged(Step(w, act, max).1.disk.current) == Logged(w.disk.current)
  {
    hide Inv, Open, Moves, ReplayLog, CleanWorld;
    OpenMoves(w, max, act.openIo);
  }

  lemma {:induction false} SinceOpen(run: seq<World>, acts: seq<Act>, answers: seq<Answer>, max: nat, k: nat, j: nat)
    requires IsRun(run, acts, answers, max) && LastOpen(acts, k, j) && run[j].store.Some?
    ensures run[k + 1].store.Some?
    ensures if SyncedSince(run, acts, max, k, j) then CleanWorld(run[j])
            else
              && run[j].disk.synced == run[k + 1].disk.synced
              && (run[j].store.value.dirty || Logged(run[j].disk.current) == Logged(run[k].disk.current))
    decreases j
  {
    hide Inv, Syncs, CleanWorld, Step;
    RunInv(run, acts, answers, max, j - 1);
    assert (answers[j - 1], run[j]) == Step(run[j - 1], acts[j - 1], max);
    if j == k + 1 {
      JustOpened(run[k], acts[k], max);
    } else {
      CallSinceOpen(run[j - 1], acts[j - 1], max);
      SinceOpen(run, acts, answers, max, k, j - 1);
      if Syncs(run[j - 1], acts[j - 1], max) {
        SyncedCall(run[j - 1], acts[j - 1], max);
      } else {
        UnsyncedCall(run[j - 1], acts[j - 1], max);
        assert SyncedSince(run, acts, max, k, j) <==> SyncedSince(run, acts, max, k, j - 1);
        StepMoves(run[j - 1], acts[j - 1], max);
      }
    }
  }

  // ---- Exactly when an answered acknowledgement is durable ----

  /** The open at `k` took the acknowledgement over from the file though it was not durable, no torn tail made that
      open sync, and no call up to and including `i` has synced since. */
  predicate Adopted(run: seq<World>, acts: seq<Act>, max: nat, k: nat, i: nat, ack: Ack)
    requires |run| == |acts| + 1 && k < i < |acts|
  {
    && ValidLen(run[k].disk.current) == |run[k].disk.current|
    && HeldIn(Logged(run[k].disk.current), ack) && !HeldIn(Logged(run[k].disk.synced), ack)
    && !SyncedSince(run, acts, max, k, i + 1)
  }

  lemma AnsweredIsIndexed(w: World, act: Act, max: nat)
    requires AnswersRetained(act, Step(w, act, max).0)
    ensures var w' := Step(w, act, max).1;
            && w'.store.Some? && !w'.store.value.dirty
            && act.ack.operationId in w'.store.value.index && w'.store.value.index[act.ack.operationId] == act.ack
  {
    hide ValidAck, EncodeAck;
  }

  lemma CleanIsDurable(w: World, max: nat)
    requires Inv(w, max) && CleanWorld(w) && w.store.Some? && !w.store.value.dirty
    ensures Logged(w.disk.synced) == Logged(w.disk.current)
  {
    hide Inv;
  }

  // What an open leaves durable: what was, or everything when a torn tail made it sync.
  lemma OpenedDurable(w: World, max: nat, io: OpenIo)
    requires Inv(w, max) && Open(w.disk, max, io).0.Ok?
    ensures var after := Open(w.disk, max, io).1;
            if ValidLen(w.disk.current) == |w.disk.current| then after.synced == w.disk.synced
            else Logged(after.synced) == Logged(w.disk.current)
  {
    OpenMoves(w, max, io);
    hide Inv, ReplayLog;
  }

  // Over every run, an acknowledgement that was answered as retained is durable unless the last open adopted it
  // undurable and nothing has synced since.
  lemma RetainedIsDurableIff(run: seq<World>, acts: seq<Act>, answers: seq<Answer>, max: nat, k: nat, i: nat)
    requires IsRun(run, acts, answers, max) && i < |acts| && LastOpen(acts, k, i) && AnswersRetained(acts[i], answers[i])
    ensures Tombstoned(run[i + 1], acts[i].ack) <==> !Adopted(run, acts, max, k, i, acts[i].ack)
  {
    var w' := run[i + 1];
    assert (answers[i], w') == Step(run[i], acts[i], max);
    assert (answers[k], run[k + 1]) == Step(run[k], acts[k], max);
    hide Inv, Retain, AcknowledgementExists, Open, CleanWorld, Syncs, ReplayLog;
    AnsweredIsIndexed(run[i], acts[i], max);
    RunInv(run, acts, answers, max, i + 1);
    RunInv(run, acts, answers, max, k);
    LogsReplay(w', max);
    assert HeldIn(Logged(w'.disk.current), acts[i].ack);
    assert LastOpen(acts, k, i + 1);
    SinceOpen(run, acts, answers, max, k, i + 1);
    if SyncedSince(run, acts, max, k, i + 1) {
      CleanIsDurable(w', max);
    } else {
      OpenedDurable(run[k], max, acts[k].openIo);
    }
  }

  // Once `retain` succeeded or `acknowledgement_exists` answered true, no later state lets the operation through
  // and no different acknowledgement is accepted, unless it was adopted undurable and not synced since.
  lemma RetainedForever(run: seq<World>, acts: seq<Act>, answers: seq<Answer>, max: nat, k: nat, i: nat, j: nat)
    requires IsRun(run, acts, answers, max) && i < j < |acts| && LastOpen(acts, k, i) && AnswersRetained(acts[i], answers[i])
    requires !Adopted(run, acts, max, k, i, acts[i].ack)
    ensures Respects(acts[j], answers[j], acts[i].ack)
  {
    hide Inv, Step, Tombstoned, Respects, Adopted, LastOpen;
    RetainedIsDurableIff(run, acts, answers, max, k, i);
    TombstonedForever(run, acts, answers, max, acts[i].ack, i + 1, j);
    RunInv(run, acts, answers, max, j);
    assert (answers[j], run[j + 1]) == Step(run[j], acts[j], max);
    TombstoneIsRespected(run[j], acts[j], max, acts[i].ack);
  }

  // ---- What happens to the others ----

  // Every acknowledgement that was answered as retained and is not durable is lost by a crash that keeps only what
  // is durable: the reopened store lets the operation through.
  lemma UndurableIsLost(w: World, act: Act, max: nat)
    requires Inv(w, max) && AnswersRetained(act, Step(w, act, max).0) && !Tombstoned(Step(w, act, max).1, act.ack)
    ensures var w1 := Step(Step(w, act, max).1, Crash(0), max).1;
            var (answer, w2) := Step(w1, OpenLog(OPENS_GOOD), max);
            && answer == Opened(None)
            && Step(w2, CallFence(act.ack.operationId, act.ack.requestDigest), max).0 == Fenced(Ok(Clear))
  {
    hide Inv, Tombstoned, Step;
    AnsweredIsIndexed(w, act, max);
    StepMoves(w, act, max);
    LostAfterCrash(Step(w, act, max).1, max, act.ack);
  }

  lemma LostAfterCrash(w: World, max: nat, ack: Ack)
    requires Inv(w, max) && w.store.Some? && !Tombstoned(w, ack)
    requires ack.operationId in w.store.value.index && w.store.value.index[ack.operationId] == ack
    ensures var w1 := Step(w, Crash(0), max).1;
            var (answer, w2) := Step(w1, OpenLog(OPENS_GOOD), max);
            && answer == Opened(None)
            && Step(w2, CallFence(ack.operationId, ack.requestDigest), max).0 == Fenced(Ok(Clear))
  {
    var w1 := Step(w, Crash(0), max).1;
    CrashToDurable(w, max);
    hide Inv, ReplayLog;
    LogsReplay(w, max);
    StepMoves(w, Crash(0), max);
    hide AfterCrash;
    OpensOn(w1, max);
    var w2 := Step(w1, OpenLog(OPENS_GOOD), max).1;
    assert ack.operationId !in w2.store.value.index;
    hide Open;
  }

  lemma CrashToDurable(w: World, max: nat)
    ensures Step(w, Crash(0), max).1 == World(Disk(w.disk.synced, w.disk.synced), None)
  {
  }

  lemma OpensOn(w: World, max: nat)
    requires Inv(w, max)
    ensures var (answer, w') := Step(w, OpenLog(OPENS_GOOD), max);
            answer == Opened(None) && w'.store.Some? && ReplayLog(Logged(w.disk.current)) == Ok(w'.store.value.index)
  {
    hide Inv, Open, ReplayLog, Moves, CleanWorld;
    OpenMoves(w, max, OPENS_GOOD);
  }

  // From an empty disk: the sync of `retain` fails, the process restarts and answers the retry as retained, the
  // machine crashes, and the operation is let through again.
  lemma AdoptedAcknowledgementIsLost(max: nat, ack: Ack)
    requires ValidAck(ack) && |EncodeAck(ack)| + 1 <= max
    ensures var w1 := Step(World(Disk([], []), None), OpenLog(OPENS_GOOD), max).1;
            var (unsure, w2) := Step(w1, CallRetain(ack, ALL_GOOD.(sync := false)), max);
            var w3 := Step(w2, OpenLog(OPENS_GOOD), max).1;
            var (retried, w4) := Step(w3, CallRetain(ack, ALL_GOOD), max);
            var w5 := Step(w4, Crash(0), max).1;
            var w6 := Step(w5, OpenLog(OPENS_GOOD), max).1;
            && unsure == Retained(Err(Io))
            && retried == Retained(Ok(Replay))
            && Step(w3, CallExists(ack, ALL_GOOD), max).0 == Exists(Ok(true))
            && Step(w6, CallFence(ack.operationId, ack.requestDigest), max).0 == Fenced(Ok(Clear))
  {
    var w0 := World(Disk([], []), None);
    var w2 := Step(Fresh(), CallRetain(ack, ALL_GOOD.(sync := false)), max).1;
    var w3 := Step(w2, OpenLog(OPENS_GOOD), max).1;
    EmptyLogOpens(max);
    UnsyncedRetain(max, ack);
    AnsweredFromIndex(w3, max, ack);
    assert Step(w3, Crash(0), max).1 == w0 by { hide Retain, Open, EncodeAck, ValidAck; }
    assert Step(Fresh(), CallFence(ack.operationId, ack.requestDigest), max).0 == Fenced(Ok(Clear));
    hide Step, EncodeAck, ValidAck;
  }

  /** A store just opened on an empty disk. */
  function Fresh(): World {
    World(Disk([], []), Some(Store(map[], 0, false)))
  }

  lemma EmptyLogOpens(max: nat)
    ensures Step(World(Disk([], []), None), OpenLog(OPENS_GOOD), max) == (Opened(None), Fresh())
  {
    assert Lines([]) == [];
  }

  lemma UnsyncedRetain(max: nat, ack: Ack)
    requires ValidAck(ack) && |EncodeAck(ack)| + 1 <= max
    ensures var (answer, w) := Step(Fresh(), CallRetain(ack, ALL_GOOD.(sync := false)), max);
            var w' := Step(w, OpenLog(OPENS_GOOD), max).1;
            && answer == Retained(Err(Io)) && w'.disk.synced == []
            && w'.store.Some? && !w'.store.value.dirty
            && ack.operationId in w'.store.value.index && w'.store.value.index[ack.operationId] == ack
  {
    hide EncodeAck, ValidAck;
    var w := Step(Fresh(), CallRetain(ack, ALL_GOOD.(sync := false)), max).1;
    assert w.disk == Disk([], EncodeAck(ack) + [NEWLINE]);
    assert w.store == Some(Store(map[ack.operationId := ack], |EncodeAck(ack)| + 1, true));
    EmptyLogOpens(max);
    hide Retain, ReplayLog, LinesFrom, Inv;
    InitInv(max);
    StepMoves(World(Disk([], []), None), OpenLog(OPENS_GOOD), max);
    StepMoves(Fresh(), CallRetain(ack, ALL_GOOD.(sync := false)), max);
    OpenMoves(w, max, OPENS_GOOD);
    LogsReplay(w, max);
  }

  lemma AnsweredFromIndex(w: World, max: nat, ack: Ack)
    requires ValidAck(ack) && w.store.Some? && !w.store.value.dirty
    requires ack.operationId in w.store.value.index && w.store.value.index[ack.operationId] == ack
    ensures Step(w, CallRetain(ack, ALL_GOOD), max) == (Retained(Ok(Replay)), w)
    ensures Step(w, CallExists(ack, ALL_GOOD), max).0 == Exists(Ok(true))
  {
    hide EncodeAck, ValidAck;
  }
}
