/** What the acknowledgement fence keeps through every sequence of calls, failed system calls, restarts and crashes. */
module AckSafety {
  import opened Wrappers
  import opened RecordCodec
  import opened CrashLog
  import opened Acknowledgements

  // ---- Logs ----

  predicate Submap(a: Index, b: Index) {
    forall op :: op in a ==> op in b && b[op] == a[op]
  }

  lemma {:induction false} LogGrows(a: seq<Text>, b: seq<Text>)
    requires a <= b && ReplayLog(b).Ok?
    ensures ReplayLog(a).Ok? && Submap(ReplayLog(a).value, ReplayLog(b).value)
    decreases |b|
  {
    if |a| == |b| {
      assert a == b;
    } else {
      var init := b[..|b| - 1];
      assert a <= init;
      LogGrows(a, init);
      hide DecodeAck, ValidAck;
    }
  }

  lemma ReplayExtends(lines: seq<Text>, ack: Ack)
    requires ReplayLog(lines).Ok? && ValidAck(ack) && ack.operationId !in ReplayLog(lines).value
    ensures ReplayLog(lines + [EncodeAck(ack)]) == Ok(ReplayLog(lines).value[ack.operationId := ack])
  {
    hide EncodeAck, ValidAck, DecodeAck;
    AckRoundTrip(ack);
    assert (lines + [EncodeAck(ack)])[..|lines|] == lines;
  }

  // ---- The invariant ----

  predicate StoreOk(store: Store, lines: seq<Text>) {
    ReplayLog(lines) == Ok(store.index) && store.bytes == |Join(lines)|
  }

  predicate HoldsLog(w: World, lines: seq<Text>, durable: nat, max: nat) {
    && DiskHolds(w.disk, lines, durable, max)
    && ReplayLog(lines).Ok?
    && (w.store.Some? ==> StoreOk(w.store.value, lines))
  }

  predicate Inv(w: World, max: nat) {
    HoldsLog(w, Logged(w.disk.current), |Logged(w.disk.synced)|, max)
  }

  /** With no write pending, every record of the log is durable. */
  predicate CleanWorld(w: World) {
    w.store.Some? && !w.store.value.dirty ==> Logged(w.disk.synced) == Logged(w.disk.current)
  }

  lemma LogIs(w: World, lines: seq<Text>, durable: nat, max: nat)
    requires HoldsLog(w, lines, durable, max)
    ensures Inv(w, max) && Logged(w.disk.current) == lines && Logged(w.disk.synced) == lines[..durable] <= lines
  {
    hide StoreOk, ReplayLog;
    DiskLogs(w.disk, lines, durable, max);
  }

  lemma InitInv(max: nat)
    ensures Inv(World(Disk([], []), None), max)
  {
    assert HoldsLog(World(Disk([], []), None), [], 0, max);
    LogIs(World(Disk([], []), None), [], 0, max);
  }

  /** The durable log only grows. */
  predicate Moves(w: World, w': World, max: nat) {
    Inv(w', max) && Logged(w.disk.synced) <= Logged(w'.disk.synced)
  }

  // ---- Opening ----

  // Opening never finds corruption or an overfull log, and its index is exactly what the file holds.
  lemma OpenMoves(w: World, max: nat, io: OpenIo)
    requires Inv(w, max)
    ensures var (r, disk) := Open(w.disk, max, io);
            var w' := World(disk, if r.Ok? then Some(r.value) else None);
            && Moves(w, w', max)
            && (r.Ok? || r.error == Io)
            && (io.read && io.setLen && io.sync && io.seek ==> r.Ok?)
            && Logged(disk.current) == Logged(w.disk.current)
            && (r.Ok? ==> ReplayLog(Logged(w.disk.current)) == Ok(r.value.index) && !r.value.dirty)
            && (r.Ok? ==> (CleanWorld(w') <==> OpensClean(w.disk)))
  {
    var lines, durable := Logged(w.disk.current), |Logged(w.disk.synced)|;
    var (r, disk) := Open(w.disk, max, io);
    var w' := World(disk, if r.Ok? then Some(r.value) else None);
    var after := if ValidLen(w.disk.current) != |w.disk.current| && io.read && io.setLen && io.sync then |lines| else durable;
    hide ReplayLog;
    assert HoldsLog(w', lines, after, max) && (r.Ok? || r.error == Io) && (io.read && io.setLen && io.sync && io.seek ==> r.Ok?)
           && (r.Ok? ==> ReplayLog(lines) == Ok(r.value.index) && !r.value.dirty) by {
      hide Holds;
      CutDisk(w.disk, lines, durable, max);
    }
    hide HoldsLog, Open;
    LogIs(w, lines, durable, max);
    LogIs(w', lines, after, max);
  }

  // ---- Calls ----

  lemma SettleMoves(w: World, max: nat, io: CallIo)
    requires Inv(w, max) && w.store.Some? && Settle(State(w.disk, w.store.value), io).Ok?
    ensures var s := Settle(State(w.disk, w.store.value), io).value;
            var w' := World(s.disk, Some(s.store));
            && Moves(w, w', max) && (CleanWorld(w) ==> CleanWorld(w'))
            && s.store.index == w.store.value.index && !s.store.dirty
            && Logged(w'.disk.current) == Logged(w.disk.current)
            && (w.store.value.dirty ==> Logged(w'.disk.synced) == Logged(w'.disk.current))
  {
    hide ReplayLog, Holds;
    var lines, durable := Logged(w.disk.current), |Logged(w.disk.synced)|;
    var s := Settle(State(w.disk, w.store.value), io).value;
    LogIs(w, lines, durable, max);
    FullIsAll(lines);
    LogIs(World(s.disk, Some(s.store)), lines, if w.store.value.dirty then |lines| else durable, max);
  }

  /** The last part of `retain`, for an operation without a tombstone. */
  lemma AppendMoves(w: World, max: nat, ack: Ack, io: CallIo)
    requires Inv(w, max) && w.store.Some? && !w.store.value.dirty && ValidAck(ack) && ack.operationId !in w.store.value.index
    ensures var (r, t) := Retain(State(w.disk, w.store.value), max, ack, io);
            var w' := World(t.disk, Some(t.store));
            && Moves(w, w', max) && (CleanWorld(w) ==> CleanWorld(w')) && Logged(w.disk.current) <= Logged(w'.disk.current)
            && r != Ok(Replay) && r != Err(Corrupt)
            && (r.Ok? ==> Logged(w'.disk.synced) == Logged(w'.disk.current)
                          && ack.operationId in t.store.index && t.store.index[ack.operationId] == ack)
  {
    hide ValidAck, EncodeAck, DecodeAck;
    var s, lines, durable := State(w.disk, w.store.value), Logged(w.disk.current), |Logged(w.disk.synced)|;
    var line := EncodeAck(ack);
    var (r, t) := Retain(s, max, ack, io);
    var w' := World(t.disk, Some(t.store));
    LogIs(w, lines, durable, max);
    AckRoundTrip(ack);
    if s.store.bytes + |line| + 1 <= max && io.seek {
      if io.failedWrite.Some? {
        TornHolds(w.disk, lines, durable, max, line, io.failedWrite.value, io.cleanup);
        hide DiskHolds, ReplayLog;
        LogIs(w', lines, durable, max);
      } else {
        WrittenHolds(w.disk, lines, durable, max, line);
        ReplayExtends(lines, ack);
        JoinExtends(lines, line);
        FullIsAll(lines + [line]);
        hide Holds, ReplayLog;
        assert (lines + [line])[..durable] == lines[..durable];
        LogIs(w', lines + [line], if io.sync then |lines + [line]| else durable, max);
      }
    }
  }

  lemma RetainIsAppend(s: State, settled: State, max: nat, ack: Ack, io: CallIo)
    requires Settle(s, io) == Ok(settled)
    ensures Retain(s, max, ack, io).0 == Retain(settled, max, ack, io).0
    ensures ValidAck(ack) ==> Retain(s, max, ack, io).1 == Retain(settled, max, ack, io).1
  {
    hide ValidAck, EncodeAck;
    assert Settle(settled, io) == Ok(settled);
  }

  lemma RetainMoves(w: World, max: nat, ack: Ack, io: CallIo)
    requires Inv(w, max) && w.store.Some?
    ensures var (r, t) := Retain(State(w.disk, w.store.value), max, ack, io);
            var w' := World(t.disk, Some(t.store));
            && Moves(w, w', max) && (CleanWorld(w) ==> CleanWorld(w')) && r != Err(Corrupt)
            && Logged(w.disk.current) <= Logged(w'.disk.current)
            && (r.Ok? ==> ack.operationId in t.store.index && t.store.index[ack.operationId] == ack && !t.store.dirty)
            && (r.Ok? && (ack.operationId !in w.store.value.index || w.store.value.dirty) ==>
                  Logged(w'.disk.synced) == Logged(w'.disk.current))
            && (r.Ok? && ack.operationId in w.store.value.index && !w.store.value.dirty ==> w' == w)
  {
    var s := State(w.disk, w.store.value);
    var t := Retain(s, max, ack, io).1;
    if ValidAck(ack) && Settle(s, io).Ok? {
      var u := Settle(s, io).value;
      hide Inv, ValidAck, EncodeAck, CleanWorld;
      SettleMoves(w, max, io);
      if ack.operationId !in u.store.index {
        RetainIsAppend(s, u, max, ack, io);
        AppendMoves(World(u.disk, Some(u.store)), max, ack, io);
      }
    }
  }

  lemma ExistsMoves(w: World, max: nat, ack: Ack, io: CallIo)
    requires Inv(w, max) && w.store.Some?
    ensures var (r, t) := AcknowledgementExists(State(w.disk, w.store.value), ack, io);
            var w' := World(t.disk, Some(t.store));
            && Moves(w, w', max) && (CleanWorld(w) ==> CleanWorld(w')) && Logged(w.disk.current) <= Logged(w'.disk.current)
            && (r == Ok(true) ==> ack.operationId in t.store.index && t.store.index[ack.operationId] == ack && !t.store.dirty)
            && (w.store.value.dirty && r.Ok? ==> Logged(w'.disk.synced) == Logged(w'.disk.current))
            && (!w.store.value.dirty ==> w' == w)
  {
    hide Inv, CleanWorld;
    if Settle(State(w.disk, w.store.value), io).Ok? { SettleMoves(w, max, io); }
  }

  lemma CrashMoves(w: World, max: nat, kept: nat)
    requires Inv(w, max) && kept <= |w.disk.current|
    ensures Moves(w, World(AfterCrash(w.disk, kept), None), max)
    ensures Logged(AfterCrash(w.disk, kept).current) <= Logged(w.disk.current)
  {
    var lines, durable := Logged(w.disk.current), |Logged(w.disk.synced)|;
    hide DiskHolds, AfterCrash, ReplayLog;
    LogIs(w, lines, durable, max);
    var m := CrashHolds(w.disk, lines, durable, max, kept);
    LogGrows(lines[..m], lines);
    LogIs(World(AfterCrash(w.disk, kept), None), lines[..m], m, max);
    FullIsAll(lines[..m]);
  }

  lemma StepMoves(w: World, act: Act, max: nat)
    requires Inv(w, max)
    ensures Moves(w, Step(w, act, max).1, max)
    ensures CleanWorld(w) && (act.OpenLog? ==> OpensClean(w.disk)) ==> CleanWorld(Step(w, act, max).1)
    ensures IsCall(act) ==> Logged(w.disk.current) <= Logged(Step(w, act, max).1.disk.current)
  {
    hide Inv, Open, AfterCrash, Retain, AcknowledgementExists, OpensClean, ReplayLog;
    match act
    case OpenLog(io) => OpenMoves(w, max, io);
    case Crash(kept) => CrashMoves(w, max, if kept <= |w.disk.current| then kept else |w.disk.current|);
    case CallFence(_, _) =>
    case CallExists(ack, io) => if w.store.Some? { ExistsMoves(w, max, ack, io); }
    case CallRetain(ack, io) => if w.store.Some? { RetainMoves(w, max, ack, io); }
  }

  lemma {:induction false} RunInv(run: seq<World>, acts: seq<Act>, answers: seq<Answer>, max: nat, i: nat)
    requires IsRun(run, acts, answers, max) && i < |run|
    ensures Inv(run[i], max)
  {
    hide Inv, Step;
    if i == 0 {
      InitInv(max);
    } else {
      RunInv(run, acts, answers, max, i - 1);
      StepMoves(run[i - 1], acts[i - 1], max);
      assert (answers[i - 1], run[i]) == Step(run[i - 1], acts[i - 1], max);
    }
  }

  // ---- The fence ----

  predicate HeldIn(lines: seq<Text>, ack: Ack) {
    ReplayLog(lines).Ok? && ack.operationId in ReplayLog(lines).value && ReplayLog(lines).value[ack.operationId] == ack
  }

  /** The tombstone is durable. */
  predicate Tombstoned(w: World, ack: Ack) {
    HeldIn(Logged(w.disk.synced), ack)
  }

  lemma LogsReplay(w: World, max: nat)
    requires Inv(w, max)
    ensures ReplayLog(Logged(w.disk.current)).Ok? && ReplayLog(Logged(w.disk.synced)).Ok?
    ensures Submap(ReplayLog(Logged(w.disk.synced)).value, ReplayLog(Logged(w.disk.current)).value)
    ensures w.store.Some? ==> ReplayLog(Logged(w.disk.current)) == Ok(w.store.value.index)
  {
    hide ReplayLog, Submap, DiskHolds;
    LogIs(w, Logged(w.disk.current), |Logged(w.disk.synced)|, max);
    LogGrows(Logged(w.disk.synced), Logged(w.disk.current));
  }

  lemma TombstoneStays(w: World, act: Act, max: nat, ack: Ack)
    requires Inv(w, max) && Tombstoned(w, ack)
    ensures Tombstoned(Step(w, act, max).1, ack)
  {
    var w' := Step(w, act, max).1;
    hide Inv, Step, ReplayLog;
    StepMoves(w, act, max);
    LogsReplay(w', max);
    LogGrows(Logged(w.disk.synced), Logged(w'.disk.synced));
  }

  lemma {:induction false} TombstonedForever(run: seq<World>, acts: seq<Act>, answers: seq<Answer>, max: nat, ack: Ack, i: nat, j: nat)
    requires IsRun(run, acts, answers, max) && i <= j < |run| && Tombstoned(run[i], ack)
    ensures Tombstoned(run[j], ack)
    decreases j
  {
    hide Tombstoned, Step;
    if i < j {
      TombstonedForever(run, acts, answers, max, ack, i, j - 1);
      RunInv(run, acts, answers, max, j - 1);
      TombstoneStays(run[j - 1], acts[j - 1], max, ack);
      assert (answers[j - 1], run[j]) == Step(run[j - 1], acts[j - 1], max);
    }
  }

  /** What any call may answer once `ack` is retained: never Clear for its id, and no other acknowledgement of it. */
  predicate Respects(act: Act, answer: Answer, ack: Ack) {
    && (act.CallFence? && act.operationId == ack.operationId && answer.Fenced? ==>
          answer.fence == if act.requestDigest == ack.requestDigest then Ok(Acknowledged) else Err(Conflict))
    && (act.CallRetain? && act.ack.operationId == ack.operationId && answer.Retained? && answer.retention.Ok? ==>
          act.ack == ack && answer.retention == Ok(Replay))
    && (act.CallExists? && act.ack.operationId == ack.operationId && answer.Exists? && answer.held.Ok? ==>
          act.ack == ack && answer.held == Ok(true))
  }

  lemma TombstoneIsRespected(w: World, act: Act, max: nat, ack: Ack)
    requires Inv(w, max) && Tombstoned(w, ack)
    ensures Respects(act, Step(w, act, max).0, ack)
  {
    LogsReplay(w, max);
    hide Inv, ReplayLog, ValidAck, EncodeAck, Open, AfterCrash;
  }

  /** The call answered that this acknowledgement is retained. */
  predicate AnswersRetained(act: Act, answer: Answer) {
    || (act.CallRetain? && answer.Retained? && answer.retention.Ok?)
    || (act.CallExists? && answer == Exists(Ok(true)))
  }

  // The log always reopens, with exactly the acknowledgements that survived.
  lemma ReopensExactly(run: seq<World>, acts: seq<Act>, answers: seq<Answer>, max: nat, i: nat, io: OpenIo)
    requires IsRun(run, acts, answers, max) && i < |run|
    ensures var r := Open(run[i].disk, max, io).0;
            && (r.Ok? || r.error == Io)
            && (io.read && io.setLen && io.sync && io.seek ==> r.Ok?)
            && (r.Ok? ==> ReplayLog(Logged(run[i].disk.current)) == Ok(r.value.index))
  {
    hide Inv, Open, ReplayLog;
    RunInv(run, acts, answers, max, i);
    OpenMoves(run[i], max, io);
  }
}
