/** What every call of the acknowledgement fence answers and records, by the acknowledgement it meets, and that over
    whole runs nothing is acknowledged that nobody retained (crates/hand-guest/src/acks.rs:166-280). */
module AckAnswers {
  import opened Wrappers
  import opened RecordCodec
  import opened CrashLog
  import opened Acknowledgements
  import opened AckSafety

  /** The writer can be taken: no write is uncertain, or it can be forced durable now. */
  predicate Ready(s: State, io: CallIo) {
    !s.store.dirty || io.flush
  }

  /** Records, counter and readable bytes are as before, and no write is uncertain any more. */
  predicate OnlySettled(s: State, t: State) {
    && t.store == Store(s.store.index, s.store.bytes, false) && t.disk.current == s.disk.current
    && t.disk.synced == (if s.store.dirty then s.disk.current else s.disk.synced)
  }

  // The fence is clear exactly for unknown operations and closed exactly for the acknowledged request.
  lemma FenceAnswers(s: State, op: Text, digest: Text)
    ensures FenceSubmission(s, op, digest) == Ok(Clear) <==> op !in s.store.index
    ensures FenceSubmission(s, op, digest) == Ok(Acknowledged) <==> op in s.store.index && s.store.index[op].requestDigest == digest
    ensures FenceSubmission(s, op, digest) == Err(Conflict) <==> op in s.store.index && s.store.index[op].requestDigest != digest
  {
  }

  // An acknowledgement is reported absent exactly for unknown operations, present exactly when it is the one retained,
  // and a conflict otherwise; the question itself changes nothing.
  lemma ExistsAnswers(s: State, ack: Ack, io: CallIo)
    ensures var (answer, t) := AcknowledgementExists(s, ack, io);
            if !Ready(s, io) then answer == Err(Io) && t == s
            else
              && OnlySettled(s, t)
              && (answer == Ok(false) <==> ack.operationId !in s.store.index)
              && (answer == Ok(true) <==> ack.operationId in s.store.index && s.store.index[ack.operationId] == ack)
              && (answer == Err(Conflict) <==> ack.operationId in s.store.index && s.store.index[ack.operationId] != ack)
  {
  }

  // A known operation replays exactly its own acknowledgement.
  lemma RetainKnown(s: State, max: nat, ack: Ack, io: CallIo)
    requires ValidAck(ack) && Ready(s, io) && ack.operationId in s.store.index
    ensures var (answer, t) := Retain(s, max, ack, io);
            OnlySettled(s, t) && answer == (if s.store.index[ack.operationId] == ack then Ok(Replay) else Err(Conflict))
  {
    hide ValidAck, EncodeAck;
  }

  lemma RetainRefused(s: State, max: nat, ack: Ack, io: CallIo)
    requires !ValidAck(ack) || !Ready(s, io)
    ensures Retain(s, max, ack, io) == (Err(if ValidAck(ack) then Io else Invalid), s)
  {
    hide ValidAck, EncodeAck;
  }

  // A fresh acknowledgement is refused for capacity exactly when its line does not fit, answers New exactly when the
  // line is durable, and is in the fence from the moment its line is written.
  lemma RetainFresh(s: State, max: nat, ack: Ack, io: CallIo)
    requires ValidAck(ack) && Ready(s, io) && ack.operationId !in s.store.index
    ensures var (answer, t) := Retain(s, max, ack, io);
            var line := EncodeAck(ack) + [NEWLINE];
            if s.store.bytes + |line| > max then answer == Err(Capacity) && OnlySettled(s, t)
            else if !io.seek then answer == Err(Io) && OnlySettled(s, t)
            else if io.failedWrite.Some? then
              && answer == Err(Io) && t.store == Store(s.store.index, s.store.bytes, false)
              && (io.cleanup && s.store.bytes <= |s.disk.current| ==> t.disk.current == s.disk.current[..s.store.bytes])
            else
              && answer == (if io.sync then Ok(New) else Err(Io))
              && t.store == Store(s.store.index[ack.operationId := ack], s.store.bytes + |line|, !io.sync)
              && t.disk.current == Write(s.disk, s.store.bytes, line).current && (io.sync ==> t.disk.synced == t.disk.current)
  {
    hide ValidAck, EncodeAck, Torn;
  }

  // ---- Over runs ----

  /** The call retains exactly this acknowledgement; after a failed sync its line may still survive. */
  predicate Retains(act: Act, answer: Answer, ack: Ack) {
    act.CallRetain? && act.ack == ack && answer in {Retained(Ok(New)), Retained(Err(Io))}
  }

  /** What the store records, and what the file will replay to. */
  predicate Records(w: World, ack: Ack) {
    HeldIn(Logged(w.disk.current), ack)
  }

  lemma RecordedIsIndexed(w: World, max: nat, ack: Ack)
    requires Inv(w, max) && w.store.Some?
    ensures Records(w, ack) <==> ack.operationId in w.store.value.index && w.store.value.index[ack.operationId] == ack
  {
    hide Inv, ReplayLog;
    LogsReplay(w, max);
  }

  // An acknowledgement appears only in a call that retains it.
  lemma RecordComesFrom(w: World, act: Act, max: nat, ack: Ack)
    requires Inv(w, max) && Records(Step(w, act, max).1, ack)
    ensures Records(w, ack) || Retains(act, Step(w, act, max).0, ack)
  {
    var w' := Step(w, act, max).1;
    assert Inv(w', max) by { hide Inv, Step; StepMoves(w, act, max); }
    if IsCall(act) && w.store.Some? {
      hide Inv, Records, Open, AfterCrash, Retain, AcknowledgementExists;
      RecordedIsIndexed(w, max, ack);
      RecordedIsIndexed(w', max, ack);
      CallEnters(State(w.disk, w.store.value), max, act);
    } else if act.OpenLog? {
      hide Inv, ReplayLog, Open;
      OpenMoves(w, max, act.openIo);
    } else if act.Crash? {
      var kept := if act.kept <= |w.disk.current| then act.kept else |w.disk.current|;
      hide Inv, AfterCrash, ReplayLog;
      CrashMoves(w, max, kept);
      LogsReplay(w, max);
      LogGrows(Logged(w'.disk.current), Logged(w.disk.current));
    }
  }

  // What each call may do to the records.
  lemma CallEnters(s: State, max: nat, act: Act)
    ensures act.CallExists? ==> AcknowledgementExists(s, act.ack, act.io).1.store.index == s.store.index
    ensures act.CallRetain? ==>
              var (answer, t) := Retain(s, max, act.ack, act.io);
              || t.store.index == s.store.index
              || (t.store.index == s.store.index[act.ack.operationId := act.ack] && answer in {Ok(New), Err(Io)})
  {
    hide ValidAck, EncodeAck, Torn, SetLen, Write, Sync;
  }

  // Over every run, through restarts and crashes: whatever the log holds, some call retained, exactly so.
  lemma {:induction false} NothingIsInvented(run: seq<World>, acts: seq<Act>, answers: seq<Answer>, max: nat, ack: Ack, i: nat)
    returns (m: nat)
    requires IsRun(run, acts, answers, max) && i < |run| && Records(run[i], ack)
    ensures m < i && Retains(acts[m], answers[m], ack)
    decreases i
  {
    hide Step, Inv, Records, Retains;
    if i == 0 {
      NothingRecorded(ack);
      assert false;
    }
    RunInv(run, acts, answers, max, i - 1);
    assert (answers[i - 1], run[i]) == Step(run[i - 1], acts[i - 1], max);
    RecordComesFrom(run[i - 1], acts[i - 1], max, ack);
    if Retains(acts[i - 1], answers[i - 1], ack) {
      m := i - 1;
    } else {
      m := NothingIsInvented(run, acts, answers, max, ack, i - 1);
    }
  }

  lemma NothingRecorded(ack: Ack)
    ensures !Records(World(Disk([], []), None), ack)
  {
    assert Logged([]) == [];
  }

  // A submission is held back, or an acknowledgement reported, only because an earlier call retained it.
  lemma AcknowledgedWasRetained(run: seq<World>, acts: seq<Act>, answers: seq<Answer>, max: nat, i: nat) returns (m: nat)
    requires IsRun(run, acts, answers, max) && i < |acts|
    requires answers[i] in {Fenced(Ok(Acknowledged)), Exists(Ok(true)), Retained(Ok(Replay))}
    ensures m < i && acts[m].CallRetain? && answers[m] in {Retained(Ok(New)), Retained(Err(Io))}
    ensures acts[i].CallFence? ==> acts[m].ack.operationId == acts[i].operationId && acts[m].ack.requestDigest == acts[i].requestDigest
    ensures acts[i].CallExists? || acts[i].CallRetain? ==> acts[m].ack == acts[i].ack
  {
    var w := run[i];
    assert (answers[i], run[i + 1]) == Step(w, acts[i], max);
    RunInv(run, acts, answers, max, i);
    hide Inv, Records, ValidAck, EncodeAck, Torn, SetLen, Write, Open, AfterCrash;
    var ack := if acts[i].CallFence? then w.store.value.index[acts[i].operationId] else acts[i].ack;
    var op := if acts[i].CallFence? then acts[i].operationId else acts[i].ack.operationId;
    assert op in w.store.value.index && w.store.value.index[op] == ack;
    IndexedUnderItsId(run, acts, answers, max, i, op);
    RecordedIsIndexed(w, max, ack);
    hide Step;
    m := NothingIsInvented(run, acts, answers, max, ack, i);
  }

  lemma {:induction false} ReplayedUnderItsId(lines: seq<Text>, op: Text)
    requires ReplayLog(lines).Ok? && op in ReplayLog(lines).value
    ensures ReplayLog(lines).value[op].operationId == op
  {
    if lines != [] {
      var before := ReplayLog(lines[..|lines| - 1]).value;
      hide DecodeAck, ValidAck;
      if op in before { ReplayedUnderItsId(lines[..|lines| - 1], op); }
    }
  }

  lemma IndexedUnderItsId(run: seq<World>, acts: seq<Act>, answers: seq<Answer>, max: nat, i: nat, op: Text)
    requires IsRun(run, acts, answers, max) && i < |run| && run[i].store.Some? && op in run[i].store.value.index
    ensures run[i].store.value.index[op].operationId == op
  {
    hide Inv, Step, ReplayLog;
    RunInv(run, acts, answers, max, i);
    LogsReplay(run[i], max);
    ReplayedUnderItsId(Logged(run[i].disk.current), op);
  }

  // ---- What a log replays to ----

  /** Some line of the log is this acknowledgement. */
  predicate Logs(lines: seq<Text>, ack: Ack) {
    exists i :: 0 <= i < |lines| && DecodeAck(lines[i]) == Some(ack)
  }

  /** Every line is a valid acknowledgement, and no two of them differ about an operation. */
  ghost predicate WellFormed(lines: seq<Text>) {
    && (forall i :: 0 <= i < |lines| ==> DecodeAck(lines[i]).Some? && ValidAck(DecodeAck(lines[i]).value))
    && (forall a, b :: Logs(lines, a) && Logs(lines, b) && a.operationId == b.operationId ==> a == b)
  }

  /** The index holds exactly the acknowledgements of the log. */
  ghost predicate Describes(index: Index, lines: seq<Text>) {
    && (forall op :: op in index ==> index[op].operationId == op && Logs(lines, index[op]))
    && (forall ack :: Logs(lines, ack) ==> ack.operationId in index && index[ack.operationId] == ack)
  }

  lemma LogsMore(lines: seq<Text>, line: Text, ack: Ack)
    ensures Logs(lines + [line], ack) <==> Logs(lines, ack) || DecodeAck(line) == Some(ack)
  {
    hide DecodeAck;
    if Logs(lines, ack) {
      var i :| 0 <= i < |lines| && DecodeAck(lines[i]) == Some(ack);
      assert (lines + [line])[i] == lines[i];
    }
    if DecodeAck(line) == Some(ack) { assert (lines + [line])[|lines|] == line; }
    if Logs(lines + [line], ack) {
      var i :| 0 <= i < |lines + [line]| && DecodeAck((lines + [line])[i]) == Some(ack);
      if i < |lines| { assert DecodeAck(lines[i]) == Some(ack); }
    }
  }

  // A log is accepted exactly when its lines are valid acknowledgements that agree, and replays to exactly those.
  lemma {:induction false} ReplaysIff(lines: seq<Text>)
    ensures ReplayLog(lines).Ok? <==> WellFormed(lines)
    ensures ReplayLog(lines).Ok? ==> Describes(ReplayLog(lines).value, lines)
    decreases |lines|
  {
    if lines != [] {
      var init, line := lines[..|lines| - 1], lines[|lines| - 1];
      ReplaysIff(init);
      assert lines == init + [line];
      assert ReplayLog(lines) == if ReplayLog(init).Err? then ReplayLog(init) else ApplyLine(ReplayLog(init).value, line);
      hide ReplayLog, DecodeAck, ValidAck, Logs;
      if WellFormed(lines) { FirstLines(init, line); }
      if ReplayLog(init).Ok? { OneMoreLine(ReplayLog(init).value, init, line); }
    } else {
      hide DecodeAck;
      assert ReplayLog(lines) == Ok(map[]);
    }
  }

  lemma FirstLines(init: seq<Text>, line: Text)
    requires WellFormed(init + [line])
    ensures WellFormed(init)
  {
    hide DecodeAck, ValidAck, Logs;
    forall i | 0 <= i < |init| ensures DecodeAck(init[i]).Some? && ValidAck(DecodeAck(init[i]).value) {
      assert (init + [line])[i] == init[i];
    }
    forall a, b | Logs(init, a) && Logs(init, b) && a.operationId == b.operationId ensures a == b {
      LogsMore(init, line, a);
      LogsMore(init, line, b);
    }
  }

  lemma OneMoreLine(index: Index, init: seq<Text>, line: Text)
    requires Describes(index, init) && WellFormed(init)
    ensures ApplyLine(index, line).Ok? <==> WellFormed(init + [line])
    ensures ApplyLine(index, line).Ok? ==> Describes(ApplyLine(index, line).value, init + [line])
  {
    var all, ack := init + [line], DecodeAck(line);
    assert all[|init|] == line;
    hide DecodeAck, ValidAck, Logs;
    forall a ensures Logs(all, a) <==> Logs(init, a) || ack == Some(a) { LogsMore(init, line, a); }
    if ApplyLine(index, line).Ok? {
      forall i | 0 <= i < |all| ensures DecodeAck(all[i]).Some? && ValidAck(DecodeAck(all[i]).value) {
        if i < |init| { assert all[i] == init[i]; }
      }
    } else if ack.Some? && ValidAck(ack.value) {
      var other := index[ack.value.operationId];
      assert Logs(all, other) && Logs(all, ack.value) && other != ack.value;
    }
  }

  // Whatever is on the disk: the fence opens exactly when the system calls that are needed succeed, the file is within
  // the bound and its complete lines agree; it then holds exactly those, and a torn tail is gone for good.
  lemma OpensIff(disk: Disk, max: nat, io: OpenIo)
    ensures var (r, after) := Open(disk, max, io);
            var torn := ValidLen(disk.current) != |disk.current|;
            && (r.Ok? <==> && io.read && (torn ==> io.setLen && io.sync) && io.seek
                           && |disk.current| <= max && WellFormed(Logged(disk.current)))
            && (r.Ok? ==>
                  && Describes(r.value.index, Logged(disk.current)) && r.value.bytes == ValidLen(disk.current) && !r.value.dirty
                  && after.current == disk.current[..r.value.bytes] && (torn ==> after.synced == after.current))
  {
    ReplaysIff(Logged(disk.current));
    hide ReplayLog, WellFormed, Describes, Logged;
    assert disk.current[..|disk.current|] == disk.current;
  }
}
