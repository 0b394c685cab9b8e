/** Which file-effect logs are accepted and exactly what they replay to, said about the events in them, and what opening
    such a log answers (crates/hand-guest/src/file_effects.rs:82-192). */
module LogContents {
  import opened Wrappers
  import opened RecordCodec
  import opened CrashLog
  import opened FileEffects

  /** Some line of the log is this event. */
  predicate Logs(lines: seq<Text>, e: Event) {
    exists i :: 0 <= i < |lines| && DecodeEvent(lines[i]) == Some(e)
  }

  /** After these lines the event may come: an intent for a new operation, or the one completion of an intent. */
  ghost predicate MayFollow(lines: seq<Text>, e: Event) {
    match e
    case Intent(id) =>
      ValidIdentity(id) && forall other :: Logs(lines, Intent(other)) ==> other.operationId != id.operationId
    case Complete(id, result) =>
      && ValidIdentity(id) && ValidResult(id, result) && Logs(lines, Intent(id))
      && forall other, given :: Logs(lines, Complete(other, given)) ==> other.operationId != id.operationId
  }

  /** Every line is an event that may follow the lines before it. */
  ghost predicate WellFormed(lines: seq<Text>) {
    forall i :: 0 <= i < |lines| ==> LineFollows(lines, i)
  }

  ghost predicate LineFollows(lines: seq<Text>, i: nat)
    requires i < |lines|
  {
    DecodeEvent(lines[i]).Some? && MayFollow(lines[..i], DecodeEvent(lines[i]).value)
  }

  /** The index holds exactly the operations with an intent, each under its identity and with its completion, if any. */
  ghost predicate Describes(index: Index, lines: seq<Text>) {
    && (forall op :: op in index ==> Backed(index[op], op, lines))
    && (forall id :: Logs(lines, Intent(id)) ==> id.operationId in index && index[id.operationId].identity == id)
    && (forall id, result :: Logs(lines, Complete(id, result)) ==>
          id.operationId in index && index[id.operationId].identity == id && index[id.operationId].result == Some(result))
  }

  /** The record is what the log says about the operation. */
  predicate Backed(r: Record, op: Text, lines: seq<Text>) {
    && r.identity.operationId == op && !r.claimAvailable && Logs(lines, Intent(r.identity))
    && (r.result.Some? ==> Logs(lines, Complete(r.identity, r.result.value)))
  }

  lemma LogsMore(lines: seq<Text>, line: Text, e: Event)
    ensures Logs(lines + [line], e) <==> Logs(lines, e) || DecodeEvent(line) == Some(e)
  {
    hide DecodeEvent;
    if Logs(lines, e) {
      var i :| 0 <= i < |lines| && DecodeEvent(lines[i]) == Some(e);
      assert (lines + [line])[i] == lines[i];
    }
    if DecodeEvent(line) == Some(e) { assert (lines + [line])[|lines|] == line; }
    if Logs(lines + [line], e) {
      var i :| 0 <= i < |lines + [line]| && DecodeEvent((lines + [line])[i]) == Some(e);
      if i < |lines| { assert DecodeEvent(lines[i]) == Some(e); }
    }
  }

  // One event is applied exactly when it may follow.
  lemma AppliesIff(index: Index, lines: seq<Text>, e: Event)
    requires Describes(index, lines)
    ensures ApplyEvent(index, e).Ok? <==> MayFollow(lines, e)
  {
    hide Logs, ValidIdentity, ValidResult;
    match e
    case Intent(id) =>
      if id.operationId in index { assert Backed(index[id.operationId], id.operationId, lines); }
    case Complete(id, result) =>
      if id.operationId in index { assert Backed(index[id.operationId], id.operationId, lines); }
  }

  lemma AppliedDescribes(index: Index, lines: seq<Text>, line: Text, e: Event)
    requires Describes(index, lines) && DecodeEvent(line) == Some(e) && ApplyEvent(index, e).Ok?
    ensures Describes(ApplyEvent(index, e).value, lines + [line])
  {
    hide Logs, ValidIdentity, ValidResult, DecodeEvent;
    var after, all := ApplyEvent(index, e).value, lines + [line];
    forall op | op in after ensures Backed(after[op], op, all) {
      LogsMore(lines, line, Intent(after[op].identity));
      if after[op].result.Some? { LogsMore(lines, line, Complete(after[op].identity, after[op].result.value)); }
      if op in index { assert Backed(index[op], op, lines); }
    }
    forall id | Logs(all, Intent(id)) ensures id.operationId in after && after[id.operationId].identity == id {
      LogsMore(lines, line, Intent(id));
    }
    forall id, result | Logs(all, Complete(id, result))
      ensures id.operationId in after && after[id.operationId].identity == id && after[id.operationId].result == Some(result)
    {
      LogsMore(lines, line, Complete(id, result));
    }
  }

  // A log is accepted exactly when each of its lines is an event that may follow the lines before it, and then it
  // replays to exactly the intents and completions in it.
  lemma {:induction false} ReplaysIff(lines: seq<Text>)
    ensures ReplayLog(lines).Ok? <==> WellFormed(lines)
    ensures ReplayLog(lines).Ok? ==> Describes(ReplayLog(lines).value, lines)
    decreases |lines|
  {
    if lines != [] {
      var init, line := lines[..|lines| - 1], lines[|lines| - 1];
      ReplaysIff(init);
      assert lines == init + [line];
      PrefixWellFormed(lines);
      assert ReplayLog(lines) == if ReplayLog(init).Err? then ReplayLog(init) else ApplyLine(ReplayLog(init).value, line);
      hide ReplayLog, DecodeEvent, ApplyEvent, WellFormed, Describes, MayFollow;
      if ReplayLog(init).Ok? && DecodeEvent(line).Some? {
        AppliesIff(ReplayLog(init).value, init, DecodeEvent(line).value);
        if ReplayLog(lines).Ok? { AppliedDescribes(ReplayLog(init).value, init, line, DecodeEvent(line).value); }
      }
    } else {
      hide DecodeEvent;
      assert ReplayLog(lines) == Ok(map[]);
    }
  }

  lemma PrefixWellFormed(lines: seq<Text>)
    requires lines != []
    ensures WellFormed(lines) <==> WellFormed(lines[..|lines| - 1]) && LineFollows(lines, |lines| - 1)
  {
    hide DecodeEvent, MayFollow;
    var init := lines[..|lines| - 1];
    assert forall i :: 0 <= i < |init| ==> lines[..i] == init[..i];
    assert forall i :: 0 <= i < |init| ==> (LineFollows(lines, i) <==> LineFollows(init, i));
  }

  // ---- Opening ----

  /** The complete records of the file form a log within both limits, with room for every result it still owes. */
  ghost predicate Admissible(disk: Disk, limits: Limits) {
    && |disk.current| <= limits.bytes && WellFormed(Logged(disk.current)) && ReplayLog(Logged(disk.current)).Ok?
    && |ReplayLog(Logged(disk.current)).value| <= limits.effects
    && ValidLen(disk.current) + |Incomplete(ReplayLog(Logged(disk.current)).value)| * RESULT_RESERVATION_BYTES <= limits.bytes
  }

  // Whatever is on the disk: it opens exactly when the system calls that are needed succeed and the log is admissible.
  // The store then holds exactly the log, nothing may be claimed, and a torn tail is gone for good.
  lemma OpensIff(disk: Disk, limits: Limits, io: OpenIo)
    ensures var (r, after) := Open(disk, limits, io);
            var torn := ValidLen(disk.current) != |disk.current|;
            && (r.Ok? <==> io.read && (torn ==> io.setLen && io.sync) && io.seek && Admissible(disk, limits))
            && (r.Ok? ==>
                  && Describes(r.value.index, Logged(disk.current)) && r.value.bytes == ValidLen(disk.current) && !r.value.dirty
                  && r.value.reservedBytes == |Incomplete(r.value.index)| * RESULT_RESERVATION_BYTES
                  && after.current == disk.current[..r.value.bytes] && (torn ==> after.synced == after.current))
  {
    ReplaysIff(Logged(disk.current));
    hide ReplayLog, WellFormed, Describes, Logged, Incomplete;
    assert disk.current[..|disk.current|] == disk.current;
  }
}
