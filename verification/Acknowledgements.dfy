/** The durable acknowledgement fence as steps over the disk and the store (crates/hand-guest/src/acks.rs). */
module Acknowledgements {
  import opened Wrappers
  import opened RecordCodec
  import opened CrashLog

  /** One tombstone. The digest of the operation reference stands for the whole reference. */
  datatype Ack = Ack(operationId: Text, requestDigest: Text, refDigest: Text, terminalDigest: Text)

  type Index = map<Text, Ack>

  datatype Refusal = Conflict | Capacity | Corrupt | Invalid | Io

  datatype Retention = New | Replay

  datatype Fence = Clear | Acknowledged

  predicate ValidAck(ack: Ack) {
    ValidIdentifier(ack.operationId) && ValidDigest(ack.requestDigest) && ValidDigest(ack.refDigest) && ValidDigest(ack.terminalDigest)
  }

  function EncodeAck(ack: Ack): Text {
    EncodeFields([ack.operationId, ack.requestDigest, ack.refDigest, ack.terminalDigest])
  }

  function DecodeAck(line: Text): Option<Ack> {
    var fields := DecodeFields(line);
    if fields.None? || |fields.value| != 4 then None
    else Some(Ack(fields.value[0], fields.value[1], fields.value[2], fields.value[3]))
  }

  lemma AckRoundTrip(ack: Ack)
    ensures DecodeAck(EncodeAck(ack)) == Some(ack) && GoodLine(EncodeAck(ack))
  {
    hide EncodeFields, DecodeFrom;
    FieldsRoundTrip([ack.operationId, ack.requestDigest, ack.refDigest, ack.terminalDigest]);
    EncodedHasNoNewline([ack.operationId, ack.requestDigest, ack.refDigest, ack.terminalDigest]);
  }

  function ApplyLine(index: Index, line: Text): Result<Index, Refusal> {
    var ack := DecodeAck(line);
    if ack.None? then Err(Corrupt)
    else if !ValidAck(ack.value) then Err(Invalid)
    else if ack.value.operationId !in index then Ok(index[ack.value.operationId := ack.value])
    else if index[ack.value.operationId] == ack.value then Ok(index)
    else Err(Corrupt)
  }

  function ReplayLog(lines: seq<Text>): Result<Index, Refusal> {
    Fold(lines, map[], ApplyLine)
  }

  datatype Store = Store(index: Index, bytes: nat, dirty: bool)

  datatype State = State(disk: Disk, store: Store)

  function Settle(s: State, io: CallIo): Result<State, Refusal> {
    if !s.store.dirty then Ok(s)
    else if io.flush then Ok(State(Sync(s.disk), s.store.(dirty := false)))
    else Err(Io)
  }

  /** Memory only: it neither syncs nor writes. */
  function FenceSubmission(s: State, operationId: Text, requestDigest: Text): Result<Fence, Refusal> {
    if operationId !in s.store.index then Ok(Clear)
    else if s.store.index[operationId].requestDigest == requestDigest then Ok(Acknowledged)
    else Err(Conflict)
  }

  function AcknowledgementExists(before: State, ack: Ack, io: CallIo): (Result<bool, Refusal>, State) {
    if Settle(before, io).Err? then (Err(Io), before)
    else
      var s := Settle(before, io).value;
      if ack.operationId !in s.store.index then (Ok(false), s)
      else if s.store.index[ack.operationId] == ack then (Ok(true), s)
      else (Err(Conflict), s)
  }

  function Retain(before: State, max: nat, ack: Ack, io: CallIo): (Result<Retention, Refusal>, State) {
    if !ValidAck(ack) then (Err(Invalid), before)
    else if Settle(before, io).Err? then (Err(Io), before)
    else
      var s := Settle(before, io).value;
      if ack.operationId in s.store.index then
        (if s.store.index[ack.operationId] == ack then Ok(Replay) else Err(Conflict), s)
      else
        var start, data := s.store.bytes, EncodeAck(ack) + [NEWLINE];
        if start + |data| > max then (Err(Capacity), s)
        else if !io.seek then (Err(Io), s)
        else if io.failedWrite.Some? then
          var torn := Write(s.disk, start, Torn(data, io.failedWrite.value));
          (Err(Io), s.(disk := if io.cleanup then SetLen(torn, start) else torn))
        else
          var written, index := Write(s.disk, start, data), s.store.index[ack.operationId := ack];
          if io.sync then (Ok(New), State(Sync(written), Store(index, start + |data|, false)))
          else (Err(Io), State(written, Store(index, start + |data|, true)))
  }

  function Open(disk: Disk, max: nat, io: OpenIo): (Result<Store, Refusal>, Disk) {
    if !io.read then (Err(Io), disk)
    else if |disk.current| > max then (Err(Capacity), disk)
    else
      var kept := ValidLen(disk.current);
      if kept != |disk.current| && !io.setLen then (Err(Io), disk)
      else if kept != |disk.current| && !io.sync then (Err(Io), SetLen(disk, kept))
      else
        var after := if kept != |disk.current| then Sync(SetLen(disk, kept)) else disk;
        var index := ReplayLog(Logged(disk.current));
        (if index.Err? then Err(index.error) else if !io.seek then Err(Io) else Ok(Store(index.value, kept, false)), after)
  }

  // ---- Runs ----

  datatype World = World(disk: Disk, store: Option<Store>)

  datatype Act =
    | OpenLog(openIo: OpenIo)
    | CallFence(operationId: Text, requestDigest: Text)
    | CallExists(ack: Ack, io: CallIo)
    | CallRetain(ack: Ack, io: CallIo)
    | Crash(kept: nat)

  predicate IsCall(act: Act) {
    act.CallFence? || act.CallExists? || act.CallRetain?
  }

  datatype Answer =
    | Opened(refusal: Option<Refusal>)
    | Fenced(fence: Result<Fence, Refusal>)
    | Exists(held: Result<bool, Refusal>)
    | Retained(retention: Result<Retention, Refusal>)
    | NoAnswer

  /** An open replaces any store, as in a process restart; a crash of the machine also loses what was not durable. */
  function Step(w: World, act: Act, max: nat): (Answer, World) {
    match act
    case OpenLog(io) =>
      var (r, disk) := Open(w.disk, max, io);
      if r.Ok? then (Opened(None), World(disk, Some(r.value))) else (Opened(Some(r.error)), World(disk, None))
    case Crash(kept) => (NoAnswer, World(AfterCrash(w.disk, if kept <= |w.disk.current| then kept else |w.disk.current|), None))
    case CallFence(op, digest) =>
      if w.store.None? then (NoAnswer, w)
      else (Fenced(FenceSubmission(State(w.disk, w.store.value), op, digest)), w)
    case CallExists(ack, io) =>
      if w.store.None? then (NoAnswer, w)
      else
        var (r, t) := AcknowledgementExists(State(w.disk, w.store.value), ack, io);
        (Exists(r), World(t.disk, Some(t.store)))
    case CallRetain(ack, io) =>
      if w.store.None? then (NoAnswer, w)
      else
        var (r, t) := Retain(State(w.disk, w.store.value), max, ack, io);
        (Retained(r), World(t.disk, Some(t.store)))
  }

  predicate IsRun(run: seq<World>, acts: seq<Act>, answers: seq<Answer>, max: nat) {
    && |run| == |acts| + 1 == |answers| + 1
    && run[0] == World(Disk([], []), None)
    && forall i :: 0 <= i < |acts| ==> (answers[i], run[i + 1]) == Step(run[i], acts[i], max)
  }
}
