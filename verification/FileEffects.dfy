/** The durable file-effect store: events, the index they replay to, and every operation as a step over the
    disk and the store (crates/hand-guest/src/file_effects.rs). Outcomes of system calls are parameters. */
module FileEffects {
  import opened Wrappers
  import opened RecordCodec
  import opened CrashLog

  const RESULT_RESERVATION_BYTES: nat := 32 * 1024
  const MAX_RETAINED_FILE_EFFECTS: nat := 1024
  const MAX_FILE_EFFECT_LOG_BYTES: nat := 64 * 1024 * 1024

  datatype Kind = WriteKind | CopyImport | CopyExport

  datatype Identity = Identity(kind: Kind, operationId: Text, requestDigest: Text)

  /** A stored result: whether it is a copy, whose it is, its other fields as bytes, and the replay flag. */
  datatype Stored = Stored(copy: bool, operationId: Text, requestDigest: Text, body: Text, replayed: bool)

  datatype Event = Intent(identity: Identity) | Complete(identity: Identity, result: Stored)

  datatype Record = Record(identity: Identity, result: Option<Stored>, claimAvailable: bool)

  type Index = map<Text, Record>

  datatype Refusal = Conflict | Ambiguous | Capacity | Corrupt | Invalid | Io

  datatype Reservation = New | Replay(result: Stored)

  datatype Limits = Limits(effects: nat, bytes: nat)

  /** The limits of an ordinary open. */
  const DEFAULT_LIMITS: Limits := Limits(MAX_RETAINED_FILE_EFFECTS, MAX_FILE_EFFECT_LOG_BYTES)

  predicate ValidIdentity(identity: Identity) {
    ValidIdentifier(identity.operationId) && ValidDigest(identity.requestDigest)
  }

  predicate ValidResult(identity: Identity, result: Stored) {
    && result.copy == !identity.kind.WriteKind?
    && result.operationId == identity.operationId
    && result.requestDigest == identity.requestDigest
  }

  function MarkReplayed(result: Stored): Stored {
    result.(replayed := true)
  }

  // ---- Records as lines ----

  function KindField(kind: Kind): Text {
    match kind case WriteKind => [119] case CopyImport => [105] case CopyExport => [101]
  }

  function FlagField(flag: bool): Text {
    if flag then [49] else [48]
  }

  function FieldsOf(e: Event): seq<Text> {
    match e
    case Intent(id) => [[73], KindField(id.kind), id.operationId, id.requestDigest]
    case Complete(id, r) =>
      [[67], KindField(id.kind), id.operationId, id.requestDigest,
       FlagField(r.copy), r.operationId, r.requestDigest, r.body, FlagField(r.replayed)]
  }

  function KindOf(field: Text): Option<Kind> {
    if field == [119] then Some(WriteKind) else if field == [105] then Some(CopyImport)
    else if field == [101] then Some(CopyExport) else None
  }

  function EventOf(fields: seq<Text>): Option<Event> {
    if |fields| == 4 && fields[0] == [73] && KindOf(fields[1]).Some? then
      Some(Intent(Identity(KindOf(fields[1]).value, fields[2], fields[3])))
    else if |fields| == 9 && fields[0] == [67] && KindOf(fields[1]).Some? then
      Some(Complete(Identity(KindOf(fields[1]).value, fields[2], fields[3]),
                    Stored(fields[4] == [49], fields[5], fields[6], fields[7], fields[8] == [49])))
    else None
  }

  function EncodeEvent(e: Event): Text {
    EncodeFields(FieldsOf(e))
  }

  function DecodeEvent(line: Text): Option<Event> {
    var fields := DecodeFields(line);
    if fields.None? then None else EventOf(fields.value)
  }

  lemma EventRoundTrip(e: Event)
    ensures DecodeEvent(EncodeEvent(e)) == Some(e)
    ensures GoodLine(EncodeEvent(e))
  {
    hide EncodeFields, DecodeFrom, FieldsOf, EventOf;
    FieldsRoundTrip(FieldsOf(e));
    EncodedHasNoNewline(FieldsOf(e));
    FieldsName(e);
  }

  lemma FieldsName(e: Event)
    ensures EventOf(FieldsOf(e)) == Some(e) && FieldsOf(e) != []
  {
  }

  // ---- The index a log replays to ----

  function ApplyEvent(index: Index, e: Event): Result<Index, Refusal> {
    match e
    case Intent(id) =>
      if !ValidIdentity(id) then Err(Invalid)
      else if id.operationId in index then Err(Corrupt)
      else Ok(index[id.operationId := Record(id, None, false)])
    case Complete(id, result) =>
      if !ValidIdentity(id) || !ValidResult(id, result) then Err(Invalid)
      else if id.operationId !in index then Err(Corrupt)
      else
        var r := index[id.operationId];
        if r.identity != id || r.result.Some? then Err(Corrupt)
        else Ok(index[id.operationId := r.(result := Some(result))])
  }

  function ApplyLine(index: Index, line: Text): Result<Index, Refusal> {
    var e := DecodeEvent(line);
    if e.None? then Err(Corrupt) else ApplyEvent(index, e.value)
  }

  function ReplayLog(lines: seq<Text>): Result<Index, Refusal> {
    Fold(lines, map[], ApplyLine)
  }

  /** The operations that still owe a result. */
  function Incomplete(index: Index): set<Text> {
    set op | op in index && index[op].result.None?
  }

  function ReservedFor(index: Index): nat {
    |Incomplete(index)| * RESULT_RESERVATION_BYTES
  }

  // ---- The store ----

  datatype Store = Store(index: Index, bytes: nat, reservedBytes: nat, dirty: bool)

  datatype State = State(disk: Disk, store: Store)

  /** Taking the writer: an uncertain earlier write is forced durable first. */
  function Settle(s: State, io: CallIo): Result<State, Refusal> {
    if !s.store.dirty then Ok(s)
    else if io.flush then Ok(State(Sync(s.disk), s.store.(dirty := false)))
    else Err(Io)
  }

  function Append(s: State, data: Text, limits: Limits, io: CallIo): (Option<Refusal>, State) {
    var start := s.store.bytes;
    if start + |data| + s.store.reservedBytes > limits.bytes then (Some(Capacity), s)
    else if !io.seek then (Some(Io), s)
    else if io.failedWrite.Some? then
      var torn := Write(s.disk, start, Torn(data, io.failedWrite.value));
      (Some(Io), s.(disk := if io.cleanup then SetLen(torn, start) else torn))
    else (None, State(Write(s.disk, start, data), s.store.(bytes := start + |data|, dirty := true)))
  }

  /** The last sync of an operation; what was appended stays in the index either way. */
  function Finish<T>(s: State, answer: T, io: CallIo): (Result<T, Refusal>, State) {
    if io.sync then (Ok(answer), State(Sync(s.disk), s.store.(dirty := false))) else (Err(Io), s)
  }

  function Reserve(before: State, limits: Limits, id: Identity, io: CallIo): (Result<Reservation, Refusal>, State) {
    if !ValidIdentity(id) then (Err(Invalid), before)
    else if Settle(before, io).Err? then (Err(Io), before)
    else
      var s := Settle(before, io).value;
      var index := s.store.index;
      if id.operationId in index then
        var r := index[id.operationId];
        (if r.identity != id then Err(Conflict)
         else if r.result.Some? then Ok(Replay(MarkReplayed(r.result.value)))
         else if r.claimAvailable then Ok(New)
         else Err(Ambiguous), s)
      else if |index| >= limits.effects then (Err(Capacity), s)
      else
        var data := EncodeEvent(Intent(id)) + [NEWLINE];
        if s.store.bytes + s.store.reservedBytes + |data| + RESULT_RESERVATION_BYTES > limits.bytes then (Err(Capacity), s)
        else
          var (refused, t) := Append(s, data, limits, io);
          if refused.Some? then (Err(refused.value), t)
          else
            Finish(t.(store := t.store.(reservedBytes := t.store.reservedBytes + RESULT_RESERVATION_BYTES,
                                        index := index[id.operationId := Record(id, None, true)])),
                   New, io)
  }

  function Claim(before: State, id: Identity, io: CallIo): (Result<Reservation, Refusal>, State) {
    if !ValidIdentity(id) then (Err(Invalid), before)
    else if Settle(before, io).Err? then (Err(Io), before)
    else
      var s := Settle(before, io).value;
      var index := s.store.index;
      if id.operationId !in index then (Err(Ambiguous), s)
      else
        var r := index[id.operationId];
        if r.identity != id then (Err(Conflict), s)
        else if r.result.Some? then (Ok(Replay(MarkReplayed(r.result.value))), s)
        else if !r.claimAvailable then (Err(Ambiguous), s)
        else (Ok(New), s.(store := s.store.(index := index[id.operationId := r.(claimAvailable := false)])))
  }

  function CompleteEffect(before: State, limits: Limits, id: Identity, result: Stored, io: CallIo): (Result<Stored, Refusal>, State) {
    if !ValidIdentity(id) || !ValidResult(id, result) then (Err(Invalid), before)
    else if Settle(before, io).Err? then (Err(Io), before)
    else
      var s := Settle(before, io).value;
      var index := s.store.index;
      if id.operationId !in index then (Err(Ambiguous), s)
      else
        var r := index[id.operationId];
        if r.identity != id then (Err(Conflict), s)
        else if r.result.Some? then
          (if r.result.value == result then Ok(MarkReplayed(r.result.value)) else Err(Conflict), s)
        else if r.claimAvailable then (Err(Invalid), s)
        else
          var data := EncodeEvent(Complete(id, result)) + [NEWLINE];
          if |data| > RESULT_RESERVATION_BYTES then (Err(Capacity), s)
          else if s.store.reservedBytes < RESULT_RESERVATION_BYTES then (Err(Corrupt), s)
          else
            var lent := s.store.(reservedBytes := s.store.reservedBytes - RESULT_RESERVATION_BYTES);
            var (refused, t) := Append(s.(store := lent), data, limits, io);
            if refused.Some? then (Err(refused.value), t.(store := s.store))
            else Finish(t.(store := t.store.(index := index[id.operationId := r.(result := Some(result))])), result, io)
  }

  /** Opening the log: cut a torn tail and sync the cut, replay what is left, admit it only within the limits. */
  function Open(disk: Disk, limits: Limits, io: OpenIo): (Result<Store, Refusal>, Disk) {
    if !io.read then (Err(Io), disk)
    else if |disk.current| > limits.bytes then (Err(Capacity), disk)
    else
      var kept := ValidLen(disk.current);
      if kept != |disk.current| && !io.setLen then (Err(Io), disk)
      else if kept != |disk.current| && !io.sync then (Err(Io), SetLen(disk, kept))
      else
        var after := if kept != |disk.current| then Sync(SetLen(disk, kept)) else disk;
        var index := ReplayLog(Logged(disk.current));
        (if index.Err? then Err(index.error)
         else if |index.value| > limits.effects then Err(Capacity)
         else if kept + ReservedFor(index.value) > limits.bytes then Err(Capacity)
         else if !io.seek then Err(Io)
         else Ok(Store(index.value, kept, ReservedFor(index.value), false)), after)
  }
}
