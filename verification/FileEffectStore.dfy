/** The file-effect store as the program runs it: replay loops over the file, then methods that update the file,
    the counters and the record map in place (crates/hand-guest/src/file_effects.rs:82-377). */
module FileEffectStoreClass {
  import opened Wrappers
  import opened RecordCodec
  import opened CrashLog
  import opened FileEffects

  // ---- Opening ----

  /** Counts the records that still owe a result. */
  method CountIncomplete(index: Index) returns (n: nat)
    ensures n == |Incomplete(index)|
  {
    var left := index.Keys;
    n := 0;
    ghost var owed: set<Text> := {};
    while left != {}
      invariant left <= index.Keys
      invariant owed == set op | op in index && op !in left && index[op].result.None?
      invariant n == |owed|
      decreases |left|
    {
      var op :| op in left;
      if index[op].result.None? {
        n := n + 1;
        owed := owed + {op};
      }
      left := left - {op};
    }
    assert owed == Incomplete(index);
  }

  method OpenLog(disk: Disk, limits: Limits, io: OpenIo) returns (r: Result<Store, Refusal>, after: Disk)
    ensures (r, after) == Open(disk, limits, io)
  {
    if !io.read { return Err(Io), disk; }
    var bytes := disk.current;
    if |bytes| > limits.bytes { return Err(Capacity), disk; }
    var kept := FindValidLen(bytes);
    after := disk;
    if kept != |bytes| {
      if !io.setLen { return Err(Io), disk; }
      after := SetLen(disk, kept);
      if !io.sync { return Err(Io), after; }
      after := Sync(after);
      bytes := bytes[..kept];
    }
    assert bytes == disk.current[..kept];
    var index := ReplayFile(bytes, map[], ApplyLine);
    if index.Err? { return Err(index.error), after; }
    if |index.value| > limits.effects { return Err(Capacity), after; }
    var incomplete := CountIncomplete(index.value);
    var reserved := incomplete * RESULT_RESERVATION_BYTES;
    if kept + reserved > limits.bytes { return Err(Capacity), after; }
    if !io.seek { return Err(Io), after; }
    return Ok(Store(index.value, kept, reserved, false)), after;
  }

  // ---- The open store ----

  class FileEffectStore {
    var disk: Disk
    var records: Index
    var bytes: nat
    var reservedResultBytes: nat
    var dirty: bool
    const limits: Limits

    /** Takes over what an open produced. */
    constructor (initial: Store, disk: Disk, limits: Limits)
      ensures View() == State(disk, initial) && this.limits == limits
    {
      this.disk := disk;
      this.records := initial.index;
      this.bytes := initial.bytes;
      this.reservedResultBytes := initial.reservedBytes;
      this.dirty := initial.dirty;
      this.limits := limits;
    }

    ghost function View(): State
      reads this
    {
      State(disk, Store(records, bytes, reservedResultBytes, dirty))
    }

    /** Takes the writer, forcing an uncertain write durable first. */
    method TakeWriter(io: CallIo) returns (refusal: Option<Refusal>)
      modifies this
      ensures refusal.None? ==> Settle(old(View()), io) == Ok(View())
      ensures refusal.Some? ==> Settle(old(View()), io) == Err(refusal.value) && View() == old(View())
    {
      if dirty {
        if !io.flush { return Some(Io); }
        disk := Sync(disk);
        dirty := false;
      }
      return None;
    }

    method AppendRecord(data: Text, io: CallIo) returns (refusal: Option<Refusal>)
      modifies this
      ensures (refusal, View()) == Append(old(View()), data, limits, io)
    {
      var next := bytes + |data|;
      if next + reservedResultBytes > limits.bytes { return Some(Capacity); }
      if !io.seek { return Some(Io); }
      if io.failedWrite.Some? {
        disk := Write(disk, bytes, Torn(data, io.failedWrite.value));
        if io.cleanup { disk := SetLen(disk, bytes); }
        return Some(Io);
      }
      disk := Write(disk, bytes, data);
      bytes := next;
      dirty := true;
      return None;
    }

    method SyncLog(io: CallIo) returns (refusal: Option<Refusal>)
      modifies this
      ensures refusal == (if io.sync then None else Some(Io))
      ensures View() == if io.sync then State(Sync(old(disk)), old(View()).store.(dirty := false)) else old(View())
    {
      if !io.sync { return Some(Io); }
      disk := Sync(disk);
      dirty := false;
      return None;
    }

    method Reserve(id: Identity, io: CallIo) returns (r: Result<Reservation, Refusal>)
      modifies this
      ensures (r, View()) == FileEffects.Reserve(old(View()), limits, id, io)
    {
      if !ValidIdentity(id) { return Err(Invalid); }
      var refusal := TakeWriter(io);
      if refusal.Some? { return Err(refusal.value); }
      if id.operationId in records {
        var record := records[id.operationId];
        if record.identity != id { return Err(Conflict); }
        if record.result.Some? { return Ok(Replay(MarkReplayed(record.result.value))); }
        if record.claimAvailable { return Ok(New); }
        return Err(Ambiguous);
      }
      if |records| >= limits.effects { return Err(Capacity); }
      var data := EncodeEvent(Intent(id)) + [NEWLINE];
      if bytes + reservedResultBytes + |data| + RESULT_RESERVATION_BYTES > limits.bytes { return Err(Capacity); }
      refusal := AppendRecord(data, io);
      if refusal.Some? { return Err(refusal.value); }
      reservedResultBytes := reservedResultBytes + RESULT_RESERVATION_BYTES;
      records := records[id.operationId := Record(id, None, true)];
      refusal := SyncLog(io);
      if refusal.Some? { return Err(refusal.value); }
      return Ok(New);
    }

    method Claim(id: Identity, io: CallIo) returns (r: Result<Reservation, Refusal>)
      modifies this
      ensures (r, View()) == FileEffects.Claim(old(View()), id, io)
    {
      if !ValidIdentity(id) { return Err(Invalid); }
      var refusal := TakeWriter(io);
      if refusal.Some? { return Err(refusal.value); }
      if id.operationId !in records { return Err(Ambiguous); }
      var record := records[id.operationId];
      if record.identity != id { return Err(Conflict); }
      if record.result.Some? { return Ok(Replay(MarkReplayed(record.result.value))); }
      if !record.claimAvailable { return Err(Ambiguous); }
      records := records[id.operationId := record.(claimAvailable := false)];
      return Ok(New);
    }

    method CompleteEffect(id: Identity, result: Stored, io: CallIo) returns (r: Result<Stored, Refusal>)
      modifies this
      ensures (r, View()) == FileEffects.CompleteEffect(old(View()), limits, id, result, io)
    {
      hide ValidIdentity, ValidResult, EncodeEvent, Write, SetLen, Torn;
      if !ValidIdentity(id) || !ValidResult(id, result) { return Err(Invalid); }
      var refusal := TakeWriter(io);
      if refusal.Some? { return Err(refusal.value); }
      if id.operationId !in records { return Err(Ambiguous); }
      var record := records[id.operationId];
      if record.identity != id { return Err(Conflict); }
      if record.result.Some? {
        if record.result.value != result { return Err(Conflict); }
        return Ok(MarkReplayed(record.result.value));
      }
      if record.claimAvailable { return Err(Invalid); }
      var data := EncodeEvent(Complete(id, result)) + [NEWLINE];
      if |data| > RESULT_RESERVATION_BYTES { return Err(Capacity); }
      if reservedResultBytes < RESULT_RESERVATION_BYTES { return Err(Corrupt); }
      reservedResultBytes := reservedResultBytes - RESULT_RESERVATION_BYTES;
      refusal := AppendRecord(data, io);
      if refusal.Some? {
        reservedResultBytes := reservedResultBytes + RESULT_RESERVATION_BYTES;
        return Err(refusal.value);
      }
      records := records[id.operationId := record.(result := Some(result))];
      refusal := SyncLog(io);
      if refusal.Some? { return Err(refusal.value); }
      return Ok(result);
    }
  }
}
