/** The acknowledgement store as the program runs it (crates/hand-guest/src/acks.rs:91-280). */
module AckStoreClass {
  import opened Wrappers
  import opened RecordCodec
  import opened CrashLog
  import opened Acknowledgements

  method OpenAcks(disk: Disk, max: nat, io: OpenIo) returns (r: Result<Store, Refusal>, after: Disk)
    ensures (r, after) == Open(disk, max, io)
  {
    if !io.read { return Err(Io), disk; }
    var bytes := disk.current;
    if |bytes| > max { return Err(Capacity), disk; }
    var kept := FindValidLen(bytes);
    after := disk;
    if kept != |bytes| {
      if !io.setLen { return Err(Io), disk; }
      after := SetLen(disk, kept);
      if !io.sync { return Err(Io), after; }
      after := Sync(after);
      bytes := bytes[..kept];
    }
    assert bytes == disk.current[..kept];
    var index := ReplayFile(bytes, map[], ApplyLine);
    if index.Err? { return Err(index.error), after; }
    if !io.seek { return Err(Io), after; }
    return Ok(Store(index.value, kept, false)), after;
  }

  class AcknowledgementStore {
    var disk: Disk
    var records: Index
    var bytes: nat
    var dirty: bool
    const maxBytes: nat

    constructor (initial: Store, disk: Disk, maxBytes: nat)
      ensures View() == State(disk, initial) && this.maxBytes == maxBytes
    {
      this.disk := disk;
      this.records := initial.index;
      this.bytes := initial.bytes;
      this.dirty := initial.dirty;
      this.maxBytes := maxBytes;
    }

    ghost function View(): State
      reads this
    {
      State(disk, Store(records, bytes, dirty))
    }

    /** Forces an uncertain earlier write durable. */
    method SettleWriter(io: CallIo) returns (refusal: Option<Refusal>)
      modifies this
      ensures refusal.None? ==> Settle(old(View()), io) == Ok(View())
      ensures refusal.Some? ==> Settle(old(View()), io) == Err(refusal.value) && View() == old(View())
    {
      if dirty {
        if !io.flush { return Some(Io); }
        disk := Sync(disk);
        dirty := false;
      }
      return None;
    }

    method FenceSubmission(operationId: Text, requestDigest: Text) returns (r: Result<Fence, Refusal>)
      ensures r == Acknowledgements.FenceSubmission(View(), operationId, requestDigest)
    {
      if operationId !in records { return Ok(Clear); }
      if records[operationId].requestDigest == requestDigest { return Ok(Acknowledged); }
      return Err(Conflict);
    }

    method AcknowledgementExists(ack: Ack, io: CallIo) returns (r: Result<bool, Refusal>)
      modifies this
      ensures (r, View()) == Acknowledgements.AcknowledgementExists(old(View()), ack, io)
    {
      var refusal := SettleWriter(io);
      if refusal.Some? { return Err(refusal.value); }
      if ack.operationId !in records { return Ok(false); }
      if records[ack.operationId] == ack { return Ok(true); }
      return Err(Conflict);
    }

    method Retain(ack: Ack, io: CallIo) returns (r: Result<Retention, Refusal>)
      modifies this
      ensures (r, View()) == Acknowledgements.Retain(old(View()), maxBytes, ack, io)
    {
      hide ValidAck, EncodeAck;
      if !ValidAck(ack) { return Err(Invalid); }
      var refusal := SettleWriter(io);
      if refusal.Some? { return Err(refusal.value); }
      if ack.operationId in records {
        if records[ack.operationId] == ack { return Ok(Replay); }
        return Err(Conflict);
      }
      var data := EncodeAck(ack) + [NEWLINE];
      var next := bytes + |data|;
      if next > maxBytes { return Err(Capacity); }
      if !io.seek { return Err(Io); }
      if io.failedWrite.Some? {
        disk := Write(disk, bytes, Torn(data, io.failedWrite.value));
        if io.cleanup { disk := SetLen(disk, bytes); }
        return Err(Io);
      }
      disk := Write(disk, bytes, data);
      bytes := next;
      dirty := true;
      records := records[ack.operationId := ack];
      if !io.sync { return Err(Io); }
      disk := Sync(disk);
      dirty := false;
      return Ok(New);
    }
  }
}
