/** Runs of the file-effect store: any calls, failed system calls, process restarts and machine crashes. */
module FileEffectRuns {
  import opened Wrappers
  import opened RecordCodec
  import opened CrashLog
  import opened FileEffects
  import opened FileEffectSafety

  /** The disk, and the store of the running process if it opened the log. */
  datatype World = World(disk: Disk, store: Option<Store>)

  /** Opening replaces any store: the process that held it is gone, but what it wrote is still readable. A crash
      of the machine also loses what was not durable. */
  datatype Act =
    | OpenLog(openIo: OpenIo)
    | CallReserve(id: Identity, io: CallIo)
    | CallClaim(id: Identity, io: CallIo)
    | CallComplete(id: Identity, result: Stored, io: CallIo)
    | Crash(kept: nat)

  predicate IsCall(act: Act) {
    act.CallReserve? || act.CallClaim? || act.CallComplete?
  }

  datatype Answer =
    | Opened(refusal: Option<Refusal>)
    | Reserved(reservation: Result<Reservation, Refusal>)
    | Claimed(reservation: Result<Reservation, Refusal>)
    | Completed(completion: Result<Stored, Refusal>)
    | NoAnswer

  function Step(w: World, act: Act, limits: Limits): (Answer, World) {
    match act
    case OpenLog(io) =>
      var (r, disk) := Open(w.disk, limits, io);
      if r.Ok? then (Opened(None), World(disk, Some(r.value))) else (Opened(Some(r.error)), World(disk, None))
    case Crash(kept) => (NoAnswer, World(AfterCrash(w.disk, if kept <= |w.disk.current| then kept else |w.disk.current|), None))
    case _ =>
      if w.store.None? then (NoAnswer, w)
      else
        var s := State(w.disk, w.store.value);
        match act
        case CallReserve(id, io) => var (r, t) := Reserve(s, limits, id, io); (Reserved(r), World(t.disk, Some(t.store)))
        case CallClaim(id, io) => var (r, t) := Claim(s, id, io); (Claimed(r), World(t.disk, Some(t.store)))
        case CallComplete(id, result, io) =>
          var (r, t) := CompleteEffect(s, limits, id, result, io);
          (Completed(r), World(t.disk, Some(t.store)))
  }

  /** A run from an empty disk: `answers[i]` is what `acts[i]` answered. */
  predicate IsRun(run: seq<World>, acts: seq<Act>, answers: seq<Answer>, limits: Limits) {
    && |run| == |acts| + 1 == |answers| + 1
    && run[0] == World(Disk([], []), None)
    && forall i :: 0 <= i < |acts| ==> (answers[i], run[i + 1]) == Step(run[i], acts[i], limits)
  }

  // ---- The invariant ----

  predicate HoldsLog(w: World, lines: seq<Text>, durable: nat, limits: Limits) {
    && DiskHolds(w.disk, lines, durable, limits.bytes)
    && AlwaysFits(lines, limits)
    && (w.store.Some? ==> StoreOk(w.store.value, lines, durable))
  }

  predicate Inv(w: World, limits: Limits) {
    HoldsLog(w, Logged(w.disk.current), |Logged(w.disk.synced)|, limits)
  }

  // What each step does to the log: the durable part only grows, known operations stay, used claims stay used.
  predicate Moves(w: World, w': World, limits: Limits) {
    && Inv(w', limits)
    && Logged(w.disk.synced) <= Logged(w'.disk.synced)
    && (w.store.Some? && w'.store.Some? && !NoClaims(w'.store.value.index) ==> Keeps(w.store.value.index, w'.store.value.index))
  }

  /** True of every freshly opened store. */
  predicate NoClaims(index: Index) {
    forall op :: op in index ==> !index[op].claimAvailable
  }

  predicate CleanWorld(w: World) {
    w.store.Some? ==> Clean(w.store.value, Logged(w.disk.current), |Logged(w.disk.synced)|)
  }

  lemma LogIs(w: World, lines: seq<Text>, durable: nat, limits: Limits)
    requires HoldsLog(w, lines, durable, limits)
    ensures Inv(w, limits) && Logged(w.disk.current) == lines && Logged(w.disk.synced) == lines[..durable]
    ensures |Logged(w.disk.synced)| == durable
  {
    hide AlwaysFits, StoreOk;
    DiskLogs(w.disk, lines, durable, limits.bytes);
  }

  lemma InitInv(limits: Limits)
    ensures Inv(World(Disk([], []), None), limits)
  {
    var w := World(Disk([], []), None);
    assert Lines([]) == [];
    assert Fits([], limits) by { assert Incomplete(map[]) == {}; }
    var none: seq<Text> := [];
    assert none[..0] == none;
    assert HoldsLog(w, [], 0, limits);
    LogIs(w, [], 0, limits);
  }

  // ---- Opening ----

  lemma {:induction false} ReplayedHasNoClaims(lines: seq<Text>)
    requires ReplayLog(lines).Ok?
    ensures NoClaims(ReplayLog(lines).value)
  {
    if lines != [] {
      ReplayedHasNoClaims(lines[..|lines| - 1]);
      hide DecodeEvent, ValidIdentity, ValidResult;
    }
  }

  lemma OpenedStoreOk(lines: seq<Text>, durable: nat, limits: Limits)
    requires AlwaysFits(lines, limits) && durable <= |lines|
    ensures Fits(lines, limits)
    ensures StoreOk(Store(ReplayLog(lines).value, |Join(lines)|, ReservedFor(ReplayLog(lines).value), false), lines, durable)
  {
    hide ReservedFor, ReplayLog, Join;
    FullIsAll(lines);
    assert Fits(lines[..|lines|], limits) && Fits(lines[..durable], limits);
    ReplayedHasNoClaims(lines);
  }

  // Opening never finds corruption or an overfull log; its index is exactly the complete records of the file, no
  // claim survives, and every record it adopts is durable exactly when the open was clean.
  lemma OpenMoves(w: World, limits: Limits, io: OpenIo)
    requires Inv(w, limits)
    ensures var (r, disk) := Open(w.disk, limits, io);
            var w' := World(disk, if r.Ok? then Some(r.value) else None);
            && Moves(w, w', limits)
            && (r.Ok? || r.error == Io)
            && (io.read && io.setLen && io.sync && io.seek ==> r.Ok?)
            && Logged(disk.current) == Logged(w.disk.current)
            && (r.Ok? ==> ReplayLog(Logged(w.disk.current)) == Ok(r.value.index) && NoClaims(r.value.index) && !r.value.dirty)
            && (r.Ok? ==> (CleanWorld(w') <==> OpensClean(w.disk)))
  {
    var lines, durable := Logged(w.disk.current), |Logged(w.disk.synced)|;
    var (r, disk) := Open(w.disk, limits, io);
    var w' := World(disk, if r.Ok? then Some(r.value) else None);
    var after := if ValidLen(w.disk.current) != |w.disk.current| && io.read && io.setLen && io.sync then |lines| else durable;
    assert HoldsLog(w', lines, after, limits) && (r.Ok? || r.error == Io) && (io.read && io.setLen && io.sync && io.seek ==> r.Ok?)
           && (r.Ok? ==> ReplayLog(lines) == Ok(r.value.index) && !r.value.dirty) by {
      hide AlwaysFits, StoreOk, ReservedFor, Holds;
      CutDisk(w.disk, lines, durable, limits.bytes);
      OpenedStoreOk(lines, durable, limits);
      OpenedStoreOk(lines, |lines|, limits);
    }
    hide HoldsLog, Open;
    LogIs(w, lines, durable, limits);
    LogIs(w', lines, after, limits);
    if r.Ok? { ReplayedHasNoClaims(lines); }
  }

  // ---- Every step ----

  lemma CallMoves(w: World, t: State, lines': seq<Text>, durable': nat, limits: Limits)
    requires Inv(w, limits) && w.store.Some?
    requires Advances(State(w.disk, w.store.value), Logged(w.disk.current), |Logged(w.disk.synced)|, t, lines', durable', limits)
    ensures Moves(w, World(t.disk, Some(t.store)), limits)
    ensures Logged(t.disk.current) == lines' && Logged(t.disk.synced) == lines'[..durable']
    ensures Logged(w.disk.current) <= Logged(t.disk.current)
    ensures CleanWorld(w) ==> CleanWorld(World(t.disk, Some(t.store)))
  {
    var lines, durable := Logged(w.disk.current), |Logged(w.disk.synced)|;
    hide AlwaysFits, StoreOk, Keeps, Holds;
    LogIs(w, lines, durable, limits);
    LogIs(World(t.disk, Some(t.store)), lines', durable', limits);
    assert lines[..durable] <= lines'[..durable'];
  }

  lemma CrashMoves(w: World, limits: Limits, kept: nat)
    requires Inv(w, limits) && kept <= |w.disk.current|
    ensures Moves(w, World(AfterCrash(w.disk, kept), None), limits)
    ensures Logged(AfterCrash(w.disk, kept).current) <= Logged(w.disk.current)
  {
    var lines, durable := Logged(w.disk.current), |Logged(w.disk.synced)|;
    var w' := World(AfterCrash(w.disk, kept), None);
    hide AlwaysFits, DiskHolds, AfterCrash;
    LogIs(w, lines, durable, limits);
    var m := CrashHolds(w.disk, lines, durable, limits.bytes, kept);
    PrefixAlwaysFits(lines, m, limits);
    LogIs(w', lines[..m], m, limits);
    assert lines[..m][..m] == lines[..m];
  }

  lemma StepMoves(w: World, act: Act, limits: Limits)
    requires Inv(w, limits)
    ensures Moves(w, Step(w, act, limits).1, limits)
    ensures CleanWorld(w) && (act.OpenLog? ==> OpensClean(w.disk)) ==> CleanWorld(Step(w, act, limits).1)
    ensures IsCall(act) ==> Logged(w.disk.current) <= Logged(Step(w, act, limits).1.disk.current)
  {
    hide AlwaysFits, StoreOk, DiskHolds, Advances, StateOk, AfterCrash, Open, Reserve, Claim, CompleteEffect, Moves, Clean, OpensClean;
    match act
    case OpenLog(io) => OpenMoves(w, limits, io);
    case Crash(kept) => CrashMoves(w, limits, if kept <= |w.disk.current| then kept else |w.disk.current|);
    case CallReserve(id, io) =>
      if w.store.Some? { ReserveMoves(w, limits, id, io); } else { SitsStill(w, limits); }
    case CallClaim(id, io) =>
      if w.store.Some? { ClaimMoves(w, limits, id, io); } else { SitsStill(w, limits); }
    case CallComplete(id, result, io) =>
      if w.store.Some? { CompleteMoves(w, limits, id, result, io); } else { SitsStill(w, limits); }
  }

  lemma ReserveMoves(w: World, limits: Limits, id: Identity, io: CallIo)
    requires Inv(w, limits) && w.store.Some?
    ensures var t := Reserve(State(w.disk, w.store.value), limits, id, io).1;
            && Moves(w, World(t.disk, Some(t.store)), limits) && (CleanWorld(w) ==> CleanWorld(World(t.disk, Some(t.store))))
            && Logged(w.disk.current) <= Logged(t.disk.current)
  {
    hide Inv, Advances, StateOk, Reserve, Moves, CleanWorld;
    var s := State(w.disk, w.store.value);
    StateOfWorld(w, limits);
    var lines', durable' := ReserveAdvances(s, Logged(w.disk.current), |Logged(w.disk.synced)|, limits, id, io);
    CallMoves(w, Reserve(s, limits, id, io).1, lines', durable', limits);
  }

  lemma ClaimMoves(w: World, limits: Limits, id: Identity, io: CallIo)
    requires Inv(w, limits) && w.store.Some?
    ensures var t := Claim(State(w.disk, w.store.value), id, io).1;
            && Moves(w, World(t.disk, Some(t.store)), limits) && (CleanWorld(w) ==> CleanWorld(World(t.disk, Some(t.store))))
            && Logged(w.disk.current) <= Logged(t.disk.current)
  {
    hide Inv, Advances, StateOk, Claim, Moves, CleanWorld, ReplayLog;
    var s := State(w.disk, w.store.value);
    StateOfWorld(w, limits);
    var durable' := ClaimAdvances(s, Logged(w.disk.current), |Logged(w.disk.synced)|, limits, id, io);
    CallMoves(w, Claim(s, id, io).1, Logged(w.disk.current), durable', limits);
  }

  lemma CompleteMoves(w: World, limits: Limits, id: Identity, result: Stored, io: CallIo)
    requires Inv(w, limits) && w.store.Some?
    ensures var t := CompleteEffect(State(w.disk, w.store.value), limits, id, result, io).1;
            && Moves(w, World(t.disk, Some(t.store)), limits) && (CleanWorld(w) ==> CleanWorld(World(t.disk, Some(t.store))))
            && Logged(w.disk.current) <= Logged(t.disk.current)
  {
    hide Inv, Advances, StateOk, CompleteEffect, Moves, CleanWorld, Completes;
    var s := State(w.disk, w.store.value);
    StateOfWorld(w, limits);
    var lines', durable' := CompleteAdvances(s, Logged(w.disk.current), |Logged(w.disk.synced)|, limits, id, result, io);
    CallMoves(w, CompleteEffect(s, limits, id, result, io).1, lines', durable', limits);
  }

  lemma StateOfWorld(w: World, limits: Limits)
    requires Inv(w, limits) && w.store.Some?
    ensures StateOk(State(w.disk, w.store.value), Logged(w.disk.current), |Logged(w.disk.synced)|, limits)
  {
    hide AlwaysFits, StoreOk, DiskHolds;
  }

  lemma SitsStill(w: World, limits: Limits)
    requires Inv(w, limits) && w.store.None?
    ensures Moves(w, w, limits)
  {
  }

  lemma {:induction false} RunInv(run: seq<World>, acts: seq<Act>, answers: seq<Answer>, limits: Limits, i: nat)
    requires IsRun(run, acts, answers, limits) && i < |run|
    ensures Inv(run[i], limits)
  {
    hide Inv, Step;
    if i == 0 {
      InitInv(limits);
    } else {
      RunInv(run, acts, answers, limits, i - 1);
      StepMoves(run[i - 1], acts[i - 1], limits);
      assert (answers[i - 1], run[i]) == Step(run[i - 1], acts[i - 1], limits);
    }
  }

  // ---- An effect starts at most once ----

  lemma {:induction false} ReplayGrows(lines: seq<Text>, k: nat)
    requires ReplayLog(lines).Ok? && k <= |lines|
    ensures ReplayLog(lines[..k]).Ok? && Keeps(ReplayLog(lines[..k]).value, ReplayLog(lines).value)
    decreases |lines|
  {
    if k == |lines| {
      FullIsAll(lines);
    } else {
      var init := lines[..|lines| - 1];
      assert init[..k] == lines[..k];
      ReplayGrows(init, k);
      hide DecodeEvent, ValidIdentity, ValidResult;
      assert Keeps(ReplayLog(init).value, ReplayLog(lines).value);
    }
  }

  // What a longer log replays to keeps everything a shorter one did.
  lemma LogGrows(a: seq<Text>, b: seq<Text>)
    requires a <= b && ReplayLog(b).Ok?
    ensures ReplayLog(a).Ok? && Keeps(ReplayLog(a).value, ReplayLog(b).value)
  {
    hide ReplayLog, Keeps;
    assert b[..|a|] == a;
    ReplayGrows(b, |a|);
  }

  lemma LogsReplay(w: World, limits: Limits)
    requires Inv(w, limits)
    ensures ReplayLog(Logged(w.disk.current)).Ok? && ReplayLog(Logged(w.disk.synced)).Ok?
    ensures Keeps(ReplayLog(Logged(w.disk.synced)).value, ReplayLog(Logged(w.disk.current)).value)
    ensures w.store.Some? ==> SameRecords(w.store.value.index, ReplayLog(Logged(w.disk.current)).value)
  {
    hide ReplayLog, Keeps, SameRecords, Holds;
    var lines, durable := Logged(w.disk.current), |Logged(w.disk.synced)|;
    LogIs(w, lines, durable, limits);
    FullIsAll(lines);
    assert Fits(lines[..|lines|], limits);
    assert Logged(w.disk.synced) == lines[..durable] <= lines;
    LogGrows(Logged(w.disk.synced), lines);
  }

  /** The operation has started once: its intent is durable and nobody holds its claim. */
  predicate Fired(w: World, op: Text) {
    && ReplayLog(Logged(w.disk.synced)).Ok? && op in ReplayLog(Logged(w.disk.synced)).value
    && (w.store.Some? ==> op in w.store.value.index && !w.store.value.index[op].claimAvailable)
  }

  lemma ClaimFires(w: World, limits: Limits, id: Identity, io: CallIo)
    requires Inv(w, limits) && Step(w, CallClaim(id, io), limits).0 == Claimed(Ok(New))
    ensures Fired(Step(w, CallClaim(id, io), limits).1, id.operationId)
  {
    hide AlwaysFits, StoreOk, DiskHolds, Advances, StateOk, Claim, Moves, ReplayLog;
    var s, lines, durable := State(w.disk, w.store.value), Logged(w.disk.current), |Logged(w.disk.synced)|;
    StateOfWorld(w, limits);
    var durable' := ClaimAdvances(s, lines, durable, limits, id, io);
    CallMoves(w, Claim(s, id, io).1, lines, durable', limits);
  }

  lemma FiredStays(w: World, act: Act, limits: Limits, op: Text)
    requires Inv(w, limits) && Fired(w, op)
    ensures Fired(Step(w, act, limits).1, op)
    ensures Step(w, act, limits).0 == Claimed(Ok(New)) ==> act.CallClaim? && act.id.operationId != op
  {
    var w' := Step(w, act, limits).1;
    assert Moves(w, w', limits) && ReplayLog(Logged(w'.disk.synced)).Ok?
           && Keeps(ReplayLog(Logged(w.disk.synced)).value, ReplayLog(Logged(w'.disk.synced)).value)
           && (w'.store.Some? ==> SameRecords(w'.store.value.index, ReplayLog(Logged(w'.disk.current)).value))
           && Keeps(ReplayLog(Logged(w'.disk.synced)).value, ReplayLog(Logged(w'.disk.current)).value) by {
      hide Inv, Step, Keeps, SameRecords, ReplayLog;
      StepMoves(w, act, limits);
      LogsReplay(w', limits);
      LogGrows(Logged(w.disk.synced), Logged(w'.disk.synced));
    }
    hide Inv, ReplayLog, Reserve, CompleteEffect, Open, AfterCrash, ValidIdentity, Settle;
    if act.OpenLog? { FreshStoreHasNoClaims(w, limits, act.openIo); }
  }

  lemma FreshStoreHasNoClaims(w: World, limits: Limits, io: OpenIo)
    requires Inv(w, limits)
    ensures Open(w.disk, limits, io).0.Ok? ==> NoClaims(Open(w.disk, limits, io).0.value.index)
  {
    hide Inv, Open, Moves, ReplayLog, CleanWorld;
    OpenMoves(w, limits, io);
  }

  lemma {:induction false} FiredForever(run: seq<World>, acts: seq<Act>, answers: seq<Answer>, limits: Limits, op: Text, i: nat, j: nat)
    requires IsRun(run, acts, answers, limits) && i <= j < |run| && Fired(run[i], op)
    ensures Fired(run[j], op)
    decreases j
  {
    hide Fired, Step;
    if i < j {
      FiredForever(run, acts, answers, limits, op, i, j - 1);
      RunInv(run, acts, answers, limits, j - 1);
      FiredStays(run[j - 1], acts[j - 1], limits, op);
      assert (answers[j - 1], run[j]) == Step(run[j - 1], acts[j - 1], limits);
    }
  }

  // Over every run, `claim` answers New at most once for an operation id, whatever identity names it.
  lemma ClaimedOnce(run: seq<World>, acts: seq<Act>, answers: seq<Answer>, limits: Limits, i: nat, j: nat)
    requires IsRun(run, acts, answers, limits) && i < j < |acts|
    requires acts[i].CallClaim? && acts[j].CallClaim? && acts[i].id.operationId == acts[j].id.operationId
    requires answers[i] == Claimed(Ok(New))
    ensures answers[j] != Claimed(Ok(New))
  {
    hide Fired, Step, Inv;
    var op := acts[i].id.operationId;
    RunInv(run, acts, answers, limits, i);
    RunInv(run, acts, answers, limits, j);
    assert (answers[i], run[i + 1]) == Step(run[i], acts[i], limits);
    assert (answers[j], run[j + 1]) == Step(run[j], acts[j], limits);
    assert acts[i] == CallClaim(acts[i].id, acts[i].io);
    ClaimFires(run[i], limits, acts[i].id, acts[i].io);
    FiredForever(run, acts, answers, limits, op, i + 1, j);
    FiredStays(run[j], acts[j], limits, op);
  }

  // ---- A completed effect is replayed ----

  /** The log holds the completion of this effect. */
  predicate CompletedIn(lines: seq<Text>, id: Identity, result: Stored) {
    && ReplayLog(lines).Ok? && id.operationId in ReplayLog(lines).value
    && ReplayLog(lines).value[id.operationId].identity == id
    && ReplayLog(lines).value[id.operationId].result == Some(result)
  }

  /** The completion of this effect is durable. */
  predicate Done(w: World, id: Identity, result: Stored) {
    CompletedIn(Logged(w.disk.synced), id, result)
  }

  lemma DoneStays(w: World, act: Act, limits: Limits, id: Identity, result: Stored)
    requires Inv(w, limits) && Done(w, id, result)
    ensures Done(Step(w, act, limits).1, id, result)
  {
    var w' := Step(w, act, limits).1;
    hide Inv, Step, ReplayLog;
    StepMoves(w, act, limits);
    LogsReplay(w', limits);
    LogGrows(Logged(w.disk.synced), Logged(w'.disk.synced));
  }

  lemma {:induction false} DoneForever(run: seq<World>, acts: seq<Act>, answers: seq<Answer>, limits: Limits, id: Identity, result: Stored, i: nat, j: nat)
    requires IsRun(run, acts, answers, limits) && i <= j < |run| && Done(run[i], id, result)
    ensures Done(run[j], id, result)
    decreases j
  {
    hide Done, Step;
    if i < j {
      DoneForever(run, acts, answers, limits, id, result, i, j - 1);
      RunInv(run, acts, answers, limits, j - 1);
      DoneStays(run[j - 1], acts[j - 1], limits, id, result);
      assert (answers[j - 1], run[j]) == Step(run[j - 1], acts[j - 1], limits);
    }
  }

  lemma DoneIsInIndex(w: World, limits: Limits, id: Identity, result: Stored)
    requires Inv(w, limits) && Done(w, id, result) && w.store.Some?
    ensures id.operationId in w.store.value.index
    ensures w.store.value.index[id.operationId].identity == id && w.store.value.index[id.operationId].result == Some(result)
  {
    hide Inv, ReplayLog;
    LogsReplay(w, limits);
  }

  /** What a call about a completed effect may answer: a refusal, or the one result. */
  predicate Replays(act: Act, answer: Answer, id: Identity, result: Stored) {
    && (answer.Reserved? && act.CallReserve? && act.id == id ==>
          answer.reservation in {Ok(Replay(result.(replayed := true))), Err(Io), Err(Invalid)})
    && (answer.Claimed? && act.CallClaim? && act.id == id ==>
          answer.reservation in {Ok(Replay(result.(replayed := true))), Err(Io), Err(Invalid)})
    && (answer.Completed? && act.CallComplete? && act.id == id && answer.completion.Ok? ==>
          act.result == result && answer.completion == Ok(result.(replayed := true)))
    && (answer.Reserved? && act.CallReserve? && act.id.operationId == id.operationId && act.id != id ==> answer.reservation.Err?)
    && (answer.Claimed? && act.CallClaim? && act.id.operationId == id.operationId && act.id != id ==> answer.reservation.Err?)
  }

  lemma DoneReplays(w: World, act: Act, limits: Limits, id: Identity, result: Stored)
    requires Inv(w, limits) && Done(w, id, result)
    ensures Replays(act, Step(w, act, limits).0, id, result)
  {
    if w.store.Some? { DoneIsInIndex(w, limits, id, result); }
    hide Inv, Done, ValidIdentity, ValidResult, EncodeEvent, Append, Open, AfterCrash;
  }

  // ---- A reopened log ----

  // After any run, with any crash in it, the log opens whenever the system calls succeed, never as Corrupt or over
  // capacity, and the index is exactly the complete records that survived.
  lemma ReopensExactly(run: seq<World>, acts: seq<Act>, answers: seq<Answer>, limits: Limits, i: nat, io: OpenIo)
    requires IsRun(run, acts, answers, limits) && i < |run|
    ensures var r := Open(run[i].disk, limits, io).0;
            && (r.Ok? || r.error == Io)
            && (io.read && io.setLen && io.sync && io.seek ==> r.Ok?)
            && (r.Ok? ==> ReplayLog(Logged(run[i].disk.current)) == Ok(r.value.index))
    ensures Join(Logged(run[i].disk.current)) <= run[i].disk.current
    ensures NoNewline(run[i].disk.current[|Join(Logged(run[i].disk.current))|..])
  {
    RunInv(run, acts, answers, limits, i);
    OpenMoves(run[i], limits, io);
    hide AlwaysFits, StoreOk, ReplayLog, Open;
  }

  // ---- Room for every result ----

  // In every reachable state, log bytes plus 32 KiB per incomplete record are within the limit, and a completion
  // is refused for capacity exactly when its own record is too large.
  lemma ResultsAlwaysFit(run: seq<World>, acts: seq<Act>, answers: seq<Answer>, limits: Limits, i: nat)
    requires IsRun(run, acts, answers, limits) && i < |acts| && run[i].store.Some?
    ensures var store := run[i].store.value;
            store.bytes + |Incomplete(store.index)| * RESULT_RESERVATION_BYTES <= limits.bytes
    ensures acts[i].CallComplete? && answers[i] == Completed(Err(Capacity)) ==>
              |EncodeEvent(Complete(acts[i].id, acts[i].result))| + 1 > RESULT_RESERVATION_BYTES
    ensures answers[i] != Completed(Err(Corrupt)) && answers[i] != Reserved(Err(Corrupt)) && answers[i] != Claimed(Err(Corrupt))
  {
    hide Inv, Step, Incomplete, EncodeEvent;
    RunInv(run, acts, answers, limits, i);
    assert (answers[i], run[i + 1]) == Step(run[i], acts[i], limits);
    OwedBytesFit(run[i], limits);
    NeverFull(run[i], acts[i], limits);
  }

  lemma OwedBytesFit(w: World, limits: Limits)
    requires Inv(w, limits) && w.store.Some?
    ensures w.store.value.bytes + |Incomplete(w.store.value.index)| * RESULT_RESERVATION_BYTES <= limits.bytes
  {
    hide Inv;
    StateOfWorld(w, limits);
    BytesOf(State(w.disk, w.store.value), Logged(w.disk.current), |Logged(w.disk.synced)|, limits);
  }

  lemma NeverFull(w: World, act: Act, limits: Limits)
    requires Inv(w, limits) && w.store.Some?
    ensures act.CallComplete? && Step(w, act, limits).0 == Completed(Err(Capacity)) ==>
              |EncodeEvent(Complete(act.id, act.result))| + 1 > RESULT_RESERVATION_BYTES
    ensures Step(w, act, limits).0 !in {Completed(Err(Corrupt)), Reserved(Err(Corrupt)), Claimed(Err(Corrupt))}
  {
    var s, lines, durable := State(w.disk, w.store.value), Logged(w.disk.current), |Logged(w.disk.synced)|;
    StateOfWorld(w, limits);
    hide Inv, StateOk, Reserve, Claim, CompleteEffect, Open, AfterCrash, ReplayLog, EncodeEvent, Advances, Completes;
    match act
    case CallReserve(id, io) => var l, d := ReserveAdvances(s, lines, durable, limits, id, io);
    case CallClaim(id, io) => var d := ClaimAdvances(s, lines, durable, limits, id, io);
    case CallComplete(id, result, io) => var l, d := CompleteAdvances(s, lines, durable, limits, id, result, io);
    case _ =>
  }

  // At the ordinary limits the results that can still be owed take at most half of the log, so as long as the log
  // itself fills no more than the other half, a new effect is refused for capacity exactly when the store is full.
  lemma OnlyTheCountRefuses(run: seq<World>, acts: seq<Act>, answers: seq<Answer>, i: nat)
    requires IsRun(run, acts, answers, DEFAULT_LIMITS) && i < |acts| && acts[i].CallReserve? && run[i].store.Some?
    requires run[i].store.value.bytes + |EncodeEvent(Intent(acts[i].id))| + 1 <= MAX_FILE_EFFECT_LOG_BYTES / 2
    ensures answers[i] == Reserved(Err(Capacity)) <==>
              && ValidIdentity(acts[i].id) && Settle(State(run[i].disk, run[i].store.value), acts[i].io).Ok?
              && acts[i].id.operationId !in run[i].store.value.index && |run[i].store.value.index| >= MAX_RETAINED_FILE_EFFECTS
  {
    var w := run[i];
    RunInv(run, acts, answers, DEFAULT_LIMITS, i);
    assert (answers[i], run[i + 1]) == Step(w, acts[i], DEFAULT_LIMITS);
    OwedAtMostHalf(w, DEFAULT_LIMITS);
    hide Inv, ValidIdentity, EncodeEvent, Reserve, Settle;
    RefusedOnlyWhenFull(State(w.disk, w.store.value), acts[i].id, acts[i].io);
  }

  lemma RefusedOnlyWhenFull(s: State, id: Identity, io: CallIo)
    requires s.store.reservedBytes <= |s.store.index| * RESULT_RESERVATION_BYTES
    requires s.store.bytes + |EncodeEvent(Intent(id))| + 1 <= MAX_FILE_EFFECT_LOG_BYTES / 2
    ensures Reserve(s, DEFAULT_LIMITS, id, io).0 == Err(Capacity) <==>
              && ValidIdentity(id) && Settle(s, io).Ok?
              && id.operationId !in s.store.index && |s.store.index| >= MAX_RETAINED_FILE_EFFECTS
  {
    hide ValidIdentity, EncodeEvent, Write, SetLen, Torn;
    if |s.store.index| < MAX_RETAINED_FILE_EFFECTS {
      assert s.store.reservedBytes + RESULT_RESERVATION_BYTES <= MAX_FILE_EFFECT_LOG_BYTES / 2;
    }
  }

  lemma OwedAtMostHalf(w: World, limits: Limits)
    requires Inv(w, limits) && w.store.Some?
    ensures w.store.value.reservedBytes <= |w.store.value.index| * RESULT_RESERVATION_BYTES
  {
    hide Inv, StateOk, Fits, IndexMatches, ReservedFor;
    StateOfWorld(w, limits);
    BytesOf(State(w.disk, w.store.value), Logged(w.disk.current), |Logged(w.disk.synced)|, limits);
    ReservedAtMost(w.store.value.index);
  }

  lemma ReservedAtMost(index: Index)
    ensures ReservedFor(index) <= |index| * RESULT_RESERVATION_BYTES
  {
    FewerThanAll(index);
    hide Incomplete;
  }

  lemma FewerThanAll(index: Index)
    ensures |Incomplete(index)| <= |index|
  {
    assert index.Keys == Incomplete(index) + (index.Keys - Incomplete(index));
    assert |index.Keys| == |index|;
  }
}
