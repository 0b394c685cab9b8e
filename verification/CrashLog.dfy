/** An append-only file of newline-terminated records under failed writes, failed syncs and crashes
    (crates/hand-guest/src/file_effects.rs:98-121, 347-377 and acks.rs:109-127, 249-267). */
module CrashLog {
  import opened Wrappers
  import opened RecordCodec

  // ---- Lines ----

  predicate GoodLine(line: Text) {
    line != [] && NoNewline(line)
  }

  predicate GoodLines(lines: seq<Text>) {
    forall i :: 0 <= i < |lines| ==> GoodLine(lines[i])
  }

  /** The bytes of complete records. */
  function Join(lines: seq<Text>): Text {
    if lines == [] then [] else Join(lines[..|lines| - 1]) + lines[|lines| - 1] + [NEWLINE]
  }

  /** The length up to and including the last newline: what recovery keeps. */
  function ValidLen(bytes: Text): (n: nat)
    ensures n <= |bytes|
    ensures n > 0 ==> bytes[n - 1] == NEWLINE
    ensures NoNewline(bytes[n..])
  {
    if bytes == [] then 0
    else if bytes[|bytes| - 1] == NEWLINE then |bytes|
    else
      var n := ValidLen(bytes[..|bytes| - 1]);
      assert bytes[n..] == bytes[..|bytes| - 1][n..] + [bytes[|bytes| - 1]];
      n
  }

  /** Finds the end of the last complete record, scanning from the back. */
  method FindValidLen(bytes: Text) returns (n: nat)
    ensures n == ValidLen(bytes)
  {
    n := |bytes|;
    assert bytes[..n] == bytes;
    while n > 0 && bytes[n - 1] != NEWLINE
      invariant n <= |bytes|
      invariant ValidLen(bytes) == ValidLen(bytes[..n])
    {
      assert bytes[..n][..n - 1] == bytes[..n - 1];
      n := n - 1;
    }
  }

  /** The nonempty pieces between newlines; `line` is what was read of the piece at hand. */
  function LinesFrom(bytes: Text, line: Text): seq<Text> {
    if bytes == [] then Piece(line)
    else if bytes[0] == NEWLINE then Piece(line) + LinesFrom(bytes[1..], [])
    else LinesFrom(bytes[1..], line + [bytes[0]])
  }

  function Piece(line: Text): seq<Text> {
    if line == [] then [] else [line]
  }

  function Lines(bytes: Text): seq<Text> {
    LinesFrom(bytes, [])
  }

  lemma {:induction false} LineIsRead(line: Text, rest: Text, read: Text)
    requires NoNewline(line)
    ensures LinesFrom(line + [NEWLINE] + rest, read) == Piece(read + line) + LinesFrom(rest, [])
    decreases |line|
  {
    var whole := line + [NEWLINE] + rest;
    if line == [] {
      assert whole[1..] == rest && read + line == read;
    } else {
      assert whole[1..] == line[1..] + [NEWLINE] + rest;
      LineIsRead(line[1..], rest, read + [line[0]]);
      assert read + [line[0]] + line[1..] == read + line;
    }
  }

  lemma {:induction false} JoinIsRead(lines: seq<Text>, rest: Text)
    requires GoodLines(lines)
    ensures Lines(Join(lines) + rest) == lines + Lines(rest)
    decreases |lines|
  {
    if lines == [] {
      assert Join(lines) + rest == rest;
    } else {
      var init, last := lines[..|lines| - 1], lines[|lines| - 1];
      assert Join(lines) + rest == Join(init) + (last + [NEWLINE] + rest);
      JoinIsRead(init, last + [NEWLINE] + rest);
      LineIsRead(last, rest, []);
      assert [] + last == last;
      assert lines == init + [last];
    }
  }

  // Reading back complete records gives exactly those records.
  lemma LinesOfJoin(lines: seq<Text>)
    requires GoodLines(lines)
    ensures Lines(Join(lines)) == lines
  {
    JoinIsRead(lines, []);
    assert Join(lines) + [] == Join(lines);
  }

  lemma JoinExtends(lines: seq<Text>, line: Text)
    ensures Join(lines + [line]) == Join(lines) + line + [NEWLINE]
  {
    assert (lines + [line])[..|lines|] == lines;
  }

  lemma {:induction false} JoinOfPrefix(lines: seq<Text>, m: nat)
    requires m <= |lines|
    ensures |Join(lines[..m])| <= |Join(lines)|
    ensures Join(lines)[..|Join(lines[..m])|] == Join(lines[..m])
    decreases |lines|
  {
    if m == |lines| {
      assert lines[..m] == lines;
    } else {
      var init := lines[..|lines| - 1];
      JoinOfPrefix(init, m);
      assert init[..m] == lines[..m];
    }
  }

  lemma JoinEndsInNewline(lines: seq<Text>)
    requires lines != []
    ensures Join(lines) != [] && Join(lines)[|Join(lines)| - 1] == NEWLINE
  {
  }

  lemma SameLengthSameLog(a: seq<Text>, b: seq<Text>)
    requires a <= b && |Join(a)| == |Join(b)|
    ensures a == b
  {
    if |a| < |b| { LongerLog(a, b); }
  }

  lemma LongerLog(a: seq<Text>, b: seq<Text>)
    requires a <= b && |a| < |b|
    ensures |Join(a)| < |Join(b)|
  {
    JoinOfPrefix(b[..|b| - 1], |a|);
    assert b[..|b| - 1][..|a|] == a;
  }

  // ---- A file that holds complete records and a newline-free tail ----

  predicate Holds(bytes: Text, lines: seq<Text>) {
    && GoodLines(lines)
    && Join(lines) <= bytes
    && NoNewline(bytes[|Join(lines)|..])
  }

  lemma {:induction false} NewlineFreeTailIsCut(bytes: Text, n: nat)
    requires n <= |bytes| && NoNewline(bytes[n..]) && (n > 0 ==> bytes[n - 1] == NEWLINE)
    ensures ValidLen(bytes) == n
    decreases |bytes|
  {
    if n < |bytes| {
      var init := bytes[..|bytes| - 1];
      assert bytes[|bytes| - 1] == bytes[n..][|bytes| - 1 - n];
      forall i | 0 <= i < |init[n..]| ensures init[n..][i] != NEWLINE { assert init[n..][i] == bytes[n..][i]; }
      NewlineFreeTailIsCut(init, n);
    }
  }

  // Recovery of such a file keeps exactly its records, and cuts exactly its tail.
  lemma RecoveryKeepsTheRecords(bytes: Text, lines: seq<Text>)
    requires Holds(bytes, lines)
    ensures ValidLen(bytes) == |Join(lines)|
    ensures Lines(bytes[..ValidLen(bytes)]) == lines
    ensures Holds(bytes[..ValidLen(bytes)], lines)
  {
    if lines != [] { JoinEndsInNewline(lines); }
    NewlineFreeTailIsCut(bytes, |Join(lines)|);
    assert bytes[..|Join(lines)|] == Join(lines);
    LinesOfJoin(lines);
  }

  // ---- The disk ----

  /** What a read returns now, and what is known to be durable. */
  datatype Disk = Disk(synced: Text, current: Text)

  /** Cut to `n` bytes, or filled up to them with zeros. */
  function Resized(bytes: Text, n: nat): Text {
    if n <= |bytes| then bytes[..n] else bytes + seq(n - |bytes|, _ => 0)
  }

  function Overwrite(bytes: Text, start: nat, data: Text): Text {
    Resized(bytes, start) + data + (if start + |data| < |bytes| then bytes[start + |data|..] else [])
  }

  function Write(d: Disk, start: nat, data: Text): Disk {
    d.(current := Overwrite(d.current, start, data))
  }

  function SetLen(d: Disk, n: nat): Disk {
    d.(current := Resized(d.current, n))
  }

  function Sync(d: Disk): Disk {
    d.(synced := d.current)
  }

  /** A crash keeps the new bytes up to some point and the durable ones after it. */
  function AfterCrash(d: Disk, kept: nat): Disk
    requires kept <= |d.current|
  {
    var bytes := d.current[..kept] + (if kept < |d.synced| then d.synced[kept..] else []);
    Disk(bytes, bytes)
  }

  /** The complete records of a file. */
  function Logged(bytes: Text): seq<Text> {
    Lines(bytes[..ValidLen(bytes)])
  }

  /** The disk holds `lines`, of which the first `durable` survive any crash; neither image exceeds `max` bytes. */
  predicate DiskHolds(d: Disk, lines: seq<Text>, durable: nat, max: nat) {
    && durable <= |lines|
    && Holds(d.current, lines)
    && Holds(d.synced, lines[..durable])
    && |d.current| <= max && |d.synced| <= max
  }

  lemma DiskLogs(d: Disk, lines: seq<Text>, durable: nat, max: nat)
    requires DiskHolds(d, lines, durable, max)
    ensures Logged(d.current) == lines && Logged(d.synced) == lines[..durable]
  {
    RecoveryKeepsTheRecords(d.current, lines);
    RecoveryKeepsTheRecords(d.synced, lines[..durable]);
  }

  // What one append does to the image: the record replaces the start of any stale tail, which had no newline.
  lemma AppendHolds(bytes: Text, lines: seq<Text>, line: Text)
    requires Holds(bytes, lines) && GoodLine(line)
    ensures Holds(Overwrite(bytes, |Join(lines)|, line + [NEWLINE]), lines + [line])
  {
    JoinExtends(lines, line);
    hide Join;
    var start, data := |Join(lines)|, line + [NEWLINE];
    var after := Overwrite(bytes, start, data);
    assert bytes[..start] == Join(lines);
    assert after[..start + |data|] == Join(lines + [line]);
    var tail := after[start + |data|..];
    forall i | 0 <= i < |tail| ensures tail[i] != NEWLINE { assert tail[i] == bytes[start..][i + |data|]; }
  }

  // A write that failed after `n` bytes left a strict prefix of the record, which has no newline either.
  lemma FailedWriteHolds(bytes: Text, lines: seq<Text>, line: Text, n: nat)
    requires Holds(bytes, lines) && GoodLine(line) && n <= |line|
    ensures Holds(Overwrite(bytes, |Join(lines)|, (line + [NEWLINE])[..n]), lines)
  {
    hide Join, GoodLines;
    var start, data := |Join(lines)|, (line + [NEWLINE])[..n];
    assert data == line[..n];
    var after := Overwrite(bytes, start, data);
    assert bytes[..start] == Join(lines);
    assert after[..start] == Join(lines);
    forall i | 0 <= i < |after[start..]| ensures after[start..][i] != NEWLINE {
      if i < n { assert after[start..][i] == line[i]; } else { assert after[start..][i] == bytes[start..][i]; }
    }
  }

  lemma CutTailHolds(bytes: Text, lines: seq<Text>)
    requires Holds(bytes, lines)
    ensures Holds(Resized(bytes, |Join(lines)|), lines)
  {
  }

  lemma CutInsideLine(before: Text, line: Text, kept: nat)
    requires NoNewline(line) && |before| <= kept <= |before| + |line|
    ensures NoNewline((before + line + [NEWLINE])[|before|..kept])
  {
    assert (before + line + [NEWLINE])[|before|..kept] == line[..kept - |before|];
  }

  // Where a byte count falls in complete records: inside or just after some record.
  lemma {:induction false} CutOfJoin(lines: seq<Text>, kept: nat) returns (m: nat)
    requires GoodLines(lines) && kept <= |Join(lines)|
    ensures m <= |lines| && |Join(lines[..m])| <= kept
    ensures NoNewline(Join(lines)[|Join(lines[..m])|..kept])
    ensures m < |lines| ==> kept < |Join(lines[..m + 1])|
    decreases |lines|
  {
    if kept == |Join(lines)| {
      m := |lines|;
      assert lines[..m] == lines;
    } else {
      var init, last := lines[..|lines| - 1], lines[|lines| - 1];
      if kept < |Join(init)| {
        m := CutOfJoin(init, kept);
        assert init[..m] == lines[..m];
        assert m < |init|;
        assert init[..m + 1] == lines[..m + 1];
        assert Join(init) <= Join(lines);
        assert Join(lines)[|Join(lines[..m])|..kept] == Join(init)[|Join(init[..m])|..kept];
      } else {
        m := |init|;
        assert lines[..m + 1] == lines;
        CutInsideLine(Join(init), last, kept);
      }
    }
  }

  // After any crash the file again holds complete records and a newline-free tail: the durable records and
  // some of those that followed them.
  lemma CrashHolds(d: Disk, lines: seq<Text>, durable: nat, max: nat, kept: nat) returns (m: nat)
    requires DiskHolds(d, lines, durable, max) && kept <= |d.current|
    ensures durable <= m <= |lines|
    ensures DiskHolds(AfterCrash(d, kept), lines[..m], m, max)
  {
    var whole, base := Join(lines), Join(lines[..durable]);
    var bytes := AfterCrash(d, kept).current;
    JoinOfPrefix(lines, durable);
    if kept <= |base| {
      m := durable;
      assert bytes == d.synced by {
        assert d.current[..kept] == whole[..kept] == base[..kept] == d.synced[..kept];
      }
    } else if kept <= |whole| {
      m := CutOfJoin(lines, kept);
      if m < durable {
        JoinOfPrefix(lines[..durable], m + 1);
        assert lines[..durable][..m + 1] == lines[..m + 1];
      }
      JoinOfPrefix(lines, m);
      CutHolds(d, lines, durable, kept, m);
    } else {
      m := |lines|;
      assert lines[..m] == lines;
      AllKeptHolds(d, lines, durable, kept);
    }
    assert lines[..m][..m] == lines[..m];
  }

  // A crash may end the log after any record that follows the durable ones.
  lemma CrashCutsAt(d: Disk, lines: seq<Text>, durable: nat, max: nat, t: nat)
    requires DiskHolds(d, lines, durable, max) && durable <= t <= |lines|
    ensures |Join(lines[..t])| <= |d.current|
    ensures DiskHolds(AfterCrash(d, |Join(lines[..t])|), lines[..t], t, max)
  {
    var kept, base := |Join(lines[..t])|, Join(lines[..durable]);
    JoinOfPrefix(lines, t);
    JoinOfPrefix(lines[..t], durable);
    assert lines[..t][..durable] == lines[..durable] && lines[..t][..t] == lines[..t];
    if kept == |base| {
      assert d.current[..kept] == Join(lines[..t]) == base == d.synced[..kept];
      assert AfterCrash(d, kept).current == d.synced;
    } else {
      CutHolds(d, lines, durable, kept, t);
    }
  }

  lemma GoodPrefix(lines: seq<Text>, m: nat)
    requires GoodLines(lines) && m <= |lines|
    ensures GoodLines(lines[..m])
  {
  }

  lemma AllKeptHolds(d: Disk, lines: seq<Text>, durable: nat, kept: nat)
    requires durable <= |lines| && Holds(d.current, lines) && Holds(d.synced, lines[..durable])
    requires |Join(lines[..durable])| <= |Join(lines)| < kept <= |d.current|
    ensures Holds(AfterCrash(d, kept).current, lines)
  {
    hide Join, GoodLines;
    var whole, base := Join(lines), Join(lines[..durable]);
    var bytes := AfterCrash(d, kept).current;
    assert bytes[..|whole|] == whole;
    forall i | 0 <= i < |bytes[|whole|..]| ensures bytes[|whole|..][i] != NEWLINE {
      var j := i + |whole|;
      if j < kept { assert bytes[j] == d.current[|whole|..][i]; } else { assert bytes[j] == d.synced[|base|..][j - |base|]; }
    }
  }

  lemma CutHolds(d: Disk, lines: seq<Text>, durable: nat, kept: nat, m: nat)
    requires durable <= |lines| && Holds(d.current, lines) && Holds(d.synced, lines[..durable])
    requires |Join(lines[..durable])| < kept <= |Join(lines)| && m <= |lines|
    requires |Join(lines[..m])| <= kept && NoNewline(Join(lines)[|Join(lines[..m])|..kept])
    requires Join(lines)[..|Join(lines[..m])|] == Join(lines[..m])
    ensures Holds(AfterCrash(d, kept).current, lines[..m])
  {
    hide Join, GoodLines;
    assert GoodLines(lines[..m]) by { GoodPrefix(lines, m); }
    var whole, base, got := Join(lines), Join(lines[..durable]), Join(lines[..m]);
    var bytes := AfterCrash(d, kept).current;
    assert bytes[..kept] == whole[..kept];
    assert bytes[..|got|] == got;
    forall i | 0 <= i < |bytes[|got|..]| ensures bytes[|got|..][i] != NEWLINE {
      var j := i + |got|;
      if j < kept { assert bytes[j] == whole[|got|..kept][i]; } else { assert bytes[j] == d.synced[|base|..][j - |base|]; }
    }
  }

  /** How much of a record a failed write leaves: never its last byte. */
  function Torn(data: Text, n: nat): Text {
    if n < |data| then data[..n] else if data == [] then [] else data[..|data| - 1]
  }

  lemma FullIsAll(lines: seq<Text>)
    ensures lines[..|lines|] == lines
  {
  }

  lemma TornHolds(d: Disk, lines: seq<Text>, durable: nat, max: nat, line: Text, n: nat, cleanup: bool)
    requires DiskHolds(d, lines, durable, max) && GoodLine(line) && |Join(lines)| + |line| + 1 <= max
    ensures var torn := Write(d, |Join(lines)|, Torn(line + [NEWLINE], n));
            DiskHolds(if cleanup then SetLen(torn, |Join(lines)|) else torn, lines, durable, max)
  {
    var k := if n <= |line| then n else |line|;
    assert Torn(line + [NEWLINE], n) == (line + [NEWLINE])[..k];
    FailedWriteHolds(d.current, lines, line, k);
    var torn := Write(d, |Join(lines)|, Torn(line + [NEWLINE], n));
    CutTailHolds(torn.current, lines);
  }

  lemma WrittenHolds(d: Disk, lines: seq<Text>, durable: nat, max: nat, line: Text)
    requires DiskHolds(d, lines, durable, max) && GoodLine(line) && |Join(lines)| + |line| + 1 <= max
    ensures DiskHolds(Write(d, |Join(lines)|, line + [NEWLINE]), lines + [line], durable, max)
  {
    AppendHolds(d.current, lines, line);
    assert (lines + [line])[..durable] == lines[..durable];
  }

  // ---- Opening ----

  /** Opening finds no unsynced record, or finds a torn tail and so syncs what it keeps. */
  predicate OpensClean(d: Disk) {
    Logged(d.synced) == Logged(d.current) || ValidLen(d.current) != |d.current|
  }

  lemma CutDisk(d: Disk, lines: seq<Text>, durable: nat, max: nat)
    requires DiskHolds(d, lines, durable, max)
    ensures ValidLen(d.current) == |Join(lines)|
    ensures DiskHolds(SetLen(d, ValidLen(d.current)), lines, durable, max)
    ensures DiskHolds(Sync(SetLen(d, ValidLen(d.current))), lines, |lines|, max)
  {
    RecoveryKeepsTheRecords(d.current, lines);
    CutTailHolds(d.current, lines);
    FullIsAll(lines);
  }

  /** Splits a file into the nonempty pieces between newlines. */
  method SplitLines(bytes: Text) returns (lines: seq<Text>)
    ensures lines == Lines(bytes)
  {
    lines := [];
    var line: Text := [];
    var i := 0;
    assert bytes[0..] == bytes;
    while i < |bytes|
      invariant i <= |bytes|
      invariant Lines(bytes) == lines + LinesFrom(bytes[i..], line)
    {
      assert bytes[i..][1..] == bytes[i + 1..];
      if bytes[i] != NEWLINE {
        line := line + [bytes[i]];
      } else {
        lines := lines + Piece(line);
        line := [];
      }
      i := i + 1;
    }
    lines := lines + Piece(line);
  }

  // ---- What both stores share ----

  /** What the system calls of one operation answer: the pending sync, the seek, the write (failed after some
      bytes), the cleanup of a failed write, the final sync. */
  datatype CallIo = CallIo(flush: bool, seek: bool, failedWrite: Option<nat>, cleanup: bool, sync: bool)

  datatype OpenIo = OpenIo(read: bool, setLen: bool, sync: bool, seek: bool)

  const ALL_GOOD := CallIo(true, true, None, true, true)
  const OPENS_GOOD := OpenIo(true, true, true, true)

  /** What a log replays to, record by record, up to the first one that is refused. */
  function Fold<I, E>(lines: seq<Text>, empty: I, apply: (I, Text) -> Result<I, E>): Result<I, E> {
    if lines == [] then Ok(empty)
    else
      var before := Fold(lines[..|lines| - 1], empty, apply);
      if before.Err? then before else apply(before.value, lines[|lines| - 1])
  }

  lemma {:induction false} RefusedLineRefusesLog<I, E>(lines: seq<Text>, k: nat, empty: I, apply: (I, Text) -> Result<I, E>)
    requires k <= |lines| && Fold(lines[..k], empty, apply).Err?
    ensures Fold(lines, empty, apply) == Fold(lines[..k], empty, apply)
    decreases |lines|
  {
    if k < |lines| {
      assert lines[..|lines| - 1][..k] == lines[..k];
      RefusedLineRefusesLog(lines[..|lines| - 1], k, empty, apply);
    } else {
      assert lines[..k] == lines;
    }
  }

  /** Replays the complete records of a file, line by line, up to the first one that cannot be. */
  method ReplayFile<I, E>(bytes: Text, empty: I, apply: (I, Text) -> Result<I, E>) returns (r: Result<I, E>)
    ensures r == Fold(Lines(bytes), empty, apply)
  {
    var lines := SplitLines(bytes);
    var index := empty;
    for i := 0 to |lines|
      invariant Fold(lines[..i], empty, apply) == Ok(index)
    {
      assert lines[..i + 1][..i] == lines[..i];
      var next := apply(index, lines[i]);
      if next.Err? {
        RefusedLineRefusesLog(lines, i + 1, empty, apply);
        return next;
      }
      index := next.value;
    }
    assert lines[..|lines|] == lines;
    return Ok(index);
  }
}
