/** Record reassembly around the ClientHello parser, section 5.1 of RFC 8446, and both as the program runs them
    (crates/hand-egress-gateway/src/tls.rs:9-166). */
module HelloReader {
  import opened Wrappers
  import opened RecordCodec
  import opened ClientHello

  const MAX_CLIENT_HELLO_BYTES: nat := 64 * 1024
  const HANDSHAKE_CONTENT_TYPE: Byte := 22

  /** The bytes consumed, to be forwarded, and the handshake message. */
  datatype Read = Read(raw: Text, message: Text)

  /** A short read: the peer closed, or the deadline passed. */
  function ShortRead(late: bool): TlsError {
    if late then Timeout else Truncated
  }

  function Wanted(handshake: Text): nat
    requires |handshake| >= 4
  {
    4 + FromU24(handshake[1..])
  }

  /** Reads records off `input`, which is all that arrives in time, until the handshake message is complete. */
  function ReadRecords(input: Text, late: bool, raw: Text, handshake: Text): Parsed<Read> {
    if |input| < 5 then Err(ShortRead(late))
    else if input[0] != HANDSHAKE_CONTENT_TYPE then Err(NotClientHello)
    else
      var length := FromU16(input[3..]);
      if length == 0 || |raw| + 5 + length > MAX_CLIENT_HELLO_BYTES then Err(TooLarge)
      else if |input| < 5 + length then Err(ShortRead(late))
      else
        var raw', handshake' := raw + input[..5 + length], handshake + input[5..5 + length];
        if |handshake'| < 4 then ReadRecords(input[5 + length..], late, raw', handshake')
        else if handshake'[0] != CLIENT_HELLO_TYPE then Err(NotClientHello)
        else if Wanted(handshake') > MAX_CLIENT_HELLO_BYTES then Err(TooLarge)
        else if |handshake'| >= Wanted(handshake') then Ok(Read(raw', handshake'[..Wanted(handshake')]))
        else ReadRecords(input[5 + length..], late, raw', handshake')
  }

  datatype Accepted = Accepted(raw: Text, host: Text)

  function ReadHello(input: Text, late: bool, normalize: Normalizer): Parsed<Accepted> {
    var read :- ReadRecords(input, late, [], []);
    var host :- Parse(read.message, normalize);
    Ok(Accepted(read.raw, host))
  }

  // ---- Framing ----

  /** One record: the protocol version bytes and a fragment. */
  datatype Record = Record(major: Byte, minor: Byte, fragment: Text)

  predicate ValidRecord(r: Record) {
    0 < |r.fragment| < 0x1_0000
  }

  predicate ValidRecords(records: seq<Record>) {
    forall i :: 0 <= i < |records| ==> ValidRecord(records[i])
  }

  function FrameOne(r: Record): Text
    requires ValidRecord(r)
  {
    [HANDSHAKE_CONTENT_TYPE, r.major, r.minor] + U16(|r.fragment|) + r.fragment
  }

  function Frame(records: seq<Record>): Text
    requires ValidRecords(records)
  {
    if records == [] then [] else FrameOne(records[0]) + Frame(records[1..])
  }

  function Fragments(records: seq<Record>): Text {
    if records == [] then [] else records[0].fragment + Fragments(records[1..])
  }

  /** A complete handshake message of type ClientHello within the bound. */
  predicate CompleteMessage(message: Text) {
    && 4 <= |message| <= MAX_CLIENT_HELLO_BYTES && message[0] == CLIENT_HELLO_TYPE
    && Wanted(message) == |message|
  }

  /** The records carry the message, and the message ends inside the last of them. */
  predicate Carries(records: seq<Record>, before: Text, message: Text) {
    && ValidRecords(records) && records != []
    && message <= before + Fragments(records)
    && |before + Fragments(records[..|records| - 1])| < |message|
  }

  /** What the loop does once a record was read. */
  function AfterRecord(rest: Text, late: bool, raw: Text, handshake: Text): Parsed<Read> {
    if |handshake| < 4 then ReadRecords(rest, late, raw, handshake)
    else if handshake[0] != CLIENT_HELLO_TYPE then Err(NotClientHello)
    else if Wanted(handshake) > MAX_CLIENT_HELLO_BYTES then Err(TooLarge)
    else if |handshake| >= Wanted(handshake) then Ok(Read(raw, handshake[..Wanted(handshake)]))
    else ReadRecords(rest, late, raw, handshake)
  }

  lemma FramedStep(r: Record, rest: Text, late: bool, raw: Text, handshake: Text)
    requires ValidRecord(r) && |raw| + |FrameOne(r)| <= MAX_CLIENT_HELLO_BYTES
    ensures ReadRecords(FrameOne(r) + rest, late, raw, handshake) == AfterRecord(rest, late, raw + FrameOne(r), handshake + r.fragment)
  {
    var input, length := FrameOne(r) + rest, |r.fragment|;
    assert input[3..] == U16(length) + (r.fragment + rest);
    U16RoundTrip(length, r.fragment + rest);
    assert input[..5 + length] == FrameOne(r);
    assert input[5..5 + length] == r.fragment;
    assert input[5 + length..] == rest;
  }

  lemma FirstRecord(records: seq<Record>, rest: Text, raw: Text, before: Text)
    requires ValidRecords(records) && records != []
    ensures var r, more := records[0], records[1..];
            && ValidRecord(r) && ValidRecords(more)
            && Frame(records) + rest == FrameOne(r) + (Frame(more) + rest)
            && raw + Frame(records) == raw + FrameOne(r) + Frame(more)
            && |raw + Frame(records)| >= |raw| + |FrameOne(r)|
            && before + Fragments(records) == before + r.fragment + Fragments(more)
  {
    hide FrameOne;
  }

  // Behind the first of several records, the rest carries what is left of the message.
  lemma CarriesTail(records: seq<Record>, before: Text, message: Text)
    requires Carries(records, before, message) && |records| > 1
    ensures var part := before + records[0].fragment;
            Carries(records[1..], part, message) && part <= message && |part| < |message|
  {
    var r, more := records[0], records[1..];
    var init, part := more[..|more| - 1], before + r.fragment;
    assert records == [r] + more && records[..|records| - 1] == [r] + init;
    FragmentsPrepend(r, more);
    FragmentsPrepend(r, init);
    hide Fragments;
    Assoc(before, r.fragment, Fragments(more));
    Assoc(before, r.fragment, Fragments(init));
    assert |part| <= |part + Fragments(init)| < |message|;
    assert part <= part + Fragments(more);
  }

  lemma Assoc(a: Text, b: Text, c: Text)
    ensures a + (b + c) == a + b + c
  {
  }

  // A part of the message that has its first four bytes says the same length as the whole.
  lemma SameWanted(part: Text, message: Text)
    requires CompleteMessage(message) && |part| >= 4 && (part <= message || message <= part)
    ensures part[0] == CLIENT_HELLO_TYPE && Wanted(part) == |message|
  {
    assert part[0] == message[0] && part[1] == message[1] && part[2] == message[2] && part[3] == message[3];
  }

  // However a complete message is cut into records of nonzero length within the bound, the loop reads exactly
  // those records and returns exactly that message; what follows on the connection does not matter.
  lemma {:induction false} CutDoesNotMatter(records: seq<Record>, rest: Text, late: bool, raw: Text, before: Text, message: Text)
    requires CompleteMessage(message) && Carries(records, before, message) && |raw + Frame(records)| <= MAX_CLIENT_HELLO_BYTES
    ensures ReadRecords(Frame(records) + rest, late, raw, before) == Ok(Read(raw + Frame(records), message))
    decreases |records|
  {
    var r, more := records[0], records[1..];
    FirstRecord(records, rest, raw, before);
    hide FrameOne, Frame, ReadRecords, Carries;
    var raw', part := raw + FrameOne(r), before + r.fragment;
    FramedStep(r, Frame(more) + rest, late, raw, before);
    if more == [] {
      LastRecord(records, before, message);
      SameWanted(part, message);
      assert part[..|message|] == message;
      assert raw' + Frame(more) == raw' by { EmptyFrame(); }
    } else {
      CarriesTail(records, before, message);
      if |part| >= 4 { SameWanted(part, message); }
      CutDoesNotMatter(more, rest, late, raw', part, message);
    }
  }

  lemma EmptyFrame()
    ensures Frame([]) == []
  {
  }

  lemma LastRecord(records: seq<Record>, before: Text, message: Text)
    requires Carries(records, before, message) && |records| == 1
    ensures message <= before + records[0].fragment
  {
    assert Fragments(records) == records[0].fragment + Fragments(records[1..]) == records[0].fragment;
  }

  lemma FragmentsPrepend(r: Record, more: seq<Record>)
    ensures Fragments([r] + more) == r.fragment + Fragments(more)
  {
    assert ([r] + more)[1..] == more;
  }

  // The verdict on a message depends on the message alone: not on its records, nor on what follows them. The bytes
  // to forward are the records themselves.
  lemma HostIsIndependentOfRecords(records: seq<Record>, message: Text, rest: Text, late: bool, normalize: Normalizer)
    requires CompleteMessage(message) && Carries(records, [], message) && |Frame(records)| <= MAX_CLIENT_HELLO_BYTES
    ensures ReadHello(Frame(records) + rest, late, normalize)
            == if Parse(message, normalize).Err? then Err(Parse(message, normalize).error)
               else Ok(Accepted(Frame(records), Parse(message, normalize).value))
  {
    hide Parse, Frame, ReadRecords;
    assert [] + Frame(records) == Frame(records);
    CutDoesNotMatter(records, rest, late, [], [], message);
  }

  lemma FramePrepend(r: Record, more: seq<Record>)
    requires ValidRecord(r) && ValidRecords(more)
    ensures ValidRecords([r] + more) && Frame([r] + more) == FrameOne(r) + Frame(more)
  {
    assert ([r] + more)[1..] == more;
  }

  // Only such framings are read: the forwarded bytes are exactly the consumed prefix, a framing within the bound
  // that carries the complete message.
  lemma {:induction false} ReadIsFraming(input: Text, late: bool, raw: Text, before: Text) returns (records: seq<Record>)
    requires ReadRecords(input, late, raw, before).Ok?
    requires |before| < 4 || (before[0] == CLIENT_HELLO_TYPE && |before| < Wanted(before))
    ensures var read := ReadRecords(input, late, raw, before).value;
            && CompleteMessage(read.message) && Carries(records, before, read.message)
            && read.raw == raw + Frame(records) && Frame(records) <= input && |read.raw| <= MAX_CLIENT_HELLO_BYTES
    decreases |input|
  {
    var r, rest := FirstFrame(input, late, raw, before);
    hide FrameOne, ReadRecords, Frame, Fragments, Carries, ValidRecords;
    FramedStep(r, rest, late, raw, before);
    assert ReadRecords(input, late, raw, before) == AfterRecord(rest, late, raw + FrameOne(r), before + r.fragment);
    var raw', part := raw + FrameOne(r), before + r.fragment;
    if |part| >= 4 && |part| >= Wanted(part) {
      records := [r];
      PrefixWanted(part, before);
      FinalRecord(r, before, part[..Wanted(part)]);
    } else {
      var more := ReadIsFraming(rest, late, raw', part);
      records := [r] + more;
      CarriesMore(r, more, before, ReadRecords(input, late, raw, before).value.message);
      FramedOn(r, more, raw, rest);
    }
  }

  lemma FramedOn(r: Record, more: seq<Record>, raw: Text, rest: Text)
    requires ValidRecord(r) && ValidRecords(more) && Frame(more) <= rest
    ensures ValidRecords([r] + more) && raw + Frame([r] + more) == raw + FrameOne(r) + Frame(more)
    ensures Frame([r] + more) <= FrameOne(r) + rest
  {
    hide FrameOne;
    FramePrepend(r, more);
  }

  // The record at the front of an input that is read on.
  lemma FirstFrame(input: Text, late: bool, raw: Text, before: Text) returns (r: Record, rest: Text)
    requires ReadRecords(input, late, raw, before).Ok?
    ensures ValidRecord(r) && input == FrameOne(r) + rest && |rest| < |input| && |raw| + |FrameOne(r)| <= MAX_CLIENT_HELLO_BYTES
  {
    var length := FromU16(input[3..]);
    r, rest := Record(input[1], input[2], input[5..5 + length]), input[5 + length..];
    U16Restores(input[3..]);
    assert input[3..][..2] == input[3..5];
    assert FrameOne(r) == input[..5 + length];
  }

  // The message that a sufficient part starts with is complete, and longer than what did not suffice.
  lemma PrefixWanted(part: Text, before: Text)
    requires |part| >= 4 && |part| >= Wanted(part) && before <= part && part[0] == CLIENT_HELLO_TYPE && Wanted(part) <= MAX_CLIENT_HELLO_BYTES
    requires |before| < 4 || |before| < Wanted(before)
    ensures CompleteMessage(part[..Wanted(part)]) && |before| < Wanted(part)
  {
    var message := part[..Wanted(part)];
    assert message[1] == part[1] && message[2] == part[2] && message[3] == part[3];
    if |before| >= 4 { assert before[1] == part[1] && before[2] == part[2] && before[3] == part[3]; }
  }

  lemma FinalRecord(r: Record, before: Text, message: Text)
    requires ValidRecord(r) && message <= before + r.fragment && |before| < |message|
    ensures Carries([r], before, message) && Frame([r]) == FrameOne(r)
  {
    assert [r][1..] == [] && [r][..0] == [];
    assert Fragments([r]) == r.fragment + Fragments([]) == r.fragment;
    assert before + Fragments([]) == before;
    assert FrameOne(r) + Frame([]) == FrameOne(r);
  }

  lemma CarriesMore(r: Record, more: seq<Record>, before: Text, message: Text)
    requires ValidRecord(r) && Carries(more, before + r.fragment, message)
    ensures Carries([r] + more, before, message)
  {
    var all := [r] + more;
    FragmentsPrepend(r, more);
    assert all[..|all| - 1] == [r] + more[..|more| - 1];
    FragmentsPrepend(r, more[..|more| - 1]);
    assert before + (r.fragment + Fragments(more)) == before + r.fragment + Fragments(more);
    assert before + (r.fragment + Fragments(more[..|more| - 1])) == before + r.fragment + Fragments(more[..|more| - 1]);
  }

  // What is accepted: the forwarded bytes are the consumed prefix, and their records carry one hello whose only
  // host name normalizes to the answer.
  lemma AcceptedIsFramedHello(input: Text, late: bool, normalize: Normalizer)
    returns (records: seq<Record>, h: Hello, at: nat, names: seq<ServerName>, nameAt: nat)
    requires ReadHello(input, late, normalize).Ok?
    ensures var accepted := ReadHello(input, late, normalize).value;
            && ValidRecords(records) && accepted.raw == Frame(records) && accepted.raw <= input && |accepted.raw| <= MAX_CLIENT_HELLO_BYTES
            && ValidHello(h) && Carries(records, [], Encode(h))
            && CarriesNames(h.extensions, at, names) && NamesOneHost(names, nameAt, accepted.host, normalize)
  {
    hide Parse, ReadRecords, CarriesNames, NamesOneHost, Encode, ValidHello;
    var read := ReadRecords(input, late, [], []).value;
    records := ReadIsFraming(input, late, [], []);
    assert [] + Frame(records) == Frame(records);
    h, at, names, nameAt := AcceptedIsHello(read.message, normalize);
  }
}
