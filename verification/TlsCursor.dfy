/** The ClientHello reader and parser as the program runs them: a cursor that advances, growing buffers, loops
    (crates/hand-egress-gateway/src/tls.rs:9-166). */
module TlsCursors {
  import opened Wrappers
  import opened RecordCodec
  import opened ClientHello
  import opened HelloReader

  class Cursor {
    const bytes: Text
    var position: nat

    constructor (bytes: Text)
      ensures Valid() && this.bytes == bytes && Left() == bytes
    {
      this.bytes := bytes;
      this.position := 0;
    }

    ghost predicate Valid()
      reads this
    {
      position <= |bytes|
    }

    /** What has not been read. */
    function Left(): Text
      requires Valid()
      reads this
    {
      bytes[position..]
    }

    method Take(n: nat) returns (r: Parsed<Text>)
      requires Valid()
      modifies this
      ensures Valid()
      ensures r.Ok? ==> Cut(old(Left()), n) == Ok(Cutting(r.value, Left())) && |r.value| == n
      ensures r.Err? ==> Cut(old(Left()), n) == Err(r.error) && Left() == old(Left())
    {
      if position + n > |bytes| { return Err(Truncated); }
      var value := bytes[position..position + n];
      assert value == bytes[position..][..n] && bytes[position + n..] == bytes[position..][n..];
      position := position + n;
      return Ok(value);
    }

    method TakeU8() returns (r: Parsed<Byte>)
      requires Valid()
      modifies this
      ensures Valid()
      ensures r.Ok? ==> Cut(old(Left()), 1) == Ok(Cutting([r.value], Left()))
      ensures r.Err? ==> Cut(old(Left()), 1) == Err(r.error) && Left() == old(Left())
    {
      var t := Take(1);
      if t.Err? { return Err(t.error); }
      assert t.value == [t.value[0]];
      return Ok(t.value[0]);
    }

    method TakeU16() returns (r: Parsed<nat>)
      requires Valid()
      modifies this
      ensures Valid()
      ensures r.Ok? ==> Cut(old(Left()), 2).Ok? && |Cut(old(Left()), 2).value.value| == 2
                        && r.value == FromU16(Cut(old(Left()), 2).value.value) && Left() == Cut(old(Left()), 2).value.rest
      ensures r.Err? ==> Cut(old(Left()), 2) == Err(r.error) && Left() == old(Left())
    {
      var t := Take(2);
      if t.Err? { return Err(t.error); }
      return Ok((t.value[0] as int) * 0x100 + t.value[1]);
    }

    method TakeVector8() returns (r: Parsed<Text>)
      requires Valid()
      modifies this
      ensures Valid()
      ensures r.Ok? ==> Vector8(old(Left())) == Ok(Cutting(r.value, Left()))
      ensures r.Err? ==> Vector8(old(Left())) == Err(r.error)
    {
      var n := TakeU8();
      if n.Err? { return Err(n.error); }
      r := Take(n.value);
    }

    method TakeVector16() returns (r: Parsed<Text>)
      requires Valid()
      modifies this
      ensures Valid()
      ensures r.Ok? ==> Vector16(old(Left())) == Ok(Cutting(r.value, Left()))
      ensures r.Err? ==> Vector16(old(Left())) == Err(r.error)
    {
      var n := TakeU16();
      if n.Err? { return Err(n.error); }
      r := Take(n.value);
    }
  }

  lemma Vector16Shrinks(t: Text)
    requires Vector16(t).Ok?
    ensures |Vector16(t).value.rest| < |t|
  {
  }

  /** Walks a list of server names for the one host name. */
  method ParseNameList(names: Text, normalize: Normalizer) returns (r: Parsed<Text>)
    ensures r == ParseNames(names, None, normalize)
  {
    hide Vector16;
    var list := new Cursor(names);
    var host: Option<Text> := None;
    while list.position < |list.bytes|
      invariant list.Valid() && ParseNames(list.Left(), host, normalize) == ParseNames(names, None, normalize)
      decreases |list.Left()|
    {
      var kind := list.TakeU8();
      assert kind.Ok?;
      ghost var named := list.Left();
      var value := list.TakeVector16();
      if value.Err? { return Err(value.error); }
      Vector16Shrinks(named);
      if kind.value == 0 {
        if host.Some? { return Err(Malformed); }
        var normalized := normalize(value.value);
        if normalized.Err? { return Err(normalized.error); }
        host := Some(normalized.value);
      }
    }
    assert list.Left() == [];
    return if host.Some? then Ok(host.value) else Err(MissingSni);
  }

  /** Reads the host name off a server_name extension. */
  method ParseSniData(data: Text, normalize: Normalizer) returns (r: Parsed<Text>)
    ensures r == ParseSni(data, normalize)
  {
    hide Vector16, ParseNames;
    var cursor := new Cursor(data);
    var listed := cursor.TakeVector16();
    if listed.Err? { return Err(listed.error); }
    if cursor.position != |cursor.bytes| {
      assert cursor.Left() != [];
      return Err(Malformed);
    }
    assert cursor.Left() == [];
    r := ParseNameList(listed.value, normalize);
  }

  /** Walks the extensions for the one server name. */
  method ParseExtensionList(bytes: Text, normalize: Normalizer) returns (r: Parsed<Text>)
    ensures r == ParseExtensions(bytes, None, normalize)
  {
    hide Vector16, ParseSni, FromU16;
    var extensions := new Cursor(bytes);
    var sni: Option<Text> := None;
    while extensions.position < |extensions.bytes|
      invariant extensions.Valid() && ParseExtensions(extensions.Left(), sni, normalize) == ParseExtensions(bytes, None, normalize)
      decreases |extensions.Left()|
    {
      ghost var before := extensions.Left();
      var kind := extensions.TakeU16();
      if kind.Err? { return Err(kind.error); }
      ghost var tail := extensions.Left();
      var data := extensions.TakeVector16();
      if data.Err? { return Err(data.error); }
      Vector16Shrinks(tail);
      if kind.value == ECH_EXTENSION { return Err(EchUnsupported); }
      if kind.value == SERVER_NAME_EXTENSION {
        if sni.Some? { return Err(Malformed); }
        var host := ParseSniData(data.value, normalize);
        if host.Err? { return Err(host.error); }
        sni := Some(host.value);
      }
    }
    assert extensions.Left() == [];
    return if sni.Some? then Ok(sni.value) else Err(MissingSni);
  }

  method ParseHelloBody(body: Text) returns (r: Parsed<Text>)
    ensures r == ParseBody(body)
  {
    hide Cut, Vector8, Vector16, FromU16;
    var cursor := new Cursor(body);
    var fixed := cursor.Take(2 + 32);
    if fixed.Err? { return Err(fixed.error); }
    var session := cursor.TakeVector8();
    if session.Err? { return Err(session.error); }
    var ciphers := cursor.TakeU16();
    if ciphers.Err? { return Err(ciphers.error); }
    if ciphers.value == 0 || ciphers.value % 2 != 0 { return Err(Malformed); }
    var suites := cursor.Take(ciphers.value);
    if suites.Err? { return Err(suites.error); }
    var compression := cursor.TakeVector8();
    if compression.Err? { return Err(compression.error); }
    r := cursor.TakeVector16();
    if r.Ok? && cursor.position != |cursor.bytes| {
      assert cursor.Left() != [];
      return Err(Malformed);
    }
    if r.Ok? { assert cursor.Left() == []; }
  }

  method ParseClientHello(bytes: Text, normalize: Normalizer) returns (r: Parsed<Text>)
    ensures r == Parse(bytes, normalize)
  {
    hide ParseBody, ParseExtensions, FromU24;
    var cursor := new Cursor(bytes);
    var kind := cursor.TakeU8();
    if kind.Err? { return Err(kind.error); }
    if kind.value != CLIENT_HELLO_TYPE { return Err(NotClientHello); }
    var declared := cursor.Take(3);
    if declared.Err? { return Err(declared.error); }
    var body := cursor.Left();
    if FromU24(declared.value) != |body| { return Err(Truncated); }
    var extensions := ParseHelloBody(body);
    if extensions.Err? { return Err(extensions.error); }
    r := ParseExtensionList(extensions.value, normalize);
  }

  /** The bytes a peer sends before the deadline; reading past them is a short read. */
  class Connection {
    const input: Text
    const late: bool
    var position: nat

    constructor (input: Text, late: bool)
      ensures Valid() && position == 0 && this.input == input && this.late == late
    {
      this.input := input;
      this.late := late;
      this.position := 0;
    }

    ghost predicate Valid()
      reads this
    {
      position <= |input|
    }

    method ReadExact(n: nat) returns (r: Parsed<Text>)
      requires Valid()
      modifies this
      ensures Valid()
      ensures r.Ok? <==> old(position) + n <= |input|
      ensures r.Ok? ==> position == old(position) + n && r.value == input[old(position)..position]
      ensures r.Err? ==> r.error == ShortRead(late)
    {
      if position + n > |input| {
        position := |input|;
        return Err(ShortRead(late));
      }
      r := Ok(input[position..position + n]);
      position := position + n;
    }
  }

  /** Reads one record behind `raw`, within the bound. */
  method ReadRecord(connection: Connection, raw: Text, ghost handshake: Text) returns (r: Parsed<Cutting>)
    requires connection.Valid() && raw == connection.input[..connection.position]
    modifies connection
    ensures var before := ReadRecords(connection.input[old(connection.position)..], connection.late, raw, handshake);
            && (r.Err? ==> before == Err(r.error))
            && (r.Ok? ==>
                  && connection.Valid() && connection.position == old(connection.position) + 5 + |r.value.rest|
                  && r.value.value + r.value.rest == connection.input[old(connection.position)..connection.position]
                  && |r.value.value| == 5 && |raw| + 5 + |r.value.rest| <= MAX_CLIENT_HELLO_BYTES
                  && before == AfterRecord(connection.input[connection.position..], connection.late,
                                           raw + r.value.value + r.value.rest, handshake + r.value.rest))
  {
    hide ReadRecords, FromU16, AfterRecord;
    ghost var input, late, start := connection.input, connection.late, connection.position;
    var header := connection.ReadExact(5);
    if header.Err? {
      ShortHeader(input[start..], late, raw, handshake);
      return Err(header.error);
    }
    var length := FromU16(header.value[3..]);
    HeaderRead(input, start, late, raw, handshake, header.value);
    if header.value[0] != HANDSHAKE_CONTENT_TYPE { return Err(NotClientHello); }
    if length == 0 || |raw| + 5 + length > MAX_CLIENT_HELLO_BYTES { return Err(TooLarge); }
    var record := connection.ReadExact(length);
    if record.Err? { return Err(record.error); }
    RecordRead(input, start, late, raw, handshake, length);
    return Ok(Cutting(header.value, record.value));
  }

  /** Reads records until the handshake message is complete. The buffer bound alone ends the loop, and on success
      the connection has been read exactly up to the forwarded bytes. */
  method ReadMessage(connection: Connection) returns (r: Parsed<Read>)
    requires connection.Valid() && connection.position == 0
    modifies connection
    ensures r == ReadRecords(connection.input, connection.late, [], [])
    ensures r.Ok? ==> connection.Valid() && r.value.raw == connection.input[..connection.position]
  {
    hide ReadRecords, Wanted;
    var raw: Text, handshake: Text := [], [];
    ghost var input, late := connection.input, connection.late;
    assert input[0..] == input;
    while true
      invariant connection.Valid() && raw == input[..connection.position] && |raw| <= MAX_CLIENT_HELLO_BYTES
      invariant ReadRecords(input[connection.position..], late, raw, handshake) == ReadRecords(input, late, [], [])
      decreases MAX_CLIENT_HELLO_BYTES - |raw|
    {
      ghost var start := connection.position;
      var record := ReadRecord(connection, raw, handshake);
      if record.Err? { return Err(record.error); }
      Joined(input, start, connection.position, record.value.value, record.value.rest);
      raw := raw + record.value.value + record.value.rest;
      handshake := handshake + record.value.rest;
      if |handshake| >= 4 {
        if handshake[0] != CLIENT_HELLO_TYPE { return Err(NotClientHello); }
        var wanted := Wanted(handshake);
        if wanted > MAX_CLIENT_HELLO_BYTES { return Err(TooLarge); }
        if |handshake| >= wanted { return Ok(Read(raw, handshake[..wanted])); }
      }
    }
  }

  lemma Joined(input: Text, start: nat, end: nat, a: Text, b: Text)
    requires start <= end <= |input| && a + b == input[start..end]
    ensures input[..start] + a + b == input[..end]
  {
    assert input[..start] + (a + b) == input[..end];
  }

  lemma ShortHeader(input: Text, late: bool, raw: Text, handshake: Text)
    requires |input| < 5
    ensures ReadRecords(input, late, raw, handshake) == Err(ShortRead(late))
  {
  }

  // What the loop answers right after a header.
  lemma HeaderRead(input: Text, start: nat, late: bool, raw: Text, handshake: Text, header: Text)
    requires start + 5 <= |input| && header == input[start..start + 5]
    ensures var length, r := FromU16(header[3..]), ReadRecords(input[start..], late, raw, handshake);
            && (header[0] != HANDSHAKE_CONTENT_TYPE ==> r == Err(NotClientHello))
            && (header[0] == HANDSHAKE_CONTENT_TYPE && (length == 0 || |raw| + 5 + length > MAX_CLIENT_HELLO_BYTES) ==> r == Err(TooLarge))
    ensures var length, r := FromU16(header[3..]), ReadRecords(input[start..], late, raw, handshake);
            header[0] == HANDSHAKE_CONTENT_TYPE && 0 < length <= MAX_CLIENT_HELLO_BYTES - 5 - |raw| && start + 5 + length > |input|
            ==> r == Err(ShortRead(late))
    ensures header[0] == input[start] && FromU16(header[3..]) == FromU16(input[start..][3..])
  {
  }

  // What the loop answers right after a record.
  lemma RecordRead(input: Text, start: nat, late: bool, raw: Text, handshake: Text, length: nat)
    requires start + 5 + length <= |input| && input[start] == HANDSHAKE_CONTENT_TYPE
    requires length == FromU16(input[start..][3..]) && 0 < length && |raw| + 5 + length <= MAX_CLIENT_HELLO_BYTES
    ensures var header, record := input[start..start + 5], input[start + 5..start + 5 + length];
            ReadRecords(input[start..], late, raw, handshake)
            == AfterRecord(input[start + 5 + length..], late, raw + header + record, handshake + record)
  {
    var t := input[start..];
    var header, record := input[start..start + 5], input[start + 5..start + 5 + length];
    assert t[..5 + length] == header + record;
    assert t[5..5 + length] == record;
    assert t[5 + length..] == input[start + 5 + length..];
    assert raw + t[..5 + length] == raw + header + record;
  }

  method ReadClientHello(connection: Connection, normalize: Normalizer) returns (r: Parsed<Accepted>)
    requires connection.Valid() && connection.position == 0
    modifies connection
    ensures r == ReadHello(connection.input, connection.late, normalize)
    ensures r.Ok? ==> connection.Valid() && r.value.raw == connection.input[..connection.position]
  {
    hide Parse, ReadRecords;
    var read := ReadMessage(connection);
    if read.Err? { return Err(read.error); }
    var host := ParseClientHello(read.value.message, normalize);
    if host.Err? { return Err(host.error); }
    return Ok(Accepted(read.value.raw, host.value));
  }
}
