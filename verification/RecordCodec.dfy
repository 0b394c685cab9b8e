/** One log record on one line: a concrete encoding without newlines, with its inverse. It stands for the JSON
    text of crates/hand-guest/src/file_effects.rs:340-345 and acks.rs:249-251, of which the logs need exactly this. */
module RecordCodec {
  import opened Wrappers

  type Byte = x: int | 0 <= x < 256
  type Text = seq<Byte>

  const NEWLINE: Byte := 10
  const ESCAPE: Byte := 92
  const END_OF_FIELD: Byte := 0

  predicate NoNewline(t: Text) {
    forall i :: 0 <= i < |t| ==> t[i] != NEWLINE
  }

  function EscapeByte(b: Byte): Text {
    if b == NEWLINE then [ESCAPE, 110] else if b == ESCAPE then [ESCAPE, ESCAPE] else if b == END_OF_FIELD then [ESCAPE, 48] else [b]
  }

  function Escape(t: Text): Text {
    if t == [] then [] else EscapeByte(t[0]) + Escape(t[1..])
  }

  function EncodeFields(fields: seq<Text>): Text {
    if fields == [] then [] else Escape(fields[0]) + [END_OF_FIELD] + EncodeFields(fields[1..])
  }

  /** Decodes the rest of a line, `field` being what was read of the field at hand. */
  function DecodeFrom(t: Text, field: Text): Option<seq<Text>> {
    if t == [] then if field == [] then Some([]) else None
    else if t[0] == END_OF_FIELD then
      var more := DecodeFrom(t[1..], []);
      if more.None? then None else Some([field] + more.value)
    else if t[0] == ESCAPE then
      if |t| < 2 then None
      else if t[1] == 110 then DecodeFrom(t[2..], field + [NEWLINE])
      else if t[1] == ESCAPE then DecodeFrom(t[2..], field + [ESCAPE])
      else if t[1] == 48 then DecodeFrom(t[2..], field + [END_OF_FIELD])
      else None
    else DecodeFrom(t[1..], field + [t[0]])
  }

  function DecodeFields(t: Text): Option<seq<Text>> {
    DecodeFrom(t, [])
  }

  lemma DecodesOneByte(b: Byte, rest: Text, field: Text)
    ensures DecodeFrom(EscapeByte(b) + rest, field) == DecodeFrom(rest, field + [b])
  {
    var t := EscapeByte(b) + rest;
    assert t[|EscapeByte(b)|..] == rest;
  }

  lemma {:induction false} DecodesOneField(t: Text, rest: Text, field: Text)
    ensures DecodeFrom(Escape(t) + [END_OF_FIELD] + rest, field)
            == (var more := DecodeFrom(rest, []); if more.None? then None else Some([field + t] + more.value))
    decreases |t|
  {
    var whole := Escape(t) + [END_OF_FIELD] + rest;
    if t == [] {
      assert whole[1..] == rest && field + t == field;
    } else {
      assert whole == EscapeByte(t[0]) + (Escape(t[1..]) + [END_OF_FIELD] + rest);
      DecodesOneByte(t[0], Escape(t[1..]) + [END_OF_FIELD] + rest, field);
      DecodesOneField(t[1..], rest, field + [t[0]]);
      assert field + [t[0]] + t[1..] == field + t;
    }
  }

  lemma {:induction false} FieldsRoundTrip(fields: seq<Text>)
    ensures DecodeFields(EncodeFields(fields)) == Some(fields)
  {
    if fields != [] {
      DecodesOneField(fields[0], EncodeFields(fields[1..]), []);
      FieldsRoundTrip(fields[1..]);
      assert [] + fields[0] == fields[0];
      assert [fields[0]] + fields[1..] == fields;
    }
  }

  lemma {:induction false} EscapeHasNoNewline(t: Text)
    ensures NoNewline(Escape(t))
  {
    if t != [] { EscapeHasNoNewline(t[1..]); }
  }

  lemma {:induction false} EncodedHasNoNewline(fields: seq<Text>)
    ensures NoNewline(EncodeFields(fields))
    ensures fields != [] ==> EncodeFields(fields) != []
  {
    if fields != [] {
      EscapeHasNoNewline(fields[0]);
      EncodedHasNoNewline(fields[1..]);
    }
  }

  // ---- The identity grammar both logs share (crates/hand-guest/src/acks.rs:283-316) ----

  predicate AsciiAlphanumeric(b: Byte) {
    48 <= b <= 57 || 65 <= b <= 90 || 97 <= b <= 122
  }

  predicate ValidIdentifier(t: Text) {
    && 0 < |t| <= 128
    && AsciiAlphanumeric(t[0])
    && forall i :: 0 < i < |t| ==> AsciiAlphanumeric(t[i]) || t[i] in {46, 95, 58, 45}
  }

  predicate ValidDigest(t: Text) {
    |t| == 64 && forall i :: 0 <= i < |t| ==> 48 <= t[i] <= 57 || 97 <= t[i] <= 102
  }
}
