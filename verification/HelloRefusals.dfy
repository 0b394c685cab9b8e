/** Which well-formed hello is refused, and for what: together with what is accepted, the parser's whole verdict on
    every serialized hello (crates/hand-egress-gateway/src/tls.rs:10-127). */
module HelloRefusals {
  import opened Wrappers
  import opened RecordCodec
  import opened ClientHello
  import opened HelloReader

  predicate Plain(e: Extension) {
    e.kind != ECH_EXTENSION && e.kind != SERVER_NAME_EXTENSION
  }

  /** Of the first `k` extensions only number `at` is not plain: a server_name extension that names `host`. */
  predicate NamedAt(extensions: seq<Extension>, k: nat, at: nat, host: Text, normalize: Normalizer) {
    && at < k <= |extensions| && extensions[at].kind == SERVER_NAME_EXTENSION
    && ParseSni(extensions[at].data, normalize) == Ok(host)
    && forall i :: 0 <= i < k && i != at ==> Plain(extensions[i])
  }

  /** The first `k` extensions give no reason to refuse, and name `sni` if anything. */
  ghost predicate Unobjectionable(extensions: seq<Extension>, k: nat, sni: Option<Text>, normalize: Normalizer) {
    && k <= |extensions|
    && (if sni.None? then forall i :: 0 <= i < k ==> Plain(extensions[i])
        else exists at: nat :: NamedAt(extensions, k, at, sni.value, normalize))
  }

  /** Why extension `k` is refused after that. */
  function Reason(extensions: seq<Extension>, k: nat, sni: Option<Text>, normalize: Normalizer): Option<TlsError>
    requires k <= |extensions|
  {
    if k == |extensions| then if sni.None? then Some(MissingSni) else None
    else if extensions[k].kind == ECH_EXTENSION then Some(EchUnsupported)
    else if extensions[k].kind != SERVER_NAME_EXTENSION then None
    else if sni.Some? then Some(Malformed)
    else if ParseSni(extensions[k].data, normalize).Err? then Some(ParseSni(extensions[k].data, normalize).error)
    else None
  }

  // ---- Extensions ----

  lemma {:induction false} SkipPlain(extensions: seq<Extension>, k: nat, sni: Option<Text>, normalize: Normalizer)
    requires ValidExtensions(extensions) && k <= |extensions| && forall i :: 0 <= i < k ==> Plain(extensions[i])
    ensures ParseExtensions(EncodeExtensions(extensions), sni, normalize)
            == ParseExtensions(EncodeExtensions(extensions[k..]), sni, normalize)
    decreases k
  {
    if k == 0 {
      assert extensions[0..] == extensions;
    } else {
      EncodedFirst(extensions);
      hide ParseExtensions, EncodeExtensions, ParseSni;
      assert Plain(extensions[0]);
      ExtensionAt(extensions[0], EncodeExtensions(extensions[1..]), sni, normalize);
      SkipPlain(extensions[1..], k - 1, sni, normalize);
      assert extensions[1..][k - 1..] == extensions[k..];
    }
  }

  lemma EncodedFirst(extensions: seq<Extension>)
    requires ValidExtensions(extensions) && extensions != []
    ensures ValidExtensions(extensions[1..]) && FitsU16(extensions[0].data) && extensions[0].kind < 0x1_0000
    ensures EncodeExtensions(extensions)
            == U16(extensions[0].kind) + U16(|extensions[0].data|) + extensions[0].data + EncodeExtensions(extensions[1..])
  {
  }

  lemma TailIsValid(extensions: seq<Extension>, k: nat)
    requires ValidExtensions(extensions) && k <= |extensions|
    ensures ValidExtensions(extensions[k..])
  {
  }

  lemma TakesName(extensions: seq<Extension>, host: Text, normalize: Normalizer)
    requires ValidExtensions(extensions) && extensions != [] && extensions[0].kind == SERVER_NAME_EXTENSION
    requires ParseSni(extensions[0].data, normalize) == Ok(host) && ValidExtensions(extensions[1..])
    ensures ParseExtensions(EncodeExtensions(extensions), None, normalize)
            == ParseExtensions(EncodeExtensions(extensions[1..]), Some(host), normalize)
  {
    EncodedFirst(extensions);
    hide ParseExtensions, EncodeExtensions, ParseSni;
    ExtensionAt(extensions[0], EncodeExtensions(extensions[1..]), None, normalize);
  }

  lemma ReachesBehindName(extensions: seq<Extension>, k: nat, at: nat, host: Text, normalize: Normalizer)
    requires ValidExtensions(extensions) && NamedAt(extensions, k, at, host, normalize)
    ensures ValidExtensions(extensions[at..]) && ValidExtensions(extensions[at + 1..]) && ValidExtensions(extensions[k..])
    ensures ParseExtensions(EncodeExtensions(extensions), None, normalize)
            == ParseExtensions(EncodeExtensions(extensions[at..]), None, normalize)
    ensures ParseExtensions(EncodeExtensions(extensions[at + 1..]), Some(host), normalize)
            == ParseExtensions(EncodeExtensions(extensions[k..]), Some(host), normalize)
  {
    TailIsValid(extensions, at);
    TailIsValid(extensions, at + 1);
    TailIsValid(extensions, k);
    hide ParseExtensions, EncodeExtensions, ParseSni, ValidExtensions;
    SkipPlain(extensions, at, None, normalize);
    SkipPlain(extensions[at + 1..], k - at - 1, Some(host), normalize);
    assert extensions[at + 1..][k - at - 1..] == extensions[k..];
  }

  // The parser reaches extension `k` knowing just the host named before it.
  lemma Reaches(extensions: seq<Extension>, k: nat, sni: Option<Text>, normalize: Normalizer)
    requires ValidExtensions(extensions) && Unobjectionable(extensions, k, sni, normalize)
    ensures ValidExtensions(extensions[k..])
    ensures ParseExtensions(EncodeExtensions(extensions), None, normalize)
            == ParseExtensions(EncodeExtensions(extensions[k..]), sni, normalize)
  {
    hide ParseExtensions, EncodeExtensions, ParseSni, ValidExtensions;
    TailIsValid(extensions, k);
    if sni.None? {
      SkipPlain(extensions, k, None, normalize);
    } else {
      var at: nat :| NamedAt(extensions, k, at, sni.value, normalize);
      ReachesBehindName(extensions, k, at, sni.value, normalize);
      assert extensions[at..][1..] == extensions[at + 1..];
      TakesName(extensions[at..], sni.value, normalize);
    }
  }

  lemma ExtensionsVerdict(extensions: seq<Extension>, k: nat, sni: Option<Text>, normalize: Normalizer)
    requires ValidExtensions(extensions) && Unobjectionable(extensions, k, sni, normalize)
    ensures Reason(extensions, k, sni, normalize).Some? ==>
              ParseExtensions(EncodeExtensions(extensions), None, normalize) == Err(Reason(extensions, k, sni, normalize).value)
    ensures k == |extensions| && sni.Some? ==> ParseExtensions(EncodeExtensions(extensions), None, normalize) == Ok(sni.value)
  {
    Reaches(extensions, k, sni, normalize);
    var tail := extensions[k..];
    if k < |extensions| {
      EncodedFirst(tail);
      ExtensionAt(tail[0], EncodeExtensions(tail[1..]), sni, normalize);
      hide ParseExtensions, EncodeExtensions, ParseSni, ValidExtensions, Unobjectionable;
      assert tail[0] == extensions[k];
    } else {
      hide ParseSni, Unobjectionable;
      assert EncodeExtensions(tail) == [];
    }
  }

  // ---- Names ----

  predicate HostAt(names: seq<ServerName>, k: nat, at: nat, host: Text, normalize: Normalizer) {
    && at < k <= |names| && names[at].kind == 0 && normalize(names[at].value) == Ok(host)
    && forall i :: 0 <= i < k && i != at ==> names[i].kind != 0
  }

  /** The first `k` names give no reason to refuse, and hold `host` if any. */
  ghost predicate UnobjectionableNames(names: seq<ServerName>, k: nat, host: Option<Text>, normalize: Normalizer) {
    && k <= |names|
    && (if host.None? then forall i :: 0 <= i < k ==> names[i].kind != 0
        else exists at: nat :: HostAt(names, k, at, host.value, normalize))
  }

  lemma {:induction false} SkipNames(names: seq<ServerName>, k: nat, host: Option<Text>, normalize: Normalizer)
    requires FittingNames(names) && k <= |names| && forall i :: 0 <= i < k ==> names[i].kind != 0
    ensures FittingNames(names[k..])
    ensures ParseNames(EncodeNames(names), host, normalize) == ParseNames(EncodeNames(names[k..]), host, normalize)
    decreases k
  {
    if k == 0 {
      assert names[0..] == names;
    } else {
      FirstOf(names);
      hide ParseNames, EncodeNames;
      NameAt(names[0], EncodeNames(names[1..]), host, normalize);
      SkipNames(names[1..], k - 1, host, normalize);
      assert names[1..][k - 1..] == names[k..];
    }
  }

  predicate FittingNames(names: seq<ServerName>) {
    forall i :: 0 <= i < |names| ==> FitsU16(names[i].value)
  }

  lemma FirstOf(names: seq<ServerName>)
    requires FittingNames(names) && names != []
    ensures FittingNames(names[1..]) && FitsU16(names[0].value)
    ensures EncodeNames(names) == [names[0].kind] + U16(|names[0].value|) + names[0].value + EncodeNames(names[1..])
  {
  }

  lemma ReachesName(names: seq<ServerName>, k: nat, host: Option<Text>, normalize: Normalizer)
    requires FittingNames(names) && UnobjectionableNames(names, k, host, normalize)
    ensures FittingNames(names[k..])
    ensures ParseNames(EncodeNames(names), None, normalize) == ParseNames(EncodeNames(names[k..]), host, normalize)
  {
    hide ParseNames, EncodeNames;
    if host.None? {
      SkipNames(names, k, None, normalize);
    } else {
      var at: nat :| HostAt(names, k, at, host.value, normalize);
      SkipNames(names, at, None, normalize);
      var tail := names[at..];
      FirstOf(tail);
      NameAt(tail[0], EncodeNames(tail[1..]), None, normalize);
      assert tail[1..] == names[at + 1..];
      SkipNames(names[at + 1..], k - at - 1, host, normalize);
      assert names[at + 1..][k - at - 1..] == names[k..];
    }
  }

  // A name list is refused for its second host, for a host that does not normalize, or for naming none.
  lemma NameListVerdict(names: seq<ServerName>, k: nat, host: Option<Text>, normalize: Normalizer)
    requires ValidNames(names) && UnobjectionableNames(names, k, host, normalize)
    ensures k < |names| && names[k].kind == 0 && host.Some? ==> ParseSni(ServerNameData(names), normalize) == Err(Malformed)
    ensures k < |names| && names[k].kind == 0 && host.None? && normalize(names[k].value).Err? ==>
              ParseSni(ServerNameData(names), normalize) == Err(normalize(names[k].value).error)
    ensures k == |names| ==>
              ParseSni(ServerNameData(names), normalize) == (if host.Some? then Ok(host.value) else Err(MissingSni))
  {
    SniIsNames(names, normalize);
    ReachesName(names, k, host, normalize);
    var tail := names[k..];
    if k < |names| {
      FirstOf(tail);
      NameAt(tail[0], EncodeNames(tail[1..]), host, normalize);
      hide ParseNames, EncodeNames, ParseSni, ServerNameData, UnobjectionableNames;
      assert tail[0] == names[k];
    } else {
      hide ParseSni, ServerNameData, UnobjectionableNames;
      assert EncodeNames(tail) == [];
    }
  }

  lemma SniIsNames(names: seq<ServerName>, normalize: Normalizer)
    requires ValidNames(names)
    ensures ParseSni(ServerNameData(names), normalize) == ParseNames(EncodeNames(names), None, normalize)
  {
    Vector16At(EncodeNames(names), []);
    assert ServerNameData(names) + [] == ServerNameData(names);
    hide ParseNames, EncodeNames;
  }

  // ---- Whole hellos ----

  lemma HelloIsExtensions(h: Hello, normalize: Normalizer)
    requires ValidHello(h)
    ensures Parse(Encode(h), normalize) == ParseExtensions(EncodeExtensions(h.extensions), None, normalize)
  {
    var body := EncodeBody(h);
    BodyFits(h);
    assert Encode(h) == [CLIENT_HELLO_TYPE] + (U24(|body|) + body);
    hide Encode, EncodeBody, ParseBody, ParseExtensions, EncodeExtensions;
    CutAt([CLIENT_HELLO_TYPE], U24(|body|) + body);
    CutAt(U24(|body|), body);
    assert U24(|body|) + [] == U24(|body|);
    U24RoundTrip(|body|, []);
    BodyParses(h);
  }

  // The first extension that gives a reason decides: an encrypted hello, a second server_name or a bad one, or, after
  // all of them, that there was none.
  lemma HelloIsRefused(h: Hello, k: nat, sni: Option<Text>, normalize: Normalizer)
    requires ValidHello(h) && Unobjectionable(h.extensions, k, sni, normalize) && Reason(h.extensions, k, sni, normalize).Some?
    ensures Parse(Encode(h), normalize) == Err(Reason(h.extensions, k, sni, normalize).value)
  {
    hide Parse, Encode, ParseExtensions, EncodeExtensions, Unobjectionable, Reason, ParseSni;
    HelloIsExtensions(h, normalize);
    ExtensionsVerdict(h.extensions, k, sni, normalize);
  }

  // Every hello has such an extension, or is accepted with the host it names.
  lemma HelloIsJudged(h: Hello, normalize: Normalizer) returns (k: nat, sni: Option<Text>)
    requires ValidHello(h)
    ensures Unobjectionable(h.extensions, k, sni, normalize)
    ensures Reason(h.extensions, k, sni, normalize).Some? || (k == |h.extensions| && sni.Some?)
    ensures Parse(Encode(h), normalize)
            == (if Reason(h.extensions, k, sni, normalize).Some? then Err(Reason(h.extensions, k, sni, normalize).value)
                else Ok(sni.value))
  {
    hide Parse, Encode, ParseExtensions, EncodeExtensions, ParseSni;
    k, sni := 0, None;
    while k < |h.extensions| && Reason(h.extensions, k, sni, normalize).None?
      invariant Unobjectionable(h.extensions, k, sni, normalize)
    {
      if h.extensions[k].kind == SERVER_NAME_EXTENSION {
        sni := Some(ParseSni(h.extensions[k].data, normalize).value);
        assert NamedAt(h.extensions, k + 1, k, sni.value, normalize);
      } else if sni.Some? {
        var at: nat :| NamedAt(h.extensions, k, at, sni.value, normalize);
        assert NamedAt(h.extensions, k + 1, at, sni.value, normalize);
      }
      k := k + 1;
    }
    HelloIsExtensions(h, normalize);
    ExtensionsVerdict(h.extensions, k, sni, normalize);
  }

  // ---- Records ----

  // Records that carry a proper part of a message are read and kept, whatever they are cut into.
  lemma {:induction false} ReadsOn(records: seq<Record>, rest: Text, late: bool, raw: Text, before: Text, message: Text)
    requires CompleteMessage(message) && ValidRecords(records) && |raw + Frame(records)| <= MAX_CLIENT_HELLO_BYTES
    requires before + Fragments(records) <= message && |before + Fragments(records)| < |message|
    ensures ReadRecords(Frame(records) + rest, late, raw, before)
            == ReadRecords(rest, late, raw + Frame(records), before + Fragments(records))
    decreases |records|
  {
    if records == [] {
      assert Frame(records) + rest == rest && raw + Frame(records) == raw && before + Fragments(records) == before;
    } else {
      var r, more := records[0], records[1..];
      FirstRecord(records, rest, raw, before);
      hide FrameOne, Frame, ReadRecords, Fragments;
      var part := before + r.fragment;
      FramedStep(r, Frame(more) + rest, late, raw, before);
      assert part <= part + Fragments(more);
      if |part| >= 4 { SameWanted(part, message); }
      ReadsOn(more, rest, late, raw + FrameOne(r), part, message);
    }
  }

  // In the middle of a message the next five bytes decide: another content type, an empty or oversized record, or an
  // end of input, which is a timeout exactly when the deadline has passed.
  lemma NextRecordIsRefused(records: seq<Record>, next: Text, late: bool, message: Text, normalize: Normalizer)
    requires CompleteMessage(message) && ValidRecords(records) && |Frame(records)| <= MAX_CLIENT_HELLO_BYTES
    requires Fragments(records) <= message && |Fragments(records)| < |message|
    ensures var verdict := ReadHello(Frame(records) + next, late, normalize);
            if |next| < 5 then verdict == Err(if late then Timeout else Truncated)
            else if next[0] != HANDSHAKE_CONTENT_TYPE then verdict == Err(NotClientHello)
            else
              var length := FromU16(next[3..]);
              && (length == 0 || |Frame(records)| + 5 + length > MAX_CLIENT_HELLO_BYTES ==> verdict == Err(TooLarge))
              && (0 < length && |Frame(records)| + 5 + length <= MAX_CLIENT_HELLO_BYTES && |next| < 5 + length ==>
                    verdict == Err(if late then Timeout else Truncated))
  {
    hide Frame, Fragments, Parse, FromU16;
    assert [] + Frame(records) == Frame(records) && [] + Fragments(records) == Fragments(records);
    ReadsOn(records, next, late, [], [], message);
  }

  // Once four bytes of the message are there, another handshake type and an announced size past the bound are refused.
  lemma FirstBytesDecide(r: Record, rest: Text, late: bool, normalize: Normalizer)
    requires HelloReader.ValidRecord(r) && |FrameOne(r)| <= MAX_CLIENT_HELLO_BYTES && |r.fragment| >= 4
    ensures r.fragment[0] != CLIENT_HELLO_TYPE ==> ReadHello(FrameOne(r) + rest, late, normalize) == Err(NotClientHello)
    ensures r.fragment[0] == CLIENT_HELLO_TYPE && Wanted(r.fragment) > MAX_CLIENT_HELLO_BYTES ==>
              ReadHello(FrameOne(r) + rest, late, normalize) == Err(TooLarge)
  {
    hide FrameOne, Parse, ReadRecords;
    assert [] + FrameOne(r) == FrameOne(r) && [] + r.fragment == r.fragment;
    FramedStep(r, rest, late, [], []);
  }
}
