/** The nested length-prefixed ClientHello parser: sections 4.1.2 of RFC 8446 and 3 of RFC 6066
    (crates/hand-egress-gateway/src/tls.rs:63-166). UTF-8 decoding and host normalization are a function parameter. */
module ClientHello {
  import opened Wrappers
  import opened RecordCodec

  const CLIENT_HELLO_TYPE: Byte := 1
  const SERVER_NAME_EXTENSION: nat := 0
  const ECH_EXTENSION: nat := 0xfe0d

  datatype TlsError = Timeout | Truncated | TooLarge | NotClientHello | Malformed | EchUnsupported | MissingSni | BadHost

  type Parsed<+T> = Result<T, TlsError>

  /** What a host name decodes and normalizes to, or why it does not. */
  type Normalizer = Text -> Parsed<Text>

  // ---- Integers ----

  function U16(n: nat): (t: Text)
    requires n < 0x1_0000
    ensures |t| == 2
  {
    [n / 0x100, n % 0x100]
  }

  function U24(n: nat): (t: Text)
    requires n < 0x100_0000
    ensures |t| == 3
  {
    [n / 0x1_0000, n / 0x100 % 0x100, n % 0x100]
  }

  function FromU16(t: Text): (n: nat)
    requires |t| >= 2
    ensures n < 0x1_0000
  {
    (t[0] as int) * 0x100 + t[1]
  }

  function FromU24(t: Text): (n: nat)
    requires |t| >= 3
    ensures n < 0x100_0000
  {
    (t[0] as int) * 0x1_0000 + (t[1] as int) * 0x100 + t[2]
  }

  lemma U16RoundTrip(n: nat, rest: Text)
    requires n < 0x1_0000
    ensures FromU16(U16(n) + rest) == n
  {
  }

  lemma U24RoundTrip(n: nat, rest: Text)
    requires n < 0x100_0000
    ensures FromU24(U24(n) + rest) == n
  {
  }

  lemma U16Restores(t: Text)
    requires |t| >= 2
    ensures U16(FromU16(t)) == t[..2]
  {
  }

  lemma U24Restores(t: Text)
    requires |t| >= 3
    ensures U24(FromU24(t)) == t[..3]
  {
    var a: int, b: int, c: int := t[0], t[1], t[2];
    var n := FromU24(t);
    assert n == (a * 0x100 + b) * 0x100 + c;
    assert n % 0x100 == c && n / 0x100 == a * 0x100 + b;
    assert n / 0x1_0000 == a;
  }

  // ---- Hellos and their bytes ----

  datatype ServerName = ServerName(kind: Byte, value: Text)

  datatype Extension = Extension(kind: nat, data: Text)

  /** `fixed` is the legacy version and the random. */
  datatype Hello = Hello(fixed: Text, session: Text, ciphers: Text, compression: Text, extensions: seq<Extension>)

  predicate FitsU16(t: Text) {
    |t| < 0x1_0000
  }

  function EncodeNames(names: seq<ServerName>): Text
    requires forall i :: 0 <= i < |names| ==> FitsU16(names[i].value)
  {
    if names == [] then []
    else
      assert FitsU16(names[0].value);
      [names[0].kind] + U16(|names[0].value|) + names[0].value + EncodeNames(names[1..])
  }

  function EncodeExtensions(extensions: seq<Extension>): Text
    requires forall i :: 0 <= i < |extensions| ==> extensions[i].kind < 0x1_0000 && FitsU16(extensions[i].data)
  {
    if extensions == [] then []
    else
      assert FitsU16(extensions[0].data);
      U16(extensions[0].kind) + U16(|extensions[0].data|) + extensions[0].data + EncodeExtensions(extensions[1..])
  }

  predicate ValidNames(names: seq<ServerName>) {
    && (forall i :: 0 <= i < |names| ==> FitsU16(names[i].value))
    && FitsU16(EncodeNames(names))
  }

  predicate ValidExtensions(extensions: seq<Extension>) {
    forall i :: 0 <= i < |extensions| ==> extensions[i].kind < 0x1_0000 && FitsU16(extensions[i].data)
  }

  predicate ValidHello(h: Hello) {
    && |h.fixed| == 34 && |h.session| < 0x100 && |h.compression| < 0x100
    && 0 < |h.ciphers| < 0x1_0000 && |h.ciphers| % 2 == 0
    && ValidExtensions(h.extensions) && FitsU16(EncodeExtensions(h.extensions))
  }

  function ServerNameData(names: seq<ServerName>): Text
    requires ValidNames(names)
  {
    U16(|EncodeNames(names)|) + EncodeNames(names)
  }

  function EncodeBody(h: Hello): Text
    requires ValidHello(h)
  {
    h.fixed + [|h.session|] + h.session + U16(|h.ciphers|) + h.ciphers + [|h.compression|] + h.compression
    + U16(|EncodeExtensions(h.extensions)|) + EncodeExtensions(h.extensions)
  }

  lemma BodyFits(h: Hello)
    requires ValidHello(h)
    ensures |EncodeBody(h)| < 0x100_0000
  {
  }

  function Encode(h: Hello): Text
    requires ValidHello(h)
  {
    BodyFits(h);
    [CLIENT_HELLO_TYPE] + U24(|EncodeBody(h)|) + EncodeBody(h)
  }

  // ---- Parsing ----

  datatype Cutting = Cutting(value: Text, rest: Text)

  function Cut(t: Text, n: nat): Parsed<Cutting> {
    if n <= |t| then Ok(Cutting(t[..n], t[n..])) else Err(Truncated)
  }

  /** A vector with a one-byte length. */
  function Vector8(t: Text): Parsed<Cutting> {
    var length :- Cut(t, 1);
    Cut(length.rest, length.value[0])
  }

  /** A vector with a two-byte length. */
  function Vector16(t: Text): Parsed<Cutting> {
    var length :- Cut(t, 2);
    Cut(length.rest, FromU16(length.value))
  }

  function ParseNames(list: Text, host: Option<Text>, normalize: Normalizer): Parsed<Text> {
    if list == [] then if host.Some? then Ok(host.value) else Err(MissingSni)
    else
      var kind :- Cut(list, 1);
      var value :- Vector16(kind.rest);
      if kind.value[0] != 0 then ParseNames(value.rest, host, normalize)
      else if host.Some? then Err(Malformed)
      else
        var normalized :- normalize(value.value);
        ParseNames(value.rest, Some(normalized), normalize)
  }

  function ParseSni(data: Text, normalize: Normalizer): Parsed<Text> {
    var list :- Vector16(data);
    if list.rest != [] then Err(Malformed) else ParseNames(list.value, None, normalize)
  }

  function ParseExtensions(t: Text, sni: Option<Text>, normalize: Normalizer): Parsed<Text> {
    if t == [] then if sni.Some? then Ok(sni.value) else Err(MissingSni)
    else
      var kind :- Cut(t, 2);
      var data :- Vector16(kind.rest);
      if FromU16(kind.value) == ECH_EXTENSION then Err(EchUnsupported)
      else if FromU16(kind.value) != SERVER_NAME_EXTENSION then ParseExtensions(data.rest, sni, normalize)
      else if sni.Some? then Err(Malformed)
      else
        var host :- ParseSni(data.value, normalize);
        ParseExtensions(data.rest, Some(host), normalize)
  }

  /** The extension bytes of a hello body; an odd or empty cipher list is refused before it is read. */
  function ParseBody(body: Text): Parsed<Text> {
    var fixed :- Cut(body, 2 + 32);
    var session :- Vector8(fixed.rest);
    var ciphers :- Cut(session.rest, 2);
    if FromU16(ciphers.value) == 0 || FromU16(ciphers.value) % 2 != 0 then Err(Malformed)
    else
      var suites :- Cut(ciphers.rest, FromU16(ciphers.value));
      var compression :- Vector8(suites.rest);
      var extensions :- Vector16(compression.rest);
      if extensions.rest != [] then Err(Malformed) else Ok(extensions.value)
  }

  function Parse(bytes: Text, normalize: Normalizer): Parsed<Text> {
    var kind :- Cut(bytes, 1);
    if kind.value[0] != CLIENT_HELLO_TYPE then Err(NotClientHello)
    else
      var declared :- Cut(kind.rest, 3);
      if FromU24(declared.value) != |declared.rest| then Err(Truncated)
      else
        var extensions :- ParseBody(declared.rest);
        ParseExtensions(extensions, None, normalize)
  }

  // ---- What the proxy accepts, said without parsing ----

  /** Exactly one host name, which normalizes to `host`. */
  predicate NamesOneHost(names: seq<ServerName>, at: nat, host: Text, normalize: Normalizer) {
    && at < |names| && names[at].kind == 0 && normalize(names[at].value) == Ok(host)
    && forall i :: 0 <= i < |names| && i != at ==> names[i].kind != 0
  }

  /** No encrypted hello, and one server_name extension, which lists these names. */
  predicate CarriesNames(extensions: seq<Extension>, at: nat, names: seq<ServerName>) {
    && at < |extensions| && ValidNames(names)
    && extensions[at] == Extension(SERVER_NAME_EXTENSION, ServerNameData(names))
    && forall i :: 0 <= i < |extensions| ==>
         extensions[i].kind != ECH_EXTENSION && (i != at ==> extensions[i].kind != SERVER_NAME_EXTENSION)
  }

  // ---- Serialize, then parse ----

  lemma CutAt(a: Text, b: Text)
    ensures Cut(a + b, |a|) == Ok(Cutting(a, b))
  {
    assert (a + b)[..|a|] == a && (a + b)[|a|..] == b;
  }

  lemma Vector8At(a: Text, b: Text)
    requires |a| < 0x100
    ensures Vector8([|a|] + a + b) == Ok(Cutting(a, b))
  {
    assert [|a|] + a + b == [|a|] + (a + b);
    CutAt([|a|], a + b);
    CutAt(a, b);
  }

  lemma Vector16At(a: Text, b: Text)
    requires FitsU16(a)
    ensures Vector16(U16(|a|) + a + b) == Ok(Cutting(a, b))
  {
    assert U16(|a|) + a + b == U16(|a|) + (a + b);
    CutAt(U16(|a|), a + b);
    assert U16(|a|) + [] == U16(|a|);
    U16RoundTrip(|a|, []);
    CutAt(a, b);
  }

  /** Parsing one name off the front. */
  lemma NameAt(name: ServerName, rest: Text, host: Option<Text>, normalize: Normalizer)
    requires FitsU16(name.value)
    ensures var t := [name.kind] + U16(|name.value|) + name.value + rest;
            ParseNames(t, host, normalize)
            == if name.kind != 0 then ParseNames(rest, host, normalize)
               else if host.Some? then Err(Malformed)
               else if normalize(name.value).Err? then Err(normalize(name.value).error)
               else ParseNames(rest, Some(normalize(name.value).value), normalize)
  {
    var t := [name.kind] + U16(|name.value|) + name.value + rest;
    var tail := U16(|name.value|) + name.value + rest;
    assert t == [name.kind] + tail;
    CutAt([name.kind], tail);
    Vector16At(name.value, rest);
  }

  lemma {:induction false} NamesParse(names: seq<ServerName>, host: Text, normalize: Normalizer)
    requires forall i :: 0 <= i < |names| ==> FitsU16(names[i].value)
    requires forall i :: 0 <= i < |names| ==> names[i].kind != 0
    ensures ParseNames(EncodeNames(names), Some(host), normalize) == Ok(host)
  {
    if names != [] {
      NameAt(names[0], EncodeNames(names[1..]), Some(host), normalize);
      NamesParse(names[1..], host, normalize);
    }
  }

  lemma {:induction false} OneHostParses(names: seq<ServerName>, at: nat, host: Text, normalize: Normalizer)
    requires forall i :: 0 <= i < |names| ==> FitsU16(names[i].value)
    requires NamesOneHost(names, at, host, normalize)
    ensures ParseNames(EncodeNames(names), None, normalize) == Ok(host)
  {
    assert EncodeNames(names) == [names[0].kind] + U16(|names[0].value|) + names[0].value + EncodeNames(names[1..]);
    hide EncodeNames, ParseNames, U16;
    NameAt(names[0], EncodeNames(names[1..]), None, normalize);
    if at == 0 {
      NamesParse(names[1..], host, normalize);
    } else {
      assert names[1..][at - 1] == names[at];
      OneHostParses(names[1..], at - 1, host, normalize);
    }
  }

  lemma SniParses(names: seq<ServerName>, at: nat, host: Text, normalize: Normalizer)
    requires ValidNames(names) && NamesOneHost(names, at, host, normalize)
    ensures ParseSni(ServerNameData(names), normalize) == Ok(host)
  {
    Vector16At(EncodeNames(names), []);
    assert ServerNameData(names) + [] == ServerNameData(names);
    OneHostParses(names, at, host, normalize);
  }

  lemma ExtensionAt(e: Extension, rest: Text, sni: Option<Text>, normalize: Normalizer)
    requires e.kind < 0x1_0000 && FitsU16(e.data)
    ensures var t := U16(e.kind) + U16(|e.data|) + e.data + rest;
            ParseExtensions(t, sni, normalize)
            == if e.kind == ECH_EXTENSION then Err(EchUnsupported)
               else if e.kind != SERVER_NAME_EXTENSION then ParseExtensions(rest, sni, normalize)
               else if sni.Some? then Err(Malformed)
               else if ParseSni(e.data, normalize).Err? then Err(ParseSni(e.data, normalize).error)
               else ParseExtensions(rest, Some(ParseSni(e.data, normalize).value), normalize)
  {
    var t := U16(e.kind) + U16(|e.data|) + e.data + rest;
    var tail := U16(|e.data|) + e.data + rest;
    assert t == U16(e.kind) + tail;
    CutAt(U16(e.kind), tail);
    assert U16(e.kind) + [] == U16(e.kind);
    U16RoundTrip(e.kind, []);
    Vector16At(e.data, rest);
  }

  lemma {:induction false} PlainExtensionsParse(extensions: seq<Extension>, host: Text, normalize: Normalizer)
    requires ValidExtensions(extensions)
    requires forall i :: 0 <= i < |extensions| ==> extensions[i].kind != ECH_EXTENSION && extensions[i].kind != SERVER_NAME_EXTENSION
    ensures ParseExtensions(EncodeExtensions(extensions), Some(host), normalize) == Ok(host)
  {
    if extensions != [] {
      hide ParseSni;
      ExtensionAt(extensions[0], EncodeExtensions(extensions[1..]), Some(host), normalize);
      PlainExtensionsParse(extensions[1..], host, normalize);
    }
  }

  lemma {:induction false} ExtensionsParse(extensions: seq<Extension>, at: nat, names: seq<ServerName>, host: Text, normalize: Normalizer)
    requires ValidExtensions(extensions) && CarriesNames(extensions, at, names)
    requires ParseSni(ServerNameData(names), normalize) == Ok(host)
    ensures ParseExtensions(EncodeExtensions(extensions), None, normalize) == Ok(host)
    decreases at
  {
    hide ParseSni, ServerNameData;
    ExtensionAt(extensions[0], EncodeExtensions(extensions[1..]), None, normalize);
    if at == 0 {
      PlainExtensionsParse(extensions[1..], host, normalize);
    } else {
      assert extensions[1..][at - 1] == extensions[at];
      ExtensionsParse(extensions[1..], at - 1, names, host, normalize);
    }
  }

  lemma BodyParses(h: Hello)
    requires ValidHello(h)
    ensures ParseBody(EncodeBody(h)) == Ok(EncodeExtensions(h.extensions))
  {
    var ext := EncodeExtensions(h.extensions);
    var e := U16(|ext|) + ext;
    var m := [|h.compression|] + h.compression + e;
    var suites := h.ciphers + m;
    var c := U16(|h.ciphers|) + suites;
    var s := [|h.session|] + h.session + c;
    assert EncodeBody(h) == h.fixed + s by { Nested(h.fixed, [|h.session|], h.session, U16(|h.ciphers|), h.ciphers,
                                                    [|h.compression|], h.compression, U16(|ext|), ext); }
    hide EncodeBody, EncodeExtensions, ParseBody;
    assert e == U16(|ext|) + ext + [];
    PartsParse(h.fixed, h.session, h.ciphers, h.compression, ext, s, c, suites, m, e);
  }

  // The parser takes a body apart where it was put together.
  lemma PartsParse(fixed: Text, session: Text, ciphers: Text, compression: Text, ext: Text, s: Text, c: Text, suites: Text, m: Text, e: Text)
    requires |fixed| == 34 && |session| < 0x100 && |compression| < 0x100 && 0 < |ciphers| < 0x1_0000 && |ciphers| % 2 == 0 && FitsU16(ext)
    requires s == [|session|] + session + c && c == U16(|ciphers|) + suites && suites == ciphers + m
    requires m == [|compression|] + compression + e && e == U16(|ext|) + ext + []
    ensures ParseBody(fixed + s) == Ok(ext)
  {
    hide Vector8, Vector16, Cut, FromU16, U16;
    CutAt(fixed, s);
    Vector8At(session, c);
    CutAt(U16(|ciphers|), suites);
    LengthAlone(|ciphers|);
    CutAt(ciphers, m);
    Vector8At(compression, e);
    Vector16At(ext, []);
  }

  lemma LengthAlone(n: nat)
    requires n < 0x1_0000
    ensures FromU16(U16(n)) == n
  {
    assert U16(n) + [] == U16(n);
    U16RoundTrip(n, []);
  }

  lemma Nested(a: Text, b: Text, b': Text, c: Text, c': Text, d: Text, d': Text, e: Text, e': Text)
    ensures a + b + b' + c + c' + d + d' + e + e' == a + (b + b' + (c + (c' + (d + d' + (e + e')))))
  {
  }

  // Every well-formed hello with one host name and no encrypted hello parses to its normalized host.
  lemma HelloParses(h: Hello, at: nat, names: seq<ServerName>, nameAt: nat, host: Text, normalize: Normalizer)
    requires ValidHello(h) && CarriesNames(h.extensions, at, names) && NamesOneHost(names, nameAt, host, normalize)
    ensures Parse(Encode(h), normalize) == Ok(host)
  {
    var body := EncodeBody(h);
    BodyFits(h);
    assert Encode(h) == [CLIENT_HELLO_TYPE] + (U24(|body|) + body);
    hide Encode, EncodeBody, ParseBody, ParseExtensions, ParseSni, ServerNameData;
    CutAt([CLIENT_HELLO_TYPE], U24(|body|) + body);
    CutAt(U24(|body|), body);
    assert U24(|body|) + [] == U24(|body|);
    U24RoundTrip(|body|, []);
    BodyParses(h);
    SniParses(names, nameAt, host, normalize);
    ExtensionsParse(h.extensions, at, names, host, normalize);
  }

  // ---- Parse, then serialize ----

  lemma Vector8Restores(t: Text)
    requires Vector8(t).Ok?
    ensures var v := Vector8(t).value;
            |v.value| < 0x100 && t == [|v.value|] + v.value + v.rest && |v.rest| < |t|
  {
  }

  lemma Vector16Restores(t: Text)
    requires Vector16(t).Ok?
    ensures var v := Vector16(t).value;
            FitsU16(v.value) && t == U16(|v.value|) + v.value + v.rest && |v.rest| < |t|
  {
    var v := Vector16(t).value;
    U16Restores(t);
    assert t[..2] + t[2..] == t;
    assert FromU16(t[..2]) == FromU16(t);
    assert t[2..] == v.value + v.rest;
  }

  /** The first name of a list that parses. */
  lemma FirstName(list: Text) returns (name: ServerName, rest: Text)
    requires list != [] && Vector16(list[1..]).Ok?
    ensures FitsU16(name.value) && list == [name.kind] + U16(|name.value|) + name.value + rest && |rest| < |list|
    ensures Cut(list, 1) == Ok(Cutting([name.kind], list[1..])) && Vector16(list[1..]) == Ok(Cutting(name.value, rest))
  {
    var v := Vector16(list[1..]).value;
    Vector16Restores(list[1..]);
    name, rest := ServerName(list[0], v.value), v.rest;
    assert list == [list[0]] + list[1..];
  }

  lemma EncodeNamesPrepends(name: ServerName, more: seq<ServerName>)
    requires FitsU16(name.value) && forall i :: 0 <= i < |more| ==> FitsU16(more[i].value)
    ensures forall i :: 0 <= i < |[name] + more| ==> FitsU16(([name] + more)[i].value)
    ensures EncodeNames([name] + more) == [name.kind] + U16(|name.value|) + name.value + EncodeNames(more)
  {
    assert ([name] + more)[1..] == more;
  }

  lemma {:induction false} NamesRestore(list: Text, host: Option<Text>, normalize: Normalizer) returns (names: seq<ServerName>, at: nat)
    requires ParseNames(list, host, normalize).Ok?
    ensures forall i :: 0 <= i < |names| ==> FitsU16(names[i].value)
    ensures EncodeNames(names) == list
    ensures host.None? ==> NamesOneHost(names, at, ParseNames(list, host, normalize).value, normalize)
    ensures host.Some? ==> ParseNames(list, host, normalize) == Ok(host.value) && forall i :: 0 <= i < |names| ==> names[i].kind != 0
    decreases |list|
  {
    if list == [] {
      names, at := [], 0;
    } else {
      assert Vector16(list[1..]).Ok? by { assert list[..1] == [list[0]]; }
      var name, rest := FirstName(list);
      hide Vector16;
      if name.kind != 0 {
        var more, k := NamesRestore(rest, host, normalize);
        EncodeNamesPrepends(name, more);
        names, at := [name] + more, k + 1;
        if host.None? {
          assert names[at] == more[k];
          forall i | 0 <= i < |names| && i != at ensures names[i].kind != 0 { if i > 0 { assert names[i] == more[i - 1]; } }
        }
      } else {
        var normalized := normalize(name.value).value;
        var more, _ := NamesRestore(rest, Some(normalized), normalize);
        EncodeNamesPrepends(name, more);
        names, at := [name] + more, 0;
      }
    }
  }

  lemma SniRestores(data: Text, normalize: Normalizer) returns (names: seq<ServerName>, at: nat)
    requires ParseSni(data, normalize).Ok?
    ensures ValidNames(names) && ServerNameData(names) == data
    ensures NamesOneHost(names, at, ParseSni(data, normalize).value, normalize)
  {
    Vector16Restores(data);
    names, at := NamesRestore(Vector16(data).value.value, None, normalize);
  }

  lemma FirstExtension(t: Text) returns (e: Extension, rest: Text)
    requires Cut(t, 2).Ok? && Vector16(t[2..]).Ok?
    ensures e.kind < 0x1_0000 && FitsU16(e.data) && t == U16(e.kind) + U16(|e.data|) + e.data + rest && |rest| < |t|
    ensures FromU16(Cut(t, 2).value.value) == e.kind && Cut(t, 2).value.rest == t[2..] && Vector16(t[2..]) == Ok(Cutting(e.data, rest))
  {
    var v := Vector16(t[2..]).value;
    Vector16Restores(t[2..]);
    U16Restores(t);
    e, rest := Extension(FromU16(t), v.value), v.rest;
    assert t == t[..2] + t[2..];
  }

  lemma EncodeExtensionsPrepends(e: Extension, more: seq<Extension>)
    requires e.kind < 0x1_0000 && FitsU16(e.data) && ValidExtensions(more)
    ensures ValidExtensions([e] + more)
    ensures EncodeExtensions([e] + more) == U16(e.kind) + U16(|e.data|) + e.data + EncodeExtensions(more)
  {
    assert ([e] + more)[1..] == more;
  }

  predicate PlainExtensions(extensions: seq<Extension>) {
    forall i :: 0 <= i < |extensions| ==> extensions[i].kind != ECH_EXTENSION && extensions[i].kind != SERVER_NAME_EXTENSION
  }

  lemma {:induction false} ExtensionsRestore(t: Text, sni: Option<Text>, normalize: Normalizer)
    returns (extensions: seq<Extension>, at: nat, names: seq<ServerName>, nameAt: nat)
    requires ParseExtensions(t, sni, normalize).Ok?
    ensures ValidExtensions(extensions) && EncodeExtensions(extensions) == t
    ensures sni.Some? ==> ParseExtensions(t, sni, normalize) == Ok(sni.value) && PlainExtensions(extensions)
    ensures sni.None? ==> CarriesNames(extensions, at, names)
                          && NamesOneHost(names, nameAt, ParseExtensions(t, sni, normalize).value, normalize)
    decreases |t|
  {
    if t == [] {
      extensions, at, names, nameAt := [], 0, [], 0;
    } else {
      var e, rest := FirstExtension(t);
      hide Vector16, Cut, ParseSni, ValidNames, NamesOneHost, ServerNameData, EncodeExtensions, U16, FromU16, ValidExtensions,
           PlainExtensions, CarriesNames;
      if e.kind != SERVER_NAME_EXTENSION {
        var more, k;
        more, k, names, nameAt := ExtensionsRestore(rest, sni, normalize);
        EncodeExtensionsPrepends(e, more);
        extensions, at := [e] + more, k + 1;
        if sni.None? { CarriesPrepends(e, more, k, names); } else { PlainPrepends(e, more); }
      } else {
        names, nameAt := SniRestores(e.data, normalize);
        var host := ParseSni(e.data, normalize).value;
        var more, _, _, _ := ExtensionsRestore(rest, Some(host), normalize);
        EncodeExtensionsPrepends(e, more);
        extensions, at := [e] + more, 0;
        CarriesFirst(e, more, names);
      }
    }
  }

  lemma PlainPrepends(e: Extension, more: seq<Extension>)
    requires PlainExtensions(more) && e.kind != ECH_EXTENSION && e.kind != SERVER_NAME_EXTENSION
    ensures PlainExtensions([e] + more)
  {
  }

  lemma CarriesFirst(e: Extension, more: seq<Extension>, names: seq<ServerName>)
    requires PlainExtensions(more) && ValidNames(names) && e == Extension(SERVER_NAME_EXTENSION, ServerNameData(names))
    ensures CarriesNames([e] + more, 0, names)
  {
    hide ValidNames, ServerNameData;
  }

  lemma CarriesPrepends(e: Extension, more: seq<Extension>, k: nat, names: seq<ServerName>)
    requires CarriesNames(more, k, names) && e.kind != ECH_EXTENSION && e.kind != SERVER_NAME_EXTENSION
    ensures CarriesNames([e] + more, k + 1, names)
  {
    var all := [e] + more;
    assert all[k + 1] == more[k];
    forall i | 0 <= i < |all| ensures all[i].kind != ECH_EXTENSION && (i != k + 1 ==> all[i].kind != SERVER_NAME_EXTENSION) {
      if i > 0 { assert all[i] == more[i - 1]; }
    }
  }

  // The parts of a body that parses: cipher suites not empty, in pairs, and nothing behind the extensions.
  lemma BodyRestores(body: Text) returns (fixed: Text, session: Text, ciphers: Text, compression: Text)
    requires ParseBody(body).Ok?
    ensures |fixed| == 34 && |session| < 0x100 && |compression| < 0x100 && 0 < |ciphers| < 0x1_0000 && |ciphers| % 2 == 0
    ensures FitsU16(ParseBody(body).value)
    ensures body == fixed + [|session|] + session + U16(|ciphers|) + ciphers + [|compression|] + compression
                    + U16(|ParseBody(body).value|) + ParseBody(body).value
  {
    hide Cut, Vector8, Vector16;
    var f := Cut(body, 34).value;
    var s := Vector8(f.rest).value;
    var n := Cut(s.rest, 2).value;
    CutRestores(body, 34);
    CutRestores(s.rest, 2);
    var c := Cut(n.rest, FromU16(n.value)).value;
    var m := Vector8(c.rest).value;
    var e := Vector16(m.rest).value;
    Vector8Restores(f.rest);
    CutRestores(n.rest, FromU16(n.value));
    Vector8Restores(c.rest);
    Vector16Restores(m.rest);
    U16Restores(n.value);
    assert n.value[..2] == n.value;
    fixed, session, ciphers, compression := f.value, s.value, c.value, m.value;
    assert e.rest == [] && ParseBody(body).value == e.value;
    hide ParseBody, FromU16;
    Regroup(body, f.value, [|session|], session, n.value, c.value, [|compression|], compression, U16(|e.value|), e.value,
            f.rest, s.rest, n.rest, c.rest, m.rest);
  }

  lemma CutRestores(t: Text, n: nat)
    requires Cut(t, n).Ok?
    ensures t == Cut(t, n).value.value + Cut(t, n).value.rest && |Cut(t, n).value.value| == n
  {
  }

  lemma Regroup(body: Text, a: Text, b: Text, b': Text, c: Text, c': Text, d: Text, d': Text, e: Text, e': Text,
                r1: Text, r2: Text, r3: Text, r4: Text, r5: Text)
    requires body == a + r1 && r1 == b + b' + r2 && r2 == c + r3 && r3 == c' + r4 && r4 == d + d' + r5 && r5 == e + e' + []
    ensures body == a + b + b' + c + c' + d + d' + e + e'
  {
    assert r4 == d + d' + e + e';
    assert r2 == c + c' + d + d' + e + e';
  }

  // Every accepted byte string is exactly the serialization of such a hello.
  lemma AcceptedIsHello(bytes: Text, normalize: Normalizer)
    returns (h: Hello, at: nat, names: seq<ServerName>, nameAt: nat)
    requires Parse(bytes, normalize).Ok?
    ensures ValidHello(h) && Encode(h) == bytes
    ensures CarriesNames(h.extensions, at, names) && NamesOneHost(names, nameAt, Parse(bytes, normalize).value, normalize)
  {
    var body := HeaderRestores(bytes, normalize);
    hide Parse, ParseExtensions, ParseSni, NamesOneHost, CarriesNames, U24, EncodeExtensions, ParseBody;
    var extensions;
    extensions, at, names, nameAt := ExtensionsRestore(ParseBody(body).value, None, normalize);
    var fixed, session, ciphers, compression := BodyRestores(body);
    h := Hello(fixed, session, ciphers, compression, extensions);
    assert EncodeBody(h) == body;
  }

  lemma HeaderRestores(bytes: Text, normalize: Normalizer) returns (body: Text)
    requires Parse(bytes, normalize).Ok?
    ensures |body| < 0x100_0000 && bytes == [CLIENT_HELLO_TYPE] + U24(|body|) + body
    ensures ParseBody(body).Ok? && Parse(bytes, normalize) == ParseExtensions(ParseBody(body).value, None, normalize)
  {
    hide ParseExtensions, ParseBody;
    var kind := Cut(bytes, 1).value;
    var declared := Cut(kind.rest, 3).value;
    body := declared.rest;
    U24Restores(declared.value);
    assert declared.value[..3] == declared.value;
    assert kind.rest == declared.value + body;
  }
}
