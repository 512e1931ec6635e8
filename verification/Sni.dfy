/** PeekTLSServerName: the scan of a TLS ClientHello for its server name, against the
    encoding of section 7.4.1.2 of RFC 5246 and section 3 of RFC 6066. */
module Sni {
  import opened Basics

  /** Crash is a Go slice or index out of range, which only malformed input causes. */
  datatype Result = Name(name: seq<byte>) | Incomplete | NoSNI | BadHello | Crash

  // ---------------------------------------------------------------- the scan, as functions

  /** The loop over at most n names from position at; None when it runs out of them. */
  function ScanNames(r: seq<byte>, at: nat, n: nat): Option<Result>
    requires at <= |r|
    decreases n
  {
    if n == 0 then None
    else if |r| - at < 3 then Some(BadHello)
    else
      var len := FromU16(r[at + 1], r[at + 2]);
      if |r| - at - 3 < len then Some(BadHello)
      else if r[at] == 0 then Some(Name(r[at + 3..at + 3 + len]))
      else ScanNames(r, at + 3 + len, n - 1)
  }

  function ScanExtensions(r: seq<byte>, at: nat): Result
    requires at <= |r|
    decreases |r| - at
  {
    if at == |r| then BadHello
    else if |r| - at < 4 then BadHello
    else
      var kind, len := FromU16(r[at], r[at + 1]), FromU16(r[at + 2], r[at + 3]);
      if |r| - at - 4 < len then BadHello
      else if kind == 0 && len < 2 then BadHello
      else
        var found := if kind == 0 then ScanNames(r, at + 6, FromU16(r[at + 4], r[at + 5])) else None;
        if found.Some? then found.value else ScanExtensions(r, at + 4 + len)
  }

  /** From the session id to the extensions. */
  function ScanHello(r: seq<byte>): Result {
    if r == [] then Crash
    else if r[0] != 1 then BadHello
    else if |r| < 42 then NoSNI
    else if 39 + r[38] as nat > |r| then Crash
    else ScanSuites(r, 39 + r[38] as nat)
  }

  predicate Odd(n: nat) {
    n == 1 || (n > 1 && Odd(n - 2))
  }

  function ScanSuites(r: seq<byte>, at: nat): Result
    requires at <= |r|
  {
    if |r| - at < 2 then BadHello
    else
      var len := FromU16(r[at], r[at + 1]);
      if Odd(len) || |r| - at < 2 + len then BadHello
      else ScanCompression(r, at + 2 + len)
  }

  function ScanCompression(r: seq<byte>, at: nat): Result
    requires at <= |r|
  {
    if at == |r| then Crash
    else if |r| - at < 1 + r[at] as nat then BadHello
    else
      var e := at + 1 + r[at] as nat;
      if |r| - e < 2 then NoSNI
      else if FromU16(r[e], r[e + 1]) != |r| - e - 2 then BadHello
      else ScanExtensions(r, e + 2)
  }

  /** input is all that Peek can ever see. */
  function Peek(input: seq<byte>): Result {
    if |input| < 5 then Incomplete
    else if input[0] != 0x16 then BadHello
    else if input[1] < 3 then NoSNI
    else
      var len := FromU16(input[3], input[4]);
      if |input| < 5 + len then Incomplete else ScanHello(input[5..5 + len])
  }

  // ---------------------------------------------------------------- the scan, as it is written

  method PeekTLSServerName(input: seq<byte>) returns (result: Result)
    ensures result == Peek(input)
  {
    if |input| < 5 {
      return Incomplete;
    }
    if input[0] != 0x16 {
      return BadHello;
    }
    if input[1] < 3 {
      return NoSNI;
    }
    var restLen := FromU16(input[3], input[4]);
    if |input| < 5 + restLen {
      return Incomplete;
    }
    result := Handshake(input[5..5 + restLen]);
  }

  /** The slice restBuf is r[at..] throughout. */
  method Handshake(r: seq<byte>) returns (result: Result)
    ensures result == ScanHello(r)
  {
    if |r| == 0 {
      return Crash;
    }
    if r[0] != 1 {
      return BadHello;
    }
    if |r| < 42 {
      return NoSNI;
    }
    var at := 38;
    var sessionIDLen: nat := r[at];
    at := at + 1 + sessionIDLen;
    if at > |r| {
      return Crash;
    }
    result := Suites(r, at);
  }

  method Suites(r: seq<byte>, start: nat) returns (result: Result)
    requires start <= |r|
    ensures result == ScanSuites(r, start)
  {
    var at := start;
    if |r| - at < 2 {
      return BadHello;
    }
    var cipherSuiteLen := FromU16(r[at], r[at + 1]);
    if Odd(cipherSuiteLen) || |r| - at < 2 + cipherSuiteLen {
      return BadHello;
    }
    result := Compression(r, at + 2 + cipherSuiteLen);
  }

  method Compression(r: seq<byte>, start: nat) returns (result: Result)
    requires start <= |r|
    ensures result == ScanCompression(r, start)
  {
    var at := start;
    if at == |r| {
      return Crash;
    }
    var compressionMethodsLen: nat := r[at];
    if |r| - at < 1 + compressionMethodsLen {
      return BadHello;
    }
    at := at + 1 + compressionMethodsLen;
    if |r| - at < 2 {
      return NoSNI;
    }
    var extensionsLength := FromU16(r[at], r[at + 1]);
    at := at + 2;
    if extensionsLength != |r| - at {
      return BadHello;
    }
    result := Extensions(r, at);
  }

  /** The loop that consumes one extension a turn. */
  method Extensions(r: seq<byte>, start: nat) returns (result: Result)
    requires start <= |r|
    ensures result == ScanExtensions(r, start)
  {
    var at: nat := start;
    while at < |r|
      invariant at <= |r| && ScanExtensions(r, at) == ScanExtensions(r, start)
      decreases |r| - at
    {
      if |r| - at < 4 {
        return BadHello;
      }
      var extension := FromU16(r[at], r[at + 1]);
      var length := FromU16(r[at + 2], r[at + 3]);
      at := at + 4;
      if |r| - at < length {
        return BadHello;
      }
      if extension == 0 {
        if length < 2 {
          return BadHello;
        }
        var found := Names(r, at + 2, FromU16(r[at], r[at + 1]));
        if found.Some? {
          return found.value;
        }
      }
      at := at + length;
    }
    return BadHello;
  }

  /** The inner loop; its slice d is r[at..] and is not cut off at the extension's end. */
  method Names(r: seq<byte>, start: nat, numNames: nat) returns (found: Option<Result>)
    requires start <= |r|
    ensures found == ScanNames(r, start, numNames)
  {
    var at: nat := start;
    for i := 0 to numNames
      invariant at <= |r| && ScanNames(r, at, numNames - i) == ScanNames(r, start, numNames)
    {
      if |r| - at < 3 {
        return Some(BadHello);
      }
      var nameType, nameLen := r[at], FromU16(r[at + 1], r[at + 2]);
      at := at + 3;
      if |r| - at < nameLen {
        return Some(BadHello);
      }
      if nameType == 0 {
        return Some(Name(r[at..at + nameLen]));
      }
      at := at + nameLen;
    }
    return None;
  }

  // ---------------------------------------------------------------- well-formed hellos

  datatype NameEntry = NameEntry(nameType: byte, name: seq<byte>)

  datatype Extension = ServerNames(names: seq<NameEntry>) | Other(kind: nat, body: seq<byte>)

  datatype ClientHello = ClientHello(
    random: seq<byte>,
    sessionId: seq<byte>,
    suites: seq<byte>,        // two bytes each
    compression: seq<byte>,
    extensions: seq<Extension>)

  /** From at to end, r spells these names: type, length, bytes. */
  ghost predicate SpellsNames(r: seq<byte>, at: nat, end: nat, names: seq<NameEntry>)
    decreases names
  {
    if names == [] then at == end
    else
      var next := at + 3 + |names[0].name|;
      && next <= |r|
      && r[at] == names[0].nameType && FromU16(r[at + 1], r[at + 2]) == |names[0].name|
      && r[at + 3..next] == names[0].name
      && SpellsNames(r, next, end, names[1..])
  }

  /** From at to end, r spells the content of an extension. */
  ghost predicate SpellsBody(r: seq<byte>, at: nat, end: nat, x: Extension)
    requires at <= end <= |r|
  {
    match x
    case Other(_, body) => r[at..end] == body
    case ServerNames(names) =>
      at + 2 <= end && FromU16(r[at], r[at + 1]) == end - at - 2 && SpellsNames(r, at + 2, end, names)
  }

  /** From at to its end, r spells these extensions: kind, length, content. */
  ghost predicate SpellsExtensions(r: seq<byte>, at: nat, xs: seq<Extension>)
    decreases xs
  {
    if xs == [] then at == |r|
    else
      && at + 4 <= |r|
      && FromU16(r[at], r[at + 1]) == (if xs[0].Other? then xs[0].kind else 0)
      && (xs[0].Other? ==> xs[0].kind != 0)
      && var next := at + 4 + FromU16(r[at + 2], r[at + 3]);
      && next <= |r| && SpellsBody(r, at + 4, next, xs[0])
      && SpellsExtensions(r, next, xs[1..])
  }

  /** Up to the extensions, r spells h. */
  ghost predicate SpellsHead(r: seq<byte>, h: ClientHello) {
    && |r| >= 42 && r[0] == 1 && r[6..38] == h.random
    && r[38] == |h.sessionId|
    && var a := 39 + |h.sessionId|;
    && a + 2 <= |r| && r[39..a] == h.sessionId
    && FromU16(r[a], r[a + 1]) == |h.suites| && !Odd(|h.suites|)
    && var b := a + 2 + |h.suites|;
    && b < |r| && r[a + 2..b] == h.suites
    && r[b] == |h.compression|
    && var c := b + 1 + |h.compression|;
    && c + 2 <= |r| && r[b + 1..c] == h.compression
    && FromU16(r[c], r[c + 1]) == |r| - c - 2
  }

  function ExtensionsAt(h: ClientHello): nat {
    39 + |h.sessionId| + 2 + |h.suites| + 1 + |h.compression| + 2
  }

  /** r spells the handshake message that carries h. */
  ghost predicate SpellsHello(r: seq<byte>, h: ClientHello) {
    SpellsHead(r, h) && SpellsExtensions(r, ExtensionsAt(h), h.extensions)
  }

  /** input starts with one TLS record that holds h, whole. */
  ghost predicate StartsWithHello(input: seq<byte>, h: ClientHello) {
    && |input| >= 5 && input[0] == 0x16 && input[1] >= 3
    && var len := FromU16(input[3], input[4]);
    && 5 + len <= |input| && SpellsHello(input[5..5 + len], h)
  }

  // ---------------------------------------------------------------- what the scan finds

  /** The first host_name in a list. */
  function FirstHost(names: seq<NameEntry>): Option<seq<byte>> {
    if names == [] then None
    else if names[0].nameType == 0 then Some(names[0].name)
    else FirstHost(names[1..])
  }

  /** What the scan ought to answer for a well-formed hello. */
  function Expected(xs: seq<Extension>): Result {
    if xs == [] then BadHello
    else if xs[0].Other? then Expected(xs[1..])
    else if FirstHost(xs[0].names).Some? then Name(FirstHost(xs[0].names).value)
    else BadHello
  }

  /** The server_name extension, if there is one, holds a host_name. */
  predicate HasHostIfNamed(xs: seq<Extension>) {
    xs == [] || if xs[0].Other? then HasHostIfNamed(xs[1..]) else FirstHost(xs[0].names).Some?
  }

  lemma {:induction false} NamesTakeRoom(r: seq<byte>, at: nat, end: nat, names: seq<NameEntry>)
    requires SpellsNames(r, at, end, names)
    ensures at + 3 * |names| <= end
    decreases names
  {
    if names != [] { NamesTakeRoom(r, at + 3 + |names[0].name|, end, names[1..]); }
  }

  lemma {:induction false} FindsFirstHost(r: seq<byte>, at: nat, end: nat, names: seq<NameEntry>, n: nat)
    requires at <= |r| && SpellsNames(r, at, end, names) && n >= |names| && FirstHost(names).Some?
    ensures ScanNames(r, at, n) == Some(Name(FirstHost(names).value))
    decreases names
  {
    if names[0].nameType != 0 {
      FindsFirstHost(r, at + 3 + |names[0].name|, end, names[1..], n - 1);
    }
  }

  lemma {:induction false} FindsServerName(r: seq<byte>, at: nat, xs: seq<Extension>)
    requires at <= |r| && SpellsExtensions(r, at, xs) && HasHostIfNamed(xs)
    ensures ScanExtensions(r, at) == Expected(xs)
    decreases xs
  {
    if xs != [] {
      var next := at + 4 + FromU16(r[at + 2], r[at + 3]);
      if xs[0].Other? {
        FindsServerName(r, next, xs[1..]);
      } else {
        NamesTakeRoom(r, at + 6, next, xs[0].names);
        FindsFirstHost(r, at + 6, next, xs[0].names, FromU16(r[at + 4], r[at + 5]));
      }
    }
  }

  /** For every well-formed ClientHello in one record, with any session id, cipher
      suites, compression methods, extensions and bytes behind it: the first host_name of
      the server_name extension is the answer if there is such an extension, and no name
      is if there is none. */
  lemma ServerNameIsFound(input: seq<byte>, h: ClientHello)
    requires StartsWithHello(input, h) && HasHostIfNamed(h.extensions)
    ensures Peek(input) == Expected(h.extensions)
  {
    var r := input[5..5 + FromU16(input[3], input[4])];
    HelloReachesExtensions(r, h);
    FindsServerName(r, ExtensionsAt(h), h.extensions);
  }

  /** The scan of a well-formed hello gets as far as the extensions. */
  lemma HelloReachesExtensions(r: seq<byte>, h: ClientHello)
    requires SpellsHead(r, h)
    ensures ExtensionsAt(h) <= |r| && ScanHello(r) == ScanExtensions(r, ExtensionsAt(h))
  {
    var a := 39 + |h.sessionId|;
    assert ScanHello(r) == ScanSuites(r, a);
    assert ScanSuites(r, a) == ScanCompression(r, a + 2 + |h.suites|);
  }
}
