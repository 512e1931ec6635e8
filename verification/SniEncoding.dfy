/** An encoder of ClientHellos, after section 7.4.1.2 of RFC 5246 and section 3 of RFC
    6066, and what the scan of Sni makes of its output: with a host_name always the right
    answer, without one exactly when it is misread. */
module SniEncoding {
  import opened Basics
  import opened Sni

  // ---------------------------------------------------------------- the encoder

  /** A 16-bit field; a number that does not fit is cut. */
  function Wide(n: nat): (r: seq<byte>)
    ensures |r| == 2
  {
    [Low(High(n)), Low(n)]
  }

  lemma LowOfSmall(n: nat)
    requires n < 0x100
    ensures Low(n) == n
  {
  }

  lemma WideReads(n: nat)
    requires n < 0x10000
    ensures FromU16(Wide(n)[0], Wide(n)[1]) == n
  {
    LowOfSmall(High(n));
  }

  function EncodeName(e: NameEntry): (r: seq<byte>)
    ensures |r| == 3 + |e.name|
  {
    [e.nameType] + (Wide(|e.name|) + e.name)
  }

  function EncodeNames(names: seq<NameEntry>): seq<byte> {
    if names == [] then [] else EncodeName(names[0]) + EncodeNames(names[1..])
  }

  function Kind(x: Extension): nat {
    if x.Other? then x.kind else 0
  }

  function Body(x: Extension): seq<byte> {
    match x
    case Other(_, body) => body
    case ServerNames(names) => Wide(|EncodeNames(names)|) + EncodeNames(names)
  }

  function EncodeExtension(x: Extension): (r: seq<byte>)
    ensures |r| == 4 + |Body(x)|
  {
    Wide(Kind(x)) + (Wide(|Body(x)|) + Body(x))
  }

  function EncodeExtensions(xs: seq<Extension>): seq<byte> {
    if xs == [] then [] else EncodeExtension(xs[0]) + EncodeExtensions(xs[1..])
  }

  function AfterSuites(h: ClientHello): seq<byte> {
    [Low(|h.compression|)] + (h.compression + (Wide(|EncodeExtensions(h.extensions)|) + EncodeExtensions(h.extensions)))
  }

  function AfterRandom(h: ClientHello): seq<byte> {
    [Low(|h.sessionId|)] + (h.sessionId + (Wide(|h.suites|) + (h.suites + AfterSuites(h))))
  }

  /** The handshake message: type, length, version, random and the rest. */
  function Message(h: ClientHello): seq<byte> {
    [1, 0] + Wide(2 + |h.random| + |AfterRandom(h)|) + [3, 3] + (h.random + AfterRandom(h))
  }

  /** One record of version 3.1. */
  function Encode(h: ClientHello): seq<byte> {
    [0x16, 3, 1] + Wide(|Message(h)|) + Message(h)
  }

  ghost predicate KindsFit(xs: seq<Extension>) {
    forall x <- xs :: x.Other? ==> 0 < x.kind < 0x10000
  }

  /** Every length fits its field, the random part has its 32 bytes, suites are pairs. */
  ghost predicate WithinLimits(h: ClientHello) {
    && |h.random| == 32 && |h.sessionId| < 0x100 && |h.compression| < 0x100
    && !Odd(|h.suites|) && KindsFit(h.extensions) && |Message(h)| < 0x10000
  }

  // ---------------------------------------------------------------- it spells what it encodes

  lemma Standing(r: seq<byte>, at: nat, part: seq<byte>)
    requires At(r, at, part)
    ensures at + |part| <= |r| && r[at..at + |part|] == part
  {
  }

  lemma NumberStands(r: seq<byte>, at: nat, n: nat)
    requires n < 0x10000 && At(r, at, Wide(n))
    ensures FromU16(r[at], r[at + 1]) == n
  {
    var here := r[at..at + 2];
    assert here[0] == r[at] && here[1] == r[at + 1];
    WideReads(n);
  }

  lemma ByteStands(r: seq<byte>, at: nat, b: byte)
    requires At(r, at, [b])
    ensures at < |r| && r[at] == b
  {
    assert r[at..at + 1][0] == r[at];
  }

  /** A field with its length in one byte, or two, and what follows it. */
  lemma ShortFieldStands(r: seq<byte>, at: nat, field: seq<byte>, more: seq<byte>)
    requires |field| < 0x100 && At(r, at, [Low(|field|)] + (field + more))
    ensures at < |r| && r[at] == |field| && At(r, at + 1, field) && At(r, at + 1 + |field|, more)
  {
    hide At, Low;
    AtSplit(r, at, [Low(|field|)], field + more);
    ByteStands(r, at, Low(|field|));
    LowOfSmall(|field|);
    AtSplit(r, at + 1, field, more);
  }

  lemma LongFieldStands(r: seq<byte>, at: nat, field: seq<byte>, more: seq<byte>)
    requires |field| < 0x10000 && At(r, at, Wide(|field|) + (field + more))
    ensures at + 2 <= |r| && FromU16(r[at], r[at + 1]) == |field|
    ensures At(r, at + 2, field) && At(r, at + 2 + |field|, more)
  {
    hide At, Wide, Low, High, FromU16;
    AtSplit(r, at, Wide(|field|), field + more);
    NumberStands(r, at, |field|);
    AtSplit(r, at + 2, field, more);
  }

  lemma LastFieldStands(r: seq<byte>, at: nat, field: seq<byte>)
    requires |field| < 0x10000 && At(r, at, Wide(|field|) + field)
    ensures at + 2 <= |r| && FromU16(r[at], r[at + 1]) == |field| && At(r, at + 2, field)
  {
    hide At, Wide, Low, High, FromU16;
    AtSplit(r, at, Wide(|field|), field);
    NumberStands(r, at, |field|);
  }

  lemma NameStands(r: seq<byte>, at: nat, e: NameEntry, more: seq<byte>)
    requires At(r, at, EncodeName(e) + more) && |e.name| < 0x10000
    ensures var next := at + 3 + |e.name|;
      && next <= |r| && r[at] == e.nameType && FromU16(r[at + 1], r[at + 2]) == |e.name|
      && r[at + 3..next] == e.name && At(r, next, more)
  {
    hide At, Wide, Low, High, FromU16;
    AtSplit(r, at, EncodeName(e), more);
    AtSplit(r, at, [e.nameType], Wide(|e.name|) + e.name);
    ByteStands(r, at, e.nameType);
    LastFieldStands(r, at + 1, e.name);
    Standing(r, at + 3, e.name);
  }

  lemma {:induction false} NamesStand(r: seq<byte>, at: nat, names: seq<NameEntry>)
    requires At(r, at, EncodeNames(names)) && |EncodeNames(names)| < 0x10000
    ensures SpellsNames(r, at, at + |EncodeNames(names)|, names)
    decreases names
  {
    hide At, Wide, Low, High, EncodeName;
    if names != [] {
      NameStands(r, at, names[0], EncodeNames(names[1..]));
      NamesStand(r, at + 3 + |names[0].name|, names[1..]);
    }
  }

  lemma BodyStands(r: seq<byte>, at: nat, x: Extension)
    requires At(r, at, Body(x)) && |Body(x)| < 0x10000
    ensures SpellsBody(r, at, at + |Body(x)|, x)
  {
    hide At, Wide, Low, High, EncodeName, EncodeNames;
    match x
    case Other(_, body) => Standing(r, at, body);
    case ServerNames(names) =>
      Standing(r, at, Body(x));
      LastFieldStands(r, at, EncodeNames(names));
      NamesStand(r, at + 2, names);
  }

  /** An extension stands at position at, and what follows it. */
  lemma ExtensionStands(r: seq<byte>, at: nat, x: Extension, more: seq<byte>)
    requires At(r, at, EncodeExtension(x) + more) && |Body(x)| < 0x10000 && Kind(x) < 0x10000
    ensures var next := at + 4 + |Body(x)|;
      && next <= |r| && At(r, at + 4, Body(x)) && At(r, next, more)
      && FromU16(r[at], r[at + 1]) == Kind(x) && FromU16(r[at + 2], r[at + 3]) == |Body(x)|
  {
    hide At, Wide, Low, High, FromU16, Body;
    AtSplit(r, at, EncodeExtension(x), more);
    AtSplit(r, at, Wide(Kind(x)), Wide(|Body(x)|) + Body(x));
    NumberStands(r, at, Kind(x));
    LastFieldStands(r, at + 2, Body(x));
  }

  lemma KindsFitRest(xs: seq<Extension>)
    requires KindsFit(xs) && xs != []
    ensures Kind(xs[0]) < 0x10000 && (xs[0].Other? ==> xs[0].kind != 0) && KindsFit(xs[1..])
  {
    assert xs == [xs[0]] + xs[1..];
  }

  lemma {:induction false} ExtensionsStand(r: seq<byte>, at: nat, xs: seq<Extension>)
    requires At(r, at, EncodeExtensions(xs)) && at + |EncodeExtensions(xs)| == |r|
    requires |EncodeExtensions(xs)| < 0x10000 && KindsFit(xs)
    ensures SpellsExtensions(r, at, xs)
    decreases xs
  {
    hide At, Wide, Low, High, Body, EncodeExtension, SpellsBody;
    if xs != [] {
      KindsFitRest(xs);
      var next := at + 4 + |Body(xs[0])|;
      ExtensionStands(r, at, xs[0], EncodeExtensions(xs[1..]));
      assert SpellsBody(r, at + 4, next, xs[0]) by { BodyStands(r, at + 4, xs[0]); }
      assert SpellsExtensions(r, next, xs[1..]) by { ExtensionsStand(r, next, xs[1..]); }
    }
  }

  lemma MessageParts(h: ClientHello)
    requires WithinLimits(h)
    ensures var r := Message(h);
      |r| >= 44 && r[0] == 1 && At(r, 6, h.random) && At(r, 38, AfterRandom(h)) && 38 + |AfterRandom(h)| == |r|
  {
    var r, front := Message(h), [1, 0] + Wide(2 + |h.random| + |AfterRandom(h)|) + [3, 3];
    assert r == front + (h.random + AfterRandom(h)) && |front| == 6;
    assert At(r, 6, h.random + AfterRandom(h)) by { assert r[6..|r|] == h.random + AfterRandom(h); }
    AtSplit(r, 6, h.random, AfterRandom(h));
  }

  /** The fields between the random part and the extensions, at their places. */
  ghost predicate FieldsStand(r: seq<byte>, h: ClientHello, a: nat, b: nat, c: nat) {
    && a == 39 + |h.sessionId| && b == a + 2 + |h.suites| && c == b + 1 + |h.compression| && c + 2 <= |r|
    && r[38] == |h.sessionId| && At(r, 39, h.sessionId)
    && FromU16(r[a], r[a + 1]) == |h.suites| && At(r, a + 2, h.suites)
    && r[b] == |h.compression| && At(r, b + 1, h.compression)
    && FromU16(r[c], r[c + 1]) == |EncodeExtensions(h.extensions)|
    && At(r, c + 2, EncodeExtensions(h.extensions))
  }

  lemma FieldsAreStanding(r: seq<byte>, h: ClientHello)
    requires WithinLimits(h) && At(r, 38, AfterRandom(h))
    ensures var a := 39 + |h.sessionId|;
      var b := a + 2 + |h.suites|;
      FieldsStand(r, h, a, b, b + 1 + |h.compression|)
  {
    hide At, Wide, Low, High, FromU16, EncodeExtensions;
    var xs := EncodeExtensions(h.extensions);
    var a := 39 + |h.sessionId|;
    var b := a + 2 + |h.suites|;
    ShortFieldStands(r, 38, h.sessionId, Wide(|h.suites|) + (h.suites + AfterSuites(h)));
    LongFieldStands(r, a, h.suites, AfterSuites(h));
    ShortFieldStands(r, b, h.compression, Wide(|xs|) + xs);
    LastFieldStands(r, b + 1 + |h.compression|, xs);
  }

  lemma MessageSpellsHead(h: ClientHello)
    requires WithinLimits(h)
    ensures SpellsHead(Message(h), h) && At(Message(h), ExtensionsAt(h), EncodeExtensions(h.extensions))
    ensures ExtensionsAt(h) + |EncodeExtensions(h.extensions)| == |Message(h)|
  {
    hide At, Wide, Low, High, FromU16, EncodeExtensions;
    var r := Message(h);
    MessageParts(h);
    FieldsAreStanding(r, h);
    HeadFromFields(r, h);
  }

  lemma HeadFromFields(r: seq<byte>, h: ClientHello)
    requires |r| >= 44 && r[0] == 1 && |h.random| == 32 && At(r, 6, h.random) && !Odd(|h.suites|)
    requires var a := 39 + |h.sessionId|;
      var b := a + 2 + |h.suites|;
      FieldsStand(r, h, a, b, b + 1 + |h.compression|)
    requires |r| == ExtensionsAt(h) + |EncodeExtensions(h.extensions)|
    ensures SpellsHead(r, h) && At(r, ExtensionsAt(h), EncodeExtensions(h.extensions))
  {
  }

  lemma MessageSpells(h: ClientHello)
    requires WithinLimits(h)
    ensures SpellsHello(Message(h), h)
  {
    MessageSpellsHead(h);
    ExtensionsStand(Message(h), ExtensionsAt(h), h.extensions);
  }

  lemma RecordStands(h: ClientHello, rest: seq<byte>)
    requires WithinLimits(h)
    ensures var input := Encode(h) + rest;
      && |input| >= 5 && input[0] == 0x16 && input[1] == 3 && FromU16(input[3], input[4]) == |Message(h)|
      && 5 + |Message(h)| <= |input| && input[5..5 + |Message(h)|] == Message(h)
  {
    WideReads(|Message(h)|);
    var front := [0x16, 3, 1] + Wide(|Message(h)|);
    assert Encode(h) + rest == front + Message(h) + rest && |front| == 5;
  }

  /** Every hello within the limits, whatever follows it, is one that the scan's theorem is
      about. */
  lemma EncodedHelloIsWellFormed(h: ClientHello, rest: seq<byte>)
    requires WithinLimits(h)
    ensures StartsWithHello(Encode(h) + rest, h)
  {
    RecordStands(h, rest);
    MessageSpells(h);
  }

  /** So the scan answers every such hello as it should. */
  lemma EncodedServerNameIsFound(h: ClientHello, rest: seq<byte>)
    requires WithinLimits(h) && HasHostIfNamed(h.extensions)
    ensures Peek(Encode(h) + rest) == Expected(h.extensions)
  {
    EncodedHelloIsWellFormed(h, rest);
    ServerNameIsFound(Encode(h) + rest, h);
  }

  // ---------------------------------------------------------------- without a host_name

  predicate AllOther(xs: seq<Extension>) {
    forall x <- xs :: x.Other?
  }

  /** The inner loop passes over names that are not host_names. */
  lemma {:induction false} NamesArePassed(r: seq<byte>, at: nat, names: seq<NameEntry>, n: nat)
    requires At(r, at, EncodeNames(names)) && |EncodeNames(names)| < 0x10000
    requires FirstHost(names).None? && |names| <= n
    ensures ScanNames(r, at, n) == ScanNames(r, at + |EncodeNames(names)|, n - |names|)
    decreases names
  {
    hide At, Wide, Low, High, EncodeName, ScanNames;
    if names != [] {
      var next := at + 3 + |names[0].name|;
      OneNameIsPassed(r, at, names[0], EncodeNames(names[1..]), n);
      NamesArePassed(r, next, names[1..], n - 1);
    }
  }

  lemma OneNameIsPassed(r: seq<byte>, at: nat, e: NameEntry, more: seq<byte>, n: nat)
    requires At(r, at, EncodeName(e) + more) && |e.name| < 0x10000 && e.nameType != 0 && n > 0
    ensures var next := at + 3 + |e.name|;
      next <= |r| && At(r, next, more) && ScanNames(r, at, n) == ScanNames(r, next, n - 1)
  {
    hide At, Wide, Low, High, EncodeName;
    NameStands(r, at, e, more);
  }

  /** A name is found exactly where a list of names with a host_name stands, at most n long. */
  ghost predicate HostStands(r: seq<byte>, at: nat, n: nat) {
    exists names :: |names| <= n && FirstHost(names).Some? && At(r, at, EncodeNames(names))
  }

  lemma EntryStands(r: seq<byte>, at: nat) returns (e: NameEntry)
    requires at + 3 <= |r| && at + 3 + FromU16(r[at + 1], r[at + 2]) <= |r|
    ensures |e.name| == FromU16(r[at + 1], r[at + 2]) && e.nameType == r[at] && At(r, at, EncodeName(e))
  {
    var len := FromU16(r[at + 1], r[at + 2]);
    e := NameEntry(r[at], r[at + 3..at + 3 + len]);
    assert Wide(len) == [r[at + 1], r[at + 2]] by { WideOfBytes(r[at + 1], r[at + 2]); }
    assert r[at..at + 3 + len] == EncodeName(e);
  }

  lemma WideOfBytes(hi: byte, lo: byte)
    ensures Wide(FromU16(hi, lo)) == [hi, lo]
  {
    WideReads(FromU16(hi, lo));
  }

  lemma OneMoreName(r: seq<byte>, at: nat, e: NameEntry, names: seq<NameEntry>)
    requires At(r, at, EncodeName(e)) && At(r, at + |EncodeName(e)|, EncodeNames(names))
    ensures At(r, at, EncodeNames([e] + names))
  {
    assert ([e] + names)[1..] == names;
    var a, b := EncodeName(e), EncodeNames(names);
    assert r[at..at + |a| + |b|] == r[at..at + |a|] + r[at + |a|..at + |a| + |b|];
  }

  lemma {:induction false} FoundNameStands(r: seq<byte>, at: nat, n: nat)
    requires at <= |r| && ScanNames(r, at, n).Some? && ScanNames(r, at, n).value.Name?
    ensures HostStands(r, at, n)
    decreases n
  {
    var e := EntryStands(r, at);
    var next := at + |EncodeName(e)|;
    if e.nameType == 0 {
      OneMoreName(r, at, e, []);
      assert FirstHost([e]).Some? && [e] + [] == [e];
    } else {
      FoundNameStands(r, next, n - 1);
      var names :| |names| <= n - 1 && FirstHost(names).Some? && At(r, next, EncodeNames(names));
      OneMoreName(r, at, e, names);
      assert ([e] + names)[1..] == names;
      assert FirstHost([e] + names) == FirstHost(names);
    }
  }

  lemma StandingNameIsFound(r: seq<byte>, at: nat, n: nat)
    requires |r| < 0x10000 && at <= |r| && HostStands(r, at, n)
    ensures ScanNames(r, at, n).Some? && ScanNames(r, at, n).value.Name?
  {
    hide At, Wide, Low, High, EncodeName, EncodeNames, ScanNames, SpellsNames;
    var names :| |names| <= n && FirstHost(names).Some? && At(r, at, EncodeNames(names));
    var end := at + |EncodeNames(names)|;
    Standing(r, at, EncodeNames(names));
    assert SpellsNames(r, at, end, names) by { NamesStand(r, at, names); }
    FindsFirstHost(r, at, end, names, n);
  }

  lemma NameFoundExactlyIf(r: seq<byte>, at: nat, n: nat)
    requires |r| < 0x10000 && at <= |r|
    ensures HostStands(r, at, n) <==> ScanNames(r, at, n).Some? && ScanNames(r, at, n).value.Name?
  {
    hide HostStands, ScanNames;
    if HostStands(r, at, n) {
      StandingNameIsFound(r, at, n);
    } else if ScanNames(r, at, n).Some? && ScanNames(r, at, n).value.Name? {
      FoundNameStands(r, at, n);
    }
  }

  lemma OneOtherIsPassed(r: seq<byte>, at: nat, x: Extension, more: seq<byte>)
    requires x.Other? && 0 < x.kind < 0x10000 && |Body(x)| < 0x10000
    requires At(r, at, EncodeExtension(x) + more)
    ensures var next := at + 4 + |Body(x)|;
      next <= |r| && At(r, next, more) && ScanExtensions(r, at) == ScanExtensions(r, next)
  {
    hide At, Wide, Low, High, EncodeExtension;
    ExtensionStands(r, at, x, more);
  }

  lemma {:induction false} OthersArePassed(r: seq<byte>, at: nat, xs: seq<Extension>, more: seq<byte>)
    requires AllOther(xs) && KindsFit(xs) && |EncodeExtensions(xs)| < 0x10000
    requires At(r, at, EncodeExtensions(xs) + more)
    ensures var next := at + |EncodeExtensions(xs)|;
      At(r, next, more) && ScanExtensions(r, at) == ScanExtensions(r, next)
    decreases xs
  {
    hide At, Wide, Low, High, EncodeExtension, ScanExtensions;
    var e := EncodeExtensions(xs);
    AtSplit(r, at, e, more);
    if xs != [] {
      KindsFitRest(xs);
      var x, rest := xs[0], EncodeExtensions(xs[1..]);
      assert x in xs && AllOther(xs[1..]);
      assert e + more == EncodeExtension(x) + (rest + more);
      OneOtherIsPassed(r, at, x, rest + more);
      OthersArePassed(r, at + 4 + |Body(x)|, xs[1..], more);
    }
  }

  lemma OthersGiveNoName(r: seq<byte>, at: nat, xs: seq<Extension>)
    requires AllOther(xs) && KindsFit(xs) && |EncodeExtensions(xs)| < 0x10000
    requires At(r, at, EncodeExtensions(xs)) && at + |EncodeExtensions(xs)| == |r|
    ensures ScanExtensions(r, at) == BadHello
  {
    hide At, Wide, Low, High, EncodeExtension, EncodeExtensions;
    assert EncodeExtensions(xs) + [] == EncodeExtensions(xs);
    OthersArePassed(r, at, xs, []);
  }

  /** What the scan makes of a server_name extension without a host_name: it reads on in
      the bytes behind, as if more names were there. */
  lemma NamelessIsScanned(r: seq<byte>, at: nat, names: seq<NameEntry>, more: seq<byte>)
    requires FirstHost(names).None? && |Body(ServerNames(names))| < 0x10000
    requires At(r, at, EncodeExtension(ServerNames(names)) + more)
    ensures var next, n := at + 4 + |Body(ServerNames(names))|, |EncodeNames(names)| - |names|;
      && n >= 0 && next <= |r| && At(r, next, more)
      && ScanExtensions(r, at) == match ScanNames(r, next, n) case Some(v) => v case None => ScanExtensions(r, next)
  {
    hide At, Wide, Low, High, EncodeExtension, EncodeName, EncodeNames, ScanNames;
    var bytes := EncodeNames(names);
    ExtensionStands(r, at, ServerNames(names), more);
    LastFieldStands(r, at + 4, bytes);
    EncodedNamesSize(names);
    assert ScanNames(r, at + 6, |bytes|) == ScanNames(r, at + 6 + |bytes|, |bytes| - |names|) by {
      NamesArePassed(r, at + 6, names, |bytes|);
    }
  }

  lemma EncodedNamesSize(names: seq<NameEntry>)
    ensures |EncodeNames(names)| >= 3 * |names|
  {
  }

  lemma {:induction false} EncodedParts(a: seq<Extension>, b: seq<Extension>)
    ensures EncodeExtensions(a + b) == EncodeExtensions(a) + EncodeExtensions(b)
  {
    if a == [] {
      assert a + b == b;
    } else {
      assert (a + b)[1..] == a[1..] + b;
      EncodedParts(a[1..], b);
    }
  }

  lemma ExtensionParts(pre: seq<Extension>, x: Extension, post: seq<Extension>)
    ensures EncodeExtensions(pre + ([x] + post))
            == EncodeExtensions(pre) + (EncodeExtension(x) + EncodeExtensions(post))
  {
    EncodedParts(pre, [x] + post);
    assert ([x] + post)[1..] == post;
  }

  /** The bytes of the extensions behind begin like a list of at most n names, one of them
      a host_name. */
  ghost predicate ReadsLikeAName(post: seq<Extension>, n: nat) {
    exists names :: |names| <= n && FirstHost(names).Some? && EncodeNames(names) <= EncodeExtensions(post)
  }

  lemma StandsAtEnd(r: seq<byte>, at: nat, post: seq<Extension>, n: nat)
    requires At(r, at, EncodeExtensions(post)) && at + |EncodeExtensions(post)| == |r|
    ensures HostStands(r, at, n) <==> ReadsLikeAName(post, n)
  {
    assert r[at..] == EncodeExtensions(post);
    forall part: seq<byte> ensures At(r, at, part) <==> part <= r[at..] {
      if at + |part| <= |r| { assert r[at..at + |part|] == r[at..][..|part|]; }
    }
  }

  lemma NamelessAtIsMisread(r: seq<byte>, at: nat, names: seq<NameEntry>, post: seq<Extension>)
    requires |r| < 0x10000 && FirstHost(names).None? && AllOther(post) && KindsFit(post)
    requires At(r, at, EncodeExtension(ServerNames(names)) + EncodeExtensions(post))
    requires at + |EncodeExtension(ServerNames(names)) + EncodeExtensions(post)| == |r|
    ensures |EncodeNames(names)| >= |names|
    ensures ScanExtensions(r, at).Name? <==> ReadsLikeAName(post, |EncodeNames(names)| - |names|)
  {
    hide At, Wide, Low, High, EncodeExtension, EncodeExtensions, EncodeName, EncodeNames, ScanNames, ScanExtensions,
        HostStands, ReadsLikeAName;
    var next := at + 4 + |Body(ServerNames(names))|;
    EncodedNamesSize(names);
    var n: nat := |EncodeNames(names)| - |names|;
    NamelessIsScanned(r, at, names, EncodeExtensions(post));
    assert ScanExtensions(r, next) == BadHello by { OthersGiveNoName(r, next, post); }
    StandsAtEnd(r, next, post, n);
    NameFoundExactlyIf(r, next, n);
  }

  lemma PeekReachesExtensions(h: ClientHello, rest: seq<byte>)
    requires WithinLimits(h)
    ensures ExtensionsAt(h) <= |Message(h)|
    ensures Peek(Encode(h) + rest) == ScanExtensions(Message(h), ExtensionsAt(h))
  {
    hide At, Wide, Low, High, EncodeExtensions, ScanExtensions, Message, SpellsHead, ScanHello;
    RecordStands(h, rest);
    MessageSpellsHead(h);
    HelloReachesExtensions(Message(h), h);
  }

  lemma NamelessListIsMisread(r: seq<byte>, at: nat, pre: seq<Extension>, names: seq<NameEntry>, post: seq<Extension>)
    requires |r| < 0x10000 && AllOther(pre) && AllOther(post) && FirstHost(names).None?
    requires KindsFit(pre) && KindsFit(post)
    requires var all := EncodeExtensions(pre + ([ServerNames(names)] + post)); At(r, at, all) && at + |all| == |r|
    ensures |EncodeNames(names)| >= |names|
    ensures ScanExtensions(r, at).Name? <==> ReadsLikeAName(post, |EncodeNames(names)| - |names|)
  {
    hide At, Wide, Low, High, EncodeExtension, EncodeExtensions, EncodeName, EncodeNames, ScanExtensions,
        ReadsLikeAName;
    var tail := EncodeExtension(ServerNames(names)) + EncodeExtensions(post);
    ExtensionParts(pre, ServerNames(names), post);
    OthersArePassed(r, at, pre, tail);
    NamelessAtIsMisread(r, at + |EncodeExtensions(pre)|, names, post);
  }

  /** A hello whose server_name extension holds no host_name gets a name for an answer
      exactly if the bytes of the extensions behind it begin like further names, one of
      them a host_name, of which the inner loop reads as many as the list has bytes less
      those that are names. */
  lemma MisreadExactlyIf(h: ClientHello, rest: seq<byte>, pre: seq<Extension>, names: seq<NameEntry>,
                         post: seq<Extension>)
    requires WithinLimits(h) && h.extensions == pre + ([ServerNames(names)] + post)
    requires AllOther(pre) && AllOther(post) && FirstHost(names).None?
    ensures |EncodeNames(names)| >= |names|
    ensures Peek(Encode(h) + rest).Name? <==> ReadsLikeAName(post, |EncodeNames(names)| - |names|)
  {
    hide At, Wide, Low, High, EncodeExtension, EncodeExtensions, EncodeName, EncodeNames, ScanExtensions,
        ReadsLikeAName, Message, Peek;
    PeekReachesExtensions(h, rest);
    KindsFitParts(pre, ServerNames(names), post);
    assert |Message(h)| < 0x10000;
    MessageSpellsHead(h);
    NamelessListIsMisread(Message(h), ExtensionsAt(h), pre, names, post);
  }

  lemma KindsFitParts(pre: seq<Extension>, x: Extension, post: seq<Extension>)
    requires KindsFit(pre + ([x] + post))
    ensures KindsFit(pre) && KindsFit(post)
  {
    var all := pre + ([x] + post);
    assert forall y <- pre :: y in all;
    assert forall y <- post :: y in all;
  }

  /** In particular never if the extension is the last one or its list is empty. */
  lemma NotMisread(names: seq<NameEntry>, post: seq<Extension>)
    requires names == [] || post == []
    ensures |EncodeNames(names)| >= |names| && !ReadsLikeAName(post, |EncodeNames(names)| - |names|)
  {
    EncodedNamesSize(names);
    forall ns: seq<NameEntry> | FirstHost(ns).Some? ensures |EncodeNames(ns)| >= 3 && |ns| >= 1 {
      EncodedNamesSize(ns);
    }
  }

  /** And before an extension whose kind is below 0x100 exactly if the low byte of the
      kind and the high byte of the length make a number of bytes that are there. */
  lemma MisreadByTheNext(names: seq<NameEntry>, x: Extension, post: seq<Extension>)
    requires names != [] && x.Other? && 0 < x.kind < 0x100
    requires |EncodeExtensions([x] + post)| < 0x10000
    ensures |EncodeNames(names)| >= |names|
    ensures ReadsLikeAName([x] + post, |EncodeNames(names)| - |names|)
            <==> 3 + FromU16(x.kind, High(|x.body|)) <= |EncodeExtensions([x] + post)|
  {
    hide At, Wide, Low, High, EncodeExtension, EncodeExtensions, EncodeName, EncodeNames, ReadsLikeAName, HostStands;
    EncodedNamesSize(names);
    var t, n: nat := EncodeExtensions([x] + post), |EncodeNames(names)| - |names|;
    assert n >= 1;
    FirstBytesOf(x, post);
    StandsWhole([x] + post, n);
    NameFoundExactlyIf(t, 0, n);
  }

  lemma StandsWhole(post: seq<Extension>, n: nat)
    ensures HostStands(EncodeExtensions(post), 0, n) <==> ReadsLikeAName(post, n)
  {
    var t := EncodeExtensions(post);
    assert t[0..|t|] == t;
    StandsAtEnd(t, 0, post, n);
  }

  lemma FirstBytesOf(x: Extension, post: seq<Extension>)
    requires x.Other? && x.kind < 0x100 && |EncodeExtensions([x] + post)| < 0x10000
    ensures var t := EncodeExtensions([x] + post);
      |t| >= 4 && High(|x.body|) < 0x100 && t[0] == 0 && t[1] == x.kind && t[2] == High(|x.body|)
  {
    assert ([x] + post)[1..] == post;
    FirstBytes(x, EncodeExtensions(post));
  }

  lemma FirstBytes(x: Extension, more: seq<byte>)
    requires x.Other? && x.kind < 0x100 && |x.body| < 0x10000
    ensures var t := EncodeExtension(x) + more;
      |t| >= 4 && High(|x.body|) < 0x100 && t[0] == 0 && t[1] == x.kind && t[2] == High(|x.body|)
  {
    LowOfSmall(x.kind);
    LowOfSmall(High(|x.body|));
    assert High(x.kind) == 0;
  }

  /** Such a hello: a name of an unknown type, and an extension of kind 1 with 0x200 bytes. */
  function Misleading(): ClientHello {
    ClientHello(seq(32, _ => 0), [], [], [],
                [ServerNames([NameEntry(1, [])]), Other(1, seq(0x200, _ => 0))])
  }

  lemma AHelloIsMisread(rest: seq<byte>)
    ensures WithinLimits(Misleading()) && Peek(Encode(Misleading()) + rest).Name?
  {
    var h := Misleading();
    var names, x := [NameEntry(1, [])], Other(1, seq(0x200, _ => 0));
    MisleadingFits();
    assert h.extensions == [] + ([ServerNames(names)] + [x]);
    assert names[1..] == [];
    MisreadExactlyIf(h, rest, [], names, [x]);
    assert [x] + [] == [x] && [x][1..] == [];
    MisreadByTheNext(names, x, []);
    assert High(0x200) == 2 by { HighOf(0x200); }
  }

  lemma HighOf(n: nat)
    requires n < 0x10000
    ensures High(n) * 0x100 <= n < High(n) * 0x100 + 0x100
  {
  }

  lemma MisleadingFits()
    ensures WithinLimits(Misleading())
  {
    var h := Misleading();
    var names, x := [NameEntry(1, [])], Other(1, seq(0x200, _ => 0));
    assert names[1..] == [] && |EncodeNames(names)| == 3;
    assert h.extensions[1..] == [x] && h.extensions[1..][1..] == [];
    assert |EncodeExtensions([x])| == 0x204;
    assert |EncodeExtensions(h.extensions)| == 0x204 + 9;
  }
}
