/** parseServerTransportOptions: the same mapping once more, keyed by method name. */
module SocksArgsOptions {
  import opened Basics
  import opened SocksArgs
  import opened SocksArgsCodec

  datatype Entry = Entry(name: Bytes, pair: Pair)

  type Options = map<Bytes, Args>

  function AddOption(opts: Options, e: Entry): Options {
    opts[e.name := Add(if e.name in opts then opts[e.name] else map[], e.pair)]
  }

  function AddOptions(opts: Options, es: seq<Entry>): Options
    decreases es
  {
    if es == [] then opts else AddOptions(AddOption(opts, es[0]), es[1..])
  }

  /** The pairs that es gives to one method, in order. */
  function PairsOf(es: seq<Entry>, name: Bytes): seq<Pair> {
    if es == [] then []
    else (if es[0].name == name then [es[0].pair] else []) + PairsOf(es[1..], name)
  }

  /** es spells out opts, methods and keys in any mixture, each key's values in order. */
  ghost predicate ListsOptions(es: seq<Entry>, opts: Options) {
    && (forall e <- es :: e.name in opts)
    && (forall name <- opts :: Lists(PairsOf(es, name), opts[name]))
  }

  lemma {:induction false} AddOptionsByMethod(opts: Options, es: seq<Entry>)
    ensures var all := AddOptions(opts, es);
      && (forall name :: name in all <==> name in opts || PairsOf(es, name) != [])
      && (forall name <- all ::
            all[name] == AddAll(if name in opts then opts[name] else map[], PairsOf(es, name)))
    decreases es
  {
    if es != [] {
      var next := AddOption(opts, es[0]);
      AddOptionsByMethod(next, es[1..]);
      forall name
        ensures PairsOf(es, name) == if es[0].name == name then [es[0].pair] + PairsOf(es[1..], name)
                                     else PairsOf(es[1..], name)
      {
      }
    }
  }

  lemma PairsOfAbsent(es: seq<Entry>, name: Bytes)
    ensures PairsOf(es, name) != [] <==> exists e :: e in es && e.name == name
  {
    if es != [] {
      PairsOfAbsent(es[1..], name);
      assert es == [es[0]] + es[1..];
    }
  }

  lemma PairsOfMember(es: seq<Entry>, name: Bytes, p: Pair)
    ensures p in PairsOf(es, name) <==> Entry(name, p) in es
  {
    if es != [] {
      PairsOfMember(es[1..], name, p);
      assert es == [es[0]] + es[1..];
    }
  }

  ghost predicate Full(args: Args) {
    args != map[] && forall key <- args :: args[key] != []
  }

  lemma ListingNonempty(ps: seq<Pair>, args: Args)
    requires Lists(ps, args) && forall key <- args :: args[key] != []
    ensures ps == [] <==> args == map[]
  {
    if args != map[] {
      var key :| key in args;
      assert Values(ps, key) != [];
    }
    if ps != [] { assert ps[0] in ps; }
  }

  lemma OneMethodOfListing(ps: seq<Pair>, args: Args)
    requires Lists(ps, args)
    ensures AddAll(map[], ps) == args && ps != [] <==> Full(args)
  {
    AddAllOfListing(ps, args);
    if forall key <- args :: args[key] != [] { ListingNonempty(ps, args); }
  }

  lemma AddOptionsOfListing(es: seq<Entry>, opts: Options)
    requires ListsOptions(es, opts)
    ensures AddOptions(map[], es) == opts <==> forall name <- opts :: Full(opts[name])
  {
    var all := AddOptions(map[], es);
    AddOptionsByMethod(map[], es);
    forall name ensures name in all ==> name in opts { PairsOfAbsent(es, name); }
    if all == opts {
      forall name <- opts ensures Full(opts[name]) {
        OneMethodOfListing(PairsOf(es, name), opts[name]);
        assert all[name] == opts[name];
      }
    }
    if forall name <- opts :: Full(opts[name]) {
      forall name <- opts ensures name in all && all[name] == opts[name] {
        OneMethodOfListing(PairsOf(es, name), opts[name]);
      }
      assert all.Keys == opts.Keys;
    }
  }

  // ---------------------------------------------------------------- the parser

  datatype EntryAt = EntryAt(entry: Entry, end: nat)

  function ReadEntry(s: Bytes, i: nat): (r: Outcome<EntryAt, ParseError>)
    requires i <= |s|
    ensures r.Ok? ==> i < r.value.end <= |s|
  {
    match Scan(s, i, [COLON, EQUALS, SEMICOLON])
    case None => Err(DanglingEscape)
    case Some(m) =>
      if m.end >= |s| || s[m.end] != COLON then Err(NoColon)
      else match ReadPair(s, m.end + 1, SEMICOLON)
        case Err(e) => Err(e)
        case Ok(item) =>
          if m.text == [] then Err(EmptyMethod)
          else if item.pair.key == [] then Err(EmptyKey)
          else Ok(EntryAt(Entry(m.text, item.pair), item.end))
  }

  function ParseOptionsFrom(s: Bytes, i: nat, opts: Options): Outcome<Options, ParseError>
    requires i <= |s|
    decreases |s| - i
  {
    match ReadEntry(s, i)
    case Err(e) => Err(e)
    case Ok(r) =>
      if r.end >= |s| then Ok(AddOption(opts, r.entry))
      else ParseOptionsFrom(s, r.end + 1, AddOption(opts, r.entry))
  }

  function ParseOptions(s: Bytes): Outcome<Options, ParseError> {
    if s == [] then Ok(map[]) else ParseOptionsFrom(s, 0, map[])
  }

  method Put(opts: Options, name: Bytes, p: Pair) returns (r: Options)
    ensures r == AddOption(opts, Entry(name, p))
  {
    r := opts;
    if name !in r {
      r := r[name := map[]];
    }
    r := r[name := Add(r[name], p)];
  }

  method ParseServerTransportOptions(s: Bytes) returns (r: Outcome<Options, ParseError>)
    ensures r == ParseOptions(s)
  {
    var opts: Options := map[];
    if |s| == 0 {
      return Ok(opts);
    }
    var i := 0;
    while true
      invariant 0 <= i <= |s|
      invariant ParseOptions(s) == ParseOptionsFrom(s, i, opts)
      decreases |s| - i
    {
      var m := IndexUnescaped(s, i, [COLON, EQUALS, SEMICOLON]);
      if m.None? {
        return Err(DanglingEscape);
      }
      i := m.value.end;
      if i >= |s| || s[i] != COLON {
        return Err(NoColon);
      }
      i := i + 1;
      var k := IndexUnescaped(s, i, [EQUALS, SEMICOLON]);
      if k.None? {
        return Err(DanglingEscape);
      }
      i := k.value.end;
      if i >= |s| || s[i] != EQUALS {
        return Err(NoEquals);
      }
      i := i + 1;
      var v := IndexUnescaped(s, i, [SEMICOLON]);
      if v.None? {
        return Err(DanglingEscape);
      }
      i := v.value.end;
      if |m.value.text| == 0 {
        return Err(EmptyMethod);
      }
      if |k.value.text| == 0 {
        return Err(EmptyKey);
      }
      opts := Put(opts, m.value.text, Pair(k.value.text, v.value.text));
      if i >= |s| {
        return Ok(opts);
      }
      i := i + 1;
    }
  }

  // ---------------------------------------------------------------- the round trip

  function EncodeEntry(e: Entry, escaped: seq<byte>): Bytes {
    Escape(e.name, escaped) + [COLON] + EncodePair(e.pair, escaped)
  }

  function EncodeEntries(es: seq<Entry>, escaped: seq<byte>): Bytes {
    if es == [] then []
    else EncodeEntry(es[0], escaped) + if |es| == 1 then [] else [SEMICOLON] + EncodeEntries(es[1..], escaped)
  }

  predicate EscapesAll(escaped: seq<byte>) {
    COLON in escaped && EQUALS in escaped && SEMICOLON in escaped
  }

  predicate Named(e: Entry) {
    e.name != [] && e.pair.key != []
  }

  lemma ReadsEntry(s: Bytes, i: nat, m: Found, item: Item)
    requires i <= |s| && Scan(s, i, [COLON, EQUALS, SEMICOLON]) == Some(m)
    requires m.end < |s| && s[m.end] == COLON && ReadPair(s, m.end + 1, SEMICOLON) == Ok(item)
    ensures Named(Entry(m.text, item.pair)) ==> ReadEntry(s, i) == Ok(EntryAt(Entry(m.text, item.pair), item.end))
    ensures !Named(Entry(m.text, item.pair)) ==> ReadEntry(s, i).Err?
  {
  }

  lemma ReadsEncodedEntry(s: Bytes, i: nat, e: Entry, escaped: seq<byte>)
    requires EscapesAll(escaped)
    requires At(s, i, EncodeEntry(e, escaped))
    requires var end := i + |EncodeEntry(e, escaped)|; end == |s| || s[end] == SEMICOLON
    ensures Named(e) ==> ReadEntry(s, i) == Ok(EntryAt(e, i + |EncodeEntry(e, escaped)|))
    ensures !Named(e) ==> ReadEntry(s, i).Err?
  {
    hide Scan, Escape, EncodePair, ReadPair, ReadEntry;
    var m := i + |Escape(e.name, escaped)|;
    assert At(s, i, Escape(e.name, escaped)) && s[m] == COLON && At(s, m + 1, EncodePair(e.pair, escaped)) by {
      EntryStands(s, i, Escape(e.name, escaped), EncodePair(e.pair, escaped));
    }
    ScanInvertsEscape(s, i, e.name, escaped, [COLON, EQUALS, SEMICOLON]);
    ReadsEncodedPair(s, m + 1, e.pair, SEMICOLON, escaped);
    ReadsEntry(s, i, Found(m, e.name), Item(e.pair, m + 1 + |EncodePair(e.pair, escaped)|));
  }

  lemma EntryStands(s: Bytes, i: nat, name: Bytes, pair: Bytes)
    requires At(s, i, name + [COLON] + pair)
    ensures At(s, i, name) && s[i + |name|] == COLON && At(s, i + |name| + 1, pair)
  {
    AtSplit(s, i, name + [COLON], pair);
    AtSplit(s, i, name, [COLON]);
    assert s[i + |name|] == s[i + |name|..i + |name| + 1][0];
  }

  lemma EncodedEntriesHead(s: Bytes, i: nat, es: seq<Entry>, escaped: seq<byte>)
    requires EscapesAll(escaped) && es != []
    requires i <= |s| && s[i..] == EncodeEntries(es, escaped)
    ensures var n := i + |EncodeEntry(es[0], escaped)|;
      && n <= |s|
      && (Named(es[0]) ==> ReadEntry(s, i) == Ok(EntryAt(es[0], n)))
      && (!Named(es[0]) ==> ReadEntry(s, i).Err?)
      && (|es| == 1 <==> n == |s|)
      && (|es| > 1 ==> s[n + 1..] == EncodeEntries(es[1..], escaped))
  {
    var e := EncodeEntry(es[0], escaped);
    var rest := if |es| == 1 then [] else [SEMICOLON] + EncodeEntries(es[1..], escaped);
    assert && At(s, i, e) && s[i + |e|..] == rest
           && (rest != [] ==> s[i + |e|] == SEMICOLON && s[i + |e| + 1..] == rest[1..]) by {
      assert s[i..] == e + rest;
      Standing(s, i, e, rest);
    }
    ReadsEncodedEntry(s, i, es[0], escaped);
  }

  ghost predicate AllNamed(es: seq<Entry>) {
    forall e <- es :: Named(e)
  }

  lemma AllNamedSplit(es: seq<Entry>)
    requires es != []
    ensures AllNamed(es) <==> Named(es[0]) && AllNamed(es[1..])
  {
    assert es == [es[0]] + es[1..];
  }

  lemma ParsesOptionsOn(s: Bytes, i: nat, opts: Options, e: Entry, end: nat)
    requires i <= |s|
    ensures ReadEntry(s, i) == Ok(EntryAt(e, end)) ==>
              ParseOptionsFrom(s, i, opts) == if end >= |s| then Ok(AddOption(opts, e))
                                              else ParseOptionsFrom(s, end + 1, AddOption(opts, e))
    ensures ReadEntry(s, i).Err? ==> ParseOptionsFrom(s, i, opts).Err?
  {
  }

  lemma {:induction false} ParsesEncodedEntries(s: Bytes, i: nat, es: seq<Entry>, opts: Options, escaped: seq<byte>)
    requires EscapesAll(escaped)
    requires es != [] && i <= |s| && s[i..] == EncodeEntries(es, escaped)
    ensures AllNamed(es) ==> ParseOptionsFrom(s, i, opts) == Ok(AddOptions(opts, es))
    ensures !AllNamed(es) ==> ParseOptionsFrom(s, i, opts).Err?
    decreases es
  {
    var n := i + |EncodeEntry(es[0], escaped)|;
    EncodedEntriesHead(s, i, es, escaped);
    AllNamedSplit(es);
    ParsesOptionsOn(s, i, opts, es[0], n);
    assert AddOptions(opts, es) == AddOptions(AddOption(opts, es[0]), es[1..]);
    if |es| == 1 {
      assert es[1..] == [] && AllNamed(es[1..]);
    } else {
      ParsesEncodedEntries(s, n + 1, es[1..], AddOption(opts, es[0]), escaped);
    }
  }

  /** Every listing of a method-keyed mapping, encoded, parses back to it exactly when
      no method name and no key is empty and every method and key has something. */
  lemma OptionsRoundTrip(es: seq<Entry>, opts: Options, escaped: seq<byte>)
    requires EscapesAll(escaped) && ListsOptions(es, opts)
    ensures ParseOptions(EncodeEntries(es, escaped)) == Ok(opts)
            <==> forall name <- opts :: name != [] && Full(opts[name]) && [] !in opts[name]
  {
    AddOptionsOfListing(es, opts);
    if forall name <- opts :: Full(opts[name]) { NamesListed(es, opts); }
    if es != [] {
      var s := EncodeEntries(es, escaped);
      assert s[0..] == s;
      ParsesEncodedEntries(s, 0, es, map[], escaped);
    } else {
      assert AllNamed(es);
    }
  }

  lemma NamesListed(es: seq<Entry>, opts: Options)
    requires ListsOptions(es, opts) && forall name <- opts :: Full(opts[name])
    ensures AllNamed(es) <==> forall name <- opts :: name != [] && [] !in opts[name]
  {
    forall name <- opts
      ensures exists e :: e in es && e.name == name
      ensures [] in opts[name] <==> exists p :: Entry(name, p) in es && p.key == []
    {
      var ps := PairsOf(es, name);
      ListingNonempty(ps, opts[name]);
      PairsOfAbsent(es, name);
      ValuesOfAbsent(ps, []);
      forall p ensures p in ps <==> Entry(name, p) in es { PairsOfMember(es, name, p); }
    }
    if AllNamed(es) {
      forall name <- opts ensures name != [] && [] !in opts[name] {
        var e :| e in es && e.name == name;
      }
    } else {
      var e :| e in es && !Named(e);
      assert Entry(e.name, e.pair) in es;
    }
  }
}
