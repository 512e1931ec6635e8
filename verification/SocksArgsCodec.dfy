/** The two parsers and the encoder of SocksArgs, and what they undo of each other. */
module SocksArgsCodec {
  import opened Basics
  import opened SocksArgs

  // ---------------------------------------------------------------- one key=value

  /** A pair, and where the string stands after it. */
  datatype Item = Item(pair: Pair, end: nat)

  function ReadPair(s: Bytes, i: nat, sep: byte): (r: Outcome<Item, ParseError>)
    requires i <= |s|
    ensures r.Ok? ==> i < r.value.end <= |s|
  {
    match Scan(s, i, [EQUALS, sep])
    case None => Err(DanglingEscape)
    case Some(k) =>
      if k.end >= |s| || s[k.end] != EQUALS then Err(NoEquals)
      else match Scan(s, k.end + 1, [sep])
        case None => Err(DanglingEscape)
        case Some(v) => Ok(Item(Pair(k.text, v.text), v.end))
  }

  function EncodePair(p: Pair, escaped: seq<byte>): Bytes {
    Escape(p.key, escaped) + [EQUALS] + Escape(p.value, escaped)
  }

  lemma ReadsEncodedPair(s: Bytes, i: nat, p: Pair, sep: byte, escaped: seq<byte>)
    requires EQUALS in escaped && sep in escaped && sep != BACKSLASH
    requires At(s, i, EncodePair(p, escaped))
    requires var end := i + |EncodePair(p, escaped)|; end == |s| || s[end] == sep
    ensures ReadPair(s, i, sep) == Ok(Item(p, i + |EncodePair(p, escaped)|))
  {
    hide Scan, Escape;
    var k, v := Escape(p.key, escaped), Escape(p.value, escaped);
    var m := i + |k|;
    assert At(s, i, k) && s[m] == EQUALS && At(s, m + 1, v) by { PairStands(s, i, k, v); }
    assert Scan(s, i, [EQUALS, sep]) == Some(Found(m, p.key)) by {
      ScanInvertsEscape(s, i, p.key, escaped, [EQUALS, sep]);
    }
    assert Scan(s, m + 1, [sep]) == Some(Found(m + 1 + |v|, p.value)) by {
      ScanInvertsEscape(s, m + 1, p.value, escaped, [sep]);
    }
  }

  lemma PairStands(s: Bytes, i: nat, k: Bytes, v: Bytes)
    requires At(s, i, k + [EQUALS] + v)
    ensures At(s, i, k) && s[i + |k|] == EQUALS && At(s, i + |k| + 1, v)
  {
    AtSplit(s, i, k + [EQUALS], v);
    AtSplit(s, i, k, [EQUALS]);
    assert s[i + |k|] == s[i + |k|..i + |k| + 1][0];
  }

  /** strings.Join over the encoded pairs. */
  function EncodePairs(ps: seq<Pair>, sep: byte, escaped: seq<byte>): Bytes {
    if ps == [] then []
    else EncodePair(ps[0], escaped) + (if |ps| == 1 then [] else [sep] + EncodePairs(ps[1..], sep, escaped))
  }

  // ---------------------------------------------------------------- parseClientParameters

  function ParseFrom(s: Bytes, i: nat, args: Args): Outcome<Args, ParseError>
    requires i <= |s|
    decreases |s| - i
  {
    match ReadPair(s, i, SEMICOLON)
    case Err(e) => Err(e)
    case Ok(item) =>
      if item.pair.key == [] then Err(EmptyKey)
      else if item.end >= |s| then Ok(Add(args, item.pair))
      else ParseFrom(s, item.end + 1, Add(args, item.pair))
  }

  function ParseClient(s: Bytes): Outcome<Args, ParseError> {
    if s == [] then Ok(map[]) else ParseFrom(s, 0, map[])
  }

  method ParseClientParameters(s: Bytes) returns (r: Outcome<Args, ParseError>)
    ensures r == ParseClient(s)
  {
    var args: Args := map[];
    if |s| == 0 {
      return Ok(args);
    }
    var i := 0;
    while true
      invariant 0 <= i <= |s|
      invariant ParseClient(s) == ParseFrom(s, i, args)
      decreases |s| - i
    {
      var k := IndexUnescaped(s, i, [EQUALS, SEMICOLON]);
      if k.None? {
        return Err(DanglingEscape);
      }
      i := k.value.end;
      if i >= |s| || s[i] != EQUALS {
        return Err(NoEquals);
      }
      i := i + 1;
      var v := IndexUnescaped(s, i, [SEMICOLON]);
      if v.None? {
        return Err(DanglingEscape);
      }
      i := v.value.end;
      if |k.value.text| == 0 {
        return Err(EmptyKey);
      }
      args := Add(args, Pair(k.value.text, v.value.text));
      if i >= |s| {
        return Ok(args);
      }
      i := i + 1;
    }
  }

  ghost predicate NoEmptyKey(ps: seq<Pair>) {
    forall p <- ps :: p.key != []
  }

  /** The first pair of an encoded list at the end of s, and where the others start. */
  lemma HeadStands(s: Bytes, i: nat, ps: seq<Pair>, sep: byte, escaped: seq<byte>)
    requires ps != [] && i <= |s| && s[i..] == EncodePairs(ps, sep, escaped)
    ensures var n := i + |EncodePair(ps[0], escaped)|;
      && At(s, i, EncodePair(ps[0], escaped))
      && if |ps| == 1 then n == |s|
         else n < |s| && s[n] == sep && s[n + 1..] == EncodePairs(ps[1..], sep, escaped)
  {
    var rest := RestOf(ps, sep, escaped);
    assert |ps| > 1 ==> rest[1..] == EncodePairs(ps[1..], sep, escaped);
    Standing(s, i, EncodePair(ps[0], escaped), rest);
  }

  /** And it is read back. */
  lemma EncodedHead(s: Bytes, i: nat, ps: seq<Pair>, sep: byte, escaped: seq<byte>)
    requires EQUALS in escaped && sep in escaped && sep != BACKSLASH && ps != []
    requires i <= |s| && s[i..] == EncodePairs(ps, sep, escaped)
    ensures ReadPair(s, i, sep) == Ok(Item(ps[0], i + |EncodePair(ps[0], escaped)|))
  {
    var e := EncodePair(ps[0], escaped);
    assert At(s, i, e) && (i + |e| == |s| || s[i + |e|] == sep) by {
      HeadStands(s, i, ps, sep, escaped);
    }
    ReadsEncodedPair(s, i, ps[0], sep, escaped);
  }

  /** What follows the first pair of an encoded list. */
  function RestOf(ps: seq<Pair>, sep: byte, escaped: seq<byte>): Bytes
    requires ps != []
  {
    if |ps| == 1 then [] else [sep] + EncodePairs(ps[1..], sep, escaped)
  }

  lemma Standing(s: Bytes, i: nat, e: Bytes, rest: Bytes)
    requires i <= |s| && s[i..] == e + rest
    ensures At(s, i, e) && s[i + |e|..] == rest
    ensures rest != [] ==> s[i + |e|] == rest[0] && s[i + |e| + 1..] == rest[1..]
  {
    assert s[i..i + |e|] == s[i..][..|e|];
    assert s[i + |e|..] == s[i..][|e|..];
  }

  lemma ParsesOn(s: Bytes, i: nat, args: Args, p: Pair, end: nat)
    requires i <= |s| && ReadPair(s, i, SEMICOLON) == Ok(Item(p, end))
    ensures ParseFrom(s, i, args) == if p.key == [] then Err(EmptyKey)
                                     else if end >= |s| then Ok(Add(args, p))
                                     else ParseFrom(s, end + 1, Add(args, p))
  {
  }

  lemma NoEmptyKeySplit(ps: seq<Pair>)
    requires ps != []
    ensures NoEmptyKey(ps) <==> ps[0].key != [] && NoEmptyKey(ps[1..])
  {
    assert ps == [ps[0]] + ps[1..];
  }

  /** One turn of the parser's loop over an encoded list. */
  lemma ParsesHead(s: Bytes, i: nat, ps: seq<Pair>, args: Args, escaped: seq<byte>) returns (n: nat)
    requires EQUALS in escaped && SEMICOLON in escaped
    requires ps != [] && i <= |s| && s[i..] == EncodePairs(ps, SEMICOLON, escaped)
    ensures |ps| > 1 ==> n < |s| && s[n + 1..] == EncodePairs(ps[1..], SEMICOLON, escaped)
    ensures ParseFrom(s, i, args) == if ps[0].key == [] then Err(EmptyKey)
                                     else if |ps| == 1 then Ok(Add(args, ps[0]))
                                     else ParseFrom(s, n + 1, Add(args, ps[0]))
  {
    n := i + |EncodePair(ps[0], escaped)|;
    assert if |ps| == 1 then n == |s| else n < |s| && s[n + 1..] == EncodePairs(ps[1..], SEMICOLON, escaped) by {
      HeadStands(s, i, ps, SEMICOLON, escaped);
    }
    assert ReadPair(s, i, SEMICOLON) == Ok(Item(ps[0], n)) by {
      EncodedHead(s, i, ps, SEMICOLON, escaped);
    }
    ParsesOn(s, i, args, ps[0], n);
  }

  lemma {:induction false} ParsesEncodedPairs(s: Bytes, i: nat, ps: seq<Pair>, args: Args, escaped: seq<byte>)
    requires EQUALS in escaped && SEMICOLON in escaped
    requires ps != [] && i <= |s| && s[i..] == EncodePairs(ps, SEMICOLON, escaped)
    ensures ParseFrom(s, i, args) == if NoEmptyKey(ps) then Ok(AddAll(args, ps)) else Err(EmptyKey)
    decreases ps
  {
    var n := ParsesHead(s, i, ps, args, escaped);
    NoEmptyKeySplit(ps);
    if |ps| > 1 {
      ParsesEncodedPairs(s, n + 1, ps[1..], Add(args, ps[0]), escaped);
    } else {
      assert ps[1..] == [] && NoEmptyKey(ps[1..]);
    }
  }

  /** Every listing of a map, encoded with at least the separators escaped, parses
      back to the map exactly when the map has no empty key and no empty list. */
  lemma ClientRoundTrip(ps: seq<Pair>, args: Args, escaped: seq<byte>)
    requires EQUALS in escaped && SEMICOLON in escaped
    requires Lists(ps, args)
    ensures ParseClient(EncodePairs(ps, SEMICOLON, escaped)) == Ok(args)
            <==> forall key <- args :: key != [] && args[key] != []
  {
    AddAllOfListing(ps, args);
    if ps != [] {
      var s := EncodePairs(ps, SEMICOLON, escaped);
      assert s[0..] == s;
      ParsesEncodedPairs(s, 0, ps, map[], escaped);
      if forall key <- args :: args[key] != [] { EveryKeyListed(ps, args); }
    }
  }

  lemma EveryKeyListed(ps: seq<Pair>, args: Args)
    requires Lists(ps, args) && forall key <- args :: args[key] != []
    ensures NoEmptyKey(ps) <==> [] !in args
  {
    if [] in args {
      ValuesOfAbsent(ps, []);
    }
  }

  /** What the parser accepts always has that form, so parsing is idempotent. */
  lemma {:induction false} ParseFromRange(s: Bytes, i: nat, args: Args)
    requires i <= |s| && forall key <- args :: key != [] && args[key] != []
    ensures var r := ParseFrom(s, i, args);
      r.Ok? ==> forall key <- r.value :: key != [] && r.value[key] != []
    decreases |s| - i
  {
    match ReadPair(s, i, SEMICOLON)
    case Err(_) =>
    case Ok(item) =>
      if item.pair.key != [] && item.end < |s| {
        ParseFromRange(s, item.end + 1, Add(args, item.pair));
      }
  }

  lemma ParseIsIdempotent(s: Bytes, ps: seq<Pair>, escaped: seq<byte>)
    requires EQUALS in escaped && SEMICOLON in escaped
    requires ParseClient(s).Ok? && Lists(ps, ParseClient(s).value)
    ensures ParseClient(EncodePairs(ps, SEMICOLON, escaped)) == ParseClient(s)
  {
    if s != [] { ParseFromRange(s, 0, map[]); }
    ClientRoundTrip(ps, ParseClient(s).value, escaped);
  }
}
