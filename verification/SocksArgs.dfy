/** The escaped key=value codec of pluggable-transport arguments: an escaper, a
    scanner that undoes it, two parsers and one encoder.  Strings are bytes. */
module SocksArgs {
  import opened Basics

  type Bytes = seq<byte>

  const BACKSLASH: byte := 0x5c
  const EQUALS: byte := 0x3d
  const SEMICOLON: byte := 0x3b
  const COLON: byte := 0x3a
  const COMMA: byte := 0x2c

  /** Args: a key with its list of values. */
  type Args = map<Bytes, seq<Bytes>>

  datatype Pair = Pair(key: Bytes, value: Bytes)

  datatype ParseError = DanglingEscape | NoEquals | EmptyKey | NoColon | EmptyMethod

  // ---------------------------------------------------------------- the scanner and the escaper

  datatype Found = Found(end: nat, text: Bytes)

  /** From position i on: where the first unescaped terminator is, and the text before
      it without its escapes; None when the string ends in an escape. */
  function Scan(s: Bytes, i: nat, term: seq<byte>): (r: Option<Found>)
    requires i <= |s|
    ensures r.Some? ==> i <= r.value.end <= |s| && (r.value.end < |s| ==> s[r.value.end] in term)
    decreases |s| - i
  {
    if i == |s| || s[i] in term then Some(Found(i, []))
    else
      var at := if s[i] == BACKSLASH then i + 1 else i;
      if at == |s| then None else Prepend([s[at]], Scan(s, at + 1, term))
  }

  function Prepend(text: Bytes, r: Option<Found>): Option<Found> {
    if r.None? then None else Some(Found(r.value.end, text + r.value.text))
  }

  lemma PrependTwice(a: Bytes, b: Bytes, r: Option<Found>)
    ensures Prepend(a, Prepend(b, r)) == Prepend(a + b, r)
  {
    if r.Some? { assert a + (b + r.value.text) == a + b + r.value.text; }
  }

  /** indexUnescaped on s[start:]; the end is counted from the front of s. */
  method IndexUnescaped(s: Bytes, start: nat, term: seq<byte>) returns (r: Option<Found>)
    requires start <= |s|
    ensures r == Scan(s, start, term)
  {
    var unesc: Bytes := [];
    var i := start;
    assert forall text: Bytes :: [] + text == text;
    while i < |s|
      invariant start <= i <= |s|
      invariant Scan(s, start, term) == Prepend(unesc, Scan(s, i, term))
    {
      var b := s[i];
      if b in term {
        break;
      }
      if b == BACKSLASH {
        i := i + 1;
        if i >= |s| {
          return None;
        }
        b := s[i];
      }
      PrependTwice(unesc, [b], Scan(s, i + 1, term));
      unesc := unesc + [b];
      i := i + 1;
    }
    assert unesc + [] == unesc;
    return Some(Found(i, unesc));
  }

  function Escape(s: Bytes, escaped: seq<byte>): Bytes {
    if s == [] then []
    else (if s[0] == BACKSLASH || s[0] in escaped then [BACKSLASH] else []) + [s[0]] + Escape(s[1..], escaped)
  }

  method BackslashEscape(s: Bytes, escaped: seq<byte>) returns (buf: Bytes)
    ensures buf == Escape(s, escaped)
  {
    buf := [];
    for i := 0 to |s|
      invariant buf + Escape(s[i..], escaped) == Escape(s, escaped)
    {
      assert s[i..][0] == s[i] && s[i..][1..] == s[i + 1..];
      ghost var escape: Bytes := if s[i] == BACKSLASH || s[i] in escaped then [BACKSLASH] else [];
      Reassociate(buf, escape, s[i], Escape(s[i + 1..], escaped));
      if s[i] == BACKSLASH || s[i] in escaped {
        buf := buf + [BACKSLASH];
      }
      buf := buf + [s[i]];
    }
  }

  lemma Reassociate(a: Bytes, b: Bytes, c: byte, d: Bytes)
    ensures a + (b + [c] + d) == a + b + [c] + d
  {
  }

  /** How many bytes the escaper writes for one. */
  function Width(b: byte, escaped: seq<byte>): nat {
    if b == BACKSLASH || b in escaped then 2 else 1
  }

  lemma EscapeHead(t: Bytes, escaped: seq<byte>)
    requires t != []
    ensures var e, n := Escape(t, escaped), Width(t[0], escaped);
      n <= |e| && e[n..] == Escape(t[1..], escaped) && e[n - 1] == t[0] && (n == 2 ==> e[0] == BACKSLASH)
  {
  }

  lemma AtRest(s: Bytes, i: nat, e: Bytes, n: nat)
    requires At(s, i, e) && 0 < n <= |e|
    ensures At(s, i + n, e[n..]) && s[i] == e[0] && s[i + n - 1] == e[n - 1]
  {
    var here := s[i..i + |e|];
    assert here[0] == s[i] && here[n - 1] == s[i + n - 1];
    assert s[i + n..i + |e|] == here[n..];
  }

  /** One turn of the scanner's loop over a plain or an escaped byte. */
  lemma ScanStep(s: Bytes, i: nat, n: nat, b: byte, term: seq<byte>)
    requires 1 <= n <= 2 && i + n <= |s| && s[i + n - 1] == b && BACKSLASH !in term
    requires if n == 1 then b != BACKSLASH && b !in term else s[i] == BACKSLASH
    ensures Scan(s, i, term) == Prepend([b], Scan(s, i + n, term))
  {
  }

  /** The scanner inverts the escaper in front of a terminator or the end, for every
      text: it is enough that each terminator in it is escaped. */
  lemma {:induction false} ScanInvertsEscape(s: Bytes, i: nat, t: Bytes, escaped: seq<byte>, term: seq<byte>)
    requires BACKSLASH !in term && forall b <- t :: b in term ==> b in escaped
    requires At(s, i, Escape(t, escaped))
    requires var end := i + |Escape(t, escaped)|; end == |s| || s[end] in term
    ensures Scan(s, i, term) == Some(Found(i + |Escape(t, escaped)|, t))
    decreases t
  {
    if t != [] {
      hide At, Scan;
      var n := Width(t[0], escaped);
      EscapeHead(t, escaped);
      AtRest(s, i, Escape(t, escaped), n);
      ScanStep(s, i, n, t[0], term);
      ScanInvertsEscape(s, i + n, t[1..], escaped, term);
      assert [t[0]] + t[1..] == t;
    }
  }

  /** And it is needed: a terminator in the text that is not escaped cuts it short. */
  lemma ScanInvertsEscapeOnlyIf(t: Bytes, escaped: seq<byte>, term: seq<byte>)
    requires BACKSLASH !in term
    ensures Scan(Escape(t, escaped), 0, term) == Some(Found(|Escape(t, escaped)|, t))
            <==> forall b <- t :: b in term ==> b in escaped
  {
    var s := Escape(t, escaped);
    if forall b <- t :: b in term ==> b in escaped {
      ScanInvertsEscape(s, 0, t, escaped, term);
    } else {
      var i := FirstBare(t, escaped, term);
      var head, tail := t[..i], t[i..];
      EscapeAppend(head, tail, escaped);
      assert t == head + tail && s == Escape(head, escaped) + Escape(tail, escaped);
      ScanInvertsEscape(s, 0, head, escaped, term);
    }
  }

  lemma FirstBare(t: Bytes, escaped: seq<byte>, term: seq<byte>) returns (i: nat)
    requires exists b :: b in t && b in term && b !in escaped
    ensures i < |t| && t[i] in term && t[i] !in escaped
    ensures forall b <- t[..i] :: b in term ==> b in escaped
  {
    i := 0;
    while !(t[i] in term && t[i] !in escaped)
      invariant i < |t|
      invariant forall b <- t[..i] :: b in term ==> b in escaped
      invariant exists b :: b in t[i..] && b in term && b !in escaped
      decreases |t| - i
    {
      assert t[i..] == [t[i]] + t[i + 1..];
      i := i + 1;
    }
  }

  lemma {:induction false} EscapeAppend(a: Bytes, b: Bytes, escaped: seq<byte>)
    ensures Escape(a + b, escaped) == Escape(a, escaped) + Escape(b, escaped)
  {
    if a == [] {
      assert a + b == b;
    } else {
      assert (a + b)[1..] == a[1..] + b;
      EscapeAppend(a[1..], b, escaped);
    }
  }

  // ---------------------------------------------------------------- lists of pairs and maps

  function Add(args: Args, p: Pair): Args {
    args[p.key := (if p.key in args then args[p.key] else []) + [p.value]]
  }

  function AddAll(args: Args, ps: seq<Pair>): Args
    decreases ps
  {
    if ps == [] then args else AddAll(Add(args, ps[0]), ps[1..])
  }

  /** The values that ps gives to key, in order. */
  function Values(ps: seq<Pair>, key: Bytes): seq<Bytes> {
    if ps == [] then []
    else (if ps[0].key == key then [ps[0].value] else []) + Values(ps[1..], key)
  }

  /** ps spells out args in some order that keeps the order of each key's values. */
  ghost predicate Lists(ps: seq<Pair>, args: Args) {
    && (forall p <- ps :: p.key in args)
    && (forall key <- args :: Values(ps, key) == args[key])
  }

  lemma {:induction false} AddAllValues(args: Args, ps: seq<Pair>)
    ensures var all := AddAll(args, ps);
      && (forall key :: key in all <==> key in args || Values(ps, key) != [])
      && (forall key <- all :: all[key] == (if key in args then args[key] else []) + Values(ps, key))
    decreases ps
  {
    if ps != [] {
      AddAllValues(Add(args, ps[0]), ps[1..]);
    }
  }

  lemma ValuesOfAbsent(ps: seq<Pair>, key: Bytes)
    ensures Values(ps, key) != [] <==> exists p :: p in ps && p.key == key
  {
    if ps != [] {
      ValuesOfAbsent(ps[1..], key);
      assert ps == [ps[0]] + ps[1..];
    }
  }

  /** Adding a listing of args one by one gives args back exactly when no list is empty. */
  lemma AddAllOfListing(ps: seq<Pair>, args: Args)
    requires Lists(ps, args)
    ensures AddAll(map[], ps) == args <==> forall key <- args :: args[key] != []
  {
    AddAllValues(map[], ps);
    var all := AddAll(map[], ps);
    forall key ensures key in all ==> key in args {
      ValuesOfAbsent(ps, key);
    }
    if forall key <- args :: args[key] != [] {
      assert all.Keys == args.Keys;
      assert forall key <- args :: all[key] == [] + args[key] == args[key];
    }
  }
}
