/** encodeSmethodArgs: a printed form that depends on the mapping alone, whatever
    order the map is iterated in, and from which the mapping can be read back. */
module SocksArgsSmethod {
  import opened Basics
  import opened SocksArgs
  import opened SocksArgsCodec
  import opened Order

  // ---------------------------------------------------------------- sort.Strings

  ghost predicate Sorted(keys: seq<Bytes>) {
    forall i, j :: 0 <= i < j < |keys| ==> Less(keys[i], keys[j])
  }

  ghost predicate Distinct(keys: seq<Bytes>) {
    forall i, j :: 0 <= i < j < |keys| ==> keys[i] != keys[j]
  }

  /** An order in which the keys of args can come out of a range loop. */
  ghost predicate Iterates(keys: seq<Bytes>, args: Args) {
    Distinct(keys) && forall key :: key in keys <==> key in args
  }

  /** sort.Strings on distinct keys; how it sorts is not part of this model. */
  method SortStrings(keys: seq<Bytes>) returns (r: seq<Bytes>)
    requires Distinct(keys)
    ensures Sorted(r) && forall key :: key in r <==> key in keys
  {
    r := [];
    for i := 0 to |keys|
      invariant Sorted(r) && forall key :: key in r <==> key in keys[..i]
    {
      var at := 0;
      while at < |r| && Less(r[at], keys[i])
        invariant at <= |r| && forall j :: 0 <= j < at ==> Less(r[j], keys[i])
      {
        at := at + 1;
      }
      InsertKeepsSorted(r, at, keys[i]);
      assert keys[..i + 1] == keys[..i] + [keys[i]];
      r := r[..at] + [keys[i]] + r[at..];
    }
    assert keys[..|keys|] == keys;
  }

  lemma InsertKeepsSorted(r: seq<Bytes>, at: nat, key: Bytes)
    requires Sorted(r) && at <= |r| && key !in r
    requires forall j :: 0 <= j < at ==> Less(r[j], key)
    requires at < |r| ==> !Less(r[at], key)
    ensures Sorted(r[..at] + [key] + r[at..])
    ensures forall k :: k in r[..at] + [key] + r[at..] <==> k in r || k == key
  {
    assert r == r[..at] + r[at..];
    forall j | at <= j < |r| ensures Less(key, r[j]) {
      LessIsTotal(r[at], key);
      if j > at { LessIsTransitive(key, r[at], r[j]); }
    }
  }

  lemma {:induction false} SortedIsUnique(a: seq<Bytes>, b: seq<Bytes>)
    requires Sorted(a) && Sorted(b) && forall key :: key in a <==> key in b
    ensures a == b
  {
    var x, y := if a == [] then [] else a[0], if b == [] then [] else b[0];
    assert (a != [] ==> x in a) && (b != [] ==> y in b);
    if a != [] && b != [] {
      HeadIsLeast(a, b[0]);
      HeadIsLeast(b, a[0]);
      LessIsTotal(a[0], b[0]);
      forall key ensures key in a[1..] <==> key in b[1..] {
        TailHasTheRest(a, key);
        TailHasTheRest(b, key);
      }
      SortedIsUnique(a[1..], b[1..]);
      assert a == [a[0]] + a[1..] && b == [b[0]] + b[1..];
    }
  }

  lemma HeadIsLeast(a: seq<Bytes>, key: Bytes)
    requires Sorted(a) && key in a
    ensures key == a[0] || Less(a[0], key)
  {
  }

  lemma TailHasTheRest(a: seq<Bytes>, key: Bytes)
    requires Sorted(a) && a != []
    ensures key in a[1..] <==> key in a && key != a[0]
  {
    LessIsTotal(a[0], a[0]);
    assert a == [a[0]] + a[1..];
  }

  // ---------------------------------------------------------------- the encoder

  function KeyPairs(key: Bytes, values: seq<Bytes>): seq<Pair> {
    seq(|values|, i requires 0 <= i < |values| => Pair(key, values[i]))
  }

  function PairsInOrder(keys: seq<Bytes>, args: Args): seq<Pair>
    requires forall key <- keys :: key in args
  {
    if keys == [] then []
    else PairsInOrder(keys[..|keys| - 1], args) + KeyPairs(keys[|keys| - 1], args[keys[|keys| - 1]])
  }

  const SMETHOD_ESCAPED: seq<byte> := [EQUALS, COMMA]

  /** range is the order in which the loop over args meets its keys. */
  method EncodeSmethodArgs(args: Args, range: seq<Bytes>) returns (r: Bytes)
    requires Iterates(range, args)
    ensures Prints(args, r)
  {
    var keys := SortStrings(range);
    SortedIsDistinct(keys);
    assert Iterates(keys, args);
    var parts: seq<Bytes> := [];
    ghost var pairs: seq<Pair> := [];
    for i := 0 to |keys|
      invariant forall key <- keys :: key in args
      invariant pairs == PairsInOrder(keys[..i], args) && parts == Encoded(pairs)
    {
      var key := keys[i];
      for j := 0 to |args[key]|
        invariant pairs == PairsInOrder(keys[..i], args) + KeyPairs(key, args[key][..j]) && parts == Encoded(pairs)
      {
        var k := BackslashEscape(key, SMETHOD_ESCAPED);
        var v := BackslashEscape(args[key][j], SMETHOD_ESCAPED);
        parts := parts + [k + [EQUALS] + v];
        assert KeyPairs(key, args[key][..j + 1]) == KeyPairs(key, args[key][..j]) + [Pair(key, args[key][j])];
        pairs := pairs + [Pair(key, args[key][j])];
      }
      assert args[key][..|args[key]|] == args[key];
      assert keys[..i + 1][..i] == keys[..i];
    }
    assert keys[..|keys|] == keys;
    r := JoinWith(parts, COMMA);
    JoinOfEncoded(pairs);
  }

  function Encoded(ps: seq<Pair>): seq<Bytes> {
    seq(|ps|, i requires 0 <= i < |ps| => EncodePair(ps[i], SMETHOD_ESCAPED))
  }

  function Joined(parts: seq<Bytes>, sep: byte): Bytes {
    if parts == [] then [] else parts[0] + if |parts| == 1 then [] else [sep] + Joined(parts[1..], sep)
  }

  method JoinWith(parts: seq<Bytes>, sep: byte) returns (r: Bytes)
    ensures r == Joined(parts, sep)
  {
    r := [];
    var i := |parts|;
    while i > 0
      invariant 0 <= i <= |parts| && r == Joined(parts[i..], sep)
    {
      i := i - 1;
      assert parts[i..][1..] == parts[i + 1..];
      r := parts[i] + if i == |parts| - 1 then [] else [sep] + r;
    }
  }

  lemma JoinOfEncoded(ps: seq<Pair>)
    ensures Joined(Encoded(ps), COMMA) == EncodePairs(ps, COMMA, SMETHOD_ESCAPED)
  {
    if ps != [] {
      JoinOfEncoded(ps[1..]);
      assert Encoded(ps)[1..] == Encoded(ps[1..]);
    }
  }

  lemma SortedIsDistinct(keys: seq<Bytes>)
    requires Sorted(keys)
    ensures Distinct(keys)
  {
    forall i, j | 0 <= i < j < |keys| ensures keys[i] != keys[j] { LessIsTotal(keys[i], keys[j]); }
  }

  // ---------------------------------------------------------------- what the printed form tells

  /** r is what the encoder can print for args. */
  ghost predicate Prints(args: Args, r: Bytes) {
    exists keys :: Sorted(keys) && Iterates(keys, args)
      && r == EncodePairs(PairsInOrder(keys, args), COMMA, SMETHOD_ESCAPED)
  }

  /** Whatever the iteration order, the encoder prints the same string. */
  lemma PrintedFormIsCanonical(args: Args, r: Bytes, q: Bytes)
    requires Prints(args, r) && Prints(args, q)
    ensures r == q
  {
    var k :| Sorted(k) && Iterates(k, args) && r == EncodePairs(PairsInOrder(k, args), COMMA, SMETHOD_ESCAPED);
    var l :| Sorted(l) && Iterates(l, args) && q == EncodePairs(PairsInOrder(l, args), COMMA, SMETHOD_ESCAPED);
    SortedIsUnique(k, l);
  }

  /** Encoded lists of pairs are equal only if the lists are. */
  lemma {:induction false} EncodePairsInjective(ps: seq<Pair>, qs: seq<Pair>, sep: byte, escaped: seq<byte>)
    requires EQUALS in escaped && sep in escaped && sep != BACKSLASH
    requires EncodePairs(ps, sep, escaped) == EncodePairs(qs, sep, escaped)
    ensures ps == qs
    decreases ps
  {
    var s := EncodePairs(ps, sep, escaped);
    if ps != [] && qs != [] {
      assert s[0..] == s;
      HeadStands(s, 0, ps, sep, escaped);
      EncodedHead(s, 0, ps, sep, escaped);
      HeadStands(s, 0, qs, sep, escaped);
      EncodedHead(s, 0, qs, sep, escaped);
      assert ps == [ps[0]] + ps[1..] && qs == [qs[0]] + qs[1..];
      if |ps| > 1 { EncodePairsInjective(ps[1..], qs[1..], sep, escaped); }
    }
  }

  lemma {:induction false} ValuesAppend(a: seq<Pair>, b: seq<Pair>, key: Bytes)
    ensures Values(a + b, key) == Values(a, key) + Values(b, key)
  {
    if a == [] {
      assert a + b == b;
    } else {
      assert (a + b)[1..] == a[1..] + b;
      ValuesAppend(a[1..], b, key);
    }
  }

  lemma {:induction false} ValuesOfKeyPairs(key: Bytes, values: seq<Bytes>, other: Bytes)
    ensures Values(KeyPairs(key, values), other) == if other == key then values else []
  {
    if values != [] {
      ValuesOfKeyPairs(key, values[1..], other);
      assert KeyPairs(key, values)[1..] == KeyPairs(key, values[1..]);
      assert values == [values[0]] + values[1..];
    }
  }

  lemma LastIsApart(keys: seq<Bytes>, key: Bytes)
    requires Distinct(keys) && keys != []
    ensures var n := |keys| - 1;
      && Distinct(keys[..n]) && keys[n] !in keys[..n]
      && (key in keys <==> key in keys[..n] || key == keys[n])
  {
    assert keys == keys[..|keys| - 1] + [keys[|keys| - 1]];
  }

  lemma {:induction false} ValuesInOrder(keys: seq<Bytes>, args: Args, key: Bytes)
    requires Distinct(keys) && forall k <- keys :: k in args
    ensures Values(PairsInOrder(keys, args), key) == if key in keys then args[key] else []
  {
    if keys != [] {
      var n := |keys| - 1;
      LastIsApart(keys, key);
      var front, last := PairsInOrder(keys[..n], args), KeyPairs(keys[n], args[keys[n]]);
      assert PairsInOrder(keys, args) == front + last;
      assert Values(front, key) == if key in keys[..n] then args[key] else [] by {
        ValuesInOrder(keys[..n], args, key);
      }
      assert Values(last, key) == if key == keys[n] then args[key] else [] by {
        ValuesOfKeyPairs(keys[n], args[keys[n]], key);
      }
      ValuesAppend(front, last, key);
    }
  }

  /** The keys of args in any order give a listing of args. */
  lemma InOrderLists(keys: seq<Bytes>, args: Args)
    requires Iterates(keys, args)
    ensures Lists(PairsInOrder(keys, args), args)
  {
    var ps := PairsInOrder(keys, args);
    forall key ensures Values(ps, key) == if key in args then args[key] else [] {
      ValuesInOrder(keys, args, key);
    }
    forall p <- ps ensures p.key in args { ValuesOfAbsent(ps, p.key); }
  }

  /** The mapping without its empty lists. */
  function Pruned(args: Args): Args {
    map key | key in args && args[key] != [] :: args[key]
  }

  lemma PrunedIsRead(keys: seq<Bytes>, args: Args)
    requires Iterates(keys, args)
    ensures AddAll(map[], PairsInOrder(keys, args)) == Pruned(args)
  {
    var ps := PairsInOrder(keys, args);
    InOrderLists(keys, args);
    forall p <- ps ensures p.key in Pruned(args) { ValuesOfAbsent(ps, p.key); }
    assert Lists(ps, Pruned(args));
    AddAllOfListing(ps, Pruned(args));
  }

  lemma {:induction false} PrunedPrintsAlike(keys: seq<Bytes>, args: Args)
    requires Sorted(keys) && Iterates(keys, args)
    ensures PairsInOrder(Filled(keys, args), Pruned(args)) == PairsInOrder(keys, args)
    ensures Sorted(Filled(keys, args)) && Iterates(Filled(keys, args), Pruned(args))
  {
    FilledKeys(keys, args);
    SortedIsDistinct(Filled(keys, args));
    FilledPairs(keys, args);
  }

  function Filled(keys: seq<Bytes>, args: Args): (r: seq<Bytes>)
    requires forall key <- keys :: key in args
    ensures forall key <- r :: key in Pruned(args)
  {
    if keys == [] then []
    else Filled(keys[..|keys| - 1], args) + if args[keys[|keys| - 1]] != [] then [keys[|keys| - 1]] else []
  }

  lemma {:induction false} FilledKeys(keys: seq<Bytes>, args: Args)
    requires Sorted(keys) && forall key <- keys :: key in args
    ensures Sorted(Filled(keys, args))
    ensures forall key :: key in Filled(keys, args) <==> key in keys && args[key] != []
  {
    if keys != [] {
      var n := |keys| - 1;
      FilledKeys(keys[..n], args);
      assert keys == keys[..n] + [keys[n]];
      forall key <- Filled(keys[..n], args) ensures Less(key, keys[n]) {
        assert key in keys[..n];
      }
    }
  }

  lemma {:induction false} FilledPairs(keys: seq<Bytes>, args: Args)
    requires forall key <- keys :: key in args
    ensures PairsInOrder(Filled(keys, args), Pruned(args)) == PairsInOrder(keys, args)
  {
    if keys != [] {
      var n := |keys| - 1;
      FilledPairs(keys[..n], args);
      var f := Filled(keys, args);
      if args[keys[n]] != [] {
        assert f[..|f| - 1] == Filled(keys[..n], args);
      } else {
        assert f == Filled(keys[..n], args) + [] == Filled(keys[..n], args);
        assert PairsInOrder(keys, args) == PairsInOrder(keys[..n], args) + [];
      }
    }
  }

  lemma SamePairs(k: seq<Bytes>, a: Args, l: seq<Bytes>, b: Args)
    requires Sorted(k) && Iterates(k, a) && Sorted(l) && Iterates(l, b)
    ensures PairsInOrder(k, a) == PairsInOrder(l, b) <==> Pruned(a) == Pruned(b)
  {
    PrunedIsRead(k, a);
    PrunedIsRead(l, b);
    if Pruned(a) == Pruned(b) {
      PrunedPrintsAlike(k, a);
      PrunedPrintsAlike(l, b);
      SortedIsUnique(Filled(k, a), Filled(l, b));
    }
  }

  lemma PairsPrintAlike(ps: seq<Pair>, qs: seq<Pair>)
    ensures EncodePairs(ps, COMMA, SMETHOD_ESCAPED) == EncodePairs(qs, COMMA, SMETHOD_ESCAPED) <==> ps == qs
  {
    if EncodePairs(ps, COMMA, SMETHOD_ESCAPED) == EncodePairs(qs, COMMA, SMETHOD_ESCAPED) {
      EncodePairsInjective(ps, qs, COMMA, SMETHOD_ESCAPED);
    }
  }

  /** Two mappings print alike exactly when they differ at most in keys with an empty
      list, which the printed form leaves out. */
  lemma PrintedFormTellsTheMapping(a: Args, b: Args, r: Bytes, q: Bytes)
    requires Prints(a, r) && Prints(b, q)
    ensures r == q <==> Pruned(a) == Pruned(b)
  {
    var k :| Sorted(k) && Iterates(k, a) && r == EncodePairs(PairsInOrder(k, a), COMMA, SMETHOD_ESCAPED);
    var l :| Sorted(l) && Iterates(l, b) && q == EncodePairs(PairsInOrder(l, b), COMMA, SMETHOD_ESCAPED);
    SamePairs(k, a, l, b);
    PairsPrintAlike(PairsInOrder(k, a), PairsInOrder(l, b));
  }

  /** So it is injective on mappings without empty lists. */
  lemma PrintedFormIsInjective(a: Args, b: Args, r: Bytes)
    requires Prints(a, r) && Prints(b, r)
    requires (forall key <- a :: a[key] != []) && (forall key <- b :: b[key] != [])
    ensures a == b
  {
    PrintedFormTellsTheMapping(a, b, r, r);
    assert Pruned(a) == a && Pruned(b) == b;
  }
}
