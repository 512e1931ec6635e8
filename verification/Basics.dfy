/** Vocabulary shared by the models: bytes, optional values and outcomes,
    and the few facts about concatenation that several proofs need. */
module Basics {

  type byte = b: int | 0 <= b < 256

  datatype Option<+T> = None | Some(value: T)

  datatype Outcome<+T, +E> = Ok(value: T) | Err(error: E)

  function Min(a: nat, b: nat): nat {
    if a <= b then a else b
  }

  /** The first k of a sequence of sequences, end to end. */
  function FlatTo<T>(parts: seq<seq<T>>, k: nat): seq<T>
    requires k <= |parts|
  {
    if k == 0 then [] else FlatTo(parts, k - 1) + parts[k - 1]
  }

  function Flat<T>(parts: seq<seq<T>>): seq<T> {
    FlatTo(parts, |parts|)
  }

  lemma {:induction false} FlatToSame<T>(a: seq<seq<T>>, b: seq<seq<T>>, k: nat)
    requires k <= |a| && k <= |b| && forall i :: 0 <= i < k ==> a[i] == b[i]
    ensures FlatTo(a, k) == FlatTo(b, k)
  {
    if k > 0 { FlatToSame(a, b, k - 1); }
  }

  lemma FlatSnoc<T>(parts: seq<seq<T>>, last: seq<T>)
    ensures Flat(parts + [last]) == Flat(parts) + last
  {
    FlatToSame(parts, parts + [last], |parts|);
  }

  lemma {:induction false} FlatAppendTo<T>(a: seq<seq<T>>, b: seq<seq<T>>, k: nat)
    requires k <= |b|
    ensures FlatTo(a + b, |a| + k) == Flat(a) + FlatTo(b, k)
  {
    if k == 0 {
      FlatToSame(a, a + b, |a|);
    } else {
      FlatAppendTo(a, b, k - 1);
      assert (a + b)[|a| + k - 1] == b[k - 1];
    }
  }

  lemma FlatAppend<T>(a: seq<seq<T>>, b: seq<seq<T>>)
    ensures Flat(a + b) == Flat(a) + Flat(b)
  {
    FlatAppendTo(a, b, |b|);
  }

  lemma FlatAt<T>(parts: seq<seq<T>>, i: nat)
    requires i < |parts|
    ensures Flat(parts) == Flat(parts[..i]) + parts[i] + Flat(parts[i + 1..])
  {
    var front, back := parts[..i], parts[i + 1..];
    assert parts == front + [parts[i]] + back;
    FlatAppend(front + [parts[i]], back);
    FlatSnoc(front, parts[i]);
  }

  /** part stands in s at position i. */
  predicate At(s: seq<byte>, i: nat, part: seq<byte>) {
    i + |part| <= |s| && s[i..i + |part|] == part
  }

  lemma AtSplit(s: seq<byte>, i: nat, a: seq<byte>, b: seq<byte>)
    requires At(s, i, a + b)
    ensures At(s, i, a) && At(s, i + |a|, b)
  {
    var here := s[i..i + |a + b|];
    assert s[i..i + |a|] == here[..|a|] == a;
    assert s[i + |a|..i + |a| + |b|] == here[|a|..] == b;
  }

  /** The two bytes of a 16-bit number, by counting: division would burden every proof. */
  function High(n: nat): (hi: nat)
    ensures n < 0x10000 ==> hi < 0x100
    ensures n < 0x10000 ==> hi * 0x100 + Low(n) == n
  {
    if n < 0x100 then 0 else 1 + High(n - 0x100)
  }

  function Low(n: nat): (lo: byte) {
    if n < 0x100 then n else Low(n - 0x100)
  }

  /** A 16-bit number, high byte first. */
  function U16(n: nat): (r: seq<byte>)
    requires n < 0x10000
    ensures |r| == 2 && FromU16(r[0], r[1]) == n
  {
    [High(n), Low(n)]
  }

  function FromU16(hi: byte, lo: byte): (n: nat)
    ensures n < 0x10000
  {
    hi * 0x100 + lo
  }
}
