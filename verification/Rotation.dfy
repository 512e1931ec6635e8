/** The cursor that several tables turn: it names the next entry, and one past the
    last stands for the first. */
module Rotation {

  /** The entry whose turn it is when the cursor stands at c. */
  function Turn(c: nat, n: nat): (i: nat)
    requires n > 0
    ensures i < n
  {
    if c >= n then 0 else c
  }

  /** Where the cursor stands after some turns. */
  function CursorAfter(c: nat, n: nat, turns: nat): nat
    requires n > 0
  {
    if turns == 0 then c else Turn(CursorAfter(c, n, turns - 1), n) + 1
  }

  /** The entry of the turn numbered k, counted from 0. */
  function Entry(c: nat, n: nat, k: nat): nat
    requires n > 0
  {
    Turn(CursorAfter(c, n, k), n)
  }

  lemma {:induction false} Rotates(c: nat, n: nat, k: nat)
    requires k <= n && n > 0
    ensures var at := Turn(c, n) + k; Entry(c, n, k) == if at < n then at else at - n
  {
    if k > 0 { Rotates(c, n, k - 1); }
  }

  lemma EntryShifts(c: nat, n: nat, k: nat)
    requires 0 < k < n
    ensures Entry(c, n, k) == Entry(Turn(c, n) + 1, n, k - 1) && Entry(c, n, k) != Turn(c, n)
  {
    Rotates(c, n, k);
    Rotates(Turn(c, n) + 1, n, k - 1);
  }

  /** From any cursor, n turns in a row give every entry exactly once, turn k the
      entry that many places on, round the end. */
  lemma EachEntryOncePerRound(c: nat, n: nat, entry: nat) returns (k: nat)
    requires entry < n
    ensures k < n && entry == if Turn(c, n) + k < n then Turn(c, n) + k else Turn(c, n) + k - n
    ensures forall other: nat :: other < n ==> (Entry(c, n, other) == entry <==> other == k)
  {
    var start := Turn(c, n);
    k := if entry >= start then entry - start else entry - start + n;
    forall other: nat | other < n ensures Entry(c, n, other) == entry <==> other == k {
      Rotates(c, n, other);
    }
  }

  /** How often entry comes up in some turns. */
  function Count(c: nat, n: nat, turns: nat, entry: nat): nat
    requires n > 0
  {
    if turns == 0 then 0 else Count(c, n, turns - 1, entry) + if Entry(c, n, turns - 1) == entry then 1 else 0
  }

  lemma {:induction false} CountWithinRound(c: nat, n: nat, turns: nat, entry: nat, k: nat)
    requires turns <= n && entry < n
    requires forall other: nat :: other < n ==> (Entry(c, n, other) == entry <==> other == k)
    ensures Count(c, n, turns, entry) == if k < turns then 1 else 0
  {
    if turns > 0 { CountWithinRound(c, n, turns - 1, entry, k); }
  }

  lemma {:induction false} CursorSplits(c: nat, n: nat, a: nat, b: nat)
    requires n > 0
    ensures CursorAfter(c, n, a + b) == CursorAfter(CursorAfter(c, n, a), n, b)
  {
    if b > 0 { CursorSplits(c, n, a, b - 1); }
  }

  lemma {:induction false} CountSplits(c: nat, n: nat, a: nat, b: nat, entry: nat)
    requires n > 0
    ensures Count(c, n, a + b, entry) == Count(c, n, a, entry) + Count(CursorAfter(c, n, a), n, b, entry)
  {
    if b > 0 {
      CountSplits(c, n, a, b - 1, entry);
      CursorSplits(c, n, a, b - 1);
    }
  }

  /** Any q * n + r turns give each of the n entries q times or, where it comes up in
      the broken round of r, once more: the floor or the ceiling of its share. */
  lemma {:induction false} TurnsAreFair(c: nat, n: nat, q: nat, r: nat, entry: nat)
    requires n > 0 && r < n && entry < n
    ensures q * n + r >= 0 && q <= Count(c, n, q * n + r, entry) <= q + 1
    ensures r == 0 ==> Count(c, n, q * n + r, entry) == q
    decreases q
  {
    if q == 0 {
      var k := EachEntryOncePerRound(c, n, entry);
      CountWithinRound(c, n, r, entry, k);
    } else {
      var k := EachEntryOncePerRound(c, n, entry);
      CountWithinRound(c, n, n, entry, k);
      var c1, rest := CursorAfter(c, n, n), (q - 1) * n + r;
      TurnsAreFair(c1, n, q - 1, r, entry);
      assert q * n + r == n + rest;
      CountSplits(c, n, n, rest, entry);
    }
  }
}
