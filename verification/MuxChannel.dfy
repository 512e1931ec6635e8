/** LocalProxyChannel.getMuxStream: the holders are asked in turn, from the cursor on,
    until one opens a stream. */
module MuxChannel {
  import opened Basics
  import opened Rotation
  import opened MuxHolder

  /** The order in which holders were asked, and the one that opened, if one did. */
  datatype Attempt = Attempt(order: seq<nat>, chosen: Option<nat>)

  /** The loop with the cursor at c and so many turns left, where got tells what each
      holder answers when it is asked. */
  function TryFrom(got: seq<Stream>, c: nat, left: nat): Attempt
    requires got != []
    decreases left
  {
    if left == 0 then Attempt([], None)
    else
      var i := Turn(c, |got|);
      if got[i].On? then Attempt([i], Some(i))
      else var rest := TryFrom(got, i + 1, left - 1); Attempt([i] + rest.order, rest.chosen)
  }

  /** Holders are asked in cyclic order from the cursor, at most left of them. */
  ghost predicate InCycle(order: seq<nat>, c: nat, n: nat, left: nat)
    requires n > 0
  {
    |order| <= left && forall k :: 0 <= k < |order| ==> order[k] == Entry(c, n, k)
  }

  /** All but the last failed; the last opened, or left of them were asked in vain. */
  ghost predicate FirstThatOpens(got: seq<Stream>, left: nat, a: Attempt) {
    var m := |a.order|;
    && (forall k :: 0 <= k < m ==> a.order[k] < |got|)
    && (forall k :: 0 <= k < m - 1 ==> !got[a.order[k]].On?)
    && match a.chosen
       case Some(i) => m > 0 && a.order[m - 1] == i && got[i].On?
       case None => m == left && (m > 0 ==> !got[a.order[m - 1]].On?)
  }

  lemma CycleGrows(order: seq<nat>, c: nat, n: nat, left: nat)
    requires 0 < left <= n && InCycle(order, Turn(c, n) + 1, n, left - 1)
    ensures InCycle([Turn(c, n)] + order, c, n, left) && Turn(c, n) !in order
  {
    forall k | 0 <= k < |order| ensures order[k] == Entry(c, n, k + 1) && order[k] != Turn(c, n) {
      EntryShifts(c, n, k + 1);
    }
    assert Entry(c, n, 0) == Turn(c, n);
  }

  lemma FailureGrows(got: seq<Stream>, left: nat, i: nat, rest: Attempt)
    requires i < |got| && left > 0 && !got[i].On? && FirstThatOpens(got, left - 1, rest)
    ensures FirstThatOpens(got, left, Attempt([i] + rest.order, rest.chosen))
  {
    var order := [i] + rest.order;
    assert forall k :: 0 < k < |order| ==> order[k] == rest.order[k - 1];
    assert rest.order != [] ==> order[|order| - 1] == rest.order[|rest.order| - 1];
  }

  lemma {:induction false} TriesGoRound(got: seq<Stream>, c: nat, left: nat)
    requires got != [] && left <= |got|
    ensures var a := TryFrom(got, c, left); InCycle(a.order, c, |got|, left) && FirstThatOpens(got, left, a)
    decreases left
  {
    if left > 0 {
      var i := Turn(c, |got|);
      assert Entry(c, |got|, 0) == i;
      if !got[i].On? {
        TriesGoRound(got, i + 1, left - 1);
        CycleGrows(TryFrom(got, i + 1, left - 1).order, c, |got|, left);
        FailureGrows(got, left, i, TryFrom(got, i + 1, left - 1));
      }
    }
  }

  lemma WholeRound(order: seq<nat>, c: nat, n: nat)
    requires n > 0 && InCycle(order, c, n, n)
    ensures forall i, j :: 0 <= i < j < |order| ==> order[i] != order[j]
    ensures |order| == n ==> forall j :: 0 <= j < n ==> j in order
  {
    forall i, j | 0 <= i < j < |order| ensures order[i] != order[j] {
      var k := EachEntryOncePerRound(c, n, order[i]);
    }
    if |order| == n {
      forall j | 0 <= j < n ensures j in order {
        var k := EachEntryOncePerRound(c, n, j);
        assert order[k] == j;
      }
    }
  }

  // ---------------------------------------------------------------- one call

  /** What each holder answers if it is asked; none is asked twice. */
  function Answers(hs: seq<Holder>, ws: seq<World>): (got: seq<Stream>)
    requires |hs| == |ws|
    ensures |got| == |hs|
  {
    seq(|hs|, i requires 0 <= i < |hs| => Opened(hs[i], ws[i]))
  }

  /** One holder asked; a holder whose session is shut down is closed. */
  function Asked(h: Holder, w: World): Holder {
    if Opened(h, w).ErrShutdown? then CloseCurrent(AfterGetNewStream(h, w)) else AfterGetNewStream(h, w)
  }

  /** Those asked have changed as one request changes them, the others not at all. */
  function HoldersAfter(hs: seq<Holder>, ws: seq<World>, order: seq<nat>): (r: seq<Holder>)
    requires |hs| == |ws|
    ensures |r| == |hs|
  {
    seq(|hs|, i requires 0 <= i < |hs| => if i in order then Asked(hs[i], ws[i]) else hs[i])
  }

  /** getMuxStream without a usable P2P session: as many turns as there are holders. */
  function Call(hs: seq<Holder>, c: nat, ws: seq<World>): Attempt
    requires |hs| == |ws|
  {
    if hs == [] then Attempt([], None) else TryFrom(Answers(hs, ws), c, |hs|)
  }

  function CursorOf(c: nat, a: Attempt): nat {
    if a.chosen.Some? then a.chosen.value + 1 else c
  }

  /** Every call tries the holders in cyclic order from the cursor, none twice, stops at
      the first that opens, and reports failure only after every holder has failed. */
  lemma FailsOnlyIfAllFail(hs: seq<Holder>, c: nat, ws: seq<World>)
    requires |hs| == |ws| > 0
    ensures var a := Call(hs, c, ws);
      && InCycle(a.order, c, |hs|, |hs|) && FirstThatOpens(Answers(hs, ws), |hs|, a)
      && (a.chosen.None? <==> forall j :: 0 <= j < |hs| ==> !Opened(hs[j], ws[j]).On?)
      && (forall i, j :: 0 <= i < j < |a.order| ==> a.order[i] != a.order[j])
      && (a.chosen.None? ==> forall j :: 0 <= j < |hs| ==> j in a.order)
      && (c <= |hs| ==> CursorOf(c, a) <= |hs|)
  {
    var a, got := Call(hs, c, ws), Answers(hs, ws);
    TriesGoRound(got, c, |hs|);
    WholeRound(a.order, c, |hs|);
    if a.chosen.None? {
      forall j | 0 <= j < |hs| ensures !Opened(hs[j], ws[j]).On? {
        assert j in a.order;
        var k :| 0 <= k < |a.order| && a.order[k] == j;
        assert !got[j].On?;
      }
    } else {
      assert got[a.chosen.value].On?;
    }
  }

  /** Where the loop stands after asking order: rest is what is still to come. */
  ghost predicate Underway(hs: seq<Holder>, c0: nat, ws: seq<World>, order: seq<nat>, c: nat, now: seq<Holder>)
    requires |hs| == |ws| && |order| <= |hs|
  {
    if hs == [] then now == hs
    else
      var a, rest := Call(hs, c0, ws), TryFrom(Answers(hs, ws), c, |hs| - |order|);
      && InCycle(order, c0, |hs|, |hs|) && c == CursorAfter(c0, |hs|, |order|)
      && now == HoldersAfter(hs, ws, order)
      && a.order == order + rest.order && a.chosen == rest.chosen
  }

  lemma UnderwayAtFirst(hs: seq<Holder>, c: nat, ws: seq<World>)
    requires |hs| == |ws|
    ensures Underway(hs, c, ws, [], c, hs)
  {
    assert HoldersAfter(hs, ws, []) == hs;
    assert [] + Call(hs, c, ws).order == Call(hs, c, ws).order;
  }

  lemma UnderwayAtLast(hs: seq<Holder>, c0: nat, ws: seq<World>, order: seq<nat>, c: nat, now: seq<Holder>)
    requires |hs| == |ws| == |order| && Underway(hs, c0, ws, order, c, now)
    ensures Call(hs, c0, ws) == Attempt(order, None) && now == HoldersAfter(hs, ws, order)
  {
    assert order + [] == order;
  }

  /** The next holder in turn has not been asked yet. */
  lemma NextIsUnasked(hs: seq<Holder>, c0: nat, ws: seq<World>, order: seq<nat>, c: nat, now: seq<Holder>)
    requires |hs| == |ws| > 0 && |order| < |hs| && Underway(hs, c0, ws, order, c, now)
    ensures var i := Turn(c, |hs|); i !in order && now[i] == hs[i]
  {
    var i, n, k := Turn(c, |hs|), |hs|, |order|;
    assert i == Entry(c0, n, k);
    var once := EachEntryOncePerRound(c0, n, i);
    assert Entry(c0, n, k) == i && once == k;
  }

  lemma CycleContinues(order: seq<nat>, c0: nat, n: nat, c: nat)
    requires |order| < n && InCycle(order, c0, n, n) && c == CursorAfter(c0, n, |order|)
    ensures InCycle(order + [Turn(c, n)], c0, n, n) && Turn(c, n) + 1 == CursorAfter(c0, n, |order| + 1)
  {
  }

  lemma AskingMovesOn(hs: seq<Holder>, c0: nat, ws: seq<World>, order: seq<nat>, c: nat, now: seq<Holder>)
    requires |hs| == |ws| > 0 && |order| < |hs| && Underway(hs, c0, ws, order, c, now)
    ensures var i, a := Turn(c, |hs|), Call(hs, c0, ws);
      var next := now[i := Asked(hs[i], ws[i])];
      && (Opened(hs[i], ws[i]).On? ==> a.chosen == Some(i) && next == HoldersAfter(hs, ws, a.order))
      && (!Opened(hs[i], ws[i]).On? ==> Underway(hs, c0, ws, order + [i], i + 1, next))
  {
    var i, got := Turn(c, |hs|), Answers(hs, ws);
    NextIsUnasked(hs, c0, ws, order, c, now);
    HoldersGrow(hs, ws, order, i);
    CycleContinues(order, c0, |hs|, c);
    hide HoldersAfter, InCycle, Entry, CursorAfter, Asked;
    assert got[i] == Opened(hs[i], ws[i]);
    if got[i].On? {
      assert TryFrom(got, c, |hs| - |order|) == Attempt([i], Some(i));
    } else {
      var rest := TryFrom(got, i + 1, |hs| - |order| - 1);
      assert order + ([i] + rest.order) == order + [i] + rest.order;
    }
  }

  lemma HoldersGrow(hs: seq<Holder>, ws: seq<World>, order: seq<nat>, i: nat)
    requires |hs| == |ws| && i < |hs| && i !in order
    ensures HoldersAfter(hs, ws, order)[i := Asked(hs[i], ws[i])] == HoldersAfter(hs, ws, order + [i])
  {
    assert forall j :: j in order + [i] <==> j in order || j == i;
  }

  // ---------------------------------------------------------------- fairness

  /** The holders and the cursor behind a run of calls. */
  function After(hs: seq<Holder>, c: nat, calls: seq<seq<World>>): (r: (seq<Holder>, nat))
    requires forall i :: 0 <= i < |calls| ==> |calls[i]| == |hs|
    ensures |r.0| == |hs|
  {
    if calls == [] then (hs, c)
    else
      var r := After(hs, c, calls[..|calls| - 1]);
      var a := Call(r.0, r.1, calls[|calls| - 1]);
      (HoldersAfter(r.0, calls[|calls| - 1], a.order), CursorOf(r.1, a))
  }

  /** In call k the holder that is asked first opens a stream. */
  ghost predicate OpensAtOnce(hs: seq<Holder>, c: nat, calls: seq<seq<World>>, k: nat)
    requires k < |calls| && hs != [] && forall i :: 0 <= i < |calls| ==> |calls[i]| == |hs|
  {
    var r := After(hs, c, calls[..k]);
    Opened(r.0[Turn(r.1, |hs|)], calls[k][Turn(r.1, |hs|)]).On?
  }

  /** The holder that call k gets its stream from. */
  ghost function Choice(hs: seq<Holder>, c: nat, calls: seq<seq<World>>, k: nat): Option<nat>
    requires k < |calls| && forall i :: 0 <= i < |calls| ==> |calls[i]| == |hs|
  {
    var r := After(hs, c, calls[..k]);
    Call(r.0, r.1, calls[k]).chosen
  }

  /** While none fails the calls go round: call k gets entry k of the rotation. */
  lemma {:induction false} ChoicesRotate(hs: seq<Holder>, c: nat, calls: seq<seq<World>>, k: nat)
    requires k <= |calls| && hs != [] && forall i :: 0 <= i < |calls| ==> |calls[i]| == |hs|
    requires forall i :: 0 <= i < k ==> OpensAtOnce(hs, c, calls, i)
    ensures After(hs, c, calls[..k]).1 == CursorAfter(c, |hs|, k)
    ensures k < |calls| && OpensAtOnce(hs, c, calls, k) ==> Choice(hs, c, calls, k) == Some(Entry(c, |hs|, k))
  {
    if k > 0 {
      ChoicesRotate(hs, c, calls, k - 1);
      assert calls[..k][..k - 1] == calls[..k - 1];
      assert OpensAtOnce(hs, c, calls, k - 1);
    }
  }

  /** How many of the first k calls chose holder j. */
  ghost function Share(hs: seq<Holder>, c: nat, calls: seq<seq<World>>, k: nat, j: nat): nat
    requires k <= |calls| && forall i :: 0 <= i < |calls| ==> |calls[i]| == |hs|
  {
    if k == 0 then 0
    else Share(hs, c, calls, k - 1, j) + if Choice(hs, c, calls, k - 1) == Some(j) then 1 else 0
  }

  lemma {:induction false} ShareIsCount(hs: seq<Holder>, c: nat, calls: seq<seq<World>>, k: nat, j: nat)
    requires k <= |calls| && hs != [] && forall i :: 0 <= i < |calls| ==> |calls[i]| == |hs|
    requires forall i :: 0 <= i < k ==> OpensAtOnce(hs, c, calls, i)
    ensures Share(hs, c, calls, k, j) == Count(c, |hs|, k, j)
  {
    if k > 0 {
      ShareIsCount(hs, c, calls, k - 1, j);
      ChoicesRotate(hs, c, calls, k - 1);
      assert OpensAtOnce(hs, c, calls, k - 1);
    }
  }

  /** When none fails, q * n + r calls in a row give each of the n holders q streams or
      q + 1: the floor or the ceiling of its share. */
  lemma CallsAreFair(hs: seq<Holder>, c: nat, calls: seq<seq<World>>, q: nat, r: nat, j: nat)
    requires j < |hs| && r < |hs| && forall i :: 0 <= i < |calls| ==> |calls[i]| == |hs|
    requires |calls| == q * |hs| + r
    requires forall i :: 0 <= i < |calls| ==> OpensAtOnce(hs, c, calls, i)
    ensures q <= Share(hs, c, calls, |calls|, j) <= q + 1
    ensures r == 0 ==> Share(hs, c, calls, |calls|, j) == q
  {
    ShareIsCount(hs, c, calls, |calls|, j);
    TurnsAreFair(c, |hs|, q, r, j);
  }
}
