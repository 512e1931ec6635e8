/** A request that is cut short while `push` holds a batch without bytes.  Nothing that is
    written later arrives then, so a hole in the stream can show only in what the read
    buffer still has, and it does exactly if not all the bytes concerned are the same. */
module HttpUploadHoles {
  import opened Basics
  import opened HttpUpload
  import opened HttpUploadTheorems
  import opened HttpUploadProgress

  ghost predicate Only(bytes: seq<byte>, b: byte) {
    forall i :: 0 <= i < |bytes| ==> bytes[i] == b
  }

  /** Losing some end of w in front of rest can be seen in the stream. */
  ghost predicate Shows(w: seq<byte>, rest: seq<byte>) {
    rest != [] && !(Only(w, rest[0]) && Only(rest, rest[0]))
  }

  // ---------------------------------------------------------------- where it shows

  lemma WhereItShows(w: seq<byte>, rest: seq<byte>) returns (k: nat, j: nat)
    requires w != [] && Shows(w, rest)
    ensures k < |w| && j < |rest| && (w[k..] + rest)[j] != rest[j]
  {
    if Only(w, rest[0]) {
      k, j := |w| - 1, 0;
      while rest[j] == rest[0]
        invariant j < |rest| && forall i :: 0 <= i < j ==> rest[i] == rest[0]
        invariant exists i :: j <= i < |rest| && rest[i] != rest[0]
        decreases |rest| - j
      {
        j := j + 1;
      }
      assert j > 0 && (w[k..] + rest)[j] == rest[j - 1];
    } else {
      k :| k < |w| && w[k] != rest[0];
      j := 0;
    }
  }

  lemma SkippedIsSeen(got: seq<byte>, lost: seq<byte>, rest: seq<byte>, tail: seq<byte>, j: nat)
    requires j < |rest| && (lost + rest)[j] != rest[j]
    ensures !(got + rest <= got + lost + (rest + tail))
  {
    assert (got + rest)[|got| + j] == rest[j];
    assert (got + lost + (rest + tail))[|got| + j] == (lost + rest)[j];
  }

  /** The server has k bytes off the wire when the request ends; the others are lost, and
      the read buffer follows in a request of its own. */
  function Skipped(s: Sys, k: nat): Sys {
    Flush(Lost(OnServerRecv(s, LastRequest(s), k)))
  }

  lemma SkippedLeads(s: Sys, k: nat)
    ensures Leads(s, Skipped(s, k))
  {
    var t := OnServerRecv(s, LastRequest(s), k);
    assert Leads(s, t) by {
      LeadsNowhere(s);
      LeadsOn(s, s, ServerRecv(LastRequest(s), k));
    }
    LostLeads(t);
    LeadsThrough(s, t, Lost(t));
    FlushLeads(s, Lost(t));
  }

  lemma RecvLeavesTheRest(s: Sys, k: nat)
    requires Inv(s) && s.running && !s.log.cutShort && CutsShort(s) && k < |LastWire(s.net)|
    ensures var t := OnServerRecv(s, LastRequest(s), k);
      && Inv(t) && CutsShort(t) && LastWire(t.net) == LastWire(s.net)[k..]
      && t == s.(net := t.net)
  {
    ServerRecvKeepsInv(s, LastRequest(s), k);
  }

  lemma SkippedSkips(s: Sys, k: nat)
    requires Inv(s) && s.running && !s.log.cutShort && CutsShort(s) && k < |LastWire(s.net)|
    requires s.push.pc != Stopped
    ensures var t, l := Skipped(s, k), Lost(OnServerRecv(s, LastRequest(s), k));
      && t.net.got == l.net.got + s.body.readBuffer && t.log.queued == s.log.queued
      && Data(s.log.queued) == l.net.got + LastWire(s.net)[k..] + (s.body.readBuffer + Data(Pending(s)))
  {
    var r := OnServerRecv(s, LastRequest(s), k);
    RecvLeavesTheRest(s, k);
    LostLoses(r);
    FlushFlushes(Lost(r));
    QueuedData(s);
  }

  lemma ItCanShow(s: Sys)
    requires Leads(INITIAL, s) && s.running && s.push.pc != Stopped && !s.log.cutShort && CutsShort(s)
    requires Shows(LastWire(s.net), s.body.readBuffer)
    ensures exists t :: Leads(s, t) && !(t.net.got <= Data(t.log.queued))
  {
    var w, rest := LastWire(s.net), s.body.readBuffer;
    var k, j := WhereItShows(w, rest);
    assert Inv(s) by { ReachableInv(s); }
    SkippedSkips(s, k);
    SkippedIsSeen(Lost(OnServerRecv(s, LastRequest(s), k)).net.got, w[k..], rest, Data(Pending(s)), j);
    SkippedLeads(s, k);
  }

  // ---------------------------------------------------------------- nothing behind the hole

  /** got and what is still to come are a prefix of all, and only request r has bytes. */
  ghost predicate NothingBehind(s: Sys, t: Sys, r: nat, all: seq<byte>) {
    && Frozen(s, t) && t.body.readBuffer == [] && r < |t.net.wire|
    && (forall i :: 0 <= i < |t.net.wire| && i != r ==> t.net.wire[i] == [])
    && t.net.got + t.net.recvBuffer + t.net.wire[r] <= all
  }

  lemma RecvNothingBehind(s: Sys, t: Sys, r: nat, all: seq<byte>, i: nat, n: nat)
    requires NothingBehind(s, t, r, all)
    ensures NothingBehind(s, OnServerRecv(t, i, n), r, all)
  {
    if i < |t.net.wire| {
      if t.net.wire[i] == [] {
        NothingToRecv(t, i, n);
      } else {
        MovePrefix(t.net.got, t.net.recvBuffer, t.net.wire[i], Min(n, |t.net.wire[i]|));
      }
    }
  }

  lemma LoseNothingBehind(s: Sys, t: Sys, r: nat, all: seq<byte>, i: nat)
    requires NothingBehind(s, t, r, all)
    ensures NothingBehind(s, OnLose(t, i), r, all)
  {
    var a, w := t.net.got + t.net.recvBuffer, t.net.wire[r];
    assert a + [] <= a + w;
  }

  lemma ReadNothingBehind(s: Sys, t: Sys, r: nat, all: seq<byte>, n: nat)
    requires NothingBehind(s, t, r, all)
    ensures NothingBehind(s, OnServerRead(t, n), r, all)
  {
    var u := OnServerRead(t, n);
    assert u.net.got + u.net.recvBuffer == t.net.got + t.net.recvBuffer by {
      ReadMoves(t, n);
    }
  }

  lemma ReadMoves(t: Sys, n: nat)
    ensures var u := OnServerRead(t, n); u.net.got + u.net.recvBuffer == t.net.got + t.net.recvBuffer
  {
    var k := Min(n, |t.net.recvBuffer|);
    assert t.net.recvBuffer == t.net.recvBuffer[..k] + t.net.recvBuffer[k..];
  }

  lemma StepNothingBehind(s: Sys, t: Sys, r: nat, all: seq<byte>, a: Action)
    requires NothingBehind(s, t, r, all)
    ensures NothingBehind(s, Step(t, a), r, all)
  {
    FrozenStep(s, t, a);
    match a
    case ServerRecv(i, n) => RecvNothingBehind(s, t, r, all, i, n);
    case Lose(i) => LoseNothingBehind(s, t, r, all, i);
    case ServerRead(n) => ReadNothingBehind(s, t, r, all, n);
    case _ =>
  }

  lemma {:induction false} RunNothingBehind(s: Sys, t: Sys, r: nat, all: seq<byte>, actions: seq<Action>)
    requires NothingBehind(s, t, r, all)
    ensures NothingBehind(s, Run(t, actions), r, all)
  {
    if actions != [] {
      var before := actions[..|actions| - 1];
      RunNothingBehind(s, t, r, all, before);
      StepNothingBehind(s, Run(t, before), r, all, actions[|actions| - 1]);
    }
  }

  // ---------------------------------------------------------------- the same byte behind the hole

  /** Past g there is nothing but b, wherever one looks. */
  ghost predicate SameBehind(s: Sys, t: Sys, g: seq<byte>, b: byte) {
    && Frozen(s, t) && Only(t.body.readBuffer, b)
    && (forall i :: 0 <= i < |t.net.wire| ==> Only(t.net.wire[i], b))
    && g <= t.net.got + t.net.recvBuffer && Only((t.net.got + t.net.recvBuffer)[|g|..], b)
  }

  lemma RecvSameBehind(s: Sys, t: Sys, g: seq<byte>, b: byte, i: nat, n: nat)
    requires SameBehind(s, t, g, b)
    ensures SameBehind(s, OnServerRecv(t, i, n), g, b)
  {
    if i < |t.net.wire| {
      var w, k := t.net.wire[i], Min(n, |t.net.wire[i]|);
      var a := t.net.got + t.net.recvBuffer;
      assert t.net.got + (t.net.recvBuffer + w[..k]) == a + w[..k];
      assert (a + w[..k])[|g|..] == a[|g|..] + w[..k];
      assert Only(w, b);
    }
  }

  lemma HandSameBehind(s: Sys, t: Sys, g: seq<byte>, b: byte, n: nat)
    requires SameBehind(s, t, g, b)
    ensures SameBehind(s, OnTransportRead(t, n), g, b)
  {
    var w := t.net.wire;
    if w != [] { assert Only(w[|w| - 1], b); }
  }

  lemma StepSameBehind(s: Sys, t: Sys, g: seq<byte>, b: byte, a: Action)
    requires SameBehind(s, t, g, b)
    ensures SameBehind(s, Step(t, a), g, b)
  {
    FrozenStep(s, t, a);
    match a
    case ServerRecv(i, n) => RecvSameBehind(s, t, g, b, i, n);
    case TransportRead(n) => HandSameBehind(s, t, g, b, n);
    case ServerRead(n) => ReadMoves(t, n);
    case _ =>
  }

  lemma {:induction false} RunSameBehind(s: Sys, t: Sys, g: seq<byte>, b: byte, actions: seq<Action>)
    requires SameBehind(s, t, g, b)
    ensures SameBehind(s, Run(t, actions), g, b)
  {
    if actions != [] {
      var before := actions[..|actions| - 1];
      RunSameBehind(s, t, g, b, before);
      StepSameBehind(s, Run(t, before), g, b, actions[|actions| - 1]);
    }
  }

  // ---------------------------------------------------------------- it cannot show

  /** What was accepted is a prefix of what is queued later. */
  lemma AcceptedIsQueued(s: Sys, t: Sys)
    requires Inv(t) && Frozen(s, t)
    ensures Data(Flat(s.log.batches)) <= Data(t.log.queued)
  {
    var head := Flat(t.log.batches);
    var rest := t.log.abandoned + Unsent(t.push) + t.sendCh;
    assert t.log.queued == head + rest by {
      assert head + t.log.abandoned + Unsent(t.push) + t.sendCh == head + rest;
    }
    DataAppend(head, rest);
  }

  lemma BufferedStays(s: Sys)
    requires Inv(s) && !s.log.cutShort && CutsShort(s)
    ensures var w := LastWire(s.net);
      && s.net.got + s.net.recvBuffer + w + s.body.readBuffer == Data(Flat(s.log.batches))
      && (forall i :: 0 <= i < |s.net.wire| - 1 ==> s.net.wire[i] == [])
      && s.net.wire != [] && w == s.net.wire[LastRequest(s)]
  {
  }

  lemma NothingShows(s: Sys, t: Sys)
    requires Leads(INITIAL, s) && !s.log.cutShort && CutsShort(s) && Wedged(s) && s.body.readBuffer == []
    requires Leads(s, t)
    ensures t.net.got <= Data(t.log.queued)
  {
    var all, r := Data(Flat(s.log.batches)), LastRequest(s);
    assert Inv(s) by { ReachableInv(s); }
    assert NothingBehind(s, s, r, all) by {
      BufferedStays(s);
      var head := s.net.got + s.net.recvBuffer + LastWire(s.net);
      assert head + [] == head;
    }
    var actions :| Run(s, actions) == t;
    RunNothingBehind(s, s, r, all, actions);
    assert all <= Data(t.log.queued) by { AcceptedStaysQueued(s, t); }
    assert t.net.got <= t.net.got + t.net.recvBuffer + t.net.wire[r];
  }

  lemma SamePrefix(g: seq<byte>, a: seq<byte>, all: seq<byte>, b: byte)
    requires g <= a && g <= all && |a| <= |all| && Only(a[|g|..], b) && Only(all[|g|..], b)
    ensures a <= all
  {
    forall i | 0 <= i < |a| ensures a[i] == all[i] {
      if i < |g| {
        assert a[i] == g[i] == all[i];
      } else {
        assert a[i] == a[|g|..][i - |g|] && all[i] == all[|g|..][i - |g|];
      }
    }
  }

  lemma GotAndBufferedAtMostHanded(s: Sys)
    requires NetInv(s)
    ensures |s.net.got + s.net.recvBuffer| <= |s.log.handed|
  {
    var here, handed := multiset(s.net.got) + multiset(s.net.recvBuffer), multiset(s.log.handed);
    var others := multiset(Flat(s.net.wire)) + multiset(s.log.dropped);
    assert here + others == handed;
    assert |here| == |s.net.got| + |s.net.recvBuffer| && |handed| == |s.log.handed|;
  }

  lemma SizesStay(s: Sys, t: Sys)
    requires Leads(INITIAL, s) && Wedged(s) && Leads(s, t)
    ensures |t.net.got + t.net.recvBuffer| <= |Data(Flat(s.log.batches))|
  {
    assert NetInv(t) by {
      EveryByteIsSomewhere(s);
      var actions :| Run(s, actions) == t;
      RunKeepsNet(s, actions);
    }
    assert Inv(t) by {
      ReachableInv(s);
      LeadsKeepsInv(s, t);
    }
    GotAndBufferedAtMostHanded(t);
    FrozenForGood(s);
  }

  lemma SameAtFirst(s: Sys, b: byte)
    requires Inv(s) && !s.log.cutShort && CutsShort(s) && Wedged(s)
    requires Only(LastWire(s.net), b) && Only(s.body.readBuffer, b)
    ensures var g, all := s.net.got + s.net.recvBuffer, Data(Flat(s.log.batches));
      SameBehind(s, s, g, b) && g <= all && Only(all[|g|..], b)
  {
    BufferedStays(s);
    var g, more := s.net.got + s.net.recvBuffer, LastWire(s.net) + s.body.readBuffer;
    assert Data(Flat(s.log.batches)) == g + more by {
      Reassociate(g, LastWire(s.net), s.body.readBuffer);
    }
    assert (g + more)[|g|..] == more && g[|g|..] == [];
  }

  lemma SameShowsNothing(s: Sys, t: Sys, b: byte)
    requires Leads(INITIAL, s) && !s.log.cutShort && CutsShort(s) && Wedged(s)
    requires Only(LastWire(s.net), b) && Only(s.body.readBuffer, b)
    requires Leads(s, t)
    ensures t.net.got <= Data(t.log.queued)
  {
    var g, all := s.net.got + s.net.recvBuffer, Data(Flat(s.log.batches));
    assert SameBehind(s, s, g, b) && g <= all && Only(all[|g|..], b) by {
      ReachableInv(s);
      SameAtFirst(s, b);
    }
    assert SameBehind(s, t, g, b) by {
      var actions :| Run(s, actions) == t;
      RunSameBehind(s, s, g, b, actions);
    }
    SizesStay(s, t);
    SamePrefix(g, t.net.got + t.net.recvBuffer, all, b);
    assert all <= Data(t.log.queued) by { AcceptedStaysQueued(s, t); }
  }

  lemma AcceptedStaysQueued(s: Sys, t: Sys)
    requires Leads(INITIAL, s) && Wedged(s) && Leads(s, t)
    ensures Data(Flat(s.log.batches)) <= Data(t.log.queued)
  {
    ReachableInv(s);
    LeadsKeepsInv(s, t);
    FrozenForGood(s);
    AcceptedIsQueued(s, t);
  }

  /** The other half of UploadIsPrefix, exactly: when a request is about to end with bytes
      on its wire, some continuation makes the server read a stream that is not a prefix
      of what was queued, if and only if later writes can still arrive or the hole shows
      in what the read buffer holds. */
  lemma CutShortBreaksTheStreamExactlyIf(s: Sys)
    requires Leads(INITIAL, s) && s.running && s.push.pc != Stopped && !s.log.cutShort && CutsShort(s)
    ensures (exists t :: Leads(s, t) && !(t.net.got <= Data(t.log.queued)))
            <==> !Wedged(s) || Shows(LastWire(s.net), s.body.readBuffer)
  {
    var rest := s.body.readBuffer;
    if !Wedged(s) {
      CutShortBreaksTheStream(s);
    } else if Shows(LastWire(s.net), rest) {
      ItCanShow(s);
    } else {
      forall t | Leads(s, t) ensures t.net.got <= Data(t.log.queued) {
        if rest == [] { NothingShows(s, t); } else { SameShowsNothing(s, t, rest[0]); }
      }
    }
  }
}
