/** What can still happen to bytes that are under way: from a reachable state of a
    running connection they can all reach the server exactly if `push` does not hold a
    batch without bytes in front of others, which it never lets go; a request that ends
    with bytes on its wire can be continued to a stream with a hole, and a Write that is
    queued again to one that is too long.
    Each schedule is a function on states; one lemma says what it reaches, another
    that it is a run. */
module HttpUploadProgress {
  import opened Basics
  import opened HttpUpload
  import opened HttpUploadTheorems

  /** The frames that no accepted batch holds yet. */
  function Pending(s: Sys): seq<Frame> {
    Unsent(s.push) + s.sendCh
  }

  /** No writer, timer, Close or lost request came between s and t. */
  ghost predicate Keeps(s: Sys, t: Sys) {
    && t.running == s.running
    && t.log.queued == s.log.queued && t.log.writes == s.log.writes
    && t.log.cutShort == s.log.cutShort && t.log.retried == s.log.retried
  }

  /** No request is open, no byte is on any wire or in the server's buffer. */
  ghost predicate Quiet(s: Sys) {
    && s.running && !s.body.open && s.body.reading.None? && !s.body.eof
    && (forall i :: 0 <= i < |s.net.wire| ==> s.net.wire[i] == [])
    && s.net.recvBuffer == []
  }

  /** `push` holds frames without a single byte. */
  ghost predicate Wedged(s: Sys) {
    s.push.pc in {Top, Offer} && s.push.frs != [] && Data(s.push.frs) == []
  }

  // ---------------------------------------------------------------- schedules

  /** push drains sendCh. */
  function TakeAll(s: Sys): Sys
    decreases |s.sendCh|
  {
    if s.push.pc != Drain || s.sendCh == [] then s else TakeAll(OnPushTake(s))
  }

  /** push comes back to its loop test. */
  function ToTop(s: Sys): Sys {
    var t := OnPushDrained(TakeAll(s));
    match t.push.pc
    case Offer => OnOfferTimeout(t)
    case Wait => OnPushWaitTimeout(t)
    case Notify => OnNotifyDone(t)
    case _ => t
  }

  function ReadAll(s: Sys): Sys {
    OnServerRead(s, |s.net.recvBuffer|)
  }

  function LastRequest(s: Sys): nat {
    if s.net.wire == [] then 0 else |s.net.wire| - 1
  }

  /** The bytes on the newest request's wire reach the server's reader and the request ends. */
  function Land(s: Sys): Sys {
    OnRequestEnds(ReadAll(OnServerRecv(s, LastRequest(s), |LastWire(s.net)|)))
  }

  /** The read buffer travels in a request of its own. */
  function Flush(s: Sys): Sys {
    if s.body.readBuffer == [] then s
    else Land(OnTransportRead(OnStartRequest(s), |s.body.readBuffer|))
  }

  /** The transport waits in Read with room for the batch in hand. */
  function ReadyToOffer(s: Sys): Sys {
    OnPushTop(OnTransportRead(OnStartRequest(s), |Data(s.push.frs)|))
  }

  /** The batch in hand goes all the way, if it has a byte. */
  function Round(s: Sys): Sys {
    if Data(s.push.frs) == [] then s
    else Land(OnNotifyDone(OnOfferAccepted(ReadyToOffer(s))))
  }

  /** What is on its way arrives, and push takes everything else in hand. */
  function Collect(s: Sys): Sys {
    var t := Flush(s);
    if t.push.pc == Drain then TakeAll(t) else TakeAll(OnPushTop(Round(ToTop(t))))
  }

  /** push offers what it has in hand. */
  function Finish(s: Sys): Sys {
    Round(ToTop(s))
  }

  ghost function Deliver(s: Sys): Sys {
    if Wedged(s) then Flush(s) else Finish(Collect(s))
  }

  /** From any state: the pending Read ends, the open request's bytes land. */
  function Settle(s: Sys): Sys {
    Land(OnBodyClose(s))
  }

  // ---------------------------------------------------------------- what they reach

  lemma TakenTogether<T>(a: seq<T>, b: seq<T>)
    ensures if b == [] then a + b == a else a + [b[0]] + b[1..] == a + b
  {
  }

  lemma TakeAllTakes(s: Sys)
    requires s.push.pc == Drain
    ensures TakeAll(s) == s.(sendCh := [], push := Pusher(Drain, s.push.frs + s.sendCh,
                                                          if s.sendCh == [] then s.push.err else Nil))
    decreases |s.sendCh|
  {
    TakenTogether(s.push.frs, s.sendCh);
    if s.sendCh != [] {
      var u := OnPushTake(s);
      TakeAllTakes(u);
    }
  }

  /** push alone has moved, to its loop test. */
  ghost predicate TopFrom(s: Sys, t: Sys) {
    && t.push.pc == Top && t == s.(sendCh := t.sendCh, push := t.push, acks := t.acks)
    && if s.push.pc == Drain then t.push.frs == s.push.frs + s.sendCh && t.sendCh == []
       else t.push.frs == Unsent(s.push) && t.sendCh == s.sendCh
  }

  lemma ToTopComesBack(s: Sys)
    requires s.push.pc != Stopped && (s.push.pc == Wait ==> s.push.frs == [])
    ensures TopFrom(s, ToTop(s))
  {
    if s.push.pc == Drain { TakeAllTakes(s); }
  }

  lemma LandLands(s: Sys)
    requires s.running && s.body.open && s.body.reading.None? && s.net.wire != []
    requires forall i :: 0 <= i < |s.net.wire| - 1 ==> s.net.wire[i] == []
    ensures var t := Land(s);
      && Quiet(t) && Keeps(s, t)
      && t.net.got == s.net.got + s.net.recvBuffer + LastWire(s.net)
      && t.body.readBuffer == s.body.readBuffer && t.push == s.push && t.sendCh == s.sendCh
      && t.log.handed == s.log.handed && t.log.batches == s.log.batches && t.log.abandoned == s.log.abandoned
  {
    var last := |s.net.wire| - 1;
    var w := s.net.wire[last];
    var t := OnServerRecv(s, last, |w|);
    assert w[..|w|] == w && w[|w|..] == [];
    assert t.net == Net(s.net.wire[last := []], s.net.recvBuffer + w, s.net.got);
    var u := OnServerRead(t, |t.net.recvBuffer|);
    assert u.net == Net(t.net.wire, [], s.net.got + (s.net.recvBuffer + w));
    assert s.net.got + (s.net.recvBuffer + w) == s.net.got + s.net.recvBuffer + w;
  }

  ghost predicate FlushedFrom(s: Sys, t: Sys) {
    && Quiet(t) && Keeps(s, t)
    && t.net.got == s.net.got + s.body.readBuffer && t.body.readBuffer == []
    && t.push == s.push && t.sendCh == s.sendCh
  }

  lemma FlushFlushes(s: Sys)
    requires Quiet(s)
    ensures FlushedFrom(s, Flush(s))
  {
    var rb := s.body.readBuffer;
    if rb != [] {
      var u := OnTransportRead(OnStartRequest(s), |rb|);
      assert rb[..|rb|] == rb;
      assert u.net.wire == s.net.wire + [rb] by { assert [] + rb == rb; }
      LandLands(u);
    }
  }

  ghost predicate RoundFrom(s: Sys, t: Sys) {
    && Quiet(t) && Keeps(s, t) && t.body.readBuffer == []
    && t.push.pc == Top && t.push.frs == (if Data(s.push.frs) == [] then s.push.frs else []) && t.sendCh == s.sendCh
    && t.net.got == s.net.got + Data(s.push.frs)
  }

  lemma RoundDelivers(s: Sys)
    requires Quiet(s) && s.body.readBuffer == [] && s.push.pc == Top
    ensures RoundFrom(s, Round(s))
  {
    var d := Data(s.push.frs);
    if d != [] {
      var r := ReadyToOffer(s);
      assert r.push.pc == Offer && r.body.reading == Some(|d|) && r.net.wire == s.net.wire + [[]];
      var t := OnOfferAccepted(r);
      assert [] + d == d && d[..|d|] == d;
      assert t.net.wire == s.net.wire + [d];
      LandLands(OnNotifyDone(t));
    }
  }

  /** Everything is with the server or in push's hand, and push would take more. */
  ghost predicate CollectedFrom(s: Sys, t: Sys) {
    && Quiet(t) && Keeps(s, t) && t.body.readBuffer == []
    && t.push.pc == Drain && t.sendCh == []
    && t.net.got + Data(t.push.frs) == s.net.got + (s.body.readBuffer + Data(Pending(s)))
  }

  lemma DrainCollects(s: Sys, t: Sys)
    requires FlushedFrom(s, t) && t.push.pc == Drain
    ensures CollectedFrom(s, TakeAll(t))
  {
    TakeAllTakes(t);
    Reassociate(s.net.got, s.body.readBuffer, Data(Pending(s)));
  }

  lemma RoundCollects(s: Sys, t: Sys, u: Sys, v: Sys)
    requires FlushedFrom(s, t) && t.push.pc != Drain && TopFrom(t, u) && RoundFrom(u, v)
    requires Data(u.push.frs) == [] ==> u.push.frs == []
    ensures CollectedFrom(s, TakeAll(OnPushTop(v)))
  {
    assert v.push.frs == [] && v.sendCh == s.sendCh;
    var w := OnPushTop(v);
    TakeAllTakes(w);
    assert TakeAll(w).push.frs == s.sendCh by { assert [] + s.sendCh == s.sendCh; }
    var a, b := Data(u.push.frs), Data(s.sendCh);
    assert Data(Pending(s)) == a + b by { DataAppend(u.push.frs, s.sendCh); }
    assert v.net.got == s.net.got + s.body.readBuffer + a;
    Reassociate(s.net.got, s.body.readBuffer, a + b);
    Reassociate(s.net.got + s.body.readBuffer, a, b);
  }

  lemma Reassociate(a: seq<byte>, b: seq<byte>, c: seq<byte>)
    ensures a + b + c == a + (b + c)
  {
  }

  lemma CollectCollects(s: Sys)
    requires Quiet(s) && s.push.pc != Stopped && (s.push.pc == Wait ==> s.push.frs == []) && !Wedged(s)
    ensures CollectedFrom(s, Collect(s))
  {
    FlushFlushes(s);
    var t := Flush(s);
    if t.push.pc == Drain {
      DrainCollects(s, t);
    } else {
      ToTopComesBack(t);
      RoundDelivers(ToTop(t));
      RoundCollects(s, t, ToTop(t), Round(ToTop(t)));
    }
  }

  ghost predicate AllSent(s: Sys, t: Sys, bytes: seq<byte>) {
    Quiet(t) && Keeps(s, t) && t.net.got == s.net.got + bytes
  }

  lemma FinishDelivers(s: Sys)
    requires Quiet(s) && s.push.pc == Drain && s.body.readBuffer == []
    ensures AllSent(s, Finish(s), Data(s.push.frs + s.sendCh))
  {
    ToTopComesBack(s);
    RoundDelivers(ToTop(s));
  }

  lemma DeliverDelivers(s: Sys)
    requires Quiet(s) && s.push.pc != Stopped && (s.push.pc == Wait ==> s.push.frs == [])
    requires !(Wedged(s) && Data(s.sendCh) != [])
    ensures AllSent(s, Deliver(s), s.body.readBuffer + Data(Pending(s)))
  {
    if Wedged(s) {
      FlushFlushes(s);
      DataAppend(s.push.frs, s.sendCh);
      assert s.body.readBuffer + Data(Pending(s)) == s.body.readBuffer;
    } else {
      CollectCollects(s);
      var t := Collect(s);
      FinishDelivers(t);
      assert t.push.frs + t.sendCh == t.push.frs;
    }
  }

  lemma SettleSettles(s: Sys)
    requires Inv(s) && s.running && s.body.open && !s.log.cutShort
    ensures var t := Settle(s);
      && Quiet(t) && Keeps(s, t) && t.net.got == s.log.handed
      && t.body.readBuffer == s.body.readBuffer && t.push == s.push && t.sendCh == s.sendCh
  {
    LandLands(OnBodyClose(s));
  }

  // ---------------------------------------------------------------- they are runs

  lemma TakeAllLeads(s0: Sys, s: Sys)
    requires Leads(s0, s)
    ensures Leads(s0, TakeAll(s))
    decreases |s.sendCh|
  {
    if s.push.pc == Drain && s.sendCh != [] {
      LeadsOn(s0, s, PushTake);
      TakeAllLeads(s0, OnPushTake(s));
    }
  }

  lemma ToTopLeads(s0: Sys, s: Sys)
    requires Leads(s0, s)
    ensures Leads(s0, ToTop(s))
  {
    TakeAllLeads(s0, s);
    LeadsOn(s0, TakeAll(s), PushDrained);
    var t := OnPushDrained(TakeAll(s));
    LeadsOn(s0, t, OfferTimeout);
    LeadsOn(s0, t, PushWaitTimeout);
    LeadsOn(s0, t, NotifyDone);
  }

  lemma ReadAllLeads(s0: Sys, s: Sys)
    requires Leads(s0, s)
    ensures Leads(s0, ReadAll(s))
  {
    LeadsOn(s0, s, ServerRead(|s.net.recvBuffer|));
  }

  lemma LandLeads(s0: Sys, s: Sys)
    requires Leads(s0, s)
    ensures Leads(s0, Land(s))
  {
    var last, n := LastRequest(s), |LastWire(s.net)|;
    var t := OnServerRecv(s, last, n);
    assert Leads(s0, t) by { LeadsOn(s0, s, ServerRecv(last, n)); }
    assert Leads(s0, ReadAll(t)) by { ReadAllLeads(s0, t); }
    LeadsOn(s0, ReadAll(t), RequestEnds);
  }

  lemma FlushLeads(s0: Sys, s: Sys)
    requires Leads(s0, s)
    ensures Leads(s0, Flush(s))
  {
    var t := OnStartRequest(s);
    assert Leads(s0, t) by { LeadsOn(s0, s, StartRequest); }
    var u := OnTransportRead(t, |s.body.readBuffer|);
    assert Leads(s0, u) by { LeadsOn(s0, t, TransportRead(|s.body.readBuffer|)); }
    LandLeads(s0, u);
  }

  lemma ReadyToOfferLeads(s0: Sys, s: Sys)
    requires Leads(s0, s)
    ensures Leads(s0, ReadyToOffer(s))
  {
    var n := |Data(s.push.frs)|;
    LeadsOn(s0, s, StartRequest);
    LeadsOn(s0, OnStartRequest(s), TransportRead(n));
    LeadsOn(s0, OnTransportRead(OnStartRequest(s), n), PushTop);
  }

  lemma RoundLeads(s0: Sys, s: Sys)
    requires Leads(s0, s)
    ensures Leads(s0, Round(s))
  {
    ReadyToOfferLeads(s0, s);
    var t := ReadyToOffer(s);
    LeadsOn(s0, t, OfferAccepted);
    LeadsOn(s0, OnOfferAccepted(t), NotifyDone);
    LandLeads(s0, OnNotifyDone(OnOfferAccepted(t)));
  }

  lemma CollectLeads(s0: Sys, s: Sys)
    requires Leads(s0, s)
    ensures Leads(s0, Collect(s))
  {
    var t := Flush(s);
    FlushLeads(s0, s);
    TakeAllLeads(s0, t);
    ToTopLeads(s0, t);
    RoundLeads(s0, ToTop(t));
    var u := Round(ToTop(t));
    LeadsOn(s0, u, PushTop);
    TakeAllLeads(s0, OnPushTop(u));
  }

  lemma FinishLeads(s0: Sys, s: Sys)
    requires Leads(s0, s)
    ensures Leads(s0, Finish(s))
  {
    ToTopLeads(s0, s);
    RoundLeads(s0, ToTop(s));
  }

  lemma DeliverLeads(s0: Sys, s: Sys)
    requires Leads(s0, s)
    ensures Leads(s0, Deliver(s))
  {
    FlushLeads(s0, s);
    CollectLeads(s0, s);
    FinishLeads(s0, Collect(s));
  }

  lemma SettleLeads(s0: Sys, s: Sys)
    requires Leads(s0, s)
    ensures Leads(s0, Settle(s))
  {
    LeadsOn(s0, s, BodyClose);
    LandLeads(s0, OnBodyClose(s));
  }

  lemma LeadsKeepsInv(s: Sys, t: Sys)
    requires Inv(s) && Leads(s, t)
    ensures Inv(t)
  {
    var actions :| Run(s, actions) == t;
    RunKeepsInv(s, actions);
  }

  // ---------------------------------------------------------------- when everything arrives

  lemma QueuedFrames(s: Sys)
    requires QueueInv(s) && s.push.pc != Stopped
    ensures s.log.queued == Flat(s.log.batches) + Pending(s)
  {
    var head := Flat(s.log.batches);
    assert s.log.abandoned == [] && head + [] == head;
    assert head + Unsent(s.push) + s.sendCh == head + Pending(s);
  }

  lemma QueuedData(s: Sys)
    requires QueueInv(s) && BodyInv(s) && s.push.pc != Stopped
    ensures Data(s.log.queued) == s.log.handed + (s.body.readBuffer + Data(Pending(s)))
  {
    var head, tail := Flat(s.log.batches), Pending(s);
    assert s.log.queued == head + tail by { QueuedFrames(s); }
    DataAppend(head, tail);
    Reassociate(s.log.handed, s.body.readBuffer, Data(tail));
  }

  function Arrival(s: Sys): Sys {
    Settle(OnStartRequest(s))
  }

  lemma ArrivalReaches(s: Sys)
    requires Inv(s) && s.running && s.push.pc != Stopped && !s.log.cutShort
    requires !(Wedged(s) && Data(s.sendCh) != [])
    ensures var t := Deliver(Arrival(s));
      Leads(s, t) && Keeps(s, t) && t.net.got == Data(s.log.queued)
  {
    LeadsNowhere(s);
    LeadsOn(s, s, StartRequest);
    SettleLeads(s, OnStartRequest(s));
    DeliverLeads(s, Arrival(s));
    StepKeepsInv(s, StartRequest);
    SettleSettles(OnStartRequest(s));
    DeliverDelivers(Arrival(s));
    assert Pending(Arrival(s)) == Pending(s);
    QueuedData(s);
  }

  /** push holds its batch for good, or has returned; no further batch is accepted. */
  ghost predicate Frozen(s: Sys, t: Sys) {
    t.log.batches == s.log.batches && (Wedged(t) || t.push.pc == Stopped)
  }

  lemma FrozenStep(s: Sys, t: Sys, a: Action)
    requires Frozen(s, t)
    ensures Frozen(s, Step(t, a))
  {
  }

  lemma {:induction false} FrozenRun(s: Sys, actions: seq<Action>)
    requires Wedged(s)
    ensures Frozen(s, Run(s, actions))
  {
    if actions != [] {
      FrozenRun(s, actions[..|actions| - 1]);
      FrozenStep(s, Run(s, actions[..|actions| - 1]), actions[|actions| - 1]);
    }
  }

  lemma FrozenForGood(s: Sys)
    requires Wedged(s)
    ensures forall t :: Leads(s, t) ==> Frozen(s, t)
  {
    forall t | Leads(s, t) ensures Frozen(s, t) {
      var actions :| Run(s, actions) == t;
      FrozenRun(s, actions);
    }
  }

  lemma GotAtMostHanded(s: Sys)
    requires NetInv(s)
    ensures |s.net.got| <= |s.log.handed|
  {
    var got, handed := multiset(s.net.got), multiset(s.log.handed);
    var others := multiset(s.net.recvBuffer) + multiset(Flat(s.net.wire)) + multiset(s.log.dropped);
    assert got + others == handed;
    assert |got| == |s.net.got| && |handed| == |s.log.handed|;
  }

  /** Behind a batch without bytes nothing arrives, whatever is still done. */
  lemma WedgedBatchStopsArrival(s: Sys, t: Sys)
    requires Leads(INITIAL, s) && Wedged(s) && Data(s.sendCh) != [] && Leads(s, t)
    ensures |t.net.got| < |Data(s.log.queued)|
  {
    ReachableInv(s);
    assert NetInv(s) by { EveryByteIsSomewhere(s); }
    LeadsKeepsInv(s, t);
    assert NetInv(t) by {
      var actions :| Run(s, actions) == t;
      RunKeepsNet(s, actions);
    }
    GotAtMostHanded(t);
    FrozenForGood(s);
    assert |t.log.handed| <= |Data(Flat(s.log.batches))|;
    QueuedData(s);
    DataAppend(s.push.frs, s.sendCh);
    assert |Data(s.log.queued)| == |Data(Flat(s.log.batches))| + |Data(s.sendCh)|;
  }

  /** While the connection runs, `push` has not returned and no request was cut short,
      some continuation brings the server everything that was ever queued, exactly if
      `push` is not holding a batch without bytes while bytes wait behind it. */
  lemma EverythingCanArrive(s: Sys)
    requires Leads(INITIAL, s) && s.running && s.push.pc != Stopped && !s.log.cutShort
    ensures (exists t :: Leads(s, t) && t.log.queued == s.log.queued && t.net.got == Data(s.log.queued))
            <==> !(Wedged(s) && Data(s.sendCh) != [])
  {
    ReachableInv(s);
    if Wedged(s) && Data(s.sendCh) != [] {
      forall t | Leads(s, t) ensures t.net.got != Data(s.log.queued) {
        WedgedBatchStopsArrival(s, t);
      }
    } else {
      ArrivalReaches(s);
    }
  }

  /** One Write becomes the batch in hand. */
  function InHand(data: seq<byte>): Sys {
    OnPushDrained(OnPushTake(OnPushTop(OnWrite(INITIAL, data))))
  }

  lemma InHandLeads(data: seq<byte>)
    ensures Leads(INITIAL, InHand(data))
  {
    var s := OnWrite(INITIAL, data);
    assert Leads(INITIAL, s) by {
      LeadsNowhere(INITIAL);
      LeadsOn(INITIAL, INITIAL, Write(data));
    }
    assert Leads(INITIAL, OnPushTop(s)) by { LeadsOn(INITIAL, s, PushTop); }
    assert Leads(INITIAL, OnPushTake(OnPushTop(s))) by { LeadsOn(INITIAL, OnPushTop(s), PushTake); }
    LeadsOn(INITIAL, OnPushTake(OnPushTop(s)), PushDrained);
  }

  /** One empty Write is enough to get there: no further byte is ever accepted from
      any writer. */
  lemma EmptyWriteWedgesPush()
    ensures exists s :: Leads(INITIAL, s) && s.running && s.log.writes == [[]] && Wedged(s)
                     && forall t :: Leads(s, t) ==> t.log.batches == []
  {
    InHandLeads([]);
    EmptyBatchIs();
    FrozenForGood(InHand([]));
  }

  lemma EmptyBatchIs()
    ensures var s := InHand([]); Wedged(s) && s.running && s.log.writes == [[]] && s.log.batches == []
  {
    var frs := [Frame(0, [])];
    assert InHand([]).push == Pusher(Offer, frs, Nil);
    assert DataTo(frs, 0) == [] && DataTo(frs, 1) == [];
  }

  // ---------------------------------------------------------------- a request that is cut short

  /** A request ends with bytes on its wire: only then is `cutShort` set. */
  ghost predicate CutsShort(s: Sys) {
    s.body.open && s.body.reading.None? && LastWire(s.net) != []
  }

  /** The lost request's bytes vanish and the server reads what it holds. */
  function Lost(s: Sys): Sys {
    ReadAll(OnLose(OnRequestEnds(s), LastRequest(s)))
  }

  lemma LostLeads(s: Sys)
    ensures Leads(s, Lost(s))
  {
    var t := OnRequestEnds(s);
    assert Leads(s, t) by {
      LeadsNowhere(s);
      LeadsOn(s, s, RequestEnds);
    }
    var u := OnLose(t, LastRequest(s));
    assert Leads(s, u) by { LeadsOn(s, t, Lose(LastRequest(s))); }
    ReadAllLeads(s, u);
  }

  lemma LostLoses(s: Sys)
    requires Inv(s) && s.running && !s.log.cutShort && CutsShort(s)
    ensures var t := Lost(s);
      && Quiet(t) && t.log.queued == s.log.queued
      && s.log.handed == t.net.got + LastWire(s.net)
      && t.body.readBuffer == s.body.readBuffer && t.push == s.push && t.sendCh == s.sendCh
  {
    assert s.net.recvBuffer[..|s.net.recvBuffer|] == s.net.recvBuffer;
  }

  /** A hole in the stream shows as soon as a different byte is written. */
  lemma HoleShows(got: seq<byte>, lost: seq<byte>, rest: seq<byte>, y: byte)
    requires lost != []
    requires y != (got + lost + rest)[|got + rest|]
    ensures !(got + rest + [y] <= got + lost + rest + [y])
  {
    assert (got + rest + [y])[|got + rest|] == y;
    assert (got + lost + rest + [y])[|got + rest|] == (got + lost + rest)[|got + rest|];
  }

  /** One more byte is written once push has everything else in hand. */
  function WithOneMore(s: Sys, y: byte): Sys {
    Finish(OnWrite(Collect(s), [y]))
  }

  lemma WithOneMoreLeads(s0: Sys, s: Sys, y: byte)
    requires Leads(s0, s)
    ensures Leads(s0, WithOneMore(s, y))
  {
    CollectLeads(s0, s);
    LeadsOn(s0, Collect(s), Write([y]));
    FinishLeads(s0, OnWrite(Collect(s), [y]));
  }

  lemma WithOneMoreDelivers(s: Sys, y: byte)
    requires Quiet(s) && s.push.pc != Stopped && (s.push.pc == Wait ==> s.push.frs == []) && !Wedged(s)
    ensures var t := WithOneMore(s, y);
      && t.net.got == s.net.got + (s.body.readBuffer + Data(Pending(s))) + [y]
      && Data(t.log.queued) == Data(s.log.queued) + [y]
  {
    CollectCollects(s);
    var u := Collect(s);
    var f := Frame(|u.log.writes|, [y]);
    var w := OnWrite(u, [y]);
    assert w.sendCh == [f] && w.log.queued == s.log.queued + [f];
    FinishDelivers(w);
    assert Data([f]) == [y] by { assert DataTo([f], 0) == [] && DataTo([f], 1) == [] + [y]; }
    DataAppend(u.push.frs, [f]);
    DataAppend(s.log.queued, [f]);
    Reassociate(u.net.got, Data(u.push.frs), [y]);
  }

  lemma OneMoreShowsTheHole(s: Sys, lost: seq<byte>) returns (y: byte)
    requires Quiet(s) && s.push.pc != Stopped && (s.push.pc == Wait ==> s.push.frs == []) && !Wedged(s)
    requires lost != [] && Data(s.log.queued) == s.net.got + lost + (s.body.readBuffer + Data(Pending(s)))
    ensures var t := WithOneMore(s, y); !(t.net.got <= Data(t.log.queued))
  {
    var rest := s.body.readBuffer + Data(Pending(s));
    var all := s.net.got + lost + rest;
    y := if all[|s.net.got + rest|] == 0 then 1 else 0;
    WithOneMoreDelivers(s, y);
    HoleShows(s.net.got, lost, rest, y);
  }

  lemma LostLeavesAHole(s: Sys)
    requires Leads(INITIAL, s) && s.running && s.push.pc != Stopped && !s.log.cutShort && CutsShort(s)
    ensures var l := Lost(s);
      && Quiet(l) && l.push == s.push && (l.push.pc == Wait ==> l.push.frs == [])
      && Data(l.log.queued) == l.net.got + LastWire(s.net) + (l.body.readBuffer + Data(Pending(l)))
  {
    ReachableInv(s);
    LostLoses(s);
    QueuedData(s);
  }

  /** If `client.Do` returns while bytes are on the request's wire, some continuation makes
      the server read a stream that is not a prefix of what was queued, as long as push
      does not hold a batch without bytes; HttpUploadHoles says what happens then. */
  lemma CutShortBreaksTheStream(s: Sys)
    requires Leads(INITIAL, s) && s.running && s.push.pc != Stopped && !s.log.cutShort && CutsShort(s)
    requires !Wedged(s)
    ensures OnRequestEnds(s).log.cutShort
    ensures exists t :: Leads(s, t) && !(t.net.got <= Data(t.log.queued))
  {
    LostLeavesAHole(s);
    assert OnRequestEnds(s).log.cutShort;
    LostLeads(s);
    HoleBreaksTheStream(s, Lost(s), LastWire(s.net));
  }

  lemma HoleBreaksTheStream(s: Sys, l: Sys, lost: seq<byte>)
    requires Leads(s, l) && !Wedged(l) && lost != []
    requires Quiet(l) && l.push.pc != Stopped && (l.push.pc == Wait ==> l.push.frs == [])
    requires Data(l.log.queued) == l.net.got + lost + (l.body.readBuffer + Data(Pending(l)))
    ensures exists t :: Leads(s, t) && !(t.net.got <= Data(t.log.queued))
  {
    var y := OneMoreShowsTheHole(l, lost);
    WithOneMoreLeads(s, l, y);
  }

  /** Any nonempty Write brings a fresh connection to where that can happen. */
  lemma ARequestCanBeCutShort(data: seq<byte>)
    requires data != []
    ensures exists s :: Leads(INITIAL, s) && s.running && s.push.pc != Stopped && !s.log.cutShort && CutsShort(s)
                     && !Wedged(s) && s.log.writes == [data]
  {
    OnTheWireLeads(data);
    OnTheWireIs(data);
  }

  /** It is offered to a waiting Read of a request. */
  function OnTheWire(data: seq<byte>): Sys {
    OnOfferAccepted(OnTransportRead(OnStartRequest(InHand(data)), |data|))
  }

  lemma HandoverLeads(s0: Sys, s: Sys, n: nat)
    requires Leads(s0, s)
    ensures Leads(s0, OnOfferAccepted(OnTransportRead(OnStartRequest(s), n)))
  {
    var t := OnStartRequest(s);
    assert Leads(s0, t) by { LeadsOn(s0, s, StartRequest); }
    var u := OnTransportRead(t, n);
    assert Leads(s0, u) by { LeadsOn(s0, t, TransportRead(n)); }
    LeadsOn(s0, u, OfferAccepted);
  }

  lemma OnTheWireLeads(data: seq<byte>)
    ensures Leads(INITIAL, OnTheWire(data))
  {
    InHandLeads(data);
    HandoverLeads(INITIAL, InHand(data), |data|);
  }

  lemma OnTheWireIs(data: seq<byte>)
    requires data != []
    ensures var s := OnTheWire(data);
      s.running && s.push.pc == Notify && !s.log.cutShort && CutsShort(s) && s.log.writes == [data]
  {
    var frs := [Frame(0, data)];
    assert Data(frs) == data by { assert DataTo(frs, 0) == [] && DataTo(frs, 1) == [] + data; }
    var t := InHand(data);
    assert t.push == Pusher(Offer, frs, Nil);
    assert OnStartRequest(t).net.wire == [[]];
    assert [] + data == data && data[..|data|] == data;
  }

  // ---------------------------------------------------------------- a Write that is queued again

  /** Nothing that was written is missing from the queue. */
  ghost predicate LongEnough(s: Sys) {
    |Data(s.log.queued)| >= |Flat(s.log.writes)|
  }

  lemma LongerByOne(s: Sys, f: Frame)
    ensures |Data(s.log.queued + [f])| == |Data(s.log.queued)| + |f.data|
    ensures |Flat(s.log.writes + [f.data])| == |Flat(s.log.writes)| + |f.data|
  {
    DataAppend(s.log.queued, [f]);
    assert Data([f]) == f.data by { assert DataTo([f], 0) == [] && DataTo([f], 1) == [] + f.data; }
    FlatSnoc(s.log.writes, f.data);
  }

  lemma StepLongEnough(s: Sys, a: Action)
    requires LongEnough(s)
    ensures LongEnough(Step(s, a))
  {
    match a
    case Write(data) => LongerByOne(s, Frame(|s.log.writes|, data));
    case AckTimer(id) => if id < |s.log.writes| { LongerByOne(s, Frame(id, s.log.writes[id])); }
    case _ => assert Step(s, a).log.queued == s.log.queued && Step(s, a).log.writes == s.log.writes;
  }

  lemma {:induction false} RunLongEnough(actions: seq<Action>)
    ensures LongEnough(Run(INITIAL, actions))
  {
    if actions != [] {
      RunLongEnough(actions[..|actions| - 1]);
      StepLongEnough(Run(INITIAL, actions[..|actions| - 1]), actions[|actions| - 1]);
    }
  }

  /** The other half of UploadIsPrefix for retries: whenever the timer of a nonempty
      Write fires and its frame is queued again, on a connection that delivers, some
      continuation makes the server read more than was ever written. */
  lemma RetryBreaksTheStream(s: Sys, id: nat)
    requires Leads(INITIAL, s) && s.push.pc != Stopped && !s.log.cutShort && !Wedged(s)
    requires OnAckTimer(s, id) != s && s.log.writes[id] != []
    ensures OnAckTimer(s, id).log.retried
    ensures exists t :: Leads(s, t) && t.log.writes == s.log.writes && !(t.net.got <= Flat(t.log.writes))
  {
    var u := OnAckTimer(s, id);
    var actions :| Run(INITIAL, actions) == s;
    RunLongEnough(actions);
    LongerByOne(s, Frame(id, s.log.writes[id]));
    ReachableInv(s);
    assert Inv(u) by { AckTimerKeepsInv(s, id); }
    ArrivalReaches(u);
    var t := Deliver(Arrival(u));
    LeadsNowhere(s);
    LeadsOn(s, s, AckTimer(id));
    LeadsThrough(s, u, t);
  }

  lemma LeadsThrough(s: Sys, t: Sys, u: Sys)
    requires Leads(s, t) && Leads(t, u)
    ensures Leads(s, u)
  {
    var actions :| Run(t, actions) == u;
    RunLeads(s, t, actions);
  }

  lemma {:induction false} RunLeads(s: Sys, t: Sys, actions: seq<Action>)
    requires Leads(s, t)
    ensures Leads(s, Run(t, actions))
  {
    if actions != [] {
      RunLeads(s, t, actions[..|actions| - 1]);
      LeadsOn(s, Run(t, actions[..|actions| - 1]), actions[|actions| - 1]);
    }
  }

  /** And so it can happen to the first Write of a fresh connection. */
  lemma RetryDuplicates(data: seq<byte>)
    requires data != []
    ensures exists t :: Leads(INITIAL, t) && t.log.writes == [data] && !(t.net.got <= data)
  {
    var s := OnWrite(INITIAL, data);
    assert Leads(INITIAL, s) by {
      LeadsNowhere(INITIAL);
      LeadsOn(INITIAL, INITIAL, Write(data));
    }
    assert s.log.writes == [data] && OnAckTimer(s, 0).log.retried && !s.log.retried;
    RetryBreaksTheStream(s, 0);
    var t :| Leads(s, t) && t.log.writes == s.log.writes && !(t.net.got <= Flat(t.log.writes));
    assert Leads(INITIAL, t) by { LeadsThrough(INITIAL, s, t); }
    assert Flat([data]) == data by { assert FlatTo([data], 0) == [] && FlatTo([data], 1) == [] + data; }
  }
}
