/** The upload half of the HTTP duplex tunnel in chunked mode: client writers,
    the `push` and `chunkPush` goroutines, the transport reading a request body,
    and the server collecting push requests.  Every action is one atomic step;
    an action whose guard does not hold leaves the state as it is, so a run is
    any sequence of actions whatever. */
module HttpUpload {
  import opened Basics

  /** sendReady; id names the Write call the frame belongs to. */
  datatype Frame = Frame(id: nat, data: seq<byte>)

  datatype PushErr = Nil | ErrTimeout | ErrConnReset

  /** Where `push` stands: the loop test, draining sendCh, the blocking select,
      the offer under writeLock, notifyDone after an accepted offer, returned. */
  datatype PushPc = Top | Drain | Wait | Offer | Notify | Stopped

  datatype Pusher = Pusher(pc: PushPc, frs: seq<Frame>, err: PushErr)

  /** The current chunkedBody and the request that carries it. */
  datatype Body = Body(
    readBuffer: seq<byte>,
    reading: Option<nat>,     // a Read of this size is blocked on chunkChannel
    eof: bool,                // a Read has returned io.EOF
    open: bool)               // client.Do is in progress

  /** The way to the server, and httpDuplexServConn as far as it receives. */
  datatype Net = Net(
    wire: seq<seq<byte>>,     // per request: handed to the transport, not yet read by the server
    recvBuffer: seq<byte>,
    got: seq<byte>)           // everything the server's Read has returned

  datatype Log = Log(
    writes: seq<seq<byte>>,   // data of every Write, by id
    queued: seq<Frame>,       // everything ever sent to sendCh, in order
    batches: seq<seq<Frame>>, // the batches that offer accepted, in order
    abandoned: seq<Frame>,    // taken by `push` but in no accepted batch when it returned
    handed: seq<byte>,        // everything chunkedBody.Read has returned
    dropped: seq<byte>,       // lost with a request
    returned: set<nat>,       // Writes that have returned what they found in ready.Err
    retried: bool,            // a Write enqueued its frame again after 5 seconds
    cutShort: bool)           // a request ended with bytes still on its wire

  datatype Sys = Sys(
    running: bool,
    sendCh: seq<Frame>,
    push: Pusher,
    body: Body,
    net: Net,
    acks: map<nat, PushErr>,  // what each Write finds in its ready.Err
    log: Log)

  datatype Action =
    | Write(data: seq<byte>)
    | AckTimer(id: nat)
    | WriteReturns(id: nat)
    | PushTop
    | PushTake
    | PushDrained
    | PushClosed
    | PushWaitTimeout
    | OfferAccepted
    | OfferTimeout
    | NotifyDone
    | TransportRead(n: nat)
    | BodyClose
    | StartRequest
    | RequestEnds
    | ServerRecv(request: nat, n: nat)
    | Lose(request: nat)
    | ServerRead(n: nat)
    | Close

  const SENDCH_CAPACITY := 10

  /** The data of the first k frames, end to end. */
  function DataTo(frames: seq<Frame>, k: nat): seq<byte>
    requires k <= |frames|
  {
    if k == 0 then [] else DataTo(frames, k - 1) + frames[k - 1].data
  }

  function Data(frames: seq<Frame>): seq<byte> {
    DataTo(frames, |frames|)
  }

  /** AsyncSendErr on the first k frames' buffered channels: a value already there stays. */
  function AckedTo(acks: map<nat, PushErr>, frames: seq<Frame>, k: nat, err: PushErr): map<nat, PushErr>
    requires k <= |frames|
  {
    if k == 0 then acks
    else
      var before, f := AckedTo(acks, frames, k - 1, err), frames[k - 1];
      if f.id in before then before else before[f.id := err]
  }

  function Acked(acks: map<nat, PushErr>, frames: seq<Frame>, err: PushErr): map<nat, PushErr> {
    AckedTo(acks, frames, |frames|, err)
  }

  function Enqueue(s: Sys, f: Frame): Sys {
    s.(sendCh := s.sendCh + [f], log := s.log.(queued := s.log.queued + [f]))
  }

  function OnWrite(s: Sys, data: seq<byte>): Sys {
    if |s.sendCh| < SENDCH_CAPACITY then
      Enqueue(s.(log := s.log.(writes := s.log.writes + [data])), Frame(|s.log.writes|, data))
    else s
  }

  /** The timer can fire although the acknowledgment is there as well. */
  function OnAckTimer(s: Sys, id: nat): Sys {
    if s.running && id < |s.log.writes| && id !in s.log.returned && |s.sendCh| < SENDCH_CAPACITY then
      Enqueue(s.(log := s.log.(retried := true)), Frame(id, s.log.writes[id]))
    else s
  }

  function OnWriteReturns(s: Sys, id: nat): Sys {
    if id in s.acks then s.(log := s.log.(returned := s.log.returned + {id})) else s
  }

  function OnPushTop(s: Sys): Sys {
    if s.push.pc != Top then s
    else if s.running then s.(push := s.push.(pc := if s.push.frs == [] then Drain else Offer))
    else s.(acks := Acked(s.acks, s.push.frs, s.push.err),
            log := s.log.(abandoned := s.push.frs),
            push := s.push.(frs := [], pc := Stopped))
  }

  function OnPushTake(s: Sys): Sys {
    if s.sendCh != [] && s.push.pc in {Drain, Wait} then
      s.(sendCh := s.sendCh[1..],
         push := Pusher(if s.push.pc == Wait then Offer else Drain, s.push.frs + [s.sendCh[0]], Nil))
    else s
  }

  function OnPushDrained(s: Sys): Sys {
    if s.push.pc == Drain && s.sendCh == [] then
      s.(push := s.push.(pc := if s.push.frs == [] then Wait else Offer, err := Nil))
    else s
  }

  function OnPushClosed(s: Sys): Sys {
    if s.push.pc == Wait && !s.running then s.(push := s.push.(err := ErrConnReset, pc := Stopped)) else s
  }

  function OnPushWaitTimeout(s: Sys): Sys {
    if s.push.pc == Wait then s.(push := s.push.(err := Nil, pc := Top)) else s
  }

  /** The first k bytes of a body's buffer leave for the newest request. */
  function Hand(s: Sys, buffer: seq<byte>, n: nat): Sys
    requires s.net.wire != []
  {
    var k, last := Min(n, |buffer|), |s.net.wire| - 1;
    s.(body := s.body.(readBuffer := buffer[k..], reading := None),
       net := s.net.(wire := s.net.wire[last := s.net.wire[last] + buffer[..k]]),
       log := s.log.(handed := s.log.handed + buffer[..k]))
  }

  /** offer meets a Read that is blocked on the channel; that Read then returns. */
  function OnOfferAccepted(s: Sys): Sys {
    if s.push.pc == Offer && Data(s.push.frs) != [] && s.body.reading.Some? && s.net.wire != [] then
      Hand(s.(push := s.push.(pc := Notify, err := Nil),
              log := s.log.(batches := s.log.batches + [s.push.frs])),
           s.body.readBuffer + Data(s.push.frs), s.body.reading.value)
    else s
  }

  /** Back to the loop test: after 100ms, or at once when the frames hold no byte. */
  function OnOfferTimeout(s: Sys): Sys {
    if s.push.pc != Offer then s
    else s.(push := s.push.(pc := Top, err := if Data(s.push.frs) == [] then s.push.err else ErrTimeout))
  }

  function OnNotifyDone(s: Sys): Sys {
    if s.push.pc == Notify then
      s.(acks := Acked(s.acks, s.push.frs, s.push.err), push := s.push.(frs := [], pc := Top))
    else s
  }

  function OnTransportRead(s: Sys, n: nat): Sys {
    if !s.body.open || s.body.eof || s.body.reading.Some? || n == 0 || s.net.wire == [] then s
    else if s.body.readBuffer == [] then s.(body := s.body.(reading := Some(n)))
    else Hand(s, s.body.readBuffer, n)
  }

  /** chunkedBody.Close: nothing happens unless a Read is waiting. */
  function OnBodyClose(s: Sys): Sys {
    if s.body.reading.Some? then s.(body := s.body.(reading := None, eof := true)) else s
  }

  function OnStartRequest(s: Sys): Sys {
    if s.running && !s.body.open then
      s.(body := s.body.(open := true), net := s.net.(wire := s.net.wire + [[]]))
    else s
  }

  /** client.Do returns and newChunkPushBody runs: a new channel, the old read
      buffer.  The transport is assumed to be out of the old body's Read. */
  function OnRequestEnds(s: Sys): Sys {
    if s.body.open && s.body.reading.None? && s.net.wire != [] then
      s.(body := Body(s.body.readBuffer, None, false, false),
         log := s.log.(cutShort := s.log.cutShort || s.net.wire[|s.net.wire| - 1] != []))
    else s
  }

  function OnServerRecv(s: Sys, i: nat, n: nat): Sys {
    if i < |s.net.wire| then
      var k := Min(n, |s.net.wire[i]|);
      s.(net := s.net.(wire := s.net.wire[i := s.net.wire[i][k..]],
                       recvBuffer := s.net.recvBuffer + s.net.wire[i][..k]))
    else s
  }

  /** What a finished request left on its wire may never reach the server. */
  function OnLose(s: Sys, i: nat): Sys {
    if i < |s.net.wire| && !(s.body.open && i == |s.net.wire| - 1) then
      s.(net := s.net.(wire := s.net.wire[i := []]),
         log := s.log.(dropped := s.log.dropped + s.net.wire[i]))
    else s
  }

  function OnServerRead(s: Sys, n: nat): Sys {
    var k := Min(n, |s.net.recvBuffer|);
    s.(net := s.net.(recvBuffer := s.net.recvBuffer[k..], got := s.net.got + s.net.recvBuffer[..k]))
  }

  function OnClose(s: Sys): Sys {
    if s.running then OnBodyClose(s).(running := false) else s
  }

  function Step(s: Sys, a: Action): Sys {
    match a
    case Write(data) => OnWrite(s, data)
    case AckTimer(id) => OnAckTimer(s, id)
    case WriteReturns(id) => OnWriteReturns(s, id)
    case PushTop => OnPushTop(s)
    case PushTake => OnPushTake(s)
    case PushDrained => OnPushDrained(s)
    case PushClosed => OnPushClosed(s)
    case PushWaitTimeout => OnPushWaitTimeout(s)
    case OfferAccepted => OnOfferAccepted(s)
    case OfferTimeout => OnOfferTimeout(s)
    case NotifyDone => OnNotifyDone(s)
    case TransportRead(n) => OnTransportRead(s, n)
    case BodyClose => OnBodyClose(s)
    case StartRequest => OnStartRequest(s)
    case RequestEnds => OnRequestEnds(s)
    case ServerRecv(i, n) => OnServerRecv(s, i, n)
    case Lose(i) => OnLose(s, i)
    case ServerRead(n) => OnServerRead(s, n)
    case Close => OnClose(s)
  }

  function Run(s: Sys, actions: seq<Action>): Sys {
    if actions == [] then s else Step(Run(s, actions[..|actions| - 1]), actions[|actions| - 1])
  }

  /** After a successful testChunkPush and init. */
  const INITIAL := Sys(true, [], Pusher(Top, [], Nil), Body([], None, false, false), Net([], [], []),
                       map[], Log([], [], [], [], [], [], {}, false, false))

  // ---------------------------------------------------------------- invariants

  function Unsent(p: Pusher): seq<Frame> {
    if p.pc == Notify then [] else p.frs
  }

  /** Every frame taken from a writer is in exactly one place, in order. */
  ghost predicate QueueInv(s: Sys) {
    var log, p := s.log, s.push;
    && log.queued == Flat(log.batches) + log.abandoned + Unsent(p) + s.sendCh
    && (p.pc != Stopped ==> log.abandoned == [])
    && (p.pc in {Stopped, Wait} ==> p.frs == [])
    && (p.pc == Notify ==> log.batches != [] && log.batches[|log.batches| - 1] == p.frs && p.err == Nil)
  }

  ghost predicate FramesInv(s: Sys) {
    && (forall f <- s.log.queued :: f.id < |s.log.writes| && f.data == s.log.writes[f.id])
    && (!s.log.retried ==>
          && |s.log.queued| == |s.log.writes|
          && forall i :: 0 <= i < |s.log.queued| ==> s.log.queued[i].id == i)
  }

  ghost predicate BodyInv(s: Sys) {
    && s.log.handed + s.body.readBuffer == Data(Flat(s.log.batches))
    && (s.body.reading.Some? ==> s.body.open && s.body.readBuffer == [])
    && (s.body.open ==> s.net.wire != [])
  }

  /** The Write named id has had all its bytes, if any, put into an accepted batch. */
  ghost predicate Delivered(log: Log, id: nat) {
    id < |log.writes| && (log.writes[id] == [] || Frame(id, log.writes[id]) in Flat(log.batches))
  }

  ghost predicate AckInv(s: Sys) {
    && (s.push.pc == Top && s.push.err == Nil ==> Data(s.push.frs) == [])
    && forall id <- s.acks :: s.acks[id] == Nil ==> Delivered(s.log, id)
  }

  function LastWire(net: Net): seq<byte> {
    if net.wire == [] then [] else net.wire[|net.wire| - 1]
  }

  /** While no request was cut short only the newest one has bytes under way. */
  ghost predicate WireInv(s: Sys) {
    !s.log.cutShort ==>
      && s.net.got + s.net.recvBuffer + LastWire(s.net) == s.log.handed
      && (forall i :: 0 <= i < |s.net.wire| && (i < |s.net.wire| - 1 || !s.body.open) ==> s.net.wire[i] == [])
  }

  ghost predicate Inv(s: Sys) {
    QueueInv(s) && FramesInv(s) && BodyInv(s) && AckInv(s) && WireInv(s)
  }

  lemma {:induction false} DataToSame(a: seq<Frame>, b: seq<Frame>, k: nat)
    requires k <= |a| && k <= |b| && forall i :: 0 <= i < k ==> a[i].data == b[i].data
    ensures DataTo(a, k) == DataTo(b, k)
  {
    if k > 0 { DataToSame(a, b, k - 1); }
  }

  lemma {:induction false} DataAppendTo(a: seq<Frame>, b: seq<Frame>, k: nat)
    requires k <= |b|
    ensures DataTo(a + b, |a| + k) == Data(a) + DataTo(b, k)
  {
    if k == 0 {
      DataToSame(a, a + b, |a|);
    } else {
      DataAppendTo(a, b, k - 1);
      assert (a + b)[|a| + k - 1] == b[k - 1];
    }
  }

  lemma DataAppend(a: seq<Frame>, b: seq<Frame>)
    ensures Data(a + b) == Data(a) + Data(b)
  {
    DataAppendTo(a, b, |b|);
  }

  lemma {:induction false} DataEmptyTo(frames: seq<Frame>, k: nat)
    requires k <= |frames| && DataTo(frames, k) == []
    ensures forall i :: 0 <= i < k ==> frames[i].data == []
  {
    if k > 0 { DataEmptyTo(frames, k - 1); }
  }

  lemma DataEmpty(frames: seq<Frame>)
    requires Data(frames) == []
    ensures forall f <- frames :: f.data == []
  {
    DataEmptyTo(frames, |frames|);
  }

  lemma EnqueueKeepsInv(s: Sys, f: Frame)
    requires Inv(s)
    ensures QueueInv(Enqueue(s, f)) && BodyInv(Enqueue(s, f)) && AckInv(Enqueue(s, f)) && WireInv(Enqueue(s, f))
  {
    var head := Flat(s.log.batches) + s.log.abandoned + Unsent(s.push);
    assert head + s.sendCh + [f] == head + (s.sendCh + [f]);
  }

  lemma WriteKeepsInv(s: Sys, data: seq<byte>)
    requires Inv(s)
    ensures Inv(OnWrite(s, data))
  {
    var s1, f := s.(log := s.log.(writes := s.log.writes + [data])), Frame(|s.log.writes|, data);
    var t := Enqueue(s1, f);
    assert QueueInv(t) && FramesInv(t) by {
      var head := Flat(s.log.batches) + s.log.abandoned + Unsent(s.push);
      assert head + s.sendCh + [f] == head + (s.sendCh + [f]);
    }
    assert AckInv(t) by { assert forall id <- s.acks :: Delivered(s.log, id) ==> Delivered(t.log, id); }
    assert BodyInv(t) && WireInv(t);
  }

  lemma AckTimerKeepsInv(s: Sys, id: nat)
    requires Inv(s)
    ensures Inv(OnAckTimer(s, id))
  {
    if id < |s.log.writes| {
      var s1, f := s.(log := s.log.(retried := true)), Frame(id, s.log.writes[id]);
      assert forall i <- s.acks :: Delivered(s.log, i) ==> Delivered(s1.log, i);
      EnqueueKeepsInv(s1, f);
      assert forall i <- s.acks :: Delivered(s1.log, i) ==> Delivered(Enqueue(s1, f).log, i);
    }
  }

  lemma {:induction false} AckedValue(acks: map<nat, PushErr>, frames: seq<Frame>, k: nat, err: PushErr, id: nat)
    requires k <= |frames| && id in AckedTo(acks, frames, k, err)
    ensures var got := AckedTo(acks, frames, k, err)[id];
      (id in acks && got == acks[id]) || (got == err && exists f :: f in frames && f.id == id)
  {
    if k > 0 {
      if id in AckedTo(acks, frames, k - 1, err) {
        AckedValue(acks, frames, k - 1, err, id);
      } else {
        assert frames[k - 1] in frames;
      }
    }
  }

  /** notifyDone tells success only for frames whose bytes are in a batch. */
  lemma AckedKeepsInv(s: Sys, log: Log)
    requires FramesInv(s) && AckInv(s)
    requires log.writes == s.log.writes && log.batches == s.log.batches
    requires forall f <- s.push.frs :: f in s.log.queued
    requires s.push.err == Nil ==> forall f <- s.push.frs :: f.data == [] || f in Flat(log.batches)
    ensures forall id <- Acked(s.acks, s.push.frs, s.push.err) ::
              Acked(s.acks, s.push.frs, s.push.err)[id] == Nil ==> Delivered(log, id)
  {
    var acks := Acked(s.acks, s.push.frs, s.push.err);
    forall id <- acks | acks[id] == Nil ensures Delivered(log, id) {
      AckedValue(s.acks, s.push.frs, |s.push.frs|, s.push.err, id);
      if id in s.acks && s.acks[id] == Nil {
        assert Delivered(s.log, id);
      } else {
        var f :| f in s.push.frs && f.id == id;
      }
    }
  }

  lemma PushTopKeepsInv(s: Sys)
    requires Inv(s)
    ensures Inv(OnPushTop(s))
  {
    if s.push.pc == Top && !s.running {
      var frs, t := s.push.frs, OnPushTop(s);
      var head := Flat(s.log.batches);
      assert head + [] + frs == head + frs + [];
      if s.push.err == Nil { DataEmpty(frs); }
      assert forall f <- frs :: f in s.log.queued;
      AckedKeepsInv(s, t.log);
      assert QueueInv(t) && FramesInv(t);
    }
  }

  lemma PushTakeKeepsInv(s: Sys)
    requires Inv(s)
    ensures Inv(OnPushTake(s))
  {
    if s.sendCh != [] && s.push.pc in {Drain, Wait} {
      var f := s.sendCh[0];
      var head := Flat(s.log.batches) + s.log.abandoned;
      assert head + s.push.frs + s.sendCh == head + (s.push.frs + [f]) + s.sendCh[1..];
    }
  }

  lemma WriteReturnsKeepsInv(s: Sys, id: nat)
    requires Inv(s)
    ensures Inv(OnWriteReturns(s, id))
  {
    var t := OnWriteReturns(s, id);
    assert forall i: nat :: Delivered(s.log, i) ==> Delivered(t.log, i);
  }

  /** The state between the handover of a batch and the end of the Read that takes it. */
  function Accepted(s: Sys): Sys {
    s.(push := s.push.(pc := Notify, err := Nil), log := s.log.(batches := s.log.batches + [s.push.frs]))
  }

  lemma AcceptedKeepsQueue(s: Sys)
    requires QueueInv(s) && s.push.pc == Offer
    ensures QueueInv(Accepted(s))
    ensures Flat(Accepted(s).log.batches) == Flat(s.log.batches) + s.push.frs
  {
    var head := Flat(s.log.batches);
    FlatSnoc(s.log.batches, s.push.frs);
    assert head + [] + s.push.frs == head + s.push.frs + [] + [];
  }

  lemma AcceptedKeepsInv(s: Sys)
    requires Inv(s) && s.push.pc == Offer
    ensures var t := Accepted(s);
      && QueueInv(t) && FramesInv(t) && AckInv(t) && WireInv(t)
      && Data(Flat(t.log.batches)) == s.log.handed + (s.body.readBuffer + Data(s.push.frs))
  {
    AcceptedKeepsQueue(s);
    DataAppend(Flat(s.log.batches), s.push.frs);
    assert forall id: nat :: Delivered(s.log, id) ==> Delivered(Accepted(s).log, id);
    assert s.log.handed + s.body.readBuffer + Data(s.push.frs) == s.log.handed + (s.body.readBuffer + Data(s.push.frs));
  }

  lemma OfferAcceptedKeepsInv(s: Sys)
    requires Inv(s)
    ensures Inv(OnOfferAccepted(s))
  {
    if s.push.pc == Offer && Data(s.push.frs) != [] && s.body.reading.Some? && s.net.wire != [] {
      AcceptedKeepsInv(s);
      HandSplits(Accepted(s), s.body.readBuffer + Data(s.push.frs), s.body.reading.value);
      assert forall id: nat :: Delivered(Accepted(s).log, id) ==> Delivered(OnOfferAccepted(s).log, id);
    }
  }

  lemma HandSplits(s: Sys, buffer: seq<byte>, n: nat)
    requires s.net.wire != []
    ensures var t := Hand(s, buffer, n);
      && t.log.handed + t.body.readBuffer == s.log.handed + buffer
      && (WireInv(s) && s.body.open ==> WireInv(t))
  {
    var k := Min(n, |buffer|);
    assert buffer == buffer[..k] + buffer[k..];
  }

  lemma NotifyDoneKeepsInv(s: Sys)
    requires Inv(s)
    ensures Inv(OnNotifyDone(s))
  {
    if s.push.pc == Notify {
      var b, t := s.log.batches, OnNotifyDone(s);
      assert Flat(b) == FlatTo(b, |b| - 1) + s.push.frs;
      assert forall f <- s.push.frs :: f in Flat(b) && f in s.log.queued;
      AckedKeepsInv(s, s.log);
      assert QueueInv(t) && FramesInv(t);
    }
  }

  lemma TransportReadKeepsInv(s: Sys, n: nat)
    requires Inv(s)
    ensures Inv(OnTransportRead(s, n))
  {
    if s.net.wire != [] {
      HandSplits(s, s.body.readBuffer, n);
      assert forall id: nat :: Delivered(s.log, id) ==> Delivered(OnTransportRead(s, n).log, id);
    }
  }

  lemma RequestEndsKeepsInv(s: Sys)
    requires Inv(s)
    ensures Inv(OnRequestEnds(s))
  {
    var t := OnRequestEnds(s);
    assert QueueInv(t) && FramesInv(t) && BodyInv(t);
    assert AckInv(t) by { assert forall id: nat :: Delivered(s.log, id) ==> Delivered(t.log, id); }
    if s.body.open && s.body.reading.None? && s.net.wire != [] { EndedWires(s); }
  }

  lemma EndedWires(s: Sys)
    requires WireInv(s) && s.body.open && s.body.reading.None? && s.net.wire != []
    ensures WireInv(OnRequestEnds(s))
  {
    var t := OnRequestEnds(s);
    if !t.log.cutShort {
      assert s.net.wire[|s.net.wire| - 1] == [] && t.net == s.net;
    }
  }

  /** An action of the network alone. */
  lemma NetworkKeepsInv(s: Sys, net: Net)
    requires Inv(s) && WireInv(s.(net := net)) && (s.net.wire != [] ==> net.wire != [])
    ensures Inv(s.(net := net))
  {
    var t := s.(net := net);
    assert QueueInv(t) && FramesInv(t) && BodyInv(t) && AckInv(t);
  }

  lemma MovePrefix(a: seq<byte>, b: seq<byte>, c: seq<byte>, k: nat)
    requires k <= |c|
    ensures a + b + c == a + (b + c[..k]) + c[k..]
  {
    assert c == c[..k] + c[k..];
  }

  lemma NothingToRecv(s: Sys, i: nat, n: nat)
    requires i < |s.net.wire| && s.net.wire[i] == []
    ensures OnServerRecv(s, i, n) == s
  {
    var w := s.net.wire[i];
    assert Min(n, |w|) == 0 && w[..0] == [] && w[0..] == [];
    assert s.net.recvBuffer + [] == s.net.recvBuffer;
    assert s.net.wire[i := []] == s.net.wire;
  }

  lemma ServerRecvKeepsWire(s: Sys, i: nat, n: nat)
    requires WireInv(s) && i < |s.net.wire|
    ensures WireInv(OnServerRecv(s, i, n))
  {
    var w, k, last := s.net.wire[i], Min(n, |s.net.wire[i]|), |s.net.wire| - 1;
    if w == [] {
      NothingToRecv(s, i, n);
    } else if !s.log.cutShort {
      var t := OnServerRecv(s, i, n);
      assert i == last && s.body.open && s.body == t.body;
      assert t.net.got + t.net.recvBuffer + LastWire(t.net) == s.log.handed by {
        MovePrefix(s.net.got, s.net.recvBuffer, w, k);
      }
      assert forall j :: 0 <= j < last ==> t.net.wire[j] == s.net.wire[j];
    }
  }

  lemma ServerRecvKeepsInv(s: Sys, i: nat, n: nat)
    requires Inv(s)
    ensures Inv(OnServerRecv(s, i, n))
  {
    if i < |s.net.wire| {
      var t := OnServerRecv(s, i, n);
      assert WireInv(t) by { ServerRecvKeepsWire(s, i, n); }
      NetworkKeepsInv(s, t.net);
    }
  }

  lemma ServerReadKeepsInv(s: Sys, n: nat)
    requires Inv(s)
    ensures Inv(OnServerRead(s, n))
  {
    var t, k := OnServerRead(s, n), Min(n, |s.net.recvBuffer|);
    assert s.net.got + s.net.recvBuffer == t.net.got + t.net.recvBuffer by {
      assert s.net.recvBuffer == s.net.recvBuffer[..k] + s.net.recvBuffer[k..];
    }
    assert WireInv(t);
    NetworkKeepsInv(s, t.net);
  }

  lemma LoseKeepsInv(s: Sys, i: nat)
    requires Inv(s)
    ensures Inv(OnLose(s, i))
  {
    var t := OnLose(s, i);
    assert forall id: nat :: Delivered(s.log, id) ==> Delivered(t.log, id);
    assert WireInv(t);
  }

  /** Where push alone moves on and hands nothing over. */
  lemma PushMovesOn(s: Sys, p: Pusher)
    requires Inv(s) && p.pc != Notify && Unsent(p) == Unsent(s.push)
    requires s.push.pc == Stopped ==> p.pc == Stopped
    requires p.pc in {Stopped, Wait} ==> p.frs == []
    requires p.pc == Top && p.err == Nil ==> Data(p.frs) == []
    ensures Inv(s.(push := p))
  {
    var t := s.(push := p);
    assert QueueInv(t);
    assert FramesInv(t) && BodyInv(t) && WireInv(t);
    assert AckInv(t);
  }

  lemma PushStepKeepsInv(s: Sys, a: Action)
    requires Inv(s) && a in {PushDrained, PushClosed, PushWaitTimeout, OfferTimeout}
    ensures Inv(Step(s, a))
  {
    if Step(s, a) != s { PushMovesOn(s, Step(s, a).push); }
  }

  lemma BodyCloseKeepsInv(s: Sys)
    requires Inv(s)
    ensures Inv(OnBodyClose(s)) && Inv(OnClose(s))
  {
    var t := OnBodyClose(s);
    assert QueueInv(t) && FramesInv(t);
    assert AckInv(t);
    assert BodyInv(t) && WireInv(t);
  }

  lemma StartRequestKeepsInv(s: Sys)
    requires Inv(s)
    ensures Inv(OnStartRequest(s))
  {
    if s.running && !s.body.open {
      var t := OnStartRequest(s);
      assert QueueInv(t) && FramesInv(t) && AckInv(t) && BodyInv(t);
      assert WireInv(t) by {
        assert !s.log.cutShort ==> LastWire(s.net) == [];
      }
    }
  }

  lemma StepKeepsInv(s: Sys, a: Action)
    requires Inv(s)
    ensures Inv(Step(s, a))
  {
    match a
    case Write(data) => WriteKeepsInv(s, data);
    case AckTimer(id) => AckTimerKeepsInv(s, id);
    case WriteReturns(id) => WriteReturnsKeepsInv(s, id);
    case PushTop => PushTopKeepsInv(s);
    case PushTake => PushTakeKeepsInv(s);
    case OfferAccepted => OfferAcceptedKeepsInv(s);
    case NotifyDone => NotifyDoneKeepsInv(s);
    case TransportRead(n) => TransportReadKeepsInv(s, n);
    case RequestEnds => RequestEndsKeepsInv(s);
    case ServerRecv(i, n) => ServerRecvKeepsInv(s, i, n);
    case Lose(i) => LoseKeepsInv(s, i);
    case ServerRead(n) => ServerReadKeepsInv(s, n);
    case BodyClose => BodyCloseKeepsInv(s);
    case Close => BodyCloseKeepsInv(s);
    case StartRequest => StartRequestKeepsInv(s);
    case _ => PushStepKeepsInv(s, a);
  }

  /** Some run of the system leads from s to t. */
  ghost predicate Leads(s: Sys, t: Sys) {
    exists actions: seq<Action> :: Run(s, actions) == t
  }

  lemma LeadsNowhere(s: Sys)
    ensures Leads(s, s)
  {
    assert Run(s, []) == s;
  }

  lemma LeadsOn(s: Sys, t: Sys, a: Action)
    requires Leads(s, t)
    ensures Leads(s, Step(t, a))
  {
    var actions :| Run(s, actions) == t;
    assert (actions + [a])[..|actions|] == actions;
    assert Run(s, actions + [a]) == Step(t, a);
  }

  lemma {:induction false} RunKeepsInv(s: Sys, actions: seq<Action>)
    requires Inv(s)
    ensures Inv(Run(s, actions))
  {
    if actions != [] {
      var before := actions[..|actions| - 1];
      RunKeepsInv(s, before);
      StepKeepsInv(Run(s, before), actions[|actions| - 1]);
    }
  }

  lemma ReachableInv(s: Sys)
    requires Leads(INITIAL, s)
    ensures Inv(s)
  {
    var actions :| Run(INITIAL, actions) == s;
    RunKeepsInv(INITIAL, actions);
  }
}
