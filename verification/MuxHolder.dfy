/** muxSessionHolder: sessions that expire are retired, retired sessions are closed
    once they have drained.  Every operation is atomic under sessionMutex. */
module MuxHolder {
  import opened Basics

  /** Sessions are numbered as they pass authentication. */
  datatype Holder = Holder(
    session: Option<nat>,    // muxSession
    retired: set<nat>,       // retiredSessions
    expireTime: Option<int>, // None is Go's zero time
    authed: nat,             // how many sessions have passed authentication
    closes: multiset<nat>)   // every Close the holder has called

  /** What init meets: no session or a failed authentication, or a session with the
      time after which it expires, if the channel has AutoExpire. */
  datatype Dial = Fails | Succeeds(expireAfter: Option<int>)

  datatype OpenResult = Opens | Shutdown | OtherError

  /** The world during one call: the clock, what dialing and opening a stream come to,
      and how many streams each session has when the deferred clean-up looks. */
  datatype World = World(now: int, dial: Dial, open: OpenResult, streams: nat -> int)

  /** What getNewStream returns: a stream on a session, or an error. */
  datatype Stream = On(session: nat) | ErrShutdown | ErrOther

  datatype Op =
    | GetNewStream(w: World)
    | Close
    | DumpStat(w: World)
    | HeartbeatCheck(w: World)
    | HeartbeatInit(w: World)

  /** check */
  function Check(h: Holder, now: int): Holder {
    if h.session.Some? && h.expireTime.Some? && h.expireTime.value < now then
      h.(retired := h.retired + {h.session.value}, session := None)
    else h
  }

  /** init */
  function Init(h: Holder, w: World): Holder {
    if h.session.Some? || w.dial.Fails? then h
    else h.(session := Some(h.authed), authed := h.authed + 1,
            expireTime := if w.dial.expireAfter.Some? then Some(w.now + w.dial.expireAfter.value) else h.expireTime)
  }

  function Drained(h: Holder, streams: nat -> int): set<nat> {
    set id | id in h.retired && streams(id) <= 0
  }

  /** tryCloseRetiredSessions */
  function CloseDrained(h: Holder, streams: nat -> int): Holder {
    h.(retired := h.retired - Drained(h, streams), closes := h.closes + multiset(Drained(h, streams)))
  }

  /** close */
  function CloseCurrent(h: Holder): Holder {
    if h.session.Some? then h.(session := None, closes := h.closes + multiset{h.session.value}) else h
  }

  /** Where getNewStream stands when it opens its stream. */
  function Ready(h: Holder, w: World): Holder {
    Init(Check(h, w.now), w)
  }

  function Opened(h: Holder, w: World): Stream {
    match Ready(h, w).session
    case None => ErrShutdown
    case Some(id) => if w.open.Opens? then On(id) else if w.open.Shutdown? then ErrShutdown else ErrOther
  }

  function AfterGetNewStream(h: Holder, w: World): Holder {
    CloseDrained(Ready(h, w), w.streams)
  }

  function Step(h: Holder, op: Op): Holder {
    match op
    case GetNewStream(w) => AfterGetNewStream(h, w)
    case Close => CloseCurrent(h)
    case DumpStat(w) => CloseDrained(h, w.streams)
    case HeartbeatCheck(w) => Check(h, w.now)
    case HeartbeatInit(w) => Init(h, w)
  }

  function Run(h: Holder, ops: seq<Op>): Holder {
    if ops == [] then h else Step(Run(h, ops[..|ops| - 1]), ops[|ops| - 1])
  }

  const NEW := Holder(None, {}, None, 0, multiset{})

  // ---------------------------------------------------------------- conservation

  /** In how many ways the holder accounts for a session. */
  function Places(h: Holder, id: nat): nat {
    (if h.session == Some(id) then 1 else 0) + (if id in h.retired then 1 else 0) + h.closes[id]
  }

  /** Every authenticated session is current, retired or closed, once; no other session is. */
  ghost predicate Accounted(h: Holder) {
    forall id: nat :: Places(h, id) == if id < h.authed then 1 else 0
  }

  lemma CloseDrainedKeeps(h: Holder, streams: nat -> int)
    requires Accounted(h)
    ensures Accounted(CloseDrained(h, streams))
  {
    forall id: nat ensures Places(CloseDrained(h, streams), id) == Places(h, id) {
      assert multiset(Drained(h, streams))[id] == if id in Drained(h, streams) then 1 else 0;
    }
  }

  lemma InitKeeps(h: Holder, w: World)
    requires Accounted(h)
    ensures Accounted(Init(h, w))
  {
    forall id: nat ensures Places(Init(h, w), id) == if id < Init(h, w).authed then 1 else 0 {
      assert Places(h, id) == if id < h.authed then 1 else 0;
    }
  }

  lemma CheckAndCloseKeep(h: Holder, now: int)
    requires Accounted(h)
    ensures Accounted(Check(h, now)) && Accounted(CloseCurrent(h))
  {
    forall id: nat ensures Places(Check(h, now), id) == Places(h, id) && Places(CloseCurrent(h), id) == Places(h, id) {
      assert h.session.Some? ==> Places(h, h.session.value) <= 1;
    }
  }

  lemma StepKeeps(h: Holder, op: Op)
    requires Accounted(h)
    ensures Accounted(Step(h, op))
  {
    match op
    case GetNewStream(w) =>
      CheckAndCloseKeep(h, w.now);
      InitKeeps(Check(h, w.now), w);
      CloseDrainedKeeps(Ready(h, w), w.streams);
    case Close => CheckAndCloseKeep(h, 0);
    case DumpStat(w) => CloseDrainedKeeps(h, w.streams);
    case HeartbeatCheck(w) => CheckAndCloseKeep(h, w.now);
    case HeartbeatInit(w) => InitKeeps(h, w);
  }

  lemma {:induction false} RunKeeps(ops: seq<Op>)
    ensures Accounted(Run(NEW, ops))
  {
    if ops != [] {
      RunKeeps(ops[..|ops| - 1]);
      StepKeeps(Run(NEW, ops[..|ops| - 1]), ops[|ops| - 1]);
    }
  }

  /** In every run the sessions that passed authentication are partitioned into the
      current one, the retired and the closed, and none is closed twice. */
  lemma {:induction false} SessionsAreConserved(ops: seq<Op>, id: nat)
    ensures var h := Run(NEW, ops);
      && h.closes[id] <= 1
      && (id < h.authed <==> h.session == Some(id) || id in h.retired || id in h.closes)
      && !(h.session == Some(id) && id in h.retired)
      && !(id in h.closes && (h.session == Some(id) || id in h.retired))
  {
    RunKeeps(ops);
    var h := Run(NEW, ops);
    assert Places(h, id) == if id < h.authed then 1 else 0;
  }

  /** The clean-up closes a session only if it was retired, now or before, and has no
      stream left; close closes the current one and no other. */
  lemma OnlyDrainedAreClosed(h: Holder, op: Op, id: nat)
    requires Accounted(h) && Step(h, op).closes[id] > h.closes[id]
    ensures match op
            case GetNewStream(w) => id in Check(h, w.now).retired && w.streams(id) <= 0
            case DumpStat(w) => id in h.retired && w.streams(id) <= 0
            case Close => h.session == Some(id)
            case _ => false
  {
    match op
    case GetNewStream(w) => var r := Ready(h, w); assert id in Drained(r, w.streams);
    case DumpStat(w) => assert id in Drained(h, w.streams);
    case _ =>
  }

  /** A stream is opened on a session that the holder has not closed, neither before
      nor in this call, and that is either new or had not expired at the check. */
  lemma StreamsOpenOnLiveSessions(h: Holder, w: World)
    requires Accounted(h) && Opened(h, w).On?
    ensures var id, after := Opened(h, w).session, AfterGetNewStream(h, w);
      && id !in after.closes && id !in after.retired && after.session == Some(id)
      && (id == h.authed
          || (h.session == Some(id) && (h.expireTime.None? || h.expireTime.value >= w.now)))
  {
    StepKeeps(h, GetNewStream(w));
    var id, after := Opened(h, w).session, AfterGetNewStream(h, w);
    assert Places(after, id) <= 1;
  }

  /** Nothing is kept open for ever: once a session is retired and has no streams, the
      next clean-up closes it. */
  lemma DrainedSessionsGo(h: Holder, w: World, id: nat)
    requires Accounted(h) && id in h.retired && w.streams(id) <= 0
    ensures id !in AfterGetNewStream(h, w).retired && id in AfterGetNewStream(h, w).closes
  {
    assert id in Ready(h, w).retired;
    assert id in Drained(Ready(h, w), w.streams);
  }
}
