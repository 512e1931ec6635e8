/** The download stream: one client that renews its pull request whenever the last
    response ends, against the server of HttpServerPull.  A request is answered once its
    response has a status, at the latest when its handler has returned; the response
    delivers what was written before its handler returned, and then ends.  A pull that
    the client gives up on is a step of its own and is recorded, and so is a Write into
    a response that has ended. */
module HttpDownload {
  import opened Basics
  import opened HttpServerPull

  /** recvReader with the position in that response; a pull whose Do has not returned;
      closed, once no further pull is begun; everything Read has returned. */
  datatype Client = Client(reader: Option<nat>, pos: nat, waiting: Option<nat>, closed: bool, got: seq<byte>)

  datatype Sys = Sys(server: Server, client: Client, gaveUp: bool, missed: bool)

  datatype Move =
    | Serve(a: Action)
    | Pull
    | PullAnswered
    | PullFails
    | Read(n: nat)
    | ReadFails
    | ClientCloses

  /** The bytes that a Write finds a taker for. */
  function Written(a: Action): seq<byte> {
    match a
    case Write(p) => p
    case WriteFails(p, n) => p[..Min(n, |p|)]
    case _ => []
  }

  /** The handler whose writer is set has returned, and so its response has ended. */
  predicate Deaf(s: Server) {
    s.writer.Some? && In(s, s.writer.value, Returned)
  }

  function OnServe(s: Sys, a: Action): Sys {
    if a.PullArrives? then s
    else
      s.(server := HttpServerPull.Step(s.server, a), missed := s.missed || (Written(a) != [] && Deaf(s.server)))
  }

  function OnPull(s: Sys): Sys {
    if s.client.reader.None? && s.client.waiting.None? && !s.client.closed then
      s.(server := OnPullArrives(s.server), client := s.client.(waiting := Some(|s.server.handlers|)))
    else s
  }

  predicate Answered(h: Handler) {
    h.status != Unset || h.phase == Returned
  }

  /** Behind a 401 the client closes. */
  function OnPullAnswered(s: Sys): Sys {
    if s.client.waiting.None? || s.client.waiting.value >= |s.server.handlers| then s
    else
      var h := s.server.handlers[s.client.waiting.value];
      if !Answered(h) then s
      else if h.status == Refused then s.(client := s.client.(waiting := None, closed := true))
      else s.(client := s.client.(reader := s.client.waiting, pos := 0, waiting := None))
  }

  function OnPullFails(s: Sys): Sys {
    if s.client.waiting.Some? then s.(client := s.client.(waiting := None), gaveUp := true) else s
  }

  /** httpDuplexConn.Read: at the end of the body recvReader is dropped. */
  function OnRead(s: Sys, n: nat): Sys {
    if s.client.reader.None? || s.client.reader.value >= |s.server.handlers| || n == 0 then s
    else
      var h := s.server.handlers[s.client.reader.value];
      if s.client.pos < |h.sent| then
        var m := Min(n, |h.sent| - s.client.pos);
        s.(client := s.client.(pos := s.client.pos + m, got := s.client.got + h.sent[s.client.pos..s.client.pos + m]))
      else if h.phase == Returned then s.(client := s.client.(reader := None))
      else s
  }

  function OnReadFails(s: Sys): Sys {
    if s.client.reader.Some? then s.(client := s.client.(reader := None), gaveUp := true) else s
  }

  /** httpDuplexConn.Close: a pull under way is still answered, and its response read. */
  function OnClientCloses(s: Sys): Sys {
    s.(client := s.client.(closed := true))
  }

  function Step(s: Sys, m: Move): Sys {
    match m
    case Serve(a) => OnServe(s, a)
    case Pull => OnPull(s)
    case PullAnswered => OnPullAnswered(s)
    case PullFails => OnPullFails(s)
    case Read(n) => OnRead(s, n)
    case ReadFails => OnReadFails(s)
    case ClientCloses => OnClientCloses(s)
  }

  function Run(s: Sys, moves: seq<Move>): Sys {
    if moves == [] then s else Step(Run(s, moves[..|moves| - 1]), moves[|moves| - 1])
  }

  const START := Sys(HttpServerPull.INITIAL, Client(None, 0, None, false, []), false, false)

  ghost predicate Leads(s: Sys, t: Sys) {
    exists moves: seq<Move> :: Run(s, moves) == t
  }

  lemma LeadsNowhere(s: Sys)
    ensures Leads(s, s)
  {
    assert Run(s, []) == s;
  }

  lemma LeadsOn(s: Sys, t: Sys, m: Move)
    requires Leads(s, t)
    ensures Leads(s, Step(t, m))
  {
    var moves :| Run(s, moves) == t;
    assert (moves + [m])[..|moves|] == moves;
    assert Run(s, moves + [m]) == Step(t, m);
  }

  // ---------------------------------------------------------------- invariant

  /** The bodies of the first k responses, end to end. */
  function Bodies(handlers: seq<Handler>, k: nat): seq<byte>
    requires k <= |handlers|
  {
    if k == 0 then [] else Bodies(handlers, k - 1) + handlers[k - 1].sent
  }

  lemma {:induction false} SameBodies(h: seq<Handler>, g: seq<Handler>, k: nat)
    requires k <= |h| && k <= |g| && forall i :: 0 <= i < k ==> g[i].sent == h[i].sent
    ensures Bodies(g, k) == Bodies(h, k)
  {
    if k > 0 { SameBodies(h, g, k - 1); }
  }

  /** The log is what the responses hold, in the order of the pulls. */
  ghost predicate LogInv(s: Server) {
    s.log == Bodies(s.handlers, |s.handlers|)
  }

  ghost predicate Sound(h: Handler) {
    && (h.sent != [] ==> h.status == Accepted)
    && (h.status == Refused ==> h.phase == Returned)
    && (h.phase == Arrived ==> h.status == Unset)
  }

  /** Before a Close gives its notification nobody is refused. */
  ghost predicate HandlersInv(s: Server) {
    forall i :: 0 <= i < |s.handlers| ==>
      Sound(s.handlers[i]) && (StillOpen(s) ==> s.handlers[i].status != Refused)
  }

  /** Only the newest handler can still be at work, and the writer is its own, unless it
      has not come to setWriter yet or was refused without. */
  ghost predicate OneAtATime(s: Server) {
    && (forall i :: 0 <= i < |s.handlers| - 1 ==> s.handlers[i].phase == Returned)
    && (s.writer.Some? && s.writer.value < |s.handlers| - 1 ==>
          var last := s.handlers[|s.handlers| - 1]; last.phase == Arrived || last.status == Refused)
  }

  /** The client has read every response to its end, except the newest, of which it
      has read pos bytes, none if the answer is outstanding. */
  ghost predicate ClientInv(s: Sys) {
    && s.client.got == Taken(s)
    && (if s.server.handlers == [] then s.client.reader.None? && s.client.waiting.None?
        else AtLast(s.client, |s.server.handlers| - 1, s.server.handlers[|s.server.handlers| - 1]))
  }

  /** The client and the newest response, which is h. */
  ghost predicate AtLast(c: Client, last: nat, h: Handler) {
    if c.reader.Some? then
      c.reader.value == last && c.waiting.None? && c.pos <= |h.sent| && Answered(h) && h.status != Refused
    else if c.waiting.Some? then c.waiting.value == last
    else h.phase == Returned && (h.status == Refused ==> c.closed)
  }

  ghost function Taken(s: Sys): seq<byte> {
    var h := s.server.handlers;
    if h == [] then [] else Bodies(h, |h| - 1) + TakenOf(s.client, h[|h| - 1])
  }

  ghost function TakenOf(c: Client, h: Handler): seq<byte> {
    if c.reader.Some? && c.pos <= |h.sent| then h.sent[..c.pos]
    else if c.waiting.Some? then []
    else h.sent
  }

  ghost predicate StreamInv(s: Sys) {
    && HttpServerPull.Inv(s.server)
    && HandlersInv(s.server)
    && (!s.gaveUp ==> OneAtATime(s.server) && ClientInv(s))
    && (!s.gaveUp && !s.missed ==> LogInv(s.server))
  }

  /** What any action of the server may do to a response, which grows by p or not at all. */
  ghost predicate Becomes(h: Handler, g: Handler, grows: bool, p: seq<byte>) {
    && (h.phase == Returned ==> g == h)
    && g.sent == (if grows then h.sent + p else h.sent)
    && (h.status == Accepted ==> g.status == Accepted)
    && (g.phase == Arrived ==> h.phase == Arrived)
    && (Sound(h) ==> Sound(g))
  }

  ghost predicate Evolves(s: Server, t: Server, p: seq<byte>) {
    && |t.handlers| == |s.handlers|
    && (forall i :: 0 <= i < |s.handlers| ==>
          Becomes(s.handlers[i], t.handlers[i], s.writer == Some(i) && s.handlers[i].phase != Returned, p))
    && t.log == (if s.writer.Some? then s.log + p else s.log)
  }

  lemma StepEvolves(s: Server, a: Action)
    requires HttpServerPull.Inv(s) && !a.PullArrives?
    ensures Evolves(s, HttpServerPull.Step(s, a), Written(a))
  {
    match a
    case Write(p) => SentEvolves(s, p);
    case WriteFails(p, n) => SentEvolves(s, p[..Min(n, |p|)]);
    case SetWriter(h) => SetWriterEvolves(s, h);
    case TimedOutDetaches(h) => DetachEvolves(s, h);
    case CloseNotifies(h) => CloseNotifiesEvolves(s, h);
    case _ => OthersEvolve(s, a);
  }

  /** Nothing is added to the response. */
  ghost predicate MovesOn(h: Handler, g: Handler) {
    && (h.phase == Returned ==> g == h)
    && g.sent == h.sent
    && (h.status == Accepted ==> g.status == Accepted)
    && (g.phase == Arrived ==> h.phase == Arrived)
    && (Sound(h) ==> Sound(g))
  }

  ghost predicate AllMoveOn(s: Server, t: Server) {
    && |t.handlers| == |s.handlers| && t.log == s.log
    && forall i :: 0 <= i < |s.handlers| ==> MovesOn(s.handlers[i], t.handlers[i])
  }

  lemma MovingOnEvolves(s: Server, t: Server)
    requires AllMoveOn(s, t)
    ensures Evolves(s, t, [])
  {
    assert forall b: seq<byte> :: b + [] == b;
  }

  lemma SentEvolves(s: Server, p: seq<byte>)
    requires HttpServerPull.Inv(s)
    ensures Evolves(s, Sent(s, p), p)
  {
  }

  lemma SetWriterEvolves(s: Server, h: nat)
    requires HttpServerPull.Inv(s)
    ensures Evolves(s, OnSetWriter(s, h), [])
  {
    MovingOnEvolves(s, OnSetWriter(s, h));
  }

  lemma DetachEvolves(s: Server, h: nat)
    requires HttpServerPull.Inv(s)
    ensures Evolves(s, OnTimedOutDetaches(s, h), [])
  {
    MovingOnEvolves(s, OnTimedOutDetaches(s, h));
  }

  lemma CloseNotifiesEvolves(s: Server, h: nat)
    requires HttpServerPull.Inv(s)
    ensures Evolves(s, OnCloseNotifies(s, h), [])
  {
    MovingOnEvolves(s, OnCloseNotifies(s, h));
  }

  lemma OthersEvolve(s: Server, a: Action)
    requires HttpServerPull.Inv(s) && !a.PullArrives? && !a.Write? && !a.WriteFails?
    requires !a.SetWriter? && !a.TimedOutDetaches? && !a.CloseNotifies?
    ensures Evolves(s, HttpServerPull.Step(s, a), [])
  {
    assert AllMoveOn(s, HttpServerPull.Step(s, a));
    hide AllMoveOn, Evolves, HttpServerPull.Step;
    MovingOnEvolves(s, HttpServerPull.Step(s, a));
  }

  lemma StepKeepsHandlers(s: Server, a: Action)
    requires HttpServerPull.Inv(s) && HandlersInv(s) && !a.PullArrives?
    ensures HandlersInv(HttpServerPull.Step(s, a))
  {
    StepEvolves(s, a);
    NobodyIsRefused(s, a);
  }

  lemma NobodyIsRefused(s: Server, a: Action)
    requires HttpServerPull.Inv(s) && HandlersInv(s) && !a.PullArrives?
    ensures var t := HttpServerPull.Step(s, a);
      StillOpen(t) ==> forall i :: 0 <= i < |t.handlers| ==> t.handlers[i].status != Refused
  {
  }

  lemma StepKeepsOneAtATime(s: Server, a: Action)
    requires HttpServerPull.Inv(s) && OneAtATime(s) && !a.PullArrives?
    ensures OneAtATime(HttpServerPull.Step(s, a))
  {
  }

  /** Ended responses are as they were. */
  lemma OthersStay(s: Server, t: Server, p: seq<byte>)
    requires OneAtATime(s) && Evolves(s, t, p) && s.handlers != []
    ensures Bodies(t.handlers, |s.handlers| - 1) == Bodies(s.handlers, |s.handlers| - 1)
  {
    SameBodies(s.handlers, t.handlers, |s.handlers| - 1);
  }

  lemma EvolvingKeepsLog(s: Server, t: Server, p: seq<byte>)
    requires HttpServerPull.Inv(s) && LogInv(s) && OneAtATime(s) && Evolves(s, t, p)
    requires p == [] || !Deaf(s)
    ensures LogInv(t)
  {
    if s.handlers != [] {
      var h, last := s.handlers, |s.handlers| - 1;
      OthersStay(s, t, p);
      if s.writer.Some? && p != [] {
        assert s.writer == Some(last);
        Reassociated(Bodies(h, last), h[last].sent, p);
      } else {
        assert h[last].sent + [] == h[last].sent && s.log + [] == s.log;
      }
    }
  }

  lemma Reassociated(a: seq<byte>, b: seq<byte>, c: seq<byte>)
    ensures a + b + c == a + (b + c)
  {
  }

  lemma EvolvingKeepsClient(s: Sys, t: Sys, p: seq<byte>)
    requires OneAtATime(s.server) && ClientInv(s) && Evolves(s.server, t.server, p) && t.client == s.client
    ensures ClientInv(t)
  {
    if s.server.handlers != [] {
      var last := |s.server.handlers| - 1;
      OthersStay(s.server, t.server, p);
      var h, g := s.server.handlers[last], t.server.handlers[last];
      assert Becomes(h, g, s.server.writer == Some(last) && h.phase != Returned, p);
      LastStays(s.client, last, h, g, s.server.writer == Some(last) && h.phase != Returned, p);
    }
  }

  lemma LastStays(c: Client, last: nat, h: Handler, g: Handler, grows: bool, p: seq<byte>)
    requires AtLast(c, last, h) && Becomes(h, g, grows, p)
    ensures AtLast(c, last, g) && TakenOf(c, g) == TakenOf(c, h)
  {
  }

  lemma ServeKeepsStream(s: Sys, a: Action)
    requires StreamInv(s)
    ensures StreamInv(OnServe(s, a))
  {
    if !a.PullArrives? {
      var t, p := OnServe(s, a), Written(a);
      HttpServerPull.StepKeepsInv(s.server, a);
      StepKeepsHandlers(s.server, a);
      if !s.gaveUp {
        assert Evolves(s.server, t.server, p) by { StepEvolves(s.server, a); }
        StepKeepsOneAtATime(s.server, a);
        EvolvingKeepsClient(s, t, p);
        if !t.missed { EvolvingKeepsLog(s.server, t.server, p); }
      }
    }
  }

  lemma PullAddsNothing(s: Server)
    ensures var t := OnPullArrives(s);
      && t.handlers[..|s.handlers|] == s.handlers && |t.handlers| == |s.handlers| + 1
      && Bodies(t.handlers, |s.handlers|) == Bodies(t.handlers, |t.handlers|) == Bodies(s.handlers, |s.handlers|)
  {
    var h, g := s.handlers, OnPullArrives(s).handlers;
    SameBodies(h, g, |h|);
    assert Bodies(h, |h|) + [] == Bodies(h, |h|);
  }

  lemma PullKeepsClient(s: Sys)
    requires ClientInv(s) && OnPull(s) != s
    ensures ClientInv(OnPull(s))
  {
    PullAddsNothing(s.server);
    var h := s.server.handlers;
    assert s.client.got == Bodies(h, |h|);
    assert Bodies(h, |h|) + [] == Bodies(h, |h|);
  }

  lemma PullKeepsStream(s: Sys)
    requires StreamInv(s)
    ensures StreamInv(OnPull(s))
  {
    if OnPull(s) != s {
      HttpServerPull.StepKeepsInv(s.server, PullArrives);
      assert HandlersInv(OnPull(s).server);
      PullAddsNothing(s.server);
      if !s.gaveUp { PullKeepsClient(s); }
    }
  }

  lemma AnswerKeepsStream(s: Sys)
    requires StreamInv(s)
    ensures StreamInv(OnPullAnswered(s))
  {
    if !s.gaveUp && s.client.waiting.Some? && s.server.handlers != [] {
      var h := s.server.handlers[|s.server.handlers| - 1];
      assert h.sent[..0] == [];
    }
  }

  lemma ReadKeepsStream(s: Sys, n: nat)
    requires StreamInv(s)
    ensures StreamInv(OnRead(s, n))
  {
    if !s.gaveUp && s.client.reader.Some? {
      assert ClientInv(OnRead(s, n)) by { ReadKeepsClient(s, n); }
    }
  }

  lemma ReadKeepsClient(s: Sys, n: nat)
    requires ClientInv(s) && s.client.reader.Some?
    ensures ClientInv(OnRead(s, n))
  {
    var h, c := s.server.handlers, s.client;
    var before, b := Bodies(h, |h| - 1), h[|h| - 1].sent;
    assert c.got == before + b[..c.pos];
    if c.pos < |b| {
      ReadAdvances(before, b, c.pos, Min(n, |b| - c.pos));
    } else {
      assert b[..c.pos] == b;
    }
  }

  lemma ReadAdvances(before: seq<byte>, body: seq<byte>, pos: nat, m: nat)
    requires pos + m <= |body|
    ensures before + body[..pos] + body[pos..pos + m] == before + body[..pos + m]
  {
  }

  lemma StepKeepsStream(s: Sys, m: Move)
    requires StreamInv(s)
    ensures StreamInv(Step(s, m))
  {
    match m
    case Serve(a) => ServeKeepsStream(s, a);
    case Pull => PullKeepsStream(s);
    case PullAnswered => AnswerKeepsStream(s);
    case Read(n) => ReadKeepsStream(s, n);
    case _ =>
  }

  lemma {:induction false} RunKeepsStream(s: Sys, moves: seq<Move>)
    requires StreamInv(s)
    ensures StreamInv(Run(s, moves))
  {
    if moves != [] {
      RunKeepsStream(s, moves[..|moves| - 1]);
      StepKeepsStream(Run(s, moves[..|moves| - 1]), moves[|moves| - 1]);
    }
  }

  lemma LeadsKeepsStream(s: Sys, t: Sys)
    requires StreamInv(s) && Leads(s, t)
    ensures StreamInv(t)
  {
    var moves :| Run(s, moves) == t;
    RunKeepsStream(s, moves);
  }

  // ---------------------------------------------------------------- theorems

  /** Over any buffer sizes and any number of pull renewals, before, during and after
      Close, what the client has read is a prefix of what the server has written, and the
      responses share the written bytes out among the pulls, in pull order, each byte to
      one response, as long as no Write went into a response that had ended. */
  lemma DownloadIsPrefix(s: Sys)
    requires Leads(START, s) && !s.gaveUp && !s.missed
    ensures s.client.got <= s.server.log
    ensures s.server.log == Bodies(s.server.handlers, |s.server.handlers|)
  {
    LeadsKeepsStream(START, s);
    GotWithinBodies(s);
  }

  lemma GotWithinBodies(s: Sys)
    requires StreamInv(s) && !s.gaveUp
    ensures s.client.got <= Bodies(s.server.handlers, |s.server.handlers|)
  {
  }

  /** No Write can have, until a Close gives its notification. */
  lemma {:induction false} NoneMissedWithoutClose(moves: seq<Move>)
    ensures StillOpen(Run(START, moves).server) ==> !Run(START, moves).missed
  {
    if moves != [] {
      var before, m := moves[..|moves| - 1], moves[|moves| - 1];
      NoneMissedWithoutClose(before);
      var s := Run(START, before);
      assert StreamInv(s) by { RunKeepsStream(START, before); }
      if m.Serve? { NotYetMissed(s, m.a); }
    }
  }

  lemma NotYetMissed(s: Sys, a: Action)
    requires HttpServerPull.Inv(s.server) && (StillOpen(s.server) ==> !s.missed)
    ensures StillOpen(OnServe(s, a).server) ==> !OnServe(s, a).missed
  {
    if StillOpen(OnServe(s, a).server) {
      assert StillOpen(s.server);
    }
  }

  lemma NoneMissed(s: Sys)
    requires Leads(START, s) && StillOpen(s.server)
    ensures !s.missed
  {
    var moves :| Run(START, moves) == s;
    NoneMissedWithoutClose(moves);
  }

  /** The client takes its answer, if there is one, and reads as far as the response goes. */
  function Drain(s: Sys): Sys {
    OnRead(OnPullAnswered(s), |s.client.got| + |Bodies(s.server.handlers, |s.server.handlers|)| + 1)
  }

  lemma DrainLeads(s0: Sys, s: Sys)
    requires Leads(s0, s)
    ensures Leads(s0, Drain(s))
  {
    LeadsOn(s0, s, PullAnswered);
    LeadsOn(s0, OnPullAnswered(s), Read(|s.client.got| + |Bodies(s.server.handlers, |s.server.handlers|)| + 1));
  }

  /** A client that waits for an unwritten response or is at the end of the newest one. */
  ghost predicate AtEnd(s: Sys) {
    s.server.handlers != [] ==>
      var h := s.server.handlers[|s.server.handlers| - 1];
      && (s.client.waiting.Some? ==> !Answered(h))
      && (s.client.reader.Some? ==> s.client.pos == |h.sent|)
  }

  lemma AtEndReadAll(s: Sys)
    requires StreamInv(s) && !s.gaveUp && AtEnd(s)
    ensures s.client.got == Bodies(s.server.handlers, |s.server.handlers|)
  {
    if s.server.handlers != [] {
      var h := s.server.handlers[|s.server.handlers| - 1];
      assert h.sent[..|h.sent|] == h.sent;
    }
  }

  lemma AnswerIsTaken(s: Sys)
    requires StreamInv(s) && !s.gaveUp
    ensures var t := OnPullAnswered(s);
      && t.server == s.server && t.gaveUp == s.gaveUp && t.missed == s.missed
      && (t.client.waiting.Some? && s.server.handlers != [] ==>
            !Answered(s.server.handlers[|s.server.handlers| - 1]))
  {
  }

  lemma ReadToEnd(s: Sys, n: nat)
    requires StreamInv(s) && !s.gaveUp && n > |Bodies(s.server.handlers, |s.server.handlers|)|
    requires s.client.waiting.Some? && s.server.handlers != [] ==>
               !Answered(s.server.handlers[|s.server.handlers| - 1])
    ensures var t := OnRead(s, n);
      AtEnd(t) && t.server == s.server && t.gaveUp == s.gaveUp && t.missed == s.missed
  {
  }

  lemma DrainReadsAll(s: Sys)
    requires StreamInv(s) && !s.gaveUp
    ensures var t := Drain(s);
      && StreamInv(t) && AtEnd(t) && t.client.got == Bodies(s.server.handlers, |s.server.handlers|)
      && t.server == s.server && !t.gaveUp && t.missed == s.missed
  {
    hide StreamInv, AtEnd, OnRead, OnPullAnswered, Bodies;
    var t := OnPullAnswered(s);
    AnswerIsTaken(s);
    AnswerKeepsStream(s);
    var n := |s.client.got| + |Bodies(s.server.handlers, |s.server.handlers|)| + 1;
    ReadToEnd(t, n);
    ReadKeepsStream(t, n);
    AtEndReadAll(OnRead(t, n));
  }

  lemma DrainStaysOpen(s: Sys)
    requires StreamInv(s) && !s.gaveUp && s.server.handlers != []
    requires s.server.handlers[|s.server.handlers| - 1].status != Refused
    ensures Drain(s).client.closed == s.client.closed
  {
  }

  /** No delivered byte is out of the client's reach, even behind a Close. */
  lemma EverythingCanBeRead(s: Sys)
    requires Leads(START, s) && !s.gaveUp && !s.missed
    ensures exists t :: Leads(s, t) && t.client.got == t.server.log == s.server.log
  {
    LeadsKeepsStream(START, s);
    LeadsNowhere(s);
    DrainLeads(s, s);
    DrainReadsAll(s);
  }

  /** The newest handler runs its course from wherever it is. */
  function Retire(s: Server): Server {
    var k := if s.handlers == [] then 0 else |s.handlers| - 1;
    var t := OnTimeout(OnCheckRunning(OnSetWriter(s, k), k), k);
    OnTimedOutDetaches(OnTimedOutTests(t, k), k)
  }

  lemma RetireRetires(s: Server)
    requires OneAtATime(s) && StillOpen(s)
    ensures var t := Retire(s);
      && StillOpen(t) && |t.handlers| == |s.handlers| && t.log == s.log
      && (forall i :: 0 <= i < |t.handlers| ==> t.handlers[i] == s.handlers[i].(phase := Returned))
  {
    if s.handlers != [] {
      var k := |s.handlers| - 1;
      var t1 := OnSetWriter(s, k);
      assert t1.handlers == s.handlers[k := s.handlers[k].(phase := t1.handlers[k].phase)];
      var t2 := OnTimedOutTests(OnTimeout(OnCheckRunning(t1, k), k), k);
      assert t2.handlers == s.handlers[k := s.handlers[k].(phase := t2.handlers[k].phase)];
      assert t2.handlers[k].phase in {Detaching, Returned};
    }
  }

  lemma RetireLeads(s0: Sys, s: Sys)
    requires Leads(s0, s)
    ensures Leads(s0, s.(server := Retire(s.server)))
  {
    hide Leads, OnSetWriter, OnCheckRunning, OnTimeout, OnTimedOutTests, OnTimedOutDetaches;
    var k := if s.server.handlers == [] then 0 else |s.server.handlers| - 1;
    LeadsOn(s0, s, Serve(SetWriter(k)));
    var t := OnServe(s, SetWriter(k));
    LeadsOn(s0, t, Serve(CheckRunning(k)));
    t := OnServe(t, CheckRunning(k));
    LeadsOn(s0, t, Serve(Timeout(k)));
    t := OnServe(t, Timeout(k));
    LeadsOn(s0, t, Serve(TimedOutTests(k)));
    LeadsOn(s0, OnServe(t, TimedOutTests(k)), Serve(TimedOutDetaches(k)));
  }

  /** The newest handler attaches its writer, which takes a Write. */
  function Attach(s: Sys, p: seq<byte>): Sys {
    OnServe(OnServe(s, SetWriter(if s.server.handlers == [] then 0 else |s.server.handlers| - 1)), Write(p))
  }

  lemma AttachLeads(s0: Sys, s: Sys, p: seq<byte>)
    requires Leads(s0, s)
    ensures Leads(s0, Attach(s, p))
  {
    var k := if s.server.handlers == [] then 0 else |s.server.handlers| - 1;
    LeadsOn(s0, s, Serve(SetWriter(k)));
    LeadsOn(s0, OnServe(s, SetWriter(k)), Serve(Write(p)));
  }

  lemma AttachHandlers(s: Server, p: seq<byte>)
    requires OneAtATime(s) && s.handlers != [] && s.handlers[|s.handlers| - 1].phase == Arrived
    requires Sound(s.handlers[|s.handlers| - 1])
    ensures var h, k := s.handlers, |s.handlers| - 1;
      var t := OnSetWriter(s, k);
      && h[k].sent == [] && !Deaf(t) && OnWrite(t, p).log == s.log + p
      && OnWrite(t, p).handlers == h[k := Handler(Attached, p, Accepted)]
  {
    var h, k := s.handlers, |s.handlers| - 1;
    var t := OnSetWriter(s, k);
    assert t.handlers[k] == Handler(Attached, [], Unset);
    assert [] + p == p;
    assert forall i :: 0 <= i < k ==> t.handlers[i] == h[i];
  }

  lemma AttachKeepsStream(s: Sys, p: seq<byte>)
    requires StreamInv(s)
    ensures StreamInv(Attach(s, p)) && Attach(s, p).gaveUp == s.gaveUp
  {
    hide StreamInv;
    var k := if s.server.handlers == [] then 0 else |s.server.handlers| - 1;
    ServeKeepsStream(s, SetWriter(k));
    ServeKeepsStream(OnServe(s, SetWriter(k)), Write(p));
  }

  /** What is written to a handler that has just attached reaches the client. */
  lemma AttachedIsRead(s: Sys, p: seq<byte>)
    requires StreamInv(s) && !s.gaveUp && s.server.handlers != []
    requires s.server.handlers[|s.server.handlers| - 1].phase == Arrived
    ensures var t := Drain(Attach(s, p));
      && !t.gaveUp && t.server.log == s.server.log + p
      && t.client.got == Bodies(s.server.handlers, |s.server.handlers|) + p
  {
    var h, k, t := s.server.handlers, |s.server.handlers| - 1, Attach(s, p);
    AttachHandlers(s.server, p);
    AttachKeepsStream(s, p);
    hide StreamInv, OnSetWriter, OnWrite, Drain, AtEnd;
    SameBodies(h, t.server.handlers, k);
    assert Bodies(h, k) + [] == Bodies(h, k);
    DrainReadsAll(t);
  }

  /** The response that just ended is dropped and a new pull sent. */
  function Renew(s: Sys): Sys {
    OnPull(OnRead(s, 1))
  }

  lemma RenewLeads(s0: Sys, s: Sys)
    requires Leads(s0, s)
    ensures Leads(s0, Renew(s))
  {
    LeadsOn(s0, s, Read(1));
    LeadsOn(s0, OnRead(s, 1), Pull);
  }

  lemma RenewPulls(s: Sys)
    requires StreamInv(s) && !s.gaveUp && AtEnd(s) && !s.client.closed && !s.server.removed
    requires forall i :: 0 <= i < |s.server.handlers| ==> s.server.handlers[i].phase == Returned
    ensures var t := Renew(s);
      && StreamInv(t) && !t.gaveUp
      && t.server == s.server.(handlers := s.server.handlers + [Handler(Arrived, [], Unset)])
      && Bodies(t.server.handlers, |t.server.handlers|) == Bodies(s.server.handlers, |s.server.handlers|)
  {
    ReadKeepsStream(s, 1);
    PullKeepsStream(OnRead(s, 1));
    PullAddsNothing(s.server);
  }

  /** Pulls never get stuck: after any number of timers, lost notifications and
      failed writes, some continuation lets the next Write through to the client. */
  lemma WritesCanGoOn(s: Sys, p: seq<byte>)
    requires Leads(START, s) && StillOpen(s.server) && !s.gaveUp && !s.client.closed
    ensures exists t :: Leads(s, t) && t.client.got == t.server.log == s.server.log + p
  {
    LeadsKeepsStream(START, s);
    NoneMissed(s);
    LeadsNowhere(s);
    RetireLeads(s, s);
    RetireRetires(s.server);
    var s1 := s.(server := Retire(s.server));
    LeadsKeepsStream(s, s1);
    DrainLeads(s, s1);
    GoesOnFrom(s, s1, p);
  }

  /** From a state in which all handlers have returned and none refused. */
  lemma GoesOnFrom(s0: Sys, s: Sys, p: seq<byte>)
    requires Leads(s0, s) && StreamInv(s) && !s.gaveUp && !s.client.closed && !s.server.removed
    requires forall i :: 0 <= i < |s.server.handlers| ==> s.server.handlers[i].phase == Returned
    requires s.server.handlers != [] ==> s.server.handlers[|s.server.handlers| - 1].status != Refused
    ensures exists t :: Leads(s0, t) && !t.gaveUp && t.server.log == s.server.log + p
              && t.client.got == Bodies(s.server.handlers, |s.server.handlers|) + p
  {
    var s1 := Drain(s);
    DrainLeads(s0, s);
    DrainReadsAll(s);
    if s.server.handlers != [] { DrainStaysOpen(s); }
    var s2 := Renew(s1);
    RenewLeads(s0, s1);
    RenewPulls(s1);
    AttachLeads(s0, s2, p);
    AttachedIsRead(s2, p);
    DrainLeads(s0, Attach(s2, p));
  }

  // ---------------------------------------------------------------- a Write that is missed

  /** Whether the client can still get a response whose handler has not yet attached: the
      one it waits for, or that of a new pull behind a response which is not a 401. */
  predicate PullsOn(s: Sys) {
    s.server.handlers != [] &&
    var last := s.server.handlers[|s.server.handlers| - 1];
    last.phase == Arrived || (last.status != Refused && !s.client.closed && !s.server.removed)
  }

  /** No response will come or grow, and what there is in them is body. */
  ghost predicate Silent(s: Sys, body: seq<byte>) {
    && (forall i :: 0 <= i < |s.server.handlers| ==> s.server.handlers[i].phase == Returned)
    && s.server.handlers != []
    && (s.client.closed || s.server.removed || s.server.handlers[|s.server.handlers| - 1].status == Refused)
    && Bodies(s.server.handlers, |s.server.handlers|) == body <= s.server.log
  }

  lemma SilentServer(s: Server, a: Action)
    requires forall i :: 0 <= i < |s.handlers| ==> s.handlers[i].phase == Returned
    requires !a.PullArrives?
    ensures var t := HttpServerPull.Step(s, a);
      t.handlers == s.handlers && s.log <= t.log && (s.removed ==> t.removed)
  {
  }

  lemma SilentPull(s: Sys, body: seq<byte>)
    requires StreamInv(s) && !s.gaveUp && Silent(s, body)
    ensures Silent(OnPull(s), body)
  {
    var h, t := s.server.handlers, OnPull(s);
    if t != s {
      assert t.server.handlers == h + [Handler(Returned, [], Refused)];
      PullAddsNothing(s.server);
    }
  }

  lemma SilentStep(s: Sys, m: Move, body: seq<byte>)
    requires StreamInv(s) && !s.gaveUp && Silent(s, body)
    ensures Silent(Step(s, m), body)
  {
    match m
    case Serve(a) => if !a.PullArrives? { SilentServer(s.server, a); }
    case Pull => SilentPull(s, body);
    case _ =>
  }

  lemma {:induction false} SilentRun(s: Sys, moves: seq<Move>, body: seq<byte>)
    requires StreamInv(s) && (s.gaveUp || Silent(s, body))
    ensures var t := Run(s, moves); StreamInv(t) && (t.gaveUp || Silent(t, body))
  {
    if moves != [] {
      var before, m := moves[..|moves| - 1], moves[|moves| - 1];
      SilentRun(s, before, body);
      var t := Run(s, before);
      StepKeepsStream(t, m);
      if !t.gaveUp { SilentStep(t, m, body); }
    }
  }

  /** Behind a missed Write that nothing follows the client still reads a prefix. */
  lemma SilentIsPrefix(s: Sys, t: Sys, body: seq<byte>)
    requires StreamInv(s) && !s.gaveUp && Silent(s, body) && Leads(s, t) && !t.gaveUp
    ensures t.client.got <= t.server.log
  {
    var moves :| Run(s, moves) == t;
    SilentRun(s, moves, body);
    GotWithinBodies(t);
  }

  /** What a missed Write leaves behind: only the log, and maybe the writer, are others. */
  lemma MissedWriteOnlyLogs(s: Sys, a: Action)
    requires StreamInv(s) && !s.gaveUp && !s.missed && Deaf(s.server) && Written(a) != []
    ensures var u := OnServe(s, a);
      && u.missed && u.client == s.client && u.gaveUp == s.gaveUp
      && u.server.handlers == s.server.handlers && u.server.removed == s.server.removed
      && u.server.log == Bodies(s.server.handlers, |s.server.handlers|) + Written(a)
  {
  }

  /** Then the newest handler has returned, too, or has not attached yet. */
  lemma DeafHandlers(s: Server)
    requires HttpServerPull.Inv(s) && OneAtATime(s) && HandlersInv(s) && Deaf(s)
    ensures s.handlers != [] && s.handlers[|s.handlers| - 1].phase in {Arrived, Returned}
  {
  }

  lemma PullsOnBreaks(s: Sys, a: Action)
    requires StreamInv(s) && !s.gaveUp && !s.missed && Deaf(s.server) && Written(a) != [] && PullsOn(s)
    ensures exists t :: Leads(OnServe(s, a), t) && !t.gaveUp && !(t.client.got <= t.server.log)
  {
    var u, p, h := OnServe(s, a), Written(a), s.server.handlers;
    ServeKeepsStream(s, a);
    MissedWriteOnlyLogs(s, a);
    DeafHandlers(s.server);
    LeadsNowhere(u);
    var y: byte := if p[0] == 0 then 1 else 0;
    if h[|h| - 1].phase == Arrived {
      AttachLeads(u, u, [y]);
      DrainLeads(u, Attach(u, [y]));
      AttachedIsRead(u, [y]);
    } else {
      GoesOnFrom(u, u, [y]);
    }
    assert exists t :: Leads(u, t) && !t.gaveUp && t.server.log == Bodies(h, |h|) + p + [y]
                    && t.client.got == Bodies(h, |h|) + [y];
    HoleIsNoPrefix(Bodies(h, |h|), p, y);
  }

  lemma HoleIsNoPrefix(before: seq<byte>, p: seq<byte>, y: byte)
    requires p != [] && p[0] != y
    ensures !(before + [y] <= before + p + [y])
  {
    assert (before + [y])[|before|] != (before + p + [y])[|before|];
  }

  lemma OtherwiseSilent(s: Sys, a: Action)
    requires StreamInv(s) && !s.gaveUp && !s.missed && Deaf(s.server) && Written(a) != [] && !PullsOn(s)
    ensures Silent(OnServe(s, a), Bodies(s.server.handlers, |s.server.handlers|))
  {
    MissedWriteOnlyLogs(s, a);
    DeafHandlers(s.server);
  }

  /** The other half of DownloadIsPrefix: a Write, whole or in part, to a writer whose
      handler has returned is missed, and a continuation in which the client reads a stream
      that is no prefix of what was written exists exactly if the client can still get
      another response. */
  lemma MissedWriteBreaksTheStreamExactlyIf(s: Sys, a: Action)
    requires Leads(START, s) && !s.gaveUp && !s.missed && Deaf(s.server) && Written(a) != []
    ensures OnServe(s, a).missed
    ensures (exists t :: Leads(OnServe(s, a), t) && !t.gaveUp && !(t.client.got <= t.server.log)) <==> PullsOn(s)
  {
    LeadsKeepsStream(START, s);
    var u := OnServe(s, a);
    assert u.missed by { MissedWriteOnlyLogs(s, a); }
    if PullsOn(s) {
      PullsOnBreaks(s, a);
    } else {
      assert !u.gaveUp && StreamInv(u) by { ServeKeepsStream(s, a); }
      var body := Bodies(s.server.handlers, |s.server.handlers|);
      assert Silent(u, body) by { OtherwiseSilent(s, a); }
      forall t | Leads(u, t) && !t.gaveUp ensures t.client.got <= t.server.log {
        SilentIsPrefix(u, t, body);
      }
    }
  }

  /** A pull that attaches between the closeWrite and the notification of a Close, may be
      written to, and takes the notification. */
  function Attending(s: Sys): Sys {
    var t := OnServe(OnServe(OnServe(s, CloseBegins), CloseTests), CloseDetaches);
    OnServe(OnServe(OnPull(t), SetWriter(0)), CheckRunning(0))
  }

  lemma AttendingLeads(s0: Sys, s: Sys)
    requires Leads(s0, s)
    ensures Leads(s0, Attending(s))
  {
    LeadsOn(s0, s, Serve(CloseBegins));
    LeadsOn(s0, OnServe(s, CloseBegins), Serve(CloseTests));
    var t := OnServe(OnServe(s, CloseBegins), CloseTests);
    LeadsOn(s0, t, Serve(CloseDetaches));
    t := OnServe(t, CloseDetaches);
    LeadsOn(s0, t, Pull);
    LeadsOn(s0, OnPull(t), Serve(SetWriter(0)));
    LeadsOn(s0, OnServe(OnPull(t), SetWriter(0)), Serve(CheckRunning(0)));
  }

  /** One pull, in its select, between the closeWrite and the notification of a Close. */
  ghost predicate Attends(s: Sys) {
    && s.server.running && !s.server.removed && s.server.detached > 0
    && s.server.writer == Some(0) && s.server.handlers == [Handler(Waiting, [], Unset)] && s.server.log == []
    && !s.client.closed && !s.gaveUp && !s.missed
  }

  lemma ClosingDetaches(s: Sys)
    requires s.server.running && s.server.writer.None? && s.server.writerStopCh.None?
    ensures var t := OnServe(OnServe(OnServe(s, CloseBegins), CloseTests), CloseDetaches);
      t == s.(server := s.server.(detached := s.server.detached + 1))
  {
  }

  lemma PullAttends(s: Sys)
    requires s.server.running && !s.server.removed && s.server.detached > 0 && s.server.writerStopCh.None?
    requires s.server.handlers == [] && s.server.log == [] && !s.gaveUp && !s.missed
    requires s.client.reader.None? && s.client.waiting.None? && !s.client.closed
    ensures Attends(OnServe(OnServe(OnPull(s), SetWriter(0)), CheckRunning(0)))
  {
    var t := OnServe(OnPull(s), SetWriter(0));
    assert t.server.handlers == [Handler(Attached, [], Unset)];
  }

  lemma AttendingAttends(s: Sys)
    requires s.server.running && !s.server.removed && s.server.writer.None? && s.server.writerStopCh.None?
    requires s.server.handlers == [] && s.server.log == [] && !s.gaveUp && !s.missed
    requires s.client.reader.None? && s.client.waiting.None? && !s.client.closed
    ensures Attends(Attending(s))
  {
    hide OnServe, OnPull, Attends;
    ClosingDetaches(s);
    PullAttends(s.(server := s.server.(detached := s.server.detached + 1)));
  }

  lemma WrittenToAndCaught(s: Sys, p: seq<byte>)
    requires Attends(s)
    ensures var t := OnServe(OnServe(s, Write(p)), CloseNotifies(0));
      t.server.running && t.server.log == p && !t.gaveUp && !t.missed && Deaf(t.server) && PullsOn(t)
  {
    assert [] + p == p;
    assert OnServe(s, Write(p)).server.handlers == [Handler(Waiting, p, Accepted)];
  }

  lemma CaughtUnwritten(s: Sys)
    requires Attends(s)
    ensures var t := OnServe(s, CloseNotifies(0));
      t.server.running && t.server.log == [] && !t.gaveUp && !t.missed && Deaf(t.server) && !PullsOn(t)
  {
  }

  /** Such states are reachable on a running connection: if something was written to the
      response, whatever it was, the stream can break there; if nothing was, it cannot. */
  lemma AWriteCanBeMissed(p: seq<byte>)
    ensures exists s :: Leads(START, s) && s.server.running && s.server.log == p
              && !s.gaveUp && !s.missed && Deaf(s.server) && PullsOn(s)
    ensures exists s :: Leads(START, s) && s.server.running && s.server.log == []
              && !s.gaveUp && !s.missed && Deaf(s.server) && !PullsOn(s)
  {
    hide Leads, Attending, Attends, OnServe, Deaf, PullsOn;
    LeadsNowhere(START);
    AttendingLeads(START, START);
    AttendingAttends(START);
    var s := Attending(START);
    LeadsOn(START, s, Serve(Write(p)));
    LeadsOn(START, OnServe(s, Write(p)), Serve(CloseNotifies(0)));
    WrittenToAndCaught(s, p);
    LeadsOn(START, s, Serve(CloseNotifies(0)));
    CaughtUnwritten(s);
  }
}
