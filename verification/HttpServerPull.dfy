/** The sending side of httpDuplexServConn: response writers swapped under
    sendLock by any number of overlapping pull handlers, their timers, the
    server's Write, and Close.  Every action is one atomic step (one critical
    section, or one channel operation); an action whose guard does not hold
    leaves the state as it is. */
module HttpServerPull {
  import opened Basics

  /** How far the handler of one pull request has come: before setWriter, between
      setWriter and the select, in the select, past the timer, past the running test of
      closeWrite, out of HTTPInvoke. */
  datatype Phase = Arrived | Attached | Waiting | TimedOut | Detaching | Returned

  /** The status of a response: the first Write makes it 200, and only then is it too late
      for 401.  A handler that returns without either answers 200, too. */
  datatype Status = Unset | Accepted | Refused

  datatype Handler = Handler(phase: Phase, sent: seq<byte>, status: Status)

  datatype Server = Server(
    running: bool,
    removed: bool,             // no longer in httpDuplexServConnTable
    writer: Option<nat>,       // the handler whose ResponseWriter is set
    writerStopCh: Option<nat>, // the handler that listens on the stored channel
    handlers: seq<Handler>,
    begun: nat,                // calls of Close that have seen isRunning
    tested: nat,               // calls of Close whose closeWrite has seen isRunning
    detached: nat,             // calls of Close past closeWrite
    notified: nat,             // calls of Close past the notification
    log: seq<byte>)            // every byte a Write reported as written, in order

  datatype Action =
    | PullArrives
    | SetWriter(h: nat)
    | CheckRunning(h: nat)
    | Timeout(h: nat)
    | TimedOutTests(h: nat)
    | TimedOutDetaches(h: nat)
    | Write(p: seq<byte>)
    | WriteFails(p: seq<byte>, n: nat)
    | CloseBegins
    | CloseTests
    | CloseDetaches
    | CloseNotifies(h: nat)
    | CloseStores
    | CloseRemoves

  function SetPhase(s: Server, h: nat, phase: Phase): Server
    requires h < |s.handlers|
  {
    s.(handlers := s.handlers[h := s.handlers[h].(phase := phase)])
  }

  predicate In(s: Server, h: nat, phase: Phase) {
    h < |s.handlers| && s.handlers[h].phase == phase
  }

  /** A handler that answers 401, if it is not too late for that, and returns. */
  function Refuse(s: Server, h: nat): Server
    requires h < |s.handlers|
  {
    var status := if s.handlers[h].status == Unset then Refused else s.handlers[h].status;
    s.(handlers := s.handlers[h := s.handlers[h].(phase := Returned, status := status)])
  }

  /** AsyncNotify(writerStopCh): only a handler already in its select hears it. */
  function NotifyStop(s: Server): Server {
    if s.writerStopCh.Some? && In(s, s.writerStopCh.value, Waiting) then
      SetPhase(s, s.writerStopCh.value, Returned)
    else s
  }

  /** Once the connection is removed a pull meets a new one, which answers 401. */
  function OnPullArrives(s: Server): Server {
    s.(handlers := s.handlers + [if s.removed then Handler(Returned, [], Refused) else Handler(Arrived, [], Unset)])
  }

  function OnSetWriter(s: Server, h: nat): Server {
    if In(s, h, Arrived) then
      SetPhase(NotifyStop(s), h, Attached).(writer := Some(h), writerStopCh := Some(h))
    else s
  }

  function OnCheckRunning(s: Server, h: nat): Server {
    if !In(s, h, Attached) then s
    else if s.running then SetPhase(s, h, Waiting) else Refuse(s, h)
  }

  function OnTimeout(s: Server, h: nat): Server {
    if In(s, h, Waiting) then SetPhase(s, h, TimedOut) else s
  }

  /** closeWrite behind its running test: the writer goes, whosever it is. */
  function Detach(s: Server): Server {
    NotifyStop(s.(writer := None))
  }

  function OnTimedOutTests(s: Server, h: nat): Server {
    if In(s, h, TimedOut) then SetPhase(s, h, if s.running then Detaching else Returned) else s
  }

  function OnTimedOutDetaches(s: Server, h: nat): Server {
    if In(s, h, Detaching) then SetPhase(Detach(s), h, Returned) else s
  }

  /** What a writer takes; a response whose handler has returned has ended. */
  function Sent(s: Server, p: seq<byte>): Server {
    if s.writer.Some? && s.writer.value < |s.handlers| then
      var w, h := s.writer.value, s.handlers[s.writer.value];
      s.(handlers := if h.phase == Returned then s.handlers
           else s.handlers[w := h.(sent := h.sent + p, status := Accepted)],
         log := s.log + p)
    else s
  }

  /** A Write that met the writer.  It looks at isRunning before it takes the lock,
      so a late one may still get here after Close. */
  function OnWrite(s: Server, p: seq<byte>): Server {
    Sent(s, p)
  }

  function OnWriteFails(s: Server, p: seq<byte>, n: nat): Server {
    Sent(s, p[..Min(n, |p|)]).(writer := None)
  }

  function OnCloseBegins(s: Server): Server {
    if s.running then s.(begun := s.begun + 1) else s
  }

  function OnCloseTests(s: Server): Server {
    if s.begun == 0 then s
    else if s.running then s.(begun := s.begun - 1, tested := s.tested + 1)
    else s.(begun := s.begun - 1, detached := s.detached + 1)
  }

  function OnCloseDetaches(s: Server): Server {
    if s.tested > 0 then Detach(s).(tested := s.tested - 1, detached := s.detached + 1) else s
  }

  /** AsyncNotify(closeNotifyCh): one handler in its select takes it, if there is any. */
  function OnCloseNotifies(s: Server, h: nat): Server {
    if s.detached == 0 then s
    else if In(s, h, Waiting) then Refuse(s, h).(detached := s.detached - 1, notified := s.notified + 1)
    else if forall k :: 0 <= k < |s.handlers| ==> s.handlers[k].phase != Waiting then
      s.(detached := s.detached - 1, notified := s.notified + 1)
    else s
  }

  function OnCloseStores(s: Server): Server {
    if s.notified > 0 then s.(notified := s.notified - 1, running := false) else s
  }

  /** The end of any Close, also of one that found the connection closed. */
  function OnCloseRemoves(s: Server): Server {
    if s.running then s else s.(removed := true)
  }

  function Step(s: Server, a: Action): Server {
    match a
    case PullArrives => OnPullArrives(s)
    case SetWriter(h) => OnSetWriter(s, h)
    case CheckRunning(h) => OnCheckRunning(s, h)
    case Timeout(h) => OnTimeout(s, h)
    case TimedOutTests(h) => OnTimedOutTests(s, h)
    case TimedOutDetaches(h) => OnTimedOutDetaches(s, h)
    case Write(p) => OnWrite(s, p)
    case WriteFails(p, n) => OnWriteFails(s, p, n)
    case CloseBegins => OnCloseBegins(s)
    case CloseTests => OnCloseTests(s)
    case CloseDetaches => OnCloseDetaches(s)
    case CloseNotifies(h) => OnCloseNotifies(s, h)
    case CloseStores => OnCloseStores(s)
    case CloseRemoves => OnCloseRemoves(s)
  }

  function Run(s: Server, actions: seq<Action>): Server {
    if actions == [] then s else Step(Run(s, actions[..|actions| - 1]), actions[|actions| - 1])
  }

  const INITIAL := Server(true, false, None, None, [], 0, 0, 0, 0, [])

  /** Some run leads from s to t. */
  ghost predicate Leads(s: Server, t: Server) {
    exists actions: seq<Action> :: Run(s, actions) == t
  }

  lemma LeadsNowhere(s: Server)
    ensures Leads(s, s)
  {
    assert Run(s, []) == s;
  }

  lemma LeadsOn(s: Server, t: Server, a: Action)
    requires Leads(s, t)
    ensures Leads(s, Step(t, a))
  {
    var actions :| Run(s, actions) == t;
    assert (actions + [a])[..|actions|] == actions;
    assert Run(s, actions + [a]) == Step(t, a);
  }

  // ---------------------------------------------------------------- writer safety

  /** The connection runs and no Close has got as far as its notification. */
  predicate StillOpen(s: Server) {
    s.running && s.notified == 0
  }

  ghost predicate WriterAlive(s: Server) {
    s.writer.Some? ==>
      s.writer.value < |s.handlers| && s.handlers[s.writer.value].phase in {Attached, Waiting, TimedOut, Detaching}
  }

  ghost predicate Inv(s: Server) {
    && (s.writer.Some? ==>
          && s.writerStopCh == s.writer && s.writer.value < |s.handlers|
          && s.handlers[s.writer.value].phase != Arrived)
    && (s.writerStopCh.Some? ==> s.writerStopCh.value < |s.handlers|)
    && (s.removed ==> !s.running)
    && (StillOpen(s) ==> WriterAlive(s))
  }

  lemma StepKeepsInv(s: Server, a: Action)
    requires Inv(s)
    ensures Inv(Step(s, a))
  {
  }

  lemma {:induction false} RunKeepsInv(actions: seq<Action>)
    ensures Inv(Run(INITIAL, actions))
  {
    if actions != [] {
      RunKeepsInv(actions[..|actions| - 1]);
      StepKeepsInv(Run(INITIAL, actions[..|actions| - 1]), actions[|actions| - 1]);
    }
  }

  /** With any number of overlapping pulls, timers and lost stop notifications, and with
      Closes that have begun or even detached, a running connection has no writer whose
      pull handler has returned or has been told to, until a Close gives its notification. */
  lemma WriterIsAlive(s: Server)
    requires Leads(INITIAL, s) && StillOpen(s)
    ensures WriterAlive(s)
  {
    var actions :| Run(INITIAL, actions) == s;
    RunKeepsInv(actions);
  }

  /** One more pull, which attaches its writer and takes Close's notification. */
  function CaughtByClose(s: Server): Server {
    var h := |s.handlers|;
    OnCloseNotifies(OnCheckRunning(OnSetWriter(OnPullArrives(s), h), h), h)
  }

  lemma CaughtByCloseLeads(s0: Server, s: Server)
    requires Leads(s0, s)
    ensures Leads(s0, CaughtByClose(s))
  {
    hide Leads, OnSetWriter, OnCheckRunning, OnCloseNotifies;
    var h := |s.handlers|;
    LeadsOn(s0, s, PullArrives);
    LeadsOn(s0, OnPullArrives(s), SetWriter(h));
    var t := OnSetWriter(OnPullArrives(s), h);
    LeadsOn(s0, t, CheckRunning(h));
    LeadsOn(s0, OnCheckRunning(t, h), CloseNotifies(h));
  }

  lemma CaughtByCloseIsDead(s: Server)
    requires s.running && !s.removed && s.detached > 0
    ensures var t := CaughtByClose(s);
      t.running && t.writer.Some? && In(t, t.writer.value, Returned)
  {
    var h := |s.handlers|;
    var t := OnSetWriter(OnPullArrives(s), h);
    assert In(t, h, Attached);
  }

  /** The condition is needed: whenever a Close is about to give its notification, a pull
      that comes then can take it and return while the connection still runs and holds its
      writer. */
  lemma ClosingCanLeaveADeadWriter(s: Server)
    requires Leads(INITIAL, s) && s.running && s.detached > 0
    ensures exists t :: Leads(s, t) && t.running && t.writer.Some? && In(t, t.writer.value, Returned)
  {
    RunsAreNotRemoved(s);
    LeadsNowhere(s);
    CaughtByCloseLeads(s, s);
    CaughtByCloseIsDead(s);
  }

  lemma RunsAreNotRemoved(s: Server)
    requires Leads(INITIAL, s) && s.running
    ensures !s.removed
  {
    var actions :| Run(INITIAL, actions) == s;
    RunKeepsInv(actions);
  }

  /** One more Close, as far as its closeWrite. */
  function ClosedUpToDetaching(s: Server): Server {
    OnCloseDetaches(OnCloseTests(OnCloseBegins(s)))
  }

  lemma ClosedUpToDetachingLeads(s0: Server, s: Server)
    requires Leads(s0, s)
    ensures Leads(s0, ClosedUpToDetaching(s))
  {
    LeadsOn(s0, s, CloseBegins);
    LeadsOn(s0, OnCloseBegins(s), CloseTests);
    LeadsOn(s0, OnCloseTests(OnCloseBegins(s)), CloseDetaches);
  }

  /** And such a Close can begin in every running state that is reachable. */
  lemma ADeadWriterIsReachable(s: Server)
    requires Leads(INITIAL, s) && s.running
    ensures exists t :: Leads(s, t) && Leads(INITIAL, t) && t.running && t.writer.Some?
                     && In(t, t.writer.value, Returned)
  {
    var t := ClosedUpToDetaching(s);
    RunsAreNotRemoved(s);
    LeadsNowhere(s);
    ClosedUpToDetachingLeads(s, s);
    ClosedUpToDetachingLeads(INITIAL, s);
    CaughtByCloseLeads(s, t);
    CaughtByCloseLeads(INITIAL, t);
    CaughtByCloseIsDead(t);
  }
}
