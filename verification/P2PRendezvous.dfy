/** Two peers of one room exchange their addresses over the server and choose their
    roles.  Whatever else the server is asked, and however often a peer starts afresh,
    is part of a run. */
module P2PRendezvous {
  import opened Basics
  import opened Order
  import opened P2PRooms

  /** One session of a peer with the server: the addresses at its two ends as the server
      and the peer see them, and the one that UPNP opened for it, if any. */
  datatype Session = Session(raddr: Text, upnp: Text)

  /** An AuthRequest under way, and the session it was sent on. */
  datatype Request = Request(session: nat, priAddr: Text, pubAddr: Text)

  /** told is the partner's session that peerPubAddr was registered on. */
  datatype Told = Told(reply: Reply, told: Option<nat>)

  datatype Peer = Peer(
    sessions: seq<Session>,     // every session so far, the current one last
    pubLocalAddr: Text,
    peerPriAddr: Text,
    peerPubAddr: Text,
    told: Option<nat>,
    requests: set<Request>,     // those of earlier sessions may still be served
    looking: set<Request>,      // registered, and the partner not yet looked up
    reply: Option<Told>,        // on its way to the current session
    registered: Option<nat>)    // the session the server last registered

  datatype Who = A | B

  datatype Sys = Sys(table: Table, token: Text, ids: Who -> Text, a: Peer, b: Peer)

  datatype Action =
    | Connect(who: Who, session: Session)
    | Ask(who: Who, priAddr: Text)
    | Register(who: Who, request: Request, id: nat)
    | LookUp(who: Who, request: Request, reply: Reply, from: Option<Text>)
    | Receive(who: Who, forget: bool)
    | Gone(who: Who, priAddr: Text, id: nat)
    | Other(op: Op)

  function Of(s: Sys, who: Who): Peer {
    if who.A? then s.a else s.b
  }

  function Set(s: Sys, who: Who, p: Peer): Sys {
    if who.A? then s.(a := p) else s.(b := p)
  }

  function Partner(who: Who): Who {
    if who.A? then B else A
  }

  function Now(p: Peer): nat
    requires p.sessions != []
  {
    |p.sessions| - 1
  }

  /** The address that every request on a session ends up registering. */
  function Public(x: Session): Text {
    if x.upnp == [] then x.raddr else x.upnp
  }

  /** A new session with the server: the address variables start over. */
  function OnConnect(s: Sys, who: Who, session: Session): Sys {
    if session.raddr == [] then s
    else
      var p := Of(s, who);
      Set(s, who, p.(sessions := p.sessions + [session], pubLocalAddr := session.upnp,
                     peerPriAddr := [], peerPubAddr := [], told := None, reply := None))
  }

  predicate MayAsk(p: Peer) {
    && p.sessions != [] && p.peerPriAddr == [] && p.reply.None?
    && forall r <- p.requests + p.looking :: r.session != Now(p)
  }

  function OnAsk(s: Sys, who: Who, priAddr: Text): Sys {
    var p := Of(s, who);
    if MayAsk(p) && priAddr != [] then
      Set(s, who, p.(requests := p.requests + {Request(Now(p), priAddr, p.pubLocalAddr)}))
    else s
  }

  function AuthOf(s: Sys, who: Who, r: Request): Auth {
    Auth(s.token, s.ids(who), r.priAddr, r.pubAddr)
  }

  function Raddr(s: Sys, who: Who, r: Request): Text {
    if r.session < |Of(s, who).sessions| then Of(s, who).sessions[r.session].raddr else []
  }

  /** The first critical section of serverAuthSession: a refused request closes its
      session and is not answered. */
  function OnRegister(s: Sys, who: Who, r: Request, id: nat): Sys {
    var p := Of(s, who);
    if r !in p.requests then s
    else
      var (t, ok) := Add(s.table, AuthOf(s, who, r), id, Raddr(s, who, r));
      if !ok then Set(s, who, p.(requests := p.requests - {r}))
      else Set(s.(table := t), who,
               p.(requests := p.requests - {r}, looking := p.looking + {r}, registered := Some(r.session)))
  }

  /** Which session of the partner an address is from: it may be somebody else's. */
  function Source(s: Sys, who: Who, from: Option<Text>): Option<nat> {
    if from == Some(s.ids(Partner(who))) then Of(s, Partner(who)).registered else None
  }

  function Answered(p: Peer, r: Request, reply: Reply, told: Option<nat>): Peer {
    p.(looking := p.looking - {r},
       reply := if r.session + 1 == |p.sessions| then Some(Told(reply, told)) else p.reply)
  }

  /** The second one: getPeerAddr comes to from, and the reply is sent. */
  ghost function OnLookUp(s: Sys, who: Who, r: Request, reply: Reply, from: Option<Text>): Sys {
    var p := Of(s, who);
    if r in p.looking && AnswersFrom(s.table, AuthOf(s, who, r), Raddr(s, who, r), reply, from) then
      Set(s, who, Answered(p, r, reply, Source(s, who, from)))
    else s
  }

  /** What the peer becomes when it takes its reply; forget is for a partner it could not
      connect to before. */
  function Received(p: Peer, forget: bool): Peer {
    if p.reply.None? then p
    else
      var r := p.reply.value.reply;
      var q := p.(pubLocalAddr := if r.pubAddr == [] then p.pubLocalAddr else r.pubAddr, reply := None);
      if forget then q.(peerPriAddr := [], peerPubAddr := [], told := None)
      else q.(peerPriAddr := r.peerPriAddr, peerPubAddr := r.peerPubAddr, told := p.reply.value.told)
  }

  function OnReceive(s: Sys, who: Who, forget: bool): Sys {
    Set(s, who, Received(Of(s, who), forget))
  }

  /** The server notices, at any time, that one of the peer's exchange sessions has ended. */
  function OnGone(s: Sys, who: Who, priAddr: Text, id: nat): Sys {
    if priAddr == [] then s else s.(table := Remove(s.table, Auth(s.token, s.ids(who), priAddr, []), id))
  }

  /** Anything else asked of the table: data sessions of the two peers, other members,
      other rooms. */
  function OnOther(s: Sys, op: Op): Sys {
    if op.auth.token == s.token && op.auth.priAddr != [] && op.auth.connID in {s.ids(A), s.ids(B)} then s
    else s.(table := P2PRooms.Step(s.table, op))
  }

  ghost function Step(s: Sys, a: Action): Sys {
    match a
    case Connect(who, session) => OnConnect(s, who, session)
    case Ask(who, priAddr) => OnAsk(s, who, priAddr)
    case Register(who, request, id) => OnRegister(s, who, request, id)
    case LookUp(who, request, reply, from) => OnLookUp(s, who, request, reply, from)
    case Receive(who, forget) => OnReceive(s, who, forget)
    case Gone(who, priAddr, id) => OnGone(s, who, priAddr, id)
    case Other(op) => OnOther(s, op)
  }

  ghost function Run(s: Sys, actions: seq<Action>): Sys {
    if actions == [] then s else Step(Run(s, actions[..|actions| - 1]), actions[|actions| - 1])
  }

  const NEWCOMER := Peer([], [], [], [], None, {}, {}, None, None)

  ghost predicate Initial(s: Sys) {
    s.table == map[] && s.token != [] && s.ids(A) != s.ids(B) && s.a == s.b == NEWCOMER
  }

  ghost predicate Reachable(s: Sys) {
    exists s0, actions :: Initial(s0) && Run(s0, actions) == s
  }

  // ---------------------------------------------------------------- invariants

  /** What the table says of a peer is what one of its sessions registers. */
  ghost predicate NodeInv(s: Sys, who: Who) {
    var room, p := RoomOf(s.table, s.token), Of(s, who);
    s.ids(who) in room && room[s.ids(who)].priAddr != [] ==>
      && p.registered.Some? && p.registered.value < |p.sessions|
      && room[s.ids(who)].pubAddr == Public(p.sessions[p.registered.value])
  }

  /** address is what the partner's session told registers. */
  ghost predicate IsOf(partner: Peer, told: Option<nat>, address: Text) {
    told.Some? && address != [] ==> told.value < |partner.sessions| && address == Public(partner.sessions[told.value])
  }

  ghost predicate PeerInv(p: Peer, partner: Peer) {
    && (forall x <- p.sessions :: x.raddr != [])
    && (forall r <- p.requests + p.looking :: r.session < |p.sessions| && r.priAddr != []
          && (if r.pubAddr == [] then p.sessions[r.session].raddr else r.pubAddr) == Public(p.sessions[r.session]))
    && (p.sessions != [] ==>
          || p.pubLocalAddr == Public(p.sessions[Now(p)])
          || (p.pubLocalAddr == [] && p.sessions[Now(p)].upnp == []))
    && (p.reply.Some? ==>
          && p.sessions != [] && p.reply.value.reply.pubAddr == Public(p.sessions[Now(p)])
          && IsOf(partner, p.reply.value.told, p.reply.value.reply.peerPubAddr))
    && (p.peerPubAddr != [] ==> p.sessions != [] && p.pubLocalAddr == Public(p.sessions[Now(p)]))
    && IsOf(partner, p.told, p.peerPubAddr)
  }

  ghost predicate Inv(s: Sys) {
    && s.token != [] && s.ids(A) != s.ids(B)
    && RoomsHaveOneOrTwo(s.table)
    && NodeInv(s, A) && NodeInv(s, B)
    && PeerInv(s.a, s.b) && PeerInv(s.b, s.a)
  }

  lemma ConnectKeepsInv(s: Sys, who: Who, session: Session)
    requires Inv(s)
    ensures Inv(OnConnect(s, who, session))
  {
  }

  lemma AskKeepsInv(s: Sys, who: Who, priAddr: Text)
    requires Inv(s)
    ensures Inv(OnAsk(s, who, priAddr))
  {
    var p, partner := Of(s, who), Of(s, Partner(who));
    if MayAsk(p) && priAddr != [] {
      var q := p.(requests := p.requests + {Request(Now(p), priAddr, p.pubLocalAddr)});
      assert PeerInv(q, partner) by { AskedKeepsInv(p, partner, priAddr); }
      assert PeerInv(partner, q);
      hide PeerInv;
      var u := Set(s, who, q);
      assert NodeInv(u, who) && NodeInv(u, Partner(who));
    }
  }

  lemma AskedKeepsInv(p: Peer, partner: Peer, priAddr: Text)
    requires PeerInv(p, partner) && p.sessions != [] && priAddr != []
    ensures PeerInv(p.(requests := p.requests + {Request(Now(p), priAddr, p.pubLocalAddr)}), partner)
  {
  }

  lemma ReceivedKeepsInv(p: Peer, partner: Peer, forget: bool)
    requires PeerInv(p, partner)
    ensures PeerInv(Received(p, forget), partner)
  {
  }

  lemma ReceiveKeepsInv(s: Sys, who: Who, forget: bool)
    requires Inv(s)
    ensures Inv(OnReceive(s, who, forget))
  {
    var p, partner := Of(s, who), Of(s, Partner(who));
    var q := Received(p, forget);
    assert PeerInv(q, partner) by { ReceivedKeepsInv(p, partner, forget); }
    assert PeerInv(partner, q) by { PartnerIsUnmoved(p, q, partner); }
    hide PeerInv, Received;
    var u := Set(s, who, q);
    assert NodeInv(u, who) && NodeInv(u, Partner(who));
  }

  /** A change of the table that leaves the two peers' addresses alone, or takes them away. */
  lemma TableKeepsInv(s: Sys, op: Op)
    requires Inv(s)
    requires op.auth.token == s.token && op.auth.priAddr != [] && op.auth.connID in {s.ids(A), s.ids(B)} ==> op.Leave?
    ensures Inv(s.(table := P2PRooms.Step(s.table, op)))
  {
    var t := s.(table := P2PRooms.Step(s.table, op));
    assert RoomsHaveOneOrTwo(t.table) by { StepKeepsRooms(s.table, op); }
    assert NodeInv(t, A) by { NodeAfter(s.table, op, s.token, s.ids(A)); }
    assert NodeInv(t, B) by { NodeAfter(s.table, op, s.token, s.ids(B)); }
  }

  /** Whatever is done, a node that has an address keeps the one it had. */
  ghost predicate KeepsAddress(was: Room, room: Room, id: Text) {
    id in room && room[id].priAddr != [] ==>
      id in was && room[id].priAddr == was[id].priAddr && room[id].pubAddr == was[id].pubAddr
  }

  lemma NodeAfterJoin(t: Table, auth: Auth, session: nat, raddr: Text, token: Text, id: Text)
    requires !(auth.token == token && auth.priAddr != [] && auth.connID == id)
    ensures KeepsAddress(RoomOf(t, token), RoomOf(Add(t, auth, session, raddr).0, token), id)
  {
  }

  lemma NodeAfterLeave(t: Table, auth: Auth, session: nat, token: Text, id: Text)
    ensures KeepsAddress(RoomOf(t, token), RoomOf(Remove(t, auth, session), token), id)
  {
  }

  lemma NodeAfter(t: Table, op: Op, token: Text, id: Text)
    requires op.auth.token == token && op.auth.priAddr != [] && op.auth.connID == id ==> op.Leave?
    ensures KeepsAddress(RoomOf(t, token), RoomOf(P2PRooms.Step(t, op), token), id)
  {
    hide KeepsAddress, Add, Remove;
    match op
    case Join(auth, session, raddr) => NodeAfterJoin(t, auth, session, raddr, token, id);
    case Leave(auth, session) => NodeAfterLeave(t, auth, session, token, id);
  }

  /** An address that is the partner's is what one of its sessions registers. */
  lemma ToldOfPartner(s: Sys, who: Who, auth: Auth, raddr: Text, reply: Reply, from: Option<Text>)
    requires NodeInv(s, Partner(who)) && auth.token == s.token
    requires AnswersFrom(s.table, auth, raddr, reply, from)
    ensures IsOf(Of(s, Partner(who)), Source(s, who, from), reply.peerPubAddr)
  {
  }

  lemma RegisteredNode(s: Sys, who: Who, r: Request, id: nat)
    requires Inv(s) && r in Of(s, who).requests
    ensures var p := Of(s, who);
      var (t, ok) := Add(s.table, AuthOf(s, who, r), id, Raddr(s, who, r));
      && RoomsHaveOneOrTwo(t)
      && (!ok ==> t == s.table)
      && (ok ==> var room, was := RoomOf(t, s.token), RoomOf(s.table, s.token);
            && s.ids(who) in room && room[s.ids(who)].pubAddr == Public(p.sessions[r.session])
            && (s.ids(Partner(who)) in room <==> s.ids(Partner(who)) in was)
            && (s.ids(Partner(who)) in room ==> room[s.ids(Partner(who))] == was[s.ids(Partner(who))]))
  {
    JoinKeepsRooms(s.table, AuthOf(s, who, r), id, Raddr(s, who, r));
  }

  /** The peer that is answered. */
  lemma AnsweredKeepsInv(p: Peer, partner: Peer, r: Request, reply: Reply, told: Option<nat>)
    requires PeerInv(p, partner) && r in p.looking
    requires reply.pubAddr == Public(p.sessions[r.session]) && IsOf(partner, told, reply.peerPubAddr)
    ensures PeerInv(Answered(p, r, reply, told), partner)
  {
  }

  lemma PartnerIsUnmoved(p: Peer, q: Peer, partner: Peer)
    requires PeerInv(partner, p) && q.sessions == p.sessions
    ensures PeerInv(partner, q)
  {
  }

  /** A request goes from one set to the other, or out. */
  lemma MovedKeepsInv(p: Peer, q: Peer, partner: Peer)
    requires PeerInv(p, partner) && q.requests + q.looking <= p.requests + p.looking
    requires q == p.(requests := q.requests, looking := q.looking, registered := q.registered)
    ensures PeerInv(q, partner)
  {
  }

  lemma RefusedKeepsInv(s: Sys, who: Who, r: Request)
    requires Inv(s)
    ensures Inv(Set(s, who, Of(s, who).(requests := Of(s, who).requests - {r})))
  {
    var p, partner := Of(s, who), Of(s, Partner(who));
    var q := p.(requests := p.requests - {r});
    assert PeerInv(q, partner) by { MovedKeepsInv(p, q, partner); }
    assert PeerInv(partner, q) by { PartnerIsUnmoved(p, q, partner); }
    hide PeerInv;
    var u := Set(s, who, q);
    assert NodeInv(u, who) && NodeInv(u, Partner(who));
  }

  lemma TakenKeepsInv(s: Sys, who: Who, r: Request, id: nat)
    requires Inv(s) && r in Of(s, who).requests && Add(s.table, AuthOf(s, who, r), id, Raddr(s, who, r)).1
    ensures Inv(OnRegister(s, who, r, id))
  {
    var p, partner := Of(s, who), Of(s, Partner(who));
    var q := p.(requests := p.requests - {r}, looking := p.looking + {r}, registered := Some(r.session));
    assert PeerInv(q, partner) by { MovedKeepsInv(p, q, partner); }
    assert PeerInv(partner, q) by { PartnerIsUnmoved(p, q, partner); }
    RegisteredNode(s, who, r, id);
    assert r.session < |p.sessions|;
    hide PeerInv, Add;
    var u := OnRegister(s, who, r, id);
    assert Of(u, who) == q && Of(u, Partner(who)) == partner;
    assert NodeInv(u, who) && NodeInv(u, Partner(who));
  }

  lemma RegisterKeepsInv(s: Sys, who: Who, r: Request, id: nat)
    requires Inv(s)
    ensures Inv(OnRegister(s, who, r, id))
  {
    hide Inv, Add;
    if r in Of(s, who).requests {
      if Add(s.table, AuthOf(s, who, r), id, Raddr(s, who, r)).1 {
        TakenKeepsInv(s, who, r, id);
      } else {
        RefusedKeepsInv(s, who, r);
      }
    }
  }

  lemma LookUpKeepsInv(s: Sys, who: Who, r: Request, reply: Reply, from: Option<Text>)
    requires Inv(s)
    ensures Inv(OnLookUp(s, who, r, reply, from))
  {
    var p, partner := Of(s, who), Of(s, Partner(who));
    if r in p.looking && AnswersFrom(s.table, AuthOf(s, who, r), Raddr(s, who, r), reply, from) {
      var told := Source(s, who, from);
      var q := Answered(p, r, reply, told);
      assert IsOf(partner, told, reply.peerPubAddr) by {
        ToldOfPartner(s, who, AuthOf(s, who, r), Raddr(s, who, r), reply, from);
      }
      assert PeerInv(q, partner) by { AnsweredKeepsInv(p, partner, r, reply, told); }
      assert PeerInv(partner, q) by { PartnerIsUnmoved(p, q, partner); }
      var u := Set(s, who, q);
      assert NodeInv(u, who) && NodeInv(u, Partner(who));
    }
  }

  lemma StepKeepsInv(s: Sys, a: Action)
    requires Inv(s)
    ensures Inv(Step(s, a))
  {
    match a
    case Connect(who, session) => ConnectKeepsInv(s, who, session);
    case Ask(who, priAddr) => AskKeepsInv(s, who, priAddr);
    case Register(who, request, id) => RegisterKeepsInv(s, who, request, id);
    case LookUp(who, request, reply, from) => LookUpKeepsInv(s, who, request, reply, from);
    case Receive(who, forget) => ReceiveKeepsInv(s, who, forget);
    case Gone(who, priAddr, id) => TableKeepsInv(s, Leave(Auth(s.token, s.ids(who), priAddr, []), id));
    case Other(op) =>
      if op.auth.token == s.token && op.auth.priAddr != [] && op.auth.connID in {s.ids(A), s.ids(B)} {
      } else {
        TableKeepsInv(s, op);
      }
  }

  lemma {:induction false} RunKeepsInv(s: Sys, actions: seq<Action>)
    requires Inv(s)
    ensures Inv(Run(s, actions))
  {
    if actions != [] {
      RunKeepsInv(s, actions[..|actions| - 1]);
      StepKeepsInv(Run(s, actions[..|actions| - 1]), actions[|actions| - 1]);
    }
  }

  lemma ReachableInv(s: Sys)
    requires Reachable(s)
    ensures Inv(s)
  {
    var s0, actions :| Initial(s0) && Run(s0, actions) == s;
    RunKeepsInv(s0, actions);
  }

  // ---------------------------------------------------------------- roles

  datatype Role = Client | Server

  /** Out of the exchange loop with an address to connect to. */
  predicate Decided(p: Peer) {
    p.sessions != [] && p.peerPubAddr != []
  }

  function RoleOf(p: Peer): Role {
    if Less(p.pubLocalAddr, p.peerPubAddr) then Client else Server
  }

  /** p knows the partner by the session that the partner is in. */
  ghost predicate UpToDate(p: Peer, partner: Peer) {
    partner.sessions != [] && p.told == Some(Now(partner))
  }

  /** The address a peer has adopted is the one its partner is told; so two peers that
      each know the other's latest registration take different roles exactly when their
      addresses differ, and both are servers otherwise. */
  lemma RolesAreComplementary(s: Sys)
    requires Reachable(s) && Decided(s.a) && Decided(s.b) && UpToDate(s.a, s.b) && UpToDate(s.b, s.a)
    ensures s.a.peerPubAddr == s.b.pubLocalAddr && s.b.peerPubAddr == s.a.pubLocalAddr
    ensures s.a.pubLocalAddr != s.b.pubLocalAddr <==> RoleOf(s.a) != RoleOf(s.b)
    ensures s.a.pubLocalAddr == s.b.pubLocalAddr <==> RoleOf(s.a) == RoleOf(s.b) == Server
  {
    ReachableInv(s);
    LessIsTotal(s.a.pubLocalAddr, s.b.pubLocalAddr);
  }

  /** As two peers do that have never had to start afresh. */
  lemma WithoutRestartRolesAreComplementary(s: Sys)
    requires Reachable(s) && Decided(s.a) && Decided(s.b) && |s.a.sessions| == |s.b.sessions| == 1
    requires s.a.told.Some? && s.b.told.Some?
    ensures s.a.pubLocalAddr != s.b.pubLocalAddr <==> RoleOf(s.a) != RoleOf(s.b)
  {
    ReachableInv(s);
    RolesAreComplementary(s);
  }

  // ---------------------------------------------------------------- a stale address

  lemma ReachesOn(s: Sys, a: Action)
    requires Reachable(s)
    ensures Reachable(Step(s, a))
  {
    var s0, actions :| Initial(s0) && Run(s0, actions) == s;
    assert (actions + [a])[..|actions|] == actions;
    assert Run(s0, actions + [a]) == Step(s, a);
  }

  /** A peer starts a session, asks once, is served and takes the reply. */
  ghost function Exchanged(s: Sys, who: Who, session: Session, pri: Text, reply: Reply, from: Option<Text>): Sys {
    var r := Request(|Of(s, who).sessions|, pri, []);
    var asked := OnAsk(OnConnect(s, who, session), who, pri);
    OnReceive(OnLookUp(OnRegister(asked, who, r, 0), who, r, reply, from), who, false)
  }

  lemma ExchangeReaches(s: Sys, who: Who, session: Session, pri: Text, reply: Reply, from: Option<Text>)
    requires Reachable(s)
    ensures Reachable(Exchanged(s, who, session, pri, reply, from))
  {
    hide OnConnect, OnAsk, OnRegister, OnLookUp, OnReceive, Reachable;
    var r := Request(|Of(s, who).sessions|, pri, []);
    ReachesOn(s, Connect(who, session));
    var s1 := OnConnect(s, who, session);
    ReachesOn(s1, Ask(who, pri));
    var s2 := OnAsk(s1, who, pri);
    ReachesOn(s2, Register(who, r, 0));
    var s3 := OnRegister(s2, who, r, 0);
    ReachesOn(s3, LookUp(who, r, reply, from));
    var s4 := OnLookUp(s3, who, r, reply, from);
    ReachesOn(s4, Receive(who, false));
  }

  lemma AskedAtOnce(s: Sys, who: Who, session: Session, pri: Text)
    requires Of(s, who).requests == {} && Of(s, who).looking == {}
    requires session.raddr != [] && session.upnp == [] && pri != []
    ensures var p, r := Of(s, who), Request(|Of(s, who).sessions|, pri, []);
      OnAsk(OnConnect(s, who, session), who, pri)
      == Set(s, who, Peer(p.sessions + [session], [], [], [], None, {r}, {}, None, p.registered))
  {
  }

  lemma RegisteredAtOnce(s: Sys, who: Who, r: Request)
    requires var p := Of(s, who); p.requests == {r} && p.looking == {}
    requires Add(s.table, AuthOf(s, who, r), 0, Raddr(s, who, r)).1
    ensures var p := Of(s, who);
      OnRegister(s, who, r, 0)
      == Set(s.(table := Add(s.table, AuthOf(s, who, r), 0, Raddr(s, who, r)).0), who,
             p.(requests := {}, looking := {r}, registered := Some(r.session)))
  {
    hide Add;
    assert {r} - {r} == {} && {} + {r} == {r};
  }

  lemma AnsweredAtOnce(s: Sys, who: Who, r: Request, reply: Reply, from: Option<Text>)
    requires var p := Of(s, who); p.looking == {r} && r.session + 1 == |p.sessions|
    requires AnswersFrom(s.table, AuthOf(s, who, r), Raddr(s, who, r), reply, from) && reply.pubAddr != []
    ensures var p := Of(s, who);
      OnReceive(OnLookUp(s, who, r, reply, from), who, false)
      == Set(s, who, p.(pubLocalAddr := reply.pubAddr, peerPriAddr := reply.peerPriAddr,
                        peerPubAddr := reply.peerPubAddr,
                        told := Source(s, who, from), looking := {}, reply := None))
  {
    hide AnswersFrom;
    assert {r} - {r} == {};
  }

  lemma ExchangeEffect(s: Sys, who: Who, session: Session, pri: Text, reply: Reply, from: Option<Text>)
    requires Of(s, who).requests == {} && Of(s, who).looking == {}
    requires session.raddr != [] && session.upnp == [] && pri != []
    requires var auth := Auth(s.token, s.ids(who), pri, []);
      var (t, ok) := Add(s.table, auth, 0, session.raddr);
      ok && AnswersFrom(t, auth, session.raddr, reply, from)
    ensures var p, t := Of(s, who), Add(s.table, Auth(s.token, s.ids(who), pri, []), 0, session.raddr).0;
      Exchanged(s, who, session, pri, reply, from)
      == Set(s.(table := t), who, Peer(p.sessions + [session], session.raddr, reply.peerPriAddr, reply.peerPubAddr,
                                       Source(s, who, from), {}, {}, None, Some(|p.sessions|)))
  {
    var r := Request(|Of(s, who).sessions|, pri, []);
    var s2 := OnAsk(OnConnect(s, who, session), who, pri);
    AskedAtOnce(s, who, session, pri);
    hide Add, OnConnect, OnAsk, OnRegister, OnLookUp, OnReceive;
    RegisteredAtOnce(s2, who, r);
    assert reply.pubAddr == session.raddr;
    hide AnswersFrom;
    AnsweredAtOnce(OnRegister(s2, who, r, 0), who, r, reply, from);
  }

  /** The room holds nobody but the two peers, as they register from address pri. */
  ghost predicate JustTheTwo(s: Sys, pri: Text) {
    var room := RoomOf(s.table, s.token);
    forall c <- room :: c in {s.ids(A), s.ids(B)} && room[c] == Node({}, room[c].pubAddr, pri) && room[c].pubAddr != []
  }

  /** What such a peer is answered. */
  function TwoPartyReply(s: Sys, who: Who, x: Text, pri: Text): Reply {
    var room, other := RoomOf(s.table, s.token), s.ids(Partner(who));
    if other in room then Reply(x, pri, room[other].pubAddr) else Reply(x, [], [])
  }

  function TwoPartyFrom(s: Sys, who: Who): Option<Text> {
    if s.ids(Partner(who)) in RoomOf(s.table, s.token) then Some(s.ids(Partner(who))) else None
  }

  lemma JoinsTheRoom(s: Sys, who: Who, x: Text, pri: Text)
    requires s.ids(A) != s.ids(B) && JustTheTwo(s, pri) && x != [] && pri != []
    ensures var auth := Auth(s.token, s.ids(who), pri, []);
      var (t, ok) := Add(s.table, auth, 0, x);
      && ok && RoomOf(t, s.token) == RoomOf(s.table, s.token)[s.ids(who) := Node({}, x, pri)]
      && AnswersFrom(t, auth, x, TwoPartyReply(s, who, x, pri), TwoPartyFrom(s, who))
  {
    var auth, room, other := Auth(s.token, s.ids(who), pri, []), RoomOf(s.table, s.token), s.ids(Partner(who));
    assert !Refused(s.table, auth) by {
      if s.ids(who) !in room { SubsetSize(room.Keys, {other}); }
    }
  }

  lemma Meets(s: Sys, who: Who, x: Text, pri: Text) returns (t: Sys)
    requires s.ids(A) != s.ids(B) && JustTheTwo(s, pri) && x != [] && pri != []
    requires Reachable(s) && Of(s, who).requests == {} && Of(s, who).looking == {}
    ensures Reachable(t) && t.ids == s.ids && t.token == s.token && Of(t, Partner(who)) == Of(s, Partner(who))
    ensures RoomOf(t.table, t.token) == RoomOf(s.table, s.token)[s.ids(who) := Node({}, x, pri)]
    ensures var q, room, other := Of(t, who), RoomOf(s.table, s.token), s.ids(Partner(who));
      && q.sessions != [] && q.requests == {} && q.looking == {} && q.pubLocalAddr == x && q.registered.Some?
      && (other in room ==> q.peerPubAddr == room[other].pubAddr && q.told == Of(s, Partner(who)).registered)
  {
    var reply, from := TwoPartyReply(s, who, x, pri), TwoPartyFrom(s, who);
    JoinsTheRoom(s, who, x, pri);
    t := Exchanged(s, who, Session(x, []), pri, reply, from);
    assert Reachable(t) by { ExchangeReaches(s, who, Session(x, []), pri, reply, from); }
    hide Add, AnswersFrom, Exchanged;
    ExchangeEffect(s, who, Session(x, []), pri, reply, from);
  }

  /** Without being up to date the roles can clash: B is told A's address, A starts
      afresh from a lower one, and both become clients though their addresses differ. */
  lemma StaleAddressesClash(s0: Sys, x: Text, y: Text, z: Text, pri: Text)
    requires Initial(s0) && x != [] && Less(x, y) && Less(y, z) && pri != []
    ensures exists s :: Reachable(s) && Decided(s.a) && Decided(s.b) && s.a.told.Some? && s.b.told.Some?
              && s.a.pubLocalAddr != s.b.pubLocalAddr && RoleOf(s.a) == RoleOf(s.b) == Client
  {
    assert Reachable(s0) by { assert Run(s0, []) == s0; }
    var s1 := Meets(s0, A, z, pri);
    var s2 := Meets(s1, B, y, pri);
    var s3 := Meets(s2, A, x, pri);
    LessIsTotal(x, y);
    assert RoleOf(s3.a) == RoleOf(s3.b) == Client;
  }
}
