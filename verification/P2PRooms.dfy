/** The server's table of P2P rooms: who may join, what leaving removes, and whose
    address a member is told. */
module P2PRooms {
  import opened Basics

  type Text = seq<byte>

  /** p2pNode */
  datatype Node = Node(sessions: set<nat>, pubAddr: Text, priAddr: Text)

  type Room = map<Text, Node>
  type Table = map<Text, Room>

  /** The fields of mux.AuthRequest that matter here. */
  datatype Auth = Auth(token: Text, connID: Text, priAddr: Text, pubAddr: Text)

  datatype Op = Join(auth: Auth, session: nat, raddr: Text) | Leave(auth: Auth, session: nat)

  function RoomOf(t: Table, token: Text): Room {
    if token in t then t[token] else map[]
  }

  predicate Refused(t: Table, auth: Auth) {
    auth.connID !in RoomOf(t, auth.token) && |RoomOf(t, auth.token)| >= 2
  }

  /** What a join makes of its node: an address or a session. */
  function Joined(n: Node, auth: Auth, session: nat, raddr: Text): Node {
    if auth.priAddr != [] then
      n.(priAddr := auth.priAddr, pubAddr := if auth.pubAddr == [] then raddr else auth.pubAddr)
    else n.(sessions := n.sessions + {session})
  }

  /** addP2PSession; a room that is missing is made before the limit is looked at. */
  function Add(t: Table, auth: Auth, session: nat, raddr: Text): (Table, bool) {
    var room := RoomOf(t, auth.token);
    if Refused(t, auth) then (t[auth.token := room], false)
    else
      var n := if auth.connID in room then room[auth.connID] else Node({}, [], []);
      (t[auth.token := room[auth.connID := Joined(n, auth, session, raddr)]], true)
  }

  /** removeP2PSession */
  function Remove(t: Table, auth: Auth, session: nat): Table {
    var room := RoomOf(t, auth.token);
    if auth.connID !in room then t
    else
      var n := room[auth.connID].(sessions := room[auth.connID].sessions - {session});
      if n.sessions == {} then
        var smaller := room - {auth.connID};
        if smaller == map[] then t - {auth.token} else t[auth.token := smaller]
      else
        t[auth.token := room[auth.connID := if auth.priAddr != [] then n.(priAddr := [], pubAddr := []) else n]]
  }

  function Step(t: Table, op: Op): Table {
    match op
    case Join(auth, session, raddr) => Add(t, auth, session, raddr).0
    case Leave(auth, session) => Remove(t, auth, session)
  }

  function Run(ops: seq<Op>): Table {
    if ops == [] then map[] else Step(Run(ops[..|ops| - 1]), ops[|ops| - 1])
  }

  // ---------------------------------------------------------------- every run

  /** Each room in the table has one or two members. */
  ghost predicate RoomsHaveOneOrTwo(t: Table) {
    forall token <- t :: 1 <= |t[token]| <= 2
  }

  lemma SizeOfUpdate<K, V>(m: map<K, V>, k: K, v: V)
    ensures |m[k := v]| == |m| + if k in m then 0 else 1
  {
    assert m[k := v].Keys == m.Keys + {k};
  }

  lemma SizeOfRemoval<K, V>(m: map<K, V>, k: K)
    requires k in m
    ensures |m - {k}| == |m| - 1
  {
    assert (m - {k}).Keys == m.Keys - {k};
  }

  lemma JoinKeepsRooms(t: Table, auth: Auth, session: nat, raddr: Text)
    requires RoomsHaveOneOrTwo(t)
    ensures RoomsHaveOneOrTwo(Add(t, auth, session, raddr).0)
  {
    var room := RoomOf(t, auth.token);
    var n := if auth.connID in room then room[auth.connID] else Node({}, [], []);
    SizeOfUpdate(room, auth.connID, Joined(n, auth, session, raddr));
  }

  lemma LeaveKeepsRooms(t: Table, auth: Auth, session: nat)
    requires RoomsHaveOneOrTwo(t)
    ensures RoomsHaveOneOrTwo(Remove(t, auth, session))
  {
    var room := RoomOf(t, auth.token);
    if auth.connID in room {
      var n := room[auth.connID].(sessions := room[auth.connID].sessions - {session});
      SizeOfRemoval(room, auth.connID);
      SizeOfUpdate(room, auth.connID, if auth.priAddr != [] then n.(priAddr := [], pubAddr := []) else n);
    }
  }

  lemma StepKeepsRooms(t: Table, op: Op)
    requires RoomsHaveOneOrTwo(t)
    ensures RoomsHaveOneOrTwo(Step(t, op))
  {
    match op
    case Join(auth, session, raddr) => JoinKeepsRooms(t, auth, session, raddr);
    case Leave(auth, session) => LeaveKeepsRooms(t, auth, session);
  }

  lemma {:induction false} RunKeepsRooms(ops: seq<Op>)
    ensures RoomsHaveOneOrTwo(Run(ops))
  {
    if ops != [] {
      RunKeepsRooms(ops[..|ops| - 1]);
      StepKeepsRooms(Run(ops[..|ops| - 1]), ops[|ops| - 1]);
    }
  }

  /** A refused join changes nothing; any other makes its sender a member. */
  lemma JoinsOrChangesNothing(t: Table, auth: Auth, session: nat, raddr: Text)
    ensures var r := Add(t, auth, session, raddr);
      && (r.1 <==> !(auth.token in t && |t[auth.token]| >= 2 && auth.connID !in t[auth.token]))
      && (!r.1 ==> r.0 == t)
      && (r.1 ==> auth.connID in RoomOf(r.0, auth.token))
  {
  }

  // ---------------------------------------------------------------- the peer's address

  /** What getPeerAddr can return, whatever the iteration order of the room. */
  ghost predicate PeerAddr(t: Table, auth: Auth, pri: Text, pub: Text) {
    var room := RoomOf(t, auth.token);
    if exists c <- room :: c != auth.connID then
      exists c <- room :: c != auth.connID && pri == room[c].priAddr && pub == room[c].pubAddr
    else pri == [] && pub == []
  }

  /** The address fields of mux.AuthResponse. */
  datatype Reply = Reply(pubAddr: Text, peerPriAddr: Text, peerPubAddr: Text)

  /** What serverAuthSession answers when the table is t and getPeerAddr comes to member
      from, or to nobody: the asker's own public address, and the other's two once it has
      any. */
  ghost predicate AnswersFrom(t: Table, auth: Auth, raddr: Text, reply: Reply, from: Option<Text>) {
    var room := RoomOf(t, auth.token);
    && reply.pubAddr == (if auth.pubAddr == [] then raddr else auth.pubAddr)
    && (if from.Some? then from.value in room && from.value != auth.connID else forall c <- room :: c == auth.connID)
    && if auth.priAddr == [] || from.None? || room[from.value].priAddr == [] then
         reply.peerPriAddr == [] && reply.peerPubAddr == []
       else
         reply.peerPriAddr == room[from.value].priAddr && reply.peerPubAddr == room[from.value].pubAddr
  }

  ghost predicate Answers(t: Table, auth: Auth, raddr: Text, reply: Reply) {
    exists from :: AnswersFrom(t, auth, raddr, reply, from)
  }

  /** The answer is what getPeerAddr can return. */
  lemma AnswersByPeerAddr(t: Table, auth: Auth, raddr: Text, reply: Reply, pri: Text, pub: Text)
    requires auth.priAddr != [] && PeerAddr(t, auth, pri, pub)
    requires reply.pubAddr == (if auth.pubAddr == [] then raddr else auth.pubAddr)
    requires reply.peerPriAddr == pri && reply.peerPubAddr == if pri == [] then [] else pub
    ensures Answers(t, auth, raddr, reply)
  {
    var room := RoomOf(t, auth.token);
    if exists c <- room :: c != auth.connID {
      var c :| c in room && c != auth.connID && pri == room[c].priAddr && pub == room[c].pubAddr;
      assert AnswersFrom(t, auth, raddr, reply, Some(c));
    } else {
      assert AnswersFrom(t, auth, raddr, reply, None);
    }
  }

  lemma AnswersWithoutAddress(t: Table, auth: Auth, raddr: Text, reply: Reply)
    requires auth.priAddr == [] && reply.peerPriAddr == [] && reply.peerPubAddr == []
    requires reply.pubAddr == (if auth.pubAddr == [] then raddr else auth.pubAddr)
    ensures Answers(t, auth, raddr, reply)
  {
    var room := RoomOf(t, auth.token);
    if c :| c in room && c != auth.connID {
      assert AnswersFrom(t, auth, raddr, reply, Some(c));
    } else {
      assert AnswersFrom(t, auth, raddr, reply, None);
    }
  }

  /** For a member the iteration order makes no difference, in any run. */
  lemma PeerOfMemberIsDetermined(ops: seq<Op>, auth: Auth, pri: Text, pub: Text, pri2: Text, pub2: Text)
    requires auth.connID in RoomOf(Run(ops), auth.token)
    requires PeerAddr(Run(ops), auth, pri, pub) && PeerAddr(Run(ops), auth, pri2, pub2)
    ensures pri == pri2 && pub == pub2
  {
    RunKeepsRooms(ops);
    OneOther(RoomOf(Run(ops), auth.token), auth.connID);
  }

  lemma OneOther(room: Room, me: Text)
    requires me in room && |room| <= 2
    ensures forall c, d :: c in room && d in room && c != me && d != me ==> c == d
  {
    forall c, d | c in room && d in room && c != me && d != me ensures c == d {
      if c != d { ThreeMembers(room, me, c, d); }
    }
  }

  lemma ThreeMembers(room: Room, a: Text, b: Text, c: Text)
    requires a in room && b in room && c in room && a != b && b != c && a != c
    ensures |room| >= 3
  {
    var three := {a, b, c};
    SubsetSize(three, room.Keys);
    assert |three| == 3;
  }

  lemma SubsetSize<T>(a: set<T>, b: set<T>)
    requires a <= b
    ensures |a| <= |b|
  {
    if a != {} {
      var x :| x in a;
      SubsetSize(a - {x}, b - {x});
    }
  }

  /** The iteration order makes no difference. */
  ghost predicate Determined(t: Table, auth: Auth) {
    forall pri, pub, pri2, pub2 :: PeerAddr(t, auth, pri, pub) && PeerAddr(t, auth, pri2, pub2) ==>
      pri == pri2 && pub == pub2
  }

  ghost predicate SameAddress(room: Room, c: Text, d: Text)
    requires c in room && d in room
  {
    room[c].priAddr == room[d].priAddr && room[c].pubAddr == room[d].pubAddr
  }

  /** Whoever asks, it makes none exactly if all members but the asker have registered the
      same two addresses. */
  lemma DeterminedExactlyIf(t: Table, auth: Auth)
    ensures Determined(t, auth) <==>
              var room := RoomOf(t, auth.token);
              forall c, d :: c in room && d in room && c != auth.connID && d != auth.connID ==> SameAddress(room, c, d)
  {
    var room := RoomOf(t, auth.token);
    if Determined(t, auth) {
      forall c, d | c in room && d in room && c != auth.connID && d != auth.connID ensures SameAddress(room, c, d) {
        assert PeerAddr(t, auth, room[c].priAddr, room[c].pubAddr);
        assert PeerAddr(t, auth, room[d].priAddr, room[d].pubAddr);
      }
    }
  }

  /** Two members join under different addresses, and a stranger asks. */
  lemma StrangersCanBeToldEither(token: Text, a: Text, b: Text, stranger: Text, pri: Text, x: Text, y: Text)
    requires a != b && stranger !in {a, b} && pri != [] && x != y
    ensures var ops := [Join(Auth(token, a, pri, []), 0, x), Join(Auth(token, b, pri, []), 1, y)];
      !Determined(Run(ops), Auth(token, stranger, [], []))
  {
    var first, second := Join(Auth(token, a, pri, []), 0, x), Join(Auth(token, b, pri, []), 1, y);
    var t := Step(Step(map[], first), second);
    assert Run([first, second]) == t by { RunOfTwo(first, second); }
    var room := RoomOf(t, token);
    assert a in room && b in room && room[a].pubAddr == x && room[b].pubAddr == y;
    assert !SameAddress(room, a, b);
    DeterminedExactlyIf(t, Auth(token, stranger, [], []));
  }

  lemma RunOfTwo(first: Op, second: Op)
    ensures Run([first, second]) == Step(Step(map[], first), second)
  {
    assert [first, second][..1] == [first] && [first][..0] == [];
    assert Run([first]) == Step(Run([]), first);
  }

  // ---------------------------------------------------------------- runs of data joins

  /** The token and id that each session uses. */
  type Home = nat -> (Text, Text)

  predicate DataOp(op: Op, home: Home) {
    op.auth.priAddr == [] && home(op.session) == (op.auth.token, op.auth.connID)
  }

  /** The sessions that have joined and not left. */
  function Live(ops: seq<Op>): set<nat> {
    if ops == [] then {}
    else
      var before, op := ops[..|ops| - 1], ops[|ops| - 1];
      match op
      case Join(auth, session, raddr) =>
        if Add(Run(before), auth, session, raddr).1 then Live(before) + {session} else Live(before)
      case Leave(_, session) => Live(before) - {session}
  }

  function At(t: Table, token: Text, connID: Text): set<nat> {
    if connID in RoomOf(t, token) then RoomOf(t, token)[connID].sessions else {}
  }

  ghost predicate NodesFilled(t: Table) {
    forall token <- t :: t[token] != map[] && forall c <- t[token] :: t[token][c].sessions != {}
  }

  /** Every node holds exactly the live sessions whose home it is, and at least one. */
  ghost predicate Mirrors(t: Table, live: set<nat>, home: Home) {
    && NodesFilled(t)
    && (forall token, c, s :: s in At(t, token, c) <==> s in live && home(s) == (token, c))
  }

  function LiveAfter(t: Table, live: set<nat>, op: Op): set<nat> {
    if op.Leave? then live - {op.session} else if Refused(t, op.auth) then live else live + {op.session}
  }

  lemma AtAfter(t: Table, op: Op, home: Home, token: Text, c: Text)
    requires DataOp(op, home)
    ensures At(Step(t, op), token, c)
            == if (token, c) != (op.auth.token, op.auth.connID) then At(t, token, c)
               else LiveAfter(t, At(t, token, c), op)
  {
  }

  lemma FilledWith(t: Table, token: Text, c: Text, n: Node)
    requires NodesFilled(t) && n.sessions != {}
    ensures NodesFilled(t[token := RoomOf(t, token)[c := n]])
  {
    assert c in RoomOf(t, token)[c := n];
  }

  lemma JoinKeepsFilled(t: Table, auth: Auth, session: nat, raddr: Text)
    requires NodesFilled(t) && auth.priAddr == []
    ensures NodesFilled(Add(t, auth, session, raddr).0)
  {
    hide NodesFilled;
    var room := RoomOf(t, auth.token);
    if Refused(t, auth) {
      assert t[auth.token := room] == t;
    } else {
      var n := if auth.connID in room then room[auth.connID] else Node({}, [], []);
      assert session in Joined(n, auth, session, raddr).sessions;
      FilledWith(t, auth.token, auth.connID, Joined(n, auth, session, raddr));
    }
  }

  lemma LeaveKeepsFilled(t: Table, auth: Auth, session: nat)
    requires NodesFilled(t) && auth.priAddr == []
    ensures NodesFilled(Remove(t, auth, session))
  {
    var u: Table := Remove(t, auth, session);
    forall token <- u ensures u[token] != map[] && forall c <- u[token] :: u[token][c].sessions != {} {
      if token != auth.token { assert u[token] == t[token]; }
    }
  }

  lemma NodesStayFilled(t: Table, op: Op, home: Home)
    requires DataOp(op, home) && NodesFilled(t)
    ensures NodesFilled(Step(t, op))
  {
    hide NodesFilled, Add, Remove;
    match op
    case Join(auth, session, raddr) => JoinKeepsFilled(t, auth, session, raddr);
    case Leave(auth, session) => LeaveKeepsFilled(t, auth, session);
  }

  lemma StepMirrors(t: Table, live: set<nat>, op: Op, home: Home)
    requires Mirrors(t, live, home) && DataOp(op, home)
    ensures Mirrors(Step(t, op), LiveAfter(t, live, op), home)
  {
    hide At, Step, NodesFilled, LiveAfter, DataOp;
    NodesStayFilled(t, op, home);
    forall token, c, s
      ensures s in At(Step(t, op), token, c) <==> s in LiveAfter(t, live, op) && home(s) == (token, c)
    {
      OneStaysMirrored(t, live, op, home, token, c, s);
    }
  }

  lemma OneStaysMirrored(t: Table, live: set<nat>, op: Op, home: Home, token: Text, c: Text, s: nat)
    requires Mirrors(t, live, home) && DataOp(op, home)
    ensures s in At(Step(t, op), token, c) <==> s in LiveAfter(t, live, op) && home(s) == (token, c)
  {
    hide At, Step, NodesFilled, Refused;
    AtAfter(t, op, home, token, c);
    assert s in At(t, token, c) <==> s in live && home(s) == (token, c);
  }

  /** In runs of data joins the table holds exactly the sessions that have joined and
      not left, each in its own place, and is empty once all have left. */
  lemma {:induction false} TableMirrorsSessions(ops: seq<Op>, home: Home)
    requires forall i :: 0 <= i < |ops| ==> DataOp(ops[i], home)
    ensures Mirrors(Run(ops), Live(ops), home)
    ensures Live(ops) == {} <==> Run(ops) == map[]
  {
    if ops != [] {
      var before, op := ops[..|ops| - 1], ops[|ops| - 1];
      TableMirrorsSessions(before, home);
      StepMirrors(Run(before), Live(before), op, home);
    }
    EmptyIfNoneLives(Run(ops), Live(ops), home);
  }

  lemma EmptyIfNoneLives(t: Table, live: set<nat>, home: Home)
    requires Mirrors(t, live, home)
    ensures live == {} <==> t == map[]
  {
    if t != map[] {
      var token :| token in t;
      var c :| c in t[token];
      var s :| s in t[token][c].sessions;
      assert s in At(t, token, c);
    }
    if live != {} {
      var s :| s in live;
      assert s in At(t, home(s).0, home(s).1);
    }
  }
}
