/** The server's side of P2P as a mutable object, proved against P2PRooms. */
module P2PServer {
  import opened Basics
  import opened P2PRooms

  class P2PServer {
    var p2pSessionTable: Table

    constructor ()
      ensures p2pSessionTable == Run([])
    {
      p2pSessionTable := map[];
    }

    method AddP2PSession(auth: Auth, session: nat, raddr: Text) returns (ok: bool)
      modifies this
      ensures (p2pSessionTable, ok) == Add(old(p2pSessionTable), auth, session, raddr)
    {
      if auth.token !in p2pSessionTable {
        p2pSessionTable := p2pSessionTable[auth.token := map[]];
      }
      var m1 := p2pSessionTable[auth.token];
      var node := Node({}, [], []);
      if auth.connID in m1 {
        node := m1[auth.connID];
      } else if |m1| >= 2 {
        assert p2pSessionTable[auth.token := m1] == p2pSessionTable;
        return false;
      }
      if |auth.priAddr| > 0 {
        node := node.(priAddr := auth.priAddr);
        if |auth.pubAddr| == 0 {
          node := node.(pubAddr := raddr);
        } else {
          node := node.(pubAddr := auth.pubAddr);
        }
      } else {
        node := node.(sessions := node.sessions + {session});
      }
      p2pSessionTable := p2pSessionTable[auth.token := m1[auth.connID := node]];
      assert p2pSessionTable == old(p2pSessionTable)[auth.token := m1[auth.connID := node]];
      return true;
    }

    method RemoveP2PSession(auth: Option<Auth>, session: nat) returns (ok: bool)
      modifies this
      ensures p2pSessionTable == if auth.None? then old(p2pSessionTable)
                                 else Remove(old(p2pSessionTable), auth.value, session)
      ensures ok <==> auth.Some? && auth.value.connID in RoomOf(old(p2pSessionTable), auth.value.token)
    {
      if auth.None? || auth.value.token !in p2pSessionTable {
        return false;
      }
      var token, connID := auth.value.token, auth.value.connID;
      var m1 := p2pSessionTable[token];
      if connID !in m1 {
        return false;
      }
      var node := m1[connID];
      node := node.(sessions := node.sessions - {session});
      if node.sessions == {} {
        m1 := m1 - {connID};
        p2pSessionTable := p2pSessionTable[token := m1];
        if m1 == map[] {
          p2pSessionTable := p2pSessionTable - {token};
        }
      } else {
        if |auth.value.priAddr| > 0 {
          node := node.(priAddr := [], pubAddr := []);
        }
        p2pSessionTable := p2pSessionTable[token := m1[connID := node]];
      }
      return true;
    }

    method GetPeerAddr(auth: Auth) returns (pri: Text, pub: Text)
      ensures PeerAddr(p2pSessionTable, auth, pri, pub)
    {
      if auth.token !in p2pSessionTable {
        return [], [];
      }
      var m1 := p2pSessionTable[auth.token];
      var rest := m1.Keys;
      while rest != {}
        invariant rest <= m1.Keys && forall c <- m1 :: c in rest || c == auth.connID
        decreases rest
      {
        var connID :| connID in rest;
        if connID != auth.connID {
          assert connID in RoomOf(p2pSessionTable, auth.token);
          return m1[connID].priAddr, m1[connID].pubAddr;
        }
        rest := rest - {connID};
      }
      return [], [];
    }

    /** opens tells which sessions open a stream.  Only a session of another member is
        ever used, and one that fails is the end of it. */
    method OpenPeerStream(roomID: Text, cid: Text, opens: nat -> bool) returns (r: Option<nat>)
      ensures r.Some? ==> opens(r.value) && exists c <- RoomOf(p2pSessionTable, roomID) ::
                            c != cid && r.value in RoomOf(p2pSessionTable, roomID)[c].sessions
      ensures r.None? ==> forall c <- RoomOf(p2pSessionTable, roomID) :: c != cid ==>
                            RoomOf(p2pSessionTable, roomID)[c].sessions == {} || Failing(roomID, cid, opens)
    {
      if roomID !in p2pSessionTable {
        return None;
      }
      var m1 := p2pSessionTable[roomID];
      var rest := m1.Keys;
      while rest != {}
        invariant rest <= m1.Keys && forall c <- m1 :: c in rest || c == cid || m1[c].sessions == {}
        decreases rest
      {
        var connID :| connID in rest;
        if connID != cid && m1[connID].sessions != {} {
          var session :| session in m1[connID].sessions;
          assert connID in RoomOf(p2pSessionTable, roomID);
          return if opens(session) then Some(session) else None;
        }
        rest := rest - {connID};
      }
      return None;
    }

    ghost predicate Failing(roomID: Text, cid: Text, opens: nat -> bool)
      reads this
    {
      var room := RoomOf(p2pSessionTable, roomID);
      exists c, s :: c in room && c != cid && s in room[c].sessions && !opens(s)
    }

    /** The P2P part of serverAuthSession behind the registration. */
    method AuthReply(auth: Auth, raddr: Text) returns (authRes: Reply)
      ensures Answers(p2pSessionTable, auth, raddr, authRes)
    {
      authRes := Reply([], [], []);
      ghost var told: (Text, Text) := ([], []);
      if |auth.priAddr| > 0 {
        var pri, pub := GetPeerAddr(auth);
        told := (pri, pub);
        if |pri| > 0 {
          authRes := authRes.(peerPriAddr := pri, peerPubAddr := pub);
        }
      }
      if |auth.pubAddr| == 0 {
        authRes := authRes.(pubAddr := raddr);
      } else {
        authRes := authRes.(pubAddr := auth.pubAddr);
      }
      if auth.priAddr == [] {
        AnswersWithoutAddress(p2pSessionTable, auth, raddr, authRes);
      } else {
        AnswersByPeerAddr(p2pSessionTable, auth, raddr, authRes, told.0, told.1);
      }
    }

    /** The P2P part of serverAuthSession, for a user and compressor that are accepted,
        when no other session comes in between its two critical sections.  No reply means
        that the session is closed. */
    method ServerAuth(auth: Auth, session: nat, raddr: Text) returns (res: Option<Reply>)
      modifies this
      ensures auth.token == [] ==> res.Some? && p2pSessionTable == old(p2pSessionTable)
      ensures auth.token != [] ==> (p2pSessionTable, res.Some?) == Add(old(p2pSessionTable), auth, session, raddr)
      ensures res.Some? ==> Answers(p2pSessionTable, auth, raddr, res.value)
    {
      if |auth.token| > 0 {
        var ok := AddP2PSession(auth, session, raddr);
        if !ok {
          return None;
        }
      }
      var authRes := AuthReply(auth, raddr);
      return Some(authRes);
    }
  }
}
