/** The two ends of the SOCKS5 handshake run against each other.  The client writes and
    then waits, so what has reached the server at each phase is what the client writes
    when it is given no more than the server has sent by then. */
module Socks5Joint {
  import opened Basics
  import opened HostPort
  import Client = Socks5Client
  import Server = Socks5Server
  import Codec = SocksArgsCodec

  /** How both ends come out, and the server's end of the connection. */
  datatype Ends = Ends(client: Client.Progress, server: Outcome<Server.Request, Server.Failure>, rw: Server.Io)

  /** What the client wrote since it had written before. */
  function Deliver(rw: Server.Io, before: Bytes, now: Bytes): Server.Io {
    rw.(arrived := rw.arrived + if |before| <= |now| then now[|before|..] else [])
  }

  /** Socks5ProxyConnect against socks5Handshake and, if that succeeds, the granted reply. */
  function Joint(ips: IpText, l: Client.Login, host: Bytes, port: int): Ends {
    var greeted := Client.Connected(ips, l, host, port, []).out;
    var (m, s1) := Server.Negotiated(Server.Io(greeted, [], []));
    if m.Err? then Ends(Client.Connected(ips, l, host, port, s1.sent), Err(m.error), s1)
    else
      // without a password there is nothing to wait for before the buffers are flushed
      var out := if m.value == Server.AUTH_NONE then greeted else Client.Connected(ips, l, host, port, s1.sent).out;
      var (req, s2) := Server.Authenticated(Deliver(s1, greeted, out), m.value);
      if req.Err? then Ends(Client.Connected(ips, l, host, port, s2.sent), req, s2)
      else Commanded(ips, l, host, port, out, req.value, s2)
  }

  function Commanded(ips: IpText, l: Client.Login, host: Bytes, port: int,
                     out: Bytes, req: Server.Request, rw: Server.Io): Ends
  {
    var asked := Client.Connected(ips, l, host, port, rw.sent).out;
    var (target, s3) := Server.CommandRead(Deliver(rw, out, asked), ips);
    if target.Err? then Ends(Client.Connected(ips, l, host, port, s3.sent), Err(target.error), s3)
    else
      var s4 := Server.Reply(s3, Server.Response(Server.REP_SUCCEEDED));
      Ends(Client.Connected(ips, l, host, port, s4.sent), Ok(req.(target := Some(target.value))), s4)
  }

  /** Given more, the client has written at least what it had: the phases above fit together. */
  lemma ClientWritesOn(ips: IpText, l: Client.Login, host: Bytes, port: int, inp: Bytes, more: Bytes)
    ensures Client.Connected(ips, l, host, port, inp).out <= Client.Connected(ips, l, host, port, inp + more).out
  {
    if 1 <= port <= 0xffff && |inp| >= 2 {
      var out := Client.Greeting(l);
      assert (inp + more)[2..] == inp[2..] + more;
      LoginWritesOn(ips, l, host, port, out + Client.LoginMessage(l), inp[2..], more);
      RequestWritesOn(ips, host, port, out, inp[2..], more);
    }
  }

  lemma LoginWritesOn(ips: IpText, l: Client.Login, host: Bytes, port: nat, out: Bytes, inp: Bytes, more: Bytes)
    requires port < 0x10000
    ensures Client.LoggedIn(ips, l, host, port, out, inp).out
            <= Client.LoggedIn(ips, l, host, port, out, inp + more).out
  {
    RequestWritesOn(ips, host, port, out, inp, more);
    if |inp| >= 2 {
      assert (inp + more)[2..] == inp[2..] + more;
      RequestWritesOn(ips, host, port, out, inp[2..], more);
    }
  }

  lemma RequestWritesOn(ips: IpText, host: Bytes, port: nat, out: Bytes, inp: Bytes, more: Bytes)
    requires port < 0x10000
    ensures Client.Requested(ips, host, port, out, inp).out == Client.Requested(ips, host, port, out, inp + more).out
    ensures out <= Client.Requested(ips, host, port, out, inp).out
  {
  }

  // ---------------------------------------------------------------- the server reads the client

  lemma NegotiatesGreeting(l: Client.Login)
    ensures var m := if Client.Offers(l) then Server.AUTH_PASSWORD else Server.AUTH_NONE;
      Server.Negotiated(Server.Io(Client.Greeting(l), [], [])) == (Ok(m), Server.Io([], [], [5, m]))
  {
    var methods: Bytes := if Client.Offers(l) then [0, 2] else [0];
    assert Client.Greeting(l) == [5] + ([|methods|] + (methods + []));
    Server.TakesByteBack(5, [|methods|] + (methods + []), [], []);
    Server.TakesByteBack(|methods|, methods + [], [], []);
    Server.TakesBack(methods, [], [], []);
    var m := Server.Suitable(methods);
    assert Client.Offers(l) ==> methods[1] == 2;
    assert [] + ([] + [5, m]) == [5, m];
  }

  lemma FieldReadsBack(n: byte, text: Bytes, rest: Bytes, w: Bytes, s: Bytes)
    requires n == |text|
    ensures Server.Field(Server.Io([n] + (text + rest), w, s))
            == if text == [] then (Err(Server.EmptyField), Server.Io(rest, [], s + (w + [1, 1])))
               else (Ok(text), Server.Io(rest, w, s))
  {
    Server.TakesByteBack(n, text + rest, w, s);
    Server.TakesBack(text, rest, w, s);
    if text == [] { assert text + rest == rest; }
  }

  lemma LowOfSmall(n: nat)
    requires n < 0x100
    ensures Low(n) == n
  {
  }

  lemma CredentialsReadBack(l: Client.Login, s: Bytes)
    requires Client.Offers(l) && |l.password| < 256
    ensures var u, p := l.user, Server.PasswordOf(l.password);
      var args := Codec.ParseClient(u + p);
      Server.Credentials(Server.Io(Client.LoginMessage(l), [], s))
      == if l.password == [] then (Err(Server.EmptyField), Server.Io([], [], s + [1, 1]))
         else if args.Err? then (Err(Server.BadArgs), Server.Io([], [], s + [1, 1]))
         else (Ok(Server.Request(None, u, p, args.value)), Server.Io([], [1, 0], s))
  {
    LowOfSmall(|l.user|);
    LowOfSmall(|l.password|);
    var passwd := [Low(|l.password|)] + (l.password + []);
    var fields := [Low(|l.user|)] + (l.user + passwd);
    assert Server.TakeByte(Server.Io(Client.LoginMessage(l), [], s)) == (Some(1), Server.Io(fields, [], s)) by {
      assert Client.LoginMessage(l) == [1] + fields;
      Server.TakesByteBack(1, fields, [], s);
    }
    FieldReadsBack(Low(|l.user|), l.user, passwd, [], s);
    FieldReadsBack(Low(|l.password|), l.password, [], [], s);
    assert [] + [1, 1] == [1, 1] && [] + [1, 0] == [1, 0];
  }

  lemma DestinationReadsBack(d: Destination, rest: Bytes, w: Bytes, s: Bytes)
    requires if d.Address? then Sized(d.ip) else |d.name| < 256
    ensures Server.DestinationRead(Server.Io(Client.Destined(d) + rest, w, s))
            == if d == Name([]) then (Err(Server.EmptyField), Server.Io(rest, w, s)) else (Ok(d), Server.Io(rest, w, s))
  {
    match d
    case Address(ip) =>
      var atype: byte := if ip.V4? then 1 else 4;
      assert Client.Destined(d) + rest == [atype] + (ip.bytes + rest);
      Server.TakesByteBack(atype, ip.bytes + rest, w, s);
      Server.TakesBack(ip.bytes, rest, w, s);
    case Name(name) =>
      LowOfSmall(|name|);
      assert Client.Destined(d) + rest == [3] + ([Low(|name|)] + (name + rest));
      Server.TakesByteBack(3, [Low(|name|)] + (name + rest), w, s);
      Server.TakesByteBack(Low(|name|), name + rest, w, s);
      Server.TakesBack(name, rest, w, s);
      if name == [] { assert name + rest == rest; }
  }

  lemma CommandReadsBack(ips: IpText, d: Destination, port: nat, s: Bytes)
    requires port < 0x10000 && if d.Address? then Sized(d.ip) else |d.name| < 256
    ensures Server.CommandRead(Server.Io(Client.ConnectMessage(d, port), [], s), ips)
            == if d == Name([]) then (Err(Server.EmptyField), Server.Io(U16(port), [], s))
               else (Ok(TargetText(ips, d, port)), Server.Io([], [], s))
  {
    var tail := Client.Destined(d) + U16(port);
    assert Client.ConnectMessage(d, port) == [5] + ([1] + ([0] + tail));
    Server.TakesByteBack(5, [1] + ([0] + tail), [], s);
    Server.TakesByteBack(1, [0] + tail, [], s);
    Server.TakesByteBack(0, tail, [], s);
    DestinationReadsBack(d, U16(port), [], s);
    assert U16(port) + [] == U16(port);
    Server.TakesBack(U16(port), [], [], s);
    assert s + [] == s;
  }

  /** The converse: a message that the server takes is one that a client writes, for the
      endpoint in the server's Target. */
  lemma OnlyMessagesAreTaken(ips: IpText, inp: Bytes, s: Bytes) returns (d: Destination, port: nat)
    requires Server.CommandRead(Server.Io(inp, [], s), ips).0.Ok?
    ensures port < 0x10000 && d != Name([]) && if d.Address? then Sized(d.ip) else |d.name| < 256
    ensures inp == Client.ConnectMessage(d, port)
    ensures Server.CommandRead(Server.Io(inp, [], s), ips).0.value == TargetText(ips, d, port)
  {
    hide Server.CommandRead, Server.DestinationRead, Server.Verified, TargetText, Client.Destined;
    CommandIsInParts(ips, inp, s);
    var c := Server.Io(inp[3..], [], s);
    var (r, c1) := Server.DestinationRead(c);
    d, port := r.value, FromU16(c1.arrived[0], c1.arrived[1]);
    assert inp[3..] == Client.Destined(d) + c1.arrived by { OnlyDestinationsAreRead(c); }
    assert d != Name([]) && if d.Address? then Sized(d.ip) else |d.name| < 256 by { OnlyDestinationsAreRead(c); }
    assert U16(port) == c1.arrived by { PortIsWritten(c1.arrived); }
    assert inp == inp[..3] + inp[3..];
  }

  /** A command that is taken: three fixed bytes, a destination, a port and no more. */
  lemma CommandIsInParts(ips: IpText, inp: Bytes, s: Bytes)
    requires Server.CommandRead(Server.Io(inp, [], s), ips).0.Ok?
    ensures |inp| >= 3 && inp[..3] == [5, 1, 0]
    ensures var (r, c1) := Server.DestinationRead(Server.Io(inp[3..], [], s));
      && r.Ok? && |c1.arrived| == 2
      && Server.CommandRead(Server.Io(inp, [], s), ips).0.value
         == TargetText(ips, r.value, FromU16(c1.arrived[0], c1.arrived[1]))
  {
    assert |inp| >= 3 && inp[0] == 5 && inp[1..][0] == 1 && inp[1..][1..][0] == 0;
    assert inp[1..][1..][1..] == inp[3..];
    assert Server.Io(inp[1..][1..][1..], [], s) == Server.Io(inp[3..], [], s);
  }

  lemma OnlyDestinationsAreRead(c: Server.Io)
    requires Server.DestinationRead(c).0.Ok?
    ensures var (r, c1) := Server.DestinationRead(c);
      && r.value != Name([]) && (if r.value.Address? then Sized(r.value.ip) else |r.value.name| < 256)
      && c.arrived == Client.Destined(r.value) + c1.arrived && c1.written == c.written && c1.sent == c.sent
  {
    var atype, tail := c.arrived[0], c.arrived[1..];
    var c1 := c.(arrived := tail);
    assert c.arrived == [atype] + tail;
    if atype == Server.ATYPE_DOMAIN {
      NameIsRead(c1);
      assert Server.DestinationRead(c).1.arrived == tail[1..][tail[0]..];
    } else {
      Server.TakesFront(c1, if atype == Server.ATYPE_V4 then 4 else 16);
    }
  }

  lemma NameIsRead(c: Server.Io)
    requires c.arrived != [] && 0 < c.arrived[0] <= |c.arrived| - 1
    ensures var name := c.arrived[1..][..c.arrived[0]];
      0 < |name| < 256 && c.arrived == [Low(|name|)] + name + c.arrived[1..][c.arrived[0]..]
  {
    LowOfSmall(c.arrived[0]);
    Server.TakesFront(c.(arrived := c.arrived[1..]), c.arrived[0]);
    assert c.arrived == [c.arrived[0]] + c.arrived[1..];
  }

  lemma PortIsWritten(raw: Bytes)
    requires |raw| == 2
    ensures U16(FromU16(raw[0], raw[1])) == raw
  {
  }

  /** A command of at least four bytes is answered on failure exactly when its fixed part
      is wrong, with the code for what is wrong first; a bad name or a short message ends
      the connection without a word. */
  lemma ErrorsAreAnswered(ips: IpText, inp: Bytes, s: Bytes)
    requires |inp| >= 4
    ensures var (r, c) := Server.CommandRead(Server.Io(inp, [], s), ips);
      if inp[0] != 5 then r.Err? && c.sent == s + Server.Response(1)
      else if inp[1] != 1 then r.Err? && c.sent == s + Server.Response(7)
      else if inp[2] != 0 then r.Err? && c.sent == s + Server.Response(1)
      else if inp[3] !in {1, 3, 4} then r.Err? && c.sent == s + Server.Response(8)
      else c.sent == s
  {
    assert inp[1..][0] == inp[1] && inp[1..][1..][0] == inp[2] && inp[1..][1..][1..][0] == inp[3];
    assert s + [] == s;
    FailuresSound(s);
  }

  lemma FailuresSound(s: Bytes)
    ensures forall code: byte :: s + ([] + Server.Response(code)) == s + Server.Response(code)
  {
    assert forall code: byte :: [] + Server.Response(code) == Server.Response(code);
  }

  // ---------------------------------------------------------------- the joint run

  /** What the request has to be like. */
  predicate Requestable(ips: IpText, host: Bytes, port: int) {
    1 <= port <= 0xffff && (DestinationOf(ips, host).Address? || 1 <= |host| <= 255)
  }

  predicate LoginParses(l: Client.Login) {
    Client.Offers(l) ==> l.password != [] && Codec.ParseClient(l.user + Server.PasswordOf(l.password)).Ok?
  }

  /** What the server makes of the login. */
  function RequestOf(l: Client.Login): Server.Request
    requires LoginParses(l)
  {
    if !Client.Offers(l) then Server.NO_REQUEST
    else
      var p := Server.PasswordOf(l.password);
      Server.Request(None, l.user, p, Codec.ParseClient(l.user + p).value)
  }

  lemma CommandIsDelivered(out: Bytes, message: Bytes, sent: Bytes)
    ensures Deliver(Server.Io([], [], sent), out, out) == Server.Io([], [], sent)
    ensures Deliver(Server.Io([], [], sent), out, out + message) == Server.Io(message, [], sent)
  {
    assert out[|out|..] == [] && (out + message)[|out|..] == message;
    assert [] + message == message;
  }

  /** The client takes the granted reply and all of it. */
  lemma GrantIsTaken(out: Bytes)
    ensures Client.Answered(out, Server.Response(0)) == Client.Progress(Ok(()), out, [])
  {
  }

  /** From the authentication on; sent is what the server has sent by then. */
  lemma CommandSucceeds(ips: IpText, l: Client.Login, host: Bytes, port: int,
                        out: Bytes, req: Server.Request, sent: Bytes)
    requires ReadsItself(ips) && Requestable(ips, host, port)
    requires forall inp :: Client.Connected(ips, l, host, port, sent + inp)
                             == Client.Requested(ips, host, port, out, inp)
    ensures var e := Commanded(ips, l, host, port, out, req, Server.Io([], [], sent));
      && e.client.outcome.Ok? && e.client.unread == [] && e.rw.arrived == []
      && e.server == Ok(req.(target := Some(TargetText(ips, DestinationOf(ips, host), port))))
  {
    var d, granted := DestinationOf(ips, host), Server.Response(0);
    var message := Client.ConnectMessage(d, port);
    assert Client.Connected(ips, l, host, port, sent).out == out + message by {
      assert sent + [] == sent;
      assert Client.Connected(ips, l, host, port, sent + []) == Client.Requested(ips, host, port, out, []);
    }
    assert Client.Connected(ips, l, host, port, sent + granted) == Client.Progress(Ok(()), out + message, []) by {
      GrantIsTaken(out + message);
      assert Client.Connected(ips, l, host, port, sent + granted) == Client.Requested(ips, host, port, out, granted);
    }
    CommandIsDelivered(out, message, sent);
    CommandReadsBack(ips, d, port, sent);
    assert [] + granted == granted;
  }

  lemma CommandFails(ips: IpText, l: Client.Login, host: Bytes, port: int,
                     out: Bytes, req: Server.Request, sent: Bytes)
    requires ReadsItself(ips) && 1 <= port <= 0xffff && !Requestable(ips, host, port)
    requires forall inp :: Client.Connected(ips, l, host, port, sent + inp)
                             == Client.Requested(ips, host, port, out, inp)
    ensures var e := Commanded(ips, l, host, port, out, req, Server.Io([], [], sent));
      e.client.outcome.Err? && e.server.Err?
  {
    var d := DestinationOf(ips, host);
    assert Client.Connected(ips, l, host, port, sent) == Client.Requested(ips, host, port, out, []) by {
      assert sent + [] == sent;
      assert Client.Connected(ips, l, host, port, sent + []) == Client.Requested(ips, host, port, out, []);
    }
    CommandIsDelivered(out, Client.ConnectMessage(d, port), sent);
    if host == [] {
      CommandReadsBack(ips, d, port, sent);
    } else {
      var sorry := Server.Response(1);
      assert Client.Connected(ips, l, host, port, sent + sorry) == Client.Requested(ips, host, port, out, sorry);
      assert [] + sorry == sorry;
    }
  }

  lemma CommandEnds(ips: IpText, l: Client.Login, host: Bytes, port: int,
                    out: Bytes, req: Server.Request, sent: Bytes)
    requires ReadsItself(ips) && 1 <= port <= 0xffff
    requires forall inp :: Client.Connected(ips, l, host, port, sent + inp)
                             == Client.Requested(ips, host, port, out, inp)
    ensures var e := Commanded(ips, l, host, port, out, req, Server.Io([], [], sent));
      if Requestable(ips, host, port) then
        && e.client.outcome.Ok? && e.client.unread == [] && e.rw.arrived == []
        && e.server == Ok(req.(target := Some(TargetText(ips, DestinationOf(ips, host), port))))
      else e.client.outcome.Err? && e.server.Err?
  {
    if Requestable(ips, host, port) {
      CommandSucceeds(ips, l, host, port, out, req, sent);
    } else {
      CommandFails(ips, l, host, port, out, req, sent);
    }
  }

  /** For every login with a password of at most 255 bytes, every host and every port,
      both ends succeed or both fail.  They succeed exactly when the port is a port, the
      host an address or a name of 1 to 255 bytes and, if a login is offered, its password
      is not empty and user and password together parse as arguments.  Then the server
      has the login, its arguments and the endpoint, and no byte is left unread. */
  lemma BothOrNeither(ips: IpText, l: Client.Login, host: Bytes, port: int)
    requires ReadsItself(ips) && (Client.Offers(l) ==> |l.password| < 256)
    ensures var e := Joint(ips, l, host, port);
      && (e.client.outcome.Ok? <==> Requestable(ips, host, port) && LoginParses(l))
      && (e.server.Ok? <==> Requestable(ips, host, port) && LoginParses(l))
      && (e.server.Ok? ==>
            && e.server.value == RequestOf(l).(target := Some(TargetText(ips, DestinationOf(ips, host), port)))
            && e.client.unread == [] && e.rw.arrived == [])
  {
    if 1 <= port <= 0xffff {
      if !Client.Offers(l) {
        WithoutLogin(ips, l, host, port);
        CommandEnds(ips, l, host, port, Client.Greeting(l), Server.NO_REQUEST, [5, 0]);
      } else {
        WithLogin(ips, l, host, port);
        if LoginParses(l) {
          var out := Client.Greeting(l) + Client.LoginMessage(l);
          CommandEnds(ips, l, host, port, out, RequestOf(l), [5, 2, 1, 0]);
        }
      }
    }
  }

  lemma WithoutLogin(ips: IpText, l: Client.Login, host: Bytes, port: int)
    requires ReadsItself(ips) && 1 <= port <= 0xffff && !Client.Offers(l)
    ensures Joint(ips, l, host, port)
            == Commanded(ips, l, host, port, Client.Greeting(l), Server.NO_REQUEST, Server.Io([], [], [5, 0]))
    ensures forall inp :: Client.Connected(ips, l, host, port, [5, 0] + inp)
                          == Client.Requested(ips, host, port, Client.Greeting(l), inp)
  {
    var greeted := Client.Greeting(l);
    NegotiatesGreeting(l);
    assert Deliver(Server.Io([], [], [5, 0]), greeted, greeted) == Server.Io([], [], [5, 0]) by {
      assert greeted[|greeted|..] == [];
    }
    assert Server.Authenticated(Server.Io([], [], [5, 0]), 0) == (Ok(Server.NO_REQUEST), Server.Io([], [], [5, 0])) by {
      assert [5, 0] + [] == [5, 0];
    }
    forall inp
      ensures Client.Connected(ips, l, host, port, [5, 0] + inp) == Client.Requested(ips, host, port, greeted, inp)
    {
      assert ([5, 0] + inp)[2..] == inp;
    }
  }

  lemma LoginIsDelivered(ips: IpText, l: Client.Login, host: Bytes, port: int)
    requires 1 <= port <= 0xffff && Client.Offers(l)
    ensures var greeted, asked := Client.Greeting(l), Client.Connected(ips, l, host, port, [5, 2]).out;
      && asked == greeted + Client.LoginMessage(l)
      && Deliver(Server.Io([], [], [5, 2]), greeted, asked) == Server.Io(Client.LoginMessage(l), [], [5, 2])
  {
    var greeted := Client.Greeting(l);
    var asked := greeted + Client.LoginMessage(l);
    assert asked[|greeted|..] == Client.LoginMessage(l);
    assert [] + Client.LoginMessage(l) == Client.LoginMessage(l);
  }

  lemma WithLogin(ips: IpText, l: Client.Login, host: Bytes, port: int)
    requires ReadsItself(ips) && 1 <= port <= 0xffff && Client.Offers(l) && |l.password| < 256
    ensures var out, e := Client.Greeting(l) + Client.LoginMessage(l), Joint(ips, l, host, port);
      if LoginParses(l) then
        && e == Commanded(ips, l, host, port, out, RequestOf(l), Server.Io([], [], [5, 2, 1, 0]))
        && forall inp :: Client.Connected(ips, l, host, port, [5, 2, 1, 0] + inp)
                          == Client.Requested(ips, host, port, out, inp)
      else e.client.outcome == Err(Client.Rejected) && e.server.Err?
  {
    NegotiatesGreeting(l);
    LoginIsDelivered(ips, l, host, port);
    CredentialsReadBack(l, [5, 2]);
    if LoginParses(l) {
      assert [5, 2] + [1, 0] == [5, 2, 1, 0];
      var out := Client.Greeting(l) + Client.LoginMessage(l);
      forall inp
        ensures Client.Connected(ips, l, host, port, [5, 2, 1, 0] + inp)
                == Client.Requested(ips, host, port, out, inp)
      {
        assert ([5, 2, 1, 0] + inp)[2..][2..] == inp;
      }
    }
  }

  /** So for an address, or a name without colons and brackets, the server's Target
      denotes the endpoint that the client asked for. */
  lemma TargetIsTheEndpoint(ips: IpText, l: Client.Login, host: Bytes, port: int)
    requires ReadsItself(ips) && (Client.Offers(l) ==> |l.password| < 256)
    requires Joint(ips, l, host, port).server.Ok?
    ensures Joint(ips, l, host, port).server.value.target.Some?
    ensures var d := DestinationOf(ips, host);
      Denotes(ips, Joint(ips, l, host, port).server.value.target.value, d, port) <==> d.Address? || Plain(host)
  {
    BothOrNeither(ips, l, host, port);
    TargetDenotes(ips, host, port);
  }
}
