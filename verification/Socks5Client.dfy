/** The client's end of the SOCKS5 handshake: Socks5ProxyConnect. */
module Socks5Client {
  import opened Basics
  import opened HostPort

  const VERSION: byte := 5
  const AUTH_NONE: byte := 0
  const AUTH_PASSWORD: byte := 2
  const CONNECT: byte := 1
  const IP4: byte := 1
  const DOMAIN: byte := 3
  const IP6: byte := 4

  datatype Failure =
    | PortOutOfRange | ShortRead | BadVersion | AuthRequired
    | Rejected | NameTooLong | Refused(code: byte) | UnknownAddressType

  /** Where a run stands that gets nothing but a given input: its outcome (ShortRead while
      it waits for more), what it has written, what it has not read. */
  datatype Progress = Progress(outcome: Outcome<(), Failure>, out: Bytes, unread: Bytes)

  /** The user part of the proxy's URL; without one both are empty. */
  datatype Login = Login(user: Bytes, password: Bytes)

  predicate Offers(l: Login) {
    0 < |l.user| < 256
  }

  function Greeting(l: Login): Bytes {
    if Offers(l) then [VERSION, 2, AUTH_NONE, AUTH_PASSWORD] else [VERSION, 1, AUTH_NONE]
  }

  /** The lengths are cut to a byte. */
  function LoginMessage(l: Login): Bytes {
    [1, Low(|l.user|)] + l.user + [Low(|l.password|)] + l.password
  }

  function Destined(d: Destination): Bytes {
    match d
    case Address(ip) => [if ip.V4? then IP4 else IP6] + ip.bytes
    case Name(name) => [DOMAIN, Low(|name|)] + name
  }

  function ConnectMessage(d: Destination, port: nat): Bytes
    requires port < 0x10000
  {
    [VERSION, CONNECT, 0] + Destined(d) + U16(port)
  }

  function Connected(ips: IpText, l: Login, host: Bytes, port: int, inp: Bytes): Progress {
    if port < 1 || port > 0xffff then Progress(Err(PortOutOfRange), [], inp)
    else
      var out := Greeting(l);
      if |inp| < 2 then Progress(Err(ShortRead), out, [])
      else if inp[0] != VERSION then Progress(Err(BadVersion), out, inp[2..])
      else if inp[1] == 0xff then Progress(Err(AuthRequired), out, inp[2..])
      else if inp[1] == AUTH_PASSWORD then LoggedIn(ips, l, host, port, out + LoginMessage(l), inp[2..])
      else Requested(ips, host, port, out, inp[2..])
  }

  function LoggedIn(ips: IpText, l: Login, host: Bytes, port: nat, out: Bytes, inp: Bytes): Progress
    requires port < 0x10000
  {
    if |inp| < 2 then Progress(Err(ShortRead), out, [])
    else if inp[1] != 0 then Progress(Err(Rejected), out, inp[2..])
    else Requested(ips, host, port, out, inp[2..])
  }

  function Requested(ips: IpText, host: Bytes, port: nat, out: Bytes, inp: Bytes): Progress
    requires port < 0x10000
  {
    var d := DestinationOf(ips, host);
    if d.Name? && |host| > 255 then Progress(Err(NameTooLong), out, inp)
    else Answered(out + ConnectMessage(d, port), inp)
  }

  function Answered(out: Bytes, inp: Bytes): Progress {
    if |inp| < 4 then Progress(Err(ShortRead), out, [])
    else if inp[1] != 0 then Progress(Err(Refused(inp[1])), out, inp[4..])
    else if inp[3] == IP4 then Discarded(4, out, inp[4..])
    else if inp[3] == IP6 then Discarded(16, out, inp[4..])
    else if inp[3] == DOMAIN then
      if |inp| == 4 then Progress(Err(ShortRead), out, []) else Discarded(inp[4], out, inp[5..])
    else Progress(Err(UnknownAddressType), out, inp[4..])
  }

  function Discarded(n: nat, out: Bytes, inp: Bytes): Progress {
    if |inp| < n + 2 then Progress(Err(ShortRead), out, []) else Progress(Ok(()), out, inp[n + 2..])
  }

  // ---------------------------------------------------------------- the method

  /** The connection to the proxy. */
  class Conn {
    var unread: Bytes
    var out: Bytes

    constructor (inp: Bytes)
      ensures unread == inp && out == []
    {
      unread, out := inp, [];
    }

    method Write(buf: Bytes)
      modifies this`out
      ensures out == old(out) + buf
    {
      out := out + buf;
    }

    method ReadFull(n: nat) returns (buf: Option<Bytes>)
      modifies this`unread
      ensures |old(unread)| < n ==> buf.None? && unread == []
      ensures |old(unread)| >= n ==> buf == Some(old(unread)[..n]) && unread == old(unread)[n..]
    {
      if |unread| < n {
        unread := [];
        return None;
      }
      buf := Some(unread[..n]);
      unread := unread[n..];
    }
  }

  /** addr has been split into host and port. */
  method Socks5ProxyConnect(ips: IpText, l: Login, conn: Conn, host: Bytes, port: int)
    returns (r: Outcome<(), Failure>)
    requires conn.out == []
    modifies conn
    ensures Progress(r, conn.out, conn.unread) == Connected(ips, l, host, port, old(conn.unread))
  {
    if port < 1 || port > 0xffff {
      return Err(PortOutOfRange);
    }
    var buf: Bytes := [VERSION];
    if |l.user| > 0 && |l.user| < 256 {
      buf := buf + [2, AUTH_NONE, AUTH_PASSWORD];
    } else {
      buf := buf + [1, AUTH_NONE];
    }
    assert buf == Greeting(l);
    conn.Write(buf);
    ghost var out, inp := conn.out, conn.unread;
    assert out == Greeting(l);
    var got := conn.ReadFull(2);
    if got.None? {
      return Err(ShortRead);
    }
    buf := got.value;
    if buf[0] != 5 {
      return Err(BadVersion);
    }
    if buf[1] == 0xff {
      return Err(AuthRequired);
    }
    if buf[1] == AUTH_PASSWORD {
      r := LogIn(l, conn);
      if r.Err? {
        assert Progress(r, conn.out, conn.unread) == LoggedIn(ips, l, host, port, out + LoginMessage(l), inp[2..]);
        return;
      }
    }
    assert Requested(ips, host, port, conn.out, conn.unread) == Connected(ips, l, host, port, inp);
    r := Request(ips, conn, host, port);
  }

  method LogIn(l: Login, conn: Conn) returns (r: Outcome<(), Failure>)
    modifies conn
    ensures conn.out == old(conn.out) + LoginMessage(l)
    ensures r == if |old(conn.unread)| < 2 then Err(ShortRead)
                 else if old(conn.unread)[1] != 0 then Err(Rejected) else Ok(())
    ensures conn.unread == if |old(conn.unread)| < 2 then [] else old(conn.unread)[2..]
  {
    var buf: Bytes := [1];
    buf := buf + [Low(|l.user|)];
    buf := buf + l.user;
    buf := buf + [Low(|l.password|)];
    buf := buf + l.password;
    conn.Write(buf);
    var got := conn.ReadFull(2);
    if got.None? {
      return Err(ShortRead);
    }
    buf := got.value;
    return if buf[1] != 0 then Err(Rejected) else Ok(());
  }

  method Request(ips: IpText, conn: Conn, host: Bytes, port: nat) returns (r: Outcome<(), Failure>)
    requires port < 0x10000
    modifies conn
    ensures Progress(r, conn.out, conn.unread) == Requested(ips, host, port, old(conn.out), old(conn.unread))
  {
    var buf: Bytes := [VERSION, CONNECT, 0];
    var ip := ips.parse(host);
    if ip.Some? {
      if ip.value.V4? {
        buf := buf + [IP4];
      } else {
        buf := buf + [IP6];
      }
      buf := buf + ip.value.bytes;
    } else {
      if |host| > 255 {
        return Err(NameTooLong);
      }
      buf := buf + [DOMAIN];
      buf := buf + [Low(|host|)];
      buf := buf + host;
    }
    buf := buf + [High(port), Low(port)];
    assert buf == ConnectMessage(DestinationOf(ips, host), port);
    conn.Write(buf);
    r := ReadAnswer(conn);
  }

  method ReadAnswer(conn: Conn) returns (r: Outcome<(), Failure>)
    modifies conn`unread
    ensures Progress(r, conn.out, conn.unread) == Answered(conn.out, old(conn.unread))
  {
    var got := conn.ReadFull(4);
    if got.None? {
      return Err(ShortRead);
    }
    var buf := got.value;
    if buf[1] != 0 {
      return Err(Refused(buf[1]));
    }
    var bytesToDiscard: nat := 0;
    if buf[3] == IP4 {
      bytesToDiscard := 4;
    } else if buf[3] == IP6 {
      bytesToDiscard := 16;
    } else if buf[3] == DOMAIN {
      got := conn.ReadFull(1);
      if got.None? {
        return Err(ShortRead);
      }
      bytesToDiscard := got.value[0];
    } else {
      return Err(UnknownAddressType);
    }
    got := conn.ReadFull(bytesToDiscard);
    if got.None? {
      return Err(ShortRead);
    }
    got := conn.ReadFull(2);
    if got.None? {
      return Err(ShortRead);
    }
    return Ok(());
  }
}
