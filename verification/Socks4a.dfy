/** readSocks4aConnect against the message a SOCKS4a client sends. */
module Socks4a {
  import opened Basics
  import opened HostPort
  import opened Socks5Server
  import Codec = SocksArgsCodec

  const VERSION_4: byte := 4

  /** 0.0.0.x with x nonzero announces a host name behind the user id. */
  predicate Announces(ip: Bytes)
    requires |ip| == 4
  {
    ip[0] == 0 && ip[1] == 0 && ip[2] == 0 && ip[3] != 0
  }

  function ConnectRead(c: Io, ips: IpText): (Outcome<Request, Failure>, Io) {
    var (version, c1) := TakeByte(c);
    if version != Some(VERSION_4) then (Err(if version.None? then ShortRead else BadField), c1)
    else
      var (cmd, c2) := TakeByte(c1);
      if cmd != Some(CMD_CONNECT) then (Err(if cmd.None? then ShortRead else BadField), c2)
      else
        var (port, c3) := Take(c2, 2);
        if port.None? then (Err(ShortRead), c3)
        else
          var (ip, c4) := Take(c3, 4);
          if ip.None? then (Err(ShortRead), c4)
          else UserRead(c4, ips, FromU16(port.value[0], port.value[1]), ip.value)
  }

  function UserRead(c: Io, ips: IpText, port: nat, ip: Bytes): (Outcome<Request, Failure>, Io)
    requires |ip| == 4
  {
    var (user, c1) := TakeUntil(c, 0);
    if user.None? then (Err(ShortRead), c1)
    else
      match Codec.ParseClient(user.value)
      case Err(_) => (Err(BadArgs), c1)
      case Ok(args) =>
        var (name, c2) := if Announces(ip) then TakeUntil(c1, 0) else (None, c1);
        if Announces(ip) && name.None? then (Err(ShortRead), c2)
        else
          var d := if Announces(ip) then Name(name.value) else Address(V4(ip));
          if c2.arrived == [] then (Ok(Request(Some(TargetText(ips, d, port)), user.value, [], args)), c2)
          else (Err(LeftOver), c2)
  }

  method ReadConnect(rw: ReadWriter, ips: IpText) returns (r: Outcome<Request, Failure>)
    modifies rw
    ensures (r, rw.Now()) == ConnectRead(old(rw.Now()), ips)
  {
    var version := rw.ReadByte();
    if version != Some(VERSION_4) {
      return Err(if version.None? then ShortRead else BadField);
    }
    var cmdConnect := rw.ReadByte();
    if cmdConnect != Some(CMD_CONNECT) {
      return Err(if cmdConnect.None? then ShortRead else BadField);
    }
    var rawPort := rw.ReadBytes(2);
    if rawPort.None? {
      return Err(ShortRead);
    }
    var port := FromU16(rawPort.value[0], rawPort.value[1]);
    var rawHostIP := rw.ReadBytes(4);
    if rawHostIP.None? {
      return Err(ShortRead);
    }
    r := ReadUser(rw, ips, port, rawHostIP.value);
  }

  method ReadUser(rw: ReadWriter, ips: IpText, port: nat, ip: Bytes) returns (r: Outcome<Request, Failure>)
    requires |ip| == 4
    modifies rw
    ensures (r, rw.Now()) == UserRead(old(rw.Now()), ips, port, ip)
  {
    var user := rw.ReadBytesUntil(0);
    if user.None? {
      return Err(ShortRead);
    }
    var req := NO_REQUEST.(username := user.value);
    var args := Codec.ParseClientParameters(req.username);
    if args.Err? {
      return Err(BadArgs);
    }
    req := req.(args := args.value);
    var d := Address(V4(ip));
    if ip[0] == 0 && ip[1] == 0 && ip[2] == 0 && ip[3] != 0 {
      var name := rw.ReadBytesUntil(0);
      if name.None? {
        return Err(ShortRead);
      }
      d := Name(name.value);
    }
    req := req.(target := Some(TargetText(ips, d, port)));
    return if |rw.arrived| == 0 then Ok(req) else Err(LeftOver);
  }

  // ---------------------------------------------------------------- the client's message

  /** What stands in the place of the address. */
  function IpField(d: Destination): Bytes {
    if d.Address? then d.ip.bytes else [0, 0, 0, 1]
  }

  function NameField(d: Destination): Bytes {
    if d.Address? then [] else d.name + [0]
  }

  function Message(d: Destination, port: nat, user: Bytes): Bytes
    requires port < 0x10000
  {
    [VERSION_4, CMD_CONNECT] + U16(port) + IpField(d) + user + [0] + NameField(d)
  }

  predicate Sayable(d: Destination) {
    if d.Address? then d.ip.V4? && |d.ip.bytes| == 4 && !Announces(d.ip.bytes) else 0 !in d.name
  }

  lemma UntilZero(text: Bytes, rest: Bytes, w: Bytes, s: Bytes)
    ensures var (r, c) := TakeUntil(Io(text + [0] + rest, w, s), 0);
      && (0 !in text ==> (r, c) == (Some(text), Io(rest, w, s)))
      && (0 in text ==> r.Some? && r.value != text && c.arrived != [])
  {
    var all := text + [0] + rest;
    var i := IndexFrom(all, 0, 0);
    assert all[|text|] == 0 && forall k :: 0 <= k < |text| ==> all[k] == text[k];
    if 0 !in text {
      assert i == |text| && all[..i] == text && all[i + 1..] == rest;
    }
  }

  lemma MessageReaches(ips: IpText, d: Destination, port: nat, user: Bytes)
    requires port < 0x10000 && |IpField(d)| == 4
    ensures ConnectRead(Io(Message(d, port, user), [], []), ips)
            == UserRead(Io(user + [0] + NameField(d), [], []), ips, port, IpField(d))
  {
    var rest := user + [0] + NameField(d);
    var ip := IpField(d) + rest;
    var tail := U16(port) + ip;
    var message := Message(d, port, user);
    assert TakeByte(Io(message, [], [])) == (Some(VERSION_4), Io([CMD_CONNECT] + tail, [], [])) by {
      assert message == [VERSION_4] + ([CMD_CONNECT] + tail);
      TakesByteBack(VERSION_4, [CMD_CONNECT] + tail, [], []);
    }
    FixedPartIsRead(ips, Io(message, [], []), port, IpField(d), rest);
  }

  lemma FixedPartIsRead(ips: IpText, c: Io, port: nat, ip: Bytes, rest: Bytes)
    requires port < 0x10000 && |ip| == 4
    requires TakeByte(c) == (Some(VERSION_4), Io([CMD_CONNECT] + (U16(port) + (ip + rest)), [], []))
    ensures ConnectRead(c, ips) == UserRead(Io(rest, [], []), ips, port, ip)
  {
    TakesByteBack(CMD_CONNECT, U16(port) + (ip + rest), [], []);
    TakesBack(U16(port), ip + rest, [], []);
    TakesBack(ip, rest, [], []);
  }

  /** The part behind the user id. */
  lemma NameIsRead(d: Destination)
    requires d.Address? ==> |d.ip.bytes| == 4
    ensures var (name, c) := TakeUntil(Io(NameField(d), [], []), 0);
      && (d.Address? ==> name.None?)
      && (d.Name? && 0 !in d.name ==> name == Some(d.name) && c.arrived == [])
      && (d.Name? && 0 in d.name ==> name.Some? && c.arrived != [])
  {
    if d.Name? {
      assert d.name + [0] + [] == d.name + [0];
      UntilZero(d.name, [], [], []);
    }
  }

  /** As it was meant: the user id with its arguments, the endpoint, and no byte left. */
  predicate Meant(r: (Outcome<Request, Failure>, Io), ips: IpText, d: Destination, port: nat, user: Bytes) {
    && r.0.Ok? && r.0.value.username == user && r.0.value.target == Some(TargetText(ips, d, port))
    && Codec.ParseClient(user) == Ok(r.0.value.args) && r.1.arrived == []
  }

  /** A request is read back as it was meant exactly when the user id parses as arguments,
      neither it nor the name holds a zero byte, and the address is not one that
      announces a name. */
  lemma MessageReadsBackExactlyIf(ips: IpText, d: Destination, port: nat, user: Bytes)
    requires port < 0x10000 && (d.Address? ==> d.ip.V4? && |d.ip.bytes| == 4)
    ensures Meant(ConnectRead(Io(Message(d, port, user), [], []), ips), ips, d, port, user)
            <==> 0 !in user && Sayable(d) && Codec.ParseClient(user).Ok?
  {
    MessageReaches(ips, d, port, user);
    UntilZero(user, NameField(d), [], []);
    if 0 !in user { UserReadsBack(ips, d, port, user); }
  }

  lemma UserReadsBack(ips: IpText, d: Destination, port: nat, user: Bytes)
    requires 0 !in user && (d.Address? ==> d.ip.V4? && |d.ip.bytes| == 4)
    ensures Meant(UserRead(Io(user + [0] + NameField(d), [], []), ips, port, IpField(d)), ips, d, port, user)
            <==> Sayable(d) && Codec.ParseClient(user).Ok?
  {
    UntilZero(user, NameField(d), [], []);
    NameIsRead(d);
    assert d.Address? ==> d == Address(V4(d.ip.bytes));
  }
}
