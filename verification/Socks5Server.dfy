/** The server's end of the SOCKS5 handshake (sections 3 to 6 of RFC 1928, section 2 of
    RFC 1929): three phases over a buffered connection, each a function of what has
    arrived, and the methods that are proved to compute it. */
module Socks5Server {
  import opened Basics
  import opened HostPort
  import Args = SocksArgs
  import Codec = SocksArgsCodec

  const VERSION: byte := 5
  const AUTH_NONE: byte := 0
  const AUTH_PASSWORD: byte := 2
  const AUTH_NO_ACCEPTABLE: byte := 0xff
  const CMD_CONNECT: byte := 1
  const RESERVED: byte := 0
  const ATYPE_V4: byte := 1
  const ATYPE_DOMAIN: byte := 3
  const ATYPE_V6: byte := 4
  const RFC1929_VERSION: byte := 1
  const RFC1929_SUCCESS: byte := 0
  const RFC1929_FAIL: byte := 1
  const REP_SUCCEEDED: byte := 0
  const REP_GENERAL_FAILURE: byte := 1
  const REP_COMMAND_NOT_SUPPORTED: byte := 7
  const REP_ADDRESS_NOT_SUPPORTED: byte := 8

  datatype Failure =
    | ShortRead | BadField | EmptyField | BadArgs | NoCompatibleMethod | UnsupportedAddress | LeftOver

  /** SocksRequest; target is None until the command has been read. */
  datatype Request = Request(target: Option<Bytes>, username: Bytes, password: Bytes, args: Args.Args)

  const NO_REQUEST := Request(None, [], [], map[])

  // ---------------------------------------------------------------- the connection

  /** A bufio.ReadWriter: what has arrived and is not consumed, what is written and not
      flushed, what has been sent.  Everything the client has sent counts as buffered. */
  datatype Io = Io(arrived: Bytes, written: Bytes, sent: Bytes)

  /** socksReadBytes: io.ReadFull uses up what there is even when it falls short. */
  function Take(c: Io, n: nat): (Option<Bytes>, Io) {
    if n <= |c.arrived| then (Some(c.arrived[..n]), c.(arrived := c.arrived[n..]))
    else (None, c.(arrived := []))
  }

  function TakeByte(c: Io): (Option<byte>, Io) {
    if c.arrived == [] then (None, c) else (Some(c.arrived[0]), c.(arrived := c.arrived[1..]))
  }

  /** socksReadBytesUntil, without the terminator. */
  function TakeUntil(c: Io, end: byte): (Option<Bytes>, Io) {
    var i := IndexFrom(c.arrived, end, 0);
    if i == |c.arrived| then (None, c.(arrived := []))
    else (Some(c.arrived[..i]), c.(arrived := c.arrived[i + 1..]))
  }

  function Put(c: Io, bytes: Bytes): Io {
    c.(written := c.written + bytes)
  }

  /** socksFlushBuffers; it fails when bytes are left after the message. */
  function Flush(c: Io): (bool, Io) {
    (c.arrived == [], Io(c.arrived, [], c.sent + c.written))
  }

  /** sendErrResp: a reply whose own failure nobody looks at. */
  function Reply(c: Io, bytes: Bytes): Io {
    Flush(Put(c, bytes)).1
  }

  lemma TakesBack(a: Bytes, b: Bytes, w: Bytes, s: Bytes)
    ensures Take(Io(a + b, w, s), |a|) == (Some(a), Io(b, w, s))
  {
    assert (a + b)[..|a|] == a && (a + b)[|a|..] == b;
  }

  lemma TakesByteBack(x: byte, b: Bytes, w: Bytes, s: Bytes)
    ensures TakeByte(Io([x] + b, w, s)) == (Some(x), Io(b, w, s))
  {
    assert ([x] + b)[1..] == b;
  }

  /** What is taken stood at the front. */
  lemma TakesFront(c: Io, n: nat)
    requires n <= |c.arrived|
    ensures c.arrived == Take(c, n).0.value + Take(c, n).1.arrived
  {
  }

  class ReadWriter {
    var arrived: Bytes
    var written: Bytes
    var sent: Bytes

    function Now(): Io
      reads this
    {
      Io(arrived, written, sent)
    }

    constructor ()
      ensures Now() == Io([], [], [])
    {
      arrived, written, sent := [], [], [];
    }

    method ReadByte() returns (b: Option<byte>)
      modifies this
      ensures (b, Now()) == TakeByte(old(Now()))
    {
      if |arrived| == 0 {
        return None;
      }
      b := Some(arrived[0]);
      arrived := arrived[1..];
    }

    method ReadBytes(n: nat) returns (r: Option<Bytes>)
      modifies this
      ensures (r, Now()) == Take(old(Now()), n)
    {
      if |arrived| < n {
        arrived := [];
        return None;
      }
      r := Some(arrived[..n]);
      arrived := arrived[n..];
    }

    method ReadBytesUntil(end: byte) returns (r: Option<Bytes>)
      modifies this
      ensures (r, Now()) == TakeUntil(old(Now()), end)
    {
      var i := 0;
      while i < |arrived| && arrived[i] != end
        invariant i <= |arrived| && IndexFrom(arrived, end, 0) == IndexFrom(arrived, end, i)
      {
        i := i + 1;
      }
      if i == |arrived| {
        arrived := [];
        return None;
      }
      r := Some(arrived[..i]);
      arrived := arrived[i + 1..];
    }

    method Write(bytes: Bytes)
      modifies this
      ensures Now() == Put(old(Now()), bytes)
    {
      written := written + bytes;
    }

    method FlushBuffers() returns (ok: bool)
      modifies this
      ensures (ok, Now()) == Flush(old(Now()))
    {
      sent := sent + written;
      written := [];
      ok := |arrived| == 0;
    }

    method SendReply(bytes: Bytes)
      modifies this
      ensures Now() == Reply(old(Now()), bytes)
    {
      Write(bytes);
      var _ := FlushBuffers();
    }
  }

  // ---------------------------------------------------------------- method negotiation

  /** Username/password whenever it is offered, else none whenever that is. */
  function Suitable(methods: Bytes): byte {
    if AUTH_PASSWORD in methods then AUTH_PASSWORD
    else if AUTH_NONE in methods then AUTH_NONE
    else AUTH_NO_ACCEPTABLE
  }

  function Negotiated(c: Io): (Outcome<byte, Failure>, Io) {
    var (version, c1) := TakeByte(c);
    if version.None? then (Err(ShortRead), c1)
    else if version.value != VERSION then (Err(BadField), c1)
    else
      var (n, c2) := TakeByte(c1);
      if n.None? then (Err(ShortRead), c2)
      else
        var (methods, c3) := Take(c2, n.value);
        if methods.None? then (Err(ShortRead), c3)
        else
          var (clean, c4) := Flush(Put(c3, [VERSION, Suitable(methods.value)]));
          (if clean then Ok(Suitable(methods.value)) else Err(LeftOver), c4)
  }

  method NegotiateAuth(rw: ReadWriter) returns (r: Outcome<byte, Failure>)
    modifies rw
    ensures (r, rw.Now()) == Negotiated(old(rw.Now()))
  {
    var version := rw.ReadByte();
    if version.None? {
      return Err(ShortRead);
    }
    if version.value != VERSION {
      return Err(BadField);
    }
    var nmethods := rw.ReadByte();
    if nmethods.None? {
      return Err(ShortRead);
    }
    var methods := rw.ReadBytes(nmethods.value);
    if methods.None? {
      return Err(ShortRead);
    }
    var ms := methods.value;
    var method_ := AUTH_NO_ACCEPTABLE;
    for i := 0 to |ms|
      invariant method_ == Suitable(ms[..i])
    {
      assert ms[..i + 1] == ms[..i] + [ms[i]];
      if ms[i] == AUTH_NONE {
        if method_ == AUTH_NO_ACCEPTABLE {
          method_ := ms[i];
        }
      } else if ms[i] == AUTH_PASSWORD {
        method_ := ms[i];
      }
    }
    assert ms[..|ms|] == ms;
    rw.Write([VERSION, method_]);
    var ok := rw.FlushBuffers();
    return if ok then Ok(method_) else Err(LeftOver);
  }

  // ---------------------------------------------------------------- authentication

  /** A password of one zero byte stands for none. */
  function PasswordOf(passwd: Bytes): Bytes {
    if passwd == [0] then [] else passwd
  }

  /** A length and that many bytes, at least one. */
  function Field(c: Io): (Outcome<Bytes, Failure>, Io) {
    var (n, c1) := TakeByte(c);
    if n.None? then (Err(ShortRead), c1)
    else if n.value < 1 then (Err(EmptyField), Reply(c1, [RFC1929_VERSION, RFC1929_FAIL]))
    else
      var (bytes, c2) := Take(c1, n.value);
      (if bytes.None? then Err(ShortRead) else Ok(bytes.value), c2)
  }

  function Credentials(c: Io): (Outcome<Request, Failure>, Io) {
    var (version, c1) := TakeByte(c);
    if version != Some(RFC1929_VERSION) then
      (Err(if version.None? then ShortRead else BadField), Reply(c1, [RFC1929_VERSION, RFC1929_FAIL]))
    else
      var (uname, c2) := Field(c1);
      if uname.Err? then (Err(uname.error), c2)
      else
        var (passwd, c3) := Field(c2);
        if passwd.Err? then (Err(passwd.error), c3)
        else
          var username, password := uname.value, PasswordOf(passwd.value);
          match Codec.ParseClient(username + password)
          case Err(_) => (Err(BadArgs), Reply(c3, [RFC1929_VERSION, RFC1929_FAIL]))
          case Ok(args) =>
            (Ok(Request(None, username, password, args)), Put(c3, [RFC1929_VERSION, RFC1929_SUCCESS]))
  }

  function Authenticated(c: Io, m: byte): (Outcome<Request, Failure>, Io) {
    var (r, c1) := if m == AUTH_NONE then (Ok(NO_REQUEST), c)
                   else if m == AUTH_PASSWORD then Credentials(c)
                   else (Err(NoCompatibleMethod), c);
    if r.Err? then (r, c1)
    else
      var (clean, c2) := Flush(c1);
      (if clean then r else Err(LeftOver), c2)
  }

  method ReadField(rw: ReadWriter) returns (r: Outcome<Bytes, Failure>)
    modifies rw
    ensures (r, rw.Now()) == Field(old(rw.Now()))
  {
    var len := rw.ReadByte();
    if len.None? {
      return Err(ShortRead);
    }
    if len.value < 1 {
      rw.SendReply([RFC1929_VERSION, RFC1929_FAIL]);
      return Err(EmptyField);
    }
    var bytes := rw.ReadBytes(len.value);
    return if bytes.None? then Err(ShortRead) else Ok(bytes.value);
  }

  method AuthRFC1929(rw: ReadWriter) returns (r: Outcome<Request, Failure>)
    modifies rw
    ensures (r, rw.Now()) == Credentials(old(rw.Now()))
  {
    var version := rw.ReadByte();
    if version != Some(RFC1929_VERSION) {
      rw.SendReply([RFC1929_VERSION, RFC1929_FAIL]);
      return Err(if version.None? then ShortRead else BadField);
    }
    var uname := ReadField(rw);
    if uname.Err? {
      return Err(uname.error);
    }
    var req := NO_REQUEST.(username := uname.value);
    var passwd := ReadField(rw);
    if passwd.Err? {
      return Err(passwd.error);
    }
    if !(|passwd.value| == 1 && passwd.value[0] == 0) {
      req := req.(password := passwd.value);
    }
    var args := Codec.ParseClientParameters(req.username + req.password);
    if args.Err? {
      rw.SendReply([RFC1929_VERSION, RFC1929_FAIL]);
      return Err(BadArgs);
    }
    req := req.(args := args.value);
    rw.Write([RFC1929_VERSION, RFC1929_SUCCESS]);
    return Ok(req);
  }

  method Authenticate(rw: ReadWriter, m: byte) returns (r: Outcome<Request, Failure>)
    modifies rw
    ensures (r, rw.Now()) == Authenticated(old(rw.Now()), m)
  {
    if m == AUTH_NONE {
      r := Ok(NO_REQUEST);
    } else if m == AUTH_PASSWORD {
      r := AuthRFC1929(rw);
    } else {
      r := Err(NoCompatibleMethod);
    }
    if r.Err? {
      return;
    }
    var ok := rw.FlushBuffers();
    if !ok {
      r := Err(LeftOver);
    }
  }

  // ---------------------------------------------------------------- the command

  /** sendSocks5Response: the address and port are always zero. */
  function Response(code: byte): Bytes {
    [VERSION, code, RESERVED, ATYPE_V4, 0, 0, 0, 0, 0, 0]
  }

  function DestinationRead(c: Io): (Outcome<Destination, Failure>, Io) {
    var (atype, c1) := TakeByte(c);
    if atype.None? then (Err(ShortRead), c1)
    else if atype.value == ATYPE_V4 then
      var (addr, c2) := Take(c1, 4);
      (if addr.None? then Err(ShortRead) else Ok(Address(V4(addr.value))), c2)
    else if atype.value == ATYPE_V6 then
      var (addr, c2) := Take(c1, 16);
      (if addr.None? then Err(ShortRead) else Ok(Address(V6(addr.value))), c2)
    else if atype.value == ATYPE_DOMAIN then
      var (len, c2) := TakeByte(c1);
      if len.None? then (Err(ShortRead), c2)
      else if len.value == 0 then (Err(EmptyField), c2)
      else
        var (name, c3) := Take(c2, len.value);
        (if name.None? then Err(ShortRead) else Ok(Name(name.value)), c3)
    else (Err(UnsupportedAddress), Reply(c1, Response(REP_ADDRESS_NOT_SUPPORTED)))
  }

  /** One byte that has to be just so; if it is not, the client is told reason. */
  function Verified(c: Io, b: byte, reason: byte): (Option<Failure>, Io) {
    var (got, c1) := TakeByte(c);
    if got == Some(b) then (None, c1)
    else (Some(if got.None? then ShortRead else BadField), Reply(c1, Response(reason)))
  }

  function CommandRead(c: Io, ips: IpText): (Outcome<Bytes, Failure>, Io) {
    var (e1, c1) := Verified(c, VERSION, REP_GENERAL_FAILURE);
    if e1.Some? then (Err(e1.value), c1)
    else
      var (e2, c2) := Verified(c1, CMD_CONNECT, REP_COMMAND_NOT_SUPPORTED);
      if e2.Some? then (Err(e2.value), c2)
      else
        var (e3, c3) := Verified(c2, RESERVED, REP_GENERAL_FAILURE);
        if e3.Some? then (Err(e3.value), c3)
        else
          var (d, c4) := DestinationRead(c3);
          if d.Err? then (Err(d.error), c4)
          else
            var (port, c5) := Take(c4, 2);
            if port.None? then (Err(ShortRead), c5)
            else
              var (clean, c6) := Flush(c5);
              (if clean then Ok(TargetText(ips, d.value, FromU16(port.value[0], port.value[1]))) else Err(LeftOver), c6)
  }

  method SendResponse(rw: ReadWriter, code: byte)
    modifies rw
    ensures rw.Now() == Reply(old(rw.Now()), Response(code))
  {
    rw.SendReply([VERSION, code, RESERVED, ATYPE_V4, 0, 0, 0, 0, 0, 0]);
  }

  method Verify(rw: ReadWriter, b: byte, reason: byte) returns (e: Option<Failure>)
    modifies rw
    ensures (e, rw.Now()) == Verified(old(rw.Now()), b, reason)
  {
    var got := rw.ReadByte();
    if got == Some(b) {
      return None;
    }
    SendResponse(rw, reason);
    return Some(if got.None? then ShortRead else BadField);
  }

  method ReadDestination(rw: ReadWriter) returns (r: Outcome<Destination, Failure>)
    modifies rw
    ensures (r, rw.Now()) == DestinationRead(old(rw.Now()))
  {
    var atype := rw.ReadByte();
    if atype.None? {
      return Err(ShortRead);
    }
    if atype.value == ATYPE_V4 {
      var addr := rw.ReadBytes(4);
      return if addr.None? then Err(ShortRead) else Ok(Address(V4(addr.value)));
    }
    if atype.value == ATYPE_DOMAIN {
      var alen := rw.ReadByte();
      if alen.None? {
        return Err(ShortRead);
      }
      if alen.value == 0 {
        return Err(EmptyField);
      }
      var addr := rw.ReadBytes(alen.value);
      return if addr.None? then Err(ShortRead) else Ok(Name(addr.value));
    }
    if atype.value == ATYPE_V6 {
      var addr := rw.ReadBytes(16);
      return if addr.None? then Err(ShortRead) else Ok(Address(V6(addr.value)));
    }
    SendResponse(rw, REP_ADDRESS_NOT_SUPPORTED);
    return Err(UnsupportedAddress);
  }

  method ReadCommand(rw: ReadWriter, ips: IpText) returns (r: Outcome<Bytes, Failure>)
    modifies rw
    ensures (r, rw.Now()) == CommandRead(old(rw.Now()), ips)
  {
    var e := Verify(rw, VERSION, REP_GENERAL_FAILURE);
    if e.Some? {
      return Err(e.value);
    }
    e := Verify(rw, CMD_CONNECT, REP_COMMAND_NOT_SUPPORTED);
    if e.Some? {
      return Err(e.value);
    }
    e := Verify(rw, RESERVED, REP_GENERAL_FAILURE);
    if e.Some? {
      return Err(e.value);
    }
    var d := ReadDestination(rw);
    if d.Err? {
      return Err(d.error);
    }
    var rawPort := rw.ReadBytes(2);
    if rawPort.None? {
      return Err(ShortRead);
    }
    var port := FromU16(rawPort.value[0], rawPort.value[1]);
    var ok := rw.FlushBuffers();
    return if ok then Ok(TargetText(ips, d.value, port)) else Err(LeftOver);
  }
}
