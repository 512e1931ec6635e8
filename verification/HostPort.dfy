/** Endpoints as text: what the SOCKS server writes into a request's Target, and what
    net.SplitHostPort makes of such text. */
module HostPort {
  import opened Basics

  type Bytes = seq<byte>

  const COLON: byte := 0x3a
  const OPEN: byte := 0x5b
  const CLOSE: byte := 0x5d

  // ---------------------------------------------------------------- addresses

  datatype Ip = V4(bytes: Bytes) | V6(bytes: Bytes)

  predicate Sized(ip: Ip) {
    |ip.bytes| == if ip.V4? then 4 else 16
  }

  /** net.ParseIP followed by To4, and IP.String. */
  datatype IpText = IpText(parse: Bytes -> Option<Ip>, print_: Ip -> Bytes)

  /** Printing what was parsed gives text that parses to the same address; a printed
      IPv4 address has neither colons nor brackets, an IPv6 address no brackets. */
  ghost predicate ReadsItself(ips: IpText) {
    forall t :: ips.parse(t).Some? ==>
      var ip := ips.parse(t).value;
      && Sized(ip) && ips.parse(ips.print_(ip)) == Some(ip)
      && OPEN !in ips.print_(ip) && CLOSE !in ips.print_(ip)
      && (ip.V4? ==> COLON !in ips.print_(ip))
  }

  // ---------------------------------------------------------------- decimal numbers

  function Decimal(n: nat): Bytes {
    if n < 10 then [0x30 + n] else Decimal(n / 10) + [0x30 + n % 10]
  }

  function Number(s: Bytes): Option<nat> {
    if s == [] then None
    else
      var d := s[|s| - 1];
      if !(0x30 <= d <= 0x39) then None
      else if |s| == 1 then Some(d - 0x30)
      else match Number(s[..|s| - 1])
        case None => None
        case Some(n) => Some(10 * n + (d - 0x30))
  }

  lemma {:induction false} NumberOfDecimal(n: nat)
    ensures Number(Decimal(n)) == Some(n)
    ensures forall b <- Decimal(n) :: 0x30 <= b <= 0x39
  {
    if n >= 10 {
      NumberOfDecimal(n / 10);
      assert Decimal(n)[..|Decimal(n)| - 1] == Decimal(n / 10);
    }
  }

  // ---------------------------------------------------------------- host:port

  /** Where b stands in s, counted from i; |s| if nowhere. */
  function IndexFrom(s: Bytes, b: byte, i: nat): (r: nat)
    requires i <= |s|
    ensures i <= r <= |s| && (r < |s| ==> s[r] == b) && forall k :: i <= k < r ==> s[k] != b
    decreases |s| - i
  {
    if i == |s| || s[i] == b then i else IndexFrom(s, b, i + 1)
  }

  /** Where b stands last before i. */
  function LastBefore(s: Bytes, b: byte, i: nat): (r: Option<nat>)
    requires i <= |s|
    ensures r.Some? ==> r.value < i && s[r.value] == b && forall k :: r.value < k < i ==> s[k] != b
    ensures r.None? ==> forall k :: 0 <= k < i ==> s[k] != b
    decreases i
  {
    if i == 0 then None
    else if s[i - 1] == b then Some(i - 1)
    else LastBefore(s, b, i - 1)
  }

  /** net.SplitHostPort */
  function SplitHostPort(s: Bytes): Option<(Bytes, Bytes)> {
    var i := LastBefore(s, COLON, |s|);
    if i.None? then None
    else if s[0] == OPEN then
      var end := IndexFrom(s, CLOSE, 0);
      if end + 1 != i.value || OPEN in s[1..] || CLOSE in s[end + 1..] then None
      else Some((s[1..end], s[i.value + 1..]))
    else if COLON in s[..i.value] || OPEN in s || CLOSE in s then None
    else Some((s[..i.value], s[i.value + 1..]))
  }

  predicate Plain(s: Bytes) {
    COLON !in s && OPEN !in s && CLOSE !in s
  }

  lemma LastColon(host: Bytes, port: Bytes)
    requires Plain(port)
    ensures var s := host + [COLON] + port; LastBefore(s, COLON, |s|) == Some(|host|)
  {
    var s := host + [COLON] + port;
    assert s[|host|] == COLON;
    assert forall k :: |host| < k < |s| ==> s[k] == port[k - |host| - 1];
  }

  /** A host without brackets around it comes back exactly when it is plain. */
  lemma SplitsPlainOnly(host: Bytes, port: Bytes)
    requires Plain(port)
    ensures SplitHostPort(host + [COLON] + port) == Some((host, port)) <==> Plain(host)
  {
    var s := host + [COLON] + port;
    LastColon(host, port);
    assert s[..|host|] == host && s[|host| + 1..] == port;
    assert forall b <- host :: b in s;
    if host != [] && host[0] == OPEN {
      assert s[0] == OPEN;
      assert OPEN in host;
      assert |s[1..IndexFrom(s, CLOSE, 0)]| != |host| || IndexFrom(s, CLOSE, 0) + 1 != |host|;
    }
  }

  lemma SplitsBracketed(host: Bytes, port: Bytes)
    requires Plain(port) && OPEN !in host && CLOSE !in host
    ensures SplitHostPort([OPEN] + host + [CLOSE] + [COLON] + port) == Some((host, port))
  {
    var s := [OPEN] + host + [CLOSE] + [COLON] + port;
    LastColon([OPEN] + host + [CLOSE], port);
    assert s[|host| + 1] == CLOSE && forall k :: 1 <= k <= |host| ==> s[k] == host[k - 1];
    assert IndexFrom(s, CLOSE, 0) == |host| + 1;
    assert s[1..] == host + [CLOSE] + [COLON] + port && s[|host| + 2..] == [COLON] + port;
    assert s[1..|host| + 1] == host && s[|host| + 3..] == port;
  }

  // ---------------------------------------------------------------- targets

  /** Where a client wants to go. */
  datatype Destination = Address(ip: Ip) | Name(name: Bytes)

  function DestinationOf(ips: IpText, host: Bytes): Destination {
    match ips.parse(host) case Some(ip) => Address(ip) case None => Name(host)
  }

  function HostText(ips: IpText, d: Destination): Bytes {
    match d
    case Name(name) => name
    case Address(ip) => if ip.V4? then ips.print_(ip) else [OPEN] + ips.print_(ip) + [CLOSE]
  }

  function TargetText(ips: IpText, d: Destination, port: nat): Bytes {
    HostText(ips, d) + [COLON] + Decimal(port)
  }

  /** target, read as the client reads its own address argument, names d and port. */
  ghost predicate Denotes(ips: IpText, target: Bytes, d: Destination, port: nat) {
    var r := SplitHostPort(target);
    r.Some? && DestinationOf(ips, r.value.0) == d && Number(r.value.1) == Some(port)
  }

  lemma DigitsArePlain(port: nat)
    ensures Plain(Decimal(port)) && Number(Decimal(port)) == Some(port)
  {
    NumberOfDecimal(port);
  }

  /** The text in Target denotes the endpoint it was made for: always when that is an
      address, and for a name exactly when no colon or bracket is in it. */
  lemma TargetDenotes(ips: IpText, host: Bytes, port: nat)
    requires ReadsItself(ips)
    ensures var d := DestinationOf(ips, host);
      Denotes(ips, TargetText(ips, d, port), d, port) <==> d.Address? || Plain(host)
  {
    var d, p := DestinationOf(ips, host), Decimal(port);
    DigitsArePlain(port);
    match d
    case Name(name) =>
      SplitsPlainOnly(host, p);
      var r := SplitHostPort(host + [COLON] + p);
      if r.Some? && DestinationOf(ips, r.value.0) == d {
        assert r.value.0 == host;
        LastColon(host, p);
        assert (host + [COLON] + p)[|host| + 1..] == p;
      }
    case Address(ip) =>
      assert ips.parse(host) == Some(ip);
      if ip.V4? { SplitsPlainOnly(ips.print_(ip), p); } else { SplitsBracketed(ips.print_(ip), p); }
  }
}
