/** The packet format of the UDP gateway: a 16-bit length, low byte first, before
    fields that are high byte first.  Packets are read through a buffer of fixed size
    from a connection that hands out its bytes in portions of any size. */
module UdpPacket {
  import opened Basics

  datatype Packet = Packet(flags: byte, conid: nat, ip: seq<byte>, port: nat, content: seq<byte>)

  const READER_BUFFER := 4096

  predicate Valid(p: Packet) {
    p.conid < 0x10000 && p.port < 0x10000
  }

  /** flagIPv6 */
  predicate SaysIPv6(flags: byte) {
    (flags / 8) % 2 == 1
  }

  function AddressLength(flags: byte): nat {
    if SaysIPv6(flags) then 16 else 4
  }

  predicate FlagFits(p: Packet) {
    |p.ip| == AddressLength(p.flags)
  }

  /** Everything behind the two length bytes. */
  function BodyLength(p: Packet): nat {
    1 + 2 + |p.ip| + 2 + |p.content|
  }

  /** uint16 arithmetic. */
  function Wrap16(n: nat): (r: nat)
    ensures r < 0x10000 && (n < 0x10000 ==> r == n)
  {
    if n < 0x10000 then n else n % 0x10000
  }

  function Sub16(a: nat, b: nat): nat
    requires a < 0x10000 && b < 0x10000
  {
    if a >= b then a - b else 0x10000 + a - b
  }

  /** What write puts on the wire, with the length as the code computes it. */
  function Bytes(p: Packet): seq<byte>
    requires Valid(p)
  {
    var length := Wrap16(1 + 2 + Wrap16(|p.ip|) + 2 + Wrap16(|p.content|));
    [Low(length), High(length), p.flags, High(p.conid), Low(p.conid)] + p.ip + [High(p.port), Low(p.port)] + p.content
  }

  // ---------------------------------------------------------------- the simple form

  datatype Read = Got(packet: Packet, rest: seq<byte>) | Eof | BufferFull | Short

  /** One read from a stream of these bytes, as long as the length counts all the fields
      it announces; a shorter one is Short. */
  function ReadOne(input: seq<byte>): Read {
    if |input| < 2 then Eof
    else
      var length := FromU16(input[1], input[0]);
      var body := input[2..];
      if length > READER_BUFFER then BufferFull
      else if |body| < length then Eof
      else if length < 3 then Short
      else
        var flags, conid := body[0], FromU16(body[1], body[2]);
        var n := AddressLength(flags);
        if length == 3 then Got(Packet(flags, conid, [], 0, []), body[3..])
        else if length < 5 + n then Short
        else
          var port := FromU16(body[3 + n], body[4 + n]);
          Got(Packet(flags, conid, body[3..3 + n], port, body[5 + n..length]), body[length..])
  }

  // ---------------------------------------------------------------- the buffered reader

  /** bufio.Reader: what is buffered, what the connection will still deliver before it
      ends, and how much, less one byte, each of its next Reads finds. */
  datatype Reader = Reader(buf: seq<byte>, conn: seq<byte>, arrivals: seq<nat>)

  predicate Fits(r: Reader) {
    |r.buf| <= READER_BUFFER
  }

  function Rest(r: Reader): seq<byte> {
    r.buf + r.conn
  }

  /** How much one Read of the connection finds for so much room. */
  function Arrived(r: Reader, room: nat): (k: nat)
    ensures k <= room && k <= |r.conn| && (room > 0 && r.conn != [] ==> k > 0)
  {
    Min(room, if r.arrivals == [] then |r.conn| else Min(|r.conn|, 1 + r.arrivals[0]))
  }

  function Later(r: Reader): seq<nat> {
    if r.arrivals == [] then [] else r.arrivals[1..]
  }

  function Fill(r: Reader): (f: Reader)
    requires Fits(r)
    ensures Fits(f) && Rest(f) == Rest(r) && |f.buf| >= |r.buf|
    ensures |r.buf| < READER_BUFFER && r.conn != [] ==> |f.conn| < |r.conn| && f.buf != []
  {
    var k := Arrived(r, READER_BUFFER - |r.buf|);
    assert r.conn[..k] + r.conn[k..] == r.conn;
    assert r.buf + r.conn[..k] + r.conn[k..] == r.buf + (r.conn[..k] + r.conn[k..]);
    Reader(r.buf + r.conn[..k], r.conn[k..], Later(r))
  }

  /** Peek(n): fills the buffer until it holds n bytes, if it can. */
  function Peek(r: Reader, n: nat): (f: Reader)
    requires Fits(r)
    ensures Fits(f) && Rest(f) == Rest(r) && |f.buf| >= |r.buf|
    ensures n <= READER_BUFFER ==> |f.buf| >= n || f.conn == []
    ensures |r.buf| >= n ==> f == r
    decreases |r.conn|
  {
    if |r.buf| < n && |r.buf| < READER_BUFFER && r.conn != [] then Peek(Fill(r), n) else r
  }

  /** Read into n bytes: from the buffer if it holds any, and else what one Read of the
      connection finds, past the buffer if n is not below its size. */
  function ReadInto(r: Reader, n: nat): (f: (seq<byte>, Reader))
    requires Fits(r)
    ensures Fits(f.1) && |f.0| <= n && f.0 + Rest(f.1) == Rest(r)
    ensures n > 0 && Rest(r) != [] ==> f.0 != []
    ensures n <= |r.buf| ==> f == (r.buf[..n], r.(buf := r.buf[n..]))
  {
    if n == 0 || Rest(r) == [] then ([], r)
    else if r.buf == [] && n >= READER_BUFFER then
      var k := Arrived(r, n);
      (r.conn[..k], Reader([], r.conn[k..], Later(r)))
    else
      var f := if r.buf == [] then Fill(r) else r;
      var k := Min(n, |f.buf|);
      (f.buf[..k], f.(buf := f.buf[k..]))
  }

  /** io.ReadFull: n bytes, or all there are. */
  function ReadFull(r: Reader, n: nat): (f: (seq<byte>, Reader))
    requires Fits(r)
    ensures Fits(f.1) && |f.0| <= n && f.0 + Rest(f.1) == Rest(r)
    decreases n
  {
    if n == 0 || Rest(r) == [] then ([], r)
    else
      var f := ReadInto(r, n);
      var g := ReadFull(f.1, n - |f.0|);
      assert f.0 + g.0 + Rest(g.1) == f.0 + (g.0 + Rest(g.1));
      (f.0 + g.0, g.1)
  }

  lemma BufferedIsReadFull(r: Reader, n: nat)
    requires Fits(r) && n <= |r.buf|
    ensures ReadFull(r, n) == (r.buf[..n], r.(buf := r.buf[n..]))
  {
    if n > 0 {
      var f := ReadInto(r, n);
      assert ReadFull(f.1, 0) == ([], f.1);
      assert f.0 + [] == f.0;
    }
  }

  /** binary.Read of one byte, or of two with the high one first; at the end of the
      stream the field keeps its zero. */
  function Number(b: seq<byte>, n: nat): (r: nat)
    ensures n == 1 ==> r < 0x100
    ensures n == 2 ==> r < 0x10000
  {
    if n == 1 && |b| == 1 then b[0] else if n == 2 && |b| == 2 then FromU16(b[0], b[1]) else 0
  }

  /** A slice of n zero bytes, overwritten at its front. */
  function Padded(b: seq<byte>, n: nat): (r: seq<byte>)
    requires |b| <= n
    ensures |r| == n && b <= r
  {
    b + seq(n - |b|, _ => 0)
  }

  /** The part of read behind the length, whose count may wrap. */
  function Fields(r: Reader, length: nat): (f: (Read, Reader))
    requires Fits(r) && length < 0x10000
    ensures Fits(f.1) && |Rest(f.1)| <= |Rest(r)| && (f.0.Got? ==> f.0.rest == Rest(f.1))
  {
    var f := ReadFull(r, 1);
    var c := ReadFull(f.1, 2);
    var flags, conid := Number(f.0, 1), Number(c.0, 2);
    if Sub16(length, 3) == 0 then (Got(Packet(flags, conid, [], 0, []), Rest(c.1)), c.1)
    else
      var n := AddressLength(flags);
      var ip := ReadInto(c.1, n);
      var port := ReadFull(ip.1, 2);
      var left := ContentLength(length, flags);
      var content := ReadInto(port.1, left);
      (Got(Packet(flags, conid, Padded(ip.0, n), Number(port.0, 2), Padded(content.0, left)), Rest(content.1)),
       content.1)
  }

  function ContentLength(length: nat, flags: byte): (n: nat)
    requires length < 0x10000
    ensures n < 0x10000
  {
    Sub16(Sub16(Sub16(length, 3), AddressLength(flags)), 2)
  }

  function Next(r: Reader): (f: (Read, Reader))
    requires Fits(r)
    ensures Fits(f.1) && (f.0.Got? ==> f.0.rest == Rest(f.1) && |Rest(f.1)| < |Rest(r)|)
  {
    var a := Peek(r, 2);
    if |a.buf| < 2 then (Eof, a)
    else
      var length := FromU16(a.buf[1], a.buf[0]);
      var b := Peek(a.(buf := a.buf[2..]), length);
      if length > READER_BUFFER then (BufferFull, b)
      else if |b.buf| < length then (Eof, b)
      else Fields(b, length)
  }

  // ---------------------------------------------------------------- refinement

  /** When everything before the content is in the buffer, the content is read next. */
  lemma HeadIsBuffered(r: Reader, length: nat)
    requires Fits(r) && length < 0x10000 && length != 3
    requires r.buf != [] && |r.buf| >= 5 + AddressLength(r.buf[0])
    ensures var b, n := r.buf, AddressLength(r.buf[0]);
      var left := ContentLength(length, b[0]);
      var f := ReadInto(r.(buf := b[5 + n..]), left);
      Fields(r, length) ==
        (Got(Packet(b[0], FromU16(b[1], b[2]), b[3..3 + n], FromU16(b[3 + n], b[4 + n]), Padded(f.0, left)),
             Rest(f.1)), f.1)
  {
    var b, n := r.buf, AddressLength(r.buf[0]);
    hide ReadInto, ReadFull;
    BufferedIsReadFull(r, 1);
    BufferedIsReadFull(r.(buf := b[1..]), 2);
    assert b[1..][2..] == b[3..];
    BufferedIsReadInto(r, 3, n);
    BufferedIsReadFull(r.(buf := b[3 + n..]), 2);
    assert b[3 + n..][2..] == b[5 + n..];
    assert Padded(b[3..3 + n], n) == b[3..3 + n];
  }

  /** While the length is not too short, everything a read takes is in the buffer already. */
  lemma FieldsAreBuffered(r: Reader, length: nat)
    requires Fits(r) && 3 <= length <= |r.buf|
    requires length == 3 || length >= 5 + AddressLength(r.buf[0])
    ensures var b, n, f := r.buf, AddressLength(r.buf[0]), Fields(r, length);
      f == if length == 3 then
        (Got(Packet(b[0], FromU16(b[1], b[2]), [], 0, []), b[3..] + r.conn), r.(buf := b[3..]))
      else
        (Got(Packet(b[0], FromU16(b[1], b[2]), b[3..3 + n], FromU16(b[3 + n], b[4 + n]), b[5 + n..length]),
             b[length..] + r.conn), r.(buf := b[length..]))
  {
    var b, n := r.buf, AddressLength(r.buf[0]);
    hide ReadInto, ReadFull;
    if length == 3 {
      BufferedIsReadFull(r, 1);
      BufferedIsReadFull(r.(buf := b[1..]), 2);
      assert b[1..][2..] == b[3..];
    } else {
      HeadIsBuffered(r, length);
      assert ContentLength(length, b[0]) == length - 5 - n;
      BufferedIsReadInto(r, 5 + n, length - 5 - n);
      assert Padded(b[5 + n..length], length - 5 - n) == b[5 + n..length];
    }
  }

  lemma BufferedIsReadInto(r: Reader, at: nat, n: nat)
    requires Fits(r) && at + n <= |r.buf|
    ensures ReadInto(r.(buf := r.buf[at..]), n) == (r.buf[at..at + n], r.(buf := r.buf[at + n..]))
  {
    assert r.buf[at..][..n] == r.buf[at..at + n] && r.buf[at..][n..] == r.buf[at + n..];
  }

  /** However its bytes arrive, a reader answers what the simple form answers, and goes
      on behind the packet. */
  lemma NextIsReadOne(r: Reader)
    requires Fits(r) && !ReadOne(Rest(r)).Short?
    ensures Next(r).0 == ReadOne(Rest(r))
  {
    hide Peek, Fields;
    var input, a := Rest(r), Peek(r, 2);
    if |a.buf| >= 2 {
      assert a.buf[0] == input[0] && a.buf[1] == input[1];
      var length := FromU16(a.buf[1], a.buf[0]);
      var c := a.(buf := a.buf[2..]);
      assert Rest(c) == input[2..];
      var b := Peek(c, length);
      if length <= |b.buf| && length <= READER_BUFFER {
        StandsInBuffer(b, length);
        FieldsAreBuffered(b, length);
      }
    }
  }

  lemma StandsInBuffer(b: Reader, length: nat)
    requires length <= |b.buf|
    ensures forall i, j :: 0 <= i <= j <= length ==> Rest(b)[i..j] == b.buf[i..j]
    ensures forall i :: 0 <= i <= length ==> Rest(b)[i..] == b.buf[i..] + b.conn
    ensures forall i :: 0 <= i < length ==> Rest(b)[i] == b.buf[i]
  {
  }

  // ---------------------------------------------------------------- round trips

  /** The length on the wire. */
  function WireLength(p: Packet): (n: nat)
    ensures n < 0x10000
  {
    Wrap16(1 + 2 + Wrap16(|p.ip|) + 2 + Wrap16(|p.content|))
  }

  lemma WireLengthIs(p: Packet)
    requires |p.ip| <= 16 && |p.content| < 0x10000
    ensures WireLength(p) == if BodyLength(p) < 0x10000 then BodyLength(p) else BodyLength(p) - 0x10000
  {
  }

  lemma LengthStandsFirst(p: Packet, rest: seq<byte>)
    requires Valid(p)
    ensures var w := Bytes(p) + rest;
      |w| == 2 + BodyLength(p) + |rest| && FromU16(w[1], w[0]) == WireLength(p)
  {
  }

  lemma WrittenStands(p: Packet, rest: seq<byte>)
    requires Valid(p) && BodyLength(p) < 0x10000
    ensures var w, n := Bytes(p) + rest, |p.ip|;
      && |w| == 2 + BodyLength(p) + |rest|
      && FromU16(w[1], w[0]) == BodyLength(p)
      && var b := w[2..];
      && b[0] == p.flags && FromU16(b[1], b[2]) == p.conid && b[3..3 + n] == p.ip
      && FromU16(b[3 + n], b[4 + n]) == p.port && b[5 + n..BodyLength(p)] == p.content && b[BodyLength(p)..] == rest
  {
  }

  /** What p is written as, and then rest, is what r has before it. */
  predicate Brings(r: Reader, p: Packet, rest: seq<byte>)
    requires Valid(p)
  {
    Fits(r) && Rest(r) == Bytes(p) + rest
  }

  /** A packet whose flag tells its address length is read back as it was written, with
      nothing of what follows touched, exactly when it fits the reader's buffer. */
  lemma ReadsWhatWasWritten(r: Reader, p: Packet, rest: seq<byte>)
    requires Valid(p) && FlagFits(p) && BodyLength(p) < 0x10000 && Brings(r, p, rest)
    ensures Next(r).0 == if BodyLength(p) <= READER_BUFFER then Got(p, rest) else BufferFull
  {
    hide Next;
    WrittenStands(p, rest);
    NextIsReadOne(r);
  }

  /** Whatever is got has an address of the announced length and content of the length
      that is left, both in wrapping arithmetic. */
  lemma GotHasLengths(r: Reader)
    requires Fits(r) && Next(r).0.Got?
    ensures |Rest(r)| >= 2
    ensures var q, w := Next(r).0.packet, FromU16(Rest(r)[1], Rest(r)[0]);
      && w <= READER_BUFFER
      && if w == 3 then q.ip == [] && q.content == [] else FlagFits(q) && |q.content| == ContentLength(w, q.flags)
  {
    var a := Peek(r, 2);
    assert a.buf[0] == Rest(r)[0] && a.buf[1] == Rest(r)[1];
  }

  /** Whether any arrival brings the packet back. */
  predicate Recoverable(p: Packet) {
    && FlagFits(p) && |p.content| < 0x10000
    && (BodyLength(p) <= READER_BUFFER || (BodyLength(p) >= 0x10000 && BodyLength(p) != 0x10003))
  }

  lemma OnlyRecoverable(r: Reader, p: Packet, rest: seq<byte>)
    requires Valid(p) && Brings(r, p, rest) && Next(r).0 == Got(p, rest)
    ensures Recoverable(p)
  {
    LengthStandsFirst(p, rest);
    GotHasLengths(r);
  }

  /** A wrapped packet of which everything but the content arrives first, and then all of
      the content at once. */
  function InTwo(p: Packet, rest: seq<byte>): (r: Reader)
    requires Valid(p)
  {
    Reader([], Bytes(p) + rest, [6 + |p.ip|, if p.content == [] then 0 else |p.content| - 1])
  }

  lemma InTwoIsReadBack(p: Packet, rest: seq<byte>)
    requires Valid(p) && Recoverable(p) && BodyLength(p) >= 0x10000
    ensures Next(InTwo(p, rest)).0 == Got(p, rest)
  {
    var w, n, c := Bytes(p) + rest, |p.ip|, |p.content|;
    HeadStands(p, rest);
    var b := Reader(w[2..7 + n], p.content + rest, [c - 1]);
    assert Next(InTwo(p, rest)) == Fields(b, WireLength(p)) by { FirstPartArrives(p, rest); }
    assert Fields(b, WireLength(p)).0 == Got(p, rest) by { WrappedFields(b, p, rest); }
  }

  /** With all but the content in the buffer, a wrapped length announces the content. */
  lemma WrappedFields(b: Reader, p: Packet, rest: seq<byte>)
    requires Valid(p) && Recoverable(p) && BodyLength(p) >= 0x10000
    requires |b.buf| == 5 + |p.ip| && b.conn == p.content + rest && b.arrivals == [|p.content| - 1]
    requires HeadIs(b.buf, p)
    ensures Fields(b, WireLength(p)).0 == Got(p, rest)
  {
    hide ReadInto, Fields;
    var n, c := |p.ip|, |p.content|;
    WireLengthIs(p);
    HeadIsBuffered(b, WireLength(p));
    assert b.buf[5 + n..] == [];
    ContentArrives(Reader([], b.conn, [c - 1]), c);
    assert Padded(p.content, c) == p.content;
  }

  predicate HeadIs(b: seq<byte>, p: Packet)
    requires |b| >= 5 + |p.ip|
  {
    var n := |p.ip|;
    && b[0] == p.flags && FromU16(b[1], b[2]) == p.conid
    && b[3..3 + n] == p.ip && FromU16(b[3 + n], b[4 + n]) == p.port
  }

  lemma FirstPartArrives(p: Packet, rest: seq<byte>)
    requires Valid(p) && Recoverable(p) && BodyLength(p) >= 0x10000
    ensures var w, n := Bytes(p) + rest, |p.ip|;
      && |w| >= 7 + n
      && Next(InTwo(p, rest)) == Fields(Reader(w[2..7 + n], w[7 + n..], [|p.content| - 1]), WireLength(p))
  {
    hide Fields;
    var w, n := Bytes(p) + rest, |p.ip|;
    LengthStandsFirst(p, rest);
    WireLengthIs(p);
    var a := Peek(InTwo(p, rest), 2);
    assert a == Reader(w[..7 + n], w[7 + n..], [|p.content| - 1]);
    assert a.buf[2..] == w[2..7 + n];
  }

  lemma HeadStands(p: Packet, rest: seq<byte>)
    requires Valid(p)
    ensures var w, n := Bytes(p) + rest, |p.ip|;
      |w| >= 7 + n && w[7 + n..] == p.content + rest && HeadIs(w[2..7 + n], p)
  {
    var w, n := Bytes(p) + rest, |p.ip|;
    var b := w[2..7 + n];
    assert b[3..3 + n] == w[5..5 + n] == p.ip;
    assert b[3 + n] == w[5 + n] && b[4 + n] == w[6 + n];
  }

  lemma ContentArrives(r: Reader, c: nat)
    requires r.buf == [] && READER_BUFFER <= c <= |r.conn| && r.arrivals == [c - 1]
    ensures ReadInto(r, c) == (r.conn[..c], Reader([], r.conn[c..], []))
  {
  }

  /** A content that begins in the buffer is not read beyond it. */
  lemma BufferIsTheLimit(r: Reader, length: nat)
    requires Fits(r) && length < 0x10000 && |r.buf| >= 22
    ensures |Rest(Fields(r, length).1)| >= |r.conn|
  {
    hide ReadInto, ReadFull;
    if length == 3 {
      BufferedIsReadFull(r, 1);
      BufferedIsReadFull(r.(buf := r.buf[1..]), 2);
    } else {
      HeadIsBuffered(r, length);
      var b, n := r.buf, AddressLength(r.buf[0]);
      BufferedFirst(r.(buf := b[5 + n..]), ContentLength(length, b[0]));
    }
  }

  lemma BufferedFirst(r: Reader, n: nat)
    requires Fits(r) && r.buf != []
    ensures |Rest(ReadInto(r, n).1)| >= |r.conn|
  {
  }

  /** All at once: then the buffer is full when the content is read from it. */
  lemma AtOnceIsNotReadBack(p: Packet, rest: seq<byte>)
    requires Valid(p) && BodyLength(p) >= 0x10000
    ensures Next(Reader([], Bytes(p) + rest, [])).0 != Got(p, rest)
  {
    hide Fields;
    var w := Bytes(p) + rest;
    LengthStandsFirst(p, rest);
    var a := Peek(Reader([], w, []), 2);
    assert |a.buf| == READER_BUFFER;
    assert a.buf[0] == w[0] && a.buf[1] == w[1];
    hide Peek;
    BufferIsTheLimit(Peek(a.(buf := a.buf[2..]), WireLength(p)), WireLength(p));
  }

  /** A packet is read back however its bytes arrive exactly if its flag tells its address
      length and it fits the reader's buffer; some arrival brings it back for some lengths
      that wrap, too, and for no others. */
  lemma ReadsBackExactlyIf(p: Packet, rest: seq<byte>)
    requires Valid(p)
    ensures (forall r :: Brings(r, p, rest) ==> Next(r).0 == Got(p, rest))
        <==> FlagFits(p) && BodyLength(p) <= READER_BUFFER
    ensures (exists r :: Brings(r, p, rest) && Next(r).0 == Got(p, rest)) <==> Recoverable(p)
  {
    hide Next;
    var fits := FlagFits(p) && BodyLength(p) <= READER_BUFFER;
    forall r | Brings(r, p, rest) ensures fits ==> Next(r).0 == Got(p, rest)
                                  ensures Next(r).0 == Got(p, rest) ==> Recoverable(p) {
      if fits { ReadsWhatWasWritten(r, p, rest); }
      if Next(r).0 == Got(p, rest) { OnlyRecoverable(r, p, rest); }
    }
    var atOnce := Reader([], Bytes(p) + rest, []);
    assert Brings(atOnce, p, rest);
    if BodyLength(p) >= 0x10000 { AtOnceIsNotReadBack(p, rest); }
    if Recoverable(p) && BodyLength(p) >= 0x10000 {
      assert Brings(InTwo(p, rest), p, rest);
      InTwoIsReadBack(p, rest);
    }
    assert Recoverable(p) && BodyLength(p) < 0x10000 ==> fits;
    assert !fits && BodyLength(p) < 0x10000 ==> !Recoverable(p);
  }

  /** Any sequence of packets written back to back. */
  function Stream(ps: seq<Packet>): seq<byte>
    requires forall p <- ps :: Valid(p)
  {
    if ps == [] then [] else Bytes(ps[0]) + Stream(ps[1..])
  }

  /** What a loop of reads decodes before its first error. */
  function ReadAll(r: Reader): seq<Packet>
    requires Fits(r)
    decreases |Rest(r)|
  {
    var f := Next(r);
    if f.0.Got? then [f.0.packet] + ReadAll(f.1) else []
  }

  /** However the bytes arrive. */
  lemma {:induction false} StreamRoundTrip(ps: seq<Packet>, r: Reader)
    requires forall p <- ps :: Valid(p) && FlagFits(p) && BodyLength(p) <= READER_BUFFER
    requires Fits(r) && Rest(r) == Stream(ps)
    ensures ReadAll(r) == ps
  {
    hide Next;
    if ps == [] {
      NextIsReadOne(r);
    } else {
      assert ps[0] in ps && ps == [ps[0]] + ps[1..];
      ReadsWhatWasWritten(r, ps[0], Stream(ps[1..]));
      StreamRoundTrip(ps[1..], Next(r).1);
    }
  }

  // ---------------------------------------------------------------- the code

  method WritePacket(p: Packet) returns (buf: seq<byte>)
    requires Valid(p)
    ensures buf == Bytes(p)
  {
    var length := Wrap16(1 + 2 + Wrap16(|p.ip|) + 2 + Wrap16(|p.content|));
    buf := [Low(length), High(length)];
    buf := buf + [p.flags];
    buf := buf + [High(p.conid), Low(p.conid)];
    buf := buf + p.ip;
    buf := buf + [High(p.port), Low(p.port)];
    buf := buf + p.content;
  }

  class PacketReader {
    var reader: Reader

    constructor (reader: Reader)
      ensures this.reader == reader
    {
      this.reader := reader;
    }

    /** binary.Read */
    method ReadNumber(size: nat) returns (n: nat)
      requires Fits(reader)
      modifies this
      ensures var f := ReadFull(old(reader), size); n == Number(f.0, size) && reader == f.1
    {
      var f := ReadFull(reader, size);
      n, reader := Number(f.0, size), f.1;
    }

    /** Read into a fresh slice. */
    method ReadSlice(size: nat) returns (b: seq<byte>)
      requires Fits(reader)
      modifies this
      ensures var f := ReadInto(old(reader), size); b == Padded(f.0, size) && reader == f.1
    {
      var f := ReadInto(reader, size);
      b, reader := Padded(f.0, size), f.1;
    }

    /** read; bodylen counts down in uint16 arithmetic. */
    method ReadPacket() returns (r: Read)
      requires Fits(reader)
      modifies this
      ensures (r, reader) == Next(old(reader))
    {
      hide Peek, ReadFull, ReadInto;
      reader := Peek(reader, 2);
      if |reader.buf| < 2 {
        return Eof;
      }
      var length := FromU16(reader.buf[1], reader.buf[0]);
      reader := reader.(buf := reader.buf[2..]);
      reader := Peek(reader, length);
      if length > READER_BUFFER {
        return BufferFull;
      }
      if |reader.buf| < length {
        return Eof;
      }
      var bodylen := length;
      var flags := ReadNumber(1);
      var conid := ReadNumber(2);
      var ip, port, content := [], 0, [];
      bodylen := Sub16(bodylen, 3);
      if bodylen > 0 {
        ip := ReadSlice(AddressLength(flags));
        bodylen := Sub16(bodylen, |ip|);
        port := ReadNumber(2);
        bodylen := Sub16(bodylen, 2);
        content := ReadSlice(bodylen);
      }
      return Got(Packet(flags, conid, ip, port, content), Rest(reader));
    }
  }
}
