/** What every run of the chunked upload guarantees, when the order of the
    stream survives, and that nothing taken from a writer is ever stuck
    except behind a batch without bytes. */
module HttpUploadTheorems {
  import opened Basics
  import opened HttpUpload

  // ------------------------------------------------- safety in every reachable state

  /** Rotation, offers and reads in any interleaving lose, repeat and reorder nothing:
      what the transport was handed, then the read buffer, is what offer accepted;
      the accepted batches are the frames in sendCh order; and every other frame is
      still held, in order, or was in hand when `push` returned. */
  lemma ChunkedUploadConserves(s: Sys)
    requires Leads(INITIAL, s)
    ensures s.log.handed + s.body.readBuffer == Data(Flat(s.log.batches))
    ensures s.log.queued == Flat(s.log.batches) + s.log.abandoned + Unsent(s.push) + s.sendCh
  {
    ReachableInv(s);
  }

  function Firsts(writes: seq<seq<byte>>, n: nat): seq<Frame>
    requires n <= |writes|
  {
    seq(n, i requires 0 <= i < n => Frame(i, writes[i]))
  }

  lemma {:induction false} DataOfFirsts(writes: seq<seq<byte>>, k: nat)
    requires k <= |writes|
    ensures DataTo(Firsts(writes, |writes|), k) == FlatTo(writes, k)
  {
    if k > 0 { DataOfFirsts(writes, k - 1); }
  }

  lemma GotIsPrefix(s: Sys)
    requires Inv(s) && !s.log.cutShort
    ensures s.net.got <= Data(s.log.queued)
  {
    var head := Flat(s.log.batches);
    DataAppend(head, s.log.abandoned);
    DataAppend(head + s.log.abandoned, Unsent(s.push));
    DataAppend(head + s.log.abandoned + Unsent(s.push), s.sendCh);
    assert s.log.handed == s.net.got + s.net.recvBuffer + LastWire(s.net);
  }

  /** End to end: as long as no request ended with bytes still under way, what the
      server has read is a prefix of the frames in sendCh order; without the
      five-second retry these are the Writes, each once, in the order they were made. */
  lemma UploadIsPrefix(s: Sys)
    requires Leads(INITIAL, s) && !s.log.cutShort
    ensures s.net.got <= Data(s.log.queued)
    ensures !s.log.retried ==>
              && s.log.queued == Firsts(s.log.writes, |s.log.writes|)
              && s.net.got <= Flat(s.log.writes)
  {
    ReachableInv(s);
    GotIsPrefix(s);
    if !s.log.retried {
      assert s.log.queued == Firsts(s.log.writes, |s.log.writes|);
      DataOfFirsts(s.log.writes, |s.log.writes|);
    }
  }

  lemma FoundOnce(all: seq<Frame>, sent: seq<Frame>, f: Frame)
    requires sent <= all && f in sent
    requires forall i :: 0 <= i < |all| ==> all[i].id == i
    ensures multiset(sent)[f] == 1
  {
    var i := f.id;
    assert sent[i] == f;
    assert sent == sent[..i] + [f] + sent[i + 1..];
  }

  /** A Write that saw success has its bytes in the accepted batches exactly once. */
  lemma AcknowledgedOnce(s: Sys, id: nat)
    requires Leads(INITIAL, s) && !s.log.retried
    requires id in s.acks && s.acks[id] == Nil
    ensures id < |s.log.writes|
    ensures s.log.writes[id] != [] ==> multiset(Flat(s.log.batches))[Frame(id, s.log.writes[id])] == 1
  {
    ReachableInv(s);
    assert Delivered(s.log, id);
    if s.log.writes[id] != [] {
      FoundOnce(s.log.queued, Flat(s.log.batches), Frame(id, s.log.writes[id]));
    }
  }

  // ------------------------------------------------- bytes are never invented

  lemma FlatUpdate(parts: seq<seq<byte>>, i: nat, part: seq<byte>) returns (others: multiset<byte>)
    requires i < |parts|
    ensures multiset(Flat(parts)) == others + multiset(parts[i])
    ensures multiset(Flat(parts[i := part])) == others + multiset(part)
  {
    others := multiset(Flat(parts[..i])) + multiset(Flat(parts[i + 1..]));
    var after := parts[i := part];
    assert after[..i] == parts[..i] && after[i + 1..] == parts[i + 1..];
    FlatAt(parts, i);
    FlatAt(after, i);
  }

  ghost predicate NetInv(s: Sys) {
    multiset(s.net.got) + multiset(s.net.recvBuffer) + multiset(Flat(s.net.wire)) + multiset(s.log.dropped)
    == multiset(s.log.handed)
  }

  lemma SplitAt(bytes: seq<byte>, k: nat)
    requires k <= |bytes|
    ensures multiset(bytes[..k]) + multiset(bytes[k..]) == multiset(bytes)
  {
    assert bytes == bytes[..k] + bytes[k..];
  }

  lemma HandKeepsNet(s: Sys, buffer: seq<byte>, n: nat)
    requires NetInv(s) && s.net.wire != []
    ensures NetInv(Hand(s, buffer, n))
  {
    var w := s.net.wire;
    var others := FlatUpdate(w, |w| - 1, w[|w| - 1] + buffer[..Min(n, |buffer|)]);
  }

  lemma RecvKeepsNet(s: Sys, i: nat, n: nat)
    requires NetInv(s)
    ensures NetInv(OnServerRecv(s, i, n))
  {
    var w := s.net.wire;
    if i < |w| {
      var k := Min(n, |w[i]|);
      SplitAt(w[i], k);
      var others := FlatUpdate(w, i, w[i][k..]);
    }
  }

  lemma ReadKeepsNet(s: Sys, n: nat)
    requires NetInv(s)
    ensures NetInv(OnServerRead(s, n))
  {
    SplitAt(s.net.recvBuffer, Min(n, |s.net.recvBuffer|));
  }

  lemma LoseKeepsNet(s: Sys, i: nat)
    requires NetInv(s)
    ensures NetInv(OnLose(s, i))
  {
    if i < |s.net.wire| { var others := FlatUpdate(s.net.wire, i, []); }
  }

  lemma NetStep(s: Sys, a: Action)
    requires NetInv(s)
    ensures NetInv(Step(s, a))
  {
    match a
    case StartRequest => FlatSnoc(s.net.wire, []);
    case ServerRead(n) => ReadKeepsNet(s, n);
    case ServerRecv(i, n) => RecvKeepsNet(s, i, n);
    case Lose(i) => LoseKeepsNet(s, i);
    case TransportRead(n) =>
      if s.net.wire != [] { HandKeepsNet(s, s.body.readBuffer, n); }
    case OfferAccepted =>
      if s.net.wire != [] && s.body.reading.Some? {
        HandKeepsNet(Accepted(s), s.body.readBuffer + Data(s.push.frs), s.body.reading.value);
      }
    case _ =>
  }

  lemma {:induction false} RunKeepsNet(s: Sys, actions: seq<Action>)
    requires NetInv(s)
    ensures NetInv(Run(s, actions))
  {
    if actions != [] {
      var before := actions[..|actions| - 1];
      RunKeepsNet(s, before);
      NetStep(Run(s, before), actions[|actions| - 1]);
    }
  }

  /** Even when requests fail midway, each byte the transport was handed is in one
      place: read by the server, in its buffer, on a wire, or lost with a request. */
  lemma EveryByteIsSomewhere(s: Sys)
    requires Leads(INITIAL, s)
    ensures multiset(s.net.got) + multiset(s.net.recvBuffer) + multiset(Flat(s.net.wire)) + multiset(s.log.dropped)
            == multiset(s.log.handed)
  {
    var actions :| Run(INITIAL, actions) == s;
    RunKeepsNet(INITIAL, actions);
  }
}
