/** chunkedBody and httpDuplexConn as the mutable objects they are.  Each method is
    the code between two points where another goroutine can act, and is proved to be
    one step, or one fixed sequence of steps, of HttpUpload. */
module HttpClientConn {
  import opened Basics
  import opened HttpUpload
  import opened HttpUploadProgress

  class ChunkedBody {
    var readBuffer: seq<byte>
    var counter: nat
    var reading: Option<nat>  // whether a Read waits on chunkChannel, and for how much
    ghost var eof: bool

    constructor (buffer: seq<byte>)
      ensures readBuffer == buffer && counter == 0 && reading == None && !eof
    {
      readBuffer, counter, reading, eof := buffer, 0, None, false;
    }

    /** The part of Read after the channel: b is what came over chunkChannel, if Read
        had to wait for it, and None is the nil that ends the body. */
    method Read(size: nat, b: Option<seq<byte>>) returns (p: seq<byte>, end: bool)
      modifies this
      ensures end <==> old(readBuffer) == [] && b.None?
      ensures end ==> p == [] && readBuffer == old(readBuffer) && counter == old(counter)
      ensures !end ==>
        var all := if old(readBuffer) == [] then b.value else old(readBuffer);
        p + readBuffer == all && |p| == Min(size, |all|) && counter == old(counter) + |p|
      ensures reading == None && eof == (old(eof) || end)
    {
      reading := None;
      if |readBuffer| == 0 {
        if b.None? {
          eof := true;
          return [], true;
        }
        readBuffer := readBuffer + b.value;
      }
      var n := Min(size, |readBuffer|);
      p, readBuffer := readBuffer[..n], readBuffer[n..];
      counter := counter + n;
      end := false;
    }

    /** nil goes over the channel if a Read waits, nowhere if none does. */
    method Close()
      modifies this
      ensures old(reading).None? ==> reading == None && readBuffer == old(readBuffer) && eof == old(eof)
      ensures old(reading).Some? && old(readBuffer) == [] ==> reading == None && readBuffer == [] && eof
    {
      if reading.Some? {
        var _, _ := Read(reading.value, None);
      }
    }
  }

  class HttpDuplexConn {
    var running: bool
    var sendCh: seq<Frame>
    var chunkPushBody: ChunkedBody
    var frs: seq<Frame>
    var err: PushErr
    var ready: map<nat, PushErr>
    ghost var pc: PushPc
    ghost var open: bool
    ghost var net: Net
    ghost var log: Log

    ghost function View(): Sys
      reads this, chunkPushBody
    {
      Sys(running, sendCh, Pusher(pc, frs, err),
          Body(chunkPushBody.readBuffer, chunkPushBody.reading, chunkPushBody.eof, open), net, ready, log)
    }

    constructor ()
      ensures View() == INITIAL && fresh(chunkPushBody)
    {
      running, sendCh, frs, err, ready := true, [], [], Nil, map[];
      chunkPushBody := new ChunkedBody([]);
      pc, open, net, log := Top, false, INITIAL.net, INITIAL.log;
    }

    /** The first select of Write, when sendCh has room; id names the call. */
    method Write(id: nat, p: seq<byte>)
      requires |sendCh| < SENDCH_CAPACITY && id == |log.writes|
      modifies this
      ensures View() == OnWrite(old(View()), p) && chunkPushBody == old(chunkPushBody)
    {
      ghost var was := View();
      sendCh := sendCh + [Frame(id, p)];
      log := OnWrite(was, p).log;
    }

    /** The loop test of push, and notifyDone behind the loop. */
    method LoopTest() returns (again: bool)
      requires pc == Top
      modifies this
      ensures View() == OnPushTop(old(View())) && chunkPushBody == old(chunkPushBody)
      ensures again == running
    {
      ghost var was := View();
      again := running;
      if running {
        pc := if frs == [] then Drain else Offer;
      } else {
        log := OnPushTop(was).log;
        NotifyDone();
        pc := Stopped;
      }
    }

    /** readFrames as far as it goes without waiting. */
    method ReadFrames()
      requires pc == Drain
      modifies this
      ensures View() == OnPushDrained(TakeAll(old(View()))) && chunkPushBody == old(chunkPushBody)
    {
      ghost var was := View();
      while |sendCh| > 0
        invariant pc == Drain && chunkPushBody == old(chunkPushBody)
        invariant TakeAll(View()) == TakeAll(was)
        decreases |sendCh|
      {
        frs, sendCh, err := frs + [sendCh[0]], sendCh[1..], Nil;
      }
      pc, err := if frs == [] then Wait else Offer, Nil;
    }

    /** Fill sendBuffer and offer it under writeLock.  A Read that is waiting takes the
        bytes and returns; without one the offer times out; no byte, no offer. */
    method OfferFrames() returns (accepted: bool)
      requires pc == Offer
      requires chunkPushBody.reading.Some? ==> net.wire != [] && chunkPushBody.readBuffer == []
      modifies this, chunkPushBody
      ensures accepted == (Data(old(frs)) != [] && old(chunkPushBody.reading).Some?)
      ensures View() == if accepted then OnOfferAccepted(old(View())) else OnOfferTimeout(old(View()))
      ensures chunkPushBody == old(chunkPushBody)
    {
      ghost var was := View();
      var sendBuffer := Gathered();
      accepted := false;
      if |sendBuffer| > 0 {
        accepted := chunkPushBody.reading.Some?;
        if accepted {
          pc, err := Notify, Nil;
          var _, _ := chunkPushBody.Read(chunkPushBody.reading.value, Some(sendBuffer));
          net, log := OnOfferAccepted(was).net, OnOfferAccepted(was).log;
        } else {
          err := ErrTimeout;
        }
      }
      if !accepted { pc := Top; }
    }

    method Gathered() returns (sendBuffer: seq<byte>)
      ensures sendBuffer == Data(frs)
    {
      sendBuffer := [];
      for i := 0 to |frs|
        invariant sendBuffer == DataTo(frs, i)
      {
        sendBuffer := sendBuffer + frs[i].data;
      }
    }

    /** notifyDone: every frame in hand hears err, unless its channel is full. */
    method NotifyDone()
      modifies this`ready, this`frs
      ensures ready == Acked(old(ready), old(frs), err) && frs == []
    {
      for i := 0 to |frs|
        invariant frs == old(frs)
        invariant ready == AckedTo(old(ready), frs, i, err)
      {
        if frs[i].id !in ready { ready := ready[frs[i].id := err]; }
      }
      frs := [];
    }

    /** A new channel, the old read buffer, once client.Do has returned. */
    method NewChunkPushBody()
      requires open && chunkPushBody.reading.None? && net.wire != []
      modifies this
      ensures View() == OnRequestEnds(old(View())) && fresh(chunkPushBody)
    {
      ghost var was := View();
      chunkPushBody := new ChunkedBody(chunkPushBody.readBuffer);
      open, log := false, OnRequestEnds(was).log;
    }

    method Close()
      requires chunkPushBody.reading.Some? ==> chunkPushBody.readBuffer == []
      modifies this, chunkPushBody
      ensures View() == OnClose(old(View())) && chunkPushBody == old(chunkPushBody)
    {
      if running {
        running := false;
        chunkPushBody.Close();
      }
    }
  }
}
