/** httpDuplexServConn as the mutable object it is.  Each method is one critical
    section; those that send are proved to be a step of HttpServerPull, those that
    receive to move bytes as HttpUpload's server does. */
module HttpServerConn {
  import opened Basics
  import opened HttpServerPull

  class HttpDuplexServConn {
    var recvBuffer: seq<byte>
    var writer: Option<nat>        // the pull handler whose ResponseWriter is set
    var writerStopCh: Option<nat>  // the pull handler that made the channel
    var running: bool
    ghost var handlers: seq<Handler>
    var removed: bool              // from httpDuplexServConnTable
    ghost var closes: (nat, nat, nat, nat)
    ghost var log: seq<byte>

    ghost function View(): Server
      reads this
    {
      Server(running, removed, writer, writerStopCh, handlers, closes.0, closes.1, closes.2, closes.3, log)
    }

    constructor ()
      ensures View() == HttpServerPull.INITIAL && recvBuffer == []
    {
      recvBuffer, writer, writerStopCh, running, removed := [], None, None, true, false;
      handlers, closes, log := [], (0, 0, 0, 0), [];
    }

    method SetWriter(h: nat)
      requires In(View(), h, Arrived)
      modifies this
      ensures View() == OnSetWriter(old(View()), h) && recvBuffer == old(recvBuffer)
    {
      ghost var was := View();
      if writerStopCh.Some? {
        NotifyStopCh();
      }
      writer := Some(h);
      writerStopCh := Some(h);
      handlers := OnSetWriter(was, h).handlers;
    }

    /** AsyncNotify on writerStopCh. */
    ghost method NotifyStopCh()
      modifies this`handlers
      ensures View() == NotifyStop(old(View()))
    {
      handlers := NotifyStop(View()).handlers;
    }

    /** Write once it has found a writer; n is how much of p that writer takes. */
    method Write(p: seq<byte>, fails: bool, n: nat) returns (written: nat)
      requires writer.Some? && writer.value < |handlers| && n <= |p| && (!fails ==> n == |p|)
      modifies this
      ensures View() == if fails then OnWriteFails(old(View()), p, n) else OnWrite(old(View()), p)
      ensures written == n && log == old(log) + p[..written] && recvBuffer == old(recvBuffer)
    {
      ghost var was := View();
      written := n;
      if fails {
        writer := None;
      }
      ghost var after := if fails then OnWriteFails(was, p, n) else OnWrite(was, p);
      assert !fails ==> p[..n] == p;
      handlers, log := after.handlers, after.log;
    }

    method CloseWrite()
      modifies this
      ensures View() == (if old(running) then Detach(old(View())) else old(View())) && recvBuffer == old(recvBuffer)
    {
      if running {
        writer := None;
        if writerStopCh.Some? {
          NotifyStopCh();
        }
      }
    }

    /** Close, when no other goroutine comes in between its steps; listener is the
        handler in its select that takes the close notification, if there is one. */
    method Close(ghost listener: nat)
      requires In(Detach(View()), listener, Waiting)
            || forall k :: 0 <= k < |handlers| ==> Detach(View()).handlers[k].phase != Waiting
      modifies this
      ensures View() == OnCloseRemoves(
                if old(running) then
                  OnCloseStores(OnCloseNotifies(OnCloseDetaches(OnCloseTests(OnCloseBegins(old(View())))), listener))
                else old(View()))
    {
      if running {
        ghost var was := View();
        CloseWrite();
        handlers := OnCloseNotifies(OnCloseDetaches(OnCloseTests(OnCloseBegins(was))), listener).handlers;
        running := false;
      }
      removed := true;
    }

    /** One turn of Read: what is there, up to the size asked for. */
    method Read(size: nat) returns (b: seq<byte>)
      modifies this`recvBuffer
      ensures b + recvBuffer == old(recvBuffer) && |b| == Min(size, |old(recvBuffer)|)
    {
      var n := Min(size, |recvBuffer|);
      b, recvBuffer := recvBuffer[..n], recvBuffer[n..];
    }

    /** setReader over a body that arrives in these pieces. */
    method SetReader(pieces: seq<seq<byte>>)
      modifies this`recvBuffer
      ensures recvBuffer == old(recvBuffer) + Flat(pieces)
    {
      for i := 0 to |pieces|
        invariant recvBuffer == old(recvBuffer) + FlatTo(pieces, i)
      {
        recvBuffer := recvBuffer + pieces[i];
      }
    }
  }
}
