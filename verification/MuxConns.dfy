/** muxSessionHolder and LocalProxyChannel as mutable objects, proved against MuxHolder
    and MuxChannel. */
module MuxConns {
  import opened Basics
  import opened Rotation
  import H = MuxHolder
  import C = MuxChannel

  class MuxSessionHolder {
    var muxSession: Option<nat>
    var retiredSessions: set<nat>
    var expireTime: Option<int>
    var created: nat              // how many sessions this holder has authenticated
    ghost var closes: multiset<nat>

    ghost function View(): H.Holder
      reads this
    {
      H.Holder(muxSession, retiredSessions, expireTime, created, closes)
    }

    constructor ()
      ensures View() == H.NEW
    {
      muxSession, retiredSessions, expireTime, created, closes := None, {}, None, 0, multiset{};
    }

    method TryCloseRetiredSessions(streams: nat -> int)
      modifies this`retiredSessions, this`closes
      ensures View() == H.CloseDrained(old(View()), streams)
    {
      var rest := retiredSessions;
      ghost var gone := {};
      while rest != {}
        invariant rest <= old(retiredSessions) && gone <= old(retiredSessions) - rest
        invariant forall id <- old(retiredSessions) - rest :: id in gone <==> streams(id) <= 0
        invariant retiredSessions == old(retiredSessions) - gone
        invariant closes == old(closes) + multiset(gone)
        decreases rest
      {
        var id :| id in rest;
        if streams(id) <= 0 {
          closes := closes + multiset{id};
          gone := gone + {id};
          retiredSessions := retiredSessions - {id};
        }
        rest := rest - {id};
      }
      assert gone == H.Drained(old(View()), streams);
    }

    method Close()
      modifies this
      ensures View() == H.CloseCurrent(old(View()))
    {
      if muxSession.Some? {
        closes := closes + multiset{muxSession.value};
        muxSession := None;
      }
    }

    method Check(now: int)
      modifies this
      ensures View() == H.Check(old(View()), now)
    {
      if muxSession.Some? && expireTime.Some? && expireTime.value < now {
        retiredSessions := retiredSessions + {muxSession.value};
        muxSession := None;
      }
    }

    method Init(w: H.World)
      modifies this
      ensures View() == H.Init(old(View()), w)
    {
      if muxSession.Some? {
        return;
      }
      if w.dial.Succeeds? {
        muxSession := Some(created);
        created := created + 1;
        if w.dial.expireAfter.Some? {
          expireTime := Some(w.now + w.dial.expireAfter.value);
        }
      }
    }

    method GetNewStream(w: H.World) returns (r: H.Stream)
      modifies this
      ensures View() == H.AfterGetNewStream(old(View()), w) && r == H.Opened(old(View()), w)
    {
      Check(w.now);
      if muxSession.None? {
        Init(w);
      }
      if muxSession.None? {
        r := H.ErrShutdown;
      } else {
        r := match w.open
          case Opens => H.On(muxSession.value)
          case Shutdown => H.ErrShutdown
          case OtherError => H.ErrOther;
      }
      TryCloseRetiredSessions(w.streams);
    }
  }

  datatype ChannelStream = OverP2P(session: nat) | OverHolder(holder: nat, session: nat) | Failed

  class LocalProxyChannel {
    var sessions: seq<MuxSessionHolder>
    var cursor: nat
    ghost var holders: seq<H.Holder>  // what the sessions read now

    ghost predicate Valid()
      reads this, sessions
    {
      && |holders| == |sessions|
      && (forall i :: 0 <= i < |sessions| ==> sessions[i].View() == holders[i])
      && (forall i, j :: 0 <= i < j < |sessions| ==> sessions[i] != sessions[j])
    }

    constructor (sessions: seq<MuxSessionHolder>, ghost holders: seq<H.Holder>)
      requires |holders| == |sessions| && forall i :: 0 <= i < |sessions| ==> sessions[i].View() == holders[i]
      requires forall i, j :: 0 <= i < j < |sessions| ==> sessions[i] != sessions[j]
      ensures Valid() && this.sessions == sessions && this.holders == holders && cursor == 0
    {
      this.sessions, this.holders, cursor := sessions, holders, 0;
    }

    /** One holder asked, and closed if its session turns out to be shut down. */
    method Ask(c: nat, w: H.World) returns (r: H.Stream)
      requires Valid() && c < |sessions|
      modifies this`holders, sessions[c]
      ensures Valid() && holders == old(holders)[c := C.Asked(old(holders)[c], w)]
      ensures r == H.Opened(old(holders)[c], w)
    {
      var holder := sessions[c];
      r := holder.GetNewStream(w);
      if r.ErrShutdown? {
        holder.Close();
      }
      holders := holders[c := holder.View()];
    }

    /** The range over p2pSessions; p2p tells which of them open, in that order. */
    method TryP2P(p2p: seq<bool>) returns (r: Option<nat>)
      ensures r.Some? ==> r.value < |p2p| && p2p[r.value]
      ensures r.None? ==> forall i :: 0 <= i < |p2p| ==> !p2p[i]
    {
      for i := 0 to |p2p|
        invariant forall j :: 0 <= j < i ==> !p2p[j]
      {
        if p2p[i] {
          return Some(i);
        }
      }
      return None;
    }

    /** One turn of the loop over the holders; hs are the holders as the call found
        them, order those asked so far. */
    method AskNext(c0: nat, w: seq<H.World>, ghost hs: seq<H.Holder>, ghost order: seq<nat>)
      returns (c: nat, s: H.Stream)
      requires Valid() && |sessions| == |hs| == |w| && |order| < |hs|
      requires C.Underway(hs, cursor, w, order, c0, holders)
      modifies this`holders, this`cursor, sessions
      ensures Valid() && c < |hs| && s == H.Opened(hs[c], w[c])
      ensures s.On? ==> Done(hs, old(cursor), w, Some(c))
      ensures !s.On? ==> cursor == old(cursor) && C.Underway(hs, cursor, w, order + [c], c + 1, holders)
    {
      C.NextIsUnasked(hs, cursor, w, order, c0, holders);
      C.AskingMovesOn(hs, cursor, w, order, c0, holders);
      c := c0;
      if c >= |sessions| {
        c := 0;
      }
      s := Ask(c, w[c]);
      if s.On? {
        cursor := c + 1;
      }
    }

    /** The holders hs and the cursor c0 have become what a whole call makes of them, and
        the call got its stream from the holder chosen. */
    ghost predicate Done(hs: seq<H.Holder>, c0: nat, w: seq<H.World>, chosen: Option<nat>)
      requires |hs| == |w|
      reads this
    {
      var a := C.Call(hs, c0, w);
      chosen == a.chosen && holders == C.HoldersAfter(hs, w, a.order) && cursor == C.CursorOf(c0, a)
    }

    /** The loop over the holders. */
    method TryHolders(worlds: seq<H.World>) returns (r: Option<(nat, nat)>)
      requires Valid() && |worlds| == |sessions|
      modifies this`cursor, this`holders, sessions
      ensures Valid() && |worlds| == |old(holders)|
      ensures Done(old(holders), old(cursor), worlds, if r.Some? then Some(r.value.0) else None)
      ensures r.Some? ==> var i := r.value.0;
                i < |worlds| && H.Opened(old(holders)[i], worlds[i]) == H.On(r.value.1)
    {
      var c: nat := cursor;
      ghost var hs := holders;
      ghost var order: seq<nat> := [];
      C.UnderwayAtFirst(hs, c, worlds);
      for i := 0 to |sessions|
        invariant cursor == old(cursor) && Valid() && |order| == i
        invariant C.Underway(hs, cursor, worlds, order, c, holders)
      {
        var at, s := AskNext(c, worlds, hs, order);
        if s.On? {
          return Some((at, s.session));
        }
        order := order + [at];
        c := at + 1;
      }
      C.UnderwayAtLast(hs, cursor, worlds, order, c, holders);
      return None;
    }

    /** p2p tells which P2P sessions open, in the order of the range. */
    method GetMuxStream(p2p: seq<bool>, worlds: seq<H.World>) returns (r: ChannelStream)
      requires Valid() && |worlds| == |sessions|
      modifies this`cursor, this`holders, sessions
      ensures Valid() && |worlds| == |old(holders)|
      ensures (exists i :: 0 <= i < |p2p| && p2p[i]) ==>
                r.OverP2P? && r.session < |p2p| && p2p[r.session] && cursor == old(cursor) && holders == old(holders)
      ensures (forall i :: 0 <= i < |p2p| ==> !p2p[i]) ==>
                var hs, a := old(holders), C.Call(old(holders), old(cursor), worlds);
                && holders == C.HoldersAfter(hs, worlds, a.order) && cursor == C.CursorOf(old(cursor), a)
                && match a.chosen
                   case None => r == Failed
                   case Some(i) =>
                     i < |hs| && r.OverHolder? && r.holder == i && H.Opened(hs[i], worlds[i]) == H.On(r.session)
    {
      var s := TryP2P(p2p);
      if s.Some? {
        return OverP2P(s.value);
      }
      var t := TryHolders(worlds);
      return if t.Some? then OverHolder(t.value.0, t.value.1) else Failed;
    }
  }
}
