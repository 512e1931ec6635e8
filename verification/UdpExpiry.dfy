/** The expiry index of UDP sessions as values: a sorted sequence of keys that must
    agree with the table of sessions. */
module UdpExpiry {
  import opened Basics

  /** udpSessionId: times are seconds of the clock. */
  datatype Key = Key(time: nat, id: nat)

  const IDLE_SECONDS := 30
  const PER_TICK := 5

  predicate Less(a: Key, b: Key) {
    if a.time != b.time then a.time < b.time else a.id < b.id
  }

  ghost predicate Sorted(s: seq<Key>) {
    forall i, j :: 0 <= i < j < |s| ==> Less(s[i], s[j])
  }

  /** s holds exactly one entry per session, under its current time, in order. */
  ghost predicate IsIndex(s: seq<Key>, times: map<nat, nat>) {
    && Sorted(s)
    && (forall k <- s :: k.id in times && times[k.id] == k.time)
    && (forall id <- times :: Key(times[id], id) in s)
  }

  lemma SortedTail(s: seq<Key>)
    requires Sorted(s) && s != []
    ensures Sorted(s[1..]) && s == [s[0]] + s[1..] && forall x <- s[1..] :: Less(s[0], x)
  {
  }

  /** A session is touched: whatever it had in the index is out and its new key in. */
  lemma TouchKeepsIndex(s: seq<Key>, times: map<nat, nat>, id: nat, now: nat, t: seq<Key>)
    requires IsIndex(s, times)
    requires Sorted(t) && forall k :: k in t <==> (k in s && k.id != id) || k == Key(now, id)
    ensures IsIndex(t, times[id := now])
  {
  }

  lemma CloseKeepsIndex(s: seq<Key>, times: map<nat, nat>, id: nat, t: seq<Key>)
    requires IsIndex(s, times)
    requires Sorted(t) && forall k :: k in t <==> k in s && k.id != id
    ensures IsIndex(t, times - {id})
  {
  }

  /** There is only one index for a table. */
  lemma {:induction false} IndexIsDetermined(s: seq<Key>, t: seq<Key>, times: map<nat, nat>)
    requires IsIndex(s, times) && IsIndex(t, times)
    ensures s == t
  {
    forall k ensures k in s <==> k in t {}
    SortedIsDetermined(s, t);
  }

  lemma {:induction false} SortedIsDetermined(s: seq<Key>, t: seq<Key>)
    requires Sorted(s) && Sorted(t) && forall k :: k in s <==> k in t
    ensures s == t
  {
    var x, y := if s == [] then Key(0, 0) else s[0], if t == [] then Key(0, 0) else t[0];
    assert (s != [] ==> x in s) && (t != [] ==> y in t);
    if s != [] && t != [] {
      SortedTail(s);
      SortedTail(t);
      assert x in t && y in s;
      forall k ensures k in s[1..] <==> k in t[1..] {
        assert k in s <==> k in t;
      }
      SortedIsDetermined(s[1..], t[1..]);
    }
  }

  predicate Idle(k: Key, now: nat) {
    now - k.time >= IDLE_SECONDS
  }

  /** How many sessions have been idle for 30 seconds. */
  function IdleCount(s: seq<Key>, now: nat): (n: nat)
    ensures n <= |s|
  {
    if s == [] then 0 else (if Idle(s[0], now) then 1 else 0) + IdleCount(s[1..], now)
  }

  /** In a sorted index they come first. */
  lemma {:induction false} IdleComeFirst(s: seq<Key>, now: nat)
    requires Sorted(s)
    ensures forall i :: 0 <= i < |s| ==> (Idle(s[i], now) <==> i < IdleCount(s, now))
  {
    if s != [] {
      IdleComeFirst(s[1..], now);
      assert forall i :: 0 < i < |s| ==> s[i] == s[1..][i - 1];
    }
  }

  /** How many sessions one tick removes. */
  function Due(s: seq<Key>, now: nat): nat {
    Min(PER_TICK, IdleCount(s, now))
  }

  function Ids(s: seq<Key>): set<nat> {
    set k | k in s :: k.id
  }

  lemma FrontIsOlder(s: seq<Key>, n: nat)
    requires Sorted(s) && n <= |s|
    ensures forall k <- s[..n] :: forall l <- s[n..] :: Less(k, l)
  {
    forall k, l | k in s[..n] && l in s[n..] ensures Less(k, l) {
      var i :| 0 <= i < n && s[i] == k;
      var j :| n <= j < |s| && s[j] == l;
    }
  }

  lemma BackKeepsIndex(s: seq<Key>, times: map<nat, nat>, n: nat)
    requires IsIndex(s, times) && n <= |s|
    ensures IsIndex(s[n..], times - Ids(s[..n]))
  {
    FrontIsOlder(s, n);
    assert s == s[..n] + s[n..];
    forall l | l in s[n..] ensures l.id !in Ids(s[..n]) {
      assert forall k <- s[..n] :: k.id == l.id ==> k == l;
    }
  }

  /** A tick takes the Due oldest sessions off the front: idle all of them, none older
      left behind, none that is not idle among them, and fewer than five only if no idle
      session is left. */
  lemma TickTakesTheOldest(s: seq<Key>, times: map<nat, nat>, now: nat)
    requires IsIndex(s, times)
    ensures var n := Due(s, now);
      && IsIndex(s[n..], times - Ids(s[..n]))
      && (forall k <- s[..n] :: Idle(k, now) && forall l <- s[n..] :: Less(k, l))
      && (n < PER_TICK ==> forall l <- s[n..] :: !Idle(l, now))
  {
    var n := Due(s, now);
    assert IsIndex(s[n..], times - Ids(s[..n])) by { BackKeepsIndex(s, times, n); }
    FrontIsOlder(s, n);
    IdleInFront(s, now, n);
  }

  lemma IdleInFront(s: seq<Key>, now: nat, n: nat)
    requires Sorted(s) && n == Due(s, now)
    ensures (forall k <- s[..n] :: Idle(k, now)) && (n < PER_TICK ==> forall l <- s[n..] :: !Idle(l, now))
  {
    IdleComeFirst(s, now);
  }
}
