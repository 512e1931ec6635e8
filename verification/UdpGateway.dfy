/** The UDP session table and its index as mutable objects.  The index holds the very
    sessions of the table, and their keys change in place. */
module UdpGateway {
  import opened Basics
  import opened UdpExpiry

  class UdpSession {
    const id: nat
    var activeTime: Option<nat>  // None is Go's zero time

    constructor (id: nat)
      ensures this.id == id && activeTime == None
    {
      this.id, activeTime := id, None;
    }

    function ToKey(): Key
      reads this
    {
      Key(if activeTime.Some? then activeTime.value else 0, id)
    }
  }

  class UdpGateway {
    var udpSessionTable: map<nat, UdpSession>
    var udpSessionIdSet: seq<UdpSession>  // the btree, as the sequence it keeps in order
    ghost var times: map<nat, nat>        // what the table's sessions hold
    ghost var keys: seq<Key>              // what the index's entries read now

    /** The index is in order and its entries read what keys says. */
    ghost predicate IndexReads()
      reads this, udpSessionIdSet
    {
      && |udpSessionIdSet| == |keys| && Sorted(keys)
      && forall i :: 0 <= i < |keys| ==> udpSessionIdSet[i].ToKey() == keys[i]
    }

    ghost predicate TableReads()
      reads this, udpSessionTable.Values
    {
      && udpSessionTable.Keys == times.Keys
      && (forall id <- times ::
            var s := udpSessionTable[id]; s.id == id && s.activeTime == Some(times[id]))
    }

    ghost predicate Valid()
      reads this, udpSessionTable.Values, udpSessionIdSet
    {
      && TableReads() && IndexReads() && IsIndex(keys, times)
      && (forall s <- udpSessionIdSet :: s.id in udpSessionTable && udpSessionTable[s.id] == s)
    }

    constructor ()
      ensures Valid() && times == map[]
    {
      udpSessionTable, udpSessionIdSet, times, keys := map[], [], map[], [];
    }

    /** The descent of the btree: the first entry that is not less than s. */
    method Find(s: UdpSession) returns (i: nat)
      requires IndexReads()
      ensures i <= |keys| == |udpSessionIdSet|
      ensures forall j :: 0 <= j < |keys| ==> (j < i <==> Less(keys[j], s.ToKey()))
    {
      i := 0;
      while i < |udpSessionIdSet| && Less(udpSessionIdSet[i].ToKey(), s.ToKey())
        invariant i <= |udpSessionIdSet| && forall j :: 0 <= j < i ==> Less(keys[j], s.ToKey())
      {
        i := i + 1;
      }
    }

    /** Delete: takes out the entry that is neither less nor greater than s. */
    method BtreeDelete(s: UdpSession)
      requires IndexReads()
      modifies this`udpSessionIdSet, this`keys
      ensures IndexReads() && forall k :: k in keys <==> k in old(keys) && k != s.ToKey()
      ensures forall x <- udpSessionIdSet :: x in old(udpSessionIdSet) && x.ToKey() != s.ToKey()
    {
      var i := Find(s);
      ghost var was := keys;
      if i < |udpSessionIdSet| && udpSessionIdSet[i].ToKey() == s.ToKey() {
        Without(was, i);
        udpSessionIdSet := udpSessionIdSet[..i] + udpSessionIdSet[i + 1..];
        keys := keys[..i] + keys[i + 1..];
      }
    }

    method BtreeInsert(s: UdpSession)
      requires IndexReads() && s.ToKey() !in keys
      modifies this`udpSessionIdSet, this`keys
      ensures IndexReads() && forall k :: k in keys <==> k in old(keys) || k == s.ToKey()
      ensures forall x <- udpSessionIdSet :: x in old(udpSessionIdSet) || x == s
    {
      var i := Find(s);
      With(keys, i, s.ToKey());
      udpSessionIdSet := udpSessionIdSet[..i] + [s] + udpSessionIdSet[i..];
      keys := keys[..i] + [s.ToKey()] + keys[i..];
    }

    /** s is the table's session under its id, and the others are as times says. */
    ghost predicate Picked(s: UdpSession)
      reads this, udpSessionTable.Values, udpSessionIdSet
    {
      && s.id in udpSessionTable && udpSessionTable[s.id] == s
      && udpSessionTable.Keys == times.Keys + {s.id}
      && (forall id <- udpSessionTable :: id != s.id ==>
            var x := udpSessionTable[id]; x != s && x.id == id && x.activeTime == Some(times[id]))
      && (forall x <- udpSessionIdSet :: x.id in udpSessionTable && udpSessionTable[x.id] == x)
    }

    /** getUDPSession; it answers null only for a missing session that is not to be made. */
    method GetUDPSession(id: nat, createIfMissing: bool) returns (s: UdpSession?)
      requires Valid()
      modifies this`udpSessionTable
      ensures s == null <==> id !in old(udpSessionTable) && !createIfMissing
      ensures s == null ==> udpSessionTable == old(udpSessionTable) && Valid()
      ensures s != null ==> IndexReads() && s.id == id && Picked(s)
      ensures s != null ==> forall k <- keys :: k.id == id ==> s.activeTime.Some? && k == s.ToKey()
      ensures s != null && s.activeTime.None? ==> s !in udpSessionIdSet
      ensures s != null ==> udpSessionTable == old(udpSessionTable)[id := s]
      ensures s != null && id !in old(udpSessionTable) ==> fresh(s) && s.activeTime == None
    {
      if id !in udpSessionTable {
        if createIfMissing {
          s := new UdpSession(id);
          udpSessionTable := udpSessionTable[id := s];
          return;
        }
        return null;
      }
      s := udpSessionTable[id];
      assert udpSessionTable[id := s] == udpSessionTable;
    }

    /** updateUdpSession(u, false): out under the old key, in under the new one. */
    method UpdateUdpSession(s: UdpSession, now: nat)
      requires IndexReads() && (s.activeTime.None? ==> s !in udpSessionIdSet)
      requires forall k <- keys :: k.id == s.id ==> s.activeTime.Some? && k == s.ToKey()
      modifies this`udpSessionIdSet, this`keys, s
      ensures IndexReads() && s.activeTime == Some(now)
      ensures forall k :: k in keys <==> (k in old(keys) && k.id != s.id) || k == Key(now, s.id)
      ensures forall x <- udpSessionIdSet :: x in old(udpSessionIdSet) || x == s
    {
      if s.activeTime.Some? {
        BtreeDelete(s);
      }
      assert s !in udpSessionIdSet;
      s.activeTime := Some(now);
      BtreeInsert(s);
    }

    /** The touch, for a session that has just been looked up. */
    method Touch(s: UdpSession, now: nat)
      requires IndexReads() && Picked(s) && IsIndex(keys, times)
      requires forall k <- keys :: k.id == s.id ==> s.activeTime.Some? && k == s.ToKey()
      requires s.activeTime.None? ==> s !in udpSessionIdSet
      modifies this`udpSessionIdSet, this`keys, this`times, s
      ensures Valid() && times == old(times)[s.id := now]
    {
      hide IsIndex, Sorted, Less;
      ghost var was, before := keys, times;
      UpdateUdpSession(s, now);
      times := times[s.id := now];
      assert TableReads();
      assert IsIndex(keys, times) by { TouchKeepsIndex(was, before, s.id, now, keys); }
    }

    /** Lookup and touch in one step: what handleUDPGatewayConn does with a packet. */
    method Packet(conid: nat, now: nat) returns (s: UdpSession)
      requires Valid()
      modifies this, udpSessionTable.Values
      ensures Valid() && times == old(times)[conid := now]
      ensures conid in udpSessionTable && udpSessionTable[conid] == s
    {
      s := GetUDPSession(conid, true);
      Touch(s, now);
    }

    method RemoveUdpSession(id: nat)
      modifies this`udpSessionTable, this`times
      ensures udpSessionTable == old(udpSessionTable) - {id} && times == old(times) - {id}
    {
      if id in udpSessionTable {
        udpSessionTable := udpSessionTable - {id};
      }
      times := times - {id};
    }

    /** close: off the table and out of the index, for a session that is in the table. */
    method Close(s: UdpSession)
      requires Valid() && s.id in udpSessionTable && udpSessionTable[s.id] == s
      modifies this
      ensures Valid() && times == old(times) - {s.id}
    {
      ghost var was, before := keys, times;
      RemoveUdpSession(s.id);
      BtreeDelete(s);
      CloseKeepsIndex(was, before, s.id, keys);
    }

    /** The first entry of the index goes, and its session with it. */
    method RemoveOldest()
      requires Valid() && udpSessionIdSet != []
      modifies this
      ensures Valid() && keys == old(keys)[1..] && times == old(times) - {old(keys)[0].id}
    {
      var id := udpSessionIdSet[0];
      OldestKeepsIndex(keys, times);
      udpSessionIdSet, keys := udpSessionIdSet[1..], keys[1..];
      RemoveUdpSession(id.id);
    }

    /** One turn of the tick's loop; before it the first n entries of was have gone. */
    method RemoveIfIdle(now: nat, ghost was: seq<Key>, ghost before: map<nat, nat>, ghost n: nat)
      returns (removed: bool)
      requires Valid() && udpSessionIdSet != [] && n < |was|
      requires keys == was[n..] && times == before - Ids(was[..n])
      modifies this
      ensures Valid() && removed == Idle(was[n], now)
      ensures removed ==> keys == was[n + 1..] && times == before - Ids(was[..n + 1])
      ensures !removed ==> keys == was[n..] && times == before - Ids(was[..n])
    {
      var expireTime := now - udpSessionIdSet[0].ToKey().time;
      removed := expireTime >= IDLE_SECONDS;
      if removed {
        RemoveOldest();
        OneMoreGone(was, before, n);
      }
    }

    /** removeExpiredSession: one tick of the timer, the clock standing at now. */
    method Tick(now: nat)
      requires Valid()
      modifies this
      ensures Valid() && keys == old(keys)[Due(old(keys), now)..]
      ensures times == old(times) - Ids(old(keys)[..Due(old(keys), now)])
    {
      ghost var was, before := keys, times;
      ghost var due, n := Due(was, now), 0;
      for i := 0 to PER_TICK
        invariant 0 <= n <= due <= |was| && (n == i || n == due == |was|)
        invariant Valid() && keys == was[n..] && times == before - Ids(was[..n])
      {
        if |udpSessionIdSet| > 0 {
          NextIsDue(was, n, now);
          var removed := RemoveIfIdle(now, was, before, n);
          if !removed {
            return;
          }
          n := n + 1;
        }
      }
    }
  }

  lemma Without(keys: seq<Key>, i: nat)
    requires Sorted(keys) && i < |keys|
    ensures var t := keys[..i] + keys[i + 1..];
      Sorted(t) && forall k :: k in t <==> k in keys && k != keys[i]
  {
    var t := keys[..i] + keys[i + 1..];
    assert forall j :: 0 <= j < |t| ==> t[j] == if j < i then keys[j] else keys[j + 1];
    forall k | k in keys && k != keys[i] ensures k in t {
      var j :| 0 <= j < |keys| && keys[j] == k;
      assert k == t[if j < i then j else j - 1];
    }
  }

  lemma With(keys: seq<Key>, i: nat, k: Key)
    requires Sorted(keys) && i <= |keys| && k !in keys
    requires forall j :: 0 <= j < |keys| ==> (j < i <==> Less(keys[j], k))
    ensures var t := keys[..i] + [k] + keys[i..];
      Sorted(t) && forall x :: x in t <==> x in keys || x == k
  {
    var t := keys[..i] + [k] + keys[i..];
    assert Sorted(t) by {
      forall j, l | 0 <= j < l < |t| ensures Less(t[j], t[l]) {
        assert t[j] == if j < i then keys[j] else if j == i then k else keys[j - 1];
        assert t[l] == if l < i then keys[l] else if l == i then k else keys[l - 1];
      }
    }
    MembersWith(keys, i, k);
  }

  lemma MembersWith(keys: seq<Key>, i: nat, k: Key)
    requires i <= |keys|
    ensures forall x :: x in keys[..i] + [k] + keys[i..] <==> x in keys || x == k
  {
    assert keys == keys[..i] + keys[i..];
  }

  lemma NextIsDue(keys: seq<Key>, n: nat, now: nat)
    requires Sorted(keys) && n < |keys|
    ensures n < PER_TICK ==> (Idle(keys[n], now) <==> n < Due(keys, now))
  {
    IdleComeFirst(keys, now);
  }

  lemma OneMoreGone(keys: seq<Key>, times: map<nat, nat>, n: nat)
    requires n < |keys|
    ensures keys[n..][1..] == keys[n + 1..]
    ensures times - Ids(keys[..n]) - {keys[n..][0].id} == times - Ids(keys[..n + 1])
  {
    assert keys[..n + 1] == keys[..n] + [keys[n]];
    assert Ids(keys[..n + 1]) == Ids(keys[..n]) + {keys[n].id};
  }

  lemma OldestKeepsIndex(s: seq<Key>, times: map<nat, nat>)
    requires IsIndex(s, times) && s != []
    ensures IsIndex(s[1..], times - {s[0].id})
    ensures forall k <- s[1..] :: k.id != s[0].id
  {
    SortedTail(s);
    assert s[0] in s;
    assert forall k <- s[1..] :: k in s;
  }
}
