/** hostMapping and the table of them as mutable objects, proved against Hosts. */
module HostTable {
  import opened Basics
  import opened Hosts
  import opened Rotation

  class HostMapping {
    const host: string
    const hostRegex: Option<Regex>
    const mapping: seq<string>
    var cursor: nat

    constructor (host: string, hostRegex: Option<Regex>, mapping: seq<string>)
      ensures this.host == host && this.hostRegex == hostRegex && this.mapping == mapping && cursor == 0
    {
      this.host, this.hostRegex, this.mapping, cursor := host, hostRegex, mapping, 0;
    }

    method Get() returns (s: string)
      requires mapping != []
      modifies this
      ensures s == mapping[Turn(old(cursor), |mapping|)]
      ensures cursor == Turn(old(cursor), |mapping|) + 1
    {
      var c := cursor;
      if c >= |mapping| {
        c := 0;
      }
      s := mapping[c];
      cursor := c + 1;
    }
  }

  type Table = map<string, HostMapping>

  /** t is the table of these rules with wildcard hits written into it: a key the rules
      do not have points to the mapping of a pattern that matches the key. */
  ghost predicate Caches(t: Table, rules: Rules) {
    && (forall k <- rules ::
          k in t && t[k].host == k && t[k].hostRegex == rules[k].regex && t[k].mapping == rules[k].mapping)
    && (forall h <- t :: t[h].host in rules && t[h] == t[t[h].host])
    && (forall h <- t :: h !in rules ==> Matches(rules[t[h].host], h))
  }

  ghost function CursorsOf(t: Table, rules: Rules): Cursors
    requires Caches(t, rules)
    reads t.Values
  {
    map k | k in rules :: t[k].cursor
  }

  /** A written-back entry changes neither who may answer nor whether anyone does. */
  lemma CachedAnswer(t: Table, rules: Rules, host: string)
    requires Caches(t, rules) && host in t
    ensures t[host].host in rules && Answers(rules, host, t[host].host)
  {
  }

  /** Nothing is ever overwritten, no mapping is added, and what is added was matched. */
  ghost predicate Grew(t: Table, u: Table, rules: Rules) {
    && Caches(u, rules) && u.Values == t.Values
    && forall h <- t :: h in u && u[h] == t[h]
  }

  ghost predicate IsMappingOf(m: HostMapping, k: string, r: Rule)
    reads m
  {
    m.host == k && m.hostRegex == r.regex && m.mapping == r.mapping && m.cursor == 0
  }

  predicate Hit(m: HostMapping, host: string) {
    m.hostRegex.Some? && m.hostRegex.value(host)
  }

  lemma WriteBack(t: Table, rules: Rules, host: string, m: HostMapping)
    requires Caches(t, rules) && host !in t && m in t.Values && Hit(m, host)
    ensures Caches(t[host := m], rules) && t[host := m].Values == t.Values
    ensures forall k <- rules :: t[host := m][k] == t[k]
  {
    assert t[host := m].Values == t.Values + {m} by {
      var u := t[host := m];
      assert host in u && u[host] == m;
      forall x <- t.Values ensures x in u.Values {
        var k :| k in t && t[k] == x;
        assert k in u && u[k] == x;
      }
    }
  }

  /** strings.Replace(k, "*", ".*", -1) */
  function Widened(k: string): string {
    if k == [] then [] else (if k[0] == '*' then ".*" else [k[0]]) + Widened(k[1..])
  }

  /** The rules in a hosts file; compile gives None where regexp.Compile fails. */
  function RulesOf(hs: map<string, seq<string>>, compile: string -> Option<Regex>): Rules {
    map k | k in hs && hs[k] != [] :: Rule(if '*' in k then compile(Widened(k)) else None, hs[k])
  }

  lemma MappingOf(t: Table, rules: Rules, m: HostMapping)
    requires Caches(t, rules) && m in t.Values
    ensures m.host in rules && m.mapping == rules[m.host].mapping && m.hostRegex == rules[m.host].regex
  {
    var k :| k in t && t[k] == m;
  }

  lemma AliasRanksLower(rules: Rules, rank: string -> nat, host: string, k: string, a: string)
    requires WellFormed(rules, rank) && k in rules && Answers(rules, host, k) && a in rules[k].mapping && !Dotted(a)
    ensures rank(a) < rank(host)
  {
  }

  class HostTable {
    var hostMappingTable: Table

    constructor ()
      ensures hostMappingTable == map[]
    {
      hostMappingTable := map[];
    }

    /** Init, once the file has been read: a mapping of its own for every name with entries. */
    method Init(hs: map<string, seq<string>>, compile: string -> Option<Regex>)
      modifies this
      ensures Caches(hostMappingTable, RulesOf(hs, compile)) && fresh(hostMappingTable.Values)
      ensures hostMappingTable.Keys == RulesOf(hs, compile).Keys
      ensures forall k <- hostMappingTable :: hostMappingTable[k].cursor == 0
    {
      ghost var rules := RulesOf(hs, compile);
      hostMappingTable := map[];
      var rest := hs.Keys;
      while rest != {}
        invariant rest <= hs.Keys
        invariant hostMappingTable.Keys == rules.Keys - rest
        invariant forall k <- hostMappingTable :: fresh(hostMappingTable[k])
        invariant forall k <- hostMappingTable :: IsMappingOf(hostMappingTable[k], k, rules[k])
        decreases rest
      {
        var k :| k in rest;
        rest := rest - {k};
        if |hs[k]| > 0 {
          var regex := None;
          if '*' in k {
            regex := compile(Widened(k));
          }
          var m := new HostMapping(k, regex, hs[k]);
          hostMappingTable := hostMappingTable[k := m];
        }
      }
    }

    /** getHost.  The rules are those the table was built from. */
    method GetHost(host: string, ghost rules: Rules, ghost rank: string -> nat) returns (s: string, ok: bool)
      requires WellFormed(rules, rank) && Caches(hostMappingTable, rules)
      modifies this, hostMappingTable.Values
      ensures Grew(old(hostMappingTable), hostMappingTable, rules)
      ensures Resolves(rules, rank, old(CursorsOf(hostMappingTable, rules)), host, s, ok,
                       CursorsOf(hostMappingTable, rules))
      decreases rank(host), 1
    {
      if host in hostMappingTable {
        CachedAnswer(hostMappingTable, rules, host);
        s, ok := Ask(hostMappingTable[host], host, rules, rank);
        return;
      }
      var m := FindPattern(host, rules);
      if m == null {
        return host, false;
      }
      s, ok := Ask(m, host, rules, rank);
    }

    /** What getHost does with the mapping it has found; an answer with a dot that came
        through a pattern is written back. */
    method Ask(m: HostMapping, host: string, ghost rules: Rules, ghost rank: string -> nat)
      returns (s: string, ok: bool)
      requires WellFormed(rules, rank) && Caches(hostMappingTable, rules)
      requires m in hostMappingTable.Values && m.host in rules && Answers(rules, host, m.host)
      requires host in hostMappingTable || Hit(m, host)
      modifies this, hostMappingTable.Values
      ensures Grew(old(hostMappingTable), hostMappingTable, rules)
      ensures ResolvesBy(rules, rank, old(CursorsOf(hostMappingTable, rules)), host, m.host, s, ok,
                         CursorsOf(hostMappingTable, rules))
      decreases rank(host), 0
    {
      hide Acyclic, Hit;
      assert m.mapping == rules[m.host].mapping by { MappingOf(hostMappingTable, rules, m); }
      ghost var c := CursorsOf(hostMappingTable, rules);
      s := Rotate(m, rules);
      ok := true;
      ghost var c1 := Advance(rules, c, m.host);
      assert CursorsOf(hostMappingTable, rules) == c1;
      if !Dotted(s) {
        ghost var a := s;
        assert rank(a) < rank(host) by { AliasRanksLower(rules, rank, host, m.host, a); }
        s, ok := GetHost(s, rules, rank);
        assert Resolves(rules, rank, c1, a, s, ok, CursorsOf(hostMappingTable, rules));
      } else if host !in hostMappingTable {
        Remember(host, m, rules);
      }
    }

    method Remember(host: string, m: HostMapping, ghost rules: Rules)
      requires Caches(hostMappingTable, rules) && m in hostMappingTable.Values
      requires host !in hostMappingTable && Hit(m, host)
      modifies this
      ensures hostMappingTable == old(hostMappingTable)[host := m]
      ensures Grew(old(hostMappingTable), hostMappingTable, rules)
      ensures CursorsOf(hostMappingTable, rules) == old(CursorsOf(hostMappingTable, rules))
    {
      WriteBack(hostMappingTable, rules, host, m);
      hostMappingTable := hostMappingTable[host := m];
    }

    method Rotate(m: HostMapping, ghost rules: Rules) returns (s: string)
      requires Caches(hostMappingTable, rules) && m in hostMappingTable.Values && m.mapping != []
      modifies m
      ensures m.host in rules && s == rules[m.host].mapping[Turn(old(m.cursor), |m.mapping|)]
      ensures CursorsOf(hostMappingTable, rules)
              == Advance(rules, old(CursorsOf(hostMappingTable, rules)), m.host)
    {
      s := m.Get();
    }

    /** The range loop: the first mapping met whose pattern matches. */
    method FindPattern(host: string, ghost rules: Rules) returns (found: HostMapping?)
      requires Caches(hostMappingTable, rules) && host !in hostMappingTable
      ensures found != null ==>
                found in hostMappingTable.Values && Hit(found, host) && Answers(rules, host, found.host)
      ensures found == null ==> forall k <- rules :: !Answers(rules, host, k)
    {
      var rest := hostMappingTable.Keys;
      while rest != {}
        invariant rest <= hostMappingTable.Keys
        invariant forall k <- hostMappingTable.Keys - rest :: !Hit(hostMappingTable[k], host)
        decreases rest
      {
        var k :| k in rest;
        if Hit(hostMappingTable[k], host) {
          return hostMappingTable[k];
        }
        rest := rest - {k};
      }
      forall k <- rules ensures !Answers(rules, host, k) {
        assert !Hit(hostMappingTable[k], host);
      }
      return null;
    }

    /** Any sequence of lookups, whatever is cached by then, is a run of the rules alone. */
    method Lookups(hosts: seq<string>, ghost rules: Rules, ghost rank: string -> nat)
      returns (answers: seq<(string, bool)>)
      requires WellFormed(rules, rank) && Caches(hostMappingTable, rules)
      modifies this, hostMappingTable.Values
      ensures Grew(old(hostMappingTable), hostMappingTable, rules) && |answers| == |hosts|
      ensures Replays(rules, rank, old(CursorsOf(hostMappingTable, rules)), hosts, answers,
                      CursorsOf(hostMappingTable, rules))
    {
      hide Acyclic, Resolves, Replays;
      answers := [];
      assert Replays(rules, rank, CursorsOf(hostMappingTable, rules), [], [], CursorsOf(hostMappingTable, rules)) by {
        NothingReplays(rules, rank, CursorsOf(hostMappingTable, rules));
      }
      ghost var c := CursorsOf(hostMappingTable, rules);
      for i := 0 to |hosts|
        invariant Grew(old(hostMappingTable), hostMappingTable, rules) && |answers| == i
        invariant Replays(rules, rank, c, hosts[..i], answers, CursorsOf(hostMappingTable, rules))
      {
        ghost var c1 := CursorsOf(hostMappingTable, rules);
        var s, ok := GetHost(hosts[i], rules, rank);
        ReplaysOn(rules, rank, c, hosts[..i], answers, c1, hosts[i], s, ok, CursorsOf(hostMappingTable, rules));
        assert hosts[..i + 1] == hosts[..i] + [hosts[i]];
        answers := answers + [(s, ok)];
      }
      assert hosts[..|hosts|] == hosts;
    }
  }
}
