/** The host alias table: answers rotate, aliases are followed, and a wildcard hit is
    written back into the table, which thereby serves as its own cache.  Regular
    expressions are functions from strings to booleans. */
module Hosts {
  import opened Basics
  import opened Rotation

  type Regex = string -> bool

  /** A line of the hosts file: what a name or pattern stands for. */
  datatype Rule = Rule(regex: Option<Regex>, mapping: seq<string>)

  type Rules = map<string, Rule>
  type Cursors = map<string, nat>

  predicate Dotted(s: string) {
    '.' in s
  }

  predicate Matches(r: Rule, host: string) {
    r.regex.Some? && r.regex.value(host)
  }

  /** Rule k may answer for host: as its exact name, or by its pattern if no rule has
      that name. */
  predicate Answers(rules: Rules, host: string, k: string) {
    if host in rules then k == host else k in rules && Matches(rules[k], host)
  }

  /** The alias graph has no cycle: rank falls along every alias step. */
  ghost predicate Acyclic(rules: Rules, rank: string -> nat) {
    forall host, k, a | k in rules && Answers(rules, host, k) && a in rules[k].mapping && !Dotted(a) ::
      rank(a) < rank(host)
  }

  ghost predicate WellFormed(rules: Rules, rank: string -> nat) {
    (forall k <- rules :: rules[k].mapping != []) && Acyclic(rules, rank)
  }

  function Advance(rules: Rules, c: Cursors, k: string): Cursors
    requires k in rules && k in c && rules[k].mapping != []
  {
    c[k := Turn(c[k], |rules[k].mapping|) + 1]
  }

  // ---------------------------------------------------------------- the uncached table

  /** With rules that never change, host can resolve to (s, ok) and move the cursors
      from c to c2.  Which of several matching patterns answers is left open. */
  ghost predicate Resolves(rules: Rules, rank: string -> nat, c: Cursors, host: string, s: string, ok: bool,
                           c2: Cursors)
    requires WellFormed(rules, rank) && c.Keys == rules.Keys
    decreases rank(host)
  {
    if exists k <- rules :: Answers(rules, host, k) then
      exists k <- rules :: Answers(rules, host, k) && ResolvesBy(rules, rank, c, host, k, s, ok, c2)
    else
      s == host && !ok && c2 == c
  }

  ghost predicate ResolvesBy(rules: Rules, rank: string -> nat, c: Cursors, host: string, k: string, s: string,
                             ok: bool, c2: Cursors)
    requires WellFormed(rules, rank) && c.Keys == rules.Keys && k in rules && Answers(rules, host, k)
    decreases rank(host), 0
  {
    var a := rules[k].mapping[Turn(c[k], |rules[k].mapping|)];
    if Dotted(a) then s == a && ok && c2 == Advance(rules, c, k)
    else Resolves(rules, rank, Advance(rules, c, k), a, s, ok, c2)
  }

  /** A true flag means an answer with a dot; a false flag means that nothing in the
      table, exact or wildcard, stands for the answer. */
  lemma {:induction false} ResolutionIsComplete(rules: Rules, rank: string -> nat, c: Cursors, host: string,
                                                s: string, ok: bool, c2: Cursors)
    requires WellFormed(rules, rank) && c.Keys == rules.Keys
    requires Resolves(rules, rank, c, host, s, ok, c2)
    ensures ok ==> Dotted(s)
    ensures !ok ==> forall k <- rules :: !Answers(rules, s, k)
    ensures c2.Keys == c.Keys
    decreases rank(host)
  {
    if exists k <- rules :: Answers(rules, host, k) {
      var k :| k in rules && Answers(rules, host, k) && ResolvesBy(rules, rank, c, host, k, s, ok, c2);
      var a := rules[k].mapping[Turn(c[k], |rules[k].mapping|)];
      if !Dotted(a) {
        ResolutionIsComplete(rules, rank, Advance(rules, c, k), a, s, ok, c2);
      }
    }
  }

  /** A run of lookups against rules that never change. */
  ghost predicate Replays(rules: Rules, rank: string -> nat, c: Cursors, hosts: seq<string>,
                          answers: seq<(string, bool)>, c2: Cursors)
    requires WellFormed(rules, rank) && c.Keys == rules.Keys
    decreases |hosts|
  {
    if hosts == [] then answers == [] && c2 == c
    else
      answers != [] &&
      var n, m := |hosts| - 1, |answers| - 1;
      exists c1: Cursors :: c1.Keys == rules.Keys
        && Replays(rules, rank, c, hosts[..n], answers[..m], c1)
        && Resolves(rules, rank, c1, hosts[n], answers[m].0, answers[m].1, c2)
  }

  lemma NothingReplays(rules: Rules, rank: string -> nat, c: Cursors)
    requires WellFormed(rules, rank) && c.Keys == rules.Keys
    ensures Replays(rules, rank, c, [], [], c)
  {
  }

  /** A run of lookups and one more. */
  lemma ReplaysOn(rules: Rules, rank: string -> nat, c: Cursors, hosts: seq<string>, answers: seq<(string, bool)>,
                  c1: Cursors, host: string, s: string, ok: bool, c2: Cursors)
    requires WellFormed(rules, rank) && c.Keys == rules.Keys && c1.Keys == rules.Keys
    requires Replays(rules, rank, c, hosts, answers, c1) && Resolves(rules, rank, c1, host, s, ok, c2)
    ensures Replays(rules, rank, c, hosts + [host], answers + [(s, ok)], c2)
  {
    hide Resolves, Acyclic;
    assert (hosts + [host])[..|hosts|] == hosts && (answers + [(s, ok)])[..|answers|] == answers;
  }
}
