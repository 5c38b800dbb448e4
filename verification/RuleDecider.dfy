/**
 * The decider of the DNS path: a snapshot of the rules, replaced as a whole by
 * a reload that went through, over the blocklist of the manager.
 */
module RuleDecider {
  import opened Options
  import opened Text
  import opened Domains
  import opened BlocklistMatcher
  import opened BlocklistManager
  import opened FilterTables
  import opened FilterDecisions

  /** The snapshot says of this state of the tables what a query would find there. */
  ghost predicate Mirrors(lib: Library, s: Snapshot, db: Database) {
    && s.rules == DecisionRules(db.rules, db.ruleGroups)
    && (forall key :: SnapshotGroups(s, key) == ClientGroups(db, key))
    && Ready(lib, s)
  }

  predicate AllCompile(lib: Library, rules: seq<ScopedRule>) {
    forall i :: 0 <= i < |rules| && NeedsRegex(rules[i]) ==> lib.compiles(rules[i].rule.pattern)
  }

  function EnabledClients(clients: seq<ClientRow>): nat {
    if clients == [] then 0
    else EnabledClients(clients[..|clients| - 1]) + if clients[|clients| - 1].enabled then 1 else 0
  }

  class RuleDecider {
    const lib: Library
    const fallback: Manager
    var current: Option<Snapshot>

    ghost predicate Valid()
      reads this, fallback, fallback.current
    {
      && fallback.Valid() && fallback.lib == lib
      && (current.Some? ==> Ready(lib, current.value))
    }

    constructor (lib: Library, fallback: Manager)
      requires fallback.Valid() && fallback.lib == lib
      ensures Valid() && current.None? && this.lib == lib && this.fallback == fallback
    {
      this.lib := lib;
      this.fallback := fallback;
      current := None;
    }

    /** What the clients of the snapshot map hold once the first clients have been read. */
    static ghost predicate ClientsRead(clients: map<string, set<int>>, db: Database, upto: nat)
      requires upto <= |db.clients|
    {
      && (forall key :: key in clients ==> clients[key] == ClientGroups(db, key))
      && (forall i :: 0 <= i < upto && db.clients[i].enabled ==> db.clients[i].address in clients)
    }

    static method ReadClients(db: Database, failAt: Option<nat>) returns (ok: bool, clients: map<string, set<int>>)
      ensures ok <==> failAt.None? || failAt.value >= EnabledClients(db.clients)
      ensures ok ==> ClientsRead(clients, db, |db.clients|)
    {
      clients := map[];
      var step := 0;
      for i := 0 to |db.clients|
        invariant step == EnabledClients(db.clients[..i]) <= EnabledClients(db.clients)
        invariant failAt.Some? ==> step <= failAt.value
        invariant ClientsRead(clients, db, i)
      {
        EnabledGrows(db.clients, i + 1);
        assert db.clients[..i + 1][..i] == db.clients[..i];
        var client := db.clients[i];
        if !client.enabled { continue; }
        if failAt == Some(step) { return false, clients; }
        step := step + 1;
        clients := clients[client.address := ClientGroups(db, client.address)];
      }
      assert db.clients[..|db.clients|] == db.clients;
      ok := true;
    }

    static method CompileRules(lib: Library, rules: seq<ScopedRule>) returns (ok: bool, regexps: map<string, string -> bool>)
      ensures ok <==> AllCompile(lib, rules)
      ensures ok ==> forall clients :: Ready(lib, Snapshot(rules, clients, regexps))
    {
      regexps := map[];
      for i := 0 to |rules|
        invariant forall p :: p in regexps ==> forall name :: regexps[p](name) == lib.finds(p, name)
        invariant forall j :: 0 <= j < i && NeedsRegex(rules[j]) ==>
                    lib.compiles(rules[j].rule.pattern) && rules[j].rule.pattern in regexps
      {
        var rule := rules[i].rule;
        if rule.enabled && rule.kind.Regex? {
          if !lib.compiles(rule.pattern) { return false, regexps; }
          regexps := regexps[rule.pattern := name => lib.finds(rule.pattern, name)];
        }
      }
      ok := true;
    }

    /**
     * The reads, numbered from 0, may fail: the rules, the clients, then the groups of
     * each enabled client. A reload that fails anywhere leaves the old snapshot.
     */
    method Reload(db: Database, failAt: Option<nat>) returns (ok: bool)
      requires Valid()
      modifies this
      ensures Valid()
      ensures ok <==> && (failAt.None? || failAt.value >= 2 + EnabledClients(db.clients))
                      && AllCompile(lib, DecisionRules(db.rules, db.ruleGroups))
      ensures if ok then current.Some? && Mirrors(lib, current.value, db) else current == old(current)
    {
      if failAt.Some? && failAt.value < 2 { return false; }
      var rules := DecisionRules(db.rules, db.ruleGroups);
      hide Ready;
      var read, clients := ReadClients(db, if failAt.Some? then Some(failAt.value - 2) else None);
      if !read { return false; }
      var compiled, regexps := CompileRules(lib, rules);
      if !compiled { return false; }
      GroupsRead(clients, db, rules, regexps);
      current := Some(Snapshot(rules, clients, regexps));
      ok := true;
    }

    /** The compiled patterns of the snapshot are at hand whenever a rule needs one. */
    static method MatchRules(lib: Library, s: Snapshot, groups: set<int>, name: string, allow: bool, kind: Kind)
        returns (found: Option<RuleRow>)
      requires Ready(lib, s)
      ensures found == FirstRule(lib, s.rules, groups, name, allow, kind)
    {
      for i := 0 to |s.rules|
        invariant FirstRule(lib, s.rules, groups, name, allow, kind) == FirstRule(lib, s.rules[i..], groups, name, allow, kind)
      {
        var rule := s.rules[i];
        if !rule.rule.enabled || rule.rule.allow != allow || rule.rule.kind != kind || !InScope(rule.group, groups) {
          continue;
        }
        var matched;
        if kind.Regex? {
          assert NeedsRegex(rule);
          matched := s.regexps[rule.rule.pattern](name);
        } else {
          matched := PatternMatches(lib, name, rule.rule.pattern, kind);
        }
        if matched {
          return Some(rule.rule);
        }
      }
      found := None;
    }

    method Decide(raw: string, key: string) returns (ruling: Ruling)
      requires Valid()
      ensures var verdict := Scan(lib, WithBundled(EntriesOf(LastGood(fallback.loads)), fallback.bundled, fallback.seed), raw);
              ruling == if current.None? then FallbackRuling(verdict)
                        else SnapshotRuling(lib, current.value, verdict, raw, key)
    {
      hide Scan, Ready, FirstRule;
      if current.None? {
        var verdict := fallback.Decide(raw);
        return FallbackRuling(verdict);
      }
      var s := current.value;
      var name := FilterName(lib, raw);
      var groups := SnapshotGroups(s, key);
      var rule := MatchRules(lib, s, groups, name, true, Exact);
      if rule.Some? { return RulingOf(rule.value); }
      rule := MatchRules(lib, s, groups, name, true, Regex);
      if rule.Some? { return RulingOf(rule.value); }
      rule := MatchRules(lib, s, groups, name, true, Suffix);
      if rule.Some? { return RulingOf(rule.value); }
      rule := MatchRules(lib, s, groups, name, false, Exact);
      if rule.Some? { return RulingOf(rule.value); }
      var verdict := fallback.Decide(raw);
      if verdict.DenyMatch? || verdict.AllowMatch? { return FallbackRuling(verdict); }
      rule := MatchRules(lib, s, groups, name, false, Regex);
      if rule.Some? { return RulingOf(rule.value); }
      rule := MatchRules(lib, s, groups, name, false, Suffix);
      if rule.Some? { return RulingOf(rule.value); }
      ruling := FallbackRuling(verdict);
    }
  }

  lemma {:induction false} EnabledGrows(clients: seq<ClientRow>, upto: nat)
    requires upto <= |clients|
    ensures EnabledClients(clients[..upto]) <= EnabledClients(clients)
  {
    if upto == |clients| {
      assert clients[..upto] == clients;
    } else {
      assert clients[..|clients| - 1][..upto] == clients[..upto];
      EnabledGrows(clients[..|clients| - 1], upto);
    }
  }

  lemma GroupsRead(clients: map<string, set<int>>, db: Database, rules: seq<ScopedRule>, regexps: map<string, string -> bool>)
    requires RuleDecider.ClientsRead(clients, db, |db.clients|)
    ensures forall key :: SnapshotGroups(Snapshot(rules, clients, regexps), key) == ClientGroups(db, key)
  {
    forall key ensures SnapshotGroups(Snapshot(rules, clients, regexps), key) == ClientGroups(db, key) {
      if key !in clients {
        NobodyHasNoGroups(db, key);
      }
    }
  }
}
