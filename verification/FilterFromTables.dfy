/**
 * The query-time decision told by the rows of the tables: what a row must be to
 * count for a client, and which of those that count decides. The joins in between
 * give every such row, in the order of the ids.
 */
module FilterFromTables {
  import opened Options
  import opened Text
  import opened Domains
  import opened FilterTables
  import opened FilterDecisions
  import opened FilterPrecedence

  /** The tables as they are read: in the order of their primary keys. */
  ghost predicate InIdOrder(db: Database) {
    && (forall i, j :: 0 <= i < j < |db.rules| ==> db.rules[i].id < db.rules[j].id)
    && (forall i, j :: 0 <= i < j < |db.lists| ==> db.lists[i].id < db.lists[j].id)
    && (forall i, j :: 0 <= i < j < |db.entries| ==> db.entries[i].id < db.entries[j].id)
  }

  // ------------------------------------------------------------------ what the joins hold

  /** The join pairs an owner with each of its groups, or with group 0 if it has none. */
  ghost predicate Joined(links: seq<Link>, owner: int, group: int) {
    Link(owner, group) in links || (group == 0 && forall g :: Link(owner, g) !in links)
  }

  lemma {:induction false} GroupsOfHas(links: seq<Link>, owner: int)
    ensures forall g :: g in GroupsOf(links, owner) <==> Link(owner, g) in links
  {
    if links != [] {
      GroupsOfHas(links[1..], owner);
      assert links == [links[0]] + links[1..];
    }
  }

  lemma JoinedGroupsHas(links: seq<Link>, owner: int)
    ensures forall g :: g in JoinedGroups(links, owner) <==> Joined(links, owner, g)
  {
    GroupsOfHas(links, owner);
    var groups := GroupsOf(links, owner);
    if groups == [] {
      assert forall g :: Link(owner, g) in links ==> g in groups;
    } else {
      assert groups[0] in groups && Link(owner, groups[0]) in links;
    }
  }

  lemma RuleInGroupsHas(rule: RuleRow, groups: seq<int>)
    ensures forall s :: s in RuleInGroups(rule, groups) <==> s.rule == rule && s.group in groups
  {
    forall s: ScopedRule | s.rule == rule && s.group in groups ensures s in RuleInGroups(rule, groups) {
      var i :| 0 <= i < |groups| && groups[i] == s.group;
      assert RuleInGroups(rule, groups)[i] == s;
    }
  }

  /** Every rule is in the join, once for each group it is joined with, and nothing else is. */
  lemma {:induction false} DecisionRulesHas(rules: seq<RuleRow>, links: seq<Link>, s: ScopedRule)
    ensures s in DecisionRules(rules, links) <==> s.rule in rules && Joined(links, s.rule.id, s.group)
  {
    if rules != [] {
      DecisionRulesHas(rules[1..], links, s);
      RuleInGroupsHas(rules[0], JoinedGroups(links, rules[0].id));
      JoinedGroupsHas(links, rules[0].id);
      assert rules == [rules[0]] + rules[1..];
    }
  }

  lemma {:induction false} DecisionRulesInOrder(rules: seq<RuleRow>, links: seq<Link>)
    requires forall i, j :: 0 <= i < j < |rules| ==> rules[i].id < rules[j].id
    ensures var join := DecisionRules(rules, links);
            forall i, j :: 0 <= i < j < |join| ==> join[i].rule.id <= join[j].rule.id
  {
    if rules != [] {
      DecisionRulesInOrder(rules[1..], links);
      var first := RuleInGroups(rules[0], JoinedGroups(links, rules[0].id));
      var rest := DecisionRules(rules[1..], links);
      forall j | 0 <= j < |rest| ensures rules[0].id <= rest[j].rule.id {
        DecisionRulesHas(rules[1..], links, rest[j]);
        var i :| 0 <= i < |rules[1..]| && rules[1..][i] == rest[j].rule;
        assert rules[1..][i] == rules[i + 1];
      }
    }
  }

  lemma EntryInGroupsHas(list: ListRow, entry: EntryRow, groups: seq<int>)
    ensures forall s :: s in EntryInGroups(list, entry, groups) <==>
              s.entry == entry && s.allow == list.allow && s.enabled == (entry.enabled && list.enabled) && s.group in groups
  {
    forall s: ScopedEntry | s.entry == entry && s.allow == list.allow && s.enabled == (entry.enabled && list.enabled) && s.group in groups
      ensures s in EntryInGroups(list, entry, groups)
    {
      var i :| 0 <= i < |groups| && groups[i] == s.group;
      assert EntryInGroups(list, entry, groups)[i] == s;
    }
  }

  ghost predicate OfList(list: ListRow, s: ScopedEntry) {
    s.entry.listId == list.id && s.allow == list.allow && s.enabled == (s.entry.enabled && list.enabled)
  }

  lemma {:induction false} EntriesOfListHasAll(list: ListRow, entries: seq<EntryRow>, groups: seq<int>, s: ScopedEntry)
    ensures s in EntriesOfList(list, entries, groups) <==> s.entry in entries && OfList(list, s) && s.group in groups
  {
    if entries != [] {
      EntriesOfListHasAll(list, entries[1..], groups, s);
      EntryInGroupsHas(list, entries[0], groups);
      assert entries == [entries[0]] + entries[1..];
    }
  }

  /** Every entry is in the join, with the kind, the switch and the groups of its list. */
  lemma {:induction false} DecisionEntriesHasAll(lists: seq<ListRow>, entries: seq<EntryRow>, links: seq<Link>, s: ScopedEntry)
    ensures s in DecisionEntries(lists, entries, links) <==>
            s.entry in entries && exists l :: l in lists && OfList(l, s) && Joined(links, l.id, s.group)
  {
    if lists != [] {
      DecisionEntriesHasAll(lists[1..], entries, links, s);
      EntriesOfListHasAll(lists[0], entries, JoinedGroups(links, lists[0].id), s);
      JoinedGroupsHas(links, lists[0].id);
      assert lists == [lists[0]] + lists[1..];
    }
  }

  /** By list, and by entry within a list. */
  ghost predicate NotAfter(a: ScopedEntry, b: ScopedEntry) {
    a.entry.listId < b.entry.listId || (a.entry.listId == b.entry.listId && a.entry.id <= b.entry.id)
  }

  lemma {:induction false} EntriesOfListInOrder(list: ListRow, entries: seq<EntryRow>, groups: seq<int>)
    requires forall i, j :: 0 <= i < j < |entries| ==> entries[i].id < entries[j].id
    ensures var join := EntriesOfList(list, entries, groups);
            forall i, j :: 0 <= i < j < |join| ==> NotAfter(join[i], join[j])
  {
    if entries != [] {
      EntriesOfListInOrder(list, entries[1..], groups);
      var rest := EntriesOfList(list, entries[1..], groups);
      forall j | 0 <= j < |rest| ensures rest[j].entry.listId == list.id && entries[0].id <= rest[j].entry.id {
        EntriesOfListHasAll(list, entries[1..], groups, rest[j]);
        var i :| 0 <= i < |entries[1..]| && entries[1..][i] == rest[j].entry;
        assert entries[1..][i] == entries[i + 1];
      }
    }
  }

  lemma {:induction false} DecisionEntriesInOrder(lists: seq<ListRow>, entries: seq<EntryRow>, links: seq<Link>)
    requires forall i, j :: 0 <= i < j < |lists| ==> lists[i].id < lists[j].id
    requires forall i, j :: 0 <= i < j < |entries| ==> entries[i].id < entries[j].id
    ensures var join := DecisionEntries(lists, entries, links);
            forall i, j :: 0 <= i < j < |join| ==> NotAfter(join[i], join[j])
  {
    if lists != [] {
      DecisionEntriesInOrder(lists[1..], entries, links);
      var groups := JoinedGroups(links, lists[0].id);
      EntriesOfListInOrder(lists[0], entries, groups);
      var first := EntriesOfList(lists[0], entries, groups);
      var rest := DecisionEntries(lists[1..], entries, links);
      forall i | 0 <= i < |first| ensures first[i].entry.listId == lists[0].id {
        EntriesOfListHasAll(lists[0], entries, groups, first[i]);
      }
      forall j | 0 <= j < |rest| ensures lists[0].id < rest[j].entry.listId {
        DecisionEntriesHasAll(lists[1..], entries, links, rest[j]);
        var l :| l in lists[1..] && OfList(l, rest[j]) && Joined(links, l.id, rest[j].group);
        var i :| 0 <= i < |lists[1..]| && lists[1..][i] == l;
        assert lists[1..][i] == lists[i + 1];
      }
    }
  }

  // ------------------------------------------------------------------ what counts for a client

  /** The group is switched on and an enabled client with the address is in it. */
  ghost predicate Member(db: Database, address: string, group: int) {
    exists c, g :: c in db.clients && c.enabled && c.address == address && Link(c.id, group) in db.clientGroups
                   && g in db.groups && g.id == group && g.enabled
  }

  lemma ClientGroupsHas(db: Database, address: string, group: int)
    ensures group in ClientGroups(db, address) <==> Member(db, address, group)
  {
    if group in ClientGroups(db, address) {
      var i, j, k :|
        && 0 <= i < |db.clientGroups| && 0 <= j < |db.clients| && 0 <= k < |db.groups|
        && db.clients[j].address == address && db.clients[j].enabled && db.clientGroups[i].owner == db.clients[j].id
        && db.groups[k].id == db.clientGroups[i].group && db.groups[k].enabled && db.clientGroups[i].group == group;
      assert db.clients[j] in db.clients && db.groups[k] in db.groups && Link(db.clients[j].id, group) == db.clientGroups[i];
    }
  }

  /** A rule or a list without groups is for everybody, any other for the clients in one of its groups. */
  ghost predicate MeantFor(db: Database, links: seq<Link>, owner: int, client: ClientText) {
    || (forall g :: Link(owner, g) !in links)
    || exists g :: Link(owner, g) in links && (g == 0 || (client.Address? && Member(db, client.key, g)))
  }

  ghost predicate RuleCounts(lib: Library, db: Database, client: ClientText, name: string, r: RuleRow) {
    && r in db.rules && r.enabled && MeantFor(db, db.ruleGroups, r.id, client)
    && Hits(lib, name, r.pattern, r.kind)
  }

  ghost predicate EntryCounts(lib: Library, db: Database, client: ClientText, name: string, l: ListRow, e: EntryRow) {
    && l in db.lists && e in db.entries && e.listId == l.id && l.enabled && e.enabled
    && MeantFor(db, db.listGroups, l.id, client) && Hits(lib, name, e.pattern, e.kind)
  }

  lemma ScopeIsMeant(db: Database, links: seq<Link>, owner: int, client: ClientText)
    ensures MeantFor(db, links, owner, client) <==>
            exists g :: Joined(links, owner, g) && (g == 0 || g in RequestGroups(db, client))
  {
    hide Member;
    forall g ensures g in RequestGroups(db, client) <==> client.Address? && Member(db, client.key, g) {
      if client.Address? { ClientGroupsHas(db, client.key, g); }
    }
    if forall g :: Link(owner, g) !in links {
      assert Joined(links, owner, 0);
    } else if MeantFor(db, links, owner, client) {
      var g :| Link(owner, g) in links && (g == 0 || (client.Address? && Member(db, client.key, g)));
      assert Joined(links, owner, g) && (g == 0 || g in RequestGroups(db, client));
    }
  }

  /** A rule counts exactly if a row of the join applies. */
  lemma RuleRows(lib: Library, db: Database, client: ClientText, name: string, r: RuleRow)
    ensures RuleCounts(lib, db, client, name, r) <==>
            exists s :: s in DecisionRules(db.rules, db.ruleGroups) && s.rule == r && RuleHits(lib, s, RequestGroups(db, client), name)
  {
    hide Hits, DecisionRules, RequestGroups, MeantFor;
    ScopeIsMeant(db, db.ruleGroups, r.id, client);
    forall s ensures s in DecisionRules(db.rules, db.ruleGroups) <==> s.rule in db.rules && Joined(db.ruleGroups, s.rule.id, s.group) {
      DecisionRulesHas(db.rules, db.ruleGroups, s);
    }
    if RuleCounts(lib, db, client, name, r) {
      var g :| Joined(db.ruleGroups, r.id, g) && (g == 0 || g in RequestGroups(db, client));
      assert RuleHits(lib, ScopedRule(r, g), RequestGroups(db, client), name);
      assert ScopedRule(r, g) in DecisionRules(db.rules, db.ruleGroups);
    }
  }

  lemma EntryRows(lib: Library, db: Database, client: ClientText, name: string, e: EntryRow, allow: bool)
    ensures (exists l :: EntryCounts(lib, db, client, name, l, e) && l.allow == allow) <==>
            exists s :: s in DecisionEntries(db.lists, db.entries, db.listGroups) && s.entry == e && s.allow == allow
                        && EntryHits(lib, s, RequestGroups(db, client), name)
  {
    hide Hits, DecisionEntries, RequestGroups, MeantFor;
    forall l: ListRow ensures MeantFor(db, db.listGroups, l.id, client) <==>
                      exists g :: Joined(db.listGroups, l.id, g) && (g == 0 || g in RequestGroups(db, client)) {
      ScopeIsMeant(db, db.listGroups, l.id, client);
    }
    if l :| EntryCounts(lib, db, client, name, l, e) && l.allow == allow {
      var g :| Joined(db.listGroups, l.id, g) && (g == 0 || g in RequestGroups(db, client));
      var s := ScopedEntry(e, l.allow, true, g);
      assert OfList(l, s);
      DecisionEntriesHasAll(db.lists, db.entries, db.listGroups, s);
      assert EntryHits(lib, s, RequestGroups(db, client), name);
    }
    if s :| s in DecisionEntries(db.lists, db.entries, db.listGroups) && s.entry == e && s.allow == allow
            && EntryHits(lib, s, RequestGroups(db, client), name) {
      DecisionEntriesHasAll(db.lists, db.entries, db.listGroups, s);
      var l :| l in db.lists && OfList(l, s) && Joined(db.listGroups, l.id, s.group);
      assert EntryCounts(lib, db, client, name, l, e);
    }
  }

  // ------------------------------------------------------------------ what decides

  /** Nothing counts at an earlier stage, and no rule with a smaller id at its own. */
  ghost predicate RuleDecides(lib: Library, db: Database, client: ClientText, name: string, r: RuleRow) {
    && RuleCounts(lib, db, client, name, r)
    && (forall q :: RuleCounts(lib, db, client, name, q) ==>
          || RuleStage(r.allow, r.kind) < RuleStage(q.allow, q.kind)
          || (RuleStage(r.allow, r.kind) == RuleStage(q.allow, q.kind) && r.id <= q.id))
    && (forall l, e :: EntryCounts(lib, db, client, name, l, e) ==> RuleStage(r.allow, r.kind) < EntryStage(l.allow))
  }

  ghost predicate EntryDecides(lib: Library, db: Database, client: ClientText, name: string, l: ListRow, e: EntryRow) {
    && EntryCounts(lib, db, client, name, l, e)
    && (forall q :: RuleCounts(lib, db, client, name, q) ==> EntryStage(l.allow) < RuleStage(q.allow, q.kind))
    && (forall m, f :: EntryCounts(lib, db, client, name, m, f) ==>
          || EntryStage(l.allow) < EntryStage(m.allow)
          || (EntryStage(l.allow) == EntryStage(m.allow) && (l.id < m.id || (l.id == m.id && e.id <= f.id))))
  }

  /** A stage is used in the join exactly if some row of the tables counts there. */
  lemma RuleStages(lib: Library, db: Database, client: ClientText, name: string, k: nat)
    ensures RuleAt(lib, DecisionRules(db.rules, db.ruleGroups), RequestGroups(db, client), name, k) <==>
            exists r :: RuleCounts(lib, db, client, name, r) && RuleStage(r.allow, r.kind) == k
  {
    var rules, groups := DecisionRules(db.rules, db.ruleGroups), RequestGroups(db, client);
    hide RuleHits, RuleCounts, DecisionRules, RequestGroups, RuleStage;
    if RuleAt(lib, rules, groups, name, k) {
      var i :| 0 <= i < |rules| && RuleHits(lib, rules[i], groups, name) && RuleStage(rules[i].rule.allow, rules[i].rule.kind) == k;
      assert rules[i] in rules;
      RuleRows(lib, db, client, name, rules[i].rule);
    }
    if r :| RuleCounts(lib, db, client, name, r) && RuleStage(r.allow, r.kind) == k {
      RuleRows(lib, db, client, name, r);
    }
  }

  lemma EntryStages(lib: Library, db: Database, client: ClientText, name: string, k: nat)
    ensures EntryAt(lib, DecisionEntries(db.lists, db.entries, db.listGroups), RequestGroups(db, client), name, k) <==>
            exists l, e :: EntryCounts(lib, db, client, name, l, e) && EntryStage(l.allow) == k
  {
    var entries, groups := DecisionEntries(db.lists, db.entries, db.listGroups), RequestGroups(db, client);
    hide EntryHits, EntryCounts, DecisionEntries, RequestGroups;
    if EntryAt(lib, entries, groups, name, k) {
      var i :| 0 <= i < |entries| && EntryHits(lib, entries[i], groups, name) && EntryStage(entries[i].allow) == k;
      assert entries[i] in entries;
      EntryRows(lib, db, client, name, entries[i].entry, entries[i].allow);
    }
    if l, e :| EntryCounts(lib, db, client, name, l, e) && EntryStage(l.allow) == k {
      EntryRows(lib, db, client, name, e, l.allow);
      var s :| s in entries && s.entry == e && s.allow == l.allow && EntryHits(lib, s, groups, name);
    }
  }

  ghost predicate RuleCountsAt(lib: Library, db: Database, client: ClientText, name: string, k: nat) {
    exists r :: RuleCounts(lib, db, client, name, r) && RuleStage(r.allow, r.kind) == k
  }

  ghost predicate EntryCountsAt(lib: Library, db: Database, client: ClientText, name: string, k: nat) {
    exists l, e :: EntryCounts(lib, db, client, name, l, e) && EntryStage(l.allow) == k
  }

  lemma AllStages(lib: Library, db: Database, client: ClientText, name: string)
    ensures var rules, groups := DecisionRules(db.rules, db.ruleGroups), RequestGroups(db, client);
            forall k: nat :: RuleAt(lib, rules, groups, name, k) <==> RuleCountsAt(lib, db, client, name, k)
    ensures var entries, groups := DecisionEntries(db.lists, db.entries, db.listGroups), RequestGroups(db, client);
            forall k: nat :: EntryAt(lib, entries, groups, name, k) <==> EntryCountsAt(lib, db, client, name, k)
  {
    var rules, groups := DecisionRules(db.rules, db.ruleGroups), RequestGroups(db, client);
    var entries := DecisionEntries(db.lists, db.entries, db.listGroups);
    forall k: nat ensures RuleAt(lib, rules, groups, name, k) <==> RuleCountsAt(lib, db, client, name, k) {
      RuleStages(lib, db, client, name, k);
    }
    forall k: nat ensures EntryAt(lib, entries, groups, name, k) <==> EntryCountsAt(lib, db, client, name, k) {
      EntryStages(lib, db, client, name, k);
    }
  }

  lemma {:induction false} FirstRuleWithin(lib: Library, rules: seq<ScopedRule>, upto: nat, groups: set<int>, name: string, k: nat)
    returns (i: nat)
    requires upto <= |rules| && RuleWithin(lib, rules, upto, groups, name, k)
    ensures i < upto && RuleHits(lib, rules[i], groups, name) && RuleStage(rules[i].rule.allow, rules[i].rule.kind) == k
    ensures !RuleWithin(lib, rules, i, groups, name, k)
    decreases upto
  {
    hide RuleHits, RuleStage;
    i :| 0 <= i < upto && RuleHits(lib, rules[i], groups, name) && RuleStage(rules[i].rule.allow, rules[i].rule.kind) == k;
    if RuleWithin(lib, rules, i, groups, name, k) {
      i := FirstRuleWithin(lib, rules, i, groups, name, k);
    }
  }

  lemma {:induction false} FirstEntryWithin(lib: Library, entries: seq<ScopedEntry>, upto: nat, groups: set<int>, name: string, k: nat)
    returns (i: nat)
    requires upto <= |entries| && EntryWithin(lib, entries, upto, groups, name, k)
    ensures i < upto && EntryHits(lib, entries[i], groups, name) && EntryStage(entries[i].allow) == k
    ensures !EntryWithin(lib, entries, i, groups, name, k)
    decreases upto
  {
    hide EntryHits;
    i :| 0 <= i < upto && EntryHits(lib, entries[i], groups, name) && EntryStage(entries[i].allow) == k;
    if EntryWithin(lib, entries, i, groups, name, k) {
      i := FirstEntryWithin(lib, entries, i, groups, name, k);
    }
  }

  /** Among the rows of a stage, the first is one of the rule with the least id. */
  lemma FirstIsLeast(lib: Library, db: Database, client: ClientText, name: string, r: RuleRow, i: nat)
    requires InIdOrder(db) && RuleDecides(lib, db, client, name, r)
    requires var rules := DecisionRules(db.rules, db.ruleGroups);
             && i < |rules| && RuleHits(lib, rules[i], RequestGroups(db, client), name)
             && RuleStage(rules[i].rule.allow, rules[i].rule.kind) == RuleStage(r.allow, r.kind)
             && !RuleWithin(lib, rules, i, RequestGroups(db, client), name, RuleStage(r.allow, r.kind))
    ensures DecisionRules(db.rules, db.ruleGroups)[i].rule == r
  {
    var rules, groups := DecisionRules(db.rules, db.ruleGroups), RequestGroups(db, client);
    DecisionRulesInOrder(db.rules, db.ruleGroups);
    var q := rules[i].rule;
    assert rules[i] in rules;
    RuleRows(lib, db, client, name, q);
    RuleRows(lib, db, client, name, r);
    hide RuleHits, DecisionRules, RequestGroups, RuleStage, Hits, MeantFor, InIdOrder;
    var s :| s in rules && s.rule == r && RuleHits(lib, s, groups, name);
    var j :| 0 <= j < |rules| && rules[j] == s;
    assert RuleCounts(lib, db, client, name, q) && r.id <= q.id;
    assert i <= j;
    assert q.id <= r.id;
    OneRulePerId(db, q, r);
  }

  lemma RuleRowWins(lib: Library, db: Database, client: ClientText, name: string, r: RuleRow) returns (i: nat)
    requires InIdOrder(db) && RuleDecides(lib, db, client, name, r)
    ensures var rules := DecisionRules(db.rules, db.ruleGroups);
            && i < |rules| && rules[i].rule == r
            && RuleWins(lib, rules, DecisionEntries(db.lists, db.entries, db.listGroups), RequestGroups(db, client), name, i)
  {
    var rules, groups := DecisionRules(db.rules, db.ruleGroups), RequestGroups(db, client);
    var entries := DecisionEntries(db.lists, db.entries, db.listGroups);
    var stage := RuleStage(r.allow, r.kind);
    AllStages(lib, db, client, name);
    hide RuleHits, RuleCounts, EntryCounts, DecisionRules, DecisionEntries, RequestGroups, RuleStage, EntryStage;
    assert RuleCountsAt(lib, db, client, name, stage);
    i := FirstRuleWithin(lib, rules, |rules|, groups, name, stage);
    FirstIsLeast(lib, db, client, name, r, i);
    forall k: nat | k < stage ensures !RuleAt(lib, rules, groups, name, k) && !EntryAt(lib, entries, groups, name, k) {
      assert !RuleCountsAt(lib, db, client, name, k) && !EntryCountsAt(lib, db, client, name, k);
    }
  }

  lemma RowOfEntry(lib: Library, db: Database, client: ClientText, name: string, l: ListRow, e: EntryRow) returns (j: nat)
    requires EntryCounts(lib, db, client, name, l, e)
    ensures var entries := DecisionEntries(db.lists, db.entries, db.listGroups);
            && j < |entries| && entries[j].entry == e && entries[j].allow == l.allow
            && EntryHits(lib, entries[j], RequestGroups(db, client), name)
  {
    EntryRows(lib, db, client, name, e, l.allow);
    hide EntryHits, EntryCounts, DecisionEntries, RequestGroups;
    var entries, groups := DecisionEntries(db.lists, db.entries, db.listGroups), RequestGroups(db, client);
    var s :| s in entries && s.entry == e && s.allow == l.allow && EntryHits(lib, s, groups, name);
    j :| 0 <= j < |entries| && entries[j] == s;
  }

  lemma EntryOfRow(lib: Library, db: Database, client: ClientText, name: string, i: nat) returns (m: ListRow)
    requires i < |DecisionEntries(db.lists, db.entries, db.listGroups)|
    requires EntryHits(lib, DecisionEntries(db.lists, db.entries, db.listGroups)[i], RequestGroups(db, client), name)
    ensures var row := DecisionEntries(db.lists, db.entries, db.listGroups)[i];
            EntryCounts(lib, db, client, name, m, row.entry) && m.allow == row.allow && row.entry.listId == m.id
  {
    var entries, groups := DecisionEntries(db.lists, db.entries, db.listGroups), RequestGroups(db, client);
    assert entries[i] in entries;
    EntryRows(lib, db, client, name, entries[i].entry, entries[i].allow);
    hide EntryHits, DecisionEntries, RequestGroups, Hits, MeantFor;
    m :| EntryCounts(lib, db, client, name, m, entries[i].entry) && m.allow == entries[i].allow;
  }

  lemma FirstEntryIsLeast(lib: Library, db: Database, client: ClientText, name: string, l: ListRow, e: EntryRow, i: nat)
    requires InIdOrder(db) && EntryDecides(lib, db, client, name, l, e)
    requires var entries := DecisionEntries(db.lists, db.entries, db.listGroups);
             && i < |entries| && EntryHits(lib, entries[i], RequestGroups(db, client), name)
             && EntryStage(entries[i].allow) == EntryStage(l.allow)
             && !EntryWithin(lib, entries, i, RequestGroups(db, client), name, EntryStage(l.allow))
    ensures DecisionEntries(db.lists, db.entries, db.listGroups)[i].entry == e
  {
    var j := RowOfEntry(lib, db, client, name, l, e);
    var m := EntryOfRow(lib, db, client, name, i);
    hide EntryHits, DecisionEntries, RequestGroups, EntryDecides, EntryCounts, InIdOrder;
    var entries := DecisionEntries(db.lists, db.entries, db.listGroups);
    assert i <= j;
    EntryRowsInOrder(db, i, j);
    DecidesIsLeast(lib, db, client, name, l, e, m, entries[i].entry);
    OneEntryPerId(db, e, entries[i].entry);
  }

  lemma EntryRowsInOrder(db: Database, i: nat, j: nat)
    requires InIdOrder(db) && i <= j < |DecisionEntries(db.lists, db.entries, db.listGroups)|
    ensures var join := DecisionEntries(db.lists, db.entries, db.listGroups); NotAfter(join[i], join[j])
  {
    DecisionEntriesInOrder(db.lists, db.entries, db.listGroups);
  }

  lemma DecidesIsLeast(lib: Library, db: Database, client: ClientText, name: string, l: ListRow, e: EntryRow, m: ListRow, f: EntryRow)
    requires EntryDecides(lib, db, client, name, l, e) && EntryCounts(lib, db, client, name, m, f) && m.allow == l.allow
    ensures l.id < m.id || (l.id == m.id && e.id <= f.id)
    ensures e in db.entries && f in db.entries && e.listId == l.id && f.listId == m.id
  {
  }

  lemma OneEntryPerId(db: Database, e: EntryRow, f: EntryRow)
    requires InIdOrder(db) && e in db.entries && f in db.entries && e.id == f.id
    ensures e == f
  {
    var x :| 0 <= x < |db.entries| && db.entries[x] == f;
    var y :| 0 <= y < |db.entries| && db.entries[y] == e;
  }

  lemma OneRulePerId(db: Database, q: RuleRow, r: RuleRow)
    requires InIdOrder(db) && q in db.rules && r in db.rules && q.id == r.id
    ensures q == r
  {
    var x :| 0 <= x < |db.rules| && db.rules[x] == q;
    var y :| 0 <= y < |db.rules| && db.rules[y] == r;
  }

  lemma EntryRowWins(lib: Library, db: Database, client: ClientText, name: string, l: ListRow, e: EntryRow) returns (i: nat)
    requires InIdOrder(db) && EntryDecides(lib, db, client, name, l, e)
    ensures var entries := DecisionEntries(db.lists, db.entries, db.listGroups);
            && i < |entries| && entries[i].entry == e && entries[i].allow == l.allow
            && EntryWins(lib, DecisionRules(db.rules, db.ruleGroups), entries, RequestGroups(db, client), name, i)
  {
    var rules, groups := DecisionRules(db.rules, db.ruleGroups), RequestGroups(db, client);
    var entries := DecisionEntries(db.lists, db.entries, db.listGroups);
    var stage := EntryStage(l.allow);
    AllStages(lib, db, client, name);
    hide EntryHits, RuleCounts, EntryCounts, DecisionRules, DecisionEntries, RequestGroups, RuleStage;
    assert EntryCountsAt(lib, db, client, name, stage);
    i := FirstEntryWithin(lib, entries, |entries|, groups, name, stage);
    FirstEntryIsLeast(lib, db, client, name, l, e, i);
    forall k: nat | k < stage ensures !RuleAt(lib, rules, groups, name, k) && !EntryAt(lib, entries, groups, name, k) {
      assert !RuleCountsAt(lib, db, client, name, k) && !EntryCountsAt(lib, db, client, name, k);
    }
  }

  /**
   * The query-time decision in terms of the tables alone: by the rule or the list
   * entry that counts for the client at the first stage where one does, and there
   * the one with the least id; undecided exactly if none counts.
   */
  lemma DecidedInTables(lib: Library, db: Database, raw: string, client: ClientText)
    requires FilterName(lib, raw) != "" && !client.BadAddress? && InIdOrder(db)
    ensures ServiceAnswer(lib, db, raw, client).Answered?
    ensures var d := ServiceAnswer(lib, db, raw, client).decision;
            var name := FilterName(lib, raw);
            && (forall r :: RuleDecides(lib, db, client, name, r) ==>
                  d == Decision(if r.allow then Allowed else Denied, ReasonText(RuleStage(r.allow, r.kind)), r.id, 0, 0, r.pattern))
            && (forall l, e :: EntryDecides(lib, db, client, name, l, e) ==>
                  d == Decision(if l.allow then Allowed else Denied, ReasonText(EntryStage(l.allow)), 0, l.id, e.id, e.pattern))
            && (d.action.Undecided? <==>
                  && (forall r :: !RuleCounts(lib, db, client, name, r))
                  && (forall l, e :: !EntryCounts(lib, db, client, name, l, e)))
  {
    var name := FilterName(lib, raw);
    DecisionIsTheWinners(lib, db, raw, client);
    hide FilterName, ServiceAnswer, RuleWins, EntryWins, DecisionRules, DecisionEntries, RuleStage, EntryStage, ReasonText;
    NothingCounts(lib, db, client, name);
    forall r | RuleDecides(lib, db, client, name, r)
      ensures ServiceAnswer(lib, db, raw, client).decision == ByRule(r)
    {
      var i := RuleRowWins(lib, db, client, name, r);
    }
    forall l, e | EntryDecides(lib, db, client, name, l, e)
      ensures ServiceAnswer(lib, db, raw, client).decision ==
              Decision(if l.allow then Allowed else Denied, ReasonText(EntryStage(l.allow)), 0, l.id, e.id, e.pattern)
    {
      var i := EntryRowWins(lib, db, client, name, l, e);
      assert e.listId == l.id;
    }
  }

  lemma NothingCounts(lib: Library, db: Database, client: ClientText, name: string)
    ensures NothingHits(lib, DecisionRules(db.rules, db.ruleGroups), DecisionEntries(db.lists, db.entries, db.listGroups),
                        RequestGroups(db, client), name) <==>
            && (forall r :: !RuleCounts(lib, db, client, name, r))
            && (forall l, e :: !EntryCounts(lib, db, client, name, l, e))
  {
    AllStages(lib, db, client, name);
    hide RuleCounts, EntryCounts, DecisionRules, DecisionEntries, RequestGroups, RuleAt, EntryAt, RuleStage, EntryStage;
    var rules, entries := DecisionRules(db.rules, db.ruleGroups), DecisionEntries(db.lists, db.entries, db.listGroups);
    var groups := RequestGroups(db, client);
    if NothingHits(lib, rules, entries, groups, name) {
      forall r ensures !RuleCounts(lib, db, client, name, r) {
        assert !RuleAt(lib, rules, groups, name, RuleStage(r.allow, r.kind));
        assert !RuleCountsAt(lib, db, client, name, RuleStage(r.allow, r.kind));
      }
      forall l, e ensures !EntryCounts(lib, db, client, name, l, e) {
        assert !EntryAt(lib, entries, groups, name, EntryStage(l.allow));
        assert !EntryCountsAt(lib, db, client, name, EntryStage(l.allow));
      }
    }
  }
}
