/**
 * The decision on a query, twice: at query time from the tables, and from a
 * snapshot of the rules on top of the blocklist.
 */
module FilterDecisions {
  import opened Options
  import opened Text
  import opened Domains
  import opened BlocklistMatcher
  import opened FilterTables

  datatype Action = Allowed | Denied | Undecided

  /** What the service reports. Ids of 0 stand for no rule, no list, no entry. */
  datatype Decision = Decision(action: Action, reason: string, ruleId: int, listId: int, entryId: int, pattern: string)

  /** What the runtime reports; it never leaves a query undecided. */
  datatype Ruling = Ruling(action: Action, reason: string, ruleId: int)

  function FilterName(lib: Library, raw: string): string {
    Lower(lib, TrimSpace(lib, TrimSuffix(raw, ".")))
  }

  predicate PatternMatches(lib: Library, name: string, pattern: string, kind: Kind) {
    match kind
    case Exact => name == FilterName(lib, pattern)
    case Suffix => Under(name, FilterName(lib, TrimPrefix(pattern, "*.")))
    case Regex => lib.compiles(pattern) && lib.finds(pattern, name)
  }

  predicate InScope(group: int, groups: set<int>) {
    group == 0 || group in groups
  }

  predicate RuleApplies(lib: Library, r: ScopedRule, groups: set<int>, name: string, allow: bool, kind: Kind) {
    && r.rule.enabled && r.rule.allow == allow && r.rule.kind == kind && InScope(r.group, groups)
    && PatternMatches(lib, name, r.rule.pattern, kind)
  }

  predicate EntryApplies(lib: Library, e: ScopedEntry, groups: set<int>, name: string, allow: bool) {
    && e.enabled && e.allow == allow && InScope(e.group, groups)
    && PatternMatches(lib, name, e.entry.pattern, e.entry.kind)
  }

  function ActionFor(allow: bool): Action {
    if allow then Allowed else Denied
  }

  function RuleReason(allow: bool, kind: Kind): string {
    match kind
    case Exact => if allow then "exact allow rule" else "exact deny rule"
    case Regex => if allow then "regex allow rule" else "regex deny rule"
    case Suffix => if allow then "suffix allow rule" else "suffix deny rule"
  }

  function OfRule(rule: RuleRow): Decision {
    Decision(ActionFor(rule.allow), RuleReason(rule.allow, rule.kind), rule.id, 0, 0, rule.pattern)
  }

  function OfEntry(e: ScopedEntry): Decision {
    Decision(ActionFor(e.allow), if e.allow then "subscribed allow list" else "subscribed deny list",
             0, e.entry.listId, e.entry.id, e.entry.pattern)
  }

  function RulingOf(rule: RuleRow): Ruling {
    Ruling(ActionFor(rule.allow), RuleReason(rule.allow, rule.kind), rule.id)
  }

  /** The first rule that applies, in the order of the join. */
  function FirstRule(lib: Library, rules: seq<ScopedRule>, groups: set<int>, name: string, allow: bool, kind: Kind): Option<RuleRow> {
    if rules == [] then None
    else if RuleApplies(lib, rules[0], groups, name, allow, kind) then Some(rules[0].rule)
    else FirstRule(lib, rules[1..], groups, name, allow, kind)
  }

  function FirstEntry(lib: Library, entries: seq<ScopedEntry>, groups: set<int>, name: string, allow: bool): Option<ScopedEntry> {
    if entries == [] then None
    else if EntryApplies(lib, entries[0], groups, name, allow) then Some(entries[0])
    else FirstEntry(lib, entries[1..], groups, name, allow)
  }

  function OrElse<T>(first: Option<T>, second: Option<T>): Option<T> {
    if first.Some? then first else second
  }

  /** The rules that come before the lists. */
  function StrongRules(lib: Library, rules: seq<ScopedRule>, groups: set<int>, name: string): Option<RuleRow> {
    OrElse(FirstRule(lib, rules, groups, name, true, Exact),
    OrElse(FirstRule(lib, rules, groups, name, true, Regex),
    OrElse(FirstRule(lib, rules, groups, name, true, Suffix),
           FirstRule(lib, rules, groups, name, false, Exact))))
  }

  /** The rules that only count when no list has decided. */
  function WeakRules(lib: Library, rules: seq<ScopedRule>, groups: set<int>, name: string): Option<RuleRow> {
    OrElse(FirstRule(lib, rules, groups, name, false, Regex), FirstRule(lib, rules, groups, name, false, Suffix))
  }

  // ----------------------------------------------------------------- query time

  /** What the address text of a request comes to: none given, unreadable, or the key of a client. */
  datatype ClientText = NoClient | BadAddress | Address(key: string)

  datatype Answer = DomainRequired | InvalidAddress | Answered(decision: Decision)

  function RequestGroups(db: Database, client: ClientText): set<int> {
    if client.Address? then ClientGroups(db, client.key) else {}
  }

  function TableDecision(lib: Library, rules: seq<ScopedRule>, entries: seq<ScopedEntry>, groups: set<int>, name: string): Decision {
    var strong := StrongRules(lib, rules, groups, name);
    var listed := OrElse(FirstEntry(lib, entries, groups, name, true), FirstEntry(lib, entries, groups, name, false));
    var weak := WeakRules(lib, rules, groups, name);
    if strong.Some? then OfRule(strong.value)
    else if listed.Some? then OfEntry(listed.value)
    else if weak.Some? then OfRule(weak.value)
    else Decision(Undecided, "no filter match", 0, 0, 0, "")
  }

  function ServiceAnswer(lib: Library, db: Database, raw: string, client: ClientText): Answer {
    var name := FilterName(lib, raw);
    if name == "" then DomainRequired
    else if client.BadAddress? then InvalidAddress
    else
      Answered(TableDecision(lib, DecisionRules(db.rules, db.ruleGroups),
                             DecisionEntries(db.lists, db.entries, db.listGroups), RequestGroups(db, client), name))
  }

  /** The set of ids already seen plays no part: it is only filled on the way out. */
  method FirstMatchingRule(lib: Library, name: string, groups: set<int>, rules: seq<ScopedRule>, allow: bool, kind: Kind)
      returns (found: Option<RuleRow>)
    ensures found == FirstRule(lib, rules, groups, name, allow, kind)
  {
    var seen: set<int> := {};
    for i := 0 to |rules|
      invariant seen == {}
      invariant FirstRule(lib, rules, groups, name, allow, kind) == FirstRule(lib, rules[i..], groups, name, allow, kind)
    {
      var rule := rules[i];
      if rule.rule.id in seen && rule.group == 0 {
        continue;
      }
      if !rule.rule.enabled || rule.rule.allow != allow || rule.rule.kind != kind || !InScope(rule.group, groups) {
        continue;
      }
      if !PatternMatches(lib, name, rule.rule.pattern, rule.rule.kind) {
        continue;
      }
      seen := seen + {rule.rule.id};
      return Some(rule.rule);
    }
    found := None;
  }

  method FirstMatchingEntry(lib: Library, name: string, groups: set<int>, entries: seq<ScopedEntry>, allow: bool)
      returns (found: Option<ScopedEntry>)
    ensures found == FirstEntry(lib, entries, groups, name, allow)
  {
    var seen: set<int> := {};
    for i := 0 to |entries|
      invariant seen == {}
      invariant FirstEntry(lib, entries, groups, name, allow) == FirstEntry(lib, entries[i..], groups, name, allow)
    {
      var entry := entries[i];
      if entry.entry.id in seen && entry.group == 0 {
        continue;
      }
      if !entry.enabled || entry.allow != allow || !InScope(entry.group, groups) {
        continue;
      }
      if !PatternMatches(lib, name, entry.entry.pattern, entry.entry.kind) {
        continue;
      }
      seen := seen + {entry.entry.id};
      return Some(entry);
    }
    found := None;
  }

  method ServiceDecide(lib: Library, db: Database, raw: string, client: ClientText) returns (answer: Answer)
    ensures answer == ServiceAnswer(lib, db, raw, client)
  {
    var name := FilterName(lib, raw);
    if name == "" { return DomainRequired; }
    if client.BadAddress? { return InvalidAddress; }
    hide PatternMatches;
    var groups := RequestGroups(db, client);
    var rules := DecisionRules(db.rules, db.ruleGroups);
    var entries := DecisionEntries(db.lists, db.entries, db.listGroups);
    var rule := FirstMatchingRule(lib, name, groups, rules, true, Exact);
    if rule.Some? { return Answered(OfRule(rule.value)); }
    rule := FirstMatchingRule(lib, name, groups, rules, true, Regex);
    if rule.Some? { return Answered(OfRule(rule.value)); }
    rule := FirstMatchingRule(lib, name, groups, rules, true, Suffix);
    if rule.Some? { return Answered(OfRule(rule.value)); }
    rule := FirstMatchingRule(lib, name, groups, rules, false, Exact);
    if rule.Some? { return Answered(OfRule(rule.value)); }
    var entry := FirstMatchingEntry(lib, name, groups, entries, true);
    if entry.Some? { return Answered(OfEntry(entry.value)); }
    entry := FirstMatchingEntry(lib, name, groups, entries, false);
    if entry.Some? { return Answered(OfEntry(entry.value)); }
    rule := FirstMatchingRule(lib, name, groups, rules, false, Regex);
    if rule.Some? { return Answered(OfRule(rule.value)); }
    rule := FirstMatchingRule(lib, name, groups, rules, false, Suffix);
    if rule.Some? { return Answered(OfRule(rule.value)); }
    answer := Answered(Decision(Undecided, "no filter match", 0, 0, 0, ""));
  }

  // ------------------------------------------------------------------ snapshot

  datatype Snapshot = Snapshot(
    rules: seq<ScopedRule>,
    clients: map<string, set<int>>,
    regexps: map<string, string -> bool>)

  predicate NeedsRegex(r: ScopedRule) {
    r.rule.enabled && r.rule.kind.Regex?
  }

  /** The snapshot can answer: every regex rule in force has been compiled. */
  ghost predicate Ready(lib: Library, s: Snapshot) {
    forall r :: r in s.rules && NeedsRegex(r) ==>
      && lib.compiles(r.rule.pattern) && r.rule.pattern in s.regexps
      && forall name :: s.regexps[r.rule.pattern](name) == lib.finds(r.rule.pattern, name)
  }

  function SnapshotGroups(s: Snapshot, key: string): set<int> {
    if key in s.clients then s.clients[key] else {}
  }

  function FallbackRuling(verdict: Verdict): Ruling {
    match verdict
    case InvalidName => Ruling(Allowed, "invalid query name", 0)
    case AllowMatch => Ruling(Allowed, "blocklist allow match", 0)
    case DenyMatch => Ruling(Denied, "blocklist deny match", 0)
    case NoMatch => Ruling(Allowed, "no blocklist match", 0)
  }

  function SnapshotRuling(lib: Library, s: Snapshot, verdict: Verdict, raw: string, key: string): Ruling {
    var name := FilterName(lib, raw);
    var groups := SnapshotGroups(s, key);
    var strong := StrongRules(lib, s.rules, groups, name);
    var weak := WeakRules(lib, s.rules, groups, name);
    if strong.Some? then RulingOf(strong.value)
    else if verdict.DenyMatch? || verdict.AllowMatch? || weak.None? then FallbackRuling(verdict)
    else RulingOf(weak.value)
  }
}
