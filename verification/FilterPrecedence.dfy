/**
 * Which rule or list entry decides a query. Eight stages are tried in order; the
 * first at which something applies decides, by the first row of the join that
 * does, which is the one with the least id in the tables.
 */
module FilterPrecedence {
  import opened Options
  import opened Text
  import opened Domains
  import opened BlocklistMatcher
  import opened FilterTables
  import opened FilterDecisions

  function RuleStage(allow: bool, kind: Kind): nat {
    match (allow, kind)
    case (true, Exact) => 1
    case (true, Regex) => 2
    case (true, Suffix) => 3
    case (false, Exact) => 4
    case (false, Regex) => 7
    case (false, Suffix) => 8
  }

  function EntryStage(allow: bool): nat {
    if allow then 5 else 6
  }

  /** The pattern matches the normalized name. */
  predicate Hits(lib: Library, name: string, pattern: string, kind: Kind) {
    match kind
    case Exact => name == Lower(lib, TrimSpace(lib, TrimSuffix(pattern, ".")))
    case Suffix =>
      var domain := Lower(lib, TrimSpace(lib, TrimSuffix(TrimPrefix(pattern, "*."), ".")));
      name == domain || HasSuffix(name, "." + domain)
    case Regex => lib.compiles(pattern) && lib.finds(pattern, name)
  }

  predicate RuleHits(lib: Library, s: ScopedRule, groups: set<int>, name: string) {
    s.rule.enabled && (s.group == 0 || s.group in groups) && Hits(lib, name, s.rule.pattern, s.rule.kind)
  }

  predicate EntryHits(lib: Library, s: ScopedEntry, groups: set<int>, name: string) {
    s.enabled && (s.group == 0 || s.group in groups) && Hits(lib, name, s.entry.pattern, s.entry.kind)
  }

  /** Some rule among the first rows applies at the stage. */
  ghost predicate RuleWithin(lib: Library, rules: seq<ScopedRule>, upto: nat, groups: set<int>, name: string, stage: nat)
    requires upto <= |rules|
  {
    exists i :: 0 <= i < upto && RuleHits(lib, rules[i], groups, name) && RuleStage(rules[i].rule.allow, rules[i].rule.kind) == stage
  }

  ghost predicate EntryWithin(lib: Library, entries: seq<ScopedEntry>, upto: nat, groups: set<int>, name: string, stage: nat)
    requires upto <= |entries|
  {
    exists i :: 0 <= i < upto && EntryHits(lib, entries[i], groups, name) && EntryStage(entries[i].allow) == stage
  }

  ghost predicate RuleAt(lib: Library, rules: seq<ScopedRule>, groups: set<int>, name: string, stage: nat) {
    RuleWithin(lib, rules, |rules|, groups, name, stage)
  }

  ghost predicate EntryAt(lib: Library, entries: seq<ScopedEntry>, groups: set<int>, name: string, stage: nat) {
    EntryWithin(lib, entries, |entries|, groups, name, stage)
  }

  /** The row applies, nothing does at an earlier stage, and no row before it at its own. */
  ghost predicate RuleWins(lib: Library, rules: seq<ScopedRule>, entries: seq<ScopedEntry>, groups: set<int>, name: string, i: nat) {
    && i < |rules| && RuleHits(lib, rules[i], groups, name)
    && var stage := RuleStage(rules[i].rule.allow, rules[i].rule.kind);
       && (forall k :: 0 <= k < stage ==> !RuleAt(lib, rules, groups, name, k) && !EntryAt(lib, entries, groups, name, k))
       && !RuleWithin(lib, rules, i, groups, name, stage)
  }

  ghost predicate EntryWins(lib: Library, rules: seq<ScopedRule>, entries: seq<ScopedEntry>, groups: set<int>, name: string, i: nat) {
    && i < |entries| && EntryHits(lib, entries[i], groups, name)
    && var stage := EntryStage(entries[i].allow);
       && (forall k :: 0 <= k < stage ==> !RuleAt(lib, rules, groups, name, k) && !EntryAt(lib, entries, groups, name, k))
       && !EntryWithin(lib, entries, i, groups, name, stage)
  }

  ghost predicate NothingHits(lib: Library, rules: seq<ScopedRule>, entries: seq<ScopedEntry>, groups: set<int>, name: string) {
    forall k :: !RuleAt(lib, rules, groups, name, k) && !EntryAt(lib, entries, groups, name, k)
  }

  function ReasonText(stage: nat): string {
    match stage
    case 1 => "exact allow rule"
    case 2 => "regex allow rule"
    case 3 => "suffix allow rule"
    case 4 => "exact deny rule"
    case 5 => "subscribed allow list"
    case 6 => "subscribed deny list"
    case 7 => "regex deny rule"
    case 8 => "suffix deny rule"
    case _ => "no filter match"
  }

  function ByRule(rule: RuleRow): Decision {
    Decision(if rule.allow then Allowed else Denied, ReasonText(RuleStage(rule.allow, rule.kind)), rule.id, 0, 0, rule.pattern)
  }

  function ByEntry(s: ScopedEntry): Decision {
    Decision(if s.allow then Allowed else Denied, ReasonText(EntryStage(s.allow)), 0, s.entry.listId, s.entry.id, s.entry.pattern)
  }

  // ------------------------------------------------------------- the first that applies

  /** Where the search for one kind of rule ends. */
  lemma {:induction false} FirstRuleAt(lib: Library, rules: seq<ScopedRule>, groups: set<int>, name: string, allow: bool, kind: Kind)
    returns (i: nat)
    ensures i <= |rules| && !RuleWithin(lib, rules, i, groups, name, RuleStage(allow, kind))
    ensures match FirstRule(lib, rules, groups, name, allow, kind)
            case None => i == |rules|
            case Some(rule) =>
              && i < |rules| && rules[i].rule == rule && RuleHits(lib, rules[i], groups, name)
              && rule.allow == allow && rule.kind == kind
  {
    hide Hits, PatternMatches;
    if rules == [] {
      i := 0;
    } else {
      SamePattern(lib, name, rules[0].rule.pattern, kind);
      if RuleApplies(lib, rules[0], groups, name, allow, kind) {
        i := 0;
      } else {
        var n := FirstRuleAt(lib, rules[1..], groups, name, allow, kind);
        i := n + 1;
        forall j | 0 <= j < i && RuleHits(lib, rules[j], groups, name)
          ensures RuleStage(rules[j].rule.allow, rules[j].rule.kind) != RuleStage(allow, kind)
        {
          if j > 0 { assert rules[j] == rules[1..][j - 1]; }
        }
      }
    }
  }

  lemma SamePattern(lib: Library, name: string, pattern: string, kind: Kind)
    ensures PatternMatches(lib, name, pattern, kind) <==> Hits(lib, name, pattern, kind)
  {
  }

  lemma {:induction false} FirstEntryAt(lib: Library, entries: seq<ScopedEntry>, groups: set<int>, name: string, allow: bool)
    returns (i: nat)
    ensures i <= |entries| && !EntryWithin(lib, entries, i, groups, name, EntryStage(allow))
    ensures match FirstEntry(lib, entries, groups, name, allow)
            case None => i == |entries|
            case Some(s) => i < |entries| && entries[i] == s && EntryHits(lib, s, groups, name) && s.allow == allow
  {
    hide Hits, PatternMatches;
    if entries == [] {
      i := 0;
    } else {
      SamePattern(lib, name, entries[0].entry.pattern, entries[0].entry.kind);
      if EntryApplies(lib, entries[0], groups, name, allow) {
        i := 0;
      } else {
        var n := FirstEntryAt(lib, entries[1..], groups, name, allow);
        i := n + 1;
        forall j | 0 <= j < i && EntryHits(lib, entries[j], groups, name)
          ensures EntryStage(entries[j].allow) != EntryStage(allow)
        {
          if j > 0 { assert entries[j] == entries[1..][j - 1]; }
        }
      }
    }
  }

  // ------------------------------------------------------------------ the stages in order

  datatype Winner = RuleRowAt(i: nat) | EntryRowAt(i: nat) | Nobody

  ghost predicate Wins(lib: Library, rules: seq<ScopedRule>, entries: seq<ScopedEntry>, groups: set<int>, name: string, w: Winner) {
    match w
    case RuleRowAt(i) => RuleWins(lib, rules, entries, groups, name, i)
    case EntryRowAt(i) => EntryWins(lib, rules, entries, groups, name, i)
    case Nobody => NothingHits(lib, rules, entries, groups, name)
  }

  function DecisionOf(rules: seq<ScopedRule>, entries: seq<ScopedEntry>, w: Winner): Decision
    requires (w.RuleRowAt? ==> w.i < |rules|) && (w.EntryRowAt? ==> w.i < |entries|)
  {
    match w
    case RuleRowAt(i) => ByRule(rules[i].rule)
    case EntryRowAt(i) => ByEntry(entries[i])
    case Nobody => Decision(Undecided, "no filter match", 0, 0, 0, "")
  }

  lemma StagesUsed(lib: Library, rules: seq<ScopedRule>, entries: seq<ScopedEntry>, groups: set<int>, name: string)
    ensures forall k :: RuleAt(lib, rules, groups, name, k) ==> k in {1, 2, 3, 4, 7, 8}
    ensures forall k :: EntryAt(lib, entries, groups, name, k) ==> k in {5, 6} && entries != []
  {
  }

  lemma RuleStageSearched(lib: Library, rules: seq<ScopedRule>, groups: set<int>, name: string, allow: bool, kind: Kind)
    returns (i: nat)
    ensures var found := FirstRule(lib, rules, groups, name, allow, kind);
            var stage := RuleStage(allow, kind);
            && (found.None? <==> !RuleAt(lib, rules, groups, name, stage))
            && (found.Some? ==>
                  && i < |rules| && rules[i].rule == found.value && RuleHits(lib, rules[i], groups, name)
                  && found.value.allow == allow && found.value.kind == kind
                  && !RuleWithin(lib, rules, i, groups, name, stage))
  {
    hide RuleHits, FirstRule;
    i := FirstRuleAt(lib, rules, groups, name, allow, kind);
  }

  lemma EntryStageSearched(lib: Library, entries: seq<ScopedEntry>, groups: set<int>, name: string, allow: bool)
    returns (i: nat)
    ensures var found := FirstEntry(lib, entries, groups, name, allow);
            && (found.None? <==> !EntryAt(lib, entries, groups, name, EntryStage(allow)))
            && (found.Some? ==>
                  && i < |entries| && entries[i] == found.value && EntryHits(lib, entries[i], groups, name)
                  && found.value.allow == allow
                  && !EntryWithin(lib, entries, i, groups, name, EntryStage(allow)))
  {
    hide EntryHits, FirstEntry;
    i := FirstEntryAt(lib, entries, groups, name, allow);
  }

  lemma StrongWinner(lib: Library, rules: seq<ScopedRule>, groups: set<int>, name: string) returns (i: nat)
    ensures var strong := StrongRules(lib, rules, groups, name);
            && (strong.None? <==> forall k :: 1 <= k <= 4 ==> !RuleAt(lib, rules, groups, name, k))
            && (strong.Some? ==>
                  && i < |rules| && rules[i].rule == strong.value && RuleHits(lib, rules[i], groups, name)
                  && var stage := RuleStage(strong.value.allow, strong.value.kind);
                     && 1 <= stage <= 4 && !RuleWithin(lib, rules, i, groups, name, stage)
                     && forall k :: 1 <= k < stage ==> !RuleAt(lib, rules, groups, name, k))
  {
    hide RuleHits, FirstRule, RuleAt;
    i := RuleStageSearched(lib, rules, groups, name, true, Exact);
    if FirstRule(lib, rules, groups, name, true, Exact).None? {
      i := RuleStageSearched(lib, rules, groups, name, true, Regex);
      if FirstRule(lib, rules, groups, name, true, Regex).None? {
        i := RuleStageSearched(lib, rules, groups, name, true, Suffix);
        if FirstRule(lib, rules, groups, name, true, Suffix).None? {
          i := RuleStageSearched(lib, rules, groups, name, false, Exact);
        }
      }
    }
  }

  lemma WeakWinner(lib: Library, rules: seq<ScopedRule>, groups: set<int>, name: string) returns (i: nat)
    ensures var weak := WeakRules(lib, rules, groups, name);
            && (weak.None? <==> !RuleAt(lib, rules, groups, name, 7) && !RuleAt(lib, rules, groups, name, 8))
            && (weak.Some? ==>
                  && i < |rules| && rules[i].rule == weak.value && RuleHits(lib, rules[i], groups, name)
                  && var stage := RuleStage(weak.value.allow, weak.value.kind);
                     && 7 <= stage <= 8 && !RuleWithin(lib, rules, i, groups, name, stage)
                     && (stage == 8 ==> !RuleAt(lib, rules, groups, name, 7)))
  {
    hide RuleHits, FirstRule, RuleAt;
    i := RuleStageSearched(lib, rules, groups, name, false, Regex);
    if FirstRule(lib, rules, groups, name, false, Regex).None? {
      i := RuleStageSearched(lib, rules, groups, name, false, Suffix);
    }
  }

  lemma SameDecisions()
    ensures forall rule :: OfRule(rule) == ByRule(rule)
    ensures forall s :: OfEntry(s) == ByEntry(s)
  {
    forall rule: RuleRow ensures RuleReason(rule.allow, rule.kind) == ReasonText(RuleStage(rule.allow, rule.kind)) { }
  }

  lemma TableWinner(lib: Library, rules: seq<ScopedRule>, entries: seq<ScopedEntry>, groups: set<int>, name: string)
    returns (w: Winner)
    ensures Wins(lib, rules, entries, groups, name, w)
    ensures (w.RuleRowAt? ==> w.i < |rules|) && (w.EntryRowAt? ==> w.i < |entries|)
    ensures TableDecision(lib, rules, entries, groups, name) == DecisionOf(rules, entries, w)
  {
    StagesUsed(lib, rules, entries, groups, name);
    SameDecisions();
    hide RuleHits, EntryHits, RuleAt, EntryAt, FirstEntry, StrongRules, WeakRules, OfRule, OfEntry, ByRule, ByEntry;
    var strong := StrongWinner(lib, rules, groups, name);
    if StrongRules(lib, rules, groups, name).Some? {
      return RuleRowAt(strong);
    }
    var e := EntryStageSearched(lib, entries, groups, name, true);
    if FirstEntry(lib, entries, groups, name, true).Some? {
      return EntryRowAt(e);
    }
    e := EntryStageSearched(lib, entries, groups, name, false);
    if FirstEntry(lib, entries, groups, name, false).Some? {
      return EntryRowAt(e);
    }
    var weak := WeakWinner(lib, rules, groups, name);
    if WeakRules(lib, rules, groups, name).Some? {
      return RuleRowAt(weak);
    }
    w := Nobody;
  }

  /** At most one row wins, and none if nothing applies. */
  lemma OneWinner(lib: Library, rules: seq<ScopedRule>, entries: seq<ScopedEntry>, groups: set<int>, name: string, w: Winner, v: Winner)
    requires Wins(lib, rules, entries, groups, name, w) && Wins(lib, rules, entries, groups, name, v)
    ensures w == v
  {
    WinnerIsAt(lib, rules, entries, groups, name, w);
    WinnerIsAt(lib, rules, entries, groups, name, v);
    hide RuleHits, EntryHits, RuleStage;
  }

  lemma WinnerIsAt(lib: Library, rules: seq<ScopedRule>, entries: seq<ScopedEntry>, groups: set<int>, name: string, w: Winner)
    requires Wins(lib, rules, entries, groups, name, w)
    ensures w.RuleRowAt? ==> RuleAt(lib, rules, groups, name, RuleStage(rules[w.i].rule.allow, rules[w.i].rule.kind))
    ensures w.EntryRowAt? ==> EntryAt(lib, entries, groups, name, EntryStage(entries[w.i].allow))
  {
  }

  /**
   * The query-time decision is the winner's, and the winner's alone: it is by the
   * rule or entry in row i if and only if that row applies, nothing applies at an
   * earlier stage, and no earlier row at its own; and undecided if and only if
   * nothing applies at all.
   */
  lemma DecisionIsTheWinners(lib: Library, db: Database, raw: string, client: ClientText)
    requires FilterName(lib, raw) != "" && !client.BadAddress?
    ensures ServiceAnswer(lib, db, raw, client).Answered?
    ensures var rules := DecisionRules(db.rules, db.ruleGroups);
            var entries := DecisionEntries(db.lists, db.entries, db.listGroups);
            var groups := RequestGroups(db, client);
            var name := FilterName(lib, raw);
            var d := ServiceAnswer(lib, db, raw, client).decision;
            && ((exists i: nat :: RuleWins(lib, rules, entries, groups, name, i))
                || (exists i: nat :: EntryWins(lib, rules, entries, groups, name, i))
                || NothingHits(lib, rules, entries, groups, name))
            && (forall i: nat :: RuleWins(lib, rules, entries, groups, name, i) ==> d == ByRule(rules[i].rule))
            && (forall i: nat :: EntryWins(lib, rules, entries, groups, name, i) ==> d == ByEntry(entries[i]))
            && (d.action.Undecided? <==> NothingHits(lib, rules, entries, groups, name))
            && (d.action.Undecided? ==> d == Decision(Undecided, "no filter match", 0, 0, 0, ""))
  {
    var rules := DecisionRules(db.rules, db.ruleGroups);
    var entries := DecisionEntries(db.lists, db.entries, db.listGroups);
    var groups := RequestGroups(db, client);
    var name := FilterName(lib, raw);
    hide DecisionRules, DecisionEntries, RequestGroups, FilterName, TableDecision, RuleWins, EntryWins, NothingHits;
    var w := TableWinner(lib, rules, entries, groups, name);
    forall i: nat | RuleWins(lib, rules, entries, groups, name, i) ensures w == RuleRowAt(i) {
      OneWinner(lib, rules, entries, groups, name, w, RuleRowAt(i));
    }
    forall i: nat | EntryWins(lib, rules, entries, groups, name, i) ensures w == EntryRowAt(i) {
      OneWinner(lib, rules, entries, groups, name, w, EntryRowAt(i));
    }
    if NothingHits(lib, rules, entries, groups, name) {
      OneWinner(lib, rules, entries, groups, name, w, Nobody);
    }
  }

  /** The rules of a snapshot, in the same order with the blocklist between the stages 4 and 7. */
  lemma RulingIsTheWinners(lib: Library, s: Snapshot, verdict: Verdict, raw: string, key: string)
    ensures var groups := SnapshotGroups(s, key);
            var name := FilterName(lib, raw);
            var ruling := SnapshotRuling(lib, s, verdict, raw, key);
            && (forall i: nat :: RuleWins(lib, s.rules, [], groups, name, i) ==>
                  var rule := s.rules[i].rule;
                  var stage := RuleStage(rule.allow, rule.kind);
                  ruling == if stage <= 4 || (!verdict.AllowMatch? && !verdict.DenyMatch?)
                            then RulingBy(rule)
                            else ByBlocklist(verdict))
            && (NothingHits(lib, s.rules, [], groups, name) ==> ruling == ByBlocklist(verdict))
            && ((exists i: nat :: RuleWins(lib, s.rules, [], groups, name, i)) || NothingHits(lib, s.rules, [], groups, name))
  {
    var groups := SnapshotGroups(s, key);
    var name := FilterName(lib, raw);
    StagesUsed(lib, s.rules, [], groups, name);
    var w := RulesWinner(lib, s.rules, groups, name);
    SameRulings();
    hide RulingOf, RulingBy, FallbackRuling, ByBlocklist, RuleHits, RuleAt, EntryAt, StrongRules, WeakRules, FilterName, RuleWins, NothingHits, SnapshotGroups;
    forall i: nat | RuleWins(lib, s.rules, [], groups, name, i) ensures w == RuleRowAt(i) {
      OneWinner(lib, s.rules, [], groups, name, w, RuleRowAt(i));
    }
    if NothingHits(lib, s.rules, [], groups, name) {
      OneWinner(lib, s.rules, [], groups, name, w, Nobody);
    }
  }

  function RulingBy(rule: RuleRow): Ruling {
    Ruling(if rule.allow then Allowed else Denied, ReasonText(RuleStage(rule.allow, rule.kind)), rule.id)
  }

  lemma SameRulings()
    ensures forall rule :: RulingOf(rule) == RulingBy(rule)
    ensures forall verdict :: FallbackRuling(verdict) == ByBlocklist(verdict)
  {
    forall rule: RuleRow ensures RulingOf(rule) == RulingBy(rule) { }
  }

  /** Only a deny match blocks. */
  function ByBlocklist(verdict: Verdict): Ruling {
    Ruling(if verdict == DenyMatch then Denied else Allowed,
           match verdict
           case InvalidName => "invalid query name"
           case AllowMatch => "blocklist allow match"
           case DenyMatch => "blocklist deny match"
           case NoMatch => "no blocklist match", 0)
  }

  lemma RulesWinner(lib: Library, rules: seq<ScopedRule>, groups: set<int>, name: string) returns (w: Winner)
    ensures Wins(lib, rules, [], groups, name, w) && !w.EntryRowAt? && (w.RuleRowAt? ==> w.i < |rules|)
    ensures var strong, weak := StrongRules(lib, rules, groups, name), WeakRules(lib, rules, groups, name);
            && (w.Nobody? <==> strong.None? && weak.None?)
            && (w.RuleRowAt? ==>
                  var stage := RuleStage(rules[w.i].rule.allow, rules[w.i].rule.kind);
                  && (stage <= 4 ==> strong == Some(rules[w.i].rule))
                  && (stage > 4 ==> strong.None? && weak == Some(rules[w.i].rule)))
  {
    StagesUsed(lib, rules, [], groups, name);
    hide RuleHits, EntryHits, RuleAt, EntryAt, StrongRules, WeakRules;
    var strong := StrongWinner(lib, rules, groups, name);
    if StrongRules(lib, rules, groups, name).Some? {
      return RuleRowAt(strong);
    }
    var weak := WeakWinner(lib, rules, groups, name);
    if WeakRules(lib, rules, groups, name).Some? {
      return RuleRowAt(weak);
    }
    w := Nobody;
  }
}
