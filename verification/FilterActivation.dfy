/**
 * The activation of filters after a refresh: first the blocklist, then the
 * rules. When both reloads go through, the DNS path decides as the tables do.
 */
module FilterActivation {
  import opened Options
  import opened Text
  import opened Domains
  import opened BlocklistMatcher
  import opened BlocklistManager
  import opened FilterTables
  import opened FilterDecisions
  import opened RuleDecider
  import opened FilterAgreement

  /** The decider answers from this state of the tables, and from nothing else. */
  ghost predicate Active(d: RuleDecider, db: Database)
    reads d, d.fallback, d.fallback.current
  {
    && d.Valid() && !d.fallback.bundled
    && LastGood(d.fallback.loads) == Some(ListedEntries(db))
    && d.current.Some? && Mirrors(d.lib, d.current.value, db)
  }

  /**
   * The lists of the database are the only source of the blocklist. A reload of
   * the blocklist that fails leaves everything; if only the rules fail, the new
   * blocklist stays in place under the old rules.
   */
  method Activate(d: RuleDecider, db: Database, listsRead: bool, givesUpAt: Option<nat>, rulesFailAt: Option<nat>, now: int)
      returns (ok: bool)
    requires d.Valid() && d.fallback.paths == [] && !d.fallback.bundled
    modifies d, d.fallback
    ensures d.Valid() && (ok ==> Active(d, db))
    ensures !ok ==> d.current == old(d.current)
    ensures !ok ==> LastGood(d.fallback.loads) in {old(LastGood(d.fallback.loads)), Some(ListedEntries(db))}
    ensures listsRead && givesUpAt.None? && rulesFailAt.None? && AllCompile(d.lib, DecisionRules(db.rules, db.ruleGroups)) ==> ok
  {
    hide Mirrors, Ready;
    var source := if listsRead then Some(ListedEntries(db)) else None;
    var inputs := Inputs([], [source], givesUpAt);
    LoadOfOne(d.lib, source, givesUpAt);
    ok := d.fallback.Reload(inputs, now);
    assert d.fallback.loads[..|d.fallback.loads| - 1] == old(d.fallback.loads);
    if ok {
      ok := d.Reload(db, rulesFailAt);
    }
  }

  lemma LoadOfOne(lib: Library, source: Load, givesUpAt: Option<nat>)
    ensures Loaded(lib, [], Inputs([], [source], givesUpAt)) == if givesUpAt == Some(0) then None else source
  {
    var parts := Parts(lib, [], Inputs([], [source], givesUpAt));
    assert parts == [source] && parts[..0] == [] && Join([]) == Some([]);
    if source.Some? { assert [] + source.value == source.value; }
  }

  /** After an activation the query path and the query-time decision give the same outcome. */
  method DecideActive(d: RuleDecider, db: Database, raw: string, key: string) returns (ruling: Ruling)
    requires Active(d, db) && Plain(d.lib, db) && FilterName(d.lib, raw) != "" && SameName(d.lib, raw)
    ensures ServiceAnswer(d.lib, db, raw, Address(key)).Answered?
    ensures SameOutcome(ServiceAnswer(d.lib, db, raw, Address(key)).decision, ruling)
  {
    ruling := d.Decide(raw, key);
    AgreementExactly(d.lib, raw);
    hide SameOutcome, Scan, SnapshotRuling, ServiceAnswer, Mirrors, Plain;
    assert Agree(d.lib, db, d.current.value, raw, key);
  }
}
