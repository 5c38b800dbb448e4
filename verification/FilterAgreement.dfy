/**
 * The two forms of the filter decision compared. They agree on a query in every
 * state of the tables exactly when both see the same name, or no name that a
 * list could hold.
 */
module FilterAgreement {
  import opened Options
  import opened Text
  import opened Domains
  import opened Numbers
  import opened BlocklistMatcher
  import opened FilterTables
  import opened FilterDecisions
  import opened RuleDecider

  /** Tables as the imports fill them: plain entries of list domains, and lists for everybody. */
  ghost predicate Plain(lib: Library, db: Database) {
    && db.listGroups == []
    && forall r :: r in db.entries ==> ListDomain(lib, r.pattern) && !r.kind.Regex?
  }

  function ListedEntries(db: Database): seq<Entry> {
    BlocklistEntries(db.lists, db.entries)
  }

  /** Same block, same rule. */
  predicate SameOutcome(d: Decision, r: Ruling) {
    (d.action.Denied? <==> r.action.Denied?) && d.ruleId == r.ruleId
  }

  /** Reload and then decide, against deciding from the tables, for one client. */
  ghost predicate Agree(lib: Library, db: Database, s: Snapshot, raw: string, key: string) {
    var answer := ServiceAnswer(lib, db, raw, Address(key));
    answer.Answered? && SameOutcome(answer.decision, SnapshotRuling(lib, s, Scan(lib, ListedEntries(db), raw), raw, key))
  }

  /** A list may hold the name or something above it. */
  predicate MayBeListed(lib: Library, name: string) {
    ListDomain(lib, name) || exists i :: 0 <= i < |name| && name[i] == '.' && ListDomain(lib, name[i + 1..])
  }

  /** The condition on a query, which a caller can check. */
  predicate SameName(lib: Library, raw: string) {
    var filtered, blocked := FilterName(lib, raw), NormalName(lib, raw);
    || blocked == Some(filtered)
    || (!MayBeListed(lib, filtered) && (blocked.Some? ==> !MayBeListed(lib, blocked.value)))
  }

  // --------------------------------------------------------------- list entries

  lemma DomainAsPattern(lib: Library, domain: string)
    requires ListDomain(lib, domain)
    ensures FilterName(lib, domain) == domain && FilterName(lib, TrimPrefix(domain, "*.")) == domain
  {
    ValidText(lib, domain);
    ValidIsNormal(lib, domain);
    assert NameChar(domain[0]) && "*."[0] == '*' && "."[0] == '.';
  }

  /** On a list domain the two readings of an entry are the same. */
  lemma EntryReadAlike(lib: Library, r: EntryRow, e: Entry, name: string)
    requires ListDomain(lib, r.pattern) && !r.kind.Regex? && e.domain == r.pattern && e.kind == r.kind
    ensures PatternMatches(lib, name, r.pattern, r.kind) <==> Accepts(lib, e, name)
  {
    DomainAsPattern(lib, r.pattern);
    ListDomainIsStored(lib, e);
  }

  lemma {:induction false} FirstEntryExists(lib: Library, entries: seq<ScopedEntry>, groups: set<int>, name: string, allow: bool)
    ensures FirstEntry(lib, entries, groups, name, allow).Some? <==>
            exists s :: s in entries && EntryApplies(lib, s, groups, name, allow)
    ensures FirstEntry(lib, entries, groups, name, allow).Some? ==>
            EntryApplies(lib, FirstEntry(lib, entries, groups, name, allow).value, groups, name, allow)
  {
    if entries != [] {
      FirstEntryExists(lib, entries[1..], groups, name, allow);
      assert entries[0] in entries;
    }
  }

  lemma AppliesToAccepts(lib: Library, db: Database, groups: set<int>, name: string, allow: bool, s: ScopedEntry)
    requires Plain(lib, db) && s in DecisionEntries(db.lists, db.entries, db.listGroups)
    requires EntryApplies(lib, s, groups, name, allow)
    ensures AnyAccepts(lib, ListedEntries(db), allow, name)
  {
    DecisionEntriesHas(db.lists, db.entries, s);
    var l, r :| l in db.lists && r in db.entries && Scopes(l, r, s);
    var e := Entry(r.pattern, r.kind, l.allow, "filter_list:" + Decimal(l.id));
    assert Contributes(l, r, e);
    BlocklistHas(db.lists, db.entries, e);
    EntryReadAlike(lib, r, e, name);
  }

  lemma AcceptsToApplies(lib: Library, db: Database, groups: set<int>, name: string, allow: bool)
    requires Plain(lib, db) && AnyAccepts(lib, ListedEntries(db), allow, name)
    ensures exists s :: s in DecisionEntries(db.lists, db.entries, db.listGroups) && EntryApplies(lib, s, groups, name, allow)
  {
    var i :| 0 <= i < |ListedEntries(db)| && ListedEntries(db)[i].allow == allow && Accepts(lib, ListedEntries(db)[i], name);
    var e := ListedEntries(db)[i];
    BlocklistHas(db.lists, db.entries, e);
    var l, r :| l in db.lists && r in db.entries && Contributes(l, r, e);
    EntryReadAlike(lib, r, e, name);
    var s := ScopedEntry(r, l.allow, true, 0);
    assert Scopes(l, r, s);
    DecisionEntriesHas(db.lists, db.entries, s);
  }

  /** So the lists answer the query-time decision as a scan of what the blocklist was built from. */
  lemma ListsReadAlike(lib: Library, db: Database, groups: set<int>, name: string, allow: bool)
    requires Plain(lib, db)
    ensures FirstEntry(lib, DecisionEntries(db.lists, db.entries, db.listGroups), groups, name, allow).Some? <==>
            AnyAccepts(lib, ListedEntries(db), allow, name)
  {
    var entries := DecisionEntries(db.lists, db.entries, db.listGroups);
    FirstEntryExists(lib, entries, groups, name, allow);
    if s :| s in entries && EntryApplies(lib, s, groups, name, allow) {
      AppliesToAccepts(lib, db, groups, name, allow, s);
    }
    if AnyAccepts(lib, ListedEntries(db), allow, name) {
      AcceptsToApplies(lib, db, groups, name, allow);
    }
  }

  // ------------------------------------------------------------------ agreement

  lemma MayBeListedMeans(lib: Library, name: string)
    ensures MayBeListed(lib, name) <==> exists d :: ListDomain(lib, d) && Under(name, d)
  {
    if ListDomain(lib, name) { assert Under(name, name); }
    hide ListDomain, Under;
    if i :| 0 <= i < |name| && name[i] == '.' && ListDomain(lib, name[i + 1..]) {
      TailIsAbove(name, i);
    }
    if d :| ListDomain(lib, d) && Under(name, d) && name != d {
      var i := AboveIsTail(name, d);
    }
  }

  /** No list entry accepts a name under no list domain. */
  lemma UnlistedIsNotAccepted(lib: Library, db: Database, name: string, allow: bool)
    requires Plain(lib, db) && !MayBeListed(lib, name)
    ensures !AnyAccepts(lib, ListedEntries(db), allow, name)
  {
    if i :| 0 <= i < |ListedEntries(db)| && ListedEntries(db)[i].allow == allow && Accepts(lib, ListedEntries(db)[i], name) {
      StoredFormIsFixed(lib, ListedEntries(db)[i]);
      MayBeListedMeans(lib, name);
    }
  }

  /** What the list stage decides, as both forms see it. */
  ghost predicate SameLists(lib: Library, db: Database, raw: string) {
    var name := FilterName(lib, raw);
    var verdict := Scan(lib, ListedEntries(db), raw);
    && (verdict.AllowMatch? <==> AnyAccepts(lib, ListedEntries(db), true, name))
    && (verdict.DenyMatch? <==> !AnyAccepts(lib, ListedEntries(db), true, name) && AnyAccepts(lib, ListedEntries(db), false, name))
  }

  lemma SameNameSameLists(lib: Library, db: Database, raw: string)
    requires Plain(lib, db) && SameName(lib, raw)
    ensures SameLists(lib, db, raw)
  {
    var filtered, blocked := FilterName(lib, raw), NormalName(lib, raw);
    if blocked != Some(filtered) {
      forall allow ensures !AnyAccepts(lib, ListedEntries(db), allow, filtered) {
        UnlistedIsNotAccepted(lib, db, filtered, allow);
      }
      if blocked.Some? {
        forall allow ensures !AnyAccepts(lib, ListedEntries(db), allow, blocked.value) {
          UnlistedIsNotAccepted(lib, db, blocked.value, allow);
        }
      }
    }
  }

  /** With the list stages alike, everything is alike. */
  lemma StagesAgree(lib: Library, db: Database, s: Snapshot, raw: string, key: string)
    requires Plain(lib, db) && Mirrors(lib, s, db) && FilterName(lib, raw) != "" && SameLists(lib, db, raw)
    ensures Agree(lib, db, s, raw, key)
  {
    var name := FilterName(lib, raw);
    var groups := ClientGroups(db, key);
    assert SnapshotGroups(s, key) == groups;
    ListsReadAlike(lib, db, groups, name, true);
    ListsReadAlike(lib, db, groups, name, false);
    ListedAs(lib, DecisionEntries(db.lists, db.entries, db.listGroups), groups, name);
    hide FirstEntry, FirstRule, AnyAccepts, Scan, FilterName, ClientGroups, DecisionRules, DecisionEntries, StrongRules, WeakRules;
    hide Plain, RuleReason;
  }

  lemma ListedAs(lib: Library, entries: seq<ScopedEntry>, groups: set<int>, name: string)
    ensures forall allow :: var e := FirstEntry(lib, entries, groups, name, allow); e.Some? ==> e.value.allow == allow
  {
    forall allow {
      FirstEntryExists(lib, entries, groups, name, allow);
    }
  }

  // --------------------------------------------------------------- disagreement

  lemma {:induction false} TrimLeftDot(lib: Library, s: string)
    requires exists i :: 0 <= i < |s| && !lib.space(s[i])
    ensures TrimLeft(lib, s + ".") == TrimLeft(lib, s) + "."
  {
    assert (s + ".")[0] == s[0];
    if lib.space(s[0]) {
      var i :| 0 <= i < |s| && !lib.space(s[i]);
      assert s[1..][i - 1] == s[i] && (s + ".")[1..] == s[1..] + ".";
      TrimLeftDot(lib, s[1..]);
    }
  }

  lemma {:induction false} AllSpaceDot(lib: Library, s: string)
    requires forall i :: 0 <= i < |s| ==> lib.space(s[i])
    ensures TrimLeft(lib, s + ".") == "." && NormalText(lib, s + ".") == ""
  {
    assert Lower(lib, ".") == "." && TrimSpace(lib, ".") == ".";
    if s == "" {
      assert s + "." == ".";
    } else {
      assert (s + ".")[1..] == s[1..] + ".";
      AllSpaceDot(lib, s[1..]);
    }
  }

  lemma LowerAppend(lib: Library, s: string, t: string)
    ensures Lower(lib, s + t) == Lower(lib, s) + Lower(lib, t)
  {
  }

  /** Before the trimming of dots, the blocklist sees the name of the filter, or one more dot. */
  lemma NamesDifferByDots(lib: Library, raw: string)
    requires NormalName(lib, raw).Some?
    ensures NormalText(lib, raw) == TrimDots(FilterName(lib, raw))
  {
    if HasSuffix(raw, ".") {
      var front := TrimSuffix(raw, ".");
      assert raw == front + ".";
      if i :| 0 <= i < |front| && !lib.space(front[i]) {
        TrimLeftDot(lib, front);
        OneDotMore(lib, raw, TrimLeft(lib, front));
      } else {
        AllSpaceDot(lib, front);
      }
    }
  }

  lemma OneDotMore(lib: Library, raw: string, text: string)
    requires NormalName(lib, raw).Some? && TrimLeft(lib, raw) == text + "."
    ensures NormalText(lib, raw) == TrimDots(Lower(lib, TrimRight(lib, text)))
  {
    var name := NormalText(lib, raw);
    assert (text + ".")[|text|] == '.' && TrimSpace(lib, raw) == text + ".";
    LowerAppend(lib, text, ".");
    assert Lower(lib, ".") == ".";
    var lowered := Lower(lib, text);
    assert (lowered + ".")[..|lowered|] == lowered && (lowered + ".")[|lowered|] == '.';
    assert TrimDots(lowered + ".") == TrimDots(lowered);
    assert name == TrimDots(lowered);
    ValidText(lib, name);
    NameTextIsLower(lib, name);
    SpaceStopsDots(lib, lowered);
  }

  lemma SpaceStopsDots(lib: Library, s: string)
    ensures s != "" && lib.space(s[|s| - 1]) ==> TrimDots(s) == s
  {
    assert !lib.space('.');
  }

  lemma DottedIsUnlisted(lib: Library, name: string)
    requires name != "" && name[|name| - 1] == '.'
    ensures !MayBeListed(lib, name)
  {
    DottedIsInvalid(lib, name);
    forall i | 0 <= i < |name| && name[i] == '.' ensures !ListDomain(lib, name[i + 1..]) {
      assert name[i + 1..] != "" ==> name[i + 1..][|name[i + 1..]| - 1] == name[|name| - 1];
      DottedIsInvalid(lib, name[i + 1..]);
    }
  }

  lemma DottedIsInvalid(lib: Library, s: string)
    requires s != "" ==> s[|s| - 1] == '.'
    ensures !ListDomain(lib, s)
  {
    if ListDomain(lib, s) {
      ValidText(lib, s);
    }
  }

  /** If the two names differ, the filter's keeps a dot at the end, and so is under no list domain. */
  lemma DifferentIsUnlisted(lib: Library, raw: string)
    requires FilterName(lib, raw) != "" && NormalName(lib, raw).Some? && NormalName(lib, raw).value != FilterName(lib, raw)
    ensures !MayBeListed(lib, FilterName(lib, raw))
  {
    NamesDifferByDots(lib, raw);
    DottedIsUnlisted(lib, FilterName(lib, raw));
  }

  /** Tables with one deny list, which holds one domain and everything below. */
  function OneDomain(domain: string): Database {
    Database([ListRow(1, false, true, 0, "")], [EntryRow(1, 1, domain, Suffix, true)], [], [], [], [], [], [])
  }

  lemma OneDomainSees(lib: Library, domain: string, name: string)
    requires ListDomain(lib, domain)
    ensures Plain(lib, OneDomain(domain))
    ensures !AnyAccepts(lib, ListedEntries(OneDomain(domain)), true, name)
    ensures AnyAccepts(lib, ListedEntries(OneDomain(domain)), false, name) <==> Under(name, domain)
  {
    var db := OneDomain(domain);
    var e := Entry(domain, Suffix, false, "filter_list:" + Decimal(1));
    assert db.lists[1..] == [] && db.entries[1..] == [];
    assert BlocklistEntries(db.lists[1..], db.entries) == [] && ListContribution(db.lists[0], db.entries[1..]) == [];
    assert ListedEntries(db) == [e];
    ListDomainIsStored(lib, e);
    assert [e][0] == e;
  }

  /** The snapshot of tables without rules and clients. */
  lemma NoRulesMirrored(lib: Library, domain: string)
    ensures Mirrors(lib, Snapshot([], map[], map[]), OneDomain(domain))
  {
  }

  lemma ServiceWithoutRules(lib: Library, db: Database, raw: string, key: string)
    requires Plain(lib, db) && db.rules == [] && FilterName(lib, raw) != ""
    requires !AnyAccepts(lib, ListedEntries(db), true, FilterName(lib, raw))
    ensures ServiceAnswer(lib, db, raw, Address(key)).Answered?
    ensures ServiceAnswer(lib, db, raw, Address(key)).decision.action.Denied? <==>
            AnyAccepts(lib, ListedEntries(db), false, FilterName(lib, raw))
  {
    var name := FilterName(lib, raw);
    var groups := ClientGroups(db, key);
    ListsReadAlike(lib, db, groups, name, true);
    ListsReadAlike(lib, db, groups, name, false);
    ListedAs(lib, DecisionEntries(db.lists, db.entries, db.listGroups), groups, name);
    NoRules(lib, groups, name);
    assert DecisionRules(db.rules, db.ruleGroups) == [];
    hide FirstEntry, AnyAccepts, FilterName, DecisionEntries, ListedEntries, StrongRules, WeakRules;
  }

  lemma SnapshotWithoutRules(lib: Library, verdict: Verdict, raw: string, key: string)
    ensures SnapshotRuling(lib, Snapshot([], map[], map[]), verdict, raw, key) == FallbackRuling(verdict)
  {
    NoRules(lib, {}, FilterName(lib, raw));
  }

  /** What is left of the two decisions when there are no rules. */
  lemma OneDomainOutcome(lib: Library, domain: string, raw: string, key: string)
    requires ListDomain(lib, domain) && FilterName(lib, raw) != ""
    requires Agree(lib, OneDomain(domain), Snapshot([], map[], map[]), raw, key)
    ensures Under(FilterName(lib, raw), domain) <==>
            NormalName(lib, raw).Some? && Under(NormalName(lib, raw).value, domain)
  {
    var db := OneDomain(domain);
    OneDomainSees(lib, domain, FilterName(lib, raw));
    ServiceWithoutRules(lib, db, raw, key);
    SnapshotWithoutRules(lib, Scan(lib, ListedEntries(db), raw), raw, key);
    hide AnyAccepts, FilterName, ListedEntries, Under, ListDomain, ServiceAnswer, SnapshotRuling, NormalName;
    if NormalName(lib, raw).Some? {
      OneDomainSees(lib, domain, NormalName(lib, raw).value);
    }
  }

  lemma NoRules(lib: Library, groups: set<int>, name: string)
    ensures StrongRules(lib, [], groups, name).None? && WeakRules(lib, [], groups, name).None?
  {
  }

  ghost predicate AgreesAlways(lib: Library, raw: string) {
    forall db, s, key :: Plain(lib, db) && Mirrors(lib, s, db) ==> Agree(lib, db, s, raw, key)
  }

  lemma DisagreesSomewhere(lib: Library, raw: string)
    requires FilterName(lib, raw) != "" && !SameName(lib, raw)
    ensures !AgreesAlways(lib, raw)
  {
    var filtered, blocked := FilterName(lib, raw), NormalName(lib, raw);
    if blocked.Some? { DifferentIsUnlisted(lib, raw); }
    var seen := if MayBeListed(lib, filtered) then filtered else blocked.value;
    MayBeListedMeans(lib, seen);
    var domain :| ListDomain(lib, domain) && Under(seen, domain);
    MayBeListedMeans(lib, filtered);
    OneDomainSees(lib, domain, seen);
    NoRulesMirrored(lib, domain);
    hide SameName, MayBeListed, FilterName, Mirrors, Plain, Agree;
    if AgreesAlways(lib, raw) {
      assert Agree(lib, OneDomain(domain), Snapshot([], map[], map[]), raw, "");
      OneDomainOutcome(lib, domain, raw, "");
    }
  }

  /**
   * For every query that names something: block and rule are the same in every
   * state of plain tables, for every client, if and only if both forms see the
   * same name or neither sees one that a list may hold.
   */
  lemma AgreementExactly(lib: Library, raw: string)
    requires FilterName(lib, raw) != ""
    ensures AgreesAlways(lib, raw) <==> SameName(lib, raw)
  {
    if SameName(lib, raw) {
      forall db, s, key | Plain(lib, db) && Mirrors(lib, s, db) ensures Agree(lib, db, s, raw, key) {
        SameNameSameLists(lib, db, raw);
        StagesAgree(lib, db, s, raw, key);
      }
    } else {
      DisagreesSomewhere(lib, raw);
    }
  }

  /** In particular for every valid domain name, in either case, with or without its final dot. */
  lemma ValidNamesAgree(lib: Library, domain: string, raw: string)
    requires ValidDomain(lib, domain) && Lower(lib, raw) in {domain, domain + "."}
    ensures FilterName(lib, raw) == domain && SameName(lib, raw)
  {
    ValidText(lib, domain);
    ValidIsNormal(lib, domain);
    NameTextIsLower(lib, domain);
    if Lower(lib, raw) == domain {
      PlainName(lib, domain, raw);
    } else {
      var front := raw[..|domain|];
      assert (domain + ".")[..|domain|] == domain;
      assert Lower(lib, front) == domain;
      DottedName(lib, domain, raw, front);
    }
  }

  /** Text that lowers to a valid domain has no space to trim. */
  lemma LowersTight(lib: Library, domain: string, raw: string)
    requires ValidDomain(lib, domain) && Lower(lib, raw) == domain
    ensures raw != "" && Tight(lib, raw) && !HasSuffix(raw, ".")
  {
    ValidText(lib, domain);
    NameTextIsLower(lib, domain);
    assert forall i :: 0 <= i < |raw| ==> lib.space(raw[i]) == lib.space(domain[i]);
    LastDot(lib, raw);
  }

  lemma PlainName(lib: Library, domain: string, raw: string)
    requires ValidDomain(lib, domain) && Lower(lib, raw) == domain
    ensures FilterName(lib, raw) == domain && NormalName(lib, raw) == Some(domain)
  {
    LowersTight(lib, domain, raw);
    TightIsTrimmed(lib, raw);
    ValidIsNormal(lib, domain);
  }

  lemma DottedName(lib: Library, domain: string, raw: string, front: string)
    requires ValidDomain(lib, domain) && Lower(lib, raw) == domain + "." && |raw| == |front| + 1
    requires front == raw[..|front|] && Lower(lib, front) == domain
    ensures FilterName(lib, raw) == domain && NormalName(lib, raw) == Some(domain)
  {
    LowersTight(lib, domain, front);
    var n := |front|;
    assert (domain + ".")[n] == '.' && (domain + ".")[..n] == domain;
    LastDot(lib, raw);
    assert raw[n] == raw[|raw| - 1] == '.';
    assert lib.space(raw[n]) == false;
    TightIsTrimmed(lib, front);
    TightIsTrimmed(lib, raw);
    assert TrimDots(domain + ".") == TrimDots(domain);
    ValidIsNormal(lib, domain);
  }

  lemma LastDot(lib: Library, raw: string)
    requires raw != ""
    ensures lib.lower(raw[|raw| - 1]) == '.' <==> raw[|raw| - 1] == '.'
    ensures HasSuffix(raw, ".") <==> raw[|raw| - 1] == '.'
  {
  }
}
