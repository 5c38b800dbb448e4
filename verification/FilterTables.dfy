/**
 * The filter tables of the database and the joins that the decisions read.
 * Rows are kept in id order, links in group order.
 */
module FilterTables {
  import opened Options
  import opened Text
  import opened Domains
  import opened Numbers

  datatype ListRow = ListRow(id: int, allow: bool, enabled: bool, lastUpdated: int, lastError: string)
  datatype EntryRow = EntryRow(id: int, listId: int, pattern: string, kind: Kind, enabled: bool)
  datatype RuleRow = RuleRow(id: int, pattern: string, allow: bool, kind: Kind, enabled: bool)
  datatype ClientRow = ClientRow(id: int, address: string, enabled: bool)
  datatype GroupRow = GroupRow(id: int, enabled: bool)
  datatype Link = Link(owner: int, group: int)

  datatype Database = Database(
    lists: seq<ListRow>,
    entries: seq<EntryRow>,
    rules: seq<RuleRow>,
    clients: seq<ClientRow>,
    groups: seq<GroupRow>,
    listGroups: seq<Link>,
    ruleGroups: seq<Link>,
    clientGroups: seq<Link>)

  /** A rule or an entry once for each group that it is meant for; group 0 is everybody. */
  datatype ScopedRule = ScopedRule(rule: RuleRow, group: int)
  datatype ScopedEntry = ScopedEntry(entry: EntryRow, allow: bool, enabled: bool, group: int)

  /** The groups a left join finds for an owner, or the one that stands for none. */
  function GroupsOf(links: seq<Link>, owner: int): seq<int> {
    if links == [] then []
    else (if links[0].owner == owner then [links[0].group] else []) + GroupsOf(links[1..], owner)
  }

  function JoinedGroups(links: seq<Link>, owner: int): seq<int> {
    var groups := GroupsOf(links, owner);
    if groups == [] then [0] else groups
  }

  function RuleInGroups(rule: RuleRow, groups: seq<int>): seq<ScopedRule> {
    seq(|groups|, i requires 0 <= i < |groups| => ScopedRule(rule, groups[i]))
  }

  function DecisionRules(rules: seq<RuleRow>, links: seq<Link>): seq<ScopedRule> {
    if rules == [] then []
    else RuleInGroups(rules[0], JoinedGroups(links, rules[0].id)) + DecisionRules(rules[1..], links)
  }

  function EntryInGroups(list: ListRow, entry: EntryRow, groups: seq<int>): seq<ScopedEntry> {
    seq(|groups|, i requires 0 <= i < |groups| => ScopedEntry(entry, list.allow, entry.enabled && list.enabled, groups[i]))
  }

  function EntriesOfList(list: ListRow, entries: seq<EntryRow>, groups: seq<int>): seq<ScopedEntry> {
    if entries == [] then []
    else (if entries[0].listId == list.id then EntryInGroups(list, entries[0], groups) else [])
         + EntriesOfList(list, entries[1..], groups)
  }

  function DecisionEntries(lists: seq<ListRow>, entries: seq<EntryRow>, links: seq<Link>): seq<ScopedEntry> {
    if lists == [] then []
    else EntriesOfList(lists[0], entries, JoinedGroups(links, lists[0].id)) + DecisionEntries(lists[1..], entries, links)
  }

  /** What one list hands to the blocklist. */
  function ListContribution(list: ListRow, entries: seq<EntryRow>): seq<Entry> {
    if entries == [] then []
    else
      var e := entries[0];
      (if e.listId == list.id && e.enabled && list.enabled && !e.kind.Regex?
       then [Entry(e.pattern, e.kind, list.allow, "filter_list:" + Decimal(list.id))] else [])
      + ListContribution(list, entries[1..])
  }

  function BlocklistEntries(lists: seq<ListRow>, entries: seq<EntryRow>): seq<Entry> {
    if lists == [] then [] else ListContribution(lists[0], entries) + BlocklistEntries(lists[1..], entries)
  }

  /** The enabled groups of the enabled clients with the address. */
  function ClientGroups(db: Database, address: string): set<int> {
    set i, j, k |
      && 0 <= i < |db.clientGroups| && 0 <= j < |db.clients| && 0 <= k < |db.groups|
      && db.clients[j].address == address && db.clients[j].enabled
      && db.clientGroups[i].owner == db.clients[j].id
      && db.groups[k].id == db.clientGroups[i].group && db.groups[k].enabled
      :: db.clientGroups[i].group
  }

  /** A client that is unknown or switched off belongs to no group. */
  lemma NobodyHasNoGroups(db: Database, address: string)
    requires forall c :: c in db.clients && c.enabled ==> c.address != address
    ensures ClientGroups(db, address) == {}
  {
  }

  // ------------------------------------------------------- what the joins hold

  lemma {:induction false} ListContributionHas(list: ListRow, entries: seq<EntryRow>, e: Entry)
    ensures e in ListContribution(list, entries) <==>
            exists r :: r in entries && Contributes(list, r, e)
  {
    if entries != [] {
      ListContributionHas(list, entries[1..], e);
      assert entries[0] in entries;
    }
  }

  predicate Contributes(list: ListRow, r: EntryRow, e: Entry) {
    && r.listId == list.id && r.enabled && list.enabled && !r.kind.Regex?
    && e == Entry(r.pattern, r.kind, list.allow, "filter_list:" + Decimal(list.id))
  }

  /** The blocklist gets exactly the enabled plain entries of the enabled lists. */
  lemma {:induction false} BlocklistHas(lists: seq<ListRow>, entries: seq<EntryRow>, e: Entry)
    ensures e in BlocklistEntries(lists, entries) <==>
            exists l, r :: l in lists && r in entries && Contributes(l, r, e)
  {
    if lists != [] {
      ListContributionHas(lists[0], entries, e);
      BlocklistHas(lists[1..], entries, e);
      assert lists[0] in lists;
    }
  }

  predicate Scopes(list: ListRow, r: EntryRow, s: ScopedEntry) {
    && r.listId == list.id
    && s == ScopedEntry(r, list.allow, r.enabled && list.enabled, 0)
  }

  lemma {:induction false} EntriesOfListHas(list: ListRow, entries: seq<EntryRow>, s: ScopedEntry)
    ensures s in EntriesOfList(list, entries, [0]) <==> exists r :: r in entries && Scopes(list, r, s)
  {
    if entries != [] {
      EntriesOfListHas(list, entries[1..], s);
      assert entries[0] in entries;
      assert EntryInGroups(list, entries[0], [0]) == [ScopedEntry(entries[0], list.allow, entries[0].enabled && list.enabled, 0)];
    }
  }

  /** Without list groups the decision reads every entry once, for everybody. */
  lemma {:induction false} DecisionEntriesHas(lists: seq<ListRow>, entries: seq<EntryRow>, s: ScopedEntry)
    ensures s in DecisionEntries(lists, entries, []) <==> exists l, r :: l in lists && r in entries && Scopes(l, r, s)
  {
    if lists != [] {
      EntriesOfListHas(lists[0], entries, s);
      DecisionEntriesHas(lists[1..], entries, s);
      assert lists[0] in lists;
    }
  }
}
