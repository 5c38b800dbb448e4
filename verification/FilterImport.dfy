/**
 * The import of a subscribed list: parsed text is validated, stripped of
 * repeats and put in the place of the old entries, or nothing changes.
 */
module FilterImport {
  import opened Options
  import opened Text
  import opened Domains
  import opened ListParser
  import opened ListRoundTrip
  import opened FilterTables
  import opened Thinning

  datatype ListEntry = ListEntry(listId: int, pattern: string, kind: Kind, enabled: bool)

  function NormalPattern(lib: Library, pattern: string, kind: Kind): Option<string> {
    var text := TrimSpace(lib, TrimSuffix(pattern, "."));
    if text == "" then None
    else if kind.Regex? then (if lib.compiles(text) then Some(text) else None)
    else Some(Lower(lib, text))
  }

  function Validated(lib: Library, e: ListEntry): Option<ListEntry> {
    if e.listId <= 0 then None
    else
      var pattern := NormalPattern(lib, e.pattern, e.kind);
      if pattern.Some? then Some(e.(pattern := pattern.value)) else None
  }

  // -------------------------------------------------------------- the import loop

  function Candidate(lib: Library, listId: int, e: Entry): Option<ListEntry> {
    if e.kind.Regex? then None else Validated(lib, ListEntry(listId, e.domain, e.kind, true))
  }

  /** The entries worth storing, each once, at its first place. */
  function Imported(lib: Library, listId: int, parsed: seq<Entry>): seq<ListEntry> {
    if parsed == [] then []
    else
      var front := Imported(lib, listId, parsed[..|parsed| - 1]);
      var last := Candidate(lib, listId, parsed[|parsed| - 1]);
      if last.Some? && last.value !in front then front + [last.value] else front
  }

  datatype SourceOutcome = SourceUnavailable | SourceText(lines: seq<string>, stopsAt: Option<nat>)

  /** What an import of the text comes to; an import without a single entry is an error. */
  function ImportResult(lib: Library, listId: int, source: string, outcome: SourceOutcome): Option<seq<ListEntry>> {
    match outcome
    case SourceUnavailable => None
    case SourceText(lines, stopsAt) =>
      var entries := Imported(lib, listId, TextEntries(lib, lines, source));
      if (stopsAt.Some? && stopsAt.value <= |lines|) || entries == [] then None else Some(entries)
  }

  method ImportListEntries(lib: Library, listId: int, source: string, outcome: SourceOutcome) returns (r: Option<seq<ListEntry>>)
    ensures r == ImportResult(lib, listId, source, outcome)
  {
    if outcome.SourceUnavailable? { return None; }
    var parsed := Parse(lib, outcome.lines, source, outcome.stopsAt);
    if parsed.None? { return None; }
    var entries := ValidateParsed(lib, listId, parsed.value);
    r := if |entries| == 0 then None else Some(entries);
  }

  method ValidateParsed(lib: Library, listId: int, parsed: seq<Entry>) returns (entries: seq<ListEntry>)
    ensures entries == Imported(lib, listId, parsed)
  {
    entries := [];
    var seen: set<(Kind, string)> := {};
    hide Validated, Imported;
    ImportedNone(lib, listId);
    for i := 0 to |parsed|
      invariant entries == Imported(lib, listId, parsed[..i])
      invariant forall e :: e in entries ==> (e.kind, e.pattern) in seen && e.listId == listId && e.enabled
      invariant forall key :: key in seen ==> ListEntry(listId, key.1, key.0, true) in entries
    {
      ImportedNext(lib, listId, parsed, i);
      var entry := parsed[i];
      if entry.kind.Regex? { continue; }
      var valid := Validated(lib, ListEntry(listId, entry.domain, entry.kind, true));
      if valid.None? { continue; }
      ValidatedKeeps(lib, ListEntry(listId, entry.domain, entry.kind, true));
      if (valid.value.kind, valid.value.pattern) in seen { continue; }
      seen := seen + {(valid.value.kind, valid.value.pattern)};
      entries := entries + [valid.value];
    }
    assert parsed[..|parsed|] == parsed;
  }

  lemma ImportedNone(lib: Library, listId: int)
    ensures Imported(lib, listId, []) == []
  {
  }

  lemma ImportedNext(lib: Library, listId: int, parsed: seq<Entry>, i: nat)
    requires i < |parsed|
    ensures var front := Imported(lib, listId, parsed[..i]);
            var next := Candidate(lib, listId, parsed[i]);
            Imported(lib, listId, parsed[..i + 1]) == if next.Some? && next.value !in front then front + [next.value] else front
  {
    assert parsed[..i + 1][..i] == parsed[..i];
  }

  lemma ValidatedKeeps(lib: Library, e: ListEntry)
    ensures Validated(lib, e).Some? ==> Validated(lib, e).value == e.(pattern := Validated(lib, e).value.pattern)
  {
  }

  // -------------------------------------------------------------------- the table

  predicate SameKey(r: EntryRow, e: ListEntry) {
    r.listId == e.listId && r.pattern == e.pattern && r.kind == e.kind
  }

  function WithoutList(rows: seq<EntryRow>, listId: int): seq<EntryRow> {
    if rows == [] then []
    else (if rows[0].listId == listId then [] else [rows[0]]) + WithoutList(rows[1..], listId)
  }

  /** An insert that leaves an existing row of the same list, pattern and kind alone. */
  function Inserted(rows: seq<EntryRow>, nextId: int, e: ListEntry): seq<EntryRow> {
    if exists i :: 0 <= i < |rows| && SameKey(rows[i], e) then rows
    else rows + [EntryRow(nextId, e.listId, e.pattern, e.kind, e.enabled)]
  }

  /** Ids are never used twice, so they are handed out from the last one given. */
  function NextId(rows: seq<EntryRow>, rows': seq<EntryRow>, nextId: int): int {
    nextId + |rows'| - |rows|
  }

  function InsertedAll(rows: seq<EntryRow>, nextId: int, entries: seq<ListEntry>): seq<EntryRow> {
    if entries == [] then rows
    else
      var front := InsertedAll(rows, nextId, entries[..|entries| - 1]);
      Inserted(front, NextId(rows, front, nextId), entries[|entries| - 1])
  }

  function Replaced(rows: seq<EntryRow>, nextId: int, listId: int, entries: seq<ListEntry>): seq<EntryRow> {
    InsertedAll(WithoutList(rows, listId), nextId, entries)
  }

  function Touched(lists: seq<ListRow>, listId: int, updated: Option<int>, error: string): seq<ListRow> {
    if lists == [] then []
    else
      var l := lists[0];
      [if l.id == listId
       then l.(lastUpdated := if updated.Some? then updated.value else l.lastUpdated, lastError := error)
       else l]
      + Touched(lists[1..], listId, updated, error)
  }

  /** The list gets its time, if there is one, and its error text; no other list changes. */
  ghost predicate OnlyTouched(before: seq<ListRow>, after: seq<ListRow>, listId: int, updated: Option<int>, error: string) {
    && |after| == |before|
    && forall i :: 0 <= i < |before| ==>
         var l := before[i];
         after[i] == if l.id == listId
                     then ListRow(l.id, l.allow, l.enabled, if updated.Some? then updated.value else l.lastUpdated, error)
                     else l
  }

  lemma {:induction false} TouchedMeans(lists: seq<ListRow>, listId: int, updated: Option<int>, error: string)
    ensures OnlyTouched(lists, Touched(lists, listId, updated, error), listId, updated, error)
  {
    if lists != [] {
      TouchedMeans(lists[1..], listId, updated, error);
    }
  }

  predicate HasList(lists: seq<ListRow>, listId: int) {
    exists i :: 0 <= i < |lists| && lists[i].id == listId
  }

  /** Every entry as the store would write it, if all of them are valid. */
  function AllValidated(lib: Library, listId: int, entries: seq<ListEntry>): Option<seq<ListEntry>> {
    if entries == [] then Some([])
    else
      var front := AllValidated(lib, listId, entries[..|entries| - 1]);
      var last := Validated(lib, entries[|entries| - 1].(listId := listId));
      if front.Some? && last.Some? then Some(front.value + [last.value]) else None
  }

  datatype RefreshOutcome = Refreshed | ImportFailed | StoreFailed | NoSuchList

  class FilterStore {
    const lib: Library
    var lists: seq<ListRow>
    var entries: seq<EntryRow>
    var nextId: int

    constructor (lib: Library, lists: seq<ListRow>, entries: seq<EntryRow>, nextId: int)
      ensures this.lib == lib && this.lists == lists && this.entries == entries && this.nextId == nextId
    {
      this.lib := lib;
      this.lists := lists;
      this.entries := entries;
      this.nextId := nextId;
    }

    method Validate(listId: int, given: seq<ListEntry>) returns (valid: Option<seq<ListEntry>>)
      ensures valid == AllValidated(lib, listId, given)
    {
      var done := [];
      for i := 0 to |given|
        invariant AllValidated(lib, listId, given[..i]) == Some(done)
      {
        assert given[..i + 1][..i] == given[..i];
        var entry := Validated(lib, given[i].(listId := listId));
        if entry.None? {
          InvalidStays(lib, listId, given, i);
          return None;
        }
        done := done + [entry.value];
      }
      assert given[..|given|] == given;
      valid := Some(done);
    }

    static method InsertRows(kept: seq<EntryRow>, nextId: int, valid: seq<ListEntry>, failAt: Option<nat>)
        returns (ok: bool, rows: seq<EntryRow>)
      ensures ok <==> failAt.None? || failAt.value >= |valid|
      ensures ok ==> rows == InsertedAll(kept, nextId, valid)
    {
      rows := kept;
      for i := 0 to |valid|
        invariant rows == InsertedAll(kept, nextId, valid[..i])
        invariant failAt.Some? ==> failAt.value >= i
      {
        if failAt == Some(i) { return false, rows; }
        assert valid[..i + 1][..i] == valid[..i];
        rows := Inserted(rows, NextId(kept, rows, nextId), valid[i]);
      }
      assert valid[..|valid|] == valid;
      ok := true;
    }

    /**
     * One transaction. The statement at `failAt` (the delete, each insert, the
     * update, the commit) may fail, and then nothing has happened.
     */
    method ReplaceListEntries(listId: int, given: seq<ListEntry>, now: int, failAt: Option<nat>) returns (ok: bool)
      modifies this
      ensures ok <==> && listId > 0 && HasList(old(lists), listId) && AllValidated(lib, listId, given).Some?
                      && (failAt.None? || failAt.value > |given| + 2)
      ensures !ok ==> lists == old(lists) && entries == old(entries) && nextId == old(nextId)
      ensures ok ==> && lists == Touched(old(lists), listId, Some(now), "")
                     && entries == Replaced(old(entries), old(nextId), listId, AllValidated(lib, listId, given).value)
                     && nextId == NextId(WithoutList(old(entries), listId), entries, old(nextId))
                     && OnlyTouched(old(lists), lists, listId, Some(now), "")
    {
      hide OnlyTouched;
      TouchedMeans(lists, listId, Some(now), "");
      hide Validated, AllValidated, InsertedAll, HasList, Touched, WithoutList;
      if listId <= 0 { return false; }
      var valid := Validate(listId, given);
      if valid.None? || failAt == Some(0) { return false; }
      AllValidatedLength(lib, listId, given);
      var kept := WithoutList(entries, listId);
      var inserted, rows := InsertRows(kept, nextId, valid.value, if failAt.Some? then Some(failAt.value - 1) else None);
      if !inserted { return false; }
      if failAt == Some(|given| + 1) || !HasList(lists, listId) || failAt == Some(|given| + 2) { return false; }
      nextId := NextId(kept, rows, nextId);
      entries := rows;
      lists := Touched(lists, listId, Some(now), "");
      ok := true;
    }

    method MarkListRefreshError(listId: int, error: string, works: bool) returns (ok: bool)
      modifies this`lists
      ensures ok <==> works && listId > 0 && HasList(old(lists), listId)
      ensures lists == if ok then Touched(old(lists), listId, None, error) else old(lists)
      ensures ok ==> OnlyTouched(old(lists), lists, listId, None, error)
    {
      TouchedMeans(lists, listId, None, error);
      if listId <= 0 || !works || !HasList(lists, listId) { return false; }
      lists := Touched(lists, listId, None, error);
      ok := true;
    }

    /** The whole refresh of a list. Only a successful one touches an entry. */
    method RefreshList(listId: int, source: string, outcome: SourceOutcome, now: int, error: string,
                       failAt: Option<nat>, markWorks: bool) returns (r: RefreshOutcome)
      modifies this
      ensures var imported := ImportResult(lib, listId, source, outcome);
              && (r.NoSuchList? <==> !HasList(old(lists), listId))
              && (r.ImportFailed? <==> HasList(old(lists), listId) && imported.None?)
              && (r.Refreshed? ==>
                    && imported.Some? && OnlyTouched(old(lists), lists, listId, Some(now), "")
                    && lists == Touched(old(lists), listId, Some(now), "")
                    && entries == Replaced(old(entries), old(nextId), listId, imported.value))
              && (r.Refreshed? <==> HasList(old(lists), listId) && imported.Some?
                                    && (failAt.None? || failAt.value > |imported.value| + 2))
      ensures !r.Refreshed? ==> entries == old(entries) && nextId == old(nextId)
      ensures r.StoreFailed? || r.NoSuchList? ==> lists == old(lists)
      ensures r.ImportFailed? ==>
                if markWorks && listId > 0 then OnlyTouched(old(lists), lists, listId, None, error) else lists == old(lists)
    {
      hide OnlyTouched, Touched, Replaced, ImportResult;
      if !HasList(lists, listId) { return NoSuchList; }
      var imported := ImportListEntries(lib, listId, source, outcome);
      if imported.None? {
        var marked := MarkListRefreshError(listId, error, markWorks);
        return ImportFailed;
      }
      ImportResultIsValid(lib, listId, source, outcome);
      var ok := ReplaceListEntries(listId, imported.value, now, failAt);
      r := if ok then Refreshed else StoreFailed;
    }
  }

  lemma {:induction false} InvalidStays(lib: Library, listId: int, given: seq<ListEntry>, i: nat)
    requires i < |given| && Validated(lib, given[i].(listId := listId)).None?
    ensures AllValidated(lib, listId, given).None?
  {
    if i < |given| - 1 {
      InvalidStays(lib, listId, given[..|given| - 1], i);
    }
  }

  lemma {:induction false} AllValidatedLength(lib: Library, listId: int, given: seq<ListEntry>)
    ensures AllValidated(lib, listId, given).Some? ==> |AllValidated(lib, listId, given).value| == |given|
  {
    if given != [] {
      AllValidatedLength(lib, listId, given[..|given| - 1]);
    }
  }

  // ------------------------------------------------------------------ fixed points

  lemma LowerTwice(lib: Library, s: string)
    ensures Lower(lib, Lower(lib, s)) == Lower(lib, s)
    ensures Tight(lib, s) ==> Tight(lib, Lower(lib, s))
  {
    assert s != "" ==> lib.space(lib.lower(s[0])) == lib.space(s[0]) && lib.space(lib.lower(s[|s| - 1])) == lib.space(s[|s| - 1]);
  }

  /** Without one final dot and the space around it, the pattern still ends in a dot. */
  predicate KeepsDot(lib: Library, pattern: string) {
    HasSuffix(TrimSpace(lib, TrimSuffix(pattern, ".")), ".")
  }

  /** One validation settles a pattern exactly if it does not leave a dot at the end. */
  lemma NormalPatternSettles(lib: Library, pattern: string, kind: Kind)
    ensures var once := NormalPattern(lib, pattern, kind);
            once.Some? ==> (NormalPattern(lib, once.value, kind) == once <==> !KeepsDot(lib, pattern))
  {
    var once := NormalPattern(lib, pattern, kind);
    if once.Some? {
      var text := TrimSpace(lib, TrimSuffix(pattern, "."));
      TrimSpaceTight(lib, TrimSuffix(pattern, "."));
      LowerTwice(lib, text);
      TightIsTrimmed(lib, once.value);
      LowerKeepsDot(lib, text);
      TrimSpaceShrinks(lib, TrimSuffix(once.value, "."));
    }
  }

  lemma LowerKeepsDot(lib: Library, s: string)
    ensures HasSuffix(Lower(lib, s), ".") <==> HasSuffix(s, ".")
  {
    if s != "" {
      assert HasSuffix(s, ".") <==> s[|s| - 1] == '.';
      var t := Lower(lib, s);
      assert HasSuffix(t, ".") <==> t[|t| - 1] == '.';
    }
  }

  /** `a..` becomes `a.`, and that becomes `a`. */
  lemma TwoDotsDoNotSettle(lib: Library)
    ensures KeepsDot(lib, "a..")
    ensures NormalPattern(lib, "a..", Exact) == Some("a.") && NormalPattern(lib, "a.", Exact) == Some("a")
  {
    OneDotOff(lib, "a.");
    OneDotOff(lib, "a");
    assert "a." + "." == "a.." && "a" + "." == "a.";
    assert "a."[1..] == ".";
  }

  /** Lower-case text with a dot after it loses just the dot. */
  lemma OneDotOff(lib: Library, text: string)
    requires text != "" && NameText(text)
    ensures NormalPattern(lib, text + ".", Exact) == Some(text) && TrimSpace(lib, TrimSuffix(text + ".", ".")) == text
  {
    assert TrimSuffix(text + ".", ".") == text;
    NameTextIsLower(lib, text);
    TightIsTrimmed(lib, text);
  }

  lemma TrimSpaceShrinks(lib: Library, s: string)
    ensures |TrimSpace(lib, s)| <= |s|
  {
    TrimLeftTight(lib, s);
    TrimRightTight(lib, TrimLeft(lib, s));
  }

  /** What the parser gives is left as it is by validation, and by the index. */
  lemma ListDomainIsValidated(lib: Library, e: ListEntry)
    requires e.listId > 0 && ListDomain(lib, e.pattern) && !e.kind.Regex?
    ensures Validated(lib, e) == Some(e)
  {
    ValidText(lib, e.pattern);
    ValidIsNormal(lib, e.pattern);
    assert "."[0] == '.';
  }

  /** Text without space at its ends and without a final dot is found again, in lower case unless it is a regular expression. */
  lemma NormalPatternOf(lib: Library, text: string, dot: bool, kind: Kind)
    requires text != "" && Tight(lib, text) && text[|text| - 1] != '.'
    ensures NormalPattern(lib, if dot then text + "." else text, kind) ==
            if !kind.Regex? then Some(Lower(lib, text)) else if lib.compiles(text) then Some(text) else None
  {
    TightIsTrimmed(lib, text);
    assert "."[0] == '.' && (text + ".")[..|text|] == text && (text + ".")[|text|..] == ".";
    hide TrimSpace, Tight, Lower;
  }

  // ---------------------------------------------------------- what is in the table

  function OfOthers(listId: int): EntryRow -> bool {
    (r: EntryRow) => r.listId != listId
  }

  lemma WithoutListNext(front: seq<EntryRow>, last: EntryRow, listId: int)
    ensures WithoutList(front + [last], listId)
            == if last.listId == listId then WithoutList(front, listId) else WithoutList(front, listId) + [last]
  {
    if front == [] {
      assert front + [last] == [last];
    } else {
      assert (front + [last])[1..] == front[1..] + [last];
      WithoutListNext(front[1..], last, listId);
    }
  }

  /** The rows of the other lists are kept, in their order. */
  lemma {:induction false} WithoutListIs(rows: seq<EntryRow>, listId: int) returns (at: seq<nat>)
    ensures Thinned(at, WithoutList(rows, listId), rows, OfOthers(listId))
  {
    at := [];
    if rows != [] {
      hide Thinned, WithoutList;
      var n := |rows| - 1;
      var front, last := rows[..n], rows[n];
      at := WithoutListIs(front, listId);
      assert rows == front + [last];
      ThinnedNext(at, WithoutList(front, listId), front, last, OfOthers(listId));
      WithoutListNext(front, last, listId);
      if last.listId != listId { at := at + [n]; }
    }
  }

  ghost predicate DistinctEntries(listId: int, es: seq<ListEntry>) {
    && (forall i, j :: 0 <= i < j < |es| ==> es[i] != es[j])
    && (forall i :: 0 <= i < |es| ==> es[i].listId == listId && es[i].enabled)
  }

  /** A row for each entry, in order, enabled, with the next ids. */
  ghost predicate Numbered(rows: seq<EntryRow>, kept: seq<EntryRow>, nextId: int, listId: int, es: seq<ListEntry>) {
    && |rows| == |kept| + |es|
    && (forall i :: 0 <= i < |kept| ==> rows[i] == kept[i])
    && (forall i :: 0 <= i < |es| ==> rows[|kept| + i] == EntryRow(nextId + i, listId, es[i].pattern, es[i].kind, true))
  }

  lemma {:induction false} InsertedAllRows(kept: seq<EntryRow>, nextId: int, listId: int, es: seq<ListEntry>)
    requires DistinctEntries(listId, es) && forall i :: 0 <= i < |kept| ==> kept[i].listId != listId
    ensures Numbered(InsertedAll(kept, nextId, es), kept, nextId, listId, es)
  {
    if es != [] {
      var n := |es| - 1;
      InsertedAllRows(kept, nextId, listId, es[..n]);
      hide InsertedAll;
      var front := InsertedAll(kept, nextId, es[..n]);
      assert InsertedAll(kept, nextId, es) == Inserted(front, NextId(kept, front, nextId), es[n]) by { InsertedAllNext(kept, nextId, es); }
      forall i | 0 <= i < |front| ensures !SameKey(front[i], es[n]) {
        if i >= |kept| { assert front[|kept| + (i - |kept|)] == front[i] && es[i - |kept|] != es[n]; }
      }
    }
  }

  lemma InsertedAllNext(kept: seq<EntryRow>, nextId: int, es: seq<ListEntry>)
    requires es != []
    ensures var front := InsertedAll(kept, nextId, es[..|es| - 1]);
            InsertedAll(kept, nextId, es) == Inserted(front, NextId(kept, front, nextId), es[|es| - 1])
  {
  }

  /** The table after a refresh: the rows of other lists as they were, then one enabled row for each entry, with new ids. */
  lemma ReplacedRows(rows: seq<EntryRow>, nextId: int, listId: int, es: seq<ListEntry>) returns (at: seq<nat>)
    requires DistinctEntries(listId, es)
    ensures Thinned(at, WithoutList(rows, listId), rows, OfOthers(listId))
    ensures Numbered(Replaced(rows, nextId, listId, es), WithoutList(rows, listId), nextId, listId, es)
  {
    at := WithoutListIs(rows, listId);
    InsertedAllRows(WithoutList(rows, listId), nextId, listId, es);
  }

  // ------------------------------------------------------------ what is imported

  /** Each imported entry is a parsed one, in the order of the text, at the first place it has there. */
  ghost predicate FirstPlaces(at: seq<nat>, listId: int, es: seq<ListEntry>, parsed: seq<Entry>) {
    && |at| == |es|
    && (forall i, j :: 0 <= i < j < |at| ==> at[i] < at[j])
    && (forall i :: 0 <= i < |at| ==> at[i] < |parsed| && es[i] == StoredAs(listId, parsed[at[i]]) && FirstAt(listId, parsed, at[i]))
    && (forall k: nat :: k < |parsed| && FirstAt(listId, parsed, k) ==> k in at)
  }

  /** No earlier entry is stored alike. */
  ghost predicate FirstAt(listId: int, parsed: seq<Entry>, k: nat)
    requires k < |parsed|
  {
    forall j :: 0 <= j < k ==> StoredAs(listId, parsed[j]) != StoredAs(listId, parsed[k])
  }

  lemma {:induction false} ImportedInOrder(lib: Library, listId: int, parsed: seq<Entry>) returns (at: seq<nat>)
    requires listId > 0 && forall p :: p in parsed ==> Importable(lib, p)
    ensures FirstPlaces(at, listId, Imported(lib, listId, parsed), parsed)
  {
    at := [];
    if parsed != [] {
      var n := |parsed| - 1;
      var front, last := parsed[..n], parsed[n];
      assert last in parsed && parsed == front + [last];
      ListDomainIsValidated(lib, StoredAs(listId, last));
      hide Validated, Importable, ListDomain;
      at := ImportedInOrder(lib, listId, front);
      ImportedHas(lib, listId, front);
      assert Candidate(lib, listId, last) == Some(StoredAs(listId, last));
      var es := Imported(lib, listId, front);
      PlacesNext(at, listId, es, front, last);
      if StoredAs(listId, last) !in es { at := at + [n]; }
    }
  }

  lemma PlacesNext(at: seq<nat>, listId: int, es: seq<ListEntry>, front: seq<Entry>, last: Entry)
    requires FirstPlaces(at, listId, es, front)
    requires forall p :: p in front ==> StoredAs(listId, p) in es
    requires forall e :: e in es ==> exists p :: p in front && e == StoredAs(listId, p)
    ensures var e := StoredAs(listId, last);
            if e in es then FirstPlaces(at, listId, es, front + [last])
            else FirstPlaces(at + [|front|], listId, es + [e], front + [last])
  {
    var all, e := front + [last], StoredAs(listId, last);
    var next, longer := if e in es then at else at + [|front|], if e in es then es else es + [e];
    forall k: nat | k < |front| ensures FirstAt(listId, all, k) <==> FirstAt(listId, front, k) { FrontIsSame(listId, front, last, k); }
    LastIsFirst(listId, es, front, last);
    hide FirstAt, StoredAs;
    forall i | 0 <= i < |next| ensures next[i] < |all| && longer[i] == StoredAs(listId, all[next[i]]) && FirstAt(listId, all, next[i]) {
      if i < |at| { assert next[i] == at[i] && longer[i] == es[i] && all[at[i]] == front[at[i]]; }
    }
    forall k: nat | k < |all| && FirstAt(listId, all, k) ensures k in next {
      if k < |front| { assert FirstAt(listId, front, k) && k in at; } else { assert next[|at|] == k; }
    }
  }

  lemma FrontIsSame(listId: int, front: seq<Entry>, last: Entry, k: nat)
    requires k < |front|
    ensures FirstAt(listId, front + [last], k) <==> FirstAt(listId, front, k)
  {
    hide StoredAs;
    var all := front + [last];
    assert all[k] == front[k];
    if FirstAt(listId, all, k) {
      forall j | 0 <= j < k ensures StoredAs(listId, front[j]) != StoredAs(listId, front[k]) { assert all[j] == front[j]; }
    }
  }

  lemma LastIsFirst(listId: int, es: seq<ListEntry>, front: seq<Entry>, last: Entry)
    requires forall p :: p in front ==> StoredAs(listId, p) in es
    requires forall e :: e in es ==> exists p :: p in front && e == StoredAs(listId, p)
    ensures FirstAt(listId, front + [last], |front|) <==> StoredAs(listId, last) !in es
  {
    var all := front + [last];
    hide StoredAs;
    assert forall j :: 0 <= j < |front| ==> all[j] == front[j] && front[j] in front;
  }

  /** An entry as the import stores it. */
  function StoredAs(listId: int, p: Entry): ListEntry {
    ListEntry(listId, p.domain, p.kind, true)
  }

  /** The import keeps exactly the parsed entries, as they stand, once each. */
  lemma {:induction false} ImportedHas(lib: Library, listId: int, parsed: seq<Entry>)
    requires listId > 0 && forall p :: p in parsed ==> Importable(lib, p)
    ensures forall p :: p in parsed ==> StoredAs(listId, p) in Imported(lib, listId, parsed)
    ensures forall e :: e in Imported(lib, listId, parsed) ==> exists p :: p in parsed && e == StoredAs(listId, p)
    ensures forall i, j :: 0 <= i < j < |Imported(lib, listId, parsed)| ==> Imported(lib, listId, parsed)[i] != Imported(lib, listId, parsed)[j]
  {
    if parsed != [] {
      var n := |parsed| - 1;
      var front, last := parsed[..n], parsed[n];
      assert last in parsed && parsed == front + [last];
      ListDomainIsValidated(lib, StoredAs(listId, last));
      hide Validated, Importable, ListDomain;
      ImportedHas(lib, listId, front);
      assert Candidate(lib, listId, last) == Some(StoredAs(listId, last));
    }
  }

  lemma {:induction false} FixedAreValidated(lib: Library, listId: int, es: seq<ListEntry>)
    requires listId > 0 && forall e :: e in es ==> e.listId == listId && ListDomain(lib, e.pattern) && !e.kind.Regex?
    ensures AllValidated(lib, listId, es) == Some(es)
  {
    if es != [] {
      hide Validated, ListDomain;
      var n := |es| - 1;
      var last := es[n];
      assert last in es && last.(listId := listId) == last && es == es[..n] + [last];
      FixedAreValidated(lib, listId, es[..n]);
      ListDomainIsValidated(lib, last);
    }
  }

  lemma {:induction false} NothingForNoList(lib: Library, listId: int, parsed: seq<Entry>)
    requires listId <= 0
    ensures Imported(lib, listId, parsed) == []
  {
    if parsed != [] {
      NothingForNoList(lib, listId, parsed[..|parsed| - 1]);
    }
  }

  /** The second validation, in the store, has nothing left to do. */
  lemma ImportResultIsValid(lib: Library, listId: int, source: string, outcome: SourceOutcome)
    requires ImportResult(lib, listId, source, outcome).Some?
    ensures listId > 0
    ensures AllValidated(lib, listId, ImportResult(lib, listId, source, outcome).value) == ImportResult(lib, listId, source, outcome)
  {
    var parsed := TextEntries(lib, outcome.lines, source);
    ParsedAreImportable(lib, outcome.lines, source);
    if listId <= 0 { NothingForNoList(lib, listId, parsed); }
    ImportedHas(lib, listId, parsed);
    FixedAreValidated(lib, listId, Imported(lib, listId, parsed));
  }
}
