/**
 * An import keeps the meaning of the list: after parsing, validating, dropping
 * repeats, storing and reading back, every name is decided as by the parsed text.
 */
module FilterImportMeaning {
  import opened Options
  import opened Text
  import opened Domains
  import opened Numbers
  import opened ListParser
  import opened ListRoundTrip
  import opened BlocklistMatcher
  import opened FilterTables
  import opened FilterImport

  /** The entries of a text with the kind of the list that it was imported for. */
  function Relabelled(parsed: seq<Entry>, allow: bool): (r: seq<Entry>)
    ensures |r| == |parsed| && forall i :: 0 <= i < |r| ==> r[i] == parsed[i].(allow := allow)
  {
    seq(|parsed|, i requires 0 <= i < |parsed| => parsed[i].(allow := allow))
  }

  /** The blocklist of the other lists together with the text itself. */
  function Direct(lists: seq<ListRow>, rows: seq<EntryRow>, list: ListRow, parsed: seq<Entry>): seq<Entry> {
    BlocklistEntries(lists, WithoutList(rows, list.id)) + if list.enabled then Relabelled(parsed, list.allow) else []
  }

  ghost predicate TheList(lists: seq<ListRow>, list: ListRow) {
    list in lists && forall l :: l in lists && l.id == list.id ==> l == list
  }

  // -------------------------------------------------------------- rows after it

  lemma {:induction false} WithoutListHas(rows: seq<EntryRow>, listId: int, r: EntryRow)
    ensures r in WithoutList(rows, listId) <==> r in rows && r.listId != listId
  {
    if rows != [] {
      WithoutListHas(rows[1..], listId, r);
    }
  }

  ghost predicate Present(rows: seq<EntryRow>, e: ListEntry) {
    exists r :: r in rows && SameKey(r, e) && r.enabled
  }

  /** What the table says of the list: rows of others as before, and its own as the entries say. */
  ghost predicate Holds(rows: seq<EntryRow>, kept: seq<EntryRow>, listId: int, es: seq<ListEntry>) {
    && (forall r :: r in rows && r.listId != listId ==> r in kept)
    && (forall r :: r in kept ==> r in rows)
    && (forall r :: r in rows && r.listId == listId ==> r.enabled && ListEntry(listId, r.pattern, r.kind, true) in es)
    && (forall e :: e in es ==> Present(rows, e))
  }

  lemma InsertedHolds(rows: seq<EntryRow>, kept: seq<EntryRow>, listId: int, es: seq<ListEntry>, nextId: int, e: ListEntry)
    requires Holds(rows, kept, listId, es) && e.listId == listId && e.enabled
    ensures Holds(Inserted(rows, nextId, e), kept, listId, es + [e])
  {
    var rows' := Inserted(rows, nextId, e);
    assert forall r :: r in rows ==> r in rows';
    if i :| 0 <= i < |rows| && SameKey(rows[i], e) {
      assert rows[i] in rows && rows[i].enabled;
    } else {
      var fresh' := EntryRow(nextId, e.listId, e.pattern, e.kind, e.enabled);
      assert rows' == rows + [fresh'] && fresh' in rows' && SameKey(fresh', e);
    }
    assert Present(rows', e);
    forall x | x in es + [e] ensures Present(rows', x) {
      if x in es { var r :| r in rows && SameKey(r, x) && r.enabled; assert r in rows'; }
    }
  }

  lemma {:induction false} InsertedAllHolds(kept: seq<EntryRow>, nextId: int, listId: int, es: seq<ListEntry>)
    requires forall r :: r in kept ==> r.listId != listId
    requires forall e :: e in es ==> e.listId == listId && e.enabled
    ensures Holds(InsertedAll(kept, nextId, es), kept, listId, es)
  {
    if es != [] {
      hide Inserted;
      var n := |es| - 1;
      assert es[n] in es && es == es[..n] + [es[n]];
      InsertedAllHolds(kept, nextId, listId, es[..n]);
      var front := InsertedAll(kept, nextId, es[..n]);
      InsertedHolds(front, kept, listId, es[..n], NextId(kept, front, nextId), es[n]);
    }
  }

  lemma ReplacedHolds(rows: seq<EntryRow>, nextId: int, listId: int, es: seq<ListEntry>)
    requires forall e :: e in es ==> e.listId == listId && e.enabled
    ensures Holds(Replaced(rows, nextId, listId, es), WithoutList(rows, listId), listId, es)
  {
    var kept := WithoutList(rows, listId);
    forall r | r in kept ensures r.listId != listId { WithoutListHas(rows, listId, r); }
    InsertedAllHolds(kept, nextId, listId, es);
  }

  // ------------------------------------------------------------ the same meaning

  lemma {:induction false} TouchedReadsAlike(lists: seq<ListRow>, rows: seq<EntryRow>, listId: int, updated: Option<int>, error: string)
    ensures BlocklistEntries(Touched(lists, listId, updated, error), rows) == BlocklistEntries(lists, rows)
  {
    if lists != [] {
      TouchedReadsAlike(lists[1..], rows, listId, updated, error);
      SameContribution(lists[0], Touched(lists, listId, updated, error)[0], rows);
    }
  }

  lemma {:induction false} SameContribution(a: ListRow, b: ListRow, rows: seq<EntryRow>)
    requires a.id == b.id && a.allow == b.allow && a.enabled == b.enabled
    ensures ListContribution(a, rows) == ListContribution(b, rows)
  {
    if rows != [] {
      SameContribution(a, b, rows[1..]);
    }
  }

  lemma FormsHas(lib: Library, es: seq<Entry>, allow: bool, f: Form)
    ensures f in Forms(lib, es, allow) <==> exists e :: e in es && e.allow == allow && StoredForm(lib, e) == Some(f)
  {
    if e :| e in es && e.allow == allow && StoredForm(lib, e) == Some(f) {
      var i :| 0 <= i < |es| && es[i] == e;
      assert es[i].allow == allow;
    }
  }

  lemma StoredFormOf(lib: Library, a: Entry, b: Entry)
    requires a.domain == b.domain && a.kind == b.kind
    ensures StoredForm(lib, a) == StoredForm(lib, b)
  {
  }

  ghost predicate ImportOf(after: seq<EntryRow>, rows: seq<EntryRow>, list: ListRow, es: seq<ListEntry>, parsed: seq<Entry>) {
    && Holds(after, WithoutList(rows, list.id), list.id, es)
    && (forall e :: e in es ==> exists p :: p in parsed && e == StoredAs(list.id, p))
    && (forall p :: p in parsed ==> StoredAs(list.id, p) in es && !p.kind.Regex?)
  }

  lemma StoredIsDirect(lib: Library, lists: seq<ListRow>, rows: seq<EntryRow>, list: ListRow, es: seq<ListEntry>,
                       parsed: seq<Entry>, after: seq<EntryRow>, allow: bool, f: Form)
    requires TheList(lists, list) && ImportOf(after, rows, list, es, parsed)
    requires f in Forms(lib, BlocklistEntries(lists, after), allow)
    ensures f in Forms(lib, Direct(lists, rows, list, parsed), allow)
  {
    hide StoredForm, Forms, BlocklistEntries, WithoutList;
    FormsHas(lib, BlocklistEntries(lists, after), allow, f);
    var e :| e in BlocklistEntries(lists, after) && e.allow == allow && StoredForm(lib, e) == Some(f);
    BlocklistHas(lists, after, e);
    var l, r :| l in lists && r in after && Contributes(l, r, e);
    FormsHas(lib, Direct(lists, rows, list, parsed), allow, f);
    if r.listId != list.id {
      BlocklistHas(lists, WithoutList(rows, list.id), e);
    } else {
      var p :| p in parsed && ListEntry(list.id, r.pattern, r.kind, true) == StoredAs(list.id, p);
      var q := p.(allow := list.allow);
      var i :| 0 <= i < |parsed| && parsed[i] == p;
      assert Relabelled(parsed, list.allow)[i] == q;
      StoredFormOf(lib, e, q);
    }
  }

  lemma DirectIsStored(lib: Library, lists: seq<ListRow>, rows: seq<EntryRow>, list: ListRow, es: seq<ListEntry>,
                       parsed: seq<Entry>, after: seq<EntryRow>, allow: bool, f: Form)
    requires TheList(lists, list) && ImportOf(after, rows, list, es, parsed)
    requires f in Forms(lib, Direct(lists, rows, list, parsed), allow)
    ensures f in Forms(lib, BlocklistEntries(lists, after), allow)
  {
    hide StoredForm, Forms, BlocklistEntries, WithoutList;
    FormsHas(lib, Direct(lists, rows, list, parsed), allow, f);
    var e :| e in Direct(lists, rows, list, parsed) && e.allow == allow && StoredForm(lib, e) == Some(f);
    FormsHas(lib, BlocklistEntries(lists, after), allow, f);
    if e in BlocklistEntries(lists, WithoutList(rows, list.id)) {
      BlocklistHas(lists, WithoutList(rows, list.id), e);
      BlocklistHas(lists, after, e);
    } else {
      var i :| 0 <= i < |parsed| && Relabelled(parsed, list.allow)[i] == e;
      assert parsed[i] in parsed;
      var r :| r in after && SameKey(r, StoredAs(list.id, parsed[i])) && r.enabled;
      var q := Entry(r.pattern, r.kind, list.allow, "filter_list:" + Decimal(list.id));
      assert Contributes(list, r, q);
      BlocklistHas(lists, after, q);
      StoredFormOf(lib, e, q);
    }
  }

  /**
   * A successful refresh, for a list of either kind, enabled or not: the matcher
   * built from the tables afterwards decides every name as one built from the
   * other lists and the parsed text.
   */
  lemma ImportKeepsMeaning(lib: Library, lists: seq<ListRow>, rows: seq<EntryRow>, nextId: int, list: ListRow,
                           lines: seq<string>, source: string, now: int, raw: string)
    requires TheList(lists, list) && list.id > 0
    ensures var parsed := TextEntries(lib, lines, source);
            var after := Replaced(rows, nextId, list.id, Imported(lib, list.id, parsed));
            Scan(lib, BlocklistEntries(Touched(lists, list.id, Some(now), ""), after), raw)
            == Scan(lib, Direct(lists, rows, list, parsed), raw)
  {
    hide Replaced, Holds, Forms, BlocklistEntries, Direct, TextEntries, Imported, Scan, Touched, StoredForm, Importable;
    var parsed := TextEntries(lib, lines, source);
    var es := Imported(lib, list.id, parsed);
    var after := Replaced(rows, nextId, list.id, es);
    TouchedReadsAlike(lists, after, list.id, Some(now), "");
    ParsedAreImportable(lib, lines, source);
    ImportedHas(lib, list.id, parsed);
    ReplacedHolds(rows, nextId, list.id, es);
    ParsedArePlain(lib, parsed);
    assert ImportOf(after, rows, list, es, parsed);
    hide ImportOf;
    FormsAgree(lib, lists, rows, list, es, parsed, after);
    SameFormsSameScan(lib, BlocklistEntries(lists, after), Direct(lists, rows, list, parsed), raw);
  }

  lemma ParsedArePlain(lib: Library, parsed: seq<Entry>)
    requires forall e :: e in parsed ==> Importable(lib, e)
    ensures forall e :: e in parsed ==> !e.kind.Regex?
  {
  }

  lemma FormsAgree(lib: Library, lists: seq<ListRow>, rows: seq<EntryRow>, list: ListRow, es: seq<ListEntry>,
                   parsed: seq<Entry>, after: seq<EntryRow>)
    requires TheList(lists, list) && ImportOf(after, rows, list, es, parsed)
    ensures forall allow :: Forms(lib, BlocklistEntries(lists, after), allow) == Forms(lib, Direct(lists, rows, list, parsed), allow)
  {
    hide ImportOf, Forms, BlocklistEntries, Direct, TheList;
    forall allow ensures Forms(lib, BlocklistEntries(lists, after), allow) == Forms(lib, Direct(lists, rows, list, parsed), allow) {
      forall f | f in Forms(lib, BlocklistEntries(lists, after), allow) ensures f in Forms(lib, Direct(lists, rows, list, parsed), allow) {
        StoredIsDirect(lib, lists, rows, list, es, parsed, after, allow, f);
      }
      forall f | f in Forms(lib, Direct(lists, rows, list, parsed), allow) ensures f in Forms(lib, BlocklistEntries(lists, after), allow) {
        DirectIsStored(lib, lists, rows, list, es, parsed, after, allow, f);
      }
    }
  }

  /** With this enabled deny list alone, the stored list is the text: every name is decided as by the parser output. */
  lemma OnlyListIsItsText(lib: Library, rows: seq<EntryRow>, nextId: int, list: ListRow,
                          lines: seq<string>, source: string, now: int, raw: string)
    requires list.id > 0 && list.enabled && !list.allow && forall r :: r in rows ==> r.listId == list.id
    ensures var parsed := TextEntries(lib, lines, source);
            var after := Replaced(rows, nextId, list.id, Imported(lib, list.id, parsed));
            Scan(lib, BlocklistEntries(Touched([list], list.id, Some(now), ""), after), raw) == Scan(lib, parsed, raw)
  {
    ImportKeepsMeaning(lib, [list], rows, nextId, list, lines, source, now, raw);
    var parsed := TextEntries(lib, lines, source);
    ParsedAreImportable(lib, lines, source);
    assert WithoutList(rows, list.id) == [] by {
      if WithoutList(rows, list.id) != [] { WithoutListHas(rows, list.id, WithoutList(rows, list.id)[0]); }
    }
    assert BlocklistEntries([list], []) == [];
    assert Relabelled(parsed, false) == parsed by {
      forall i | 0 <= i < |parsed| ensures Relabelled(parsed, false)[i] == parsed[i] { assert parsed[i] in parsed; }
    }
    hide Scan, BlocklistEntries, TextEntries;
    assert Direct([list], rows, list, parsed) == parsed;
  }
}
