/**
 * The in-memory index of a blocklist, four sets of domains, and the linear scan
 * over the entries that it must agree with.
 */
module BlocklistMatcher {
  import opened Options
  import opened Text
  import opened Domains

  /** What the blocklist says of a query name. Only a deny match blocks it. */
  datatype Verdict = InvalidName | AllowMatch | DenyMatch | NoMatch

  predicate Covers(form: Form, name: string) {
    if form.kind.Suffix? then Under(name, form.domain) else name == form.domain
  }

  predicate Accepts(lib: Library, e: Entry, name: string) {
    var form := StoredForm(lib, e);
    form.Some? && Covers(form.value, name)
  }

  predicate AnyAccepts(lib: Library, entries: seq<Entry>, allow: bool, name: string) {
    exists i :: 0 <= i < |entries| && entries[i].allow == allow && Accepts(lib, entries[i], name)
  }

  /** The reference: look at every entry. */
  function Scan(lib: Library, entries: seq<Entry>, raw: string): Verdict {
    match NormalName(lib, raw)
    case None => InvalidName
    case Some(name) =>
      if AnyAccepts(lib, entries, true, name) then AllowMatch
      else if AnyAccepts(lib, entries, false, name) then DenyMatch
      else NoMatch
  }

  /** An entry is for its domain alone, or for that and every name that ends in a dot and the domain. */
  predicate IsFor(e: Entry, name: string) {
    || (e.kind.Exact? && name == e.domain)
    || (e.kind.Suffix? && (name == e.domain
                           || (|name| > |e.domain| && name[|name| - |e.domain| - 1] == '.' && name[|name| - |e.domain|..] == e.domain)))
  }

  ghost predicate SomeFor(entries: seq<Entry>, allow: bool, name: string) {
    exists i :: 0 <= i < |entries| && entries[i].allow == allow && IsFor(entries[i], name)
  }

  lemma AcceptsMeans(lib: Library, e: Entry, name: string)
    requires ListDomain(lib, e.domain)
    ensures Accepts(lib, e, name) <==> IsFor(e, name)
  {
    if !e.kind.Regex? { ListDomainIsStored(lib, e); }
    var d := e.domain;
    var n := |name| - |d|;
    if n > 0 {
      var tail := name[n - 1..];
      assert tail == [name[n - 1]] + name[n..] && ("." + d)[0] == '.' && ("." + d)[1..] == d;
    }
    hide ListDomain, NormalText, NormalName;
  }

  /** Over entries as the parser and the store keep them: a name is allowed by one that is for it, else denied by one, else neither. */
  lemma ScanMeans(lib: Library, entries: seq<Entry>, name: string)
    requires ValidDomain(lib, name) && forall i :: 0 <= i < |entries| ==> ListDomain(lib, entries[i].domain)
    ensures Scan(lib, entries, name) ==
            if SomeFor(entries, true, name) then AllowMatch else if SomeFor(entries, false, name) then DenyMatch else NoMatch
  {
    ValidIsNormal(lib, name);
    forall i | 0 <= i < |entries| ensures Accepts(lib, entries[i], name) <==> IsFor(entries[i], name) {
      AcceptsMeans(lib, entries[i], name);
    }
    hide Accepts, IsFor, ListDomain, NormalName;
  }

  /** The entries as the index sees them: order, repeats and sources are gone. */
  ghost function Forms(lib: Library, entries: seq<Entry>, allow: bool): set<Form> {
    set i | 0 <= i < |entries| && entries[i].allow == allow && StoredForm(lib, entries[i]).Some? ::
      StoredForm(lib, entries[i]).value
  }

  lemma AcceptedByForm(lib: Library, entries: seq<Entry>, allow: bool, name: string)
    ensures AnyAccepts(lib, entries, allow, name) <==> exists f :: f in Forms(lib, entries, allow) && Covers(f, name)
  {
    if AnyAccepts(lib, entries, allow, name) {
      var i :| 0 <= i < |entries| && entries[i].allow == allow && Accepts(lib, entries[i], name);
      assert StoredForm(lib, entries[i]).value in Forms(lib, entries, allow);
    }
  }

  /** Entries with the same forms answer every query alike, whatever their order, repeats and sources. */
  lemma SameFormsSameScan(lib: Library, a: seq<Entry>, b: seq<Entry>, raw: string)
    requires forall allow :: Forms(lib, a, allow) == Forms(lib, b, allow)
    ensures Scan(lib, a, raw) == Scan(lib, b, raw)
  {
    var name := NormalName(lib, raw);
    if name.Some? {
      forall allow ensures AnyAccepts(lib, a, allow, name.value) == AnyAccepts(lib, b, allow, name.value) {
        AcceptedByForm(lib, a, allow, name.value);
        AcceptedByForm(lib, b, allow, name.value);
      }
    }
  }

  lemma FormsAppend(lib: Library, a: seq<Entry>, b: seq<Entry>, allow: bool)
    ensures Forms(lib, a + b, allow) == Forms(lib, a, allow) + Forms(lib, b, allow)
  {
    forall f | f in Forms(lib, a, allow) + Forms(lib, b, allow) ensures f in Forms(lib, a + b, allow) {
      if f in Forms(lib, a, allow) {
        var i :| 0 <= i < |a| && a[i].allow == allow && StoredForm(lib, a[i]) == Some(f);
        assert (a + b)[i] == a[i];
      } else {
        var i :| 0 <= i < |b| && b[i].allow == allow && StoredForm(lib, b[i]) == Some(f);
        assert (a + b)[|a| + i] == b[i];
      }
    }
  }

  /** Shuffling or repeating entries changes no answer. */
  lemma ScanIgnoresOrderAndRepeats(lib: Library, a: seq<Entry>, b: seq<Entry>, raw: string)
    requires forall e :: e in a <==> e in b
    ensures Scan(lib, a, raw) == Scan(lib, b, raw)
  {
    forall allow ensures Forms(lib, a, allow) == Forms(lib, b, allow) {
      SameEntriesForms(lib, a, b, allow);
      SameEntriesForms(lib, b, a, allow);
    }
    SameFormsSameScan(lib, a, b, raw);
  }

  lemma SameEntriesForms(lib: Library, a: seq<Entry>, b: seq<Entry>, allow: bool)
    requires forall e :: e in a ==> e in b
    ensures Forms(lib, a, allow) <= Forms(lib, b, allow)
  {
    forall f | f in Forms(lib, a, allow) ensures f in Forms(lib, b, allow) {
      var i :| 0 <= i < |a| && a[i].allow == allow && StoredForm(lib, a[i]) == Some(f);
      assert a[i] in b;
      var j :| 0 <= j < |b| && b[j] == a[i];
    }
  }

  /**
   * The bundled deny entries only ever add blocks: no allowed name stops being
   * allowed by an entry, and no blocked one gets through.
   */
  lemma BundledOnlyBlocks(lib: Library, seed: seq<Entry>, entries: seq<Entry>, raw: string)
    requires forall e :: e in seed ==> !e.allow
    ensures Scan(lib, entries, raw) != NoMatch ==> Scan(lib, seed + entries, raw) == Scan(lib, entries, raw)
    ensures Scan(lib, entries, raw).NoMatch? ==> Scan(lib, seed + entries, raw) in {NoMatch, DenyMatch}
  {
    var name := NormalName(lib, raw);
    if name.Some? {
      forall allow ensures AnyAccepts(lib, seed + entries, allow, name.value) <==>
                           AnyAccepts(lib, seed, allow, name.value) || AnyAccepts(lib, entries, allow, name.value)
      {
        AcceptsAppend(lib, seed, entries, allow, name.value);
      }
    }
  }

  lemma AcceptsAppend(lib: Library, a: seq<Entry>, b: seq<Entry>, allow: bool, name: string)
    ensures AnyAccepts(lib, a + b, allow, name) <==> AnyAccepts(lib, a, allow, name) || AnyAccepts(lib, b, allow, name)
  {
    hide Accepts;
    assert forall i :: 0 <= i < |a| ==> (a + b)[i] == a[i];
    assert forall i :: 0 <= i < |b| ==> (a + b)[|a| + i] == b[i];
    assert forall i :: |a| <= i < |a| + |b| ==> (a + b)[i] == b[i - |a|];
  }

  // ------------------------------------------------------------------ the index

  ghost function Indexed(lib: Library, entries: seq<Entry>, allow: bool, kind: Kind): set<string> {
    set f | f in Forms(lib, entries, allow) && f.kind == kind :: f.domain
  }

  lemma IndexedNext(lib: Library, entries: seq<Entry>, e: Entry, allow: bool, kind: Kind)
    ensures Indexed(lib, entries + [e], allow, kind) ==
            Indexed(lib, entries, allow, kind)
            + if e.allow == allow && StoredForm(lib, e).Some? && StoredForm(lib, e).value.kind == kind
              then {StoredForm(lib, e).value.domain} else {}
  {
    FormsAppend(lib, entries, [e], allow);
    assert Forms(lib, [e], allow) == if e.allow == allow && StoredForm(lib, e).Some? then {StoredForm(lib, e).value} else {}
    by {
      if e.allow == allow && StoredForm(lib, e).Some? { assert [e][0] == e; }
    }
    hide Forms, StoredForm;
  }

  /** Some text after a dot of the name is in the set, from position i on. */
  predicate TailIn(suffix: set<string>, name: string, from: nat) {
    exists i :: from <= i < |name| && name[i] == '.' && name[i + 1..] in suffix
  }

  lemma TailIsUnder(suffix: set<string>, name: string)
    ensures name in suffix || TailIn(suffix, name, 0) <==> exists d :: d in suffix && Under(name, d)
  {
    assert Under(name, name);
    hide Under;
    if i :| 0 <= i < |name| && name[i] == '.' && name[i + 1..] in suffix {
      TailIsAbove(name, i);
    }
    if d :| d in suffix && Under(name, d) && name != d {
      var i := AboveIsTail(name, d);
    }
  }

  class MemoryMatcher {
    const lib: Library
    var allowExact: set<string>
    var allowSuffix: set<string>
    var denyExact: set<string>
    var denySuffix: set<string>

    ghost predicate Answers(entries: seq<Entry>)
      reads this
    {
      && allowExact == Indexed(lib, entries, true, Exact) && allowSuffix == Indexed(lib, entries, true, Suffix)
      && denyExact == Indexed(lib, entries, false, Exact) && denySuffix == Indexed(lib, entries, false, Suffix)
    }

    constructor (lib: Library, entries: seq<Entry>, bundled: bool, seed: seq<Entry>)
      ensures this.lib == lib && Answers(WithBundled(entries, bundled, seed))
    {
      this.lib := lib;
      allowExact, allowSuffix, denyExact, denySuffix := {}, {}, {}, {};
      new;
      hide Indexed, StoredForm;
      var all := WithBundled(entries, bundled, seed);
      NothingIndexed(lib);
      for i := 0 to |all|
        invariant Answers(all[..i])
      {
        assert all[..i + 1] == all[..i] + [all[i]];
        forall allow, kind { IndexedNext(lib, all[..i], all[i], allow, kind); }
        var stored := StoredForm(lib, all[i]);
        StoredKind(lib, all[i]);
        if stored.Some? {
          var domain := stored.value.domain;
          if stored.value.kind.Suffix? {
            if all[i].allow { allowSuffix := allowSuffix + {domain}; } else { denySuffix := denySuffix + {domain}; }
          } else {
            if all[i].allow { allowExact := allowExact + {domain}; } else { denyExact := denyExact + {domain}; }
          }
        }
      }
      assert all[..|all|] == all;
    }

    method Matches(exact: set<string>, suffix: set<string>, name: string) returns (found: bool)
      ensures found <==> name in exact || exists d :: d in suffix && Under(name, d)
    {
      TailIsUnder(suffix, name);
      if name in exact || name in suffix {
        return true;
      }
      for i := 0 to |name|
        invariant forall j :: 0 <= j < i && name[j] == '.' ==> name[j + 1..] !in suffix
      {
        if name[i] == '.' && name[i + 1..] in suffix {
          return true;
        }
      }
      return false;
    }

    /** The index answers every query as a scan of the entries it was built from. */
    method Decide(raw: string, ghost entries: seq<Entry>) returns (verdict: Verdict)
      requires Answers(entries)
      ensures verdict == Scan(lib, entries, raw)
    {
      var name := NormalName(lib, raw);
      if name.None? {
        return InvalidName;
      }
      IndexedAccepts(lib, entries, true, name.value);
      IndexedAccepts(lib, entries, false, name.value);
      hide AnyAccepts, Indexed, Under;
      var allowed := Matches(allowExact, allowSuffix, name.value);
      if allowed {
        return AllowMatch;
      }
      var denied := Matches(denyExact, denySuffix, name.value);
      verdict := if denied then DenyMatch else NoMatch;
    }
  }

  function WithBundled(entries: seq<Entry>, bundled: bool, seed: seq<Entry>): seq<Entry> {
    if bundled then seed + entries else entries
  }

  lemma NothingIndexed(lib: Library)
    ensures forall allow, kind :: Indexed(lib, [], allow, kind) == {}
  {
  }

  lemma StoredKind(lib: Library, e: Entry)
    ensures StoredForm(lib, e).Some? ==> StoredForm(lib, e).value.kind == e.kind && !e.kind.Regex?
  {
  }

  lemma IndexedAccepts(lib: Library, entries: seq<Entry>, allow: bool, name: string)
    ensures AnyAccepts(lib, entries, allow, name) <==>
            || name in Indexed(lib, entries, allow, Exact)
            || exists d :: d in Indexed(lib, entries, allow, Suffix) && Under(name, d)
  {
    AcceptedByForm(lib, entries, allow, name);
    var forms := Forms(lib, entries, allow);
    forall f | f in forms ensures f.kind.Exact? || f.kind.Suffix? {
      var i :| 0 <= i < |entries| && entries[i].allow == allow && StoredForm(lib, entries[i]) == Some(f);
      StoredKind(lib, entries[i]);
    }
    hide Forms, AnyAccepts, Under;
    forall f | f in forms && Covers(f, name)
      ensures name in Indexed(lib, entries, allow, Exact) || exists d :: d in Indexed(lib, entries, allow, Suffix) && Under(name, d)
    {
      assert f.domain in Indexed(lib, entries, allow, f.kind);
    }
    forall d | d in Indexed(lib, entries, allow, Suffix) && Under(name, d)
      ensures Form(d, Suffix) in forms && Covers(Form(d, Suffix), name)
    {
    }
    if name in Indexed(lib, entries, allow, Exact) {
      assert Form(name, Exact) in forms && Covers(Form(name, Exact), name);
    }
  }
}
