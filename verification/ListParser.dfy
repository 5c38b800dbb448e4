/**
 * The grammar of blocklist text: hosts files, plain names, wildcard names and
 * domain-wide Adblock filters, one line at a time.
 */
module ListParser {
  import opened Options
  import opened Text
  import opened Domains

  const SEPARATORS: seq<string> := ["##", "#@#", "#$#", "#?#", "#%#"]

  /** A browser filter, which must not turn into a rule for a whole site. */
  predicate Cosmetic(line: string) {
    exists i :: 0 <= i < |SEPARATORS| && Contains(line, SEPARATORS[i])
  }

  function EntryForm(lib: Library, raw: string): Option<Form> {
    var domain := NormalText(lib, raw);
    if HasPrefix(domain, "||") && HasSuffix(domain, "^") then
      var inner := TrimSuffix(TrimPrefix(domain, "||"), "^");
      if ListDomain(lib, inner) then Some(Form(inner, Suffix)) else None
    else if HasPrefix(domain, "*.") then
      var inner := TrimPrefix(domain, "*.");
      if ListDomain(lib, inner) then Some(Form(inner, Suffix)) else None
    else if ListDomain(lib, domain) then Some(Form(domain, Exact))
    else None
  }

  predicate HostsAddress(lib: Library, field: string) {
    lib.address(field) || ('%' in field && lib.address(Before(field, '%')))
  }

  /** The fields of a line that may name domains. */
  function DomainFields(lib: Library, line: string): seq<string> {
    if Cosmetic(line) then []
    else
      var fields := Fields(lib, TrimSpace(lib, Before(line, '#')));
      if fields == [] then []
      else if HostsAddress(lib, fields[0]) then fields[1..]
      else if |fields| == 1 then fields
      else []
  }

  function FieldEntries(lib: Library, fields: seq<string>, source: string): seq<Entry> {
    if fields == [] then []
    else
      FieldEntries(lib, fields[..|fields| - 1], source)
      + match EntryForm(lib, fields[|fields| - 1])
        case Some(form) => [Entry(form.domain, form.kind, false, source)]
        case None => []
  }

  function LineEntries(lib: Library, line: string, source: string): seq<Entry> {
    FieldEntries(lib, DomainFields(lib, line), source)
  }

  function TextEntries(lib: Library, lines: seq<string>, source: string): seq<Entry> {
    if lines == [] then []
    else TextEntries(lib, lines[..|lines| - 1], source) + LineEntries(lib, lines[|lines| - 1], source)
  }

  // ----------------------------------------------------------------- the loops

  method ParseFields(lib: Library, fields: seq<string>, start: nat, source: string) returns (entries: seq<Entry>)
    requires start <= |fields|
    ensures entries == FieldEntries(lib, fields[start..], source)
  {
    hide EntryForm;
    entries := [];
    for i := start to |fields|
      invariant entries == FieldEntries(lib, fields[start..i], source)
    {
      ghost var upto := fields[start..i + 1];
      assert upto[..|upto| - 1] == fields[start..i] && upto[|upto| - 1] == fields[i];
      var form := EntryForm(lib, fields[i]);
      if form.Some? {
        entries := entries + [Entry(form.value.domain, form.value.kind, false, source)];
      }
    }
    assert fields[start..|fields|] == fields[start..];
  }

  method ParseLine(lib: Library, line: string, source: string) returns (entries: seq<Entry>)
    ensures entries == LineEntries(lib, line, source)
  {
    for i := 0 to |SEPARATORS|
      invariant forall j :: 0 <= j < i ==> !Contains(line, SEPARATORS[j])
    {
      if Contains(line, SEPARATORS[i]) {
        return [];
      }
    }
    var text := TrimSpace(lib, Before(line, '#'));
    if text == "" {
      return [];
    }
    var fields := Fields(lib, text);
    if |fields| == 0 {
      return [];
    }
    var start := if HostsAddress(lib, fields[0]) then 1 else 0;
    if start >= |fields| || (start == 0 && |fields| != 1) {
      return [];
    }
    entries := ParseFields(lib, fields, start, source);
  }

  /** Reading stops early when the caller gives up or the reader fails; then there are no entries at all. */
  method Parse(lib: Library, lines: seq<string>, source: string, stopsAt: Option<nat>) returns (r: Option<seq<Entry>>)
    ensures r == if stopsAt.Some? && stopsAt.value <= |lines| then None else Some(TextEntries(lib, lines, source))
  {
    hide LineEntries;
    var entries := [];
    for i := 0 to |lines|
      invariant stopsAt.Some? ==> i <= stopsAt.value
      invariant entries == TextEntries(lib, lines[..i], source)
    {
      if stopsAt == Some(i) { return None; }
      assert lines[..i + 1][..i] == lines[..i];
      var parsed := ParseLine(lib, lines[i], source);
      entries := entries + parsed;
    }
    assert lines[..|lines|] == lines;
    r := if stopsAt == Some(|lines|) then None else Some(entries);
  }

  // ------------------------------------------------------ what a field may say

  /**
   * A field is an entry exactly when its normal form is a list domain, or one
   * behind `*.` or between `||` and `^`. Paths, options and exceptions never are.
   */
  lemma FieldGrammar(lib: Library, raw: string, form: Form)
    ensures var text := NormalText(lib, raw);
            EntryForm(lib, raw) == Some(form) <==>
              && ListDomain(lib, form.domain)
              && ((form.kind.Exact? && text == form.domain)
                  || (form.kind.Suffix? && (text == "*." + form.domain || text == "||" + form.domain + "^")))
  {
    var text := NormalText(lib, raw);
    if ListDomain(lib, form.domain) {
      DomainMarks(lib, form.domain);
    }
    if HasPrefix(text, "||") && HasSuffix(text, "^") {
      Unbarred(text);
    } else if HasPrefix(text, "*.") {
      assert text == "*." + text[2..];
    }
    hide ListDomain, NormalText;
  }

  lemma Unbarred(text: string)
    requires HasPrefix(text, "||") && HasSuffix(text, "^")
    ensures text == "||" + TrimSuffix(TrimPrefix(text, "||"), "^") + "^"
  {
    assert |text| >= 3 by { assert text[0] == "||"[0] && text[1] == "||"[1] && text[|text| - 1] == "^"[0]; }
    var tail := text[2..];
    assert tail[|tail| - 1..] == "^";
  }

  /** The marks can be told from a domain, and taken off again. */
  lemma DomainMarks(lib: Library, domain: string)
    requires ListDomain(lib, domain)
    ensures !HasPrefix(domain, "||") && !HasPrefix(domain, "*.")
    ensures !HasPrefix("*." + domain, "||") && HasPrefix("*." + domain, "*.") && TrimPrefix("*." + domain, "*.") == domain
    ensures var bars := "||" + domain + "^";
            HasPrefix(bars, "||") && HasSuffix(bars, "^") && TrimSuffix(TrimPrefix(bars, "||"), "^") == domain
  {
    ValidText(lib, domain);
    assert NameChar(domain[0]) && "||"[0] == '|' && "*."[0] == '*';
    var bars := "||" + domain + "^";
    assert bars[2..] == domain + "^";
    assert (domain + "^")[|domain|..] == "^" && (domain + "^")[..|domain|] == domain;
    assert ("*." + domain)[2..] == domain && ("*." + domain)[0] == '*';
  }

  // ------------------------------------------------------- what a text may say

  /** The field is this entry: a deny entry for a list domain, written alone, behind `*.` or between `||` and `^`. */
  ghost predicate FieldSays(lib: Library, field: string, source: string, e: Entry) {
    var text := NormalText(lib, field);
    && !e.allow && e.source == source && ListDomain(lib, e.domain)
    && ((e.kind.Exact? && text == e.domain)
        || (e.kind.Suffix? && (text == "*." + e.domain || text == "||" + e.domain + "^")))
  }

  /** An address, or one with a zone after the first percent sign. */
  ghost predicate AddressField(lib: Library, field: string) {
    || lib.address(field)
    || exists k :: 0 <= k < |field| && field[k] == '%' && '%' !in field[..k] && lib.address(field[..k])
  }

  /**
   * The line says the entry: it is no browser filter, and of its words before a
   * comment this is one after the address of a hosts line, or the only one of a
   * line without an address.
   */
  ghost predicate LineSays(lib: Library, line: string, source: string, e: Entry) {
    var fields := Fields(lib, TrimSpace(lib, Before(line, '#')));
    && !(Contains(line, "##") || Contains(line, "#@#") || Contains(line, "#$#") || Contains(line, "#?#") || Contains(line, "#%#"))
    && exists i :: 0 <= i < |fields| && FieldSays(lib, fields[i], source, e)
                   && if AddressField(lib, fields[0]) then i > 0 else |fields| == 1
  }

  lemma AddressFieldIs(lib: Library, field: string)
    ensures HostsAddress(lib, field) <==> AddressField(lib, field)
  {
    var front := Before(field, '%');
    assert field[..|field|] == field;
    if '%' in field { assert field[|front|] == '%'; }
    forall k | 0 <= k < |field| && field[k] == '%' && '%' !in field[..k] ensures field[..k] == front {
      BeforeFirst(field, '%', k);
    }
  }

  lemma {:induction false} BeforeFirst(s: string, mark: char, k: nat)
    requires k < |s| && s[k] == mark && mark !in s[..k]
    ensures Before(s, mark) == s[..k]
  {
    if k > 0 {
      assert s[0] == s[..k][0] && s[1..][..k - 1] == s[..k][1..];
      BeforeFirst(s[1..], mark, k - 1);
      assert s[..k] == [s[0]] + s[1..][..k - 1];
    }
  }

  lemma CosmeticIs(line: string)
    ensures Cosmetic(line) <==>
            Contains(line, "##") || Contains(line, "#@#") || Contains(line, "#$#") || Contains(line, "#?#") || Contains(line, "#%#")
  {
    hide Contains;
    assert SEPARATORS[0] == "##" && SEPARATORS[1] == "#@#" && SEPARATORS[2] == "#$#" && SEPARATORS[3] == "#?#" && SEPARATORS[4] == "#%#";
  }

  lemma {:induction false} FieldEntriesHas(lib: Library, fields: seq<string>, source: string, e: Entry)
    ensures e in FieldEntries(lib, fields, source) <==> exists i :: 0 <= i < |fields| && FieldSays(lib, fields[i], source, e)
  {
    hide FieldSays, EntryForm;
    if fields != [] {
      hide FieldEntries;
      var n := |fields| - 1;
      var front := fields[..n];
      FieldEntriesHas(lib, front, source, e);
      LastField(lib, fields, source, e);
      if e in FieldEntries(lib, front, source) {
        var i :| 0 <= i < n && FieldSays(lib, front[i], source, e);
        assert fields[i] == front[i];
      }
      if i :| 0 <= i < n && FieldSays(lib, fields[i], source, e) {
        assert front[i] == fields[i];
      }
    }
  }

  lemma LastField(lib: Library, fields: seq<string>, source: string, e: Entry)
    requires fields != []
    ensures e in FieldEntries(lib, fields, source) <==>
            || e in FieldEntries(lib, fields[..|fields| - 1], source)
            || FieldSays(lib, fields[|fields| - 1], source, e)
  {
    FieldGrammar(lib, fields[|fields| - 1], Form(e.domain, e.kind));
    hide EntryForm, ListDomain, NormalText;
  }

  /** The entries of a line are exactly what it says. */
  lemma LineGrammar(lib: Library, line: string, source: string, e: Entry)
    ensures e in LineEntries(lib, line, source) <==> LineSays(lib, line, source, e)
  {
    CosmeticIs(line);
    var fields := Fields(lib, TrimSpace(lib, Before(line, '#')));
    FieldEntriesHas(lib, DomainFields(lib, line), source, e);
    if fields != [] { AddressFieldIs(lib, fields[0]); }
    hide FieldSays, Contains, AddressField, HostsAddress, FieldEntries, Cosmetic, TrimSpace, Fields;
    assert forall i :: 0 <= i < |fields| - 1 ==> fields[1..][i] == fields[i + 1];
    if fields != [] && HostsAddress(lib, fields[0]) {
      forall i | 0 < i < |fields| ensures fields[1..][i - 1] == fields[i] { }
    }
  }

  /** The entries of a text are exactly what its lines say. */
  lemma {:induction false} TextGrammar(lib: Library, lines: seq<string>, source: string, e: Entry)
    ensures e in TextEntries(lib, lines, source) <==> exists k :: 0 <= k < |lines| && LineSays(lib, lines[k], source, e)
  {
    hide LineSays, LineEntries;
    if lines != [] {
      hide TextEntries;
      var n := |lines| - 1;
      var front := lines[..n];
      TextGrammar(lib, front, source, e);
      LastLine(lib, lines, source, e);
      LineGrammar(lib, lines[n], source, e);
      if e in TextEntries(lib, front, source) {
        var k :| 0 <= k < n && LineSays(lib, front[k], source, e);
        assert lines[k] == front[k];
      }
      if k :| 0 <= k < n && LineSays(lib, lines[k], source, e) {
        assert front[k] == lines[k];
      }
    }
  }

  lemma LastLine(lib: Library, lines: seq<string>, source: string, e: Entry)
    requires lines != []
    ensures e in TextEntries(lib, lines, source) <==>
            e in TextEntries(lib, lines[..|lines| - 1], source) || e in LineEntries(lib, lines[|lines| - 1], source)
  {
    hide LineEntries;
  }
}
