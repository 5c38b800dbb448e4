/**
 * What the list grammar gives back: parsed entries are in normal form, and a
 * list written out in either syntax is read back entry by entry.
 */
module ListRoundTrip {
  import opened Options
  import opened Text
  import opened Domains
  import opened ListParser

  predicate Importable(lib: Library, e: Entry) {
    ListDomain(lib, e.domain) && !e.kind.Regex? && !e.allow
  }

  lemma {:induction false} FieldEntriesImportable(lib: Library, fields: seq<string>, source: string)
    ensures forall e :: e in FieldEntries(lib, fields, source) ==> Importable(lib, e) && e.source == source
  {
    if fields != [] {
      FieldEntriesImportable(lib, fields[..|fields| - 1], source);
      FormIsImportable(lib, fields[|fields| - 1], source);
      hide EntryForm, Importable;
    }
  }

  lemma FormIsImportable(lib: Library, field: string, source: string)
    ensures var form := EntryForm(lib, field);
            form.Some? ==> Importable(lib, Entry(form.value.domain, form.value.kind, false, source))
  {
  }

  /** Every parsed entry is a deny entry of a list domain, which the index takes as it stands. */
  lemma {:induction false} ParsedAreImportable(lib: Library, lines: seq<string>, source: string)
    ensures forall e :: e in TextEntries(lib, lines, source) ==>
              Importable(lib, e) && e.source == source && StoredForm(lib, e) == Some(Form(e.domain, e.kind))
  {
    hide FieldEntries, StoredForm, ListDomain;
    if lines != [] {
      ParsedAreImportable(lib, lines[..|lines| - 1], source);
      var last := DomainFields(lib, lines[|lines| - 1]);
      FieldEntriesImportable(lib, last, source);
      forall e | e in FieldEntries(lib, last, source) ensures StoredForm(lib, e) == Some(Form(e.domain, e.kind)) {
        ListDomainIsStored(lib, e);
      }
    }
  }

  // ----------------------------------------------------------------- one field

  function Printed(e: Entry): string {
    if e.kind.Suffix? then "||" + e.domain + "^" else e.domain
  }

  /** Text that stays one field of a line: no space, and no comment mark, which would cut the line off. */
  predicate Solid(lib: Library, s: string) {
    forall i :: 0 <= i < |s| ==> !lib.space(s[i]) && s[i] != '#'
  }

  lemma DomainIsSolid(lib: Library, domain: string)
    requires ListDomain(lib, domain)
    ensures Solid(lib, domain) && NameText(domain)
    ensures '%' !in domain
  {
    ValidText(lib, domain);
    NameTextIsLower(lib, domain);
  }

  lemma PrintedIsSolid(lib: Library, e: Entry)
    requires ListDomain(lib, e.domain)
    ensures Printed(e) != "" && Solid(lib, Printed(e)) && '%' !in Printed(e)
  {
    DomainIsSolid(lib, e.domain);
    var s := Printed(e);
    forall i | 0 <= i < |s| ensures !lib.space(s[i]) && s[i] != '#' && s[i] != '%' {
      assert s[i] in "||^" || s[i] in e.domain;
    }
  }

  lemma NotAnAddress(lib: Library, e: Entry)
    requires ListDomain(lib, e.domain)
    ensures !HostsAddress(lib, Printed(e))
  {
    PrintedIsSolid(lib, e);
    assert e.kind.Suffix? ==> Printed(e)[0] == '|';
  }

  lemma PrintedForm(lib: Library, e: Entry)
    requires Importable(lib, e)
    ensures EntryForm(lib, Printed(e)) == Some(Form(e.domain, e.kind))
  {
    PrintedIsSolid(lib, e);
    PrintedIsNormal(lib, e);
    FieldGrammar(lib, Printed(e), Form(e.domain, e.kind));
  }

  lemma PrintedIsNormal(lib: Library, e: Entry)
    requires ListDomain(lib, e.domain)
    ensures NormalText(lib, Printed(e)) == Printed(e)
  {
    if e.kind.Suffix? {
      var s := Printed(e);
      PrintedIsSolid(lib, e);
      TightIsTrimmed(lib, s);
      DomainIsSolid(lib, e.domain);
      NameTextIsLower(lib, e.domain);
      assert Lower(lib, s) == s by {
        forall i | 0 <= i < |s| ensures lib.lower(s[i]) == s[i] {
          if 2 <= i < |s| - 1 { assert s[i] == e.domain[i - 2] && Lower(lib, e.domain)[i - 2] == e.domain[i - 2]; }
        }
      }
      assert s[|s| - 1] == '^';
    } else {
      ValidIsNormal(lib, e.domain);
    }
  }

  // ------------------------------------------------------------------ one line

  lemma Marked(line: string, part: string)
    requires part != "" && Contains(line, part)
    ensures part[0] in line
  {
    var at :| 0 <= at <= |line| && HasPrefix(line[at..], part);
    assert line[at..][..|part|][0] == line[at];
  }

  lemma NoMark(line: string)
    requires '#' !in line
    ensures !Cosmetic(line) && Before(line, '#') == line
  {
    if i :| 0 <= i < |SEPARATORS| && Contains(line, SEPARATORS[i]) {
      Marked(line, SEPARATORS[i]);
    }
  }

  lemma {:induction false} WholeWord(lib: Library, word: string, rest: string)
    requires Solid(lib, word) && (rest == "" || lib.space(rest[0]))
    ensures Word(lib, word + rest) == word
  {
    if word == "" {
      assert word + rest == rest;
    } else {
      assert (word + rest)[1..] == word[1..] + rest;
      WholeWord(lib, word[1..], rest);
    }
  }

  lemma OneField(lib: Library, word: string)
    requires word != "" && Solid(lib, word)
    ensures Fields(lib, word) == [word] && TrimSpace(lib, word) == word
  {
    assert word + "" == word;
    WholeWord(lib, word, "");
    TightIsTrimmed(lib, word);
    assert word[|word|..] == "";
  }

  lemma PrintedLine(lib: Library, e: Entry)
    requires Importable(lib, e)
    ensures LineEntries(lib, Printed(e), e.source) == [e]
  {
    var line := Printed(e);
    PrintedIsSolid(lib, e);
    NoMark(line);
    OneField(lib, line);
    NotAnAddress(lib, e);
    PrintedForm(lib, e);
    hide EntryForm, HostsAddress, Cosmetic, Printed, Fields, TrimSpace, Before, ListDomain;
    assert DomainFields(lib, line) == [line];
    assert [line][..0] == [] && FieldEntries(lib, [], e.source) == [];
    assert FieldEntries(lib, [line], e.source) == [Entry(e.domain, e.kind, false, e.source)];
  }

  function PrintedLines(entries: seq<Entry>): (lines: seq<string>)
    ensures |lines| == |entries|
    ensures forall i :: 0 <= i < |entries| ==> lines[i] == Printed(entries[i])
  {
    seq(|entries|, i requires 0 <= i < |entries| => Printed(entries[i]))
  }

  /** Any list that could be imported is read back exactly, in order and with its repeats. */
  lemma {:induction false} PrintThenParse(lib: Library, entries: seq<Entry>, source: string)
    requires forall e :: e in entries ==> Importable(lib, e) && e.source == source
    ensures TextEntries(lib, PrintedLines(entries), source) == entries
  {
    hide Importable, LineEntries;
    if entries != [] {
      var n := |entries| - 1;
      PrintThenParse(lib, entries[..n], source);
      PrintedLine(lib, entries[n]);
      assert PrintedLines(entries)[..n] == PrintedLines(entries[..n]);
      assert entries == entries[..n] + [entries[n]];
    }
  }

  // -------------------------------------------------------------- a hosts line

  function Spaced(words: seq<string>): string {
    if words == [] then "" else " " + words[0] + Spaced(words[1..])
  }

  lemma {:induction false} SpacedText(lib: Library, words: seq<string>)
    requires forall w :: w in words ==> w != "" && Solid(lib, w)
    ensures '#' !in Spaced(words)
    ensures Spaced(words) != "" ==> Spaced(words)[0] == ' ' && !lib.space(Spaced(words)[|Spaced(words)| - 1])
  {
    if words != [] {
      assert words[0] in words && forall w :: w in words[1..] ==> w in words;
      SpacedText(lib, words[1..]);
    }
  }

  /** A word, then space: the first field and the fields of the rest. */
  lemma FieldsNext(lib: Library, word: string, rest: string)
    requires word != "" && Solid(lib, word) && (rest == "" || lib.space(rest[0]))
    ensures Fields(lib, " " + word + rest) == [word] + Fields(lib, rest)
    ensures Fields(lib, word + rest) == [word] + Fields(lib, rest)
  {
    var line := word + rest;
    assert !lib.space(line[0]) by { assert line[0] == word[0]; }
    hide Solid;
    WholeWord(lib, word, rest);
    hide Word;
    assert line[|word|..] == rest;
    assert Fields(lib, line) == [word] + Fields(lib, rest);
    hide Fields;
    assert " " + word + rest == " " + line;
    FieldsAfterSpace(lib, line);
  }

  lemma FieldsAfterSpace(lib: Library, line: string)
    ensures Fields(lib, " " + line) == Fields(lib, line)
  {
    var spaced := " " + line;
    assert spaced[0] == ' ' && spaced[1..] == line;
  }

  lemma {:induction false} SpacedFields(lib: Library, words: seq<string>)
    requires forall w :: w in words ==> w != "" && Solid(lib, w)
    ensures Fields(lib, Spaced(words)) == words
  {
    hide Fields, Solid;
    if words == [] {
      NoFields(lib);
    } else {
      assert words[0] in words && forall w :: w in words[1..] ==> w in words;
      SpacedFields(lib, words[1..]);
      SpacedText(lib, words[1..]);
      FieldsNext(lib, words[0], Spaced(words[1..]));
    }
  }

  lemma NoFields(lib: Library)
    ensures Fields(lib, "") == []
  {
  }

  lemma {:induction false} ExactFields(lib: Library, domains: seq<string>, source: string)
    requires forall d :: d in domains ==> ListDomain(lib, d)
    ensures FieldEntries(lib, domains, source) == seq(|domains|, i requires 0 <= i < |domains| => Entry(domains[i], Exact, false, source))
  {
    hide EntryForm;
    if domains != [] {
      var n := |domains| - 1;
      assert domains[n] in domains && forall d :: d in domains[..n] ==> d in domains;
      ExactFields(lib, domains[..n], source);
      PrintedForm(lib, Entry(domains[n], Exact, false, source));
    }
  }

  lemma HostsFields(lib: Library, address: string, domains: seq<string>)
    requires HostsAddress(lib, address) && Solid(lib, address) && forall d :: d in domains ==> ListDomain(lib, d)
    ensures DomainFields(lib, address + Spaced(domains)) == domains
  {
    forall d | d in domains ensures d != "" && Solid(lib, d) { DomainIsSolid(lib, d); }
    var rest := Spaced(domains);
    SpacedFields(lib, domains);
    SpacedText(lib, domains);
    FieldsNext(lib, address, rest);
    HostsText(lib, address, rest);
    hide Fields, Solid, ListDomain, Spaced, Cosmetic, Before, TrimSpace;
  }

  lemma HostsText(lib: Library, address: string, rest: string)
    requires address != "" && Solid(lib, address) && '#' !in rest && (rest != "" ==> !lib.space(rest[|rest| - 1]))
    ensures !Cosmetic(address + rest) && TrimSpace(lib, Before(address + rest, '#')) == address + rest
  {
    var line := address + rest;
    assert '#' !in line;
    NoMark(line);
    assert line[0] == address[0] && line[|line| - 1] == if rest == "" then address[|address| - 1] else rest[|rest| - 1];
    TightIsTrimmed(lib, line);
  }

  /** A hosts line lists any number of domains after an address, each blocked by itself. */
  lemma HostsLineParses(lib: Library, address: string, domains: seq<string>, source: string)
    requires HostsAddress(lib, address) && Solid(lib, address) && forall d :: d in domains ==> ListDomain(lib, d)
    ensures LineEntries(lib, address + Spaced(domains), source) ==
            seq(|domains|, i requires 0 <= i < |domains| => Entry(domains[i], Exact, false, source))
  {
    HostsFields(lib, address, domains);
    ExactFields(lib, domains, source);
  }
}
