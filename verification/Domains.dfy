/**
 * The normal form of domain names in blocklists, and the entries made of them.
 */
module Domains {
  import opened Options
  import opened Text

  datatype Kind = Exact | Suffix | Regex

  datatype Entry = Entry(domain: string, kind: Kind, allow: bool, source: string)

  /** What an entry comes down to: a domain, alone or with everything below it. */
  datatype Form = Form(domain: string, kind: Kind)

  predicate LabelChar(c: char) {
    'a' <= c <= 'z' || '0' <= c <= '9' || c == '-'
  }

  predicate ValidLabel(part: string) {
    && 0 < |part| <= 63
    && part[0] != '-' && part[|part| - 1] != '-'
    && forall i :: 0 <= i < |part| ==> LabelChar(part[i])
  }

  predicate ValidDomain(lib: Library, domain: string) {
    && domain != "" && |domain| <= 253
    && !lib.address(domain)
    && !Contains(domain, "..")
    && var labels := Split(domain);
       forall i :: 0 <= i < |labels| ==> ValidLabel(labels[i])
  }

  predicate LocalAlias(domain: string) {
    domain in ["localhost", "localhost.localdomain", "localhost6", "localhost6.localdomain6", "local", "broadcasthost",
               "ip6-localhost", "ip6-loopback", "ip6-localnet", "ip6-mcastprefix", "ip6-allnodes", "ip6-allrouters",
               "ip6-allhosts"]
  }

  /** A domain that a blocklist may hold. */
  predicate ListDomain(lib: Library, domain: string) {
    ValidDomain(lib, domain) && !LocalAlias(domain)
  }

  function NormalText(lib: Library, raw: string): string {
    TrimDots(Lower(lib, TrimSpace(lib, raw)))
  }

  function NormalName(lib: Library, raw: string): Option<string> {
    var domain := NormalText(lib, raw);
    if ValidDomain(lib, domain) then Some(domain) else None
  }

  /** How the index reads an entry, if it accepts it. */
  function StoredForm(lib: Library, entry: Entry): Option<Form> {
    match entry.kind
    case Exact =>
      var name := NormalName(lib, entry.domain);
      if name.None? || HasPrefix(name.value, "*.") || LocalAlias(name.value) then None else Some(Form(name.value, Exact))
    case Suffix =>
      var domain := TrimPrefix(NormalText(lib, entry.domain), "*.");
      if ListDomain(lib, domain) then Some(Form(domain, Suffix)) else None
    case Regex => None
  }

  // --------------------------------------------------------------- characters

  predicate NameChar(c: char) {
    c == '.' || LabelChar(c)
  }

  predicate NameText(s: string) {
    forall i :: 0 <= i < |s| ==> NameChar(s[i])
  }

  lemma LabelCharsGiveNameText(s: string)
    requires forall i, j :: 0 <= i < |Split(s)| && 0 <= j < |Split(s)[i]| ==> LabelChar(Split(s)[i][j])
    ensures NameText(s)
  {
    if s != "" {
      var labels, rest := Split(s), Split(s[1..]);
      if s[0] == '.' {
        forall i, j | 0 <= i < |rest| && 0 <= j < |rest[i]| ensures LabelChar(rest[i][j]) {
          assert rest[i] == labels[i + 1];
        }
      } else {
        assert LabelChar(labels[0][0]);
        forall i, j | 0 <= i < |rest| && 0 <= j < |rest[i]| ensures LabelChar(rest[i][j]) {
          if i == 0 { assert rest[0][j] == labels[0][j + 1]; } else { assert rest[i] == labels[i]; }
        }
      }
      LabelCharsGiveNameText(s[1..]);
    }
  }

  lemma FirstLabel(s: string)
    requires s != "" && s[0] == '.'
    ensures Split(s)[0] == ""
  {
  }

  lemma {:induction false} LastLabel(s: string)
    requires s != "" && s[|s| - 1] == '.'
    ensures Split(s)[|Split(s)| - 1] == ""
  {
    if |s| > 1 {
      LastLabel(s[1..]);
      SplitEmpty(s[1..]);
    }
  }

  /** A valid domain is made of name characters and has no dot at either end. */
  lemma ValidText(lib: Library, domain: string)
    requires ValidDomain(lib, domain)
    ensures NameText(domain) && domain[0] != '.' && domain[|domain| - 1] != '.'
  {
    LabelCharsGiveNameText(domain);
    if domain[0] == '.' { FirstLabel(domain); }
    if domain[|domain| - 1] == '.' { LastLabel(domain); }
  }

  lemma {:induction false} NameTextIsLower(lib: Library, s: string)
    requires NameText(s)
    ensures Lower(lib, s) == s && forall i :: 0 <= i < |s| ==> !lib.space(s[i])
  {
    forall i | 0 <= i < |s| ensures lib.lower(s[i]) == s[i] && !lib.space(s[i]) {
      assert NameChar(s[i]);
    }
  }

  // -------------------------------------------------------------- fixed points

  /** A valid domain is its own normal form. */
  lemma ValidIsNormal(lib: Library, domain: string)
    requires ValidDomain(lib, domain)
    ensures NormalText(lib, domain) == domain && NormalName(lib, domain) == Some(domain)
    ensures TrimSpace(lib, domain) == domain && Lower(lib, domain) == domain && TrimDots(domain) == domain
  {
    ValidText(lib, domain);
    NameTextIsLower(lib, domain);
    TightIsTrimmed(lib, domain);
  }

  /** Reading an entry twice is reading it once, and only list domains are kept. */
  lemma StoredFormIsFixed(lib: Library, entry: Entry)
    requires StoredForm(lib, entry).Some?
    ensures var form := StoredForm(lib, entry).value;
            && ListDomain(lib, form.domain) && form.kind == entry.kind
            && StoredForm(lib, entry.(domain := form.domain)) == Some(form)
  {
    ListDomainIsStored(lib, entry.(domain := StoredForm(lib, entry).value.domain));
  }

  lemma ListDomainIsStored(lib: Library, entry: Entry)
    requires ListDomain(lib, entry.domain) && !entry.kind.Regex?
    ensures StoredForm(lib, entry) == Some(Form(entry.domain, entry.kind))
  {
    ValidIsNormal(lib, entry.domain);
    ValidText(lib, entry.domain);
    assert NameChar(entry.domain[0]) && "*."[0] == '*';
  }

  // -------------------------------------------------------------- what is a form

  lemma {:induction false} TrimDotsIs(text: string, domain: string)
    requires domain == "" || domain[|domain| - 1] != '.'
    ensures TrimDots(text) == domain <==>
            |domain| <= |text| && text[..|domain|] == domain && forall i :: |domain| <= i < |text| ==> text[i] == '.'
  {
    if text != "" && text[|text| - 1] == '.' {
      var front := text[..|text| - 1];
      TrimDotsIs(front, domain);
      if |domain| <= |front| { assert text[..|domain|] == front[..|domain|]; }
      if |domain| == |text| { assert text[..|domain|] == text; }
    } else if |domain| <= |text| {
      if |domain| == |text| { assert text[..|domain|] == text; } else { assert text[|text| - 1] != '.'; }
    }
  }

  /** A text has a domain for its normal form if it is that domain in some case, with space around it and dots after it. */
  lemma NormalNameMeans(lib: Library, raw: string, domain: string)
    requires ValidDomain(lib, domain)
    ensures var text := Lower(lib, TrimSpace(lib, raw));
            NormalName(lib, raw) == Some(domain) <==>
            |domain| <= |text| && text[..|domain|] == domain && forall i :: |domain| <= i < |text| ==> text[i] == '.'
  {
    ValidText(lib, domain);
    TrimDotsIs(Lower(lib, TrimSpace(lib, raw)), domain);
    hide ValidDomain, Lower, TrimSpace, TrimDots, NameText;
  }

  /** The index keeps an entry that is a list domain; one for everything below it may be marked. */
  lemma StoredFormMeans(lib: Library, entry: Entry, form: Form)
    ensures var text := NormalText(lib, entry.domain);
            StoredForm(lib, entry) == Some(form) <==>
            && ListDomain(lib, form.domain) && form.kind == entry.kind
            && ((form.kind.Exact? && text == form.domain)
                || (form.kind.Suffix? && (text == form.domain || text == "*." + form.domain)))
  {
    var text := NormalText(lib, entry.domain);
    if ListDomain(lib, form.domain) { Unmarked(lib, form.domain); }
    if ValidDomain(lib, text) { Unmarked(lib, text); }
    MarkedIs(text);
    hide ValidDomain, NormalText, LocalAlias, HasPrefix;
  }

  lemma Unmarked(lib: Library, domain: string)
    requires ValidDomain(lib, domain)
    ensures !HasPrefix(domain, "*.") && TrimPrefix(domain, "*.") == domain
    ensures TrimPrefix("*." + domain, "*.") == domain
  {
    ValidText(lib, domain);
    assert NameChar(domain[0]) && "*."[0] == '*' && ("*." + domain)[2..] == domain;
  }

  lemma MarkedIs(text: string)
    ensures HasPrefix(text, "*.") ==> text == "*." + TrimPrefix(text, "*.")
    ensures !HasPrefix(text, "*.") ==> TrimPrefix(text, "*.") == text
  {
  }
}
