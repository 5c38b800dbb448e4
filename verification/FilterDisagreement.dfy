/**
 * A query on which the two forms of the filter decision differ: a name with an
 * underscore, which is no valid domain, below a domain that a list holds.
 */
module FilterDisagreement {
  import opened Options
  import opened Text
  import opened Domains
  import opened BlocklistMatcher
  import opened FilterTables
  import opened FilterDecisions
  import opened RuleDecider
  import opened FilterAgreement

  const UNDERSCORE: string := "_x.tracker.example"
  const TRACKER: string := "tracker.example"

  lemma {:induction false} OneLabel(s: string)
    requires '.' !in s
    ensures Split(s) == [s]
  {
    if s != "" {
      OneLabel(s[1..]);
      assert s == [s[0]] + s[1..];
    }
  }

  lemma TwoLabels(a: string, b: string)
    requires '.' !in a && '.' !in b
    ensures Split(a + "." + b) == [a, b]
  {
    SplitConcat(a, b);
    OneLabel(a);
    OneLabel(b);
  }

  /** A name of two labels has no two dots next to each other. */
  lemma NoDoubleDot(a: string, b: string)
    requires '.' !in a && '.' !in b && b != ""
    ensures !Contains(a + "." + b, "..")
  {
    var s := a + "." + b;
    forall i | 0 <= i <= |s| ensures !HasPrefix(s[i..], "..") {
      if HasPrefix(s[i..], "..") {
        DotsAt(s, i);
      }
    }
  }

  lemma DotsAt(s: string, i: nat)
    requires i <= |s| && HasPrefix(s[i..], "..")
    ensures i + 1 < |s| && s[i] == '.' && s[i + 1] == '.'
  {
    assert s[i..][..2][0] == s[i] && s[i..][..2][1] == s[i + 1];
  }

  lemma TwoLabelDomain(lib: Library, a: string, b: string)
    requires ValidLabel(a) && ValidLabel(b) && |a| + |b| < 200 && !lib.address(a + "." + b)
    ensures ValidDomain(lib, a + "." + b)
  {
    LabelHasNoDot(a);
    LabelHasNoDot(b);
    TwoLabels(a, b);
    NoDoubleDot(a, b);
  }

  lemma LabelHasNoDot(a: string)
    requires ValidLabel(a)
    ensures '.' !in a
  {
  }

  lemma TrackerParts()
    ensures TRACKER == "tracker" + "." + "example" && ValidLabel("tracker") && ValidLabel("example")
  {
  }

  lemma TrackerIsNoAlias()
    ensures !LocalAlias(TRACKER)
  {
    assert |TRACKER| == 15 && TRACKER[0] == 't' && "ip6-mcastprefix"[0] == 'i';
  }

  lemma TrackerIsNoAddress(lib: Library)
    ensures !lib.address(TRACKER)
  {
    assert TRACKER[0] == 't';
  }

  /** A list may hold the tracker, whatever the library says of addresses. */
  lemma TrackerIsListDomain(lib: Library)
    ensures ListDomain(lib, TRACKER)
  {
    TrackerParts();
    TrackerIsNoAlias();
    TrackerIsNoAddress(lib);
    hide ValidDomain, LocalAlias, ValidLabel;
    TwoLabelDomain(lib, "tracker", "example");
  }

  /** Text of name characters and underscores is what both normal forms make of it. */
  lemma PlainText(lib: Library, s: string)
    requires s != "" && s[|s| - 1] != '.' && forall i :: 0 <= i < |s| ==> NameChar(s[i]) || s[i] == '_'
    ensures FilterName(lib, s) == s && NormalText(lib, s) == s
  {
    forall i | 0 <= i < |s| ensures lib.lower(s[i]) == s[i] && !lib.space(s[i]) {
      assert NameChar(s[i]) || s[i] == '_';
    }
    assert Lower(lib, s) == s;
    TightIsTrimmed(lib, s);
    assert !HasSuffix(s, ".") by { assert "."[0] == '.'; }
    hide Lower, TrimSpace, NameChar;
  }

  lemma PrefixedText(prefix: string, domain: string)
    requires NameText(domain) && domain != "" && domain[|domain| - 1] != '.'
    requires forall i :: 0 <= i < |prefix| ==> NameChar(prefix[i]) || prefix[i] == '_'
    ensures var s := prefix + "." + domain;
            && s != "" && s[|s| - 1] != '.' && (forall i :: 0 <= i < |s| ==> NameChar(s[i]) || s[i] == '_')
            && Under(s, domain)
  {
    var s := prefix + "." + domain;
    assert s[|prefix|..] == "." + domain;
    forall i | 0 <= i < |s| ensures NameChar(s[i]) || s[i] == '_' {
      if i > |prefix| { assert s[i] == domain[i - |prefix| - 1]; } else if i == |prefix| { assert s[i] == '.'; }
    }
  }

  lemma UnderscoreIsInvalid(lib: Library)
    ensures FilterName(lib, UNDERSCORE) == UNDERSCORE && NormalName(lib, UNDERSCORE).None? && Under(UNDERSCORE, TRACKER)
  {
    TrackerIsListDomain(lib);
    ValidText(lib, TRACKER);
    hide ListDomain, Under, FilterName, NormalText;
    assert UNDERSCORE == "_x" + "." + TRACKER;
    PrefixedText("_x", TRACKER);
    PlainText(lib, UNDERSCORE);
    UnderscoreIsNoDomain(lib);
  }

  lemma UnderscoreIsNoDomain(lib: Library)
    ensures !ValidDomain(lib, UNDERSCORE)
  {
    assert !NameChar(UNDERSCORE[0]);
    if ValidDomain(lib, UNDERSCORE) {
      ValidText(lib, UNDERSCORE);
    }
  }

  /**
   * At `_x.tracker.example`, with a deny list that holds `tracker.example` and
   * everything below: the query-time decision denies, and the snapshot allows
   * the query as one with an invalid name.
   */
  lemma UnderscoreDisagrees(lib: Library, key: string)
    ensures !SameName(lib, UNDERSCORE)
    ensures Plain(lib, OneDomain(TRACKER)) && Mirrors(lib, Snapshot([], map[], map[]), OneDomain(TRACKER))
    ensures var answer := ServiceAnswer(lib, OneDomain(TRACKER), UNDERSCORE, Address(key));
            answer.Answered? && answer.decision.action.Denied?
    ensures SnapshotRuling(lib, Snapshot([], map[], map[]), Scan(lib, ListedEntries(OneDomain(TRACKER)), UNDERSCORE), UNDERSCORE, key)
            == Ruling(Allowed, "invalid query name", 0)
  {
    TrackerIsListDomain(lib);
    UnderscoreIsInvalid(lib);
    hide ListDomain, ValidDomain, FilterName, Under;
    MayBeListedMeans(lib, UNDERSCORE);
    OneDomainSees(lib, TRACKER, UNDERSCORE);
    NoRulesMirrored(lib, TRACKER);
    ServiceWithoutRules(lib, OneDomain(TRACKER), UNDERSCORE, key);
    SnapshotWithoutRules(lib, InvalidName, UNDERSCORE, key);
  }
}
