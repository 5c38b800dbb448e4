/**
 * Valid names told by their characters, without their labels (section 2.3.1 of
 * RFC 1035, with digits first as in section 2.1 of RFC 1123).
 */
module DomainCharacters {
  import opened Text
  import opened Domains
  import opened LocalDns

  predicate NameLetter(c: char) {
    'a' <= c <= 'z' || '0' <= c <= '9' || c == '-' || c == '.'
  }

  predicate Edge(c: char) {
    c == '-' || c == '.'
  }

  /** Wherever 64 characters follow each other, one of them is a dot. */
  ghost predicate ShortRuns(s: string) {
    forall i: nat :: i + 64 <= |s| ==> DotFrom(s, i)
  }

  ghost predicate DotFrom(s: string, from: nat)
    requires from + 64 <= |s|
  {
    exists j :: from <= j < from + 64 && s[j] == '.'
  }

  predicate Letters(s: string) {
    forall i :: 0 <= i < |s| ==> NameLetter(s[i])
  }

  predicate NoEdges(s: string) {
    s != "" && !Edge(s[0]) && !Edge(s[|s| - 1])
  }

  /** Of two neighbours one is a letter or digit, or both are hyphens. */
  predicate Apart(s: string) {
    forall i: nat :: i + 1 < |s| ==> Neighbours(s, i)
  }

  predicate Neighbours(s: string, i: nat)
    requires i + 1 < |s|
  {
    !Edge(s[i]) || !Edge(s[i + 1]) || (s[i] == '-' && s[i + 1] == '-')
  }

  /** Letters, digits, hyphens and dots; no dot or hyphen at an end or next to a dot; no long run without a dot. */
  ghost predicate WellSpelled(s: string) {
    Letters(s) && NoEdges(s) && Apart(s) && ShortRuns(s)
  }

  predicate ValidLabels(s: string) {
    forall i :: 0 <= i < |Split(s)| ==> ValidLabel(Split(s)[i])
  }

  lemma OneLabel(s: string)
    requires '.' !in s
    ensures Split(s) == [s]
  {
    if s != "" { assert s == [s[0]] + s[1..]; OneLabel(s[1..]); }
  }

  lemma LabelSpelled(s: string)
    requires '.' !in s
    ensures WellSpelled(s) <==> ValidLabel(s)
  {
    RunsOfLabel(s);
    if ValidLabel(s) {
      forall i | 0 <= i < |s| ensures NameLetter(s[i]) && s[i] != '.' { assert LabelChar(s[i]); }
    }
  }

  lemma RunsJoin(a: string, b: string)
    requires '.' !in a
    ensures ShortRuns(a + "." + b) <==> |a| < 64 && ShortRuns(b)
  {
    var s, n := a + "." + b, |a| + 1;
    if |a| >= 64 { assert !DotFrom(s, 0); }
    if ShortRuns(s) {
      forall i: nat | i + 64 <= |b| ensures DotFrom(b, i) {
        assert DotFrom(s, n + i);
        var j :| n + i <= j < n + i + 64 && s[j] == '.';
        assert b[j - n] == '.';
      }
    }
    if |a| < 64 && ShortRuns(b) {
      forall i: nat | i + 64 <= |s| ensures DotFrom(s, i) {
        if i <= |a| {
          assert s[|a|] == '.';
        } else {
          assert DotFrom(b, i - n);
          var j :| i - n <= j < i - n + 64 && b[j] == '.';
          assert s[j + n] == '.';
        }
      }
    }
  }

  lemma LettersJoin(a: string, b: string)
    ensures Letters(a + "." + b) <==> Letters(a) && Letters(b)
  {
    var s, n := a + "." + b, |a| + 1;
    if Letters(s) {
      forall i | 0 <= i < |a| ensures NameLetter(a[i]) { assert s[i] == a[i]; }
      forall i | 0 <= i < |b| ensures NameLetter(b[i]) { assert s[n + i] == b[i]; }
    }
  }

  /** A dot wants letters or digits on both sides. */
  lemma ApartJoin(a: string, b: string)
    requires a != "" && b != ""
    ensures Apart(a + "." + b) <==> Apart(a) && Apart(b) && !Edge(a[|a| - 1]) && !Edge(b[0])
  {
    var s, n := a + "." + b, |a| + 1;
    if Apart(s) {
      forall i: nat | i + 1 < |a| ensures Neighbours(a, i) { assert Neighbours(s, i); }
      forall i: nat | i + 1 < |b| ensures Neighbours(b, i) { assert Neighbours(s, n + i); }
      assert Neighbours(s, |a| - 1) && Neighbours(s, |a|);
    }
    if Apart(a) && Apart(b) && !Edge(a[|a| - 1]) && !Edge(b[0]) {
      forall i: nat | i + 1 < |s| ensures Neighbours(s, i) {
        if i + 1 < |a| { assert Neighbours(a, i); } else if i >= n { assert Neighbours(b, i - n); }
      }
    }
  }

  lemma SpelledJoin(a: string, b: string)
    requires '.' !in a
    ensures WellSpelled(a + "." + b) <==> WellSpelled(a) && WellSpelled(b)
  {
    RunsJoin(a, b);
    RunsOfLabel(a);
    LettersJoin(a, b);
    var s := a + "." + b;
    if a != "" && b != "" {
      ApartJoin(a, b);
      assert s[0] == a[0] && s[|s| - 1] == b[|b| - 1];
    } else if a == "" {
      assert s[0] == '.';
    } else {
      assert s[|s| - 1] == '.';
    }
    hide ShortRuns, Letters, Apart;
  }

  lemma RunsOfLabel(a: string)
    requires '.' !in a
    ensures ShortRuns(a) <==> |a| < 64
  {
    if |a| >= 64 { assert !DotFrom(a, 0); }
  }

  lemma FirstLabelOff(s: string) returns (first: string, rest: string)
    requires '.' in s
    ensures '.' !in first && s == first + "." + rest && |rest| < |s|
  {
    first := Before(s, '.');
    assert s[..|s|] == s;
    rest := s[|first| + 1..];
  }

  /** The labels are valid exactly if the characters are right. */
  lemma {:induction false} LabelsByCharacters(s: string)
    ensures ValidLabels(s) <==> WellSpelled(s)
    decreases |s|
  {
    hide ValidLabel, WellSpelled, Split;
    if '.' in s {
      var first, rest := FirstLabelOff(s);
      OneLabel(first);
      SplitConcat(first, rest);
      SpelledJoin(first, rest);
      LabelSpelled(first);
      LabelsByCharacters(rest);
      assert Split(s) == [first] + Split(rest);
      FirstAndRest(first, Split(rest));
    } else {
      OneLabel(s);
      LabelSpelled(s);
      assert [s][0] == s;
    }
  }

  lemma FirstAndRest(first: string, labels: seq<string>)
    ensures (forall i :: 0 <= i < |[first] + labels| ==> ValidLabel(([first] + labels)[i]))
            <==> ValidLabel(first) && forall i :: 0 <= i < |labels| ==> ValidLabel(labels[i])
  {
    hide ValidLabel;
    var all := [first] + labels;
    if forall i :: 0 <= i < |all| ==> ValidLabel(all[i]) {
      assert ValidLabel(all[0]);
      forall i | 0 <= i < |labels| ensures ValidLabel(labels[i]) { assert all[i + 1] == labels[i]; }
    }
  }

  /** A domain of a blocklist or a query, and the name of a local record, by their characters. */
  lemma ValidByCharacters(lib: Library, name: string)
    ensures ValidDomain(lib, name) <==> |name| <= 253 && WellSpelled(name) && !lib.address(name)
    ensures ValidName(name) <==> |name| <= 253 && WellSpelled(name)
  {
    LabelsByCharacters(name);
    if WellSpelled(name) { NoDoubleDot(name); }
    hide ValidLabel, Split, WellSpelled, Contains;
  }

  lemma NoDoubleDot(name: string)
    requires WellSpelled(name)
    ensures name != "" && !Contains(name, "..")
  {
    forall i | 0 <= i <= |name| ensures !HasPrefix(name[i..], "..") {
      if i + 2 <= |name| {
        assert Neighbours(name, i);
        assert name[i..][..2] == [name[i], name[i + 1]];
      }
    }
  }

  /** A blocklist may hold every valid domain but the names that a hosts file gives the host itself. */
  lemma ListDomainMeans(lib: Library, name: string)
    ensures ListDomain(lib, name) <==>
            && |name| <= 253 && WellSpelled(name) && !lib.address(name)
            && name != "localhost" && name != "localhost.localdomain" && name != "localhost6" && name != "localhost6.localdomain6"
            && name != "local" && name != "broadcasthost" && name != "ip6-localhost" && name != "ip6-loopback"
            && name != "ip6-localnet" && name != "ip6-mcastprefix" && name != "ip6-allnodes" && name != "ip6-allrouters"
            && name != "ip6-allhosts"
  {
    ValidByCharacters(lib, name);
    hide ValidDomain, WellSpelled, ValidName;
  }
}
