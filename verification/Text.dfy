/**
 * Strings as the filtering engine handles them: case, space, dots and the
 * library questions (is it an address, does a pattern compile and match) that
 * are answered outside the model.
 */
module Text {
  datatype Answers = Answers(
    lower: char -> char,
    space: char -> bool,
    address: string -> bool,
    compiles: string -> bool,
    finds: (string, string) -> bool)

  const Letters: Answers :=
    Answers(c => AsciiLower(c), c => AsciiSpace(c), _ => false, _ => true, (_, _) => false)

  function AsciiLower(c: char): char {
    if 'A' <= c <= 'Z' then (c as int + 32) as char else c
  }

  predicate AsciiSpace(c: char) {
    9 <= c as int <= 13 || c == ' '
  }

  /**
   * What is assumed of the answers: Unicode case mapping and white space are
   * fixed on ASCII, a lower-case letter stays what it is, and an address starts
   * with a hexadecimal digit or a colon.
   */
  ghost predicate Standard(a: Answers) {
    && (forall s: string :: a.address(s) ==> s != "" && s[0] in "0123456789abcdefABCDEF:")
    && (forall c: char :: c as int < 128 ==> a.lower(c) == AsciiLower(c) && a.space(c) == AsciiSpace(c))
    && (forall c: char :: c as int >= 128 ==> 'a' <= a.lower(c) <= 'z' || a.lower(c) as int >= 128)
    && (forall c: char :: a.lower(a.lower(c)) == a.lower(c))
    && (forall c: char :: a.space(a.lower(c)) == a.space(c))
  }

  type Library = a: Answers | Standard(a) witness Letters

  // ----------------------------------------------------------------- pieces

  predicate HasPrefix(s: string, prefix: string) {
    |prefix| <= |s| && s[..|prefix|] == prefix
  }

  predicate HasSuffix(s: string, suffix: string) {
    |suffix| <= |s| && s[|s| - |suffix|..] == suffix
  }

  function TrimPrefix(s: string, prefix: string): string {
    if HasPrefix(s, prefix) then s[|prefix|..] else s
  }

  function TrimSuffix(s: string, suffix: string): string {
    if HasSuffix(s, suffix) then s[..|s| - |suffix|] else s
  }

  predicate Contains(s: string, part: string) {
    exists i :: 0 <= i <= |s| && HasPrefix(s[i..], part)
  }

  /** The text before the first occurrence of the mark. */
  function Before(s: string, mark: char): (r: string)
    ensures |r| <= |s| && r == s[..|r|] && mark !in r && (|r| < |s| ==> s[|r|] == mark)
  {
    if s == "" || s[0] == mark then "" else [s[0]] + Before(s[1..], mark)
  }

  function Lower(lib: Library, s: string): (r: string)
    ensures |r| == |s| && forall i :: 0 <= i < |s| ==> r[i] == lib.lower(s[i])
  {
    if s == "" then "" else [lib.lower(s[0])] + Lower(lib, s[1..])
  }

  function TrimLeft(lib: Library, s: string): string {
    if s != "" && lib.space(s[0]) then TrimLeft(lib, s[1..]) else s
  }

  function TrimRight(lib: Library, s: string): string {
    if s != "" && lib.space(s[|s| - 1]) then TrimRight(lib, s[..|s| - 1]) else s
  }

  function TrimSpace(lib: Library, s: string): string {
    TrimRight(lib, TrimLeft(lib, s))
  }

  function TrimDots(s: string): string {
    if s != "" && s[|s| - 1] == '.' then TrimDots(s[..|s| - 1]) else s
  }

  /** The maximal runs of characters that are not space. */
  function Fields(lib: Library, s: string): (r: seq<string>)
    ensures forall i :: 0 <= i < |r| ==> r[i] != ""
    decreases |s|
  {
    if s == "" then []
    else if lib.space(s[0]) then Fields(lib, s[1..])
    else
      var word := Word(lib, s);
      [word] + Fields(lib, s[|word|..])
  }

  function Word(lib: Library, s: string): (r: string)
    ensures |r| <= |s| && r == s[..|r|]
    ensures s != "" && !lib.space(s[0]) ==> r != ""
  {
    if s == "" || lib.space(s[0]) then "" else [s[0]] + Word(lib, s[1..])
  }

  /** The labels of a name: its text between dots. */
  function Split(s: string): (r: seq<string>)
    ensures |r| > 0
  {
    if s == "" then [""]
    else if s[0] == '.' then [""] + Split(s[1..])
    else
      var rest := Split(s[1..]);
      [[s[0]] + rest[0]] + rest[1..]
  }

  /** The name is the domain or lies below it. */
  predicate Under(name: string, domain: string) {
    name == domain || HasSuffix(name, "." + domain)
  }

  // ------------------------------------------------------------------- lemmas

  /** No space to trim: the text is empty or starts and ends with something else. */
  predicate Tight(lib: Library, s: string) {
    s != "" ==> !lib.space(s[0]) && !lib.space(s[|s| - 1])
  }

  lemma TightIsTrimmed(lib: Library, s: string)
    requires Tight(lib, s)
    ensures TrimSpace(lib, s) == s
  {
  }

  lemma {:induction false} TrimLeftTight(lib: Library, s: string)
    ensures var r := TrimLeft(lib, s); HasSuffix(s, r) && (r != "" ==> !lib.space(r[0]))
  {
    if s != "" && lib.space(s[0]) {
      TrimLeftTight(lib, s[1..]);
    }
  }

  lemma {:induction false} TrimRightTight(lib: Library, s: string)
    ensures var r := TrimRight(lib, s); HasPrefix(s, r) && (r != "" ==> !lib.space(r[|r| - 1]))
  {
    if s != "" && lib.space(s[|s| - 1]) {
      TrimRightTight(lib, s[..|s| - 1]);
    }
  }

  lemma TrimSpaceTight(lib: Library, s: string)
    ensures Tight(lib, TrimSpace(lib, s)) && TrimSpace(lib, TrimSpace(lib, s)) == TrimSpace(lib, s)
  {
    TrimLeftTight(lib, s);
    TrimRightTight(lib, TrimLeft(lib, s));
    TightIsTrimmed(lib, TrimSpace(lib, s));
  }

  /** Words with gaps before, between and after them. */
  function Woven(gaps: seq<string>, words: seq<string>): string
    requires |gaps| == |words| + 1
  {
    if words == [] then gaps[0] else gaps[0] + words[0] + Woven(gaps[1..], words[1..])
  }

  predicate AllSpace(lib: Library, s: string) {
    forall i :: 0 <= i < |s| ==> lib.space(s[i])
  }

  predicate NoSpace(lib: Library, s: string) {
    forall i :: 0 <= i < |s| ==> !lib.space(s[i])
  }

  /** The text is these words, with space before and after, and some space between any two. */
  ghost predicate Separated(lib: Library, s: string, gaps: seq<string>, words: seq<string>) {
    && |gaps| == |words| + 1 && s == Woven(gaps, words)
    && (forall i :: 0 <= i < |words| ==> words[i] != "" && NoSpace(lib, words[i]))
    && (forall i :: 0 <= i < |gaps| ==> AllSpace(lib, gaps[i]))
    && (forall i :: 0 < i < |words| ==> gaps[i] != "")
  }

  lemma {:induction false} WordIs(lib: Library, s: string)
    ensures NoSpace(lib, Word(lib, s)) && (|Word(lib, s)| < |s| ==> lib.space(s[|Word(lib, s)|]))
  {
    if s != "" && !lib.space(s[0]) { WordIs(lib, s[1..]); }
  }

  /** The fields of a text are its words. */
  lemma {:induction false} FieldsAre(lib: Library, s: string) returns (gaps: seq<string>)
    ensures Separated(lib, s, gaps, Fields(lib, s))
    ensures s != "" && lib.space(s[0]) ==> gaps[0] != ""
    decreases |s|
  {
    gaps := [""];
    if s != "" && lib.space(s[0]) {
      gaps := FieldsAre(lib, s[1..]);
      SpaceBefore(lib, s[0], s[1..], gaps, Fields(lib, s[1..]));
      assert s == [s[0]] + s[1..];
      gaps := [[s[0]] + gaps[0]] + gaps[1..];
    } else if s != "" {
      var word := Word(lib, s);
      var rest := s[|word|..];
      WordIs(lib, s);
      gaps := FieldsAre(lib, rest);
      if rest == "" { NoFields(lib); } else { assert rest[0] == s[|word|]; }
      WordBefore(lib, word, rest, gaps, Fields(lib, rest));
      assert s == word + rest;
      gaps := [""] + gaps;
    }
  }

  lemma NoFields(lib: Library)
    ensures Fields(lib, "") == []
  {
  }

  lemma SpaceBefore(lib: Library, c: char, s: string, gaps: seq<string>, words: seq<string>)
    requires lib.space(c) && Separated(lib, s, gaps, words)
    ensures Separated(lib, [c] + s, [[c] + gaps[0]] + gaps[1..], words)
  {
    var more := [[c] + gaps[0]] + gaps[1..];
    assert more[1..] == gaps[1..];
    assert [c] + Woven(gaps, words) == Woven(more, words);
  }

  lemma WordBefore(lib: Library, word: string, s: string, gaps: seq<string>, words: seq<string>)
    requires word != "" && NoSpace(lib, word) && Separated(lib, s, gaps, words) && (words != [] ==> gaps[0] != "")
    ensures Separated(lib, word + s, [""] + gaps, [word] + words)
  {
    assert ([""] + gaps)[1..] == gaps && ([word] + words)[1..] == words && "" + word == word;
  }

  lemma SplitAtDot(t: string)
    ensures Split("." + t) == [""] + Split(t)
  {
    var s := "." + t;
    assert s[0] == '.' && s[1..] == t;
  }

  lemma SplitAtLetter(c: char, t: string)
    requires c != '.'
    ensures Split([c] + t) == [[c] + Split(t)[0]] + Split(t)[1..]
  {
    var s := [c] + t;
    assert s[0] == c && s[1..] == t;
  }

  lemma {:induction false} SplitConcat(a: string, b: string)
    ensures Split(a + "." + b) == Split(a) + Split(b)
  {
    if a == "" {
      assert a + "." + b == "." + b;
      SplitAtDot(b);
    } else {
      hide Split;
      SplitConcat(a[1..], b);
      assert a == [a[0]] + a[1..];
      SplitLonger(a[0], a[1..], b);
    }
  }

  lemma SplitLonger(c: char, t: string, b: string)
    requires Split(t + "." + b) == Split(t) + Split(b)
    ensures Split([c] + t + "." + b) == Split([c] + t) + Split(b)
  {
    hide Split;
    var whole := t + "." + b;
    assert [c] + t + "." + b == [c] + whole;
    if c == '.' {
      assert [c] + whole == "." + whole && [c] + t == "." + t;
      SplitAtDot(t);
      SplitAtDot(whole);
      Associates([""], Split(t), Split(b));
    } else {
      SplitAtLetter(c, t);
      SplitAtLetter(c, whole);
      LongerHead(c, Split(t), Split(b));
    }
  }

  lemma Associates<T>(x: seq<T>, y: seq<T>, z: seq<T>)
    ensures x + (y + z) == x + y + z
  {
  }

  lemma LongerHead(c: char, labels: seq<string>, more: seq<string>)
    requires labels != []
    ensures [[c] + (labels + more)[0]] + (labels + more)[1..] == [[c] + labels[0]] + labels[1..] + more
  {
    assert (labels + more)[1..] == labels[1..] + more && (labels + more)[0] == labels[0];
  }

  /** A name is its labels: two names with the same labels are the same. */
  lemma {:induction false} SplitInjective(a: string, b: string)
    requires Split(a) == Split(b)
    ensures a == b
    decreases |a|
  {
    SplitEmpty(a);
    SplitEmpty(b);
    if a != "" && b != "" {
      assert Split(a)[0] == "" <==> a[0] == '.';
      assert Split(b)[0] == "" <==> b[0] == '.';
      if a[0] != '.' {
        assert Split(a)[0] == [a[0]] + Split(a[1..])[0];
        assert Split(a[1..])[0] == Split(a)[0][1..] && Split(b[1..])[0] == Split(b)[0][1..];
        assert Split(a[1..]) == [Split(a[1..])[0]] + Split(a)[1..];
        assert Split(b[1..]) == [Split(b[1..])[0]] + Split(b)[1..];
      } else {
        assert Split(a[1..]) == Split(a)[1..] && Split(b[1..]) == Split(b)[1..];
      }
      SplitInjective(a[1..], b[1..]);
    }
  }

  lemma SplitEmpty(s: string)
    ensures Split(s) == [""] <==> s == ""
  {
    if s != "" && s[0] == '.' {
      assert |Split(s)| == 1 + |Split(s[1..])|;
    }
  }

  /** Below the first label, a name with several labels continues after a dot. */
  lemma {:induction false} SplitTail(s: string) returns (dot: nat)
    requires |Split(s)| > 1
    ensures dot < |s| && s[dot] == '.' && Split(s[dot + 1..]) == Split(s)[1..]
  {
    if s[0] == '.' {
      dot := 0;
    } else {
      var rest := SplitTail(s[1..]);
      dot := rest + 1;
      assert s[1..][rest + 1..] == s[dot + 1..];
    }
  }

  ghost predicate EndsWith<T>(s: seq<T>, suffix: seq<T>) {
    |suffix| <= |s| && s[|s| - |suffix|..] == suffix
  }

  /** Lying below a domain is having its labels as the last ones. */
  lemma UnderIsByLabel(name: string, domain: string)
    ensures Under(name, domain) <==> EndsWith(Split(name), Split(domain))
  {
    if Under(name, domain) {
      if name != domain {
        var front := name[..|name| - |domain| - 1];
        assert name == front + ("." + domain);
        assert front + ("." + domain) == front + "." + domain;
        SplitConcat(front, domain);
      }
    } else if EndsWith(Split(name), Split(domain)) {
      LabelsUnder(name, domain);
    }
  }

  /** The text after a dot is a domain that the name lies below. */
  lemma TailIsAbove(name: string, dot: nat)
    requires dot < |name| && name[dot] == '.'
    ensures Under(name, name[dot + 1..])
  {
    assert name[dot..] == "." + name[dot + 1..];
  }

  lemma AboveIsTail(name: string, domain: string) returns (dot: nat)
    requires Under(name, domain) && name != domain
    ensures dot < |name| && name[dot] == '.' && name[dot + 1..] == domain
  {
    dot := |name| - |"." + domain|;
    var tail := name[dot..];
    assert tail == "." + domain && tail[0] == '.' && tail[1..] == domain;
  }

  lemma UnderTransitive(name: string, dot: nat, domain: string)
    requires dot < |name| && Under(name[dot..], domain)
    requires name[dot..] == domain ==> dot > 0 && name[dot - 1] == '.'
    ensures Under(name, domain)
  {
    var rest := name[dot..];
    if rest == domain {
      TailIsAbove(name, dot - 1);
    } else {
      var at := AboveIsTail(rest, domain);
      assert name[dot + at] == '.' && name[dot + at + 1..] == rest[at + 1..];
      TailIsAbove(name, dot + at);
    }
  }

  lemma {:induction false} LabelsUnder(name: string, domain: string)
    requires EndsWith(Split(name), Split(domain))
    ensures Under(name, domain)
    decreases |name|
  {
    if |Split(name)| == |Split(domain)| {
      assert Split(name)[0..] == Split(name);
      SplitInjective(name, domain);
    } else {
      var dot := SplitTail(name);
      hide Under, Split;
      LabelsUnder(name[dot + 1..], domain);
      if dot + 1 < |name| {
        UnderTransitive(name, dot + 1, domain);
      } else {
        EmptyTail(name, domain);
      }
    }
  }

  /** Only the empty domain is above nothing. */
  lemma EmptyTail(name: string, domain: string)
    requires name != "" && name[|name| - 1] == '.' && Under("", domain)
    ensures Under(name, domain)
  {
    TailIsAbove(name, |name| - 1);
  }
}
