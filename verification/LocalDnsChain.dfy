/** What the CNAME records of an answer are, for any records, with cycles or without. */
module LocalDnsChain {
  import opened Options
  import opened Text
  import opened Domains
  import opened LocalDns

  /** Every link belongs to the name before it, has its first CNAME, and that name has no direct answer. */
  ghost predicate Linked(lib: Library, records: seq<Record>, q: Question, name: string, links: seq<Record>) {
    forall i :: 0 <= i < |links| ==> Link(lib, records, q, Landing(name, links[..i])) == Some(links[i])
  }

  /** The names that have been passed. */
  function Passed(name: string, links: seq<Record>): seq<string> {
    seq(|links|, i requires 0 <= i < |links| => Landing(name, links[..i]))
  }

  ghost predicate Distinct(names: seq<string>) {
    forall i, j :: 0 <= i < j < |names| ==> names[i] != names[j]
  }

  lemma LandingNext(name: string, first: Record, rest: seq<Record>, i: nat)
    requires i <= |rest|
    ensures Landing(name, ([first] + rest)[..i + 1]) == Landing(first.value, rest[..i])
  {
    assert ([first] + rest)[..i + 1] == [first] + rest[..i];
  }

  lemma {:induction false} LinksFacts(lib: Library, records: seq<Record>, q: Question, name: string, seen: set<string>, depth: nat)
    requires depth <= MAX_CHAIN
    ensures var links := Links(lib, records, q, name, seen, depth);
            && depth + |links| <= MAX_CHAIN
            && Linked(lib, records, q, name, links)
            && Distinct(Passed(name, links)) && (forall n :: n in Passed(name, links) ==> n !in seen)
    decreases MAX_CHAIN - depth
  {
    hide Link, Links, Landing, Linked, Passed;
    var links := Links(lib, records, q, name, seen, depth);
    LinksStep(lib, records, q, name, seen, depth);
    if links == [] {
      NoLinks(lib, records, q, name);
    } else {
      var first := links[0];
      var rest := links[1..];
      assert links == [first] + rest && rest == Links(lib, records, q, first.value, seen + {name}, depth + 1);
      LinksFacts(lib, records, q, first.value, seen + {name}, depth + 1);
      PassedNext(name, first, rest);
      LinkedNext(lib, records, q, name, first, rest);
    }
  }

  lemma LandingNone(name: string)
    ensures Landing(name, []) == name
  {
  }

  lemma NoLinks(lib: Library, records: seq<Record>, q: Question, name: string)
    ensures Linked(lib, records, q, name, []) && Passed(name, []) == []
  {
  }

  lemma LinkedNext(lib: Library, records: seq<Record>, q: Question, name: string, first: Record, rest: seq<Record>)
    requires Link(lib, records, q, name) == Some(first) && Linked(lib, records, q, first.value, rest)
    ensures Linked(lib, records, q, name, [first] + rest)
  {
    hide Link, Landing;
    var links := [first] + rest;
    assert Landing(name, []) == name by { LandingNone(name); }
    forall i | 0 <= i < |links| ensures Link(lib, records, q, Landing(name, links[..i])) == Some(links[i]) {
      if i > 0 { LandingNext(name, first, rest, i - 1); } else { assert links[..0] == []; }
    }
  }

  lemma PassedNext(name: string, first: Record, rest: seq<Record>)
    ensures Passed(name, [first] + rest) == [name] + Passed(first.value, rest)
  {
    var links := [first] + rest;
    forall i | 0 <= i < |links| ensures Passed(name, links)[i] == ([name] + Passed(first.value, rest))[i] {
      if i > 0 { LandingNext(name, first, rest, i - 1); } else { assert links[..0] == []; }
    }
  }

  /** Why a chain stops: it is full, it has come back to a name, or there is no link to follow. */
  lemma {:induction false} LinksStop(lib: Library, records: seq<Record>, q: Question, name: string, seen: set<string>, depth: nat)
    requires depth <= MAX_CHAIN
    ensures var links := Links(lib, records, q, name, seen, depth);
            || depth + |links| == MAX_CHAIN
            || Landing(name, links) in seen || Landing(name, links) in Passed(name, links)
            || Link(lib, records, q, Landing(name, links)).None?
    decreases MAX_CHAIN - depth
  {
    hide Link, Links;
    var links := Links(lib, records, q, name, seen, depth);
    LinksStep(lib, records, q, name, seen, depth);
    if links != [] {
      var first, rest := links[0], links[1..];
      LinksStop(lib, records, q, first.value, seen + {name}, depth + 1);
      assert links == [first] + rest && rest == Links(lib, records, q, first.value, seen + {name}, depth + 1);
      LandingNext(name, first, rest, |rest|);
      assert links[..|rest| + 1] == links && rest[..|rest|] == rest;
      PassedNext(name, first, rest);
      assert ([name] + Passed(first.value, rest))[0] == name;
    }
  }

  lemma {:induction false} RecordsAtName(lib: Library, records: seq<Record>, name: string)
    requires forall r :: r in records ==> Normalized(r)
    ensures forall r :: r in RecordsAt(lib, records, name) ==> r in records && r.enabled && r.name == name
  {
    if records != [] {
      var last := records[|records| - 1];
      assert last in records;
      RecordsAtName(lib, records[..|records| - 1], name);
      ValidNameText(lib, last.name);
      assert "."[0] == '.';
      hide Normalized;
    }
  }

  lemma {:induction false} FirstCnameIn(found: seq<Record>)
    ensures FirstCname(found).Some? ==> FirstCname(found).value in found && FirstCname(found).value.kind.CNAME?
  {
    if found != [] { FirstCnameIn(found[1..]); }
  }

  /**
   * For normalized records, the answer to a question for an address: at most
   * eight CNAME records of the table, the first owned by the query name, each
   * next one by the target of the one before, no owner twice; then, unless the
   * chain is full, exactly the matching records of the name it ends at. The chain
   * ends early only at a name that answers, has no CNAME, or was passed before.
   */
  lemma ChainTheorem(lib: Library, records: seq<Record>, q: Question, name: string)
    requires forall r :: r in records ==> Normalized(r)
    ensures var links := Links(lib, records, q, name, {}, 0);
            |links| <= 8 && ProperChain(records, q, name, links) && AnswerStarts(lib, records, q, name, links)
    ensures var links := Links(lib, records, q, name, {}, 0);
            AnswerEnds(lib, records, q, name, links, if links == [] then name else links[|links| - 1].value)
    ensures var links := Links(lib, records, q, name, {}, 0);
            |links| == 8 || StopsAt(records, q, name, links, if links == [] then name else links[|links| - 1].value)
  {
    hide Links, Normalized, DirectAnswers, RecordsAt, FirstCname, Linked, Distinct, Passed, AnswerEnds, StopsAt, Link, AnswerStarts;
    var links := Links(lib, records, q, name, {}, 0);
    LinksFacts(lib, records, q, name, {}, 0);
    LinksStop(lib, records, q, name, {}, 0);
    EndOfAnswer(lib, records, q, name);
    StartOfAnswer(lib, records, q, name);
    LinkedIsProper(lib, records, q, name, links);
    if |links| < MAX_CHAIN {
      StopsThere(lib, records, q, name, links);
    }
  }

  lemma StartOfAnswer(lib: Library, records: seq<Record>, q: Question, name: string)
    ensures AnswerStarts(lib, records, q, name, Links(lib, records, q, name, {}, 0))
  {
    hide Links, DirectAnswers, RecordsAt;
  }

  /** Why a chain that is not full goes no further than this name. */
  ghost predicate StopsAt(records: seq<Record>, q: Question, name: string, links: seq<Record>, landing: string) {
    || (exists i :: 0 <= i < |links| && links[i].name == landing)
    || !AsksAddress(q)
    || !Unanswered(records, q, landing)
    || (forall k :: 0 <= k < |records| ==> !CnameAt(records[k], landing))
  }

  /** The question is for an address of either family, or for anything. */
  predicate AsksAddress(q: Question) {
    q.qtype == Wants(A) || q.qtype == Wants(AAAA) || q.qtype == Any
  }

  /** No record of the table answers the question at the name. */
  ghost predicate Unanswered(records: seq<Record>, q: Question, name: string) {
    forall k :: 0 <= k < |records| ==> !Matching(records[k], q, name)
  }

  predicate CnameAt(r: Record, name: string) {
    r.enabled && r.name == name && r.kind == CNAME
  }

  /** The record is the first CNAME of the name in the table. */
  ghost predicate FirstCnameAt(records: seq<Record>, name: string, r: Record) {
    exists k :: 0 <= k < |records| && records[k] == r && CnameAt(r, name) && forall j :: 0 <= j < k ==> !CnameAt(records[j], name)
  }

  lemma {:induction false} FirstCnameNext(found: seq<Record>, r: Record)
    ensures FirstCname(found + [r]) == if FirstCname(found).Some? then FirstCname(found) else if r.kind.CNAME? then Some(r) else None
  {
    if found == [] {
      assert found + [r] == [r];
    } else {
      assert (found + [r])[0] == found[0] && (found + [r])[1..] == found[1..] + [r];
      FirstCnameNext(found[1..], r);
    }
  }

  /** The CNAME that is followed is the first of the table, and there is one unless the table has none. */
  lemma {:induction false} FirstCnameIs(lib: Library, records: seq<Record>, name: string)
    requires forall r :: r in records ==> Normalized(r)
    ensures match FirstCname(RecordsAt(lib, records, name))
            case Some(r) => FirstCnameAt(records, name, r)
            case None => forall k :: 0 <= k < |records| ==> !CnameAt(records[k], name)
  {
    if records != [] {
      var n := |records| - 1;
      var front, last := records[..n], records[n];
      assert last in records && records == front + [last];
      FirstCnameIs(lib, front, name);
      RecordsAtNext(lib, front, last, name);
      FirstCnameNext(RecordsAt(lib, front, name), last);
      hide RecordsAt, FirstCname, Normalized;
      if FirstCname(RecordsAt(lib, front, name)).Some? {
        var r := FirstCname(RecordsAt(lib, front, name)).value;
        var k :| 0 <= k < |front| && front[k] == r && CnameAt(r, name) && forall j :: 0 <= j < k ==> !CnameAt(front[j], name);
        assert records[k] == r;
      } else if CnameAt(last, name) {
        assert records[n] == last && forall j :: 0 <= j < n ==> records[j] == front[j];
      }
    }
  }

  lemma NoDirect(lib: Library, records: seq<Record>, q: Question, name: string)
    requires forall r :: r in records ==> Normalized(r)
    ensures DirectAnswers(q, RecordsAt(lib, records, name), name) == [] <==> Unanswered(records, q, name)
  {
    var at := DirectAnswersMatch(lib, records, q, name);
    hide DirectAnswers, RecordsAt, Normalized, Matching, Says;
    if at != [] { assert Matching(records[at[0]], q, name); }
  }

  /** The link followed at a name, if there is one. */
  lemma LinkIs(lib: Library, records: seq<Record>, q: Question, name: string)
    requires forall r :: r in records ==> Normalized(r)
    ensures match Link(lib, records, q, name)
            case Some(r) =>
              FirstCnameAt(records, name, r) && AsksAddress(q) && Unanswered(records, q, name)
            case None => StopsAt(records, q, name, [], name)
  {
    NoDirect(lib, records, q, name);
    FirstCnameIs(lib, records, name);
    hide DirectAnswers, RecordsAt, FirstCname, Normalized, Matching, CnameAt;
  }

  lemma StopsThere(lib: Library, records: seq<Record>, q: Question, name: string, links: seq<Record>)
    requires forall r :: r in records ==> Normalized(r)
    requires Linked(lib, records, q, name, links)
    requires Landing(name, links) in Passed(name, links) || Link(lib, records, q, Landing(name, links)).None?
    ensures StopsAt(records, q, name, links, Landing(name, links))
  {
    var landing := Landing(name, links);
    hide Normalized, Link, Matching, CnameAt;
    if landing in Passed(name, links) {
      var i :| 0 <= i < |links| && Passed(name, links)[i] == landing;
      LinkIs(lib, records, q, landing);
      LinkNamed(lib, records, q, landing, links[i]);
    } else {
      LinkIs(lib, records, q, landing);
    }
  }

  lemma LinkNamed(lib: Library, records: seq<Record>, q: Question, owner: string, r: Record)
    requires forall x :: x in records ==> Normalized(x)
    requires Link(lib, records, q, owner) == Some(r)
    ensures r.name == owner
  {
    LinkIsRecord(lib, records, q, owner, r);
  }

  /** What follows the chain: nothing if it is full, else the matching records of the name it ends at. */
  ghost predicate AnswerEnds(lib: Library, records: seq<Record>, q: Question, name: string, links: seq<Record>, landing: string) {
    var answer := Answer(lib, records, q, name);
    && |links| <= |answer|
    && (if |links| == 8 then answer[|links|..] == []
        else exists at :: MatchingRecords(records, q, landing, at, answer[|links|..]))
    && (q.qtype.Wants? ==> forall i :: |links| <= i < |answer| ==> answer[i].kind == q.qtype.kind)
  }

  /** The record is an enabled one of the name, and of the type asked for. */
  predicate Matching(r: Record, q: Question, name: string) {
    r.enabled && r.name == name && (q.qtype == Any || q.qtype == Wants(r.kind))
  }

  /** The answer that a record makes at a name: its own type, the class asked for, its value as address or as name. */
  ghost predicate Says(rr: RR, r: Record, q: Question, name: string) {
    if r.kind == A || r.kind == AAAA
    then rr == AddressRR(Fqdn(name), r.kind, q.qclass, r.ttl, r.value)
    else rr == NameRR(Fqdn(name), r.kind, q.qclass, r.ttl, Fqdn(r.value))
  }

  lemma AnswerSays(q: Question, r: Record, name: string)
    requires r.name == name
    ensures Says(AnswerOf(q, r, name), r, q, name)
  {
  }

  /** The answers are those of all matching records and of no others, in the order of the table. */
  ghost predicate MatchingRecords(records: seq<Record>, q: Question, name: string, at: seq<nat>, answers: seq<RR>) {
    && |at| == |answers|
    && (forall i, j :: 0 <= i < j < |at| ==> at[i] < at[j])
    && (forall i :: 0 <= i < |at| ==> at[i] < |records| && Matching(records[at[i]], q, name) && Says(answers[i], records[at[i]], q, name))
    && (forall k :: 0 <= k < |records| && Matching(records[k], q, name) ==> k in at)
  }

  lemma DirectAnswersNext(q: Question, found: seq<Record>, r: Record, owner: string)
    ensures DirectAnswers(q, found + [r], owner) ==
            if MatchesType(r, q.qtype) then DirectAnswers(q, found, owner) + [AnswerOf(q, r, owner)] else DirectAnswers(q, found, owner)
  {
    assert (found + [r])[..|found|] == found;
  }

  /** The direct answers of a name are exactly its matching records. */
  lemma {:induction false} DirectAnswersMatch(lib: Library, records: seq<Record>, q: Question, name: string) returns (at: seq<nat>)
    requires forall r :: r in records ==> Normalized(r)
    ensures MatchingRecords(records, q, name, at, DirectAnswers(q, RecordsAt(lib, records, name), name))
  {
    if records == [] {
      at := [];
    } else {
      hide RecordsAt, DirectAnswers, Normalized, Matching, MatchingRecords;
      var n := |records| - 1;
      var front, last := records[..n], records[n];
      assert last in records && records == front + [last];
      at := DirectAnswersMatch(lib, front, q, name);
      AnswersNext(lib, front, last, q, name);
      MatchingNext(lib, front, last, q, name, at, DirectAnswers(q, RecordsAt(lib, front, name), name));
      if Matching(last, q, name) { at := at + [n]; }
    }
  }

  lemma AnswersNext(lib: Library, front: seq<Record>, last: Record, q: Question, name: string)
    requires Normalized(last)
    ensures var before := DirectAnswers(q, RecordsAt(lib, front, name), name);
            DirectAnswers(q, RecordsAt(lib, front + [last], name), name)
            == if Matching(last, q, name) then before + [AnswerOf(q, last, name)] else before
  {
    RecordsAtNext(lib, front, last, name);
    hide RecordsAt, AnswerOf, Normalized;
    DirectAnswersNext(q, RecordsAt(lib, front, name), last, name);
  }

  lemma RecordsAtNext(lib: Library, front: seq<Record>, last: Record, name: string)
    requires Normalized(last)
    ensures var before := RecordsAt(lib, front, name);
            RecordsAt(lib, front + [last], name) == if last.enabled && last.name == name then before + [last] else before
  {
    IndexNameIs(lib, last);
    assert (front + [last])[..|front|] == front;
    hide Normalized, IndexName;
  }

  lemma IndexNameIs(lib: Library, r: Record)
    requires Normalized(r)
    ensures IndexName(lib, r.name) == r.name
  {
    ValidNameText(lib, r.name);
    assert "."[0] == '.';
  }

  lemma MatchingNext(lib: Library, front: seq<Record>, last: Record, q: Question, name: string, at: seq<nat>, answers: seq<RR>)
    requires MatchingRecords(front, q, name, at, answers)
    ensures if Matching(last, q, name)
            then MatchingRecords(front + [last], q, name, at + [|front|], answers + [AnswerOf(q, last, name)])
            else MatchingRecords(front + [last], q, name, at, answers)
  {
    if Matching(last, q, name) { AnswerSays(q, last, name); }
    hide Matching, AnswerOf, Says;
    var all := front + [last];
    assert all[|front|] == last && forall k :: 0 <= k < |front| ==> all[k] == front[k];
    assert (at + [|front|])[|at|] == |front|;
  }

  lemma OneKindOnly(records: seq<Record>, q: Question, name: string, at: seq<nat>, answers: seq<RR>)
    requires MatchingRecords(records, q, name, at, answers) && q.qtype.Wants?
    ensures forall i :: 0 <= i < |answers| ==> answers[i].kind == q.qtype.kind
  {
  }

  lemma EndOfAnswer(lib: Library, records: seq<Record>, q: Question, name: string)
    requires forall r :: r in records ==> Normalized(r)
    ensures var links := Links(lib, records, q, name, {}, 0);
            |links| <= MAX_CHAIN && AnswerEnds(lib, records, q, name, links, Landing(name, links))
  {
    hide Links, Normalized;
    LinksFacts(lib, records, q, name, {}, 0);
    var links := Links(lib, records, q, name, {}, 0);
    var landing := Landing(name, links);
    var direct := DirectAnswers(q, RecordsAt(lib, records, landing), landing);
    var at := DirectAnswersMatch(lib, records, q, landing);
    if q.qtype.Wants? { OneKindOnly(records, q, landing, at, direct); }
    hide DirectAnswers, RecordsAt, Landing, MatchingRecords, Linked, Distinct, Passed;
    assert (Cnames(q, links) + direct)[|links|..] == direct;
    assert Cnames(q, links) + [] == Cnames(q, links);
  }

  /** Link i belongs to the target of the link before it, and the first link to the name asked for. */
  ghost predicate ProperLink(records: seq<Record>, q: Question, name: string, links: seq<Record>, i: nat)
    requires i < |links|
  {
    && links[i] in records
    && links[i].name == (if i == 0 then name else links[i - 1].value)
    && FirstCnameAt(records, links[i].name, links[i])
    && Unanswered(records, q, links[i].name)
  }

  /**
   * Each link is the first enabled CNAME of the table at the target before it,
   * which has no record that answers, and no owner comes twice. Only questions
   * for an address, or for anything, have links.
   */
  ghost predicate ProperChain(records: seq<Record>, q: Question, name: string, links: seq<Record>) {
    && (forall i :: 0 <= i < |links| ==> ProperLink(records, q, name, links, i))
    && (forall i, j :: 0 <= i < j < |links| ==> links[i].name != links[j].name)
    && (links != [] ==> AsksAddress(q))
  }

  /** The answer begins with the records of the chain. */
  ghost predicate AnswerStarts(lib: Library, records: seq<Record>, q: Question, name: string, links: seq<Record>) {
    var answer := Answer(lib, records, q, name);
    && |links| <= |answer|
    && forall i :: 0 <= i < |links| ==>
         answer[i] == NameRR(Fqdn(links[i].name), CNAME, q.qclass, links[i].ttl, Fqdn(links[i].value))
  }

  lemma LinkedIsProper(lib: Library, records: seq<Record>, q: Question, name: string, links: seq<Record>)
    requires forall r :: r in records ==> Normalized(r)
    requires Linked(lib, records, q, name, links) && Distinct(Passed(name, links))
    ensures ProperChain(records, q, name, links)
  {
    forall i: nat | i < |links| ensures ProperLink(records, q, name, links, i) && AsksAddress(q) && links[i].name == Passed(name, links)[i] {
      LinkIsProper(lib, records, q, name, links, i);
    }
    hide Link, Normalized, Landing, ProperLink, Linked;
    forall i, j | 0 <= i < j < |links| ensures links[i].name != links[j].name {
      assert Passed(name, links)[i] != Passed(name, links)[j];
    }
    if links != [] { assert ProperLink(records, q, name, links, 0); }
  }

  lemma LinkIsProper(lib: Library, records: seq<Record>, q: Question, name: string, links: seq<Record>, i: nat)
    requires forall r :: r in records ==> Normalized(r)
    requires i < |links| && Linked(lib, records, q, name, links)
    ensures ProperLink(records, q, name, links, i) && AsksAddress(q) && links[i].name == Landing(name, links[..i])
  {
    hide Link, Normalized, Landing, FirstCnameAt, Unanswered;
    LinkIsRecord(lib, records, q, Landing(name, links[..i]), links[i]);
    LinkIs(lib, records, q, Landing(name, links[..i]));
    LandingBefore(name, links, i);
  }

  lemma LandingBefore(name: string, links: seq<Record>, i: nat)
    requires i < |links|
    ensures Landing(name, links[..i]) == if i == 0 then name else links[i - 1].value
  {
  }

  lemma LinkIsRecord(lib: Library, records: seq<Record>, q: Question, owner: string, r: Record)
    requires forall x :: x in records ==> Normalized(x)
    requires Link(lib, records, q, owner) == Some(r)
    ensures r in records && r.enabled && r.kind.CNAME? && r.name == owner
  {
    RecordsAtName(lib, records, owner);
    FirstCnameIn(RecordsAt(lib, records, owner));
  }
}
