/**
 * Local DNS answers: an index of the enabled records, and the chasing of CNAME
 * records as in section 4.3.2 of RFC 1034, step 3a, cut off after eight of them.
 */
module LocalDns {
  import opened Options
  import opened Text
  import opened Domains

  const MAX_CHAIN: nat := 8

  datatype RecordType = A | AAAA | CNAME | PTR

  datatype Record = Record(id: int, name: string, kind: RecordType, value: string, ttl: nat, enabled: bool)

  /** The types of a question: one of the records, any, or something else. */
  datatype QuestionType = Wants(kind: RecordType) | Any | Other

  datatype Class = Internet | AnyClass | OtherClass

  datatype Question = Question(name: string, qtype: QuestionType, qclass: Class)

  datatype RR =
    | AddressRR(owner: string, kind: RecordType, qclass: Class, ttl: nat, address: string)
    | NameRR(owner: string, kind: RecordType, qclass: Class, ttl: nat, target: string)

  // ------------------------------------------------------------------ normal form

  predicate ValidName(name: string) {
    && name != "" && |name| <= 253
    && var labels := Split(name);
       forall i :: 0 <= i < |labels| ==> ValidLabel(labels[i])
  }

  function NormalOwner(lib: Library, raw: string): Option<string> {
    var name := TrimSuffix(TrimSpace(lib, Lower(lib, raw)), ".");
    if ValidName(name) then Some(name) else None
  }

  /** The key of a record in the index. */
  function IndexName(lib: Library, name: string): string {
    TrimSuffix(Lower(lib, name), ".")
  }

  function Fqdn(name: string): string {
    TrimSuffix(name, ".") + "."
  }

  lemma ValidNameText(lib: Library, name: string)
    requires ValidName(name)
    ensures NameText(name) && name[|name| - 1] != '.' && Lower(lib, name) == name && TrimSpace(lib, name) == name
  {
    LabelCharsGiveNameText(name);
    NameTextIsLower(lib, name);
    TightIsTrimmed(lib, name);
    if name[|name| - 1] == '.' { LastLabel(name); }
  }

  /** A normalized name is settled, and is its own key in the index. */
  lemma NormalOwnerSettles(lib: Library, raw: string)
    requires NormalOwner(lib, raw).Some?
    ensures var name := NormalOwner(lib, raw).value;
            && ValidName(name) && NormalOwner(lib, name) == Some(name)
            && IndexName(lib, name) == name && Fqdn(name) == name + "."
  {
    var name := NormalOwner(lib, raw).value;
    ValidNameText(lib, name);
    assert "."[0] == '.';
  }

  /** A valid name is read from any text that is the name in some case, with one final dot or none. */
  lemma OwnerInAnyCase(lib: Library, name: string, raw: string)
    requires ValidName(name) && (Lower(lib, raw) == name || Lower(lib, raw) == name + ".")
    ensures NormalOwner(lib, raw) == Some(name)
  {
    ValidNameText(lib, name);
    hide ValidName, TrimSpace, NameText, Lower;
    assert "."[0] == '.' && (name + ".")[..|name|] == name && lib.space(name[0]) == lib.space((name + ".")[0]);
    TightName(lib, name);
    TightIsTrimmed(lib, name + ".");
  }

  lemma TightName(lib: Library, name: string)
    requires NameText(name) && name != ""
    ensures Tight(lib, name + ".")
  {
  }

  /** Records as they are stored: names in normal form, and so the target of a CNAME. */
  predicate Normalized(r: Record) {
    ValidName(r.name) && (r.kind.CNAME? ==> ValidName(r.value))
  }

  // ------------------------------------------------------------------- the answer

  predicate MatchesType(r: Record, qtype: QuestionType) {
    qtype.Any? || qtype == Wants(r.kind)
  }

  function CnameOf(q: Question, r: Record): RR {
    NameRR(Fqdn(r.name), CNAME, q.qclass, r.ttl, Fqdn(r.value))
  }

  function AnswerOf(q: Question, r: Record, owner: string): RR {
    match r.kind
    case A => AddressRR(Fqdn(owner), A, q.qclass, r.ttl, r.value)
    case AAAA => AddressRR(Fqdn(owner), AAAA, q.qclass, r.ttl, r.value)
    case CNAME => CnameOf(q, r)
    case PTR => NameRR(Fqdn(owner), PTR, q.qclass, r.ttl, Fqdn(r.value))
  }

  /** A scan for the enabled records of a name. */
  function RecordsAt(lib: Library, records: seq<Record>, name: string): seq<Record> {
    if records == [] then []
    else
      var last := records[|records| - 1];
      RecordsAt(lib, records[..|records| - 1], name)
      + if last.enabled && IndexName(lib, last.name) == name then [last] else []
  }

  function DirectAnswers(q: Question, found: seq<Record>, owner: string): seq<RR> {
    if found == [] then []
    else
      var last := found[|found| - 1];
      DirectAnswers(q, found[..|found| - 1], owner) + if MatchesType(last, q.qtype) then [AnswerOf(q, last, owner)] else []
  }

  function FirstCname(found: seq<Record>): Option<Record> {
    if found == [] then None
    else if found[0].kind.CNAME? then Some(found[0])
    else FirstCname(found[1..])
  }

  /** Only questions for an address, or for anything, follow a CNAME. */
  predicate Chases(qtype: QuestionType) {
    qtype == Wants(A) || qtype == Wants(AAAA) || qtype.Any?
  }

  /** The CNAME that is followed at a name, if one is. */
  function Link(lib: Library, records: seq<Record>, q: Question, name: string): Option<Record> {
    var found := RecordsAt(lib, records, name);
    if DirectAnswers(q, found, name) != [] || !Chases(q.qtype) then None else FirstCname(found)
  }

  /** The CNAME records on the way, until there is none, a name comes back, or they are too many. */
  function Links(lib: Library, records: seq<Record>, q: Question, name: string, seen: set<string>, depth: nat): seq<Record>
    requires depth <= MAX_CHAIN
    decreases MAX_CHAIN - depth
  {
    if depth == MAX_CHAIN || name in seen then []
    else
      var link := Link(lib, records, q, name);
      if link.None? then [] else [link.value] + Links(lib, records, q, link.value.value, seen + {name}, depth + 1)
  }

  lemma LinksStep(lib: Library, records: seq<Record>, q: Question, name: string, seen: set<string>, depth: nat)
    requires depth <= MAX_CHAIN
    ensures Links(lib, records, q, name, seen, depth) ==
            if depth == MAX_CHAIN || name in seen || Link(lib, records, q, name).None? then []
            else
              [Link(lib, records, q, name).value]
              + Links(lib, records, q, Link(lib, records, q, name).value.value, seen + {name}, depth + 1)
  {
    hide Link;
  }

  /** Where a chain of CNAME records ends up. */
  function Landing(name: string, links: seq<Record>): string {
    if links == [] then name else links[|links| - 1].value
  }

  function Cnames(q: Question, links: seq<Record>): seq<RR> {
    seq(|links|, i requires 0 <= i < |links| => CnameOf(q, links[i]))
  }

  function Answer(lib: Library, records: seq<Record>, q: Question, name: string): seq<RR> {
    var links := Links(lib, records, q, name, {}, 0);
    var landing := Landing(name, links);
    Cnames(q, links)
    + if |links| < MAX_CHAIN then DirectAnswers(q, RecordsAt(lib, records, landing), landing) else []
  }

  // -------------------------------------------------------------------- the loops

  function Found(index: map<string, seq<Record>>, name: string): seq<Record> {
    if name in index then index[name] else []
  }

  ghost predicate Indexes(lib: Library, index: map<string, seq<Record>>, records: seq<Record>) {
    forall name :: Found(index, name) == RecordsAt(lib, records, name)
  }

  /** The index gives each name exactly the records that a scan would, in order. */
  method IndexRecords(lib: Library, records: seq<Record>) returns (index: map<string, seq<Record>>)
    ensures Indexes(lib, index, records)
  {
    index := map[];
    for i := 0 to |records|
      invariant Indexes(lib, index, records[..i])
    {
      assert records[..i + 1][..i] == records[..i];
      var r := records[i];
      if !r.enabled { continue; }
      var name := IndexName(lib, r.name);
      index := index[name := Found(index, name) + [r]];
    }
    assert records[..|records|] == records;
  }

  method AddMatchingAnswers(q: Question, found: seq<Record>, owner: string, answers: seq<RR>) returns (added: bool, all: seq<RR>)
    ensures all == answers + DirectAnswers(q, found, owner)
    ensures added <==> DirectAnswers(q, found, owner) != []
  {
    all, added := answers, false;
    for i := 0 to |found|
      invariant all == answers + DirectAnswers(q, found[..i], owner)
      invariant added <==> DirectAnswers(q, found[..i], owner) != []
    {
      assert found[..i + 1][..i] == found[..i];
      if !MatchesType(found[i], q.qtype) { continue; }
      all := all + [AnswerOf(q, found[i], owner)];
      added := true;
    }
    assert found[..|found|] == found;
  }

  method FindCname(found: seq<Record>) returns (r: Option<Record>)
    ensures r == FirstCname(found)
  {
    for i := 0 to |found|
      invariant FirstCname(found) == FirstCname(found[i..])
    {
      if found[i].kind.CNAME? { return Some(found[i]); }
    }
    r := None;
  }

  /** The answer, and whether there is one. */
  method AnswerName(lib: Library, ghost records: seq<Record>, index: map<string, seq<Record>>, q: Question, name: string)
      returns (answered: bool, answers: seq<RR>)
    requires Indexes(lib, index, records)
    ensures answers == Answer(lib, records, q, name)
    ensures answered <==> answers != []
  {
    hide Indexes, RecordsAt, DirectAnswers, FirstCname, CnameOf, Cnames, Links, Answer, Landing;
    var current, seen := name, {};
    answers, answered := [], false;
    ghost var links: seq<Record> := [];
    ChainStart(lib, records, q, name);
    var depth := 0;
    while depth < MAX_CHAIN
      invariant depth <= MAX_CHAIN && OnTheWay(lib, records, q, name, links, current, seen, depth)
      invariant answers == Cnames(q, links) && (answered <==> links != []) && |answers| == |links|
    {
      if current in seen {
        ChainEnds(lib, records, q, name, links, current, seen, depth);
        return;
      }
      IndexedAt(lib, index, records, current);
      var found := Found(index, current);
      var direct, more := AddMatchingAnswers(q, found, current, answers);
      if direct {
        ChainEnds(lib, records, q, name, links, current, seen, depth);
        return true, more;
      }
      if !Chases(q.qtype) {
        ChainEnds(lib, records, q, name, links, current, seen, depth);
        return;
      }
      var cname := FindCname(found);
      if cname.None? {
        ChainEnds(lib, records, q, name, links, current, seen, depth);
        return;
      }
      ChainGoes(lib, records, q, name, links, current, seen, depth);
      answers := answers + [CnameOf(q, cname.value)];
      answered := true;
      links := links + [cname.value];
      seen := seen + {current};
      current := cname.value.value;
      depth := depth + 1;
    }
    ChainIsFull(lib, records, q, name, links, current, seen);
  }

  // ---------------------------------------------------------- the loop's progress

  /** The links so far lead to the current name, which comes next, and the names passed had no answer. */
  ghost predicate OnTheWay(lib: Library, records: seq<Record>, q: Question, name: string, links: seq<Record>,
                           current: string, seen: set<string>, depth: nat)
    requires depth <= MAX_CHAIN
  {
    && depth == |links| && current == Landing(name, links)
    && Links(lib, records, q, name, {}, 0) == links + Links(lib, records, q, current, seen, depth)
    && forall s :: s in seen ==> DirectAnswers(q, RecordsAt(lib, records, s), s) == []
  }

  lemma ChainStart(lib: Library, records: seq<Record>, q: Question, name: string)
    ensures OnTheWay(lib, records, q, name, [], name, {}, 0) && Cnames(q, []) == []
  {
  }

  lemma ChainGoes(lib: Library, records: seq<Record>, q: Question, name: string, links: seq<Record>,
                  current: string, seen: set<string>, depth: nat)
    requires depth < MAX_CHAIN && OnTheWay(lib, records, q, name, links, current, seen, depth)
    requires current !in seen && Link(lib, records, q, current).Some?
    ensures var link := Link(lib, records, q, current).value;
            && OnTheWay(lib, records, q, name, links + [link], link.value, seen + {current}, depth + 1)
            && Cnames(q, links + [link]) == Cnames(q, links) + [CnameOf(q, link)]
  {
    hide Links, RecordsAt, DirectAnswers, FirstCname;
    var link := Link(lib, records, q, current).value;
    var rest := Links(lib, records, q, link.value, seen + {current}, depth + 1);
    LinksStep(lib, records, q, current, seen, depth);
    assert links + ([link] + rest) == links + [link] + rest;
  }

  /** The chain ends here, and the answer is the links with whatever answers the current name. */
  lemma ChainEnds(lib: Library, records: seq<Record>, q: Question, name: string, links: seq<Record>,
                  current: string, seen: set<string>, depth: nat)
    requires depth < MAX_CHAIN && OnTheWay(lib, records, q, name, links, current, seen, depth)
    requires current in seen || Link(lib, records, q, current).None?
    ensures Answer(lib, records, q, name) == Cnames(q, links) + DirectAnswers(q, RecordsAt(lib, records, current), current)
    ensures current in seen ==> Answer(lib, records, q, name) == Cnames(q, links)
  {
    hide Links, RecordsAt, DirectAnswers, FirstCname, Link;
    LinksStep(lib, records, q, current, seen, depth);
    assert Links(lib, records, q, name, {}, 0) == links;
  }

  lemma ChainIsFull(lib: Library, records: seq<Record>, q: Question, name: string, links: seq<Record>, current: string, seen: set<string>)
    requires OnTheWay(lib, records, q, name, links, current, seen, MAX_CHAIN)
    ensures Answer(lib, records, q, name) == Cnames(q, links)
  {
    hide Links, RecordsAt, DirectAnswers, FirstCname, Link;
    LinksStep(lib, records, q, current, seen, MAX_CHAIN);
    assert Links(lib, records, q, name, {}, 0) == links;
  }

  lemma IndexedAt(lib: Library, index: map<string, seq<Record>>, records: seq<Record>, name: string)
    requires Indexes(lib, index, records)
    ensures Found(index, name) == RecordsAt(lib, records, name)
  {
  }

  datatype Resolution = NotHandled | SourceFailed | Reply(answers: seq<RR>)

  /** With a prepared index, or from the records read for this question. */
  method Resolve(lib: Library, index: Option<map<string, seq<Record>>>, ghost indexed: seq<Record>,
                 source: Option<seq<Record>>, question: Option<Question>) returns (r: Resolution)
    requires index.Some? ==> Indexes(lib, index.value, indexed)
    ensures r.SourceFailed? ==> index.None? && source.None?
    ensures r.Reply? ==> question.Some? && NormalOwner(lib, question.value.name).Some? && !question.value.qclass.OtherClass?
                         && (index.None? ==> source.Some?)
    ensures question.Some? && NormalOwner(lib, question.value.name).Some? && !question.value.qclass.OtherClass?
            && (index.None? ==> source.Some?) ==>
              var answers := Answer(lib, if index.Some? then indexed else source.value, question.value,
                                    NormalOwner(lib, question.value.name).value);
              r == if answers == [] then NotHandled else Reply(answers)
  {
    hide Answer, Indexes, NormalOwner;
    if question.None? { return NotHandled; }
    var q := question.value;
    if q.qclass.OtherClass? { return NotHandled; }
    var name := NormalOwner(lib, q.name);
    if name.None? { return NotHandled; }
    var answered, answers;
    if index.None? {
      if source.None? { return SourceFailed; }
      var built := IndexRecords(lib, source.value);
      answered, answers := AnswerName(lib, source.value, built, q, name.value);
    } else {
      answered, answers := AnswerName(lib, indexed, index.value, q, name.value);
    }
    r := if answered then Reply(answers) else NotHandled;
  }
}
