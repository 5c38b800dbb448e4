/**
 * Audit summaries: what they hold, how a privacy level projects them, and the
 * deep copies that keep the arrays of one summary apart from those of another.
 */
module Summaries {
  import opened Options

  datatype NamedTotal = NamedTotal(name: string, count: int)

  datatype TimeBucket = TimeBucket(start: int, end: int, total: int, allowed: int, blocked: int)

  datatype ClientCounts = ClientCounts(start: int, end: int, total: int, clients: seq<NamedTotal>)

  /** The contents of a summary. */
  datatype Figures = Figures(
    total: int,
    byAction: seq<NamedTotal>,
    byCache: seq<NamedTotal>,
    topQueried: seq<NamedTotal>,
    topBlocked: seq<NamedTotal>,
    topClients: seq<NamedTotal>,
    topBlockedClients: seq<NamedTotal>,
    buckets: seq<TimeBucket>,
    clientBuckets: seq<ClientCounts>)

  const FULL: nat := 0
  const HIDE_CLIENT: nat := 1
  const HIDE_CLIENT_AND_DOMAIN: nat := 2

  function Sum(totals: seq<NamedTotal>): int {
    if totals == [] then 0 else Sum(totals[..|totals| - 1]) + totals[|totals| - 1].count
  }

  function Collapse(totals: seq<NamedTotal>): seq<NamedTotal> {
    if totals == [] then [] else [NamedTotal("", Sum(totals))]
  }

  function CollapseIf(masked: bool, totals: seq<NamedTotal>): seq<NamedTotal> {
    if masked then Collapse(totals) else totals
  }

  function CollapseCounts(masked: bool, buckets: seq<ClientCounts>): seq<ClientCounts> {
    if buckets == [] then []
    else CollapseCounts(masked, buckets[..|buckets| - 1])
         + [buckets[|buckets| - 1].(clients := CollapseIf(masked, buckets[|buckets| - 1].clients))]
  }

  function Project(f: Figures, level: nat): Figures {
    var hideClient := level >= HIDE_CLIENT;
    var hideDomain := level >= HIDE_CLIENT_AND_DOMAIN;
    f.(topClients := CollapseIf(hideClient, f.topClients),
       topBlockedClients := CollapseIf(hideClient, f.topBlockedClients),
       clientBuckets := CollapseCounts(hideClient, f.clientBuckets),
       topQueried := CollapseIf(hideDomain, f.topQueried),
       topBlocked := CollapseIf(hideDomain, f.topBlocked))
  }

  // ------------------------------------------------------ what projecting means

  predicate Nameless(totals: seq<NamedTotal>) {
    forall i :: 0 <= i < |totals| ==> totals[i].name == ""
  }

  /** The sum of two lists, and of one entry. */
  lemma {:induction false} SumAddsUp(a: seq<NamedTotal>, b: seq<NamedTotal>, t: NamedTotal)
    ensures Sum(a + b) == Sum(a) + Sum(b) && Sum([t]) == t.count
  {
    if b == [] {
      assert a + b == a;
    } else {
      assert (a + b)[..|a + b| - 1] == a + b[..|b| - 1];
      SumAddsUp(a, b[..|b| - 1], t);
    }
    assert [t][..0] == [];
  }

  lemma CollapseFacts(totals: seq<NamedTotal>)
    ensures Nameless(Collapse(totals)) && Sum(Collapse(totals)) == Sum(totals)
    ensures Collapse(Collapse(totals)) == Collapse(totals)
  {
    if totals != [] {
      assert [NamedTotal("", Sum(totals))][..0] == [];
    }
  }

  lemma {:induction false} CollapseCountsAt(masked: bool, buckets: seq<ClientCounts>)
    ensures |CollapseCounts(masked, buckets)| == |buckets|
    ensures forall i :: 0 <= i < |buckets| ==>
              CollapseCounts(masked, buckets)[i] == buckets[i].(clients := CollapseIf(masked, buckets[i].clients))
  {
    if buckets != [] {
      CollapseCountsAt(masked, buckets[..|buckets| - 1]);
    }
  }

  /** A projected summary names no client, at the higher level no domain, and keeps every total. */
  lemma ProjectHides(f: Figures, level: nat)
    ensures var p := Project(f, level);
            && (level >= HIDE_CLIENT ==> Nameless(p.topClients) && Nameless(p.topBlockedClients))
            && (level >= HIDE_CLIENT ==> forall i :: 0 <= i < |p.clientBuckets| ==> Nameless(p.clientBuckets[i].clients))
            && (level >= HIDE_CLIENT_AND_DOMAIN ==> Nameless(p.topQueried) && Nameless(p.topBlocked))
            && Sum(p.topClients) == Sum(f.topClients) && Sum(p.topBlockedClients) == Sum(f.topBlockedClients)
            && Sum(p.topQueried) == Sum(f.topQueried) && Sum(p.topBlocked) == Sum(f.topBlocked)
            && |p.clientBuckets| == |f.clientBuckets|
            && forall i :: 0 <= i < |f.clientBuckets| ==> Sum(p.clientBuckets[i].clients) == Sum(f.clientBuckets[i].clients)
  {
    CollapseFacts(f.topClients);
    CollapseFacts(f.topBlockedClients);
    CollapseFacts(f.topQueried);
    CollapseFacts(f.topBlocked);
    CollapseCountsAt(level >= HIDE_CLIENT, f.clientBuckets);
    forall i | 0 <= i < |f.clientBuckets|
      ensures Nameless(Collapse(f.clientBuckets[i].clients))
      ensures Sum(Collapse(f.clientBuckets[i].clients)) == Sum(f.clientBuckets[i].clients)
    {
      CollapseFacts(f.clientBuckets[i].clients);
    }
  }

  /** One entry without a name, with the sum of the counts; none if there was none. */
  predicate OneUnnamed(from: seq<NamedTotal>, to: seq<NamedTotal>) {
    && |to| == (if from == [] then 0 else 1)
    && (to != [] ==> to[0] == NamedTotal("", Sum(from)))
  }

  /** What a level hides it hides so, and everything else it leaves as it is. */
  lemma ProjectExactly(f: Figures, level: nat)
    ensures var p := Project(f, level);
            && p.total == f.total && p.byAction == f.byAction && p.byCache == f.byCache && p.buckets == f.buckets
            && (if level >= 1 then OneUnnamed(f.topClients, p.topClients) && OneUnnamed(f.topBlockedClients, p.topBlockedClients)
                else p.topClients == f.topClients && p.topBlockedClients == f.topBlockedClients)
            && (if level >= 2 then OneUnnamed(f.topQueried, p.topQueried) && OneUnnamed(f.topBlocked, p.topBlocked)
                else p.topQueried == f.topQueried && p.topBlocked == f.topBlocked)
            && |p.clientBuckets| == |f.clientBuckets|
            && forall i :: 0 <= i < |f.clientBuckets| ==>
                 && p.clientBuckets[i].start == f.clientBuckets[i].start && p.clientBuckets[i].end == f.clientBuckets[i].end
                 && p.clientBuckets[i].total == f.clientBuckets[i].total
                 && if level >= 1 then OneUnnamed(f.clientBuckets[i].clients, p.clientBuckets[i].clients)
                    else p.clientBuckets[i].clients == f.clientBuckets[i].clients
  {
    CollapseCountsAt(level >= HIDE_CLIENT, f.clientBuckets);
  }

  /** Projecting twice is projecting once at the stricter level; the full level changes nothing. */
  lemma ProjectTwice(f: Figures, a: nat, b: nat)
    ensures Project(Project(f, a), b) == Project(f, if a > b then a else b)
    ensures Project(f, FULL) == f
  {
    CollapseFacts(f.topClients);
    CollapseFacts(f.topBlockedClients);
    CollapseFacts(f.topQueried);
    CollapseFacts(f.topBlocked);
    CountsTwice(a >= HIDE_CLIENT, b >= HIDE_CLIENT, f.clientBuckets);
  }

  lemma CountsTwice(a: bool, b: bool, buckets: seq<ClientCounts>)
    ensures CollapseCounts(b, CollapseCounts(a, buckets)) == CollapseCounts(a || b, buckets)
    ensures CollapseCounts(false, buckets) == buckets
  {
    CollapseCountsAt(a, buckets);
    CollapseCountsAt(b, CollapseCounts(a, buckets));
    CollapseCountsAt(a || b, buckets);
    CollapseCountsAt(false, buckets);
    forall i | 0 <= i < |buckets| ensures Collapse(Collapse(buckets[i].clients)) == Collapse(buckets[i].clients) {
      CollapseFacts(buckets[i].clients);
    }
  }

  // ----------------------------------------------------------- in the heap

  datatype ClientBucket = ClientBucket(start: int, end: int, total: int, clients: array<NamedTotal>)

  /** A summary as the program holds it: every list is an array that could be shared. */
  datatype Summary = Summary(
    total: int,
    byAction: array<NamedTotal>,
    byCache: array<NamedTotal>,
    topQueried: array<NamedTotal>,
    topBlocked: array<NamedTotal>,
    topClients: array<NamedTotal>,
    topBlockedClients: array<NamedTotal>,
    buckets: array<TimeBucket>,
    clientBuckets: array<ClientBucket>)

  function ClientArrays(a: array<ClientBucket>): set<object>
    reads a
  {
    set i | 0 <= i < a.Length :: a[i].clients
  }

  /** Every array a summary can be changed through. */
  function Footprint(s: Summary): set<object>
    reads s.clientBuckets
  {
    var lists: set<object> := {s.byAction, s.byCache, s.topQueried, s.topBlocked, s.topClients, s.topBlockedClients};
    lists + {s.buckets as object, s.clientBuckets as object} + ClientArrays(s.clientBuckets)
  }

  ghost function CountsOf(b: ClientBucket): ClientCounts
    reads b.clients
  {
    ClientCounts(b.start, b.end, b.total, b.clients[..])
  }

  ghost function CountsIn(a: array<ClientBucket>, upto: nat): (c: seq<ClientCounts>)
    requires upto <= a.Length
    reads a, ClientArrays(a)
    ensures |c| == upto
    ensures forall i :: 0 <= i < upto ==> c[i] == CountsOf(a[i])
  {
    if upto == 0 then [] else CountsIn(a, upto - 1) + [CountsOf(a[upto - 1])]
  }

  ghost function Contents(s: Summary): Figures
    reads Footprint(s)
  {
    Figures(s.total, s.byAction[..], s.byCache[..], s.topQueried[..], s.topBlocked[..], s.topClients[..],
            s.topBlockedClients[..], s.buckets[..], CountsIn(s.clientBuckets, s.clientBuckets.Length))
  }

  method CloneTotals(totals: array<NamedTotal>) returns (cloned: array<NamedTotal>)
    ensures fresh(cloned) && cloned[..] == totals[..]
  {
    cloned := new NamedTotal[totals.Length](i requires 0 <= i < totals.Length reads totals => totals[i]);
  }

  method CloneTimeBuckets(buckets: array<TimeBucket>) returns (cloned: array<TimeBucket>)
    ensures fresh(cloned) && cloned[..] == buckets[..]
  {
    cloned := new TimeBucket[buckets.Length](i requires 0 <= i < buckets.Length reads buckets => buckets[i]);
  }

  /** The outer array and the client array of every bucket are new. */
  method CloneClientBuckets(buckets: array<ClientBucket>) returns (cloned: array<ClientBucket>)
    ensures fresh(cloned) && fresh(ClientArrays(cloned)) && cloned.Length == buckets.Length
    ensures CountsIn(cloned, cloned.Length) == old(CountsIn(buckets, buckets.Length))
  {
    cloned := new ClientBucket[buckets.Length](i requires 0 <= i < buckets.Length reads buckets => buckets[i]);
    for i := 0 to buckets.Length
      invariant cloned.Length == buckets.Length
      invariant forall j :: 0 <= j < i ==> fresh(cloned[j].clients)
      invariant forall j :: 0 <= j < i ==> cloned[j].clients[..] == old(buckets[j].clients[..])
      invariant forall j :: 0 <= j < i ==>
                  cloned[j].start == buckets[j].start && cloned[j].end == buckets[j].end && cloned[j].total == buckets[j].total
      invariant unchanged(buckets) && forall j :: 0 <= j < buckets.Length ==> unchanged(buckets[j].clients)
    {
      var bucket := buckets[i];
      var clients := CloneTotals(bucket.clients);
      cloned[i] := ClientBucket(bucket.start, bucket.end, bucket.total, clients);
    }
    assert CountsIn(cloned, cloned.Length) == old(CountsIn(buckets, buckets.Length));
  }

  method CollapseTotals(totals: array<NamedTotal>) returns (collapsed: array<NamedTotal>)
    ensures fresh(collapsed) && collapsed[..] == Collapse(totals[..])
  {
    if totals.Length == 0 {
      collapsed := new NamedTotal[0];
      return;
    }
    var count := 0;
    for i := 0 to totals.Length
      invariant count == Sum(totals[..i])
    {
      assert totals[..i + 1][..i] == totals[..i];
      count := count + totals[i].count;
    }
    assert totals[..totals.Length] == totals[..];
    collapsed := new NamedTotal[1](_ => NamedTotal("", count));
  }

  /** The loop that replaces the clients of every bucket of a fresh copy. */
  method CollapseClients(buckets: array<ClientBucket>)
    modifies buckets
    ensures fresh(ClientArrays(buckets) - old(ClientArrays(buckets))) && (buckets.Length > 0 ==> fresh(ClientArrays(buckets)))
    ensures CountsIn(buckets, buckets.Length) == CollapseCounts(true, old(CountsIn(buckets, buckets.Length)))
  {
    for i := 0 to buckets.Length
      invariant forall j :: 0 <= j < i ==> fresh(buckets[j].clients)
      invariant forall j :: 0 <= j < i ==> CountsOf(buckets[j]) == old(CountsOf(buckets[j])).(clients := Collapse(old(buckets[j].clients[..])))
      invariant forall j :: i <= j < buckets.Length ==> buckets[j] == old(buckets[j])
      invariant forall j :: 0 <= j < buckets.Length ==> unchanged(old(buckets[j]).clients)
    {
      var collapsed := CollapseTotals(buckets[i].clients);
      buckets[i] := buckets[i].(clients := collapsed);
    }
    CollapseCountsAt(true, old(CountsIn(buckets, buckets.Length)));
    assert CountsIn(buckets, buckets.Length) == CollapseCounts(true, old(CountsIn(buckets, buckets.Length)));
  }

  method CloneLists(s: Summary) returns (
      byAction: array<NamedTotal>, byCache: array<NamedTotal>, topQueried: array<NamedTotal>, topBlocked: array<NamedTotal>,
      topClients: array<NamedTotal>, topBlockedClients: array<NamedTotal>, buckets: array<TimeBucket>)
    ensures fresh(byAction) && fresh(byCache) && fresh(topQueried) && fresh(topBlocked)
    ensures fresh(topClients) && fresh(topBlockedClients) && fresh(buckets)
    ensures byAction[..] == s.byAction[..] && byCache[..] == s.byCache[..]
    ensures topQueried[..] == s.topQueried[..] && topBlocked[..] == s.topBlocked[..]
    ensures topClients[..] == s.topClients[..] && topBlockedClients[..] == s.topBlockedClients[..]
    ensures buckets[..] == s.buckets[..]
  {
    byAction := CloneTotals(s.byAction);
    byCache := CloneTotals(s.byCache);
    topQueried := CloneTotals(s.topQueried);
    topBlocked := CloneTotals(s.topBlocked);
    topClients := CloneTotals(s.topClients);
    topBlockedClients := CloneTotals(s.topBlockedClients);
    buckets := CloneTimeBuckets(s.buckets);
  }

  method CloneSummary(s: Summary) returns (p: Summary)
    ensures fresh(Footprint(p)) && Contents(p) == old(Contents(s))
    ensures p.clientBuckets.Length == s.clientBuckets.Length
  {
    var clientBuckets := CloneClientBuckets(s.clientBuckets);
    var byAction, byCache, topQueried, topBlocked, topClients, topBlockedClients, buckets := CloneLists(s);
    p := Summary(s.total, byAction, byCache, topQueried, topBlocked, topClients, topBlockedClients, buckets, clientBuckets);
  }

  function ClientsHidden(f: Figures, level: nat): Figures {
    if level >= HIDE_CLIENT then Project(f, HIDE_CLIENT) else f
  }

  function DomainsHidden(f: Figures, level: nat): Figures {
    if level >= HIDE_CLIENT_AND_DOMAIN then f.(topQueried := Collapse(f.topQueried), topBlocked := Collapse(f.topBlocked)) else f
  }

  lemma ProjectInTwoParts(f: Figures, level: nat)
    ensures Project(f, level) == DomainsHidden(ClientsHidden(f, level), level)
  {
    CountsTwice(false, false, f.clientBuckets);
  }

  /** The part of a projection that hides the clients, applied to a copy nobody else holds. */
  method HideClients(p: Summary) returns (q: Summary)
    modifies p.clientBuckets
    ensures fresh(Footprint(q) - old(Footprint(p)))
    ensures Contents(q) == Project(old(Contents(p)), HIDE_CLIENT)
  {
    ghost var before := Contents(p);
    CollapseClients(p.clientBuckets);
    var topClients := CollapseTotals(p.topClients);
    var topBlockedClients := CollapseTotals(p.topBlockedClients);
    hide CollapseCounts, Collapse, CountsIn;
    assert CountsIn(p.clientBuckets, p.clientBuckets.Length) == CollapseCounts(true, before.clientBuckets);
    q := p.(topClients := topClients, topBlockedClients := topBlockedClients);
  }

  method CloneForLevel(s: Summary, level: nat) returns (p: Summary)
    ensures fresh(Footprint(p))
    ensures Contents(p) == ClientsHidden(old(Contents(s)), level)
  {
    hide Project;
    p := CloneSummary(s);
    if level >= HIDE_CLIENT {
      p := HideClients(p);
    }
  }

  method HideDomains(p: Summary, level: nat) returns (q: Summary)
    ensures fresh(Footprint(q) - old(Footprint(p)))
    ensures Contents(q) == DomainsHidden(old(Contents(p)), level)
  {
    q := p;
    if level >= HIDE_CLIENT_AND_DOMAIN {
      var topQueried := CollapseTotals(p.topQueried);
      var topBlocked := CollapseTotals(p.topBlocked);
      q := p.(topQueried := topQueried, topBlocked := topBlocked);
    }
  }

  /** A projection shares no array with the summary it was made from. */
  method ProjectSummary(s: Summary, level: nat) returns (p: Summary)
    ensures fresh(Footprint(p))
    ensures Contents(p) == Project(old(Contents(s)), level)
  {
    ProjectInTwoParts(Contents(s), level);
    hide Project, DomainsHidden, ClientsHidden;
    var clientless := CloneForLevel(s, level);
    p := HideDomains(clientless, level);
  }
}
