/**
 * The time buckets of the busiest clients: a table of counts filled from the
 * grouped rows of the query, and the lists read off it.
 */
module AuditClientBuckets {
  import opened Options
  import opened Stamps
  import opened Summaries
  import opened AuditBuckets

  /** The names without repeats, each at its first place. */
  function Distinct(names: seq<string>): (r: seq<string>)
    ensures forall n :: n in r <==> n in names
    ensures forall i, j :: 0 <= i < j < |r| ==> r[i] != r[j]
  {
    if names == [] then []
    else
      var front := Distinct(names[..|names| - 1]);
      var last := names[|names| - 1];
      assert names == names[..|names| - 1] + [last];
      if last in front then front else front + [last]
  }

  /** A column of the table: the last place of its name, which must not be empty. */
  predicate Column(names: seq<string>, j: nat) {
    j < |names| && names[j] != "" && forall k :: j < k < |names| ==> names[k] != names[j]
  }

  /** What a cell of the table holds in the end. */
  function Cell(w: Window, events: seq<Event>, names: seq<string>, i: nat, j: nat): nat
    requires Fits(w) && i < w.count
  {
    if Column(names, j) then CountSelected(events, Cut(w, i), Cut(w, i + 1), ByClient(names[j])) else 0
  }

  function ClientsOf(w: Window, events: seq<Event>, names: seq<string>, i: nat, from: nat): seq<NamedTotal>
    requires Fits(w) && i < w.count && from <= |names|
    decreases |names| - from
  {
    if from == |names| then []
    else
      var count := Cell(w, events, names, i, from);
      (if count == 0 then [] else [NamedTotal(names[from], count)]) + ClientsOf(w, events, names, i, from + 1)
  }

  function ClientBucketOf(w: Window, events: seq<Event>, names: seq<string>, totals: seq<TimeBucket>, i: nat): ClientCounts
    requires Fits(w) && i < w.count
  {
    ClientCounts(Cut(w, i), Cut(w, i + 1), if i < |totals| then totals[i].total else 0, ClientsOf(w, events, names, i, 0))
  }

  // ------------------------------------------------------------------- the loops

  /** The index of the columns by name; a later place takes over from an earlier one. */
  method ClientIndexes(names: seq<string>) returns (indexes: map<string, nat>)
    ensures forall n :: n in indexes ==> Column(names, indexes[n]) && names[indexes[n]] == n
    ensures forall j: nat :: Column(names, j) ==> names[j] in indexes && indexes[names[j]] == j
  {
    indexes := map[];
    for k := 0 to |names|
      invariant forall n :: n in indexes ==> indexes[n] < k && names[indexes[n]] == n && n != ""
      invariant forall j :: 0 <= j < k && names[j] != "" ==> names[j] in indexes && indexes[names[j]] >= j
    {
      if names[k] != "" {
        indexes := indexes[names[k] := k];
      }
    }
  }

  /** One bucket's rows of the query, one for each client with events in it. */
  method FillRow(w: Window, events: seq<Event>, names: seq<string>, indexes: map<string, nat>, counts: array2<nat>, i: nat)
    requires Fits(w) && i < w.count == counts.Length0 && counts.Length1 == |names|
    requires forall n :: n in indexes ==> Column(names, indexes[n]) && names[indexes[n]] == n
    requires forall j: nat :: Column(names, j) ==> names[j] in indexes && indexes[names[j]] == j
    requires forall j :: 0 <= j < |names| ==> counts[i, j] == 0
    modifies counts
    ensures forall j :: 0 <= j < |names| ==> counts[i, j] == Cell(w, events, names, i, j)
    ensures forall k, j :: 0 <= k < w.count && 0 <= j < |names| && k != i ==> counts[k, j] == old(counts[k, j])
  {
    var clients := Distinct(names);
    hide Distinct, CountSelected;
    for g := 0 to |clients|
      invariant forall j :: 0 <= j < |names| ==> counts[i, j] == if names[j] in clients[..g] then Cell(w, events, names, i, j) else 0
      invariant forall k, j :: 0 <= k < w.count && 0 <= j < |names| && k != i ==> counts[k, j] == old(counts[k, j])
    {
      var client := clients[g];
      assert clients[..g + 1] == clients[..g] + [client];
      assert client !in clients[..g];
      var count := CountSelected(events, Cut(w, i), Cut(w, i + 1), ByClient(client));
      if count > 0 && client in indexes {
        var index := indexes[client];
        counts[i, index] := counts[i, index] + count;
      }
    }
    assert clients[..|clients|] == clients;
  }

  /** The clients of a bucket, in the order of the busiest clients, without the idle ones. */
  method ReadRow(w: Window, events: seq<Event>, names: seq<string>, counts: array2<nat>, i: nat) returns (clients: seq<NamedTotal>)
    requires Fits(w) && i < w.count == counts.Length0 && counts.Length1 == |names|
    requires forall j :: 0 <= j < |names| ==> counts[i, j] == Cell(w, events, names, i, j)
    ensures clients == ClientsOf(w, events, names, i, 0)
  {
    hide Cell;
    clients := [];
    for j := 0 to |names|
      invariant clients + ClientsOf(w, events, names, i, j) == ClientsOf(w, events, names, i, 0)
    {
      if counts[i, j] == 0 { continue; }
      clients := clients + [NamedTotal(names[j], counts[i, j])];
    }
  }

  lemma {:induction false} NoColumnsNoClients(w: Window, events: seq<Event>, names: seq<string>, i: nat, from: nat)
    requires Fits(w) && i < w.count && from <= |names|
    requires forall j: nat :: !Column(names, j)
    ensures ClientsOf(w, events, names, i, from) == []
    decreases |names| - from
  {
    if from < |names| {
      NoColumnsNoClients(w, events, names, i, from + 1);
    }
  }

  // --------------------------------------------------------- what a bucket should list

  /** The places of the events of a client in a time. */
  ghost function PlacesBy(events: seq<Event>, client: string, start: int, end: int): set<int> {
    set k | 0 <= k < |events| && start <= events[k].time < end && events[k].client == client
  }

  /**
   * The listed clients stand, in their order, at increasing places of the names,
   * each name at its last place; each has its number of events, which is not 0;
   * and no name with events is missing.
   */
  ghost predicate Lists(clients: seq<NamedTotal>, places: seq<nat>, names: seq<string>, events: seq<Event>, start: int, end: int) {
    && |places| == |clients|
    && (forall a, b :: 0 <= a < b < |places| ==> places[a] < places[b])
    && (forall a :: 0 <= a < |places| ==>
          && places[a] < |names| && clients[a].name == names[places[a]] && clients[a].name != ""
          && (forall k :: places[a] < k < |names| ==> names[k] != clients[a].name)
          && clients[a].count == |PlacesBy(events, clients[a].name, start, end)| && clients[a].count > 0)
    && forall n :: n in names && n != "" && PlacesBy(events, n, start, end) != {} ==> exists a :: 0 <= a < |clients| && clients[a].name == n
  }

  lemma {:induction false} CountIsPlacesBy(events: seq<Event>, client: string, start: nat, end: nat)
    ensures CountDuring(events, start, end, ByClient(client)) == |PlacesBy(events, client, start, end)|
  {
    if events != [] {
      var n := |events| - 1;
      CountIsPlacesBy(events[..n], client, start, end);
      assert PlacesBy(events, client, start, end) ==
             PlacesBy(events[..n], client, start, end)
             + if start <= events[n].time < end && events[n].client == client then {n} else {};
    }
  }

  lemma CellIs(w: Window, events: seq<Event>, names: seq<string>, i: nat, j: nat)
    requires Sound(w) && w.interval % SECOND == 0 && InRange(events) && i < w.count
    ensures Cell(w, events, names, i, j) ==
            if Column(names, j) then |PlacesBy(events, names[j], Cut(w, i), Cut(w, i + 1))| else 0
  {
    hide InRange, CountSelected, CountDuring;
    if Column(names, j) {
      CountedByTime(w, events, i, ByClient(names[j]));
      CountIsPlacesBy(events, names[j], Cut(w, i), Cut(w, i + 1));
    }
  }

  /** The part of the list that is read off from a column on. */
  ghost predicate ListsFrom(clients: seq<NamedTotal>, places: seq<nat>, names: seq<string>, events: seq<Event>, start: int, end: int, from: nat) {
    && |places| == |clients|
    && (forall a, b :: 0 <= a < b < |places| ==> places[a] < places[b])
    && (forall a :: 0 <= a < |places| ==>
          && from <= places[a] && Column(names, places[a]) && clients[a].name == names[places[a]]
          && clients[a].count == |PlacesBy(events, clients[a].name, start, end)| && clients[a].count > 0)
    && forall j :: from <= j < |names| && Column(names, j) && PlacesBy(events, names[j], start, end) != {} ==> j in places
  }

  lemma {:induction false} ReadOff(w: Window, events: seq<Event>, names: seq<string>, i: nat, from: nat) returns (places: seq<nat>)
    requires Sound(w) && w.interval % SECOND == 0 && InRange(events) && i < w.count && from <= |names|
    ensures ListsFrom(ClientsOf(w, events, names, i, from), places, names, events, Cut(w, i), Cut(w, i + 1), from)
    decreases |names| - from
  {
    hide InRange, Cell, Cut, Column, PlacesBy;
    if from == |names| {
      places := [];
    } else {
      var rest := ReadOff(w, events, names, i, from + 1);
      CellIs(w, events, names, i, from);
      places := if Cell(w, events, names, i, from) == 0 then rest else [from] + rest;
    }
  }

  lemma {:induction false} LastPlace(names: seq<string>, n: string) returns (j: nat)
    requires n in names && n != ""
    ensures Column(names, j) && names[j] == n
  {
    if names[|names| - 1] == n {
      j := |names| - 1;
    } else {
      assert names == names[..|names| - 1] + [names[|names| - 1]];
      j := LastPlace(names[..|names| - 1], n);
    }
  }

  ghost predicate ListsBusy(b: ClientCounts, names: seq<string>, events: seq<Event>) {
    exists places :: Lists(b.clients, places, names, events, b.start, b.end)
  }

  lemma BucketLists(w: Window, events: seq<Event>, names: seq<string>, totals: seq<TimeBucket>, i: nat)
    requires Sound(w) && w.interval % SECOND == 0 && InRange(events) && i < w.count
    ensures ListsBusy(ClientBucketOf(w, events, names, totals, i), names, events)
  {
    var places := ReadOff(w, events, names, i, 0);
    var clients := ClientsOf(w, events, names, i, 0);
    hide ClientsOf, Cut, InRange, Sound, PlacesBy;
    forall n | n in names && n != "" && PlacesBy(events, n, Cut(w, i), Cut(w, i + 1)) != {}
      ensures exists a :: 0 <= a < |clients| && clients[a].name == n
    {
      var j := LastPlace(names, n);
      assert j in places;
      var a :| 0 <= a < |places| && places[a] == j;
      assert clients[a].name == n;
    }
    assert Lists(clients, places, names, events, Cut(w, i), Cut(w, i + 1));
  }

  method ClientTimeBuckets(w: Window, events: seq<Event>, names: seq<string>, totals: seq<TimeBucket>)
      returns (buckets: array<ClientCounts>)
    requires Fits(w)
    ensures fresh(buckets) && buckets.Length == w.count
    ensures forall i :: 0 <= i < w.count ==> buckets[i] == ClientBucketOf(w, events, names, totals, i)
    ensures forall i :: 0 <= i < w.count ==>
              && buckets[i].start == w.now - w.now % w.interval + w.interval - w.count * w.interval + i * w.interval
              && buckets[i].end == buckets[i].start + w.interval
              && buckets[i].total == if i < |totals| then totals[i].total else 0
    ensures Sound(w) && w.interval % SECOND == 0 && InRange(events) ==>
              forall i :: 0 <= i < w.count ==> ListsBusy(buckets[i], names, events)
  {
    buckets := FillBuckets(w, events, names, totals);
    forall i | 0 <= i < w.count
      ensures buckets[i].start == w.now - w.now % w.interval + w.interval - w.count * w.interval + i * w.interval
      ensures buckets[i].end == buckets[i].start + w.interval
    {
      CutNext(w, i);
    }
    if Sound(w) && w.interval % SECOND == 0 && InRange(events) {
      forall i | 0 <= i < w.count ensures ListsBusy(buckets[i], names, events) {
        BucketLists(w, events, names, totals, i);
      }
    }
  }

  method FillBuckets(w: Window, events: seq<Event>, names: seq<string>, totals: seq<TimeBucket>)
      returns (buckets: array<ClientCounts>)
    requires Fits(w)
    ensures fresh(buckets) && buckets.Length == w.count
    ensures forall i :: 0 <= i < w.count ==> buckets[i] == ClientBucketOf(w, events, names, totals, i)
  {
    hide Cell, ClientsOf, Cut, Fits, Column;
    buckets := new ClientCounts[w.count](_ => ClientCounts(0, 0, 0, []));
    for i := 0 to w.count
      invariant forall k :: 0 <= k < i ==> buckets[k] == ClientBucketOf(w, events, names, totals, k).(clients := [])
    {
      buckets[i] := ClientCounts(Cut(w, i), Cut(w, i + 1), if i < |totals| then totals[i].total else 0, []);
    }
    var indexes := ClientIndexes(names);
    if |indexes| == 0 {
      forall i | 0 <= i < w.count ensures ClientsOf(w, events, names, i, 0) == [] {
        assert forall j: nat :: !Column(names, j) by { assert indexes.Keys == {}; }
        NoColumnsNoClients(w, events, names, i, 0);
      }
      return;
    }
    var counts := new nat[w.count, |names|]((_, _) => 0);
    for i := 0 to w.count
      invariant forall k, j :: 0 <= k < i && 0 <= j < |names| ==> counts[k, j] == Cell(w, events, names, k, j)
      invariant forall k, j :: i <= k < w.count && 0 <= j < |names| ==> counts[k, j] == 0
      invariant forall k :: 0 <= k < w.count ==> buckets[k] == ClientBucketOf(w, events, names, totals, k).(clients := [])
    {
      FillRow(w, events, names, indexes, counts, i);
    }
    for i := 0 to w.count
      invariant forall k :: 0 <= k < i ==> buckets[k] == ClientBucketOf(w, events, names, totals, k)
      invariant forall k :: i <= k < w.count ==> buckets[k] == ClientBucketOf(w, events, names, totals, k).(clients := [])
      invariant forall k, j :: 0 <= k < w.count && 0 <= j < |names| ==> counts[k, j] == Cell(w, events, names, k, j)
    {
      var clients := ReadRow(w, events, names, counts, i);
      buckets[i] := buckets[i].(clients := clients);
    }
  }

  // ------------------------------------------------------------------- the bound

  function NamesFrom(names: seq<string>, from: nat): set<string>
    requires from <= |names|
  {
    set j | from <= j < |names| :: names[j]
  }

  lemma {:induction false} CountJoins(events: seq<Event>, start: nat, end: nat, clients: set<string>, client: string)
    requires client !in clients
    ensures CountSelected(events, start, end, ByClients(clients + {client})) ==
            CountSelected(events, start, end, ByClients(clients)) + CountSelected(events, start, end, ByClient(client))
  {
    if events != [] {
      CountJoins(events[..|events| - 1], start, end, clients, client);
    }
  }

  lemma {:induction false} CountWithin(events: seq<Event>, start: nat, end: nat, a: set<string>, b: set<string>)
    requires a <= b
    ensures CountSelected(events, start, end, ByClients(a)) <= CountSelected(events, start, end, ByClients(b))
            <= CountSelected(events, start, end, Everyone)
  {
    if events != [] {
      CountWithin(events[..|events| - 1], start, end, a, b);
    }
  }

  function SumFrom(clients: seq<NamedTotal>): int {
    if clients == [] then 0 else clients[0].count + SumFrom(clients[1..])
  }

  /** The clients listed in a bucket are different ones, so together they stay within the total. */
  lemma {:induction false} ClientsWithin(w: Window, events: seq<Event>, names: seq<string>, i: nat, from: nat)
    requires Fits(w) && i < w.count && from <= |names|
    ensures SumFrom(ClientsOf(w, events, names, i, from)) <=
            CountSelected(events, Cut(w, i), Cut(w, i + 1), ByClients(NamesFrom(names, from)))
    decreases |names| - from
  {
    hide CountSelected, Cut, Fits, Column, NamesFrom;
    if from < |names| {
      var rest := ClientsOf(w, events, names, i, from + 1);
      var count := Cell(w, events, names, i, from);
      var here := if count == 0 then [] else [NamedTotal(names[from], count)];
      assert SumFrom(here + rest) == count + SumFrom(rest) by {
        assert count != 0 ==> (here + rest)[1..] == rest;
        assert count == 0 ==> here + rest == rest;
      }
      ClientsWithin(w, events, names, i, from + 1);
      OneClientMore(events, names, Cut(w, i), Cut(w, i + 1), from);
    }
  }

  lemma OneClientMore(events: seq<Event>, names: seq<string>, start: nat, end: nat, from: nat)
    requires from < |names|
    ensures CountSelected(events, start, end, ByClients(NamesFrom(names, from + 1)))
            + (if Column(names, from) then CountSelected(events, start, end, ByClient(names[from])) else 0)
            <= CountSelected(events, start, end, ByClients(NamesFrom(names, from)))
  {
    hide CountSelected;
    var rest := NamesFrom(names, from + 1);
    assert NamesFrom(names, from) == rest + {names[from]};
    CountWithin(events, start, end, rest, NamesFrom(names, from));
    if Column(names, from) {
      CountJoins(events, start, end, rest, names[from]);
    }
  }

  /** Per-client counts, even all of them together, never exceed the bucket total. */
  lemma ClientsWithinTotal(w: Window, events: seq<Event>, names: seq<string>, i: nat)
    requires Fits(w) && i < w.count
    ensures SumFrom(ClientsOf(w, events, names, i, 0)) <= BucketOf(w, events, i).total
  {
    ClientsWithin(w, events, names, i, 0);
    CountWithin(events, Cut(w, i), Cut(w, i + 1), NamesFrom(names, 0), NamesFrom(names, 0));
  }
}
