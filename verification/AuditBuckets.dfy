/**
 * The time buckets of a summary. Events are assigned to buckets by comparing
 * text; for intervals of whole seconds the buckets cut up the window exactly.
 */
module AuditBuckets {
  import opened Options
  import opened Stamps
  import opened StampOrder
  import opened Summaries

  datatype Event = Event(time: nat, client: string, action: string)

  const HOUR: nat := 3600 * SECOND

  /** A summary request as it comes in; a count or an interval of 0 or less means the default. */
  datatype Request = Request(now: nat, topLimit: int, bucketCount: int, interval: int)

  function Clamped(n: int, default: int, limit: int): int {
    var m := if n <= 0 then default else n;
    if m > limit then limit else m
  }

  function Normalized(r: Request): Request {
    Request(r.now, Clamped(r.topLimit, 10, 100), Clamped(r.bucketCount, 24, 168), if r.interval <= 0 then HOUR else r.interval)
  }

  /**
   * What is not asked for is ten names, a day of hours, and no more than a hundred
   * names or a week of hours is given; normalizing is settled at once.
   */
  lemma NormalizedSettles(r: Request)
    ensures var n := Normalized(r);
            && Normalized(n) == n && n.now == r.now
            && n.topLimit == (if r.topLimit <= 0 then 10 else if r.topLimit > 100 then 100 else r.topLimit)
            && n.bucketCount == (if r.bucketCount <= 0 then 24 else if r.bucketCount > 168 then 168 else r.bucketCount)
            && n.interval == (if r.interval <= 0 then 3_600_000_000_000 else r.interval)
  {
  }

  // ------------------------------------------------------------------ the window

  datatype Window = Window(now: nat, count: nat, interval: nat)

  /** The boundaries lie between the year 1 and the year 9999. */
  ghost predicate Sound(w: Window) {
    && w.count > 0 && Fits(w)
    && WindowEnd(w) / SECOND < END
  }

  predicate Fits(w: Window) {
    w.interval > 0 && w.count * w.interval <= WindowEnd(w)
  }

  function WindowEnd(w: Window): nat
    requires w.interval > 0
  {
    w.now - w.now % w.interval + w.interval
  }

  /** The boundary before bucket i, and after the last one for i = count. */
  function Cut(w: Window, i: nat): nat
    requires Fits(w) && i <= w.count
  {
    assert i * w.interval >= 0;
    WindowEnd(w) - w.count * w.interval + i * w.interval
  }

  // ------------------------------------------------------------------- selecting

  datatype Filter = Everyone | ByAction(action: string) | ByClient(client: string) | ByClients(clients: set<string>)

  predicate Picks(f: Filter, e: Event) {
    match f
    case Everyone => true
    case ByAction(action) => e.action == action
    case ByClient(client) => e.client == client
    case ByClients(clients) => e.client in clients
  }

  /** The condition of the query, on text. */
  predicate Selected(e: Event, start: nat, end: nat) {
    AtLeast(Stored(e.time), Boundary(start)) && Less(Stored(e.time), Boundary(end))
  }

  function CountSelected(events: seq<Event>, start: nat, end: nat, f: Filter): nat {
    if events == [] then 0
    else
      var e := events[|events| - 1];
      CountSelected(events[..|events| - 1], start, end, f) + if Selected(e, start, end) && Picks(f, e) then 1 else 0
  }

  /** The same count, on times. */
  function CountDuring(events: seq<Event>, start: nat, end: nat, f: Filter): nat {
    if events == [] then 0
    else
      var e := events[|events| - 1];
      CountDuring(events[..|events| - 1], start, end, f) + if start <= e.time < end && Picks(f, e) then 1 else 0
  }

  function BucketOf(w: Window, events: seq<Event>, i: nat): TimeBucket
    requires Fits(w) && i < w.count
  {
    var start, end := Cut(w, i), Cut(w, i + 1);
    TimeBucket(start, end, CountSelected(events, start, end, Everyone),
               CountSelected(events, start, end, ByAction("allow")), CountSelected(events, start, end, ByAction("block")))
  }

  // ------------------------------------------------------- what the fields should say

  /** The places of the events in a time, and of those of one action. */
  ghost function Places(events: seq<Event>, start: int, end: int): set<int> {
    set k | 0 <= k < |events| && start <= events[k].time < end
  }

  ghost function PlacesOf(events: seq<Event>, action: string, start: int, end: int): set<int> {
    set k | 0 <= k < |events| && start <= events[k].time < end && events[k].action == action
  }

  /**
   * The buckets follow each other up to the one that contains now, and each counts
   * the events of its own time, all of them, those allowed and those blocked.
   */
  ghost predicate Tells(buckets: seq<TimeBucket>, w: Window, events: seq<Event>)
    requires w.interval > 0
  {
    && |buckets| == w.count
    && forall i :: 0 <= i < w.count ==>
         && buckets[i].start == w.now - w.now % w.interval + w.interval - w.count * w.interval + i * w.interval
         && buckets[i].end == buckets[i].start + w.interval
         && CountsOwnTime(buckets[i], events)
  }

  ghost predicate CountsOwnTime(b: TimeBucket, events: seq<Event>) {
    && b.total == |Places(events, b.start, b.end)|
    && b.allowed == |PlacesOf(events, "allow", b.start, b.end)|
    && b.blocked == |PlacesOf(events, "block", b.start, b.end)|
  }

  function SumTotal(buckets: seq<TimeBucket>): int {
    if buckets == [] then 0 else SumTotal(buckets[..|buckets| - 1]) + buckets[|buckets| - 1].total
  }

  function SumAllowed(buckets: seq<TimeBucket>): int {
    if buckets == [] then 0 else SumAllowed(buckets[..|buckets| - 1]) + buckets[|buckets| - 1].allowed
  }

  function SumBlocked(buckets: seq<TimeBucket>): int {
    if buckets == [] then 0 else SumBlocked(buckets[..|buckets| - 1]) + buckets[|buckets| - 1].blocked
  }

  /** The sums are the counts of the whole window. */
  ghost predicate AddUp(buckets: seq<TimeBucket>, events: seq<Event>) {
    buckets != [] ==>
      var start, end := buckets[0].start, buckets[|buckets| - 1].end;
      && SumTotal(buckets) == |Places(events, start, end)|
      && SumAllowed(buckets) == |PlacesOf(events, "allow", start, end)|
      && SumBlocked(buckets) == |PlacesOf(events, "block", start, end)|
  }

  lemma {:induction false} CountIsPlaces(events: seq<Event>, start: nat, end: nat)
    ensures CountDuring(events, start, end, Everyone) == |Places(events, start, end)|
  {
    if events != [] {
      var n := |events| - 1;
      CountIsPlaces(events[..n], start, end);
      assert Places(events, start, end) == Places(events[..n], start, end) + if start <= events[n].time < end then {n} else {};
    }
  }

  lemma {:induction false} CountIsPlacesOf(events: seq<Event>, action: string, start: nat, end: nat)
    ensures CountDuring(events, start, end, ByAction(action)) == |PlacesOf(events, action, start, end)|
  {
    if events != [] {
      var n := |events| - 1;
      CountIsPlacesOf(events[..n], action, start, end);
      assert PlacesOf(events, action, start, end) ==
             PlacesOf(events[..n], action, start, end)
             + if start <= events[n].time < end && events[n].action == action then {n} else {};
    }
  }

  lemma BucketCounts(w: Window, events: seq<Event>, i: nat)
    requires Sound(w) && w.interval % SECOND == 0 && i < w.count && InRange(events)
    ensures CountsOwnTime(BucketOf(w, events, i), events)
  {
    hide CountSelected, CountDuring, Places, PlacesOf, InRange, Cut;
    CountedByTime(w, events, i, Everyone);
    CountedByTime(w, events, i, ByAction("allow"));
    CountedByTime(w, events, i, ByAction("block"));
    CountIsPlaces(events, Cut(w, i), Cut(w, i + 1));
    CountIsPlacesOf(events, "allow", Cut(w, i), Cut(w, i + 1));
    CountIsPlacesOf(events, "block", Cut(w, i), Cut(w, i + 1));
  }

  lemma BucketsTell(w: Window, events: seq<Event>, buckets: seq<TimeBucket>)
    requires Sound(w) && w.interval % SECOND == 0 && InRange(events)
    requires |buckets| == w.count && forall i :: 0 <= i < w.count ==> buckets[i] == BucketOf(w, events, i)
    ensures Tells(buckets, w, events)
  {
    hide CountSelected, InRange, CountsOwnTime;
    forall i | 0 <= i < w.count
      ensures buckets[i].start == w.now - w.now % w.interval + w.interval - w.count * w.interval + i * w.interval
      ensures buckets[i].end == buckets[i].start + w.interval && CountsOwnTime(buckets[i], events)
    {
      CutNext(w, i);
      BucketCounts(w, events, i);
    }
  }

  /** Two times that follow each other. */
  lemma PlacesJoin(events: seq<Event>, a: int, b: int, c: int)
    requires a <= b <= c
    ensures |Places(events, a, b)| + |Places(events, b, c)| == |Places(events, a, c)|
  {
    assert Places(events, a, c) == Places(events, a, b) + Places(events, b, c);
  }

  lemma PlacesOfJoin(events: seq<Event>, action: string, a: int, b: int, c: int)
    requires a <= b <= c
    ensures |PlacesOf(events, action, a, b)| + |PlacesOf(events, action, b, c)| == |PlacesOf(events, action, a, c)|
  {
    assert PlacesOf(events, action, a, c) == PlacesOf(events, action, a, b) + PlacesOf(events, action, b, c);
  }

  /** Buckets that follow each other and count their own times add up. */
  lemma {:induction false} CountedAddUp(buckets: seq<TimeBucket>, events: seq<Event>)
    requires forall i :: 0 <= i < |buckets| ==> buckets[i].start <= buckets[i].end && CountsOwnTime(buckets[i], events)
    requires forall i :: 0 < i < |buckets| ==> buckets[i].start == buckets[i - 1].end
    ensures AddUp(buckets, events) && (buckets != [] ==> buckets[0].start <= buckets[|buckets| - 1].end)
  {
    hide Places, PlacesOf;
    if buckets != [] {
      var n := |buckets| - 1;
      var front, last := buckets[..n], buckets[n];
      CountedAddUp(front, events);
      if front != [] {
        assert front[n - 1].end == last.start && front[0] == buckets[0];
        PlacesJoin(events, front[0].start, last.start, last.end);
        PlacesOfJoin(events, "allow", front[0].start, last.start, last.end);
        PlacesOfJoin(events, "block", front[0].start, last.start, last.end);
      } else {
        assert SumTotal(front) == SumAllowed(front) == SumBlocked(front) == 0;
      }
    }
  }

  lemma BucketsAddUp(w: Window, events: seq<Event>, buckets: seq<TimeBucket>)
    requires Sound(w) && w.interval % SECOND == 0 && InRange(events)
    requires |buckets| == w.count && forall i :: 0 <= i < w.count ==> buckets[i] == BucketOf(w, events, i)
    ensures AddUp(buckets, events)
  {
    hide CountSelected, InRange, CountsOwnTime, AddUp;
    forall i | 0 <= i < w.count ensures buckets[i].start <= buckets[i].end && CountsOwnTime(buckets[i], events) {
      CutNext(w, i);
      BucketCounts(w, events, i);
    }
    hide BucketOf;
    forall i | 0 < i < w.count ensures buckets[i].start == buckets[i - 1].end {
      assert buckets[i] == BucketOf(w, events, i) && buckets[i - 1] == BucketOf(w, events, i - 1);
      BucketEdges(w, events, i - 1);
    }
    CountedAddUp(buckets, events);
  }

  lemma BucketEdges(w: Window, events: seq<Event>, i: nat)
    requires Fits(w) && i < w.count
    ensures BucketOf(w, events, i).start == Cut(w, i) && BucketOf(w, events, i).end == Cut(w, i + 1)
    ensures i + 1 < w.count ==> BucketOf(w, events, i + 1).start == Cut(w, i + 1)
  {
  }

  // ------------------------------------------------------------------- the loops

  method TimeBuckets(w: Window, events: seq<Event>) returns (buckets: array<TimeBucket>)
    requires Sound(w)
    ensures fresh(buckets) && buckets.Length == w.count
    ensures forall i :: 0 <= i < w.count ==> buckets[i] == BucketOf(w, events, i)
    ensures forall i :: 0 <= i < w.count ==> buckets[i].allowed + buckets[i].blocked <= buckets[i].total
    ensures w.interval % SECOND == 0 && InRange(events) ==> Tells(buckets[..], w, events) && AddUp(buckets[..], events)
  {
    hide CountSelected, Tells, AddUp, InRange;
    buckets := new TimeBucket[w.count](_ => TimeBucket(0, 0, 0, 0, 0));
    for i := 0 to w.count
      invariant forall j :: 0 <= j < i ==> buckets[j] == TimeBucket(Cut(w, j), Cut(w, j + 1), 0, 0, 0)
    {
      CutNext(w, i);
      buckets[i] := TimeBucket(Cut(w, i), Cut(w, i) + w.interval, 0, 0, 0);
    }
    for i := 0 to w.count
      invariant forall j :: 0 <= j < i ==> buckets[j] == BucketOf(w, events, j)
      invariant forall j :: i <= j < w.count ==> buckets[j] == TimeBucket(Cut(w, j), Cut(w, j + 1), 0, 0, 0)
      invariant forall j :: 0 <= j < i ==> buckets[j].allowed + buckets[j].blocked <= buckets[j].total
    {
      var start, end := Cut(w, i), Cut(w, i + 1);
      var total := CountSelected(events, start, end, Everyone);
      var allowed := CountSelected(events, start, end, ByAction("allow"));
      var blocked := CountSelected(events, start, end, ByAction("block"));
      PartsWithinTotal(events, start, end);
      buckets[i] := buckets[i].(total := total, allowed := allowed, blocked := blocked);
    }
    if w.interval % SECOND == 0 && InRange(events) {
      BucketsTell(w, events, buckets[..]);
      BucketsAddUp(w, events, buckets[..]);
    }
  }

  // -------------------------------------------------------------------- the cuts

  lemma CutNext(w: Window, i: nat)
    requires Fits(w) && i < w.count
    ensures Cut(w, i + 1) == Cut(w, i) + w.interval
  {
  }

  lemma {:induction false} CutsGrow(w: Window, i: nat, j: nat)
    requires Fits(w) && i <= j <= w.count
    ensures Cut(w, i) <= Cut(w, j) && (i < j ==> Cut(w, i) < Cut(w, j))
  {
    if i < j {
      CutNext(w, j - 1);
      CutsGrow(w, i, j - 1);
    }
  }

  /** The last bucket is the one that contains now. */
  lemma NowInLastBucket(w: Window)
    requires Fits(w) && w.count > 0
    ensures Cut(w, w.count - 1) <= w.now < Cut(w, w.count) && Cut(w, w.count) - Cut(w, 0) == w.count * w.interval
  {
    CutNext(w, w.count - 1);
  }

  lemma MultipleIsWhole(a: nat, b: nat)
    requires b % SECOND == 0
    ensures a * b % SECOND == 0
  {
    var k := b / SECOND;
    assert b == k * SECOND;
    assert a * b == (a * k) * SECOND;
    WholeMultiple(a * k);
  }

  lemma WholeMultiple(k: nat)
    ensures k * SECOND % SECOND == 0
  {
  }

  lemma WholeDifference(a: nat, b: nat)
    requires a % SECOND == 0 && b % SECOND == 0
    ensures (a + b) % SECOND == 0 && (a >= b ==> (a - b) % SECOND == 0)
  {
  }

  lemma CutIsWhole(w: Window, i: nat)
    requires Fits(w) && i <= w.count
    requires w.interval % SECOND == 0
    ensures Cut(w, i) % SECOND == 0
  {
    var steps := w.now / w.interval + 1;
    assert WindowEnd(w) == steps * w.interval;
    MultipleIsWhole(steps, w.interval);
    MultipleIsWhole(w.count, w.interval);
    MultipleIsWhole(i, w.interval);
    WholeDifference(WindowEnd(w), w.count * w.interval);
    WholeDifference(WindowEnd(w) - w.count * w.interval, i * w.interval);
  }

  lemma CutInRange(w: Window, i: nat)
    requires Sound(w) && i <= w.count
    ensures Cut(w, i) / SECOND < END
  {
    CutsGrow(w, i, w.count);
    assert Cut(w, i) / SECOND <= Cut(w, w.count) / SECOND;
  }

  /** Every boundary of the window orders all events by time exactly if the interval is whole seconds. */
  lemma BucketsExactly(w: Window)
    requires Sound(w)
    ensures (forall i :: 0 <= i <= w.count ==> OrdersAll(Cut(w, i))) <==> w.interval % SECOND == 0
  {
    forall i | 0 <= i <= w.count ensures OrdersAll(Cut(w, i)) <==> Cut(w, i) % SECOND == 0 {
      CutInRange(w, i);
      OrdersExactly(Cut(w, i));
    }
    if w.interval % SECOND == 0 {
      forall i | 0 <= i <= w.count ensures OrdersAll(Cut(w, i)) { CutIsWhole(w, i); }
    } else {
      CutNext(w, 0);
      if Cut(w, 0) % SECOND == 0 && Cut(w, 1) % SECOND == 0 {
        WholeDifference(Cut(w, 1), Cut(w, 0));
      }
    }
  }

  // ------------------------------------------------------------ what is counted

  ghost predicate InRange(events: seq<Event>) {
    forall e :: e in events ==> e.time / SECOND < END
  }

  lemma SelectedIsDuring(w: Window, e: Event, i: nat)
    requires Sound(w) && w.interval % SECOND == 0 && i < w.count && e.time / SECOND < END
    ensures Selected(e, Cut(w, i), Cut(w, i + 1)) <==> Cut(w, i) <= e.time < Cut(w, i + 1)
  {
    hide Stored, Boundary, Less;
    CutInRange(w, i);
    CutInRange(w, i + 1);
    CutIsWhole(w, i);
    CutIsWhole(w, i + 1);
    TextOrderIsTimeOrder(e.time, Cut(w, i));
    TextOrderIsTimeOrder(e.time, Cut(w, i + 1));
  }

  lemma {:induction false} CountedByTime(w: Window, events: seq<Event>, i: nat, f: Filter)
    requires Sound(w) && w.interval % SECOND == 0 && i < w.count && InRange(events)
    ensures CountSelected(events, Cut(w, i), Cut(w, i + 1), f) == CountDuring(events, Cut(w, i), Cut(w, i + 1), f)
  {
    hide Selected, Sound, Picks;
    if events != [] {
      assert events[|events| - 1] in events && forall e :: e in events[..|events| - 1] ==> e in events;
      CountedByTime(w, events[..|events| - 1], i, f);
      SelectedIsDuring(w, events[|events| - 1], i);
    }
  }

  ghost predicate SelectedIn(w: Window, e: Event, i: nat)
    requires Fits(w)
  {
    i < w.count && Selected(e, Cut(w, i), Cut(w, i + 1))
  }

  lemma SelectedInMeans(w: Window, e: Event, i: nat)
    requires Sound(w) && w.interval % SECOND == 0 && e.time / SECOND < END
    ensures SelectedIn(w, e, i) <==> i < w.count && Cut(w, i) <= e.time < Cut(w, i + 1)
  {
    if i < w.count { SelectedIsDuring(w, e, i); }
  }

  lemma SelectedOnce(w: Window, e: Event, i: nat, j: nat)
    requires Sound(w) && w.interval % SECOND == 0 && e.time / SECOND < END
    requires SelectedIn(w, e, i) && SelectedIn(w, e, j)
    ensures i == j && Cut(w, 0) <= e.time < Cut(w, w.count)
  {
    hide SelectedIn, Cut, Fits;
    SelectedInMeans(w, e, i);
    SelectedInMeans(w, e, j);
    CutsGrow(w, 0, i);
    CutsGrow(w, i + 1, w.count);
    if i < j { CutsGrow(w, i + 1, j); } else if j < i { CutsGrow(w, j + 1, i); }
  }

  lemma SelectedSomewhere(w: Window, e: Event) returns (i: nat)
    requires Sound(w) && w.interval % SECOND == 0 && e.time / SECOND < END
    requires Cut(w, 0) <= e.time < Cut(w, w.count)
    ensures SelectedIn(w, e, i)
  {
    i := BucketFor(w, e.time, w.count);
    SelectedInMeans(w, e, i);
  }

  /** Every event of the window is counted in exactly one bucket, and no other event is counted. */
  lemma InExactlyOneBucket(w: Window, e: Event)
    requires Sound(w) && w.interval % SECOND == 0 && e.time / SECOND < END
    ensures (exists i :: SelectedIn(w, e, i)) <==> Cut(w, 0) <= e.time < Cut(w, w.count)
    ensures forall i, j :: SelectedIn(w, e, i) && SelectedIn(w, e, j) ==> i == j
  {
    hide SelectedIn, Cut, Fits;
    if Cut(w, 0) <= e.time < Cut(w, w.count) {
      var i := SelectedSomewhere(w, e);
    }
    forall i, j | SelectedIn(w, e, i) && SelectedIn(w, e, j) ensures i == j && Cut(w, 0) <= e.time < Cut(w, w.count) {
      SelectedOnce(w, e, i, j);
    }
  }

  lemma {:induction false} BucketFor(w: Window, time: nat, upto: nat) returns (i: nat)
    requires Fits(w) && upto <= w.count
    requires Cut(w, 0) <= time < Cut(w, upto)
    ensures i < upto && Cut(w, i) <= time < Cut(w, i + 1)
  {
    if Cut(w, upto - 1) <= time {
      i := upto - 1;
    } else {
      i := BucketFor(w, time, upto - 1);
    }
  }

  lemma {:induction false} CountSplits(events: seq<Event>, a: nat, b: nat, c: nat, f: Filter)
    requires a <= b <= c
    ensures CountDuring(events, a, b, f) + CountDuring(events, b, c, f) == CountDuring(events, a, c, f)
  {
    if events != [] {
      CountSplits(events[..|events| - 1], a, b, c, f);
    }
  }

  lemma {:induction false} CountNone(events: seq<Event>, a: nat, f: Filter)
    ensures CountDuring(events, a, a, f) == 0
  {
    if events != [] {
      CountNone(events[..|events| - 1], a, f);
    }
  }

  function TotalOf(w: Window, events: seq<Event>, upto: nat): int
    requires Fits(w) && upto <= w.count
  {
    if upto == 0 then 0 else TotalOf(w, events, upto - 1) + BucketOf(w, events, upto - 1).total
  }

  /** The totals of the buckets add up to the number of events in the window. */
  lemma {:induction false} TotalsAddUp(w: Window, events: seq<Event>, upto: nat)
    requires Sound(w) && w.interval % SECOND == 0 && InRange(events) && upto <= w.count
    ensures TotalOf(w, events, upto) == CountDuring(events, Cut(w, 0), Cut(w, upto), Everyone)
  {
    hide CountSelected, Cut, Fits;
    if upto == 0 {
      CountNone(events, Cut(w, 0), Everyone);
    } else {
      TotalsAddUp(w, events, upto - 1);
      CountedByTime(w, events, upto - 1, Everyone);
      CutsGrow(w, 0, upto - 1);
      CutsGrow(w, upto - 1, upto);
      CountSplits(events, Cut(w, 0), Cut(w, upto - 1), Cut(w, upto), Everyone);
    }
  }

  /** Allowed and blocked are parts of the total, whatever the boundaries. */
  lemma {:induction false} PartsWithinTotal(events: seq<Event>, start: nat, end: nat)
    ensures CountSelected(events, start, end, ByAction("allow")) + CountSelected(events, start, end, ByAction("block"))
            <= CountSelected(events, start, end, Everyone)
  {
    if events != [] {
      PartsWithinTotal(events[..|events| - 1], start, end);
    }
  }
}
