/** What every run of the audit sink keeps: no event is lost unaccounted for, and the totals balance. */
module AuditConservation {
  import opened Options
  import opened Stamps
  import opened AuditBuckets
  import opened AuditCleanup
  import opened AuditProtocol

  // ---------------------------------------------------------------------- totals

  /** Counting rows into some totals adds what counting them into none gives. */
  lemma {:induction false} CountedRowsAdds(totals: map<string, nat>, rows: seq<Row>, a: string)
    ensures Total(CountedRows(totals, rows), a) == Total(totals, a) + Total(CountedRows(map[], rows), a)
  {
    if rows != [] {
      CountedRowsAdds(totals, rows[..|rows| - 1], a);
    }
  }

  lemma {:induction false} CountedRowsConcat(x: seq<Row>, y: seq<Row>, a: string)
    ensures Total(CountedRows(map[], x + y), a) == Total(CountedRows(map[], x), a) + Total(CountedRows(map[], y), a)
  {
    if y == [] {
      assert x + y == x;
    } else {
      var n := |y| - 1;
      assert (x + y)[..|x + y| - 1] == x + y[..n];
      CountedRowsConcat(x, y[..n], a);
    }
  }

  /** The totals count an event as they count its row. */
  lemma {:induction false} CountedLikeRows(totals: map<string, nat>, events: seq<Event>, nextId: nat)
    ensures Counted(totals, events) == CountedRows(totals, RowsOf(events, nextId))
  {
    if events != [] {
      var n := |events| - 1;
      CountedLikeRows(totals, events[..n], nextId);
      var rows := RowsOf(events, nextId);
      assert rows[..n] == RowsOf(events[..n], nextId);
    }
  }

  /** The places of the rows, and of the events, with an action. */
  ghost function RowsWith(rows: seq<Row>, a: string): set<int> {
    set i | 0 <= i < |rows| && rows[i].action == a
  }

  ghost function EventsWith(events: seq<Event>, a: string): set<int> {
    set i | 0 <= i < |events| && events[i].action == a
  }

  lemma {:induction false} CountedRowsIs(rows: seq<Row>, a: string)
    ensures Total(CountedRows(map[], rows), a) == |RowsWith(rows, a)|
  {
    if rows == [] {
      assert RowsWith(rows, a) == {};
    } else {
      var n := |rows| - 1;
      CountedRowsIs(rows[..n], a);
      assert RowsWith(rows, a) == RowsWith(rows[..n], a) + if rows[n].action == a then {n} else {};
    }
  }

  lemma {:induction false} CountedIs(totals: map<string, nat>, events: seq<Event>, a: string)
    ensures Total(Counted(totals, events), a) == Total(totals, a) + |EventsWith(events, a)|
  {
    if events == [] {
      assert EventsWith(events, a) == {};
    } else {
      var n := |events| - 1;
      CountedIs(totals, events[..n], a);
      assert EventsWith(events, a) == EventsWith(events[..n], a) + if events[n].action == a then {n} else {};
    }
  }

  lemma EventsWithConcat(x: seq<Event>, y: seq<Event>, a: string)
    ensures |EventsWith(x + y, a)| == |EventsWith(x, a)| + |EventsWith(y, a)|
  {
    CountedIs(map[], x, a);
    CountedIs(Counted(map[], x), y, a);
    CountedIs(map[], x + y, a);
    CountedConcat(map[], x, y);
  }

  lemma {:induction false} CountedConcat(totals: map<string, nat>, x: seq<Event>, y: seq<Event>)
    ensures Counted(totals, x + y) == Counted(Counted(totals, x), y)
  {
    if y == [] {
      assert x + y == x;
    } else {
      var n := |y| - 1;
      assert (x + y)[..|x + y| - 1] == x + y[..n];
      CountedConcat(totals, x, y[..n]);
    }
  }

  // -------------------------------------------------------------- what a step does

  /** The events end up in the tables as rows, each counted once, or leave no trace. */
  ghost predicate Writes(s: State, t: State, events: seq<Event>, ok: bool) {
    if ok then
      && |t.rows| == |s.rows| + |events| && t.rows[..|s.rows|] == s.rows && t.nextId == s.nextId + |events|
      && (forall i :: 0 <= i < |events| ==>
            t.rows[|s.rows| + i] == Row(s.nextId + i, Stored(events[i].time), events[i].client, events[i].action))
      && forall a: string :: Total(t.totals, a) == Total(s.totals, a) + |EventsWith(events, a)|
    else t.rows == s.rows && t.nextId == s.nextId && t.totals == s.totals
  }

  /** A flush takes the whole batch; what fails is not tried again. */
  lemma FlushMeans(s: State, ok: bool)
    ensures var t := Flushed(s, ok);
            && Writes(s, t, s.batch, ok) && t.batch == [] && t.channel == s.channel && t.dropped == s.dropped
            && t.flushes == (if s.batch == [] then s.flushes else s.flushes + [Flush(s.batch, ok)])
  {
    hide Counted, RowsOf, EventsWith, Total;
    if s.batch == [] {
      NoEvents();
      assert s.rows[..|s.rows|] == s.rows;
    } else if ok {
      forall a: string ensures Total(Counted(s.totals, s.batch), a) == Total(s.totals, a) + |EventsWith(s.batch, a)| {
        CountedIs(s.totals, s.batch, a);
      }
      assert (s.rows + RowsOf(s.batch, s.nextId))[..|s.rows|] == s.rows;
    }
  }

  lemma NoEvents()
    ensures forall a: string :: EventsWith([], a) == {}
  {
  }

  /** A call finds a place in the channel if there is one, and is dropped otherwise, or if the sink is closed. */
  lemma SendMeans(s: State, t: Thread)
    requires t in s.hands
    ensures var after := Do(s, Send(t));
            && after.hands == s.hands - {t}
            && if |s.channel| < s.capacity
               then after.channel == s.channel + [s.hands[t]] && after.dropped == s.dropped
               else after.channel == s.channel && after.dropped == s.dropped + 1
  {
  }

  /** A call on a closed sink is dropped, and counted as dropped. */
  lemma RecordMeans(s: State, t: Thread, e: Event)
    requires t !in s.hands
    ensures var after := Do(s, Record(t, e));
            && after.calls == s.calls + 1 && after.channel == s.channel
            && if s.closed then after.hands == s.hands && after.dropped == s.dropped + 1
               else after.hands == s.hands[t := e] && after.dropped == s.dropped
  {
  }

  /** The oldest event of the channel goes to the batch, which is flushed when it is full and not before. */
  lemma ReceiveMeans(s: State, ok: bool)
    requires s.channel != [] && !s.worker.Stopped?
    ensures var after := Do(s, Receive(ok));
            var batch := s.batch + [s.channel[0]];
            && after.channel == s.channel[1..] && after.dropped == s.dropped
            && if |batch| < s.batchSize
               then after.batch == batch && Writes(s, after, [], false) && after.flushes == s.flushes
               else after.batch == [] && Writes(s, after, batch, ok)
  {
    var taken := s.(batch := s.batch + [s.channel[0]], channel := s.channel[1..]);
    FlushMeans(taken, ok);
    hide Flushed, EventsWith, Total;
  }

  /** A rebuild counts the rows that are there. */
  lemma RebuildMeans(s: State, a: string)
    ensures var after := Do(s, Rebuild);
            after.rows == s.rows && Total(after.totals, a) == |RowsWith(s.rows, a)| && Total(after.cleaned, a) == 0
  {
    CountedRowsIs(s.rows, a);
    NoTotals();
  }

  // ------------------------------------------------------------------ the deletes

  ghost predicate Sub(part: seq<Row>, whole: seq<Row>, bound: nat) {
    Ascending(part, bound) && forall i :: 0 <= i < |part| ==> part[i] in whole
  }

  lemma AscendingFront(rows: seq<Row>, bound: nat)
    requires Ascending(rows, bound) && rows != []
    ensures Ascending(rows[..|rows| - 1], rows[|rows| - 1].id)
  {
  }

  /** How many rows have the action. */
  function Tally(rows: seq<Row>, a: string): nat {
    Total(CountedRows(map[], rows), a)
  }

  lemma TallyNext(front: seq<Row>, last: Row, a: string)
    ensures Tally(front + [last], a) == Tally(front, a) + Tally([last], a)
  {
    CountedRowsConcat(front, [last], a);
  }

  /** In a table in id order, the part that is left and the part that is gone make up the whole. */
  lemma {:induction false} GoneBalances(rows: seq<Row>, left: seq<Row>, bound: nat, a: string)
    requires Ascending(rows, bound) && Sub(left, rows, bound)
    ensures Tally(rows, a) == Tally(left, a) + Tally(Gone(rows, left), a)
  {
    if rows == [] {
      HasFirst(left);
    } else {
      hide Tally, Gone, Ascending, Sub;
      var front, last := rows[..|rows| - 1], rows[|rows| - 1];
      assert rows == front + [last];
      AscendingFront(rows, bound);
      TallyNext(front, last, a);
      GoneNext(front, last, left);
      if last in left {
        LastIsLast(rows, left, bound);
        var rest := left[..|left| - 1];
        assert left == rest + [last];
        GoneBalances(front, rest, last.id, a);
        NotInFront(front, last);
        GoneWithout(front, left, last);
        TallyNext(rest, last, a);
      } else {
        NotLast(rows, left, bound);
        GoneBalances(front, left, last.id, a);
        TallyNext(Gone(front, left), last, a);
      }
    }
  }

  lemma NotInFront(front: seq<Row>, last: Row)
    requires Ascending(front, last.id)
    ensures last !in front
  {
  }

  lemma GoneNext(front: seq<Row>, last: Row, left: seq<Row>)
    ensures Gone(front + [last], left) == if last in left then Gone(front, left) else Gone(front, left) + [last]
  {
    assert (front + [last])[..|front|] == front;
  }

  lemma HasFirst(rows: seq<Row>)
    ensures rows != [] ==> rows[0] in rows
  {
  }

  lemma NotLast(rows: seq<Row>, left: seq<Row>, bound: nat)
    requires rows != [] && Ascending(rows, bound) && Sub(left, rows, bound) && rows[|rows| - 1] !in left
    ensures Sub(left, rows[..|rows| - 1], rows[|rows| - 1].id)
  {
    var n := |rows| - 1;
    forall i | 0 <= i < |left| ensures left[i] in rows[..n] && left[i].id < rows[n].id {
      assert left[i] in rows;
      var k :| 0 <= k < |rows| && rows[k] == left[i];
      assert left[i] in left;
      assert rows[..n][k] == left[i];
    }
  }

  /** The last row, if it is left, is the last of what is left. */
  lemma LastIsLast(rows: seq<Row>, left: seq<Row>, bound: nat)
    requires rows != [] && Ascending(rows, bound) && Sub(left, rows, bound) && rows[|rows| - 1] in left
    ensures left != [] && left[|left| - 1] == rows[|rows| - 1]
    ensures Sub(left[..|left| - 1], rows[..|rows| - 1], rows[|rows| - 1].id)
  {
    var n, m := |rows| - 1, |left| - 1;
    var at :| 0 <= at < |left| && left[at] == rows[n];
    assert left[m] in rows;
    var k :| 0 <= k < |rows| && rows[k] == left[m];
    assert at == m;
    forall i | 0 <= i < m ensures left[i] in rows[..n] {
      assert left[i] in rows;
      var j :| 0 <= j < |rows| && rows[j] == left[i];
      assert rows[..n][j] == left[i];
    }
  }

  lemma {:induction false} GoneWithout(rows: seq<Row>, left: seq<Row>, last: Row)
    requires left != [] && left[|left| - 1] == last && last !in rows
    ensures Gone(rows, left) == Gone(rows, left[..|left| - 1])
  {
    if rows != [] {
      var r := rows[|rows| - 1];
      assert r in rows;
      assert left == left[..|left| - 1] + [last];
      GoneWithout(rows[..|rows| - 1], left, last);
    }
  }

  /** A delete leaves a part of the table in the same order. */
  lemma {:induction false} DeleteIsSub(rows: seq<Row>, cutoff: string, limit: nat, bound: nat)
    requires Ascending(rows, bound)
    ensures Sub(DeleteOldest(rows, cutoff, limit), rows, bound)
    decreases limit
  {
    var at := OldestAt(rows, cutoff);
    if limit > 0 && at.Some? {
      var rest := Removed(rows, at.value);
      assert Sub(rest, rows, bound);
      DeleteIsSub(rest, cutoff, limit - 1, bound);
    }
  }

  // ------------------------------------------------------------------ the flushes

  lemma RowsOfConcat(x: seq<Event>, y: seq<Event>, nextId: nat)
    ensures RowsOf(x + y, nextId) == RowsOf(x, nextId) + RowsOf(y, nextId + |x|)
  {
    hide RowOf;
  }

  lemma AppendAscending(rows: seq<Row>, nextId: nat, events: seq<Event>)
    requires Ascending(rows, nextId)
    ensures Ascending(rows + RowsOf(events, nextId), nextId + |events|)
  {
  }

  lemma FlushNext(flushes: seq<Flush>, f: Flush)
    ensures Handled(flushes + [f]) == Handled(flushes) + f.events
    ensures Written(flushes + [f]) == Written(flushes) + if f.ok then f.events else []
    ensures forall ok :: HandledCount(flushes + [f], ok) == HandledCount(flushes, ok) + if f.ok == ok then |f.events| else 0
  {
    assert (flushes + [f])[..|flushes|] == flushes;
  }

  lemma FlushedConserves(s: State, ok: bool)
    requires Conserved(s)
    ensures Conserved(Flushed(s, ok))
  {
    FlushNext(s.flushes, Flush(s.batch, ok));
    hide Handled, HandledCount, Written, Counted, RowsOf;
  }

  lemma FlushedBalances(s: State, ok: bool)
    requires Balanced(s)
    ensures Balanced(Flushed(s, ok))
  {
    var t := Flushed(s, ok);
    forall a: string ensures Total(t.totals, a) == Total(CountedRows(map[], t.rows), a) + Total(t.cleaned, a) {
      var rows := RowsOf(s.batch, s.nextId);
      CountedLikeRows(s.totals, s.batch, s.nextId);
      CountedRowsAdds(s.totals, rows, a);
      CountedRowsConcat(s.rows, rows, a);
    }
  }

  lemma FlushedInOrder(s: State, ok: bool, initial: seq<Row>, firstId: nat)
    requires InOrder(s, initial, firstId)
    ensures InOrder(Flushed(s, ok), initial, firstId)
  {
    hide RowsOf, Written, Counted, Ascending, HandledCount, Handled;
    FlushNext(s.flushes, Flush(s.batch, ok));
    if s.batch != [] && ok {
      var rows := RowsOf(s.batch, s.nextId);
      RowsOfConcat(Written(s.flushes), s.batch, firstId);
      AppendAscending(s.rows, s.nextId, s.batch);
      Reassociate(initial, RowsOf(Written(s.flushes), firstId), rows);
      StillIn(s.rows, s.inserted, rows);
    } else {
      assert Written(s.flushes) + [] == Written(s.flushes);
    }
  }

  lemma Reassociate(x: seq<Row>, y: seq<Row>, z: seq<Row>)
    ensures x + (y + z) == x + y + z
  {
  }

  lemma StillIn(part: seq<Row>, whole: seq<Row>, more: seq<Row>)
    requires forall i :: 0 <= i < |part| ==> part[i] in whole
    ensures forall i :: 0 <= i < |part + more| ==> (part + more)[i] in whole + more
  {
  }

  // ------------------------------------------------------------------ the deletes

  lemma DeletedBalances(s: State, cutoff: string)
    requires Balanced(s) && Ascending(s.rows, s.nextId)
    ensures Balanced(Deleted(s, cutoff))
  {
    var left := DeleteOldest(s.rows, cutoff, BATCH);
    DeleteIsSub(s.rows, cutoff, BATCH, s.nextId);
    forall a: string
      ensures Total(s.totals, a) == Total(CountedRows(map[], left), a) + Total(CountedRows(s.cleaned, Gone(s.rows, left)), a)
    {
      GoneBalances(s.rows, left, s.nextId, a);
      hide CountedRows, Total, Gone;
      CountedRowsAdds(s.cleaned, Gone(s.rows, left), a);
    }
  }

  lemma DeletedInOrder(s: State, cutoff: string, initial: seq<Row>, firstId: nat)
    requires InOrder(s, initial, firstId)
    ensures InOrder(Deleted(s, cutoff), initial, firstId)
  {
    DeleteIsSub(s.rows, cutoff, BATCH, s.nextId);
    hide DeleteOldest, RowsOf, Written, CountedRows, Gone;
  }

  // -------------------------------------------------------------------- any step

  ghost predicate Inv(s: State, initial: seq<Row>, firstId: nat) {
    Conserved(s) && Bounded(s) && Balanced(s) && InOrder(s, initial, firstId)
  }

  lemma InitInv(s: State)
    requires Init(s)
    ensures Inv(s, s.rows, s.nextId)
  {
    assert s.rows + [] == s.rows;
  }

  lemma HandsTake(hands: map<Thread, Event>, t: Thread)
    requires t in hands
    ensures |hands - {t}| == |hands| - 1
  {
    assert (hands - {t}).Keys == hands.Keys - {t};
    assert |hands.Keys| == |hands|;
    assert |(hands - {t}).Keys| == |hands - {t}|;
  }

  lemma HandsGive(hands: map<Thread, Event>, t: Thread, e: Event)
    requires t !in hands
    ensures |hands[t := e]| == |hands| + 1
  {
    assert hands[t := e].Keys == hands.Keys + {t};
    assert |hands[t := e].Keys| == |hands[t := e]| && |hands.Keys| == |hands|;
  }

  lemma StepConserves(s: State, a: Action)
    requires Conserved(s) && Enabled(s, a)
    ensures Conserved(Do(s, a))
  {
    hide Handled, HandledCount, Counted, RowsOf, Flushed, CountedRows, Gone, DeleteOldest, Received, Sent;
    match a
    case Record(t, e) => if !s.closed { HandsGive(s.hands, t, e); }
    case Send(t) => SentConserves(s, t);
    case Receive(ok) => ReceivedConserves(s, ok);
    case Tick(ok) => FlushedConserves(s, ok);
    case Sweep(ok, _) => FlushedConserves(s, ok);
    case FinishDrain(ok) => FlushedConserves(s, ok);
    case _ =>
  }

  lemma SentConserves(s: State, t: Thread)
    requires Conserved(s) && t in s.hands
    ensures Conserved(Sent(s, t))
  {
    hide Handled, HandledCount;
    HandsTake(s.hands, t);
  }

  lemma ReceivedConserves(s: State, ok: bool)
    requires Conserved(s) && s.channel != []
    ensures Conserved(Received(s, ok))
  {
    hide Handled, HandledCount, Flushed;
    var taken := s.(batch := s.batch + [s.channel[0]], channel := s.channel[1..]);
    assert s.channel == [s.channel[0]] + s.channel[1..];
    assert s.batch + s.channel == taken.batch + taken.channel;
    assert s.accepted == Handled(s.flushes) + (s.batch + s.channel);
    FlushedConserves(taken, ok);
  }

  lemma StepBounds(s: State, a: Action)
    requires Bounded(s) && Enabled(s, a)
    ensures Bounded(Do(s, a))
  {
    hide Counted, RowsOf, CountedRows, Gone, DeleteOldest, Flushed;
    match a
    case Receive(ok) => FlushedBounds(s.(batch := s.batch + [s.channel[0]], channel := s.channel[1..]), ok);
    case Tick(ok) => FlushedBounds(s, ok);
    case Sweep(ok, _) => FlushedBounds(s, ok);
    case FinishDrain(ok) => FlushedBounds(s, ok);
    case _ =>
  }

  lemma FlushedBounds(s: State, ok: bool)
    requires s.batchSize > 0 && |s.batch| <= s.batchSize && forall f :: f in s.flushes ==> 0 < |f.events| <= s.batchSize
    ensures var t := Flushed(s, ok);
            && t.batch == [] && t.channel == s.channel && t.capacity == s.capacity && t.batchSize == s.batchSize
            && t.worker == s.worker && forall f :: f in t.flushes ==> 0 < |f.events| <= t.batchSize
  {
    hide Counted, RowsOf;
  }

  lemma StepBalances(s: State, a: Action)
    requires Balanced(s) && Ascending(s.rows, s.nextId) && Ascending(Flushed(s, true).rows, Flushed(s, true).nextId) && Enabled(s, a)
    ensures Balanced(Do(s, a))
  {
    hide Ascending, CountedRows, Total, Flushed, Deleted;
    match a
    case Receive(ok) => FlushedBalances(s.(batch := s.batch + [s.channel[0]], channel := s.channel[1..]), ok);
    case Tick(ok) => FlushedBalances(s, ok);
    case Sweep(ok, expiry) =>
      FlushedBalances(s, ok);
      FlushedRows(s, ok);
      if expiry.Some? { DeletedBalances(Flushed(s, ok), expiry.value); }
    case FinishDrain(ok) => FlushedBalances(s, ok);
    case Delete(cutoff) => DeletedBalances(s, cutoff);
    case Rebuild => NoTotals();
    case _ =>
  }

  lemma NoTotals()
    ensures forall a: string :: Total(map[], a) == 0
  {
  }

  lemma FlushedRows(s: State, ok: bool)
    ensures exists t :: t in {s, Flushed(s, true)} && Flushed(s, ok).rows == t.rows && Flushed(s, ok).nextId == t.nextId
  {
  }

  lemma StepInOrder(s: State, a: Action, initial: seq<Row>, firstId: nat)
    requires InOrder(s, initial, firstId) && Enabled(s, a)
    ensures InOrder(Do(s, a), initial, firstId)
  {
    hide Ascending, CountedRows, Flushed, Deleted, RowsOf, Written;
    match a
    case Receive(ok) => FlushedInOrder(s.(batch := s.batch + [s.channel[0]], channel := s.channel[1..]), ok, initial, firstId);
    case Tick(ok) => FlushedInOrder(s, ok, initial, firstId);
    case Sweep(ok, expiry) =>
      FlushedInOrder(s, ok, initial, firstId);
      if expiry.Some? { DeletedInOrder(Flushed(s, ok), expiry.value, initial, firstId); }
    case FinishDrain(ok) => FlushedInOrder(s, ok, initial, firstId);
    case Delete(cutoff) => DeletedInOrder(s, cutoff, initial, firstId);
    case _ =>
  }

  lemma StepKeepsInv(s: State, a: Action, initial: seq<Row>, firstId: nat)
    requires Inv(s, initial, firstId) && Enabled(s, a)
    ensures Inv(Do(s, a), initial, firstId)
  {
    FlushedInOrder(s, true, initial, firstId);
    hide Conserved, Bounded, Balanced, Do, Enabled, Ascending, Flushed;
    StepConserves(s, a);
    StepBounds(s, a);
    StepBalances(s, a);
    StepInOrder(s, a, initial, firstId);
  }

  lemma {:induction false} RunKeepsInv(s: State, run: seq<Action>, initial: seq<Row>, firstId: nat)
    requires Inv(s, initial, firstId) && IsRun(s, run)
    ensures Inv(Final(s, run), initial, firstId)
    decreases |run|
  {
    hide Inv;
    if run != [] {
      StepKeepsInv(s, run[0], initial, firstId);
      RunKeepsInv(Do(s, run[0]), run[1..], initial, firstId);
    }
  }

  lemma StepTotals(s: State, act: Action, a: string)
    requires Enabled(s, act) && !act.Rebuild?
    ensures Total(Do(s, act).totals, a) + |EventsWith(Written(s.flushes), a)|
            == Total(s.totals, a) + |EventsWith(Written(Do(s, act).flushes), a)|
  {
    hide Written, EventsWith, CountedRows, Gone, DeleteOldest, Total, Flushed;
    match act
    case Receive(ok) => FlushTotals(s.(batch := s.batch + [s.channel[0]], channel := s.channel[1..]), ok, a);
    case Tick(ok) => FlushTotals(s, ok, a);
    case Sweep(ok, _) => FlushTotals(s, ok, a);
    case FinishDrain(ok) => FlushTotals(s, ok, a);
    case _ =>
  }

  lemma FlushTotals(s: State, ok: bool, a: string)
    ensures Total(Flushed(s, ok).totals, a) + |EventsWith(Written(s.flushes), a)|
            == Total(s.totals, a) + |EventsWith(Written(Flushed(s, ok).flushes), a)|
  {
    CountedIs(s.totals, s.batch, a);
    FlushNext(s.flushes, Flush(s.batch, ok));
    EventsWithConcat(Written(s.flushes), s.batch, a);
    assert Written(s.flushes) + [] == Written(s.flushes);
    hide Written, Counted, EventsWith, RowsOf, Total;
  }

  /**
   * Without a rebuild the total of an action grows by the events of the batches
   * that went through, whatever is deleted in the meantime.
   */
  lemma {:induction false} TotalsGrow(s: State, run: seq<Action>, a: string)
    requires IsRun(s, run) && forall i :: 0 <= i < |run| ==> !run[i].Rebuild?
    ensures Total(Final(s, run).totals, a) + |EventsWith(Written(s.flushes), a)|
            == Total(s.totals, a) + |EventsWith(Written(Final(s, run).flushes), a)|
    decreases |run|
  {
    if run != [] {
      hide Do, Enabled, EventsWith, Written, Total;
      StepTotals(s, run[0], a);
      TotalsGrow(Do(s, run[0]), run[1..], a);
    }
  }

  /**
   * Over every run: each call to record is dropped, on its way, in the channel, in
   * the batch, inserted or in a failed batch; batches follow the order of
   * acceptance; and for each action the stored total is the number of rows present
   * and of rows cleaned.
   */
  lemma AuditConservation(s: State, run: seq<Action>)
    requires Init(s) && IsRun(s, run)
    ensures var t := Final(s, run);
            Conserved(t) && Bounded(t) && InOrder(t, s.rows, s.nextId)
    ensures var t := Final(s, run);
            forall a: string :: Total(t.totals, a) == |RowsWith(t.rows, a)| + Total(t.cleaned, a)
  {
    InitInv(s);
    RunKeepsInv(s, run, s.rows, s.nextId);
    var t := Final(s, run);
    forall a: string ensures Total(t.totals, a) == |RowsWith(t.rows, a)| + Total(t.cleaned, a) {
      CountedRowsIs(t.rows, a);
    }
  }
}
