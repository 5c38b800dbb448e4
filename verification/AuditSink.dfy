/** The fields of the audit sink, its callers and its worker, each atomic step taking the step of the machine. */
module AuditSink {
  import opened Options
  import opened AuditBuckets
  import opened AuditCleanup
  import opened AuditProtocol
  import opened AuditConservation

  /** The tables that a transaction of the sink writes. */
  datatype Tables = Tables(rows: seq<Row>, nextId: nat, totals: map<string, nat>)

  /** The insert loop, with each event given the next id. */
  method InsertRows(tables: Tables, events: seq<Event>) returns (t: Tables)
    ensures t == tables.(rows := tables.rows + RowsOf(events, tables.nextId), nextId := tables.nextId + |events|)
  {
    hide RowsOf, RowOf;
    var rows, nextId := tables.rows, tables.nextId;
    assert tables.rows + RowsOf([], nextId) == tables.rows;
    for i := 0 to |events|
      invariant rows == tables.rows + RowsOf(events[..i], tables.nextId) && nextId == tables.nextId + i
    {
      RowsOfNext(events[..i], events[i], tables.nextId);
      assert events[..i + 1] == events[..i] + [events[i]];
      rows, nextId := rows + [RowOf(events[i], nextId)], nextId + 1;
    }
    assert events[..|events|] == events;
    t := Tables(rows, nextId, tables.totals);
  }

  lemma RowsOfNext(events: seq<Event>, e: Event, nextId: nat)
    ensures RowsOf(events + [e], nextId) == RowsOf(events, nextId) + [RowOf(e, nextId + |events|)]
  {
    hide RowOf;
  }

  lemma {:induction false} CountedTotal(totals: map<string, nat>, events: seq<Event>, a: string)
    ensures Total(Counted(totals, events), a) == Total(totals, a) + Total(Counted(map[], events), a)
    ensures a in Counted(totals, events) <==> a in totals || a in Counted(map[], events)
  {
    if events != [] {
      CountedTotal(totals, events[..|events| - 1], a);
    }
  }

  /**
   * One upsert for each action of the batch, in any order: together they count
   * every event of the batch once.
   */
  method IncrementActionTotals(totals: map<string, nat>, events: seq<Event>) returns (r: map<string, nat>)
    ensures r == Counted(totals, events)
  {
    if |events| == 0 { return totals; }
    var counts: map<string, nat> := map[];
    for i := 0 to |events|
      invariant counts == Counted(map[], events[..i])
    {
      assert events[..i + 1][..i] == events[..i];
      counts := Bump(counts, events[i].action, 1);
    }
    assert events[..|events|] == events;
    r := totals;
    var todo := counts.Keys;
    while todo != {}
      invariant todo <= counts.Keys
      invariant forall a: string :: Total(r, a) == Total(totals, a) + if a in counts && a !in todo then counts[a] else 0
      invariant forall a: string :: a in r <==> a in totals || (a in counts && a !in todo)
      decreases |todo|
    {
      var action :| action in todo;
      r := Bump(r, action, counts[action]);
      todo := todo - {action};
    }
    SameTotals(r, totals, events, counts);
  }

  lemma SameTotals(r: map<string, nat>, totals: map<string, nat>, events: seq<Event>, counts: map<string, nat>)
    requires counts == Counted(map[], events)
    requires forall a: string :: Total(r, a) == Total(totals, a) + if a in counts then counts[a] else 0
    requires forall a: string :: a in r <==> a in totals || a in counts
    ensures r == Counted(totals, events)
  {
    var c := Counted(totals, events);
    forall a: string ensures (a in r <==> a in c) && Total(r, a) == Total(c, a) {
      CountedTotal(totals, events, a);
    }
    assert forall a :: a in r ==> r[a] == Total(r, a);
    assert forall a :: a in c ==> c[a] == Total(c, a);
  }

  class Sink {
    const capacity: nat
    const batchSize: nat
    var closed: bool
    var channel: seq<Event>
    var batch: seq<Event>
    var dropped: nat
    var stopped: bool
    var tables: Tables

    ghost var hands: map<Thread, Event>
    ghost var draining: bool
    ghost var calls: nat
    ghost var accepted: seq<Event>
    ghost var flushes: seq<Flush>
    ghost var inserted: seq<Row>
    ghost var cleaned: map<string, nat>

    ghost function View(): State
      reads this
    {
      State(capacity, batchSize, closed, hands, channel, batch, if stopped then Stopped else if draining then Draining else Running,
            dropped, tables.rows, tables.nextId, tables.totals, calls, accepted, flushes, inserted, cleaned)
    }

    constructor (capacity: nat, batchSize: nat, tables: Tables, ghost cleaned: map<string, nat>)
      requires capacity > 0 && batchSize > 0 && Ascending(tables.rows, tables.nextId)
      requires forall a: string :: Total(tables.totals, a) == Total(CountedRows(map[], tables.rows), a) + Total(cleaned, a)
      ensures Init(View()) && Inv(View(), tables.rows, tables.nextId)
    {
      this.capacity := capacity;
      this.batchSize := batchSize;
      this.tables := tables;
      closed, channel, batch, dropped, stopped := false, [], [], 0, false;
      hands, draining, calls, accepted, flushes := map[], false, 0, [], [];
      inserted := tables.rows;
      this.cleaned := cleaned;
      new;
      InitInv(View());
    }

    /** The first half of a call: closed sinks drop, others have the event in hand. */
    method Record(ghost thread: Thread, event: Event) returns (sending: bool)
      requires thread !in hands
      modifies this
      ensures View() == Do(old(View()), AuditProtocol.Record(thread, event)) && sending == !old(closed)
    {
      calls := calls + 1;
      if closed {
        dropped := dropped + 1;
        return false;
      }
      hands := hands[thread := event];
      sending := true;
    }

    /** The second half: never blocks, and drops when the channel is full. */
    method Send(ghost thread: Thread, event: Event)
      requires thread in hands && hands[thread] == event
      modifies this
      ensures View() == Do(old(View()), AuditProtocol.Send(thread))
    {
      hands := hands - {thread};
      if |channel| < capacity {
        channel := channel + [event];
        accepted := accepted + [event];
      } else {
        dropped := dropped + 1;
      }
    }

    /** One transaction for rows and totals; the batch is given up even if it fails. */
    method FlushBatch(works: bool)
      modifies this`batch, this`tables, this`flushes, this`inserted
      ensures View() == Flushed(old(View()), works)
    {
      hide Counted, RowsOf;
      if |batch| == 0 { return; }
      if works {
        var written := InsertRows(tables, batch);
        var totals := IncrementActionTotals(tables.totals, batch);
        inserted := inserted + RowsOf(batch, tables.nextId);
        tables := written.(totals := totals);
      }
      flushes := flushes + [Flush(batch, works)];
      batch := [];
    }

    method Receive(works: bool)
      requires !stopped && channel != []
      modifies this
      ensures View() == Do(old(View()), AuditProtocol.Receive(works))
    {
      var event := channel[0];
      channel := channel[1..];
      batch := batch + [event];
      if |batch| >= batchSize {
        FlushBatch(works);
      }
    }

    /** One delete statement; the totals stay as they are. */
    method DeleteExpired(cutoff: string) returns (count: nat)
      modifies this`tables, this`cleaned
      ensures View() == Deleted(old(View()), cutoff) && count == |old(tables.rows)| - |tables.rows|
      ensures count <= 5000 && tables.totals == old(tables.totals) && tables.nextId == old(tables.nextId)
      ensures count < 5000 ==> ExpiredGone(tables.rows, old(tables.rows), cutoff)
    {
      hide ExpiredGone, DeleteOldest, CountedRows, Gone;
      DeleteMeans(tables.rows, cutoff, BATCH);
      UnexpiredGone(tables.rows, cutoff);
      var left := DeleteOldest(tables.rows, cutoff, BATCH);
      count := |tables.rows| - |left|;
      cleaned := CountedRows(cleaned, Gone(tables.rows, left));
      tables := tables.(rows := left);
    }

    method Sweep(works: bool, expiry: Option<string>)
      requires !stopped && !draining
      modifies this
      ensures View() == Do(old(View()), AuditProtocol.Sweep(works, expiry))
    {
      hide Flushed, Deleted, ExpiredGone;
      FlushBatch(works);
      if expiry.Some? {
        var count := DeleteExpired(expiry.value);
      }
    }

    /** The totals counted afresh from the rows that are there. */
    method RebuildTotals()
      modifies this`tables, this`cleaned
      ensures View() == Do(old(View()), Rebuild)
    {
      var totals: map<string, nat> := map[];
      for i := 0 to |tables.rows|
        invariant totals == CountedRows(map[], tables.rows[..i])
        invariant unchanged(this)
      {
        assert tables.rows[..i + 1][..i] == tables.rows[..i];
        totals := Bump(totals, tables.rows[i].action, 1);
      }
      assert tables.rows[..|tables.rows|] == tables.rows;
      tables := tables.(totals := totals);
      cleaned := map[];
    }

    /**
     * The last phase of the worker: it empties the channel, flushing full batches,
     * and then flushes what is left. Nothing that was in the channel stays there.
     */
    method Drain(works: seq<bool>)
      requires !stopped && closed && |works| > |channel|
      modifies this
      ensures stopped && channel == [] && batch == []
      ensures Handled(flushes) == old(Handled(flushes) + batch + channel)
      ensures dropped == old(dropped) && accepted == old(accepted) && calls == old(calls) && hands == old(hands)
    {
      hide Flushed, Received, Handled;
      draining := true;
      var k := 0;
      while |channel| > 0
        invariant !stopped && draining && k + |channel| < |works|
        invariant InOrderOfAcceptance(View()) == InOrderOfAcceptance(old(View()))
        invariant dropped == old(dropped) && accepted == old(accepted) && calls == old(calls) && hands == old(hands)
        decreases |channel|
      {
        ReceivedKeeps(View(), works[k]);
        Receive(works[k]);
        k := k + 1;
      }
      FlushedKeeps(View(), works[k]);
      FlushBatch(works[k]);
      stopped := true;
    }
  }

  /** The accepted events as they have come through so far. */
  ghost function InOrderOfAcceptance(s: State): seq<Event> {
    Handled(s.flushes) + s.batch + s.channel
  }

  lemma FlushedKeeps(s: State, ok: bool)
    ensures var t := Flushed(s, ok);
            && InOrderOfAcceptance(t) == InOrderOfAcceptance(s) && t.batch == [] && t.channel == s.channel
            && t.dropped == s.dropped && t.accepted == s.accepted && t.calls == s.calls && t.hands == s.hands && t.worker == s.worker
  {
    hide Handled;
    FlushNext(s.flushes, Flush(s.batch, ok));
  }

  lemma ReceivedKeeps(s: State, ok: bool)
    requires s.channel != []
    ensures var t := Received(s, ok);
            && InOrderOfAcceptance(t) == InOrderOfAcceptance(s) && t.channel == s.channel[1..]
            && t.dropped == s.dropped && t.accepted == s.accepted && t.calls == s.calls && t.hands == s.hands && t.worker == s.worker
  {
    hide Handled, Flushed;
    var taken := s.(batch := s.batch + [s.channel[0]], channel := s.channel[1..]);
    assert s.batch + s.channel == taken.batch + taken.channel;
    assert InOrderOfAcceptance(s) == Handled(s.flushes) + (s.batch + s.channel);
    assert InOrderOfAcceptance(taken) == Handled(taken.flushes) + (taken.batch + taken.channel);
    FlushedKeeps(taken, ok);
  }
}
