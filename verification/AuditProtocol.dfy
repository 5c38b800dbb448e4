/**
 * The audit sink as a step machine: callers that record, one worker that
 * batches, flushes and cleans up, and others that delete old rows or rebuild the
 * totals at any moment.
 */
module AuditProtocol {
  import opened Options
  import opened Stamps
  import opened AuditBuckets
  import opened AuditCleanup

  type Thread = nat

  datatype Worker = Running | Draining | Stopped

  /** A batch handed to the database, and whether its transaction went through. */
  datatype Flush = Flush(events: seq<Event>, ok: bool)

  datatype State = State(
    capacity: nat,
    batchSize: nat,
    closed: bool,
    hands: map<Thread, Event>,       // past the check of the closed flag, not yet sent
    channel: seq<Event>,
    batch: seq<Event>,
    worker: Worker,
    dropped: nat,
    rows: seq<Row>,
    nextId: nat,
    totals: map<string, nat>,
    // what happened so far
    calls: nat,
    accepted: seq<Event>,
    flushes: seq<Flush>,
    inserted: seq<Row>,
    cleaned: map<string, nat>)       // rows cleaned since the last rebuild, by action

  datatype Action =
    | Record(thread: Thread, event: Event)
    | Send(thread: Thread)
    | Receive(ok: bool)
    | Tick(ok: bool)
    | Sweep(ok: bool, expiry: Option<string>)   // flush, then one delete statement unless it fails or retention is off
    | Close
    | Drain
    | FinishDrain(ok: bool)
    | Delete(cutoff: string)                    // one delete statement of a cleanup elsewhere
    | Rebuild

  // ---------------------------------------------------------------------- totals

  function Total(totals: map<string, nat>, action: string): nat {
    if action in totals then totals[action] else 0
  }

  function Bump(totals: map<string, nat>, action: string, more: nat): map<string, nat> {
    totals[action := Total(totals, action) + more]
  }

  /** The totals with one more for every event. */
  function Counted(totals: map<string, nat>, events: seq<Event>): map<string, nat> {
    if events == [] then totals else Bump(Counted(totals, events[..|events| - 1]), events[|events| - 1].action, 1)
  }

  function CountedRows(totals: map<string, nat>, rows: seq<Row>): map<string, nat> {
    if rows == [] then totals else Bump(CountedRows(totals, rows[..|rows| - 1]), rows[|rows| - 1].action, 1)
  }

  function RowOf(e: Event, id: nat): Row {
    Row(id, Stored(e.time), e.client, e.action)
  }

  function RowsOf(events: seq<Event>, nextId: nat): (r: seq<Row>)
    ensures |r| == |events| && forall i :: 0 <= i < |r| ==> r[i] == RowOf(events[i], nextId + i)
    ensures forall i :: 0 <= i < |r| ==> r[i] == Row(nextId + i, Stored(events[i].time), events[i].client, events[i].action)
  {
    seq(|events|, i requires 0 <= i < |events| => RowOf(events[i], nextId + i))
  }

  /** The rows of the first table that the second no longer has. */
  function Gone(rows: seq<Row>, left: seq<Row>): seq<Row> {
    if rows == [] then []
    else Gone(rows[..|rows| - 1], left) + if rows[|rows| - 1] in left then [] else [rows[|rows| - 1]]
  }

  // ----------------------------------------------------------------------- steps

  /** Hand the batch to the database; a failed transaction leaves no trace, and the batch is empty either way. */
  function Flushed(s: State, ok: bool): State {
    if s.batch == [] then s
    else
      var tried := s.(batch := [], flushes := s.flushes + [Flush(s.batch, ok)]);
      if !ok then tried
      else
        tried.(rows := s.rows + RowsOf(s.batch, s.nextId), nextId := s.nextId + |s.batch|,
               inserted := s.inserted + RowsOf(s.batch, s.nextId), totals := Counted(s.totals, s.batch))
  }

  function Received(s: State, ok: bool): State
    requires s.channel != []
  {
    var taken := s.(batch := s.batch + [s.channel[0]], channel := s.channel[1..]);
    if |taken.batch| >= s.batchSize then Flushed(taken, ok) else taken
  }

  function Deleted(s: State, cutoff: string): State {
    var left := DeleteOldest(s.rows, cutoff, BATCH);
    s.(rows := left, cleaned := CountedRows(s.cleaned, Gone(s.rows, left)))
  }

  function Sent(s: State, t: Thread): State
    requires t in s.hands
  {
    var free := s.(hands := s.hands - {t});
    if |s.channel| < s.capacity
    then free.(channel := s.channel + [s.hands[t]], accepted := s.accepted + [s.hands[t]])
    else free.(dropped := s.dropped + 1)
  }

  predicate Enabled(s: State, a: Action) {
    match a
    case Record(t, _) => t !in s.hands
    case Send(t) => t in s.hands
    case Receive(_) => !s.worker.Stopped? && s.channel != []
    case Tick(_) => s.worker.Running?
    case Sweep(_, _) => s.worker.Running?
    case Close => true
    case Drain => s.worker.Running? && s.closed
    case FinishDrain(_) => s.worker.Draining? && s.channel == []
    case Delete(_) => true
    case Rebuild => true
  }

  function Do(s: State, a: Action): State
    requires Enabled(s, a)
  {
    match a
    case Record(t, e) =>
      if s.closed then s.(calls := s.calls + 1, dropped := s.dropped + 1)
      else s.(calls := s.calls + 1, hands := s.hands[t := e])
    case Send(t) => Sent(s, t)
    case Receive(ok) => Received(s, ok)
    case Tick(ok) => Flushed(s, ok)
    case Sweep(ok, expiry) => if expiry.Some? then Deleted(Flushed(s, ok), expiry.value) else Flushed(s, ok)
    case Close => s.(closed := true)
    case Drain => s.(worker := Draining)
    case FinishDrain(ok) => Flushed(s, ok).(worker := Stopped)
    case Delete(cutoff) => Deleted(s, cutoff)
    case Rebuild => s.(totals := CountedRows(map[], s.rows), cleaned := map[])
  }

  /** A new sink over a table whose totals may already hold cleaned rows. */
  ghost predicate Init(s: State) {
    && s.capacity > 0 && s.batchSize > 0
    && !s.closed && s.hands == map[] && s.channel == [] && s.batch == [] && s.worker.Running?
    && s.dropped == 0 && s.calls == 0 && s.accepted == [] && s.flushes == []
    && s.inserted == s.rows && Ascending(s.rows, s.nextId)
    && forall a: string :: Total(s.totals, a) == Total(CountedRows(map[], s.rows), a) + Total(s.cleaned, a)
  }

  ghost predicate IsRun(s: State, run: seq<Action>)
    decreases |run|
  {
    run == [] || (Enabled(s, run[0]) && IsRun(Do(s, run[0]), run[1..]))
  }

  ghost function Final(s: State, run: seq<Action>): State
    requires IsRun(s, run)
    decreases |run|
  {
    if run == [] then s else Final(Do(s, run[0]), run[1..])
  }

  predicate Ascending(rows: seq<Row>, bound: nat) {
    && (forall i, j :: 0 <= i < j < |rows| ==> rows[i].id < rows[j].id)
    && (forall i :: 0 <= i < |rows| ==> rows[i].id < bound)
  }

  // ------------------------------------------------------------------ conservation

  function Handled(flushes: seq<Flush>): seq<Event> {
    if flushes == [] then [] else Handled(flushes[..|flushes| - 1]) + flushes[|flushes| - 1].events
  }

  /** The events of the batches that were inserted, and of those that failed. */
  function HandledCount(flushes: seq<Flush>, ok: bool): nat {
    if flushes == [] then 0
    else
      var last := flushes[|flushes| - 1];
      HandledCount(flushes[..|flushes| - 1], ok) + if last.ok == ok then |last.events| else 0
  }

  /** The events of the batches that went through, in order. */
  function Written(flushes: seq<Flush>): seq<Event> {
    if flushes == [] then []
    else Written(flushes[..|flushes| - 1]) + if flushes[|flushes| - 1].ok then flushes[|flushes| - 1].events else []
  }

  ghost predicate Conserved(s: State) {
    && s.calls == s.dropped + |s.hands| + |s.channel| + |s.batch| + HandledCount(s.flushes, true) + HandledCount(s.flushes, false)
    && s.accepted == Handled(s.flushes) + s.batch + s.channel
  }

  ghost predicate Bounded(s: State) {
    && s.capacity > 0 && s.batchSize > 0
    && |s.channel| <= s.capacity && |s.batch| < s.batchSize
    && (s.worker.Stopped? ==> s.batch == [])
    && forall f :: f in s.flushes ==> 0 < |f.events| <= s.batchSize
  }

  /** For each action the stored total is the rows present and the rows cleaned. */
  ghost predicate Balanced(s: State) {
    forall a: string :: Total(s.totals, a) == Total(CountedRows(map[], s.rows), a) + Total(s.cleaned, a)
  }

  /**
   * The table holds, in the order of acceptance, rows of what was there at first
   * and of the events of the batches that went through.
   */
  ghost predicate InOrder(s: State, initial: seq<Row>, firstId: nat) {
    && Ascending(s.rows, s.nextId)
    && s.nextId == firstId + |Written(s.flushes)|
    && s.inserted == initial + RowsOf(Written(s.flushes), firstId)
    && forall i :: 0 <= i < |s.rows| ==> s.rows[i] in s.inserted
  }
}
