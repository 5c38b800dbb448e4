/**
 * The single-flight summary cache as a step machine over its locked sections:
 * any number of callers of `get`, at most one of them loading, and `invalidate`
 * at any moment. The log records what happened, in order.
 */
module SummaryCacheProtocol {
  import opened Options

  const TTL: nat := 15

  type Thread = nat
  type Flight = nat

  /** The fields guarded by the mutex. Times are seconds, 0 is the zero time, no value the zero summary. */
  datatype Cache<V> = Cache(value: Option<V>, expires: nat, flight: Option<Flight>, generation: nat)

  datatype Pc<V> =
    | Outside
    | Checking                                   // at the top of the retry loop
    | Waiting(flight: Flight)
    | Loading(flight: Flight, generation: nat)
    | Loaded(flight: Flight, generation: nat, outcome: Option<V>)  // load returned, lock not yet taken

  datatype Event<V> =
    | LoadBegan(flight: Flight)
    | LoadEnded(flight: Flight, outcome: Option<V>)
    | Stored(flight: Flight, value: V, time: nat)
    | Closed(flight: Flight)
    | Invalidated
    | Served(thread: Thread, answer: Option<V>, time: nat)

  datatype State<V> = State(
    cache: Cache<V>,
    threads: map<Thread, Pc<V>>,
    nextFlight: Flight,
    now: nat,
    log: seq<Event<V>>)

  datatype Action<V> =
    | Enter(thread: Thread)
    | GiveUp(thread: Thread)                     // the caller's context is done
    | Look(thread: Thread)
    | Wake(thread: Thread)
    | LoadReturns(thread: Thread, outcome: Option<V>)
    | Finish(thread: Thread)
    | Invalidate
    | Tick(seconds: nat)

  // ------------------------------------------------- the locked sections

  datatype Found<V> = Hit(value: Option<V>) | Join(flight: Flight) | Lead

  /** The first locked section of `get`. */
  function LookUp<V>(c: Cache<V>, now: nat): Found<V> {
    if now < c.expires then Hit(c.value)
    else if c.flight.Some? then Join(c.flight.value)
    else Lead
  }

  /** The second locked section of `get`, after the load. */
  function Complete<V>(c: Cache<V>, generation: nat, outcome: Option<V>, now: nat): Cache<V> {
    var kept := if outcome.Some? && generation == c.generation then c.(value := outcome, expires := now + TTL) else c;
    kept.(flight := None)
  }

  /** The locked section of `invalidate`. */
  function Cleared<V>(c: Cache<V>): Cache<V> {
    c.(generation := c.generation + 1, expires := 0, value := None)
  }

  // --------------------------------------------------------- transitions

  function PcOf<V>(s: State<V>, t: Thread): Pc<V> {
    if t in s.threads then s.threads[t] else Outside
  }

  predicate Enabled<V(==)>(s: State<V>, a: Action<V>) {
    match a
    case Enter(t) => PcOf(s, t).Outside?
    case GiveUp(t) => PcOf(s, t).Checking? || PcOf(s, t).Waiting?
    case Look(t) => PcOf(s, t).Checking?
    case Wake(t) => PcOf(s, t).Waiting? && Closed(PcOf(s, t).flight) in s.log
    case LoadReturns(t, _) => PcOf(s, t).Loading?
    case Finish(t) => PcOf(s, t).Loaded?
    case Invalidate => true
    case Tick(_) => true
  }

  function Looked<V>(s: State<V>, t: Thread): State<V> {
    match LookUp(s.cache, s.now)
    case Hit(value) => s.(threads := s.threads[t := Outside], log := s.log + [Served(t, value, s.now)])
    case Join(flight) => s.(threads := s.threads[t := Waiting(flight)])
    case Lead =>
      s.(cache := s.cache.(flight := Some(s.nextFlight)),
         threads := s.threads[t := Loading(s.nextFlight, s.cache.generation)],
         nextFlight := s.nextFlight + 1,
         log := s.log + [LoadBegan(s.nextFlight)])
  }

  function Finished<V>(s: State<V>, t: Thread): State<V>
    requires PcOf(s, t).Loaded?
  {
    var pc := PcOf(s, t);
    var stored := if pc.outcome.Some? && pc.generation == s.cache.generation
                  then [Stored(pc.flight, pc.outcome.value, s.now)] else [];
    s.(cache := Complete(s.cache, pc.generation, pc.outcome, s.now),
       threads := s.threads[t := Outside],
       log := s.log + stored + [Closed(pc.flight)])
  }

  function Do<V(==)>(s: State<V>, a: Action<V>): State<V>
    requires Enabled(s, a)
  {
    match a
    case Enter(t) => s.(threads := s.threads[t := Checking])
    case GiveUp(t) => s.(threads := s.threads[t := Outside])
    case Look(t) => Looked(s, t)
    case Wake(t) => s.(threads := s.threads[t := Checking])
    case LoadReturns(t, outcome) =>
      var pc := PcOf(s, t);
      s.(threads := s.threads[t := Loaded(pc.flight, pc.generation, outcome)],
         log := s.log + [LoadEnded(pc.flight, outcome)])
    case Finish(t) => Finished(s, t)
    case Invalidate => s.(cache := Cleared(s.cache), log := s.log + [Invalidated])
    case Tick(seconds) => s.(now := s.now + seconds)
  }

  function Start<V>(now: nat): State<V> {
    State(Cache(None, 0, None, 0), map[], 0, now, [])
  }

  ghost predicate IsRun<V>(s: State<V>, run: seq<Action<V>>)
    decreases |run|
  {
    run == [] || (Enabled(s, run[0]) && IsRun(Do(s, run[0]), run[1..]))
  }

  ghost function Final<V>(s: State<V>, run: seq<Action<V>>): State<V>
    requires IsRun(s, run)
    decreases |run|
  {
    if run == [] then s else Final(Do(s, run[0]), run[1..])
  }

  // ------------------------------------------------------------ what it means

  /** No invalidation between the two positions of the log. */
  ghost predicate Quiet<V>(log: seq<Event<V>>, from: int, upto: int) {
    forall k :: 0 <= from < k < upto <= |log| ==> !log[k].Invalidated?
  }

  /** Position i began the load of the flight, e ended it with v, and j stored v at the given time. */
  ghost predicate Provenance<V>(log: seq<Event<V>>, f: Flight, i: int, e: int, j: int, v: V, stored: nat) {
    && 0 <= i < e < j < |log|
    && log[i] == LoadBegan(f) && log[e] == LoadEnded(f, Some(v)) && log[j] == Stored(f, v, stored)
  }

  /**
   * The value served at position k comes from a successful load that began
   * after the latest invalidation and was stored less than 15 seconds ago.
   */
  ghost predicate ServedFresh<V(!new)>(log: seq<Event<V>>, k: int)
    requires 0 <= k < |log| && log[k].Served?
  {
    log[k].answer.Some? &&
    exists f: Flight, i, e, j, stored: nat ::
      Provenance(log, f, i, e, j, log[k].answer.value, stored) && j < k && log[k].time < stored + 15 && Quiet(log, i, k)
  }

  function Invalidations<V>(log: seq<Event<V>>): nat {
    if log == [] then 0
    else Invalidations(log[..|log| - 1]) + if log[|log| - 1].Invalidated? then 1 else 0
  }

  // ---------------------------------------------------------------- invariant

  /** The thread is loading, or about to finish. */
  predicate InLoad<V>(pc: Pc<V>) {
    pc.Loading? || pc.Loaded?
  }

  predicate Leads<V>(pc: Pc<V>, f: Flight) {
    InLoad(pc) && pc.flight == f
  }

  ghost predicate FlightInv<V(!new)>(s: State<V>) {
    && (forall t :: t in s.threads && InLoad(s.threads[t]) ==>
          s.cache.flight == Some(s.threads[t].flight))
    && (forall t, u :: t in s.threads && u in s.threads && InLoad(s.threads[t]) && InLoad(s.threads[u]) ==> t == u)
    && (s.cache.flight.Some? ==>
          && s.cache.flight.value < s.nextFlight
          && Closed(s.cache.flight.value) !in s.log
          && exists t :: t in s.threads && Leads(s.threads[t], s.cache.flight.value))
    && (forall f: Flight :: f < s.nextFlight ==> s.cache.flight == Some(f) || Closed(f) in s.log)
    && (forall e :: e in s.log && e.Closed? ==> e.flight < s.nextFlight)
    && (forall t :: t in s.threads && s.threads[t].Waiting? ==> s.threads[t].flight < s.nextFlight)
  }

  /** Every loading thread remembers the number of invalidations at its start. */
  ghost predicate LoadInv<V(!new)>(s: State<V>) {
    && s.cache.generation == Invalidations(s.log)
    && (forall t :: t in s.threads && s.threads[t].Loading? ==>
          exists i :: Began(s.log, s.threads[t].flight, s.threads[t].generation, i))
    && (forall t :: t in s.threads && s.threads[t].Loaded? ==>
          exists i, e :: Began(s.log, s.threads[t].flight, s.threads[t].generation, i)
                         && i < e < |s.log| && s.log[e] == LoadEnded(s.threads[t].flight, s.threads[t].outcome))
  }

  ghost predicate Began<V>(log: seq<Event<V>>, f: Flight, generation: nat, i: int) {
    0 <= i < |log| && log[i] == LoadBegan(f) && Invalidations(log[..i]) == generation
  }

  /** A value that could be served now is one that may be served now. */
  ghost predicate CacheInv<V(!new)>(s: State<V>) {
    && (s.cache.value.None? ==> s.cache.expires == 0)
    && (s.cache.value.Some? ==>
          exists f: Flight, i, e, j, stored: nat ::
            Provenance(s.log, f, i, e, j, s.cache.value.value, stored) && s.cache.expires == stored + TTL && Quiet(s.log, i, |s.log|))
  }

  ghost predicate ServedInv<V(!new)>(s: State<V>) {
    forall k :: 0 <= k < |s.log| && s.log[k].Served? ==> ServedFresh(s.log, k)
  }

  ghost predicate Inv<V(!new)>(s: State<V>) {
    FlightInv(s) && LoadInv(s) && CacheInv(s) && ServedInv(s)
  }

  // ------------------------------------------------------------ log lemmas

  lemma InvalidationsAppend<V>(log: seq<Event<V>>, e: Event<V>)
    ensures Invalidations(log + [e]) == Invalidations(log) + if e.Invalidated? then 1 else 0
  {
    assert (log + [e])[..|log|] == log;
  }

  lemma {:induction false} InvalidationsGrow<V>(log: seq<Event<V>>, i: nat)
    requires i <= |log|
    ensures Invalidations(log[..i]) <= Invalidations(log)
    ensures Invalidations(log[..i]) == Invalidations(log) ==> forall k :: i <= k < |log| ==> !log[k].Invalidated?
    decreases |log|
  {
    if i == |log| {
      assert log[..i] == log;
    } else {
      var front := log[..|log| - 1];
      assert front[..i] == log[..i];
      InvalidationsGrow(front, i);
    }
  }

  lemma ServedFreshGrows<V(!new)>(log: seq<Event<V>>, log': seq<Event<V>>, k: int)
    requires 0 <= k < |log| && log[k].Served? && ServedFresh(log, k)
    requires |log| <= |log'| && log'[..|log|] == log
    ensures log'[k] == log[k] && ServedFresh(log', k)
  {
    assert forall n :: 0 <= n < |log| ==> log'[n] == log'[..|log|][n];
    var f: Flight, i, e, j, stored: nat :|
      Provenance(log, f, i, e, j, log[k].answer.value, stored) && j < k && log[k].time < stored + TTL && Quiet(log, i, k);
    assert Provenance(log', f, i, e, j, log'[k].answer.value, stored);
  }

  lemma ServedInvGrows<V(!new)>(s: State<V>, log': seq<Event<V>>)
    requires ServedInv(s) && |s.log| <= |log'| && log'[..|s.log|] == s.log
    requires forall k :: |s.log| <= k < |log'| ==> !log'[k].Served?
    ensures forall k :: 0 <= k < |log'| && log'[k].Served? ==> ServedFresh(log', k)
  {
    forall k | 0 <= k < |log'| && log'[k].Served? ensures ServedFresh(log', k) {
      assert log'[k] == log'[..|s.log|][k];
      ServedFreshGrows(s.log, log', k);
    }
  }

  lemma CacheInvGrows<V(!new)>(s: State<V>, t: State<V>, e: Event<V>)
    requires CacheInv(s) && t.cache.value == s.cache.value && t.cache.expires == s.cache.expires
    requires t.log == s.log + [e] && !e.Invalidated?
    ensures CacheInv(t)
  {
    if s.cache.value.Some? {
      var f: Flight, i, x, j, stored: nat :|
        Provenance(s.log, f, i, x, j, s.cache.value.value, stored) && s.cache.expires == stored + TTL && Quiet(s.log, i, |s.log|);
      assert Provenance(t.log, f, i, x, j, t.cache.value.value, stored);
    }
  }

  lemma BeganGrows<V>(log: seq<Event<V>>, e: Event<V>, f: Flight, generation: nat, i: int)
    requires Began(log, f, generation, i)
    ensures Began(log + [e], f, generation, i)
  {
    assert (log + [e])[..i] == log[..i];
  }

  /** Threads already loading keep their start when the log grows. */
  lemma LoadInvGrows<V(!new)>(s: State<V>, t: State<V>, e: Event<V>)
    requires LoadInv(s) && t.log == s.log + [e] && t.cache.generation == s.cache.generation + (if e.Invalidated? then 1 else 0)
    requires forall u :: u in t.threads && InLoad(t.threads[u]) ==>
               u in s.threads && s.threads[u] == t.threads[u]
    ensures LoadInv(t)
  {
    InvalidationsAppend(s.log, e);
    forall u | u in t.threads && t.threads[u].Loading?
      ensures exists i :: Began(t.log, t.threads[u].flight, t.threads[u].generation, i)
    {
      var i :| Began(s.log, s.threads[u].flight, s.threads[u].generation, i);
      BeganGrows(s.log, e, t.threads[u].flight, t.threads[u].generation, i);
    }
    forall u | u in t.threads && t.threads[u].Loaded?
      ensures exists i, x :: Began(t.log, t.threads[u].flight, t.threads[u].generation, i)
                             && i < x < |t.log| && t.log[x] == LoadEnded(t.threads[u].flight, t.threads[u].outcome)
    {
      var i, x :| Began(s.log, s.threads[u].flight, s.threads[u].generation, i)
                  && i < x < |s.log| && s.log[x] == LoadEnded(s.threads[u].flight, s.threads[u].outcome);
      BeganGrows(s.log, e, t.threads[u].flight, t.threads[u].generation, i);
      assert t.log[x] == s.log[x];
    }
  }

  // ----------------------------------------------------------------- steps

  lemma HitKeeps<V(!new)>(s: State<V>, t: Thread)
    requires Inv(s) && PcOf(s, t).Checking? && LookUp(s.cache, s.now).Hit?
    ensures Inv(Looked(s, t))
  {
    var s' := Looked(s, t);
    var e := Served(t, s.cache.value, s.now);
    assert FlightInv(s') by { SameFlight(s, s', e); }
    LoadInvGrows(s, s', e);
    CacheInvGrows(s, s', e);
    HitServed(s, t);
  }

  lemma HitServed<V(!new)>(s: State<V>, t: Thread)
    requires CacheInv(s) && ServedInv(s) && LookUp(s.cache, s.now).Hit?
    ensures ServedInv(Looked(s, t))
  {
    var log' := s.log + [Served(t, s.cache.value, s.now)];
    var n := |s.log|;
    assert log'[..n] == s.log;
    var f: Flight, i, e, j, stored: nat :|
      Provenance(s.log, f, i, e, j, s.cache.value.value, stored) && s.cache.expires == stored + TTL && Quiet(s.log, i, |s.log|);
    assert Provenance(log', f, i, e, j, log'[n].answer.value, stored) && Quiet(log', i, n);
    assert ServedFresh(log', n);
    forall k | 0 <= k < |log'| && log'[k].Served? ensures ServedFresh(log', k) {
      if k < n { ServedFreshGrows(s.log, log', k); }
    }
  }

  /** A step that starts and ends no flight keeps what is said about flights. */
  lemma SameFlight<V(!new)>(s: State<V>, t: State<V>, e: Event<V>)
    requires FlightInv(s) && t.cache.flight == s.cache.flight && t.nextFlight == s.nextFlight
    requires t.log == s.log || (t.log == s.log + [e] && !e.Closed?)
    requires forall u :: u in t.threads && InLoad(t.threads[u]) ==> u in s.threads && s.threads[u] == t.threads[u]
    requires forall u :: u in s.threads && InLoad(s.threads[u]) ==> u in t.threads && s.threads[u] == t.threads[u]
    requires forall u :: u in t.threads && t.threads[u].Waiting? ==> t.threads[u].flight < t.nextFlight
    ensures FlightInv(t)
  {
    if s.cache.flight.Some? {
      var leader :| leader in s.threads && Leads(s.threads[leader], s.cache.flight.value);
      assert Leads(t.threads[leader], t.cache.flight.value);
    }
  }

  lemma JoinKeeps<V(!new)>(s: State<V>, t: Thread)
    requires Inv(s) && PcOf(s, t).Checking? && LookUp(s.cache, s.now).Join?
    ensures Inv(Looked(s, t))
  {
    SameFlight(s, Looked(s, t), Invalidated);
  }

  lemma LeadFlight<V(!new)>(s: State<V>, t: Thread)
    requires FlightInv(s) && PcOf(s, t).Checking? && LookUp(s.cache, s.now).Lead?
    ensures FlightInv(Looked(s, t))
  {
    var s' := Looked(s, t);
    assert Leads(s'.threads[t], s.nextFlight);
  }

  lemma LeadLoad<V(!new)>(s: State<V>, t: Thread)
    requires LoadInv(s) && LookUp(s.cache, s.now).Lead?
    ensures LoadInv(Looked(s, t))
  {
    var s' := Looked(s, t);
    var e: Event<V> := LoadBegan(s.nextFlight);
    var without := s'.(threads := s.threads - {t});
    LoadInvGrows(s, without, e);
    assert s'.log[..|s.log|] == s.log;
    assert Began(s'.log, s.nextFlight, s.cache.generation, |s.log|);
  }

  lemma LeadKeeps<V(!new)>(s: State<V>, t: Thread)
    requires Inv(s) && PcOf(s, t).Checking? && LookUp(s.cache, s.now).Lead?
    ensures Inv(Looked(s, t))
  {
    var s' := Looked(s, t);
    LeadFlight(s, t);
    LeadLoad(s, t);
    CacheInvGrows(s, s', LoadBegan(s.nextFlight));
    assert s'.log[..|s.log|] == s.log;
    ServedInvGrows(s, s'.log);
  }

  lemma LoadReturnsLoad<V(!new)>(s: State<V>, t: Thread, outcome: Option<V>)
    requires LoadInv(s) && PcOf(s, t).Loading?
    ensures LoadInv(Do(s, LoadReturns(t, outcome)))
  {
    var s' := Do(s, LoadReturns(t, outcome));
    var pc := PcOf(s, t);
    var e := LoadEnded(pc.flight, outcome);
    LoadInvGrows(s, s'.(threads := s.threads - {t}), e);
    var i :| Began(s.log, pc.flight, pc.generation, i);
    BeganGrows(s.log, e, pc.flight, pc.generation, i);
    assert s'.log[|s.log|] == e;
  }

  lemma LoadReturnsFlight<V(!new)>(s: State<V>, t: Thread, outcome: Option<V>)
    requires FlightInv(s) && PcOf(s, t).Loading?
    ensures FlightInv(Do(s, LoadReturns(t, outcome)))
  {
    var s' := Do(s, LoadReturns(t, outcome));
    assert Leads(s'.threads[t], s.cache.flight.value);
  }

  lemma LoadReturnsKeeps<V(!new)>(s: State<V>, t: Thread, outcome: Option<V>)
    requires Inv(s) && PcOf(s, t).Loading?
    ensures Inv(Do(s, LoadReturns(t, outcome)))
  {
    var s' := Do(s, LoadReturns(t, outcome));
    LoadReturnsFlight(s, t, outcome);
    LoadReturnsLoad(s, t, outcome);
    CacheInvGrows(s, s', LoadEnded(PcOf(s, t).flight, outcome));
    assert s'.log[..|s.log|] == s.log;
    ServedInvGrows(s, s'.log);
  }

  lemma FinishFlight<V(!new)>(s: State<V>, t: Thread)
    requires FlightInv(s) && PcOf(s, t).Loaded?
    ensures FlightInv(Finished(s, t))
  {
    var s' := Finished(s, t);
    assert forall e :: e in s.log ==> e in s'.log;
    assert Closed(PcOf(s, t).flight) in s'.log;
  }

  /** When the load is still current, the stored value is fresh. */
  lemma FinishStored<V(!new)>(s: State<V>, t: Thread)
    requires LoadInv(s) && PcOf(s, t).Loaded? && PcOf(s, t).outcome.Some? && PcOf(s, t).generation == s.cache.generation
    ensures CacheInv(Finished(s, t))
  {
    var s' := Finished(s, t);
    var pc := PcOf(s, t);
    var i, e :| Began(s.log, pc.flight, pc.generation, i) && i < e < |s.log| && s.log[e] == LoadEnded(pc.flight, pc.outcome);
    InvalidationsGrow(s.log, i);
    assert Provenance(s'.log, pc.flight, i, e, |s.log|, pc.outcome.value, s.now);
    assert Quiet(s'.log, i, |s'.log|);
  }

  lemma FinishLoad<V(!new)>(s: State<V>, t: Thread)
    requires LoadInv(s) && PcOf(s, t).Loaded?
    ensures LoadInv(Finished(s, t))
  {
    var s' := Finished(s, t);
    var pc := PcOf(s, t);
    var closed: Event<V> := Closed(pc.flight);
    if pc.outcome.Some? && pc.generation == s.cache.generation {
      var stored := Stored(pc.flight, pc.outcome.value, s.now);
      var mid := s.(threads := s.threads[t := Outside], log := s.log + [stored]);
      LoadInvGrows(s, mid, stored);
      LoadInvGrows(mid, s', closed);
    } else {
      assert s.log + [] + [closed] == s.log + [closed];
      LoadInvGrows(s, s', closed);
    }
  }

  lemma FinishKeeps<V(!new)>(s: State<V>, t: Thread)
    requires Inv(s) && PcOf(s, t).Loaded?
    ensures Inv(Finished(s, t))
  {
    var s' := Finished(s, t);
    var pc := PcOf(s, t);
    FinishFlight(s, t);
    FinishLoad(s, t);
    if pc.outcome.Some? && pc.generation == s.cache.generation {
      FinishStored(s, t);
    } else {
      assert s'.log == s.log + [Closed(pc.flight)];
      CacheInvGrows(s, s', Closed(pc.flight));
    }
    assert s'.log[..|s.log|] == s.log;
    ServedInvGrows(s, s'.log);
  }

  lemma InvalidateKeeps<V(!new)>(s: State<V>)
    requires Inv(s)
    ensures Inv(Do(s, Invalidate))
  {
    var s' := Do(s, Invalidate);
    SameFlight(s, s', Invalidated);
    LoadInvGrows(s, s', Invalidated);
    assert s'.log[..|s.log|] == s.log;
    ServedInvGrows(s, s'.log);
  }

  lemma QuietStepKeeps<V(!new)>(s: State<V>, a: Action<V>)
    requires Inv(s) && Enabled(s, a) && (a.Enter? || a.GiveUp? || a.Wake? || a.Tick?)
    ensures Inv(Do(s, a))
  {
    SameFlight(s, Do(s, a), Invalidated);
  }

  lemma StepKeepsInv<V(!new)>(s: State<V>, a: Action<V>)
    requires Inv(s) && Enabled(s, a)
    ensures Inv(Do(s, a))
  {
    match a
    case Look(t) =>
      match LookUp(s.cache, s.now) {
        case Hit(_) => HitKeeps(s, t);
        case Join(_) => JoinKeeps(s, t);
        case Lead => LeadKeeps(s, t);
      }
    case LoadReturns(t, outcome) => LoadReturnsKeeps(s, t, outcome);
    case Finish(t) => FinishKeeps(s, t);
    case Invalidate => InvalidateKeeps(s);
    case _ => QuietStepKeeps(s, a);
  }

  lemma {:induction false} RunKeepsInv<V(!new)>(s: State<V>, run: seq<Action<V>>)
    requires Inv(s) && IsRun(s, run)
    ensures Inv(Final(s, run))
    decreases |run|
  {
    if run != [] {
      StepKeepsInv(s, run[0]);
      RunKeepsInv(Do(s, run[0]), run[1..]);
    }
  }

  // -------------------------------------------------------------- the promises

  /** Whatever the interleaving, a value from the cache is fresh and not older than the last invalidation. */
  lemma ServedValuesAreFresh<V(!new)>(now: nat, run: seq<Action<V>>, k: int)
    requires IsRun(Start(now), run)
    requires 0 <= k < |Final(Start(now), run).log| && Final(Start(now), run).log[k].Served?
    ensures ServedFresh(Final(Start(now), run).log, k)
  {
    StartInv<V>(now);
    RunKeepsInv(Start(now), run);
  }

  lemma StartInv<V(!new)>(now: nat)
    ensures Inv(Start<V>(now))
  {
  }

  /** At most one caller is loading, and whoever waits has a leader to wait for or can go on. */
  lemma SingleFlight<V(!new)>(now: nat, run: seq<Action<V>>)
    requires IsRun(Start(now), run)
    ensures var s := Final(Start(now), run);
            && (forall t, u :: t in s.threads && u in s.threads && InLoad(s.threads[t]) && InLoad(s.threads[u]) ==> t == u)
            && (forall t :: t in s.threads && s.threads[t].Waiting? ==>
                  Closed(s.threads[t].flight) in s.log || exists u :: u in s.threads && Leads(s.threads[u], s.threads[t].flight))
  {
    StartInv<V>(now);
    RunKeepsInv(Start(now), run);
  }

  function Closings<V(==)>(log: seq<Event<V>>, f: Flight): nat {
    if log == [] then 0 else Closings(log[..|log| - 1], f) + if log[|log| - 1] == Closed(f) then 1 else 0
  }

  lemma {:induction false} ClosingsMember<V>(log: seq<Event<V>>, f: Flight)
    ensures Closings(log, f) == 0 <==> Closed(f) !in log
  {
    if log != [] {
      var n := |log| - 1;
      ClosingsMember(log[..n], f);
      assert log == log[..n] + [log[n]];
    }
  }

  lemma ClosingsAppend<V>(log: seq<Event<V>>, e: Event<V>, f: Flight)
    ensures Closings(log + [e], f) == Closings(log, f) + if e == Closed(f) then 1 else 0
  {
    assert (log + [e])[..|log|] == log;
  }

  lemma FinishClosesOnce<V(!new)>(s: State<V>, t: Thread, f: Flight)
    requires FlightInv(s) && PcOf(s, t).Loaded? && Closings(s.log, f) <= 1
    ensures Closings(Finished(s, t).log, f) <= 1
  {
    var pc := PcOf(s, t);
    assert Closed(pc.flight) !in s.log;
    ClosingsMember(s.log, pc.flight);
    if pc.outcome.Some? && pc.generation == s.cache.generation {
      var stored := Stored(pc.flight, pc.outcome.value, s.now);
      ClosingsAppend(s.log, stored, f);
      ClosingsAppend(s.log + [stored], Closed(pc.flight), f);
    } else {
      assert Finished(s, t).log == s.log + [Closed(pc.flight)];
      ClosingsAppend(s.log, Closed(pc.flight), f);
    }
  }

  lemma StepClosesOnce<V(!new)>(s: State<V>, a: Action<V>, f: Flight)
    requires FlightInv(s) && Enabled(s, a) && Closings(s.log, f) <= 1
    ensures Closings(Do(s, a).log, f) <= 1
  {
    var log := Do(s, a).log;
    if a.Finish? {
      FinishClosesOnce(s, a.thread, f);
    } else if log != s.log {
      assert log == s.log + [log[|s.log|]];
      hide FlightInv;
      ClosingsAppend(s.log, log[|s.log|], f);
    }
  }

  lemma {:induction false} RunClosesOnce<V(!new)>(s: State<V>, run: seq<Action<V>>, f: Flight)
    requires Inv(s) && IsRun(s, run) && Closings(s.log, f) <= 1
    ensures Closings(Final(s, run).log, f) <= 1
    decreases |run|
  {
    if run != [] {
      StepKeepsInv(s, run[0]);
      StepClosesOnce(s, run[0], f);
      RunClosesOnce(Do(s, run[0]), run[1..], f);
    }
  }

  /** Every flight channel is closed once its leader has finished, and never twice. */
  lemma FlightsCloseOnce<V(!new)>(now: nat, run: seq<Action<V>>, f: Flight)
    requires IsRun(Start(now), run) && f < Final(Start(now), run).nextFlight
    ensures var s := Final(Start(now), run);
            Closings(s.log, f) == if s.cache.flight == Some(f) then 0 else 1
  {
    StartInv<V>(now);
    RunKeepsInv(Start(now), run);
    RunClosesOnce(Start(now), run, f);
    ClosingsMember(Final(Start(now), run).log, f);
  }
}
