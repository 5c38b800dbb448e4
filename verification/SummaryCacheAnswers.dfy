/**
 * What the summary cache answers, told by its log alone: a value that was stored
 * and has neither been invalidated nor grown old is served, and only then does a
 * caller not wait for a load or begin one.
 */
module SummaryCacheAnswers {
  import opened Options
  import opened SummaryCacheProtocol

  datatype Keeping<V> = Nothing | Keeping(value: V, since: nat)

  /** The value last stored, unless it has been invalidated since. */
  function Standing<V>(log: seq<Event<V>>): Keeping<V> {
    if log == [] then Nothing
    else
      match log[|log| - 1]
      case Stored(_, v, time) => Keeping(v, time)
      case Invalidated => Nothing
      case _ => Standing(log[..|log| - 1])
  }

  /** A load of the flight is under way. */
  predicate Open<V(==)>(log: seq<Event<V>>, f: Flight) {
    LoadBegan(f) in log && Closed(f) !in log
  }

  ghost predicate AnswerInv<V>(s: State<V>) {
    match Standing(s.log)
    case Nothing => s.cache.value.None? && s.cache.expires == 0
    case Keeping(v, since) => s.cache.value == Some(v) && s.cache.expires == since + 15
  }

  /** Each flight is begun once. */
  ghost predicate BegunInv<V(!new)>(s: State<V>) {
    && (forall f: Flight :: f < s.nextFlight <==> LoadBegan(f) in s.log)
    && (forall i, j :: 0 <= i < j < |s.log| && s.log[i].LoadBegan? ==> s.log[i] != s.log[j])
  }

  lemma StandingAppend<V>(log: seq<Event<V>>, e: Event<V>)
    ensures Standing(log + [e]) == match e
                                   case Stored(_, v, time) => Keeping(v, time)
                                   case Invalidated => Nothing
                                   case _ => Standing(log)
  {
    assert (log + [e])[..|log|] == log;
  }

  lemma {:induction false} StandingAt<V>(log: seq<Event<V>>, j: nat)
    requires j < |log| && log[j].Stored? && forall k :: j < k < |log| ==> !log[k].Stored? && !log[k].Invalidated?
    ensures Standing(log) == Keeping(log[j].value, log[j].time)
    decreases |log|
  {
    if j < |log| - 1 {
      StandingAt(log[..|log| - 1], j);
    }
  }

  lemma FinishAnswers<V(!new)>(s: State<V>, t: Thread)
    requires AnswerInv(s) && PcOf(s, t).Loaded?
    ensures AnswerInv(Finished(s, t))
  {
    var pc := PcOf(s, t);
    var closed: Event<V> := Closed(pc.flight);
    if pc.outcome.Some? && pc.generation == s.cache.generation {
      var stored := Stored(pc.flight, pc.outcome.value, s.now);
      StandingAppend(s.log, stored);
      StandingAppend(s.log + [stored], closed);
    } else {
      assert Finished(s, t).log == s.log + [closed];
      StandingAppend(s.log, closed);
    }
  }

  lemma StepAnswers<V(!new)>(s: State<V>, a: Action<V>)
    requires AnswerInv(s) && Enabled(s, a)
    ensures AnswerInv(Do(s, a))
  {
    if a.Finish? {
      FinishAnswers(s, a.thread);
    } else if Do(s, a).log != s.log {
      StandingAppend(s.log, Do(s, a).log[|s.log|]);
    }
  }

  lemma FinishBegun<V(!new)>(s: State<V>, t: Thread)
    requires BegunInv(s) && PcOf(s, t).Loaded?
    ensures BegunInv(Finished(s, t))
  {
    var log := Finished(s, t).log;
    forall f: Flight ensures LoadBegan(f) in log <==> LoadBegan(f) in s.log { }
  }

  lemma StepBegun<V(!new)>(s: State<V>, a: Action<V>)
    requires BegunInv(s) && Enabled(s, a)
    ensures BegunInv(Do(s, a))
  {
    if a.Finish? {
      FinishBegun(s, a.thread);
    } else {
      var log := Do(s, a).log;
      forall f: Flight ensures f < Do(s, a).nextFlight <==> LoadBegan(f) in log {
        assert f < s.nextFlight <==> LoadBegan(f) in s.log;
      }
    }
  }

  lemma {:induction false} RunAnswers<V(!new)>(s: State<V>, run: seq<Action<V>>)
    requires AnswerInv(s) && BegunInv(s) && IsRun(s, run)
    ensures AnswerInv(Final(s, run)) && BegunInv(Final(s, run))
    decreases |run|
  {
    hide AnswerInv, BegunInv;
    if run != [] {
      StepAnswers(s, run[0]);
      StepBegun(s, run[0]);
      RunAnswers(Do(s, run[0]), run[1..]);
    }
  }

  lemma Reached<V(!new)>(now: nat, run: seq<Action<V>>)
    requires IsRun(Start(now), run)
    ensures var s := Final(Start(now), run);
            Inv(s) && AnswerInv(s) && BegunInv(s)
  {
    StartInv<V>(now);
    RunKeepsInv(Start(now), run);
    RunAnswers(Start(now), run);
  }

  /**
   * What a caller that looks finds, in every reachable state. A standing value
   * younger than 15 seconds is served and no load begins; otherwise the caller
   * waits for the load that is under way, or begins one if there is none.
   */
  lemma LookFindsExactly<V(!new)>(now: nat, run: seq<Action<V>>, t: Thread)
    requires IsRun(Start(now), run) && PcOf(Final(Start(now), run), t).Checking?
    ensures var s := Final(Start(now), run);
            var s' := Do(s, Look(t));
            var standing := Standing(s.log);
            if standing.Keeping? && s.now < standing.since + 15 then
              s' == s.(threads := s.threads[t := Outside], log := s.log + [Served(t, Some(standing.value), s.now)])
            else if exists f: Flight :: Open(s.log, f) then
              PcOf(s', t).Waiting? && Open(s.log, PcOf(s', t).flight) && s'.log == s.log && s'.cache == s.cache
            else
              && PcOf(s', t).Loading? && LoadBegan(PcOf(s', t).flight) !in s.log
              && s'.log == s.log + [LoadBegan(PcOf(s', t).flight)]
  {
    Reached(now, run);
    var s := Final(Start(now), run);
    OpenFlights(s);
  }

  lemma OpenFlights<V(!new)>(s: State<V>)
    requires FlightInv(s) && BegunInv(s)
    ensures forall f: Flight :: Open(s.log, f) <==> s.cache.flight == Some(f)
    ensures LoadBegan(s.nextFlight) !in s.log
  {
    forall f: Flight ensures Open(s.log, f) <==> s.cache.flight == Some(f) {
      assert f < s.nextFlight <==> LoadBegan(f) in s.log;
    }
    assert !(s.nextFlight < s.nextFlight);
  }

  /** In particular, a value stored last and not invalidated since is served for 15 seconds. */
  lemma StoredIsServed<V(!new)>(now: nat, run: seq<Action<V>>, j: nat, t: Thread)
    requires IsRun(Start(now), run)
    requires j < |Final(Start(now), run).log| && Final(Start(now), run).log[j].Stored?
    requires forall k :: j < k < |Final(Start(now), run).log| ==>
               !Final(Start(now), run).log[k].Stored? && !Final(Start(now), run).log[k].Invalidated?
    requires Final(Start(now), run).now < Final(Start(now), run).log[j].time + 15
    requires PcOf(Final(Start(now), run), t).Checking?
    ensures var s := Final(Start(now), run);
            Do(s, Look(t)).log == s.log + [Served(t, Some(s.log[j].value), s.now)]
  {
    StandingAt(Final(Start(now), run).log, j);
    LookFindsExactly(now, run, t);
  }

  /** No invalidation has come since the flight was begun. */
  ghost predicate Current<V>(log: seq<Event<V>>, f: Flight) {
    exists i :: 0 <= i < |log| && log[i] == LoadBegan(f) && forall k :: i < k < |log| ==> !log[k].Invalidated?
  }

  /**
   * What the end of a load leaves, in every reachable state: a successful one
   * that is still current is stored and stands from then on; any other changes
   * nothing that a caller could be served. The flight is closed either way.
   */
  lemma FinishStoresExactly<V(!new)>(now: nat, run: seq<Action<V>>, t: Thread)
    requires IsRun(Start(now), run) && PcOf(Final(Start(now), run), t).Loaded?
    ensures var s := Final(Start(now), run);
            var s' := Do(s, Finish(t));
            var pc := PcOf(s, t);
            && PcOf(s', t).Outside? && !Open(s'.log, pc.flight)
            && LoadEnded(pc.flight, pc.outcome) in s.log
            && if pc.outcome.Some? && Current(s.log, pc.flight) then
                 && s'.log == s.log + [Stored(pc.flight, pc.outcome.value, s.now), Closed(pc.flight)]
                 && Standing(s'.log) == Keeping(pc.outcome.value, s.now)
               else
                 s'.log == s.log + [Closed(pc.flight)] && Standing(s'.log) == Standing(s.log)
  {
    Reached(now, run);
    var s := Final(Start(now), run);
    CurrentIsGeneration(s, t);
    var pc := PcOf(s, t);
    var closed: Event<V> := Closed(pc.flight);
    if pc.outcome.Some? && Current(s.log, pc.flight) {
      var stored := Stored(pc.flight, pc.outcome.value, s.now);
      StandingAppend(s.log, stored);
      StandingAppend(s.log + [stored], closed);
      assert s.log + [stored] + [closed] == s.log + [stored, closed];
    } else {
      assert s.log + [] + [closed] == s.log + [closed];
      StandingAppend(s.log, closed);
    }
  }

  lemma CurrentIsGeneration<V(!new)>(s: State<V>, t: Thread)
    requires LoadInv(s) && BegunInv(s) && PcOf(s, t).Loaded?
    ensures PcOf(s, t).generation == s.cache.generation <==> Current(s.log, PcOf(s, t).flight)
    ensures LoadEnded(PcOf(s, t).flight, PcOf(s, t).outcome) in s.log
  {
    var pc := PcOf(s, t);
    var i, e :| Began(s.log, pc.flight, pc.generation, i) && i < e < |s.log| && s.log[e] == LoadEnded(pc.flight, pc.outcome);
    InvalidationsGrow(s.log, i);
    if Current(s.log, pc.flight) {
      var b :| 0 <= b < |s.log| && s.log[b] == LoadBegan(pc.flight) && forall k :: b < k < |s.log| ==> !s.log[k].Invalidated?;
      assert b == i;
      InvalidationsStop(s.log, i);
    }
  }

  lemma {:induction false} InvalidationsStop<V>(log: seq<Event<V>>, i: nat)
    requires i <= |log| && forall k :: i <= k < |log| ==> !log[k].Invalidated?
    ensures Invalidations(log[..i]) == Invalidations(log)
    decreases |log|
  {
    if i == |log| {
      assert log[..i] == log;
    } else {
      var front := log[..|log| - 1];
      assert front[..i] == log[..i];
      InvalidationsStop(front, i);
    }
  }
}
