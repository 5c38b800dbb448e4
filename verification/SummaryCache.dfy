/**
 * The fields of the summary cache and its locked sections. Each section takes
 * the transition of the step machine, and no array of the stored summary is
 * ever in the hands of a caller.
 */
module SummaryCache {
  import opened Options
  import Protocol = SummaryCacheProtocol
  import opened Summaries

  class SummaryCache {
    var value: Option<Summary>
    var expires: nat
    var flight: Option<Protocol.Flight>
    var generation: nat

    /** Every array that a caller of `get` holds, or handed in as the result of its load. */
    ghost var outside: set<object>

    ghost function Held(): set<object>
      reads this, if value.Some? then {value.value.clientBuckets} else {}
    {
      if value.Some? then Footprint(value.value) else {}
    }

    ghost function View(): Protocol.Cache<Figures>
      reads this, if value.Some? then {value.value.clientBuckets} else {}, Held()
    {
      Protocol.Cache(if value.Some? then Some(Contents(value.value)) else None, expires, flight, generation)
    }

    /** The stored arrays are the cache's own, and without a value there is no time left. */
    ghost predicate Valid()
      reads this, if value.Some? then {value.value.clientBuckets} else {}, Held()
    {
      && this !in Held() && Held() !! outside
      && (value.None? ==> expires == 0)
    }

    constructor ()
      ensures Valid() && View() == Protocol.Cache(None, 0, None, 0) && outside == {}
    {
      value := None;
      expires := 0;
      flight := None;
      generation := 0;
      outside := {};
    }

    /** A projection at the full level is a deep copy. */
    static method DeepCopy(s: Summary) returns (copy: Summary)
      ensures fresh(Footprint(copy)) && Contents(copy) == old(Contents(s))
    {
      ProjectTwice(Contents(s), FULL, FULL);
      hide Project, Contents, Footprint;
      copy := ProjectSummary(s, FULL);
    }

    /** The first locked section of `get`; a hit hands out a copy. */
    method LookUp(now: nat, nextFlight: Protocol.Flight) returns (ghost found: Protocol.Found<Figures>, answer: Option<Summary>)
      requires Valid()
      modifies this`flight, this`outside
      ensures Valid() && value == old(value)
      ensures found == Protocol.LookUp(old(View()), now)
      ensures View() == if found.Lead? then old(View()).(flight := Some(nextFlight)) else old(View())
      ensures found.Hit? <==> answer.Some?
      ensures answer.Some? <==> now < expires
      ensures flight == if now < expires || old(flight).Some? then old(flight) else Some(nextFlight)
      ensures found.Hit? ==>
                && fresh(Footprint(answer.value)) && Some(Contents(answer.value)) == found.value
                && outside == old(outside) + Footprint(answer.value)
      ensures !found.Hit? ==> outside == old(outside)
    {
      hide Contents, Project;
      answer := None;
      found := Protocol.LookUp(View(), now);
      if now < expires {
        var copy := DeepCopy(value.value);
        answer := Some(copy);
        outside := outside + Footprint(copy);
      } else if flight.None? {
        flight := Some(nextFlight);
      }
    }

    /** The second locked section of `get`: a current load is stored as a copy of what the caller keeps. */
    method Complete(started: nat, outcome: Option<Summary>, now: nat)
      requires Valid() && (outcome.Some? ==> Footprint(outcome.value) !! Held() && this !in Footprint(outcome.value))
      modifies this
      ensures Valid()
      ensures View() == Protocol.Complete(old(View()), started,
                                          if outcome.Some? then Some(old(Contents(outcome.value))) else None, now)
      ensures outside == old(outside) + if outcome.Some? then Footprint(outcome.value) else {}
      ensures View() == if outcome.Some? && started == old(generation)
                        then Protocol.Cache(Some(old(Contents(outcome.value))), now + 15, None, started)
                        else old(View()).(flight := None)
    {
      hide Contents, Project;
      if outcome.Some? {
        outside := outside + Footprint(outcome.value);
        if started == generation {
          var copy := DeepCopy(outcome.value);
          value := Some(copy);
          expires := now + Protocol.TTL;
        }
      }
      flight := None;
    }

    method Invalidate()
      requires Valid()
      modifies this
      ensures Valid() && View() == Protocol.Cleared(old(View())) && outside == old(outside)
      ensures value.None? && expires == 0 && flight == old(flight) && generation == old(generation) + 1
    {
      generation := generation + 1;
      expires := 0;
      value := None;
    }

    /** So a caller may overwrite what it was given and the cache cannot tell. */
    method CallerWrites(totals: array<NamedTotal>, i: nat, total: NamedTotal)
      requires Valid() && totals in outside && i < totals.Length
      modifies totals
      ensures Valid() && View() == old(View())
    {
      totals[i] := total;
    }

    method CallerWritesBucket(buckets: array<TimeBucket>, i: nat, bucket: TimeBucket)
      requires Valid() && buckets in outside && i < buckets.Length
      modifies buckets
      ensures Valid() && View() == old(View())
    {
      buckets[i] := bucket;
    }

    method CallerWritesClients(buckets: array<ClientBucket>, i: nat, bucket: ClientBucket)
      requires Valid() && buckets in outside && i < buckets.Length
      modifies buckets
      ensures Valid() && View() == old(View())
    {
      buckets[i] := bucket;
    }
  }
}
