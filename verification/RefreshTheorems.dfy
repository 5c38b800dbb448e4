/**
 * What the refresh protocol promises over whole runs: accepted work finishes,
 * admission stays bounded, a crash loses and repeats nothing that the table
 * can tell apart, and success follows activation.
 */
module RefreshTheorems {
  import opened Options
  import opened JobTable
  import opened RefreshProtocol
  import opened RefreshInvariants

  // ------------------------------------------------- no lost work, progress

  /** In every state a run can reach, no accepted job and no wakeup is lost. */
  lemma NoLostWork(hasReloader: bool, run: seq<Action>)
    requires IsRun(Fresh(hasReloader), run)
    ensures var s := Final(Fresh(hasReloader), run);
            s.Up? ==>
              && Distinct(s.queue)
              && (forall id :: id in s.jobs && Active(s.jobs[id]) <==>
                    id in s.queue || (Held(s.worker).Some? && Held(s.worker).value.id == id))
              && (!s.cancelled && s.queue != [] && s.worker.Parked? ==> s.wake || s.boot || s.adm.Inserted?)
  {
    FreshInv(hasReloader);
    RunKeepsInv(Fresh(hasReloader), run);
  }

  function StageRank(stage: Stage): nat {
    match stage
    case Starting => 17
    case Publishing(_, ToRefreshing) => 16
    case Refreshing => 15
    case Noting => 14
    case Publishing(_, ToReloading) => 13
    case Reloading => 12
    case Settling(_) => 11
    case Completing => 10
    case Requeueing => 10
    case Failing => 9
    case FailedUnsaved => 8
    case Publishing(_, ToLoop) => 7
    case Publishing(_, ToStopped) => 1
  }

  function Rank(w: Worker): nat {
    match w
    case Holding(_, stage) => StageRank(stage)
    case Looping => 5
    case Acquiring => 4
    case Parked => 3
    case Stopped(_) => 0
  }

  /** Bounds the number of steps the worker can still take on its own. */
  function Remaining(s: State): nat
    requires s.Up?
  {
    20 * |s.queue| + Rank(s.worker) + (if s.wake then 3 else 0) + (if s.boot then 4 else 0)
  }

  predicate IsInternal(a: Action) {
    IsWorkerAction(a) || a.BootSignal?
  }

  lemma SaveDecreases(s: State, a: Action)
    requires Enabled(s, a) && a.SaveRecord?
    ensures s.Up? && Do(s, a).Up? && Remaining(Do(s, a)) < Remaining(s)
    ensures Do(s, a).adm == s.adm && Do(s, a).cancelled == s.cancelled
  {
  }

  lemma PublishDecreases(s: State, a: Action)
    requires Enabled(s, a) && (a.Publish? || a.FailInMemory?)
    ensures s.Up? && Do(s, a).Up? && Remaining(Do(s, a)) < Remaining(s)
    ensures Do(s, a).adm == s.adm && Do(s, a).cancelled == s.cancelled
  {
  }

  lemma MoveDecreases(s: State, a: Action)
    requires Enabled(s, a) && (a.TakeWake? || a.StopParked? || a.CheckContext? || a.PopOrPark? || a.BootSignal?)
    ensures s.Up? && Do(s, a).Up? && Remaining(Do(s, a)) < Remaining(s)
    ensures Do(s, a).adm == s.adm && Do(s, a).cancelled == s.cancelled
  {
  }

  lemma ReturnDecreases(s: State, a: Action)
    requires Enabled(s, a) && (a.RefreshReturns? || a.ReloadReturns? || a.Settle?)
    ensures s.Up? && Do(s, a).Up? && Remaining(Do(s, a)) < Remaining(s)
    ensures Do(s, a).adm == s.adm && Do(s, a).cancelled == s.cancelled
  {
  }

  /** Without submissions every worker step, whatever it returns, brings the end closer. */
  lemma InternalStepDecreases(s: State, a: Action)
    requires Enabled(s, a) && IsInternal(a)
    ensures s.Up? && Do(s, a).Up? && Remaining(Do(s, a)) < Remaining(s)
    ensures Do(s, a).adm == s.adm && Do(s, a).cancelled == s.cancelled
  {
    if a.SaveRecord? {
      SaveDecreases(s, a);
    } else if a.Publish? || a.FailInMemory? {
      PublishDecreases(s, a);
    } else if a.RefreshReturns? || a.ReloadReturns? || a.Settle? {
      ReturnDecreases(s, a);
    } else {
      MoveDecreases(s, a);
    }
  }

  lemma {:induction false} InternalRunIsShort(s: State, run: seq<Action>)
    requires s.Up? && IsRun(s, run) && forall a :: a in run ==> IsInternal(a)
    ensures var t := Final(s, run);
            t.Up? && t.adm == s.adm && t.cancelled == s.cancelled && |run| + Remaining(t) <= Remaining(s)
    decreases |run|
  {
    if run != [] {
      assert run[0] in run;
      InternalStepDecreases(s, run[0]);
      InternalRunIsShort(Do(s, run[0]), run[1..]);
    }
  }

  /** The step the worker can take next, when there is one. */
  function NextStep(s: State): Action
    requires s.Up?
  {
    match s.worker
    case Parked => if s.boot then BootSignal else TakeWake
    case Looping => CheckContext
    case Acquiring => PopOrPark
    case Stopped(_) => StopParked
    case Holding(_, stage) =>
      match stage
      case Refreshing => RefreshReturns(None, "")
      case Reloading => ReloadReturns(true, "")
      case Settling(_) => Settle
      case FailedUnsaved => FailInMemory("")
      case Publishing(_, _) => Publish
      case _ => SaveRecord(true, 0, "")
  }

  /** While any job is unfinished and no submitter is inside, the worker can step. */
  lemma NeverStuck(s: State)
    requires Inv(s) && s.Up? && !s.cancelled && s.adm.NoAdmission?
    requires ActiveSet(s.jobs) != {}
    ensures IsInternal(NextStep(s)) && Enabled(s, NextStep(s))
  {
    ParkedHasWork(s);
    assert WorkerInv(s) && WakeInv(s);
    hide Inv, ActiveSet;
  }

  lemma ParkedHasWork(s: State)
    requires s.Up? && QueueInv(s) && ActiveSet(s.jobs) != {}
    ensures Held(s.worker).None? ==> s.queue != []
  {
    var id :| id in ActiveSet(s.jobs);
    assert Held(s.worker).None? ==> id in s.queue;
  }

  /** So a run of the worker alone that cannot be extended has finished every job. */
  lemma WorkDrains(s: State, run: seq<Action>)
    requires Inv(s) && s.Up? && !s.cancelled && s.adm.NoAdmission?
    requires IsRun(s, run) && (forall a :: a in run ==> IsInternal(a))
    ensures |run| <= Remaining(s)
    ensures Final(s, run).Up?
    ensures (forall a :: IsInternal(a) ==> !Enabled(Final(s, run), a)) ==>
              Final(s, run).queue == [] && ActiveSet(Final(s, run).jobs) == {}
  {
    InternalRunIsShort(s, run);
    RunKeepsInv(s, run);
    var t := Final(s, run);
    if t.queue != [] {
      assert t.queue[0] in t.queue;
      assert t.queue[0] in ActiveSet(t.jobs);
    }
    if ActiveSet(t.jobs) != {} {
      NeverStuck(t);
    }
  }
}
