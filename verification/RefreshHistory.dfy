/**
 * What the log of refresh and reload calls says about a job's outcome:
 * success only after its own refresh and then activation, phases in order,
 * one refresh at a time.
 */
module RefreshHistory {
  import opened Options
  import opened JobTable
  import opened RefreshProtocol
  import opened RefreshInvariants
  import opened RefreshBounds

  // --------------------------------------------------- success after activation

  /** In the running process the list's refresh has returned without error. */
  ghost predicate RefreshedNow(log: seq<Event>, id: JobId) {
    exists i :: 0 <= i < |log| && log[i] == RefreshEnded(id, true) && forall k :: i < k < |log| ==> log[k] != Restarted
  }

  /** Some process saw the job's refresh and, after it, the reload return without error. */
  ghost predicate Activated(log: seq<Event>, id: JobId, hasReloader: bool) {
    if hasReloader then
      exists i, j :: 0 <= i < j < |log| && log[i] == RefreshEnded(id, true) && log[j] == ReloadEnded(id, true)
                     && forall k :: i < k < j ==> log[k] != Restarted
    else
      RefreshEnded(id, true) in log
  }

  lemma RefreshedNew(log: seq<Event>, id: JobId)
    ensures RefreshedNow(log + [RefreshEnded(id, true)], id)
  {
    assert (log + [RefreshEnded(id, true)])[|log|] == RefreshEnded(id, true);
  }

  lemma ActivatedGrows(log: seq<Event>, e: Event, id: JobId, hasReloader: bool)
    requires Activated(log, id, hasReloader)
    ensures Activated(log + [e], id, hasReloader)
  {
    if hasReloader {
      var i, j :| 0 <= i < j < |log| && log[i] == RefreshEnded(id, true) && log[j] == ReloadEnded(id, true)
                  && forall k :: i < k < j ==> log[k] != Restarted;
      var log' := log + [e];
      assert log'[i] == RefreshEnded(id, true) && log'[j] == ReloadEnded(id, true);
    }
  }

  lemma ActivatedNow(log: seq<Event>, id: JobId)
    requires RefreshedNow(log, id)
    ensures Activated(log + [ReloadEnded(id, true)], id, true)
  {
    var i :| 0 <= i < |log| && log[i] == RefreshEnded(id, true) && forall k :: i < k < |log| ==> log[k] != Restarted;
    var log' := log + [ReloadEnded(id, true)];
    assert log'[i] == RefreshEnded(id, true) && log'[|log|] == ReloadEnded(id, true);
  }

  /** The held job has got past the calls that its stage comes after. */
  ghost predicate HeldActivation(job: Job, stage: Stage, log: seq<Event>, hasReloader: bool) {
    match stage
    case Noting => RefreshedNow(log, job.id)
    case Reloading => RefreshedNow(log, job.id) && hasReloader
    case Settling(failure) => failure.None? ==> Activated(log, job.id, hasReloader)
    case Completing => Activated(log, job.id, hasReloader)
    case Publishing(stored, after) =>
      && stored.id == job.id && stored.status == job.status
      && (after.ToReloading? ==> RefreshedNow(log, job.id))
      && (job.status.Succeeded? ==> Activated(log, job.id, hasReloader))
    case _ => !job.status.Succeeded?
  }

  ghost predicate SuccessInv(s: State) {
    && (forall r :: r in s.table && r.status.Succeeded? ==> Activated(s.log, r.id, s.hasReloader))
    && (s.Up? ==>
          && (forall id :: id in s.jobs && s.jobs[id].status.Succeeded? ==> Activated(s.log, id, s.hasReloader))
          && (s.adm.Admitting? || s.adm.Admitted? ==> s.adm.job.status.Queued?)
          && (s.worker.Holding? ==> HeldActivation(s.worker.job, s.worker.stage, s.log, s.hasReloader)))
  }

  /** Recording one more event forgets no activation. */
  lemma EventKeepsSuccess(s: State, e: Event, w: Worker)
    requires s.Up? && SuccessInv(s)
    requires w.Holding? ==> HeldActivation(w.job, w.stage, s.log + [e], s.hasReloader)
    ensures SuccessInv(s.(log := s.log + [e], worker := w))
  {
    forall id | Activated(s.log, id, s.hasReloader) ensures Activated(s.log + [e], id, s.hasReloader) {
      ActivatedGrows(s.log, e, id, s.hasReloader);
    }
  }

  lemma PublishKeepsSuccess(s: State)
    requires SuccessInv(s) && s.Up? && Publishes(s.worker) && WorkerInv(s)
    ensures SuccessInv(PublishHeld(s))
  {
    var t := PublishHeld(s);
    var stored := s.worker.stage.stored;
    var u := s.(jobs := t.jobs);
    assert SuccessInv(u);
    if s.worker.stage.after.ToRefreshing? {
      EventKeepsSuccess(u, RefreshBegan(stored.id), t.worker);
    } else if t.worker.Holding? && !s.hasReloader {
      var i :| 0 <= i < |s.log| && s.log[i] == RefreshEnded(s.worker.job.id, true)
               && forall k :: i < k < |s.log| ==> s.log[k] != Restarted;
    }
  }

  lemma ReturnsKeepSuccess(s: State, a: Action)
    requires SuccessInv(s) && Enabled(s, a) && (a.RefreshReturns? || a.ReloadReturns?)
    ensures SuccessInv(Do(s, a))
  {
    var job := s.worker.job;
    match a
    case RefreshReturns(outcome, failure) =>
      RefreshedNew(s.log, job.id);
      EventKeepsSuccess(s, RefreshEnded(job.id, outcome.Some?), Do(s, a).worker);
    case ReloadReturns(ok, failure) =>
      ActivatedNow(s.log, job.id);
      EventKeepsSuccess(s, ReloadEnded(job.id, ok), Do(s, a).worker);
  }

  lemma UpsertKeepsSuccess(s: State, job: Job, t: State)
    requires SuccessInv(s) && s.Up? && DistinctIds(s.table) && t == s.(table := Upsert(s.table, job))
    requires job.status.Succeeded? ==> Activated(s.log, job.id, s.hasReloader)
    ensures SuccessInv(t)
  {
    UpsertRows(s.table, job);
  }

  lemma SavesKeepSuccess(s: State, a: Action)
    requires SuccessInv(s) && DistinctIds(s.table) && (s.Up? ==> WorkerInv(s)) && Enabled(s, a)
    requires a.SubmitEvict? || a.AdmitSave? || a.SaveRecord?
    ensures SuccessInv(Do(s, a))
  {
    var t := Do(s, a);
    match a
    case SubmitEvict(_, victim) => DeleteRows(s.table, victim);
    case AdmitSave(ok) => if ok { UpsertKeepsSuccess(s, s.adm.job, s.(table := t.table)); }
    case SaveRecord(ok, now, _) =>
      if ok { SaveHeldKeepsSuccess(s, now); }
  }

  lemma SaveHeldKeepsSuccess(s: State, now: int)
    requires SuccessInv(s) && s.Up? && DistinctIds(s.table) && WorkerInv(s) && Saving(s.worker)
    ensures SuccessInv(SaveHeld(s, now))
  {
    UpsertKeepsSuccess(s, s.worker.job.(updatedAt := now), s.(table := SaveHeld(s, now).table));
  }

  lemma RowFromReset(rows: seq<Job>, rows': seq<Job>, r: Job)
    requires SameShape(rows, rows') && r in rows' && r.status.Succeeded?
    ensures r in rows
  {
    var i :| 0 <= i < |rows'| && rows'[i] == r;
    assert rows[i] == r;
  }

  lemma RecoveryKeepsSuccess(s: State, a: Action)
    requires SuccessInv(s) && DistinctIds(s.table) && Enabled(s, a) && (a.RecoverFails? || a.Recover?)
    ensures SuccessInv(Do(s, a))
  {
    var t := Do(s, a);
    match a {
      case RecoverFails(done, now) => PartialResetShape(s.table, done, now);
      case Recover(now) =>
        ResetRowsAt(s.table, now);
        RecoveredOwed(s, now);
        forall id | Activated(s.log, id, s.hasReloader) ensures Activated(t.log, id, s.hasReloader) {
          ActivatedGrows(s.log, Restarted, id, s.hasReloader);
        }
        forall id | id in t.jobs ensures t.jobs[id] in t.table && t.jobs[id].id == id {
          var row := RowById(t.table, id);
        }
    }
    forall r | r in t.table && r.status.Succeeded? ensures r in s.table {
      RowFromReset(s.table, t.table, r);
    }
  }

  lemma MemoryKeepsSuccess(s: State, a: Action)
    requires SuccessInv(s) && Enabled(s, a) && (s.Up? ==> WorkerInv(s))
    requires a.ForgetVictim? || a.AdmitInsert? || a.FailInMemory? || a.Crash?
    ensures SuccessInv(Do(s, a))
  {
  }

  lemma MovesKeepSuccess(s: State, a: Action)
    requires SuccessInv(s) && Enabled(s, a) && (s.Up? ==> WorkerInv(s))
    requires a.PopOrPark? || a.TakeWake? || a.StopParked? || a.CheckContext?
    ensures SuccessInv(Do(s, a))
  {
  }

  lemma SettleKeepsSuccess(s: State)
    requires SuccessInv(s) && Enabled(s, Settle)
    ensures SuccessInv(Do(s, Settle))
  {
  }

  lemma QuietKeepsSuccess(s: State, a: Action)
    requires SuccessInv(s) && Enabled(s, a)
    requires a.SubmitCreate? || a.CreateAfterEvict? || a.AdmitSignal? || a.AdmitAbort? || a.BootSignal? || a.Cancel?
    ensures SuccessInv(Do(s, a))
  {
  }

  lemma StepKeepsSuccess(s: State, a: Action)
    requires Inv(s) && SuccessInv(s) && Enabled(s, a)
    ensures SuccessInv(Do(s, a))
  {
    if a.SubmitEvict? || a.AdmitSave? || a.SaveRecord? {
      SavesKeepSuccess(s, a);
    } else if a.RecoverFails? || a.Recover? {
      RecoveryKeepsSuccess(s, a);
    } else if a.RefreshReturns? || a.ReloadReturns? {
      ReturnsKeepSuccess(s, a);
    } else if a.Publish? {
      PublishKeepsSuccess(s);
    } else if a.ForgetVictim? || a.AdmitInsert? || a.FailInMemory? || a.Crash? {
      MemoryKeepsSuccess(s, a);
    } else if a.Settle? {
      SettleKeepsSuccess(s);
    } else if a.PopOrPark? || a.TakeWake? || a.StopParked? || a.CheckContext? {
      MovesKeepSuccess(s, a);
    } else {
      QuietKeepsSuccess(s, a);
    }
  }

  lemma {:induction false} RunKeepsSuccess(s: State, run: seq<Action>)
    requires Inv(s) && SuccessInv(s) && IsRun(s, run)
    ensures SuccessInv(Final(s, run))
    decreases |run|
  {
    if run != [] {
      StepKeepsInv(s, run[0]);
      StepKeepsSuccess(s, run[0]);
      RunKeepsSuccess(Do(s, run[0]), run[1..]);
    }
  }

  /** Whoever reads `succeeded`, in memory or in the table, reads it after activation. */
  lemma SuccessAfterActivation(hasReloader: bool, run: seq<Action>, id: JobId)
    requires IsRun(Fresh(hasReloader), run)
    ensures var s := Final(Fresh(hasReloader), run);
            (s.Up? && id in s.jobs && s.jobs[id].status.Succeeded?) || (exists r :: r in s.table && r.id == id && r.status.Succeeded?) ==>
              Activated(s.log, id, s.hasReloader)
  {
    FreshInv(hasReloader);
    RunKeepsSuccess(Fresh(hasReloader), run);
  }

  // ------------------------------------------------------------- phases in order

  /** The status changes a reader of the job record may see; only a process that is stopping puts a job back. */
  predicate Moves(before: Job, after: Job, cancelled: bool) {
    || after == before
    || (before.status.Queued? && after.status.Running? && after.phase.Refreshing?)
    || (before.status.Running? && before.phase.Refreshing? && after.status.Running? && after.phase.Reloading?)
    || (before.status.Running? && before.phase.Reloading? && after.status.Succeeded? && after.phase.Complete?)
    || (Active(before) && after.status.Failed?)
    || (cancelled && before.status.Running? && after.status.Queued? && after.phase.PhaseQueued?)
  }

  /** How the record in memory and the one the worker holds relate, stage by stage. */
  ghost predicate StageMoves(known: Job, job: Job, stage: Stage, cancelled: bool) {
    match stage
    case Starting => known.status.Queued? && job.phase.Refreshing?
    case Refreshing => known.status.Running? && known.phase.Refreshing? && job.phase.Refreshing?
    case Noting => known.status.Running? && known.phase.Refreshing? && job.phase.Reloading?
    case Reloading => known.status.Running? && known.phase.Reloading? && job.phase.Reloading?
    case Settling(failure) =>
      known.status.Running? && (failure.None? ==> known.phase.Reloading?)
    case Completing => known.status.Running? && known.phase.Reloading? && job.phase.Complete?
    case Requeueing => known.status.Running? && job.phase.PhaseQueued? && cancelled
    case Publishing(stored, after) => Moves(known, stored, cancelled) && stored == job.(updatedAt := stored.updatedAt) &&
      (after.ToRefreshing? ==> job.status.Running? && job.phase.Refreshing?) &&
      (after.ToReloading? ==> job.status.Running? && job.phase.Reloading?) &&
      (after.ToStopped? ==> cancelled)
    case _ => true
  }

  ghost predicate PhaseInv(s: State) {
    s.Up? && s.worker.Holding? ==>
      s.worker.job.id in s.jobs && StageMoves(s.jobs[s.worker.job.id], s.worker.job, s.worker.stage, s.cancelled)
  }

  lemma MemoryKeepsPhases(s: State, a: Action)
    requires s.Up? && QueueInv(s) && AdmissionInv(s) && KeysInv(s) && PhaseInv(s)
    requires Enabled(s, a) && (a.ForgetVictim? || a.AdmitInsert?)
    ensures PhaseInv(Do(s, a))
  {
  }

  lemma QuietKeepsPhases(s: State, a: Action)
    requires s.Up? && PhaseInv(s) && Enabled(s, a) && !IsWorkerAction(a) && !a.ForgetVictim? && !a.AdmitInsert?
    ensures PhaseInv(Do(s, a))
  {
  }

  lemma PopKeepsPhases(s: State)
    requires s.Up? && s.queue != [] && s.queue[0] in s.jobs && s.jobs[s.queue[0]].status.Queued? && s.jobs[s.queue[0]].id == s.queue[0]
    ensures PhaseInv(Pop(s))
  {
  }

  lemma SaveHeldKeepsPhases(s: State, now: int)
    requires s.Up? && Saving(s.worker) && WorkerInv(s) && PhaseInv(s) && s.worker.job.id in s.jobs && Active(s.jobs[s.worker.job.id])
    ensures PhaseInv(SaveHeld(s, now))
  {
  }

  lemma SaveKeepsPhases(s: State, a: Action)
    requires s.Up? && QueueInv(s) && MemoryInv(s) && WorkerInv(s) && PhaseInv(s) && Enabled(s, a) && (a.SaveRecord? || a.PopOrPark?)
    ensures PhaseInv(Do(s, a))
  {
    if a.PopOrPark? {
      if s.queue != [] {
        assert s.queue[0] in s.queue;
        PopKeepsPhases(s);
      }
    } else if a.ok {
      SaveHeldKeepsPhases(s, a.now);
    }
  }

  lemma MoveKeepsPhases(s: State, a: Action)
    requires s.Up? && WorkerInv(s) && PhaseInv(s) && Enabled(s, a) && IsWorkerAction(a) && !a.SaveRecord? && !a.PopOrPark?
    ensures PhaseInv(Do(s, a))
  {
  }

  lemma StepKeepsPhases(s: State, a: Action)
    requires Inv(s) && PhaseInv(s) && Enabled(s, a)
    ensures PhaseInv(Do(s, a))
  {
    if s.Up? {
      if a.SaveRecord? || a.PopOrPark? {
        SaveKeepsPhases(s, a);
      } else if IsWorkerAction(a) {
        MoveKeepsPhases(s, a);
      } else if a.ForgetVictim? || a.AdmitInsert? {
        MemoryKeepsPhases(s, a);
      } else {
        QuietKeepsPhases(s, a);
      }
    }
  }

  lemma {:induction false} RunKeepsPhases(s: State, run: seq<Action>)
    requires Inv(s) && PhaseInv(s) && IsRun(s, run)
    ensures PhaseInv(Final(s, run))
    decreases |run|
  {
    if run != [] {
      StepKeepsInv(s, run[0]);
      StepKeepsPhases(s, run[0]);
      RunKeepsPhases(Do(s, run[0]), run[1..]);
    }
  }

  /** In a live process records move only along the documented phases, and finished ones never move. */
  lemma PhasesInOrder(hasReloader: bool, run: seq<Action>, a: Action, id: JobId)
    requires IsRun(Fresh(hasReloader), run)
    requires var s := Final(Fresh(hasReloader), run);
             && s.Up? && Enabled(s, a) && Do(s, a).Up? && id in s.jobs && id in Do(s, a).jobs
    ensures var s := Final(Fresh(hasReloader), run);
            Moves(s.jobs[id], Do(s, a).jobs[id], s.cancelled)
  {
    var s := Final(Fresh(hasReloader), run);
    FreshInv(hasReloader);
    RunKeepsInv(Fresh(hasReloader), run);
    RunKeepsPhases(Fresh(hasReloader), run);
    StepMoves(s, a, id);
  }

  lemma StepMoves(s: State, a: Action, id: JobId)
    requires s.Up? && QueueInv(s) && WorkerInv(s) && AdmissionInv(s) && KeysInv(s) && PhaseInv(s)
    requires Enabled(s, a) && Do(s, a).Up? && id in s.jobs && id in Do(s, a).jobs
    ensures Moves(s.jobs[id], Do(s, a).jobs[id], s.cancelled)
  {
    if !TouchesMemory(a) {
      OtherStepsKeepMemory(s, a);
      hide QueueInv, WorkerInv, AdmissionInv, KeysInv, PhaseInv, Do, Enabled;
    }
  }

  // ---------------------------------------------------------- one refresh at a time

  /** A refresh call has begun and neither returned nor died with its process. */
  predicate CallOpen(log: seq<Event>) {
    if log == [] then false
    else
      var last := log[|log| - 1];
      if last.RefreshBegan? then true
      else if last.RefreshEnded? || last.Restarted? then false
      else CallOpen(log[..|log| - 1])
  }

  /** No refresh call begins while another one is open. */
  predicate Serial(log: seq<Event>) {
    log == [] || (Serial(log[..|log| - 1]) && (log[|log| - 1].RefreshBegan? ==> !CallOpen(log[..|log| - 1])))
  }

  ghost predicate SerialInv(s: State) {
    && Serial(s.log)
    && (s.Up? ==> (CallOpen(s.log) <==> s.worker.Holding? && s.worker.stage.Refreshing?))
  }

  lemma LogAppend(log: seq<Event>, e: Event)
    requires Serial(log) && (e.RefreshBegan? ==> !CallOpen(log))
    ensures Serial(log + [e])
    ensures CallOpen(log + [e]) <==> e.RefreshBegan? || (e.ReloadEnded? && CallOpen(log))
  {
    assert (log + [e])[..|log|] == log;
  }

  lemma StepKeepsSerial(s: State, a: Action)
    requires SerialInv(s) && Enabled(s, a)
    ensures SerialInv(Do(s, a))
  {
    hide Serial, CallOpen;
    match a
    case Publish => LogIfBegan(s);
    case RefreshReturns(outcome, _) => LogAppend(s.log, RefreshEnded(s.worker.job.id, outcome.Some?));
    case ReloadReturns(ok, _) => LogAppend(s.log, ReloadEnded(s.worker.job.id, ok));
    case Recover(_) => LogAppend(s.log, Restarted);
    case _ => assert Do(s, a).log == s.log;
  }

  lemma LogIfBegan(s: State)
    requires SerialInv(s) && s.Up? && Publishes(s.worker)
    ensures SerialInv(PublishHeld(s))
  {
    if s.worker.stage.after.ToRefreshing? {
      LogAppend(s.log, RefreshBegan(s.worker.stage.stored.id));
    } else {
      assert PublishHeld(s).log == s.log;
    }
  }

  lemma {:induction false} RunKeepsSerial(s: State, run: seq<Action>)
    requires SerialInv(s) && IsRun(s, run)
    ensures SerialInv(Final(s, run))
    decreases |run|
  {
    if run != [] {
      StepKeepsSerial(s, run[0]);
      RunKeepsSerial(Do(s, run[0]), run[1..]);
    }
  }

  /** Over any run no two refresh calls overlap. */
  lemma RefreshesAreSerial(hasReloader: bool, run: seq<Action>)
    requires IsRun(Fresh(hasReloader), run)
    ensures Serial(Final(Fresh(hasReloader), run).log)
  {
    RunKeepsSerial(Fresh(hasReloader), run);
  }
}
