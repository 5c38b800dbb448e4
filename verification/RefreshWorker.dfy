/**
 * What the worker does with one job, from taking it to being done with it, as a
 * run of the step machine, and how the job ends.
 */
module RefreshWorker {
  import opened Options
  import opened JobTable
  import opened RefreshProtocol
  import opened RefreshInvariants
  import opened RefreshJobs

  /** What the list service, the reloader, the store and the owner of the process do meanwhile. */
  datatype WorkEnv = WorkEnv(
    runningSaved: bool,
    refreshed: Option<int>, refreshError: string,
    phaseSaved: bool,
    reloaded: bool, reloadError: string,
    cancelsEarly: bool, cancels: bool,
    endSaved: bool, failureSaved: bool,
    saveError: string, now: int)

  /** What went wrong first on the way of a job that nobody stopped, in words. */
  function Reason(hasReloader: bool, env: WorkEnv): Option<string> {
    if !env.runningSaved then Some(env.saveError)
    else if CallFailure(hasReloader, env).Some? then CallFailure(hasReloader, env)
    else if !env.endSaved then Some(env.saveError)
    else None
  }

  /** The same of the refresh and the reload alone. */
  function CallFailure(hasReloader: bool, env: WorkEnv): Option<string> {
    if env.refreshed.None? then Some(env.refreshError)
    else if !env.phaseSaved then Some(env.saveError)
    else if hasReloader && !env.reloaded then Some(env.reloadError)
    else None
  }

  /** The list that the refresh returned, once there is one. */
  function Refreshed(job: Job, env: WorkEnv): Option<int> {
    if env.runningSaved && env.refreshed.Some? then env.refreshed else job.result
  }

  /** The phase at which the failure strikes. */
  function FailedAt(job: Job, hasReloader: bool, env: WorkEnv): Phase {
    if !env.runningSaved || env.refreshed.None? then job.phase
    else if !env.phaseSaved || (hasReloader && !env.reloaded) then Phase.Reloading
    else Complete
  }

  ghost predicate SameJob(rec: Job, job: Job) {
    rec.id == job.id && rec.listId == job.listId && rec.createdAt == job.createdAt
  }

  /** The error text of a failure, with the reason it could not be saved, if so. */
  function ErrorText(reason: string, env: WorkEnv): string {
    if env.failureSaved then reason else reason + "; job persistence: " + env.saveError
  }

  /** The record of a failed job. */
  ghost predicate EndsFailed(rec: Job, job: Job, reason: string, phase: Phase, env: WorkEnv) {
    && SameJob(rec, job) && rec.status == Failed && rec.phase == phase
    && rec.error == ErrorText(reason, env)
    && rec.updatedAt == if env.failureSaved then env.now else job.updatedAt
  }

  /** The record of a job whose turn is over and that nobody stopped. */
  ghost predicate Ended(rec: Job, job: Job, hasReloader: bool, env: WorkEnv) {
    && rec.result == Refreshed(job, env)
    && match Reason(hasReloader, env)
       case None =>
         && SameJob(rec, job) && rec.status == Succeeded && rec.phase == Complete
         && rec.error == job.error && rec.updatedAt == env.now
       case Some(reason) =>
         EndsFailed(rec, job, reason, FailedAt(job, hasReloader, env), env)
  }

  /** The record of a job that has got through its calls, with or without a failure. */
  ghost predicate Concluded(rec: Job, job: Job, failure: Option<string>, env: WorkEnv) {
    && rec.result == job.result
    && match failure
       case Some(reason) => EndsFailed(rec, job, reason, job.phase, env)
       case None =>
         if env.endSaved
         then && SameJob(rec, job) && rec.status == Succeeded && rec.phase == Complete
              && rec.error == job.error && rec.updatedAt == env.now
         else EndsFailed(rec, job, env.saveError, Complete, env)
  }

  /** The last record of a turn that nobody stopped gets to the table. */
  predicate Durable(failure: Option<string>, env: WorkEnv) {
    (failure.None? && env.endSaved) || env.failureSaved
  }

  /** The record as a stopping process leaves it for the next one. */
  function PutBack(job: Job, now: int): Job {
    Job(job.id, job.listId, Queued, PhaseQueued, job.createdAt, now, "", job.result)
  }

  predicate Quiet(a: Action) {
    a.RefreshReturns? || a.ReloadReturns? || a.Settle?
  }

  /** A step that the worker can take where it is. */
  predicate Next(w: Worker, a: Action) {
    && Quiet(a) && w.Holding?
    && (a.RefreshReturns? ==> w.stage.Refreshing?) && (a.ReloadReturns? ==> w.stage.Reloading?) && (a.Settle? ==> w.stage.Settling?)
  }

  /** Where such a step leaves the worker. */
  ghost function WorkerAfter(w: Worker, a: Action, cancelled: bool): Worker
    requires Next(w, a)
  {
    match a
    case RefreshReturns(outcome, failure) =>
      if outcome.Some? then Holding(w.job.(result := outcome, phase := Phase.Reloading), Noting)
      else Holding(w.job, Settling(Some(failure)))
    case ReloadReturns(ok, failure) => Holding(w.job, Settling(if ok then None else Some(failure)))
    case _ => Settled(w, cancelled)
  }

  /** A step that only moves the worker and the log. */
  ghost method Advance(r: RefreshJobs, a: Action, before: State, path: seq<Action>) returns (longer: seq<Action>)
    requires r.Valid() && Next(r.worker, a) && Took(before, path, r.View())
    modifies r`log, r`worker
    ensures r.Valid() && longer == path + [a] && Took(before, longer, r.View())
    ensures r.worker == WorkerAfter(old(r.worker), a, r.cancelled)
  {
    hide Inv, Took;
    var s := r.View();
    var step := OneStep(s, a);
    longer := Chain(before, path, s, step, Do(s, a));
    r.log := Do(s, a).log;
    r.worker := Do(s, a).worker;
  }

  /** The process may be told to stop at any moment; the worker finds out when it looks. */
  method MaybeCancel(r: RefreshJobs, cancels: bool, ghost before: State, ghost path: seq<Action>) returns (ghost longer: seq<Action>)
    requires r.Valid() && Took(before, path, r.View())
    modifies r`cancelled
    ensures r.Valid() && Took(before, longer, r.View())
    ensures r.cancelled == (old(r.cancelled) || cancels)
  {
    hide Inv, Took;
    longer := path;
    if cancels {
      ghost var s := r.View();
      longer := Chain(before, path, s, OneStep(s, Cancel), Do(s, Cancel));
      r.cancelled := true;
    }
  }

  method Save(r: RefreshJobs, job: Job, now: int, works: bool, ghost failure: string, ghost before: State, ghost path: seq<Action>)
      returns (ok: bool, ghost longer: seq<Action>)
    requires r.Valid() && Saving(r.worker) && r.worker.job == job && Took(before, path, r.View())
    modifies r, r.store
    ensures r.Valid() && ok == works && Took(before, longer, r.View())
    ensures r.queue == old(r.queue) && r.cancelled == old(r.cancelled)
    ensures r.worker == if works then AfterPublish(Holding(job, Publishing(job, AfterSave(old(r.worker)))), r.hasReloader)
                        else SaveFailed(old(r.worker), failure)
    ensures works ==> job.id in r.jobs && r.jobs[job.id] == job.(updatedAt := now)
    ensures r.store.rows == if works then Upsert(old(r.store.rows), job.(updatedAt := now)) else old(r.store.rows)
    ensures if works then r.jobs == old(r.jobs)[job.id := job.(updatedAt := now)] else r.jobs == old(r.jobs)
  {
    hide Inv, Took;
    ghost var s := r.View();
    ghost var step;
    ok, step := r.Update(job, now, works, failure);
    longer := Chain(before, path, s, step, r.View());
  }

  method GiveUp(r: RefreshJobs, job: Job, env: WorkEnv, ghost before: State, ghost path: seq<Action>) returns (ghost longer: seq<Action>)
    requires r.Valid() && r.worker == Holding(job, Failing) && Took(before, path, r.View())
    modifies r, r.store
    ensures r.Valid() && r.worker.Looping? && Took(before, longer, r.View())
    ensures r.queue == old(r.queue) && r.cancelled == old(r.cancelled)
    ensures job.id in r.jobs && r.jobs == old(r.jobs)[job.id := r.jobs[job.id]]
    ensures r.jobs[job.id] == if env.failureSaved then job.(updatedAt := env.now) else job.(error := ErrorText(job.error, env))
    ensures r.store.rows == if env.failureSaved then Upsert(old(r.store.rows), job.(updatedAt := env.now)) else old(r.store.rows)
  {
    hide Inv, Took;
    ghost var s := r.View();
    ghost var step := r.Fail(job, env.now, env.failureSaved, env.saveError);
    longer := Chain(before, path, s, step, r.View());
  }

  /** The refresh, and the reload if it went well: everything up to the look at the context. */
  method RefreshAndReload(r: RefreshJobs, job: Job, hasReloader: bool, env: WorkEnv, ghost before: State, ghost path: seq<Action>)
      returns (done: Job, failure: Option<string>, ghost longer: seq<Action>)
    requires r.Valid() && r.worker == Holding(job, Stage.Refreshing) && hasReloader == r.hasReloader
    requires Took(before, path, r.View())
    modifies r, r.store
    ensures r.Valid() && Took(before, longer, r.View())
    ensures r.worker == Holding(done, Settling(failure))
    ensures done == if env.refreshed.Some? then job.(result := env.refreshed, phase := Phase.Reloading) else job
    ensures r.queue == old(r.queue) && r.cancelled == old(r.cancelled)
    ensures failure == CallFailure(hasReloader, env)
    ensures r.jobs == if env.refreshed.Some? && env.phaseSaved then old(r.jobs)[job.id := done.(updatedAt := env.now)] else old(r.jobs)
  {
    hide Inv, Took, RefreshJobs.Valid, RefreshJobs.View;
    done := job;
    longer := Advance(r, RefreshReturns(env.refreshed, env.refreshError), before, path);
    if env.refreshed.None? {
      return done, Some(env.refreshError), longer;
    }
    done := job.(result := env.refreshed, phase := Phase.Reloading);
    var saved;
    saved, longer := Save(r, done, env.now, env.phaseSaved, env.saveError, before, longer);
    if !saved {
      return done, Some(env.saveError), longer;
    }
    failure := None;
    if hasReloader {
      longer := Advance(r, ReloadReturns(env.reloaded, env.reloadError), before, longer);
      if !env.reloaded { failure := Some(env.reloadError); }
    }
  }

  /** Succeeded, if that can be saved. */
  method Succeed(r: RefreshJobs, job: Job, env: WorkEnv, ghost before: State, ghost path: seq<Action>)
      returns (ghost longer: seq<Action>)
    requires r.Valid() && r.worker == Holding(job.(status := Succeeded, phase := Complete), Completing)
    requires Took(before, path, r.View())
    modifies r, r.store
    ensures r.Valid() && r.worker.Looping? && Took(before, longer, r.View())
    ensures r.queue == old(r.queue) && r.cancelled == old(r.cancelled)
    ensures job.id in r.jobs && Concluded(r.jobs[job.id], job, None, env)
    ensures r.jobs == old(r.jobs)[job.id := r.jobs[job.id]]
    ensures Durable(None, env) ==> r.store.rows == Upsert(old(r.store.rows), r.jobs[job.id])
  {
    hide Inv, Took, Upsert;
    var saved;
    var finished := job.(status := Succeeded, phase := Complete);
    saved, longer := Save(r, finished, env.now, env.endSaved, env.saveError, before, path);
    if !saved {
      longer := GiveUp(r, FailedJob(finished, env.saveError), env, before, longer);
    }
  }

  /** The end of a job: requeued when the process stops, failed, or succeeded if that can be saved. */
  method Conclude(r: RefreshJobs, job: Job, failure: Option<string>, env: WorkEnv, ghost before: State, ghost path: seq<Action>)
      returns (ghost longer: seq<Action>)
    requires r.Valid() && r.worker == Holding(job, Settling(failure)) && Took(before, path, r.View())
    modifies r, r.store
    ensures r.Valid() && (r.worker.Looping? || r.worker.Stopped?) && Took(before, longer, r.View())
    ensures r.queue == old(r.queue)
    ensures (r.worker.Stopped? <==> r.cancelled) && r.cancelled == (old(r.cancelled) || env.cancels)
    ensures r.worker.Looping? ==>
              && job.id in r.jobs && Concluded(r.jobs[job.id], job, failure, env)
              && r.jobs == old(r.jobs)[job.id := r.jobs[job.id]]
              && (Durable(failure, env) ==> r.store.rows == Upsert(old(r.store.rows), r.jobs[job.id]))
    ensures r.worker.Stopped? && env.endSaved ==>
              && job.id in r.jobs && r.jobs[job.id] == PutBack(job, env.now)
              && r.store.rows == Upsert(old(r.store.rows), r.jobs[job.id])
    ensures r.worker.Stopped? ==> r.jobs == if env.endSaved then old(r.jobs)[job.id := PutBack(job, env.now)] else old(r.jobs)
  {
    hide Inv, Took, Upsert;
    longer := MaybeCancel(r, env.cancels, before, path);
    longer := Advance(r, Settle, before, longer);
    var saved;
    if r.cancelled {
      var requeued := job.(status := Queued, phase := PhaseQueued, error := "");
      saved, longer := Save(r, requeued, env.now, env.endSaved, env.saveError, before, longer);
    } else if failure.Some? {
      longer := GiveUp(r, FailedJob(job, failure.value), env, before, longer);
    } else {
      longer := Succeed(r, job, env, before, longer);
    }
  }

  /** A job whose first save fails has ended with that failure. */
  lemma EndedUnsaved(rec: Job, job: Job, hasReloader: bool, env: WorkEnv)
    requires !env.runningSaved
    requires rec == if env.failureSaved then FailedJob(job, env.saveError).(updatedAt := env.now)
                    else FailedJob(job, env.saveError).(error := ErrorText(env.saveError, env))
    ensures Ended(rec, job, hasReloader, env)
  {
  }

  /**
   * One turn of the worker's inner loop. It is a run of the step machine that
   * leaves the queue and the other records alone. The job succeeds exactly if
   * its own refresh, its own reload and every save of it went through and nobody
   * stopped the process; its record has the list that the refresh returned, and
   * the words of what went wrong first.
   */
  method RunJob(r: RefreshJobs, job: Job, hasReloader: bool, env: WorkEnv) returns (stopped: bool, ghost path: seq<Action>)
    requires r.Valid() && r.worker == Holding(job, Starting) && hasReloader == r.hasReloader
    modifies r, r.store
    ensures r.Valid() && (if stopped then r.worker.Stopped? else r.worker.Looping?)
    ensures Took(old(r.View()), path, r.View())
    ensures r.queue == old(r.queue)
    ensures r.cancelled == (old(r.cancelled) || env.cancelsEarly || (env.runningSaved && env.cancels))
    ensures stopped <==> env.runningSaved && r.cancelled
    ensures !stopped ==>
              && job.id in r.jobs && Ended(r.jobs[job.id], job, hasReloader, env)
              && (Reason(hasReloader, env).None? || env.failureSaved ==> r.jobs[job.id] in r.store.rows)
    ensures stopped ==>
              && job.id in r.jobs && SameJob(r.jobs[job.id], job)
              && if env.endSaved
                 then r.jobs[job.id] == PutBack(job, env.now).(result := Refreshed(job, env)) && r.jobs[job.id] in r.store.rows
                 else r.jobs[job.id].status == job.status
    ensures r.jobs - {job.id} == old(r.jobs) - {job.id}
  {
    hide Inv, Took, Upsert, Ended, Concluded, RefreshJobs.View;
    ghost var before := r.View();
    path := MaybeCancel(r, env.cancelsEarly, before, Start(before));
    var saved;
    saved, path := Save(r, job, env.now, env.runningSaved, env.saveError, before, path);
    if !saved {
      ghost var rows := r.store.rows;
      path := GiveUp(r, FailedJob(job, env.saveError), env, before, path);
      EndedUnsaved(r.jobs[job.id], job, hasReloader, env);
      UpsertHas(rows, r.jobs[job.id]);
      return false, path;
    }
    stopped, path := CarryOn(r, job, hasReloader, env, before, path);
  }

  /** The turn from the refresh on. */
  method CarryOn(r: RefreshJobs, job: Job, hasReloader: bool, env: WorkEnv, ghost before: State, ghost path: seq<Action>)
      returns (stopped: bool, ghost longer: seq<Action>)
    requires env.runningSaved && r.Valid() && r.worker == Holding(job, Stage.Refreshing) && hasReloader == r.hasReloader
    requires Took(before, path, r.View()) && job.id in r.jobs && r.jobs[job.id] == job.(updatedAt := env.now)
    modifies r, r.store
    ensures r.Valid() && (if stopped then r.worker.Stopped? else r.worker.Looping?)
    ensures Took(before, longer, r.View()) && r.queue == old(r.queue)
    ensures stopped == r.cancelled && r.cancelled == (old(r.cancelled) || env.cancels)
    ensures !stopped ==>
              && job.id in r.jobs && Ended(r.jobs[job.id], job, hasReloader, env)
              && (Reason(hasReloader, env).None? || env.failureSaved ==> r.jobs[job.id] in r.store.rows)
    ensures stopped ==>
              && job.id in r.jobs && SameJob(r.jobs[job.id], job)
              && if env.endSaved
                 then r.jobs[job.id] == PutBack(job, env.now).(result := Refreshed(job, env)) && r.jobs[job.id] in r.store.rows
                 else r.jobs[job.id].status == job.status
    ensures r.jobs - {job.id} == old(r.jobs) - {job.id}
  {
    hide Inv, Took, Upsert, Ended, Concluded, RefreshJobs.Valid, RefreshJobs.View;
    var done, failure;
    done, failure, longer := RefreshAndReload(r, job, hasReloader, env, before, path);
    ghost var rows := r.store.rows;
    longer := Conclude(r, done, failure, env, before, longer);
    UpsertHas(rows, r.jobs[job.id]);
    if !r.cancelled {
      ConcludedEnds(r.jobs[job.id], job, done, hasReloader, env);
    }
    stopped := r.cancelled;
  }

  lemma ConcludedEnds(rec: Job, job: Job, done: Job, hasReloader: bool, env: WorkEnv)
    requires env.runningSaved
    requires done == if env.refreshed.Some? then job.(result := env.refreshed, phase := Phase.Reloading) else job
    requires Concluded(rec, done, CallFailure(hasReloader, env), env)
    ensures Ended(rec, job, hasReloader, env)
  {
  }

  lemma {:induction false} UpsertHas(rows: seq<Job>, job: Job)
    ensures job in Upsert(rows, job)
  {
    if rows != [] && rows[0].id != job.id {
      UpsertHas(rows[1..], job);
    }
  }

  // ------------------------------------------------------------------- the process

  /**
   * A new process on the table that an earlier one left: load, save what was
   * unfinished, construct, signal. If the rows cannot be read nothing changes; if
   * a save fails, the table is as the failed recovery leaves it.
   */
  method NewRefreshJobs(store: JobStore, ghost before: State, now: int, loads: bool, failAt: Option<nat>)
      returns (r: RefreshJobs?, ghost path: seq<Action>)
    requires before.Down? && Inv(before) && store.rows == before.table
    modifies store
    ensures r == null <==> !loads || (failAt.Some? && failAt.value < |Unfinished(ResetRows(before.table, now))|)
    ensures r == null ==> IsRun(before, path) && Final(before, path).Down? && store.rows == Final(before, path).table
    ensures r != null ==>
              && fresh(r) && r.store == store && r.Valid() && Took(before, path, r.View())
              && r.worker.Parked? && r.wake && !r.boot && !r.cancelled && r.queue == ActiveIds(before.table)
              && r.hasReloader == before.hasReloader
  {
    hide Inv, Took, ResetRows, Unfinished, ActiveIds, JobsOf;
    path := [];
    if !loads { return null, path; }
    var jobs, queue, recovered := RefreshJobs.Load(store.rows, now);
    assert DistinctIds(before.table) by { DownIsDistinct(before); }
    var ok;
    ghost var done;
    ok, done := RefreshJobs.SaveRecovered(store, recovered, now, failAt);
    if !ok {
      path := [RecoverFails(done, now)];
      FailedRecovery(before, done, now);
      return null, path;
    }
    var made := new RefreshJobs(store, jobs, queue, before, now);
    ghost var s := made.View();
    ghost var recover := OneStep(before, Recover(now));
    ghost var start := made.StartWorker();
    path := Chain(before, recover, s, start, made.View());
    r := made;
  }

  lemma DownIsDistinct(s: State)
    requires Inv(s)
    ensures DistinctIds(s.table)
  {
  }

  lemma FailedRecovery(before: State, done: nat, now: int)
    requires before.Down? && done <= |before.table|
    ensures IsRun(before, [RecoverFails(done, now)])
    ensures Final(before, [RecoverFails(done, now)]) ==
            before.(table := ResetRows(before.table[..done], now) + before.table[done..])
  {
    assert [RecoverFails(done, now)][1..] == [];
  }

  /** The worker took these jobs off the queue, and each ended as its own calls went. */
  ghost predicate AllEnded(before: map<JobId, Job>, after: map<JobId, Job>, ids: seq<JobId>, hasReloader: bool, envs: seq<WorkEnv>)
    requires |ids| <= |envs|
  {
    forall i :: 0 <= i < |ids| ==>
      && ids[i] in before && ids[i] in after
      && Ended(after[ids[i]], before[ids[i]].(status := Running, phase := Phase.Refreshing), hasReloader, envs[i])
  }

  lemma NoneEnded(before: map<JobId, Job>, after: map<JobId, Job>, hasReloader: bool, envs: seq<WorkEnv>)
    ensures AllEnded(before, after, [], hasReloader, envs)
  {
  }

  /** One more of them, and none of the records before it changed. */
  lemma OneMoreEnded(start: map<JobId, Job>, before: map<JobId, Job>, after: map<JobId, Job>, ids: seq<JobId>, k: nat,
                     hasReloader: bool, envs: seq<WorkEnv>)
    requires k < |ids| <= |envs| && Distinct(ids) && AllEnded(start, before, ids[..k], hasReloader, envs)
    requires forall i :: k <= i < |ids| ==> ids[i] in start && ids[i] in before && before[ids[i]] == start[ids[i]]
    requires after - {ids[k]} == before - {ids[k]} && ids[k] in after
    requires Ended(after[ids[k]], before[ids[k]].(status := Running, phase := Phase.Refreshing), hasReloader, envs[k])
    ensures AllEnded(start, after, ids[..k + 1], hasReloader, envs)
    ensures forall i :: k < i < |ids| ==> ids[i] in after && after[ids[i]] == start[ids[i]]
  {
    hide Ended;
    forall id | id != ids[k] && id in before ensures id in after && after[id] == before[id] {
      assert id in before - {ids[k]};
      assert id in after - {ids[k]} && (after - {ids[k]})[id] == (before - {ids[k]})[id];
    }
  }

  /** The look at an empty queue. */
  method Park(r: RefreshJobs, ghost before: State, ghost path: seq<Action>) returns (ghost longer: seq<Action>)
    requires r.Valid() && r.worker.Acquiring? && r.queue == [] && Took(before, path, r.View())
    modifies r
    ensures r.Valid() && Took(before, longer, r.View()) && r.worker.Parked?
    ensures r.queue == [] && r.jobs == old(r.jobs) && r.cancelled == old(r.cancelled) && ActiveSet(r.jobs) == {}
  {
    hide Inv, Took;
    ghost var s := r.View();
    ghost var step := OneStep(s, PopOrPark);
    var job := r.PopNext();
    longer := Chain(before, path, s, step, r.View());
    ParkedIsDone(r.View());
  }

  /** The head of the queue, and its turn. */
  method TakeTurn(r: RefreshJobs, hasReloader: bool, env: WorkEnv, ghost before: State, ghost path: seq<Action>)
      returns (stopped: bool, ghost longer: seq<Action>)
    requires r.Valid() && r.worker.Acquiring? && r.queue != [] && hasReloader == r.hasReloader
    requires Took(before, path, r.View())
    modifies r, r.store
    ensures r.Valid() && Took(before, longer, r.View()) && r.queue == old(r.queue)[1..]
    ensures if stopped then r.worker.Stopped? && r.cancelled else r.worker.Looping?
    ensures !stopped ==>
              var id := old(r.queue)[0];
              && id in old(r.jobs) && id in r.jobs && r.jobs - {id} == old(r.jobs) - {id}
              && Ended(r.jobs[id], old(r.jobs)[id].(status := Running, phase := Phase.Refreshing), hasReloader, env)
  {
    hide Inv, Took, Ended;
    KeysAreIds(r.View());
    ghost var s := r.View();
    ghost var step := OneStep(s, PopOrPark);
    var job := r.PopNext();
    longer := Chain(before, path, s, step, r.View());
    s := r.View();
    stopped, step := RunJob(r, job.value, hasReloader, env);
    longer := Chain(before, longer, s, step, r.View());
  }

  lemma KeysAreIds(s: State)
    requires Inv(s) && s.Up?
    ensures forall id :: id in s.jobs ==> s.jobs[id].id == id
  {
  }

  /**
   * All that the worker does between two parkings. Unless the process is stopped
   * it comes back with an empty queue, every queued job has ended as its own
   * refresh, reload and saves went, and no job is unfinished.
   */
  method WakeUp(r: RefreshJobs, hasReloader: bool, envs: seq<WorkEnv>) returns (stopped: bool, ghost path: seq<Action>)
    requires r.Valid() && r.worker.Parked? && r.wake && hasReloader == r.hasReloader && |envs| >= |r.queue|
    modifies r, r.store
    ensures r.Valid() && Took(old(r.View()), path, r.View())
    ensures if stopped then r.worker.Stopped? && r.cancelled else r.worker.Parked?
    ensures !r.cancelled ==> r.queue == [] && ActiveSet(r.jobs) == {}
    ensures !r.cancelled ==> AllEnded(old(r.jobs), r.jobs, old(r.queue), hasReloader, envs)
  {
    hide Inv, Took, Ended, AllEnded;
    ghost var before := r.View();
    ghost var start, ids := r.jobs, r.queue;
    QueueIsKnown(before);
    path := r.TakeWake();
    var k := 0;
    NoneEnded(start, r.jobs, hasReloader, envs);
    assert ids[..0] == [];
    while true
      invariant r.Valid() && r.worker.Looping? && Took(before, path, r.View()) && hasReloader == r.hasReloader
      invariant 0 <= k <= |ids| && r.queue == ids[k..]
      invariant AllEnded(start, r.jobs, ids[..k], hasReloader, envs)
      invariant forall i :: k <= i < |ids| ==> ids[i] in r.jobs && r.jobs[ids[i]] == start[ids[i]]
      decreases |r.queue|
    {
      ghost var s := r.View();
      ghost var step;
      var goesOn;
      goesOn, step := r.CheckContext();
      path := Chain(before, path, s, step, r.View());
      if !goesOn {
        return false, path;
      }
      ghost var held := r.jobs;
      if r.queue == [] {
        path := Park(r, before, path);
        assert ids[..k] == ids;
        return false, path;
      }
      stopped, path := TakeTurn(r, hasReloader, envs[k], before, path);
      if stopped {
        return true, path;
      }
      OneMoreEnded(start, held, r.jobs, ids, k, hasReloader, envs);
      k := k + 1;
    }
  }

  lemma QueueIsKnown(s: State)
    requires Inv(s) && s.Up?
    ensures Distinct(s.queue) && forall i :: 0 <= i < |s.queue| ==> s.queue[i] in s.jobs
  {
    forall i | 0 <= i < |s.queue| ensures s.queue[i] in s.jobs {
      assert s.queue[i] in s.queue;
    }
  }

  lemma ParkedIsDone(s: State)
    requires Inv(s) && s.Up? && s.worker.Parked? && s.queue == []
    ensures ActiveSet(s.jobs) == {}
  {
    assert QueueInv(s) && Held(s.worker).None?;
  }
}
