/**
 * The background refresh protocol as a step machine: submitters that enter one
 * critical section, one worker goroutine, a one-slot wake channel and the
 * durable job table. Every save may succeed or fail, the process may be
 * cancelled or crash between any two steps, and a restart recovers the table.
 */
module RefreshProtocol {
  import opened Options
  import opened JobTable

  const MAX_ACTIVE: nat := 64
  const MAX_RECORDS: nat := 256

  /** How far the submitter that holds the mutex has got. */
  datatype Admission =
    | NoAdmission
    | Evicting(listId: int, victim: JobId)  // victim's row is gone, memory still holds it
    | Evicted(listId: int)
    | Admitting(job: Job)                   // about to save the new record
    | Admitted(job: Job)                    // saved, not yet in memory
    | Inserted(job: Job)                    // in memory and queued, not yet signalled

  /** Where the worker goes once a saved record has been copied to memory. */
  datatype After = ToRefreshing | ToReloading | ToLoop | ToStopped

  /** What the worker is doing with the job it holds. */
  datatype Stage =
    | Starting
    | Refreshing
    | Noting                             // refreshed; phase reloading not saved yet
    | Reloading
    | Settling(failure: Option<string>)
    | Completing
    | Requeueing
    | Failing
    | FailedUnsaved
    | Publishing(stored: Job, after: After)  // saved under the mutex, not yet in memory

  /** The worker's program counter. */
  datatype Worker =
    | Parked
    | Looping
    | Acquiring
    | Holding(job: Job, stage: Stage)
    | Stopped(unfinished: Option<Job>)

  datatype Event =
    | Restarted
    | RefreshBegan(id: JobId)
    | RefreshEnded(id: JobId, ok: bool)
    | ReloadEnded(id: JobId, ok: bool)

  /** `used` lists every id ever drawn for a job, in the order of the submissions. */
  datatype State =
    | Down(table: seq<Job>, used: seq<JobId>, log: seq<Event>, hasReloader: bool)
    | Up(
        table: seq<Job>,
        used: seq<JobId>,
        log: seq<Event>,
        hasReloader: bool,
        jobs: map<JobId, Job>,
        queue: seq<JobId>,
        wake: bool,
        boot: bool,        // the constructor has not signalled yet
        cancelled: bool,
        adm: Admission,
        worker: Worker)

  datatype Action =
    // a submitter, inside the critical section
    | SubmitEvict(listId: int, victim: JobId)
    | ForgetVictim
    | SubmitCreate(listId: int, id: JobId, now: int)
    | CreateAfterEvict(id: JobId, now: int)
    | AdmitSave(ok: bool)
    | AdmitInsert
    | AdmitSignal
    | AdmitAbort
    // the worker
    | TakeWake
    | StopParked
    | CheckContext
    | PopOrPark
    | SaveRecord(ok: bool, now: int, failure: string)
    | Publish
    | RefreshReturns(outcome: Option<int>, failure: string)
    | ReloadReturns(ok: bool, failure: string)
    | Settle
    | FailInMemory(failure: string)
    // the process
    | BootSignal
    | Cancel
    | Crash
    | RecoverFails(done: nat, now: int)
    | Recover(now: int)

  // ------------------------------------------------------------ transitions

  predicate MutexFree(s: State)
    requires s.Up?
  {
    s.adm.NoAdmission? && !Publishes(s.worker)
  }

  predicate Publishes(w: Worker) {
    w.Holding? && w.stage.Publishing?
  }

  predicate HasActiveFor(jobs: map<JobId, Job>, listId: int) {
    exists id :: id in jobs && Active(jobs[id]) && jobs[id].listId == listId
  }

  function ActiveSet(jobs: map<JobId, Job>): set<JobId> {
    set id | id in jobs && Active(jobs[id])
  }

  /** A finished record that no other finished record is older than. */
  predicate IsVictim(jobs: map<JobId, Job>, victim: JobId) {
    && victim in jobs && !Active(jobs[victim])
    && forall id :: id in jobs && !Active(jobs[id]) ==> jobs[victim].createdAt <= jobs[id].createdAt
  }

  predicate Admissible(s: State, listId: int)
    requires s.Up?
  {
    && MutexFree(s) && !s.boot && !s.cancelled
    && !HasActiveFor(s.jobs, listId)
    && |ActiveSet(s.jobs)| < MAX_ACTIVE
  }

  /** The stages at which the worker hands its record to `update`. */
  predicate Saving(w: Worker) {
    && w.Holding?
    && (w.stage.Starting? || w.stage.Noting? || w.stage.Completing? || w.stage.Requeueing? || w.stage.Failing?)
  }

  function AfterSave(w: Worker): After
    requires Saving(w)
  {
    match w.stage
    case Starting => ToRefreshing
    case Noting => ToReloading
    case Requeueing => ToStopped
    case _ => ToLoop
  }

  function FailedJob(job: Job, failure: string): Job {
    job.(status := Failed, error := failure)
  }

  /** What the worker does when a save returns an error. */
  function SaveFailed(w: Worker, failure: string): Worker
    requires Saving(w)
  {
    match w.stage
    case Starting => Holding(FailedJob(w.job, failure), Failing)
    case Noting => Holding(w.job, Settling(Some(failure)))
    case Completing => Holding(FailedJob(w.job, failure), Failing)
    case Requeueing => Stopped(Some(w.job))
    case Failing => Holding(w.job, FailedUnsaved)
  }

  function AfterPublish(w: Worker, hasReloader: bool): Worker
    requires Publishes(w)
  {
    match w.stage.after
    case ToRefreshing => Holding(w.job, Stage.Refreshing)
    case ToReloading => Holding(w.job, if hasReloader then Stage.Reloading else Settling(None))
    case ToLoop => Looping
    case ToStopped => Stopped(Some(w.job))
  }

  function ResetRow(row: Job, now: int): Job {
    if Active(row) then Requeued(row, now) else row
  }

  function ResetRows(rows: seq<Job>, now: int): seq<Job> {
    if rows == [] then [] else [ResetRow(rows[0], now)] + ResetRows(rows[1..], now)
  }

  /** The in-memory map the recovery loop builds from the rows. */
  function JobsOf(rows: seq<Job>): map<JobId, Job> {
    if rows == [] then map[] else JobsOf(rows[..|rows| - 1])[rows[|rows| - 1].id := rows[|rows| - 1]]
  }

  predicate Enabled(s: State, a: Action) {
    match a
    case SubmitEvict(listId, victim) =>
      s.Up? && Admissible(s, listId) && |s.jobs| >= MAX_RECORDS && IsVictim(s.jobs, victim)
    case ForgetVictim => s.Up? && s.adm.Evicting?
    case SubmitCreate(listId, id, now) =>
      && s.Up? && Admissible(s, listId) && id !in s.used
      && (|s.jobs| < MAX_RECORDS || forall known :: known in s.jobs ==> Active(s.jobs[known]))
    case CreateAfterEvict(id, now) => s.Up? && s.adm.Evicted? && id !in s.used
    case AdmitSave(ok) => s.Up? && s.adm.Admitting?
    case AdmitInsert => s.Up? && s.adm.Admitted?
    case AdmitSignal => s.Up? && s.adm.Inserted?
    case AdmitAbort => s.Up? && s.adm.Evicted?
    case TakeWake => s.Up? && s.worker.Parked? && s.wake
    case StopParked => s.Up? && s.worker.Parked? && s.cancelled
    case CheckContext => s.Up? && s.worker.Looping?
    case PopOrPark => s.Up? && s.worker.Acquiring? && MutexFree(s)
    case SaveRecord(ok, now, failure) => s.Up? && Saving(s.worker) && MutexFree(s)
    case Publish => s.Up? && Publishes(s.worker)
    case RefreshReturns(outcome, failure) => s.Up? && s.worker.Holding? && s.worker.stage.Refreshing?
    case ReloadReturns(ok, failure) => s.Up? && s.worker.Holding? && s.worker.stage.Reloading?
    case Settle => s.Up? && s.worker.Holding? && s.worker.stage.Settling?
    case FailInMemory(failure) => s.Up? && s.worker.Holding? && s.worker.stage.FailedUnsaved? && MutexFree(s)
    case BootSignal => s.Up? && s.boot
    case Cancel => s.Up?
    case Crash => s.Up?
    case RecoverFails(done, now) => s.Down? && done <= |s.table|
    case Recover(now) => s.Down?
  }

  // Each transition of a live process, as a change of its state.

  function EvictRow(s: State, listId: int, victim: JobId): (t: State)
    requires s.Up?
    ensures t.Up?
  {
    s.(table := DeleteRow(s.table, victim), adm := Evicting(listId, victim))
  }

  function Forget(s: State): (t: State)
    requires s.Up? && s.adm.Evicting?
    ensures t.Up?
  {
    s.(jobs := s.jobs - {s.adm.victim}, adm := Evicted(s.adm.listId))
  }

  function Create(s: State, listId: int, id: JobId, now: int): (t: State)
    requires s.Up?
    ensures t.Up?
  {
    s.(used := s.used + [id], adm := Admitting(NewJob(id, listId, now)))
  }

  function SaveAdmission(s: State): (t: State)
    requires s.Up? && s.adm.Admitting?
    ensures t.Up?
  {
    s.(table := Upsert(s.table, s.adm.job), adm := Admitted(s.adm.job))
  }

  function Insert(s: State): (t: State)
    requires s.Up? && s.adm.Admitted?
    ensures t.Up?
  {
    var job := s.adm.job;
    s.(jobs := s.jobs[job.id := job], queue := s.queue + [job.id], adm := Inserted(job))
  }

  /** Saved, inserted and signalled: the whole critical section of an admission. */
  function AdmitAll(s: State): (t: State)
    requires s.Up? && s.adm.Admitting?
    ensures t.Up?
  {
    var inserted := Insert(SaveAdmission(s));
    inserted.(adm := NoAdmission, wake := true)
  }

  function Pop(s: State): (t: State)
    requires s.Up? && s.queue != []
    ensures t.Up?
  {
    var id := s.queue[0];
    var job := if id in s.jobs then s.jobs[id] else NewJob("", 0, 0);
    s.(queue := s.queue[1..], worker := Holding(job.(status := Running, phase := Phase.Refreshing), Starting))
  }

  function SaveHeld(s: State, now: int): (t: State)
    requires s.Up? && Saving(s.worker)
    ensures t.Up?
  {
    var stored := s.worker.job.(updatedAt := now);
    s.(table := Upsert(s.table, stored), worker := Holding(s.worker.job, Publishing(stored, AfterSave(s.worker))))
  }

  function PublishHeld(s: State): (t: State)
    requires s.Up? && Publishes(s.worker)
    ensures t.Up?
  {
    var stored := s.worker.stage.stored;
    s.(jobs := s.jobs[stored.id := stored],
       worker := AfterPublish(s.worker, s.hasReloader),
       log := if s.worker.stage.after.ToRefreshing? then s.log + [RefreshBegan(stored.id)] else s.log)
  }

  function RefreshReturned(s: State, outcome: Option<int>, failure: string): (t: State)
    requires s.Up? && s.worker.Holding?
    ensures t.Up?
  {
    var job := s.worker.job;
    s.(log := s.log + [RefreshEnded(job.id, outcome.Some?)],
       worker := if outcome.Some? then Holding(job.(result := outcome, phase := Phase.Reloading), Noting)
                 else Holding(job, Settling(Some(failure))))
  }

  function ReloadReturned(s: State, ok: bool, failure: string): (t: State)
    requires s.Up? && s.worker.Holding?
    ensures t.Up?
  {
    var job := s.worker.job;
    s.(log := s.log + [ReloadEnded(job.id, ok)],
       worker := Holding(job, Settling(if ok then None else Some(failure))))
  }

  function Settled(w: Worker, cancelled: bool): Worker
    requires w.Holding? && w.stage.Settling?
  {
    if cancelled then Holding(w.job.(status := Queued, phase := PhaseQueued, error := ""), Requeueing)
    else if w.stage.failure.Some? then Holding(FailedJob(w.job, w.stage.failure.value), Failing)
    else Holding(w.job.(status := Succeeded, phase := Complete), Completing)
  }

  function ForgetHeld(s: State, failure: string): (t: State)
    requires s.Up? && s.worker.Holding?
    ensures t.Up?
  {
    var job := s.worker.job.(error := s.worker.job.error + "; job persistence: " + failure);
    s.(jobs := s.jobs[job.id := job], worker := Looping)
  }

  function Recovered(s: State, now: int): State {
    var rows := ResetRows(s.table, now);
    Up(rows, s.used, s.log + [Restarted], s.hasReloader, JobsOf(rows), ActiveIds(rows),
       false, true, false, NoAdmission, Parked)
  }

  function Do(s: State, a: Action): State
    requires Enabled(s, a)
  {
    match a
    case SubmitEvict(listId, victim) => EvictRow(s, listId, victim)
    case ForgetVictim => Forget(s)
    case SubmitCreate(listId, id, now) => Create(s, listId, id, now)
    case CreateAfterEvict(id, now) => Create(s, s.adm.listId, id, now)
    case AdmitSave(ok) => if ok then SaveAdmission(s) else s.(adm := NoAdmission)
    case AdmitInsert => Insert(s)
    case AdmitSignal => s.(wake := true, adm := NoAdmission)
    case AdmitAbort => s.(adm := NoAdmission)
    case TakeWake => s.(wake := false, worker := Looping)
    case StopParked => s.(worker := Stopped(None))
    case CheckContext => s.(worker := if s.cancelled then Parked else Acquiring)
    case PopOrPark => if s.queue == [] then s.(worker := Parked) else Pop(s)
    case SaveRecord(ok, now, failure) =>
      if ok then SaveHeld(s, now) else s.(worker := SaveFailed(s.worker, failure))
    case Publish => PublishHeld(s)
    case RefreshReturns(outcome, failure) => RefreshReturned(s, outcome, failure)
    case ReloadReturns(ok, failure) => ReloadReturned(s, ok, failure)
    case Settle => s.(worker := Settled(s.worker, s.cancelled))
    case FailInMemory(failure) => ForgetHeld(s, failure)
    case BootSignal => s.(wake := true, boot := false)
    case Cancel => s.(cancelled := true)
    case Crash => Down(s.table, s.used, s.log, s.hasReloader)
    case RecoverFails(done, now) => s.(table := ResetRows(s.table[..done], now) + s.table[done..])
    case Recover(now) => Recovered(s, now)
  }

  /** A database in which no job was ever submitted. */
  function Fresh(hasReloader: bool): State {
    Down([], [], [], hasReloader)
  }

  ghost predicate IsRun(s: State, run: seq<Action>)
    decreases |run|
  {
    run == [] || (Enabled(s, run[0]) && IsRun(Do(s, run[0]), run[1..]))
  }

  ghost function Final(s: State, run: seq<Action>): State
    requires IsRun(s, run)
    decreases |run|
  {
    if run == [] then s else Final(Do(s, run[0]), run[1..])
  }
}
