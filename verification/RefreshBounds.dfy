/**
 * Admission bounds: at most 64 active jobs, at most one per list, and when
 * these survive a crash.
 */
module RefreshBounds {
  import opened Options
  import opened JobTable
  import opened RefreshProtocol
  import opened RefreshInvariants

  ghost predicate OnePerList(jobs: map<JobId, Job>) {
    forall a, b :: a in jobs && b in jobs && Active(jobs[a]) && Active(jobs[b]) && jobs[a].listId == jobs[b].listId ==> a == b
  }

  ghost predicate Bounded(s: State)
    requires s.Up?
  {
    |ActiveSet(s.jobs)| <= MAX_ACTIVE && OnePerList(s.jobs)
  }

  ghost predicate RowsOnePerList(rows: seq<Job>) {
    forall a, b :: a in rows && b in rows && Active(a) && Active(b) && a.listId == b.listId ==> a.id == b.id
  }

  ghost predicate BoundedRows(rows: seq<Job>) {
    |ActiveIds(rows)| <= MAX_ACTIVE && RowsOnePerList(rows)
  }

  // ------------------------------------------------------- inside a process

  lemma SubsetCount<T>(a: set<T>, b: set<T>)
    requires a <= b
    ensures |a| <= |b|
  {
    assert b == a + (b - a);
  }

  lemma ForgetBounded(jobs: map<JobId, Job>, id: JobId)
    requires |ActiveSet(jobs)| <= MAX_ACTIVE && OnePerList(jobs)
    ensures |ActiveSet(jobs - {id})| <= MAX_ACTIVE && OnePerList(jobs - {id})
  {
    SubsetCount(ActiveSet(jobs - {id}), ActiveSet(jobs));
  }

  /** Replacing an active record by one for the same list keeps the bounds. */
  lemma ReplaceBounded(jobs: map<JobId, Job>, job: Job)
    requires |ActiveSet(jobs)| <= MAX_ACTIVE && OnePerList(jobs)
    requires job.id in jobs && Active(jobs[job.id]) && jobs[job.id].listId == job.listId
    ensures |ActiveSet(jobs[job.id := job])| <= MAX_ACTIVE && OnePerList(jobs[job.id := job])
  {
    SubsetCount(ActiveSet(jobs[job.id := job]), ActiveSet(jobs));
  }

  lemma InsertBounded(jobs: map<JobId, Job>, job: Job)
    requires |ActiveSet(jobs)| < MAX_ACTIVE && OnePerList(jobs) && !HasActiveFor(jobs, job.listId)
    ensures |ActiveSet(jobs[job.id := job])| <= MAX_ACTIVE && OnePerList(jobs[job.id := job])
  {
    SubsetCount(ActiveSet(jobs[job.id := job]), ActiveSet(jobs) + {job.id});
  }

  predicate TouchesMemory(a: Action) {
    a.ForgetVictim? || a.AdmitInsert? || a.Publish? || a.FailInMemory?
  }

  lemma OtherStepsKeepMemory(s: State, a: Action)
    requires s.Up? && Enabled(s, a) && !a.Crash? && !TouchesMemory(a)
    ensures Do(s, a).Up? && Do(s, a).jobs == s.jobs
    ensures a.SubmitEvict? || a.AdmitSave? || a.SaveRecord? || Do(s, a).table == s.table
  {
  }

  lemma PublishBounded(s: State)
    requires s.Up? && Publishes(s.worker) && QueueInv(s) && WorkerInv(s) && Bounded(s)
    ensures Bounded(PublishHeld(s))
  {
    ReplaceBounded(s.jobs, s.worker.stage.stored);
  }

  lemma ForgetHeldBounded(s: State, failure: string)
    requires s.Up? && s.worker.Holding? && QueueInv(s) && Bounded(s)
    ensures Bounded(ForgetHeld(s, failure))
  {
    ReplaceBounded(s.jobs, ForgetHeld(s, failure).jobs[s.worker.job.id]);
  }

  lemma MemoryStepBounded(s: State, a: Action)
    requires s.Up? && QueueInv(s) && WorkerInv(s) && AdmissionInv(s) && Bounded(s) && Enabled(s, a) && TouchesMemory(a)
    ensures Do(s, a).Up? && Bounded(Do(s, a))
  {
    match a
    case ForgetVictim => ForgetBounded(s.jobs, s.adm.victim);
    case AdmitInsert => InsertBounded(s.jobs, s.adm.job);
    case Publish => PublishBounded(s);
    case FailInMemory(failure) => ForgetHeldBounded(s, failure);
  }

  /** No step of a live process, whatever fails, breaks the bounds. */
  lemma StepKeepsBounded(s: State, a: Action)
    requires Inv(s) && s.Up? && Bounded(s) && Enabled(s, a) && !a.Crash?
    ensures Do(s, a).Up? && Bounded(Do(s, a))
  {
    if TouchesMemory(a) {
      MemoryStepBounded(s, a);
    } else {
      OtherStepsKeepMemory(s, a);
    }
  }

  // ------------------------------------------------------- across a restart

  lemma {:induction false} SeqCount(ids: seq<JobId>)
    ensures |set id | id in ids| <= |ids|
  {
    if ids == [] {
      assert (set id | id in ids) == {};
    } else {
      SeqCount(ids[1..]);
      assert (set id | id in ids) == {ids[0]} + set id | id in ids[1..];
    }
  }

  /** With no shadow row, a crash leaves a table that meets the bounds. */
  lemma CrashBounded(s: State)
    requires Inv(s) && s.Up? && Bounded(s) && NoShadow(s)
    ensures BoundedRows(s.table)
  {
    OwedVersusActive(s.table, s.jobs);
    ActiveDistinct(s.table);
    var pending := if s.adm.Admitted? then {s.adm.job.id} else {};
    var bound := ActiveSet(s.jobs) + pending;
    OwedWithin(s);
    DistinctFits(ActiveIds(s.table), bound);
    RowsBounded(s);
  }

  lemma OwedWithin(s: State)
    requires s.Up? && QueueInv(s) && OwedInv(s)
    ensures forall id :: id in OwedIds(s.table, s.jobs) ==>
              id in ActiveSet(s.jobs) + (if s.adm.Admitted? then {s.adm.job.id} else {})
  {
    forall id | id in OwedIds(s.table, s.jobs)
      ensures id in ActiveSet(s.jobs) + (if s.adm.Admitted? then {s.adm.job.id} else {})
    {
      assert id in HeldOwed(s.worker) || id in s.queue || id in PendingOwed(s.adm);
    }
  }

  lemma RowsBounded(s: State)
    requires s.Up? && TableInv(s.table, s.used) && MemoryInv(s) && KeysInv(s) && AdmissionInv(s) && NoShadow(s)
    requires OnePerList(s.jobs)
    ensures RowsOnePerList(s.table)
  {
    forall a, b | a in s.table && b in s.table && Active(a) && Active(b) && a.listId == b.listId
      ensures a.id == b.id
    {
      RowIsId(s.table, a);
      RowIsId(s.table, b);
      if a.id in s.jobs && b.id in s.jobs {
      } else if s.adm.Admitted? {
        var job := s.adm.job;
        if a.id == job.id { SameRow(s.table, a, job); }
        if b.id == job.id { SameRow(s.table, b, job); }
      }
    }
  }

  lemma ShapeOnePerList(rows: seq<Job>, rows': seq<Job>)
    requires RowsOnePerList(rows) && SameShape(rows, rows')
    ensures RowsOnePerList(rows')
  {
    forall a, b | a in rows' && b in rows' && Active(a) && Active(b) && a.listId == b.listId
      ensures a.id == b.id
    {
      var i :| 0 <= i < |rows'| && rows'[i] == a;
      var j :| 0 <= j < |rows'| && rows'[j] == b;
      assert rows[i] in rows && rows[j] in rows;
    }
  }

  lemma JobsOnePerList(rows: seq<Job>)
    requires DistinctIds(rows) && RowsOnePerList(rows)
    ensures OnePerList(JobsOf(rows))
  {
    JobsOfRows(rows);
    forall id | id in JobsOf(rows) ensures JobsOf(rows)[id] in rows && JobsOf(rows)[id].id == id {
      var row := RowById(rows, id);
    }
  }

  lemma RecoverOnePerList(rows: seq<Job>, now: int)
    requires DistinctIds(rows) && RowsOnePerList(rows)
    ensures OnePerList(JobsOf(ResetRows(rows, now)))
  {
    ResetRowsAt(rows, now);
    SameShapeFacts(rows, ResetRows(rows, now));
    ShapeOnePerList(rows, ResetRows(rows, now));
    JobsOnePerList(ResetRows(rows, now));
  }

  /** A table that meets the bounds is recovered into a process that meets them. */
  lemma RecoverBounded(s: State, now: int)
    requires s.Down? && DistinctIds(s.table) && BoundedRows(s.table)
    ensures Bounded(Recovered(s, now))
  {
    var t := Recovered(s, now);
    RecoverOnePerList(s.table, now);
    RecoveredOwed(s, now);
    RecoveredQueue(s, now);
    assert Held(t.worker).None? && t.jobs == JobsOf(ResetRows(s.table, now));
    hide Recovered, JobsOf, ResetRows, OnePerList, NoShadow, OwedInv, RowsOnePerList, DistinctIds, IdsOf;
    QueueIsActive(t);
    SeqCount(t.queue);
  }

  lemma QueueIsActive(s: State)
    requires s.Up? && QueueInv(s) && Held(s.worker).None?
    ensures ActiveSet(s.jobs) == set id | id in s.queue
  {
  }

  lemma RecoverFailsBounded(rows: seq<Job>, done: nat, now: int)
    requires BoundedRows(rows) && done <= |rows|
    ensures BoundedRows(ResetRows(rows[..done], now) + rows[done..])
  {
    PartialResetShape(rows, done, now);
    SameShapeFacts(rows, ResetRows(rows[..done], now) + rows[done..]);
    ShapeOnePerList(rows, ResetRows(rows[..done], now) + rows[done..]);
  }

  // ------------------------------------------------------- when no save fails

  lemma SavesNoShadow(s: State, a: Action)
    requires s.Up? && DistinctIds(s.table) && QueueInv(s) && KeysInv(s) && AdmissionInv(s) && NoShadow(s)
    requires Enabled(s, a) && (a.SubmitEvict? || a.AdmitSave? || a.SaveRecord?)
    ensures Do(s, a).Up? && NoShadow(Do(s, a))
  {
    match a
    case SubmitEvict(_, victim) => DeleteRows(s.table, victim);
    case AdmitSave(ok) => if ok { UpsertRows(s.table, s.adm.job); }
    case SaveRecord(ok, now, _) => if ok { UpsertRows(s.table, s.worker.job.(updatedAt := now)); }
  }

  lemma ForgetNoShadow(s: State)
    requires s.Up? && NoShadow(s) && s.adm.Evicting? && KeysInv(s)
    ensures NoShadow(Forget(s))
  {
  }

  lemma MemoryStepNoShadow(s: State, a: Action)
    requires s.Up? && NoShadow(s) && DistinctIds(s.table) && KeysInv(s) && AdmissionInv(s) && WorkerInv(s)
    requires Enabled(s, a) && TouchesMemory(a) && !a.FailInMemory?
    ensures Do(s, a).Up? && NoShadow(Do(s, a))
  {
    match a
    case ForgetVictim => ForgetNoShadow(s);
    case AdmitInsert => InsertNoShadow(s);
    case Publish => PublishNoShadow(s);
  }

  /** Only recording a failure in memory alone can leave a shadow row. */
  lemma StepKeepsNoShadow(s: State, a: Action)
    requires Inv(s) && s.Up? && NoShadow(s) && Enabled(s, a) && !a.FailInMemory? && !a.Crash?
    ensures Do(s, a).Up? && NoShadow(Do(s, a))
  {
    if TouchesMemory(a) {
      MemoryStepNoShadow(s, a);
    } else if a.SubmitEvict? || a.AdmitSave? || a.SaveRecord? {
      SavesNoShadow(s, a);
    } else {
      OtherStepsKeepMemory(s, a);
    }
  }

  lemma InsertNoShadow(s: State)
    requires s.Up? && NoShadow(s) && s.adm.Admitted? && Active(s.adm.job)
    ensures NoShadow(Insert(s))
  {
  }

  lemma PublishNoShadow(s: State)
    requires s.Up? && NoShadow(s) && Publishes(s.worker) && DistinctIds(s.table) && s.worker.stage.stored in s.table
    ensures NoShadow(PublishHeld(s))
  {
    var stored := s.worker.stage.stored;
    forall r | r in s.table && Active(r) ensures Owed(r, PublishHeld(s).jobs) {
      if r.id == stored.id { SameRow(s.table, r, stored); }
    }
  }

  /** The bounds a state meets as long as no failure record was lost. */
  ghost predicate Tidy(s: State) {
    if s.Up? then Bounded(s) && NoShadow(s) else BoundedRows(s.table)
  }

  lemma ProcessStepKeepsTidy(s: State, a: Action)
    requires Inv(s) && Tidy(s) && Enabled(s, a) && (a.Crash? || a.Recover? || a.RecoverFails?)
    ensures Tidy(Do(s, a))
  {
    match a
    case Crash => CrashBounded(s);
    case Recover(now) => RecoverBounded(s, now); RecoveredOwed(s, now);
    case RecoverFails(done, now) => RecoverFailsBounded(s.table, done, now);
  }

  lemma StepKeepsTidy(s: State, a: Action)
    requires Inv(s) && Tidy(s) && Enabled(s, a) && !a.FailInMemory?
    ensures Tidy(Do(s, a))
  {
    if a.Crash? || a.Recover? || a.RecoverFails? {
      ProcessStepKeepsTidy(s, a);
    } else {
      StepKeepsBounded(s, a);
      StepKeepsNoShadow(s, a);
    }
  }

  lemma {:induction false} RunKeepsTidy(s: State, run: seq<Action>)
    requires Inv(s) && Tidy(s) && IsRun(s, run) && forall a :: a in run ==> !a.FailInMemory?
    ensures Tidy(Final(s, run))
    decreases |run|
  {
    if run != [] {
      assert run[0] in run;
      StepKeepsInv(s, run[0]);
      StepKeepsTidy(s, run[0]);
      RunKeepsTidy(Do(s, run[0]), run[1..]);
    }
  }

  /**
   * Admission bounds over any number of crashes and restarts. The record bound
   * and the agreement of memory and table need no luck at all; 64 active jobs
   * and one per list hold as long as no failure record was lost.
   */
  lemma AdmissionBounds(hasReloader: bool, run: seq<Action>)
    requires IsRun(Fresh(hasReloader), run)
    ensures var s := Final(Fresh(hasReloader), run);
            && |s.table| <= 256
            && (s.Up? ==> |s.jobs| <= 256 && (MutexFree(s) ==> s.jobs.Keys == IdsOf(s.table)))
            && (s.Up? && (forall a :: a in run ==> !a.FailInMemory?) ==>
                  |ActiveSet(s.jobs)| <= 64 && OnePerList(s.jobs))
  {
    FreshInv(hasReloader);
    RunKeepsInv(Fresh(hasReloader), run);
    if forall a :: a in run ==> !a.FailInMemory? {
      RunKeepsTidy(Fresh(hasReloader), run);
    }
  }
}
