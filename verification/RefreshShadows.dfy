/**
 * Failure records that were kept in memory alone: which rows they leave behind,
 * and what exactly a restart makes of those.
 */
module RefreshShadows {
  import opened Options
  import opened JobTable
  import opened RefreshProtocol
  import opened RefreshInvariants
  import opened RefreshTheorems
  import opened RefreshBounds
  import opened RefreshRecovery

  /** An unfinished row of a job that memory holds as finished. */
  predicate Shadow(r: Job, jobs: map<JobId, Job>) {
    Active(r) && !Owed(r, jobs)
  }

  // --------------------------------------------------------- shadows and events

  /** The jobs whose failure was kept in memory alone since the process started. */
  function LostAfter(s: State, a: Action, lost: set<JobId>): set<JobId> {
    if a.FailInMemory? && s.Up? && s.worker.Holding? then lost + {s.worker.job.id}
    else if a.Recover? then {}
    else lost
  }

  ghost function Lost(s: State, run: seq<Action>, lost: set<JobId>): set<JobId>
    requires IsRun(s, run)
    decreases |run|
  {
    if run == [] then lost else Lost(Do(s, run[0]), run[1..], LostAfter(s, run[0], lost))
  }

  /** A row is a shadow exactly if its job is one of the lost ones. */
  ghost predicate LostInv(s: State, lost: set<JobId>) {
    s.Up? ==>
      && (forall r :: r in s.table ==> (Shadow(r, s.jobs) <==> r.id in lost))
      && (forall id :: id in lost ==> id in s.used)
      && (s.adm.Admitting? ==> s.adm.job.id !in lost)
  }

  lemma EvictionKeepsLost(s: State, a: Action, lost: set<JobId>)
    requires s.Up? && LostInv(s, lost) && Enabled(s, a) && (a.SubmitEvict? || a.ForgetVictim?)
    requires DistinctIds(s.table) && KeysInv(s)
    ensures LostInv(Do(s, a), lost)
  {
    if a.SubmitEvict? { DeleteRows(s.table, a.victim); }
  }

  lemma CreateKeepsLost(s: State, listId: int, id: JobId, now: int, lost: set<JobId>)
    requires s.Up? && LostInv(s, lost) && id !in s.used
    ensures LostInv(Create(s, listId, id, now), lost)
  {
  }

  lemma AdmitSaveKeepsLost(s: State, lost: set<JobId>)
    requires s.Up? && LostInv(s, lost) && s.adm.Admitting? && s.adm.job.id !in s.jobs && s.adm.job.status.Queued?
    requires DistinctIds(s.table)
    ensures LostInv(SaveAdmission(s), lost)
  {
    UpsertRows(s.table, s.adm.job);
    hide Upsert, DistinctIds, IdsOf;
  }

  lemma AdmitInsertKeepsLost(s: State, lost: set<JobId>)
    requires s.Up? && LostInv(s, lost) && s.adm.Admitted? && s.adm.job.id !in s.jobs && s.adm.job.status.Queued?
    ensures LostInv(Insert(s), lost)
  {
  }

  lemma AdmissionKeepsLost(s: State, a: Action, lost: set<JobId>)
    requires s.Up? && LostInv(s, lost) && Enabled(s, a)
    requires a.SubmitCreate? || a.CreateAfterEvict? || a.AdmitSave? || a.AdmitInsert?
    requires DistinctIds(s.table) && KeysInv(s) && AdmissionInv(s)
    ensures LostInv(Do(s, a), lost)
  {
    match a
    case SubmitCreate(listId, id, now) => CreateKeepsLost(s, listId, id, now, lost);
    case CreateAfterEvict(id, now) => CreateKeepsLost(s, s.adm.listId, id, now, lost);
    case AdmitSave(ok) => if ok { AdmitSaveKeepsLost(s, lost); }
    case AdmitInsert => AdmitInsertKeepsLost(s, lost);
  }

  lemma SavingKeepsLost(s: State, now: int, lost: set<JobId>)
    requires s.Up? && LostInv(s, lost) && Saving(s.worker) && MutexFree(s)
    requires DistinctIds(s.table) && KeysInv(s) && QueueInv(s)
    ensures LostInv(SaveHeld(s, now), lost)
  {
    var stored := s.worker.job.(updatedAt := now);
    UpsertRows(s.table, stored);
    var row := RowById(s.table, stored.id);
    assert !Shadow(row, s.jobs);
  }

  lemma PublishKeepsLost(s: State, lost: set<JobId>)
    requires s.Up? && LostInv(s, lost) && Publishes(s.worker) && WorkerInv(s) && QueueInv(s) && DistinctIds(s.table)
    ensures LostInv(PublishHeld(s), lost)
  {
    var stored := s.worker.stage.stored;
    forall r | r in s.table && r.id == stored.id ensures r == stored { SameRow(s.table, r, stored); }
    assert !Shadow(stored, s.jobs);
  }

  /** The failure that is kept in memory alone makes a shadow of the row, which is still unfinished. */
  lemma ForgetMakesShadow(s: State, failure: string, lost: set<JobId>)
    requires s.Up? && LostInv(s, lost) && s.worker.Holding? && s.worker.stage.FailedUnsaved? && MutexFree(s)
    requires DistinctIds(s.table) && MemoryInv(s) && QueueInv(s) && WorkerInv(s) && OwedInv(s)
    ensures LostInv(ForgetHeld(s, failure), lost + {s.worker.job.id})
  {
    var job := s.worker.job.(error := s.worker.job.error + "; job persistence: " + failure);
    assert OwedQueue(s)[0] == job.id;
    assert job.id in OwedIds(s.table, s.jobs);
    OwedMembers(s.table, s.jobs, job.id);
    var row :| row in s.table && row.id == job.id && Owed(row, s.jobs);
    forall r | r in s.table && r.id == job.id ensures r == row { SameRow(s.table, r, row); }
    hide OwedIds, OwedQueue, DistinctIds;
    FailedMakesShadow(s.table, s.jobs, job, lost);
  }

  lemma FailedMakesShadow(rows: seq<Job>, jobs: map<JobId, Job>, job: Job, lost: set<JobId>)
    requires forall r :: r in rows ==> (Shadow(r, jobs) <==> r.id in lost)
    requires job.status.Failed? && forall r :: r in rows && r.id == job.id ==> Active(r)
    ensures forall r :: r in rows ==> (Shadow(r, jobs[job.id := job]) <==> r.id in lost + {job.id})
  {
  }

  lemma QuietKeepsLost(s: State, a: Action, lost: set<JobId>)
    requires s.Up? && LostInv(s, lost) && Enabled(s, a) && !a.Crash? && !TouchesMemory(a)
    requires !a.SubmitEvict? && !a.SubmitCreate? && !a.CreateAfterEvict? && !a.AdmitSave? && (a.SaveRecord? ==> !a.ok)
    ensures LostInv(Do(s, a), lost)
  {
    OtherStepsKeepMemory(s, a);
    assert Do(s, a).table == s.table && Do(s, a).used == s.used && (Do(s, a).adm.Admitting? ==> Do(s, a).adm == s.adm);
    hide Do, Enabled;
  }

  lemma RecoveryLosesNothing(s: State, now: int)
    requires s.Down? && DistinctIds(s.table)
    ensures LostInv(Recovered(s, now), {})
  {
    RecoveredOwed(s, now);
  }

  lemma StepKeepsLost(s: State, a: Action, lost: set<JobId>)
    requires Inv(s) && LostInv(s, lost) && Enabled(s, a)
    ensures LostInv(Do(s, a), LostAfter(s, a, lost))
  {
    if s.Down? {
      if a.Recover? { RecoveryLosesNothing(s, a.now); }
    } else if a.SubmitEvict? || a.ForgetVictim? {
      EvictionKeepsLost(s, a, lost);
    } else if a.SubmitCreate? || a.CreateAfterEvict? || a.AdmitSave? || a.AdmitInsert? {
      AdmissionKeepsLost(s, a, lost);
    } else if a.SaveRecord? && a.ok {
      SavingKeepsLost(s, a.now, lost);
    } else if a.Publish? {
      PublishKeepsLost(s, lost);
    } else if a.FailInMemory? {
      ForgetMakesShadow(s, a.failure, lost);
    } else if !a.Crash? {
      QuietKeepsLost(s, a, lost);
    }
  }

  lemma {:induction false} RunKeepsLost(s: State, run: seq<Action>, lost: set<JobId>)
    requires Inv(s) && LostInv(s, lost) && IsRun(s, run)
    ensures LostInv(Final(s, run), Lost(s, run, lost))
    decreases |run|
  {
    hide LostInv, LostAfter;
    if run != [] {
      StepKeepsInv(s, run[0]);
      StepKeepsLost(s, run[0], lost);
      RunKeepsLost(Do(s, run[0]), run[1..], LostAfter(s, run[0], lost));
    }
  }

  /**
   * Over any run: a row is a shadow exactly if its job's failure was kept in
   * memory alone since the last recovery; so there is none exactly if the rows of
   * all such jobs have been evicted since.
   */
  lemma ShadowsAreLost(hasReloader: bool, run: seq<Action>)
    requires IsRun(Fresh(hasReloader), run) && Final(Fresh(hasReloader), run).Up?
    ensures var s := Final(Fresh(hasReloader), run);
            var lost := Lost(Fresh(hasReloader), run, {});
            && (forall r :: r in s.table ==> (Shadow(r, s.jobs) <==> r.id in lost))
            && (NoShadow(s) <==> lost !! IdsOf(s.table))
  {
    FreshInv(hasReloader);
    RunKeepsInv(Fresh(hasReloader), run);
    RunKeepsLost(Fresh(hasReloader), run, {});
    var s := Final(Fresh(hasReloader), run);
    var lost := Lost(Fresh(hasReloader), run, {});
    if id :| id in lost && id in IdsOf(s.table) {
      var row := RowById(s.table, id);
    }
    if r :| r in s.table && Shadow(r, s.jobs) {
      RowIsId(s.table, r);
    }
  }

  lemma {:induction false} NothingLost(s: State, run: seq<Action>)
    requires IsRun(s, run) && forall a :: a in run ==> !a.FailInMemory?
    ensures Lost(s, run, {}) == {}
    decreases |run|
  {
    if run != [] {
      assert run[0] in run;
      NothingLost(Do(s, run[0]), run[1..]);
    }
  }

  // -------------------------------------------------------------- over whole runs

  /**
   * A crash at the end of any run: the restart queues exactly the held job, the
   * old queue and a saved admission, and lets no finished job run again, if and
   * only if no lost failure record has a row left.
   */
  lemma CrashAfterRun(hasReloader: bool, run: seq<Action>, attempts: seq<Action>, now: int)
    requires IsRun(Fresh(hasReloader), run) && Final(Fresh(hasReloader), run).Up?
    requires IsRun(Do(Final(Fresh(hasReloader), run), Crash), attempts) && forall a :: a in attempts ==> a.RecoverFails?
    ensures var s := Final(Fresh(hasReloader), run);
            var t := Restart(s, attempts, now);
            var kept := Lost(Fresh(hasReloader), run, {}) !! IdsOf(s.table);
            && (t.queue == OwedQueue(s) <==> kept)
            && ((forall id :: id in s.jobs && !Active(s.jobs[id]) && id in t.jobs ==> !Active(t.jobs[id])) <==> kept)
  {
    var s := Final(Fresh(hasReloader), run);
    ShadowsAreLost(hasReloader, run);
    FreshInv(hasReloader);
    RunKeepsInv(Fresh(hasReloader), run);
    CrashRecovery(s, attempts, now);
    FinishedStaysFinished(s, attempts, now);
  }

  /** In particular after every run in which no failure was kept in memory alone. */
  lemma CrashAfterSavedRun(hasReloader: bool, run: seq<Action>, attempts: seq<Action>, now: int)
    requires IsRun(Fresh(hasReloader), run) && Final(Fresh(hasReloader), run).Up?
    requires forall a :: a in run ==> !a.FailInMemory?
    requires IsRun(Do(Final(Fresh(hasReloader), run), Crash), attempts) && forall a :: a in attempts ==> a.RecoverFails?
    ensures var s := Final(Fresh(hasReloader), run);
            var t := Restart(s, attempts, now);
            && t.queue == OwedQueue(s)
            && (forall id :: id in s.jobs && !Active(s.jobs[id]) && id in t.jobs ==> !Active(t.jobs[id]))
  {
    CrashAfterRun(hasReloader, run, attempts, now);
    NothingLost(Fresh(hasReloader), run);
  }

  // --------------------------------------------------- the bounds after a restart

  /** No shadow shares its list with another unfinished row. */
  ghost predicate ShadowsAlone(s: State)
    requires s.Up?
  {
    forall a, b :: a in s.table && b in s.table && Shadow(a, s.jobs) && Active(b) && a.listId == b.listId ==> a.id == b.id
  }

  lemma OwedRowsApart(s: State, a: Job, b: Job)
    requires s.Up? && TableInv(s.table, s.used) && MemoryInv(s) && KeysInv(s) && AdmissionInv(s) && OnePerList(s.jobs)
    requires a in s.table && b in s.table && Owed(a, s.jobs) && Owed(b, s.jobs) && a.listId == b.listId
    ensures a.id == b.id
  {
    RowIsId(s.table, a);
    RowIsId(s.table, b);
    if !(a.id in s.jobs && b.id in s.jobs) {
      var job := s.adm.job;
      if a.id == job.id { SameRow(s.table, a, job); }
      if b.id == job.id { SameRow(s.table, b, job); }
    }
  }

  lemma RowsApartExactly(s: State)
    requires s.Up? && Inv(s) && OnePerList(s.jobs)
    ensures RowsOnePerList(s.table) <==> ShadowsAlone(s)
  {
    if ShadowsAlone(s) {
      forall a, b | a in s.table && b in s.table && Active(a) && Active(b) && a.listId == b.listId ensures a.id == b.id {
        if !Shadow(a, s.jobs) && !Shadow(b, s.jobs) { OwedRowsApart(s, a, b); }
      }
    }
  }

  /** What a restart makes of the rows is one job per list exactly if the rows are. */
  lemma RestartApartExactly(s: State, attempts: seq<Action>, now: int)
    requires s.Up? && DistinctIds(s.table)
    requires IsRun(Do(s, Crash), attempts) && forall a :: a in attempts ==> a.RecoverFails?
    ensures OnePerList(Restart(s, attempts, now).jobs) <==> RowsOnePerList(s.table)
  {
    var t := Restart(s, attempts, now);
    RestartRows(s, attempts, now);
    RestartLists(s, attempts, now);
    if OnePerList(t.jobs) {
      forall a, b | a in s.table && b in s.table && Active(a) && Active(b) && a.listId == b.listId ensures a.id == b.id {
        RowIsId(s.table, a);
        RowIsId(s.table, b);
      }
    }
    if RowsOnePerList(s.table) {
      forall a, b | a in t.jobs && b in t.jobs && Active(t.jobs[a]) && Active(t.jobs[b]) && t.jobs[a].listId == t.jobs[b].listId
        ensures a == b
      {
        var ra := RowById(s.table, a);
        var rb := RowById(s.table, b);
      }
    }
  }

  lemma RestartLists(s: State, attempts: seq<Action>, now: int)
    requires s.Up? && DistinctIds(s.table)
    requires IsRun(Do(s, Crash), attempts) && forall a :: a in attempts ==> a.RecoverFails?
    ensures var t := Restart(s, attempts, now);
            forall r :: r in s.table ==> r.id in t.jobs && t.jobs[r.id].listId == r.listId
  {
    AttemptsStayDown(Do(s, Crash), attempts);
    var d := Final(Do(s, Crash), attempts);
    SameShapeFacts(s.table, d.table);
    RecoveredOwed(d, now);
    ResetRowsAt(d.table, now);
    var t := Restart(s, attempts, now);
    forall r | r in s.table ensures r.id in t.jobs && t.jobs[r.id].listId == r.listId {
      var i :| 0 <= i < |s.table| && s.table[i] == r;
      assert t.table[i] in t.table;
    }
  }

  /**
   * One job per list survives a crash exactly if no unfinished row that memory
   * holds as finished shares its list with another unfinished row.
   */
  lemma OnePerListExactly(s: State, attempts: seq<Action>, now: int)
    requires Inv(s) && s.Up? && Bounded(s)
    requires IsRun(Do(s, Crash), attempts) && forall a :: a in attempts ==> a.RecoverFails?
    ensures OnePerList(Restart(s, attempts, now).jobs) <==> ShadowsAlone(s)
  {
    RestartApartExactly(s, attempts, now);
    RowsApartExactly(s);
  }

  function ShadowIds(rows: seq<Job>, jobs: map<JobId, Job>): seq<JobId> {
    if rows == [] then []
    else (if Shadow(rows[0], jobs) then [rows[0].id] else []) + ShadowIds(rows[1..], jobs)
  }

  lemma {:induction false} ActiveSplits(rows: seq<Job>, jobs: map<JobId, Job>)
    ensures |ActiveIds(rows)| == |OwedIds(rows, jobs)| + |ShadowIds(rows, jobs)|
  {
    if rows != [] {
      ActiveSplits(rows[1..], jobs);
    }
  }

  /**
   * After a restart as many jobs are active as the table has unfinished rows:
   * the work that is owed and the shadows. The bound of 64 holds exactly if
   * there is room for the shadows.
   */
  lemma SixtyFourExactly(s: State, attempts: seq<Action>, now: int)
    requires Inv(s) && s.Up?
    requires IsRun(Do(s, Crash), attempts) && forall a :: a in attempts ==> a.RecoverFails?
    ensures var t := Restart(s, attempts, now);
            && |ActiveSet(t.jobs)| == |ActiveIds(s.table)|
            && |ActiveIds(s.table)| == |OwedQueue(s)| + |ShadowIds(s.table, s.jobs)|
            && (|ActiveSet(t.jobs)| <= 64 <==> |OwedQueue(s)| + |ShadowIds(s.table, s.jobs)| <= 64)
  {
    hide ActiveIds, OwedIds, ShadowIds, OwedQueue, ActiveSet, Restart;
    CrashRecovery(s, attempts, now);
    ActiveSplits(s.table, s.jobs);
    assert OwedInv(s);
    hide Inv;
    RestartCount(s, attempts, now);
  }

  lemma RestartCount(s: State, attempts: seq<Action>, now: int)
    requires s.Up? && DistinctIds(s.table)
    requires IsRun(Do(s, Crash), attempts) && forall a :: a in attempts ==> a.RecoverFails?
    ensures |ActiveSet(Restart(s, attempts, now).jobs)| == |Restart(s, attempts, now).queue|
  {
    AttemptsStayDown(Do(s, Crash), attempts);
    var d := Final(Do(s, Crash), attempts);
    SameShapeFacts(s.table, d.table);
    hide ActiveSet, Recovered;
    RecoveredCount(d, now);
  }

  lemma RecoveredCount(d: State, now: int)
    requires d.Down? && DistinctIds(d.table)
    ensures |ActiveSet(Recovered(d, now).jobs)| == |Recovered(d, now).queue|
  {
    RecoveredOwed(d, now);
    RecoveredQueue(d, now);
    assert Held(Recovered(d, now).worker).None?;
    hide Recovered, DistinctIds, IdsOf, QueueInv, MemoryIdsInv, NoShadow, OwedInv, ActiveIds;
    QueueCount(Recovered(d, now));
  }

  lemma {:induction false} DistinctCount(ids: seq<JobId>)
    requires Distinct(ids)
    ensures |set id | id in ids| == |ids|
  {
    if ids == [] {
      assert (set id | id in ids) == {};
    } else {
      DistinctCount(ids[1..]);
      assert ids[0] !in ids[1..];
      assert (set id | id in ids) == {ids[0]} + set id | id in ids[1..];
    }
  }

  lemma QueueCount(s: State)
    requires s.Up? && QueueInv(s) && Held(s.worker).None?
    ensures |ActiveSet(s.jobs)| == |s.queue|
  {
    QueueIsActive(s);
    DistinctCount(s.queue);
  }
}
