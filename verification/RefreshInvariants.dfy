/**
 * What every step of the refresh protocol keeps, whatever saves fail: no job
 * is lost, no wakeup is lost, memory and table stay in step, and the table
 * still says, in admission order, which work is owed.
 */
module RefreshInvariants {
  import opened Options
  import opened JobTable
  import opened RefreshProtocol

  // ---------------------------------------------------------------- terms

  function Held(w: Worker): Option<Job> {
    if w.Holding? then Some(w.job) else if w.Stopped? then w.unfinished else None
  }

  /** The job the worker holds, unless its finished record is already saved. */
  function HeldOwed(w: Worker): seq<JobId> {
    if Held(w).None? || (Publishes(w) && !Active(w.stage.stored)) then [] else [Held(w).value.id]
  }

  /** An admission that is saved but not yet in memory. */
  function PendingOwed(adm: Admission): seq<JobId> {
    if adm.Admitted? then [adm.job.id] else []
  }

  /** The unfinished work, in admission order. */
  function OwedQueue(s: State): seq<JobId>
    requires s.Up?
  {
    HeldOwed(s.worker) + s.queue + PendingOwed(s.adm)
  }

  ghost predicate Distinct(ids: seq<JobId>) {
    forall i, j :: 0 <= i < j < |ids| ==> ids[i] != ids[j]
  }

  /** No unfinished row belongs to a job that memory holds as finished. */
  ghost predicate NoShadow(s: State)
    requires s.Up?
  {
    forall r :: r in s.table && Active(r) ==> Owed(r, s.jobs)
  }

  // ------------------------------------------------------------ invariant

  ghost predicate TableInv(table: seq<Job>, used: seq<JobId>) {
    DistinctIds(table) && |table| <= MAX_RECORDS && forall id :: id in IdsOf(table) ==> id in used
  }

  ghost predicate MemoryInv(s: State)
    requires s.Up?
  {
    && (forall id :: id in s.jobs ==> s.jobs[id].id == id)
    && |s.jobs| <= MAX_RECORDS
    && (forall id :: id in s.jobs ==> id in s.used)
    && (forall r :: r in s.table && r.id in s.jobs ==> r.listId == s.jobs[r.id].listId)
  }

  /** Memory and table hold the same ids, but for the admission under way. */
  ghost predicate KeysInv(s: State)
    requires s.Up?
  {
    match s.adm
    case Evicting(_, victim) => s.jobs.Keys == IdsOf(s.table) + {victim} && victim !in IdsOf(s.table)
    case Admitted(job) => IdsOf(s.table) == s.jobs.Keys + {job.id} && job.id !in s.jobs
    case _ => s.jobs.Keys == IdsOf(s.table)
  }

  ghost predicate Roomy(s: State, listId: int)
    requires s.Up?
  {
    |ActiveSet(s.jobs)| < MAX_ACTIVE && !HasActiveFor(s.jobs, listId)
  }

  ghost predicate AdmissionInv(s: State)
    requires s.Up?
  {
    && (!s.adm.NoAdmission? ==> !Publishes(s.worker) && !s.boot)
    && match s.adm
       case Evicting(listId, victim) => Roomy(s, listId) && victim in s.jobs && !Active(s.jobs[victim])
       case Evicted(listId) => Roomy(s, listId) && |s.jobs| < MAX_RECORDS
       case Admitting(job) =>
         Roomy(s, job.listId) && |s.jobs| < MAX_RECORDS && job.status.Queued? && job.id in s.used && job.id !in s.jobs
       case Admitted(job) => Roomy(s, job.listId) && |s.jobs| < MAX_RECORDS && job.status.Queued? && job in s.table
       case _ => true
  }

  ghost predicate QueueInv(s: State)
    requires s.Up?
  {
    && Distinct(s.queue)
    && (forall id :: id in s.queue ==> id in s.jobs && s.jobs[id].status.Queued?)
    && (Held(s.worker).Some? ==>
          var held := Held(s.worker).value;
          held.id in s.jobs && Active(s.jobs[held.id]) && held.id !in s.queue && held.listId == s.jobs[held.id].listId)
    && (forall id :: id in s.jobs && Active(s.jobs[id]) ==>
          id in s.queue || (Held(s.worker).Some? && Held(s.worker).value.id == id))
  }

  /** The held record carries the status its stage is about to save, or last saved. */
  ghost predicate StageInv(job: Job, stage: Stage, table: seq<Job>, cancelled: bool) {
    match stage
    case Completing => job.status.Succeeded?
    case Requeueing => job.status.Queued? && cancelled
    case Failing => job.status.Failed?
    case FailedUnsaved => job.status.Failed?
    case Publishing(stored, after) =>
      && stored in table
      && stored == job.(updatedAt := stored.updatedAt)
      && (after.ToLoop? <==> !Active(job))
      && (after.ToStopped? <==> job.status.Queued?)
      && (after.ToStopped? ==> cancelled)
    case _ => job.status.Running?
  }

  ghost predicate WorkerInv(s: State)
    requires s.Up?
  {
    && (s.worker.Holding? ==> StageInv(s.worker.job, s.worker.stage, s.table, s.cancelled))
    && (s.worker.Stopped? ==> s.cancelled)
  }

  ghost predicate OwedInv(s: State)
    requires s.Up?
  {
    OwedIds(s.table, s.jobs) == OwedQueue(s)
  }

  /** A parked worker with work queued has a wake token waiting, or one is about to be sent. */
  ghost predicate WakeInv(s: State)
    requires s.Up?
  {
    !s.cancelled && s.queue != [] && s.worker.Parked? ==> s.wake || s.boot || s.adm.Inserted?
  }

  ghost predicate Inv(s: State) {
    && TableInv(s.table, s.used)
    && (s.Up? ==> MemoryInv(s) && KeysInv(s) && AdmissionInv(s) && QueueInv(s) && WorkerInv(s) && OwedInv(s) && WakeInv(s))
  }

  // ------------------------------------------------------ counting helpers

  lemma {:induction false} RowCount(rows: seq<Job>)
    requires DistinctIds(rows)
    ensures |IdsOf(rows)| == |rows|
  {
    if rows == [] {
      assert IdsOf(rows) == {};
    } else {
      RowCount(rows[1..]);
      IdsSplit(rows);
      forall i | 0 <= i < |rows[1..]| ensures rows[1..][i].id != rows[0].id { }
    }
  }

  lemma {:induction false} DistinctFits(ids: seq<JobId>, bound: set<JobId>)
    requires Distinct(ids) && forall id :: id in ids ==> id in bound
    ensures |ids| <= |bound|
  {
    if ids != [] {
      var rest := bound - {ids[0]};
      forall id | id in ids[1..] ensures id in rest { }
      DistinctFits(ids[1..], rest);
    }
  }

  lemma RowById(rows: seq<Job>, id: JobId) returns (row: Job)
    requires id in IdsOf(rows)
    ensures row in rows && row.id == id
  {
    var i :| 0 <= i < |rows| && rows[i].id == id;
    row := rows[i];
  }

  lemma RowIsId(rows: seq<Job>, row: Job)
    requires row in rows
    ensures row.id in IdsOf(rows)
  {
    var i :| 0 <= i < |rows| && rows[i] == row;
  }

  lemma SameRow(rows: seq<Job>, a: Job, b: Job)
    requires DistinctIds(rows) && a in rows && b in rows && a.id == b.id
    ensures a == b
  {
    var i :| 0 <= i < |rows| && rows[i] == a;
    var j :| 0 <= j < |rows| && rows[j] == b;
  }

  // ------------------------------------------------------- submitter steps

  lemma EvictRowTable(s: State, listId: int, victim: JobId)
    requires s.Up? && TableInv(s.table, s.used) && MemoryInv(s) && KeysInv(s) && OwedInv(s)
    requires s.adm.NoAdmission? && victim in s.jobs && !Active(s.jobs[victim])
    ensures var t := EvictRow(s, listId, victim);
            TableInv(t.table, t.used) && MemoryInv(t) && KeysInv(t) && OwedInv(t)
  {
    DeleteRows(s.table, victim);
    OwedDelete(s.table, victim, s.jobs);
    assert OwedQueue(EvictRow(s, listId, victim)) == OwedQueue(s);
  }

  lemma EvictRowKeeps(s: State, listId: int, victim: JobId)
    requires Inv(s) && s.Up? && Admissible(s, listId) && IsVictim(s.jobs, victim)
    ensures Inv(EvictRow(s, listId, victim))
  {
    EvictRowTable(s, listId, victim);
  }

  lemma ForgetKeeps(s: State)
    requires Inv(s) && s.Up? && s.adm.Evicting?
    ensures Inv(Forget(s))
  {
    var victim := s.adm.victim;
    var t := Forget(s);
    assert ActiveSet(t.jobs) == ActiveSet(s.jobs);
    assert t.jobs.Keys == s.jobs.Keys - {victim};
    forall r | r in s.table ensures Owed(r, s.jobs) <==> Owed(r, t.jobs) {
      RowIsId(s.table, r);
    }
    OwedFrame(s.table, s.jobs, t.jobs);
  }

  /** With fewer than 64 active records, a full map always has a finished one to evict. */
  lemma VictimExists(jobs: map<JobId, Job>)
    requires |ActiveSet(jobs)| < MAX_ACTIVE && |jobs| >= MAX_RECORDS
    ensures exists id :: id in jobs && !Active(jobs[id])
  {
    var finished := jobs.Keys - ActiveSet(jobs);
    assert jobs.Keys == ActiveSet(jobs) + finished;
    assert |jobs.Keys| == |ActiveSet(jobs)| + |finished|;
    var id :| id in finished;
    assert id in jobs && !Active(jobs[id]);
  }

  lemma CreateKeeps(s: State, listId: int, id: JobId, now: int)
    requires Inv(s) && s.Up? && MutexInv(s) && Roomy(s, listId) && |s.jobs| < MAX_RECORDS && id !in s.used
    requires s.adm.NoAdmission? || s.adm.Evicted?
    ensures Inv(Create(s, listId, id, now))
  {
  }

  ghost predicate MutexInv(s: State)
    requires s.Up?
  {
    !Publishes(s.worker) && !s.boot
  }

  lemma SaveAdmissionOwed(s: State)
    requires s.Up? && s.adm.Admitting? && OwedInv(s)
    requires s.adm.job.id !in IdsOf(s.table) && s.adm.job.id !in s.jobs && Active(s.adm.job)
    ensures OwedInv(SaveAdmission(s))
  {
    UpsertNew(s.table, s.adm.job);
    OwedAppend(s.table, s.adm.job, s.jobs);
    assert OwedQueue(SaveAdmission(s)) == OwedQueue(s) + [s.adm.job.id];
  }

  lemma SaveAdmissionTable(s: State)
    requires s.Up? && s.adm.Admitting? && TableInv(s.table, s.used) && KeysInv(s)
    requires s.adm.job.id in s.used && s.adm.job.id !in s.jobs && |s.jobs| < MAX_RECORDS
    ensures var t := SaveAdmission(s);
            && TableInv(t.table, t.used) && KeysInv(t) && s.adm.job in t.table
            && forall r :: r in t.table ==> r in s.table || r == s.adm.job
  {
    UpsertRows(s.table, s.adm.job);
    RowCount(s.table);
  }

  lemma SaveAdmissionKeeps(s: State)
    requires Inv(s) && s.Up? && s.adm.Admitting?
    ensures Inv(SaveAdmission(s))
  {
    SaveAdmissionOwed(s);
    SaveAdmissionTable(s);
    assert MemoryInv(SaveAdmission(s));
  }

  lemma InsertOwed(s: State)
    requires s.Up? && s.adm.Admitted? && DistinctIds(s.table) && KeysInv(s) && s.adm.job in s.table && OwedInv(s)
    ensures OwedInv(Insert(s))
  {
    OwedLearn(s.table, s.adm.job, s.jobs);
    assert OwedQueue(Insert(s)) == OwedQueue(s);
  }

  lemma InsertMemory(s: State)
    requires s.Up? && s.adm.Admitted? && TableInv(s.table, s.used) && MemoryInv(s) && KeysInv(s)
    requires s.adm.job in s.table && |s.jobs| < MAX_RECORDS
    ensures MemoryInv(Insert(s)) && KeysInv(Insert(s))
  {
    var job := s.adm.job;
    var t := Insert(s);
    forall r | r in s.table && r.id == job.id ensures r == job {
      SameRow(s.table, r, job);
    }
    assert t.jobs.Keys == s.jobs.Keys + {job.id};
    RowIsId(s.table, job);
  }

  lemma InsertQueue(s: State)
    requires s.Up? && s.adm.Admitted? && QueueInv(s) && s.adm.job.id !in s.jobs && s.adm.job.status.Queued?
    ensures QueueInv(Insert(s))
  {
    assert s.adm.job.id !in s.queue;
  }

  lemma InsertKeeps(s: State)
    requires Inv(s) && s.Up? && s.adm.Admitted?
    ensures Inv(Insert(s))
  {
    InsertOwed(s);
    InsertMemory(s);
    InsertQueue(s);
  }

  // ---------------------------------------------------------- worker steps

  /** A step that touches neither memory nor table keeps what is said about them. */
  lemma SameMemory(s: State, t: State)
    requires s.Up? && t.Up? && Inv(s)
    requires t.table == s.table && t.used == s.used && t.jobs == s.jobs && t.queue == s.queue
    requires PendingOwed(t.adm) == PendingOwed(s.adm)
    requires KeysInv(t) && AdmissionInv(t)
    requires HeldOwed(t.worker) == HeldOwed(s.worker)
    requires Held(t.worker).Some? <==> Held(s.worker).Some?
    requires Held(t.worker).Some? ==>
               Held(t.worker).value.id == Held(s.worker).value.id && Held(t.worker).value.listId == Held(s.worker).value.listId
    requires WorkerInv(t) && WakeInv(t)
    ensures Inv(t)
  {
  }

  lemma PopKeeps(s: State)
    requires Inv(s) && s.Up? && s.worker.Acquiring? && MutexFree(s) && s.queue != []
    ensures Inv(Pop(s))
  {
    assert s.queue[0] in s.queue;
    assert OwedQueue(Pop(s)) == OwedQueue(s);
  }

  lemma WorkerGoes(s: State, w: Worker)
    requires Inv(s) && s.Up? && !Publishes(s.worker) && !Publishes(w)
    requires Held(w).Some? <==> Held(s.worker).Some?
    requires Held(w).Some? ==>
               Held(w).value.id == Held(s.worker).value.id && Held(w).value.listId == Held(s.worker).value.listId
    requires WorkerInv(s.(worker := w)) && (w.Parked? ==> s.cancelled || s.queue == [])
    ensures Inv(s.(worker := w))
  {
    SameMemory(s, s.(worker := w));
  }

  lemma LogGrows(s: State, log: seq<Event>)
    requires Inv(s) && s.Up?
    ensures Inv(s.(log := log))
  {
    SameMemory(s, s.(log := log));
  }

  lemma TakeWakeKeeps(s: State)
    requires Inv(s) && s.Up? && s.worker.Parked?
    ensures Inv(s.(wake := false, worker := Looping))
  {
    SameMemory(s, s.(wake := false, worker := Looping));
  }

  lemma ReturnsKeep(s: State, a: Action)
    requires Inv(s) && Enabled(s, a) && (a.RefreshReturns? || a.ReloadReturns?)
    ensures Inv(Do(s, a))
  {
    var t := Do(s, a);
    WorkerGoes(s, t.worker);
    LogGrows(s.(worker := t.worker), t.log);
  }

  lemma SaveHeldOwed(s: State, now: int)
    requires Inv(s) && s.Up? && Saving(s.worker) && MutexFree(s)
    ensures OwedInv(SaveHeld(s, now))
  {
    var t := SaveHeld(s, now);
    var job := s.worker.job;
    var stored := job.(updatedAt := now);
    assert HeldOwed(s.worker) == [job.id];
    assert OwedIds(s.table, s.jobs) == [job.id] + s.queue;
    assert OwedIds(s.table, s.jobs)[0] == job.id;
    if Active(job) {
      OwedRewrite(s.table, stored, s.jobs);
      assert OwedQueue(t) == OwedQueue(s);
    } else {
      OwedFinish(s.table, stored, s.jobs);
      WithoutHead(s.queue, job.id);
      assert OwedQueue(t) == s.queue;
    }
  }

  lemma SaveHeldTable(s: State, now: int)
    requires Inv(s) && s.Up? && Saving(s.worker) && MutexFree(s)
    ensures TableInv(SaveHeld(s, now).table, s.used) && MemoryInv(SaveHeld(s, now)) && KeysInv(SaveHeld(s, now))
    ensures s.worker.job.(updatedAt := now) in SaveHeld(s, now).table
  {
    var stored := s.worker.job.(updatedAt := now);
    UpsertRows(s.table, stored);
    assert IdsOf(SaveHeld(s, now).table) == IdsOf(s.table);
  }

  lemma SaveHeldKeeps(s: State, now: int)
    requires Inv(s) && s.Up? && Saving(s.worker) && MutexFree(s)
    ensures Inv(SaveHeld(s, now))
  {
    SaveHeldOwed(s, now);
    SaveHeldTable(s, now);
    assert WorkerInv(SaveHeld(s, now));
    assert QueueInv(SaveHeld(s, now));
  }

  lemma PublishOwed(s: State)
    requires s.Up? && Publishes(s.worker) && s.adm.NoAdmission? && DistinctIds(s.table) && OwedInv(s)
    requires QueueInv(s) && WorkerInv(s)
    ensures OwedInv(PublishHeld(s))
  {
    OwedLearn(s.table, s.worker.stage.stored, s.jobs);
    assert OwedQueue(PublishHeld(s)) == OwedQueue(s);
  }

  lemma PublishMemory(s: State)
    requires s.Up? && Publishes(s.worker) && s.adm.NoAdmission? && TableInv(s.table, s.used) && MemoryInv(s) && KeysInv(s)
    requires s.worker.stage.stored in s.table && s.worker.stage.stored.id in s.jobs
    ensures MemoryInv(PublishHeld(s)) && KeysInv(PublishHeld(s))
  {
    var stored := s.worker.stage.stored;
    forall r | r in s.table && r.id == stored.id ensures r == stored {
      SameRow(s.table, r, stored);
    }
    assert PublishHeld(s).jobs.Keys == s.jobs.Keys;
  }

  lemma PublishQueue(s: State)
    requires s.Up? && Publishes(s.worker) && QueueInv(s) && WorkerInv(s)
    ensures QueueInv(PublishHeld(s)) && WorkerInv(PublishHeld(s))
  {
  }

  lemma PublishKeeps(s: State)
    requires Inv(s) && s.Up? && Publishes(s.worker)
    ensures Inv(PublishHeld(s))
  {
    PublishOwed(s);
    PublishMemory(s);
    PublishQueue(s);
  }

  lemma ForgetHeldOwed(s: State, failure: string)
    requires s.Up? && s.worker.Holding? && s.worker.stage.FailedUnsaved? && s.adm.NoAdmission? && OwedInv(s) && QueueInv(s) && WorkerInv(s)
    ensures OwedInv(ForgetHeld(s, failure))
  {
    var t := ForgetHeld(s, failure);
    var id := s.worker.job.id;
    OwedForget(s.table, t.jobs[id], s.jobs);
    WithoutHead(s.queue, id);
    assert OwedQueue(s) == [id] + s.queue;
    assert OwedQueue(t) == s.queue;
  }

  lemma ForgetHeldQueue(s: State, failure: string)
    requires s.Up? && s.worker.Holding? && s.worker.stage.FailedUnsaved? && QueueInv(s) && WorkerInv(s)
    ensures QueueInv(ForgetHeld(s, failure))
  {
  }

  lemma ForgetHeldKeeps(s: State, failure: string)
    requires Inv(s) && s.Up? && s.worker.Holding? && s.worker.stage.FailedUnsaved? && MutexFree(s)
    ensures Inv(ForgetHeld(s, failure))
  {
    ForgetHeldOwed(s, failure);
    ForgetHeldQueue(s, failure);
    assert ForgetHeld(s, failure).jobs.Keys == s.jobs.Keys;
  }

  // --------------------------------------------------------- process steps

  /** Same ids in the same places, and only unfinished rows differ. */
  ghost predicate SameShape(rows: seq<Job>, rows': seq<Job>) {
    && |rows'| == |rows|
    && forall i :: 0 <= i < |rows| ==>
         && rows'[i].id == rows[i].id && rows'[i].listId == rows[i].listId
         && rows'[i].createdAt == rows[i].createdAt && rows'[i].result == rows[i].result
         && (Active(rows'[i]) <==> Active(rows[i]))
         && (rows'[i] == rows[i] || Active(rows[i]))
  }

  lemma {:induction false} SameShapeFacts(rows: seq<Job>, rows': seq<Job>)
    requires SameShape(rows, rows')
    ensures ActiveIds(rows') == ActiveIds(rows)
    ensures IdsOf(rows') == IdsOf(rows)
    ensures DistinctIds(rows) ==> DistinctIds(rows')
  {
    forall id ensures id in IdsOf(rows) <==> id in IdsOf(rows') {
      if id in IdsOf(rows) {
        var i :| 0 <= i < |rows| && rows[i].id == id;
        assert rows'[i].id == id;
      }
      if id in IdsOf(rows') {
        var i :| 0 <= i < |rows'| && rows'[i].id == id;
        assert rows[i].id == id;
      }
    }
    if rows != [] {
      assert SameShape(rows[1..], rows'[1..]);
      SameShapeFacts(rows[1..], rows'[1..]);
    }
  }

  lemma {:induction false} ResetRowsAt(rows: seq<Job>, now: int)
    ensures |ResetRows(rows, now)| == |rows|
    ensures forall i :: 0 <= i < |rows| ==> ResetRows(rows, now)[i] == ResetRow(rows[i], now)
    ensures SameShape(rows, ResetRows(rows, now))
  {
    if rows != [] {
      ResetRowsAt(rows[1..], now);
    }
  }

  lemma PartialResetShape(rows: seq<Job>, done: nat, now: int)
    requires done <= |rows|
    ensures SameShape(rows, ResetRows(rows[..done], now) + rows[done..])
  {
    ResetRowsAt(rows[..done], now);
  }

  lemma {:induction false} JobsOfRows(rows: seq<Job>)
    requires DistinctIds(rows)
    ensures JobsOf(rows).Keys == IdsOf(rows)
    ensures forall r :: r in rows ==> r.id in JobsOf(rows) && JobsOf(rows)[r.id] == r
    ensures |JobsOf(rows)| == |rows|
  {
    if rows == [] {
      assert IdsOf(rows) == {};
    } else {
      var n := |rows| - 1;
      var front := rows[..n];
      IdsLast(rows);
      JobsOfRows(front);
      hide DistinctIds, IdsOf;
      forall r | r in rows ensures r == rows[n] || r in front {
        var i :| 0 <= i < |rows| && rows[i] == r;
        if i < n { assert front[i] == r; }
      }
    }
  }

  lemma IdsLast(rows: seq<Job>)
    requires rows != [] && DistinctIds(rows)
    ensures var n := |rows| - 1;
            && DistinctIds(rows[..n])
            && IdsOf(rows) == IdsOf(rows[..n]) + {rows[n].id}
            && rows[n].id !in IdsOf(rows[..n])
            && forall r :: r in rows[..n] ==> r.id != rows[n].id
  {
    var n := |rows| - 1;
    var front := rows[..n];
    forall id | id in IdsOf(rows) ensures id in IdsOf(front) + {rows[n].id} {
      var i :| 0 <= i < |rows| && rows[i].id == id;
      if i < n { assert front[i].id == id; }
    }
    forall id | id in IdsOf(front) ensures id in IdsOf(rows) {
      var i :| 0 <= i < |front| && front[i].id == id;
      assert rows[i].id == id;
    }
    assert rows[n].id in IdsOf(rows);
  }

  /** Reset rows and the map built from them owe exactly what the old rows left unfinished. */
  lemma ResetOwed(rows: seq<Job>, now: int)
    requires DistinctIds(rows)
    ensures var reset := ResetRows(rows, now);
            && ActiveIds(reset) == ActiveIds(rows) == OwedIds(reset, JobsOf(reset))
            && DistinctIds(reset) && IdsOf(reset) == IdsOf(rows) && |reset| == |rows|
            && Distinct(ActiveIds(reset))
  {
    var reset := ResetRows(rows, now);
    ResetRowsAt(rows, now);
    SameShapeFacts(rows, reset);
    JobsOfRows(reset);
    ActiveDistinct(reset);
    OwedVersusActive(reset, JobsOf(reset));
  }

  lemma RecoveredOwed(s: State, now: int)
    requires s.Down? && DistinctIds(s.table)
    ensures var t := Recovered(s, now);
            && OwedInv(t) && NoShadow(t) && t.queue == ActiveIds(s.table) && Distinct(t.queue)
            && t.jobs.Keys == IdsOf(t.table) && IdsOf(t.table) == IdsOf(s.table)
            && |t.jobs| == |t.table| == |s.table| && DistinctIds(t.table)
            && forall r :: r in t.table ==> r.id in t.jobs && t.jobs[r.id] == r
  {
    hide ResetRows, JobsOf, ActiveIds, OwedIds, IdsOf, DistinctIds, Distinct;
    var rows := ResetRows(s.table, now);
    ResetOwed(s.table, now);
    JobsOfRows(rows);
    NothingShadowed(rows);
    assert OwedQueue(Recovered(s, now)) == [] + ActiveIds(s.table) + [] == ActiveIds(s.table);
  }

  /** A table owes everything unfinished to the memory that was built from it. */
  lemma NothingShadowed(rows: seq<Job>)
    requires DistinctIds(rows)
    ensures forall r :: r in rows && Active(r) ==> Owed(r, JobsOf(rows))
  {
    JobsOfRows(rows);
    hide JobsOf, DistinctIds;
  }

  lemma RecoveredQueue(s: State, now: int)
    requires s.Down? && DistinctIds(s.table)
    ensures QueueInv(Recovered(s, now)) && MemoryIdsInv(Recovered(s, now))
  {
    var t := Recovered(s, now);
    RecoveredOwed(s, now);
    ResetRowsAt(s.table, now);
    SameShapeFacts(s.table, t.table);
    forall id | id in t.queue ensures id in t.jobs && t.jobs[id].status.Queued? {
      ActiveMembers(t.table, id);
    }
    forall id | id in t.jobs ensures t.jobs[id].id == id && (Active(t.jobs[id]) ==> id in t.queue) {
      var row := RowById(t.table, id);
      ActiveMembers(t.table, id);
    }
  }

  ghost predicate MemoryIdsInv(s: State)
    requires s.Up?
  {
    forall id :: id in s.jobs ==> s.jobs[id].id == id
  }

  lemma RecoveredKeeps(s: State, now: int)
    requires Inv(s) && s.Down?
    ensures Inv(Recovered(s, now))
  {
    RecoveredOwed(s, now);
    RecoveredQueue(s, now);
  }

  lemma RecoverFailsKeeps(s: State, done: nat, now: int)
    requires Inv(s) && s.Down? && done <= |s.table|
    ensures Inv(s.(table := ResetRows(s.table[..done], now) + s.table[done..]))
  {
    PartialResetShape(s.table, done, now);
    SameShapeFacts(s.table, ResetRows(s.table[..done], now) + s.table[done..]);
  }

  lemma SubmitterStepKeepsInv(s: State, a: Action)
    requires Inv(s) && Enabled(s, a)
    requires a.SubmitEvict? || a.ForgetVictim? || a.SubmitCreate? || a.CreateAfterEvict?
             || a.AdmitSave? || a.AdmitInsert? || a.AdmitSignal? || a.AdmitAbort?
    ensures Inv(Do(s, a))
  {
    match a
    case SubmitEvict(listId, victim) => EvictRowKeeps(s, listId, victim);
    case ForgetVictim => ForgetKeeps(s);
    case SubmitCreate(listId, id, now) =>
      if |s.jobs| >= MAX_RECORDS { VictimExists(s.jobs); }
      CreateKeeps(s, listId, id, now);
    case CreateAfterEvict(id, now) => CreateKeeps(s, s.adm.listId, id, now);
    case AdmitSave(ok) => if ok { SaveAdmissionKeeps(s); } else { SameMemory(s, Do(s, a)); }
    case AdmitInsert => InsertKeeps(s);
    case AdmitSignal => SameMemory(s, Do(s, a));
    case AdmitAbort => SameMemory(s, Do(s, a));
  }

  predicate IsWorkerAction(a: Action) {
    a.TakeWake? || a.StopParked? || a.CheckContext? || a.PopOrPark? || a.SaveRecord? || a.Publish?
    || a.RefreshReturns? || a.ReloadReturns? || a.Settle? || a.FailInMemory?
  }

  lemma PopOrParkKeeps(s: State)
    requires Inv(s) && s.Up? && s.worker.Acquiring? && MutexFree(s)
    ensures Inv(if s.queue == [] then s.(worker := Parked) else Pop(s))
  {
    if s.queue == [] { WorkerGoes(s, Parked); } else { PopKeeps(s); }
  }

  lemma SaveRecordKeeps(s: State, ok: bool, now: int, failure: string)
    requires Inv(s) && s.Up? && Saving(s.worker) && MutexFree(s)
    ensures Inv(if ok then SaveHeld(s, now) else s.(worker := SaveFailed(s.worker, failure)))
  {
    if ok { SaveHeldKeeps(s, now); } else { WorkerGoes(s, SaveFailed(s.worker, failure)); }
  }

  lemma SavingStepKeepsInv(s: State, a: Action)
    requires Inv(s) && Enabled(s, a) && (a.PopOrPark? || a.SaveRecord? || a.Publish? || a.FailInMemory?)
    ensures Inv(Do(s, a))
  {
    match a
    case PopOrPark => PopOrParkKeeps(s);
    case SaveRecord(ok, now, failure) => SaveRecordKeeps(s, ok, now, failure);
    case Publish => PublishKeeps(s);
    case FailInMemory(failure) => ForgetHeldKeeps(s, failure);
  }

  lemma MovingStepKeepsInv(s: State, a: Action)
    requires Inv(s) && Enabled(s, a) && (a.StopParked? || a.CheckContext? || a.Settle?)
    ensures Inv(Do(s, a))
  {
    WorkerGoes(s, Do(s, a).worker);
  }

  lemma WorkerStepKeepsInv(s: State, a: Action)
    requires Inv(s) && Enabled(s, a) && IsWorkerAction(a)
    ensures Inv(Do(s, a))
  {
    match a
    case TakeWake => TakeWakeKeeps(s);
    case RefreshReturns(_, _) => ReturnsKeep(s, a);
    case ReloadReturns(_, _) => ReturnsKeep(s, a);
    case StopParked => MovingStepKeepsInv(s, a);
    case CheckContext => MovingStepKeepsInv(s, a);
    case Settle => MovingStepKeepsInv(s, a);
    case _ => SavingStepKeepsInv(s, a);
  }

  lemma SignalOrCancelKeeps(s: State, a: Action)
    requires Inv(s) && Enabled(s, a) && (a.BootSignal? || a.Cancel?)
    ensures Inv(Do(s, a))
  {
    SameMemory(s, Do(s, a));
  }

  lemma ProcessStepKeepsInv(s: State, a: Action)
    requires Inv(s) && Enabled(s, a)
    requires a.BootSignal? || a.Cancel? || a.Crash? || a.RecoverFails? || a.Recover?
    ensures Inv(Do(s, a))
  {
    match a
    case RecoverFails(done, now) => RecoverFailsKeeps(s, done, now);
    case Recover(now) => RecoveredKeeps(s, now);
    case Crash =>
    case _ => SignalOrCancelKeeps(s, a);
  }

  /** Every step, failing or not, keeps the invariant. */
  lemma StepKeepsInv(s: State, a: Action)
    requires Inv(s) && Enabled(s, a)
    ensures Inv(Do(s, a))
  {
    if IsWorkerAction(a) {
      WorkerStepKeepsInv(s, a);
    } else if a.BootSignal? || a.Cancel? || a.Crash? || a.RecoverFails? || a.Recover? {
      ProcessStepKeepsInv(s, a);
    } else {
      SubmitterStepKeepsInv(s, a);
    }
  }

  lemma {:induction false} RunKeepsInv(s: State, run: seq<Action>)
    requires Inv(s) && IsRun(s, run)
    ensures Inv(Final(s, run))
    decreases |run|
  {
    if run != [] {
      StepKeepsInv(s, run[0]);
      RunKeepsInv(Do(s, run[0]), run[1..]);
    }
  }

  lemma FreshInv(hasReloader: bool)
    ensures Inv(Fresh(hasReloader))
  {
  }

  lemma {:induction false} RunSnoc(s: State, run: seq<Action>, a: Action)
    requires IsRun(s, run) && Enabled(Final(s, run), a)
    ensures IsRun(s, run + [a]) && Final(s, run + [a]) == Do(Final(s, run), a)
    decreases |run|
  {
    if run == [] {
      assert run + [a] == [a];
      assert [a][1..] == [];
    } else {
      assert (run + [a])[1..] == run[1..] + [a];
      RunSnoc(Do(s, run[0]), run[1..], a);
    }
  }
}
