/**
 * Crash at any step, any number of failed recovery attempts, then a restart:
 * exactly when the recovered queue is the unfinished work of the old process.
 */
module RefreshRecovery {
  import opened Options
  import opened JobTable
  import opened RefreshProtocol
  import opened RefreshInvariants
  import opened RefreshBounds

  // ----------------------------------------------------------- admission order

  predicate Subsequence(a: seq<JobId>, b: seq<JobId>) {
    if a == [] then true
    else if b == [] then false
    else if a[0] == b[0] then Subsequence(a[1..], b[1..])
    else Subsequence(a, b[1..])
  }

  lemma {:induction false} SubsequenceLater(a: seq<JobId>, b: seq<JobId>)
    requires a != [] && Subsequence(a, b)
    ensures Subsequence(a[1..], b)
    decreases |b|
  {
    if a[0] == b[0] {
      if a[1..] != [] { SubsequenceSkip(a[1..], b); }
    } else {
      SubsequenceLater(a, b[1..]);
      SubsequenceSkip(a[1..], b);
    }
  }

  lemma {:induction false} SubsequenceSkip(a: seq<JobId>, b: seq<JobId>)
    requires b != [] && Subsequence(a, b[1..])
    ensures Subsequence(a, b)
    decreases |b|, 0
  {
    if a != [] && a[0] == b[0] {
      SubsequenceLater(a, b[1..]);
    }
  }

  lemma {:induction false} SubsequenceAppend(a: seq<JobId>, b: seq<JobId>, id: JobId)
    requires Subsequence(a, b)
    ensures Subsequence(a, b + [id]) && Subsequence(a + [id], b + [id])
    decreases |b|
  {
    if b == [] {
      assert a + [id] == [id] && b + [id] == [id];
    } else {
      assert (b + [id])[1..] == b[1..] + [id];
      if a == [] {
        SubsequenceAppend(a, b[1..], id);
        assert a + [id] == [id];
      } else if a[0] == b[0] {
        assert (a + [id])[1..] == a[1..] + [id];
        SubsequenceAppend(a[1..], b[1..], id);
      } else {
        SubsequenceAppend(a, b[1..], id);
      }
    }
  }

  lemma {:induction false} SubsequenceTrans(a: seq<JobId>, b: seq<JobId>, c: seq<JobId>)
    requires Subsequence(a, b) && Subsequence(b, c)
    ensures Subsequence(a, c)
    decreases |c|
  {
    if a != [] {
      if b[0] == c[0] {
        if a[0] == b[0] {
          SubsequenceTrans(a[1..], b[1..], c[1..]);
        } else {
          SubsequenceTrans(a, b[1..], c[1..]);
        }
      } else {
        SubsequenceTrans(a, b, c[1..]);
        SubsequenceSkip(a, c);
      }
    }
  }

  function RowIds(rows: seq<Job>): seq<JobId> {
    if rows == [] then [] else [rows[0].id] + RowIds(rows[1..])
  }

  lemma {:induction false} ActiveIdsInOrder(rows: seq<Job>)
    ensures Subsequence(ActiveIds(rows), RowIds(rows))
  {
    if rows != [] {
      ActiveIdsInOrder(rows[1..]);
      assert RowIds(rows)[1..] == RowIds(rows[1..]);
      if Active(rows[0]) {
        assert ActiveIds(rows)[1..] == ActiveIds(rows[1..]);
      } else {
        assert ActiveIds(rows) == ActiveIds(rows[1..]);
        SubsequenceSkip(ActiveIds(rows), RowIds(rows));
      }
    }
  }

  lemma {:induction false} DeleteKeepsOrder(rows: seq<Job>, id: JobId)
    ensures Subsequence(RowIds(DeleteRow(rows, id)), RowIds(rows))
  {
    if rows != [] {
      assert RowIds(rows)[1..] == RowIds(rows[1..]);
      if rows[0].id == id {
        SubsequenceRefl(RowIds(rows[1..]));
        SubsequenceSkip(RowIds(rows[1..]), RowIds(rows));
      } else {
        DeleteKeepsOrder(rows[1..], id);
        assert DeleteRow(rows, id)[1..] == DeleteRow(rows[1..], id);
        assert RowIds(DeleteRow(rows, id))[1..] == RowIds(DeleteRow(rows[1..], id));
      }
    }
  }

  lemma {:induction false} SubsequenceRefl(a: seq<JobId>)
    ensures Subsequence(a, a)
  {
    if a != [] { SubsequenceRefl(a[1..]); }
  }

  lemma {:induction false} UpsertKeepsOrder(rows: seq<Job>, job: Job)
    ensures RowIds(Upsert(rows, job)) == if job.id in RowIds(rows) then RowIds(rows) else RowIds(rows) + [job.id]
  {
    if rows != [] {
      assert RowIds(rows)[1..] == RowIds(rows[1..]);
      if rows[0].id == job.id {
        assert Upsert(rows, job)[1..] == rows[1..];
      } else {
        UpsertKeepsOrder(rows[1..], job);
        assert Upsert(rows, job)[1..] == Upsert(rows[1..], job);
        assert job.id in RowIds(rows) <==> job.id in RowIds(rows[1..]);
      }
    }
  }

  lemma {:induction false} ShapeKeepsOrder(rows: seq<Job>, rows': seq<Job>)
    requires SameShape(rows, rows')
    ensures RowIds(rows') == RowIds(rows)
  {
    if rows != [] {
      assert SameShape(rows[1..], rows'[1..]);
      ShapeKeepsOrder(rows[1..], rows'[1..]);
    }
  }

  lemma {:induction false} RowIdsAre(rows: seq<Job>, id: JobId)
    ensures id in RowIds(rows) <==> id in IdsOf(rows)
  {
    if rows == [] {
      assert IdsOf(rows) == {};
    } else {
      RowIdsAre(rows[1..], id);
      IdsSplit(rows);
    }
  }

  /** Rows stand in the order in which their jobs were submitted. */
  ghost predicate OrderInv(s: State) {
    if s.Up? && s.adm.Admitting? then
      s.used != [] && s.used[|s.used| - 1] == s.adm.job.id && Subsequence(RowIds(s.table), s.used[..|s.used| - 1])
    else
      Subsequence(RowIds(s.table), s.used)
  }

  lemma AdmissionKeepsOrder(s: State)
    requires s.Up? && s.adm.Admitting? && OrderInv(s) && s.adm.job.id !in IdsOf(s.table)
    ensures OrderInv(SaveAdmission(s)) && OrderInv(s.(adm := NoAdmission))
  {
    var n := |s.used| - 1;
    var id := s.adm.job.id;
    assert s.used == s.used[..n] + [id];
    SubsequenceAppend(RowIds(s.table), s.used[..n], id);
    UpsertKeepsOrder(s.table, s.adm.job);
    RowIdsAre(s.table, id);
  }

  lemma CreateKeepsOrder(s: State, listId: int, id: JobId, now: int)
    requires s.Up? && !s.adm.Admitting? && OrderInv(s)
    ensures OrderInv(Create(s, listId, id, now))
  {
    assert (s.used + [id])[..|s.used|] == s.used;
  }

  lemma RecoverKeepsOrder(s: State, a: Action)
    requires OrderInv(s) && Enabled(s, a) && (a.RecoverFails? || a.Recover?)
    ensures OrderInv(Do(s, a))
  {
    match a
    case RecoverFails(done, now) =>
      PartialResetShape(s.table, done, now);
      ShapeKeepsOrder(s.table, Do(s, a).table);
    case Recover(now) =>
      ResetRowsAt(s.table, now);
      ShapeKeepsOrder(s.table, Do(s, a).table);
  }

  lemma TableStepKeepsOrder(s: State, a: Action)
    requires s.Up? && QueueInv(s) && KeysInv(s) && OrderInv(s) && Enabled(s, a)
    requires a.SubmitEvict? || a.SaveRecord?
    ensures OrderInv(Do(s, a))
  {
    match a
    case SubmitEvict(_, victim) =>
      DeleteKeepsOrder(s.table, victim);
      SubsequenceTrans(RowIds(DeleteRow(s.table, victim)), RowIds(s.table), s.used);
    case SaveRecord(ok, now, _) =>
      if ok {
        UpsertKeepsOrder(s.table, s.worker.job.(updatedAt := now));
        RowIdsAre(s.table, s.worker.job.id);
      }
  }

  lemma OtherStepKeepsOrder(s: State, a: Action)
    requires OrderInv(s) && Enabled(s, a)
    requires !a.SubmitEvict? && !a.SaveRecord? && !a.RecoverFails? && !a.Recover? && !a.AdmitSave? && !a.SubmitCreate? && !a.CreateAfterEvict?
    ensures OrderInv(Do(s, a))
  {
    assert Do(s, a).table == s.table && Do(s, a).used == s.used;
    if a.Crash? && s.adm.Admitting? {
      var n := |s.used| - 1;
      assert s.used == s.used[..n] + [s.used[n]];
      SubsequenceAppend(RowIds(s.table), s.used[..n], s.used[n]);
    }
  }

  lemma StepKeepsOrder(s: State, a: Action)
    requires Inv(s) && OrderInv(s) && Enabled(s, a)
    ensures OrderInv(Do(s, a))
  {
    if a.AdmitSave? {
      AdmissionKeepsOrder(s);
    } else if a.SubmitCreate? || a.CreateAfterEvict? {
      CreateKeepsOrder(s, if a.SubmitCreate? then a.listId else s.adm.listId, a.id, a.now);
    } else if a.SubmitEvict? || a.SaveRecord? {
      TableStepKeepsOrder(s, a);
    } else if a.RecoverFails? || a.Recover? {
      RecoverKeepsOrder(s, a);
    } else {
      OtherStepKeepsOrder(s, a);
    }
  }

  lemma {:induction false} RunKeepsOrder(s: State, run: seq<Action>)
    requires Inv(s) && OrderInv(s) && IsRun(s, run)
    ensures OrderInv(Final(s, run))
    decreases |run|
  {
    if run != [] {
      StepKeepsInv(s, run[0]);
      StepKeepsOrder(s, run[0]);
      RunKeepsOrder(Do(s, run[0]), run[1..]);
    }
  }

  // ------------------------------------------------------------------ restart

  /** The state after a crash, the given failed recovery attempts and a successful one. */
  ghost function Restart(s: State, attempts: seq<Action>, now: int): State
    requires s.Up? && IsRun(Do(s, Crash), attempts) && forall a :: a in attempts ==> a.RecoverFails?
  {
    AttemptsStayDown(Do(s, Crash), attempts);
    Recovered(Final(Do(s, Crash), attempts), now)
  }

  lemma {:induction false} AttemptsStayDown(s: State, attempts: seq<Action>)
    requires s.Down? && IsRun(s, attempts) && forall a :: a in attempts ==> a.RecoverFails?
    ensures var t := Final(s, attempts);
            t.Down? && t.used == s.used && SameShape(s.table, t.table)
    decreases |attempts|
  {
    if attempts != [] {
      var a := attempts[0];
      assert a in attempts;
      PartialResetShape(s.table, a.done, a.now);
      AttemptsStayDown(Do(s, a), attempts[1..]);
    }
  }

  /**
   * The restarted process queues the unfinished rows. That is the held job, the
   * old queue and a saved admission, in this order, exactly when no failure
   * record was lost; and exactly then no finished job runs again.
   */
  lemma CrashRecovery(s: State, attempts: seq<Action>, now: int)
    requires Inv(s) && s.Up? && IsRun(Do(s, Crash), attempts) && forall a :: a in attempts ==> a.RecoverFails?
    ensures var t := Restart(s, attempts, now);
            && t.queue == ActiveIds(s.table)
            && (t.queue == OwedQueue(s) <==> NoShadow(s))
  {
    AttemptsStayDown(Do(s, Crash), attempts);
    var d := Final(Do(s, Crash), attempts);
    SameShapeFacts(s.table, d.table);
    RecoveredOwed(d, now);
    OwedVersusActive(s.table, s.jobs);
  }

  /** What a restart makes of a row of the old table. */
  ghost predicate RestartedAs(row: Job, now: int, job: Job) {
    if row.status == Queued || row.status == Running
    then job == Job(row.id, row.listId, Queued, PhaseQueued, row.createdAt, now, "", row.result)
    else job == row
  }

  lemma ResetOfSame(rows: seq<Job>, rows': seq<Job>, now: int)
    requires SameShape(rows, rows')
    ensures |ResetRows(rows', now)| == |rows|
    ensures forall i :: 0 <= i < |rows| ==> RestartedAs(rows[i], now, ResetRows(rows', now)[i])
  {
    ResetRowsAt(rows', now);
  }

  /** Every row of the old table is in memory after a restart, requeued if it was unfinished, else as it was. */
  lemma RestartRows(s: State, attempts: seq<Action>, now: int)
    requires s.Up? && DistinctIds(s.table)
    requires IsRun(Do(s, Crash), attempts) && forall a :: a in attempts ==> a.RecoverFails?
    ensures var t := Restart(s, attempts, now);
            && t.jobs.Keys == IdsOf(s.table)
            && forall r :: r in s.table ==> RestartedAs(r, now, t.jobs[r.id])
  {
    hide RestartedAs, ResetRow, ResetRows, JobsOf, ActiveIds, OwedIds;
    AttemptsStayDown(Do(s, Crash), attempts);
    var d := Final(Do(s, Crash), attempts);
    SameShapeFacts(s.table, d.table);
    RecoveredOwed(d, now);
    RowsAsJobs(s.table, d.table, now, Restart(s, attempts, now).jobs);
  }

  lemma RowsAsJobs(rows: seq<Job>, rows': seq<Job>, now: int, jobs: map<JobId, Job>)
    requires SameShape(rows, rows')
    requires forall r :: r in ResetRows(rows', now) ==> r.id in jobs && jobs[r.id] == r
    ensures forall r :: r in rows ==> r.id in jobs && RestartedAs(r, now, jobs[r.id])
  {
    hide RestartedAs, ResetRows;
    ResetOfSame(rows, rows', now);
    forall r | r in rows
      ensures r.id in jobs && RestartedAs(r, now, jobs[r.id])
    {
      var i :| 0 <= i < |rows| && rows[i] == r;
      RestartedId(r, now, ResetRows(rows', now)[i]);
      assert ResetRows(rows', now)[i] in ResetRows(rows', now);
    }
  }

  lemma RestartedId(row: Job, now: int, job: Job)
    requires RestartedAs(row, now, job)
    ensures job.id == row.id && (Active(job) <==> Active(row))
  {
  }

  /** Finished stays finished across a crash exactly when no failure record was lost. */
  lemma FinishedStaysFinished(s: State, attempts: seq<Action>, now: int)
    requires Inv(s) && s.Up? && IsRun(Do(s, Crash), attempts) && forall a :: a in attempts ==> a.RecoverFails?
    ensures var t := Restart(s, attempts, now);
            (forall id :: id in s.jobs && !Active(s.jobs[id]) && id in t.jobs ==> !Active(t.jobs[id])) <==> NoShadow(s)
  {
    RestartRows(s, attempts, now);
    var t := Restart(s, attempts, now);
    forall r | r in s.table ensures Active(t.jobs[r.id]) <==> Active(r) {
      RestartedId(r, now, t.jobs[r.id]);
    }
    if NoShadow(s) {
      forall id | id in s.jobs && !Active(s.jobs[id]) && id in t.jobs ensures !Active(t.jobs[id]) {
        var row := RowById(s.table, id);
      }
    } else {
      var r :| r in s.table && Active(r) && !Owed(r, s.jobs);
      RowIsId(s.table, r);
      assert Active(t.jobs[r.id]);
    }
  }

  /** Over any run, a restart queues work in the order in which it was first submitted. */
  lemma RecoveredInAdmissionOrder(hasReloader: bool, run: seq<Action>, attempts: seq<Action>, now: int)
    requires IsRun(Fresh(hasReloader), run) && Final(Fresh(hasReloader), run).Up?
    requires IsRun(Do(Final(Fresh(hasReloader), run), Crash), attempts) && forall a :: a in attempts ==> a.RecoverFails?
    ensures Subsequence(Restart(Final(Fresh(hasReloader), run), attempts, now).queue, Final(Fresh(hasReloader), run).used)
  {
    var s := Final(Fresh(hasReloader), run);
    FreshInv(hasReloader);
    RunKeepsInv(Fresh(hasReloader), run);
    RunKeepsOrder(Fresh(hasReloader), run);
    CrashRecovery(s, attempts, now);
    StepKeepsOrder(s, Crash);
    ActiveIdsInOrder(s.table);
    SubsequenceTrans(ActiveIds(s.table), RowIds(s.table), s.used);
  }
}
