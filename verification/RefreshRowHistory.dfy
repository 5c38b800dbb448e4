/** The rows of the job table move as the records in memory do. */
module RefreshRowHistory {
  import opened Options
  import opened JobTable
  import opened RefreshProtocol
  import opened RefreshInvariants
  import opened RefreshTheorems
  import opened RefreshBounds
  import opened RefreshHistory

  predicate SameState(a: Job, b: Job) {
    a.status == b.status && a.phase == b.phase
  }

  /** A row says what memory says, unless its failure could not be saved. */
  predicate Follows(row: Job, known: Job) {
    SameState(row, known) || (Active(row) && known.status.Failed?)
  }

  ghost predicate RowInv(s: State) {
    s.Up? ==>
      forall r :: r in s.table && r.id in s.jobs && !(Publishes(s.worker) && r.id == s.worker.job.id) ==> Follows(r, s.jobs[r.id])
  }

  lemma DeletesKeepRows(s: State, a: Action)
    requires s.Up? && RowInv(s) && Enabled(s, a) && (a.SubmitEvict? || a.ForgetVictim?) && DistinctIds(s.table)
    ensures RowInv(Do(s, a))
  {
    if a.SubmitEvict? { DeleteRows(s.table, a.victim); }
  }

  lemma AdmissionKeepsRows(s: State, a: Action)
    requires s.Up? && RowInv(s) && Enabled(s, a) && (a.AdmitSave? || a.AdmitInsert?)
    requires DistinctIds(s.table) && KeysInv(s) && AdmissionInv(s)
    ensures RowInv(Do(s, a))
  {
    if a.AdmitSave? && a.ok {
      UpsertRows(s.table, s.adm.job);
    } else if a.AdmitInsert? {
      forall r | r in s.table && r.id == s.adm.job.id ensures r == s.adm.job { SameRow(s.table, r, s.adm.job); }
    }
  }

  lemma SavingKeepsRows(s: State, now: int)
    requires s.Up? && RowInv(s) && Saving(s.worker) && MutexFree(s) && DistinctIds(s.table)
    ensures RowInv(SaveHeld(s, now))
  {
    UpsertRows(s.table, s.worker.job.(updatedAt := now));
  }

  lemma PublishKeepsRows(s: State)
    requires s.Up? && RowInv(s) && Publishes(s.worker) && WorkerInv(s) && DistinctIds(s.table)
    ensures RowInv(PublishHeld(s))
  {
    var stored := s.worker.stage.stored;
    forall r | r in s.table && r.id == stored.id ensures r == stored { SameRow(s.table, r, stored); }
  }

  /** The row of a job whose failure is kept in memory alone still says that it is unfinished. */
  lemma ForgetKeepsRows(s: State, failure: string)
    requires s.Up? && RowInv(s) && s.worker.Holding? && s.worker.stage.FailedUnsaved? && WorkerInv(s)
    requires s.worker.job.id in s.jobs && Active(s.jobs[s.worker.job.id])
    ensures RowInv(ForgetHeld(s, failure))
  {
  }

  lemma RecoveryKeepsRows(s: State, now: int)
    requires s.Down? && DistinctIds(s.table)
    ensures RowInv(Recovered(s, now))
  {
    RecoveredOwed(s, now);
    hide Recovered;
  }

  lemma QuietKeepsRows(s: State, a: Action)
    requires s.Up? && RowInv(s) && Enabled(s, a) && !a.Crash? && !TouchesMemory(a) && !a.SubmitEvict? && !a.AdmitSave?
    requires a.SaveRecord? ==> !a.ok
    ensures RowInv(Do(s, a))
  {
    OtherStepsKeepMemory(s, a);
    assert Do(s, a).table == s.table;
    assert Publishes(Do(s, a).worker) ==> Publishes(s.worker) && Do(s, a).worker == s.worker;
    hide Do, Enabled;
  }

  lemma StepKeepsRows(s: State, a: Action)
    requires Inv(s) && RowInv(s) && Enabled(s, a)
    ensures RowInv(Do(s, a))
  {
    if s.Down? {
      if a.Recover? { RecoveryKeepsRows(s, a.now); }
    } else if a.SubmitEvict? || a.ForgetVictim? {
      DeletesKeepRows(s, a);
    } else if a.AdmitSave? || a.AdmitInsert? {
      AdmissionKeepsRows(s, a);
    } else if a.SaveRecord? && a.ok {
      SavingKeepsRows(s, a.now);
    } else if a.Publish? {
      PublishKeepsRows(s);
    } else if a.FailInMemory? {
      ForgetKeepsRows(s, a.failure);
    } else if !a.Crash? {
      QuietKeepsRows(s, a);
    }
  }

  lemma {:induction false} RunKeepsRows(s: State, run: seq<Action>)
    requires Inv(s) && RowInv(s) && IsRun(s, run)
    ensures RowInv(Final(s, run))
    decreases |run|
  {
    if run != [] {
      StepKeepsInv(s, run[0]);
      StepKeepsRows(s, run[0]);
      RunKeepsRows(Do(s, run[0]), run[1..]);
    }
  }

  lemma SavedRowMoves(s: State, now: int, r: Job, r': Job)
    requires s.Up? && RowInv(s) && PhaseInv(s) && WorkerInv(s) && QueueInv(s) && DistinctIds(s.table)
    requires Saving(s.worker) && MutexFree(s) && r in s.table && r' in SaveHeld(s, now).table && r.id == r'.id
    ensures r' == r || Moves(r, r', s.cancelled)
  {
    var stored := s.worker.job.(updatedAt := now);
    UpsertRows(s.table, stored);
    if r.id == stored.id {
      SaveHeldKeepsPhases(s, now);
      assert Follows(r, s.jobs[r.id]) && SameState(r, s.jobs[r.id]);
      SavedAwayFromKnown(s);
      assert Moves(s.jobs[r.id], stored, s.cancelled);
    } else {
      SameRow(s.table, r, r');
    }
  }

  /** What is about to be saved is never what memory says already. */
  lemma SavedAwayFromKnown(s: State)
    requires s.Up? && PhaseInv(s) && WorkerInv(s) && QueueInv(s) && Saving(s.worker)
    ensures !SameState(s.worker.job, s.jobs[s.worker.job.id])
  {
  }

  lemma OtherRowsStay(s: State, a: Action, r: Job, r': Job)
    requires s.Up? && DistinctIds(s.table) && KeysInv(s) && AdmissionInv(s)
    requires Enabled(s, a) && !a.Crash? && !(a.SaveRecord? && a.ok)
    requires r in s.table && r' in Do(s, a).table && r.id == r'.id
    ensures r' == r
  {
    if a.SubmitEvict? {
      DeleteRows(s.table, a.victim);
    } else if a.AdmitSave? && a.ok {
      UpsertRows(s.table, s.adm.job);
    } else {
      assert Do(s, a).table == s.table;
    }
    RowIsId(s.table, r);
    SameRow(s.table, r, if r' in s.table then r' else r);
  }

  /** In a live process a row moves as a record in memory does, and only the worker's saves move one. */
  lemma RowPhasesInOrder(hasReloader: bool, run: seq<Action>, a: Action, r: Job, r': Job)
    requires IsRun(Fresh(hasReloader), run)
    requires var s := Final(Fresh(hasReloader), run);
             && s.Up? && Enabled(s, a) && Do(s, a).Up? && r in s.table && r' in Do(s, a).table && r.id == r'.id
    ensures var s := Final(Fresh(hasReloader), run);
            Moves(r, r', s.cancelled) && (r' != r ==> a.SaveRecord?)
  {
    var s := Final(Fresh(hasReloader), run);
    FreshInv(hasReloader);
    RunKeepsInv(Fresh(hasReloader), run);
    RunKeepsPhases(Fresh(hasReloader), run);
    RunKeepsRows(Fresh(hasReloader), run);
    if a.SaveRecord? && a.ok {
      SavedRowMoves(s, a.now, r, r');
    } else {
      OtherRowsStay(s, a, r, r');
    }
  }
}
